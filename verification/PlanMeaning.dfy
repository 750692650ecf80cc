/**
 What the plan printer prints: on the byte form of any plan, the text of its tree; with too
 little room, nothing; and, at the outermost level alone, a text cut short without notice.
 */
module PlanMeaning {
  import opened Wrappers
  import opened Bytes
  import opened PlanTree
  import opened PlanPrinter

  // ----- index names

  function IndexText(i: IndexTree, first: bool): seq<byte> {
    match i
    case Combined(_, l, r) => IndexText(l, first) + IndexText(r, first && Names(l) == [])
    case DbKey => []
    case Index(name) => (if first then [] else [COMMA]) + name
  }

  /** Every name after a comma. */
  function Preceded(names: seq<seq<byte>>): seq<byte> {
    if names == [] then [] else Preceded(names[..|names| - 1]) + [COMMA] + names[|names| - 1]
  }

  lemma Assoc(a: seq<byte>, b: seq<byte>, c: seq<byte>)
    ensures a + (b + c) == a + b + c
  {
  }

  lemma {:induction false} PrecededConcat(a: seq<seq<byte>>, b: seq<seq<byte>>)
    ensures Preceded(a + b) == Preceded(a) + Preceded(b)
    decreases |b|
  {
    if b == [] {
      assert a + b == a;
    } else {
      var n, last := |b| - 1, [COMMA] + b[|b| - 1];
      PrecededConcat(a, b[..n]);
      PrecededLast(a + b);
      PrecededLast(b);
      assert (a + b)[..|a + b| - 1] == a + b[..n] && (a + b)[|a + b| - 1] == b[n];
      hide Preceded;
      Assoc(Preceded(a), Preceded(b[..n]), last);
    }
  }

  lemma PrecededLast(names: seq<seq<byte>>)
    requires names != []
    ensures Preceded(names) == Preceded(names[..|names| - 1]) + ([COMMA] + names[|names| - 1])
  {
    Assoc(Preceded(names[..|names| - 1]), [COMMA], names[|names| - 1]);
  }

  lemma {:induction false} CommasConcat(a: seq<seq<byte>>, b: seq<seq<byte>>)
    requires a != []
    ensures Commas(a + b) == Commas(a) + Preceded(b)
    decreases |b|
  {
    if b == [] {
      assert a + b == a;
    } else {
      var n := |b| - 1;
      CommasConcat(a, b[..n]);
      assert (a + b)[..|a + b| - 1] == a + b[..n];
    }
  }

  lemma {:induction false} IndexTextIsCommas(i: IndexTree, first: bool)
    ensures IndexText(i, first) == if first then Commas(Names(i)) else Preceded(Names(i))
  {
    match i
    case Combined(_, l, r) =>
      IndexTextIsCommas(l, first);
      IndexTextIsCommas(r, first && Names(l) == []);
      PrecededConcat(Names(l), Names(r));
      if Names(l) != [] {
        CommasConcat(Names(l), Names(r));
      } else {
        assert Names(l) + Names(r) == Names(r);
      }
    case DbKey =>
    case Index(name) =>
      assert Preceded([name]) == [COMMA] + name;
  }

  predicate Bare(plan: seq<byte>) {
    plan != [] && (plan[|plan| - 1] == OPEN || plan[|plan| - 1] == BLANK)
  }

  /** Names leave neither a parenthesis nor a blank behind. */
  lemma {:induction false} IndexTextEnd(i: IndexTree, first: bool)
    requires ValidIndices(i)
    ensures IndexText(i, first) == [] <==> Names(i) == []
    ensures Names(i) != [] ==> !Bare(IndexText(i, first))
  {
    match i
    case Combined(_, l, r) =>
      IndexTextEnd(l, first);
      IndexTextEnd(r, first && Names(l) == []);
    case DbKey =>
    case Index(name) =>
  }

  function Grown(p: Printer, s: seq<byte>, rest: seq<byte>): Printer
    requires |s| <= p.room
  {
    p.(explain := rest, room := p.room - |s|, plan := p.plan + s)
  }

  lemma GrownTwice(p: Printer, s: seq<byte>, mid: seq<byte>, u: seq<byte>, rest: seq<byte>)
    requires |s| + |u| <= p.room
    ensures Grown(Grown(p, s, mid), u, rest) == Grown(p, s + u, rest)
  {
    assert p.plan + s + u == p.plan + (s + u);
  }

  lemma IndicesOfTwo(p: Printer, a: Printer)
    requires p.explain != [] && p.explain[0] in {INDEX_AND, INDEX_OR} && Indices(p.Skip(1)) == Printing(a)
    ensures Indices(p) == Indices(a)
  {
  }

  lemma TwoIndices(i: IndexTree, first: bool)
    requires ValidIndices(i) && i.Combined?
    ensures ValidIndices(i.left) && ValidIndices(i.right)
    ensures IndexBytes(i)[0] in {INDEX_AND, INDEX_OR} && IndexBytes(i)[1..] == IndexBytes(i.left) + IndexBytes(i.right)
    ensures IndexText(i, first) == IndexText(i.left, first) + IndexText(i.right, first && Names(i.left) == [])
    ensures first && Names(i.left) == [] <==> first && IndexText(i.left, first) == []
    ensures IndexText(i.left, first) != [] ==> !Bare(IndexText(i.left, first))
  {
    IndexTextEnd(i.left, first);
  }

  lemma BareAfter(plan: seq<byte>, s: seq<byte>)
    requires plan != [] && (s != [] ==> !Bare(s))
    ensures Bare(plan + s) == (Bare(plan) && s == [])
  {
    if s == [] {
      assert plan + s == plan;
    }
  }

  lemma {:induction false} IndicesRun(p: Printer, i: IndexTree, rest: seq<byte>)
    requires ValidIndices(i) && p.explain == IndexBytes(i) + rest && p.plan != []
    requires p.room >= |IndexText(i, Bare(p.plan))|
    ensures Indices(p) == Printing(Grown(p, IndexText(i, Bare(p.plan)), rest))
    decreases i
  {
    var q := p.Skip(1);
    if i.Combined? {
      TwoIndices(i, Bare(p.plan));
      hide IndexText, IndexBytes, Indices, Names;
      var mid := IndexBytes(i.right) + rest;
      var s := IndexText(i.left, Bare(p.plan));
      assert q.explain == IndexBytes(i)[1..] + rest == IndexBytes(i.left) + mid;
      hide Bare;
      IndicesRun(q, i.left, mid);
      var a := Grown(q, s, mid);
      BareAfter(p.plan, s);
      IndicesOfTwo(p, a);
      IndicesRun(a, i.right, rest);
      GrownTwice(q, s, mid, IndexText(i.right, Bare(a.plan)), rest);
    } else {
      IndexLeafRun(p, i, rest);
    }
  }

  lemma IndexLeafRun(p: Printer, i: IndexTree, rest: seq<byte>)
    requires ValidIndices(i) && !i.Combined? && p.explain == IndexBytes(i) + rest && p.plan != []
    requires p.room >= |IndexText(i, Bare(p.plan))|
    ensures Indices(p) == Printing(Grown(p, IndexText(i, Bare(p.plan)), rest))
  {
    hide Indices, ValidIndexName, Bare;
    if i.DbKey? {
      KeyRun(p, rest);
    } else {
      NameRun(p, i.name, rest);
    }
  }

  lemma KeyRun(p: Printer, rest: seq<byte>)
    requires p.explain == [INDEX_DBKEY] + rest
    ensures Indices(p) == Printing(Grown(p, [], rest))
  {
    hide IndexName;
    assert p.Skip(1).explain == rest;
    assert p.plan + [] == p.plan;
  }

  lemma NameRun(p: Printer, name: seq<byte>, rest: seq<byte>)
    requires ValidIndexName(name) && p.explain == [INDEX_NAME, |name|] + name + rest && p.plan != []
    requires p.room >= |IndexText(Index(name), Bare(p.plan))|
    ensures Indices(p) == Printing(Grown(p, IndexText(Index(name), Bare(p.plan)), rest))
  {
    hide IndexName, ValidIndexName, IndexText, Bare;
    var q := p.Skip(1);
    assert q.explain == [|name|] + name + rest;
    IndexNameRun(q, name, rest);
  }

  lemma IndexNameRun(p: Printer, name: seq<byte>, rest: seq<byte>)
    requires ValidIndexName(name) && p.explain == [|name|] + name + rest && p.plan != []
    requires p.room >= |IndexText(Index(name), Bare(p.plan))|
    ensures IndexName(p) == Printing(Grown(p, IndexText(Index(name), Bare(p.plan)), rest))
  {
    assert p.explain[1..1 + |name|] == name;
    assert p.explain[1 + |name|..] == rest;
    assert p.plan + ([COMMA] + name) == p.plan + [COMMA] + name;
    assert [] + name == name;
  }

  // ----- one relation

  function RelationText(p: Printer, name: seq<byte>): seq<byte> {
    (if p.count == 0 then [OPEN] else if p.After(OPEN) then [] else [COMMA]) + name
  }

  lemma RelationRun(p: Printer, name: seq<byte>, rest: seq<byte>)
    requires |name| <= 255 && p.explain == [|name|] + name + rest && (p.count == 0 || p.plan != [])
    requires p.room >= |RelationText(p, name)|
    ensures Relation(p) == Printing(Grown(p, RelationText(p, name), rest))
  {
    assert p.explain[1..1 + |name|] == name;
    assert p.explain[1 + |name|..] == rest;
    var a := if p.count == 0 then p.Put([OPEN]).p else p;
    assert p.plan + ([OPEN] + name) == p.plan + [OPEN] + name;
    assert p.plan + ([COMMA] + name) == p.plan + [COMMA] + name;
    assert p.plan + ([] + name) == p.plan + name;
  }

  function HowCode(how: How): byte {
    match how
    case Natural => SEQUENTIAL
    case Indexed(_) => INDEXED
    case Navigate(_) => NAVIGATE
    case ExtNatural => EXT_SEQUENTIAL
    case ExtIndexed => EXT_INDEXED
  }

  function Tail(p: Printer): seq<byte> {
    if p.count == 0 then [CLOSE] else []
  }

  lemma AccessTextIs(how: How)
    requires !how.ExtIndexed?
    ensures HowText(how) == AccessText(HowCode(how))
                            + (if how.Named() then Commas(Names(how.indices)) else [])
                            + (if Bracketed(HowCode(how)) then [CLOSE] else [])
    ensures how.Named() ==> Bare(AccessText(HowCode(how)))
  {
  }

  lemma AccessedRun(p: Printer, how: How, rest: seq<byte>)
    requires ValidHow(how) && !how.ExtIndexed? && p.explain == HowBytes(how)[1..] + rest
    requires p.room >= |HowText(how) + Tail(p)|
    ensures Accessed(HowCode(how), p) == Printing(Counted(Grown(p, HowText(how) + Tail(p), rest)))
  {
    var text, names := AccessText(HowCode(how)), if how.Named() then Commas(Names(how.indices)) else [];
    AccessTextIs(how);
    hide AccessText, Indices, HowText;
    var a := Grown(p, text, p.explain);
    assert p.Put(text) == Printing(a);
    if !how.Named() {
      assert p.explain == rest;
      assert a == Grown(p, text + [], rest);
    } else {
      IndexTextIsCommas(how.indices, true);
      assert Bare(a.plan);
      assert p.explain == IndexBytes(how.indices) + rest;
      IndicesRun(a, how.indices, rest);
      GrownTwice(p, text, p.explain, names, rest);
    }
    var tail := if Bracketed(HowCode(how)) then [CLOSE] else [];
    AccessedEnd(p, how, Grown(p, text + names, rest), tail);
    GrownTwice(p, text + names, rest, tail, rest);
    GrownTwice(p, text + names + tail, rest, Tail(p), rest);
  }

  lemma AccessedEnd(p: Printer, how: How, b: Printer, tail: seq<byte>)
    requires !how.ExtIndexed? && p.Put(AccessText(HowCode(how))).Printing?
    requires var a := p.Put(AccessText(HowCode(how))).p;
             if how.Named() then Indices(a) == Printing(b) else b == a
    requires tail == (if Bracketed(HowCode(how)) then [CLOSE] else []) && |tail + Tail(p)| <= b.room
    ensures Accessed(HowCode(how), p) == Printing(Counted(Grown(Grown(b, tail, b.explain), Tail(p), b.explain)))
  {
    hide AccessText, Indices;
    assert b.plan + [] == b.plan;
    assert Bracketed(HowCode(how)) || HowCode(how) == NAVIGATE <==> how.Named();
  }

  // ----- the loops

  function Continue(goal: Goal, p: Printer): Outcome {
    if Done(goal, p) then Printing(p) else Items(goal, p)
  }

  lemma ItemsStep(goal: Goal, p: Printer, q: Printer)
    requires Item(p) == Printing(q)
    ensures Items(goal, p) == Continue(goal, q)
  {
  }

  /** A loop that a whole tree cannot end before its last item. */
  predicate Open(goal: Goal, p: Printer) {
    match goal
    case Streams => p.count > 0
    case Back(level) => level <= p.level
    case Whole => true
  }

  lemma {:induction false} EndsRun(goal: Goal, p: Printer, n: nat, rest: seq<byte>)
    requires n > 0 && p.explain == EndBytes(n) + rest && p.level >= n && p.room > 0
    requires Open(goal, p.(level := p.level - n)) && (goal.Streams? ==> p.level > n)
    ensures Items(goal, p) == Continue(goal, p.(explain := rest, level := p.level - n))
    decreases n
  {
    var q := p.(explain := EndBytes(n - 1) + rest, level := p.level - 1);
    assert p.Skip(1).explain == EndBytes(n - 1) + rest;
    assert Item(p) == Printing(q);
    ItemsStep(goal, p, q);
    if n > 1 {
      EndsRun(goal, q, n - 1, rest);
    } else {
      assert q.explain == rest;
    }
  }

  function Due(p: Printer): bool {
    p.count != 0 && !p.After(OPEN)
  }

  function CommaDue(p: Printer): seq<byte> {
    if Due(p) then [COMMA] else []
  }

  function Prefix(p: Printer): seq<byte> {
    if p.level == 0 then PLAN_TEXT else []
  }

  /** The text a tree adds. */
  function Added(p: Printer, t: Plan): seq<byte> {
    Prefix(p) + (CommaDue(p) + Text(t, p.count != 0))
  }

  /** Where the printer is when a tree's core is read. */
  function Beyond(p: Printer, t: Plan, rest: seq<byte>): Printer
    requires |Added(p, t)| <= p.room
  {
    Counted(Grown(p, Added(p, t), rest)).(level := p.level + Ends(t))
  }

  predicate Ready(p: Printer) {
    (p.level == 0 ==> p.count == 0) && (p.count > 0 ==> p.plan != [])
  }

  lemma BeginRun(goal: Goal, p: Printer, s: seq<byte>) returns (q: Printer)
    requires p.explain == [RSB_BEGIN] + s && s != [] && Open(goal, p) && Ready(p)
    requires p.room > |Prefix(p)|
    ensures Items(goal, p) == Items(goal, q)
    ensures q == Grown(p, Prefix(p), s).(level := p.level + 1) && Item(p) == Printing(q)
  {
    q := Grown(p, Prefix(p), s).(level := p.level + 1);
    assert p.Skip(1).explain == s;
    assert p.plan + [] == p.plan;
    ItemsStep(goal, p, q);
  }

  lemma TypeRun(p: Printer, code: byte, s: seq<byte>)
    requires p.explain == [RSB_TYPE, code] + s
    ensures Item(p) == Typed(code, p.(explain := s))
  {
    assert p.Skip(1).explain == [code] + s;
    assert p.Skip(1).Skip(1) == p.(explain := s);
  }

  lemma HeadingRun(p: Printer, s: seq<byte>)
    requires |CommaDue(p) + s| <= p.room
    ensures Heading(p, Due(p), s) == Printing(Grown(p, CommaDue(p) + s, p.explain))
  {
    assert p.plan + ([COMMA] + s) == p.plan + [COMMA] + s;
    assert [] + s == s;
  }

  lemma AccessTextRun(p: Printer, q: Printer, name: seq<byte>, how: How)
    requires Ready(p) && q.count == p.count && (p.level > 0 ==> q.plan == p.plan)
    ensures Prefix(p) + (RelationText(q, name) + (HowText(how) + Tail(q))) == Added(p, Access(name, how))
  {
    hide HowText;
    if p.count == 0 {
      assert [OPEN] + name + (HowText(how) + [CLOSE]) == [] + ([OPEN] + name + HowText(how) + [CLOSE]);
    } else {
      assert CommaDue(p) + name + (HowText(how) + []) == CommaDue(p) + (name + HowText(how));
    }
  }

  /** Inside a tree: between its begin and its last item. */
  predicate Inside(goal: Goal, p: Printer) {
    && p.level > 0 && Ready(p)
    && match goal
       case Streams => p.count > 0
       case Back(level) => level < p.level
       case Whole => true
  }

  lemma RelationStep(goal: Goal, q: Printer, name: seq<byte>, tail: seq<byte>)
    requires Inside(goal, q) && |name| <= 255 && q.explain == [RSB_RELATION, |name|] + name + tail && tail != []
    requires q.room > |RelationText(q, name)|
    ensures Items(goal, q) == Items(goal, Grown(q, RelationText(q, name), tail))
    ensures Item(q) == Printing(Grown(q, RelationText(q, name), tail))
  {
    var s := q.Skip(1);
    assert s.explain == [|name|] + name + tail;
    assert RelationText(s, name) == RelationText(q, name);
    RelationRun(s, name, tail);
    assert Item(q) == Relation(s) by {
      hide Relation;
    }
    ItemsStep(goal, q, Grown(q, RelationText(q, name), tail));
  }

  lemma HowStep(goal: Goal, r: Printer, how: How, rest: seq<byte>)
    requires ValidHow(how) && !how.ExtIndexed? && r.explain == [RSB_TYPE] + HowBytes(how) + rest
    requires r.room >= |HowText(how) + Tail(r)|
    ensures Items(goal, r) == Continue(goal, Counted(Grown(r, HowText(how) + Tail(r), rest)))
    ensures Item(r) == Printing(Counted(Grown(r, HowText(how) + Tail(r), rest)))
  {
    var s := r.(explain := HowBytes(how)[1..] + rest);
    HowBytesStart(how, rest);
    TypedAccess(how, s);
    assert Tail(s) == Tail(r);
    hide Accessed, HowText, HowBytes, Item, Items, Typed, HowCode, Tail, Continue, ValidHow;
    TypeRun(r, HowCode(how), s.explain);
    AccessedRun(s, how, rest);
    ItemsStep(goal, r, Counted(Grown(s, HowText(how) + Tail(s), rest)));
  }

  lemma TypedAccess(how: How, p: Printer)
    ensures Typed(HowCode(how), p) == Accessed(HowCode(how), p)
  {
    hide Accessed;
  }

  lemma HowBytesStart(how: How, rest: seq<byte>)
    requires ValidHow(how)
    ensures [RSB_TYPE] + HowBytes(how) + rest == [RSB_TYPE, HowCode(how)] + (HowBytes(how)[1..] + rest)
  {
    assert HowBytes(how) == [HowCode(how)] + HowBytes(how)[1..] by {
      hide IndexBytes;
    }
    hide HowBytes, HowCode;
  }

  lemma AccessBytes(name: seq<byte>, how: How, rest: seq<byte>)
    requires Valid(Access(name, how))
    ensures Core(Access(name, how)) + rest == [RSB_BEGIN] + ([RSB_RELATION, |name|] + name + ([RSB_TYPE] + HowBytes(how) + rest))
  {
    hide HowBytes;
  }

  lemma AccessBody(goal: Goal, q: Printer, name: seq<byte>, how: How, rest: seq<byte>)
    requires Inside(goal, q) && Valid(Access(name, how)) && !how.ExtIndexed?
    requires q.explain == [RSB_RELATION, |name|] + name + ([RSB_TYPE] + HowBytes(how) + rest)
    requires q.room > |RelationText(q, name) + (HowText(how) + Tail(q))|
    ensures Items(goal, q) == Continue(goal, Counted(Grown(q, RelationText(q, name) + (HowText(how) + Tail(q)), rest)))
  {
    hide Items, HowText, Continue, RelationText, Tail;
    var tail := [RSB_TYPE] + HowBytes(how) + rest;
    var text := RelationText(q, name);
    hide HowBytes;
    RelationStep(goal, q, name, tail);
    var r := Grown(q, text, tail);
    TailSame(q, r);
    HowStep(goal, r, how, rest);
    GrownTwice(q, text, tail, HowText(how) + Tail(q), rest);
  }

  /** A tree's items, counted from behind its begin. */
  lemma BeyondFrom(p: Printer, t: Plan, body: seq<byte>, text: seq<byte>, rest: seq<byte>)
    requires Prefix(p) + text == Added(p, t) && |Added(p, t)| <= p.room && Ends(t) > 0
    ensures var q := Grown(p, Prefix(p), body).(level := p.level + 1);
            && |text| <= q.room
            && Counted(Grown(q, text, rest)).(level := q.level + Ends(t) - 1) == Beyond(p, t, rest)
            && (Ends(t) == 1 ==> Counted(Grown(q, text, rest)) == Beyond(p, t, rest))
  {
    hide Added, Prefix, Text, Ends;
    GrownTwice(p, Prefix(p), body, text, rest);
  }

  lemma AccessRun(goal: Goal, p: Printer, name: seq<byte>, how: How, rest: seq<byte>)
    requires var t := Access(name, how);
             && Valid(t) && Printable(t) && p.explain == Core(t) + rest && Open(goal, p) && Ready(p) && p.room > |Added(p, t)|
    ensures Items(goal, p) == Continue(goal, Beyond(p, Access(name, how), rest))
  {
    AccessBytes(name, how, rest);
    var body := [RSB_RELATION, |name|] + name + ([RSB_TYPE] + HowBytes(how) + rest);
    var q := Grown(p, Prefix(p), body).(level := p.level + 1);
    NoPrefix(p);
    AccessTextRun(p, q, name, how);
    var text := RelationText(q, name) + (HowText(how) + Tail(q));
    hide Items, HowText, Core, Continue, HowBytes, RelationText, Tail, Added, Text, Prefix;
    var q' := BeginRun(goal, p, body);
    assert Prefix(p) + text == Added(p, Access(name, how));
    AccessBody(goal, q, name, how, rest);
    hide Counted, Grown, Beyond;
    BeyondFrom(p, Access(name, how), body, text, rest);
  }

  lemma NoPrefix(p: Printer)
    ensures p.level > 0 ==> p.plan + Prefix(p) == p.plan
  {
  }

  lemma TailSame(q: Printer, r: Printer)
    requires q.count == r.count
    ensures Tail(q) == Tail(r)
  {
  }

  // ----- joins, sorts, filters

  lemma JoinBytes(kind: JoinType, ts: Plans, rest: seq<byte>)
    requires Valid(Join(kind, ts))
    ensures Core(Join(kind, ts)) + rest == [RSB_BEGIN] + ([RSB_TYPE, JoinCode(kind)] + ([Count(ts)] + (CoreAll(ts) + rest)))
  {
    hide CoreAll;
  }

  lemma SortBytes(u: Plan, rest: seq<byte>)
    requires Valid(u)
    ensures Core(Sort(u)) + rest == [RSB_BEGIN] + ([RSB_TYPE, SORT] + (Dumped(u) + rest))
    ensures Dumped(u) + rest == Core(u) + (EndBytes(Ends(u)) + rest)
  {
  }

  lemma FilterBytes(code: byte, u: Plan, rest: seq<byte>)
    requires Valid(Filter(code, u))
    ensures Core(Filter(code, u)) + rest == [RSB_BEGIN] + ([RSB_TYPE, code] + (Core(u) + rest))
  {
  }

  lemma ListBytes(t: Plan, ts: Plans, rest: seq<byte>)
    requires Valid(t) && ValidAll(ts)
    ensures CoreAll(More(t, ts)) + rest == Core(t) + (EndBytes(Ends(t)) + (CoreAll(ts) + rest))
  {
  }

  /** A stream's text ends in no opening parenthesis, so the next one gets its comma. */
  lemma {:induction false} TextEnd(t: Plan)
    requires Valid(t)
    ensures Text(t, true) != [] && Text(t, true)[|Text(t, true)| - 1] != OPEN
  {
    match t
    case Access(name, how) =>
      if how.Named() {
        IndexTextIsCommas(how.indices, true);
        IndexTextEnd(how.indices, true);
      }
    case Join(_, _) =>
    case Sort(u) =>
    case Filter(_, u) => TextEnd(u);
  }

  lemma CommaAfter(plan: seq<byte>, s: seq<byte>, p: Printer)
    requires s != [] && s[|s| - 1] != OPEN && p.plan == plan + s && p.count > 0
    ensures CommaDue(p) == [COMMA]
  {
  }

  lemma NoCommaAfter(plan: seq<byte>, s: seq<byte>, p: Printer)
    requires s != [] && s[|s| - 1] == OPEN && p.plan == plan + s
    ensures CommaDue(p) == []
  {
  }

  lemma EndsAtLeastOne(t: Plan)
    ensures Ends(t) > 0
  {
  }

  lemma AddedInside(p: Printer, t: Plan)
    requires p.level > 0
    ensures Added(p, t) == CommaDue(p) + Text(t, p.count != 0)
  {
    assert [] + (CommaDue(p) + Text(t, p.count != 0)) == CommaDue(p) + Text(t, p.count != 0);
  }

  lemma AddedFromBegin(p: Printer, q: Printer, t: Plan)
    requires Ready(p) && q.count == p.count && q.plan == p.plan + Prefix(p)
    ensures Prefix(p) + (CommaDue(q) + Text(t, q.count != 0)) == Added(p, t)
  {
    NoPrefix(p);
  }

  /** A stream that is not the last, its end markers included. */
  lemma {:induction false} StreamStep(p: Printer, t: Plan, more: seq<byte>)
    requires Valid(t) && Printable(t) && p.explain == Core(t) + (EndBytes(Ends(t)) + more)
    requires p.count > 1 && p.level > 0 && p.plan != [] && p.room > |CommaDue(p) + Text(t, true)|
    ensures Items(Streams, p) == Items(Streams, Grown(p, CommaDue(p) + Text(t, true), more).(count := p.count - 1))
    decreases t, 1
  {
    hide Items, Text, CommaDue, Core, EndBytes, Ends, Added;
    AddedInside(p, t);
    TreeRun(Streams, p, t, EndBytes(Ends(t)) + more);
    EndsAtLeastOne(t);
    EndsRun(Streams, Beyond(p, t, EndBytes(Ends(t)) + more), Ends(t), more);
  }

  /** A list of streams: each tree, its end markers, the next; the last one's stay unread. */
  lemma {:induction false} StreamsRun(p: Printer, ts: Plans, rest: seq<byte>)
    requires ValidAll(ts) && PrintableAll(ts) && p.explain == CoreAll(ts) + rest
    requires p.count == Count(ts) && p.level > 0 && p.plan != []
    requires p.room > |CommaDue(p) + ListText(ts)|
    ensures Items(Streams, p)
            == Printing(Grown(p, CommaDue(p) + ListText(ts), rest).(count := 0, level := p.level + EndsOfLast(ts)))
    decreases ts, 0
  {
    var t := ts.head;
    if ts.One? {
      AddedInside(p, t);
      hide Items, Text, Core, CommaDue, Ends, Added;
      TreeRun(Streams, p, t, rest);
    } else {
      var text, last := CommaDue(p) + Text(t, true), [COMMA] + ListText(ts.tail);
      assert text + last == CommaDue(p) + ListText(ts);
      var more := CoreAll(ts.tail) + rest;
      ListBytes(t, ts.tail, rest);
      TextEnd(t);
      hide Items, Text, ListText, Core, CoreAll, EndBytes, Ends, EndsOfLast;
      StreamStep(p, t, more);
      var r := Grown(p, text, more).(count := p.count - 1);
      CommaAfter(p.plan + CommaDue(p), Text(t, true), r);
      hide CommaDue;
      StreamsRun(r, ts.tail, rest);
      GrownTwice(p, text, more, last, rest);
    }
  }

  /** The heading of a join, and what its list of streams starts with. */
  lemma JoinHead(p: Printer, kind: JoinType, ts: Plans, rest: seq<byte>) returns (b: Printer, c: Printer)
    requires Ready(p) && Count(ts) <= 127 && p.explain == [Count(ts)] + rest
    requires |CommaDue(p) + JoinText(kind)| <= p.room
    ensures Heading(p, Due(p), JoinText(kind)) == Printing(b) && b.explain == p.explain
    ensures c == Grown(p, CommaDue(p) + JoinText(kind), rest).(count := Count(ts)) && CommaDue(c) == [] && c.plan != []
    ensures Counts(b) == Items(Streams, c)
  {
    b := Grown(p, CommaDue(p) + JoinText(kind), p.explain);
    c := Grown(p, CommaDue(p) + JoinText(kind), rest).(count := Count(ts));
    HeadingRun(p, JoinText(kind));
    hide Items, Heading;
    assert p.plan + (CommaDue(p) + JoinText(kind)) == p.plan + CommaDue(p) + JoinText(kind);
    NoCommaAfter(p.plan + CommaDue(p), JoinText(kind), c);
    assert b.Skip(1).(count := Count(ts)) == c;
  }

  lemma JoinTextIs(comma: seq<byte>, kind: JoinType, ts: Plans, joined: bool)
    ensures comma + Text(Join(kind, ts), joined) == comma + JoinText(kind) + ListText(ts) + [CLOSE]
  {
    hide JoinText, ListText;
    assert comma + (JoinText(kind) + ListText(ts) + [CLOSE]) == comma + JoinText(kind) + ListText(ts) + [CLOSE];
  }

  /** A join from its parts. */
  lemma JoinedParts(kind: JoinType, p: Printer, b: Printer, d: Printer)
    requires p.explain != [] && Ready(p) && Heading(p, Due(p), JoinText(kind)) == Printing(b)
    requires b.explain != [] && Counts(b) == Printing(d) && d.room > 0
    ensures Joined(JoinCode(kind), p) == Printing(Counted(Grown(d, [CLOSE], d.explain).(count := p.count)))
  {
    hide Heading, Counts;
    assert JoinText(kind) == if JoinCode(kind) == MERGE then MERGE_TEXT else JOIN_TEXT;
  }

  lemma {:induction false} JoinedRun(p: Printer, kind: JoinType, ts: Plans, rest: seq<byte>)
    requires Valid(Join(kind, ts)) && PrintableAll(ts) && p.explain == [Count(ts)] + (CoreAll(ts) + rest) && p.level > 0 && Ready(p)
    requires p.room > |CommaDue(p) + Text(Join(kind, ts), p.count != 0)|
    ensures Joined(JoinCode(kind), p)
            == Printing(Counted(Grown(p, CommaDue(p) + Text(Join(kind, ts), p.count != 0), rest)).
                        (level := p.level + EndsOfLast(ts)))
    decreases ts, 1
  {
    JoinTextIs(CommaDue(p), kind, ts, p.count != 0);
    var head := CommaDue(p) + JoinText(kind);
    hide Joined, Items, Text, ListText, JoinText, CoreAll, Counts, EndsOfLast, Heading, Due;
    var b, c := JoinHead(p, kind, ts, CoreAll(ts) + rest);
    assert [] + ListText(ts) == ListText(ts);
    hide CommaDue;
    StreamsRun(c, ts, rest);
    GrownTwice(p, head, CoreAll(ts) + rest, ListText(ts), rest);
    GrownTwice(p, head + ListText(ts), rest, [CLOSE], rest);
    var d := Grown(c, ListText(ts), rest).(count := 0, level := p.level + EndsOfLast(ts));
    JoinedParts(kind, p, b, d);
  }

  /** The start of a stream is not taken for a union's. */
  lemma NoUnion(u: Plan, rest: seq<byte>)
    requires Valid(u)
    ensures var b := Dumped(u) + rest;
            b != [] && !(|b| > 2 && b[0] == RSB_BEGIN && b[1] == RSB_TYPE && b[2] == UNION)
  {
  }

  lemma SortHead(p: Printer) returns (b: Printer)
    requires Ready(p) && |CommaDue(p) + SORT_TEXT| <= p.room
    ensures Heading(p, Due(p), SORT_TEXT) == Printing(b) && b == Grown(p, CommaDue(p) + SORT_TEXT, p.explain)
    ensures CommaDue(b) == [] && b.plan != []
  {
    b := Grown(p, CommaDue(p) + SORT_TEXT, p.explain);
    HeadingRun(p, SORT_TEXT);
    hide Heading;
    assert p.plan + (CommaDue(p) + SORT_TEXT) == p.plan + CommaDue(p) + SORT_TEXT;
    NoCommaAfter(p.plan + CommaDue(p), SORT_TEXT, b);
  }

  lemma SortTextIs(comma: seq<byte>, u: Plan, joined: bool)
    ensures comma + Text(Sort(u), joined) == comma + SORT_TEXT + Text(u, joined) + [CLOSE]
  {
  }

  lemma SortedParts(p: Printer, b: Printer, c: Printer)
    requires p.explain != [] && Ready(p) && Heading(p, Due(p), SORT_TEXT) == Printing(b)
    requires !(|p.explain| > 2 && p.explain[0] == RSB_BEGIN && p.explain[1] == RSB_TYPE && p.explain[2] == UNION)
    requires b.explain != [] && b.room > 0 && Items(Back(p.level), b) == Printing(c) && c.room > 0
    ensures Sorted(p) == Printing(Grown(c, [CLOSE], c.explain))
  {
    hide Heading, Items;
  }

  /** What is sorted is read to its end. */
  lemma {:induction false} WholeStream(b: Printer, u: Plan, rest: seq<byte>)
    requires Valid(u) && Printable(u) && b.explain == Dumped(u) + rest && b.level > 0 && Ready(b) && CommaDue(b) == []
    requires b.room > |Text(u, b.count != 0)|
    ensures Items(Back(b.level), b) == Printing(Counted(Grown(b, Text(u, b.count != 0), rest)))
    decreases u, 1
  {
    SortBytes(u, rest);
    AddedInside(b, u);
    var ends := EndBytes(Ends(u)) + rest;
    assert CommaDue(b) + Text(u, b.count != 0) == Text(u, b.count != 0);
    hide Items, Text, CommaDue, Core, Dumped, EndBytes, Ends, Added;
    TreeRun(Back(b.level), b, u, ends);
    EndsAtLeastOne(u);
    EndsRun(Back(b.level), Beyond(b, u, ends), Ends(u), rest);
  }

  lemma {:induction false} SortedRun(p: Printer, u: Plan, rest: seq<byte>)
    requires Valid(u) && Printable(u) && p.explain == Dumped(u) + rest && p.level > 0 && Ready(p)
    requires p.room > |CommaDue(p) + Text(Sort(u), p.count != 0)|
    ensures Sorted(p) == Printing(Counted(Grown(p, CommaDue(p) + Text(Sort(u), p.count != 0), rest)))
    decreases u, 2
  {
    SortTextIs(CommaDue(p), u, p.count != 0);
    NoUnion(u, rest);
    var text := Text(u, p.count != 0);
    hide Items, Text, Dumped, Heading, Sorted, Due;
    var head := CommaDue(p) + SORT_TEXT;
    var b := SortHead(p);
    hide CommaDue;
    WholeStream(b, u, rest);
    var c := Counted(Grown(b, text, rest));
    SortedParts(p, b, c);
    GrownTwice(p, head, p.explain, text, rest);
    GrownTwice(p, head + text, rest, [CLOSE], rest);
  }

  lemma TypedIs(t: Plan, p: Printer)
    ensures t.Join? ==> Typed(JoinCode(t.kind), p) == Joined(JoinCode(t.kind), p)
    ensures t.Sort? ==> Typed(SORT, p) == Sorted(p)
    ensures t.Filter? && PassedOver(t.code) ==> Typed(t.code, p) == Printing(p)
  {
    hide Joined, Sorted;
  }

  /** One more item, a type, ends a tree. */
  lemma LastItem(goal: Goal, p: Printer, t: Plan, code: byte, s: seq<byte>, rest: seq<byte>)
    requires Open(goal, p) && Ready(p) && |Added(p, t)| < p.room && Ends(t) > 0
    requires p.explain == [RSB_BEGIN] + ([RSB_TYPE, code] + s)
    requires var q := Grown(p, Prefix(p), s).(level := p.level + 1);
             var text := CommaDue(q) + Text(t, q.count != 0);
             |text| <= q.room
             && Typed(code, q) == Printing(Counted(Grown(q, text, rest)).(level := q.level + Ends(t) - 1))
    ensures Items(goal, p) == Continue(goal, Beyond(p, t, rest))
    ensures Item(Grown(p, Prefix(p), [RSB_TYPE, code] + s).(level := p.level + 1)) == Printing(Beyond(p, t, rest))
  {
    hide Items, Typed, Text, Ends, CommaDue, Prefix, Item;
    var body := [RSB_TYPE, code] + s;
    var q := BeginRun(goal, p, body);
    var q' := Grown(p, Prefix(p), s).(level := p.level + 1);
    AddedFromBegin(p, q', t);
    TypeRun(q, code, s);
    var text := CommaDue(q') + Text(t, q'.count != 0);
    BeyondFrom(p, t, s, text, rest);
    ItemsStep(goal, q, Beyond(p, t, rest));
  }

  /** Any loop that calls for items reads a whole tree, prints its text and goes on behind its core. */
  lemma {:induction false} TreeRun(goal: Goal, p: Printer, t: Plan, rest: seq<byte>)
    requires Valid(t) && Printable(t) && p.explain == Core(t) + rest && Open(goal, p) && Ready(p)
    requires p.room > |Added(p, t)|
    ensures Items(goal, p) == Continue(goal, Beyond(p, t, rest))
    decreases t, 0
  {
    assert |Prefix(p)| <= |Added(p, t)|;
    match t {
      case Access(name, how) => AccessRun(goal, p, name, how, rest);
      case Join(kind, ts) => JoinRun(goal, p, kind, ts, rest);
      case Sort(u) => SortRun(goal, p, u, rest);
      case Filter(code, u) => FilterRun(goal, p, code, u, rest);
    }
  }

  /** The room behind a tree's begin. */
  lemma RoomInside(p: Printer, t: Plan, s: seq<byte>) returns (q: Printer)
    requires Ready(p) && p.room > |Added(p, t)|
    ensures |Prefix(p)| < p.room
    ensures q == Grown(p, Prefix(p), s).(level := p.level + 1) && Ready(q)
    ensures Prefix(p) + (CommaDue(q) + Text(t, q.count != 0)) == Added(p, t)
    ensures q.room > |CommaDue(q) + Text(t, q.count != 0)|
  {
    q := Grown(p, Prefix(p), s).(level := p.level + 1);
    AddedFromBegin(p, q, t);
    hide Text, CommaDue, Prefix, Added;
  }

  /** Behind a tree's begin. */
  function Begun(p: Printer, t: Plan, rest: seq<byte>): Printer
    requires Valid(t) && |Prefix(p)| <= p.room
  {
    Grown(p, Prefix(p), (Core(t) + rest)[1..]).(level := p.level + 1)
  }

  lemma {:induction false} JoinRun(goal: Goal, p: Printer, kind: JoinType, ts: Plans, rest: seq<byte>)
    requires var t := Join(kind, ts);
             Valid(t) && Printable(t) && |Prefix(p)| <= p.room && p.explain == Core(t) + rest && Open(goal, p) && Ready(p) && p.room > |Added(p, t)|
    ensures Items(goal, p) == Continue(goal, Beyond(p, Join(kind, ts), rest))
    ensures Item(Begun(p, Join(kind, ts), rest)) == Printing(Beyond(p, Join(kind, ts), rest))
    decreases ts, 2
  {
    var s, t := [Count(ts)] + (CoreAll(ts) + rest), Join(kind, ts);
    JoinBytes(kind, ts, rest);
    EndsAtLeastOne(t);
    assert Ends(t) - 1 == EndsOfLast(ts);
    hide Items, Text, Core, CoreAll, Continue, Beyond, Added, Prefix, CommaDue, Typed, Joined, Ends, Item, EndsOfLast;
    var q := RoomInside(p, t, s);
    TypedIs(t, q);
    JoinedRun(q, kind, ts, rest);
    LastItem(goal, p, t, JoinCode(kind), s, rest);
  }

  lemma {:induction false} SortRun(goal: Goal, p: Printer, u: Plan, rest: seq<byte>)
    requires var t := Sort(u);
             Valid(t) && Printable(t) && |Prefix(p)| <= p.room && p.explain == Core(t) + rest && Open(goal, p) && Ready(p) && p.room > |Added(p, t)|
    ensures Items(goal, p) == Continue(goal, Beyond(p, Sort(u), rest))
    ensures Item(Begun(p, Sort(u), rest)) == Printing(Beyond(p, Sort(u), rest))
    decreases u, 3
  {
    var s, t := Dumped(u) + rest, Sort(u);
    SortBytes(u, rest);
    assert Ends(t) == 1;
    hide Items, Text, Core, Dumped, Continue, Beyond, Added, Prefix, CommaDue, Typed, Sorted, Ends, Item;
    var q := RoomInside(p, t, s);
    TypedIs(t, q);
    SortedRun(q, u, rest);
    var r := Counted(Grown(q, CommaDue(q) + Text(t, q.count != 0), rest));
    hide Counted, Open, Ready;
    assert r.level == q.level + Ends(t) - 1;
    LastItem(goal, p, t, SORT, s, rest);
  }

  lemma {:induction false} FilterRun(goal: Goal, p: Printer, code: byte, u: Plan, rest: seq<byte>)
    requires var t := Filter(code, u);
             Valid(t) && Printable(t) && p.explain == Core(t) + rest && Open(goal, p) && Ready(p) && p.room > |Added(p, t)|
    ensures Items(goal, p) == Continue(goal, Beyond(p, Filter(code, u), rest))
    decreases u, 1
  {
    var s, t := Core(u) + rest, Filter(code, u);
    FilterBytes(code, u, rest);
    EndsAtLeastOne(u);
    assert Ends(t) == 1 + Ends(u) && Text(t, p.count != 0) == Text(u, p.count != 0);
    hide Items, Text, Core, Prefix, CommaDue, Typed, Ends, Item;
    var q := BeginRun(goal, p, [RSB_TYPE, code] + s);
    var r := RoomInside(p, t, s);
    TypedIs(t, r);
    TypeRun(q, code, s);
    ItemsStep(goal, q, r);
    AddedInside(r, u);
    hide Added, Beyond, Grown, Counted, Continue;
    TreeRun(goal, r, u, rest);
    FilterBeyond(p, t, r, s, rest);
  }

  lemma FilterBeyond(p: Printer, t: Plan, r: Printer, s: seq<byte>, rest: seq<byte>)
    requires t.Filter? && |Prefix(p)| <= p.room && r == Grown(p, Prefix(p), s).(level := p.level + 1) && Ready(p)
    requires |Added(p, t)| <= p.room
    ensures Added(r, t.stream) == CommaDue(r) + Text(t.stream, r.count != 0) && |Added(r, t.stream)| <= r.room
    ensures Beyond(r, t.stream, rest) == Beyond(p, t, rest)
  {
    var u := t.stream;
    AddedInside(r, u);
    AddedFromBegin(p, r, t);
    EndsAtLeastOne(u);
    assert Ends(t) == 1 + Ends(u) && Text(t, p.count != 0) == Text(u, p.count != 0);
    hide Added, Prefix, Text, CommaDue, Ends;
    BeyondFrom(p, t, s, Added(r, u), rest);
  }

  // ----- external indices

  /** The engine gives an external index no name, so an end marker follows where the printer looks for one. */
  predicate Ended(rest: seq<byte>) {
    rest != [] && rest[0] == RSB_END
  }

  lemma EndsAreEnded(t: Plan, rest: seq<byte>)
    ensures Ended(EndBytes(Ends(t)) + rest)
  {
    EndsAtLeastOne(t);
  }

  lemma ItemFails(goal: Goal, p: Printer)
    requires Item(p) == Failed
    ensures Items(goal, p) == Failed
  {
  }

  lemma ExternalFails(p: Printer)
    requires Ended(p.explain)
    ensures Typed(EXT_INDEXED, p) == Failed
  {
    hide Joined, Sorted;
    if p.Put(INDEX_TEXT).Printing? {
      assert Indices(p.Put(INDEX_TEXT).p) == Failed;
    }
  }

  lemma AccessFails(goal: Goal, p: Printer, name: seq<byte>, rest: seq<byte>)
    requires var t := Access(name, ExtIndexed);
             Valid(t) && p.explain == Core(t) + rest && Ended(rest) && Open(goal, p) && Ready(p) && p.room > |Added(p, t)|
    ensures Items(goal, p) == Failed
  {
    AccessBytes(name, ExtIndexed, rest);
    var tail := [RSB_TYPE] + HowBytes(ExtIndexed) + rest;
    var body := [RSB_RELATION, |name|] + name + tail;
    var q := Grown(p, Prefix(p), body).(level := p.level + 1);
    NoPrefix(p);
    AccessTextRun(p, q, name, ExtIndexed);
    var text := RelationText(q, name);
    assert tail == [RSB_TYPE, EXT_INDEXED] + rest;
    hide Items, Item, HowText, Core, HowBytes, RelationText, Tail, Added, Text, Prefix, Typed;
    var q' := BeginRun(goal, p, body);
    RelationStep(goal, q, name, tail);
    var r := Grown(q, text, tail);
    TypeRun(r, EXT_INDEXED, rest);
    ExternalFails(r.(explain := rest));
    ItemFails(goal, r);
  }

  /** A tree whose second item, its type, fails. */
  lemma TypeFails(goal: Goal, p: Printer, code: byte, s: seq<byte>)
    requires Open(goal, p) && Ready(p) && |Prefix(p)| < p.room
    requires p.explain == [RSB_BEGIN] + ([RSB_TYPE, code] + s)
    requires Typed(code, Grown(p, Prefix(p), s).(level := p.level + 1)) == Failed
    ensures Items(goal, p) == Failed
  {
    hide Items, Item, Typed, Prefix;
    var q := BeginRun(goal, p, [RSB_TYPE, code] + s);
    TypeRun(q, code, s);
    ItemFails(goal, q);
  }

  lemma {:induction false} StreamsFail(p: Printer, ts: Plans, rest: seq<byte>)
    requires ValidAll(ts) && !PrintableAll(ts) && p.explain == CoreAll(ts) + rest && Ended(rest)
    requires p.count == Count(ts) && p.level > 0 && p.plan != []
    requires p.room > |CommaDue(p) + ListText(ts)|
    ensures Items(Streams, p) == Failed
    decreases ts, 0
  {
    hide Items, Ends, EndBytes, Text, Core, Added, Printable, Valid, CommaDue;
    var t := ts.head;
    AddedInside(p, t);
    if ts.One? {
      TreeFails(Streams, p, t, rest);
    } else {
      hide ListText, CoreAll;
      var text, last := CommaDue(p) + Text(t, true), [COMMA] + ListText(ts.tail);
      var more := CoreAll(ts.tail) + rest;
      ListTextIs(CommaDue(p), ts);
      ListBytes(t, ts.tail, rest);
      EndsAreEnded(t, more);
      if Printable(t) {
        TextEnd(t);
        StreamStep(p, t, more);
        var r := Grown(p, text, more).(count := p.count - 1);
        CommaAfter(p.plan + CommaDue(p), Text(t, true), r);
        StreamsFail(r, ts.tail, rest);
      } else {
        TreeFails(Streams, p, t, EndBytes(Ends(t)) + more);
      }
    }
  }

  lemma ListTextIs(comma: seq<byte>, ts: Plans)
    requires ts.More?
    ensures comma + ListText(ts) == comma + Text(ts.head, true) + ([COMMA] + ListText(ts.tail))
  {
    hide Text;
  }

  lemma JoinedFailure(kind: JoinType, p: Printer, b: Printer)
    requires p.explain != [] && Ready(p) && Heading(p, Due(p), JoinText(kind)) == Printing(b)
    requires b.explain != [] && Counts(b) == Failed
    ensures Joined(JoinCode(kind), p) == Failed
  {
    hide Heading, Counts;
    assert JoinText(kind) == if JoinCode(kind) == MERGE then MERGE_TEXT else JOIN_TEXT;
  }

  lemma {:induction false} JoinedFails(p: Printer, kind: JoinType, ts: Plans, rest: seq<byte>)
    requires Valid(Join(kind, ts)) && !PrintableAll(ts) && p.explain == [Count(ts)] + (CoreAll(ts) + rest) && Ended(rest)
    requires p.level > 0 && Ready(p) && p.room > |CommaDue(p) + Text(Join(kind, ts), p.count != 0)|
    ensures Joined(JoinCode(kind), p) == Failed
    decreases ts, 1
  {
    JoinTextIs(CommaDue(p), kind, ts, p.count != 0);
    hide Joined, Items, Text, ListText, JoinText, CoreAll, Counts, Heading, Due;
    var b, c := JoinHead(p, kind, ts, CoreAll(ts) + rest);
    assert [] + ListText(ts) == ListText(ts);
    hide CommaDue;
    StreamsFail(c, ts, rest);
    JoinedFailure(kind, p, b);
  }

  lemma SortedFailure(p: Printer, b: Printer)
    requires p.explain != [] && Ready(p) && Heading(p, Due(p), SORT_TEXT) == Printing(b)
    requires !(|p.explain| > 2 && p.explain[0] == RSB_BEGIN && p.explain[1] == RSB_TYPE && p.explain[2] == UNION)
    requires b.explain != [] && b.room > 0 && Items(Back(p.level), b) == Failed
    ensures Sorted(p) == Failed
  {
    hide Heading, Items;
  }

  lemma {:induction false} SortedFails(p: Printer, u: Plan, rest: seq<byte>)
    requires Valid(u) && !Printable(u) && p.explain == Dumped(u) + rest && p.level > 0 && Ready(p)
    requires p.room > |CommaDue(p) + Text(Sort(u), p.count != 0)|
    ensures Sorted(p) == Failed
    decreases u, 2
  {
    SortTextIs(CommaDue(p), u, p.count != 0);
    NoUnion(u, rest);
    SortBytes(u, rest);
    EndsAreEnded(u, rest);
    hide Items, Text, Dumped, Heading, Sorted, Due, Core, EndBytes, Ends, Added;
    var b := SortHead(p);
    AddedInside(b, u);
    assert [] + Text(u, b.count != 0) == Text(u, b.count != 0);
    hide CommaDue;
    TreeFails(Back(p.level), b, u, EndBytes(Ends(u)) + rest);
    SortedFailure(p, b);
  }

  lemma {:induction false} FilterFails(goal: Goal, p: Printer, code: byte, u: Plan, rest: seq<byte>)
    requires var t := Filter(code, u);
             Valid(t) && !Printable(t) && p.explain == Core(t) + rest && Ended(rest) && Open(goal, p) && Ready(p)
    requires p.room > |Added(p, Filter(code, u))|
    ensures Items(goal, p) == Failed
    decreases u, 1
  {
    var s, t := Core(u) + rest, Filter(code, u);
    FilterBytes(code, u, rest);
    assert Text(t, p.count != 0) == Text(u, p.count != 0);
    hide Items, Text, Core, Prefix, CommaDue, Typed, Item;
    var q := BeginRun(goal, p, [RSB_TYPE, code] + s);
    var r := RoomInside(p, t, s);
    TypedIs(t, r);
    TypeRun(q, code, s);
    ItemsStep(goal, q, r);
    AddedInside(r, u);
    hide Added;
    TreeFails(goal, r, u, rest);
  }

  /** Any loop that calls for items fails on a tree with an external index, however much room it has. */
  lemma {:induction false} TreeFails(goal: Goal, p: Printer, t: Plan, rest: seq<byte>)
    requires Valid(t) && !Printable(t) && p.explain == Core(t) + rest && Ended(rest) && Open(goal, p) && Ready(p)
    requires p.room > |Added(p, t)|
    ensures Items(goal, p) == Failed
    decreases t, 0
  {
    match t {
      case Access(name, _) => AccessFails(goal, p, name, rest);
      case Join(kind, ts) =>
        var s := [Count(ts)] + (CoreAll(ts) + rest);
        JoinBytes(kind, ts, rest);
        hide Items, Text, Core, CoreAll, Added, Prefix, CommaDue, Typed, Joined;
        var q := RoomInside(p, t, s);
        TypedIs(t, q);
        JoinedFails(q, kind, ts, rest);
        TypeFails(goal, p, JoinCode(kind), s);
      case Sort(u) =>
        var s := Dumped(u) + rest;
        SortBytes(u, rest);
        hide Items, Text, Core, Dumped, Added, Prefix, CommaDue, Typed, Sorted;
        var q := RoomInside(p, t, s);
        TypedIs(t, q);
        SortedFails(q, u, rest);
        TypeFails(goal, p, SORT, s);
      case Filter(code, u) => FilterFails(goal, p, code, u, rest);
    }
  }

  // ----- the whole report

  function DumpedAll(ts: seq<Plan>): seq<byte>
    requires forall k :: 0 <= k < |ts| ==> Valid(ts[k])
  {
    if ts == [] then [] else Dumped(ts[0]) + DumpedAll(ts[1..])
  }

  lemma OuterText(p: Printer, ts: seq<Plan>)
    requires ts != [] && p.level == 0 && p.count == 0
    ensures Added(p, ts[0]) + PlanText(ts[1..]) == PlanText(ts)
  {
    hide Text;
    assert PLAN_TEXT + ([] + Text(ts[0], false)) == PLAN_TEXT + Text(ts[0], false);
  }

  /** With room to spare, every tree of the report is printed in full, on a line of its own. */
  lemma {:induction false} ReportRun(p: Printer, ts: seq<Plan>)
    requires forall k :: 0 <= k < |ts| ==> Valid(ts[k]) && Printable(ts[k])
    requires p.explain == DumpedAll(ts) && p.level == 0 && p.count == 0 && p.room > |PlanText(ts)|
    ensures Continue(Whole, p) == Printing(Grown(p, PlanText(ts), []))
    decreases |ts|
  {
    if ts == [] {
      assert p.plan + [] == p.plan;
    } else {
      var t, more := ts[0], DumpedAll(ts[1..]);
      OuterText(p, ts);
      SortBytes(t, more);
      EndsAtLeastOne(t);
      hide Text, Core, Added, EndBytes, Ends, PlanText, Items;
      var q := Beyond(p, t, EndBytes(Ends(t)) + more);
      var r := Grown(p, Added(p, t), more);
      TreeRun(Whole, p, t, EndBytes(Ends(t)) + more);
      EndsRun(Whole, q, Ends(t), more);
      ReportRun(r, ts[1..]);
      GrownTwice(p, Added(p, t), more, PlanText(ts[1..]), []);
    }
  }

  predicate AllPrintable(ts: seq<Plan>) {
    forall k :: 0 <= k < |ts| ==> Printable(ts[k])
  }

  lemma {:induction false} ReportFails(p: Printer, ts: seq<Plan>)
    requires (forall k :: 0 <= k < |ts| ==> Valid(ts[k])) && !AllPrintable(ts)
    requires p.explain == DumpedAll(ts) && p.level == 0 && p.count == 0 && p.room > |PlanText(ts)|
    ensures Continue(Whole, p) == Failed
    decreases |ts|
  {
    var t, more := ts[0], DumpedAll(ts[1..]);
    OuterText(p, ts);
    SortBytes(t, more);
    EndsAtLeastOne(t);
    EndsAreEnded(t, more);
    hide Text, Core, Added, EndBytes, Ends, PlanText, Items;
    if Printable(t) {
      TreeRun(Whole, p, t, EndBytes(Ends(t)) + more);
      EndsRun(Whole, Beyond(p, t, EndBytes(Ends(t)) + more), Ends(t), more);
      assert !AllPrintable(ts[1..]);
      ReportFails(Grown(p, Added(p, t), more), ts[1..]);
    } else {
      TreeFails(Whole, p, t, EndBytes(Ends(t)) + more);
    }
  }

  /** Given the room, a report is printed in full exactly when no tree reads an external relation by index. */
  lemma ReportPrintedIff(ts: seq<Plan>, room: nat)
    requires (forall k :: 0 <= k < |ts| ==> Valid(ts[k])) && room > |PlanText(ts)|
    ensures var r := Continue(Whole, Printer(DumpedAll(ts), room, [], 0, 0));
            && (AllPrintable(ts) <==> r.Printing? && r.p.plan == PlanText(ts))
            && (!AllPrintable(ts) ==> r == Failed)
  {
    var p := Printer(DumpedAll(ts), room, [], 0, 0);
    if AllPrintable(ts) {
      ReportRun(p, ts);
      assert [] + PlanText(ts) == PlanText(ts);
    } else {
      ReportFails(p, ts);
    }
  }

  // ----- too little room

  /** Some outermost item leaves the text this long. */
  predicate Mark(p: Printer, m: nat)
    decreases |p.explain|, 0
  {
    var r := Item(p);
    r.Printing? && (m == |r.p.plan| || LaterMark(r.p, m))
  }

  predicate LaterMark(p: Printer, m: nat)
    decreases |p.explain|, 1
  {
    !Done(Whole, p) && Mark(p, m)
  }

  lemma {:induction false} EndsMarks(p: Printer, n: nat, rest: seq<byte>, m: nat)
    requires n > 0 && p.explain == EndBytes(n) + rest && p.level >= n && p.room > 0
    ensures Mark(p, m) <==> m == |p.plan| || LaterMark(p.(explain := rest, level := p.level - n), m)
    decreases n
  {
    var q := p.(explain := EndBytes(n - 1) + rest, level := p.level - 1);
    assert p.Skip(1).explain == EndBytes(n - 1) + rest;
    assert Item(p) == Printing(q);
    if n > 1 {
      EndsMarks(q, n - 1, rest, m);
    } else {
      assert q.explain == rest;
    }
  }

  /** Inside a tree: a single relation's name is an item of its own. */
  predicate Cut(t: Plan, from: nat, m: nat) {
    match t
    case Access(name, _) => m == from || m == from + 1 + |name|
    case Filter(_, u) => Cut(u, from, m)
    case _ => m == from
  }

  /** After each line's heading, inside the line, and at its end. */
  predicate ReportCut(ts: seq<Plan>, from: nat, m: nat) {
    ts != [] &&
    var end := from + |PLAN_TEXT| + |Text(ts[0], false)|;
    Cut(ts[0], from + |PLAN_TEXT|, m) || m == end || ReportCut(ts[1..], end, m)
  }

  /** A tree's outermost items stop where its cuts say. */
  predicate Marked(p: Printer, t: Plan, rest: seq<byte>, m: nat) {
    |Added(p, t)| <= p.room
    && (Mark(p, m) <==> Cut(t, |p.plan| + |Prefix(p)|, m) || m == |p.plan| + |Added(p, t)| || Mark(Beyond(p, t, rest), m))
  }

  lemma MarksStep(p: Printer, q: Printer, m: nat)
    requires Item(p) == Printing(q) && q.explain != [] && q.room > 0
    ensures Mark(p, m) <==> m == |q.plan| || Mark(q, m)
  {
  }

  /** Two items make a tree whose root is no filter and no relation. */
  lemma TwoMarks(p: Printer, t: Plan, q: Printer, rest: seq<byte>, m: nat)
    requires p.room > |Added(p, t)| && |Prefix(p)| <= |Added(p, t)| && rest != []
    requires Item(p) == Printing(q) && q.explain != []
    requires |q.plan| == |p.plan| + |Prefix(p)| && q.room == p.room - |Prefix(p)|
    requires Item(q) == Printing(Beyond(p, t, rest)) && (t.Join? || t.Sort?)
    ensures Marked(p, t, rest, m)
  {
    OneCut(t, |p.plan| + |Prefix(p)|, m);
    hide Item, Mark, Added, Prefix, Ends, Cut;
    MarksStep(p, q, m);
    MarksStep(q, Beyond(p, t, rest), m);
  }

  lemma {:induction false} TreeMarks(p: Printer, t: Plan, rest: seq<byte>, m: nat)
    requires Valid(t) && Printable(t) && p.explain == Core(t) + rest && p.count == 0 && p.room > |Added(p, t)| && rest != []
    ensures Marked(p, t, rest, m)
    decreases t, 0
  {
    assert |Prefix(p)| <= |Added(p, t)|;
    match t {
      case Access(name, how) => AccessMarks(p, name, how, rest, m);
      case Join(kind, ts) => JoinMarks(p, kind, ts, rest, m);
      case Sort(u) => SortMarks(p, u, rest, m);
      case Filter(code, u) => FilterMarks(p, code, u, rest, m);
    }
  }

  lemma BegunBytes(p: Printer, t: Plan, rest: seq<byte>)
    requires Valid(t) && p.explain == Core(t) + rest && |Prefix(p)| <= p.room && (t.Join? || t.Sort?)
    ensures p.explain == [RSB_BEGIN] + (Core(t) + rest)[1..] && (Core(t) + rest)[1..] != []
    ensures Begun(p, t, rest) == Grown(p, Prefix(p), (Core(t) + rest)[1..]).(level := p.level + 1)
    ensures |Begun(p, t, rest).plan| == |p.plan| + |Prefix(p)| && Begun(p, t, rest).room == p.room - |Prefix(p)|
  {
    hide Prefix;
    assert Core(t)[0] == RSB_BEGIN && |Core(t)| > 1 by {
      hide CoreAll, Dumped;
    }
    hide Core;
  }

  lemma OneCut(t: Plan, from: nat, m: nat)
    requires t.Join? || t.Sort?
    ensures Cut(t, from, m) <==> m == from
  {
  }

  lemma JoinMarks(p: Printer, kind: JoinType, ts: Plans, rest: seq<byte>, m: nat)
    requires var t := Join(kind, ts);
             && Valid(t) && Printable(t) && p.explain == Core(t) + rest && p.count == 0 && p.room > |Added(p, t)| && rest != []
             && |Prefix(p)| <= |Added(p, t)|
    ensures Marked(p, Join(kind, ts), rest, m)
  {
    var t := Join(kind, ts);
    JoinBytes(kind, ts, rest);
    hide Core, Item, Items, Mark, Added, Prefix, Text, Cut, Ends, Dumped, CoreAll, Marked;
    BegunBytes(p, Join(kind, ts), rest);
    var q := BeginRun(Whole, p, (Core(Join(kind, ts)) + rest)[1..]);
    JoinRun(Whole, p, kind, ts, rest);
    TwoMarks(p, t, q, rest, m);
  }

  lemma SortMarks(p: Printer, u: Plan, rest: seq<byte>, m: nat)
    requires var t := Sort(u);
             && Valid(t) && Printable(t) && p.explain == Core(t) + rest && p.count == 0 && p.room > |Added(p, t)| && rest != []
             && |Prefix(p)| <= |Added(p, t)|
    ensures Marked(p, Sort(u), rest, m)
  {
    var t := Sort(u);
    SortBytes(u, rest);
    hide Core, Item, Items, Mark, Added, Prefix, Text, Cut, Ends, Dumped, CoreAll, Marked;
    BegunBytes(p, Sort(u), rest);
    var q := BeginRun(Whole, p, (Core(Sort(u)) + rest)[1..]);
    SortRun(Whole, p, u, rest);
    TwoMarks(p, t, q, rest, m);
  }

  /** The two items of a filter print nothing of their own. */
  lemma FilterItems(p: Printer, code: byte, u: Plan, rest: seq<byte>, m: nat) returns (r: Printer)
    requires var t := Filter(code, u);
             Valid(t) && Printable(t) && p.explain == Core(t) + rest && p.count == 0 && p.room > |Added(p, t)| && rest != []
    ensures r.explain == Core(u) + rest && r.count == 0 && r.level > 0 && |r.plan| == |p.plan| + |Prefix(p)|
    ensures r.room > |Added(r, u)| && |p.plan| + |Added(p, Filter(code, u))| == |r.plan| + |Added(r, u)|
    ensures |Added(p, Filter(code, u))| <= p.room && Beyond(r, u, rest) == Beyond(p, Filter(code, u), rest)
    ensures Mark(p, m) <==> m == |p.plan| + |Prefix(p)| || Mark(r, m)
  {
    var s, t := Core(u) + rest, Filter(code, u);
    FilterBytes(code, u, rest);
    hide Core, Text, Item, Mark, Prefix, Added, CommaDue, Typed;
    r := RoomInside(p, t, s);
    var q := BeginRun(Whole, p, [RSB_TYPE, code] + s);
    TypedIs(t, r);
    TypeRun(q, code, s);
    MarksStep(p, q, m);
    MarksStep(q, r, m);
    hide Beyond;
    FilterBeyond(p, t, r, s, rest);
  }

  lemma {:induction false} FilterMarks(p: Printer, code: byte, u: Plan, rest: seq<byte>, m: nat)
    requires var t := Filter(code, u);
             Valid(t) && Printable(t) && p.explain == Core(t) + rest && p.count == 0 && p.room > |Added(p, t)| && rest != []
    ensures Marked(p, Filter(code, u), rest, m)
    decreases u, 1
  {
    FromIsCut(u, |p.plan| + |Prefix(p)|);
    hide Core, Mark, Added, Beyond, Text, Dumped, Item;
    var r := FilterItems(p, code, u, rest, m);
    InsidePrefix(r);
    assert Cut(Filter(code, u), |p.plan| + |Prefix(p)|, m) == Cut(u, |r.plan| + |Prefix(r)|, m);
    hide Prefix, Cut;
    TreeMarks(r, u, rest, m);
  }

  lemma InsidePrefix(p: Printer)
    requires p.level > 0
    ensures Prefix(p) == []
  {
  }

  lemma {:induction false} FromIsCut(t: Plan, from: nat)
    ensures Cut(t, from, from)
  {
    if t.Filter? {
      FromIsCut(t.stream, from);
    }
  }

  /** The three items of a single relation. */
  lemma AccessItems(p: Printer, name: seq<byte>, how: How, rest: seq<byte>) returns (q: Printer, r: Printer)
    requires var t := Access(name, how);
             Valid(t) && Printable(t) && p.explain == Core(t) + rest && p.count == 0 && p.room > |Added(p, t)|
    ensures Item(p) == Printing(q) && Item(q) == Printing(r) && q.explain != [] && r.explain != []
    ensures |q.plan| == |p.plan| + |Prefix(p)| && q.room + |q.plan| == p.room + |p.plan| && q.room > 0
    ensures |r.plan| == |q.plan| + 1 + |name| && r.room + |r.plan| == p.room + |p.plan| && r.room > 0
    ensures |Added(p, Access(name, how))| <= p.room && Item(r) == Printing(Beyond(p, Access(name, how), rest))
  {
    var t := Access(name, how);
    var tail := [RSB_TYPE] + HowBytes(how) + rest;
    var body := [RSB_RELATION, |name|] + name + tail;
    AccessBytes(name, how, rest);
    var head := Grown(p, Prefix(p), body).(level := p.level + 1);
    NoPrefix(p);
    AccessTextRun(p, head, name, how);
    var relation := RelationText(head, name);
    assert |relation| == 1 + |name|;
    var last := HowText(how) + Tail(head);
    hide Item, HowText, Core, HowBytes, RelationText, Tail, Added, Text, Prefix;
    q := BeginRun(Whole, p, body);
    RelationStep(Whole, q, name, tail);
    r := Grown(q, relation, tail);
    TailSame(q, r);
    HowStep(Whole, r, how, rest);
    AccessEnd(p, q, r, t, body, relation, last, tail, rest);
  }

  lemma AccessEnd(p: Printer, q: Printer, r: Printer, t: Plan, body: seq<byte>, s: seq<byte>, u: seq<byte>, tail: seq<byte>,
                  rest: seq<byte>)
    requires Prefix(p) + (s + u) == Added(p, t) && |Added(p, t)| <= p.room && Ends(t) == 1
    requires q == Grown(p, Prefix(p), body).(level := p.level + 1) && |s| <= q.room && r == Grown(q, s, tail)
    ensures |u| <= r.room && Counted(Grown(r, u, rest)) == Beyond(p, t, rest)
  {
    hide Added, Prefix, Ends;
    GrownTwice(q, s, tail, u, rest);
    BeyondFrom(p, t, body, s + u, rest);
  }

  lemma AccessMarks(p: Printer, name: seq<byte>, how: How, rest: seq<byte>, m: nat)
    requires var t := Access(name, how);
             Valid(t) && Printable(t) && p.explain == Core(t) + rest && p.count == 0 && p.room > |Added(p, t)| && rest != []
    ensures Marked(p, Access(name, how), rest, m)
  {
    hide Item, Core, Added, Prefix, Mark, Ends;
    var q, r := AccessItems(p, name, how, rest);
    MarksStep(p, q, m);
    MarksStep(q, r, m);
    MarksStep(r, Beyond(p, Access(name, how), rest), m);
  }

  lemma {:induction false} ReportMarks(p: Printer, ts: seq<Plan>, m: nat)
    requires forall k :: 0 <= k < |ts| ==> Valid(ts[k]) && Printable(ts[k])
    requires p.explain == DumpedAll(ts) && p.level == 0 && p.count == 0 && p.room > |PlanText(ts)|
    ensures LaterMark(p, m) <==> ReportCut(ts, |p.plan|, m)
    decreases |ts|
  {
    if ts != [] {
      var q := FirstLine(p, ts, m);
      ReportMarks(q, ts[1..], m);
    } else {
      assert !LaterMark(p, m);
    }
  }

  lemma FirstLine(p: Printer, ts: seq<Plan>, m: nat) returns (q: Printer)
    requires forall k :: 0 <= k < |ts| ==> Valid(ts[k]) && Printable(ts[k])
    requires ts != [] && p.explain == DumpedAll(ts) && p.level == 0 && p.count == 0 && p.room > |PlanText(ts)|
    ensures q.explain == DumpedAll(ts[1..]) && q.level == 0 && q.count == 0 && q.room > |PlanText(ts[1..])|
    ensures |q.plan| == |p.plan| + |PLAN_TEXT| + |Text(ts[0], false)|
    ensures LaterMark(p, m) <==> Cut(ts[0], |p.plan| + |PLAN_TEXT|, m) || m == |q.plan| || LaterMark(q, m)
  {
    var t, more := ts[0], DumpedAll(ts[1..]);
    OuterText(p, ts);
    SortBytes(t, more);
    assert |Added(p, t)| == |PLAN_TEXT| + |Text(t, false)|;
    hide Text, Core, Added, EndBytes, Ends, PlanText, Mark, LaterMark, Cut, DumpedAll;
    q := Grown(p, Added(p, t), more);
    WholeTreeMarks(p, t, more, m);
  }

  lemma WholeTreeMarks(p: Printer, t: Plan, more: seq<byte>, m: nat)
    requires Valid(t) && Printable(t) && p.explain == Core(t) + (EndBytes(Ends(t)) + more)
    requires p.level == 0 && p.count == 0 && p.room > |Added(p, t)|
    ensures LaterMark(p, m) <==>
              Cut(t, |p.plan| + |PLAN_TEXT|, m) || m == |p.plan| + |Added(p, t)| || LaterMark(Grown(p, Added(p, t), more), m)
  {
    EndsAtLeastOne(t);
    assert |Prefix(p)| == |PLAN_TEXT|;
    hide Text, Core, Added, EndBytes, Ends, Prefix, Cut, Mark, LaterMark, Item;
    var q := OuterBeyond(p, t, EndBytes(Ends(t)) + more);
    TreeMarks(p, t, EndBytes(Ends(t)) + more, m);
    MarksAreLater(p, m);
    EndsMarks(q, Ends(t), more, m);
    hide Beyond;
    assert q.(explain := more, level := 0) == Grown(p, Added(p, t), more);
  }

  lemma OuterBeyond(p: Printer, t: Plan, rest: seq<byte>) returns (q: Printer)
    requires p.level == 0 && p.count == 0 && p.room > |Added(p, t)|
    ensures q == Beyond(p, t, rest) == Grown(p, Added(p, t), rest).(level := Ends(t)) && q.room > 0
    ensures |q.plan| == |p.plan| + |Added(p, t)|
  {
    hide Added, Ends;
    q := Beyond(p, t, rest);
  }

  lemma MarksAreLater(p: Printer, m: nat)
    requires p.explain != [] && p.room > 0
    ensures LaterMark(p, m) <==> Mark(p, m)
  {
  }

  // ----- what is printed stays

  predicate Extends(p: Printer, q: Printer) {
    q.room <= p.room && |q.plan| + q.room == |p.plan| + p.room && q.plan[..|p.plan|] == p.plan
  }

  /** An outcome, if any, extends. */
  predicate Extended(p: Printer, r: Outcome) {
    r.Printing? ==> Extends(p, r.p)
  }

  lemma ExtendsTrans(p: Printer, q: Printer, r: Printer)
    requires Extends(p, q) && Extends(q, r)
    ensures Extends(p, r)
  {
    assert r.plan[..|q.plan|][..|p.plan|] == r.plan[..|p.plan|];
  }

  /** If q extends p, so does whatever extends q. */
  lemma ThenExtends(p: Printer, q: Printer, r: Outcome)
    requires Extends(p, q) && Extended(q, r)
    ensures Extended(p, r)
  {
    if r.Printing? {
      ExtendsTrans(p, q, r.p);
    }
  }

  lemma PutExtends(p: Printer, s: seq<byte>)
    ensures Extended(p, p.Put(s))
  {
  }

  lemma HeadingExtends(p: Printer, comma: bool, s: seq<byte>)
    ensures Extended(p, Heading(p, comma, s))
  {
    var c := if comma then p.Put([COMMA]) else Printing(p);
    if c.Printing? {
      PutExtends(c.p, s);
      ThenExtends(p, c.p, c.p.Put(s));
    }
  }

  lemma SkipExtends(p: Printer, r: Printer)
    requires r.plan == p.plan && r.room == p.room
    ensures Extends(p, r)
  {
  }

  lemma {:induction false} IndicesExtend(p: Printer)
    ensures Extended(p, Indices(p))
    decreases |p.explain|
  {
    if p.explain != [] {
      var q := p.Skip(1);
      if p.explain[0] == INDEX_NAME {
        if q.explain != [] && q.plan != [] && 1 + Widened(q.explain[0]) <= |q.explain| {
          hide Heading;
          HeadingExtends(q, !(q.After(OPEN) || q.After(BLANK)), q.explain[1..1 + Widened(q.explain[0])]);
        }
      } else if p.explain[0] == INDEX_AND || p.explain[0] == INDEX_OR {
        IndicesExtend(q);
        if Indices(q).Printing? {
          IndicesExtend(Indices(q).p);
          ThenExtends(p, Indices(q).p, Indices(Indices(q).p));
        }
      }
    }
  }

  lemma ClosedExtends(p: Printer, due: bool)
    ensures Extended(p, Closed(p, due))
  {
  }

  lemma RelationExtends(p: Printer)
    ensures Extended(p, Relation(p))
  {
    if p.explain != [] && p.explain[0] < |p.explain| {
      var length: nat := p.explain[0];
      var a := if p.count == 0 then p.Put([OPEN]) else Printing(p);
      if a.Printing? {
        hide Heading;
        HeadingExtends(a.p, !a.p.After(OPEN), p.explain[1..1 + length]);
        ThenExtends(p, a.p, StreamName(a.p));
      }
    }
  }

  lemma AccessedExtends(code: byte, p: Printer)
    ensures Extended(p, Accessed(code, p))
  {
    hide Indices, Closed, AccessText, Bracketed;
    PutExtends(p, AccessText(code));
    if p.Put(AccessText(code)).Printing? {
      var a := p.Put(AccessText(code)).p;
      IndicesExtend(a);
      var b := if Bracketed(code) || code == NAVIGATE then Indices(a) else Printing(a);
      ThenExtends(p, a, b);
      if b.Printing? {
        ClosedExtends(b.p, Bracketed(code));
        ThenExtends(p, b.p, Closed(b.p, Bracketed(code)));
        if Closed(b.p, Bracketed(code)).Printing? {
          var c := Closed(b.p, Bracketed(code)).p;
          ClosedExtends(c, p.count == 0);
          ThenExtends(p, c, Closed(c, p.count == 0));
        }
      }
    }
  }

  lemma {:induction false} ItemExtends(p: Printer)
    ensures Extended(p, Item(p))
    decreases |p.explain|, 0
  {
    if p.explain != [] {
      hide Relation, Typed, Extends;
      var q := p.Skip(1);
      SkipExtends(p, q);
      if p.explain[0] == RSB_RELATION {
        RelationExtends(q);
        ThenExtends(p, q, Relation(q));
      } else if p.explain[0] == RSB_TYPE && q.explain != [] {
        SkipExtends(p, q.Skip(1));
        TypedExtends(q.explain[0], q.Skip(1));
        ThenExtends(p, q.Skip(1), Typed(q.explain[0], q.Skip(1)));
      } else if p.explain[0] == RSB_BEGIN {
        PutExtends(p, PLAN_TEXT);
        SameRoom(p);
      } else {
        SameRoom(p);
      }
    }
  }

  lemma SameRoom(p: Printer)
    ensures forall q: Printer :: q.plan == p.plan && q.room == p.room ==> Extends(p, q)
    ensures p.room >= |PLAN_TEXT| ==>
              forall q: Printer :: q.plan == p.plan + PLAN_TEXT && q.room == p.room - |PLAN_TEXT| ==> Extends(p, q)
  {
  }

  lemma {:induction false} TypedExtends(code: byte, p: Printer)
    ensures Extended(p, Typed(code, p))
    decreases |p.explain|, 3
  {
    hide Joined, Accessed, Sorted;
    JoinedExtends(code, p);
    AccessedExtends(code, p);
    SortedExtends(p);
  }

  lemma {:induction false} JoinedExtends(code: byte, p: Printer)
    ensures Extended(p, Joined(code, p))
    decreases |p.explain|, 2
  {
    hide Heading, Items, Closed;
    if p.explain != [] && !(p.count != 0 && p.plan == []) {
      var comma, text := p.count != 0 && !p.After(OPEN), if code == MERGE then MERGE_TEXT else JOIN_TEXT;
      HeadingExtends(p, comma, text);
      if Heading(p, comma, text).Printing? {
        var b := Heading(p, comma, text).p;
        ItemsExtend(Streams, b.Skip(1).(count := Widened(b.explain[0])));
        ThenExtends(p, b, Counts(b));
        if Counts(b).Printing? {
          ClosedExtends(Counts(b).p, true);
          ThenExtends(p, Counts(b).p, Closed(Counts(b).p, true));
        }
      }
    }
  }

  lemma {:induction false} SortedExtends(p: Printer)
    ensures Extended(p, Sorted(p))
    decreases |p.explain|, 2
  {
    hide Heading, Items, Closed;
    var comma := p.count != 0 && !p.After(OPEN);
    HeadingExtends(p, comma, SORT_TEXT);
    if Heading(p, comma, SORT_TEXT).Printing? {
      var b := Heading(p, comma, SORT_TEXT).p;
      ItemsExtend(Back(p.level), b);
      var c := if b.explain == [] || b.room == 0 then Printing(b) else Items(Back(p.level), b);
      ThenExtends(p, b, c);
      if c.Printing? {
        ClosedExtends(c.p, true);
        ThenExtends(p, c.p, Closed(c.p, true));
      }
    }
  }

  lemma {:induction false} ItemsExtend(goal: Goal, p: Printer)
    ensures Extended(p, Items(goal, p))
    decreases |p.explain|, 1
  {
    hide Item, Extends;
    ItemExtends(p);
    if Item(p).Printing? && !Done(goal, Item(p).p) {
      ItemsExtend(goal, Item(p).p);
      ThenExtends(p, Item(p).p, Items(goal, Item(p).p));
    }
  }

  // ----- too little room

  lemma {:induction false} MarksAhead(p: Printer, m: nat)
    requires LaterMark(p, m)
    ensures m >= |p.plan|
    decreases |p.explain|
  {
    ItemExtends(p);
    LaterStep(p, Item(p).p, m);
    if m != |Item(p).p.plan| {
      MarksAhead(Item(p).p, m);
    }
  }

  lemma LaterStep(p: Printer, q: Printer, m: nat)
    requires Item(p) == Printing(q) && !Done(Whole, p)
    ensures LaterMark(p, m) <==> m == |q.plan| || LaterMark(q, m)
    ensures Continue(Whole, p) == Continue(Whole, q)
  {
  }

  /** What a run with d less of room comes to, given the roomier run and whether it leaves a mark at the last byte. */
  predicate Confines(size: nat, wide: Printer, narrow: Outcome, mark: bool, d: nat) {
    if wide.room > d then narrow == Printing(wide.(room := wide.room - d))
    else if mark then narrow.Printing? && size <= |wide.plan| && narrow.p.plan == wide.plan[..size]
    else narrow == Failed
  }

  /** A run with d less of room: the same, or stopped where an item used it up, or a failure. */
  lemma {:induction false} Confinement(p: Printer, d: nat, size: nat)
    requires p.room > 0 && Continue(Whole, Roomier(p, d)).Printing? && size == |p.plan| + p.room
    ensures Confines(size, Continue(Whole, Roomier(p, d)).p, Continue(Whole, p), LaterMark(Roomier(p, d), size), d)
    decreases |p.explain|
  {
    hide Item, Items, Confines, Extends;
    var w := Roomier(p, d);
    if p.explain != [] {
      hide Continue, LaterMark;
      var q := RoomierItem(p, d, size);
      if q.room > d {
        var n := q.(room := q.room - d);
        LaterStep(p, n, size);
        Confinement(n, d, size);
        assert Roomier(n, d) == q;
      } else {
        StopsHere(p, q, d, size);
      }
    } else {
      NothingRead(p, d, size);
    }
  }

  lemma NothingRead(p: Printer, d: nat, size: nat)
    requires p.room > 0 && p.explain == []
    ensures Confines(size, Continue(Whole, Roomier(p, d)).p, Continue(Whole, p), LaterMark(Roomier(p, d), size), d)
  {
  }

  lemma RoomierItem(p: Printer, d: nat, size: nat) returns (q: Printer)
    requires p.room > 0 && p.explain != [] && Continue(Whole, Roomier(p, d)).Printing?
    ensures Item(Roomier(p, d)) == Printing(q) && Extends(Roomier(p, d), q) && |q.explain| < |p.explain|
    ensures |q.plan| + q.room == |p.plan| + p.room + d
    ensures Item(p) == if q.room >= d then Printing(q.(room := q.room - d)) else Failed
    ensures LaterMark(Roomier(p, d), size) <==> size == |q.plan| || LaterMark(q, size)
    ensures Continue(Whole, Roomier(p, d)) == Continue(Whole, q)
  {
    var w := Roomier(p, d);
    assert Item(w).Printing?;
    q := Item(w).p;
    hide Item, Items, LaterMark;
    ItemRoom(p, d);
    ItemExtends(w);
    LaterStep(w, q, size);
  }

  /** The item that leaves no room, or takes more than there is. */
  lemma StopsHere(p: Printer, q: Printer, d: nat, size: nat)
    requires p.room > 0 && p.explain != [] && Item(Roomier(p, d)) == Printing(q) && q.room <= d
    requires Continue(Whole, q).Printing? && Extends(Roomier(p, d), q) && size == |p.plan| + p.room
    requires Item(p) == if q.room >= d then Printing(q.(room := q.room - d)) else Failed
    ensures Confines(size, Continue(Whole, q).p, Continue(Whole, p), size == |q.plan| || LaterMark(q, size), d)
  {
    hide Item, Items, LaterMark;
    ContinueExtends(q);
    if LaterMark(q, size) {
      MarksAhead(q, size);
    }
    if q.room == d {
      LaterStep(p, q.(room := 0), size);
    } else {
      ItemsFailed(p);
    }
  }

  lemma ItemsFailed(p: Printer)
    requires Item(p) == Failed && !Done(Whole, p)
    ensures Continue(Whole, p) == Failed
  {
  }

  lemma ContinueExtends(p: Printer)
    ensures Extended(p, Continue(Whole, p))
  {
    ItemsExtend(Whole, p);
  }

  /** With less room than it takes to fail, a run still fails, or the room runs out first. */
  lemma StillFails(p: Printer, d: nat)
    requires p.room > 0 && Continue(Whole, Roomier(p, d)) == Failed
    ensures var r := Continue(Whole, p);
            r == Failed || (r.Printing? && r.p.room == 0)
  {
    hide Item, Items;
    ItemsRoom(Whole, p, d);
  }

  /** What one pass prints into so much room: all, a piece no one is told is one, or nothing. */
  function Attempt(ts: seq<Plan>, room: nat): Option<seq<byte>> {
    if |PlanText(ts)| < room then Some(PlanText(ts))
    else if ReportCut(ts, 0, room) then Some(PlanText(ts)[..Least(room, |PlanText(ts)|)])
    else None
  }

  function Least(a: nat, b: nat): nat {
    if a < b then a else b
  }

  predicate Yields(r: Outcome, s: Option<seq<byte>>) {
    if s.Some? then r.Printing? && r.p.plan == s.value else r == Failed
  }

  lemma AttemptIs(ts: seq<Plan>, room: nat)
    requires room > 0 && forall k :: 0 <= k < |ts| ==> Valid(ts[k]) && Printable(ts[k])
    ensures var r := Continue(Whole, Printer(DumpedAll(ts), room, [], 0, 0));
            Yields(r, Attempt(ts, room))
  {
    var p := Printer(DumpedAll(ts), room, [], 0, 0);
    var d := |PlanText(ts)| + 1;
    hide PlanText, Item, Items, Continue, LaterMark, ReportCut, DumpedAll, Attempt, Confines, Yields;
    ReportRun(Roomier(p, d), ts);
    ReportMarks(Roomier(p, d), ts, room);
    Confinement(p, d, room);
    ConfinedAttempt(ts, p, Continue(Whole, p), d);
  }

  /** A report that fails with room to spare does not succeed with less, unless it is cut short first. */
  lemma UnprintableAttempt(ts: seq<Plan>, room: nat)
    requires room > 0 && (forall k :: 0 <= k < |ts| ==> Valid(ts[k])) && !AllPrintable(ts)
    ensures var r := Continue(Whole, Printer(DumpedAll(ts), room, [], 0, 0));
            && (r == Failed || (r.Printing? && r.p.room == 0))
            && (room > |PlanText(ts)| ==> r == Failed)
  {
    var p := Printer(DumpedAll(ts), room, [], 0, 0);
    hide PlanText, Continue, DumpedAll, AllPrintable;
    ReportFails(Roomier(p, |PlanText(ts)| + 1), ts);
    StillFails(p, |PlanText(ts)| + 1);
    if room > |PlanText(ts)| {
      ReportFails(p, ts);
    }
  }

  lemma ConfinedAttempt(ts: seq<Plan>, p: Printer, narrow: Outcome, d: nat)
    requires p.plan == [] && p.room > 0 && d == |PlanText(ts)| + 1
    requires Confines(p.room, Grown(Roomier(p, d), PlanText(ts), []), narrow, ReportCut(ts, 0, p.room), d)
    ensures Yields(narrow, Attempt(ts, p.room))
  {
    hide PlanText, ReportCut;
    assert [] + PlanText(ts) == PlanText(ts);
  }

  /** A buffer that ends with a relation's name cuts its line there, and the caller is not told. */
  lemma CutBehindName(name: seq<byte>, how: How)
    requires Valid(Access(name, how)) && !how.ExtIndexed?
    ensures var text := PLAN_TEXT + [OPEN] + name;
            Attempt([Access(name, how)], |text|) == Some(text) != Some(PlanText([Access(name, how)]))
  {
    var ts := [Access(name, how)];
    var text := PLAN_TEXT + [OPEN] + name;
    hide HowText;
    assert PlanText(ts) == PLAN_TEXT + ([OPEN] + name + HowText(how) + [CLOSE]) + [] == text + (HowText(how) + [CLOSE]);
    assert PlanText(ts)[..|text|] == text;
  }

}
