/**
 The plan printer: a recursive reader of the byte form that stops a join at its last
 stream's type and leaves the end markers to whoever called it.
 */
module PlanPrinter {
  import opened Bytes
  import opened PlanTree

  /** The unread bytes, the room left, the text so far, the streams a join still expects, the depth. */
  datatype Printer = Printer(explain: seq<byte>, room: nat, plan: seq<byte>, count: nat, level: nat) {
    function Put(s: seq<byte>): Outcome {
      if |s| <= room then Printing(this.(plan := plan + s, room := room - |s|)) else Failed
    }

    function Skip(n: nat): Printer
      requires n <= |explain|
    {
      this.(explain := explain[n..])
    }

    predicate After(c: byte) {
      plan != [] && plan[|plan| - 1] == c
    }
  }

  /** Failure, for want of room or a malformed index tree, or a stream outside the model. */
  datatype Outcome = Printing(p: Printer) | Failed | Uncovered {
    predicate IsFailure() {
      !Printing?
    }

    function PropagateFailure(): Outcome
      requires IsFailure()
    {
      this
    }

    function Extract(): Printer
      requires Printing?
    {
      p
    }
  }

  /** A count byte read through a signed character. */
  function Widened(b: byte): nat {
    if b < 0x80 then b else b + 0xFF00
  }

  /** A comma where one is due, then the text. */
  function Heading(p: Printer, comma: bool, s: seq<byte>): (r: Outcome)
    ensures r.Printing? ==> r.p.explain == p.explain && r.p.room <= p.room && r.p.level == p.level
  {
    var c :- if comma then p.Put([COMMA]) else Printing(p);
    c.Put(s)
  }

  function IndexName(p: Printer): (r: Outcome)
    ensures r.Printing? ==> |r.p.explain| < |p.explain| && r.p.room <= p.room
  {
    if p.explain == [] || p.plan == [] then Uncovered
    else
      var length := Widened(p.explain[0]);
      if 1 + length > |p.explain| then Uncovered
      else
        var d :- Heading(p, !(p.After(OPEN) || p.After(BLANK)), p.explain[1..1 + length]);
        Printing(d.Skip(1 + length))
  }

  function Indices(p: Printer): (r: Outcome)
    ensures r.Printing? ==> |r.p.explain| < |p.explain| && r.p.room <= p.room
    decreases |p.explain|
  {
    if p.explain == [] then Uncovered
    else
      var q := p.Skip(1);
      var code := p.explain[0];
      if code == INDEX_AND || code == INDEX_OR then
        var a :- Indices(q);
        Indices(a)
      else if code == INDEX_DBKEY then Printing(q)
      else if code == INDEX_NAME then IndexName(q)
      else Failed
  }

  /** When the caller of the next item stops calling. */
  datatype Goal = Streams | Back(level: nat) | Whole

  predicate Done(goal: Goal, p: Printer) {
    match goal
    case Streams => p.count == 0 || p.level == 0
    case Back(level) => p.level == level || p.explain == [] || p.room == 0
    case Whole => p.explain == [] || p.room == 0
  }

  function Item(p: Printer): (r: Outcome)
    ensures r.Printing? ==> |r.p.explain| < |p.explain| && r.p.room <= p.room
    decreases |p.explain|, 0
  {
    if p.explain == [] then Uncovered
    else
      var q := p.Skip(1);
      var code := p.explain[0];
      if code == RSB_BEGIN then
        var a :- if p.level == 0 then q.Put(PLAN_TEXT) else Printing(q);
        Printing(a.(level := p.level + 1))
      else if code == RSB_END then
        Printing(q.(level := if p.level == 0 then 0 else p.level - 1))
      else if code == RSB_RELATION then Relation(q)
      else if code == RSB_TYPE && q.explain == [] then Uncovered
      else if code == RSB_TYPE then Typed(q.explain[0], q.Skip(1))
      else Printing(q)
  }

  function StreamName(p: Printer): (r: Outcome)
    requires p.explain != [] && p.explain[0] < |p.explain|
    ensures r.Printing? ==> |r.p.explain| < |p.explain| && r.p.room <= p.room
  {
    if p.plan == [] then Uncovered
    else
      var length: nat := p.explain[0];
      var d :- Heading(p, !p.After(OPEN), p.explain[1..1 + length]);
      Printing(d.Skip(1 + length))
  }

  function Relation(p: Printer): (r: Outcome)
    ensures r.Printing? ==> |r.p.explain| < |p.explain| && r.p.room <= p.room
  {
    if p.explain == [] || p.explain[0] >= |p.explain| then Uncovered
    else
      var a :- if p.count == 0 then p.Put([OPEN]) else Printing(p);
      StreamName(a)
  }

  /** One stream of the enclosing join is out. */
  function Counted(p: Printer): Printer {
    p.(count := if p.count == 0 then 0 else p.count - 1)
  }

  function Typed(code: byte, p: Printer): (r: Outcome)
    ensures r.Printing? ==> |r.p.explain| <= |p.explain| && r.p.room <= p.room
    decreases |p.explain|, 3
  {
    if code == UNION then Uncovered
    else if code in {CROSS, LEFT_CROSS, MERGE} then Joined(code, p)
    else if code in {INDEXED, NAVIGATE, SEQUENTIAL, EXT_SEQUENTIAL, EXT_INDEXED} then Accessed(code, p)
    else if code == SORT then Sorted(p)
    else Printing(p)
  }

  function Closed(p: Printer, due: bool): (r: Outcome)
    ensures r.Printing? ==> r.p.explain == p.explain && r.p.room <= p.room
  {
    if due then p.Put([CLOSE]) else Printing(p)
  }

  predicate Bracketed(code: byte) {
    code == INDEXED || code == EXT_INDEXED
  }

  function AccessText(code: byte): seq<byte> {
    if Bracketed(code) then INDEX_TEXT else if code == NAVIGATE then ORDER_TEXT else NATURAL_TEXT
  }

  function Accessed(code: byte, p: Printer): (r: Outcome)
    ensures r.Printing? ==> |r.p.explain| <= |p.explain| && r.p.room <= p.room
  {
    var a :- p.Put(AccessText(code));
    var b :- if Bracketed(code) || code == NAVIGATE then Indices(a) else Printing(a);
    var c :- Closed(b, Bracketed(code));
    var d :- Closed(c, p.count == 0);
    Printing(Counted(d))
  }

  function Joined(code: byte, p: Printer): (r: Outcome)
    ensures r.Printing? ==> |r.p.explain| <= |p.explain| && r.p.room <= p.room
    decreases |p.explain|, 2
  {
    if p.explain == [] || (p.count != 0 && p.plan == []) then Uncovered
    else
      var b :- Heading(p, p.count != 0 && !p.After(OPEN), if code == MERGE then MERGE_TEXT else JOIN_TEXT);
      var d :- Counts(b);
      var e :- Closed(d, true);
      Printing(Counted(e.(count := p.count)))
  }

  /** A join's streams, as many as its count byte says. */
  function Counts(p: Printer): (r: Outcome)
    requires p.explain != []
    ensures r.Printing? ==> |r.p.explain| < |p.explain| && r.p.room <= p.room
    decreases |p.explain|, 1
  {
    var streams := Widened(p.explain[0]);
    var c := p.Skip(1).(count := streams);
    if streams == 0 then Printing(c) else Items(Streams, c)
  }

  function Sorted(p: Printer): (r: Outcome)
    ensures r.Printing? ==> |r.p.explain| <= |p.explain| && r.p.room <= p.room
    decreases |p.explain|, 2
  {
    if |p.explain| > 2 && p.explain[0] == RSB_BEGIN && p.explain[1] == RSB_TYPE && p.explain[2] == UNION then Printing(p)
    else if p.count != 0 && p.plan == [] then Uncovered
    else
      var b :- Heading(p, p.count != 0 && !p.After(OPEN), SORT_TEXT);
      var c :- if b.explain == [] || b.room == 0 then Printing(b) else Items(Back(p.level), b);
      Closed(c, true)
  }

  /** Items, one at least, until the goal is met. */
  function Items(goal: Goal, p: Printer): (r: Outcome)
    ensures r.Printing? ==> |r.p.explain| < |p.explain| && r.p.room <= p.room
    decreases |p.explain|, 1
  {
    var q :- Item(p);
    if Done(goal, q) then Printing(q) else Items(goal, q)
  }

  // ----- room decides only whether, not what

  function Roomier(p: Printer, d: nat): Printer {
    p.(room := p.room + d)
  }

  /** What d less of room makes of an outcome. */
  predicate Confined(wide: Outcome, narrow: Outcome, d: nat) {
    && (wide.Printing? ==> narrow == if wide.p.room >= d then Printing(wide.p.(room := wide.p.room - d)) else Failed)
    && (wide.Failed? ==> narrow.Failed?)
  }

  lemma HeadingRoom(p: Printer, comma: bool, s: seq<byte>, d: nat)
    ensures Confined(Heading(Roomier(p, d), comma, s), Heading(p, comma, s), d)
  {
  }

  lemma IndexNameRoom(p: Printer, d: nat)
    ensures Confined(IndexName(Roomier(p, d)), IndexName(p), d)
  {
    if p.explain != [] && p.plan != [] && 1 + Widened(p.explain[0]) <= |p.explain| {
      HeadingRoom(p, !(p.After(OPEN) || p.After(BLANK)), p.explain[1..1 + Widened(p.explain[0])], d);
      hide Heading;
    }
  }

  lemma {:induction false} IndicesRoom(p: Printer, d: nat)
    ensures Confined(Indices(Roomier(p, d)), Indices(p), d)
    decreases |p.explain|
  {
    hide IndexName;
    if p.explain != [] {
      var q := p.Skip(1);
      assert Roomier(p, d).Skip(1) == Roomier(q, d);
      if p.explain[0] == INDEX_NAME {
        IndexNameRoom(q, d);
      } else if p.explain[0] == INDEX_AND || p.explain[0] == INDEX_OR {
        IndicesRoom(q, d);
        if Indices(q).Printing? {
          IndicesRoom(Indices(q).p, d);
        }
      }
    }
  }

  lemma ClosedRoom(p: Printer, due: bool, d: nat)
    ensures Confined(Closed(Roomier(p, d), due), Closed(p, due), d)
  {
  }

  lemma RelationRoom(p: Printer, d: nat)
    ensures Confined(Relation(Roomier(p, d)), Relation(p), d)
  {
    if p.explain != [] && p.explain[0] < |p.explain| {
      var length: nat := p.explain[0];
      var a := if p.count == 0 then p.Put([OPEN]) else Printing(p);
      if a.Printing? {
        HeadingRoom(a.p, !a.p.After(OPEN), p.explain[1..1 + length], d);
        hide Heading;
      }
    }
  }

  lemma {:induction false} AccessedRoom(code: byte, p: Printer, d: nat)
    ensures Confined(Accessed(code, Roomier(p, d)), Accessed(code, p), d)
  {
    hide Indices, Closed, AccessText, Bracketed;
    if p.Put(AccessText(code)).Printing? {
      var a := p.Put(AccessText(code)).p;
      IndicesRoom(a, d);
      var b := if Bracketed(code) || code == NAVIGATE then Indices(a) else Printing(a);
      if b.Printing? {
        ClosedRoom(b.p, Bracketed(code), d);
        if Closed(b.p, Bracketed(code)).Printing? {
          ClosedRoom(Closed(b.p, Bracketed(code)).p, p.count == 0, d);
        }
      }
    }
  }

  /** For a loop that also stops when the room is used up. */
  predicate LoopConfined(goal: Goal, wide: Outcome, narrow: Outcome, d: nat) {
    if goal.Streams? then Confined(wide, narrow, d)
    else if wide.Printing? && wide.p.room > d then narrow == Printing(wide.p.(room := wide.p.room - d))
    else wide.Uncovered? || narrow.Failed? || (narrow.Printing? && narrow.p.room == 0)
  }

  lemma {:induction false} ItemRoom(p: Printer, d: nat)
    ensures Confined(Item(Roomier(p, d)), Item(p), d)
    decreases |p.explain|, 0
  {
    hide Relation, Typed;
    if p.explain != [] {
      var q := p.Skip(1);
      assert Roomier(p, d).Skip(1) == Roomier(q, d);
      if p.explain[0] == RSB_RELATION {
        RelationRoom(q, d);
      } else if p.explain[0] == RSB_TYPE && q.explain != [] {
        assert Roomier(q, d).Skip(1) == Roomier(q.Skip(1), d);
        TypedRoom(q.explain[0], q.Skip(1), d);
      }
    }
  }

  lemma {:induction false} TypedRoom(code: byte, p: Printer, d: nat)
    ensures Confined(Typed(code, Roomier(p, d)), Typed(code, p), d)
    decreases |p.explain|, 3
  {
    hide Joined, Accessed, Sorted;
    JoinedRoom(code, p, d);
    AccessedRoom(code, p, d);
    SortedRoom(p, d);
  }

  lemma {:induction false} JoinedRoom(code: byte, p: Printer, d: nat)
    ensures Confined(Joined(code, Roomier(p, d)), Joined(code, p), d)
    decreases |p.explain|, 2
  {
    hide Heading, Items, Closed, Counts;
    if p.explain != [] && !(p.count != 0 && p.plan == []) {
      var comma, text := p.count != 0 && !p.After(OPEN), if code == MERGE then MERGE_TEXT else JOIN_TEXT;
      HeadingRoom(p, comma, text, d);
      if Heading(p, comma, text).Printing? {
        var b := Heading(p, comma, text).p;
        CountsRoom(b, d);
        if Counts(b).Printing? {
          ClosedRoom(Counts(b).p, true, d);
        }
      }
    }
  }

  lemma {:induction false} CountsRoom(p: Printer, d: nat)
    requires p.explain != []
    ensures Confined(Counts(Roomier(p, d)), Counts(p), d)
    decreases |p.explain|, 1
  {
    hide Items;
    var c := p.Skip(1).(count := Widened(p.explain[0]));
    assert Roomier(p, d).Skip(1).(count := Widened(p.explain[0])) == Roomier(c, d);
    ItemsRoom(Streams, c, d);
  }

  lemma {:induction false} SortedRoom(p: Printer, d: nat)
    ensures Confined(Sorted(Roomier(p, d)), Sorted(p), d)
    decreases |p.explain|, 2
  {
    hide Heading, Items;
    var comma := p.count != 0 && !p.After(OPEN);
    HeadingRoom(p, comma, SORT_TEXT, d);
    if Heading(p, comma, SORT_TEXT).Printing? {
      ItemsRoom(Back(p.level), Heading(p, comma, SORT_TEXT).p, d);
    }
  }

  lemma {:induction false} ItemsRoom(goal: Goal, p: Printer, d: nat)
    ensures LoopConfined(goal, Items(goal, Roomier(p, d)), Items(goal, p), d)
    decreases |p.explain|, 1
  {
    hide Item;
    ItemRoom(p, d);
    if Item(p).Printing? && !Done(goal, Item(p).p) {
      ItemsRoom(goal, Item(p).p, d);
    }
  }
}
