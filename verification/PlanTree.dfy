/**
 Access plans: the tree of record sources, the begin/type/end byte form in which the
 engine reports it, and the text a reader is to see.
 */
module PlanTree {
  import opened Wrappers
  import opened Bytes

  /** Index scans whose bitmaps are combined, by an or if `either` and by an and if not. */
  datatype IndexTree = Combined(either: bool, left: IndexTree, right: IndexTree) | DbKey | Index(name: seq<byte>)

  /** An external relation is read through, or by an index of its own that the engine does not name. */
  datatype How =
    | Natural
    | Indexed(indices: IndexTree)
    | Navigate(indices: IndexTree)
    | ExtNatural
    | ExtIndexed
  {
    predicate Named() {
      Indexed? || Navigate?
    }
  }

  datatype JoinType = Cross | LeftCross | Merge

  datatype Plan =
    | Access(name: seq<byte>, how: How)
    | Join(kind: JoinType, streams: Plans)
    | Sort(stream: Plan)
    | Filter(code: byte, stream: Plan)

  datatype Plans = One(head: Plan) | More(head: Plan, tail: Plans)

  function Count(ts: Plans): (n: nat)
    ensures n >= 1
  {
    if ts.One? then 1 else 1 + Count(ts.tail)
  }

  // ----- codes

  const RSB_END: byte := 0
  const RSB_BEGIN: byte := 1
  const RSB_TYPE: byte := 2
  const RSB_RELATION: byte := 3

  const INDEXED: byte := 2
  const NAVIGATE: byte := 3
  const SEQUENTIAL: byte := 4
  const CROSS: byte := 5
  const SORT: byte := 6
  const UNION: byte := 9
  const MERGE: byte := 11
  const EXT_SEQUENTIAL: byte := 12
  const EXT_INDEXED: byte := 13
  const LEFT_CROSS: byte := 15

  const INDEX_AND: byte := 1
  const INDEX_OR: byte := 2
  const INDEX_DBKEY: byte := 3
  const INDEX_NAME: byte := 4

  /** The types the printer passes over: boolean, first, skip, aggregate and the like. */
  predicate PassedOver(code: byte) {
    code !in {INDEXED, NAVIGATE, SEQUENTIAL, CROSS, SORT, UNION, MERGE, EXT_SEQUENTIAL, EXT_INDEXED, LEFT_CROSS}
  }

  // ----- the byte form

  function IndexBytes(i: IndexTree): (b: seq<byte>)
    requires ValidIndices(i)
    ensures b != []
  {
    match i
    case Combined(either, l, r) => [if either then INDEX_OR else INDEX_AND] + (IndexBytes(l) + IndexBytes(r))
    case DbKey => [INDEX_DBKEY]
    case Index(name) => [INDEX_NAME, |name|] + name
  }

  function HowBytes(how: How): (b: seq<byte>)
    requires ValidHow(how)
    ensures b != []
  {
    match how
    case Natural => [SEQUENTIAL]
    case Indexed(i) => [INDEXED] + IndexBytes(i)
    case Navigate(i) => [NAVIGATE] + IndexBytes(i)
    case ExtNatural => [EXT_SEQUENTIAL]
    case ExtIndexed => [EXT_INDEXED]
  }

  function JoinCode(kind: JoinType): byte {
    match kind
    case Cross => CROSS
    case LeftCross => LEFT_CROSS
    case Merge => MERGE
  }

  /** All of a tree up to the end markers that close it; a join leaves its last stream's there too. */
  function Core(t: Plan): (b: seq<byte>)
    requires Valid(t)
    ensures b != []
    decreases t, 0
  {
    match t
    case Access(name, how) => [RSB_BEGIN] + ([RSB_RELATION, |name|] + name + ([RSB_TYPE] + HowBytes(how)))
    case Join(kind, ts) => [RSB_BEGIN] + ([RSB_TYPE, JoinCode(kind), Count(ts)] + CoreAll(ts))
    case Sort(u) => [RSB_BEGIN] + ([RSB_TYPE, SORT] + Dumped(u))
    case Filter(code, u) => [RSB_BEGIN] + ([RSB_TYPE, code] + Core(u))
  }

  function CoreAll(ts: Plans): (b: seq<byte>)
    requires ValidAll(ts)
    ensures b != []
    decreases ts, 0
  {
    match ts
    case One(t) => Core(t)
    case More(t, rest) => Dumped(t) + CoreAll(rest)
  }

  function Ends(t: Plan): nat {
    match t
    case Access(_, _) => 1
    case Join(_, ts) => 1 + EndsOfLast(ts)
    case Sort(_) => 1
    case Filter(_, u) => 1 + Ends(u)
  }

  function EndsOfLast(ts: Plans): nat {
    if ts.One? then Ends(ts.head) else EndsOfLast(ts.tail)
  }

  function EndBytes(n: nat): (b: seq<byte>)
    ensures |b| == n
  {
    if n == 0 then [] else [RSB_END] + EndBytes(n - 1)
  }

  function Dumped(t: Plan): (b: seq<byte>)
    requires Valid(t)
    ensures b != []
    decreases t, 1
  {
    Core(t) + EndBytes(Ends(t))
  }

  /** The engine's own writing of a tree: begin, what the source is, its streams, end. */
  function Engine(t: Plan): seq<byte>
    requires Valid(t)
  {
    match t
    case Access(name, how) => [RSB_BEGIN] + ([RSB_RELATION, |name|] + name + ([RSB_TYPE] + HowBytes(how))) + [RSB_END]
    case Join(kind, ts) => [RSB_BEGIN] + ([RSB_TYPE, JoinCode(kind), Count(ts)] + EngineAll(ts)) + [RSB_END]
    case Sort(u) => [RSB_BEGIN] + ([RSB_TYPE, SORT] + Engine(u)) + [RSB_END]
    case Filter(code, u) => [RSB_BEGIN] + ([RSB_TYPE, code] + Engine(u)) + [RSB_END]
  }

  function EngineAll(ts: Plans): seq<byte>
    requires ValidAll(ts)
  {
    match ts
    case One(t) => Engine(t)
    case More(t, rest) => Engine(t) + EngineAll(rest)
  }

  lemma {:induction false} EndBytesSnoc(n: nat)
    ensures EndBytes(n + 1) == EndBytes(n) + [RSB_END]
  {
    if n > 0 {
      EndBytesSnoc(n - 1);
      assert EndBytes(n + 1) == [RSB_END] + (EndBytes(n - 1) + [RSB_END]);
    }
  }

  lemma NoEnds()
    ensures EndBytes(0) == []
  {
  }

  lemma Regroup(a: seq<byte>, b: seq<byte>, c: seq<byte>, d: seq<byte>, e: seq<byte>)
    ensures a + (b + c) + (d + e) == a + (b + (c + d)) + e
  {
  }

  /** Reading a tree as its core and its unread end markers is reading what the engine wrote. */
  lemma {:induction false} DumpedIsEngine(t: Plan)
    requires Valid(t)
    ensures Dumped(t) == Engine(t)
  {
    hide PassedOver, EndBytes, ValidHow, ValidIndices, IndexBytes, HowBytes, JoinCode, Count;
    match t
    case Access(name, how) =>
      EndBytesSnoc(0);
      NoEnds();
    case Join(kind, ts) =>
      CoreAllIsEngine(ts);
      EndBytesSnoc(EndsOfLast(ts));
      Regroup([RSB_BEGIN], [RSB_TYPE, JoinCode(kind), Count(ts)], CoreAll(ts), EndBytes(EndsOfLast(ts)), [RSB_END]);
    case Sort(u) =>
      DumpedIsEngine(u);
      EndBytesSnoc(0);
      NoEnds();
    case Filter(code, u) =>
      DumpedIsEngine(u);
      EndBytesSnoc(Ends(u));
      Regroup([RSB_BEGIN], [RSB_TYPE, code], Core(u), EndBytes(Ends(u)), [RSB_END]);
  }

  lemma {:induction false} CoreAllIsEngine(ts: Plans)
    requires ValidAll(ts)
    ensures CoreAll(ts) + EndBytes(EndsOfLast(ts)) == EngineAll(ts)
  {
    DumpedIsEngine(ts.head);
    if ts.More? {
      CoreAllIsEngine(ts.tail);
      assert CoreAll(ts) + EndBytes(EndsOfLast(ts)) == Dumped(ts.head) + (CoreAll(ts.tail) + EndBytes(EndsOfLast(ts.tail)));
    }
  }

  // ----- the text

  const OPEN: byte := 40
  const CLOSE: byte := 41
  const COMMA: byte := 44
  const BLANK: byte := 32

  const PLAN_TEXT: seq<byte> := [10, 80, 76, 65, 78, 32]
  const JOIN_TEXT: seq<byte> := [74, 79, 73, 78, 32, 40]
  const MERGE_TEXT: seq<byte> := [77, 69, 82, 71, 69, 32, 40]
  const SORT_TEXT: seq<byte> := [83, 79, 82, 84, 32, 40]
  const INDEX_TEXT: seq<byte> := [32, 73, 78, 68, 69, 88, 32, 40]
  const ORDER_TEXT: seq<byte> := [32, 79, 82, 68, 69, 82, 32]
  const NATURAL_TEXT: seq<byte> := [32, 78, 65, 84, 85, 82, 65, 76]

  function Names(i: IndexTree): seq<seq<byte>> {
    match i
    case Combined(_, l, r) => Names(l) + Names(r)
    case DbKey => []
    case Index(name) => [name]
  }

  function Commas(names: seq<seq<byte>>): seq<byte> {
    if names == [] then []
    else if |names| == 1 then names[0]
    else Commas(names[..|names| - 1]) + [COMMA] + names[|names| - 1]
  }

  function HowText(how: How): seq<byte> {
    match how
    case Natural => NATURAL_TEXT
    case Indexed(i) => INDEX_TEXT + Commas(Names(i)) + [CLOSE]
    case Navigate(i) => ORDER_TEXT + Commas(Names(i))
    case ExtNatural => NATURAL_TEXT
    case ExtIndexed => INDEX_TEXT + [CLOSE]
  }

  function JoinText(kind: JoinType): (s: seq<byte>)
    ensures |s| > 0 && s[|s| - 1] == OPEN
  {
    if kind.Merge? then MERGE_TEXT else JOIN_TEXT
  }

  /** A stream inside a join; a single relation has parentheses of its own. */
  function Text(t: Plan, joined: bool): seq<byte> {
    match t
    case Access(name, how) => if joined then name + HowText(how) else [OPEN] + name + HowText(how) + [CLOSE]
    case Join(kind, ts) => JoinText(kind) + ListText(ts) + [CLOSE]
    case Sort(u) => SORT_TEXT + Text(u, joined) + [CLOSE]
    case Filter(_, u) => Text(u, joined)
  }

  function ListText(ts: Plans): seq<byte> {
    match ts
    case One(t) => Text(t, true)
    case More(t, rest) => Text(t, true) + [COMMA] + ListText(rest)
  }

  /** Every tree on a line of its own. */
  function PlanText(ts: seq<Plan>): seq<byte> {
    if ts == [] then [] else PLAN_TEXT + Text(ts[0], false) + PlanText(ts[1..])
  }

  // ----- names

  /** A comma is left out after an opening parenthesis or a blank, so no index name ends in one. */
  predicate ValidIndexName(name: seq<byte>) {
    0 < |name| <= 127 && name[|name| - 1] !in {OPEN, BLANK}
  }

  predicate ValidIndices(i: IndexTree) {
    match i
    case Combined(_, l, r) => ValidIndices(l) && ValidIndices(r)
    case DbKey => true
    case Index(name) => ValidIndexName(name)
  }

  predicate ValidHow(how: How) {
    how.Named() ==> ValidIndices(how.indices)
  }

  predicate Valid(t: Plan) {
    match t
    case Access(name, how) => |name| <= 255 && ValidHow(how)
    case Join(_, ts) => Count(ts) <= 127 && ValidAll(ts)
    case Sort(u) => Valid(u)
    case Filter(code, u) => PassedOver(code) && Valid(u)
  }

  predicate ValidAll(ts: Plans) {
    Valid(ts.head) && (ts.More? ==> ValidAll(ts.tail))
  }

  /** No external relation in the tree is read by an index. */
  predicate Printable(t: Plan) {
    match t
    case Access(_, how) => !how.ExtIndexed?
    case Join(_, ts) => PrintableAll(ts)
    case Sort(u) => Printable(u)
    case Filter(_, u) => Printable(u)
  }

  predicate PrintableAll(ts: Plans) {
    Printable(ts.head) && (ts.More? ==> PrintableAll(ts.tail))
  }

  // ----- balance

  /** How many parentheses are open after s, or none if one closes too many. */
  function Nesting(s: seq<byte>, open: nat): Option<nat> {
    if s == [] then Some(open)
    else if s[0] == OPEN then Nesting(s[1..], open + 1)
    else if s[0] != CLOSE then Nesting(s[1..], open)
    else if open == 0 then None
    else Nesting(s[1..], open - 1)
  }

  predicate NoParens(s: seq<byte>) {
    OPEN !in s && CLOSE !in s
  }

  predicate PlainIndices(i: IndexTree) {
    forall name :: name in Names(i) ==> NoParens(name)
  }

  predicate Plain(t: Plan) {
    match t
    case Access(name, how) => NoParens(name) && (how.Named() ==> PlainIndices(how.indices))
    case Join(_, ts) => PlainAll(ts)
    case Sort(u) => Plain(u)
    case Filter(_, u) => Plain(u)
  }

  predicate PlainAll(ts: Plans) {
    Plain(ts.head) && (ts.More? ==> PlainAll(ts.tail))
  }

  lemma {:induction false} NestingConcat(a: seq<byte>, b: seq<byte>, open: nat)
    requires Nesting(a, open).Some?
    ensures Nesting(a + b, open) == Nesting(b, Nesting(a, open).value)
  {
    if a == [] {
      assert a + b == b;
    } else {
      assert (a + b)[1..] == a[1..] + b;
      NestingConcat(a[1..], b, if a[0] == OPEN then open + 1 else if a[0] == CLOSE then open - 1 else open);
    }
  }

  lemma {:induction false} NoParensNest(s: seq<byte>, open: nat)
    requires NoParens(s)
    ensures Nesting(s, open) == Some(open)
  {
    if s != [] {
      NoParensNest(s[1..], open);
    }
  }

  lemma {:induction false} CommasPlain(names: seq<seq<byte>>)
    requires forall name :: name in names ==> NoParens(name)
    ensures NoParens(Commas(names))
  {
    if |names| == 1 {
      assert names[0] in names;
    }
    if |names| > 1 {
      CommasPlain(names[..|names| - 1]);
      assert names[|names| - 1] in names;
    }
  }

  /** Text between one opening and one closing parenthesis. */
  lemma Enclosed(before: seq<byte>, inside: seq<byte>, open: nat)
    requires |before| > 0 && before[|before| - 1] == OPEN && NoParens(before[..|before| - 1])
    requires Nesting(inside, open + 1) == Some(open + 1)
    ensures Nesting(before + inside + [CLOSE], open) == Some(open)
  {
    var head := before[..|before| - 1];
    NoParensNest(head, open);
    NestingConcat(head, [OPEN] + (inside + [CLOSE]), open);
    NestingConcat(inside, [CLOSE], open + 1);
    assert ([OPEN] + (inside + [CLOSE]))[1..] == inside + [CLOSE];
    assert before + inside + [CLOSE] == head + ([OPEN] + (inside + [CLOSE]));
  }

  lemma HowBalanced(how: How, open: nat)
    requires how.Named() ==> PlainIndices(how.indices)
    ensures Nesting(HowText(how), open) == Some(open)
  {
    match how
    case Natural =>
      NoParensNest(NATURAL_TEXT, open);
    case ExtNatural =>
      NoParensNest(NATURAL_TEXT, open);
    case ExtIndexed =>
      assert Nesting([], open + 1) == Some(open + 1);
      Enclosed(INDEX_TEXT, [], open);
      assert INDEX_TEXT + [] + [CLOSE] == INDEX_TEXT + [CLOSE];
    case Indexed(i) =>
      CommasPlain(Names(i));
      NoParensNest(Commas(Names(i)), open + 1);
      Enclosed(INDEX_TEXT, Commas(Names(i)), open);
    case Navigate(i) =>
      CommasPlain(Names(i));
      NoParensNest(ORDER_TEXT + Commas(Names(i)), open);
  }

  /** Every parenthesis the text opens it closes, in order. */
  lemma {:induction false} TextBalanced(t: Plan, joined: bool, open: nat)
    requires Plain(t)
    ensures Nesting(Text(t, joined), open) == Some(open)
  {
    match t
    case Access(name, how) =>
      var now := if joined then open else open + 1;
      NoParensNest(name, now);
      HowBalanced(how, now);
      NestingConcat(name, HowText(how), now);
      if !joined {
        Enclosed([OPEN], name + HowText(how), open);
        assert [OPEN] + name + HowText(how) + [CLOSE] == [OPEN] + (name + HowText(how)) + [CLOSE];
      }
    case Join(kind, ts) =>
      ListBalanced(ts, open + 1);
      Enclosed(JoinText(kind), ListText(ts), open);
    case Sort(u) =>
      TextBalanced(u, joined, open + 1);
      Enclosed(SORT_TEXT, Text(u, joined), open);
    case Filter(_, u) =>
      TextBalanced(u, joined, open);
  }

  lemma {:induction false} ListBalanced(ts: Plans, open: nat)
    requires PlainAll(ts)
    ensures Nesting(ListText(ts), open) == Some(open)
  {
    TextBalanced(ts.head, true, open);
    if ts.More? {
      ListBalanced(ts.tail, open);
      NestingConcat(Text(ts.head, true), [COMMA] + ListText(ts.tail), open);
      assert ([COMMA] + ListText(ts.tail))[1..] == ListText(ts.tail);
      assert ListText(ts) == Text(ts.head, true) + ([COMMA] + ListText(ts.tail));
    }
  }
}
