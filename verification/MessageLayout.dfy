/**
 Message layouts: the places a statement's parameters get in its message, and the check of
 a client's description of its message, which lays the same message out again.
 */
module MessageLayout {
  import opened Wrappers
  import opened Bytes
  import opened Streams
  import opened BlrVerbs

  const USHORT_MODULUS: nat := 0x1_0000

  datatype Dtype = Text | CString | Varying | Short | Long | Quad | Real | DoubleP | SqlDate | SqlTime | Timestamp | Blob
    | Int64

  /** What the place of a type is a multiple of; nothing for text. */
  function Alignment(d: Dtype): nat {
    match d
    case Text => 0
    case CString => 0
    case Varying => 2
    case Short => 2
    case Long => 4
    case Quad => 4
    case Real => 4
    case DoubleP => 8
    case SqlDate => 4
    case SqlTime => 4
    case Timestamp => 4
    case Blob => 4
    case Int64 => 8
  }

  function Align(n: nat, a: nat): nat {
    if a == 0 then n else (n + a - 1) / a * a
  }

  lemma AlignConstants(n: nat)
    ensures n <= Align(n, 2) < n + 2 && Align(n, 2) % 2 == 0
    ensures n <= Align(n, 4) < n + 4 && Align(n, 4) % 4 == 0
    ensures n <= Align(n, 8) < n + 8 && Align(n, 8) % 8 == 0
  {
  }

  lemma AlignIs(n: nat, d: Dtype)
    ensures var m := Align(n, Alignment(d));
            n <= m < n + 8 && (Alignment(d) > 0 ==> m % Alignment(d) == 0)
  {
    AlignConstants(n);
    if Alignment(d) > 0 {
      assert Alignment(d) == 2 || Alignment(d) == 4 || Alignment(d) == 8;
      hide Align;
    }
  }

  datatype Slot = Slot(dtype: Dtype, length: nat)

  /** Every parameter at the first suitable place behind the one before. */
  function Places(slots: seq<Slot>, start: nat): (p: seq<nat>)
    ensures |p| == |slots|
  {
    if slots == [] then []
    else
      var at := Align(start, Alignment(slots[0].dtype));
      [at] + Places(slots[1..], at + slots[0].length)
  }

  /** Where the message ends. */
  function End(slots: seq<Slot>, start: nat): nat {
    if slots == [] then start
    else End(slots[1..], Align(start, Alignment(slots[0].dtype)) + slots[0].length)
  }

  /** Places are aligned to their types, in order, apart from each other, and inside the message. */
  lemma {:induction false} PlacesAreSound(slots: seq<Slot>, start: nat)
    ensures start <= End(slots, start)
    ensures forall i :: 0 <= i < |slots| ==>
              var p := Places(slots, start);
              && start <= p[i] && p[i] + slots[i].length <= End(slots, start)
              && (Alignment(slots[i].dtype) > 0 ==> p[i] % Alignment(slots[i].dtype) == 0)
    ensures forall i, j :: 0 <= i < j < |slots| ==>
              Places(slots, start)[i] + slots[i].length <= Places(slots, start)[j]
    decreases |slots|
  {
    if slots != [] {
      var at := Align(start, Alignment(slots[0].dtype));
      AlignIs(start, slots[0].dtype);
      PlacesAreSound(slots[1..], at + slots[0].length);
      var p := Places(slots, start);
      assert forall i :: 1 <= i < |slots| ==> p[i] == Places(slots[1..], at + slots[0].length)[i - 1] && slots[i] == slots[1..][i - 1];
    }
  }

  /** The k-th place follows from where the first k parameters end. */
  lemma {:induction false} PlaceAt(slots: seq<Slot>, start: nat, k: nat)
    requires k < |slots|
    ensures Places(slots, start)[k] == Align(End(slots[..k], start), Alignment(slots[k].dtype))
    ensures End(slots[..k + 1], start) == Places(slots, start)[k] + slots[k].length
  {
    var next := Align(start, Alignment(slots[0].dtype)) + slots[0].length;
    if k > 0 {
      PlaceAt(slots[1..], next, k - 1);
      assert slots[..k][1..] == slots[1..][..k - 1] && slots[..k + 1][1..] == slots[1..][..k];
    } else {
      assert slots[..0] == [] && slots[..1][1..] == [];
    }
  }

  /** The boundary the engine keeps a type on; any place does for text. */
  function Boundary(d: Dtype): nat {
    if d in {Text, CString} then 1
    else if d in {Varying, Short} then 2
    else if d in {DoubleP, Int64} then 8
    else 4
  }

  lemma FirstOnBoundary(n: nat, d: Dtype, q: nat)
    ensures var at := Align(n, Alignment(d));
            at % Boundary(d) == 0 && at >= n && (n <= q < at ==> q % Boundary(d) != 0)
  {
    AlignConstants(n);
    hide Align;
    var at := Align(n, Alignment(d));
    if Boundary(d) == 1 {
      assert Align(n, 0) == n by {
        NotAligned(n);
      }
    } else if n <= q < at {
      BetweenMultiples(at, q, Boundary(d));
    }
  }

  lemma NotAligned(n: nat)
    ensures Align(n, 0) == n
  {
  }

  lemma BetweenMultiples(at: nat, q: nat, a: nat)
    requires (a == 2 || a == 4 || a == 8) && at % a == 0 && at - a < q < at
    ensures q % a != 0
  {
  }

  /** Every parameter is at the first place on its boundary behind the one before it. */
  lemma PlaceIsFirst(slots: seq<Slot>, start: nat, k: nat, q: nat)
    requires k < |slots|
    ensures var p := Places(slots, start);
            var free := if k == 0 then start else p[k - 1] + slots[k - 1].length;
            && p[k] >= free && p[k] % Boundary(slots[k].dtype) == 0
            && (free <= q < p[k] ==> q % Boundary(slots[k].dtype) != 0)
  {
    hide Align, Alignment, Places, Boundary;
    PlaceAt(slots, start, k);
    if k > 0 {
      PlaceAt(slots, start, k - 1);
    } else {
      assert slots[..0] == [];
    }
    FirstOnBoundary(End(slots[..k], start), slots[k].dtype, q);
  }

  // ----- the message of a statement

  class Parameter {
    const slot: Slot
    var number: nat
    var address: nat

    constructor (slot: Slot)
      ensures this.slot == slot
    {
      this.slot := slot;
    }
  }

  class Message {
    const parameters: seq<Parameter>
    var length: nat

    constructor (parameters: seq<Parameter>)
      ensures this.parameters == parameters && length == 0
    {
      this.parameters, length := parameters, 0;
    }
  }

  function Slots(ps: seq<Parameter>): (s: seq<Slot>)
    ensures |s| == |ps| && forall i :: 0 <= i < |ps| ==> s[i] == ps[i].slot
  {
    seq(|ps|, i requires 0 <= i < |ps| => ps[i].slot)
  }

  /** Types that clients of the older dialects may not select. */
  predicate New(d: Dtype) {
    d == SqlDate || d == SqlTime || d == Int64
  }

  /** Numbers, places and the length of a message, or an error for a type the client's dialect lacks. */
  method GenPort(m: Message, oldDialect: bool) returns (ok: bool)
    requires forall i, j :: 0 <= i < |m.parameters| && 0 <= j < |m.parameters| && m.parameters[i] == m.parameters[j] ==> i == j
    requires End(Slots(m.parameters), m.length) < USHORT_MODULUS
    modifies m, m.parameters
    ensures ok <==> !oldDialect || forall i :: 0 <= i < |m.parameters| ==> m.parameters[i].slot.dtype !in {SqlDate, SqlTime, Int64}
    ensures ok ==> m.length == End(Slots(m.parameters), old(m.length))
    ensures ok ==> forall i :: 0 <= i < |m.parameters| ==>
              m.parameters[i].number == i && m.parameters[i].address == Places(Slots(m.parameters), old(m.length))[i]
  {
    var ps := m.parameters;
    ghost var slots, start := Slots(ps), m.length;
    var number := 0;
    assert slots[..0] == [];
    hide Places, End;
    while number < |ps|
      invariant number <= |ps| && m.length == End(slots[..number], start)
      invariant forall i :: 0 <= i < number ==> ps[i].number == i && ps[i].address == Places(slots, start)[i]
      invariant oldDialect ==> forall i :: 0 <= i < number ==> !New(ps[i].slot.dtype)
    {
      PlaceAt(slots, start, number);
      var p := ps[number];
      p.number := number;
      if oldDialect && New(p.slot.dtype) {
        return false;
      }
      var align := Alignment(p.slot.dtype);
      if align > 0 {
        m.length := Align(m.length, align);
      }
      p.address := m.length;
      m.length := m.length + p.slot.length;
      number := number + 1;
    }
    assert slots[..number] == slots;
    ok := true;
  }

  // ----- a client's description of its message

  /** A described variable: what goes into its descriptor; a character set that is given and not the connection's. */
  datatype Desc = Desc(dtype: Dtype, length: nat, scale: byte, charset: Option<word>)

  function FixedLength(d: Dtype): nat {
    match d
    case Short => 2
    case Long => 4
    case Quad => 8
    case Real => 4
    case DoubleP => 8
    case SqlDate => 4
    case SqlTime => 4
    case Timestamp => 8
    case Int64 => 8
    case _ => 0
  }

  predicate IsString(d: Dtype) {
    d == Text || d == Varying
  }

  predicate IsScaled(d: Dtype) {
    d == Short || d == Long || d == Int64 || d == Quad
  }

  /** Descriptors a description can name. */
  predicate Nameable(d: Desc) {
    if IsString(d.dtype) then
      d.scale == 0 && (if d.dtype == Varying then 2 <= d.length < USHORT_MODULUS else d.length < USHORT_MODULUS)
    else
      FixedLength(d.dtype) > 0 && d.length == FixedLength(d.dtype) && d.charset.None? && (IsScaled(d.dtype) || d.scale == 0)
  }

  function Verb(d: Desc): byte
    requires Nameable(d)
  {
    match d.dtype
    case Text => if d.charset.Some? then BLR_TEXT2 else BLR_TEXT
    case Varying => if d.charset.Some? then BLR_VARYING2 else BLR_VARYING
    case Short => BLR_SHORT
    case Long => BLR_LONG
    case Quad => BLR_QUAD
    case Real => BLR_FLOAT
    case DoubleP => BLR_DOUBLE
    case SqlDate => BLR_SQL_DATE
    case SqlTime => BLR_SQL_TIME
    case Timestamp => BLR_TIMESTAMP
    case Int64 => BLR_INT64
  }

  /** How a client names a variable. */
  function DescBytes(d: Desc): seq<byte>
    requires Nameable(d)
  {
    [Verb(d)]
    + (if IsString(d.dtype) then
         (if d.charset.Some? then Word(d.charset.value) else [])
         + Word(if d.dtype == Varying then d.length - 2 else d.length)
       else if IsScaled(d.dtype) then [d.scale]
       else [])
  }

  /** A variable and the indicator behind it. */
  function VariableBytes(ds: seq<Desc>): seq<byte>
    requires forall i :: 0 <= i < |ds| ==> Nameable(ds[i])
  {
    if ds == [] then [] else DescBytes(ds[0]) + [BLR_SHORT, 0] + VariableBytes(ds[1..])
  }

  function MessageBytes(version: byte, number: byte, ds: seq<Desc>): seq<byte>
    requires forall i :: 0 <= i < |ds| ==> Nameable(ds[i])
  {
    [version, BLR_BEGIN, BLR_MESSAGE, number] + Word(2 * |ds|) + VariableBytes(ds) + [BLR_END]
  }

  // ----- reading it

  datatype Parsed<+T> = Parsed(value: T, rest: seq<byte>)

  /** Two bytes, kept to sixteen bits when something was added to them. */
  function ReadLength(s: seq<byte>, plus: nat): Option<Parsed<nat>> {
    if |s| < 2 then None
    else
      var n: nat := (FromWord(s) + plus) % USHORT_MODULUS;
      Some(Parsed(n, s[2..]))
  }

  function ReadString(s: seq<byte>, dtype: Dtype, named: bool): Option<Parsed<Desc>> {
    var plus := if dtype == Varying then 2 else 0;
    if !named then
      var n :- ReadLength(s, plus);
      Some(Parsed(Desc(dtype, n.value, 0, None), n.rest))
    else
      var c :- ReadLength(s, 0);
      var n :- ReadLength(c.rest, plus);
      Some(Parsed(Desc(dtype, n.value, 0, Some(c.value)), n.rest))
  }

  function ReadScaled(s: seq<byte>, dtype: Dtype): Option<Parsed<Desc>> {
    if s == [] then None else Some(Parsed(Desc(dtype, FixedLength(dtype), s[0], None), s[1..]))
  }

  function ReadDesc(s: seq<byte>): (r: Option<Parsed<Desc>>)
    ensures r.Some? ==> |r.value.rest| < |s|
  {
    if s == [] then None
    else
      var verb, rest := s[0], s[1..];
      if verb == BLR_TEXT then ReadString(rest, Text, false)
      else if verb == BLR_VARYING then ReadString(rest, Varying, false)
      else if verb == BLR_TEXT2 then ReadString(rest, Text, true)
      else if verb == BLR_VARYING2 then ReadString(rest, Varying, true)
      else if verb == BLR_SHORT then ReadScaled(rest, Short)
      else if verb == BLR_LONG then ReadScaled(rest, Long)
      else if verb == BLR_INT64 then ReadScaled(rest, Int64)
      else if verb == BLR_QUAD then ReadScaled(rest, Quad)
      else if verb == BLR_FLOAT then Some(Parsed(Desc(Real, 4, 0, None), rest))
      else if verb == BLR_DOUBLE || verb == BLR_D_FLOAT then Some(Parsed(Desc(DoubleP, 8, 0, None), rest))
      else if verb == BLR_TIMESTAMP then Some(Parsed(Desc(Timestamp, 8, 0, None), rest))
      else if verb == BLR_SQL_DATE then Some(Parsed(Desc(SqlDate, 4, 0, None), rest))
      else if verb == BLR_SQL_TIME then Some(Parsed(Desc(SqlTime, 4, 0, None), rest))
      else None
  }

  /** The bytes a variable takes by the verb that names it; those of text are told behind the verb. */
  function WidthOfVerb(verb: byte): Option<nat> {
    match verb
    case 7 => Some(2)
    case 8 => Some(4)
    case 9 => Some(8)
    case 10 => Some(4)
    case 11 => Some(8)
    case 12 => Some(4)
    case 13 => Some(4)
    case 16 => Some(8)
    case 27 => Some(8)
    case 35 => Some(8)
    case _ => None
  }

  /** A variable is as long as the engine's type is, or as its description says. */
  lemma ReadWidth(s: seq<byte>)
    requires ReadDesc(s).Some?
    ensures var d := ReadDesc(s).value.value;
            match WidthOfVerb(s[0])
            case Some(n) => d.length == n
            case None =>
              && s[0] in {14, 15, 37, 38}
              && var told := FromWord(if s[0] in {14, 37} then s[1..] else s[3..]);
                 d.length == if s[0] in {14, 15} then told else (told + 2) % 0x1_0000
  {
    hide FromWord;
    var rest := s[1..];
    if |rest| >= 2 {
      assert rest[2..] == s[3..];
    }
  }

  /** So many variables, each with a short of no scale behind it, and what follows. */
  function ReadVariables(s: seq<byte>, count: nat): Option<Parsed<seq<Desc>>>
    decreases count
  {
    if count == 0 then Some(Parsed([], s))
    else
      var d :- ReadDesc(s);
      if |d.rest| < 2 || d.rest[0] != BLR_SHORT || d.rest[1] != 0 then None
      else
        var more :- ReadVariables(d.rest[2..], count - 1);
        Some(Parsed([d.value] + more.value, more.rest))
  }

  function ReadMessage(s: seq<byte>): Option<seq<Desc>> {
    if |s| < 6 || (s[0] != BLR_VERSION4 && s[0] != BLR_VERSION5) || s[1] != BLR_BEGIN || s[2] != BLR_MESSAGE then None
    else
      var ds :- ReadVariables(s[6..], FromWord(s[4..]) / 2);
      if ds.rest == [] || ds.rest[0] != BLR_END then None else Some(ds.value)
  }

  lemma ReadLengthWord(n: nat, rest: seq<byte>, plus: nat)
    requires n + plus < USHORT_MODULUS
    ensures ReadLength(Word(n) + rest, plus) == Some(Parsed(n + plus, rest))
  {
    var s := Word(n) + rest;
    assert s[0] == Word(n)[0] && s[1] == Word(n)[1];
    WordRoundTrip(n);
    assert FromWord(s) == FromWord(Word(n));
    assert s[2..] == rest;
  }

  lemma ReadDescBytes(d: Desc, rest: seq<byte>)
    requires Nameable(d)
    ensures ReadDesc(DescBytes(d) + rest) == Some(Parsed(d, rest))
  {
    var s := DescBytes(d) + rest;
    if IsString(d.dtype) {
      var n := if d.dtype == Varying then d.length - 2 else d.length;
      ReadLengthWord(n, rest, if d.dtype == Varying then 2 else 0);
      if d.charset.Some? {
        assert s[1..] == Word(d.charset.value) + (Word(n) + rest);
        ReadLengthWord(d.charset.value, Word(n) + rest, 0);
      } else {
        assert s[1..] == Word(n) + rest;
      }
    } else if IsScaled(d.dtype) {
      assert s[1..] == [d.scale] + rest;
      assert s[1..][1..] == rest;
    } else {
      assert s[1..] == rest;
    }
  }

  lemma {:induction false} ReadVariableBytes(ds: seq<Desc>, rest: seq<byte>)
    requires forall i :: 0 <= i < |ds| ==> Nameable(ds[i])
    ensures ReadVariables(VariableBytes(ds) + rest, |ds|) == Some(Parsed(ds, rest))
    decreases |ds|
  {
    if ds == [] {
      assert [] + rest == rest;
    } else {
      var tail := VariableBytes(ds[1..]) + rest;
      Assoc(DescBytes(ds[0]) + [BLR_SHORT, 0], VariableBytes(ds[1..]), rest);
      Assoc(DescBytes(ds[0]), [BLR_SHORT, 0], tail);
      hide DescBytes, ReadDesc;
      ReadDescBytes(ds[0], [BLR_SHORT, 0] + tail);
      assert ([BLR_SHORT, 0] + tail)[2..] == tail;
      ReadVariableBytes(ds[1..], rest);
      assert [ds[0]] + ds[1..] == ds;
    }
  }

  /** A description reads back as the variables it names. */
  lemma ReadMessageBytes(version: byte, number: byte, ds: seq<Desc>)
    requires version == BLR_VERSION4 || version == BLR_VERSION5
    requires (forall i :: 0 <= i < |ds| ==> Nameable(ds[i])) && 2 * |ds| < USHORT_MODULUS
    ensures ReadMessage(MessageBytes(version, number, ds)) == Some(ds)
  {
    ReadVariableBytes(ds, [BLR_END]);
    HeaderBytes(version, number, 2 * |ds|, VariableBytes(ds), [BLR_END]);
    ReadParts(MessageBytes(version, number, ds), 2 * |ds|, VariableBytes(ds) + [BLR_END], ds);
  }

  lemma ReadParts(s: seq<byte>, n: nat, variables: seq<byte>, ds: seq<Desc>)
    requires |s| >= 6 && (s[0] == BLR_VERSION4 || s[0] == BLR_VERSION5) && s[1] == BLR_BEGIN && s[2] == BLR_MESSAGE
    requires FromWord(s[4..]) == n == 2 * |ds| && s[6..] == variables
    requires ReadVariables(variables, |ds|) == Some(Parsed(ds, [BLR_END]))
    ensures ReadMessage(s) == Some(ds)
  {
    hide ReadVariables, FromWord;
  }

  lemma HeaderBytes(version: byte, number: byte, n: nat, a: seq<byte>, b: seq<byte>)
    requires n < USHORT_MODULUS
    ensures var s := [version, BLR_BEGIN, BLR_MESSAGE, number] + Word(n) + a + b;
            && |s| >= 6 && s[0] == version && s[1] == BLR_BEGIN && s[2] == BLR_MESSAGE && FromWord(s[4..]) == n
            && s[6..] == a + b
  {
    var s := [version, BLR_BEGIN, BLR_MESSAGE, number] + Word(n) + a + b;
    assert s[4..][0] == Word(n)[0] && s[4..][1] == Word(n)[1];
    WordRoundTrip(n);
  }

  // ----- laying it out

  /** Each variable is followed by its indicator. */
  function WithIndicators(ds: seq<Desc>): (s: seq<Slot>)
    ensures |s| == 2 * |ds|
  {
    if ds == [] then [] else WithIndicators(ds[..|ds| - 1]) + [Slot(ds[|ds| - 1].dtype, ds[|ds| - 1].length), Slot(Short, 2)]
  }

  /** A parameter that a client's variable may be bound to, by its number. */
  class UserParameter {
    const index: nat
    var desc: Option<Desc>
    var address: nat
    var nullAddress: nat

    constructor (index: nat)
      ensures this.index == index && desc == None
    {
      this.index, desc := index, None;
    }
  }

  /** What a sixteen-bit offset keeps. */
  function Low16(n: nat): nat {
    n % USHORT_MODULUS
  }

  lemma AlignFar(n: nat, q: nat)
    ensures Align(n + 0x1_0000 * q, 2) == Align(n, 2) + 0x1_0000 * q
    ensures Align(n + 0x1_0000 * q, 4) == Align(n, 4) + 0x1_0000 * q
    ensures Align(n + 0x1_0000 * q, 8) == Align(n, 8) + 0x1_0000 * q
  {
    assert (n + 1 + 0x1_0000 * q) / 2 == (n + 1) / 2 + 0x8000 * q;
    assert (n + 3 + 0x1_0000 * q) / 4 == (n + 3) / 4 + 0x4000 * q;
    assert (n + 7 + 0x1_0000 * q) / 8 == (n + 7) / 8 + 0x2000 * q;
  }

  lemma LowFar(n: nat, q: nat)
    ensures Low16(n + 0x1_0000 * q) == Low16(n)
  {
  }

  lemma AlignLow(n: nat, d: Dtype)
    ensures Low16(Align(Low16(n), Alignment(d))) == Low16(Align(n, Alignment(d)))
  {
    var q, a := n / USHORT_MODULUS, Alignment(d);
    assert n == Low16(n) + 0x1_0000 * q;
    assert a == 0 || a == 2 || a == 4 || a == 8;
    assert Align(n, 0) == n && Align(Low16(n), 0) == Low16(n);
    AlignFar(Low16(n), q);
    hide Align, Alignment;
    assert Align(n, a) == Align(Low16(n), a) + 0x1_0000 * q;
    LowFar(Align(Low16(n), a), q);
  }

  lemma AddLow(n: nat, m: nat)
    ensures Low16(Low16(n) + m) == Low16(n + m)
  {
  }

  /** Bound variables are where the layout puts them, as far as sixteen bits say. */
  ghost predicate Bound(p: UserParameter, ds: seq<Desc>, places: seq<nat>)
    requires |places| == 2 * |ds|
    reads p
  {
    1 <= p.index <= |ds| ==>
      && p.desc == Some(ds[p.index - 1])
      && p.address == Low16(places[2 * (p.index - 1)]) && p.nullAddress == Low16(places[2 * p.index - 1])
  }

  ghost predicate Distinct(ps: seq<UserParameter>) {
    forall i, j :: 0 <= i < |ps| && 0 <= j < |ps| && ps[i] == ps[j] ==> i == j
  }

  /** The parameters of one number get their descriptor and places. */
  method Bind(ps: seq<UserParameter>, index: nat, d: Desc, at: nat, nullAt: nat)
    requires Distinct(ps)
    modifies ps
    ensures forall i :: 0 <= i < |ps| ==>
              if ps[i].index == index then ps[i].desc == Some(d) && ps[i].address == at && ps[i].nullAddress == nullAt
              else ps[i].desc == old(ps[i].desc) && ps[i].address == old(ps[i].address)
                   && ps[i].nullAddress == old(ps[i].nullAddress)
  {
    var k := 0;
    while k < |ps|
      invariant k <= |ps|
      invariant forall i :: 0 <= i < k ==>
                  if ps[i].index == index then ps[i].desc == Some(d) && ps[i].address == at && ps[i].nullAddress == nullAt
                  else ps[i].desc == old(ps[i].desc) && ps[i].address == old(ps[i].address)
                       && ps[i].nullAddress == old(ps[i].nullAddress)
      invariant forall i :: k <= i < |ps| ==>
                  ps[i].desc == old(ps[i].desc) && ps[i].address == old(ps[i].address)
                  && ps[i].nullAddress == old(ps[i].nullAddress)
    {
      if ps[k].index == index {
        ps[k].desc, ps[k].address, ps[k].nullAddress := Some(d), at, nullAt;
      }
      k := k + 1;
    }
  }

  /** Every parameter whose number was reached is bound. */
  ghost predicate AllBound(ps: seq<UserParameter>, ds: seq<Desc>)
    reads ps
  {
    forall i :: 0 <= i < |ps| ==> Bound(ps[i], ds, Places(WithIndicators(ds), 0))
  }

  method BindNext(ps: seq<UserParameter>, d: Desc, at: nat, nullAt: nat, ghost trueAt: nat, ghost trueNullAt: nat,
                  ghost ds: seq<Desc>, index: nat)
    requires Distinct(ps)
    requires AllBound(ps, ds) && index == |ds| + 1
    requires Places(WithIndicators(ds + [d]), 0) == Places(WithIndicators(ds), 0) + [trueAt, trueNullAt]
    requires at == Low16(trueAt) && nullAt == Low16(trueNullAt)
    modifies ps
    ensures AllBound(ps, ds + [d])
  {
    hide Places, WithIndicators, Low16;
    Bind(ps, index, d, at, nullAt);
  }

  /** Some variables are read, and so many are left to read. */
  ghost predicate Reading(all: Option<Parsed<seq<Desc>>>, did: seq<Desc>, rest: seq<byte>, left: nat) {
    var more := ReadVariables(rest, left);
    && (all.Some? <==> more.Some?)
    && (all.Some? ==> all.value.value == did + more.value.value && all.value.rest == more.value.rest)
  }

  /** The bytes of one variable and its indicator. */
  function ReadOne(s: seq<byte>): Option<Parsed<Desc>> {
    var d :- ReadDesc(s);
    if |d.rest| < 2 || d.rest[0] != BLR_SHORT || d.rest[1] != 0 then None else Some(Parsed(d.value, d.rest[2..]))
  }

  lemma ReadingStep(all: Option<Parsed<seq<Desc>>>, did: seq<Desc>, rest: seq<byte>, left: nat)
    requires left > 0 && Reading(all, did, rest, left)
    ensures var one := ReadOne(rest);
            if one.None? then all.None? else Reading(all, did + [one.value.value], one.value.rest, left - 1)
  {
    hide ReadDesc;
    var one := ReadOne(rest);
    if one.Some? && ReadVariables(one.value.rest, left - 1).Some? {
      var more := ReadVariables(one.value.rest, left - 1).value.value;
      assert did + ([one.value.value] + more) == did + [one.value.value] + more;
    }
  }

  lemma ReadingEnds(all: Option<Parsed<seq<Desc>>>, did: seq<Desc>, rest: seq<byte>)
    requires Reading(all, did, rest, 0)
    ensures all == Some(Parsed(did, rest))
  {
    assert did + [] == did;
  }

  /** The variables one after the other, each bound and laid out as it is read. */
  method LayOut(blr: seq<byte>, count: nat, ps: seq<UserParameter>)
    returns (ok: bool, rest: seq<byte>, offset: nat, ghost did: seq<Desc>)
    requires Distinct(ps)
    modifies ps
    ensures ok <==> ReadVariables(blr, count).Some?
    ensures ok ==> ReadVariables(blr, count) == Some(Parsed(did, rest)) && |did| == count
    ensures ok ==> offset == Low16(End(WithIndicators(did), 0)) && AllBound(ps, did)
  {
    ok, rest, offset, did := true, blr, 0, [];
    ghost var all := ReadVariables(rest, count);
    var left := count;
    NothingLaidOut(all, ps);
    hide ReadVariables, Places, End, WithIndicators, Reading, AllBound, Distinct;
    while left > 0
      invariant 0 <= left <= count && |did| == count - left && ok
      invariant Reading(all, did, rest, left)
      invariant offset == Low16(End(WithIndicators(did), 0)) && AllBound(ps, did)
    {
      ghost var d;
      ok, rest, offset, d := LayOutOne(rest, offset, count - left + 1, ps, all, did, left);
      if !ok {
        return;
      }
      did := did + [d];
      left := left - 1;
    }
    ReadingEnds(all, did, rest);
  }

  /** One variable and its indicator. */
  method LayOutOne(s: seq<byte>, start: nat, index: nat, ps: seq<UserParameter>, ghost all: Option<Parsed<seq<Desc>>>,
                   ghost did: seq<Desc>, ghost left: nat)
    returns (ok: bool, rest: seq<byte>, offset: nat, ghost d: Desc)
    requires Distinct(ps) && left > 0 && Reading(all, did, s, left) && index == |did| + 1
    requires start == Low16(End(WithIndicators(did), 0)) && AllBound(ps, did)
    modifies ps
    ensures !ok ==> all.None?
    ensures ok ==> Reading(all, did + [d], rest, left - 1)
    ensures ok ==> offset == Low16(End(WithIndicators(did + [d]), 0)) && AllBound(ps, did + [d])
  {
    ok, rest, offset := false, s, start;
    ReadingStep(all, did, s, left);
    hide ReadVariables, ReadDesc, Places, End, WithIndicators, Reading, AllBound, Align, Alignment, Distinct, Low16;
    var read := ReadDesc(s);
    d := if read.Some? then read.value.value else Desc(Text, 0, 0, None);
    if read.None? {
      return;
    }
    rest := read.value.rest;
    if |rest| < 2 || rest[0] != BLR_SHORT || rest[1] != 0 {
      return;
    }
    rest := rest[2..];
    var desc := read.value.value;
    var at := Low16(Align(start, Alignment(desc.dtype)));
    var nullAt := Low16(Align(Low16(at + desc.length), 2));
    ghost var trueAt, trueNullAt := OneMoreLow(did, desc, start);
    BindNext(ps, desc, at, nullAt, trueAt, trueNullAt, did, index);
    offset := Low16(nullAt + 2);
    ok := true;
  }

  /** How many of the parameters have a number. */
  function Numbered(indices: seq<nat>): nat {
    if indices == [] then 0
    else Numbered(indices[..|indices| - 1]) + if indices[|indices| - 1] > 0 then 1 else 0
  }

  function IndicesOf(ps: seq<UserParameter>): (s: seq<nat>)
    ensures |s| == |ps| && forall i :: 0 <= i < |ps| ==> s[i] == ps[i].index
  {
    seq(|ps|, i requires 0 <= i < |ps| => ps[i].index)
  }

  /** No description: the message is as the last one was. */
  method CountNumbered(ps: seq<UserParameter>) returns (count: nat)
    ensures count == Numbered(IndicesOf(ps))
  {
    count := 0;
    var k := 0;
    ghost var all := IndicesOf(ps);
    while k < |ps|
      invariant k <= |ps| && count == Numbered(all[..k])
    {
      assert all[..k + 1][..k] == all[..k];
      if ps[k].index > 0 {
        count := count + 1;
      }
      k := k + 1;
    }
    assert all[..k] == all;
  }

  /**
   A description is accepted iff there is none, or it is one and its layout ends, as far as
   sixteen bits say, where the message does.
   */
  method ParseBlr(blr: seq<byte>, msgLength: word, ps: seq<UserParameter>) returns (ok: bool, count: nat)
    requires Distinct(ps)
    modifies ps
    ensures blr == [] ==> ok && count == Numbered(IndicesOf(ps)) && forall p :: p in ps ==> unchanged(p)
    ensures blr != [] ==>
              (ok <==> ReadMessage(blr).Some? && Low16(End(WithIndicators(ReadMessage(blr).value), 0)) == msgLength)
    ensures blr != [] && ok ==> count == |ReadMessage(blr).value| && AllBound(ps, ReadMessage(blr).value)
  {
    ok, count := false, 0;
    if blr == [] {
      count := CountNumbered(ps);
      return true, count;
    }
    if |blr| < 6 || (blr[0] != BLR_VERSION4 && blr[0] != BLR_VERSION5) || blr[1] != BLR_BEGIN || blr[2] != BLR_MESSAGE {
      return;
    }
    count := FromWord(blr[4..]) / 2;
    hide ReadVariables, End, WithIndicators, FromWord, AllBound, Distinct, Low16;
    var rest, offset;
    ghost var did;
    ok, rest, offset, did := LayOut(blr[6..], count, ps);
    if ok {
      ok := rest != [] && rest[0] == BLR_END && offset == msgLength;
    }
  }

  lemma NothingLaidOut(all: Option<Parsed<seq<Desc>>>, ps: seq<UserParameter>)
    ensures Low16(End(WithIndicators([]), 0)) == 0 && AllBound(ps, [])
    ensures forall rest, left :: all == ReadVariables(rest, left) ==> Reading(all, [], rest, left)
  {
    assert forall ds: seq<Desc> :: [] + ds == ds;
  }

  /** One more variable behind the others leaves their places as they are. */
  lemma OneMore(ds: seq<Desc>, d: Desc)
    ensures var slots, more := WithIndicators(ds), WithIndicators(ds + [d]);
            var at := Align(End(slots, 0), Alignment(d.dtype));
            var nullAt := Align(at + d.length, 2);
            && Places(more, 0) == Places(slots, 0) + [at, nullAt] && End(more, 0) == nullAt + 2
  {
    var slots, more := WithIndicators(ds), WithIndicators(ds + [d]);
    var n := |slots|;
    assert (ds + [d])[..|ds|] == ds;
    assert more == slots + [Slot(d.dtype, d.length), Slot(Short, 2)];
    assert more[..n] == slots && more[..n + 2] == more;
    PlaceAt(more, 0, n);
    PlaceAt(more, 0, n + 1);
    PlacesPrefix(slots, [Slot(d.dtype, d.length), Slot(Short, 2)], 0);
    assert Places(more, 0) == Places(more, 0)[..n] + [Places(more, 0)[n], Places(more, 0)[n + 1]];
  }

  lemma OneMoreLow(ds: seq<Desc>, d: Desc, start: nat) returns (at: nat, nullAt: nat)
    requires start == Low16(End(WithIndicators(ds), 0))
    ensures Places(WithIndicators(ds + [d]), 0) == Places(WithIndicators(ds), 0) + [at, nullAt]
    ensures Low16(Align(start, Alignment(d.dtype))) == Low16(at)
    ensures Low16(Align(Low16(Low16(at) + d.length), 2)) == Low16(nullAt)
    ensures Low16(Low16(nullAt) + 2) == Low16(End(WithIndicators(ds + [d]), 0))
  {
    var end := End(WithIndicators(ds), 0);
    at := Align(end, Alignment(d.dtype));
    nullAt := Align(at + d.length, 2);
    OneMore(ds, d);
    hide Align, Low16, Places, End, WithIndicators;
    AlignLow(end, d.dtype);
    AddLow(at, d.length);
    AlignLow(at + d.length, Short);
    AddLow(nullAt, 2);
  }

  lemma {:induction false} PlacesPrefix(a: seq<Slot>, b: seq<Slot>, start: nat)
    ensures Places(a + b, start)[..|a|] == Places(a, start)
    decreases |a|
  {
    if a != [] {
      var next := Align(start, Alignment(a[0].dtype)) + a[0].length;
      assert (a + b)[1..] == a[1..] + b;
      PlacesPrefix(a[1..], b, next);
    }
  }

  /**
   Accepted or not, a variable lies inside the message, as does its indicator, whenever the
   layout ends below 65536; beyond that its address is short of its place.
   */
  lemma {:induction false} BoundInside(p: UserParameter, ds: seq<Desc>, k: nat)
    requires p.index == k + 1 && k < |ds| && Bound(p, ds, Places(WithIndicators(ds), 0))
    ensures End(WithIndicators(ds), 0) < USHORT_MODULUS ==>
              p.address + ds[k].length <= p.nullAddress && p.nullAddress + 2 <= End(WithIndicators(ds), 0)
    ensures p.nullAddress == Places(WithIndicators(ds), 0)[2 * k + 1] <==>
              Places(WithIndicators(ds), 0)[2 * k + 1] < USHORT_MODULUS
  {
    hide End, Low16, Align, Alignment;
    var slots := WithIndicators(ds);
    var at, nullAt := Places(slots, 0)[2 * k], Places(slots, 0)[2 * k + 1];
    assert p.address == Low16(at) && p.nullAddress == Low16(nullAt);
    hide Bound;
    SlotsOf(ds, k);
    PairInside(slots, 2 * k);
    SmallStays(at);
    SmallStays(nullAt);
  }

  lemma SmallStays(n: nat)
    ensures Low16(n) == n <==> n < USHORT_MODULUS
  {
  }

  /** Two texts of 40000 bytes pass for a message of 14468, which ends inside the first of them. */
  lemma WrappedLayout()
    ensures var d := Desc(Text, 40000, 0, None);
            && Nameable(d)
            && Places(WithIndicators([d, d]), 0) == [0, 40000, 40002, 80002]
            && Low16(End(WithIndicators([d, d]), 0)) == 14468
  {
    var d := Desc(Text, 40000, 0, None);
    assert [d, d][..1] == [d] && [d][..0] == [];
    var slots := [Slot(Text, 40000), Slot(Short, 2), Slot(Text, 40000), Slot(Short, 2)];
    assert WithIndicators([d]) == [Slot(Text, 40000), Slot(Short, 2)];
    assert WithIndicators([d, d]) == slots;
    hide WithIndicators;
    assert slots[1..] == [Slot(Short, 2), Slot(Text, 40000), Slot(Short, 2)];
    assert slots[1..][1..] == [Slot(Text, 40000), Slot(Short, 2)];
    assert slots[1..][1..][1..] == [Slot(Short, 2)];
    assert Places(slots[1..][1..][1..], 80002) == [80002] && End(slots[1..][1..][1..], 80002) == 80004;
    assert Places(slots[1..][1..], 40002) == [40002, 80002] && End(slots[1..][1..], 40002) == 80004;
    assert Places(slots[1..], 40000) == [40000, 40002, 80002] && End(slots[1..], 40000) == 80004;
  }

  lemma PairInside(slots: seq<Slot>, k: nat)
    requires k + 1 < |slots|
    ensures Places(slots, 0)[k] + slots[k].length <= Places(slots, 0)[k + 1]
    ensures Places(slots, 0)[k + 1] + slots[k + 1].length <= End(slots, 0)
  {
    hide Places, End;
    PlacesAreSound(slots, 0);
  }

  lemma {:induction false} SlotsOf(ds: seq<Desc>, k: nat)
    requires k < |ds|
    ensures WithIndicators(ds)[2 * k] == Slot(ds[k].dtype, ds[k].length) && WithIndicators(ds)[2 * k + 1] == Slot(Short, 2)
    decreases |ds|
  {
    if k < |ds| - 1 {
      SlotsOf(ds[..|ds| - 1], k);
    }
  }

  /** A client's description of its variables and the message it goes with. */
  method DescribeThenParse(version: byte, number: byte, ds: seq<Desc>, msgLength: word, ps: seq<UserParameter>)
    returns (ok: bool, count: nat)
    requires version == BLR_VERSION4 || version == BLR_VERSION5
    requires (forall i :: 0 <= i < |ds| ==> Nameable(ds[i])) && 2 * |ds| < USHORT_MODULUS && Distinct(ps)
    modifies ps
    ensures ok <==> Low16(End(WithIndicators(ds), 0)) == msgLength
    ensures ok ==> count == |ds| && AllBound(ps, ds)
  {
    ReadMessageBytes(version, number, ds);
    hide ReadMessage, End, WithIndicators, AllBound, Distinct, Low16;
    ok, count := ParseBlr(MessageBytes(version, number, ds), msgLength, ps);
  }
}
