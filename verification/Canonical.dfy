/**
 The canonical form of records: one routine that walks a record's fields and either writes
 each to a growing XDR stream or reads it back.
 */
module Canonical {
  import opened Wrappers
  import opened Bytes
  import opened Streams
  import opened BlrVerbs

  /** How a data type travels. */
  datatype Dtype = Text | CString | Varying | Short | Long | TwoLongs | Hyper | Unsupported

  /** The type of a field by its BLR code. */
  function Converted(blrType: nat): Dtype {
    if blrType == BLR_SHORT then Short
    else if blrType in {BLR_LONG, BLR_FLOAT, BLR_SQL_DATE, BLR_SQL_TIME} then Long
    else if blrType in {BLR_QUAD, BLR_TIMESTAMP} then TwoLongs
    else if blrType in {BLR_TEXT, BLR_TEXT2} then Text
    else if blrType in {BLR_INT64, BLR_DOUBLE} then Hyper
    else if blrType in {BLR_VARYING, BLR_VARYING2} then Varying
    else if blrType in {BLR_CSTRING, BLR_CSTRING2} then CString
    else Unsupported
  }

  datatype Field = Field(blrType: nat, length: nat, offset: nat, computed: bool, isArray: bool) {
    function Dtype(): Dtype {
      if blrType == BLR_BLOB || isArray then TwoLongs else Converted(blrType)
    }
  }

  /** One data item of a record or a slice; in a slice, counts are clipped to the element's length. */
  datatype Datum = Datum(dtype: Dtype, at: nat, length: nat, clip: bool)

  function Min(a: nat, b: nat): nat {
    if a < b then a else b
  }

  /** The bytes before the first zero. */
  function StrLen(s: seq<byte>): (n: nat)
    ensures n <= |s| && (n < |s| ==> s[n] == 0)
    ensures forall i :: 0 <= i < n ==> s[i] != 0
  {
    if s == [] || s[0] == 0 then 0 else 1 + StrLen(s[1..])
  }

  /** How many characters of a string item travel. */
  function Count(m: Datum, data: seq<byte>): (n: nat) {
    match m.dtype
    case Varying =>
      if m.at + 2 > |data| then 0
      else if m.clip then Min(if m.length < 2 then 0 else m.length - 2, FromWord(data[m.at..m.at + 2]))
      else FromWord(data[m.at..m.at + 2])
    case CString =>
      if m.at > |data| then 0
      else if m.clip then Min(if m.length < 1 then 0 else m.length - 1, StrLen(data[m.at..]))
      else StrLen(data[m.at..])
    case _ => m.length
  }

  /** How many bytes of memory an item spans. */
  function Span(m: Datum, data: seq<byte>): nat {
    match m.dtype
    case Text => m.length
    case Varying => 2 + Count(m, data)
    case CString => Count(m, data) + 1
    case Short => 2
    case Long => 4
    case TwoLongs => 8
    case Hyper => 8
    case Unsupported => 0
  }

  /** The item lies in the record; a null-terminated string is terminated where its count says. */
  predicate Sound(m: Datum, data: seq<byte>) {
    && m.at + Span(m, data) <= |data|
    && (m.dtype.CString? ==> Count(m, data) <= MAX_SSHORT && data[m.at + Count(m, data)] == 0)
  }

  // ----- the stream form

  function Padding(n: nat): nat {
    (4 - n % 4) % 4
  }

  /** A long word, most significant byte first. */
  function LongForm(mem: seq<byte>): (s: seq<byte>)
    requires |mem| == 4
    ensures |s| == 4
  {
    [mem[3], mem[2], mem[1], mem[0]]
  }

  /** A short travels as a long of the same sign. */
  function ShortForm(mem: seq<byte>): (s: seq<byte>)
    requires |mem| == 2
    ensures |s| == 4
  {
    var sign: byte := if mem[1] >= 0x80 then 0xFF else 0;
    [sign, sign, mem[1], mem[0]]
  }

  /** An opaque string is followed by up to three bytes of no meaning. */
  predicate OpaqueForm(mem: seq<byte>, s: seq<byte>) {
    |s| == |mem| + Padding(|mem|) && s[..|mem|] == mem
  }

  function FormSize(m: Datum, data: seq<byte>): nat {
    match m.dtype
    case Text => m.length + Padding(m.length)
    case Varying => 4 + Count(m, data) + Padding(Count(m, data))
    case CString => 4 + Count(m, data) + Padding(Count(m, data))
    case Short => 4
    case Long => 4
    case TwoLongs => 8
    case Hyper => 8
    case Unsupported => 0
  }

  /** A stream's bytes are what an item of a record becomes. */
  predicate Form(m: Datum, data: seq<byte>, s: seq<byte>)
    requires Sound(m, data)
  {
    var mem := data[m.at..m.at + Span(m, data)];
    |s| == FormSize(m, data) &&
    match m.dtype
    case Text => OpaqueForm(mem, s)
    case Varying => s[..4] == ShortForm(mem[..2]) && OpaqueForm(mem[2..], s[4..])
    case CString => s[..4] == ShortForm(Word(Count(m, data))) && OpaqueForm(mem[..Count(m, data)], s[4..])
    case Short => s == ShortForm(mem)
    case Long => s == LongForm(mem)
    case TwoLongs => s == LongForm(mem[..4]) + LongForm(mem[4..])
    case Hyper => s == LongForm(mem[4..]) + LongForm(mem[..4])
    case Unsupported => true
  }

  /** The number some bytes spell, most significant byte first. */
  function BigEndian(s: seq<byte>): nat {
    if s == [] then 0 else 0x100 * BigEndian(s[..|s| - 1]) + s[|s| - 1]
  }

  function Weighted(a: int, b: int, c: int, d: int): int {
    0x100_0000 * a + 0x1_0000 * b + 0x100 * c + d
  }

  lemma FourBytes(s: seq<byte>)
    requires |s| == 4
    ensures BigEndian(s) == Weighted(s[0], s[1], s[2], s[3])
  {
    assert s[..3][..2] == s[..2] && s[..2][..1] == s[..1] && s[..1][..0] == [];
    assert BigEndian(s[..1]) == s[0];
    assert BigEndian(s[..2]) == 0x100 * BigEndian(s[..1]) + s[1];
    assert BigEndian(s[..3]) == 0x100 * BigEndian(s[..2]) + s[2];
  }

  /** The stream spells the number that memory holds. */
  lemma LongIsXdr(mem: seq<byte>)
    requires |mem| == 4
    ensures BigEndian(LongForm(mem)) == FromDouble(mem)
  {
    FourBytes(LongForm(mem));
    assert mem[2..][0] == mem[2] && mem[2..][1] == mem[3];
  }

  lemma ShortIsXdr(mem: seq<byte>)
    requires |mem| == 2
    ensures Signed(BigEndian(ShortForm(mem)), 0x1_0000_0000) == Signed(FromWord(mem), 0x1_0000)
  {
    FourBytes(ShortForm(mem));
  }

  /** A 64-bit number is two long words, the high one first. */
  lemma HyperIsXdr(mem: seq<byte>)
    requires |mem| == 8
    ensures var s := LongForm(mem[4..]) + LongForm(mem[..4]);
            0x1_0000_0000 * BigEndian(s[..4]) + BigEndian(s[4..]) == FromQuad(mem)
  {
    var s := LongForm(mem[4..]) + LongForm(mem[..4]);
    assert s[..4] == LongForm(mem[4..]) && s[4..] == LongForm(mem[..4]);
    LongIsXdr(mem[4..]);
    LongIsXdr(mem[..4]);
    assert mem[..4] + mem[4..] == mem;
    PrefixDouble(mem[..4], mem[4..]);
  }

  /** What travels for an item, in the terms of sections 4.1, 4.5 and 4.9 of RFC 4506. */
  ghost predicate IsXdr(m: Datum, data: seq<byte>, s: seq<byte>)
    requires Sound(m, data)
  {
    match m.dtype
    case Text => |s| % 4 == 0 && m.length <= |s| < m.length + 4 && s[..m.length] == data[m.at..m.at + m.length]
    case Short => |s| == 4 && Signed(BigEndian(s), 0x1_0000_0000) == Signed(FromWord(data[m.at..m.at + 2]), 0x1_0000)
    case Long => |s| == 4 && BigEndian(s) == FromDouble(data[m.at..m.at + 4])
    case TwoLongs =>
      && |s| == 8 && BigEndian(s[..4]) == FromDouble(data[m.at..m.at + 4])
      && BigEndian(s[4..]) == FromDouble(data[m.at + 4..m.at + 8])
    case Hyper =>
      |s| == 8 && 0x1_0000_0000 * BigEndian(s[..4]) + BigEndian(s[4..]) == FromQuad(data[m.at..m.at + 8])
    case Varying => CountedIsXdr(FromWord(data[m.at..m.at + 2]), data[m.at + 2..m.at + 2 + Count(m, data)], s)
    case CString => CountedIsXdr(Count(m, data), data[m.at..m.at + Count(m, data)], s)
    case Unsupported => s == []
  }

  /** A short count and the characters, padded. */
  ghost predicate CountedIsXdr(count: nat, characters: seq<byte>, s: seq<byte>) {
    && |s| % 4 == 0 && 4 + |characters| <= |s| < 8 + |characters| && s[4..4 + |characters|] == characters
    && Signed(BigEndian(s[..4]), 0x1_0000_0000) == Signed(count % 0x1_0000, 0x1_0000)
  }

  lemma FormIsXdr(m: Datum, data: seq<byte>, s: seq<byte>)
    requires Sound(m, data) && Form(m, data, s)
    ensures IsXdr(m, data, s)
  {
    hide BigEndian, FromWord, FromDouble, FromQuad, LongForm, ShortForm, Count, CountedIsXdr, Word, OpaqueForm, Signed;
    var mem := data[m.at..m.at + Span(m, data)];
    var n := Count(m, data);
    match m.dtype
    case Text => PaddedIsXdr(mem, s);
    case Short => ShortIsXdr(mem);
    case Long => LongIsXdr(mem);
    case TwoLongs =>
      var high := LongForm(mem[..4]);
      LongIsXdr(mem[..4]);
      LongIsXdr(mem[4..]);
      assert mem[..4] == data[m.at..m.at + 4] && mem[4..] == data[m.at + 4..m.at + 8];
      assert s[..4] == high && s[4..] == LongForm(mem[4..]);
    case Hyper => HyperIsXdr(mem);
    case Varying =>
      assert mem[..2] == data[m.at..m.at + 2] && mem[2..] == data[m.at + 2..m.at + 2 + n];
      CountedXdr(FromWord(mem[..2]), mem[..2], mem[2..], s);
    case CString =>
      assert mem[..n] == data[m.at..m.at + n];
      WordRoundTrip(n);
      CountedXdr(n, Word(n), mem[..n], s);
    case _ =>
  }

  lemma PaddedIsXdr(mem: seq<byte>, s: seq<byte>)
    requires OpaqueForm(mem, s)
    ensures |s| % 4 == 0 && |mem| <= |s| < |mem| + 4 && s[..|mem|] == mem
  {
  }

  lemma CountedXdr(n: nat, count: seq<byte>, characters: seq<byte>, s: seq<byte>)
    requires |count| == 2 && FromWord(count) == n % 0x1_0000 && |s| >= 4
    requires s[..4] == ShortForm(count) && OpaqueForm(characters, s[4..])
    ensures CountedIsXdr(n, characters, s)
  {
    ShortIsXdr(count);
    PaddedIsXdr(characters, s[4..]);
    assert s[4..][..|characters|] == s[4..4 + |characters|];
  }

  predicate AllSound(ms: seq<Datum>, data: seq<byte>) {
    forall k :: 0 <= k < |ms| ==> Sound(ms[k], data)
  }

  function AllSize(ms: seq<Datum>, data: seq<byte>): nat {
    if ms == [] then 0 else FormSize(ms[0], data) + AllSize(ms[1..], data)
  }

  predicate AllForm(ms: seq<Datum>, data: seq<byte>, s: seq<byte>)
    requires AllSound(ms, data)
  {
    if ms == [] then s == []
    else
      var k := FormSize(ms[0], data);
      k <= |s| && Form(ms[0], data, s[..k]) && AllForm(ms[1..], data, s[k..])
  }

  // ----- the items of a record

  function FieldDatum(f: Field): Datum {
    Datum(f.Dtype(), f.offset, f.length, false)
  }

  /** Where a field leaves the offset behind which the flags will go. */
  function Passed(f: Field, offset: nat): nat {
    var end := if f.offset >= offset then f.offset + (if f.isArray then 8 else f.length) else offset;
    if f.blrType == BLR_VARYING && !f.isArray then end + 2 else end
  }

  /** Where the null flags start: behind the fields, as the walk over them finds it. */
  function FlagsOffset(fs: seq<Field>, offset: nat): nat {
    if fs == [] then offset
    else if fs[0].computed then FlagsOffset(fs[1..], offset)
    else
      FlagsOffset(fs[1..], Passed(fs[0], offset))
  }

  function Aligned(offset: nat): (a: nat)
    ensures a % 2 == 0 && offset <= a <= offset + 1
  {
    if offset % 2 == 0 then offset else offset + 1
  }

  function FieldData(fs: seq<Field>): seq<Datum> {
    if fs == [] then []
    else if fs[0].computed then FieldData(fs[1..])
    else [FieldDatum(fs[0])] + FieldData(fs[1..])
  }

  /** A null flag for every field that is not computed. */
  function FlagData(fs: seq<Field>, offset: nat): seq<Datum> {
    if fs == [] then []
    else if fs[0].computed then FlagData(fs[1..], offset)
    else [Datum(Short, Aligned(offset), 2, false)] + FlagData(fs[1..], Aligned(offset) + 2)
  }

  function RecordData(fs: seq<Field>): seq<Datum> {
    FieldData(fs) + FlagData(fs, FlagsOffset(fs, 0))
  }

  // ----- what reading a form back makes of a record

  /** Some bytes of one record over another. */
  function Overlay(into: seq<byte>, from: seq<byte>, at: nat, n: nat): (r: seq<byte>)
    requires |into| == |from| && at + n <= |from|
    ensures |r| == |into|
    ensures forall i :: 0 <= i < |r| ==> r[i] == if at <= i < at + n then from[i] else into[i]
  {
    into[..at] + from[at..at + n] + into[at + n..]
  }

  function Restored(ms: seq<Datum>, data: seq<byte>, into: seq<byte>): (r: seq<byte>)
    requires AllSound(ms, data) && |into| == |data|
    ensures |r| == |into|
  {
    if ms == [] then into
    else Restored(ms[1..], data, Overlay(into, data, ms[0].at, Span(ms[0], data)))
  }

  predicate Covers(m: Datum, data: seq<byte>, i: nat) {
    m.at <= i < m.at + Span(m, data)
  }

  /** Every byte of a field's value or null flag is the original's, and no other byte is touched. */
  lemma {:induction false} RestoredBytes(ms: seq<Datum>, data: seq<byte>, into: seq<byte>, i: nat)
    requires AllSound(ms, data) && |into| == |data| && i < |data|
    ensures Restored(ms, data, into)[i]
            == if exists k :: 0 <= k < |ms| && Covers(ms[k], data, i) then data[i] else into[i]
    decreases |ms|
  {
    if ms != [] {
      var next := Overlay(into, data, ms[0].at, Span(ms[0], data));
      RestoredBytes(ms[1..], data, next, i);
      if Covers(ms[0], data, i) {
        assert next[i] == data[i];
      } else if exists k :: 0 <= k < |ms| && Covers(ms[k], data, i) {
        var k :| 0 <= k < |ms| && Covers(ms[k], data, i);
        assert ms[1..][k - 1] == ms[k];
      } else {
        assert forall k :: 0 <= k < |ms[1..]| ==> ms[1..][k] == ms[k + 1];
      }
    }
  }

  // ----- the stream

  const INCREMENT: nat := 1024

  /** Beyond this the new length would not fit the short that holds it. */
  const LIMIT: nat := MAX_SSHORT - INCREMENT + 1

  class Xdr {
    const encode: bool
    var base: array<byte>
    var position: nat
    var handy: nat

    ghost predicate Valid()
      reads this
    {
      position + handy == base.Length
    }

    ghost function Done(): seq<byte>
      requires Valid()
      reads this, base
    {
      base[..position]
    }

    ghost function Left(): seq<byte>
      requires Valid()
      reads this, base
    {
      base[position..]
    }

    /** How many bytes can be written, in the buffer or after expanding it. */
    ghost function Capacity(): int
      reads this`position, this`handy
    {
      if handy > LIMIT - position then handy else LIMIT - position
    }

    /** A call moved the stream over some bytes, which it wrote or found there. */
    twostate predicate Moved(e: seq<byte>)
      requires old(Valid())
      reads this, base
    {
      && Valid() && Done() == old(Done()) + e && (base == old(base) || fresh(base))
      && (!encode ==> e <= old(Left()) && Left() == old(Left())[|e|..])
      && Capacity() >= old(Capacity()) - |e|
    }

    constructor (encode: bool, buffer: array<byte>)
      ensures Valid() && this.encode == encode && base == buffer && position == 0
    {
      this.encode, base, position, handy := encode, buffer, 0, buffer.Length;
    }

    method ExpandBuffer()
      requires Valid() && handy == 0 && position < LIMIT
      modifies this
      ensures Valid() && fresh(base) && Done() == old(Done()) && handy == INCREMENT
    {
      var length := position + handy + INCREMENT;
      var larger := new byte[length];
      forall i | 0 <= i < position {
        larger[i] := base[i];
      }
      base, handy := larger, handy + INCREMENT;
    }

    method PutBytes(s: seq<byte>)
      requires Valid() && encode && |s| <= Capacity()
      modifies this, base
      ensures Moved(s)
    {
      var i: nat := 0;
      ghost var start := position;
      while i < |s|
        invariant i <= |s| && Valid() && position == start + i && (base == old(base) || fresh(base))
        invariant Done() == old(Done()) + s[..i]
        invariant handy >= old(handy) - i && (old(handy) < |s| ==> start + |s| <= LIMIT)
      {
        if handy == 0 {
          ExpandBuffer();
        }
        base[position] := s[i];
        position, handy := position + 1, handy - 1;
        i := i + 1;
      }
      assert s[..i] == s;
    }

    method GetBytes(n: nat) returns (s: seq<byte>)
      requires Valid() && !encode && n <= handy
      modifies this`position, this`handy
      ensures |s| == n && Moved(s)
    {
      s := base[position..position + n];
      position, handy := position + n, handy - n;
    }

    /** A long word in memory order, written from mem or read back. */
    method XdrLongWord(mem: seq<byte>, ghost wanted: seq<byte>) returns (r: seq<byte>)
      requires Valid() && |wanted| == 4
      requires if encode then mem == wanted && 4 <= Capacity() else LongForm(wanted) <= Left()
      modifies this, base
      ensures r == wanted && Moved(LongForm(wanted))
    {
      if encode {
        PutBytes(LongForm(mem));
        r := mem;
      } else {
        var s := GetBytes(4);
        assert s == LongForm(wanted);
        r := [s[3], s[2], s[1], s[0]];
      }
    }

    /** A short travels as a long; reading keeps its low half. */
    method XdrShortWord(mem: seq<byte>, ghost wanted: seq<byte>) returns (r: seq<byte>)
      requires Valid() && |wanted| == 2
      requires if encode then mem == wanted && 4 <= Capacity() else ShortForm(wanted) <= Left()
      modifies this, base
      ensures r == wanted && Moved(ShortForm(wanted))
    {
      ghost var wide: seq<byte> := wanted + (if wanted[1] >= 0x80 then [0xFF, 0xFF] else [0, 0]);
      assert LongForm(wide) == ShortForm(wanted);
      var long: seq<byte> := [];
      if encode {
        long := mem + (if mem[1] >= 0x80 then [0xFF, 0xFF] else [0, 0]);
      }
      long := XdrLongWord(long, wide);
      r := long[..2];
    }

    /** Bytes left over from something else. */
    method Trash(n: nat) returns (s: seq<byte>)
      ensures |s| == n
    {
      assert |seq<byte>(n, i => 0)| == n;
      s :| |s| == n;
    }

    method PutOpaque(mem: seq<byte>) returns (ghost e: seq<byte>)
      requires Valid() && encode && |mem| + Padding(|mem|) <= Capacity()
      modifies this, base
      ensures OpaqueForm(mem, e) && Moved(e)
    {
      ghost var done := Done();
      PutBytes(mem);
      e := mem;
      if Padding(|mem|) > 0 {
        var trash := Trash(Padding(|mem|));
        PutBytes(trash);
        e := mem + trash;
        assert done + mem + trash == done + e;
      }
    }

    method GetOpaque(n: nat, ghost wanted: seq<byte>, ghost s: seq<byte>) returns (r: seq<byte>)
      requires Valid() && !encode && |wanted| == n && OpaqueForm(wanted, s) && s <= Left()
      modifies this`position, this`handy
      ensures r == wanted && Moved(s)
    {
      r := GetBytes(n);
      if Padding(n) > 0 {
        var trash := GetBytes(Padding(n));
      }
    }

    method XdrOpaque(mem: seq<byte>, n: nat, ghost wanted: seq<byte>, ghost s: seq<byte>)
      returns (r: seq<byte>, ghost e: seq<byte>)
      requires Valid() && |wanted| == n
      requires if encode then mem == wanted && n + Padding(n) <= Capacity() else OpaqueForm(wanted, s) && s <= Left()
      modifies this, base
      ensures r == wanted && OpaqueForm(wanted, e) && Moved(e) && (!encode ==> e == s)
    {
      if encode {
        e := PutOpaque(mem);
        r := mem;
      } else {
        r := GetOpaque(n, wanted, s);
        e := s;
      }
    }

    /** An item can be written from the record or read back into it. */
    ghost predicate Ready(p: array<byte>, m: Datum, data: seq<byte>, s: seq<byte>)
      reads this, base, p
    {
      && Valid() && p != base && |data| == p.Length && Sound(m, data)
      && if encode then p[..] == data && FormSize(m, data) <= Capacity() else Form(m, data, s) && s <= Left()
    }

    /** It was, and the record now has the item's bytes. */
    twostate predicate Made(p: array<byte>, m: Datum, data: seq<byte>, s: seq<byte>, e: seq<byte>)
      requires old(Valid()) && |data| == p.Length && Sound(m, data)
      reads this, base, p
    {
      && Moved(e) && p != base && Form(m, data, e) && (!encode ==> e == s)
      && p[..] == Overlay(old(p[..]), data, m.at, Span(m, data))
    }

    method XdrText(p: array<byte>, m: Datum, ghost data: seq<byte>, ghost s: seq<byte>) returns (ghost e: seq<byte>)
      requires m.dtype.Text? && Ready(p, m, data, s)
      modifies this, base, p
      ensures Made(p, m, data, s, e)
    {
      ghost var mem := data[m.at..m.at + m.length];
      var r;
      r, e := XdrOpaque(p[m.at..m.at + m.length], m.length, mem, s);
      Store(p, m.at, r, data);
    }

    /** A short, a long, or two longs in either order. */
    method XdrNumber(p: array<byte>, m: Datum, ghost data: seq<byte>, ghost s: seq<byte>) returns (ghost e: seq<byte>)
      requires (m.dtype.Short? || m.dtype.Long?) && Ready(p, m, data, s)
      modifies this, base, p
      ensures Made(p, m, data, s, e)
    {
      var n := if m.dtype.Short? then 2 else 4;
      ghost var mem := data[m.at..m.at + n];
      var r;
      if m.dtype.Short? {
        r := XdrShortWord(p[m.at..m.at + n], mem);
        e := ShortForm(mem);
      } else {
        r := XdrLongWord(p[m.at..m.at + n], mem);
        e := LongForm(mem);
      }
      Store(p, m.at, r, data);
    }

    /** One long word after another. */
    method XdrTwoWords(a: seq<byte>, b: seq<byte>, ghost wantedA: seq<byte>, ghost wantedB: seq<byte>)
      returns (ra: seq<byte>, rb: seq<byte>)
      requires Valid() && |wantedA| == 4 && |wantedB| == 4
      requires if encode then a == wantedA && b == wantedB && 8 <= Capacity()
               else LongForm(wantedA) + LongForm(wantedB) <= Left()
      modifies this, base
      ensures ra == wantedA && rb == wantedB && Moved(LongForm(wantedA) + LongForm(wantedB))
    {
      ghost var left, done := Left(), Done();
      ghost var u, v := LongForm(wantedA), LongForm(wantedB);
      hide LongForm;
      assert !encode ==> u <= left && v <= left[4..] && left[4..][4..] == left[8..];
      ra := XdrLongWord(a, wantedA);
      rb := XdrLongWord(b, wantedB);
      assert done + u + v == done + (u + v);
    }

    method XdrLongs(p: array<byte>, m: Datum, ghost data: seq<byte>, ghost s: seq<byte>) returns (ghost e: seq<byte>)
      requires (m.dtype.TwoLongs? || m.dtype.Hyper?) && Ready(p, m, data, s)
      modifies this, base, p
      ensures Made(p, m, data, s, e)
    {
      ghost var mem := data[m.at..m.at + 8];
      ghost var low, high := mem[..4], mem[4..];
      var mine := p[m.at..m.at + 8];
      var a, b;
      if m.dtype.TwoLongs? {
        a, b := XdrTwoWords(mine[..4], mine[4..], low, high);
        e := LongForm(low) + LongForm(high);
      } else {
        b, a := XdrTwoWords(mine[4..], mine[..4], high, low);
        e := LongForm(high) + LongForm(low);
      }
      assert a + b == mem;
      hide LongForm;
      Store(p, m.at, a + b, data);
    }

    /** A count and so many bytes, or fewer if the element is shorter. */
    method XdrCounted(word: seq<byte>, body: seq<byte>, limit: nat, ghost wantedWord: seq<byte>, ghost wantedBody: seq<byte>,
                      ghost s: seq<byte>)
      returns (rw: seq<byte>, rb: seq<byte>, ghost e: seq<byte>)
      requires Valid() && |wantedWord| == 2 && |wantedBody| == Min(limit, FromWord(wantedWord))
      requires if encode then word == wantedWord && body == wantedBody && 4 + |body| + Padding(|body|) <= Capacity()
               else |s| >= 4 && s[..4] == ShortForm(wantedWord) && OpaqueForm(wantedBody, s[4..]) && s <= Left()
      modifies this, base
      ensures rw == wantedWord && rb == wantedBody && Moved(e) && (!encode ==> e == s)
      ensures |e| >= 4 && e[..4] == ShortForm(wantedWord) && OpaqueForm(wantedBody, e[4..])
    {
      ghost var left, done, u := Left(), Done(), ShortForm(wantedWord);
      if !encode {
        SplitStream(left, s);
      }
      hide ShortForm, Padding, FromWord, OpaqueForm;
      rw := XdrShortWord(word, wantedWord);
      ghost var v;
      rb, v := XdrOpaque(body, Min(limit, FromWord(rw)), wantedBody, if encode then [] else s[4..]);
      e := u + v;
      JoinStream(done, left, u, v);
    }

    /** The count and the characters of a counted string. */
    method CountVarying(p: array<byte>, m: Datum, limit: nat) returns (word: seq<byte>, body: seq<byte>)
      requires m.dtype.Varying? && Sound(m, p[..])
      requires limit == if m.clip then (if m.length < 2 then 0 else m.length - 2) else 0xFFFF
      ensures word == CountedWord(m, p[..]) && body == CountedBody(m, p[..])
    {
      word := p[m.at..m.at + 2];
      var count: nat := FromWord(word);
      assert p[..][m.at..m.at + 2] == word;
      body := p[m.at + 2..m.at + 2 + Min(limit, count)];
    }

    method XdrVarying(p: array<byte>, m: Datum, ghost data: seq<byte>, ghost s: seq<byte>) returns (ghost e: seq<byte>)
      requires m.dtype.Varying? && Ready(p, m, data, s)
      modifies this, base, p
      ensures Made(p, m, data, s, e)
    {
      hide Form, FormSize, CountedWord, CountedBody;
      var limit := if m.clip then (if m.length < 2 then 0 else m.length - 2) else 0xFFFF;
      var word, body := [], [];
      if encode {
        word, body := CountVarying(p, m, limit);
      }
      e := XdrString(p, m, word, body, limit, data, s);
    }

    /** A string item, its count and characters found. */
    method XdrString(p: array<byte>, m: Datum, word: seq<byte>, body: seq<byte>, limit: nat, ghost data: seq<byte>,
                     ghost s: seq<byte>)
      returns (ghost e: seq<byte>)
      requires (m.dtype.Varying? || m.dtype.CString?) && Ready(p, m, data, s) && limit == Limit(m)
      requires encode ==> word == CountedWord(m, data) && body == CountedBody(m, data)
      modifies this, base, p
      ensures Made(p, m, data, s, e)
    {
      CountedForm(m, data, s);
      ghost var wantedWord, wantedBody := CountedWord(m, data), CountedBody(m, data);
      StringMemory(m, data);
      hide FromWord, ShortForm, Padding, Form, FormSize, OpaqueForm, Count, Span, CountedWord, CountedBody, Overlay, Limit;
      var w, b;
      w, b, e := XdrCounted(word, body, limit, wantedWord, wantedBody, s);
      CountedForm(m, data, e);
      Store(p, m.at, if m.dtype.Varying? then w + b else b + [0], data);
    }

    method Length(p: array<byte>, at: nat) returns (n: nat)
      requires at <= p.Length
      ensures n == StrLen(p[at..])
    {
      n := 0;
      while at + n < p.Length && p[at + n] != 0
        invariant at + n <= p.Length && forall i :: 0 <= i < n ==> p[at..][i] != 0
      {
        n := n + 1;
      }
    }

    /** The count and the characters of a null-terminated string. */
    method CountString(p: array<byte>, m: Datum) returns (word: seq<byte>, body: seq<byte>)
      requires m.dtype.CString? && Sound(m, p[..])
      ensures word == CountedWord(m, p[..]) && body == CountedBody(m, p[..])
    {
      var n: nat := Length(p, m.at);
      assert p[..][m.at..] == p[m.at..];
      if m.clip {
        n := Min(if m.length < 1 then 0 else m.length - 1, n);
      }
      word, body := Word(n), p[m.at..m.at + n];
    }

    method XdrCString(p: array<byte>, m: Datum, ghost data: seq<byte>, ghost s: seq<byte>) returns (ghost e: seq<byte>)
      requires m.dtype.CString? && Ready(p, m, data, s)
      modifies this, base, p
      ensures Made(p, m, data, s, e)
    {
      hide Form, FormSize, CountedWord, CountedBody;
      var word, body := [], [];
      if encode {
        word, body := CountString(p, m);
      }
      e := XdrString(p, m, word, body, 0xFFFF, data, s);
    }
  }

  /** The most characters a string item passes. */
  function Limit(m: Datum): nat {
    if m.dtype.CString? || !m.clip then 0xFFFF else if m.length < 2 then 0 else m.length - 2
  }

  /** The count of a string item as it lies in memory, or would. */
  ghost function CountedWord(m: Datum, data: seq<byte>): (w: seq<byte>)
    requires Sound(m, data) && (m.dtype.Varying? || m.dtype.CString?)
    ensures |w| == 2
  {
    if m.dtype.Varying? then data[m.at..m.at + 2] else Word(Count(m, data))
  }

  ghost function CountedBody(m: Datum, data: seq<byte>): seq<byte>
    requires Sound(m, data) && (m.dtype.Varying? || m.dtype.CString?)
  {
    if m.dtype.Varying? then data[m.at + 2..m.at + 2 + Count(m, data)] else data[m.at..m.at + Count(m, data)]
  }

  /** A string item's form is its count and its characters. */
  lemma CountedForm(m: Datum, data: seq<byte>, e: seq<byte>)
    requires Sound(m, data) && (m.dtype.Varying? || m.dtype.CString?)
    ensures var word, body := CountedWord(m, data), CountedBody(m, data);
            && (Form(m, data, e) <==> |e| >= 4 && e[..4] == ShortForm(word) && OpaqueForm(body, e[4..]))
            && FormSize(m, data) == 4 + |body| + Padding(|body|)
            && |body| == Count(m, data) && Span(m, data) == |body| + (if m.dtype.Varying? then 2 else 1)
            && |body| == Min(Limit(m), FromWord(word))
  {
    hide ShortForm;
    var n := Count(m, data);
    if m.dtype.Varying? {
      SpanOfCounted(data, m.at, 2, n);
    } else {
      SpanOfCounted(data, m.at, n, 1);
      WordRoundTrip(n);
    }
  }

  /** What a string item is in memory. */
  lemma StringMemory(m: Datum, data: seq<byte>)
    requires Sound(m, data) && (m.dtype.Varying? || m.dtype.CString?)
    ensures var word, body := CountedWord(m, data), CountedBody(m, data);
            var mem := if m.dtype.Varying? then word + body else body + [0];
            |mem| == Span(m, data) && data[m.at..m.at + |mem|] == mem
  {
    if m.dtype.Varying? {
      SpanOfCounted(data, m.at, 2, Count(m, data));
    } else {
      SpanOfCounted(data, m.at, Count(m, data), 1);
    }
  }

  lemma SpanOfCounted(data: seq<byte>, at: nat, a: nat, b: nat)
    requires at + a + b <= |data|
    ensures data[at..at + a + b] == data[at..at + a] + data[at + a..at + a + b]
    ensures data[at..at + a + b][..a] == data[at..at + a] && data[at..at + a + b][a..] == data[at + a..at + a + b]
  {
  }

  lemma SplitStream(left: seq<byte>, s: seq<byte>)
    requires |s| >= 4 && s <= left
    ensures s[..4] <= left && s[4..] <= left[4..] && s[..4] + s[4..] == s
  {
  }

  lemma JoinStream(done: seq<byte>, left: seq<byte>, u: seq<byte>, v: seq<byte>)
    requires |u| == 4
    ensures done + u + v == done + (u + v) && (u + v)[..4] == u && (u + v)[4..] == v
    ensures |left| >= |u + v| ==> left[4..][|v|..] == left[|u + v|..]
    ensures |left| >= |u + v| && u <= left && v <= left[4..] ==> u + v <= left
  {
  }

  method Store(p: array<byte>, at: nat, r: seq<byte>, ghost data: seq<byte>)
    requires at + |r| <= p.Length == |data| && r == data[at..at + |r|]
    modifies p
    ensures p[..] == Overlay(old(p[..]), data, at, |r|)
  {
    forall i | 0 <= i < |r| {
      p[at + i] := r[i];
    }
  }

  lemma OverlaySelf(data: seq<byte>, at: nat, n: nat)
    requires at + n <= |data|
    ensures Overlay(data, data, at, n) == data
  {
  }

  /** One item, whatever its type; a type that has no form fails. */
  method XdrDatum(x: Xdr, p: array<byte>, m: Datum, ghost data: seq<byte>, ghost s: seq<byte>)
    returns (ok: bool, ghost e: seq<byte>)
    requires x.Ready(p, m, data, s)
    modifies x, x.base, p
    ensures ok <==> !m.dtype.Unsupported?
    ensures ok ==> x.Made(p, m, data, s, e)
    ensures !ok ==> x.base == old(x.base)
  {
    hide Form, Overlay;
    ok, e := true, [];
    match m.dtype {
      case Text => e := x.XdrText(p, m, data, s);
      case Varying => e := x.XdrVarying(p, m, data, s);
      case CString => e := x.XdrCString(p, m, data, s);
      case Short => e := x.XdrNumber(p, m, data, s);
      case Long => e := x.XdrNumber(p, m, data, s);
      case TwoLongs => e := x.XdrLongs(p, m, data, s);
      case Hyper => e := x.XdrLongs(p, m, data, s);
      case Unsupported => ok := false;
    }
  }

  // ----- a record

  lemma AllSoundSplit(a: seq<Datum>, b: seq<Datum>, data: seq<byte>)
    requires AllSound(a + b, data)
    ensures AllSound(a, data) && AllSound(b, data)
  {
    assert forall k :: 0 <= k < |a| ==> (a + b)[k] == a[k];
    assert forall k :: 0 <= k < |b| ==> (a + b)[|a| + k] == b[k];
  }

  lemma FormLength(m: Datum, data: seq<byte>, f: seq<byte>)
    requires Sound(m, data) && Form(m, data, f)
    ensures |f| == FormSize(m, data)
  {
  }

  lemma {:induction false} AllFormAppend(ms: seq<Datum>, m: Datum, data: seq<byte>, e: seq<byte>, f: seq<byte>)
    requires AllSound(ms + [m], data) && AllSound(ms, data) && AllForm(ms, data, e) && Sound(m, data) && Form(m, data, f)
    ensures AllForm(ms + [m], data, e + f)
  {
    hide Form, FormSize, Sound;
    if ms == [] {
      AllFormCons(m, [], data, f, []);
      assert [] + [m] == [m] + [] && e + f == f + [];
    } else {
      var k := FormSize(ms[0], data);
      assert [ms[0]] + (ms[1..] + [m]) == ms + [m];
      AllSoundSplit([ms[0]], ms[1..] + [m], data);
      AllSoundSplit(ms[1..], [m], data);
      AllFormAppend(ms[1..], m, data, e[k..], f);
      AllFormCons(ms[0], ms[1..] + [m], data, e[..k], e[k..] + f);
      assert e + f == e[..k] + (e[k..] + f);
    }
  }

  lemma AllFormCons(m: Datum, ms: seq<Datum>, data: seq<byte>, f: seq<byte>, e: seq<byte>)
    requires AllSound([m] + ms, data) && AllSound(ms, data) && Sound(m, data) && Form(m, data, f) && AllForm(ms, data, e)
    ensures AllForm([m] + ms, data, f + e)
  {
    FormLength(m, data, f);
    hide Form, FormSize, Sound;
    assert ([m] + ms)[1..] == ms && (f + e)[..|f|] == f && (f + e)[|f|..] == e;
  }

  lemma {:induction false} RestoredAppend(ms: seq<Datum>, m: Datum, data: seq<byte>, into: seq<byte>)
    requires AllSound(ms + [m], data) && AllSound(ms, data) && Sound(m, data) && |into| == |data|
    ensures Restored(ms + [m], data, into) == Overlay(Restored(ms, data, into), data, m.at, Span(m, data))
    decreases |ms|
  {
    if ms == [] {
      assert ([m])[1..] == [];
    } else {
      assert (ms + [m])[1..] == ms[1..] + [m];
      AllSoundSplit([ms[0]], ms[1..] + [m], data) by {
        assert [ms[0]] + (ms[1..] + [m]) == ms + [m];
      }
      AllSoundSplit(ms[1..], [m], data);
      RestoredAppend(ms[1..], m, data, Overlay(into, data, ms[0].at, Span(ms[0], data)));
    }
  }

  lemma {:induction false} RestoredSelf(ms: seq<Datum>, data: seq<byte>)
    requires AllSound(ms, data)
    ensures Restored(ms, data, data) == data
  {
    if ms != [] {
      OverlaySelf(data, ms[0].at, Span(ms[0], data));
      RestoredSelf(ms[1..], data);
    }
  }

  /** A walk over items: some done, in the stream and in the record, the rest to do. */
  ghost predicate Walking(x: Xdr, p: array<byte>, data: seq<byte>, into: seq<byte>, did: seq<Datum>, todo: seq<Datum>,
                          pre: seq<byte>, e: seq<byte>, rest: seq<byte>)
    reads x, x.base, p
  {
    && x.Valid() && p != x.base && |data| == |into| == p.Length && AllSound(did, data) && AllSound(todo, data)
    && AllForm(did, data, e) && x.Done() == pre + e && p[..] == Restored(did, data, into)
    && if x.encode then into == data && AllSize(todo, data) <= x.Capacity()
       else AllForm(todo, data, rest) && rest <= x.Left()
  }

  method Step(x: Xdr, p: array<byte>, m: Datum, ghost data: seq<byte>, ghost into: seq<byte>, ghost did: seq<Datum>,
              ghost todo: seq<Datum>, ghost pre: seq<byte>, ghost e: seq<byte>, ghost rest: seq<byte>)
    returns (ok: bool, ghost e': seq<byte>, ghost rest': seq<byte>)
    requires todo != [] && m == todo[0] && Walking(x, p, data, into, did, todo, pre, e, rest)
    modifies x, x.base, p
    ensures ok <==> !m.dtype.Unsupported?
    ensures x.base == old(x.base) || fresh(x.base)
    ensures ok ==> Walking(x, p, data, into, did + [m], todo[1..], pre, e', rest')
    ensures ok && !x.encode ==> e' + rest' == e + rest
  {
    ghost var k := FormSize(m, data);
    ghost var left := x.Left();
    if x.encode {
      RestoredSelf(did, data);
    } else {
      Peel(todo, data, rest, left);
    }
    AllSoundAppend(did, todo, data);
    hide AllForm, AllSound, Restored, Form, FormSize, Sound, Overlay, Span;
    ghost var f;
    ok, f := XdrDatum(x, p, m, data, if x.encode then [] else rest[..k]);
    e', rest' := e + f, if x.encode then [] else rest[k..];
    if ok {
      FormLength(m, data, f);
      AllFormAppend(did, m, data, e, f);
      RestoredAppend(did, m, data, into);
      if x.encode {
        OverlaySelf(data, m.at, Span(m, data));
      } else {
        TakeDrop(e, rest, k);
      }
      Assoc(pre, e, f);
    }
  }

  /** The first of the items to read, and the rest of them. */
  lemma Peel(ms: seq<Datum>, data: seq<byte>, s: seq<byte>, left: seq<byte>)
    requires ms != [] && AllSound(ms, data) && AllForm(ms, data, s) && s <= left
    ensures Sound(ms[0], data) && AllSound(ms[1..], data)
    ensures var k := FormSize(ms[0], data);
            && k <= |s| && Form(ms[0], data, s[..k]) && AllForm(ms[1..], data, s[k..])
            && s[..k] <= left && s[k..] <= left[k..]
  {
    AllSoundAppend([], ms, data);
    hide Form, FormSize, Sound, AllSound;
  }

  lemma AllSoundAppend(did: seq<Datum>, todo: seq<Datum>, data: seq<byte>)
    requires AllSound(did, data) && AllSound(todo, data) && todo != []
    ensures AllSound(did + [todo[0]], data) && AllSound(todo[1..], data) && Sound(todo[0], data)
  {
    assert forall k :: 0 <= k < |todo[1..]| ==> todo[1..][k] == todo[k + 1];
  }

  /** The items of the fields still to visit, and of the flags behind them all. */
  ghost function ToDo(fs: seq<Field>, k: nat, offset: nat): seq<Datum>
    requires k <= |fs|
  {
    FieldData(fs[k..]) + FlagData(fs, FlagsOffset(fs[k..], offset))
  }

  predicate Supported(fs: seq<Field>) {
    forall k :: 0 <= k < |fs| && !fs[k].computed ==> !fs[k].Dtype().Unsupported?
  }

  lemma ToDoStep(fs: seq<Field>, k: nat, offset: nat)
    requires k < |fs|
    ensures fs[k].computed ==> ToDo(fs, k, offset) == ToDo(fs, k + 1, offset)
    ensures !fs[k].computed ==>
              ToDo(fs, k, offset) == [FieldDatum(fs[k])] + ToDo(fs, k + 1, Passed(fs[k], offset))
  {
    assert fs[k..][1..] == fs[k + 1..];
  }

  method EncodeDecode(fs: seq<Field>, buffer: array<byte>, p: array<byte>, encode: bool, ghost data: seq<byte>,
                      ghost s: seq<byte>)
    returns (length: nat, ok: bool, out: array<byte>, ghost e: seq<byte>)
    requires p != buffer && |data| == p.Length && AllSound(RecordData(fs), data)
    requires encode ==> p[..] == data && AllSize(RecordData(fs), data) <= if buffer.Length > LIMIT then buffer.Length else LIMIT
    requires !encode ==> AllForm(RecordData(fs), data, s) && s <= buffer[..]
    modifies buffer, p
    ensures (ok <==> Supported(fs)) && (out == buffer || fresh(out))
    ensures ok ==> AllForm(RecordData(fs), data, e) && length == |e| <= out.Length && out[..length] == e
    ensures ok ==> p[..] == Restored(RecordData(fs), data, old(p[..])) && (!encode ==> e == s)
  {
    length, ok, out, e := 0, true, buffer, [];
    var x := new Xdr(encode, buffer);
    ghost var into, did, rest := p[..], [], s;
    ghost var todo := RecordData(fs);
    assert todo == ToDo(fs, 0, 0);
    WalkStart(x, p, data, into, todo, [], s);
    var offset;
    ok, offset, did, todo, e, rest := Fields(x, p, fs, data, into, todo, s);
    if ok {
      hide Walking, RecordData;
      ok, did, e, rest := Flags(x, p, fs, offset, data, into, did, todo, e, rest);
      WalkEnd(x, p, data, into, did, [], e, rest);
      assert [] + e == e;
      length, out := x.position, x.base;
    }
  }

  lemma WalkStart(x: Xdr, p: array<byte>, data: seq<byte>, into: seq<byte>, todo: seq<Datum>, pre: seq<byte>, s: seq<byte>)
    requires x.Valid() && p != x.base && |data| == p.Length && into == p[..] && AllSound(todo, data) && x.Done() == pre
    requires if x.encode then into == data && AllSize(todo, data) <= x.Capacity() else AllForm(todo, data, s) && s <= x.Left()
    ensures Walking(x, p, data, into, [], todo, pre, [], s)
  {
    assert pre + [] == pre;
  }

  lemma WalkEnd(x: Xdr, p: array<byte>, data: seq<byte>, into: seq<byte>, did: seq<Datum>, pre: seq<byte>, e: seq<byte>,
                rest: seq<byte>)
    requires Walking(x, p, data, into, did, [], pre, e, rest)
    ensures x.position <= x.base.Length && x.position == |pre + e| && x.base[..|pre + e|] == pre + e
    ensures AllSound(did, data) && AllForm(did, data, e)
    ensures |into| == |data| && p[..] == Restored(did, data, into) && (!x.encode ==> rest == [])
  {
  }

  /** The fields in turn, computed ones passed over. */
  method Fields(x: Xdr, p: array<byte>, fs: seq<Field>, ghost data: seq<byte>, ghost into: seq<byte>, ghost all: seq<Datum>,
                ghost s: seq<byte>)
    returns (ok: bool, offset: nat, ghost did: seq<Datum>, ghost todo: seq<Datum>, ghost e: seq<byte>, ghost rest: seq<byte>)
    requires all == ToDo(fs, 0, 0) && Walking(x, p, data, into, [], all, [], [], s)
    modifies x, x.base, p
    ensures ok <==> Supported(fs)
    ensures ok ==> did + todo == all && todo == FlagData(fs, offset) && Walking(x, p, data, into, did, todo, [], e, rest)
    ensures ok ==> (x.base == old(x.base) || fresh(x.base)) && (!x.encode ==> e + rest == s)
  {
    hide Walking, ToDo, Passed;
    ok, offset, did, todo, e, rest := true, 0, [], all, [], s;
    var k := 0;
    while k < |fs|
      invariant k <= |fs| && (x.base == old(x.base) || fresh(x.base)) && ok
      invariant did + todo == all && todo == ToDo(fs, k, offset)
      invariant Walking(x, p, data, into, did, todo, [], e, rest)
      invariant !x.encode ==> e + rest == s
      invariant forall i :: 0 <= i < k && !fs[i].computed ==> !fs[i].Dtype().Unsupported?
    {
      ToDoStep(fs, k, offset);
      var f := fs[k];
      if !f.computed {
        assert todo == [FieldDatum(f)] + todo[1..];
        ok, e, rest := Step(x, p, FieldDatum(f), data, into, did, todo, [], e, rest);
        if !ok {
          return;
        }
        did, todo := did + [FieldDatum(f)], todo[1..];
        offset := Passed(f, offset);
      }
      k := k + 1;
    }
    ToDoEnd(fs, offset);
  }

  lemma ToDoEnd(fs: seq<Field>, offset: nat)
    ensures ToDo(fs, |fs|, offset) == FlagData(fs, offset)
  {
  }

  lemma FlagStep(fs: seq<Field>, k: nat, offset: nat)
    requires k < |fs|
    ensures fs[k].computed ==> FlagData(fs[k..], offset) == FlagData(fs[k + 1..], offset)
    ensures !fs[k].computed ==>
              FlagData(fs[k..], offset) == [Datum(Short, Aligned(offset), 2, false)] + FlagData(fs[k + 1..], Aligned(offset) + 2)
  {
    assert fs[k..][1..] == fs[k + 1..];
  }

  /** The null flags, each aligned to its size. */
  method Flags(x: Xdr, p: array<byte>, fs: seq<Field>, start: nat, ghost data: seq<byte>, ghost into: seq<byte>,
               ghost before: seq<Datum>, ghost flags: seq<Datum>, ghost e0: seq<byte>, ghost s: seq<byte>)
    returns (ok: bool, ghost did: seq<Datum>, ghost e: seq<byte>, ghost rest: seq<byte>)
    requires flags == FlagData(fs, start) && Walking(x, p, data, into, before, flags, [], e0, s)
    modifies x, x.base, p
    ensures ok && did == before + flags && Walking(x, p, data, into, did, [], [], e, rest)
    ensures (x.base == old(x.base) || fresh(x.base)) && (!x.encode ==> e + rest == e0 + s)
  {
    hide Walking, Aligned;
    ok, did, e, rest := true, before, e0, s;
    ghost var todo := flags;
    var offset, k := start, 0;
    assert fs[0..] == fs;
    while k < |fs|
      invariant k <= |fs| && (x.base == old(x.base) || fresh(x.base)) && ok
      invariant did + todo == before + flags && todo == FlagData(fs[k..], offset)
      invariant Walking(x, p, data, into, did, todo, [], e, rest)
      invariant !x.encode ==> e + rest == e0 + s
    {
      FlagStep(fs, k, offset);
      if !fs[k].computed {
        offset := Aligned(offset);
        ghost var m := Datum(Short, offset, 2, false);
        assert todo == [m] + todo[1..];
        ok, e, rest := Step(x, p, Datum(Short, offset, 2, false), data, into, did, todo, [], e, rest);
        did, todo := did + [m], todo[1..];
        offset := offset + 2;
      }
      k := k + 1;
    }
    assert todo == [] && did == before + flags;
  }

  // ----- a record as the engine lays it out

  /** How many bytes a value of a type of one width takes in memory. */
  function EngineWidth(blrType: nat): Option<nat> {
    if blrType == BLR_SHORT then Some(2)
    else if blrType in {BLR_LONG, BLR_FLOAT, BLR_SQL_DATE, BLR_SQL_TIME} then Some(4)
    else if blrType in {BLR_QUAD, BLR_INT64, BLR_DOUBLE, BLR_TIMESTAMP} then Some(8)
    else None
  }

  predicate IsText(blrType: nat) {
    blrType == BLR_TEXT || blrType == BLR_TEXT2
  }

  predicate IsVarying(blrType: nat) {
    blrType == BLR_VARYING || blrType == BLR_VARYING2
  }

  predicate IsCString(blrType: nat) {
    blrType == BLR_CSTRING || blrType == BLR_CSTRING2
  }

  /** A blob or an array is kept as its eight-byte identifier. */
  predicate IsIdentifier(f: Field) {
    f.isArray || f.blrType == BLR_BLOB
  }

  function VaryingCount(low: int, high: int): int {
    low + 0x100 * high
  }

  /** The bytes a field's value is made of, given what the record holds. */
  predicate InValue(f: Field, data: seq<byte>, i: nat) {
    f.offset <= i < |data| &&
    if IsIdentifier(f) then i < f.offset + 8
    else if IsText(f.blrType) then i < f.offset + f.length
    else if IsVarying(f.blrType) then
      f.offset + 2 <= |data| && i < f.offset + 2 + VaryingCount(data[f.offset], data[f.offset + 1])
    else if IsCString(f.blrType) then forall j :: f.offset <= j < i ==> data[j] != 0
    else EngineWidth(f.blrType).Some? && i < f.offset + EngineWidth(f.blrType).value
  }

  /** A type that has a place in a record. */
  predicate Known(f: Field) {
    IsIdentifier(f) || IsText(f.blrType) || IsVarying(f.blrType) || IsCString(f.blrType) || EngineWidth(f.blrType).Some?
  }

  lemma KnownIsSupported(f: Field)
    ensures Known(f) <==> !f.Dtype().Unsupported?
  {
  }

  /** A field's item covers its value, and no more. */
  lemma ValueIsCovered(f: Field, data: seq<byte>, i: nat)
    requires Known(f) && Sound(FieldDatum(f), data)
    ensures Covers(FieldDatum(f), data, i) <==> InValue(f, data, i)
  {
    var m := FieldDatum(f);
    if m.dtype.CString? {
      var s := data[f.offset..];
      var n := StrLen(s);
      assert f.offset + n < |data| ==> s[n] == data[f.offset + n] == 0;
      assert forall j :: f.offset <= j < f.offset + n ==> data[j] == s[j - f.offset];
    }
  }

  /** Where a field's item stands among those of its record. */
  lemma {:induction false} FieldDatumAt(fs: seq<Field>, k: nat) returns (j: nat)
    requires k < |fs| && !fs[k].computed
    ensures j < |FieldData(fs)| && FieldData(fs)[j] == FieldDatum(fs[k])
    decreases k
  {
    j := 0;
    if k > 0 {
      var i := FieldDatumAt(fs[1..], k - 1);
      j := if fs[0].computed then i else i + 1;
    }
  }

  /** And no item is anything but a field's. */
  lemma {:induction false} DatumIsField(fs: seq<Field>, j: nat) returns (k: nat)
    requires j < |FieldData(fs)|
    ensures k < |fs| && !fs[k].computed && FieldData(fs)[j] == FieldDatum(fs[k])
    decreases |fs|
  {
    if fs[0].computed {
      k := DatumIsField(fs[1..], j);
      k := k + 1;
    } else if j == 0 {
      k := 0;
    } else {
      k := DatumIsField(fs[1..], j - 1);
      k := k + 1;
    }
  }

  /** Every byte of every field's value travels. */
  lemma RecordCovers(fs: seq<Field>, data: seq<byte>, k: nat, i: nat)
    requires AllSound(RecordData(fs), data) && k < |fs| && !fs[k].computed && Known(fs[k])
    requires InValue(fs[k], data, i)
    ensures exists m :: 0 <= m < |RecordData(fs)| && Covers(RecordData(fs)[m], data, i)
  {
    var j := FieldDatumAt(fs, k);
    assert RecordData(fs)[j] == FieldDatum(fs[k]);
    hide FieldData, FlagData, Sound, Covers;
    ValueIsCovered(fs[k], data, i);
  }

  /** The room a field takes in a record. */
  function Room(f: Field): nat {
    if IsIdentifier(f) then 8 else if f.blrType == BLR_VARYING then f.length + 2 else f.length
  }

  /**
   A record laid out for its message: fields one after the other with gaps for alignment at
   most, none of the types no message has, and identifiers of their size.
   */
  predicate LaidOut(fs: seq<Field>, from: nat) {
    if fs == [] then true
    else if fs[0].computed then LaidOut(fs[1..], from)
    else
      && fs[0].offset >= from && Known(fs[0]) && fs[0].blrType != BLR_VARYING2 && !IsCString(fs[0].blrType)
      && (fs[0].blrType == BLR_BLOB ==> fs[0].length == 8)
      && LaidOut(fs[1..], fs[0].offset + Room(fs[0]))
  }

  /** Where the fields end. */
  function FieldsEnd(fs: seq<Field>, from: nat): nat {
    if fs == [] then from
    else FieldsEnd(fs[1..], if fs[0].computed then from else fs[0].offset + Room(fs[0]))
  }

  /** How many of the first k fields are kept in the record. */
  function Kept(fs: seq<Field>, k: nat): nat
    requires k <= |fs|
  {
    if k == 0 then 0 else (if fs[0].computed then 0 else 1) + Kept(fs[1..], k - 1)
  }

  /** The flags follow the fields at even offsets, two bytes each. */
  function FlagPlace(fs: seq<Field>, k: nat): nat
    requires k < |fs|
  {
    (FieldsEnd(fs, 0) + 1) / 2 * 2 + 2 * Kept(fs, k)
  }

  lemma {:induction false} FlagsStart(fs: seq<Field>, from: nat)
    requires LaidOut(fs, from)
    ensures FlagsOffset(fs, from) == FieldsEnd(fs, from)
  {
    if fs != [] {
      FlagsStart(fs[1..], if fs[0].computed then from else fs[0].offset + Room(fs[0]));
    }
  }

  lemma {:induction false} FlagDatumAt(fs: seq<Field>, k: nat, offset: nat)
    requires k < |fs| && !fs[k].computed
    ensures Kept(fs, k) < |FlagData(fs, offset)|
    ensures FlagData(fs, offset)[Kept(fs, k)] == Datum(Short, (offset + 1) / 2 * 2 + 2 * Kept(fs, k), 2, false)
    decreases k
  {
    if k > 0 {
      FlagDatumAt(fs[1..], k - 1, if fs[0].computed then offset else Aligned(offset) + 2);
    }
  }

  lemma {:induction false} DatumIsFlag(fs: seq<Field>, j: nat, offset: nat) returns (k: nat)
    requires j < |FlagData(fs, offset)|
    ensures k < |fs| && !fs[k].computed && Kept(fs, k) == j
    decreases |fs|
  {
    if fs[0].computed {
      k := DatumIsFlag(fs[1..], j, offset);
      k := k + 1;
    } else if j == 0 {
      k := 0;
    } else {
      k := DatumIsFlag(fs[1..], j - 1, Aligned(offset) + 2);
      k := k + 1;
    }
  }

  /** So do both bytes of every field's null flag. */
  lemma FlagCovered(fs: seq<Field>, data: seq<byte>, k: nat, i: nat)
    requires LaidOut(fs, 0) && k < |fs| && !fs[k].computed && FlagPlace(fs, k) <= i <= FlagPlace(fs, k) + 1
    ensures exists m :: 0 <= m < |RecordData(fs)| && Covers(RecordData(fs)[m], data, i)
  {
    FlagsStart(fs, 0);
    FlagDatumAt(fs, k, FlagsOffset(fs, 0));
    var m := |FieldData(fs)| + Kept(fs, k);
    assert RecordData(fs)[m] == Datum(Short, FlagPlace(fs, k), 2, false);
    assert Covers(RecordData(fs)[m], data, i);
  }

  /** A byte of a field's value, or of its null flag where the record is laid out for its message. */
  predicate OfField(fs: seq<Field>, data: seq<byte>, k: nat, i: nat)
    requires k < |fs|
  {
    InValue(fs[k], data, i) || (LaidOut(fs, 0) && FlagPlace(fs, k) <= i <= FlagPlace(fs, k) + 1)
  }

  /** Where the record is laid out for its message, nothing else travels. */
  lemma CoveredIsField(fs: seq<Field>, data: seq<byte>, m: nat, i: nat) returns (k: nat)
    requires LaidOut(fs, 0) && AllSound(RecordData(fs), data) && forall j :: 0 <= j < |fs| && !fs[j].computed ==> Known(fs[j])
    requires m < |RecordData(fs)| && Covers(RecordData(fs)[m], data, i)
    ensures k < |fs| && !fs[k].computed && OfField(fs, data, k, i)
  {
    hide LaidOut, FieldData, FlagData, FlagsOffset, FieldsEnd, Known, InValue, Sound;
    if m < |FieldData(fs)| {
      k := DatumIsField(fs, m);
      assert RecordData(fs)[m] == FieldDatum(fs[k]);
      hide Covers;
      ValueIsCovered(fs[k], data, i);
    } else {
      k := DatumIsFlag(fs, m - |FieldData(fs)|, FlagsOffset(fs, 0));
      FlagDatumAt(fs, k, FlagsOffset(fs, 0));
      FlagsStart(fs, 0);
    }
  }

  predicate NoFields(fs: seq<Field>, data: seq<byte>, i: nat) {
    forall k :: 0 <= k < |fs| && !fs[k].computed ==> !OfField(fs, data, k, i)
  }

  /**
   A record encoded and decoded into another: it works iff all types are known, and then every
   byte of every field's value and null flag is the original's, what belongs to none is left as
   it was, and as much is read as was written.
   */
  method EncodeThenDecode(fs: seq<Field>, buffer: array<byte>, p: array<byte>, q: array<byte>) returns (ok: bool, same: bool)
    requires p != buffer && q != buffer && q != p && q.Length == p.Length && AllSound(RecordData(fs), p[..])
    requires AllSize(RecordData(fs), p[..]) <= if buffer.Length > LIMIT then buffer.Length else LIMIT
    modifies buffer, p, q
    ensures ok <==> forall k :: 0 <= k < |fs| && !fs[k].computed ==> Known(fs[k])
    ensures ok ==> same && p[..] == old(p[..])
    ensures ok ==> forall k, i :: 0 <= k < |fs| && !fs[k].computed && 0 <= i < q.Length && OfField(fs, p[..], k, i) ==>
              q[i] == p[i]
    ensures ok && LaidOut(fs, 0) ==> forall i :: 0 <= i < q.Length && NoFields(fs, p[..], i) ==> q[i] == old(q[i])
    ensures ok ==> forall i :: 0 <= i < q.Length ==>
              q[i] == if exists k :: 0 <= k < |RecordData(fs)| && Covers(RecordData(fs)[k], p[..], i) then p[i] else old(q[i])
  {
    ghost var data, into, ms := p[..], q[..], RecordData(fs);
    AllKnown(fs);
    hide RecordData, AllForm, AllSound, Restored, Supported, Covers, Span, Known, OfField, LaidOut;
    var written, stream;
    ghost var e;
    written, ok, stream, e := EncodeDecode(fs, buffer, p, true, data, []);
    same := true;
    if ok {
      RestoredSelf(ms, data);
      var read, out;
      ghost var e';
      assert e <= stream[..];
      read, ok, out, e' := EncodeDecode(fs, stream, q, false, data, e);
      same := read == written;
      forall i | 0 <= i < q.Length
        ensures q[i] == if exists k :: 0 <= k < |ms| && Covers(ms[k], data, i) then data[i] else into[i]
      {
        RestoredBytes(ms, data, into, i);
      }
      forall k: nat, i: nat | k < |fs| && !fs[k].computed && i < q.Length && OfField(fs, data, k, i)
        ensures q[i] == data[i]
      {
        FieldCovered(fs, data, k, i);
      }
      forall i: nat | LaidOut(fs, 0) && i < q.Length && NoFields(fs, data, i)
        ensures q[i] == into[i]
      {
        OthersUncovered(fs, data, i);
      }
    }
  }

  lemma OthersUncovered(fs: seq<Field>, data: seq<byte>, i: nat)
    requires LaidOut(fs, 0) && AllSound(RecordData(fs), data) && Supported(fs)
    requires NoFields(fs, data, i)
    ensures !exists m :: 0 <= m < |RecordData(fs)| && Covers(RecordData(fs)[m], data, i)
  {
    AllKnown(fs);
    hide Known, Covers, RecordData, AllSound, LaidOut, OfField, Supported;
    if exists m :: 0 <= m < |RecordData(fs)| && Covers(RecordData(fs)[m], data, i) {
      var m :| 0 <= m < |RecordData(fs)| && Covers(RecordData(fs)[m], data, i);
      var k := CoveredIsField(fs, data, m, i);
      assert false;
    }
  }

  lemma AllKnown(fs: seq<Field>)
    ensures Supported(fs) <==> forall k :: 0 <= k < |fs| && !fs[k].computed ==> Known(fs[k])
  {
    forall k | 0 <= k < |fs|
      ensures Known(fs[k]) <==> !fs[k].Dtype().Unsupported?
    {
      KnownIsSupported(fs[k]);
    }
  }

  lemma FieldCovered(fs: seq<Field>, data: seq<byte>, k: nat, i: nat)
    requires AllSound(RecordData(fs), data) && k < |fs| && !fs[k].computed && Known(fs[k]) && OfField(fs, data, k, i)
    ensures exists m :: 0 <= m < |RecordData(fs)| && Covers(RecordData(fs)[m], data, i)
  {
    hide InValue, Known, Covers, RecordData, AllSound;
    if InValue(fs[k], data, i) {
      RecordCovers(fs, data, k, i);
    } else {
      FlagCovered(fs, data, k, i);
    }
  }

  // ----- a slice of an array

  /** The whole elements of a slice. */
  function SliceData(dtype: Dtype, length: nat, at: nat, n: nat): seq<Datum>
    decreases n
  {
    if n == 0 then [] else [Datum(dtype, at, length, true)] + SliceData(dtype, length, at + length, n - 1)
  }

  /** Elements one after the other, in either direction. */
  method Elements(x: Xdr, p: array<byte>, dtype: Dtype, length: nat, n: nat, ghost data: seq<byte>, ghost into: seq<byte>,
                  ghost pre: seq<byte>, ghost s: seq<byte>)
    returns (ok: bool, ghost e: seq<byte>, ghost rest: seq<byte>)
    requires Walking(x, p, data, into, [], SliceData(dtype, length, 0, n), pre, [], s)
    modifies x, x.base, p
    ensures ok <==> n == 0 || !dtype.Unsupported?
    ensures x.base == old(x.base) || fresh(x.base)
    ensures ok ==> Walking(x, p, data, into, SliceData(dtype, length, 0, n), [], pre, e, rest) && (!x.encode ==> e + rest == s)
  {
    hide Walking;
    ghost var did, todo: seq<Datum> := [], SliceData(dtype, length, 0, n);
    ok, e, rest := true, [], s;
    var at: nat, left: nat := 0, n;
    while left > 0
      invariant 0 <= left <= n && (x.base == old(x.base) || fresh(x.base)) && ok
      invariant did + todo == SliceData(dtype, length, 0, n) && todo == SliceData(dtype, length, at, left)
      invariant Walking(x, p, data, into, did, todo, pre, e, rest) && (!x.encode ==> e + rest == s)
      invariant left < n ==> !dtype.Unsupported?
    {
      ghost var m := Datum(dtype, at, length, true);
      assert todo == [m] + todo[1..];
      ok, e, rest := Step(x, p, Datum(dtype, at, length, true), data, into, did, todo, pre, e, rest);
      if !ok {
        return;
      }
      did, todo := did + [m], todo[1..];
      at, left := at + length, left - 1;
    }
    assert did == SliceData(dtype, length, 0, n);
  }

  /** Bytes behind the last whole element do not travel. */
  function ElementCount(size: nat, elementLength: nat): nat
    requires elementLength > 0
  {
    size / elementLength
  }

  /** Elements that are all value: texts, and numbers of their type's width. */
  predicate WholeWidth(dtype: Dtype, elementLength: nat) {
    match dtype
    case Text => true
    case Short => elementLength == 2
    case Long => elementLength == 4
    case TwoLongs | Hyper => elementLength == 8
    case _ => false
  }

  lemma {:induction false} SliceDatumAt(dtype: Dtype, length: nat, at: nat, n: nat, k: nat)
    requires k < n
    ensures k < |SliceData(dtype, length, at, n)|
    ensures SliceData(dtype, length, at, n)[k] == Datum(dtype, at + k * length, length, true)
    decreases n
  {
    if k > 0 {
      SliceDatumAt(dtype, length, at + length, n - 1, k - 1);
      assert (k - 1) * length + length == k * length;
    }
  }

  /** Every byte of such elements travels. */
  lemma SliceCovers(dtype: Dtype, elementLength: nat, data: seq<byte>, i: nat)
    requires elementLength > 0 && WholeWidth(dtype, elementLength) && i < |data| / elementLength * elementLength
    ensures var ms := SliceData(dtype, elementLength, 0, ElementCount(|data|, elementLength));
            exists k :: 0 <= k < |ms| && Covers(ms[k], data, i)
  {
    var n, k := |data| / elementLength, i / elementLength;
    DivisionInside(i, n, elementLength);
    SliceDatumAt(dtype, elementLength, 0, n, k);
    var ms := SliceData(dtype, elementLength, 0, ElementCount(|data|, elementLength));
    assert Covers(ms[k], data, i);
  }

  lemma DivisionInside(i: nat, n: nat, d: nat)
    requires d > 0 && i < n * d
    ensures i / d < n && i / d * d <= i < i / d * d + d
  {
    assert i == i / d * d + i % d;
  }

  /** A slice as an array of its own. */
  class Slice {
    var address: array?<byte>
    var length: nat

    constructor (address: array?<byte>)
      ensures this.address == address && length == if address == null then 0 else address.Length
    {
      this.address, length := address, if address == null then 0 else address.Length;
    }

    function Storage(): set<array<byte>>
      reads this
    {
      if address == null then {} else {address}
    }

    /** There is room for so many bytes: the storage there was, its end untouched, or as much as is needed. */
    twostate predicate Provided(size: nat)
      reads this, Storage()
    {
      && address != null && address.Length >= size
      && if old(address) != null && old(address).Length >= size then
           address == old(address) && address[size..] == old(address[size..])
         else fresh(address) && address.Length == size
    }
  }

  /** A slice's form: its length in bytes, and its elements. */
  ghost predicate SliceForm(dtype: Dtype, elementLength: nat, data: seq<byte>, s: seq<byte>)
    requires elementLength > 0 && AllSound(SliceData(dtype, elementLength, 0, ElementCount(|data|, elementLength)), data)
  {
    |s| >= 4 && s[..4] == LongForm(Double(|data|))
    && AllForm(SliceData(dtype, elementLength, 0, ElementCount(|data|, elementLength)), data, s[4..])
  }

  method WriteSlice(slice: Slice, buffer: array<byte>, dtype: Dtype, elementLength: nat)
    returns (length: nat, ok: bool, out: array<byte>, ghost e: seq<byte>)
    requires slice.address != null && slice.address != buffer && slice.length == slice.address.Length < 0x1_0000_0000
    requires elementLength > 0
    requires var ms := SliceData(dtype, elementLength, 0, ElementCount(slice.length, elementLength));
             && AllSound(ms, slice.address[..])
             && 4 + AllSize(ms, slice.address[..]) <= if buffer.Length > LIMIT then buffer.Length else LIMIT
    modifies buffer, slice.address
    ensures (ok ==> slice.address[..] == old(slice.address[..])) && (out == buffer || fresh(out))
    ensures ok <==> ElementCount(slice.length, elementLength) == 0 || !dtype.Unsupported?
    ensures ok ==> SliceForm(dtype, elementLength, slice.address[..], e) && length == |e| <= out.Length && out[..length] == e
  {
    ghost var data := slice.address[..];
    ghost var word := Double(slice.length);
    var n := ElementCount(slice.length, elementLength);
    var x := new Xdr(true, buffer);
    out, length, e := buffer, 0, [];
    hide AllForm, AllSound, AllSize, Restored, Walking, LongForm, Double, SliceForm, SliceData, ElementCount;
    var w := x.XdrLongWord(Double(slice.length), word);
    ghost var pre := LongForm(word);
    ghost var ms := SliceData(dtype, elementLength, 0, n);
    EmptyPlus(pre);
    WalkStart(x, slice.address, data, data, ms, pre, []);
    ghost var body, rest;
    ok, body, rest := Elements(x, slice.address, dtype, elementLength, n, data, data, pre, []);
    if ok {
      WalkEnd(x, slice.address, data, data, ms, pre, body, rest);
      RestoredSelf(ms, data);
      e := pre + body;
      SliceFormIs(dtype, elementLength, data, body);
      length, out := x.position, x.base;
    }
  }

  lemma SliceFormIs(dtype: Dtype, elementLength: nat, data: seq<byte>, body: seq<byte>)
    requires elementLength > 0 && AllSound(SliceData(dtype, elementLength, 0, ElementCount(|data|, elementLength)), data)
    requires AllForm(SliceData(dtype, elementLength, 0, ElementCount(|data|, elementLength)), data, body)
    ensures SliceForm(dtype, elementLength, data, LongForm(Double(|data|)) + body)
  {
    var pre := LongForm(Double(|data|));
    assert (pre + body)[..4] == pre && (pre + body)[4..] == body;
  }

  /** Every byte an item covers is the original's. */
  ghost predicate Regained(ms: seq<Datum>, data: seq<byte>, now: seq<byte>) {
    && |now| == |data|
    && forall i :: 0 <= i < |data| ==> (exists k :: 0 <= k < |ms| && Covers(ms[k], data, i)) ==> now[i] == data[i]
  }

  lemma {:induction false} StrLenStops(s: seq<byte>, more: seq<byte>)
    requires StrLen(s) < |s|
    ensures StrLen(s + more) == StrLen(s)
  {
    if s[0] != 0 {
      assert (s + more)[1..] == s[1..] + more;
      StrLenStops(s[1..], more);
    }
  }

  /** Bytes behind the memory an item lies in change nothing of it. */
  lemma SoundInside(m: Datum, data: seq<byte>, more: seq<byte>)
    requires Sound(m, data)
    ensures Sound(m, data + more) && Count(m, data + more) == Count(m, data)
  {
    var all := data + more;
    if m.dtype.Varying? {
      assert all[m.at..m.at + 2] == data[m.at..m.at + 2];
    } else if m.dtype.CString? {
      var s := data[m.at..];
      assert all[m.at..] == s + more;
      assert s[Count(m, data)] == 0;
      StrLenStops(s, more);
    }
  }

  lemma FormInside(m: Datum, data: seq<byte>, more: seq<byte>, s: seq<byte>)
    requires Sound(m, data) && Form(m, data, s)
    ensures Sound(m, data + more) && Form(m, data + more, s)
  {
    SoundInside(m, data, more);
    assert (data + more)[m.at..m.at + Span(m, data)] == data[m.at..m.at + Span(m, data)];
    hide Count, ShortForm, LongForm, OpaqueForm, Word;
  }

  lemma {:induction false} AllFormInside(ms: seq<Datum>, data: seq<byte>, more: seq<byte>, s: seq<byte>)
    requires AllSound(ms, data) && AllForm(ms, data, s)
    ensures AllSound(ms, data + more) && AllForm(ms, data + more, s)
    decreases |ms|
  {
    forall k | 0 <= k < |ms|
      ensures Sound(ms[k], data + more)
    {
      SoundInside(ms[k], data, more);
    }
    hide Form, Sound, Count;
    if ms != [] {
      var k := FormSize(ms[0], data);
      SoundInside(ms[0], data, more);
      FormInside(ms[0], data, more, s[..k]);
      AllFormInside(ms[1..], data, more, s[k..]);
    }
  }

  /** Reading over the start of a longer memory regains what is covered and leaves the rest of it. */
  lemma RestoredIsRegained(ms: seq<Datum>, data: seq<byte>, into: seq<byte>)
    requires AllSound(ms, data) && |into| >= |data|
    ensures AllSound(ms, data + into[|data|..])
    ensures var now := Restored(ms, data + into[|data|..], into);
            Regained(ms, data, now[..|data|]) && now[|data|..] == into[|data|..]
  {
    var more := into[|data|..];
    forall k | 0 <= k < |ms|
      ensures Sound(ms[k], data + more) && Span(ms[k], data + more) == Span(ms[k], data)
    {
      SoundInside(ms[k], data, more);
    }
    hide Count, Restored;
    var now := Restored(ms, data + more, into);
    forall i | 0 <= i < |into|
      ensures i >= |data| ==> now[i] == into[i]
      ensures i < |data| && (exists k :: 0 <= k < |ms| && Covers(ms[k], data, i)) ==> now[i] == data[i]
    {
      RestoredBytes(ms, data + more, into, i);
      if i < |data| && exists k :: 0 <= k < |ms| && Covers(ms[k], data, i) {
        var k :| 0 <= k < |ms| && Covers(ms[k], data, i);
        assert Covers(ms[k], data + more, i);
      }
    }
  }

  method ReadElements(x: Xdr, address: array<byte>, dtype: Dtype, elementLength: nat, n: nat, ghost data: seq<byte>,
                      ghost pre: seq<byte>, ghost s: seq<byte>)
    returns (ok: bool)
    requires x.Valid() && !x.encode && x.Done() == pre && address != x.base && address.Length >= |data|
    requires n == 0 || !dtype.Unsupported?
    requires AllSound(SliceData(dtype, elementLength, 0, n), data)
    requires AllForm(SliceData(dtype, elementLength, 0, n), data, s) && s <= x.Left()
    modifies x, x.base, address
    ensures ok && Regained(SliceData(dtype, elementLength, 0, n), data, address[..|data|]) && x.position == |pre| + |s|
    ensures address[|data|..] == old(address[|data|..])
  {
    hide AllForm, AllSound, AllSize, Restored, Walking, SliceData, Covers, Regained;
    ghost var into, ms := address[..], SliceData(dtype, elementLength, 0, n);
    ghost var all := data + into[|data|..];
    AllFormInside(ms, data, into[|data|..], s);
    WalkStart(x, address, all, into, ms, pre, s);
    ghost var body, rest;
    ok, body, rest := Elements(x, address, dtype, elementLength, n, all, into, pre, s);
    WalkEnd(x, address, all, into, ms, pre, body, rest);
    RestoredIsRegained(ms, data, into);
    assert address[..|data|] == address[..][..|data|] && address[|data|..] == address[..][|data|..];
  }

  /** Room for so many bytes: what there is, if that is enough, and new storage otherwise. */
  method Provide(slice: Slice, size: nat) returns (address: array<byte>)
    modifies slice`address
    ensures slice.address == address && address.Length >= size
    ensures if old(slice.address) != null && old(slice.address).Length >= size then address == old(slice.address)
            else fresh(address) && address.Length == size
  {
    if slice.address != null && size > slice.address.Length {
      slice.address := null;
    }
    if slice.address == null {
      slice.address := new byte[size];
    }
    address := slice.address;
  }

  /** Storage that is long enough is used again, any other replaced; nothing is touched for an empty slice. */
  method ReadSlice(slice: Slice, buffer: array<byte>, dtype: Dtype, elementLength: nat, ghost data: seq<byte>, ghost s: seq<byte>)
    returns (length: nat, ok: bool)
    requires elementLength > 0 && |data| < 0x1_0000_0000 && s <= buffer[..] && slice.address != buffer
    requires ElementCount(|data|, elementLength) == 0 || !dtype.Unsupported?
    requires AllSound(SliceData(dtype, elementLength, 0, ElementCount(|data|, elementLength)), data)
    requires SliceForm(dtype, elementLength, data, s)
    modifies slice, buffer, slice.Storage()
    ensures ok && slice.length == |data| && length == |s|
    ensures |data| == 0 ==> slice.address == old(slice.address)
    ensures |data| > 0 ==> slice.Provided(|data|)
    ensures |data| > 0 ==>
              Regained(SliceData(dtype, elementLength, 0, ElementCount(|data|, elementLength)), data, slice.address[..|data|])
  {
    var x := new Xdr(false, buffer);
    ghost var left := x.Left();
    assert left == buffer[..] && x.Done() == [];
    ghost var rest := SliceParts(dtype, elementLength, data, s, left);
    hide AllForm, AllSound, LongForm, Double, SliceForm, SliceData, ElementCount, Regained;
    var size := ReadSize(x, |data|);
    var n := ElementCount(size, elementLength);
    length, ok := ReadBody(slice, x, size, dtype, elementLength, n, data, LongForm(Double(size)), rest);
  }

  method ReadSize(x: Xdr, ghost size: nat) returns (r: nat)
    requires x.Valid() && !x.encode && x.Done() == [] && size < 0x1_0000_0000 && LongForm(Double(size)) <= x.Left()
    modifies x, x.base
    ensures r == size && x.Valid() && (x.base == old(x.base) || fresh(x.base))
    ensures x.Done() == LongForm(Double(size)) && x.Left() == old(x.Left())[4..]
  {
    DoubleRoundTrip(size);
    hide LongForm, Double, FromDouble;
    var w := x.XdrLongWord([], Double(size));
    EmptyPlus(LongForm(Double(size)));
    r := FromDouble(w);
  }

  method ReadBody(slice: Slice, x: Xdr, size: nat, dtype: Dtype, elementLength: nat, n: nat, ghost data: seq<byte>,
                  ghost pre: seq<byte>, ghost s: seq<byte>)
    returns (length: nat, ok: bool)
    requires x.Valid() && !x.encode && x.Done() == pre && size == |data| && (n == 0 || !dtype.Unsupported?)
    requires slice.address != x.base
    requires AllSound(SliceData(dtype, elementLength, 0, n), data)
    requires AllForm(SliceData(dtype, elementLength, 0, n), data, s) && s <= x.Left() && (size == 0 ==> s == [])
    modifies slice, x, x.base, slice.Storage()
    ensures ok && slice.length == size && length == |pre| + |s|
    ensures size == 0 ==> slice.address == old(slice.address)
    ensures size > 0 ==>
              slice.Provided(size) && Regained(SliceData(dtype, elementLength, 0, n), data, slice.address[..size])
  {
    hide AllForm, AllSound, SliceData, Regained;
    slice.length := size;
    ok := true;
    if size > 0 {
      var address := Provide(slice, size);
      ok := ReadElements(x, address, dtype, elementLength, n, data, pre, s);
    }
    length := x.position;
  }

  lemma SliceParts(dtype: Dtype, elementLength: nat, data: seq<byte>, s: seq<byte>, stream: seq<byte>)
    returns (rest: seq<byte>)
    requires elementLength > 0
    requires AllSound(SliceData(dtype, elementLength, 0, ElementCount(|data|, elementLength)), data)
    requires SliceForm(dtype, elementLength, data, s) && s <= stream
    ensures |s| == 4 + |rest| && LongForm(Double(|data|)) <= stream && rest <= stream[4..]
    ensures AllForm(SliceData(dtype, elementLength, 0, ElementCount(|data|, elementLength)), data, rest)
    ensures |data| == 0 ==> rest == []
  {
    SplitStream(stream, s);
    rest := s[4..];
  }

  /**
   A slice written and read into another: the other has its length and room for it, every byte of
   the whole elements that travels is restored, and as much is read as was written.
   */
  method WriteThenReadSlice(slice: Slice, other: Slice, buffer: array<byte>, dtype: Dtype, elementLength: nat)
    returns (ok: bool, same: bool)
    requires slice != other && slice.address != null && slice.address != buffer && elementLength > 0
    requires slice.length == slice.address.Length < 0x1_0000_0000
    requires other.address != buffer && other.address != slice.address
    requires var ms := SliceData(dtype, elementLength, 0, ElementCount(slice.length, elementLength));
             && AllSound(ms, slice.address[..])
             && 4 + AllSize(ms, slice.address[..]) <= if buffer.Length > LIMIT then buffer.Length else LIMIT
    modifies buffer, slice.address, other, other.Storage()
    ensures ok <==> ElementCount(slice.length, elementLength) == 0 || !dtype.Unsupported?
    ensures ok ==> same && other.length == slice.length && slice.address[..] == old(slice.address[..])
    ensures ok && slice.length > 0 ==>
              && other.Provided(slice.length)
              && Regained(SliceData(dtype, elementLength, 0, ElementCount(slice.length, elementLength)),
                          slice.address[..], other.address[..slice.length])
    ensures ok && WholeWidth(dtype, elementLength) ==>
              forall i :: 0 <= i < slice.length / elementLength * elementLength ==> RegainedAt(slice, other, i)
  {
    hide SliceData, AllSound, AllSize, SliceForm, Regained, ElementCount;
    ghost var data := slice.address[..];
    var length, out;
    ghost var e;
    length, ok, out, e := WriteSlice(slice, buffer, dtype, elementLength);
    same := true;
    if ok {
      assert e <= out[..];
      var read;
      read, ok := ReadSlice(other, out, dtype, elementLength, data, e);
      same := read == length;
      if WholeWidth(dtype, elementLength) {
        forall i | 0 <= i < |data| / elementLength * elementLength
          ensures RegainedAt(slice, other, i)
        {
          SliceCovers(dtype, elementLength, data, i);
          InsideSlice(i, |data|, elementLength);
          RegainedByte(SliceData(dtype, elementLength, 0, ElementCount(|data|, elementLength)), data,
                       other.address[..|data|], i);
        }
      }
    }
  }

  /** The same byte in both slices. */
  predicate RegainedAt(slice: Slice, other: Slice, i: nat)
    reads slice, slice.Storage(), other, other.Storage()
  {
    && slice.address != null && other.address != null && i < slice.address.Length && i < other.address.Length
    && other.address[i] == slice.address[i]
  }

  lemma InsideSlice(i: nat, n: nat, d: nat)
    requires d > 0 && i < n / d * d
    ensures i < n
  {
  }

  lemma RegainedByte(ms: seq<Datum>, data: seq<byte>, now: seq<byte>, i: nat)
    requires Regained(ms, data, now) && i < |data| && exists k :: 0 <= k < |ms| && Covers(ms[k], data, i)
    ensures now[i] == data[i]
  {
  }
}
