/** Bytes, and the little-endian integers of the generated byte code. */
module Bytes {

  type byte = x: int | 0 <= x < 0x100
  type word = x: int | 0 <= x < 0x1_0000

  const MIN_SSHORT: int := -0x8000
  const MAX_SSHORT: int := 0x7FFF
  const MIN_SLONG: int := -0x8000_0000
  const MAX_SLONG: int := 0x7FFF_FFFF
  const MIN_SINT64: int := -0x8000_0000_0000_0000
  const MAX_SINT64: int := 0x7FFF_FFFF_FFFF_FFFF

  /** The value a C conversion to an unsigned byte keeps. */
  function Low8(v: int): byte {
    v % 0x100
  }

  /** The two bytes `stuff_word` writes for the low sixteen bits of v. */
  function Word(v: int): (bs: seq<byte>)
    ensures |bs| == 2
  {
    [v % 0x100, (v / 0x100) % 0x100]
  }

  function Double(v: int): (bs: seq<byte>)
    ensures |bs| == 4
  {
    Word(v) + Word(v / 0x1_0000)
  }

  function Quad(v: int): (bs: seq<byte>)
    ensures |bs| == 8
  {
    Double(v) + Double(v / 0x1_0000_0000)
  }

  function FromWord(bs: seq<byte>): (v: word)
    requires |bs| >= 2
  {
    var low: int, high: int := bs[0], bs[1];
    low + 0x100 * high
  }

  function FromDouble(bs: seq<byte>): int
    requires |bs| >= 4
  {
    FromWord(bs) + 0x1_0000 * FromWord(bs[2..])
  }

  function FromQuad(bs: seq<byte>): int
    requires |bs| >= 8
  {
    FromDouble(bs) + 0x1_0000_0000 * FromDouble(bs[4..])
  }

  /** Two's complement reading of an unsigned value of the given modulus. */
  function Signed(v: int, modulus: int): int {
    if 2 * v < modulus then v else v - modulus
  }

  lemma WordRoundTrip(v: int)
    ensures FromWord(Word(v)) == v % 0x1_0000
  {
  }

  lemma HighPart(v: int, m: int)
    requires m == 0x1_0000 || m == 0x1_0000_0000
    ensures v % (m * m) == v % m + m * ((v / m) % m)
  {
    var q, r := v / m, v % m;
    var q', r' := q / m, q % m;
    if m == 0x1_0000 {
      assert v == 0x1_0000_0000 * q' + (0x1_0000 * r' + r);
    } else {
      assert v == 0x1_0000_0000_0000_0000 * q' + (0x1_0000_0000 * r' + r);
    }
  }

  lemma DoubleRoundTrip(v: int)
    ensures FromDouble(Double(v)) == v % 0x1_0000_0000
  {
    var d := Double(v);
    assert d[2..] == Word(v / 0x1_0000);
    assert FromWord(d) == FromWord(Word(v));
    WordRoundTrip(v);
    WordRoundTrip(v / 0x1_0000);
    HighPart(v, 0x1_0000);
  }

  lemma QuadRoundTrip(v: int)
    ensures FromQuad(Quad(v)) == v % 0x1_0000_0000_0000_0000
  {
    var q := Quad(v);
    assert q[4..] == Double(v / 0x1_0000_0000);
    PrefixDouble(Double(v), Double(v / 0x1_0000_0000));
    DoubleRoundTrip(v);
    DoubleRoundTrip(v / 0x1_0000_0000);
    HighPart(v, 0x1_0000_0000);
  }

  lemma PrefixDouble(a: seq<byte>, b: seq<byte>)
    requires |a| == 4
    ensures FromDouble(a + b) == FromDouble(a)
  {
    assert (a + b)[2..][0] == a[2..][0] && (a + b)[2..][1] == a[2..][1];
  }
}
