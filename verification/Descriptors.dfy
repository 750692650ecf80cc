/** The descriptors of the emitted casts, as a reader of messages understands them. */
module Descriptors {
  import opened Wrappers
  import opened Bytes
  import opened Blr
  import opened Tree
  import M = MessageLayout

  /** A value's type in memory. */
  function TypeOf(d: Descriptor): Option<M.Dtype> {
    match d
    case TextDesc(_, _) => Some(M.Text)
    case VaryingDesc(_, _) => Some(M.Varying)
    case ShortDesc(_) => Some(M.Short)
    case LongDesc(_) => Some(M.Long)
    case QuadDesc(_) => Some(M.Quad)
    case Int64Desc(_) => Some(M.Int64)
    case RealDesc => Some(M.Real)
    case DoubleDesc => Some(M.DoubleP)
    case DateDesc => Some(M.SqlDate)
    case TimeDesc => Some(M.SqlTime)
    case TimestampDesc => Some(M.Timestamp)
    case BlobDesc => Some(M.Quad)
    case ArrayDesc => Some(M.Quad)
    case OtherDesc => None
  }

  /** Its length there, a varying string's count included. */
  function LengthOf(d: Descriptor): nat {
    match d
    case TextDesc(_, length) => length
    case VaryingDesc(_, length) => length
    case ShortDesc(_) => 2
    case LongDesc(_) => 4
    case RealDesc => 4
    case DateDesc => 4
    case TimeDesc => 4
    case _ => 8
  }

  function ScaleOf(d: Descriptor): int {
    match d
    case ShortDesc(s) => s
    case LongDesc(s) => s
    case QuadDesc(s) => s
    case Int64Desc(s) => s
    case _ => 0
  }

  /** A string's text type, which version 3 databases are not told. */
  function CharsetOf(cfg: Config, d: Descriptor): Option<word> {
    if cfg.v3 then None
    else
      match d
      case TextDesc(ttype, _) => Some(ttype)
      case VaryingDesc(ttype, _) => Some(ttype)
      case _ => None
  }

  lemma WordBefore(v: word, rest: seq<byte>, plus: nat)
    ensures M.ReadLength(Word(v) + rest, plus) == Some(M.Parsed((v + plus) % 0x1_0000, rest))
  {
    var s := Word(v) + rest;
    assert s[0] == Word(v)[0] && s[1] == Word(v)[1] && s[2..] == rest;
    WordRoundTrip(v);
    assert FromWord(s) == FromWord(Word(v));
  }

  /** The strings: one length, behind a text type or not. */
  lemma StringReads(named: bool, ttype: word, n: word, dtype: M.Dtype, rest: seq<byte>)
    ensures M.ReadString((if named then Word(ttype) else []) + (Word(n) + rest), dtype, named)
            == Some(M.Parsed(M.Desc(dtype, (n + if dtype == M.Varying then 2 else 0) % 0x1_0000, 0,
                                    if named then Some(ttype) else None), rest))
  {
    hide Word, M.ReadLength;
    var plus := if dtype == M.Varying then 2 else 0;
    WordBefore(n, rest, plus);
    WordBefore(ttype, Word(n) + rest, 0);
    assert [] + (Word(n) + rest) == Word(n) + rest;
  }

  /** A reader's finding is the node's own type, length, scale and text type, with nothing left over. */
  predicate Agrees(cfg: Config, d: Descriptor, r: Option<M.Parsed<M.Desc>>, rest: seq<byte>) {
    && r.Some? && r.value.rest == rest
    && var got := r.value.value;
       && Some(got.dtype) == TypeOf(d) && got.length == LengthOf(d)
       && Signed(got.scale, 0x100) == ScaleOf(d) && got.charset == CharsetOf(cfg, d)
  }

  lemma TextReads(cfg: Config, d: Descriptor, rest: seq<byte>)
    requires d.TextDesc? && DescriptorType(cfg, d).Some?
    ensures Agrees(cfg, d, M.ReadDesc(EncodeDtype(DescriptorType(cfg, d).value) + rest), rest)
  {
    hide Word, M.ReadString;
    var s := EncodeDtype(DescriptorType(cfg, d).value) + rest;
    StringReads(!cfg.v3, d.ttype, d.length, M.Text, rest);
    assert s[1..] == (if cfg.v3 then [] else Word(d.ttype)) + (Word(d.length) + rest);
  }

  lemma VaryingReads(cfg: Config, d: Descriptor, rest: seq<byte>)
    requires d.VaryingDesc? && DescriptorType(cfg, d).Some?
    ensures Agrees(cfg, d, M.ReadDesc(EncodeDtype(DescriptorType(cfg, d).value) + rest), rest)
  {
    hide Word, M.ReadString;
    var n: word := (d.length - 2) % 0x1_0000;
    var s := EncodeDtype(DescriptorType(cfg, d).value) + rest;
    StringReads(!cfg.v3, d.ttype, n, M.Varying, rest);
    assert s[1..] == (if cfg.v3 then [] else Word(d.ttype)) + (Word(n) + rest);
  }

  predicate IsScaled(d: Descriptor) {
    d.ShortDesc? || d.LongDesc? || d.QuadDesc? || d.Int64Desc? || d.BlobDesc? || d.ArrayDesc?
  }

  lemma ScaledReads(cfg: Config, d: Descriptor, rest: seq<byte>)
    requires IsScaled(d) && Scale(ScaleOf(d)) && DescriptorType(cfg, d).Some?
    ensures Agrees(cfg, d, M.ReadDesc(EncodeDtype(DescriptorType(cfg, d).value) + rest), rest)
  {
    hide Word, M.ReadString;
    var s := EncodeDtype(DescriptorType(cfg, d).value) + rest;
    assert s[1..] == [Low8(ScaleOf(d))] + rest;
    assert s[1..][1..] == rest;
  }

  lemma PlainReads(cfg: Config, d: Descriptor, rest: seq<byte>)
    requires !d.TextDesc? && !d.VaryingDesc? && !IsScaled(d) && DescriptorType(cfg, d).Some?
    ensures Agrees(cfg, d, M.ReadDesc(EncodeDtype(DescriptorType(cfg, d).value) + rest), rest)
  {
    hide Word, M.ReadString, M.ReadScaled;
    var s := EncodeDtype(DescriptorType(cfg, d).value) + rest;
    assert s[1..] == rest;
  }

  /** Every descriptor the compiler emits reads back, by the reader of messages, as the node's own. */
  lemma DescriptorReads(cfg: Config, d: Descriptor, rest: seq<byte>)
    requires Scale(ScaleOf(d)) && TypeOf(d).Some?
    ensures DescriptorType(cfg, d).Some?
    ensures Agrees(cfg, d, M.ReadDesc(EncodeDtype(DescriptorType(cfg, d).value) + rest), rest)
  {
    DescriptorExists(cfg, d);
    hide Agrees, EncodeDtype, DescriptorType, M.ReadDesc;
    if d.TextDesc? {
      TextReads(cfg, d, rest);
    } else if d.VaryingDesc? {
      VaryingReads(cfg, d, rest);
    } else if IsScaled(d) {
      ScaledReads(cfg, d, rest);
    } else {
      PlainReads(cfg, d, rest);
    }
  }

  /** And there is one unless the type is none of these. */
  lemma DescriptorExists(cfg: Config, d: Descriptor)
    ensures DescriptorType(cfg, d).Some? <==> TypeOf(d).Some?
  {
  }
}
