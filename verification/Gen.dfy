/**
 The code generator itself: recursive procedures that append bytes to the request.  Each
 is proved to append exactly the encoding of the lowered tree, or to stop with an error
 exactly when the tree has no lowering.
 */
module Gen {
  import opened Wrappers
  import opened Bytes
  import opened Streams
  import opened BlrVerbs
  import opened Blr
  import opened Tree
  import opened Lowering
  import opened Statements
  import opened Request

  // ----- the bytes of the loops, grown at the end as the loops grow them

  function TestBytes(es: seq<Expr>): seq<byte> {
    if es == [] then []
    else TestBytes(es[..|es| - 1]) + [BLR_VALUE_IF, BLR_MISSING] + Encode(es[|es| - 1])
  }

  function ReversedBytes(es: seq<Expr>): seq<byte> {
    if es == [] then [] else ReversedBytes(es[1..]) + Encode(es[0])
  }

  function BranchBytes(cs: seq<Expr>, rs: seq<Expr>): seq<byte>
    requires |cs| == |rs|
  {
    if cs == [] then []
    else
      var n := |cs| - 1;
      BranchBytes(cs[..n], rs[..n]) + [BLR_VALUE_IF] + Encode(cs[n]) + Encode(rs[n])
  }

  lemma Grouped(a: seq<byte>, x: seq<byte>, y: seq<byte>, z: seq<byte>)
    ensures a + x + y + z == a + (x + y + z)
    ensures a + x + y + z == a + x + (y + z)
  {
  }

  lemma LastTest(es: seq<Expr>)
    requires es != []
    ensures var n := |es| - 1;
            TestBytes(es) == TestBytes(es[..n]) + [BLR_VALUE_IF, BLR_MISSING] + Encode(es[n])
  {
    hide Encode;
  }

  lemma LastBranch(cs: seq<Expr>, rs: seq<Expr>)
    requires |cs| == |rs| > 0
    ensures var n := |cs| - 1;
            BranchBytes(cs, rs)
            == BranchBytes(cs[..n], rs[..n]) + [BLR_VALUE_IF] + Encode(cs[n]) + Encode(rs[n])
  {
    hide Encode;
  }

  lemma {:induction false} TestBytesHead(es: seq<Expr>)
    requires es != []
    ensures TestBytes(es) == [BLR_VALUE_IF, BLR_MISSING] + Encode(es[0]) + TestBytes(es[1..])
  {
    var n := |es| - 1;
    LastTest(es);
    if n == 0 {
      assert es[..0] == [] && es[1..] == [];
    } else {
      LastTest(es[1..]);
      hide TestBytes, Encode;
      TestBytesHead(es[..n]);
      var head := [BLR_VALUE_IF, BLR_MISSING] + Encode(es[0]);
      assert es[..n][1..] == es[1..][..n - 1];
      Grouped(head, TestBytes(es[1..n]), [BLR_VALUE_IF, BLR_MISSING], Encode(es[n]));
      assert es[1..][..n - 1] == es[1..n];
    }
  }

  lemma {:induction false} BranchBytesHead(cs: seq<Expr>, rs: seq<Expr>)
    requires |cs| == |rs| > 0
    ensures BranchBytes(cs, rs)
            == [BLR_VALUE_IF] + Encode(cs[0]) + Encode(rs[0]) + BranchBytes(cs[1..], rs[1..])
  {
    var n := |cs| - 1;
    LastBranch(cs, rs);
    if n == 0 {
      assert cs[..0] == [] && cs[1..] == [];
    } else {
      hide BranchBytes, Encode;
      BranchBytesHead(cs[..n], rs[..n]);
      SplitBranches(cs, rs);
    }
  }

  lemma SplitBranches(cs: seq<Expr>, rs: seq<Expr>)
    requires |cs| == |rs| > 1
    requires var n := |cs| - 1;
             BranchBytes(cs[..n], rs[..n]) == [BLR_VALUE_IF] + Encode(cs[0]) + Encode(rs[0])
                                              + BranchBytes(cs[..n][1..], rs[..n][1..])
    ensures var n := |cs| - 1;
            BranchBytes(cs[..n], rs[..n]) + [BLR_VALUE_IF] + Encode(cs[n]) + Encode(rs[n])
            == [BLR_VALUE_IF] + Encode(cs[0]) + Encode(rs[0]) + BranchBytes(cs[1..], rs[1..])
  {
    var n := |cs| - 1;
    var tc, tr := cs[1..], rs[1..];
    LastBranch(tc, tr);
    hide BranchBytes, Encode;
    assert tc[..n - 1] == cs[..n][1..] && tr[..n - 1] == rs[..n][1..];
    assert tc[n - 1] == cs[n] && tr[n - 1] == rs[n];
    MovedOut([BLR_VALUE_IF] + Encode(cs[0]) + Encode(rs[0]), BranchBytes(tc[..n - 1], tr[..n - 1]),
             [BLR_VALUE_IF], Encode(cs[n]), Encode(rs[n]));
  }

  lemma MovedOut(a: seq<byte>, b: seq<byte>, x: seq<byte>, y: seq<byte>, z: seq<byte>)
    ensures a + b + x + y + z == a + (b + x + y + z)
  {
    Grouped(a + b, x, y, z);
    Grouped(b, x, y, z);
  }

  lemma EncodeOne(verb: byte, a: Expr)
    ensures Encode(Op(verb, [a])) == [verb] + Encode(a)
  {
    assert [a][1..] == [];
    assert EncodeAll([a]) == Encode(a) + EncodeAll([]);
  }

  lemma EncodeTwo(verb: byte, a: Expr, b: Expr)
    ensures Encode(Op(verb, [a, b])) == [verb] + Encode(a) + Encode(b)
  {
    assert [a, b][1..] == [b] && [b][1..] == [];
    assert EncodeAll([b]) == Encode(b) + EncodeAll([]);
    assert EncodeAll([a, b]) == Encode(a) + EncodeAll([b]);
  }

  lemma EncodeThree(verb: byte, a: Expr, b: Expr, c: Expr)
    ensures Encode(Op(verb, [a, b, c])) == [verb] + Encode(a) + Encode(b) + Encode(c)
  {
    assert [a, b, c][1..] == [b, c] && [b, c][1..] == [c] && [c][1..] == [];
    assert EncodeAll([c]) == Encode(c) + EncodeAll([]);
    assert EncodeAll([b, c]) == Encode(b) + EncodeAll([c]);
    assert EncodeAll([a, b, c]) == Encode(a) + EncodeAll([b, c]);
    hide Encode;
    EmptyPlus(Encode(c));
    Assoc([verb], Encode(a), Encode(b) + Encode(c));
    Assoc([verb] + Encode(a), Encode(b), Encode(c));
  }

  /** All tests in order, then all results backwards, is the nest of conditionals. */
  lemma {:induction false} CoalesceBytes(ts: seq<Expr>, rs: seq<Expr>)
    requires |rs| == |ts| + 1
    ensures Encode(CoalesceChain(ts, rs)) == TestBytes(ts) + ReversedBytes(rs)
  {
    hide Encode;
    assert ReversedBytes(rs) == ReversedBytes(rs[1..]) + Encode(rs[0]);
    if ts == [] {
      assert rs[1..] == [];
    } else {
      CoalesceBytes(ts[1..], rs[1..]);
      EncodeOne(BLR_MISSING, ts[0]);
      EncodeThree(BLR_VALUE_IF, Op(BLR_MISSING, [ts[0]]), CoalesceChain(ts[1..], rs[1..]), rs[0]);
      TestBytesHead(ts);
    }
  }

  lemma {:induction false} CaseBytes(cs: seq<Expr>, rs: seq<Expr>)
    requires |rs| == |cs| + 1
    ensures Encode(CaseChain(cs, rs)) == BranchBytes(cs, rs[..|cs|]) + Encode(rs[|cs|])
  {
    hide Encode;
    if cs != [] {
      CaseBytes(cs[1..], rs[1..]);
      EncodeThree(BLR_VALUE_IF, cs[0], rs[0], CaseChain(cs[1..], rs[1..]));
      BranchBytesHead(cs, rs[..|cs|]);
      assert rs[1..][..|cs| - 1] == rs[..|cs|][1..];
    }
  }

  lemma {:induction false} LowerAllPointwise(cfg: Config, ns: seq<Node>)
    requires ValidNodes(ns)
    ensures LowerAll(cfg, ns).Some? <==> forall i :: 0 <= i < |ns| ==> Lower(cfg, ns[i]).Some?
    ensures LowerAll(cfg, ns).Some? ==>
              forall i :: 0 <= i < |ns| ==> Lower(cfg, ns[i]) == Some(LowerAll(cfg, ns).value[i])
  {
    if ns != [] {
      LowerAllPointwise(cfg, ns[1..]);
      assert forall i :: 1 <= i < |ns| ==> ns[i] == ns[1..][i - 1];
    }
  }

  /** A list lowered element by element is the list's lowering. */
  lemma LoweredList(cfg: Config, ns: seq<Node>, es: seq<Expr>)
    requires ValidNodes(ns) && |es| == |ns|
    requires forall i :: 0 <= i < |ns| ==> Lower(cfg, ns[i]) == Some(es[i])
    ensures LowerAll(cfg, ns) == Some(es)
  {
    hide Lower;
    LowerAllPointwise(cfg, ns);
    assert forall i :: 0 <= i < |ns| ==> Lower(cfg, ns[i]).Some?;
    assert LowerAll(cfg, ns).value == es;
  }

  lemma RefusedElement(cfg: Config, ns: seq<Node>, i: nat)
    requires ValidNodes(ns) && i < |ns| && Lower(cfg, ns[i]).None?
    ensures LowerAll(cfg, ns).None?
  {
    hide Lower;
    LowerAllPointwise(cfg, ns);
  }

  // ----- one construct's lowering and encoding at a time

  lemma CoalesceParts(cfg: Config, n: Node)
    requires n.Coalesce? && ValidNode(n)
    ensures ValidNodes(n.tests) && ValidNodes(n.results) && |n.tests| == |n.results| > 0
    ensures var dtype := DescriptorType(cfg, n.desc);
            var ts := LowerAll(cfg, n.tests[..|n.tests| - 1]);
            var rs := LowerAll(cfg, n.results);
            && (Lower(cfg, n).Some? <==> dtype.Some? && ts.Some? && rs.Some?)
            && (Lower(cfg, n).Some? ==>
                  Encode(Lower(cfg, n).value)
                  == [BLR_CAST] + EncodeDtype(dtype.value) + TestBytes(ts.value) + ReversedBytes(rs.value))
  {
    if Lower(cfg, n).Some? {
      CoalesceBytes(LowerAll(cfg, n.tests[..|n.tests| - 1]).value, LowerAll(cfg, n.results).value);
    }
  }

  lemma {:induction false} LowerAllLast(cfg: Config, ns: seq<Node>)
    requires ValidNodes(ns) && ns != []
    ensures var n := |ns| - 1;
            && (LowerAll(cfg, ns).Some? <==> LowerAll(cfg, ns[..n]).Some? && Lower(cfg, ns[n]).Some?)
            && (LowerAll(cfg, ns).Some? ==>
                  LowerAll(cfg, ns).value == LowerAll(cfg, ns[..n]).value + [Lower(cfg, ns[n]).value])
  {
    hide Lower, ValidNode;
    var n := |ns| - 1;
    if n > 0 {
      assert ns[..n][0] == ns[0] && ns[..n][1..] == ns[1..][..n - 1] && ns[1..][n - 1] == ns[n];
      LowerAllLast(cfg, ns[1..]);
    } else {
      assert ns[1..] == [] && ns[..0] == [];
    }
  }

  lemma SearchedCaseParts(cfg: Config, n: Node)
    requires n.SearchedCase? && ValidNode(n)
    ensures ValidNodes(n.conditions) && ValidNodes(n.results) && |n.results| == |n.conditions| + 1
    ensures var dtype := DescriptorType(cfg, n.desc);
            var cs := LowerAll(cfg, n.conditions);
            var rs := LowerAll(cfg, n.results[..|n.conditions|]);
            var last := Lower(cfg, n.results[|n.conditions|]);
            && (Lower(cfg, n).Some? <==> dtype.Some? && cs.Some? && rs.Some? && last.Some?)
            && (Lower(cfg, n).Some? ==>
                  Encode(Lower(cfg, n).value)
                  == [BLR_CAST] + EncodeDtype(dtype.value) + BranchBytes(cs.value, rs.value)
                     + Encode(last.value))
  {
    hide CaseChain, LowerAll, EncodeDtype, DescriptorType, Verb, LowerConstant;
    LowerAllLast(cfg, n.results);
    if Lower(cfg, n).Some? {
      CaseBytes(LowerAll(cfg, n.conditions).value, LowerAll(cfg, n.results).value);
    }
  }

  lemma SimpleCaseParts(cfg: Config, n: Node)
    requires n.SimpleCase? && ValidNode(n)
    ensures ValidNode(n.operand) && ValidNodes(n.whens) && ValidNodes(n.results)
    ensures |n.results| == |n.whens| + 1 > 1
    ensures var dtype := DescriptorType(cfg, n.desc);
            var o := Lower(cfg, n.operand);
            var ws := LowerAll(cfg, n.whens);
            var rs := LowerAll(cfg, n.results[..|n.whens|]);
            var last := Lower(cfg, n.results[|n.whens|]);
            && (Lower(cfg, n).Some? <==> dtype.Some? && o.Some? && ws.Some? && rs.Some? && last.Some?)
            && (Lower(cfg, n).Some? ==>
                  Encode(Lower(cfg, n).value)
                  == [BLR_CAST] + EncodeDtype(dtype.value)
                     + BranchBytes(EqualTests(o.value, ws.value), rs.value) + Encode(last.value))
  {
    hide EqualTests, CaseChain, LowerAll, EncodeDtype, DescriptorType, Verb, LowerConstant;
    LowerAllLast(cfg, n.results);
    if Lower(cfg, n).Some? {
      CaseBytes(EqualTests(Lower(cfg, n.operand).value, LowerAll(cfg, n.whens).value),
                LowerAll(cfg, n.results).value);
    }
  }

  lemma OperationParts(cfg: Config, n: Node)
    requires n.Operation? && ValidNode(n)
    ensures ValidNodes(n.args) && ValidArity(n.op, |n.args|)
    ensures Folds(n) ==> ValidNode(n.args[0]) && ValidConstant(n.args[0].constant)
                         && Lower(cfg, n) == LowerConstant(cfg, n.args[0].constant, true)
    ensures !Folds(n) ==>
              var es := LowerAll(cfg, n.args);
              && (Lower(cfg, n).Some? <==> es.Some?)
              && (es.Some? ==> Encode(Lower(cfg, n).value) == [Verb(n.op, |n.args|)] + EncodeAll(es.value))
  {
    if Folds(n) {
      assert ValidNode(n.args[0]);
    }
  }

  lemma ElementParts(cfg: Config, n: Node)
    requires n.ElementRef? && ValidNode(n)
    ensures ValidNodes(n.indices) && |n.indices| < 0x100
    ensures var subs := LowerAll(cfg, n.indices);
            && (Lower(cfg, n).Some? <==> !Refused(cfg, n.newType) && subs.Some?)
            && (Lower(cfg, n).Some? ==>
                  Encode(Lower(cfg, n).value)
                  == [BLR_INDEX] + Encode(FieldExpr(cfg, n.context, n.id, n.fieldName))
                     + [|n.indices|] + EncodeAll(subs.value))
  {
  }

  // ----- the generator

  method GenText(r: DsqlRequest, verb: byte, length: word)
    requires r.Valid()
    modifies r, r.blrString
    ensures r.Appended([verb] + Word(length))
  {
    hide Word;
    r.Stuff(verb);
    r.StuffWord(length);
  }

  method GenText2(r: DsqlRequest, verb: byte, ttype: word, length: word)
    requires r.Valid()
    modifies r, r.blrString
    ensures r.Appended([verb] + Word(ttype) + Word(length))
  {
    hide Word;
    r.Stuff(verb);
    r.StuffWord(ttype);
    r.StuffWord(length);
  }

  method GenPair(r: DsqlRequest, verb: byte, operand: byte)
    requires r.Valid()
    modifies r, r.blrString
    ensures r.Appended([verb, operand])
  {
    r.Stuff(verb);
    r.Stuff(operand);
  }

  method GenDescriptor(r: DsqlRequest, d: Dtype)
    requires r.Valid()
    modifies r, r.blrString
    ensures r.Appended(EncodeDtype(d))
  {
    hide Word;
    match d
    case Text(length) => GenText(r, BLR_TEXT, length);
    case Text2(ttype, length) => GenText2(r, BLR_TEXT2, ttype, length);
    case Varying(length) => GenText(r, BLR_VARYING, length);
    case Varying2(ttype, length) => GenText2(r, BLR_VARYING2, ttype, length);
    case Short(scale) => GenPair(r, BLR_SHORT, scale);
    case Long(scale) => GenPair(r, BLR_LONG, scale);
    case Quadword(scale) => GenPair(r, BLR_QUAD, scale);
    case Int64(scale) => GenPair(r, BLR_INT64, scale);
    case Float => r.Stuff(BLR_FLOAT);
    case DoublePrecision => r.Stuff(BLR_DOUBLE);
    case SqlDate => r.Stuff(BLR_SQL_DATE);
    case SqlTime => r.Stuff(BLR_SQL_TIME);
    case Timestamp => r.Stuff(BLR_TIMESTAMP);
  }

  method GenLong(r: DsqlRequest, v: int)
    requires r.Valid()
    modifies r, r.blrString
    ensures r.Appended(Double(v))
  {
    r.StuffWord(v);
    r.StuffWord(v / 0x1_0000);
  }

  /** A literal without its verb. */
  function LiteralTail(e: Expr): seq<byte>
    requires e.Literal?
  {
    EncodeDtype(e.dtype) + (if LiteralSize(e.dtype).None? then Word(|e.data|) else []) + e.data
  }

  lemma LiteralBytes(e: Expr)
    requires e.Literal?
    ensures Encode(e) == [BLR_LITERAL] + LiteralTail(e)
  {
  }

  method GenShortLiteral(r: DsqlRequest, s: int, v: int)
    requires r.Valid()
    modifies r, r.blrString
    ensures r.Appended(LiteralTail(Literal(Short(Low8(s)), Word(v))))
  {
    hide EncodeDtype, Word;
    GenDescriptor(r, Short(Low8(s)));
    r.StuffWord(v);
  }

  method GenLongLiteral(r: DsqlRequest, d: Dtype, v: int)
    requires r.Valid() && LiteralSize(d) == Some(4)
    modifies r, r.blrString
    ensures r.Appended(LiteralTail(Literal(d, Double(v))))
  {
    hide EncodeDtype, Double;
    GenDescriptor(r, d);
    GenLong(r, v);
  }

  method GenPairLiteral(r: DsqlRequest, d: Dtype, v: int, w: int)
    requires r.Valid() && LiteralSize(d) == Some(8)
    modifies r, r.blrString
    ensures r.Appended(LiteralTail(Literal(d, Double(v) + Double(w))))
  {
    hide EncodeDtype, Double;
    GenDescriptor(r, d);
    GenLong(r, v);
    GenLong(r, w);
  }

  method GenTextLiteral(r: DsqlRequest, d: Dtype, text: seq<byte>)
    requires r.Valid() && LiteralSize(d).Some?
    modifies r, r.blrString
    ensures r.Appended(LiteralTail(Literal(d, text)))
  {
    hide EncodeDtype;
    GenDescriptor(r, d);
    r.StuffBytes(text);
  }

  /** A 64-bit value that fits in 32 bits is written as a long. */
  method GenInt64(r: DsqlRequest, w: int, s: int)
    requires r.Valid()
    modifies r, r.blrString
    ensures r.Appended(LiteralTail(if MIN_SLONG <= w <= MAX_SLONG then Literal(Long(Low8(s)), Double(w))
                                   else Literal(Int64(Low8(s)), Quad(w))))
  {
    hide Double;
    if MIN_SLONG <= w <= MAX_SLONG {
      GenPair(r, BLR_LONG, Low8(s));
      GenLong(r, w);
    } else {
      GenPair(r, BLR_INT64, Low8(s));
      GenLong(r, w);
      GenLong(r, w / 0x1_0000_0000);
    }
  }

  /** The digits behind a length that counts the sign. */
  method GenDigits(r: DsqlRequest, digits: seq<byte>, negate: bool)
    requires r.Valid() && |digits| <= 0x7F
    modifies r, r.blrString
    ensures r.Appended(Word(if negate then |digits| + 1 else |digits|) + (if negate then ['-' as int] else []) + digits)
  {
    hide Word;
    r.StuffWord(if negate then |digits| + 1 else |digits|);
    if negate {
      r.Stuff('-' as int);
    }
    r.StuffBytes(digits);
  }

  /** An approximate literal travels as its digits. */
  method GenDouble(r: DsqlRequest, cfg: Config, ttype: word, digits: seq<byte>, negate: bool)
    requires r.Valid() && |digits| <= 0x7F
    modifies r, r.blrString
    ensures r.Appended(LiteralTail(LowerConstant(cfg, DoubleConst(ttype, digits), negate).value))
  {
    hide EncodeDtype, Word;
    if cfg.v3 {
      GenDescriptor(r, Text(|digits|));
      r.StuffBytes(digits);
    } else {
      GenDescriptor(r, DoublePrecision);
      GenDigits(r, digits, negate);
    }
  }

  /** A constant that negation may reach. */
  method GenNumber(r: DsqlRequest, cfg: Config, c: Constant, negate: bool) returns (ok: bool)
    requires r.Valid() && ValidConstant(c) && (c.ShortConst? || c.LongConst? || c.Int64Const? || c.DoubleConst?)
    modifies r, r.blrString
    ensures ok <==> LowerConstant(cfg, c, negate).Some?
    ensures ok ==> r.Appended(LiteralTail(LowerConstant(cfg, c, negate).value))
    ensures !ok ==> r.Abandoned()
  {
    hide LiteralTail, Word, Double, Quad;
    ok := true;
    match c {
      case ShortConst(v, s) => GenShortLiteral(r, s, if negate then -v else v);
      case LongConst(v, s) => GenLongLiteral(r, Long(Low8(s)), if negate then -v else v);
      case Int64Const(v, s) =>
        ok := negate || v != MIN_SINT64;
        if ok {
          GenInt64(r, if negate then Wrap64(-v) else v, s);
        }
      case DoubleConst(ttype, digits) => GenDouble(r, cfg, ttype, digits, negate);
    }
  }

  method GenOther(r: DsqlRequest, cfg: Config, c: Constant, negate: bool)
    requires r.Valid() && ValidConstant(c) && !c.ShortConst? && !c.LongConst? && !c.Int64Const? && !c.DoubleConst?
    modifies r, r.blrString
    ensures LowerConstant(cfg, c, negate).Some?
    ensures r.Appended(LiteralTail(LowerConstant(cfg, c, negate).value))
  {
    hide LiteralTail, Word, Double, Quad;
    match c {
      case TextConst(ttype, text) =>
        GenTextLiteral(r, if cfg.v3 then Text(|text|) else Text2(ttype, |text|), text);
      case DateConst(d) => GenLongLiteral(r, SqlDate, d);
      case TimeConst(t) => GenLongLiteral(r, SqlTime, t);
      case TimestampConst(d, t) => GenPairLiteral(r, Timestamp, d, t);
      case QuadConst(s, low, high) => GenPairLiteral(r, Quadword(Low8(s)), low, high);
      case BlobConst(low, high) => GenPairLiteral(r, Quadword(0), low, high);
    }
  }

  method GenConstant(r: DsqlRequest, cfg: Config, c: Constant, negate: bool) returns (ok: bool)
    requires r.Valid() && ValidConstant(c)
    modifies r, r.blrString
    ensures ok <==> LowerConstant(cfg, c, negate).Some?
    ensures ok ==> r.Appended(Encode(LowerConstant(cfg, c, negate).value))
    ensures !ok ==> r.Abandoned()
  {
    LiteralOf(cfg, c, negate);
    hide Encode, LiteralTail, LowerConstant;
    ghost var before, e := r.contents, LowerConstant(cfg, c, negate);
    r.Stuff(BLR_LITERAL);
    ok := true;
    if c.ShortConst? || c.LongConst? || c.Int64Const? || c.DoubleConst? {
      ok := GenNumber(r, cfg, c, negate);
    } else {
      GenOther(r, cfg, c, negate);
    }
    if ok {
      Assoc(before, [BLR_LITERAL], LiteralTail(e.value));
    }
  }

  lemma LiteralOf(cfg: Config, c: Constant, negate: bool)
    requires ValidConstant(c)
    ensures var e := LowerConstant(cfg, c, negate);
            e.Some? ==> Encode(e.value) == [BLR_LITERAL] + LiteralTail(e.value)
  {
    hide Encode, LiteralTail, WellFormed, Word, Double, Quad;
    if LowerConstant(cfg, c, negate).Some? {
      LiteralBytes(LowerConstant(cfg, c, negate).value);
    }
  }

  method GenField(r: DsqlRequest, cfg: Config, context: byte, id: word, n: name)
    requires r.Valid()
    modifies r, r.blrString
    ensures r.Appended(Encode(FieldExpr(cfg, context, id, n)))
  {
    if cfg.ids {
      r.Stuff(BLR_FID);
      r.Stuff(context);
      r.StuffWord(id);
    } else {
      r.Stuff(BLR_FIELD);
      r.Stuff(context);
      r.StuffCString(n);
    }
  }

  method GenParameter(r: DsqlRequest, message: byte, item: word, indicator: Option<word>)
    requires r.Valid()
    modifies r, r.blrString
    ensures r.Appended(Encode(if indicator.Some? then Parameter2(message, item, indicator.value)
                              else Parameter(message, item)))
  {
    if indicator.Some? {
      r.Stuff(BLR_PARAMETER2);
      r.Stuff(message);
      r.StuffWord(item);
      r.StuffWord(indicator.value);
    } else {
      r.Stuff(BLR_PARAMETER);
      r.Stuff(message);
      r.StuffWord(item);
    }
  }

  /** The operands of a verb, in order. */
  method GenAll(r: DsqlRequest, cfg: Config, ns: seq<Node>) returns (ok: bool)
    requires r.Valid() && ValidNodes(ns)
    modifies r, r.blrString
    ensures ok <==> LowerAll(cfg, ns).Some?
    ensures ok ==> r.Appended(EncodeAll(LowerAll(cfg, ns).value))
    ensures !ok ==> r.Abandoned()
    decreases ns, 0
  {
    hide Lower, Encode, ValidNode;
    ghost var es: seq<Expr> := [];
    var i := 0;
    while i < |ns|
      invariant i <= |ns| && |es| == i
      invariant forall k :: 0 <= k < i ==> Lower(cfg, ns[k]) == Some(es[k])
      invariant r.Appended(EncodeAll(es))
    {
      ok := GenExpr(r, cfg, ns[i]);
      if !ok {
        RefusedElement(cfg, ns, i);
        return;
      }
      ghost var e := Lower(cfg, ns[i]).value;
      EncodeAllAppend(es, e);
      es := es + [e];
      i := i + 1;
    }
    LoweredList(cfg, ns, es);
    ok := true;
  }

  lemma NoTests()
    ensures TestBytes([]) == []
  {
  }

  lemma TestBytesGrow(es: seq<Expr>, e: Expr)
    ensures TestBytes(es + [e]) == TestBytes(es) + [BLR_VALUE_IF, BLR_MISSING] + Encode(e)
  {
    LastTest(es + [e]);
    assert (es + [e])[..|es|] == es;
  }

  /** The first loop of COALESCE: IF t IS NULL for each test. */
  method GenTests(r: DsqlRequest, cfg: Config, ns: seq<Node>) returns (ok: bool)
    requires r.Valid() && ValidNodes(ns)
    modifies r, r.blrString
    ensures ok <==> LowerAll(cfg, ns).Some?
    ensures ok ==> r.Appended(TestBytes(LowerAll(cfg, ns).value))
    ensures !ok ==> r.Abandoned()
    decreases ns, 0
  {
    hide Lower, Encode, ValidNode, TestBytes;
    ghost var es: seq<Expr> := [];
    NoTests();
    var i := 0;
    while i < |ns|
      invariant i <= |ns| && |es| == i
      invariant forall k :: 0 <= k < i ==> Lower(cfg, ns[k]) == Some(es[k])
      invariant r.Appended(TestBytes(es))
    {
      GenPair(r, BLR_VALUE_IF, BLR_MISSING);
      ok := GenExpr(r, cfg, ns[i]);
      if !ok {
        RefusedElement(cfg, ns, i);
        return;
      }
      ghost var e := Lower(cfg, ns[i]).value;
      TestBytesGrow(es, e);
      es := es + [e];
      i := i + 1;
    }
    LoweredList(cfg, ns, es);
    ok := true;
  }

  /** The second loop of COALESCE: the results, last to first. */
  method GenReversed(r: DsqlRequest, cfg: Config, ns: seq<Node>) returns (ok: bool)
    requires r.Valid() && ValidNodes(ns)
    modifies r, r.blrString
    ensures ok <==> LowerAll(cfg, ns).Some?
    ensures ok ==> r.Appended(ReversedBytes(LowerAll(cfg, ns).value))
    ensures !ok ==> r.Abandoned()
    decreases ns, 0
  {
    hide Lower, Encode, ValidNode;
    ghost var es: seq<Expr> := [];
    var i := |ns|;
    while i > 0
      invariant 0 <= i <= |ns| && |es| == |ns| - i
      invariant forall k :: i <= k < |ns| ==> Lower(cfg, ns[k]) == Some(es[k - i])
      invariant r.Appended(ReversedBytes(es))
    {
      i := i - 1;
      ok := GenExpr(r, cfg, ns[i]);
      if !ok {
        RefusedElement(cfg, ns, i);
        return;
      }
      ghost var e := Lower(cfg, ns[i]).value;
      assert ([e] + es)[1..] == es;
      es := [e] + es;
    }
    LoweredList(cfg, ns, es);
    ok := true;
  }

  method GenCoalesce(r: DsqlRequest, cfg: Config, n: Node) returns (ok: bool)
    requires r.Valid() && ValidNode(n) && n.Coalesce?
    modifies r, r.blrString
    ensures ok <==> Lower(cfg, n).Some?
    ensures ok ==> r.Appended(Encode(Lower(cfg, n).value))
    ensures !ok ==> r.Abandoned()
    decreases n, 2
  {
    hide Lower, Encode, EncodeDtype, LowerConstant, WellFormed, DescriptorType, ValidNode, EncodeAll,
         CaseChain, CoalesceChain, EqualTests, Verb, Numeric;
    CoalesceParts(cfg, n);
    r.Stuff(BLR_CAST);
    var dtype := DescriptorType(cfg, n.desc);
    if dtype.None? {
      return false;
    }
    GenDescriptor(r, dtype.value);
    var tested := n.tests[..|n.tests| - 1];
    ok := GenTests(r, cfg, tested);
    if ok {
      ok := GenReversed(r, cfg, n.results);
    }
  }

  /** One turn of a searched CASE: IF condition THEN result. */
  method GenBranch(r: DsqlRequest, cfg: Config, n: Node, i: nat) returns (ok: bool)
    requires r.Valid() && n.SearchedCase? && i < |n.conditions| < |n.results|
    requires ValidNode(n.conditions[i]) && ValidNode(n.results[i])
    modifies r, r.blrString
    ensures ok <==> Lower(cfg, n.conditions[i]).Some? && Lower(cfg, n.results[i]).Some?
    ensures ok ==> r.Appended([BLR_VALUE_IF] + Encode(Lower(cfg, n.conditions[i]).value)
                              + Encode(Lower(cfg, n.results[i]).value))
    ensures !ok ==> r.Abandoned()
    decreases n, 0
  {
    hide Lower, Encode, ValidNode;
    r.Stuff(BLR_VALUE_IF);
    ok := GenExpr(r, cfg, n.conditions[i]);
    if ok {
      ok := GenExpr(r, cfg, n.results[i]);
    }
  }

  method GenBranches(r: DsqlRequest, cfg: Config, n: Node) returns (ok: bool)
    requires r.Valid() && n.SearchedCase? && |n.results| == |n.conditions| + 1
    requires ValidNodes(n.conditions) && ValidNodes(n.results)
    modifies r, r.blrString
    ensures ok <==> LowerAll(cfg, n.conditions).Some? && LowerAll(cfg, n.results[..|n.conditions|]).Some?
    ensures ok ==> r.Appended(BranchBytes(LowerAll(cfg, n.conditions).value,
                                          LowerAll(cfg, n.results[..|n.conditions|]).value))
    ensures !ok ==> r.Abandoned()
    decreases n, 1
  {
    hide Lower, Encode, ValidNode;
    ghost var cs: seq<Expr>, rs: seq<Expr> := [], [];
    ghost var results := n.results[..|n.conditions|];
    var i := 0;
    while i < |n.conditions|
      invariant i <= |n.conditions| && |cs| == |rs| == i
      invariant forall k :: 0 <= k < i ==> Lower(cfg, n.conditions[k]) == Some(cs[k])
      invariant forall k :: 0 <= k < i ==> Lower(cfg, results[k]) == Some(rs[k])
      invariant r.Appended(BranchBytes(cs, rs))
    {
      ok := GenBranch(r, cfg, n, i);
      if !ok {
        if Lower(cfg, n.conditions[i]).None? {
          RefusedElement(cfg, n.conditions, i);
        } else {
          RefusedElement(cfg, results, i);
        }
        return;
      }
      ghost var c, e := Lower(cfg, n.conditions[i]).value, Lower(cfg, results[i]).value;
      BranchBytesGrow(cs, rs, c, e);
      cs, rs := cs + [c], rs + [e];
      i := i + 1;
    }
    LoweredList(cfg, n.conditions, cs);
    LoweredList(cfg, results, rs);
    ok := true;
  }

  method GenSearchedCase(r: DsqlRequest, cfg: Config, n: Node) returns (ok: bool)
    requires r.Valid() && ValidNode(n) && n.SearchedCase?
    modifies r, r.blrString
    ensures ok <==> Lower(cfg, n).Some?
    ensures ok ==> r.Appended(Encode(Lower(cfg, n).value))
    ensures !ok ==> r.Abandoned()
    decreases n, 2
  {
    hide Lower, Encode, EncodeDtype, LowerConstant, WellFormed, DescriptorType, ValidNode, EncodeAll,
         BranchBytes, LowerAll, CaseChain, CoalesceChain, EqualTests, Verb, Numeric;
    SearchedCaseParts(cfg, n);
    r.Stuff(BLR_CAST);
    var dtype := DescriptorType(cfg, n.desc);
    if dtype.None? {
      return false;
    }
    GenDescriptor(r, dtype.value);
    assert r.Appended([BLR_CAST] + EncodeDtype(dtype.value));
    ok := GenBranches(r, cfg, n);
    if ok {
      ok := GenExpr(r, cfg, n.results[|n.conditions|]);
    }
  }

  lemma BranchBytesGrow(cs: seq<Expr>, rs: seq<Expr>, c: Expr, e: Expr)
    requires |cs| == |rs|
    ensures BranchBytes(cs + [c], rs + [e])
            == BranchBytes(cs, rs) + ([BLR_VALUE_IF] + Encode(c) + Encode(e))
  {
    hide Encode, BranchBytes;
    var cs', rs' := cs + [c], rs + [e];
    assert cs'[..|cs|] == cs && rs'[..|cs|] == rs;
    LastBranch(cs', rs');
    Grouped(BranchBytes(cs, rs), [BLR_VALUE_IF], Encode(c), Encode(e));
  }

  lemma EqualTestsAppend(o: Expr, ws: seq<Expr>, w: Expr)
    ensures EqualTests(o, ws + [w]) == EqualTests(o, ws) + [Op(BLR_EQL, [o, w])]
    ensures ws == [] ==> EqualTests(o, ws) == []
  {
    if ws == [] {
      assert ws + [w] == [w] && [w][1..] == [];
      assert EqualTests(o, [w]) == [Op(BLR_EQL, [o, w])] + EqualTests(o, []);
    } else {
      assert (ws + [w])[1..] == ws[1..] + [w];
      EqualTestsAppend(o, ws[1..], w);
    }
  }

  /** The comparison of one WHEN value with the operand. */
  method GenEqual(r: DsqlRequest, cfg: Config, n: Node, i: nat) returns (ok: bool)
    requires r.Valid() && n.SimpleCase? && i < |n.whens|
    requires ValidNode(n.operand) && ValidNode(n.whens[i])
    modifies r, r.blrString
    ensures ok <==> Lower(cfg, n.operand).Some? && Lower(cfg, n.whens[i]).Some?
    ensures ok ==> r.Appended(Encode(Op(BLR_EQL, [Lower(cfg, n.operand).value, Lower(cfg, n.whens[i]).value])))
    ensures !ok ==> r.Abandoned()
    decreases n, 0
  {
    hide Lower, Encode, ValidNode;
    r.Stuff(BLR_EQL);
    ok := GenExpr(r, cfg, n.operand);
    if ok {
      ok := GenExpr(r, cfg, n.whens[i]);
      if ok {
        EncodeTwo(BLR_EQL, Lower(cfg, n.operand).value, Lower(cfg, n.whens[i]).value);
      }
    }
  }

  /** One turn of a simple CASE: IF operand = value THEN result. */
  method GenMatch(r: DsqlRequest, cfg: Config, n: Node, i: nat) returns (ok: bool)
    requires r.Valid() && n.SimpleCase? && i < |n.whens| < |n.results|
    requires ValidNode(n.operand) && ValidNode(n.whens[i]) && ValidNode(n.results[i])
    modifies r, r.blrString
    ensures ok <==> Lower(cfg, n.operand).Some? && Lower(cfg, n.whens[i]).Some?
                    && Lower(cfg, n.results[i]).Some?
    ensures ok ==> r.Appended([BLR_VALUE_IF]
                              + Encode(Op(BLR_EQL, [Lower(cfg, n.operand).value, Lower(cfg, n.whens[i]).value]))
                              + Encode(Lower(cfg, n.results[i]).value))
    ensures !ok ==> r.Abandoned()
    decreases n, 1
  {
    hide Lower, Encode, ValidNode;
    r.Stuff(BLR_VALUE_IF);
    ok := GenEqual(r, cfg, n, i);
    if ok {
      ok := GenExpr(r, cfg, n.results[i]);
    }
  }

  method GenMatches(r: DsqlRequest, cfg: Config, n: Node) returns (ok: bool)
    requires r.Valid() && n.SimpleCase? && n.whens != [] && |n.results| == |n.whens| + 1
    requires ValidNode(n.operand) && ValidNodes(n.whens) && ValidNodes(n.results)
    modifies r, r.blrString
    ensures ok <==> Lower(cfg, n.operand).Some? && LowerAll(cfg, n.whens).Some?
                    && LowerAll(cfg, n.results[..|n.whens|]).Some?
    ensures ok ==> r.Appended(BranchBytes(EqualTests(Lower(cfg, n.operand).value, LowerAll(cfg, n.whens).value),
                                          LowerAll(cfg, n.results[..|n.whens|]).value))
    ensures !ok ==> r.Abandoned()
    decreases n, 2
  {
    hide Lower, Encode, ValidNode, EqualTests;
    ghost var o := Lower(cfg, n.operand);
    ghost var ws: seq<Expr>, rs: seq<Expr>, cs: seq<Expr> := [], [], [];
    ghost var results := n.results[..|n.whens|];
    var i := 0;
    while i < |n.whens|
      invariant i <= |n.whens| && |ws| == |rs| == |cs| == i
      invariant i > 0 ==> o.Some? && cs == EqualTests(o.value, ws)
      invariant forall k :: 0 <= k < i ==> Lower(cfg, n.whens[k]) == Some(ws[k])
      invariant forall k :: 0 <= k < i ==> Lower(cfg, results[k]) == Some(rs[k])
      invariant r.Appended(BranchBytes(cs, rs))
    {
      ok := GenMatch(r, cfg, n, i);
      if !ok {
        if Lower(cfg, n.whens[i]).None? {
          RefusedElement(cfg, n.whens, i);
        } else if Lower(cfg, results[i]).None? {
          RefusedElement(cfg, results, i);
        }
        return;
      }
      ghost var w, e := Lower(cfg, n.whens[i]).value, Lower(cfg, results[i]).value;
      EqualTestsAppend(o.value, ws, w);
      ghost var c := Op(BLR_EQL, [o.value, w]);
      BranchBytesGrow(cs, rs, c, e);
      ws, cs, rs := ws + [w], cs + [c], rs + [e];
      i := i + 1;
    }
    LoweredList(cfg, n.whens, ws);
    LoweredList(cfg, results, rs);
    ok := true;
  }

  method GenSimpleCase(r: DsqlRequest, cfg: Config, n: Node) returns (ok: bool)
    requires r.Valid() && ValidNode(n) && n.SimpleCase?
    modifies r, r.blrString
    ensures ok <==> Lower(cfg, n).Some?
    ensures ok ==> r.Appended(Encode(Lower(cfg, n).value))
    ensures !ok ==> r.Abandoned()
    decreases n, 3
  {
    hide Lower, Encode, EncodeDtype, LowerConstant, WellFormed, DescriptorType, ValidNode, EncodeAll,
         BranchBytes, LowerAll, CaseChain, CoalesceChain, EqualTests, Verb, Numeric;
    SimpleCaseParts(cfg, n);
    r.Stuff(BLR_CAST);
    var dtype := DescriptorType(cfg, n.desc);
    if dtype.None? {
      return false;
    }
    GenDescriptor(r, dtype.value);
    assert r.Appended([BLR_CAST] + EncodeDtype(dtype.value));
    ok := GenMatches(r, cfg, n);
    if ok {
      ok := GenExpr(r, cfg, n.results[|n.whens|]);
    }
  }

  method GenOperation(r: DsqlRequest, cfg: Config, n: Node) returns (ok: bool)
    requires r.Valid() && ValidNode(n) && n.Operation?
    modifies r, r.blrString
    ensures ok <==> Lower(cfg, n).Some?
    ensures ok ==> r.Appended(Encode(Lower(cfg, n).value))
    ensures !ok ==> r.Abandoned()
    decreases n, 2
  {
    hide Lower, Encode, EncodeDtype, LowerConstant, WellFormed, DescriptorType, EncodeAll,
         CaseChain, CoalesceChain, EqualTests, Verb, Numeric;
    OperationParts(cfg, n);
    if n.op == Negate && n.args[0].Const? && Numeric(n.args[0].constant) {
      ok := GenConstant(r, cfg, n.args[0].constant, true);
      return;
    }
    r.Stuff(Verb(n.op, |n.args|));
    ok := GenAll(r, cfg, n.args);
  }

  method GenElement(r: DsqlRequest, cfg: Config, n: Node) returns (ok: bool)
    requires r.Valid() && ValidNode(n) && n.ElementRef?
    modifies r, r.blrString
    ensures ok <==> Lower(cfg, n).Some?
    ensures ok ==> r.Appended(Encode(Lower(cfg, n).value))
    ensures !ok ==> r.Abandoned()
    decreases n, 2
  {
    hide Lower, Encode, EncodeDtype, LowerConstant, WellFormed, DescriptorType, ValidNode, EncodeAll,
         CaseChain, CoalesceChain, EqualTests, Verb, Numeric;
    ElementParts(cfg, n);
    if Refused(cfg, n.newType) {
      return false;
    }
    r.Stuff(BLR_INDEX);
    GenField(r, cfg, n.context, n.id, n.fieldName);
    r.Stuff(|n.indices|);
    ok := GenAll(r, cfg, n.indices);
  }

  /** The values that name a place: a record, a column, a variable, a parameter. */
  method GenPlace(r: DsqlRequest, cfg: Config, n: Node) returns (ok: bool)
    requires r.Valid() && ValidNode(n)
    requires n.RelationKey? || n.RelationVersion? || n.FieldRef? || n.MapRef? || n.VariableRef?
             || n.InputRef? || n.ParameterRef?
    modifies r, r.blrString
    ensures ok <==> Lower(cfg, n).Some?
    ensures ok ==> r.Appended(Encode(Lower(cfg, n).value))
    ensures !ok ==> r.Abandoned()
  {
    ok := true;
    match n {
      case RelationKey(context) =>
        GenPair(r, BLR_DBKEY, context);
      case RelationVersion(context) =>
        GenPair(r, BLR_RECORD_VERSION, context);
      case FieldRef(context, id, fieldName, newType) =>
        ok := !Refused(cfg, newType);
        if ok {
          GenField(r, cfg, context, id, fieldName);
        }
      case MapRef(context, position) =>
        GenPair(r, BLR_FID, context);
        r.StuffWord(position);
      case VariableRef(number) =>
        r.Stuff(BLR_VARIABLE);
        r.StuffWord(number);
      case InputRef(message, item) => GenParameter(r, message, item, Some((item + 1) % 0x1_0000));
      case ParameterRef(message, item, indicator) => GenParameter(r, message, item, indicator);
    }
  }

  lemma WrapperParts(cfg: Config, n: Node)
    requires ValidNode(n)
    ensures n.Const? ==> ValidConstant(n.constant) && Lower(cfg, n) == LowerConstant(cfg, n.constant, false)
    ensures n.Alias? ==> ValidNode(n.value) && Lower(cfg, n) == Lower(cfg, n.value)
    ensures n.BuiltinValue? ==>
              Lower(cfg, n).Some? && Encode(Lower(cfg, n).value) == [BuiltinVerb(n.builtin)]
    ensures n.ExtractOf? ==>
              && ValidNode(n.value) && (Lower(cfg, n).Some? <==> Lower(cfg, n.value).Some?)
              && (Lower(cfg, n).Some? ==>
                    Encode(Lower(cfg, n).value)
                    == [BLR_EXTRACT, n.part] + Encode(Lower(cfg, n.value).value))
  {
  }

  method GenExtract(r: DsqlRequest, cfg: Config, n: Node) returns (ok: bool)
    requires r.Valid() && ValidNode(n) && n.ExtractOf?
    modifies r, r.blrString
    ensures ok <==> Lower(cfg, n).Some?
    ensures ok ==> r.Appended(Encode(Lower(cfg, n).value))
    ensures !ok ==> r.Abandoned()
    decreases n, 2
  {
    WrapperParts(cfg, n);
    hide Lower, Encode, ValidNode;
    ghost var before, operand := r.contents, Lower(cfg, n.value);
    GenPair(r, BLR_EXTRACT, n.part);
    ok := GenExpr(r, cfg, n.value);
    if ok {
      Assoc(before, [BLR_EXTRACT, n.part], Encode(operand.value));
    }
  }

  /** Byte code for an arbitrary value. */
  method GenExpr(r: DsqlRequest, cfg: Config, n: Node) returns (ok: bool)
    requires r.Valid() && ValidNode(n)
    modifies r, r.blrString
    ensures ok <==> Lower(cfg, n).Some?
    ensures ok ==> r.Appended(Encode(Lower(cfg, n).value))
    ensures !ok ==> r.Abandoned()
    decreases n, 4
  {
    WrapperParts(cfg, n);
    hide Lower, Encode, ValidNode, LowerConstant, ValidConstant, BuiltinVerb;
    ok := true;
    match n {
      case Const(c) => ok := GenConstant(r, cfg, c, false);
      case Alias(v) => ok := GenExpr(r, cfg, v);
      case BuiltinValue(b) => r.Stuff(BuiltinVerb(b));
      case ElementRef(_, _, _, _, _) => ok := GenElement(r, cfg, n);
      case ExtractOf(_, _) => ok := GenExtract(r, cfg, n);
      case Operation(_, _) => ok := GenOperation(r, cfg, n);
      case Coalesce(_, _, _) => ok := GenCoalesce(r, cfg, n);
      case SimpleCase(_, _, _, _) => ok := GenSimpleCase(r, cfg, n);
      case SearchedCase(_, _, _) => ok := GenSearchedCase(r, cfg, n);
      case _ => ok := GenPlace(r, cfg, n);
    }
  }

  // ----- statements

  lemma {:induction false} LowerStatementsPointwise(cfg: Config, ss: seq<Statement>)
    requires ValidStatements(ss)
    ensures LowerStatements(cfg, ss).Some? <==> forall i :: 0 <= i < |ss| ==> LowerStatement(cfg, ss[i]).Some?
    ensures LowerStatements(cfg, ss).Some? ==>
              forall i :: 0 <= i < |ss| ==>
                LowerStatement(cfg, ss[i]) == Some(LowerStatements(cfg, ss).value[i])
  {
    if ss != [] {
      LowerStatementsPointwise(cfg, ss[1..]);
      assert forall i :: 1 <= i < |ss| ==> ss[i] == ss[1..][i - 1];
    }
  }

  method GenList(r: DsqlRequest, cfg: Config, ss: seq<Statement>) returns (ok: bool)
    requires r.Valid() && ValidStatements(ss)
    modifies r, r.blrString
    ensures ok <==> LowerStatements(cfg, ss).Some?
    ensures ok ==> r.Appended([BLR_BEGIN] + EncodeStmts(LowerStatements(cfg, ss).value) + [BLR_END])
    ensures !ok ==> r.Abandoned()
    decreases ss, 0
  {
    hide LowerStatement, EncodeStmt, ValidStatement;
    r.Stuff(BLR_BEGIN);
    ghost var body: seq<Stmt> := [];
    var i := 0;
    while i < |ss|
      invariant i <= |ss| && |body| == i
      invariant forall k :: 0 <= k < i ==> LowerStatement(cfg, ss[k]) == Some(body[k])
      invariant r.Appended([BLR_BEGIN] + EncodeStmts(body))
    {
      ok := GenStatement(r, cfg, ss[i]);
      if !ok {
        LowerStatementsPointwise(cfg, ss);
        return;
      }
      ghost var s := LowerStatement(cfg, ss[i]).value;
      EncodeStmtsAppend(body, s);
      body := body + [s];
      i := i + 1;
    }
    r.Stuff(BLR_END);
    LowerStatementsPointwise(cfg, ss);
    assert LowerStatements(cfg, ss).value == body;
    ok := true;
  }

  lemma WhileBytes(n: nat, c: Expr, action: Stmt)
    ensures EncodeStmt(WhileLoop(n, c, action))
            == [BLR_LABEL, Low8(n), BLR_LOOP, BLR_BEGIN, BLR_IF] + Encode(c) + EncodeStmt(action)
               + [BLR_LEAVE, Low8(n), BLR_END]
  {
    var turn := WhileTurn(n, c, action);
    TurnBytes(n, c, action);
    assert EncodeStmt(WhileLoop(n, c, action)) == [BLR_LABEL, Low8(n)] + ([BLR_LOOP] + EncodeStmt(turn));
  }

  lemma TurnBytes(n: nat, c: Expr, action: Stmt)
    ensures EncodeStmt(WhileTurn(n, c, action))
            == [BLR_BEGIN, BLR_IF] + Encode(c) + EncodeStmt(action) + [BLR_LEAVE, Low8(n), BLR_END]
  {
    hide Encode;
    var choice := If(c, action, Some(Leave(Low8(n))));
    OneStatement(choice);
    assert EncodeStmt(choice) == [BLR_IF] + Encode(c) + EncodeStmt(action) + EncodeStmt(Leave(Low8(n)));
    assert EncodeStmt(Begin([choice])) == [BLR_BEGIN] + EncodeStmts([choice]) + [BLR_END];
  }

  lemma OneStatement(s: Stmt)
    ensures EncodeStmts([s]) == EncodeStmt(s)
  {
    hide EncodeStmt;
    assert [s][1..] == [];
    assert EncodeStmts([s]) == EncodeStmt(s) + EncodeStmts([]);
  }

  lemma WhileParts(cfg: Config, s: Statement)
    requires s.While? && ValidStatement(s)
    ensures ValidNode(s.condition) && ValidStatement(s.action)
    ensures var c := Lower(cfg, s.condition);
            var action := LowerStatement(cfg, s.action);
            && (LowerStatement(cfg, s).Some? <==> c.Some? && action.Some?)
            && (LowerStatement(cfg, s).Some? ==>
                  EncodeStmt(LowerStatement(cfg, s).value)
                  == [BLR_LABEL, Low8(s.number), BLR_LOOP, BLR_BEGIN, BLR_IF] + Encode(c.value)
                     + EncodeStmt(action.value) + [BLR_LEAVE, Low8(s.number), BLR_END])
  {
    hide Lower, Encode, EncodeStmt;
    if LowerStatement(cfg, s).Some? {
      WhileBytes(s.number, Lower(cfg, s.condition).value, LowerStatement(cfg, s.action).value);
    }
  }

  method GenLoopHead(r: DsqlRequest, number: nat)
    requires r.Valid()
    modifies r, r.blrString
    ensures r.Appended([BLR_LABEL, Low8(number), BLR_LOOP, BLR_BEGIN, BLR_IF])
  {
    r.Stuff(BLR_LABEL);
    r.Stuff(Low8(number));
    r.Stuff(BLR_LOOP);
    r.Stuff(BLR_BEGIN);
    r.Stuff(BLR_IF);
  }

  method GenLoopTail(r: DsqlRequest, number: nat)
    requires r.Valid()
    modifies r, r.blrString
    ensures r.Appended([BLR_LEAVE, Low8(number), BLR_END])
  {
    r.Stuff(BLR_LEAVE);
    r.Stuff(Low8(number));
    r.Stuff(BLR_END);
  }

  method GenWhile(r: DsqlRequest, cfg: Config, s: Statement) returns (ok: bool)
    requires r.Valid() && ValidStatement(s) && s.While?
    modifies r, r.blrString
    ensures ok <==> LowerStatement(cfg, s).Some?
    ensures ok ==> r.Appended(EncodeStmt(LowerStatement(cfg, s).value))
    ensures !ok ==> r.Abandoned()
    decreases s, 0
  {
    hide Lower, Encode, LowerStatement, EncodeStmt, ValidNode, ValidStatement;
    WhileParts(cfg, s);
    GenLoopHead(r, s.number);
    ok := GenExpr(r, cfg, s.condition);
    if ok {
      ok := GenStatement(r, cfg, s.action);
      if ok {
        assert r.Appended([BLR_LABEL, Low8(s.number), BLR_LOOP, BLR_BEGIN, BLR_IF]
                          + Encode(Lower(cfg, s.condition).value)
                          + EncodeStmt(LowerStatement(cfg, s.action).value));
        GenLoopTail(r, s.number);
      }
    }
  }

  /** The false branch; an IF without one is closed by blr_end. */
  function ElseBytes(f: Option<Stmt>): seq<byte> {
    if f.Some? then EncodeStmt(f.value) else [BLR_END]
  }

  function LowerElse(cfg: Config, f: Option<Statement>): Option<Option<Stmt>>
    requires f.Some? ==> ValidStatement(f.value)
  {
    if f.None? then Some(None)
    else
      var e :- LowerStatement(cfg, f.value);
      Some(Some(e))
  }

  lemma IfParts(cfg: Config, s: Statement)
    requires s.IfThen? && ValidStatement(s)
    ensures ValidNode(s.condition) && ValidStatement(s.whenTrue)
    ensures s.whenFalse.Some? ==> ValidStatement(s.whenFalse.value)
    ensures var c := Lower(cfg, s.condition);
            var t := LowerStatement(cfg, s.whenTrue);
            var f := LowerElse(cfg, s.whenFalse);
            && (LowerStatement(cfg, s).Some? <==> c.Some? && t.Some? && f.Some?)
            && (LowerStatement(cfg, s).Some? ==>
                  EncodeStmt(LowerStatement(cfg, s).value)
                  == [BLR_IF] + Encode(c.value) + EncodeStmt(t.value) + ElseBytes(f.value))
  {
    hide Lower, Encode;
  }

  method GenElse(r: DsqlRequest, cfg: Config, f: Option<Statement>) returns (ok: bool)
    requires r.Valid() && (f.Some? ==> ValidStatement(f.value))
    modifies r, r.blrString
    ensures ok <==> LowerElse(cfg, f).Some?
    ensures ok ==> r.Appended(ElseBytes(LowerElse(cfg, f).value))
    ensures !ok ==> r.Abandoned()
    decreases f, 2
  {
    hide LowerStatement, EncodeStmt, ValidStatement;
    if f.Some? {
      ok := GenStatement(r, cfg, f.value);
    } else {
      r.Stuff(BLR_END);
      ok := true;
    }
  }

  method GenIf(r: DsqlRequest, cfg: Config, s: Statement) returns (ok: bool)
    requires r.Valid() && ValidStatement(s) && s.IfThen?
    modifies r, r.blrString
    ensures ok <==> LowerStatement(cfg, s).Some?
    ensures ok ==> r.Appended(EncodeStmt(LowerStatement(cfg, s).value))
    ensures !ok ==> r.Abandoned()
    decreases s, 0
  {
    hide Lower, Encode, LowerStatement, EncodeStmt, ValidNode, ValidStatement, ElseBytes, LowerElse;
    IfParts(cfg, s);
    r.Stuff(BLR_IF);
    ok := GenExpr(r, cfg, s.condition);
    if ok {
      ok := GenStatement(r, cfg, s.whenTrue);
      if ok {
        assert r.Appended([BLR_IF] + Encode(Lower(cfg, s.condition).value)
                          + EncodeStmt(LowerStatement(cfg, s.whenTrue).value));
        ok := GenElse(r, cfg, s.whenFalse);
      }
    }
  }

  method GenAssignment(r: DsqlRequest, cfg: Config, s: Statement) returns (ok: bool)
    requires r.Valid() && ValidStatement(s) && s.Assign?
    modifies r, r.blrString
    ensures ok <==> LowerStatement(cfg, s).Some?
    ensures ok ==> r.Appended(EncodeStmt(LowerStatement(cfg, s).value))
    ensures !ok ==> r.Abandoned()
  {
    hide Lower, Encode, ValidNode;
    r.Stuff(BLR_ASSIGNMENT);
    ok := GenExpr(r, cfg, s.source);
    if ok {
      ok := GenExpr(r, cfg, s.target);
    }
  }

  lemma SimpleParts(cfg: Config, s: Statement)
    requires ValidStatement(s)
    ensures s.List? ==>
              && ValidStatements(s.statements)
              && (LowerStatement(cfg, s).Some? <==> LowerStatements(cfg, s.statements).Some?)
              && (LowerStatement(cfg, s).Some? ==>
                    EncodeStmt(LowerStatement(cfg, s).value)
                    == [BLR_BEGIN] + EncodeStmts(LowerStatements(cfg, s.statements).value) + [BLR_END])
    ensures s.BreakLeave? ==>
              LowerStatement(cfg, s).Some?
              && EncodeStmt(LowerStatement(cfg, s).value) == [BLR_LEAVE, Low8(s.number)]
    ensures s.Exit? ==>
              LowerStatement(cfg, s).Some? && EncodeStmt(LowerStatement(cfg, s).value) == [BLR_LEAVE, 0]
  {
    hide Lower, Encode, ValidNode;
  }

  /** Byte code for an arbitrary statement. */
  method GenStatement(r: DsqlRequest, cfg: Config, s: Statement) returns (ok: bool)
    requires r.Valid() && ValidStatement(s)
    modifies r, r.blrString
    ensures ok <==> LowerStatement(cfg, s).Some?
    ensures ok ==> r.Appended(EncodeStmt(LowerStatement(cfg, s).value))
    ensures !ok ==> r.Abandoned()
    decreases s, 1
  {
    hide LowerStatement, LowerStatements, EncodeStmt, EncodeStmts, ValidStatement;
    SimpleParts(cfg, s);
    ok := true;
    match s {
      case Assign(_, _) => ok := GenAssignment(r, cfg, s);
      case List(ss) => ok := GenList(r, cfg, ss);
      case IfThen(_, _, _) => ok := GenIf(r, cfg, s);
      case While(_, _, _) => ok := GenWhile(r, cfg, s);
      case BreakLeave(n) =>
        GenPair(r, BLR_LEAVE, Low8(n));
      case Exit =>
        GenPair(r, BLR_LEAVE, 0);
    }
  }
}
