/**
 The compiler's translation from trees to byte code, stated on values: which byte-code
 tree a source tree becomes, when it is refused, and the proof that running the byte
 code gives what SQL says the source means.
 */
module Lowering {
  import opened Wrappers
  import opened Bytes
  import opened BlrVerbs
  import opened Blr
  import opened BlrEval
  import opened Tree

  // ----- constants

  predicate Numeric(c: Constant) {
    c.ShortConst? || c.LongConst? || c.Int64Const? || c.DoubleConst? || c.QuadConst?
  }

  /** Two's complement wrap of a 64-bit result. */
  function Wrap64(v: int): int {
    if v > MAX_SINT64 then v - 0x1_0000_0000_0000_0000 else v
  }

  /**
   A literal, negated on request.  Short, long and 64-bit values are negated in place,
   an approximate literal gets a minus sign, and quad and version 3 text forms have no
   place for one.  The unsigned digits of 2^63 fit only when negated.
   */
  function LowerConstant(cfg: Config, c: Constant, negate: bool): (r: Option<Expr>)
    requires ValidConstant(c)
    ensures r.Some? ==> r.value.Literal? && WellFormed(r.value)
  {
    match c
    case ShortConst(v, s) => Some(Literal(Short(Low8(s)), Word(if negate then -v else v)))
    case LongConst(v, s) => Some(Literal(Long(Low8(s)), Double(if negate then -v else v)))
    case Int64Const(v, s) =>
      if !negate && v == MIN_SINT64 then None
      else
        var w := if negate then Wrap64(-v) else v;
        if MIN_SLONG <= w <= MAX_SLONG then Some(Literal(Long(Low8(s)), Double(w)))
        else Some(Literal(Int64(Low8(s)), Quad(w)))
    case DoubleConst(_, digits) =>
      if cfg.v3 then Some(Literal(Text(|digits|), digits))
      else Some(Literal(DoublePrecision, (if negate then ['-' as int] else []) + digits))
    case TextConst(ttype, text) =>
      Some(Literal(if cfg.v3 then Text(|text|) else Text2(ttype, |text|), text))
    case DateConst(d) => Some(Literal(SqlDate, Double(d)))
    case TimeConst(t) => Some(Literal(SqlTime, Double(t)))
    case TimestampConst(d, t) => Some(Literal(Timestamp, Double(d) + Double(t)))
    case QuadConst(s, low, high) => Some(Literal(Quadword(Low8(s)), Double(low) + Double(high)))
    case BlobConst(low, high) => Some(Literal(Quadword(0), Double(low) + Double(high)))
  }

  function LiteralMeaning(e: Expr): Value {
    if e.Literal? then LiteralValue(e.dtype, e.data) else Value.Null
  }

  lemma ScaleReadsBack(s: int)
    requires Scale(s)
    ensures Signed(Low8(s), 0x100) == s
  {
  }

  lemma Int64ReadsBack(w: int, s: int)
    requires MIN_SINT64 <= w <= MAX_SINT64 && Scale(s)
    ensures MIN_SLONG <= w <= MAX_SLONG ==> LiteralValue(Long(Low8(s)), Double(w)) == Number(w, s)
    ensures LiteralValue(Int64(Low8(s)), Quad(w)) == Number(w, s)
  {
    hide FromWord, FromDouble, FromQuad, Word, Double, Quad;
    DoubleRoundTrip(w);
    QuadRoundTrip(w);
    ScaleReadsBack(s);
  }

  /** Every literal the compiler accepts reads back as the constant it stands for. */
  lemma ConstantMeaning(cfg: Config, c: Constant)
    requires ValidConstant(c)
    ensures LowerConstant(cfg, c, false).None? <==> c.Int64Const? && c.int64 == MIN_SINT64
    ensures LowerConstant(cfg, c, false).Some? ==>
              LiteralMeaning(LowerConstant(cfg, c, false).value) == ConstantValue(cfg, c)
  {
    hide FromWord, FromDouble, FromQuad, Word, Double, Quad;
    match c
    case ShortConst(v, s) => WordRoundTrip(v); ScaleReadsBack(s);
    case LongConst(v, s) => DoubleRoundTrip(v); ScaleReadsBack(s);
    case Int64Const(v, s) => Int64ReadsBack(v, s);
    case DoubleConst(_, digits) => assert [] + digits == digits;
    case _ =>
  }

  /** The numeric constants whose folded negation keeps its meaning. */
  predicate FoldsWell(cfg: Config, c: Constant) {
    match c
    case ShortConst(v, _) => v != MIN_SSHORT
    case LongConst(v, _) => v != MIN_SLONG
    case Int64Const(_, _) => true
    case DoubleConst(_, _) => !cfg.v3
    case _ => false
  }

  /** An approximate literal towards version 3, the one literal of the parser's that drops its sign. */
  predicate LosesSign(cfg: Config, c: Constant) {
    cfg.v3 && c.DoubleConst?
  }

  /** An engine that maps every text and quad operator to null. */
  function PlainEngine(): Engine {
    Engine((a, b) => 0, (o, vs) => Value.Null, (d, v) => v)
  }

  /**
   Folding the minus sign into the literal is right exactly for these constants.  Among
   the literals the parser builds it fails for the approximate ones towards version 3
   databases, whose sign is dropped; -32768 and -2147483648, which wrap to themselves, and
   quads never arise there.
   */
  lemma FoldedNegation(cfg: Config, c: Constant)
    requires ValidConstant(c) && Numeric(c)
    ensures LowerConstant(cfg, c, true).Some?
    ensures (forall eng: Engine ::
              LiteralMeaning(LowerConstant(cfg, c, true).value)
              == BlrEval.Negate(eng, ConstantValue(cfg, c)))
            <==> FoldsWell(cfg, c)
    ensures ParserBuilt(c) ==> (FoldsWell(cfg, c) <==> !LosesSign(cfg, c))
  {
    hide FromWord, FromDouble, FromQuad, Word, Double, Quad;
    match c {
      case ShortConst(v, s) =>
        WordRoundTrip(-v);
        ScaleReadsBack(s);
      case LongConst(v, s) =>
        DoubleRoundTrip(-v);
        ScaleReadsBack(s);
      case Int64Const(v, s) => Int64ReadsBack(Wrap64(-v), s);
      case _ =>
    }
    if !FoldsWell(cfg, c) {
      var plain := BlrEval.Negate(PlainEngine(), ConstantValue(cfg, c));
      assert LiteralMeaning(LowerConstant(cfg, c, true).value) != plain;
    }
  }

  // ----- values

  function Verb(op: NodType, n: nat): byte {
    match op
    case And => BLR_AND
    case Or => BLR_OR
    case Not => BLR_NOT
    case Eql => BLR_EQL
    case Neq => BLR_NEQ
    case Gtr => BLR_GTR
    case Geq => BLR_GEQ
    case Lss => BLR_LSS
    case Leq => BLR_LEQ
    case Between => BLR_BETWEEN
    case Containing => BLR_CONTAINING
    case Starting => BLR_STARTING
    case Like => if n == 2 then BLR_LIKE else BLR_ANSI_LIKE
    case Missing => BLR_MISSING
    case Add | Add2 => BLR_ADD
    case Subtract | Subtract2 => BLR_SUBTRACT
    case Multiply | Multiply2 => BLR_MULTIPLY
    case Divide | Divide2 => BLR_DIVIDE
    case Negate => BLR_NEGATE
    case Concatenate => BLR_CONCATENATE
    case Null_ => BLR_NULL
    case Upcase => BLR_UPCASE
    case Substr => BLR_SUBSTRING
    case InternalInfo => BLR_INTERNAL_INFO
  }

  function BuiltinVerb(b: Builtin): byte {
    match b
    case User => BLR_USER_NAME
    case Role => BLR_CURRENT_ROLE
    case Today => BLR_CURRENT_DATE
    case Now => BLR_CURRENT_TIME
    case Timestamp_ => BLR_CURRENT_TIMESTAMP
  }

  /** A numeric constant under a minus sign is one literal. */
  predicate Folds(n: Node) {
    n.Operation? && n.op == Negate && |n.args| == 1 && n.args[0].Const? && Numeric(n.args[0].constant)
  }

  /** Old clients may not name fields of the types added in dialect 3. */
  predicate Refused(cfg: Config, newType: bool) {
    cfg.dialect <= 1 && newType
  }

  function FieldExpr(cfg: Config, context: byte, id: word, n: name): Expr {
    if cfg.ids then Fid(context, id) else Field(context, n)
  }

  /** IF t0 IS NULL THEN (IF t1 IS NULL THEN ... the last result ... ELSE r1) ELSE r0. */
  function CoalesceChain(tests: seq<Expr>, results: seq<Expr>): Expr
    requires |results| == |tests| + 1
  {
    if tests == [] then results[0]
    else Op(BLR_VALUE_IF, [Op(BLR_MISSING, [tests[0]]), CoalesceChain(tests[1..], results[1..]), results[0]])
  }

  /** IF c0 THEN r0 ELSE IF c1 THEN r1 ... ELSE the last result. */
  function CaseChain(conditions: seq<Expr>, results: seq<Expr>): Expr
    requires |results| == |conditions| + 1
  {
    if conditions == [] then results[0]
    else Op(BLR_VALUE_IF, [conditions[0], results[0], CaseChain(conditions[1..], results[1..])])
  }

  function EqualTests(operand: Expr, whens: seq<Expr>): (cs: seq<Expr>)
    ensures |cs| == |whens|
  {
    if whens == [] then [] else [Op(BLR_EQL, [operand, whens[0]])] + EqualTests(operand, whens[1..])
  }

  function Lower(cfg: Config, n: Node): (r: Option<Expr>)
    requires ValidNode(n)
  {
    match n
    case Const(c) => LowerConstant(cfg, c, false)
    case Alias(v) => Lower(cfg, v)
    case BuiltinValue(b) => Some(Op(BuiltinVerb(b), []))
    case RelationKey(context) => Some(Context(BLR_DBKEY, context))
    case RelationVersion(context) => Some(Context(BLR_RECORD_VERSION, context))
    case FieldRef(context, id, fieldName, newType) =>
      if Refused(cfg, newType) then None else Some(FieldExpr(cfg, context, id, fieldName))
    case ElementRef(context, id, fieldName, newType, indices) =>
      if Refused(cfg, newType) then None
      else
        var subs :- LowerAll(cfg, indices);
        Some(Index(FieldExpr(cfg, context, id, fieldName), subs))
    case MapRef(context, position) => Some(Fid(context, position))
    case VariableRef(number) => Some(Variable(number))
    case InputRef(message, item) => Some(Parameter2(message, item, (item + 1) % 0x1_0000))
    case ParameterRef(message, item, None) => Some(Parameter(message, item))
    case ParameterRef(message, item, Some(indicator)) => Some(Parameter2(message, item, indicator))
    case ExtractOf(part, v) =>
      var e :- Lower(cfg, v);
      Some(Extract(part, e))
    case Operation(op, args) =>
      if Folds(n) then
        assert ValidNodes(args) && ValidNode(args[0]);
        LowerConstant(cfg, args[0].constant, true)
      else
        var es :- LowerAll(cfg, args);
        Some(Op(Verb(op, |args|), es))
    case Coalesce(desc, tests, results) =>
      var dtype :- DescriptorType(cfg, desc);
      assert ValidNodes(tests);
      var ts :- LowerAll(cfg, tests[..|tests| - 1]);
      var rs :- LowerAll(cfg, results);
      Some(Cast(dtype, CoalesceChain(ts, rs)))
    case SimpleCase(desc, operand, whens, results) =>
      var dtype :- DescriptorType(cfg, desc);
      var o :- Lower(cfg, operand);
      var ws :- LowerAll(cfg, whens);
      var rs :- LowerAll(cfg, results);
      Some(Cast(dtype, CaseChain(EqualTests(o, ws), rs)))
    case SearchedCase(desc, conditions, results) =>
      var dtype :- DescriptorType(cfg, desc);
      var cs :- LowerAll(cfg, conditions);
      var rs :- LowerAll(cfg, results);
      Some(Cast(dtype, CaseChain(cs, rs)))
  }

  function LowerAll(cfg: Config, ns: seq<Node>): (r: Option<seq<Expr>>)
    requires ValidNodes(ns)
    ensures r.Some? ==> |r.value| == |ns|
  {
    if ns == [] then Some([])
    else
      var e :- Lower(cfg, ns[0]);
      var es :- LowerAll(cfg, ns[1..]);
      Some([e] + es)
  }

  /**
   Every literal is one the parser builds and, towards version 3 databases, no approximate
   one stands directly under a minus sign.
   */
  predicate Parsed(cfg: Config, n: Node) {
    match n
    case Const(c) => ParserBuilt(c)
    case Alias(v) => Parsed(cfg, v)
    case ExtractOf(_, v) => Parsed(cfg, v)
    case ElementRef(_, _, _, _, indices) => AllParsed(cfg, indices)
    case Operation(_, args) =>
      AllParsed(cfg, args) && (Folds(n) ==> !LosesSign(cfg, args[0].constant))
    case Coalesce(_, tests, results) =>
      AllParsed(cfg, tests) && AllParsed(cfg, results)
    case SimpleCase(_, operand, whens, results) =>
      Parsed(cfg, operand) && AllParsed(cfg, whens) && AllParsed(cfg, results)
    case SearchedCase(_, conditions, results) => AllParsed(cfg, conditions) && AllParsed(cfg, results)
    case _ => true
  }

  predicate AllParsed(cfg: Config, ns: seq<Node>) {
    forall i :: 0 <= i < |ns| ==> Parsed(cfg, ns[i])
  }

  // ----- what the compiler accepts

  /**
   Three things are refused: the digits of 2^63 without a minus sign right before them, a
   field of a type added in dialect 3 where the client's dialect is 1 or none, and a
   conditional whose type has no byte form.  The last test of a COALESCE is not looked at.
   */
  predicate Accepted(cfg: Config, n: Node)
    requires ValidNode(n)
  {
    match n
    case Const(c) => !(c.Int64Const? && c.int64 == -0x8000_0000_0000_0000)
    case Alias(v) => Accepted(cfg, v)
    case FieldRef(_, _, _, newType) => newType ==> cfg.dialect >= 2
    case ElementRef(_, _, _, newType, indices) => (newType ==> cfg.dialect >= 2) && AllAccepted(cfg, indices)
    case ExtractOf(_, v) => Accepted(cfg, v)
    case Operation(op, args) => (op == Negate && args[0].Const?) || AllAccepted(cfg, args)
    case Coalesce(desc, tests, results) =>
      assert ValidNodes(tests);
      !desc.OtherDesc? && AllAccepted(cfg, tests[..|tests| - 1]) && AllAccepted(cfg, results)
    case SimpleCase(desc, operand, whens, results) =>
      !desc.OtherDesc? && Accepted(cfg, operand) && AllAccepted(cfg, whens) && AllAccepted(cfg, results)
    case SearchedCase(desc, conditions, results) =>
      !desc.OtherDesc? && AllAccepted(cfg, conditions) && AllAccepted(cfg, results)
    case _ => true
  }

  predicate AllAccepted(cfg: Config, ns: seq<Node>)
    requires ValidNodes(ns)
  {
    forall i :: 0 <= i < |ns| ==> Accepted(cfg, ns[i])
  }

  lemma TypeAccepted(cfg: Config, d: Descriptor)
    ensures DescriptorType(cfg, d).Some? <==> !d.OtherDesc?
  {
  }

  /** The compiler accepts exactly these trees. */
  lemma {:induction false} AcceptedIff(cfg: Config, n: Node)
    requires ValidNode(n)
    ensures Lower(cfg, n).Some? <==> Accepted(cfg, n)
    decreases n, 1
  {
    hide LowerConstant, DescriptorType, ValidConstant, FieldExpr, CoalesceChain, CaseChain, EqualTests, Verb, BuiltinVerb;
    match n
    case Const(c) => ConstantMeaning(cfg, c);
    case Alias(v) => AcceptedIff(cfg, v);
    case ElementRef(_, _, _, _, indices) => AllAcceptedIff(cfg, indices);
    case ExtractOf(_, v) => AcceptedIff(cfg, v);
    case Operation(_, _) => OperationAccepted(cfg, n);
    case Coalesce(_, _, _) => CoalesceAccepted(cfg, n);
    case SimpleCase(desc, operand, whens, results) =>
      TypeAccepted(cfg, desc);
      AcceptedIff(cfg, operand);
      AllAcceptedIff(cfg, whens);
      AllAcceptedIff(cfg, results);
    case SearchedCase(desc, conditions, results) =>
      TypeAccepted(cfg, desc);
      AllAcceptedIff(cfg, conditions);
      AllAcceptedIff(cfg, results);
    case _ =>
  }

  lemma {:induction false} CoalesceAccepted(cfg: Config, n: Node)
    requires n.Coalesce? && ValidNode(n)
    ensures Lower(cfg, n).Some? <==> Accepted(cfg, n)
    decreases n, 0
  {
    hide LowerAll, AllAccepted, DescriptorType, CoalesceChain;
    TypeAccepted(cfg, n.desc);
    assert ValidNodes(n.tests);
    AllAcceptedIff(cfg, n.tests[..|n.tests| - 1]);
    AllAcceptedIff(cfg, n.results);
  }

  lemma {:induction false} OperationAccepted(cfg: Config, n: Node)
    requires n.Operation? && ValidNode(n)
    ensures Lower(cfg, n).Some? <==> Accepted(cfg, n)
    decreases n.args, 2
  {
    hide LowerConstant, Verb;
    AllAcceptedIff(cfg, n.args);
    if n.op == Negate && n.args[0].Const? {
      var c := n.args[0].constant;
      assert ValidNode(n.args[0]) && ValidConstant(c);
      ConstantMeaning(cfg, c);
      if Numeric(c) {
        FoldedNegation(cfg, c);
      } else {
        assert AllAccepted(cfg, n.args);
      }
    }
  }

  lemma {:induction false} AllAcceptedIff(cfg: Config, ns: seq<Node>)
    requires ValidNodes(ns)
    ensures LowerAll(cfg, ns).Some? <==> AllAccepted(cfg, ns)
    decreases ns, 1
  {
    if ns != [] {
      hide Lower, Accepted;
      AcceptedIff(cfg, ns[0]);
      AllAcceptedIff(cfg, ns[1..]);
      assert forall i :: 0 < i < |ns| ==> ns[i] == ns[1..][i - 1];
    }
  }

  // ----- the emitted tree can be parsed

  lemma {:induction false} CoalesceChainWellFormed(tests: seq<Expr>, results: seq<Expr>)
    requires |results| == |tests| + 1 && AllWellFormed(tests) && AllWellFormed(results)
    ensures WellFormed(CoalesceChain(tests, results))
  {
    if tests != [] {
      CoalesceChainWellFormed(tests[1..], results[1..]);
      assert WellFormed(Op(BLR_MISSING, [tests[0]]));
    }
  }

  lemma {:induction false} CaseChainWellFormed(conditions: seq<Expr>, results: seq<Expr>)
    requires |results| == |conditions| + 1 && AllWellFormed(conditions) && AllWellFormed(results)
    ensures WellFormed(CaseChain(conditions, results))
  {
    if conditions != [] {
      CaseChainWellFormed(conditions[1..], results[1..]);
    }
  }

  lemma {:induction false} EqualTestsWellFormed(operand: Expr, whens: seq<Expr>)
    requires WellFormed(operand) && AllWellFormed(whens)
    ensures AllWellFormed(EqualTests(operand, whens))
  {
    if whens != [] {
      EqualTestsWellFormed(operand, whens[1..]);
      assert WellFormed(Op(BLR_EQL, [operand, whens[0]]));
    }
  }

  lemma VerbArity(op: NodType, n: nat)
    requires ValidArity(op, n)
    ensures Arity(Verb(op, n)) == Some(n)
  {
  }

  lemma {:induction false} LowerWellFormed(cfg: Config, n: Node)
    requires ValidNode(n) && Lower(cfg, n).Some?
    ensures WellFormed(Lower(cfg, n).value)
    decreases n, 0
  {
    match n
    case Alias(v) => LowerWellFormed(cfg, v);
    case ElementRef(_, _, _, _, indices) => LowerAllWellFormed(cfg, indices);
    case ExtractOf(_, v) => LowerWellFormed(cfg, v);
    case Operation(op, args) =>
      if !Folds(n) {
        LowerAllWellFormed(cfg, args);
        VerbArity(op, |args|);
      }
    case Coalesce(_, tests, results) =>
      var tested := tests[..|tests| - 1];
      LowerAllWellFormed(cfg, tested);
      LowerAllWellFormed(cfg, results);
      CoalesceChainWellFormed(LowerAll(cfg, tested).value, LowerAll(cfg, results).value);
    case SimpleCase(_, operand, whens, results) =>
      LowerWellFormed(cfg, operand);
      LowerAllWellFormed(cfg, whens);
      LowerAllWellFormed(cfg, results);
      var tests := EqualTests(Lower(cfg, operand).value, LowerAll(cfg, whens).value);
      EqualTestsWellFormed(Lower(cfg, operand).value, LowerAll(cfg, whens).value);
      CaseChainWellFormed(tests, LowerAll(cfg, results).value);
    case SearchedCase(_, conditions, results) =>
      LowerAllWellFormed(cfg, conditions);
      LowerAllWellFormed(cfg, results);
      CaseChainWellFormed(LowerAll(cfg, conditions).value, LowerAll(cfg, results).value);
    case _ =>
  }

  lemma {:induction false} LowerAllWellFormed(cfg: Config, ns: seq<Node>)
    requires ValidNodes(ns) && LowerAll(cfg, ns).Some?
    ensures AllWellFormed(LowerAll(cfg, ns).value)
    decreases ns, 1
  {
    if ns != [] {
      LowerWellFormed(cfg, ns[0]);
      LowerAllWellFormed(cfg, ns[1..]);
    }
  }

  // ----- the emitted tree means what the source means

  lemma EvalThree(eng: Engine, st: State, a: Expr, b: Expr, c: Expr)
    ensures EvalAll(eng, st, [a, b, c]) == [Eval(eng, st, a), Eval(eng, st, b), Eval(eng, st, c)]
  {
    assert [a, b, c][1..] == [b, c] && [b, c][1..] == [c] && [c][1..] == [];
    assert EvalAll(eng, st, [c]) == [Eval(eng, st, c)] + EvalAll(eng, st, []);
    assert EvalAll(eng, st, [b, c]) == [Eval(eng, st, b)] + EvalAll(eng, st, [c]);
    assert EvalAll(eng, st, [a, b, c]) == [Eval(eng, st, a)] + EvalAll(eng, st, [b, c]);
  }

  lemma EvalTwo(eng: Engine, st: State, a: Expr, b: Expr)
    ensures EvalAll(eng, st, [a, b]) == [Eval(eng, st, a), Eval(eng, st, b)]
  {
    assert [a, b][1..] == [b] && [b][1..] == [];
    assert EvalAll(eng, st, [b]) == [Eval(eng, st, b)] + EvalAll(eng, st, []);
    assert EvalAll(eng, st, [a, b]) == [Eval(eng, st, a)] + EvalAll(eng, st, [b]);
  }

  lemma EvalOne(eng: Engine, st: State, a: Expr)
    ensures EvalAll(eng, st, [a]) == [Eval(eng, st, a)]
  {
    assert [a][1..] == [];
    assert EvalAll(eng, st, [a]) == [Eval(eng, st, a)] + EvalAll(eng, st, []);
  }

  lemma ValueIf(eng: Engine, st: State, c: Expr, t: Expr, f: Expr)
    ensures Eval(eng, st, Op(BLR_VALUE_IF, [c, t, f]))
            == if Eval(eng, st, c) == TRUE then Eval(eng, st, t) else Eval(eng, st, f)
  {
    EvalThree(eng, st, c, t, f);
  }

  /** The nested conditionals of COALESCE, with its results in reverse, pick the first non-null. */
  lemma {:induction false} CoalesceMeaning(eng: Engine, st: State, tests: seq<Expr>, results: seq<Expr>)
    requires |results| == |tests| + 1
    ensures Eval(eng, st, CoalesceChain(tests, results))
            == EvalAll(eng, st, results)[FirstNonNull(EvalAll(eng, st, tests))]
  {
    var vs := EvalAll(eng, st, tests);
    if tests != [] {
      CoalesceMeaning(eng, st, tests[1..], results[1..]);
      var rest := CoalesceChain(tests[1..], results[1..]);
      ValueIf(eng, st, Op(BLR_MISSING, [tests[0]]), rest, results[0]);
      EvalOne(eng, st, tests[0]);
      assert vs[1..] == EvalAll(eng, st, tests[1..]);
    }
  }

  /** The nested conditionals of CASE pick the result of the first branch that holds. */
  lemma {:induction false} CaseMeaning(eng: Engine, st: State, conditions: seq<Expr>, results: seq<Expr>)
    requires |results| == |conditions| + 1
    ensures Eval(eng, st, CaseChain(conditions, results))
            == EvalAll(eng, st, results)[FirstTrue(EvalAll(eng, st, conditions))]
  {
    if conditions != [] {
      CaseMeaning(eng, st, conditions[1..], results[1..]);
      ValueIf(eng, st, conditions[0], results[0], CaseChain(conditions[1..], results[1..]));
      assert EvalAll(eng, st, conditions)[1..] == EvalAll(eng, st, conditions[1..]);
    }
  }

  lemma {:induction false} EqualTestsMeaning(eng: Engine, st: State, operand: Expr, whens: seq<Expr>)
    ensures EvalAll(eng, st, EqualTests(operand, whens))
            == Matches(eng, Eval(eng, st, operand), EvalAll(eng, st, whens))
  {
    var tests := EqualTests(operand, whens);
    if whens != [] {
      EqualTestsMeaning(eng, st, operand, whens[1..]);
      EvalTwo(eng, st, operand, whens[0]);
      assert tests[1..] == EqualTests(operand, whens[1..]);
      assert EvalAll(eng, st, tests) == [Eval(eng, st, tests[0])] + EvalAll(eng, st, tests[1..]);
    }
  }

  lemma OperatorMeaning(eng: Engine, op: NodType, vs: seq<Value>)
    requires ValidArity(op, |vs|)
    ensures EvalOp(eng, Verb(op, |vs|), vs) == Apply(eng, op, vs)
  {
    VerbArity(op, |vs|);
  }

  lemma BuiltinMeaning(eng: Engine, st: State, b: Builtin)
    ensures Eval(eng, st, Op(BuiltinVerb(b), [])) == eng.apply(BuiltinOperator(b), [])
  {
    assert EvalAll(eng, st, []) == [];
  }

  /**
   Compiler correctness for values: whatever the compiler accepts evaluates, as byte
   code, to what SQL says the source tree means.
   */
  lemma {:induction false} LowerMeaning(eng: Engine, cfg: Config, st: State, n: Node)
    requires ValidNode(n) && Lower(cfg, n).Some? && Parsed(cfg, n)
    ensures Eval(eng, st, Lower(cfg, n).value) == Denote(eng, cfg, st, n)
    ensures LocationOf(Lower(cfg, n).value) == NodeLocation(cfg, n)
    decreases n, 1
  {
    hide LowerConstant, ConstantValue, FoldsWell, Apply, EvalOp, LiteralValue, DescriptorType, Matches,
         CaseChain, CoalesceChain, EqualTests, FirstTrue, FirstNonNull, Update, ValidConstant;
    match n
    case Const(c) => ConstantMeaning(cfg, c);
    case Alias(v) => LowerMeaning(eng, cfg, st, v);
    case BuiltinValue(b) => BuiltinMeaning(eng, st, b);
    case ElementRef(_, _, _, _, indices) => LowerAllMeaning(eng, cfg, st, indices);
    case ExtractOf(_, v) => LowerMeaning(eng, cfg, st, v);
    case Operation(op, args) => OperationMeaning(eng, cfg, st, n);
    case Coalesce(_, _, _) => CoalesceNodeMeaning(eng, cfg, st, n);
    case SimpleCase(_, _, _, _) => SimpleCaseMeaning(eng, cfg, st, n);
    case SearchedCase(_, _, _) => SearchedCaseMeaning(eng, cfg, st, n);
    case _ =>
  }

  /** Towards version 3, - 1E0 and 1E0 are the same code: no approximate literal keeps its sign. */
  lemma LostSign(cfg: Config, st: State, ttype: word, digits: seq<byte>)
    requires cfg.v3 && ParserBuilt(DoubleConst(ttype, digits))
    ensures var literal := Const(DoubleConst(ttype, digits));
            var negated := Operation(Negate, [literal]);
            && ValidNode(negated) && Lower(cfg, negated) == Lower(cfg, literal) && Lower(cfg, negated).Some?
            && Eval(PlainEngine(), st, Lower(cfg, negated).value) != Denote(PlainEngine(), cfg, st, negated)
  {
    var literal := Const(DoubleConst(ttype, digits));
    assert [literal][1..] == [];
    assert DenoteAll(PlainEngine(), cfg, st, [literal])
        == [Denote(PlainEngine(), cfg, st, literal)] + DenoteAll(PlainEngine(), cfg, st, [literal][1..]);
  }

  lemma {:induction false} CoalesceNodeMeaning(eng: Engine, cfg: Config, st: State, n: Node)
    requires n.Coalesce?
    requires ValidNode(n) && Lower(cfg, n).Some? && Parsed(cfg, n)
    ensures Eval(eng, st, Lower(cfg, n).value) == Denote(eng, cfg, st, n)
    ensures LocationOf(Lower(cfg, n).value) == NodeLocation(cfg, n)
    decreases n, 0
  {
    hide LowerConstant, ConstantValue, FoldsWell, Apply, EvalOp, LiteralValue, DescriptorType, Matches,
         CaseChain, CoalesceChain, EqualTests, FirstTrue, FirstNonNull, Update, ValidConstant;
    assert ValidNodes(n.tests);
    var tested := n.tests[..|n.tests| - 1];
    LowerAllMeaning(eng, cfg, st, tested);
    LowerAllMeaning(eng, cfg, st, n.results);
    CoalesceMeaning(eng, st, LowerAll(cfg, tested).value, LowerAll(cfg, n.results).value);
  }

  lemma {:induction false} SearchedCaseMeaning(eng: Engine, cfg: Config, st: State, n: Node)
    requires n.SearchedCase?
    requires ValidNode(n) && Lower(cfg, n).Some? && Parsed(cfg, n)
    ensures Eval(eng, st, Lower(cfg, n).value) == Denote(eng, cfg, st, n)
    ensures LocationOf(Lower(cfg, n).value) == NodeLocation(cfg, n)
    decreases n, 0
  {
    hide LowerConstant, ConstantValue, FoldsWell, Apply, EvalOp, LiteralValue, DescriptorType, Matches,
         CaseChain, CoalesceChain, EqualTests, FirstTrue, FirstNonNull, Update, ValidConstant;
    LowerAllMeaning(eng, cfg, st, n.conditions);
    LowerAllMeaning(eng, cfg, st, n.results);
    CaseMeaning(eng, st, LowerAll(cfg, n.conditions).value, LowerAll(cfg, n.results).value);
  }

  lemma {:induction false} SimpleCaseMeaning(eng: Engine, cfg: Config, st: State, n: Node)
    requires n.SimpleCase?
    requires ValidNode(n) && Lower(cfg, n).Some? && Parsed(cfg, n)
    ensures Eval(eng, st, Lower(cfg, n).value) == Denote(eng, cfg, st, n)
    ensures LocationOf(Lower(cfg, n).value) == NodeLocation(cfg, n)
    decreases n, 0
  {
    hide LowerConstant, ConstantValue, FoldsWell, Apply, EvalOp, LiteralValue, DescriptorType, Matches,
         CaseChain, CoalesceChain, EqualTests, FirstTrue, FirstNonNull, Update, ValidConstant;
    LowerMeaning(eng, cfg, st, n.operand);
    LowerAllMeaning(eng, cfg, st, n.whens);
    LowerAllMeaning(eng, cfg, st, n.results);
    var o, ws := Lower(cfg, n.operand).value, LowerAll(cfg, n.whens).value;
    EqualTestsMeaning(eng, st, o, ws);
    CaseMeaning(eng, st, EqualTests(o, ws), LowerAll(cfg, n.results).value);
  }

  lemma {:induction false} OperationMeaning(eng: Engine, cfg: Config, st: State, n: Node)
    requires n.Operation?
    requires ValidNode(n) && Lower(cfg, n).Some? && Parsed(cfg, n)
    ensures Eval(eng, st, Lower(cfg, n).value) == Denote(eng, cfg, st, n)
    ensures LocationOf(Lower(cfg, n).value) == NodeLocation(cfg, n)
    decreases n.args, 2
  {
    if Folds(n) {
      var c := n.args[0].constant;
      assert ValidNode(n.args[0]) && Parsed(cfg, n.args[0]);
      FoldedNegation(cfg, c);
      var e := LowerConstant(cfg, c, true).value;
      assert e.Literal? && Eval(eng, st, e) == LiteralMeaning(e);
      assert n.args[1..] == [];
      assert DenoteAll(eng, cfg, st, n.args)
          == [Denote(eng, cfg, st, n.args[0])] + DenoteAll(eng, cfg, st, n.args[1..]);
    } else {
      LowerAllMeaning(eng, cfg, st, n.args);
      OperatorMeaning(eng, n.op, DenoteAll(eng, cfg, st, n.args));
    }
  }

  lemma {:induction false} LowerAllMeaning(eng: Engine, cfg: Config, st: State, ns: seq<Node>)
    requires ValidNodes(ns) && LowerAll(cfg, ns).Some? && AllParsed(cfg, ns)
    ensures EvalAll(eng, st, LowerAll(cfg, ns).value) == DenoteAll(eng, cfg, st, ns)
    decreases ns, 1
  {
    if ns != [] {
      LowerMeaning(eng, cfg, st, ns[0]);
      LowerAllMeaning(eng, cfg, st, ns[1..]);
      assert LowerAll(cfg, ns).value[1..] == LowerAll(cfg, ns[1..]).value;
    }
  }

  ghost predicate FirstNonNullAt(vs: seq<Value>, i: nat) {
    i < |vs| && !vs[i].Null? && forall k :: 0 <= k < i ==> vs[k].Null?
  }

  lemma {:induction false} DenotePrefix(eng: Engine, cfg: Config, st: State, ns: seq<Node>, k: nat)
    requires ValidNodes(ns) && k <= |ns|
    ensures DenoteAll(eng, cfg, st, ns[..k]) == DenoteAll(eng, cfg, st, ns)[..k]
  {
    if k > 0 {
      DenotePrefix(eng, cfg, st, ns[1..], k - 1);
      assert ns[..k][1..] == ns[1..][..k - 1];
    }
  }

  lemma CoalesceValue(eng: Engine, cfg: Config, st: State, n: Node)
    requires n.Coalesce? && ValidNode(n) && Lower(cfg, n).Some? && Parsed(cfg, n)
    ensures ValidNodes(n.tests) && ValidNodes(n.results) && |n.tests| == |n.results| > 0
    ensures DescriptorType(cfg, n.desc).Some?
    ensures Eval(eng, st, Lower(cfg, n).value)
            == eng.cast(DescriptorType(cfg, n.desc).value,
                        DenoteAll(eng, cfg, st, n.results)
                          [FirstNonNull(DenoteAll(eng, cfg, st, n.tests[..|n.tests| - 1]))])
  {
    hide LowerAll, DescriptorType, FirstNonNull, CoalesceChain, Eval;
    LowerMeaning(eng, cfg, st, n);
  }

  /** COALESCE over one list, as the grammar makes it: the first value that is not null. */
  lemma CoalesceIsFirstNonNull(eng: Engine, cfg: Config, st: State, n: Node, i: nat)
    requires n.Coalesce? && n.tests == n.results
    requires ValidNode(n) && Lower(cfg, n).Some? && Parsed(cfg, n)
    requires FirstNonNullAt(DenoteAll(eng, cfg, st, n.results), i)
    ensures Eval(eng, st, Lower(cfg, n).value)
            == eng.cast(DescriptorType(cfg, n.desc).value, DenoteAll(eng, cfg, st, n.results)[i])
  {
    CoalesceValue(eng, cfg, st, n);
    DenotePrefix(eng, cfg, st, n.tests, |n.tests| - 1);
    LastIsUntested(DenoteAll(eng, cfg, st, n.tests), i);
  }

  lemma LastIsUntested(vs: seq<Value>, i: nat)
    requires FirstNonNullAt(vs, i)
    ensures FirstNonNull(vs[..|vs| - 1]) == i
  {
    var tested := vs[..|vs| - 1];
    assert forall k :: 0 <= k < |tested| ==> tested[k] == vs[k];
  }

  lemma CoalesceOfNullsIsNull(eng: Engine, cfg: Config, st: State, n: Node)
    requires n.Coalesce? && n.tests == n.results
    requires ValidNode(n) && Lower(cfg, n).Some? && Parsed(cfg, n)
    requires forall v :: v in DenoteAll(eng, cfg, st, n.results) ==> v == Value.Null
    ensures Eval(eng, st, Lower(cfg, n).value)
            == eng.cast(DescriptorType(cfg, n.desc).value, Value.Null)
  {
    CoalesceValue(eng, cfg, st, n);
    var vs := DenoteAll(eng, cfg, st, n.results);
    var first := FirstNonNull(DenoteAll(eng, cfg, st, n.tests[..|n.tests| - 1]));
    assert vs[first] in vs;
  }
}
