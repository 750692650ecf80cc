/**
 The compiler's input: the resolved tree of values and statements, with the meaning SQL
 gives it.  Nothing here mentions the byte code's shapes; the two meet in Lowering.
 */
module Tree {
  import opened Wrappers
  import opened Bytes
  import opened Blr
  import opened BlrEval

  /** What a request knows about its client and database. */
  datatype Config = Config(v3: bool, ids: bool, dialect: nat)

  datatype Constant =
    | ShortConst(short: int, scale: int)
    | LongConst(long: int, scale: int)
    | Int64Const(int64: int, scale: int)
    | DoubleConst(ttype: word, digits: seq<byte>)
    | TextConst(ttype: word, text: seq<byte>)
    | DateConst(date: int)
    | TimeConst(time: int)
    | TimestampConst(date: int, time: int)
    | QuadConst(scale: int, low: int, high: int)
    | BlobConst(low: int, high: int)

  /** The descriptor the compiler keeps for a node's result. */
  datatype Descriptor =
    | TextDesc(ttype: word, length: word)
    | VaryingDesc(ttype: word, length: word)
    | ShortDesc(scale: int)
    | LongDesc(scale: int)
    | QuadDesc(scale: int)
    | Int64Desc(scale: int)
    | RealDesc | DoubleDesc | DateDesc | TimeDesc | TimestampDesc | BlobDesc | ArrayDesc
    | OtherDesc

  datatype Builtin = User | Role | Today | Now | Timestamp_

  datatype NodType =
    | And | Or | Not
    | Eql | Neq | Gtr | Geq | Lss | Leq
    | Between | Containing | Starting | Like | Missing
    | Add | Subtract | Multiply | Divide
    | Add2 | Subtract2 | Multiply2 | Divide2
    | Negate | Concatenate | Null_ | Upcase | Substr | InternalInfo

  datatype Node =
    | Const(constant: Constant)
    | Alias(value: Node)
    | BuiltinValue(builtin: Builtin)
    | RelationKey(context: byte)
    | RelationVersion(context: byte)
    | FieldRef(context: byte, id: word, fieldName: name, newType: bool)
    | ElementRef(context: byte, id: word, fieldName: name, newType: bool, indices: seq<Node>)
    | MapRef(context: byte, position: word)
    | VariableRef(number: word)
    | InputRef(message: byte, item: word)
    | ParameterRef(message: byte, item: word, indicator: Option<word>)
    | ExtractOf(part: byte, value: Node)
    | Operation(op: NodType, args: seq<Node>)
    | Coalesce(desc: Descriptor, tests: seq<Node>, results: seq<Node>)
    | SimpleCase(desc: Descriptor, operand: Node, whens: seq<Node>, results: seq<Node>)
    | SearchedCase(desc: Descriptor, conditions: seq<Node>, results: seq<Node>)

  datatype Statement =
    | Assign(source: Node, target: Node)
    | List(statements: seq<Statement>)
    | IfThen(condition: Node, whenTrue: Statement, whenFalse: Option<Statement>)
    | While(number: nat, condition: Node, action: Statement)
    | BreakLeave(number: nat)
    | Exit

  // ----- what the parser and the semantic pass guarantee of a tree

  predicate Scale(s: int) {
    -0x80 <= s < 0x80
  }

  /** The approximate literal's length is kept in the descriptor's signed one-byte scale. */
  predicate ValidConstant(c: Constant) {
    match c
    case ShortConst(v, s) => MIN_SSHORT <= v <= MAX_SSHORT && Scale(s)
    case LongConst(v, s) => MIN_SLONG <= v <= MAX_SLONG && Scale(s)
    case Int64Const(v, s) => MIN_SINT64 <= v <= MAX_SINT64 && Scale(s)
    case DoubleConst(_, digits) => |digits| <= 0x7F
    case TextConst(_, text) => |text| < 0x1_0000
    case QuadConst(s, _, _) => Scale(s)
    case _ => true
  }

  /**
   The literals the lexer and the grammar can produce: unsigned, an integer up to 2^31 - 1
   as a long, longer or scaled digits as 64 bits (2^63 as the pattern of the most negative
   value), anything with an exponent as digits.  No short, quad or blob literal is ever made.
   */
  predicate ParserBuilt(c: Constant) {
    match c
    case LongConst(v, s) => 0 <= v <= MAX_SLONG && s == 0
    case Int64Const(v, s) => (0 <= v <= MAX_SINT64 || v == MIN_SINT64) && -0x80 <= s <= 0
    case DoubleConst(_, digits) => 0 < |digits| <= 0x7F
    case TextConst(_, text) => |text| < 0x1_0000
    case DateConst(_) | TimeConst(_) | TimestampConst(_, _) => true
    case _ => false
  }

  predicate ValidArity(op: NodType, n: nat) {
    match op
    case Null_ => n == 0
    case Not | Missing | Negate | Upcase | InternalInfo => n == 1
    case Between | Substr => n == 3
    case Like => n == 2 || n == 3
    case _ => n == 2
  }

  predicate ValidNode(n: Node) {
    match n
    case Const(c) => ValidConstant(c)
    case Alias(v) => ValidNode(v)
    case ElementRef(_, _, _, _, indices) => |indices| < 0x100 && ValidNodes(indices)
    case InputRef(_, item) => item < 0xFFFF
    case ExtractOf(_, v) => ValidNode(v)
    case Operation(op, args) => ValidArity(op, |args|) && ValidNodes(args)
    case Coalesce(_, tests, results) => |tests| == |results| > 0 && ValidNodes(tests) && ValidNodes(results)
    case SimpleCase(_, operand, whens, results) =>
      ValidNode(operand) && whens != [] && |results| == |whens| + 1 && ValidNodes(whens) && ValidNodes(results)
    case SearchedCase(_, conditions, results) =>
      conditions != [] && |results| == |conditions| + 1 && ValidNodes(conditions) && ValidNodes(results)
    case _ => true
  }

  predicate ValidNodes(ns: seq<Node>) {
    forall i :: 0 <= i < |ns| ==> ValidNode(ns[i])
  }

  predicate ValidStatement(s: Statement) {
    match s
    case Assign(source, target) => ValidNode(source) && ValidNode(target)
    case List(ss) => ValidStatements(ss)
    case IfThen(c, t, f) => ValidNode(c) && ValidStatement(t) && (f.Some? ==> ValidStatement(f.value))
    case While(_, c, action) => ValidNode(c) && ValidStatement(action)
    case _ => true
  }

  predicate ValidStatements(ss: seq<Statement>) {
    forall i :: 0 <= i < |ss| ==> ValidStatement(ss[i])
  }

  /**
   The numbers the semantic pass hands out: a loop carries its nesting level, a break the
   level of the loop it stands in.
   */
  predicate Numbered(s: Statement, level: nat) {
    match s
    case List(ss) => AllNumbered(ss, level)
    case IfThen(_, t, f) => Numbered(t, level) && (f.Some? ==> Numbered(f.value, level))
    case While(n, _, action) => n == level + 1 && Numbered(action, level + 1)
    case BreakLeave(n) => n == level && level > 0
    case _ => true
  }

  predicate AllNumbered(ss: seq<Statement>, level: nat) {
    forall i :: 0 <= i < |ss| ==> Numbered(ss[i], level)
  }

  // ----- meaning of values

  /**
   A numeric literal means the number it spells: the 64-bit pattern of the digits
   9223372036854775808 is the most negative integer, but the literal is positive.
   */
  function ConstantValue(cfg: Config, c: Constant): Value {
    match c
    case ShortConst(v, s) => Number(v, s)
    case LongConst(v, s) => Number(v, s)
    case Int64Const(v, s) => Number(if v == MIN_SINT64 then -v else v, s)
    case DoubleConst(_, digits) => if cfg.v3 then Chars(None, digits) else Approximate(digits)
    case TextConst(ttype, text) => Chars(if cfg.v3 then None else Some(ttype), text)
    case DateConst(d) => Opaque(SqlDate, Double(d))
    case TimeConst(t) => Opaque(SqlTime, Double(t))
    case TimestampConst(d, t) => Opaque(Timestamp, Double(d) + Double(t))
    case QuadConst(s, low, high) => Opaque(Quadword(Low8(s)), Double(low) + Double(high))
    case BlobConst(low, high) => Opaque(Quadword(0), Double(low) + Double(high))
  }

  function BuiltinOperator(b: Builtin): Operator {
    match b
    case User => UserName
    case Role => CurrentRole
    case Today => CurrentDate
    case Now => CurrentTime
    case Timestamp_ => CurrentTimestamp
  }

  /** The meaning of an operator; dialect 1 and dialect 3 arithmetic share the engine's operator. */
  function Apply(eng: Engine, op: NodType, vs: seq<Value>): Value
    requires ValidArity(op, |vs|)
  {
    match op
    case And => And3(vs[0], vs[1])
    case Or => Or3(vs[0], vs[1])
    case Not => Not3(vs[0])
    case Eql => Compare3(eng, Comparison.Eql, vs[0], vs[1])
    case Neq => Compare3(eng, Comparison.Neq, vs[0], vs[1])
    case Gtr => Compare3(eng, Comparison.Gtr, vs[0], vs[1])
    case Geq => Compare3(eng, Comparison.Geq, vs[0], vs[1])
    case Lss => Compare3(eng, Comparison.Lss, vs[0], vs[1])
    case Leq => Compare3(eng, Comparison.Leq, vs[0], vs[1])
    case Between => Between3(eng, vs[0], vs[1], vs[2])
    case Missing => Bool(vs[0] == Value.Null)
    case Null_ => Value.Null
    case Negate => BlrEval.Negate(eng, vs[0])
    case Add | Add2 => eng.apply(Plus, vs)
    case Subtract | Subtract2 => eng.apply(Minus, vs)
    case Multiply | Multiply2 => eng.apply(Times, vs)
    case Divide | Divide2 => eng.apply(Over, vs)
    case Concatenate => eng.apply(Concatenation, vs)
    case Upcase => eng.apply(Upper, vs)
    case Substr => eng.apply(Substring, vs)
    case Containing => eng.apply(Operator.Containing, vs)
    case Starting => eng.apply(Operator.Starting, vs)
    case Like => eng.apply(if |vs| == 2 then Operator.Like else LikeEscape, vs)
    case InternalInfo => eng.apply(Operator.InternalInfo, vs)
  }

  /** The first position that is not null, or the number of positions. */
  function FirstNonNull(vs: seq<Value>): (i: nat)
    ensures i <= |vs|
    ensures i < |vs| ==> !vs[i].Null?
    ensures forall k :: 0 <= k < i ==> vs[k].Null?
  {
    if vs == [] || !vs[0].Null? then 0 else 1 + FirstNonNull(vs[1..])
  }

  /** The first position that holds, or the number of positions. */
  function FirstTrue(vs: seq<Value>): (i: nat)
    ensures i <= |vs|
    ensures i < |vs| ==> vs[i] == TRUE
    ensures forall k :: 0 <= k < i ==> vs[k] != TRUE
  {
    if vs == [] || vs[0] == TRUE then 0 else 1 + FirstTrue(vs[1..])
  }

  /** Each WHEN value compared with the operand. */
  function Matches(eng: Engine, operand: Value, whens: seq<Value>): (vs: seq<Value>)
    ensures |vs| == |whens|
    ensures forall i :: 0 <= i < |vs| ==> vs[i] == Compare3(eng, Comparison.Eql, operand, whens[i])
  {
    seq(|whens|, i requires 0 <= i < |whens| => Compare3(eng, Comparison.Eql, operand, whens[i]))
  }

  function FieldLocation(cfg: Config, context: byte, id: word, n: name): Location {
    FieldAt(context, if cfg.ids then ById(id) else ByName(n))
  }

  function NodeLocation(cfg: Config, n: Node): Location {
    match n
    case Alias(v) => NodeLocation(cfg, v)
    case RelationKey(context) => FieldAt(context, DbKey)
    case RelationVersion(context) => FieldAt(context, RecordVersion)
    case FieldRef(context, id, fieldName, _) => FieldLocation(cfg, context, id, fieldName)
    case MapRef(context, position) => FieldAt(context, ById(position))
    case VariableRef(number) => VariableAt(number)
    case InputRef(message, item) => ParameterAt(message, item, Some((item + 1) % 0x1_0000))
    case ParameterRef(message, item, indicator) => ParameterAt(message, item, indicator)
    case _ => Nowhere
  }

  /** The cast every conditional expression gets; None where the type has no byte form. */
  function DescriptorType(cfg: Config, d: Descriptor): Option<Dtype> {
    match d
    case TextDesc(ttype, length) => Some(if cfg.v3 then Text(length) else Text2(ttype, length))
    case VaryingDesc(ttype, length) =>
      var n := (length - 2) % 0x1_0000;
      Some(if cfg.v3 then Varying(n) else Varying2(ttype, n))
    case ShortDesc(s) => Some(Short(Low8(s)))
    case LongDesc(s) => Some(Long(Low8(s)))
    case QuadDesc(s) => Some(Quadword(Low8(s)))
    case Int64Desc(s) => Some(Int64(Low8(s)))
    case RealDesc => Some(Float)
    case DoubleDesc => Some(DoublePrecision)
    case DateDesc => Some(SqlDate)
    case TimeDesc => Some(SqlTime)
    case TimestampDesc => Some(Timestamp)
    case BlobDesc => Some(Quadword(0))
    case ArrayDesc => Some(Quadword(0))
    case OtherDesc => None
  }

  function Converted(eng: Engine, cfg: Config, d: Descriptor, v: Value): Value {
    var dtype := DescriptorType(cfg, d);
    if dtype.Some? then eng.cast(dtype.value, v) else Value.Null
  }

  function Denote(eng: Engine, cfg: Config, st: State, n: Node): Value
    requires ValidNode(n)
  {
    match n
    case Const(c) => ConstantValue(cfg, c)
    case Alias(v) => Denote(eng, cfg, st, v)
    case BuiltinValue(b) => eng.apply(BuiltinOperator(b), [])
    case ElementRef(context, id, fieldName, _, indices) =>
      eng.apply(ArrayElement, [Fetch(st, FieldLocation(cfg, context, id, fieldName))]
                              + DenoteAll(eng, cfg, st, indices))
    case ExtractOf(part, v) => eng.apply(ExtractPart(part), [Denote(eng, cfg, st, v)])
    case Operation(op, args) => Apply(eng, op, DenoteAll(eng, cfg, st, args))
    case Coalesce(desc, tests, results) =>
      assert ValidNodes(tests);
      var vs := DenoteAll(eng, cfg, st, tests[..|tests| - 1]);
      var rs := DenoteAll(eng, cfg, st, results);
      Converted(eng, cfg, desc, rs[FirstNonNull(vs)])
    case SimpleCase(desc, operand, whens, results) =>
      var ws := Matches(eng, Denote(eng, cfg, st, operand), DenoteAll(eng, cfg, st, whens));
      var rs := DenoteAll(eng, cfg, st, results);
      Converted(eng, cfg, desc, rs[FirstTrue(ws)])
    case SearchedCase(desc, conditions, results) =>
      var cs := DenoteAll(eng, cfg, st, conditions);
      var rs := DenoteAll(eng, cfg, st, results);
      Converted(eng, cfg, desc, rs[FirstTrue(cs)])
    case _ => Fetch(st, NodeLocation(cfg, n))
  }

  function DenoteAll(eng: Engine, cfg: Config, st: State, ns: seq<Node>): (vs: seq<Value>)
    requires ValidNodes(ns)
    ensures |vs| == |ns|
  {
    if ns == [] then [] else [Denote(eng, cfg, st, ns[0])] + DenoteAll(eng, cfg, st, ns[1..])
  }

  // ----- meaning of statements

  /** A break leaves the innermost loop, an exit the whole body; neither names a label. */
  datatype Ending = Completed(st: State) | Broken(st: State) | Exited(st: State) | OutOfFuel

  /**
   How many labels there are to tell loops and the body apart.  With no bound on them this
   is what the language means; with labels of one byte, the loop whose number comes out as
   0, the body's own label, takes an exit for its own.
   */
  datatype Labels = Unbounded | OneByte {
    predicate Catches(n: nat) {
      OneByte? && n % 0x100 == 0
    }
  }

  function Execute(eng: Engine, cfg: Config, labels: Labels, s: Statement, st: State, fuel: nat): Ending
    requires ValidStatement(s)
    decreases fuel, s, 0
  {
    match s
    case Assign(source, target) =>
      Completed(Update(st, NodeLocation(cfg, target), Denote(eng, cfg, st, source)))
    case List(ss) => ExecuteAll(eng, cfg, labels, ss, st, fuel)
    case IfThen(c, t, f) =>
      if Denote(eng, cfg, st, c) == TRUE then Execute(eng, cfg, labels, t, st, fuel)
      else if f.Some? then Execute(eng, cfg, labels, f.value, st, fuel)
      else Completed(st)
    case While(n, c, action) =>
      if fuel == 0 then OutOfFuel
      else if Denote(eng, cfg, st, c) != TRUE then Completed(st)
      else (match Execute(eng, cfg, labels, action, st, fuel)
            case Completed(st') => Execute(eng, cfg, labels, s, st', fuel - 1)
            case Broken(st') => Completed(st')
            case Exited(st') => if labels.Catches(n) then Completed(st') else Exited(st')
            case OutOfFuel => OutOfFuel)
    case BreakLeave(_) => Broken(st)
    case Exit => Exited(st)
  }

  function ExecuteAll(eng: Engine, cfg: Config, labels: Labels, ss: seq<Statement>, st: State, fuel: nat): Ending
    requires ValidStatements(ss)
    decreases fuel, ss, 0
  {
    if ss == [] then Completed(st)
    else match Execute(eng, cfg, labels, ss[0], st, fuel)
      case Completed(st') => ExecuteAll(eng, cfg, labels, ss[1..], st', fuel)
      case other => other
  }
}
