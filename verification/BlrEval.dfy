/**
 What the engine does with the byte code: values under SQL's three-valued logic, and
 statements over record contexts, variables, parameters and stored relations.
 Arithmetic, text operators, ordering and conversion are the engine's own and are
 parameters of the semantics; the logic, the branches and the control flow are not.
 */
module BlrEval {
  import opened Wrappers
  import opened Bytes
  import opened BlrVerbs
  import opened Blr

  /** Null is also the truth value "unknown". */
  datatype Value =
    | Null
    | Bool(b: bool)
    | Number(mantissa: int, scale: int)
    | Approximate(digits: seq<byte>)
    | Chars(ttype: Option<word>, text: seq<byte>)
    | Opaque(dtype: Dtype, data: seq<byte>)

  const TRUE := Bool(true)
  const FALSE := Bool(false)

  /** The operators whose result the engine alone determines. */
  datatype Operator =
    | Plus | Minus | Times | Over | Negation | Concatenation | Upper | Substring
    | Containing | Starting | Like | LikeEscape
    | UserName | CurrentDate | CurrentTime | CurrentTimestamp | CurrentRole | InternalInfo
    | ArrayElement | ExtractPart(part: byte)

  datatype Engine = Engine(
    compare: (Value, Value) -> int,
    apply: (Operator, seq<Value>) -> Value,
    cast: (Dtype, Value) -> Value
  )

  datatype FieldKey = ById(id: word) | ByName(n: name) | DbKey | RecordVersion

  type Row = map<FieldKey, Value>

  datatype State = State(
    contexts: map<byte, Row>,
    variables: map<word, Value>,
    parameters: map<(byte, word), Value>,
    relations: map<name, seq<Row>>
  )

  datatype Location =
    | FieldAt(context: byte, key: FieldKey)
    | VariableAt(number: word)
    | ParameterAt(message: byte, item: word, indicator: Option<word>)
    | Nowhere

  // ----- three-valued logic

  function And3(a: Value, b: Value): Value {
    if a == FALSE || b == FALSE then FALSE
    else if a == TRUE && b == TRUE then TRUE
    else Null
  }

  function Or3(a: Value, b: Value): Value {
    if a == TRUE || b == TRUE then TRUE
    else if a == FALSE && b == FALSE then FALSE
    else Null
  }

  function Not3(a: Value): Value {
    match a
    case Bool(b) => Bool(!b)
    case _ => Null
  }

  datatype Comparison = Eql | Neq | Gtr | Geq | Lss | Leq

  function Compare3(eng: Engine, c: Comparison, a: Value, b: Value): Value {
    if a.Null? || b.Null? then Null
    else
      var order := eng.compare(a, b);
      match c
      case Eql => Bool(order == 0)
      case Neq => Bool(order != 0)
      case Gtr => Bool(order > 0)
      case Geq => Bool(order >= 0)
      case Lss => Bool(order < 0)
      case Leq => Bool(order <= 0)
  }

  function Between3(eng: Engine, v: Value, low: Value, high: Value): Value {
    And3(Compare3(eng, Geq, v, low), Compare3(eng, Leq, v, high))
  }

  function Negate(eng: Engine, v: Value): Value {
    match v
    case Null => Null
    case Number(m, scale) => Number(-m, scale)
    case Approximate(digits) => Approximate(['-' as int] + digits)
    case _ => eng.apply(Negation, [v])
  }

  // ----- values

  function LiteralValue(d: Dtype, data: seq<byte>): Value {
    match d
    case Short(scale) =>
      if |data| < 2 then Null
      else Number(Signed(FromWord(data), 0x1_0000), Signed(scale, 0x100))
    case Long(scale) =>
      if |data| < 4 then Null
      else Number(Signed(FromDouble(data), 0x1_0000_0000), Signed(scale, 0x100))
    case Int64(scale) =>
      if |data| < 8 then Null
      else Number(Signed(FromQuad(data), 0x1_0000_0000_0000_0000), Signed(scale, 0x100))
    case DoublePrecision => Approximate(data)
    case Text(_) => Chars(None, data)
    case Text2(ttype, _) => Chars(Some(ttype), data)
    case _ => Opaque(d, data)
  }

  function Fetch(st: State, loc: Location): Value {
    match loc
    case FieldAt(context, key) =>
      if context in st.contexts && key in st.contexts[context] then st.contexts[context][key] else Null
    case VariableAt(number) => if number in st.variables then st.variables[number] else Null
    case ParameterAt(message, item, indicator) =>
      if indicator.Some? && (message, indicator.value) in st.parameters
         && st.parameters[(message, indicator.value)] == Number(-1, 0) then Null
      else if (message, item) in st.parameters then st.parameters[(message, item)]
      else Null
    case Nowhere => Null
  }

  function Update(st: State, loc: Location, v: Value): State {
    match loc
    case FieldAt(context, key) =>
      var row := if context in st.contexts then st.contexts[context] else map[];
      st.(contexts := st.contexts[context := row[key := v]])
    case VariableAt(number) => st.(variables := st.variables[number := v])
    case ParameterAt(message, item, indicator) =>
      var stored := st.parameters[(message, item) := v];
      st.(parameters :=
        if indicator.Some? then
          stored[(message, indicator.value) := Number(if v.Null? then -1 else 0, 0)]
        else stored)
    case Nowhere => st
  }

  function LocationOf(e: Expr): Location {
    match e
    case Context(verb, context) => FieldAt(context, if verb == BLR_DBKEY then DbKey else RecordVersion)
    case Fid(context, id) => FieldAt(context, ById(id))
    case Field(context, n) => FieldAt(context, ByName(n))
    case Variable(number) => VariableAt(number)
    case Parameter(message, item) => ParameterAt(message, item, None)
    case Parameter2(message, item, indicator) => ParameterAt(message, item, Some(indicator))
    case _ => Nowhere
  }

  function Eval(eng: Engine, st: State, e: Expr): Value {
    match e
    case Literal(d, data) => LiteralValue(d, data)
    case Index(f, subs) => eng.apply(ArrayElement, [Eval(eng, st, f)] + EvalAll(eng, st, subs))
    case Extract(part, v) => eng.apply(ExtractPart(part), [Eval(eng, st, v)])
    case Cast(d, v) => eng.cast(d, Eval(eng, st, v))
    case Op(verb, args) => EvalOp(eng, verb, EvalAll(eng, st, args))
    case _ => Fetch(st, LocationOf(e))
  }

  function EvalAll(eng: Engine, st: State, es: seq<Expr>): (vs: seq<Value>)
    ensures |vs| == |es|
  {
    if es == [] then [] else [Eval(eng, st, es[0])] + EvalAll(eng, st, es[1..])
  }

  function EvalOp(eng: Engine, verb: byte, vs: seq<Value>): Value {
    if Arity(verb) != Some(|vs|) then Null
    else if verb == BLR_AND then And3(vs[0], vs[1])
    else if verb == BLR_OR then Or3(vs[0], vs[1])
    else if verb == BLR_NOT then Not3(vs[0])
    else if verb == BLR_EQL then Compare3(eng, Eql, vs[0], vs[1])
    else if verb == BLR_NEQ then Compare3(eng, Neq, vs[0], vs[1])
    else if verb == BLR_GTR then Compare3(eng, Gtr, vs[0], vs[1])
    else if verb == BLR_GEQ then Compare3(eng, Geq, vs[0], vs[1])
    else if verb == BLR_LSS then Compare3(eng, Lss, vs[0], vs[1])
    else if verb == BLR_LEQ then Compare3(eng, Leq, vs[0], vs[1])
    else if verb == BLR_BETWEEN then Between3(eng, vs[0], vs[1], vs[2])
    else if verb == BLR_MISSING then Bool(vs[0].Null?)
    else if verb == BLR_VALUE_IF then (if vs[0] == TRUE then vs[1] else vs[2])
    else if verb == BLR_NULL then Null
    else if verb == BLR_NEGATE then Negate(eng, vs[0])
    else eng.apply(VerbOperator(verb), vs)
  }

  function VerbOperator(verb: byte): Operator {
    if verb == BLR_ADD then Plus
    else if verb == BLR_SUBTRACT then Minus
    else if verb == BLR_MULTIPLY then Times
    else if verb == BLR_DIVIDE then Over
    else if verb == BLR_CONCATENATE then Concatenation
    else if verb == BLR_UPCASE then Upper
    else if verb == BLR_SUBSTRING then Substring
    else if verb == BLR_CONTAINING then Containing
    else if verb == BLR_STARTING then Starting
    else if verb == BLR_LIKE then Like
    else if verb == BLR_ANSI_LIKE then LikeEscape
    else if verb == BLR_USER_NAME then UserName
    else if verb == BLR_CURRENT_DATE then CurrentDate
    else if verb == BLR_CURRENT_TIME then CurrentTime
    else if verb == BLR_CURRENT_TIMESTAMP then CurrentTimestamp
    else if verb == BLR_CURRENT_ROLE then CurrentRole
    else InternalInfo
  }

  // ----- statements

  /** How a statement ends; Left unwinds to the label of that number. */
  datatype Outcome = Done(st: State) | Left(lbl: byte, st: State) | Timeout

  /** Each turn of a loop takes one unit of fuel. */
  function Run(eng: Engine, s: Stmt, st: State, fuel: nat): Outcome
    decreases fuel, s, 0
  {
    match s
    case Assignment(source, target) =>
      Done(Update(st, LocationOf(target), Eval(eng, st, source)))
    case Begin(body) => RunAll(eng, body, st, fuel)
    case If(c, t, f) =>
      if Eval(eng, st, c) == TRUE then Run(eng, t, st, fuel)
      else if f.Some? then Run(eng, f.value, st, fuel)
      else Done(st)
    case Label(lbl, body) =>
      (match Run(eng, body, st, fuel)
       case Left(l, st') => if l == lbl then Done(st') else Left(l, st')
       case other => other)
    case Loop(body) =>
      if fuel == 0 then Timeout
      else (match Run(eng, body, st, fuel)
            case Done(st') => Run(eng, s, st', fuel - 1)
            case other => other)
    case Leave(lbl) => Left(lbl, st)
    case For(rse, body) =>
      RunFor(eng, rse, body, if rse.relation in st.relations then st.relations[rse.relation] else [],
             [], st, fuel)
    case Modify(org, new_, body) =>
      if org !in st.contexts then Done(st)
      else (match Run(eng, body, st.(contexts := st.contexts[new_ := st.contexts[org]]), fuel)
            case Done(st') =>
              Done(if new_ in st'.contexts then st'.(contexts := st'.contexts[org := st'.contexts[new_]])
                   else st')
            case other => other)
    case Erase(context) => Done(st.(contexts := st.contexts - {context}))
  }

  function RunAll(eng: Engine, ss: seq<Stmt>, st: State, fuel: nat): Outcome
    decreases fuel, ss, 0
  {
    if ss == [] then Done(st)
    else match Run(eng, ss[0], st, fuel)
      case Done(st') => RunAll(eng, ss[1..], st', fuel)
      case other => other
  }

  /**
   The rows still to visit and those already visited; a row the selection does not hold
   of stays, a row whose context the body erased goes, any other is stored as the body
   left it.
   */
  function RunFor(eng: Engine, rse: Rse, body: Stmt, rows: seq<Row>, visited: seq<Row>,
                  st: State, fuel: nat): Outcome
    decreases fuel, body, |rows| + 1
  {
    if rows == [] then Done(Store(st, rse, visited))
    else
      var at := st.(contexts := st.contexts[rse.context := rows[0]]);
      if rse.boolean.Some? && Eval(eng, at, rse.boolean.value) != TRUE then
        RunFor(eng, rse, body, rows[1..], visited + [rows[0]], st, fuel)
      else match Run(eng, body, at, fuel)
        case Done(st') =>
          RunFor(eng, rse, body, rows[1..], visited + Current(st', rse.context), st', fuel)
        case Left(l, st') =>
          Left(l, Store(st', rse, visited + Current(st', rse.context) + rows[1..]))
        case Timeout => Timeout
  }

  function Current(st: State, context: byte): seq<Row> {
    if context in st.contexts then [st.contexts[context]] else []
  }

  function Store(st: State, rse: Rse, rows: seq<Row>): State {
    st.(relations := st.relations[rse.relation := rows], contexts := st.contexts - {rse.context})
  }
}
