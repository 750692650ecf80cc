/**
 The binary language the compiler emits: its abstract syntax, its byte form and the
 parser the engine applies to it.  Every verb is a prefix: a decoder that knows the
 verb's shape knows where each operand ends.
 */
module Blr {
  import opened Wrappers
  import opened Bytes
  import opened BlrVerbs

  type name = s: seq<byte> | |s| < 0x100

  datatype Dtype =
    | Text(length: word)
    | Text2(ttype: word, length: word)
    | Varying(length: word)
    | Varying2(ttype: word, length: word)
    | Short(scale: byte)
    | Long(scale: byte)
    | Quadword(scale: byte)
    | Int64(scale: byte)
    | Float
    | DoublePrecision
    | SqlDate
    | SqlTime
    | Timestamp

  datatype Expr =
    | Literal(dtype: Dtype, data: seq<byte>)
    | Context(verb: byte, context: byte)
    | Fid(context: byte, id: word)
    | Field(context: byte, fieldName: name)
    | Index(field: Expr, subscripts: seq<Expr>)
    | Variable(number: word)
    | Parameter(message: byte, item: word)
    | Parameter2(message: byte, item: word, indicator: word)
    | Extract(part: byte, value: Expr)
    | Cast(dtype: Dtype, value: Expr)
    | Op(verb: byte, args: seq<Expr>)

  datatype Rse = Rse(relation: name, context: byte, boolean: Option<Expr>)

  datatype Stmt =
    | Assignment(source: Expr, target: Expr)
    | Begin(body: seq<Stmt>)
    | If(condition: Expr, thn: Stmt, els: Option<Stmt>)
    | Label(lbl: byte, statement: Stmt)
    | Loop(statement: Stmt)
    | Leave(lbl: byte)
    | For(rse: Rse, statement: Stmt)
    | Modify(org: byte, new_: byte, statement: Stmt)
    | Erase(context: byte)

  /** The number of operands of a verb that is followed by operands only. */
  function Arity(verb: byte): (n: Option<nat>) {
    if verb == BLR_NULL || verb == BLR_USER_NAME || verb == BLR_CURRENT_DATE
       || verb == BLR_CURRENT_TIME || verb == BLR_CURRENT_TIMESTAMP || verb == BLR_CURRENT_ROLE then Some(0)
    else if verb == BLR_NEGATE || verb == BLR_NOT || verb == BLR_MISSING || verb == BLR_UPCASE
       || verb == BLR_INTERNAL_INFO then Some(1)
    else if verb == BLR_ADD || verb == BLR_SUBTRACT || verb == BLR_MULTIPLY || verb == BLR_DIVIDE
       || verb == BLR_CONCATENATE || verb == BLR_EQL || verb == BLR_NEQ || verb == BLR_GTR
       || verb == BLR_GEQ || verb == BLR_LSS || verb == BLR_LEQ || verb == BLR_CONTAINING
       || verb == BLR_STARTING || verb == BLR_LIKE || verb == BLR_AND || verb == BLR_OR then Some(2)
    else if verb == BLR_BETWEEN || verb == BLR_SUBSTRING || verb == BLR_ANSI_LIKE
       || verb == BLR_VALUE_IF then Some(3)
    else None
  }

  /** The number of data bytes of a literal; None where the length is written in the stream. */
  function LiteralSize(d: Dtype): Option<nat> {
    match d
    case Text(length) => Some(length)
    case Text2(_, length) => Some(length)
    case Varying(_) => Some(0)
    case Varying2(_, _) => Some(0)
    case Short(_) => Some(2)
    case Long(_) | SqlDate | SqlTime => Some(4)
    case Quadword(_) | Int64(_) | Timestamp => Some(8)
    case Float => Some(4)
    case DoublePrecision => None
  }

  /** What the parser accepts: verbs with the operands they take. */
  predicate WellFormed(e: Expr) {
    match e
    case Literal(d, data) =>
      && !d.Varying? && !d.Varying2?
      && (if LiteralSize(d).Some? then |data| == LiteralSize(d).value else |data| < 0x1_0000)
    case Context(verb, _) => verb == BLR_DBKEY || verb == BLR_RECORD_VERSION
    case Index(f, subs) => (f.Fid? || f.Field?) && WellFormed(f) && |subs| < 0x100 && AllWellFormed(subs)
    case Extract(_, v) => WellFormed(v)
    case Cast(_, v) => WellFormed(v)
    case Op(verb, args) => Arity(verb) == Some(|args|) && AllWellFormed(args)
    case _ => true
  }

  predicate AllWellFormed(es: seq<Expr>) {
    forall i :: 0 <= i < |es| ==> WellFormed(es[i])
  }

  predicate WellFormedStmt(s: Stmt) {
    match s
    case Assignment(source, target) => WellFormed(source) && WellFormed(target)
    case Begin(body) => AllWellFormedStmts(body)
    case If(c, t, f) => WellFormed(c) && WellFormedStmt(t) && (f.Some? ==> WellFormedStmt(f.value))
    case Label(_, body) => WellFormedStmt(body)
    case Loop(body) => WellFormedStmt(body)
    case For(rse, body) => (rse.boolean.Some? ==> WellFormed(rse.boolean.value)) && WellFormedStmt(body)
    case Modify(_, _, body) => WellFormedStmt(body)
    case _ => true
  }

  predicate AllWellFormedStmts(ss: seq<Stmt>) {
    forall i :: 0 <= i < |ss| ==> WellFormedStmt(ss[i])
  }

  // ----- the byte form

  function EncodeName(s: name): seq<byte> {
    [|s|] + s
  }

  function EncodeDtype(d: Dtype): seq<byte> {
    match d
    case Text(length) => [BLR_TEXT] + Word(length)
    case Text2(ttype, length) => [BLR_TEXT2] + Word(ttype) + Word(length)
    case Varying(length) => [BLR_VARYING] + Word(length)
    case Varying2(ttype, length) => [BLR_VARYING2] + Word(ttype) + Word(length)
    case Short(scale) => [BLR_SHORT, scale]
    case Long(scale) => [BLR_LONG, scale]
    case Quadword(scale) => [BLR_QUAD, scale]
    case Int64(scale) => [BLR_INT64, scale]
    case Float => [BLR_FLOAT]
    case DoublePrecision => [BLR_DOUBLE]
    case SqlDate => [BLR_SQL_DATE]
    case SqlTime => [BLR_SQL_TIME]
    case Timestamp => [BLR_TIMESTAMP]
  }

  function Encode(e: Expr): seq<byte> {
    match e
    case Literal(d, data) =>
      [BLR_LITERAL] + EncodeDtype(d) + (if LiteralSize(d).None? then Word(|data|) else []) + data
    case Context(verb, context) => [verb, context]
    case Fid(context, id) => [BLR_FID, context] + Word(id)
    case Field(context, n) => [BLR_FIELD, context] + EncodeName(n)
    case Index(f, subs) => [BLR_INDEX] + Encode(f) + [Low8(|subs|)] + EncodeAll(subs)
    case Variable(number) => [BLR_VARIABLE] + Word(number)
    case Parameter(message, item) => [BLR_PARAMETER, message] + Word(item)
    case Parameter2(message, item, indicator) =>
      [BLR_PARAMETER2, message] + Word(item) + Word(indicator)
    case Extract(part, v) => [BLR_EXTRACT, part] + Encode(v)
    case Cast(d, v) => [BLR_CAST] + EncodeDtype(d) + Encode(v)
    case Op(verb, args) => [verb] + EncodeAll(args)
  }

  function EncodeAll(es: seq<Expr>): seq<byte> {
    if es == [] then [] else Encode(es[0]) + EncodeAll(es[1..])
  }

  function EncodeRse(rse: Rse): seq<byte> {
    [BLR_RSE, 1, BLR_RELATION] + EncodeName(rse.relation) + [rse.context]
    + (if rse.boolean.Some? then [BLR_BOOLEAN] + Encode(rse.boolean.value) else [])
    + [BLR_END]
  }

  function EncodeStmt(s: Stmt): seq<byte> {
    match s
    case Assignment(source, target) => [BLR_ASSIGNMENT] + Encode(source) + Encode(target)
    case Begin(body) => [BLR_BEGIN] + EncodeStmts(body) + [BLR_END]
    case If(c, t, f) =>
      [BLR_IF] + Encode(c) + EncodeStmt(t) + (if f.Some? then EncodeStmt(f.value) else [BLR_END])
    case Label(lbl, body) => [BLR_LABEL, lbl] + EncodeStmt(body)
    case Loop(body) => [BLR_LOOP] + EncodeStmt(body)
    case Leave(lbl) => [BLR_LEAVE, lbl]
    case For(rse, body) => [BLR_FOR] + EncodeRse(rse) + EncodeStmt(body)
    case Modify(org, new_, body) => [BLR_MODIFY, org, new_] + EncodeStmt(body)
    case Erase(context) => [BLR_ERASE, context]
  }

  function EncodeStmts(ss: seq<Stmt>): seq<byte> {
    if ss == [] then [] else EncodeStmt(ss[0]) + EncodeStmts(ss[1..])
  }

  /** A whole request: version, one statement, end of command. */
  function EncodeRequest(version: byte, s: Stmt): seq<byte> {
    [version] + EncodeStmt(s) + [BLR_EOC]
  }

  // ----- the parser

  function DecodeName(bs: seq<byte>): (r: Option<(name, seq<byte>)>)
    ensures r.Some? ==> |r.value.1| < |bs|
  {
    if bs == [] || |bs| <= bs[0] then None
    else Some((bs[1..1 + bs[0]], bs[1 + bs[0]..]))
  }

  function DecodeDtype(bs: seq<byte>): (r: Option<(Dtype, seq<byte>)>)
    ensures r.Some? ==> |r.value.1| < |bs|
  {
    if bs == [] then None
    else
      var verb, rest := bs[0], bs[1..];
      if verb == BLR_TEXT && |rest| >= 2 then Some((Text(FromWord(rest)), rest[2..]))
      else if verb == BLR_TEXT2 && |rest| >= 4 then
        Some((Text2(FromWord(rest), FromWord(rest[2..])), rest[4..]))
      else if verb == BLR_VARYING && |rest| >= 2 then Some((Varying(FromWord(rest)), rest[2..]))
      else if verb == BLR_VARYING2 && |rest| >= 4 then
        Some((Varying2(FromWord(rest), FromWord(rest[2..])), rest[4..]))
      else if verb == BLR_SHORT && |rest| >= 1 then Some((Short(rest[0]), rest[1..]))
      else if verb == BLR_LONG && |rest| >= 1 then Some((Long(rest[0]), rest[1..]))
      else if verb == BLR_QUAD && |rest| >= 1 then Some((Quadword(rest[0]), rest[1..]))
      else if verb == BLR_INT64 && |rest| >= 1 then Some((Int64(rest[0]), rest[1..]))
      else if verb == BLR_FLOAT then Some((Float, rest))
      else if verb == BLR_DOUBLE then Some((DoublePrecision, rest))
      else if verb == BLR_SQL_DATE then Some((SqlDate, rest))
      else if verb == BLR_SQL_TIME then Some((SqlTime, rest))
      else if verb == BLR_TIMESTAMP then Some((Timestamp, rest))
      else None
  }

  function DecodeLiteral(bs: seq<byte>): (r: Option<(Expr, seq<byte>)>)
    ensures r.Some? ==> |r.value.1| < |bs|
  {
    var (d, rest) :- DecodeDtype(bs);
    if d.Varying? || d.Varying2? then None
    else if LiteralSize(d).Some? then
      var n := LiteralSize(d).value;
      if |rest| < n then None else Some((Literal(d, rest[..n]), rest[n..]))
    else if |rest| < 2 || |rest| - 2 < FromWord(rest) then None
    else
      var n := FromWord(rest);
      Some((Literal(d, rest[2..][..n]), rest[2..][n..]))
  }

  function Decode(bs: seq<byte>): (r: Option<(Expr, seq<byte>)>)
    ensures r.Some? ==> |r.value.1| < |bs|
    decreases |bs|, 0
  {
    if bs == [] then None
    else
      var verb, rest := bs[0], bs[1..];
      if Arity(verb).Some? then
        var (args, tail) :- DecodeAll(rest, Arity(verb).value);
        Some((Op(verb, args), tail))
      else if verb == BLR_LITERAL then DecodeLiteral(rest)
      else if (verb == BLR_DBKEY || verb == BLR_RECORD_VERSION) && |rest| >= 1 then
        Some((Context(verb, rest[0]), rest[1..]))
      else if verb == BLR_FID && |rest| >= 3 then
        Some((Fid(rest[0], FromWord(rest[1..])), rest[3..]))
      else if verb == BLR_FIELD && |rest| >= 1 then
        var (n, tail) :- DecodeName(rest[1..]);
        Some((Field(rest[0], n), tail))
      else if verb == BLR_INDEX then
        var (f, tail) :- Decode(rest);
        if tail == [] || !(f.Fid? || f.Field?) then None
        else
          var (subs, last) :- DecodeAll(tail[1..], tail[0]);
          Some((Index(f, subs), last))
      else if verb == BLR_VARIABLE && |rest| >= 2 then
        Some((Variable(FromWord(rest)), rest[2..]))
      else if verb == BLR_PARAMETER && |rest| >= 3 then
        Some((Parameter(rest[0], FromWord(rest[1..])), rest[3..]))
      else if verb == BLR_PARAMETER2 && |rest| >= 5 then
        Some((Parameter2(rest[0], FromWord(rest[1..]), FromWord(rest[3..])), rest[5..]))
      else if verb == BLR_EXTRACT && |rest| >= 1 then
        var (v, tail) :- Decode(rest[1..]);
        Some((Extract(rest[0], v), tail))
      else if verb == BLR_CAST then
        var (d, tail) :- DecodeDtype(rest);
        var (v, last) :- Decode(tail);
        Some((Cast(d, v), last))
      else None
  }

  function DecodeAll(bs: seq<byte>, n: nat): (r: Option<(seq<Expr>, seq<byte>)>)
    ensures r.Some? ==> |r.value.1| <= |bs| && |r.value.0| == n
    decreases |bs|, n
  {
    if n == 0 then Some(([], bs))
    else
      var (e, rest) :- Decode(bs);
      var (es, last) :- DecodeAll(rest, n - 1);
      Some(([e] + es, last))
  }

  function DecodeRse(bs: seq<byte>): (r: Option<(Rse, seq<byte>)>)
    ensures r.Some? ==> |r.value.1| < |bs|
  {
    if |bs| < 3 || bs[..3] != [BLR_RSE, 1, BLR_RELATION] then None
    else
      var (relation, tail) :- DecodeName(bs[3..]);
      if |tail| < 2 then None
      else if tail[1] == BLR_END then Some((Rse(relation, tail[0], None), tail[2..]))
      else if tail[1] != BLR_BOOLEAN then None
      else
        var (e, last) :- Decode(tail[2..]);
        if last == [] || last[0] != BLR_END then None
        else Some((Rse(relation, tail[0], Some(e)), last[1..]))
  }

  function DecodeStmt(bs: seq<byte>): (r: Option<(Stmt, seq<byte>)>)
    ensures r.Some? ==> |r.value.1| < |bs|
    decreases |bs|, 0
  {
    if bs == [] then None
    else
      var verb, rest := bs[0], bs[1..];
      if verb == BLR_ASSIGNMENT then
        var (source, tail) :- Decode(rest);
        var (target, last) :- Decode(tail);
        Some((Assignment(source, target), last))
      else if verb == BLR_BEGIN then
        var (body, last) :- DecodeStmts(rest);
        Some((Begin(body), last))
      else if verb == BLR_IF then
        var (c, tail) :- Decode(rest);
        var (t, more) :- DecodeStmt(tail);
        if more == [] then None
        else if more[0] == BLR_END then Some((If(c, t, None), more[1..]))
        else
          var (f, last) :- DecodeStmt(more);
          Some((If(c, t, Some(f)), last))
      else if verb == BLR_LABEL && |rest| >= 1 then
        var (body, last) :- DecodeStmt(rest[1..]);
        Some((Label(rest[0], body), last))
      else if verb == BLR_LOOP then
        var (body, last) :- DecodeStmt(rest);
        Some((Loop(body), last))
      else if verb == BLR_LEAVE && |rest| >= 1 then Some((Leave(rest[0]), rest[1..]))
      else if verb == BLR_FOR then
        var (rse, tail) :- DecodeRse(rest);
        var (body, last) :- DecodeStmt(tail);
        Some((For(rse, body), last))
      else if verb == BLR_MODIFY && |rest| >= 2 then
        var (body, last) :- DecodeStmt(rest[2..]);
        Some((Modify(rest[0], rest[1], body), last))
      else if verb == BLR_ERASE && |rest| >= 1 then Some((Erase(rest[0]), rest[1..]))
      else None
  }

  /** Statements up to and including the closing blr_end. */
  function DecodeStmts(bs: seq<byte>): (r: Option<(seq<Stmt>, seq<byte>)>)
    ensures r.Some? ==> |r.value.1| < |bs|
    decreases |bs|, 1
  {
    if bs == [] then None
    else if bs[0] == BLR_END then Some(([], bs[1..]))
    else
      var (s, rest) :- DecodeStmt(bs);
      var (ss, last) :- DecodeStmts(rest);
      Some(([s] + ss, last))
  }

  function DecodeRequest(bs: seq<byte>): Option<(byte, Stmt)> {
    if bs == [] then None
    else
      var (s, last) :- DecodeStmt(bs[1..]);
      if last == [BLR_EOC] then Some((bs[0], s)) else None
  }

  // ----- prefix decodability

  lemma WordThenRest(v: word, rest: seq<byte>)
    ensures FromWord(Word(v) + rest) == v
    ensures (Word(v) + rest)[2..] == rest
  {
    WordRoundTrip(v);
  }

  lemma TwoWords(v: word, w: word, rest: seq<byte>)
    ensures var bs := Word(v) + Word(w) + rest;
            FromWord(bs) == v && FromWord(bs[2..]) == w && bs[4..] == rest
  {
    var bs := Word(v) + Word(w) + rest;
    assert bs == Word(v) + (Word(w) + rest);
    WordThenRest(v, Word(w) + rest);
    WordThenRest(w, rest);
  }

  lemma NameDecodes(s: name, rest: seq<byte>)
    ensures DecodeName(EncodeName(s) + rest) == Some((s, rest))
  {
    var bs := EncodeName(s) + rest;
    assert bs[1..1 + |s|] == s;
    assert bs[1 + |s|..] == rest;
  }

  lemma DtypeDecodes(d: Dtype, rest: seq<byte>)
    ensures DecodeDtype(EncodeDtype(d) + rest) == Some((d, rest))
  {
    var bs := EncodeDtype(d) + rest;
    match d
    case Text(length) =>
      assert bs[1..] == Word(length) + rest;
      WordThenRest(length, rest);
    case Varying(length) =>
      assert bs[1..] == Word(length) + rest;
      WordThenRest(length, rest);
    case Text2(ttype, length) =>
      assert bs[1..] == Word(ttype) + Word(length) + rest;
      TwoWords(ttype, length, rest);
    case Varying2(ttype, length) =>
      assert bs[1..] == Word(ttype) + Word(length) + rest;
      TwoWords(ttype, length, rest);
    case Short(scale) => assert bs[2..] == rest;
    case Long(scale) => assert bs[2..] == rest;
    case Quadword(scale) => assert bs[2..] == rest;
    case Int64(scale) => assert bs[2..] == rest;
    case _ => assert bs[1..] == rest;
  }

  lemma LiteralDecodes(d: Dtype, data: seq<byte>, rest: seq<byte>)
    requires WellFormed(Literal(d, data))
    ensures Decode(Encode(Literal(d, data)) + rest) == Some((Literal(d, data), rest))
  {
    var payload := (if LiteralSize(d).None? then Word(|data|) else []) + data + rest;
    var tail := EncodeDtype(d) + payload;
    assert Encode(Literal(d, data)) + rest == [BLR_LITERAL] + tail;
    DtypeDecodes(d, payload);
    LiteralTail(d, data, payload, rest);
    assert ([BLR_LITERAL] + tail)[1..] == tail;
  }

  lemma LiteralTail(d: Dtype, data: seq<byte>, payload: seq<byte>, rest: seq<byte>)
    requires WellFormed(Literal(d, data))
    requires payload == (if LiteralSize(d).None? then Word(|data|) else []) + data + rest
    requires DecodeDtype(EncodeDtype(d) + payload) == Some((d, payload))
    ensures DecodeLiteral(EncodeDtype(d) + payload) == Some((Literal(d, data), rest))
  {
    hide EncodeDtype, DecodeDtype, Word;
    assert (data + rest)[..|data|] == data && (data + rest)[|data|..] == rest;
    if LiteralSize(d).None? {
      assert payload == Word(|data|) + (data + rest);
      WordThenRest(|data|, data + rest);
    } else {
      assert payload == data + rest;
    }
  }

  lemma LeafDecodes(e: Expr, rest: seq<byte>)
    requires WellFormed(e)
    requires e.Context? || e.Fid? || e.Variable? || e.Parameter?
    ensures Decode(Encode(e) + rest) == Some((e, rest))
  {
    var bs := Encode(e) + rest;
    var tail := bs[1..];
    match e
    case Context(verb, context) =>
      assert tail == [context] + rest;
    case Fid(context, id) =>
      assert tail[1..] == Word(id) + rest;
      WordThenRest(id, rest);
      assert tail[3..] == rest;
    case Variable(number) =>
      assert tail == Word(number) + rest;
      WordThenRest(number, rest);
    case Parameter(message, item) =>
      assert tail[1..] == Word(item) + rest;
      WordThenRest(item, rest);
      assert tail[3..] == rest;
  }

  lemma Parameter2Decodes(message: byte, item: word, indicator: word, rest: seq<byte>)
    ensures var e := Parameter2(message, item, indicator);
            Decode(Encode(e) + rest) == Some((e, rest))
  {
    var bs := Encode(Parameter2(message, item, indicator)) + rest;
    var tail := bs[1..];
    assert tail[1..] == Word(item) + Word(indicator) + rest;
    TwoWords(item, indicator, rest);
    assert tail[3..] == tail[1..][2..];
    assert tail[5..] == rest;
  }

  lemma FieldDecodes(context: byte, n: name, rest: seq<byte>)
    ensures Decode(Encode(Field(context, n)) + rest) == Some((Field(context, n), rest))
  {
    var tail := (Encode(Field(context, n)) + rest)[1..];
    assert tail[1..] == EncodeName(n) + rest;
    NameDecodes(n, rest);
  }

  // One lemma per verb for what the parser does with it, and one that finds the pieces of
  // the encoding; the parser's definition is hidden in the second.

  lemma OpDecodes(verb: byte, args: seq<Expr>, rest: seq<byte>)
    requires Arity(verb) == Some(|args|)
    requires DecodeAll(EncodeAll(args) + rest, |args|) == Some((args, rest))
    ensures Decode(Encode(Op(verb, args)) + rest) == Some((Op(verb, args), rest))
  {
    var bs := Encode(Op(verb, args)) + rest;
    assert bs[1..] == EncodeAll(args) + rest;
  }

  lemma IndexStep(bs: seq<byte>, f: Expr, subs: seq<Expr>, tail: seq<byte>, rest: seq<byte>)
    requires bs != [] && bs[0] == BLR_INDEX && (f.Fid? || f.Field?)
    requires Decode(bs[1..]) == Some((f, tail))
    requires tail != [] && tail[0] == |subs| && DecodeAll(tail[1..], |subs|) == Some((subs, rest))
    ensures Decode(bs) == Some((Index(f, subs), rest))
  {
  }

  lemma IndexDecodes(f: Expr, subs: seq<Expr>, more: seq<byte>, rest: seq<byte>)
    requires (f.Fid? || f.Field?) && |subs| < 0x100
    requires more == [|subs|] + (EncodeAll(subs) + rest)
    requires Decode(Encode(f) + more) == Some((f, more))
    requires DecodeAll(EncodeAll(subs) + rest, |subs|) == Some((subs, rest))
    ensures Decode(Encode(Index(f, subs)) + rest) == Some((Index(f, subs), rest))
  {
    hide Decode, DecodeAll;
    var bs := Encode(Index(f, subs)) + rest;
    assert bs[1..] == Encode(f) + more;
    assert more[1..] == EncodeAll(subs) + rest;
    IndexStep(bs, f, subs, more, rest);
  }

  lemma ExtractStep(bs: seq<byte>, v: Expr, rest: seq<byte>)
    requires |bs| >= 2 && bs[0] == BLR_EXTRACT
    requires Decode(bs[1..][1..]) == Some((v, rest))
    ensures Decode(bs) == Some((Extract(bs[1], v), rest))
  {
  }

  lemma ExtractDecodes(part: byte, v: Expr, rest: seq<byte>)
    requires Decode(Encode(v) + rest) == Some((v, rest))
    ensures Decode(Encode(Extract(part, v)) + rest) == Some((Extract(part, v), rest))
  {
    hide Decode;
    var bs := Encode(Extract(part, v)) + rest;
    assert bs[1..][1..] == Encode(v) + rest;
    ExtractStep(bs, v, rest);
  }

  lemma CastStep(bs: seq<byte>, d: Dtype, tail: seq<byte>, v: Expr, rest: seq<byte>)
    requires bs != [] && bs[0] == BLR_CAST && DecodeDtype(bs[1..]) == Some((d, tail))
    requires Decode(tail) == Some((v, rest))
    ensures Decode(bs) == Some((Cast(d, v), rest))
  {
    hide DecodeDtype;
  }

  lemma CastDecodes(d: Dtype, v: Expr, rest: seq<byte>)
    requires Decode(Encode(v) + rest) == Some((v, rest))
    ensures Decode(Encode(Cast(d, v)) + rest) == Some((Cast(d, v), rest))
  {
    hide Decode, DecodeDtype;
    var bs := Encode(Cast(d, v)) + rest;
    assert bs[1..] == EncodeDtype(d) + (Encode(v) + rest);
    DtypeDecodes(d, Encode(v) + rest);
    CastStep(bs, d, Encode(v) + rest, v, rest);
  }

  /** Reading back an encoded value returns that value and leaves exactly what follows it. */
  lemma {:induction false} DecodeEncode(e: Expr, rest: seq<byte>)
    requires WellFormed(e)
    ensures Decode(Encode(e) + rest) == Some((e, rest))
    decreases e, 0
  {
    match e
    case Literal(d, data) => LiteralDecodes(d, data, rest);
    case Context(_, _) => LeafDecodes(e, rest);
    case Fid(_, _) => LeafDecodes(e, rest);
    case Variable(_) => LeafDecodes(e, rest);
    case Parameter(_, _) => LeafDecodes(e, rest);
    case Parameter2(message, item, indicator) => Parameter2Decodes(message, item, indicator, rest);
    case Field(context, n) => FieldDecodes(context, n, rest);
    case Index(f, subs) =>
      var more := [|subs|] + (EncodeAll(subs) + rest);
      DecodeEncodeAll(subs, rest);
      DecodeEncode(f, more);
      IndexDecodes(f, subs, more, rest);
    case Extract(part, v) =>
      DecodeEncode(v, rest);
      ExtractDecodes(part, v, rest);
    case Cast(d, v) =>
      DecodeEncode(v, rest);
      CastDecodes(d, v, rest);
    case Op(verb, args) =>
      DecodeEncodeAll(args, rest);
      OpDecodes(verb, args, rest);
  }

  lemma {:induction false} DecodeEncodeAll(es: seq<Expr>, rest: seq<byte>)
    requires AllWellFormed(es)
    ensures DecodeAll(EncodeAll(es) + rest, |es|) == Some((es, rest))
    decreases es, 1
  {
    if es == [] {
      assert EncodeAll(es) + rest == rest;
    } else {
      assert EncodeAll(es) + rest == Encode(es[0]) + (EncodeAll(es[1..]) + rest);
      DecodeEncode(es[0], EncodeAll(es[1..]) + rest);
      DecodeEncodeAll(es[1..], rest);
      assert [es[0]] + es[1..] == es;
    }
  }

  lemma RseStep(bs: seq<byte>, relation: name, tail: seq<byte>)
    requires |bs| >= 3 && bs[..3] == [BLR_RSE, 1, BLR_RELATION]
    requires DecodeName(bs[3..]) == Some((relation, tail)) && |tail| >= 2
    ensures tail[1] == BLR_END ==> DecodeRse(bs) == Some((Rse(relation, tail[0], None), tail[2..]))
    ensures tail[1] == BLR_BOOLEAN && Decode(tail[2..]).Some? ==>
              var (e, last) := Decode(tail[2..]).value;
              last != [] && last[0] == BLR_END ==>
                DecodeRse(bs) == Some((Rse(relation, tail[0], Some(e)), last[1..]))
  {
    hide Decode, DecodeName;
  }

  lemma RseDecodes(rse: Rse, rest: seq<byte>)
    requires rse.boolean.Some? ==> WellFormed(rse.boolean.value)
    ensures DecodeRse(EncodeRse(rse) + rest) == Some((rse, rest))
  {
    hide Decode, DecodeName, DecodeRse, Encode, EncodeName, WellFormed;
    var bs := EncodeRse(rse) + rest;
    var tail := [rse.context]
                + (if rse.boolean.Some? then [BLR_BOOLEAN] + Encode(rse.boolean.value) else [])
                + [BLR_END] + rest;
    assert bs == [BLR_RSE, 1, BLR_RELATION] + (EncodeName(rse.relation) + tail);
    NameDecodes(rse.relation, tail);
    RseStep(bs, rse.relation, tail);
    match rse.boolean
    case None =>
      assert tail[2..] == rest;
    case Some(e) =>
      assert tail[2..] == Encode(e) + ([BLR_END] + rest);
      DecodeEncode(e, [BLR_END] + rest);
      assert ([BLR_END] + rest)[1..] == rest;
  }

  lemma FirstByteIsNotEnd(s: Stmt)
    ensures |EncodeStmt(s)| > 0 && EncodeStmt(s)[0] != BLR_END
  {
  }

  lemma AssignmentDecodes(source: Expr, target: Expr, rest: seq<byte>)
    requires WellFormed(source) && WellFormed(target)
    ensures DecodeStmt(EncodeStmt(Assignment(source, target)) + rest)
            == Some((Assignment(source, target), rest))
  {
    var tail := Encode(source) + (Encode(target) + rest);
    assert EncodeStmt(Assignment(source, target)) + rest == [BLR_ASSIGNMENT] + tail;
    assert ([BLR_ASSIGNMENT] + tail)[1..] == tail;
    DecodeEncode(source, Encode(target) + rest);
    DecodeEncode(target, rest);
  }

  lemma BeginStep(bs: seq<byte>, body: seq<Stmt>, rest: seq<byte>)
    requires bs != [] && bs[0] == BLR_BEGIN && DecodeStmts(bs[1..]) == Some((body, rest))
    ensures DecodeStmt(bs) == Some((Begin(body), rest))
  {
  }

  lemma BeginDecodes(body: seq<Stmt>, rest: seq<byte>)
    requires DecodeStmts(EncodeStmts(body) + [BLR_END] + rest) == Some((body, rest))
    ensures DecodeStmt(EncodeStmt(Begin(body)) + rest) == Some((Begin(body), rest))
  {
    hide DecodeStmt, DecodeStmts;
    var bs := EncodeStmt(Begin(body)) + rest;
    assert bs[1..] == EncodeStmts(body) + [BLR_END] + rest;
    BeginStep(bs, body, rest);
  }

  lemma IfStep(bs: seq<byte>, c: Expr, tail: seq<byte>, t: Stmt, more: seq<byte>)
    requires bs != [] && bs[0] == BLR_IF && Decode(bs[1..]) == Some((c, tail))
    requires DecodeStmt(tail) == Some((t, more)) && more != []
    ensures more[0] == BLR_END ==> DecodeStmt(bs) == Some((If(c, t, None), more[1..]))
    ensures more[0] != BLR_END && DecodeStmt(more).Some? ==>
              DecodeStmt(bs) == Some((If(c, t, Some(DecodeStmt(more).value.0)), DecodeStmt(more).value.1))
  {
    hide Decode;
  }

  lemma Regroup(verb: byte, a: seq<byte>, b: seq<byte>, c: seq<byte>, rest: seq<byte>)
    ensures var bs := [verb] + a + b + c + rest;
            bs[0] == verb && bs[1..] == a + (b + (c + rest))
  {
  }

  lemma IfElseDecodes(c: Expr, t: Stmt, f: Stmt, more: seq<byte>, rest: seq<byte>)
    requires WellFormed(c) && more == EncodeStmt(f) + rest
    requires DecodeStmt(EncodeStmt(t) + more) == Some((t, more))
    requires DecodeStmt(more) == Some((f, rest))
    ensures DecodeStmt(EncodeStmt(If(c, t, Some(f))) + rest) == Some((If(c, t, Some(f)), rest))
  {
    hide Decode, DecodeStmt, Encode;
    var bs := EncodeStmt(If(c, t, Some(f))) + rest;
    assert bs == [BLR_IF] + Encode(c) + EncodeStmt(t) + EncodeStmt(f) + rest;
    Regroup(BLR_IF, Encode(c), EncodeStmt(t), EncodeStmt(f), rest);
    DecodeEncode(c, EncodeStmt(t) + more);
    FirstByteIsNotEnd(f);
    assert more[0] == EncodeStmt(f)[0];
    IfStep(bs, c, EncodeStmt(t) + more, t, more);
  }

  lemma IfThenDecodes(c: Expr, t: Stmt, more: seq<byte>, rest: seq<byte>)
    requires WellFormed(c) && more == [BLR_END] + rest
    requires DecodeStmt(EncodeStmt(t) + more) == Some((t, more))
    ensures DecodeStmt(EncodeStmt(If(c, t, None)) + rest) == Some((If(c, t, None), rest))
  {
    hide Decode, DecodeStmt, Encode;
    var bs := EncodeStmt(If(c, t, None)) + rest;
    assert bs == [BLR_IF] + Encode(c) + EncodeStmt(t) + [BLR_END] + rest;
    Regroup(BLR_IF, Encode(c), EncodeStmt(t), [BLR_END], rest);
    DecodeEncode(c, EncodeStmt(t) + more);
    assert more[1..] == rest;
    IfStep(bs, c, EncodeStmt(t) + more, t, more);
  }

  lemma WrapperStep(bs: seq<byte>, body: Stmt, rest: seq<byte>)
    requires bs != []
    ensures bs[0] == BLR_LOOP && DecodeStmt(bs[1..]) == Some((body, rest)) ==>
              DecodeStmt(bs) == Some((Loop(body), rest))
    ensures bs[0] == BLR_LABEL && |bs| >= 2 && DecodeStmt(bs[1..][1..]) == Some((body, rest)) ==>
              DecodeStmt(bs) == Some((Label(bs[1], body), rest))
    ensures bs[0] == BLR_MODIFY && |bs| >= 3 && DecodeStmt(bs[1..][2..]) == Some((body, rest)) ==>
              DecodeStmt(bs) == Some((Modify(bs[1], bs[2], body), rest))
  {
  }

  lemma LabelDecodes(n: byte, body: Stmt, rest: seq<byte>)
    requires DecodeStmt(EncodeStmt(body) + rest) == Some((body, rest))
    ensures DecodeStmt(EncodeStmt(Label(n, body)) + rest) == Some((Label(n, body), rest))
  {
    hide DecodeStmt;
    var bs := EncodeStmt(Label(n, body)) + rest;
    assert bs[1..][1..] == EncodeStmt(body) + rest;
    WrapperStep(bs, body, rest);
  }

  lemma LoopDecodes(body: Stmt, rest: seq<byte>)
    requires DecodeStmt(EncodeStmt(body) + rest) == Some((body, rest))
    ensures DecodeStmt(EncodeStmt(Loop(body)) + rest) == Some((Loop(body), rest))
  {
    hide DecodeStmt;
    var bs := EncodeStmt(Loop(body)) + rest;
    assert bs[1..] == EncodeStmt(body) + rest;
    WrapperStep(bs, body, rest);
  }

  lemma ModifyDecodes(m: byte, n: byte, body: Stmt, rest: seq<byte>)
    requires DecodeStmt(EncodeStmt(body) + rest) == Some((body, rest))
    ensures DecodeStmt(EncodeStmt(Modify(m, n, body)) + rest) == Some((Modify(m, n, body), rest))
  {
    hide DecodeStmt;
    var bs := EncodeStmt(Modify(m, n, body)) + rest;
    assert bs[1..][2..] == EncodeStmt(body) + rest;
    WrapperStep(bs, body, rest);
  }

  lemma ForStep(bs: seq<byte>, rse: Rse, tail: seq<byte>, body: Stmt, rest: seq<byte>)
    requires bs != [] && bs[0] == BLR_FOR && DecodeRse(bs[1..]) == Some((rse, tail))
    requires DecodeStmt(tail) == Some((body, rest))
    ensures DecodeStmt(bs) == Some((For(rse, body), rest))
  {
    hide DecodeRse;
  }

  lemma ForDecodes(rse: Rse, body: Stmt, rest: seq<byte>)
    requires rse.boolean.Some? ==> WellFormed(rse.boolean.value)
    requires DecodeStmt(EncodeStmt(body) + rest) == Some((body, rest))
    ensures DecodeStmt(EncodeStmt(For(rse, body)) + rest) == Some((For(rse, body), rest))
  {
    hide DecodeStmt, DecodeRse;
    var bs := EncodeStmt(For(rse, body)) + rest;
    assert bs[1..] == EncodeRse(rse) + (EncodeStmt(body) + rest);
    RseDecodes(rse, EncodeStmt(body) + rest);
    ForStep(bs, rse, EncodeStmt(body) + rest, body, rest);
  }

  lemma OneByteDecodes(n: byte, rest: seq<byte>)
    ensures DecodeStmt(EncodeStmt(Leave(n)) + rest) == Some((Leave(n), rest))
    ensures DecodeStmt(EncodeStmt(Erase(n)) + rest) == Some((Erase(n), rest))
  {
    assert (EncodeStmt(Leave(n)) + rest)[1..] == [n] + rest;
    assert (EncodeStmt(Erase(n)) + rest)[1..] == [n] + rest;
    assert ([n] + rest)[1..] == rest;
  }

  /** The same for statements; a missing else branch and a block's end are both blr_end. */
  lemma {:induction false} DecodeEncodeStmt(s: Stmt, rest: seq<byte>)
    requires WellFormedStmt(s)
    ensures DecodeStmt(EncodeStmt(s) + rest) == Some((s, rest))
    decreases s, 0
  {
    match s
    case Assignment(source, target) => AssignmentDecodes(source, target, rest);
    case Begin(body) =>
      DecodeEncodeStmts(body, rest);
      BeginDecodes(body, rest);
    case If(c, t, None) =>
      DecodeEncodeStmt(t, [BLR_END] + rest);
      IfThenDecodes(c, t, [BLR_END] + rest, rest);
    case If(c, t, Some(f)) =>
      DecodeEncodeStmt(t, EncodeStmt(f) + rest);
      DecodeEncodeStmt(f, rest);
      IfElseDecodes(c, t, f, EncodeStmt(f) + rest, rest);
    case Label(n, body) =>
      DecodeEncodeStmt(body, rest);
      LabelDecodes(n, body, rest);
    case Loop(body) =>
      DecodeEncodeStmt(body, rest);
      LoopDecodes(body, rest);
    case Leave(n) => OneByteDecodes(n, rest);
    case For(rse, body) =>
      DecodeEncodeStmt(body, rest);
      ForDecodes(rse, body, rest);
    case Modify(m, n, body) =>
      DecodeEncodeStmt(body, rest);
      ModifyDecodes(m, n, body, rest);
    case Erase(n) => OneByteDecodes(n, rest);
  }

  lemma {:induction false} DecodeEncodeStmts(ss: seq<Stmt>, rest: seq<byte>)
    requires AllWellFormedStmts(ss)
    ensures DecodeStmts(EncodeStmts(ss) + [BLR_END] + rest) == Some((ss, rest))
    decreases ss, 1
  {
    var bs := EncodeStmts(ss) + [BLR_END] + rest;
    if ss == [] {
      assert bs[1..] == rest;
    } else {
      var more := EncodeStmts(ss[1..]) + [BLR_END] + rest;
      assert bs == EncodeStmt(ss[0]) + more;
      FirstByteIsNotEnd(ss[0]);
      DecodeEncodeStmt(ss[0], more);
      DecodeEncodeStmts(ss[1..], rest);
      assert [ss[0]] + ss[1..] == ss;
    }
  }

  lemma DecodeEncodeRequest(version: byte, s: Stmt)
    requires WellFormedStmt(s)
    ensures DecodeRequest(EncodeRequest(version, s)) == Some((version, s))
  {
    assert EncodeRequest(version, s)[1..] == EncodeStmt(s) + [BLR_EOC];
    DecodeEncodeStmt(s, [BLR_EOC]);
  }

  // ----- appending to an operand list, as the emitting loops do

  lemma {:induction false} EncodeAllAppend(es: seq<Expr>, e: Expr)
    ensures EncodeAll(es + [e]) == EncodeAll(es) + Encode(e)
  {
    if es == [] {
      assert es + [e] == [e];
      assert EncodeAll([e]) == Encode(e) + EncodeAll([]);
    } else {
      assert (es + [e])[1..] == es[1..] + [e];
      EncodeAllAppend(es[1..], e);
    }
  }

  lemma {:induction false} EncodeStmtsAppend(ss: seq<Stmt>, s: Stmt)
    ensures EncodeStmts(ss + [s]) == EncodeStmts(ss) + EncodeStmt(s)
  {
    if ss == [] {
      assert ss + [s] == [s];
      assert EncodeStmts([s]) == EncodeStmt(s) + EncodeStmts([]);
    } else {
      assert (ss + [s])[1..] == ss[1..] + [s];
      EncodeStmtsAppend(ss[1..], s);
    }
  }
}
