/**
 The triggers generated for FOREIGN KEY ... ON DELETE/UPDATE: the byte code the DDL
 compiler writes for any number of key columns, and what the engine does with it to the
 referencing table.
 */
module Triggers {
  import opened Wrappers
  import opened Bytes
  import opened Streams
  import opened BlrVerbs
  import opened Blr
  import opened BlrEval
  import opened Request
  import Dyn

  const OLD_CONTEXT: byte := 0
  const NEW_CONTEXT: byte := 1
  const FOREIGN_CONTEXT: byte := 2

  const DYN_END: byte := 3
  const DYN_DEF_TRIGGER: byte := 15
  const DYN_REL_NAME: byte := 50
  const DYN_SYSTEM_FLAG: byte := 55
  const DYN_TRG_TYPE: byte := 110
  const DYN_TRG_BLR: byte := 111
  const DYN_TRG_SEQUENCE: byte := 115
  const DYN_TRG_INACTIVE: byte := 116
  const DYN_SQL_OBJECT: byte := 196
  const POST_MODIFY_TRIGGER := 4
  const POST_ERASE_TRIGGER := 6
  const SYSFLAG_REFERENTIAL := 4

  /** The columns of a key: referencing and referenced, pair by pair. */
  datatype Key = Key(foreign: seq<name>, primary: seq<name>)

  predicate ValidKey(k: Key) {
    |k.foreign| == |k.primary| > 0
  }

  // ----- the statements

  /** A chain of one binary verb: v e0 (v e1 (... en)). */
  function Chain(verb: byte, es: seq<Expr>): Expr
    requires es != []
  {
    if |es| == 1 then es[0] else Op(verb, [es[0], Chain(verb, es[1..])])
  }

  function Matches(k: Key): (es: seq<Expr>)
    requires ValidKey(k)
    ensures |es| == |k.foreign|
  {
    seq(|k.foreign|, i requires 0 <= i < |k.foreign| =>
      Op(BLR_EQL, [Field(FOREIGN_CONTEXT, k.foreign[i]), Field(OLD_CONTEXT, k.primary[i])]))
  }

  function Changes(primary: seq<name>): (es: seq<Expr>)
    ensures |es| == |primary|
  {
    seq(|primary|, i requires 0 <= i < |primary| =>
      Op(BLR_NEQ, [Field(OLD_CONTEXT, primary[i]), Field(NEW_CONTEXT, primary[i])]))
  }

  /** The rows of the referencing table whose key equals the old one. */
  function MatchingRows(k: Key, relation: name): Rse
    requires ValidKey(k)
  {
    Rse(relation, FOREIGN_CONTEXT, Some(Chain(BLR_AND, Matches(k))))
  }

  function NullAssignments(foreign: seq<name>): (ss: seq<Stmt>)
    ensures |ss| == |foreign|
  {
    seq(|foreign|, i requires 0 <= i < |foreign| =>
      Assignment(Op(BLR_NULL, []), Field(FOREIGN_CONTEXT, foreign[i])))
  }

  function KeyAssignments(k: Key): (ss: seq<Stmt>)
    requires ValidKey(k)
    ensures |ss| == |k.foreign|
  {
    seq(|k.foreign|, i requires 0 <= i < |k.foreign| =>
      Assignment(Field(NEW_CONTEXT, k.primary[i]), Field(FOREIGN_CONTEXT, k.foreign[i])))
  }

  /** Fire only if the key changed, for update triggers. */
  function Guarded(onUpdate: bool, k: Key, s: Stmt): Stmt
    requires ValidKey(k)
  {
    if onUpdate then If(Chain(BLR_OR, Changes(k.primary)), Begin([Begin([s])]), None) else s
  }

  function DeleteCascade(k: Key, relation: name): Stmt
    requires ValidKey(k)
  {
    For(MatchingRows(k, relation), Erase(FOREIGN_CONTEXT))
  }

  function ModifyRows(k: Key, relation: name, body: seq<Stmt>): Stmt
    requires ValidKey(k)
  {
    For(MatchingRows(k, relation), Modify(FOREIGN_CONTEXT, FOREIGN_CONTEXT, Begin(body)))
  }

  function SetNull(onUpdate: bool, k: Key, relation: name): Stmt
    requires ValidKey(k)
  {
    Guarded(onUpdate, k, ModifyRows(k, relation, NullAssignments(k.foreign)))
  }

  function UpdateCascade(k: Key, relation: name): Stmt
    requires ValidKey(k)
  {
    Guarded(true, k, ModifyRows(k, relation, KeyAssignments(k)))
  }

  // ----- each body is one statement the engine's parser accepts

  lemma {:induction false} ChainWellFormed(verb: byte, es: seq<Expr>)
    requires es != [] && AllWellFormed(es) && Arity(verb) == Some(2)
    ensures WellFormed(Chain(verb, es))
  {
    if |es| > 1 {
      ChainWellFormed(verb, es[1..]);
    }
  }

  lemma MatchesWellFormed(k: Key)
    requires ValidKey(k)
    ensures WellFormed(Chain(BLR_AND, Matches(k)))
  {
    forall i | 0 <= i < |k.foreign|
      ensures WellFormed(Matches(k)[i])
    {
      assert AllWellFormed([Field(FOREIGN_CONTEXT, k.foreign[i]), Field(OLD_CONTEXT, k.primary[i])]);
    }
    ChainWellFormed(BLR_AND, Matches(k));
  }

  lemma ChangesWellFormed(primary: seq<name>)
    requires primary != []
    ensures WellFormed(Chain(BLR_OR, Changes(primary)))
  {
    forall i | 0 <= i < |primary|
      ensures WellFormed(Changes(primary)[i])
    {
      assert AllWellFormed([Field(OLD_CONTEXT, primary[i]), Field(NEW_CONTEXT, primary[i])]);
    }
    ChainWellFormed(BLR_OR, Changes(primary));
  }

  lemma GuardedWellFormed(onUpdate: bool, k: Key, s: Stmt)
    requires ValidKey(k) && WellFormedStmt(s)
    ensures WellFormedStmt(Guarded(onUpdate, k, s))
  {
    if onUpdate {
      ChangesWellFormed(k.primary);
      assert WellFormedStmt(Begin([s]));
      assert WellFormedStmt(Begin([Begin([s])]));
    }
  }

  lemma ModifyRowsWellFormed(k: Key, relation: name, body: seq<Stmt>)
    requires ValidKey(k) && AllWellFormedStmts(body)
    ensures WellFormedStmt(ModifyRows(k, relation, body))
  {
    MatchesWellFormed(k);
    assert WellFormedStmt(Begin(body));
    assert WellFormedStmt(Modify(FOREIGN_CONTEXT, FOREIGN_CONTEXT, Begin(body)));
  }

  /** The three trigger bodies, as bytes, are each exactly one statement and its end mark. */
  lemma TriggersParse(onUpdate: bool, k: Key, relation: name, version: byte)
    requires ValidKey(k)
    ensures DecodeRequest(EncodeRequest(version, DeleteCascade(k, relation)))
            == Some((version, DeleteCascade(k, relation)))
    ensures DecodeRequest(EncodeRequest(version, SetNull(onUpdate, k, relation)))
            == Some((version, SetNull(onUpdate, k, relation)))
    ensures DecodeRequest(EncodeRequest(version, UpdateCascade(k, relation)))
            == Some((version, UpdateCascade(k, relation)))
  {
    MatchesWellFormed(k);
    DecodeEncodeRequest(version, DeleteCascade(k, relation));
    var nulls, keys := NullAssignments(k.foreign), KeyAssignments(k);
    ModifyRowsWellFormed(k, relation, nulls);
    GuardedWellFormed(onUpdate, k, ModifyRows(k, relation, nulls));
    DecodeEncodeRequest(version, SetNull(onUpdate, k, relation));
    ModifyRowsWellFormed(k, relation, keys);
    GuardedWellFormed(true, k, ModifyRows(k, relation, keys));
    DecodeEncodeRequest(version, UpdateCascade(k, relation));
  }

  // ----- what the key conditions mean

  function Column(row: Row, n: name): Value {
    if ByName(n) in row then row[ByName(n)] else Null
  }

  function ContextRow(st: State, context: byte): Row {
    if context in st.contexts then st.contexts[context] else map[]
  }

  predicate Equal(eng: Engine, a: Value, b: Value) {
    !a.Null? && !b.Null? && eng.compare(a, b) == 0
  }

  predicate Differ(eng: Engine, a: Value, b: Value) {
    !a.Null? && !b.Null? && eng.compare(a, b) != 0
  }

  /** The referencing row points at the old key: all its key columns are equal, none is null. */
  predicate Refers(eng: Engine, k: Key, row: Row, old_: Row)
    requires ValidKey(k)
  {
    forall i :: 0 <= i < |k.foreign| ==>
      Equal(eng, Column(row, k.foreign[i]), Column(old_, k.primary[i]))
  }

  predicate KeyChanged(eng: Engine, primary: seq<name>, old_: Row, new_: Row) {
    exists i :: 0 <= i < |primary| && Differ(eng, Column(old_, primary[i]), Column(new_, primary[i]))
  }

  lemma {:induction false} ChainMeansAll(eng: Engine, st: State, es: seq<Expr>)
    requires es != []
    ensures Eval(eng, st, Chain(BLR_AND, es)) == TRUE
            <==> forall i :: 0 <= i < |es| ==> Eval(eng, st, es[i]) == TRUE
  {
    if |es| > 1 {
      ChainMeansAll(eng, st, es[1..]);
      EvalPair(eng, st, BLR_AND, es[0], Chain(BLR_AND, es[1..]));
      assert forall i :: 1 <= i < |es| ==> es[i] == es[1..][i - 1];
    }
  }

  lemma {:induction false} ChainMeansSome(eng: Engine, st: State, es: seq<Expr>)
    requires es != []
    ensures Eval(eng, st, Chain(BLR_OR, es)) == TRUE
            <==> exists i :: 0 <= i < |es| && Eval(eng, st, es[i]) == TRUE
  {
    if |es| > 1 {
      ChainMeansSome(eng, st, es[1..]);
      EvalPair(eng, st, BLR_OR, es[0], Chain(BLR_OR, es[1..]));
      assert forall i :: 1 <= i < |es| ==> es[i] == es[1..][i - 1];
    }
  }

  lemma EvalPair(eng: Engine, st: State, verb: byte, a: Expr, b: Expr)
    ensures EvalAll(eng, st, [a, b]) == [Eval(eng, st, a), Eval(eng, st, b)]
    ensures Eval(eng, st, Op(verb, [a, b])) == EvalOp(eng, verb, [Eval(eng, st, a), Eval(eng, st, b)])
  {
    assert [a, b][1..] == [b] && [b][1..] == [];
    assert EvalAll(eng, st, [b]) == [Eval(eng, st, b)] + EvalAll(eng, st, []);
    assert EvalAll(eng, st, [a, b]) == [Eval(eng, st, a)] + EvalAll(eng, st, [b]);
  }

  lemma FieldValue(eng: Engine, st: State, context: byte, n: name)
    ensures Eval(eng, st, Field(context, n)) == Column(ContextRow(st, context), n)
  {
  }

  /** The AND chain holds exactly of the rows that refer to the old key. */
  lemma MatchingMeaning(eng: Engine, st: State, k: Key)
    requires ValidKey(k)
    ensures Eval(eng, st, Chain(BLR_AND, Matches(k))) == TRUE
            <==> Refers(eng, k, ContextRow(st, FOREIGN_CONTEXT), ContextRow(st, OLD_CONTEXT))
  {
    var es := Matches(k);
    ChainMeansAll(eng, st, es);
    forall i | 0 <= i < |es|
      ensures Eval(eng, st, es[i]) == TRUE
              <==> Equal(eng, Column(ContextRow(st, FOREIGN_CONTEXT), k.foreign[i]),
                         Column(ContextRow(st, OLD_CONTEXT), k.primary[i]))
    {
      var a, b := Field(FOREIGN_CONTEXT, k.foreign[i]), Field(OLD_CONTEXT, k.primary[i]);
      EvalPair(eng, st, BLR_EQL, a, b);
      FieldValue(eng, st, FOREIGN_CONTEXT, k.foreign[i]);
      FieldValue(eng, st, OLD_CONTEXT, k.primary[i]);
    }
  }

  /** The OR chain holds exactly when some key column compares unequal. */
  lemma FiringMeaning(eng: Engine, st: State, primary: seq<name>)
    requires primary != []
    ensures Eval(eng, st, Chain(BLR_OR, Changes(primary))) == TRUE
            <==> KeyChanged(eng, primary, ContextRow(st, OLD_CONTEXT), ContextRow(st, NEW_CONTEXT))
  {
    var es := Changes(primary);
    ChainMeansSome(eng, st, es);
    forall i | 0 <= i < |es|
      ensures Eval(eng, st, es[i]) == TRUE
              <==> Differ(eng, Column(ContextRow(st, OLD_CONTEXT), primary[i]),
                          Column(ContextRow(st, NEW_CONTEXT), primary[i]))
    {
      var a, b := Field(OLD_CONTEXT, primary[i]), Field(NEW_CONTEXT, primary[i]);
      EvalPair(eng, st, BLR_NEQ, a, b);
      FieldValue(eng, st, OLD_CONTEXT, primary[i]);
      FieldValue(eng, st, NEW_CONTEXT, primary[i]);
    }
    if KeyChanged(eng, primary, ContextRow(st, OLD_CONTEXT), ContextRow(st, NEW_CONTEXT)) {
      var i :| 0 <= i < |primary| && Differ(eng, Column(ContextRow(st, OLD_CONTEXT), primary[i]),
                                            Column(ContextRow(st, NEW_CONTEXT), primary[i]));
      assert Eval(eng, st, es[i]) == TRUE;
    }
  }

  // ----- what the triggers do to the referencing table

  datatype Action = EraseRows | ClearKey | CopyKey

  function BodyOf(a: Action, k: Key): Stmt
    requires ValidKey(k)
  {
    match a
    case EraseRows => Erase(FOREIGN_CONTEXT)
    case ClearKey => Modify(FOREIGN_CONTEXT, FOREIGN_CONTEXT, Begin(NullAssignments(k.foreign)))
    case CopyKey => Modify(FOREIGN_CONTEXT, FOREIGN_CONTEXT, Begin(KeyAssignments(k)))
  }

  /** A row with some columns set, later columns last. */
  function WithColumns(row: Row, columns: seq<name>, values: seq<Value>): Row
    requires |columns| == |values|
    decreases |columns|
  {
    if columns == [] then row
    else WithColumns(row[ByName(columns[0]) := values[0]], columns[1..], values[1..])
  }

  function Nulls(n: nat): (vs: seq<Value>)
    ensures |vs| == n
  {
    seq(n, i => Null)
  }

  function Columns(row: Row, ns: seq<name>): (vs: seq<Value>)
    ensures |vs| == |ns|
  {
    seq(|ns|, i requires 0 <= i < |ns| => Column(row, ns[i]))
  }

  function Effect(a: Action, k: Key, row: Row, new_: Row): seq<Row>
    requires ValidKey(k)
  {
    match a
    case EraseRows => []
    case ClearKey => [WithColumns(row, k.foreign, Nulls(|k.foreign|))]
    case CopyKey => [WithColumns(row, k.foreign, Columns(new_, k.primary))]
  }

  /** The table after the action: rows that refer to the old key are changed, the others stay, in order. */
  function Affected(eng: Engine, a: Action, k: Key, rows: seq<Row>, old_: Row, new_: Row): seq<Row>
    requires ValidKey(k)
  {
    if rows == [] then []
    else (if Refers(eng, k, rows[0], old_) then Effect(a, k, rows[0], new_) else [rows[0]])
         + Affected(eng, a, k, rows[1..], old_, new_)
  }

  function Table(st: State, relation: name): seq<Row> {
    if relation in st.relations then st.relations[relation] else []
  }

  function AtRow(st: State, row: Row): State {
    st.(contexts := st.contexts[FOREIGN_CONTEXT := row])
  }

  lemma {:induction false} AssignmentsSetColumns(eng: Engine, ss: seq<Stmt>, columns: seq<name>, values: seq<Value>,
                                                 st: State, row: Row, fuel: nat)
    requires |ss| == |columns| == |values|
    requires forall i :: 0 <= i < |ss| ==>
               ss[i].Assignment? && ss[i].target == Field(FOREIGN_CONTEXT, columns[i])
    requires forall i, r: Row {:trigger AtRow(st, r), ss[i]} :: 0 <= i < |ss| ==>
               Eval(eng, AtRow(st, r), ss[i].source) == values[i]
    ensures RunAll(eng, ss, AtRow(st, row), fuel) == Done(AtRow(st, WithColumns(row, columns, values)))
  {
    if ss != [] {
      var next := row[ByName(columns[0]) := values[0]];
      assert Eval(eng, AtRow(st, row), ss[0].source) == values[0];
      assert AtRow(st, row).contexts[FOREIGN_CONTEXT := next] == AtRow(st, next).contexts;
      assert Update(AtRow(st, row), FieldAt(FOREIGN_CONTEXT, ByName(columns[0])), values[0])
          == AtRow(st, next);
      AssignmentsSetColumns(eng, ss[1..], columns[1..], values[1..], st, next, fuel);
    }
  }

  lemma ModifyRuns(eng: Engine, body: seq<Stmt>, st: State, row: Row, after: Row, fuel: nat)
    requires RunAll(eng, body, AtRow(st, row), fuel) == Done(AtRow(st, after))
    ensures Run(eng, Modify(FOREIGN_CONTEXT, FOREIGN_CONTEXT, Begin(body)), AtRow(st, row), fuel)
            == Done(AtRow(st, after))
  {
    var at := AtRow(st, row);
    assert at.contexts[FOREIGN_CONTEXT := row] == at.contexts;
    var then_ := AtRow(st, after);
    assert then_.contexts[FOREIGN_CONTEXT := after] == then_.contexts;
    assert Run(eng, Begin(body), at, fuel) == Done(then_);
  }

  /** One row: the body leaves the row's effect behind and touches nothing else. */
  lemma BodyRuns(eng: Engine, a: Action, k: Key, st: State, row: Row, fuel: nat)
    requires ValidKey(k)
    ensures var r := Run(eng, BodyOf(a, k), AtRow(st, row), fuel);
            && r.Done?
            && Current(r.st, FOREIGN_CONTEXT) == Effect(a, k, row, ContextRow(st, NEW_CONTEXT))
            && (forall next: Row :: AtRow(r.st, next) == AtRow(st, next))
            && r.st.(contexts := r.st.contexts - {FOREIGN_CONTEXT})
               == st.(contexts := st.contexts - {FOREIGN_CONTEXT})
  {
    match a
    case EraseRows =>
      var after := st.(contexts := st.contexts[FOREIGN_CONTEXT := row] - {FOREIGN_CONTEXT});
      forall next: Row
        ensures AtRow(after, next) == AtRow(st, next)
      {
        assert after.contexts[FOREIGN_CONTEXT := next] == st.contexts[FOREIGN_CONTEXT := next];
      }
      assert after.contexts - {FOREIGN_CONTEXT} == st.contexts - {FOREIGN_CONTEXT};
    case ClearKey =>
      var values := Nulls(|k.foreign|);
      AssignmentsSetColumns(eng, NullAssignments(k.foreign), k.foreign, values, st, row, fuel);
      var after := WithColumns(row, k.foreign, values);
      ModifyRuns(eng, NullAssignments(k.foreign), st, row, after, fuel);
      OnlyTheRow(st, after);
    case CopyKey =>
      var values := Columns(ContextRow(st, NEW_CONTEXT), k.primary);
      AssignmentsSetColumns(eng, KeyAssignments(k), k.foreign, values, st, row, fuel);
      var after := WithColumns(row, k.foreign, values);
      ModifyRuns(eng, KeyAssignments(k), st, row, after, fuel);
      OnlyTheRow(st, after);
  }

  lemma OnlyTheRow(st: State, row: Row)
    ensures forall next: Row :: AtRow(AtRow(st, row), next) == AtRow(st, next)
    ensures AtRow(st, row).contexts - {FOREIGN_CONTEXT} == st.contexts - {FOREIGN_CONTEXT}
  {
    forall next: Row
      ensures AtRow(AtRow(st, row), next) == AtRow(st, next)
    {
      assert AtRow(AtRow(st, row), next).contexts == AtRow(st, next).contexts;
    }
  }

  lemma {:induction false} RowsRun(eng: Engine, a: Action, k: Key, relation: name, rows: seq<Row>,
                                   visited: seq<Row>, st: State, fuel: nat)
    requires ValidKey(k)
    ensures RunFor(eng, MatchingRows(k, relation), BodyOf(a, k), rows, visited, st, fuel)
            == Done(Store(st, MatchingRows(k, relation),
                          visited + Affected(eng, a, k, rows, ContextRow(st, OLD_CONTEXT),
                                             ContextRow(st, NEW_CONTEXT))))
    decreases |rows|
  {
    var rse := MatchingRows(k, relation);
    var old_, new_ := ContextRow(st, OLD_CONTEXT), ContextRow(st, NEW_CONTEXT);
    if rows == [] {
      assert visited + [] == visited;
    } else {
      var at := AtRow(st, rows[0]);
      MatchingMeaning(eng, at, k);
      var rest := Affected(eng, a, k, rows[1..], old_, new_);
      if Refers(eng, k, rows[0], old_) {
        BodyRuns(eng, a, k, st, rows[0], fuel);
        var r := Run(eng, BodyOf(a, k), at, fuel);
        var effect := Effect(a, k, rows[0], new_);
        SameElsewhere(r.st, st, rse);
        RowsRun(eng, a, k, relation, rows[1..], visited + effect, r.st, fuel);
        Regroup(visited, effect, rest);
      } else {
        RowsRun(eng, a, k, relation, rows[1..], visited + [rows[0]], st, fuel);
        Regroup(visited, [rows[0]], rest);
      }
    }
  }

  lemma Regroup(a: seq<Row>, b: seq<Row>, c: seq<Row>)
    ensures a + b + c == a + (b + c)
  {
  }

  lemma SameElsewhere(a: State, b: State, rse: Rse)
    requires rse.context == FOREIGN_CONTEXT
    requires a.(contexts := a.contexts - {FOREIGN_CONTEXT}) == b.(contexts := b.contexts - {FOREIGN_CONTEXT})
    ensures ContextRow(a, OLD_CONTEXT) == ContextRow(b, OLD_CONTEXT)
    ensures ContextRow(a, NEW_CONTEXT) == ContextRow(b, NEW_CONTEXT)
    ensures forall rows :: Store(a, rse, rows) == Store(b, rse, rows)
  {
    assert forall c :: c != FOREIGN_CONTEXT ==>
      (c in a.contexts <==> c in a.contexts - {FOREIGN_CONTEXT})
      && (c in b.contexts <==> c in b.contexts - {FOREIGN_CONTEXT});
    assert OLD_CONTEXT in a.contexts ==>
      (a.contexts - {FOREIGN_CONTEXT})[OLD_CONTEXT] == a.contexts[OLD_CONTEXT];
    assert OLD_CONTEXT in b.contexts ==>
      (b.contexts - {FOREIGN_CONTEXT})[OLD_CONTEXT] == b.contexts[OLD_CONTEXT];
    assert NEW_CONTEXT in a.contexts ==>
      (a.contexts - {FOREIGN_CONTEXT})[NEW_CONTEXT] == a.contexts[NEW_CONTEXT];
    assert NEW_CONTEXT in b.contexts ==>
      (b.contexts - {FOREIGN_CONTEXT})[NEW_CONTEXT] == b.contexts[NEW_CONTEXT];
  }

  /** The state with the referencing table replaced. */
  function WithTable(st: State, relation: name, rows: seq<Row>): State {
    st.(relations := st.relations[relation := rows], contexts := st.contexts - {FOREIGN_CONTEXT})
  }

  lemma ActionRuns(eng: Engine, a: Action, k: Key, relation: name, st: State, fuel: nat)
    requires ValidKey(k)
    ensures Run(eng, For(MatchingRows(k, relation), BodyOf(a, k)), st, fuel)
            == Done(WithTable(st, relation,
                 Affected(eng, a, k, Table(st, relation), ContextRow(st, OLD_CONTEXT),
                          ContextRow(st, NEW_CONTEXT))))
  {
    var rows := Table(st, relation);
    RowsRun(eng, a, k, relation, rows, [], st, fuel);
    var after := Affected(eng, a, k, rows, ContextRow(st, OLD_CONTEXT), ContextRow(st, NEW_CONTEXT));
    assert [] + after == after;
  }

  /** ON DELETE CASCADE removes exactly the rows that refer to the deleted key. */
  lemma DeleteCascadeMeaning(eng: Engine, k: Key, relation: name, st: State, fuel: nat)
    requires ValidKey(k)
    ensures Run(eng, DeleteCascade(k, relation), st, fuel)
            == Done(WithTable(st, relation,
                 Affected(eng, EraseRows, k, Table(st, relation), ContextRow(st, OLD_CONTEXT),
                          ContextRow(st, NEW_CONTEXT))))
  {
    ActionRuns(eng, EraseRows, k, relation, st, fuel);
  }

  lemma GuardRuns(eng: Engine, k: Key, s: Stmt, st: State, fuel: nat)
    requires ValidKey(k) && Run(eng, s, st, fuel).Done?
    ensures Run(eng, Guarded(true, k, s), st, fuel)
            == if KeyChanged(eng, k.primary, ContextRow(st, OLD_CONTEXT), ContextRow(st, NEW_CONTEXT))
               then Run(eng, s, st, fuel) else Done(st)
  {
    FiringMeaning(eng, st, k.primary);
    OneRuns(eng, s, st, fuel);
    OneRuns(eng, Begin([s]), st, fuel);
  }

  lemma OneRuns(eng: Engine, s: Stmt, st: State, fuel: nat)
    requires Run(eng, s, st, fuel).Done?
    ensures Run(eng, Begin([s]), st, fuel) == Run(eng, s, st, fuel)
  {
    assert [s][1..] == [];
    assert RunAll(eng, [s], st, fuel) == RunAll(eng, [], Run(eng, s, st, fuel).st, fuel);
  }

  /**
   ON DELETE SET NULL clears the key of every referring row; ON UPDATE SET NULL does so
   only when the referenced key changed.
   */
  lemma SetNullMeaning(eng: Engine, onUpdate: bool, k: Key, relation: name, st: State, fuel: nat)
    requires ValidKey(k)
    ensures var old_, new_ := ContextRow(st, OLD_CONTEXT), ContextRow(st, NEW_CONTEXT);
            Run(eng, SetNull(onUpdate, k, relation), st, fuel)
            == if onUpdate && !KeyChanged(eng, k.primary, old_, new_) then Done(st)
               else Done(WithTable(st, relation,
                           Affected(eng, ClearKey, k, Table(st, relation), old_, new_)))
  {
    ActionRuns(eng, ClearKey, k, relation, st, fuel);
    GuardRuns(eng, k, ModifyRows(k, relation, NullAssignments(k.foreign)), st, fuel);
  }

  /** ON UPDATE CASCADE gives every referring row the new key, when the key changed. */
  lemma UpdateCascadeMeaning(eng: Engine, k: Key, relation: name, st: State, fuel: nat)
    requires ValidKey(k)
    ensures var old_, new_ := ContextRow(st, OLD_CONTEXT), ContextRow(st, NEW_CONTEXT);
            Run(eng, UpdateCascade(k, relation), st, fuel)
            == if KeyChanged(eng, k.primary, old_, new_)
               then Done(WithTable(st, relation,
                           Affected(eng, CopyKey, k, Table(st, relation), old_, new_)))
               else Done(st)
  {
    ActionRuns(eng, CopyKey, k, relation, st, fuel);
    GuardRuns(eng, k, ModifyRows(k, relation, KeyAssignments(k)), st, fuel);
  }

  /** A delete cascade takes every row that refers to the deleted key and leaves every other as often as it was. */
  lemma {:induction false} NoOrphans(eng: Engine, k: Key, rows: seq<Row>, old_: Row, new_: Row, r: Row)
    requires ValidKey(k)
    ensures multiset(Affected(eng, EraseRows, k, rows, old_, new_))[r]
            == if Refers(eng, k, r, old_) then 0 else multiset(rows)[r]
  {
    if rows != [] {
      NoOrphans(eng, k, rows[1..], old_, new_, r);
      assert rows == [rows[0]] + rows[1..];
    }
  }

  ghost predicate Distinct(ns: seq<name>) {
    forall i, j :: 0 <= i < j < |ns| ==> ns[i] != ns[j]
  }

  lemma {:induction false} ColumnsSet(row: Row, columns: seq<name>, values: seq<Value>)
    requires |columns| == |values| && Distinct(columns)
    ensures forall i :: 0 <= i < |columns| ==> Column(WithColumns(row, columns, values), columns[i]) == values[i]
    ensures forall n: name :: n !in columns ==> Column(WithColumns(row, columns, values), n) == Column(row, n)
    decreases |columns|
  {
    if columns != [] {
      var next := row[ByName(columns[0]) := values[0]];
      ColumnsSet(next, columns[1..], values[1..]);
      assert columns[0] !in columns[1..];
      assert forall i :: 1 <= i < |columns| ==> columns[i] == columns[1..][i - 1];
    }
  }

  /** The row stays, but its key columns have the values given. */
  ghost predicate Rekeyed(row: Row, after: Row, columns: seq<name>, values: seq<Value>)
    requires |columns| == |values|
  {
    && (forall i :: 0 <= i < |columns| ==> Column(after, columns[i]) == values[i])
    && (forall n: name :: n !in columns ==> Column(after, n) == Column(row, n))
  }

  /** A set-null empties the key columns of every row that refers to the old key, and so no row does any more. */
  lemma {:induction false} NoneLeft(eng: Engine, k: Key, rows: seq<Row>, old_: Row, new_: Row, i: nat)
    requires ValidKey(k) && Distinct(k.foreign) && i < |rows|
    ensures var after := Affected(eng, ClearKey, k, rows, old_, new_);
            && |after| == |rows| && !Refers(eng, k, after[i], old_)
            && (if Refers(eng, k, rows[i], old_) then Rekeyed(rows[i], after[i], k.foreign, Nulls(|k.foreign|))
                else after[i] == rows[i])
  {
    AffectedAt(eng, ClearKey, k, rows, old_, new_, i);
    var cleared := WithColumns(rows[i], k.foreign, Nulls(|k.foreign|));
    ColumnsSet(rows[i], k.foreign, Nulls(|k.foreign|));
    assert Column(cleared, k.foreign[0]) == Null;
    assert !Refers(eng, k, cleared, old_);
  }

  /** A row that stays keeps its place. */
  lemma {:induction false} AffectedAt(eng: Engine, a: Action, k: Key, rows: seq<Row>, old_: Row, new_: Row, i: nat)
    requires ValidKey(k) && !a.EraseRows? && i < |rows|
    ensures var after := Affected(eng, a, k, rows, old_, new_);
            |after| == |rows| && after[i] == if Refers(eng, k, rows[i], old_) then Effect(a, k, rows[i], new_)[0] else rows[i]
  {
    hide Refers;
    var first := if Refers(eng, k, rows[0], old_) then Effect(a, k, rows[0], new_) else [rows[0]];
    var rest := Affected(eng, a, k, rows[1..], old_, new_);
    assert |first| == 1;
    if |rows| == 1 {
      assert rest == [];
    } else {
      AffectedAt(eng, a, k, rows[1..], old_, new_, if i == 0 then 0 else i - 1);
      assert i > 0 ==> (first + rest)[i] == rest[i - 1];
    }
  }

  /**
   An update cascade gives every row that referred to the old key the new key's values and
   changes nothing else; the row then refers to the new key if and only if no column of that is null.
   */
  lemma {:induction false} RowsFollow(eng: Engine, k: Key, rows: seq<Row>, old_: Row, new_: Row, i: nat)
    requires ValidKey(k) && Distinct(k.foreign) && i < |rows|
    requires forall v :: eng.compare(v, v) == 0
    ensures var after := Affected(eng, CopyKey, k, rows, old_, new_);
            && |after| == |rows|
            && (if Refers(eng, k, rows[i], old_) then
                  && Rekeyed(rows[i], after[i], k.foreign, Columns(new_, k.primary))
                  && (Refers(eng, k, after[i], new_) <==> forall n :: n in k.primary ==> !Column(new_, n).Null?)
                else after[i] == rows[i])
  {
    AffectedAt(eng, CopyKey, k, rows, old_, new_, i);
    ColumnsSet(rows[i], k.foreign, Columns(new_, k.primary));
  }

  // ----- the emitting procedures

  /** What the key loops write: every element, and the verb again while two or more are left. */
  function Emission(verb: byte, es: seq<Expr>): seq<byte> {
    if es == [] then []
    else Encode(es[0]) + (if |es| > 2 then [verb] else []) + Emission(verb, es[1..])
  }

  /** With the verb in front when there are several, that is one nested chain. */
  lemma {:induction false} EmissionIsChain(verb: byte, es: seq<Expr>)
    requires es != []
    ensures (if |es| > 1 then [verb] else []) + Emission(verb, es) == Encode(Chain(verb, es))
  {
    hide Encode;
    var rest := es[1..];
    if |es| == 1 {
      assert Emission(verb, rest) == [];
    } else {
      EmissionIsChain(verb, rest);
      PairEncoding(verb, es[0], Chain(verb, rest));
      var middle := if |rest| > 1 then [verb] else [];
      Assoc(Encode(es[0]), middle, Emission(verb, rest));
      Assoc([verb], Encode(es[0]), middle + Emission(verb, rest));
    }
  }

  lemma PairEncoding(verb: byte, a: Expr, b: Expr)
    ensures Encode(Op(verb, [a, b])) == [verb] + Encode(a) + Encode(b)
  {
    assert [a, b][1..] == [b] && [b][1..] == [];
    assert EncodeAll([b]) == Encode(b) + EncodeAll([]);
    assert EncodeAll([a, b]) == Encode(a) + EncodeAll([b]);
  }

  method AppendField(r: DsqlRequest, context: byte, n: name)
    requires r.Valid()
    modifies r, r.blrString
    ensures r.Appended(Encode(Field(context, n)))
  {
    r.Stuff(BLR_FIELD);
    r.Stuff(context);
    r.AppendCString(0, n);
  }

  /** One comparison of two fields. */
  method AppendComparison(r: DsqlRequest, verb: byte, leftContext: byte, left: name,
                          rightContext: byte, right: name)
    requires r.Valid()
    modifies r, r.blrString
    ensures r.Appended(Encode(Op(verb, [Field(leftContext, left), Field(rightContext, right)])))
  {
    PairEncoding(verb, Field(leftContext, left), Field(rightContext, right));
    hide Encode;
    r.Stuff(verb);
    AppendField(r, leftContext, left);
    AppendField(r, rightContext, right);
  }

  /** The key comparisons joined by a verb, in one pass over the columns. */
  method AppendKeyLoop(r: DsqlRequest, joint: byte, verb: byte, leftContext: byte, lefts: seq<name>,
                       rightContext: byte, rights: seq<name>, ghost es: seq<Expr>)
    requires r.Valid() && |lefts| == |rights| == |es| > 0
    requires forall i :: 0 <= i < |es| ==>
               es[i] == Op(verb, [Field(leftContext, lefts[i]), Field(rightContext, rights[i])])
    modifies r, r.blrString
    ensures r.Appended(Encode(Chain(joint, es)))
  {
    hide Encode;
    ghost var lead: seq<byte> := if |es| > 1 then [joint] else [];
    EmissionIsChain(joint, es);
    if |lefts| > 1 {
      r.Stuff(joint);
    }
    var fields := 0;
    ghost var done: seq<byte> := lead;
    assert es[0..] == es;
    while fields < |lefts|
      invariant fields <= |lefts|
      invariant r.Appended(done)
      invariant done + Emission(joint, es[fields..]) == lead + Emission(joint, es)
    {
      ghost var rest := es[fields..];
      assert rest[0] == es[fields] && rest[1..] == es[fields + 1..];
      AppendComparison(r, verb, leftContext, lefts[fields], rightContext, rights[fields]);
      fields := fields + 1;
      ghost var again: seq<byte> := if |rest| > 2 then [joint] else [];
      if |lefts| - fields >= 2 {
        r.Stuff(joint);
      }
      StepDone(done, Encode(es[fields - 1]), again, Emission(joint, es[fields..]));
      done := done + (Encode(es[fields - 1]) + again);
    }
    assert es[fields..] == [];
    assert done + [] == done;
  }

  lemma StepDone(done: seq<byte>, e: seq<byte>, again: seq<byte>, rest: seq<byte>)
    ensures done + (e + again + rest) == done + (e + again) + rest
    ensures done + e + again == done + (e + again)
    ensures again == [] ==> done + e == done + (e + again)
  {
  }

  method StuffMatchingBlr(r: DsqlRequest, k: Key)
    requires r.Valid() && ValidKey(k)
    modifies r, r.blrString
    ensures r.Appended([BLR_BOOLEAN] + Encode(Chain(BLR_AND, Matches(k))) + [BLR_END])
  {
    hide Encode;
    r.Stuff(BLR_BOOLEAN);
    AppendKeyLoop(r, BLR_AND, BLR_EQL, FOREIGN_CONTEXT, k.foreign, OLD_CONTEXT, k.primary, Matches(k));
    r.Stuff(BLR_END);
  }

  method StuffTrgFiringCond(r: DsqlRequest, primary: seq<name>)
    requires r.Valid() && primary != []
    modifies r, r.blrString
    ensures r.Appended([BLR_IF] + Encode(Chain(BLR_OR, Changes(primary))))
  {
    hide Encode;
    r.Stuff(BLR_IF);
    AppendKeyLoop(r, BLR_OR, BLR_NEQ, OLD_CONTEXT, primary, NEW_CONTEXT, primary, Changes(primary));
  }

  lemma RowsBytes(k: Key, relation: name)
    requires ValidKey(k)
    ensures [BLR_FOR] + EncodeRse(MatchingRows(k, relation))
            == [BLR_FOR, BLR_RSE, 1, BLR_RELATION] + EncodeName(relation) + [FOREIGN_CONTEXT]
               + ([BLR_BOOLEAN] + Encode(Chain(BLR_AND, Matches(k))) + [BLR_END])
  {
    hide Encode, EncodeName;
  }

  /** blr_for over the referring rows. */
  method AppendFor(r: DsqlRequest, k: Key, relation: name)
    requires r.Valid() && ValidKey(k)
    modifies r, r.blrString
    ensures r.Appended([BLR_FOR] + EncodeRse(MatchingRows(k, relation)))
  {
    hide Encode, EncodeRse;
    RowsBytes(k, relation);
    AppendFour(r, BLR_FOR, BLR_RSE, 1, BLR_RELATION);
    r.AppendCString(0, relation);
    assert r.Appended([BLR_FOR, BLR_RSE, 1, BLR_RELATION] + EncodeName(relation));
    r.Stuff(FOREIGN_CONTEXT);
    StuffMatchingBlr(r, k);
  }

  method AppendFour(r: DsqlRequest, a: byte, b: byte, c: byte, d: byte)
    requires r.Valid()
    modifies r, r.blrString
    ensures r.Appended([a, b, c, d])
  {
    r.Stuff(a);
    r.Stuff(b);
    r.Stuff(c);
    r.Stuff(d);
  }

  method AppendNullAssignments(r: DsqlRequest, foreign: seq<name>)
    requires r.Valid()
    modifies r, r.blrString
    ensures r.Appended(EncodeStmts(NullAssignments(foreign)))
  {
    hide EncodeStmts;
    NoStatements();
    var ss := NullAssignments(foreign);
    var fields := 0;
    while fields < |foreign|
      invariant fields <= |foreign|
      invariant r.Appended(EncodeStmts(ss[..fields]))
    {
      NullAssignmentBytes(foreign[fields]);
      r.Stuff(BLR_ASSIGNMENT);
      r.Stuff(BLR_NULL);
      AppendField(r, FOREIGN_CONTEXT, foreign[fields]);
      EncodeStmtsAppend(ss[..fields], ss[fields]);
      assert ss[..fields] + [ss[fields]] == ss[..fields + 1];
      fields := fields + 1;
    }
    assert ss[..fields] == ss;
  }

  lemma NoStatements()
    ensures EncodeStmts([]) == []
  {
  }

  lemma NullAssignmentBytes(n: name)
    ensures EncodeStmt(Assignment(Op(BLR_NULL, []), Field(FOREIGN_CONTEXT, n)))
            == [BLR_ASSIGNMENT, BLR_NULL] + Encode(Field(FOREIGN_CONTEXT, n))
  {
    assert EncodeAll([]) == [];
    assert Encode(Op(BLR_NULL, [])) == [BLR_NULL];
  }

  method AppendKeyAssignments(r: DsqlRequest, k: Key)
    requires r.Valid() && ValidKey(k)
    modifies r, r.blrString
    ensures r.Appended(EncodeStmts(KeyAssignments(k)))
  {
    hide EncodeStmts, Encode;
    NoStatements();
    var ss := KeyAssignments(k);
    var fields := 0;
    while fields < |k.foreign|
      invariant fields <= |k.foreign|
      invariant r.Appended(EncodeStmts(ss[..fields]))
    {
      r.Stuff(BLR_ASSIGNMENT);
      AppendField(r, NEW_CONTEXT, k.primary[fields]);
      AppendField(r, FOREIGN_CONTEXT, k.foreign[fields]);
      EncodeStmtsAppend(ss[..fields], ss[fields]);
      assert ss[..fields] + [ss[fields]] == ss[..fields + 1];
      fields := fields + 1;
    }
    assert ss[..fields] == ss;
  }

  /** The attributes of a trigger the engine names itself. */
  function TriggerHeader(onUpdate: bool, primRelation: seq<byte>): seq<byte> {
    FirstAttributes(onUpdate) + LastAttributes() + ([DYN_REL_NAME] + Word(|primRelation|) + primRelation)
  }

  function FirstAttributes(onUpdate: bool): seq<byte> {
    [DYN_DEF_TRIGGER] + Word(0)
    + ([DYN_TRG_TYPE] + Word(2) + Word(if onUpdate then POST_MODIFY_TRIGGER else POST_ERASE_TRIGGER))
  }

  function LastAttributes(): seq<byte> {
    [DYN_SQL_OBJECT] + ([DYN_TRG_SEQUENCE] + Word(2) + Word(1)) + ([DYN_TRG_INACTIVE] + Word(2) + Word(0))
  }

  function TriggerTail(): seq<byte> {
    [DYN_SYSTEM_FLAG] + Word(2) + Word(SYSFLAG_REFERENTIAL) + [DYN_END]
  }

  method AppendFirstAttributes(r: DsqlRequest, onUpdate: bool)
    requires r.Valid()
    modifies r, r.blrString
    ensures r.Appended(FirstAttributes(onUpdate))
  {
    hide Word;
    r.AppendCString(DYN_DEF_TRIGGER, []);
    assert r.Appended([DYN_DEF_TRIGGER] + Word(0));
    r.AppendNumber(DYN_TRG_TYPE, if onUpdate then POST_MODIFY_TRIGGER else POST_ERASE_TRIGGER);
  }

  method AppendLastAttributes(r: DsqlRequest)
    requires r.Valid()
    modifies r, r.blrString
    ensures r.Appended(LastAttributes())
  {
    hide Word;
    r.Stuff(DYN_SQL_OBJECT);
    r.AppendNumber(DYN_TRG_SEQUENCE, 1);
    r.AppendNumber(DYN_TRG_INACTIVE, 0);
  }

  method AppendHeader(r: DsqlRequest, onUpdate: bool, primRelation: name)
    requires r.Valid()
    modifies r, r.blrString
    ensures r.Appended(TriggerHeader(onUpdate, primRelation))
  {
    hide Word, FirstAttributes, LastAttributes;
    AppendFirstAttributes(r, onUpdate);
    AppendLastAttributes(r);
    r.AppendCString(DYN_REL_NAME, primRelation);
  }

  method AppendTail(r: DsqlRequest)
    requires r.Valid()
    modifies r, r.blrString
    ensures r.Appended(TriggerTail())
  {
    hide Word;
    r.AppendNumber(DYN_SYSTEM_FLAG, SYSFLAG_REFERENTIAL);
    r.Stuff(DYN_END);
  }

  /** A whole definition: attributes, the body with its length in front, the closing attributes. */
  function Definition(onUpdate: bool, primRelation: seq<byte>, version: byte, body: Stmt): seq<byte> {
    var code := EncodeRequest(version, body);
    TriggerHeader(onUpdate, primRelation) + [DYN_TRG_BLR] + Word(|code|) + code + TriggerTail()
  }

  /**
   The bytes are, to the engine's reader, one trigger and nothing else: of that kind, 4 for
   after an update and 6 for after a delete, on that relation, first in order, active, marked
   as a referential constraint's, and with code that parses to that body.
   */
  ghost predicate Defines(s: seq<byte>, kind: nat, relation: seq<byte>, version: byte, body: Stmt) {
    var r := Dyn.ReadTrigger(s);
    && r.Some? && r.value.1 == []
    && var t := r.value.0;
       && t.name == [] && t.kind == Some(kind) && t.relation == Some(relation) && t.sequence == 1 && t.inactive == 0
       && t.sql && t.systemFlag == Some(4)
       && t.blr.Some? && DecodeRequest(t.blr.value) == Some((version, body))
  }

  function Attribute(verb: byte, v: seq<byte>, rest: seq<byte>): seq<byte> {
    [verb] + (Word(|v|) + (v + rest))
  }

  /** A definition attribute by attribute. */
  lemma DefinitionParts(onUpdate: bool, primRelation: seq<byte>, version: byte, body: Stmt)
    ensures var code := EncodeRequest(version, body);
            var last := [55] + (Word(2) + (Word(4) + ([3] + [])));
            var rest := Attribute(50, primRelation, Attribute(111, code, last));
            var inner := [196] + ([115] + (Word(2) + (Word(1) + ([116] + (Word(2) + (Word(0) + rest))))));
            Definition(onUpdate, primRelation, version, body)
            == [15] + (Word(0) + ([] + ([110] + (Word(2) + (Word(if onUpdate then 4 else 6) + inner)))))
  {
    hide Word, EncodeRequest;
    var code := EncodeRequest(version, body);
    var last := [55] + (Word(2) + (Word(4) + ([3] + [])));
    var coded := Attribute(111, code, last);
    assert [DYN_TRG_BLR] + Word(|code|) + code + TriggerTail() == coded;
    var rest := Attribute(50, primRelation, coded);
    assert ([DYN_REL_NAME] + Word(|primRelation|) + primRelation) + coded == rest;
    var inner := [196] + ([115] + (Word(2) + (Word(1) + ([116] + (Word(2) + (Word(0) + rest))))));
    assert LastAttributes() + rest == inner;
    hide Attribute;
    JoinParts(FirstAttributes(onUpdate), LastAttributes(), [DYN_REL_NAME] + Word(|primRelation|) + primRelation,
              [DYN_TRG_BLR], Word(|code|), code, TriggerTail());
  }

  lemma JoinParts(a: seq<byte>, b: seq<byte>, c: seq<byte>, d: seq<byte>, e: seq<byte>, f: seq<byte>, g: seq<byte>)
    ensures a + b + c + d + e + f + g == a + (b + (c + (d + e + f + g)))
  {
  }

  lemma DefinitionReads(onUpdate: bool, primRelation: seq<byte>, version: byte, body: Stmt)
    requires |primRelation| < 0x1_0000 && Fits(body) && DecodeRequest(EncodeRequest(version, body)) == Some((version, body))
    ensures Defines(Definition(onUpdate, primRelation, version, body), if onUpdate then 4 else 6, primRelation, version, body)
  {
    DefinitionParts(onUpdate, primRelation, version, body);
    assert |EncodeRequest(version, body)| == |EncodeStmt(body)| + 2;
    hide Word, Definition, EncodeRequest, DecodeRequest, Dyn.ReadAttributes, Dyn.ReadTrigger;
    var code, kind := EncodeRequest(version, body), if onUpdate then 4 else 6;
    var last := [55] + (Word(2) + (Word(4) + ([3] + [])));
    var coded := Attribute(111, code, last);
    var rest := Attribute(50, primRelation, coded);
    var active := [116] + (Word(2) + (Word(0) + rest));
    var sequenced := [115] + (Word(2) + (Word(1) + active));
    var marked := [196] + sequenced;
    var typed := [110] + (Word(2) + (Word(kind) + marked));
    var t := Dyn.Trigger([], None, 0, 0, None, false, None, None);
    Dyn.NameStep([], typed);
    Dyn.NumberStep(t, 110, kind, marked);
    t := t.(kind := Some(kind));
    Dyn.FlagStep(t, sequenced);
    t := t.(sql := true);
    Dyn.NumberStep(t, 115, 1, active);
    t := t.(sequence := 1);
    Dyn.NumberStep(t, 116, 0, rest);
    Dyn.StringStep(t, 50, primRelation, coded);
    t := t.(relation := Some(primRelation));
    Dyn.StringStep(t, 111, code, last);
    t := t.(blr := Some(code));
    Dyn.NumberStep(t, 55, 4, [3] + []);
    t := t.(systemFlag := Some(4));
    Dyn.EndStep(t, []);
  }

  /** The body fits its sixteen-bit length. */
  predicate Fits(body: Stmt) {
    |EncodeStmt(body)| + 2 < 0x1_0000
  }

  /** On an update, the question whether the key changes. */
  function Guard(onUpdate: bool, k: Key): seq<byte>
    requires ValidKey(k)
  {
    if onUpdate then [BLR_IF] + Encode(Chain(BLR_OR, Changes(k.primary))) + [BLR_BEGIN, BLR_BEGIN] else []
  }

  /** The guard, the loop over the referring rows, and the row change's opening. */
  function Opening(onUpdate: bool, k: Key, relation: name): seq<byte>
    requires ValidKey(k)
  {
    Guard(onUpdate, k)
    + ([BLR_FOR] + EncodeRse(MatchingRows(k, relation)))
    + [BLR_MODIFY, FOREIGN_CONTEXT, FOREIGN_CONTEXT, BLR_BEGIN]
  }

  lemma OneStatement(s: Stmt)
    ensures EncodeStmts([s]) == EncodeStmt(s)
  {
    hide EncodeStmt;
    assert [s][1..] == [];
    assert EncodeStmts([s]) == EncodeStmt(s) + EncodeStmts([]);
  }

  lemma ModifyBytes(k: Key, relation: name, body: seq<Stmt>)
    requires ValidKey(k)
    ensures EncodeStmt(ModifyRows(k, relation, body))
            == Opening(false, k, relation) + EncodeStmts(body) + [BLR_END]
  {
    hide Encode, EncodeRse;
    var change := Modify(FOREIGN_CONTEXT, FOREIGN_CONTEXT, Begin(body));
    assert EncodeStmt(Begin(body)) == [BLR_BEGIN] + EncodeStmts(body) + [BLR_END];
    assert EncodeStmt(change) == [BLR_MODIFY, FOREIGN_CONTEXT, FOREIGN_CONTEXT] + EncodeStmt(Begin(body));
    assert EncodeStmt(ModifyRows(k, relation, body))
        == [BLR_FOR] + EncodeRse(MatchingRows(k, relation)) + EncodeStmt(change);
  }

  /** The blr_ends after the assignments close the row change, two blocks and the missing else. */
  lemma GuardedBytes(onUpdate: bool, k: Key, relation: name, body: seq<Stmt>)
    requires ValidKey(k)
    ensures EncodeStmt(Guarded(onUpdate, k, ModifyRows(k, relation, body)))
            == Opening(onUpdate, k, relation) + EncodeStmts(body) + [BLR_END]
               + (if onUpdate then [BLR_END, BLR_END, BLR_END] else [])
  {
    ModifyBytes(k, relation, body);
    var s := ModifyRows(k, relation, body);
    hide Encode, EncodeRse, EncodeStmts;
    if onUpdate {
      IfBytes(Chain(BLR_OR, Changes(k.primary)), s);
    }
  }

  lemma IfBytes(c: Expr, s: Stmt)
    ensures EncodeStmt(If(c, Begin([Begin([s])]), None))
            == [BLR_IF] + Encode(c) + [BLR_BEGIN, BLR_BEGIN] + EncodeStmt(s) + [BLR_END, BLR_END, BLR_END]
  {
    hide Encode;
    OneStatement(s);
    OneStatement(Begin([s]));
    assert EncodeStmt(Begin([s])) == [BLR_BEGIN] + EncodeStmt(s) + [BLR_END];
    assert EncodeStmt(Begin([Begin([s])])) == [BLR_BEGIN] + EncodeStmt(Begin([s])) + [BLR_END];
  }

  method AppendGuard(r: DsqlRequest, onUpdate: bool, k: Key)
    requires r.Valid() && ValidKey(k)
    modifies r, r.blrString
    ensures r.Appended(Guard(onUpdate, k))
  {
    hide Encode;
    if onUpdate {
      StuffTrgFiringCond(r, k.primary);
      r.AppendUchars(BLR_BEGIN, 2);
      assert Repeat(BLR_BEGIN, 2) == [BLR_BEGIN, BLR_BEGIN];
    }
  }

  /** What both set-null and update-cascade write first. */
  method AppendOpening(r: DsqlRequest, onUpdate: bool, k: Key, relation: name)
    requires r.Valid() && ValidKey(k)
    modifies r, r.blrString
    ensures r.Appended(Opening(onUpdate, k, relation))
  {
    hide Guard, EncodeRse;
    AppendGuard(r, onUpdate, k);
    AppendFor(r, k, relation);
    AppendFour(r, BLR_MODIFY, FOREIGN_CONTEXT, FOREIGN_CONTEXT, BLR_BEGIN);
  }

  /** Closing the code argument puts its length in front of it. */
  method CloseDefinition(r: DsqlRequest, ghost before: seq<byte>, version: byte, ghost body: Stmt)
    returns (ok: bool)
    requires r.Valid() && r.baseOffset == |before| + 1
    requires r.contents == before + [DYN_TRG_BLR] + [0, 0, version] + EncodeStmt(body)
    modifies r, r.blrString
    ensures r.Valid() && (r.blrString == old(r.blrString) || fresh(r.blrString))
    ensures ok <==> Fits(body)
    ensures ok ==> r.contents == before + [DYN_TRG_BLR] + Word(|EncodeRequest(version, body)|)
                                 + EncodeRequest(version, body) + TriggerTail()
  {
    hide EncodeStmt, TriggerTail;
    ghost var c := r.contents;
    assert c[..|before| + 1] == before + [DYN_TRG_BLR];
    assert c[|before| + 3..] == [version] + EncodeStmt(body);
    ok := r.EndBlr();
    if ok {
      assert r.contents == before + [DYN_TRG_BLR] + Word(|EncodeRequest(version, body)|)
                           + EncodeRequest(version, body);
      AppendTail(r);
    }
  }

  lemma Defined(before: seq<byte>, after: seq<byte>, onUpdate: bool, primRelation: name, version: byte, body: Stmt)
    requires after == before + Definition(onUpdate, primRelation, version, body) && Fits(body)
    requires DecodeRequest(EncodeRequest(version, body)) == Some((version, body))
    ensures |after| >= |before| && Defines(after[|before|..], if onUpdate then 4 else 6, primRelation, version, body)
  {
    DefinitionReads(onUpdate, primRelation, version, body);
    hide Definition, Defines;
    assert after[|before|..] == Definition(onUpdate, primRelation, version, body);
  }

  method DefineDelCascadeTrg(r: DsqlRequest, k: Key, primRelation: name, forRelation: name, version: byte)
    returns (ok: bool)
    requires r.Valid() && ValidKey(k)
    modifies r, r.blrString
    ensures r.Valid()
    ensures ok <==> Fits(DeleteCascade(k, forRelation))
    ensures ok ==> r.contents == old(r.contents)
                                 + Definition(false, primRelation, version, DeleteCascade(k, forRelation))
    ensures ok ==> |r.contents| >= |old(r.contents)|
                   && Defines(r.contents[|old(r.contents)|..], 6, primRelation, version, DeleteCascade(k, forRelation))
  {
    hide EncodeRse, TriggerHeader, TriggerTail, EncodeStmt, EncodeRequest, DecodeRequest, Dyn.ReadTrigger;
    AppendHeader(r, false, primRelation);
    ghost var before := r.contents;
    r.BeginBlr(DYN_TRG_BLR, version);
    AppendErase(r, k, forRelation);
    ok := CloseDefinition(r, before, version, DeleteCascade(k, forRelation));
    if ok {
      TriggersParse(false, k, forRelation, version);
      hide Defines;
      Defined(old(r.contents), r.contents, false, primRelation, version, DeleteCascade(k, forRelation));
    }
  }

  /** The loop that erases. */
  method AppendErase(r: DsqlRequest, k: Key, relation: name)
    requires r.Valid() && ValidKey(k)
    modifies r, r.blrString
    ensures r.Appended(EncodeStmt(DeleteCascade(k, relation)))
  {
    assert EncodeStmt(DeleteCascade(k, relation))
        == [BLR_FOR] + EncodeRse(MatchingRows(k, relation)) + [BLR_ERASE, FOREIGN_CONTEXT];
    hide EncodeRse, EncodeStmt;
    AppendFor(r, k, relation);
    r.Stuff(BLR_ERASE);
    r.Stuff(FOREIGN_CONTEXT);
  }

  /** The guarded row change with its assignments; clear chooses between the two kinds. */
  method AppendModify(r: DsqlRequest, onUpdate: bool, k: Key, relation: name, ghost body: seq<Stmt>, clear: bool)
    requires r.Valid() && ValidKey(k)
    requires body == if clear then NullAssignments(k.foreign) else KeyAssignments(k)
    modifies r, r.blrString
    ensures r.Appended(EncodeStmt(Guarded(onUpdate, k, ModifyRows(k, relation, body))))
  {
    hide EncodeStmt, EncodeStmts, Opening;
    GuardedBytes(onUpdate, k, relation, body);
    AppendOpening(r, onUpdate, k, relation);
    if clear {
      AppendNullAssignments(r, k.foreign);
    } else {
      AppendKeyAssignments(r, k);
    }
    assert r.Appended(Opening(onUpdate, k, relation) + EncodeStmts(body));
    r.Stuff(BLR_END);
    if onUpdate {
      assert Repeat(BLR_END, 3) == [BLR_END, BLR_END, BLR_END];
      r.AppendUchars(BLR_END, 3);
    }
  }

  /** What both triggers that change rows share. */
  method DefineModifying(r: DsqlRequest, k: Key, primRelation: name, forRelation: name, onUpdate: bool, version: byte,
                         ghost assignments: seq<Stmt>, clear: bool) returns (ok: bool)
    requires r.Valid() && ValidKey(k)
    requires assignments == if clear then NullAssignments(k.foreign) else KeyAssignments(k)
    modifies r, r.blrString
    ensures var body := Guarded(onUpdate, k, ModifyRows(k, forRelation, assignments));
            && r.Valid() && (ok <==> Fits(body))
            && (ok ==> r.contents == old(r.contents) + Definition(onUpdate, primRelation, version, body))
  {
    hide EncodeRse, TriggerHeader, TriggerTail, EncodeStmt, EncodeStmts, Opening, Guarded, ModifyRows, EncodeRequest, ValidKey,
         NullAssignments, KeyAssignments, Defines, FirstAttributes;
    AppendHeader(r, onUpdate, primRelation);
    ghost var before := r.contents;
    r.BeginBlr(DYN_TRG_BLR, version);
    AppendModify(r, onUpdate, k, forRelation, assignments, clear);
    ok := CloseDefinition(r, before, version, Guarded(onUpdate, k, ModifyRows(k, forRelation, assignments)));
  }

  method DefineSetNullTrg(r: DsqlRequest, k: Key, primRelation: name, forRelation: name, onUpdate: bool,
                          version: byte) returns (ok: bool)
    requires r.Valid() && ValidKey(k)
    modifies r, r.blrString
    ensures r.Valid()
    ensures ok <==> Fits(SetNull(onUpdate, k, forRelation))
    ensures ok ==> r.contents == old(r.contents)
                                 + Definition(onUpdate, primRelation, version, SetNull(onUpdate, k, forRelation))
    ensures ok ==> |r.contents| >= |old(r.contents)|
                   && Defines(r.contents[|old(r.contents)|..], if onUpdate then 4 else 6, primRelation, version,
                              SetNull(onUpdate, k, forRelation))
  {
    ok := DefineModifying(r, k, primRelation, forRelation, onUpdate, version, NullAssignments(k.foreign), true);
    hide EncodeRequest, DecodeRequest, Definition, Defines, Fits;
    if ok {
      TriggersParse(onUpdate, k, forRelation, version);
      Defined(old(r.contents), r.contents, onUpdate, primRelation, version, SetNull(onUpdate, k, forRelation));
    }
  }

  method DefineUpdCascadeTrg(r: DsqlRequest, k: Key, primRelation: name, forRelation: name, version: byte)
    returns (ok: bool)
    requires r.Valid() && ValidKey(k)
    modifies r, r.blrString
    ensures r.Valid()
    ensures ok <==> Fits(UpdateCascade(k, forRelation))
    ensures ok ==> r.contents == old(r.contents)
                                 + Definition(true, primRelation, version, UpdateCascade(k, forRelation))
    ensures ok ==> |r.contents| >= |old(r.contents)|
                   && Defines(r.contents[|old(r.contents)|..], 4, primRelation, version, UpdateCascade(k, forRelation))
  {
    ok := DefineModifying(r, k, primRelation, forRelation, true, version, KeyAssignments(k), false);
    hide EncodeRequest, DecodeRequest, Definition, Defines, Fits;
    if ok {
      TriggersParse(true, k, forRelation, version);
      Defined(old(r.contents), r.contents, true, primRelation, version, UpdateCascade(k, forRelation));
    }
  }
}
