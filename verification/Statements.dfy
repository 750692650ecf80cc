/** The translation of statements, and the proof that control flow survives it. */
module Statements {
  import opened Wrappers
  import opened Bytes
  import opened Blr
  import opened BlrEval
  import opened Tree
  import opened Lowering

  /** label n (loop (begin (if condition action (leave n)))) */
  function WhileLoop(n: nat, c: Expr, action: Stmt): Stmt {
    Label(Low8(n), Loop(WhileTurn(n, c, action)))
  }

  function WhileTurn(n: nat, c: Expr, action: Stmt): Stmt {
    Begin([If(c, action, Some(Leave(Low8(n))))])
  }

  function LowerStatement(cfg: Config, s: Statement): (r: Option<Stmt>)
    requires ValidStatement(s)
  {
    match s
    case Assign(source, target) =>
      var a :- Lower(cfg, source);
      var b :- Lower(cfg, target);
      Some(Assignment(a, b))
    case List(ss) =>
      var body :- LowerStatements(cfg, ss);
      Some(Begin(body))
    case IfThen(c, t, None) =>
      var e :- Lower(cfg, c);
      var a :- LowerStatement(cfg, t);
      Some(If(e, a, None))
    case IfThen(c, t, Some(f)) =>
      var e :- Lower(cfg, c);
      var a :- LowerStatement(cfg, t);
      var b :- LowerStatement(cfg, f);
      Some(If(e, a, Some(b)))
    case While(n, c, action) =>
      var e :- Lower(cfg, c);
      var a :- LowerStatement(cfg, action);
      Some(WhileLoop(n, e, a))
    case BreakLeave(n) => Some(Leave(Low8(n)))
    case Exit => Some(Leave(0))
  }

  function LowerStatements(cfg: Config, ss: seq<Statement>): (r: Option<seq<Stmt>>)
    requires ValidStatements(ss)
    ensures r.Some? ==> |r.value| == |ss|
  {
    if ss == [] then Some([])
    else
      var a :- LowerStatement(cfg, ss[0]);
      var rest :- LowerStatements(cfg, ss[1..]);
      Some([a] + rest)
  }

  /** The compiler accepts a statement iff it accepts every value in it. */
  predicate StatementAccepted(cfg: Config, s: Statement)
    requires ValidStatement(s)
  {
    match s
    case Assign(source, target) => Accepted(cfg, source) && Accepted(cfg, target)
    case List(ss) => AllStatementsAccepted(cfg, ss)
    case IfThen(c, t, f) =>
      Accepted(cfg, c) && StatementAccepted(cfg, t) && (f.Some? ==> StatementAccepted(cfg, f.value))
    case While(_, c, action) => Accepted(cfg, c) && StatementAccepted(cfg, action)
    case _ => true
  }

  predicate AllStatementsAccepted(cfg: Config, ss: seq<Statement>)
    requires ValidStatements(ss)
  {
    forall i :: 0 <= i < |ss| ==> StatementAccepted(cfg, ss[i])
  }

  lemma {:induction false} StatementAcceptedIff(cfg: Config, s: Statement)
    requires ValidStatement(s)
    ensures LowerStatement(cfg, s).Some? <==> StatementAccepted(cfg, s)
    decreases s, 0
  {
    hide Lower, Accepted;
    match s
    case Assign(source, target) =>
      AcceptedIff(cfg, source);
      AcceptedIff(cfg, target);
    case List(ss) => StatementsAcceptedIff(cfg, ss);
    case IfThen(c, t, f) =>
      AcceptedIff(cfg, c);
      StatementAcceptedIff(cfg, t);
      if f.Some? {
        StatementAcceptedIff(cfg, f.value);
      }
    case While(_, c, action) =>
      AcceptedIff(cfg, c);
      StatementAcceptedIff(cfg, action);
    case _ =>
  }

  lemma {:induction false} StatementsAcceptedIff(cfg: Config, ss: seq<Statement>)
    requires ValidStatements(ss)
    ensures LowerStatements(cfg, ss).Some? <==> AllStatementsAccepted(cfg, ss)
    decreases ss, 1
  {
    if ss != [] {
      hide LowerStatement, StatementAccepted;
      StatementAcceptedIff(cfg, ss[0]);
      StatementsAcceptedIff(cfg, ss[1..]);
      assert forall i :: 0 < i < |ss| ==> ss[i] == ss[1..][i - 1];
    }
  }

  predicate StatementParsed(cfg: Config, s: Statement) {
    match s
    case Assign(source, target) => Parsed(cfg, source) && Parsed(cfg, target)
    case List(ss) => forall i :: 0 <= i < |ss| ==> StatementParsed(cfg, ss[i])
    case IfThen(c, t, f) =>
      && Parsed(cfg, c) && StatementParsed(cfg, t)
      && (f.Some? ==> StatementParsed(cfg, f.value))
    case While(_, c, action) => Parsed(cfg, c) && StatementParsed(cfg, action)
    case _ => true
  }

  // ----- the emitted statement can be parsed

  lemma {:induction false} StatementWellFormed(cfg: Config, s: Statement)
    requires ValidStatement(s) && LowerStatement(cfg, s).Some?
    ensures WellFormedStmt(LowerStatement(cfg, s).value)
    decreases s, 0
  {
    match s
    case Assign(source, target) =>
      LowerWellFormed(cfg, source);
      LowerWellFormed(cfg, target);
    case List(ss) => StatementsWellFormed(cfg, ss);
    case IfThen(c, t, f) =>
      LowerWellFormed(cfg, c);
      StatementWellFormed(cfg, t);
      if f.Some? {
        StatementWellFormed(cfg, f.value);
      }
    case While(n, c, action) =>
      LowerWellFormed(cfg, c);
      StatementWellFormed(cfg, action);
      WhileWellFormed(n, Lower(cfg, c).value, LowerStatement(cfg, action).value);
    case _ =>
  }

  lemma WhileWellFormed(n: nat, c: Expr, action: Stmt)
    requires WellFormed(c) && WellFormedStmt(action)
    ensures WellFormedStmt(WhileLoop(n, c, action))
  {
    assert WellFormedStmt(If(c, action, Some(Leave(Low8(n)))));
    assert WellFormedStmt(WhileTurn(n, c, action));
    assert WellFormedStmt(Loop(WhileTurn(n, c, action)));
  }

  lemma {:induction false} StatementsWellFormed(cfg: Config, ss: seq<Statement>)
    requires ValidStatements(ss) && LowerStatements(cfg, ss).Some?
    ensures AllWellFormedStmts(LowerStatements(cfg, ss).value)
    decreases ss, 1
  {
    if ss != [] {
      StatementWellFormed(cfg, ss[0]);
      StatementsWellFormed(cfg, ss[1..]);
    }
  }

  // ----- the emitted statement does what the source does

  /** What the byte code should end with: a break unwinds to the innermost loop's label, an exit to 0. */
  function Unwound(e: Ending, inner: byte): Outcome {
    match e
    case Completed(st) => Done(st)
    case Broken(st) => Left(inner, st)
    case Exited(st) => Left(0, st)
    case OutOfFuel => Timeout
  }

  /**
   What the emitted code of any statement does, for every state and every number of loop
   turns: what the statement means when labels are one byte.
   */
  lemma {:induction false} EmittedMeaning(eng: Engine, cfg: Config, s: Statement, level: nat,
                                          st: State, fuel: nat)
    requires ValidStatement(s) && LowerStatement(cfg, s).Some? && StatementParsed(cfg, s)
    requires Numbered(s, level)
    ensures Run(eng, LowerStatement(cfg, s).value, st, fuel)
            == Unwound(Execute(eng, cfg, OneByte, s, st, fuel), Low8(level))
    decreases fuel, s, 1
  {
    hide Lower, Denote, Eval, Update;
    match s
    case Assign(source, target) =>
      LowerMeaning(eng, cfg, st, source);
      LowerMeaning(eng, cfg, st, target);
    case List(ss) => ListMeaning(eng, cfg, ss, level, st, fuel);
    case IfThen(c, t, f) =>
      LowerMeaning(eng, cfg, st, c);
      EmittedMeaning(eng, cfg, t, level, st, fuel);
      if f.Some? {
        EmittedMeaning(eng, cfg, f.value, level, st, fuel);
      }
    case While(n, c, action) =>
      LoopMeaning(eng, cfg, s, Lower(cfg, c).value, LowerStatement(cfg, action).value, level, st, fuel);
    case _ =>
  }

  lemma {:induction false} ListMeaning(eng: Engine, cfg: Config, ss: seq<Statement>, level: nat,
                                       st: State, fuel: nat)
    requires ValidStatements(ss) && LowerStatements(cfg, ss).Some?
    requires forall i :: 0 <= i < |ss| ==> StatementParsed(cfg, ss[i])
    requires AllNumbered(ss, level)
    ensures RunAll(eng, LowerStatements(cfg, ss).value, st, fuel)
            == Unwound(ExecuteAll(eng, cfg, OneByte, ss, st, fuel), Low8(level))
    decreases fuel, ss, 0
  {
    if ss != [] {
      EmittedMeaning(eng, cfg, ss[0], level, st, fuel);
      var body := LowerStatements(cfg, ss).value;
      assert body[0] == LowerStatement(cfg, ss[0]).value;
      assert body[1..] == LowerStatements(cfg, ss[1..]).value;
      var first := Execute(eng, cfg, OneByte, ss[0], st, fuel);
      if first.Completed? {
        ListMeaning(eng, cfg, ss[1..], level, first.st, fuel);
      }
    }
  }

  lemma OneTurn(eng: Engine, n: nat, c: Expr, action: Stmt, st: State, fuel: nat)
    ensures Run(eng, WhileTurn(n, c, action), st, fuel)
            == if Eval(eng, st, c) == TRUE then Run(eng, action, st, fuel) else Left(Low8(n), st)
  {
    var leave := Leave(Low8(n));
    var choice := If(c, action, Some(leave));
    assert [choice][1..] == [];
    assert Run(eng, leave, st, fuel) == Left(Low8(n), st);
    assert RunAll(eng, [choice], st, fuel) == Run(eng, choice, st, fuel);
  }

  /**
   The loop itself always leaves through a label: its own when the condition fails, on a
   break, and on an exit when its own is 0.
   */
  lemma {:induction false} LoopMeaning(eng: Engine, cfg: Config, s: Statement, c: Expr, action: Stmt,
                                       level: nat, st: State, fuel: nat)
    requires s.While? && ValidStatement(s) && StatementParsed(cfg, s)
    requires Lower(cfg, s.condition) == Some(c) && LowerStatement(cfg, s.action) == Some(action)
    requires Numbered(s, level)
    ensures Run(eng, Loop(WhileTurn(s.number, c, action)), st, fuel)
            == LoopEnding(Execute(eng, cfg, OneByte, s, st, fuel), Low8(s.number))
    ensures !Execute(eng, cfg, OneByte, s, st, fuel).Broken?
    ensures Execute(eng, cfg, OneByte, s, st, fuel).Exited? ==> Low8(s.number) != 0
    decreases fuel, s, 0
  {
    hide Lower, Denote, Eval, LowerStatement;
    if fuel > 0 {
      OneTurn(eng, s.number, c, action, st, fuel);
      LowerMeaning(eng, cfg, st, s.condition);
      EmittedMeaning(eng, cfg, s.action, level + 1, st, fuel);
      var once := Execute(eng, cfg, OneByte, s.action, st, fuel);
      if Denote(eng, cfg, st, s.condition) == TRUE && once.Completed? {
        LoopMeaning(eng, cfg, s, c, action, level, once.st, fuel - 1);
      }
    }
  }

  function LoopEnding(e: Ending, own: byte): Outcome {
    match e
    case Completed(st) => Left(own, st)
    case other => Unwound(other, own)
  }

  // ----- when one-byte labels are enough

  /**
   No EXIT stands inside a loop whose number is a multiple of 256.  The number is the
   nesting level, so such a loop has at least 255 others around it.
   */
  predicate ExitsSafe(s: Statement, safe: bool) {
    match s
    case List(ss) => forall i :: 0 <= i < |ss| ==> ExitsSafe(ss[i], safe)
    case IfThen(_, t, f) => ExitsSafe(t, safe) && (f.Some? ==> ExitsSafe(f.value, safe))
    case While(n, _, action) => ExitsSafe(action, safe && n % 0x100 != 0)
    case Exit => safe
    case _ => true
  }

  lemma {:induction false} NeverExits(eng: Engine, cfg: Config, labels: Labels, s: Statement, st: State, fuel: nat)
    requires ValidStatement(s) && ExitsSafe(s, false)
    ensures !Execute(eng, cfg, labels, s, st, fuel).Exited?
    decreases fuel, s, 1
  {
    hide Denote, Update;
    match s
    case List(ss) => NoneExits(eng, cfg, labels, ss, st, fuel);
    case IfThen(_, t, f) =>
      NeverExits(eng, cfg, labels, t, st, fuel);
      if f.Some? {
        NeverExits(eng, cfg, labels, f.value, st, fuel);
      }
    case While(_, _, action) =>
      if fuel > 0 {
        NeverExits(eng, cfg, labels, action, st, fuel);
        var once := Execute(eng, cfg, labels, action, st, fuel);
        if once.Completed? {
          NeverExits(eng, cfg, labels, s, once.st, fuel - 1);
        }
      }
    case _ =>
  }

  lemma {:induction false} NoneExits(eng: Engine, cfg: Config, labels: Labels, ss: seq<Statement>,
                                     st: State, fuel: nat)
    requires ValidStatements(ss) && forall i :: 0 <= i < |ss| ==> ExitsSafe(ss[i], false)
    ensures !ExecuteAll(eng, cfg, labels, ss, st, fuel).Exited?
    decreases fuel, ss, 0
  {
    if ss != [] {
      NeverExits(eng, cfg, labels, ss[0], st, fuel);
      var first := Execute(eng, cfg, labels, ss[0], st, fuel);
      if first.Completed? {
        NoneExits(eng, cfg, labels, ss[1..], first.st, fuel);
      }
    }
  }

  /** Where no EXIT can be caught, the two meanings agree. */
  lemma {:induction false} LabelsSuffice(eng: Engine, cfg: Config, s: Statement, safe: bool, st: State, fuel: nat)
    requires ValidStatement(s) && ExitsSafe(s, safe)
    ensures Execute(eng, cfg, OneByte, s, st, fuel) == Execute(eng, cfg, Unbounded, s, st, fuel)
    decreases fuel, s, 1
  {
    hide Denote, Update;
    match s
    case List(ss) => LabelsSufficeForAll(eng, cfg, ss, safe, st, fuel);
    case IfThen(_, t, f) =>
      LabelsSuffice(eng, cfg, t, safe, st, fuel);
      if f.Some? {
        LabelsSuffice(eng, cfg, f.value, safe, st, fuel);
      }
    case While(n, _, action) =>
      if fuel > 0 {
        LabelsSuffice(eng, cfg, action, safe && n % 0x100 != 0, st, fuel);
        var once := Execute(eng, cfg, Unbounded, action, st, fuel);
        if once.Completed? {
          LabelsSuffice(eng, cfg, s, safe, once.st, fuel - 1);
        }
        if n % 0x100 == 0 {
          NeverExits(eng, cfg, OneByte, action, st, fuel);
        }
      }
    case _ =>
  }

  lemma {:induction false} LabelsSufficeForAll(eng: Engine, cfg: Config, ss: seq<Statement>, safe: bool,
                                               st: State, fuel: nat)
    requires ValidStatements(ss) && forall i :: 0 <= i < |ss| ==> ExitsSafe(ss[i], safe)
    ensures ExecuteAll(eng, cfg, OneByte, ss, st, fuel) == ExecuteAll(eng, cfg, Unbounded, ss, st, fuel)
    decreases fuel, ss, 0
  {
    if ss != [] {
      LabelsSuffice(eng, cfg, ss[0], safe, st, fuel);
      var first := Execute(eng, cfg, Unbounded, ss[0], st, fuel);
      if first.Completed? {
        LabelsSufficeForAll(eng, cfg, ss[1..], safe, first.st, fuel);
      }
    }
  }

  /** Compiler correctness for statements: the emitted code does what the source means. */
  lemma StatementMeaning(eng: Engine, cfg: Config, s: Statement, level: nat, st: State, fuel: nat)
    requires ValidStatement(s) && LowerStatement(cfg, s).Some? && StatementParsed(cfg, s)
    requires Numbered(s, level) && ExitsSafe(s, true)
    ensures Run(eng, LowerStatement(cfg, s).value, st, fuel)
            == Unwound(Execute(eng, cfg, Unbounded, s, st, fuel), Low8(level))
  {
    EmittedMeaning(eng, cfg, s, level, st, fuel);
    LabelsSuffice(eng, cfg, s, true, st, fuel);
  }

  /** With one-byte labels an EXIT under a loop that is a multiple of 256 ends that loop, and only that. */
  lemma {:induction false} CaughtExit(eng: Engine, cfg: Config, s: Statement, st: State, fuel: nat)
    requires s.While? && ValidStatement(s) && ExitsSafe(s.action, true) && s.number % 0x100 == 0
    ensures Execute(eng, cfg, OneByte, s, st, fuel)
            == match Execute(eng, cfg, Unbounded, s, st, fuel)
               case Exited(st') => Completed(st')
               case other => other
    decreases fuel
  {
    hide Denote, Update;
    if fuel > 0 {
      LabelsSuffice(eng, cfg, s.action, true, st, fuel);
      var once := Execute(eng, cfg, Unbounded, s.action, st, fuel);
      if once.Completed? {
        CaughtExit(eng, cfg, s, once.st, fuel - 1);
      }
    }
  }

  /**
   The condition is exact.  Take any loop whose action has no EXIT in a loop that is a
   multiple of 256: a run of it is compiled right if and only if it is not the case that
   the loop's own number is a multiple of 256 and the run ends in an EXIT.  When both hold
   the code goes on behind the loop instead of leaving the body.
   */
  lemma ExitFromLoop(eng: Engine, cfg: Config, s: Statement, level: nat, st: State, fuel: nat)
    requires s.While? && ExitsSafe(s.action, true)
    requires ValidStatement(s) && LowerStatement(cfg, s).Some? && StatementParsed(cfg, s) && Numbered(s, level)
    ensures var source := Execute(eng, cfg, Unbounded, s, st, fuel);
            var code := Run(eng, LowerStatement(cfg, s).value, st, fuel);
            && (code == Unwound(source, Low8(level)) <==> !(s.number % 0x100 == 0 && source.Exited?))
            && (s.number % 0x100 == 0 && source.Exited? ==> code == Done(source.st))
  {
    EmittedMeaning(eng, cfg, s, level, st, fuel);
    if s.number % 0x100 == 0 {
      CaughtExit(eng, cfg, s, st, fuel);
    } else {
      LabelsSuffice(eng, cfg, s, true, st, fuel);
    }
  }

  /** `count` loops around an EXIT, numbered from `level` + 1. */
  function Nest(c: Node, level: nat, count: nat): Statement
    decreases count
  {
    if count == 0 then Exit else While(level + 1, c, Nest(c, level + 1, count - 1))
  }

  lemma {:induction false} NestShape(cfg: Config, c: Node, level: nat, count: nat)
    requires ValidNode(c) && Lower(cfg, c).Some? && Parsed(cfg, c)
    ensures var s := Nest(c, level, count);
            && ValidStatement(s) && LowerStatement(cfg, s).Some? && StatementParsed(cfg, s) && Numbered(s, level)
    decreases count
  {
    if count > 0 {
      NestShape(cfg, c, level + 1, count - 1);
    }
  }

  lemma {:induction false} NestExits(eng: Engine, cfg: Config, c: Node, level: nat, count: nat, st: State, fuel: nat)
    requires ValidNode(c) && Denote(eng, cfg, st, c) == TRUE && fuel > 0
    requires ValidStatement(Nest(c, level, count))
    ensures Execute(eng, cfg, Unbounded, Nest(c, level, count), st, fuel) == Exited(st)
    decreases count
  {
    if count > 0 {
      NestExits(eng, cfg, c, level + 1, count - 1, st, fuel);
    }
  }

  lemma {:induction false} NestHangs(eng: Engine, cfg: Config, c: Node, level: nat, st: State, fuel: nat)
    requires level < 0x100 && ValidNode(c) && Denote(eng, cfg, st, c) == TRUE
    requires ValidStatement(Nest(c, level, 0x100 - level))
    ensures fuel > 0 && level == 0xFF ==>
              Execute(eng, cfg, OneByte, Nest(c, level, 0x100 - level), st, fuel) == Completed(st)
    ensures level < 0xFF ==>
              Execute(eng, cfg, OneByte, Nest(c, level, 0x100 - level), st, fuel) == OutOfFuel
    decreases 0x100 - level, fuel
  {
    if level == 0xFF {
      assert Nest(c, level, 1) == While(0x100, c, Exit);
    } else if fuel > 0 {
      NestHangs(eng, cfg, c, level + 1, st, fuel);
      NestHangs(eng, cfg, c, level, st, fuel - 1);
    }
  }

  /**
   An EXIT inside 256 loops that never end by themselves: the source leaves the body at
   once, the code goes round forever.
   */
  lemma DeepExit(eng: Engine, cfg: Config, c: Node, st: State, fuel: nat)
    requires ValidNode(c) && Lower(cfg, c).Some? && Parsed(cfg, c)
    requires Denote(eng, cfg, st, c) == TRUE && fuel > 0
    ensures var s := Nest(c, 0, 0x100);
            && ValidStatement(s) && LowerStatement(cfg, s).Some? && StatementParsed(cfg, s) && Numbered(s, 0)
            && Execute(eng, cfg, Unbounded, s, st, fuel) == Exited(st)
            && Run(eng, LowerStatement(cfg, s).value, st, fuel) == Timeout
  {
    NestShape(cfg, c, 0, 0x100);
    NestExits(eng, cfg, c, 0, 0x100, st, fuel);
    NestHangs(eng, cfg, c, 0, st, fuel);
    EmittedMeaning(eng, cfg, Nest(c, 0, 0x100), 0, st, fuel);
  }

  /**
   End to end: the bytes of a body parse back to one statement, and running that statement
   ends as one-byte labels make it, which is as the source does when exits are safe.
   */
  lemma CompiledBody(eng: Engine, cfg: Config, s: Statement, version: byte, st: State, fuel: nat)
    requires ValidStatement(s) && LowerStatement(cfg, s).Some? && StatementParsed(cfg, s)
    requires Numbered(s, 0)
    ensures var parsed := DecodeRequest(EncodeRequest(version, LowerStatement(cfg, s).value));
            && parsed.Some? && parsed.value.0 == version
            && Run(eng, parsed.value.1, st, fuel)
               == Unwound(Execute(eng, cfg, OneByte, s, st, fuel), 0)
            && (ExitsSafe(s, true) ==>
                  Run(eng, parsed.value.1, st, fuel)
                  == Unwound(Execute(eng, cfg, Unbounded, s, st, fuel), 0))
  {
    StatementWellFormed(cfg, s);
    DecodeEncodeRequest(version, LowerStatement(cfg, s).value);
    EmittedMeaning(eng, cfg, s, 0, st, fuel);
    if ExitsSafe(s, true) {
      LabelsSuffice(eng, cfg, s, true, st, fuel);
    }
  }
}
