/**
 Recovery of multi-database transactions: a coordinator that prepares, then commits or
 rolls back its subtransactions in order and may stop anywhere, and the tool that later
 looks at what each database remembers and finishes the job.
 */
module Recovery {
  import opened Wrappers

  const TRA_NONE: nat := 0
  const TRA_LIMBO: nat := 1
  const TRA_COMMIT: nat := 2
  const TRA_ROLLBACK: nat := 3
  const TRA_UNKNOWN: nat := 4

  // ----- what the databases hold

  /**
   A subtransaction.  The coordinator's own commit erases the record that preparing
   wrote; recovery's commit and every rollback of a prepared subtransaction keep it.  A
   subtransaction that was never prepared has no record and its work is lost.
   */
  datatype Sub = Active | Prepared | Erased | RecordedCommit | RecordedRollback

  predicate WorkKept(s: Sub) {
    s.Erased? || s.RecordedCommit?
  }

  predicate WorkLost(s: Sub) {
    s.Active? || s.RecordedRollback?
  }

  /** The state read back from a database's transaction records. */
  function RecordedState(s: Sub): nat {
    match s
    case Active => TRA_NONE
    case Prepared => TRA_LIMBO
    case Erased => TRA_NONE
    case RecordedCommit => TRA_COMMIT
    case RecordedRollback => TRA_ROLLBACK
  }

  /** Databases that cannot be reattached report nothing. */
  function Observed(subs: seq<Sub>, attached: seq<bool>): (states: seq<nat>)
    requires |attached| == |subs|
    ensures |states| == |subs|
  {
    seq(|subs|, i requires 0 <= i < |subs| => if attached[i] then RecordedState(subs[i]) else TRA_UNKNOWN)
  }

  // ----- the advice

  /** One step of the analysis: the first state, the advice so far, the next state; None ends it. */
  function Advise(first: nat, advice: nat, state: nat): Option<nat> {
    if state == TRA_COMMIT then
      if first == TRA_ROLLBACK then None else Some(TRA_COMMIT)
    else if state == TRA_LIMBO then
      Some(if first == TRA_NONE || first == TRA_COMMIT then TRA_COMMIT
           else if first == TRA_ROLLBACK then TRA_ROLLBACK
           else advice)
    else if state == TRA_ROLLBACK then
      if first == TRA_COMMIT || first == TRA_NONE then None else Some(TRA_ROLLBACK)
    else if state == TRA_NONE then
      Some(if first == TRA_COMMIT then TRA_COMMIT
           else if first == TRA_LIMBO then TRA_ROLLBACK
           else advice)
    else if state == TRA_UNKNOWN then Some(if advice == TRA_NONE then TRA_UNKNOWN else advice)
    else None
  }

  function Fold(first: nat, advice: nat, states: seq<nat>): nat
    decreases |states|
  {
    if states == [] then advice
    else
      match Advise(first, advice, states[0])
      case None => TRA_NONE
      case Some(next) => Fold(first, next, states[1..])
  }

  /** A missing first record counts as committed. */
  function Advice(states: seq<nat>): nat {
    if states == [] then TRA_NONE
    else
      Fold(if states[0] == TRA_NONE then TRA_COMMIT else states[0],
           if states[0] == TRA_UNKNOWN then TRA_UNKNOWN else TRA_NONE,
           states[1..])
  }

  // ----- the decision

  datatype Direction = Commit | Rollback

  datatype Switches = Switches(commit: bool, rollback: bool, twoPhase: bool, prompt: bool)

  /** What is done, given the operator's answer if one has to be asked (None: no answer, or neither). */
  function Decide(advice: nat, sw: Switches, answer: Option<Direction>): Option<Direction> {
    if advice == TRA_NONE then answer
    else if advice == TRA_ROLLBACK then
      if sw.commit then answer
      else if sw.rollback || sw.twoPhase then Some(Rollback)
      else if sw.prompt then answer
      else None
    else if advice == TRA_COMMIT then
      if sw.rollback then answer
      else if sw.commit || sw.twoPhase then Some(Commit)
      else if sw.prompt then answer
      else None
    else if advice == TRA_UNKNOWN then answer
    else if sw.commit then Some(Commit)
    else if sw.rollback then Some(Rollback)
    else answer
  }

  function Finished(d: Direction): Sub {
    if d.Commit? then RecordedCommit else RecordedRollback
  }

  // ----- the tool, on its list of transaction descriptions

  /** A database as recovery finds it: whether it can be attached, and whether a reconnect in it works. */
  class Database {
    var sub: Sub
    var answers: bool
    var reconnects: bool

    constructor (s: Sub, answers: bool, reconnects: bool)
      ensures sub == s && this.answers == answers && this.reconnects == reconnects
    {
      sub, this.answers, this.reconnects := s, answers, reconnects;
    }
  }

  class Tdr {
    const database: Database
    var state: nat
    var next: Tdr?

    /** A new description knows no state yet. */
    constructor (d: Database, following: Tdr?)
      ensures database == d && state == TRA_NONE && next == following
    {
      database := d;
      state := TRA_NONE;
      next := following;
    }
  }

  /** The list from t on is exactly these nodes. */
  ghost predicate Chain(t: Tdr?, nodes: seq<Tdr>)
    reads nodes`next
  {
    if nodes == [] then t == null
    else t == nodes[0] && Chain(nodes[0].next, nodes[1..])
  }

  ghost predicate Separate(nodes: seq<Tdr>)
  {
    && (forall i, j :: 0 <= i < j < |nodes| ==> nodes[i] != nodes[j])
    && (forall i, j :: 0 <= i < j < |nodes| ==> nodes[i].database != nodes[j].database)
  }

  ghost function States(nodes: seq<Tdr>): (states: seq<nat>)
    reads nodes`state
    ensures |states| == |nodes|
    ensures forall i :: 0 <= i < |nodes| ==> states[i] == nodes[i].state
  {
    if nodes == [] then [] else [nodes[0].state] + States(nodes[1..])
  }

  ghost function Databases(nodes: seq<Tdr>): (ds: seq<Database>)
    ensures |ds| == |nodes|
    ensures forall i :: 0 <= i < |nodes| ==> ds[i] == nodes[i].database
  {
    if nodes == [] then [] else [nodes[0].database] + Databases(nodes[1..])
  }

  ghost function Subs(nodes: seq<Tdr>): (subs: seq<Sub>)
    reads Databases(nodes)
    ensures |subs| == |nodes|
    ensures forall i :: 0 <= i < |nodes| ==> subs[i] == nodes[i].database.sub
  {
    if nodes == [] then []
    else
      assert forall i :: 0 <= i < |nodes| - 1 ==> Databases(nodes[1..])[i] == Databases(nodes)[i + 1];
      assert Databases(nodes)[0] == nodes[0].database;
      [nodes[0].database.sub] + Subs(nodes[1..])
  }

  /** Which databases can be attached. */
  ghost function Attached(nodes: seq<Tdr>): (b: seq<bool>)
    reads Databases(nodes)
    ensures |b| == |nodes|
    ensures forall i :: 0 <= i < |nodes| ==> b[i] == Databases(nodes)[i].answers
  {
    seq(|nodes|, i requires 0 <= i < |nodes| reads Databases(nodes) => Databases(nodes)[i].answers)
  }

  /** In which of them a reconnect works. */
  ghost function Reconnected(nodes: seq<Tdr>): (b: seq<bool>)
    reads Databases(nodes)
    ensures |b| == |nodes|
    ensures forall i :: 0 <= i < |nodes| ==> b[i] == Databases(nodes)[i].reconnects
  {
    seq(|nodes|, i requires 0 <= i < |nodes| reads Databases(nodes) => Databases(nodes)[i].reconnects)
  }

  method Analyze(trans: Tdr?, ghost nodes: seq<Tdr>) returns (advice: nat)
    requires Chain(trans, nodes)
    ensures advice == Advice(States(nodes))
  {
    advice := TRA_NONE;
    if trans == null {
      return;
    }
    var state := trans.state;
    if state == TRA_NONE {
      state := TRA_COMMIT;
    } else if state == TRA_UNKNOWN {
      advice := TRA_UNKNOWN;
    }
    var t := trans.next;
    ghost var rest := nodes[1..];
    assert States(nodes)[1..] == States(rest);
    while t != null
      invariant Chain(t, rest)
      invariant Fold(state, advice, States(rest)) == Advice(States(nodes))
      decreases |rest|
    {
      assert States(rest)[1..] == States(rest[1..]);
      if t.state == TRA_COMMIT {
        if state == TRA_ROLLBACK {
          return TRA_NONE;
        }
        advice := TRA_COMMIT;
      } else if t.state == TRA_LIMBO {
        if state == TRA_NONE {
          advice := TRA_COMMIT;
        } else if state == TRA_COMMIT {
          advice := TRA_COMMIT;
        } else if state == TRA_ROLLBACK {
          advice := TRA_ROLLBACK;
        }
      } else if t.state == TRA_ROLLBACK {
        if state == TRA_COMMIT || state == TRA_NONE {
          return TRA_NONE;
        }
        advice := TRA_ROLLBACK;
      } else if t.state == TRA_NONE {
        if state == TRA_COMMIT {
          advice := TRA_COMMIT;
        } else if state == TRA_LIMBO {
          advice := TRA_ROLLBACK;
        }
      } else if t.state == TRA_UNKNOWN {
        if advice == TRA_NONE {
          advice := TRA_UNKNOWN;
        }
      } else {
        return TRA_NONE;
      }
      t := t.next;
      rest := rest[1..];
    }
  }

  lemma ChainAt(t: Tdr?, nodes: seq<Tdr>, k: nat)
    requires k <= |nodes| && Chain(t, nodes[k..])
    ensures t == null <==> k == |nodes|
    ensures t != null ==> t == nodes[k] && Chain(t.next, nodes[k + 1..])
  {
    if k < |nodes| {
      assert nodes[k..][1..] == nodes[k + 1..];
    }
  }

  /** What each database remembers, read into the list; an unreachable one is unknown. */
  method GetStates(trans: Tdr?, ghost nodes: seq<Tdr>)
    requires Chain(trans, nodes) && Separate(nodes)
    requires forall n :: n in nodes ==> n.state == TRA_NONE
    modifies nodes`state
    ensures States(nodes) == Observed(Subs(nodes), Attached(nodes))
  {
    hide Chain;
    var t := trans;
    ghost var k := 0;
    assert nodes[0..] == nodes;
    ChainAt(t, nodes, 0);
    while t != null
      invariant k <= |nodes| && Chain(t, nodes[k..]) && (t == null <==> k == |nodes|)
      invariant forall i :: 0 <= i < k ==>
                  nodes[i].state == if nodes[i].database.answers then RecordedState(nodes[i].database.sub) else TRA_UNKNOWN
      invariant forall i :: k <= i < |nodes| ==> nodes[i].state == TRA_NONE
      decreases |nodes| - k
    {
      ChainAt(t, nodes, k);
      if !t.database.answers {
        t.state := TRA_UNKNOWN;
      } else if !t.database.sub.Active? && !t.database.sub.Erased? {
        t.state := RecordedState(t.database.sub);
      }
      k := k + 1;
      t := t.next;
      ChainAt(t, nodes, k);
    }
  }

  /** Every visible limbo entry whose reconnect works is finished in the direction chosen; all else stays. */
  function AfterRecovery(before: seq<Sub>, attached: seq<bool>, works: seq<bool>, d: Option<Direction>): (after: seq<Sub>)
    requires |before| == |attached| == |works|
    ensures |after| == |before|
  {
    seq(|before|, i requires 0 <= i < |before| =>
      if attached[i] && before[i].Prepared? && works[i] && d.Some? then Finished(d.value) else before[i])
  }

  /** Some prepared subtransactions, all of them visible, were finished in one direction. */
  ghost predicate Recovered(before: seq<Sub>, after: seq<Sub>, attached: seq<bool>, d: Option<Direction>) {
    && |before| == |after| == |attached|
    && forall i :: 0 <= i < |before| ==>
         || after[i] == before[i]
         || (attached[i] && before[i].Prepared? && d.Some? && after[i] == Finished(d.value))
  }

  /** That is what a recovery can come to, given which reconnects work. */
  lemma RecoveredIsSome(before: seq<Sub>, after: seq<Sub>, attached: seq<bool>, d: Option<Direction>)
    requires |before| == |attached|
    ensures Recovered(before, after, attached, d)
            <==> exists works: seq<bool> :: |works| == |before| && after == AfterRecovery(before, attached, works, d)
  {
    if Recovered(before, after, attached, d) {
      var works := seq(|before|, i requires 0 <= i < |before| => after[i] != before[i]);
      assert after == AfterRecovery(before, attached, works, d);
    }
  }

  /** Finish every entry seen in limbo; each may fail on its own. */
  method FinishLimbo(trans: Tdr?, ghost nodes: seq<Tdr>, direction: Direction)
    requires Chain(trans, nodes) && Separate(nodes)
    modifies Databases(nodes)`sub
    ensures forall i :: 0 <= i < |nodes| ==>
              nodes[i].database.sub ==
              if nodes[i].state == TRA_LIMBO && nodes[i].database.reconnects then Finished(direction)
              else old(nodes[i].database.sub)
  {
    var t := trans;
    ghost var k := 0;
    while t != null
      invariant k <= |nodes| && Chain(t, nodes[k..])
      invariant forall i :: k <= i < |nodes| ==> nodes[i].database.sub == old(nodes[i].database.sub)
      invariant forall i :: 0 <= i < k ==>
                  nodes[i].database.sub ==
                  if nodes[i].state == TRA_LIMBO && nodes[i].database.reconnects then Finished(direction)
                  else old(nodes[i].database.sub)
      decreases |nodes| - k
    {
      assert t == nodes[k] && nodes[k..][1..] == nodes[k + 1..];
      assert t.database == Databases(nodes)[k];
      if t.state == TRA_LIMBO && t.database.reconnects {
        t.database.sub := Finished(direction);
      }
      k := k + 1;
      t := t.next;
    }
  }

  /**
   The whole recovery of one transaction: look, analyse, decide, then finish what is in
   limbo.
   */
  method ReconnectMultiple(trans: Tdr?, ghost nodes: seq<Tdr>, sw: Switches, answer: Option<Direction>)
    requires Chain(trans, nodes) && Separate(nodes)
    requires forall n :: n in nodes ==> n.state == TRA_NONE
    modifies nodes`state, Databases(nodes)`sub
    ensures Subs(nodes) == AfterRecovery(old(Subs(nodes)), Attached(nodes), Reconnected(nodes),
                                         Decide(Advice(Observed(old(Subs(nodes)), Attached(nodes))), sw, answer))
  {
    hide States, Databases, Subs, Chain, Fold, Advice, Observed, Decide, AfterRecovery, Attached, Reconnected;
    ghost var before, attached := Subs(nodes), Attached(nodes);
    GetStates(trans, nodes);
    ghost var states := States(nodes);
    assert Subs(nodes) == before && Attached(nodes) == attached;
    var advice := Analyze(trans, nodes);
    var direction := Decide(advice, sw, answer);
    ghost var works := Reconnected(nodes);
    if direction.Some? {
      FinishLimbo(trans, nodes, direction.value);
      assert Attached(nodes) == attached && Reconnected(nodes) == works;
      FinishedVisible(before, Subs(nodes), states, attached, works, direction.value);
    } else {
      NothingDone(before, attached, works);
    }
  }

  lemma NothingDone(subs: seq<Sub>, attached: seq<bool>, works: seq<bool>)
    requires |subs| == |attached| == |works|
    ensures AfterRecovery(subs, attached, works, None) == subs
  {
  }

  lemma FinishedVisible(before: seq<Sub>, after: seq<Sub>, states: seq<nat>, attached: seq<bool>, works: seq<bool>,
                        d: Direction)
    requires |before| == |after| == |attached| == |works| && states == Observed(before, attached)
    requires forall i :: 0 <= i < |before| ==>
               after[i] == if states[i] == TRA_LIMBO && works[i] then Finished(d) else before[i]
    ensures after == AfterRecovery(before, attached, works, Some(d))
  {
  }

  // ----- the coordinator

  datatype Phase = Preparing(done: nat) | Committing(done: nat) | RollingBack(done: nat) | Stopped

  datatype World = World(phase: Phase, subs: seq<Sub>)

  ghost predicate Init(w: World) {
    w.phase == Preparing(0) && forall i :: 0 <= i < |w.subs| ==> w.subs[i].Active?
  }

  ghost predicate PrepareNext(w: World, w': World) {
    && w.phase.Preparing? && w.phase.done < |w.subs|
    && w' == World(Preparing(w.phase.done + 1), w.subs[w.phase.done := Prepared])
  }

  ghost predicate DecideCommit(w: World, w': World) {
    w.phase == Preparing(|w.subs|) && w' == w.(phase := Committing(0))
  }

  ghost predicate CommitNext(w: World, w': World) {
    && w.phase.Committing? && w.phase.done < |w.subs|
    && w' == World(Committing(w.phase.done + 1), w.subs[w.phase.done := Erased])
  }

  ghost predicate DecideRollback(w: World, w': World) {
    w.phase.Preparing? && w' == w.(phase := RollingBack(0))
  }

  ghost predicate RollbackNext(w: World, w': World) {
    && w.phase.RollingBack? && w.phase.done < |w.subs|
    && w' == World(RollingBack(w.phase.done + 1),
                   if w.subs[w.phase.done].Prepared? then w.subs[w.phase.done := RecordedRollback] else w.subs)
  }

  ghost predicate Stop(w: World, w': World) {
    w' == w.(phase := Stopped)
  }

  /** The operator decides only with every subtransaction in view and in limbo. */
  ghost predicate SoundAnswer(states: seq<nat>, answer: Option<Direction>) {
    answer.Some? ==> forall i :: 0 <= i < |states| ==> states[i] == TRA_LIMBO
  }

  ghost predicate Recover(w: World, w': World, attached: seq<bool>, sw: Switches, answer: Option<Direction>) {
    && w.phase.Stopped? && w'.phase.Stopped? && |attached| == |w.subs|
    && SoundAnswer(Observed(w.subs, attached), answer)
    && Recovered(w.subs, w'.subs, attached, Decide(Advice(Observed(w.subs, attached)), sw, answer))
  }

  ghost predicate Next(w: World, w': World) {
    || PrepareNext(w, w') || DecideCommit(w, w') || CommitNext(w, w')
    || DecideRollback(w, w') || RollbackNext(w, w') || Stop(w, w')
    || exists attached, sw, answer :: Recover(w, w', attached, sw, answer)
  }

  ghost predicate Run(trace: seq<World>) {
    && trace != [] && Init(trace[0])
    && forall i :: 0 <= i < |trace| - 1 ==> Next(trace[i], trace[i + 1])
  }

  // ----- the shapes that are ever reached

  /** Commits come first: erased records, then entries still in limbo or finished by recovery. */
  ghost predicate CommitSide(subs: seq<Sub>, k: nat) {
    && k <= |subs|
    && (forall i :: 0 <= i < k ==> subs[i].Erased?)
    && (forall i :: k <= i < |subs| ==> subs[i].Prepared? || subs[i].RecordedCommit?)
  }

  /** Everything prepared is in limbo or rolled back, and the rest was never prepared. */
  ghost predicate RollbackSide(subs: seq<Sub>, k: nat) {
    && k <= |subs|
    && (forall i :: 0 <= i < k ==> subs[i].Prepared? || subs[i].RecordedRollback?)
    && (forall i :: k <= i < |subs| ==> subs[i].Active?)
  }

  ghost predicate Consistent(subs: seq<Sub>) {
    (exists k :: CommitSide(subs, k)) || (exists k :: RollbackSide(subs, k))
  }

  ghost predicate Invariant(w: World) {
    match w.phase
    case Preparing(k) =>
      k <= |w.subs| && forall i :: 0 <= i < |w.subs| ==> w.subs[i] == if i < k then Prepared else Active
    case Committing(k) =>
      k <= |w.subs| && forall i :: 0 <= i < |w.subs| ==> w.subs[i] == if i < k then Erased else Prepared
    case RollingBack(k) => exists n :: RollbackSide(w.subs, n)
    case Stopped => Consistent(w.subs)
  }

  /** No subtransaction's work is kept while another's is lost. */
  ghost predicate Atomic(subs: seq<Sub>) {
    !exists i, j :: 0 <= i < |subs| && 0 <= j < |subs| && WorkKept(subs[i]) && WorkLost(subs[j])
  }

  /** The advice contradicts nothing that has already happened. */
  ghost predicate Safe(advice: nat, subs: seq<Sub>) {
    && (advice == TRA_COMMIT ==> forall i :: 0 <= i < |subs| ==> !WorkLost(subs[i]))
    && (advice == TRA_ROLLBACK ==> forall i :: 0 <= i < |subs| ==> !WorkKept(subs[i]))
  }

  ghost predicate LimboLeft(states: seq<nat>) {
    exists i :: 0 <= i < |states| && states[i] == TRA_LIMBO
  }

  ghost predicate CommitStates(states: seq<nat>) {
    forall i :: 0 <= i < |states| ==>
      states[i] == TRA_LIMBO || states[i] == TRA_COMMIT || states[i] == TRA_UNKNOWN || states[i] == TRA_NONE
  }

  ghost predicate RollbackStates(states: seq<nat>) {
    forall i :: 0 <= i < |states| ==>
      states[i] == TRA_LIMBO || states[i] == TRA_ROLLBACK || states[i] == TRA_UNKNOWN || states[i] == TRA_NONE
  }

  /** On the commit side only commit is ever advised: a first entry in limbo means no record is missing. */
  lemma {:induction false} CommitSideFold(first: nat, advice: nat, states: seq<nat>)
    requires CommitStates(states)
    requires first == TRA_LIMBO || first == TRA_COMMIT || first == TRA_UNKNOWN
    requires first == TRA_LIMBO ==> forall i :: 0 <= i < |states| ==> states[i] != TRA_NONE
    requires advice == TRA_NONE || advice == TRA_COMMIT || advice == TRA_UNKNOWN
    ensures var a := Fold(first, advice, states);
            a == TRA_NONE || a == TRA_COMMIT || a == TRA_UNKNOWN
    decreases |states|
  {
    if states != [] {
      var next := Advise(first, advice, states[0]);
      if next.Some? {
        CommitSideFold(first, next.value, states[1..]);
      }
    }
  }

  /** On the rollback side a missing record always follows a prepared or rolled-back first entry. */
  lemma {:induction false} RollbackSideFold(first: nat, advice: nat, states: seq<nat>)
    requires RollbackStates(states)
    requires first == TRA_LIMBO || first == TRA_ROLLBACK || first == TRA_UNKNOWN
    requires advice == TRA_NONE || advice == TRA_ROLLBACK || advice == TRA_UNKNOWN
    ensures var a := Fold(first, advice, states);
            a == TRA_NONE || a == TRA_ROLLBACK || a == TRA_UNKNOWN
    decreases |states|
  {
    if states != [] {
      var next := Advise(first, advice, states[0]);
      if next.Some? {
        RollbackSideFold(first, next.value, states[1..]);
      }
    }
  }

  /**
   In every consistent state, whatever is masked, the advice is safe as long as some
   entry is still seen in limbo.
   */
  lemma AdviceIsSafe(subs: seq<Sub>, attached: seq<bool>)
    requires Consistent(subs) && |attached| == |subs|
    requires LimboLeft(Observed(subs, attached))
    ensures Safe(Advice(Observed(subs, attached)), subs)
    ensures Advice(Observed(subs, attached)) in {TRA_NONE, TRA_COMMIT, TRA_ROLLBACK, TRA_UNKNOWN}
  {
    var states := Observed(subs, attached);
    var i :| 0 <= i < |states| && states[i] == TRA_LIMBO;
    assert subs[i].Prepared?;
    if exists k :: CommitSide(subs, k) {
      var k :| CommitSide(subs, k);
      CommitSideFold(if states[0] == TRA_NONE then TRA_COMMIT else states[0],
                     if states[0] == TRA_UNKNOWN then TRA_UNKNOWN else TRA_NONE, states[1..]);
    } else {
      var k :| RollbackSide(subs, k);
      assert i < k && states[0] != TRA_NONE;
      RollbackSideFold(states[0], if states[0] == TRA_UNKNOWN then TRA_UNKNOWN else TRA_NONE, states[1..]);
    }
  }

  lemma ConsistentIsAtomic(subs: seq<Sub>)
    requires Consistent(subs)
    ensures Atomic(subs)
  {
  }

  /** With everything in view and in limbo there is no advice. */
  lemma {:induction false} AllLimbo(states: seq<nat>)
    requires forall i :: 0 <= i < |states| ==> states[i] == TRA_LIMBO
    ensures Fold(TRA_LIMBO, TRA_NONE, states) == TRA_NONE
    decreases |states|
  {
    if states != [] {
      AllLimbo(states[1..]);
    }
  }

  lemma CommitSidePreserved(before: seq<Sub>, after: seq<Sub>, attached: seq<bool>, k: nat)
    requires CommitSide(before, k) && Recovered(before, after, attached, Some(Commit))
    ensures CommitSide(after, k)
  {
  }

  lemma RollbackSidePreserved(before: seq<Sub>, after: seq<Sub>, attached: seq<bool>, k: nat)
    requires RollbackSide(before, k) && Recovered(before, after, attached, Some(Rollback))
    ensures RollbackSide(after, k)
  {
  }

  lemma NothingLost(subs: seq<Sub>) returns (k: nat)
    requires Consistent(subs) && forall i :: 0 <= i < |subs| ==> !WorkLost(subs[i])
    ensures CommitSide(subs, k)
  {
    if exists j :: CommitSide(subs, j) {
      k :| CommitSide(subs, k);
    } else {
      k := 0;
      assert CommitSide(subs, 0);
    }
  }

  lemma NothingKept(subs: seq<Sub>) returns (k: nat)
    requires Consistent(subs) && forall i :: 0 <= i < |subs| ==> !WorkKept(subs[i])
    ensures RollbackSide(subs, k)
  {
    if exists j :: RollbackSide(subs, j) {
      k :| RollbackSide(subs, k);
    } else {
      k := |subs|;
      assert RollbackSide(subs, |subs|);
    }
  }

  /** One recovery, with any databases out of reach and any reconnects failing, stays consistent. */
  lemma RecoveryKeepsConsistency(w: World, w': World, attached: seq<bool>, sw: Switches, answer: Option<Direction>)
    requires Consistent(w.subs) && Recover(w, w', attached, sw, answer)
    ensures Consistent(w'.subs)
  {
    var states := Observed(w.subs, attached);
    var d := Decide(Advice(states), sw, answer);
    if d.None? || !LimboLeft(states) {
      assert forall i :: 0 <= i < |w.subs| ==> states[i] == TRA_LIMBO || w'.subs[i] == w.subs[i];
      assert w'.subs == w.subs;
    } else {
      AdviceIsSafe(w.subs, attached);
      var limbo :| 0 <= limbo < |states| && states[limbo] == TRA_LIMBO;
      if answer.Some? {
        AllLimbo(states[1..]);
        forall i | 0 <= i < |w.subs|
          ensures w.subs[i].Prepared?
        {
          assert states[i] == TRA_LIMBO;
        }
        assert CommitSide(w.subs, 0) && RollbackSide(w.subs, |w.subs|);
        if d.value.Commit? {
          CommitSidePreserved(w.subs, w'.subs, attached, 0);
        } else {
          RollbackSidePreserved(w.subs, w'.subs, attached, |w.subs|);
        }
      } else if d.value.Commit? {
        var k := NothingLost(w.subs);
        CommitSidePreserved(w.subs, w'.subs, attached, k);
      } else {
        var k := NothingKept(w.subs);
        RollbackSidePreserved(w.subs, w'.subs, attached, k);
      }
    }
  }

  lemma InvariantIsConsistent(w: World)
    requires Invariant(w)
    ensures Consistent(w.subs)
  {
    match w.phase
    case Preparing(k) => assert RollbackSide(w.subs, k);
    case Committing(k) => assert CommitSide(w.subs, k);
    case _ =>
  }

  lemma StepKeepsInvariant(w: World, w': World)
    requires Invariant(w) && Next(w, w')
    ensures Invariant(w')
  {
    InvariantIsConsistent(w);
    if DecideRollback(w, w') {
      assert RollbackSide(w'.subs, w.phase.done);
    } else if RollbackNext(w, w') {
      var n :| RollbackSide(w.subs, n);
      assert RollbackSide(w'.subs, n);
    } else if !PrepareNext(w, w') && !DecideCommit(w, w') && !CommitNext(w, w') && !Stop(w, w') {
      var attached, sw, answer :| Recover(w, w', attached, sw, answer);
      RecoveryKeepsConsistency(w, w', attached, sw, answer);
    }
  }

  lemma {:induction false} RunKeepsInvariant(trace: seq<World>)
    requires Run(trace)
    ensures Invariant(trace[|trace| - 1])
    decreases |trace|
  {
    var n := |trace| - 1;
    if n > 0 {
      var before := trace[..n];
      assert forall i :: 0 <= i < n ==> before[i] == trace[i];
      RunKeepsInvariant(before);
      StepKeepsInvariant(trace[n - 1], trace[n]);
    }
  }

  /**
   Safety over every run: the coordinator may stop anywhere, recovery may be repeated any
   number of times with any databases unreachable and any reconnects failing, and still
   no subtransaction is committed while another's work is lost.
   */
  lemma RecoveryIsAtomic(trace: seq<World>)
    requires Run(trace)
    ensures Atomic(trace[|trace| - 1].subs)
  {
    RunKeepsInvariant(trace);
    InvariantIsConsistent(trace[|trace| - 1]);
    ConsistentIsAtomic(trace[|trace| - 1].subs);
  }

  /**
   A definite advice never contradicts what a run has already done, while an entry is
   left in limbo; so repeating a recovery that failed halfway never turns it round.
   */
  lemma AdviceNeverContradicts(trace: seq<World>, attached: seq<bool>)
    requires Run(trace) && |attached| == |trace[|trace| - 1].subs|
    requires LimboLeft(Observed(trace[|trace| - 1].subs, attached))
    ensures Safe(Advice(Observed(trace[|trace| - 1].subs, attached)), trace[|trace| - 1].subs)
  {
    RunKeepsInvariant(trace);
    InvariantIsConsistent(trace[|trace| - 1]);
    AdviceIsSafe(trace[|trace| - 1].subs, attached);
  }

  /** Once a commit is under way and every database answers, recovery commits what is left. */
  lemma CommitIsFinished(subs: seq<Sub>, attached: seq<bool>, k: nat)
    requires CommitSide(subs, k) && |attached| == |subs|
    requires forall i :: 0 <= i < |subs| ==> attached[i]
    requires exists i :: 0 <= i < |subs| && WorkKept(subs[i])
    requires exists i :: 0 <= i < |subs| && subs[i].Prepared?
    ensures Advice(Observed(subs, attached)) == TRA_COMMIT
  {
    var states := Observed(subs, attached);
    var i :| 0 <= i < |subs| && WorkKept(subs[i]);
    var j :| 0 <= j < |subs| && subs[j].Prepared?;
    assert states[j] == TRA_LIMBO;
    if states[0] == TRA_LIMBO {
      assert states[i] == TRA_COMMIT;
      CommitSeen(TRA_LIMBO, TRA_NONE, states[1..], i - 1);
    } else {
      assert states[1..] != [];
      CommitSeen(TRA_COMMIT, TRA_NONE, states[1..], 0);
    }
  }

  lemma {:induction false} CommitSeen(first: nat, advice: nat, states: seq<nat>, i: nat)
    requires CommitStates(states) && i < |states|
    requires forall j :: 0 <= j < |states| ==> states[j] != TRA_UNKNOWN
    requires first == TRA_COMMIT || (first == TRA_LIMBO && states[i] == TRA_COMMIT
                                     && forall j :: 0 <= j < |states| ==> states[j] != TRA_NONE)
    requires advice == TRA_NONE || advice == TRA_COMMIT
    ensures Fold(first, advice, states) == TRA_COMMIT
    decreases |states|
  {
    var next := Advise(first, advice, states[0]).value;
    if i == 0 {
      CommitStays(first, states[1..]);
    } else {
      CommitSeen(first, next, states[1..], i - 1);
    }
  }

  lemma {:induction false} CommitStays(first: nat, states: seq<nat>)
    requires CommitStates(states)
    requires first == TRA_COMMIT
             || (first == TRA_LIMBO && forall j :: 0 <= j < |states| ==> states[j] != TRA_NONE)
    ensures Fold(first, TRA_COMMIT, states) == TRA_COMMIT
    decreases |states|
  {
    if states != [] {
      CommitStays(first, states[1..]);
    }
  }

  /** Once a rollback is under way, or not all were prepared, and every database answers, recovery rolls back. */
  lemma RollbackIsFinished(subs: seq<Sub>, attached: seq<bool>, k: nat)
    requires RollbackSide(subs, k) && |attached| == |subs|
    requires forall i :: 0 <= i < |subs| ==> attached[i]
    requires exists i :: 0 <= i < |subs| && WorkLost(subs[i])
    requires exists i :: 0 <= i < |subs| && subs[i].Prepared?
    ensures Advice(Observed(subs, attached)) == TRA_ROLLBACK
  {
    var states := Observed(subs, attached);
    var i :| 0 <= i < |subs| && WorkLost(subs[i]);
    var j :| 0 <= j < |subs| && subs[j].Prepared?;
    assert states[j] == TRA_LIMBO && j < k;
    if states[0] == TRA_LIMBO {
      assert states[i] == TRA_ROLLBACK || states[i] == TRA_NONE;
      RollbackSeen(TRA_LIMBO, TRA_NONE, states[1..], i - 1);
    } else {
      RollbackSeen(TRA_ROLLBACK, TRA_NONE, states[1..], j - 1);
    }
  }

  lemma {:induction false} RollbackSeen(first: nat, advice: nat, states: seq<nat>, i: nat)
    requires RollbackStates(states) && i < |states|
    requires forall j :: 0 <= j < |states| ==> states[j] != TRA_UNKNOWN
    requires if first == TRA_LIMBO then states[i] == TRA_ROLLBACK || states[i] == TRA_NONE
             else first == TRA_ROLLBACK && states[i] == TRA_LIMBO
    requires advice == TRA_NONE || advice == TRA_ROLLBACK
    ensures Fold(first, advice, states) == TRA_ROLLBACK
    decreases |states|
  {
    var next := Advise(first, advice, states[0]).value;
    if i == 0 {
      RollbackStays(first, states[1..]);
    } else {
      RollbackSeen(first, next, states[1..], i - 1);
    }
  }

  lemma {:induction false} RollbackStays(first: nat, states: seq<nat>)
    requires RollbackStates(states) && (first == TRA_LIMBO || first == TRA_ROLLBACK)
    ensures Fold(first, TRA_ROLLBACK, states) == TRA_ROLLBACK
    decreases |states|
  {
    if states != [] {
      RollbackStays(first, states[1..]);
    }
  }

  ghost predicate Sees(states: seq<nat>, state: nat) {
    exists i :: 0 <= i < |states| && states[i] == state
  }

  ghost predicate InRange(states: seq<nat>) {
    forall i :: 0 <= i < |states| ==> states[i] <= TRA_UNKNOWN
  }

  /** What a fold over a longer list sees. */
  lemma SeesMore(states: seq<nat>, state: nat)
    requires states != []
    ensures Sees(states, state) <==> states[0] == state || Sees(states[1..], state)
  {
    if Sees(states, state) {
      var i :| 0 <= i < |states| && states[i] == state;
      assert i > 0 ==> states[1..][i - 1] == state;
    }
    if Sees(states[1..], state) {
      var i :| 0 <= i < |states[1..]| && states[1..][i] == state;
      assert states[i + 1] == state;
    }
  }

  lemma SeesEach(states: seq<nat>)
    requires states != []
    ensures forall state :: Sees(states, state) <==> states[0] == state || Sees(states[1..], state)
  {
    forall state
      ensures Sees(states, state) <==> states[0] == state || Sees(states[1..], state)
    {
      SeesMore(states, state);
    }
  }

  /**
   Behind a committed first entry, or one whose record is gone: a rolled-back entry is a
   contradiction, and anything else that is known calls for a commit.
   */
  lemma {:induction false} AfterCommit(advice: nat, states: seq<nat>)
    requires InRange(states) && advice in {TRA_NONE, TRA_COMMIT, TRA_UNKNOWN}
    ensures Fold(TRA_COMMIT, advice, states)
            == if Sees(states, TRA_ROLLBACK) then TRA_NONE
               else if advice == TRA_COMMIT || Sees(states, TRA_COMMIT) || Sees(states, TRA_LIMBO) || Sees(states, TRA_NONE)
                    then TRA_COMMIT
               else if advice == TRA_UNKNOWN || Sees(states, TRA_UNKNOWN) then TRA_UNKNOWN
               else TRA_NONE
    decreases |states|
  {
    if states != [] {
      hide Sees;
      SeesEach(states);
      var next := Advise(TRA_COMMIT, advice, states[0]);
      if next.Some? {
        AfterCommit(next.value, states[1..]);
      }
    } else {
      NothingSeen();
    }
  }

  /** Behind a rolled-back first entry a committed one is a contradiction, and only absence says nothing. */
  lemma {:induction false} AfterRollback(advice: nat, states: seq<nat>)
    requires InRange(states) && advice in {TRA_NONE, TRA_ROLLBACK, TRA_UNKNOWN}
    ensures Fold(TRA_ROLLBACK, advice, states)
            == if Sees(states, TRA_COMMIT) then TRA_NONE
               else if advice == TRA_ROLLBACK || Sees(states, TRA_ROLLBACK) || Sees(states, TRA_LIMBO) then TRA_ROLLBACK
               else if advice == TRA_UNKNOWN || Sees(states, TRA_UNKNOWN) then TRA_UNKNOWN
               else TRA_NONE
    decreases |states|
  {
    if states != [] {
      hide Sees;
      SeesEach(states);
      var next := Advise(TRA_ROLLBACK, advice, states[0]);
      if next.Some? {
        AfterRollback(next.value, states[1..]);
      }
    } else {
      NothingSeen();
    }
  }

  lemma NothingSeen()
    ensures forall state :: !Sees([], state)
  {
  }

  /** What an entry behind one in limbo, or behind one out of reach, calls for by itself. */
  function Verdict(first: nat, state: nat): nat {
    if state == TRA_COMMIT then TRA_COMMIT
    else if state == TRA_ROLLBACK || (state == TRA_NONE && first == TRA_LIMBO) then TRA_ROLLBACK
    else TRA_NONE
  }

  /** Behind a first entry in limbo or out of reach, the last entry that says anything decides. */
  lemma {:induction false} AfterLimbo(first: nat, advice: nat, states: seq<nat>, i: nat)
    requires InRange(states) && (first == TRA_LIMBO || first == TRA_UNKNOWN)
    requires i < |states| && Verdict(first, states[i]) != TRA_NONE
    requires forall j :: i < j < |states| ==> Verdict(first, states[j]) == TRA_NONE
    ensures Fold(first, advice, states) == Verdict(first, states[i])
    decreases |states|
  {
    var next := Advise(first, advice, states[0]).value;
    if i > 0 {
      AfterLimbo(first, next, states[1..], i - 1);
    } else {
      AfterSilence(first, next, states[1..]);
    }
  }

  lemma {:induction false} AfterSilence(first: nat, advice: nat, states: seq<nat>)
    requires InRange(states) && (first == TRA_LIMBO || first == TRA_UNKNOWN)
    requires forall j :: 0 <= j < |states| ==> Verdict(first, states[j]) == TRA_NONE
    ensures Fold(first, advice, states)
            == if advice == TRA_NONE && Sees(states, TRA_UNKNOWN) then TRA_UNKNOWN else advice
    decreases |states|
  {
    if states != [] {
      SeesEach(states);
      AfterSilence(first, Advise(first, advice, states[0]).value, states[1..]);
    }
  }

  /**
   With every database answering and every reconnect working, a recovery under -two_phase
   that finds anything done finishes the transaction: nothing stays in limbo, and all work
   is kept or all is lost.
   */
  lemma TwoPhaseFinishes(subs: seq<Sub>, attached: seq<bool>, works: seq<bool>, sw: Switches, answer: Option<Direction>)
    requires Consistent(subs) && |attached| == |works| == |subs|
    requires forall i :: 0 <= i < |subs| ==> attached[i] && works[i]
    requires sw.twoPhase && !sw.commit && !sw.rollback
    requires exists i :: 0 <= i < |subs| && !subs[i].Prepared?
    ensures var after := AfterRecovery(subs, attached, works, Decide(Advice(Observed(subs, attached)), sw, answer));
            || (forall i :: 0 <= i < |subs| ==> WorkKept(after[i]))
            || (forall i :: 0 <= i < |subs| ==> WorkLost(after[i]))
  {
    var advice := Advice(Observed(subs, attached));
    var after := AfterRecovery(subs, attached, works, Decide(advice, sw, answer));
    if exists i :: 0 <= i < |subs| && subs[i].Prepared? {
      if exists k :: CommitSide(subs, k) {
        var k :| CommitSide(subs, k);
        CommitIsFinished(subs, attached, k);
      } else {
        var k :| RollbackSide(subs, k);
        RollbackIsFinished(subs, attached, k);
      }
      hide Advice, Observed;
    } else {
      assert after == subs;
    }
  }

  /** No switch makes a recovery act against a definite advice without the operator's word. */
  lemma AdviceOrAnswer(advice: nat, sw: Switches, answer: Option<Direction>, d: Direction)
    requires advice == TRA_COMMIT || advice == TRA_ROLLBACK
    requires Decide(advice, sw, answer) == Some(d) && (d.Commit? <==> advice == TRA_ROLLBACK)
    ensures answer == Some(d)
  {
  }

  /**
   Both halves rest on the records recovery leaves behind.  Had a commit by recovery
   erased its record as the coordinator's does, a first entry whose reconnect failed
   would next be rolled back after the second was committed.
   */
  lemma ErasedRecordsWouldMislead()
    ensures Advice(Observed([Prepared, Erased], [true, true])) == TRA_ROLLBACK
    ensures Advice(Observed([Prepared, RecordedCommit], [true, true])) == TRA_COMMIT
    ensures !Safe(TRA_ROLLBACK, [Prepared, Erased])
  {
    var erased := Observed([Prepared, Erased], [true, true]);
    assert erased == [TRA_LIMBO, TRA_NONE];
    assert erased[1..] == [TRA_NONE] && [TRA_NONE][1..] == [];
    assert Fold(TRA_LIMBO, TRA_ROLLBACK, []) == TRA_ROLLBACK;
    assert Fold(TRA_LIMBO, TRA_NONE, [TRA_NONE]) == TRA_ROLLBACK;
    var kept := Observed([Prepared, RecordedCommit], [true, true]);
    assert kept == [TRA_LIMBO, TRA_COMMIT];
    assert kept[1..] == [TRA_COMMIT] && [TRA_COMMIT][1..] == [];
    assert Fold(TRA_LIMBO, TRA_COMMIT, []) == TRA_COMMIT;
    assert Fold(TRA_LIMBO, TRA_NONE, [TRA_COMMIT]) == TRA_COMMIT;
    assert WorkKept([Prepared, Erased][1]);
  }
}
