/**
 The plan printer as it runs: two cursors with a length each, one over the engine's report
 and one over the caller's buffer.
 */
module PlanReport {
  import opened Wrappers
  import opened Bytes
  import opened PlanTree
  import opened PlanPrinter
  import opened PlanMeaning

  const BUFFER_XLARGE: nat := 2048

  lemma NoName(p: Printer)
    requires p.explain != [] && p.explain[0] < |p.explain|
    ensures p.plan == [] ==> StreamName(p) == Uncovered
  {
  }

  class Report {
    const explain: seq<byte>
    var explainAt: nat
    var explainLength: int
    const plan: array<byte>
    var planAt: nat
    var planLength: int

    /** Each length counts what its cursor has yet to pass. */
    ghost predicate Valid()
      reads this
    {
      && explainAt <= |explain| && explainLength == |explain| - explainAt
      && planAt <= plan.Length && planLength == plan.Length - planAt
    }

    ghost function State(count: nat, level: nat): Printer
      requires Valid()
      reads this, plan
    {
      Printer(explain[explainAt..], planLength, plan[..planAt], count, level)
    }

    constructor (explain: seq<byte>, plan: array<byte>)
      ensures Valid() && this.explain == explain && this.plan == plan
      ensures explainAt == 0 && planAt == 0
    {
      this.explain, explainAt, explainLength := explain, 0, |explain|;
      this.plan, planAt, planLength := plan, 0, plan.Length;
    }

    method Put(s: seq<byte>) returns (ok: bool)
      requires Valid()
      modifies this`planAt, this`planLength, plan
      ensures ok == (|s| <= old(planLength))
      ensures ok ==> Valid() && planLength == old(planLength) - |s| && plan[..planAt] == old(plan[..planAt]) + s
    {
      planLength := planLength - |s|;
      if planLength < 0 {
        return false;
      }
      var start, i := planAt, 0;
      while i < |s|
        invariant i <= |s| && start + |s| <= plan.Length && planAt == start + i && planLength == old(planLength) - |s|
        invariant plan[..planAt] == old(plan[..planAt]) + s[..i]
      {
        plan[planAt] := s[i];
        planAt := planAt + 1;
        i := i + 1;
      }
      assert s[..i] == s;
      ok := true;
    }

    /** The next byte of the report. */
    method Next() returns (b: byte)
      requires Valid() && explainLength > 0
      modifies this`explainAt, this`explainLength
      ensures Valid() && explainLength == old(explainLength) - 1 && b == old(explain[explainAt..])[0]
      ensures explain[explainAt..] == old(explain[explainAt..])[1..]
    {
      explainLength := explainLength - 1;
      b := explain[explainAt];
      explainAt := explainAt + 1;
    }

    /** A name of so many bytes, copied from the report. */
    method Copy(length: nat) returns (ok: bool)
      requires Valid() && length <= explainLength
      modifies this, plan
      ensures ok == (length <= old(planLength))
      ensures ok ==> Valid() && planLength == old(planLength) - length
      ensures ok ==> plan[..planAt] == old(plan[..planAt]) + old(explain[explainAt..])[..length]
      ensures ok ==> explain[explainAt..] == old(explain[explainAt..])[length..]
    {
      ok := Put(explain[explainAt..explainAt + length]);
      if ok {
        explainLength := explainLength - length;
        explainAt := explainAt + length;
      }
    }

    method Heading(comma: bool, s: seq<byte>, ghost count: nat, ghost level: nat) returns (ok: bool)
      requires Valid()
      modifies this, plan
      ensures var r := PlanPrinter.Heading(old(State(count, level)), comma, s);
              ok == r.Printing? && (ok ==> Valid() && State(count, level) == r.p && explainAt == old(explainAt))
    {
      ok := true;
      if comma {
        ok := Put([COMMA]);
      }
      if ok {
        ok := Put(s);
      }
    }

    /** What a call made of the state it was called in. */
    ghost predicate Made(r: Outcome, ok: bool, count: nat, level: nat)
      reads this, plan
    {
      r != Uncovered ==> ok == r.Printing? && (ok ==> Valid() && State(count, level) == r.p)
    }

    method GetIndexName(ghost count: nat, ghost level: nat) returns (ok: bool)
      requires Valid() && PlanPrinter.IndexName(State(count, level)) != Uncovered
      modifies this, plan
      ensures Made(PlanPrinter.IndexName(old(State(count, level))), ok, count, level)
    {
      ghost var p := State(count, level);
      assert p.plan[|p.plan| - 1] == plan[planAt - 1];
      var b := Next();
      var length := Widened(b);
      ghost var name := p.explain[1..1 + length];
      ok := true;
      if plan[planAt - 1] != OPEN && plan[planAt - 1] != BLANK {
        ok := Put([COMMA]);
      }
      if ok {
        ok := Copy(length);
      }
    }

    /** The names of an index tree, which nothing but its own bytes ends. */
    method GetIndices(ghost count: nat, ghost level: nat) returns (ok: bool)
      requires Valid() && Indices(State(count, level)) != Uncovered
      modifies this, plan
      ensures Made(Indices(old(State(count, level))), ok, count, level)
      decreases explainLength
    {
      ghost var p := State(count, level);
      var code := Next();
      assert State(count, level) == p.Skip(1);
      if code == INDEX_AND || code == INDEX_OR {
        ok := GetIndices(count, level);
        if ok {
          ok := GetIndices(count, level);
        }
      } else if code == INDEX_DBKEY {
        ok := true;
      } else if code == INDEX_NAME {
        ok := GetIndexName(count, level);
      } else {
        ok := false;
      }
    }

    method PutStreamName(ghost count: nat, ghost level: nat) returns (ok: bool)
      requires Valid() && explainLength > 0 && explain[explainAt] < explainLength && planAt > 0
      modifies this, plan
      ensures Made(StreamName(old(State(count, level))), ok, count, level)
    {
      ghost var p := State(count, level);
      assert p.plan[|p.plan| - 1] == plan[planAt - 1];
      var length := Next();
      ok := true;
      if plan[planAt - 1] != OPEN {
        ok := Put([COMMA]);
      }
      if ok {
        ok := Copy(length);
      }
    }

    method PutRelation(joinCount: nat, ghost level: nat) returns (ok: bool)
      requires Valid() && Relation(State(joinCount, level)) != Uncovered
      modifies this, plan
      ensures Made(Relation(old(State(joinCount, level))), ok, joinCount, level)
    {
      hide StreamName;
      ok := true;
      if joinCount == 0 {
        ok := Put([OPEN]);
      }
      if ok {
        NoName(State(joinCount, level));
        ok := PutStreamName(joinCount, level);
      }
    }

    method PutClosing(due: bool, ghost count: nat, ghost level: nat) returns (ok: bool)
      requires Valid()
      modifies this, plan
      ensures Made(Closed(old(State(count, level)), due), ok, count, level)
    {
      ok := true;
      if due {
        ok := Put([CLOSE]);
      }
    }

    /** A relation's access path, its indices if it has any, and the end of its stream. */
    method PutAccess(code: byte, joinCount: nat, ghost level: nat) returns (ok: bool, newCount: nat)
      requires Valid() && Accessed(code, State(joinCount, level)) != Uncovered
      modifies this, plan
      ensures Made(Accessed(code, old(State(joinCount, level))), ok, newCount, level)
    {
      hide Indices, Closed;
      newCount := joinCount;
      ok := Put(AccessText(code));
      if ok && (Bracketed(code) || code == NAVIGATE) {
        ok := GetIndices(joinCount, level);
      }
      if ok {
        ok := PutClosing(Bracketed(code), joinCount, level);
      }
      if ok {
        ok := PutClosing(joinCount == 0, joinCount, level);
      }
      if joinCount > 0 {
        newCount := joinCount - 1;
      }
    }

    /** A comma unless this is the first stream of its join. */
    method PutHeading(s: seq<byte>, joinCount: nat, ghost level: nat) returns (ok: bool)
      requires Valid() && (joinCount != 0 ==> planAt > 0)
      modifies this, plan
      ensures var p := old(State(joinCount, level));
              Made(PlanPrinter.Heading(p, joinCount != 0 && !p.After(OPEN), s), ok, joinCount, level)
      ensures ok ==> explainAt == old(explainAt)
    {
      ghost var p := State(joinCount, level);
      assert joinCount != 0 ==> p.plan[|p.plan| - 1] == plan[planAt - 1];
      ok := Heading(joinCount != 0 && plan[planAt - 1] != OPEN, s, joinCount, level);
    }

    /** The streams of a join, the count of which the printing of each brings down. */
    method PutStreams(streams: nat, level: nat) returns (ok: bool, newLevel: nat)
      requires Valid() && streams > 0 && Items(Streams, State(streams, level)) != Uncovered
      modifies this, plan
      ensures var r := Items(Streams, old(State(streams, level)));
              ok == r.Printing? && (ok ==> Valid() && State(r.p.count, newLevel) == r.p)
      decreases explainLength, 1
    {
      ghost var r := Items(Streams, State(streams, level));
      var count := streams;
      newLevel := level;
      ok := true;
      ghost var first := true;
      while count > 0
        invariant Valid() && explainLength <= old(explainLength)
        invariant first ==> r == Items(Streams, State(count, newLevel)) && count > 0
        invariant !first ==> r == Continue(Streams, State(count, newLevel)) && newLevel > 0
        decreases explainLength
      {
        ok, count, newLevel := GetRsbItem(count, newLevel);
        if !ok {
          return;
        }
        first := false;
        if newLevel == 0 {
          break;
        }
      }
    }

    method PutCounted(joinCount: nat, level: nat) returns (ok: bool, newLevel: nat, ghost endCount: nat)
      requires Valid() && explainLength > 0 && Counts(State(joinCount, level)) != Uncovered
      modifies this, plan
      ensures Made(Counts(old(State(joinCount, level))), ok, endCount, newLevel)
      decreases explainLength, 2
    {
      hide Items;
      ghost var p := State(joinCount, level);
      var b := Next();
      var streams := Widened(b);
      assert State(streams, level) == p.Skip(1).(count := streams);
      ok, newLevel, endCount := true, level, streams;
      if streams > 0 {
        ghost var r := Items(Streams, State(streams, level));
        ok, newLevel := PutStreams(streams, level);
        endCount := if ok then r.p.count else 0;
      }
    }

    method PutJoin(code: byte, joinCount: nat, level: nat) returns (ok: bool, newCount: nat, newLevel: nat)
      requires Valid() && Joined(code, State(joinCount, level)) != Uncovered
      modifies this, plan
      ensures Made(Joined(code, old(State(joinCount, level))), ok, newCount, newLevel)
      decreases explainLength, 3
    {
      hide Counts, PlanPrinter.Heading, Closed;
      newCount, newLevel := joinCount, level;
      ok := PutHeading(if code == MERGE then MERGE_TEXT else JOIN_TEXT, joinCount, level);
      if ok {
        ghost var endCount;
        ok, newLevel, endCount := PutCounted(joinCount, level);
        if ok {
          ok := PutClosing(true, endCount, newLevel);
        }
      }
      if joinCount > 0 {
        newCount := joinCount - 1;
      }
    }

    /** What is sorted, read until the depth is what it was. */
    method PutSorted(joinCount: nat, level: nat) returns (ok: bool, newCount: nat, newLevel: nat)
      requires Valid() && explainLength > 0 && planLength > 0 && Items(Back(level), State(joinCount, level)) != Uncovered
      modifies this, plan
      ensures Made(Items(Back(level), old(State(joinCount, level))), ok, newCount, newLevel)
      decreases explainLength, 1
    {
      ghost var r := Items(Back(level), State(joinCount, level));
      newCount, newLevel := joinCount, level;
      ok := true;
      ghost var first := true;
      while explainLength > 0 && planLength > 0
        invariant Valid() && explainLength <= old(explainLength)
        invariant first ==> r == Items(Back(level), State(newCount, newLevel)) && explainLength > 0 && planLength > 0
        invariant !first ==> r == Continue(Back(level), State(newCount, newLevel)) && newLevel != level
        decreases explainLength
      {
        ok, newCount, newLevel := GetRsbItem(newCount, newLevel);
        if !ok {
          return;
        }
        first := false;
        if newLevel == level {
          break;
        }
      }
    }

    method PutSort(joinCount: nat, level: nat) returns (ok: bool, newCount: nat, newLevel: nat)
      requires Valid() && Sorted(State(joinCount, level)) != Uncovered
      modifies this, plan
      ensures Made(Sorted(old(State(joinCount, level))), ok, newCount, newLevel)
      decreases explainLength, 2
    {
      newCount, newLevel := joinCount, level;
      if explainLength > 2 && explain[explainAt] == RSB_BEGIN && explain[explainAt + 1] == RSB_TYPE
         && explain[explainAt + 2] == UNION {
        return true, newCount, newLevel;
      }
      ok := PutHeading(SORT_TEXT, joinCount, level);
      if ok && explainLength > 0 && planLength > 0 {
        ok, newCount, newLevel := PutSorted(joinCount, level);
      }
      if ok {
        ok := PutClosing(true, newCount, newLevel);
      }
    }

    method PutTyped(joinCount: nat, level: nat) returns (ok: bool, newCount: nat, newLevel: nat)
      requires Valid() && explainLength > 0
      requires Typed(explain[explainAt], State(joinCount, level).Skip(1)) != Uncovered
      modifies this, plan
      ensures Made(Typed(old(explain[explainAt]), old(State(joinCount, level)).Skip(1)), ok, newCount, newLevel)
      decreases explainLength, 0
    {
      hide Joined, Accessed, Sorted;
      newCount, newLevel := joinCount, level;
      ghost var p := State(joinCount, level);
      var code := Next();
      assert State(joinCount, level) == p.Skip(1);
      if code in {CROSS, LEFT_CROSS, MERGE} {
        ok, newCount, newLevel := PutJoin(code, joinCount, level);
      } else if code in {INDEXED, NAVIGATE, SEQUENTIAL, EXT_SEQUENTIAL, EXT_INDEXED} {
        ok, newCount := PutAccess(code, joinCount, level);
      } else if code == SORT {
        ok, newCount, newLevel := PutSort(joinCount, level);
      } else {
        ok := true;
      }
    }

    /** One item of the report. */
    method GetRsbItem(joinCount: nat, level: nat) returns (ok: bool, newCount: nat, newLevel: nat)
      requires Valid() && Item(State(joinCount, level)) != Uncovered
      modifies this, plan
      ensures Made(Item(old(State(joinCount, level))), ok, newCount, newLevel)
      decreases explainLength, 0
    {
      hide Relation, Typed;
      newCount, newLevel := joinCount, level;
      ok := true;
      ghost var p := State(joinCount, level);
      var code := Next();
      assert State(joinCount, level) == p.Skip(1);
      if code == RSB_BEGIN {
        if level == 0 {
          ok := Put(PLAN_TEXT);
        }
        newLevel := level + 1;
      } else if code == RSB_END {
        if level > 0 {
          newLevel := level - 1;
        }
      } else if code == RSB_RELATION {
        ok := PutRelation(joinCount, level);
      } else if code == RSB_TYPE {
        ok, newCount, newLevel := PutTyped(joinCount, level);
      }
    }

    /** Items until the report is read or the buffer is full. */
    method PutAll(ghost ts: seq<Plan>) returns (ok: bool)
      requires Valid() && explainAt == 0 && planAt == 0 && planLength > 0
      requires (forall k :: 0 <= k < |ts| ==> PlanTree.Valid(ts[k])) && explain == DumpedAll(ts)
      modifies this, plan
      ensures ok ==> planAt <= plan.Length
      ensures AllPrintable(ts) ==> ok == Attempt(ts, plan.Length).Some?
      ensures AllPrintable(ts) && ok ==> plan[..planAt] == Attempt(ts, plan.Length).value
      ensures !AllPrintable(ts) && ok ==> planAt == plan.Length <= |PlanText(ts)|
    {
      hide Attempt, AllPrintable, PlanText, Item, Items, DumpedAll, PlanTree.Valid;
      ghost var r := Continue(Whole, State(0, 0));
      assert State(0, 0) == Printer(explain, plan.Length, [], 0, 0);
      RunEnds(ts, plan.Length);
      var joinCount, level := 0, 0;
      while explainLength > 0 && planLength > 0
        invariant Valid() && r == Continue(Whole, State(joinCount, level))
        decreases explainLength
      {
        ghost var p := State(joinCount, level);
        StepIsClear(p);
        ok, joinCount, level := GetRsbItem(joinCount, level);
        if !ok {
          ItemFails(Whole, p);
          return;
        }
        ItemsStep(Whole, p, State(joinCount, level));
      }
      ok := true;
    }
  }

  lemma StepIsClear(p: Printer)
    requires Items(Whole, p) != Uncovered
    ensures Item(p) != Uncovered
  {
    hide Item;
  }

  /** How a run over a report can end, external indices or not. */
  lemma RunEnds(ts: seq<Plan>, room: nat)
    requires room > 0 && forall k :: 0 <= k < |ts| ==> PlanTree.Valid(ts[k])
    ensures var r := Continue(Whole, Printer(DumpedAll(ts), room, [], 0, 0));
            && !r.Uncovered?
            && (AllPrintable(ts) ==> Yields(r, Attempt(ts, room)))
            && (!AllPrintable(ts) && r.Printing? ==> r.p.room == 0 && room <= |PlanText(ts)|)
  {
    if AllPrintable(ts) {
      AttemptIs(ts, room);
    } else {
      UnprintableAttempt(ts, room);
    }
  }

  /** The plan as text: in the caller's buffer, or in a larger one if that was found too small. */
  method GetPlanInfo(info: seq<byte>, buffer: array<byte>, ghost ts: seq<Plan>) returns (text: Option<seq<byte>>)
    requires forall k :: 0 <= k < |ts| ==> PlanTree.Valid(ts[k])
    requires info == DumpedAll(ts) && buffer.Length > 0
    modifies buffer
    ensures AllPrintable(ts) ==>
              text == if Attempt(ts, buffer.Length).Some? then Attempt(ts, buffer.Length) else Attempt(ts, BUFFER_XLARGE)
    ensures AllPrintable(ts) && |PlanText(ts)| < buffer.Length ==> text == Some(PlanText(ts))
    ensures AllPrintable(ts) && text.Some? ==> text == Some(PlanText(ts)) || |text.value| in {buffer.Length, BUFFER_XLARGE}
    ensures !AllPrintable(ts) && text.Some? ==>
              |text.value| in {buffer.Length, BUFFER_XLARGE} && |text.value| <= |PlanText(ts)|
  {
    hide DumpedAll, AllPrintable, PlanText;
    var plan := buffer;
    var i := 0;
    while i < 2
      invariant i <= 2 && plan.Length > 0
      invariant i == 0 ==> plan == buffer
      invariant i > 0 ==> fresh(plan) && plan.Length == BUFFER_XLARGE
      invariant i > 0 && AllPrintable(ts) ==> Attempt(ts, buffer.Length) == None
      invariant i == 2 && AllPrintable(ts) ==> Attempt(ts, BUFFER_XLARGE) == None
    {
      var report := new Report(info, plan);
      var ok := report.PutAll(ts);
      if ok {
        return Some(plan[..report.planAt]);
      }
      plan := new byte[BUFFER_XLARGE];
      i := i + 1;
    }
    text := None;
  }
}
