/**
 Open cursors.  A request that opens a cursor is flagged, points at its cursor block and is
 entered at the head of one global list; closing it, dropping it or the end of its
 transaction undoes all three.  The end of a transaction restarts its walk of the list
 after every cursor it closes.
 */
module Cursors {

  datatype RequestType =
    | Select | SelectUpd | EmbedSelect | GetSegment | PutSegment
    | Insert | Delete | Update | UpdateCursor | DeleteCursor | Ddl | ExecProcedure
    | Commit | Rollback | CommitRetain | StartTrans | SetGenerator | Savepoint

  /** What a call posts: success, one of the SQL codes, or what the engine reports. */
  datatype Status = Success | SqlError(code: int) | EngineError

  const BAD_HANDLE: Status := SqlError(-901)
  const CURSOR_ALREADY_OPEN: Status := SqlError(-502)
  const CURSOR_NOT_OPEN: Status := SqlError(-501)
  const FETCH_UNOPENED: Status := SqlError(-504)
  const PREPARE_WITH_CURSOR: Status := SqlError(-519)

  /** The engine's part of an execution. */
  datatype Execution = Executed | Raised | Returned(status: int)

  class Request {
    var kind: RequestType
    var cursorOpen: bool
    var embedded: bool
    var openCursor: Cursor?

    constructor (kind: RequestType)
      ensures this.kind == kind && !cursorOpen && !embedded && openCursor == null
    {
      this.kind := kind;
      cursorOpen, embedded, openCursor := false, false, null;
    }
  }

  class Cursor {
    const request: Request
    const transaction: nat
    var next: Cursor?

    constructor (request: Request, transaction: nat, next: Cursor?)
      ensures this.request == request && this.transaction == transaction && this.next == next
    {
      this.request, this.transaction, this.next := request, transaction, next;
    }
  }

  // ----- the list as a sequence

  ghost function At(list: seq<Cursor>, i: nat): Cursor? {
    if i < |list| then list[i] else null
  }

  ghost function Without(list: seq<Cursor>, i: nat): seq<Cursor>
    requires i < |list|
  {
    list[..i] + list[i + 1..]
  }

  /** The cursors of other transactions, in order. */
  ghost function Others(list: seq<Cursor>, transaction: nat): (kept: seq<Cursor>) {
    if list == [] then []
    else if list[0].transaction == transaction then Others(list[1..], transaction)
    else [list[0]] + Others(list[1..], transaction)
  }

  lemma {:induction false} OthersHas(list: seq<Cursor>, transaction: nat, c: Cursor)
    ensures c in Others(list, transaction) <==> c in list && c.transaction != transaction
  {
    if list != [] {
      OthersHas(list[1..], transaction, c);
      assert list == [list[0]] + list[1..];
    }
  }

  /** Closing one of a transaction's cursors leaves what its end is to leave. */
  lemma {:induction false} OthersWithout(list: seq<Cursor>, i: nat, transaction: nat)
    requires i < |list| && list[i].transaction == transaction
    ensures Others(Without(list, i), transaction) == Others(list, transaction)
  {
    if i > 0 {
      OthersWithout(list[1..], i - 1, transaction);
      assert Without(list, i)[1..] == Without(list[1..], i - 1);
    } else {
      assert Without(list, 0) == list[1..];
    }
  }

  /** Transactions may end in any order. */
  lemma {:induction false} OthersCommute(list: seq<Cursor>, t: nat, u: nat)
    ensures Others(Others(list, t), u) == Others(Others(list, u), t)
  {
    if list != [] {
      OthersCommute(list[1..], t, u);
      var rest := list[1..];
      assert ([list[0]] + Others(rest, t))[1..] == Others(rest, t);
      assert ([list[0]] + Others(rest, u))[1..] == Others(rest, u);
    }
  }

  lemma {:induction false} OthersOfOthers(list: seq<Cursor>, transaction: nat)
    requires forall c :: c in list ==> c.transaction != transaction
    ensures Others(list, transaction) == list
  {
    if list != [] {
      assert list[0] in list;
      OthersOfOthers(list[1..], transaction);
    }
  }

  /** Where a request's entry is, or one past the last. */
  ghost function IndexOf(list: seq<Cursor>, r: Request): (i: nat)
    ensures i <= |list|
    ensures i < |list| ==> list[i].request == r
    ensures forall k :: 0 <= k < i ==> list[k].request != r
  {
    if list == [] || list[0].request == r then 0 else 1 + IndexOf(list[1..], r)
  }

  ghost function EntryOf(list: seq<Cursor>, r: Request): Cursor? {
    At(list, IndexOf(list, r))
  }

  /** No request has two entries. */
  ghost predicate OneEach(list: seq<Cursor>) {
    forall i, j :: 0 <= i < |list| && 0 <= j < |list| && list[i].request == list[j].request ==> i == j
  }

  lemma EntryAt(list: seq<Cursor>, i: nat)
    requires OneEach(list) && i < |list|
    ensures IndexOf(list, list[i].request) == i && EntryOf(list, list[i].request) == list[i]
  {
  }

  lemma EntryWithout(list: seq<Cursor>, i: nat, q: Request)
    requires OneEach(list) && i < |list|
    ensures OneEach(Without(list, i)) && |Without(list, i)| == |list| - 1
    ensures EntryOf(Without(list, i), q) == if q == list[i].request then null else EntryOf(list, q)
    ensures forall k :: 0 <= k < |list| - 1 ==> Without(list, i)[k] in list
    ensures forall c :: c in Without(list, i) ==> c in list
  {
    var after := Without(list, i);
    forall j | 0 <= j < |after|
      ensures after[j] == list[if j < i then j else j + 1]
    {
    }
    var k := IndexOf(list, q);
    if q != list[i].request && k < |list| {
      assert after[if k < i then k else k - 1] == list[k];
    }
  }

  lemma EntryPushed(list: seq<Cursor>, c: Cursor, q: Request)
    requires OneEach(list) && EntryOf(list, c.request) == null
    ensures OneEach([c] + list)
    ensures EntryOf([c] + list, q) == if q == c.request then c else EntryOf(list, q)
  {
    assert ([c] + list)[1..] == list;
  }

  lemma EntryIn(list: seq<Cursor>, r: Request)
    requires EntryOf(list, r) != null
    ensures EntryOf(list, r) in list && EntryOf(list, r).request == r
  {
  }

  lemma NoEntry(list: seq<Cursor>, r: Request)
    requires EntryOf(list, r) == null
    ensures forall c :: c in list ==> c.request != r
  {
  }

  ghost predicate Linked(first: Cursor?, list: seq<Cursor>)
    reads list
  {
    && first == At(list, 0)
    && forall i :: 0 <= i < |list| ==> list[i].next == At(list, i + 1)
  }

  predicate HasCursor(kind: RequestType) {
    kind in {Select, SelectUpd, EmbedSelect, GetSegment, PutSegment}
  }

  lemma LinkedPushed(list: seq<Cursor>, c: Cursor)
    requires Linked(c.next, list)
    ensures Linked(c, [c] + list)
  {
  }

  /** Which types of statement a successful execution opens a cursor for. */
  predicate Opens(kind: RequestType, outLength: nat) {
    (kind == Select && outLength == 0) || kind in {SelectUpd, EmbedSelect, GetSegment, PutSegment}
  }

  /** A live request is flagged iff it points at a cursor block, which is its one entry in the list. */
  ghost predicate Owned(list: seq<Cursor>, requests: set<Request>)
    reads requests
  {
    && OneEach(list)
    && (forall c :: c in list ==> c.request in requests)
    && (forall r :: r in requests ==> Consistent(list, r))
  }

  ghost predicate Consistent(list: seq<Cursor>, r: Request)
    reads r
  {
    && r.openCursor == EntryOf(list, r)
    && (r.cursorOpen <==> r.openCursor != null)
    && (r.embedded ==> r.cursorOpen)
    && (r.cursorOpen ==> HasCursor(r.kind))
  }

  lemma StartAt(first: Cursor?, list: seq<Cursor>)
    requires Linked(first, list)
    ensures first == At(list, 0)
  {
  }

  lemma NextAt(first: Cursor?, list: seq<Cursor>, i: nat)
    requires Linked(first, list) && i < |list|
    ensures list[i].next == At(list, i + 1)
  {
  }

  class CursorTable {
    var openCursors: Cursor?
    ghost var list: seq<Cursor>
    ghost var requests: set<Request>

    ghost predicate Valid()
      reads this, list, requests
    {
      Linked(openCursors, list) && Owned(list, requests)
    }

    constructor ()
      ensures Valid() && list == [] && requests == {}
    {
      openCursors, list, requests := null, [], {};
    }

    /** The flag, the pointer and the list tell the same of a live request. */
    lemma FlagIsOwnership(r: Request)
      requires Valid() && r in requests
      ensures r.cursorOpen <==> exists i :: 0 <= i < |list| && list[i].request == r
      ensures forall i :: 0 <= i < |list| && list[i].request == r ==> list[i] == r.openCursor
      ensures forall i, j :: 0 <= i < |list| && 0 <= j < |list| && list[i].request == r && list[j].request == r ==> i == j
    {
      if exists i :: 0 <= i < |list| && list[i].request == r {
        var i :| 0 <= i < |list| && list[i].request == r;
        EntryAt(list, i);
      }
    }

    /** A prepared statement of its own. */
    method Prepared(kind: RequestType) returns (r: Request)
      requires Valid()
      modifies this
      ensures Valid() && list == old(list) && requests == old(requests) + {r}
      ensures fresh(r) && r.kind == kind && !r.cursorOpen
    {
      r := new Request(kind);
      requests := requests + {r};
    }

    /** The cursor of a request that has none goes to the head of the list. */
    method Open(r: Request, transaction: nat)
      requires Valid() && r in requests && !r.cursorOpen && HasCursor(r.kind)
      modifies this, r
      ensures Valid() && requests == old(requests) && r.kind == old(r.kind)
      ensures |list| > 0 && list[1..] == old(list)
      ensures list[0].request == r && list[0].transaction == transaction
      ensures r.cursorOpen && (r.embedded <==> r.kind == EmbedSelect)
    {
      hide IndexOf, OneEach, Linked;
      var c := new Cursor(r, transaction, openCursors);
      r.cursorOpen, r.embedded, r.openCursor := true, r.kind == EmbedSelect, c;
      openCursors := c;
      forall q | q in requests
        ensures OneEach([c] + list) && Consistent([c] + list, q)
      {
        EntryPushed(list, c, q);
      }
      LinkedPushed(list, c);
      list := [c] + list;
    }

    /** An execution is refused, fails in the engine, or succeeds; a cursor is opened by the last alone. */
    method Execute(transaction: nat, r: Request, embedded: bool, outLength: nat, engine: Execution)
      returns (status: Status)
      requires Valid() && r in requests
      modifies this, r
      ensures Valid() && requests == old(requests)
      ensures r.kind == if embedded then EmbedSelect else old(r.kind)
      ensures var noHandle := transaction == 0 && r.kind != StartTrans;
              var cursorKinds := {SelectUpd, EmbedSelect, GetSegment, PutSegment};
              var twice := (r.kind in cursorKinds || r.kind == Select) && old(r.cursorOpen);
              var raised := r.kind != EmbedSelect && engine.Raised?;
              var opening := !noHandle && !twice && !raised && (r.kind in cursorKinds || (r.kind == Select && outLength == 0));
              && (status == BAD_HANDLE <==> noHandle)
              && (status == CURSOR_ALREADY_OPEN <==> !noHandle && twice)
              && (status == EngineError <==> !noHandle && !twice && r.kind != EmbedSelect
                                             && (engine.Raised? || (engine.Returned? && engine.status != 0)))
              && (!opening ==> list == old(list) && r.cursorOpen == old(r.cursorOpen))
              && (opening ==> |list| > 0 && list[1..] == old(list) && r.cursorOpen)
              && (opening ==> list[0].request == r && list[0].transaction == transaction)
    {
      if embedded {
        r.kind := EmbedSelect;
      }
      if transaction == 0 && r.kind != StartTrans {
        return BAD_HANDLE;
      }
      if HasCursor(r.kind) && r.cursorOpen {
        return CURSOR_ALREADY_OPEN;
      }
      var reported := 0;
      if r.kind != EmbedSelect {
        match engine {
          case Executed =>
          case Raised => return EngineError;
          case Returned(s) => reported := s;
        }
      }
      if Opens(r.kind, outLength) {
        Open(r, transaction);
      }
      status := if reported == 0 then Success else EngineError;
    }

    /** The search of the list, and the unlinking. */
    method Unlink(target: Cursor, ghost at: nat) returns (found: bool)
      requires Linked(openCursors, list) && OneEach(list) && at < |list| && list[at] == target
      modifies this`openCursors, list
      ensures Linked(openCursors, Without(list, at)) && found
    {
      var prev: Cursor? := null;
      var c := openCursors;
      ghost var i := 0;
      while c != null && c != target
        invariant i <= at && c == list[i] && prev == if i == 0 then null else list[i - 1]
        decreases at - i
      {
        prev, c := c, c.next;
        i := i + 1;
      }
      found := c != null;
      if found {
        if prev == null {
          openCursors := c.next;
        } else {
          prev.next := c.next;
        }
      }
    }

    method CloseCursor(r: Request)
      requires Valid() && r in requests && r.cursorOpen
      modifies this, r, list
      ensures Valid() && requests == old(requests) && r.kind == old(r.kind)
      ensures list == Without(old(list), IndexOf(old(list), r)) && !r.cursorOpen
    {
      ghost var at := IndexOf(list, r);
      hide Linked, Without, IndexOf, OneEach;
      r.cursorOpen, r.embedded := false, false;
      var found := Unlink(r.openCursor, at);
      if found {
        r.openCursor := null;
      }
      EntryWithout(list, at, r);
      forall q | q in requests
        ensures Consistent(Without(list, at), q)
      {
        EntryWithout(list, at, q);
      }
      list := Without(list, at);
    }

    /** Close, which a request without a cursor refuses. */
    method FreeClose(r: Request) returns (status: Status)
      requires Valid() && r in requests
      modifies this, r, list
      ensures Valid() && requests == old(requests) && r.kind == old(r.kind) && !r.cursorOpen
      ensures status == if old(r.cursorOpen) then Success else CURSOR_NOT_OPEN
      ensures list == if old(r.cursorOpen) then Without(old(list), IndexOf(old(list), r)) else old(list)
    {
      if !r.cursorOpen {
        return CURSOR_NOT_OPEN;
      }
      CloseCursor(r);
      status := Success;
    }

    /** Drop: the request goes, and with it its entry, so no entry leads to freed storage. */
    method FreeDrop(r: Request)
      requires Valid() && r in requests
      modifies this, r, list
      ensures Valid() && requests == old(requests) - {r}
      ensures list == if old(r.cursorOpen) then Without(old(list), IndexOf(old(list), r)) else old(list)
    {
      hide Linked, Without, IndexOf, OneEach;
      if r.openCursor != null {
        CloseCursor(r);
      }
      NoEntry(list, r);
      requests := requests - {r};
    }

    method Fetch(r: Request) returns (status: Status)
      requires Valid() && r in requests
      ensures status == Success || status == FETCH_UNOPENED
      ensures status == FETCH_UNOPENED <==>
                r.kind in {Select, SelectUpd, EmbedSelect, GetSegment} && forall c :: c in list ==> c.request != r
    {
      if HasCursor(r.kind) && r.kind != PutSegment && !r.cursorOpen {
        return FETCH_UNOPENED;
      }
      status := Success;
    }

    /** Behind a successful execution a fetch is refused of a select alone that was to give its one row at once. */
    method ExecuteThenFetch(transaction: nat, r: Request, embedded: bool, outLength: nat, engine: Execution)
      returns (executed: Status, fetched: Status)
      requires Valid() && r in requests
      modifies this, r
      ensures Valid() && requests == old(requests)
      ensures executed == Success ==>
                fetched == if r.kind == Select && outLength != 0 then FETCH_UNOPENED else Success
    {
      executed := Execute(transaction, r, embedded, outLength, engine);
      if r.cursorOpen {
        EntryIn(list, r);
      } else {
        NoEntry(list, r);
      }
      fetched := Fetch(r);
    }

    /** A handle is prepared again: refused while its cursor is open, else a new request takes its place. */
    method Prepare(r: Request, kind: RequestType) returns (status: Status, new_: Request)
      requires Valid() && r in requests
      modifies this
      ensures Valid() && list == old(list)
      ensures status == if old(r.cursorOpen) then PREPARE_WITH_CURSOR else Success
      ensures status == Success ==> fresh(new_) && requests == old(requests) - {r} + {new_} && new_.kind == kind
      ensures status != Success ==> new_ == r && requests == old(requests)
    {
      if r.cursorOpen {
        return PREPARE_WITH_CURSOR, r;
      }
      new_ := Prepared(kind);
      requests := requests - {r};
      status := Success;
    }

    /** The end of a transaction. */
    method CleanupTransaction(transaction: nat)
      requires Valid()
      modifies this, list, requests
      ensures Valid() && requests == old(requests)
      ensures list == Others(old(list), transaction)
      ensures forall r :: r in requests ==>
                (r.cursorOpen <==> old(r.cursorOpen && r.openCursor != null && r.openCursor.transaction != transaction))
    {
      hide Linked, Without, Others, IndexOf, OneEach, EntryOf;
      StartAt(openCursors, list);
      var c := openCursors;
      ghost var i := 0;
      while c != null
        invariant Valid() && requests == old(requests)
        invariant forall k :: 0 <= k < |list| ==> list[k] in old(list)
        invariant forall r :: r in requests ==> r.openCursor == null || r.openCursor == old(r.openCursor)
        invariant forall r :: r in requests && r.openCursor == null ==>
                    old(r.openCursor == null || r.openCursor.transaction == transaction)
        invariant Others(list, transaction) == Others(old(list), transaction)
        invariant i <= |list| && c == At(list, i)
        invariant forall k :: 0 <= k < i ==> list[k].transaction != transaction
        decreases |list|, |list| - i
      {
        if c.transaction == transaction {
          OthersWithout(list, i, transaction);
          assert c == list[i] && c.request in requests;
          EntryAt(list, i);
          EntryWithout(list, i, c.request);
          var status := FreeClose(c.request);
          StartAt(openCursors, list);
          c := openCursors;
          i := 0;
        } else {
          NextAt(openCursors, list, i);
          c := c.next;
          i := i + 1;
        }
      }
      OthersOfOthers(list, transaction);
      forall r | r in requests && r.cursorOpen
        ensures r.openCursor.transaction != transaction
      {
        EntryIn(list, r);
      }
    }
  }
}
