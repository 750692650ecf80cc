/**
 Replies to information requests: a list of item codes in, a buffer of answers out, which
 ends in an end marker or, where the next answer would not fit, in a truncation marker.
 */
module InfoReply {
  import opened Wrappers
  import opened Bytes
  import opened Streams
  import opened Cursors

  const INFO_END: byte := 1
  const INFO_TRUNCATED: byte := 2
  const INFO_ERROR: byte := 3
  const SQL_SELECT: byte := 4
  const SQL_BIND: byte := 5
  const SQL_NUM_VARIABLES: byte := 6
  const SQL_DESCRIBE_VARS: byte := 7
  const SQL_DESCRIBE_END: byte := 8
  const SQL_SQLDA_SEQ: byte := 9
  const SQL_MESSAGE_SEQ: byte := 10
  const SQL_TYPE: byte := 11
  const SQL_SUB_TYPE: byte := 12
  const SQL_SCALE: byte := 13
  const SQL_LENGTH: byte := 14
  const SQL_NULL_IND: byte := 15
  const SQL_FIELD: byte := 16
  const SQL_RELATION: byte := 17
  const SQL_OWNER: byte := 18
  const SQL_ALIAS: byte := 19
  const SQL_SQLDA_START: byte := 20
  const SQL_STMT_TYPE: byte := 21
  const SQL_GET_PLAN: byte := 22
  const SQL_RECORDS: byte := 23
  const SQL_BATCH_FETCH: byte := 24

  const GDS_INFUNK: int := 335544341

  // ----- what a request is known to be

  datatype DescType = Real | Array | TimestampT | SqlDate | SqlTime | DoubleT | TextT | BlobT | VaryingT | ShortT | LongT
    | Int64T | QuadT | OtherT

  /** A parameter as the statement's message describes it. */
  datatype Par = Par(index: nat, dtype: DescType, length: nat, scale: int, subType: int, nullable: bool,
                     field: seq<byte>, relation: seq<byte>, owner: seq<byte>, alias_: seq<byte>)

  datatype Message = Message(index: nat, ordered: seq<Par>)

  datatype Known = Known(kind: RequestType, noBatch: bool, records: seq<byte>, plan: seq<byte>,
                         receive: Option<Message>, send: Option<Message>)

  function StatementNumber(kind: RequestType): int {
    match kind
    case Select => 1
    case EmbedSelect => 1
    case SelectUpd => 12
    case Ddl => 5
    case GetSegment => 6
    case PutSegment => 7
    case Commit => 10
    case CommitRetain => 10
    case Rollback => 11
    case StartTrans => 9
    case Insert => 2
    case Update => 3
    case UpdateCursor => 3
    case Delete => 4
    case DeleteCursor => 4
    case ExecProcedure => 8
    case SetGenerator => 13
    case Savepoint => 14
  }

  /** The statements in the order of the numbers a client knows them by. */
  const STATEMENTS: seq<RequestType> := [Select, Insert, Update, Delete, Ddl, GetSegment, PutSegment, ExecProcedure,
                                         StartTrans, Commit, Rollback, SelectUpd, SetGenerator, Savepoint]

  /** What a client can tell a statement from. */
  function Plain(kind: RequestType): RequestType {
    match kind
    case EmbedSelect => Select
    case CommitRetain => Commit
    case UpdateCursor => Update
    case DeleteCursor => Delete
    case _ => kind
  }

  lemma StatementReads(kind: RequestType)
    ensures 1 <= StatementNumber(kind) <= |STATEMENTS| && STATEMENTS[StatementNumber(kind) - 1] == Plain(kind)
  {
  }

  /** The type code a client sees; odd when the value may be null. */
  function SqlType(par: Par): Option<int> {
    var base :=
      match par.dtype
      case Real => 482
      case Array => 540
      case TimestampT => 510
      case SqlDate => 570
      case SqlTime => 560
      case DoubleT => 480
      case TextT => 452
      case BlobT => 520
      case VaryingT => 448
      case ShortT => 500
      case LongT => 496
      case Int64T => 580
      case QuadT => 550
      case OtherT => 0;
    if base == 0 then None else Some(if par.nullable then base + 1 else base)
  }

  function SqlScale(par: Par): int {
    if par.dtype in {DoubleT, ShortT, LongT, Int64T, QuadT} then par.scale else 0
  }

  function SqlSubType(par: Par): int {
    if par.dtype in {TextT, BlobT, VaryingT, ShortT, LongT, Int64T} then par.subType else 0
  }

  function SqlLength(par: Par): int {
    if par.dtype == VaryingT then par.length - 2 else par.length
  }

  // ----- what is asked for, in order

  /** One element of a reply: a marker, an item with its value, or the failure to describe a parameter. */
  datatype Entry = Tag(code: byte) | Item(code: byte, value: seq<byte>) | Undescribed

  function Number(code: byte, n: int): Entry {
    Item(code, Double(n))
  }

  /** An item nobody knows is answered by an error item that quotes it. */
  function Unknown(code: byte): Entry {
    Item(INFO_ERROR, [code] + Double(GDS_INFUNK))
  }

  function Description(par: Par, code: byte): Entry
    requires SqlType(par).Some?
  {
    if code == SQL_SQLDA_SEQ then Number(code, par.index)
    else if code == SQL_MESSAGE_SEQ then Item(code, [])
    else if code == SQL_TYPE then Number(code, SqlType(par).value)
    else if code == SQL_SUB_TYPE then Number(code, SqlSubType(par))
    else if code == SQL_SCALE then Number(code, SqlScale(par))
    else if code == SQL_LENGTH then Number(code, SqlLength(par))
    else if code == SQL_NULL_IND then Number(code, if par.nullable then 1 else 0)
    else if code == SQL_FIELD then Item(code, par.field)
    else if code == SQL_RELATION then Item(code, par.relation)
    else if code == SQL_OWNER then Item(code, par.owner)
    else if code == SQL_ALIAS then Item(code, par.alias_)
    else Unknown(code)
  }

  /** Whether a variable may be null is a number of its own too. */
  lemma NullAnswer(par: Par)
    requires SqlType(par).Some?
    ensures EntryBytes(Description(par, 15)) == [15, 4, 0, if par.nullable then 1 else 0, 0, 0, 0]
    ensures EntryBytes(Description(par, 10)) == [10, 0, 0]
  {
  }

  function Descriptions(par: Par, codes: seq<byte>): seq<Entry>
    requires SqlType(par).Some?
  {
    if codes == [] then [Tag(SQL_DESCRIBE_END)]
    else [Description(par, codes[0])] + Descriptions(par, codes[1..])
  }

  /** The variables of a message from a given one on. */
  function Variables(pars: seq<Par>, codes: seq<byte>, first: nat): seq<Entry> {
    if pars == [] then []
    else if pars[0].index == 0 || pars[0].index < first then Variables(pars[1..], codes, first)
    else if SqlType(pars[0]) == None then [Undescribed]
    else Descriptions(pars[0], codes) + Variables(pars[1..], codes, first)
  }

  function MessageVariables(m: Option<Message>, codes: seq<byte>, first: nat): seq<Entry> {
    if m.None? || m.value.index == 0 then [] else Variables(m.value.ordered, codes, first)
  }

  /** The item codes that describe variables, up to an end of either kind. */
  function DescribeCodes(items: seq<byte>): (n: nat)
    ensures n <= |items|
    ensures forall i :: 0 <= i < n ==> items[i] != INFO_END && items[i] != SQL_DESCRIBE_END
    ensures n < |items| ==> items[n] == INFO_END || items[n] == SQL_DESCRIBE_END
  {
    if items == [] || items[0] == INFO_END || items[0] == SQL_DESCRIBE_END then 0 else 1 + DescribeCodes(items[1..])
  }

  /** The first two bytes of a number, least significant first, as an unsigned short. */
  function LowWord(s: seq<byte>): nat {
    var low: nat, high: nat := if |s| > 0 then s[0] else 0, if |s| > 1 then s[1] else 0;
    low + 0x100 * high
  }

  /** What follows a description's codes. */
  function AfterDescribe(items: seq<byte>): (rest: seq<byte>)
    ensures |rest| <= |items|
  {
    var n := DescribeCodes(items);
    if n < |items| && items[n] == SQL_DESCRIBE_END then items[n + 1..] else items[n..]
  }

  /** A start index is followed by as many bytes as it says; chosen tells whether a message was named. */
  predicate Whole(items: seq<byte>, chosen: bool)
    decreases |items|
  {
    if items == [] || items[0] == INFO_END then true
    else
      var rest := items[1..];
      if items[0] == SQL_SQLDA_START then rest != [] && rest[0] < |rest| && Whole(rest[1 + rest[0]..], chosen)
      else if items[0] == SQL_DESCRIBE_VARS && chosen then Whole(AfterDescribe(rest), chosen)
      else Whole(rest, chosen || items[0] == SQL_SELECT || items[0] == SQL_BIND)
  }

  function MessageIndex(m: Option<Message>): nat {
    if m.None? then 0 else m.value.index
  }

  /** A value that is left out when there is none. */
  function IfAny(code: byte, value: seq<byte>): seq<Entry> {
    if value == [] then [] else [Item(code, value)]
  }

  /** The answers to a list of items, in its order; chosen is the message in force, first where its variables start. */
  function Wanted(known: Known, items: seq<byte>, chosen: Option<Option<Message>>, first: nat): seq<Entry>
    requires Whole(items, chosen.Some?)
    decreases |items|
  {
    if items == [] || items[0] == INFO_END then []
    else
      var code, rest := items[0], items[1..];
      if code == SQL_SELECT then [Tag(code)] + Wanted(known, rest, Some(known.receive), first)
      else if code == SQL_BIND then [Tag(code)] + Wanted(known, rest, Some(known.send), first)
      else if code == SQL_STMT_TYPE then
        [Number(code, StatementNumber(known.kind))] + Wanted(known, rest, chosen, first)
      else if code == SQL_SQLDA_START then
        Wanted(known, rest[1 + rest[0]..], chosen, LowWord(rest[1..1 + rest[0]]))
      else if code == SQL_BATCH_FETCH then
        [Number(code, if known.noBatch then 0 else 1)] + Wanted(known, rest, chosen, first)
      else if code == SQL_RECORDS then IfAny(code, known.records) + Wanted(known, rest, chosen, first)
      else if code == SQL_GET_PLAN then IfAny(code, known.plan) + Wanted(known, rest, chosen, first)
      else if chosen.None? || (code != SQL_NUM_VARIABLES && code != SQL_DESCRIBE_VARS) then
        [Unknown(code)] + Wanted(known, rest, chosen, first)
      else if code == SQL_NUM_VARIABLES then
        [Number(code, MessageIndex(chosen.value))] + Wanted(known, rest, chosen, first)
      else
        [Number(code, MessageIndex(chosen.value))]
        + MessageVariables(chosen.value, rest[..DescribeCodes(rest)], first)
        + Wanted(known, AfterDescribe(rest), chosen, first)
  }

  // ----- what fits

  function EntryBytes(e: Entry): seq<byte>
    requires !e.Undescribed?
  {
    if e.Tag? then [e.code] else [e.code] + Word(|e.value|) + e.value
  }

  /** An entry is written only if it leaves a byte free; else the reply is cut there. */
  function Fill(entries: seq<Entry>, room: nat): (s: Option<seq<byte>>)
    requires room > 0
    ensures s.Some? ==> 0 < |s.value| <= room
  {
    if entries == [] then Some([INFO_END])
    else if entries[0].Undescribed? then None
    else
      var b := EntryBytes(entries[0]);
      if |b| >= room then Some([INFO_TRUNCATED])
      else
        var rest := Fill(entries[1..], room - |b|);
        if rest.None? then None else Some(b + rest.value)
  }

  /** How many entries that is. */
  function Fitting(entries: seq<Entry>, room: nat): (n: nat)
    requires room > 0
    ensures n <= |entries|
  {
    if entries == [] || entries[0].Undescribed? || |EntryBytes(entries[0])| >= room then 0
    else 1 + Fitting(entries[1..], room - |EntryBytes(entries[0])|)
  }

  const TAGS: set<byte> := {SQL_SELECT, SQL_BIND, SQL_DESCRIBE_END}

  predicate ValidEntry(e: Entry) {
    match e
    case Tag(code) => code in TAGS
    case Item(code, value) => code !in TAGS && code != INFO_END && code != INFO_TRUNCATED && |value| < 0x1_0000
    case Undescribed => true
  }

  predicate ValidEntries(es: seq<Entry>) {
    forall e :: e in es ==> ValidEntry(e)
  }

  datatype Reply = Reply(entries: seq<Entry>, marker: byte)

  /** A client's reading of a reply. */
  function Read(s: seq<byte>): Option<Reply> {
    if s == [] then None
    else if s[0] == INFO_END || s[0] == INFO_TRUNCATED then Some(Reply([], s[0]))
    else if s[0] in TAGS then Prepended(Tag(s[0]), Read(s[1..]))
    else if |s| < 3 || 3 + FromWord(s[1..]) > |s| then None
    else
      var n: nat := FromWord(s[1..]);
      Prepended(Item(s[0], s[3..3 + n]), Read(s[3 + n..]))
  }

  function Prepended(e: Entry, r: Option<Reply>): Option<Reply> {
    if r.None? then None else Some(Reply([e] + r.value.entries, r.value.marker))
  }

  lemma ItemShape(code: byte, value: seq<byte>, rest: seq<byte>)
    requires |value| < 0x1_0000
    ensures var s := EntryBytes(Item(code, value)) + rest;
            var n := |value|;
            && |s| >= 3 + n && s[0] == code && FromWord(s[1..]) == n && s[3..3 + n] == value && s[3 + n..] == rest
  {
    var n := |value|;
    var s := EntryBytes(Item(code, value)) + rest;
    assert s[1] == Word(n)[0] && s[2] == Word(n)[1];
    WordRoundTrip(n);
    hide Word;
    assert s == [code] + Word(n) + value + rest;
  }

  lemma ReadOne(e: Entry, rest: seq<byte>)
    requires ValidEntry(e) && !e.Undescribed?
    ensures Read(EntryBytes(e) + rest) == Prepended(e, Read(rest))
  {
    if e.Tag? {
      assert (EntryBytes(e) + rest)[1..] == rest;
    } else {
      ItemShape(e.code, e.value, rest);
      hide EntryBytes, FromWord;
    }
  }

  /** One more answer in front of a reply. */
  lemma ReplyGrows(e: Entry, more: seq<Entry>, room: nat)
    requires ValidEntry(e) && !e.Undescribed? && |EntryBytes(e)| < room && Fill(more, room - |EntryBytes(e)|).Some?
    ensures var rest := Read(Fill(more, room - |EntryBytes(e)|).value);
            && Fill([e] + more, room).Some? && Read(Fill([e] + more, room).value) == Prepended(e, rest)
            && Fitting([e] + more, room) == 1 + Fitting(more, room - |EntryBytes(e)|)
  {
    hide Read, ValidEntry, EntryBytes;
    assert ([e] + more)[1..] == more;
    ReadOne(e, Fill(more, room - |EntryBytes(e)|).value);
  }

  /** A reply reads back as the answers that fit, and its marker tells whether they are all. */
  lemma {:induction false} ReplyIsWellFormed(entries: seq<Entry>, room: nat)
    requires room > 0 && ValidEntries(entries) && Fill(entries, room).Some?
    ensures var n := Fitting(entries, room);
            Read(Fill(entries, room).value)
            == Some(Reply(entries[..n], if n == |entries| then INFO_END else INFO_TRUNCATED))
    decreases |entries|
  {
    if entries != [] && |EntryBytes(entries[0])| < room {
      hide Read, ValidEntry, EntryBytes;
      var e, more := entries[0], entries[1..];
      var left := room - |EntryBytes(e)|;
      assert entries == [e] + more;
      ReplyIsWellFormed(more, left);
      ReplyGrows(e, more, room);
      assert [e] + more[..Fitting(more, left)] == entries[..Fitting(entries, room)];
    } else {
      assert entries[..0] == [];
    }
  }

  // ----- what is asked for can be answered

  predicate ValidPar(p: Par) {
    |p.field| < 0x1_0000 && |p.relation| < 0x1_0000 && |p.owner| < 0x1_0000 && |p.alias_| < 0x1_0000
  }

  predicate ValidMessage(m: Option<Message>) {
    m.None? || forall p :: p in m.value.ordered ==> ValidPar(p)
  }

  predicate ValidKnown(known: Known) {
    |known.records| < 0x1_0000 && |known.plan| < 0x1_0000 && ValidMessage(known.receive) && ValidMessage(known.send)
  }

  lemma ValidConcat(a: seq<Entry>, b: seq<Entry>)
    requires ValidEntries(a) && ValidEntries(b)
    ensures ValidEntries(a + b)
  {
  }

  lemma {:induction false} DescriptionsValid(par: Par, codes: seq<byte>)
    requires ValidPar(par) && SqlType(par).Some?
    requires forall i :: 0 <= i < |codes| ==> codes[i] != INFO_END && codes[i] != SQL_DESCRIBE_END
    ensures ValidEntries(Descriptions(par, codes))
  {
    if codes != [] {
      DescriptionsValid(par, codes[1..]);
      ValidConcat([Description(par, codes[0])], Descriptions(par, codes[1..]));
    }
  }

  lemma {:induction false} VariablesValid(pars: seq<Par>, codes: seq<byte>, first: nat)
    requires forall p :: p in pars ==> ValidPar(p)
    requires forall i :: 0 <= i < |codes| ==> codes[i] != INFO_END && codes[i] != SQL_DESCRIBE_END
    ensures ValidEntries(Variables(pars, codes, first))
  {
    if pars != [] {
      VariablesValid(pars[1..], codes, first);
      if SqlType(pars[0]).Some? {
        DescriptionsValid(pars[0], codes);
        ValidConcat(Descriptions(pars[0], codes), Variables(pars[1..], codes, first));
      }
    }
  }

  /** No answer is mistaken for a marker, whatever was asked. */
  lemma {:induction false} WantedValid(known: Known, items: seq<byte>, chosen: Option<Option<Message>>, first: nat)
    requires Whole(items, chosen.Some?) && ValidKnown(known) && (chosen.Some? ==> ValidMessage(chosen.value))
    ensures ValidEntries(Wanted(known, items, chosen, first))
    decreases |items|
  {
    if items != [] && items[0] != INFO_END {
      var code, rest := items[0], items[1..];
      if code == SQL_SELECT || code == SQL_BIND {
        var m := if code == SQL_SELECT then known.receive else known.send;
        WantedValid(known, rest, Some(m), first);
        ValidConcat([Tag(code)], Wanted(known, rest, Some(m), first));
      } else if code == SQL_SQLDA_START {
        WantedValid(known, rest[1 + rest[0]..], chosen, LowWord(rest[1..1 + rest[0]]));
      } else if code == SQL_DESCRIBE_VARS && chosen.Some? {
        var codes := rest[..DescribeCodes(rest)];
        WantedValid(known, AfterDescribe(rest), chosen, first);
        if chosen.value.Some? {
          VariablesValid(chosen.value.value.ordered, codes, first);
        }
        ValidConcat([Number(code, MessageIndex(chosen.value))], MessageVariables(chosen.value, codes, first));
        ValidConcat([Number(code, MessageIndex(chosen.value))] + MessageVariables(chosen.value, codes, first),
                    Wanted(known, AfterDescribe(rest), chosen, first));
      } else {
        WantedValid(known, rest, chosen, first);
      }
    }
  }

  /** The replies to a request for one item that needs no message. */
  lemma OneItem(known: Known, code: byte, room: nat)
    requires room > 8 && code !in {1, 4, 5, 20, 22, 23}
    ensures Whole([code], false)
    ensures Fill(Wanted(known, [code], None, 0), room)
            == Some((if code == 21 then [21, 4, 0, StatementNumber(known.kind), 0, 0, 0]
                     else if code == 24 then [24, 4, 0, if known.noBatch then 0 else 1, 0, 0, 0]
                     else [3, 5, 0, code, 0x15, 0, 0, 0x14])
                    + [1])
  {
    hide Double, StatementNumber, EntryBytes, IfAny, MessageVariables;
    assert [code][1..] == [] && Whole([], false) && Whole([code], false);
    var e := if code == 21 then Number(code, StatementNumber(known.kind))
             else if code == 24 then Number(code, if known.noBatch then 0 else 1)
             else Unknown(code);
    assert Wanted(known, [], None, 0) == [];
    assert Wanted(known, [code], None, 0) == [e] + Wanted(known, [], None, 0) == [e];
    StatementReads(known.kind);
    UnknownBytes(code);
    if code == 21 {
      NumberBytes(code, StatementNumber(known.kind));
    } else if code == 24 {
      NumberBytes(code, if known.noBatch then 0 else 1);
    }
    OneFilled(e, room);
  }

  lemma OneFilled(e: Entry, room: nat)
    requires !e.Undescribed? && |EntryBytes(e)| < room
    ensures Fill([e], room) == Some(EntryBytes(e) + [1])
  {
    assert [e][1..] == [] && Fill([], room - |EntryBytes(e)|) == Some([INFO_END]);
  }

  lemma NumberBytes(code: byte, n: byte)
    ensures EntryBytes(Number(code, n)) == [code, 4, 0, n, 0, 0, 0]
  {
  }

  lemma UnknownBytes(code: byte)
    ensures EntryBytes(Unknown(code)) == [3, 5, 0, code, 0x15, 0, 0, 0x14]
  {
  }

  // ----- writing

  lemma FillItem(item: byte, value: seq<byte>, rest: seq<Entry>, room: nat)
    requires room > 0 && |value| < 0x1_0000
    ensures var e := Item(item, value);
            && EntryBytes(e) == [item, Low8(|value|), |value| / 0x100] + value
            && Fill([e] + rest, room)
               == if |value| + 3 >= room then Some([INFO_TRUNCATED])
                  else
                    var more := Fill(rest, room - 3 - |value|);
                    if more.None? then None else Some(EntryBytes(e) + more.value)
  {
    hide EntryBytes;
    var e := Item(item, value);
    ItemBytes(item, value);
    assert ([e] + rest)[1..] == rest;
  }

  lemma ItemBytes(item: byte, value: seq<byte>)
    requires |value| < 0x1_0000
    ensures EntryBytes(Item(item, value)) == [item, Low8(|value|), |value| / 0x100] + value
  {
  }

  /** A buffer of a fixed length, and how far it is filled. */
  class Writer {
    const info: array<byte>
    const length: nat
    var at: nat

    ghost predicate Valid()
      reads this
    {
      at < length <= info.Length
    }

    /** The reply so far, followed by what a list of further answers makes of the room left. */
    ghost function Completed(entries: seq<Entry>): Option<seq<byte>>
      requires Valid()
      reads this, info
    {
      var rest := Fill(entries, length - at);
      if rest.None? then None else Some(info[..at] + rest.value)
    }

    constructor (info: array<byte>, length: nat)
      requires 0 < length <= info.Length
      ensures Valid() && this.info == info && this.length == length && at == 0
    {
      this.info, this.length, at := info, length, 0;
    }

    /** An answer, if it leaves a byte free; otherwise the mark of a cut reply. */
    method PutItem(item: byte, value: seq<byte>, ghost rest: seq<Entry>) returns (ok: bool)
      requires Valid() && |value| < 0x1_0000
      modifies this`at, info
      ensures info[length..] == old(info[length..])
      ensures ok ==> Valid() && Completed(rest) == old(Completed([Item(item, value)] + rest))
      ensures !ok ==> at < length && old(Completed([Item(item, value)] + rest)) == Some(info[..at + 1])
    {
      hide Fill, EntryBytes;
      FillItem(item, value, rest, length - at);
      ghost var before := info[..at];
      if at + |value| + 3 >= length {
        info[at] := INFO_TRUNCATED;
        assert info[..at + 1] == before + [INFO_TRUNCATED];
        return false;
      }
      Lay(item, value);
      if Fill(rest, length - at).Some? {
        Assoc(before, EntryBytes(Item(item, value)), Fill(rest, length - at).value);
      }
      ok := true;
    }

    /** The bytes of an answer. */
    method Lay(item: byte, value: seq<byte>)
      requires Valid() && |value| < 0x1_0000 && at + |value| + 3 < length
      modifies this`at, info
      ensures Valid() && at == old(at) + 3 + |value| && info[length..] == old(info[length..])
      ensures info[..at] == old(info[..at]) + ([item, Low8(|value|), |value| / 0x100] + value)
    {
      ghost var start, before := at, info[..at];
      info[at], info[at + 1], info[at + 2] := item, Low8(|value|), |value| / 0x100;
      at := at + 3;
      forall i | 0 <= i < |value| {
        info[at + i] := value[i];
      }
      at := at + |value|;
      assert info[..start] == before && info[start + 3..at] == value;
      assert info[..at] == info[..start] + info[start..start + 3] + info[start + 3..at];
    }

    method PutTag(item: byte, ghost rest: seq<Entry>) returns (ok: bool)
      requires Valid()
      modifies this`at, info
      ensures info[length..] == old(info[length..])
      ensures ok ==> Valid() && Completed(rest) == old(Completed([Tag(item)] + rest))
      ensures !ok ==> at < length && old(Completed([Tag(item)] + rest)) == Some(info[..at + 1])
    {
      assert ([Tag(item)] + rest)[1..] == rest;
      ghost var before := info[..at];
      if at + 1 >= length {
        info[at] := INFO_TRUNCATED;
        assert info[..at + 1] == before + [INFO_TRUNCATED];
        return false;
      }
      info[at] := item;
      at := at + 1;
      assert info[..at] == before + [item];
      if Fill(rest, length - at).Some? {
        Assoc(before, [item], Fill(rest, length - at).value);
      }
      ok := true;
    }

    /** One variable's answers, and the mark behind them. */
    method PutDescriptions(par: Par, codes: seq<byte>, ghost rest: seq<Entry>) returns (ok: bool)
      requires Valid() && SqlType(par).Some? && ValidPar(par)
      requires forall i :: 0 <= i < |codes| ==> codes[i] != INFO_END && codes[i] != SQL_DESCRIBE_END
      modifies this`at, info
      ensures info[length..] == old(info[length..])
      ensures ok ==> Valid() && Completed(rest) == old(Completed(Descriptions(par, codes) + rest))
      ensures !ok ==> at < length && old(Completed(Descriptions(par, codes) + rest)) == Some(info[..at + 1])
    {
      hide Completed, Description;
      var k := 0;
      assert codes[0..] == codes;
      while k < |codes|
        invariant k <= |codes| && Valid() && info[length..] == old(info[length..])
        invariant Completed(Descriptions(par, codes[k..]) + rest) == old(Completed(Descriptions(par, codes) + rest))
      {
        DescriptionsStep(par, codes, k, rest);
        var d := Description(par, codes[k]);
        DescriptionIsItem(par, codes[k]);
        ok := PutItem(d.code, d.value, Descriptions(par, codes[k + 1..]) + rest);
        if !ok {
          return;
        }
        k := k + 1;
      }
      assert codes[k..] == [];
      ok := PutTag(SQL_DESCRIBE_END, rest);
    }

    /** The variables of a message; one of a type no client knows stops the request. */
    method VarInfo(m: Option<Message>, codes: seq<byte>, first: nat, ghost rest: seq<Entry>) returns (ok: bool, failed: bool)
      requires Valid() && ValidMessage(m)
      requires forall i :: 0 <= i < |codes| ==> codes[i] != INFO_END && codes[i] != SQL_DESCRIBE_END
      modifies this`at, info
      ensures info[length..] == old(info[length..])
      ensures failed ==> !ok && old(Completed(MessageVariables(m, codes, first) + rest)) == None
      ensures ok ==> Valid() && Completed(rest) == old(Completed(MessageVariables(m, codes, first) + rest))
      ensures !ok && !failed ==>
                at < length && old(Completed(MessageVariables(m, codes, first) + rest)) == Some(info[..at + 1])
    {
      hide Completed, Descriptions;
      ok, failed := true, false;
      if m.None? || m.value.index == 0 {
        assert [] + rest == rest;
        return;
      }
      var pars := m.value.ordered;
      ghost var all := Variables(pars, codes, first) + rest;
      var k := 0;
      assert pars[0..] == pars;
      while k < |pars|
        invariant k <= |pars| && Valid() && ok && !failed && info[length..] == old(info[length..])
        invariant Completed(Variables(pars[k..], codes, first) + rest) == old(Completed(all))
      {
        VariablesStep(pars, k, codes, first, rest);
        var par := pars[k];
        if par.index != 0 && par.index >= first {
          if SqlType(par).None? {
            UndescribedStops(rest);
            return false, true;
          }
          ok := PutDescriptions(par, codes, Variables(pars[k + 1..], codes, first) + rest);
          if !ok {
            return;
          }
        }
        k := k + 1;
      }
      assert pars[k..] == [] && [] + rest == rest;
    }

    lemma UndescribedStops(rest: seq<Entry>)
      requires Valid()
      ensures Completed([Undescribed] + rest) == None
    {
    }
  }

  lemma DescriptionIsItem(par: Par, code: byte)
    requires SqlType(par).Some? && ValidPar(par)
    ensures var d := Description(par, code);
            d.Item? && |d.value| < 0x1_0000
  {
  }

  lemma DescriptionsStep(par: Par, codes: seq<byte>, k: nat, rest: seq<Entry>)
    requires k < |codes| && SqlType(par).Some?
    ensures Descriptions(par, codes[k..]) + rest
            == [Description(par, codes[k])] + (Descriptions(par, codes[k + 1..]) + rest)
  {
    assert codes[k..][1..] == codes[k + 1..];
  }

  lemma VariablesStep(pars: seq<Par>, k: nat, codes: seq<byte>, first: nat, rest: seq<Entry>)
    requires k < |pars|
    ensures var p, more := pars[k], Variables(pars[k + 1..], codes, first);
            Variables(pars[k..], codes, first) + rest
            == if p.index == 0 || p.index < first then more + rest
               else if SqlType(p).None? then [Undescribed] + rest
               else Descriptions(p, codes) + (more + rest)
  {
    assert pars[k..][1..] == pars[k + 1..];
  }

  /** An item that asks for one number, or that nobody knows. */
  predicate Simple(code: byte, chosen: bool) {
    code == SQL_STMT_TYPE || code == SQL_BATCH_FETCH || Unanswered(code, chosen) || (code == SQL_NUM_VARIABLES && chosen)
  }

  predicate Unanswered(code: byte, chosen: bool) {
    && code !in {INFO_END, SQL_SELECT, SQL_BIND, SQL_STMT_TYPE, SQL_SQLDA_START, SQL_BATCH_FETCH, SQL_RECORDS, SQL_GET_PLAN}
    && (!chosen || (code != SQL_NUM_VARIABLES && code != SQL_DESCRIBE_VARS))
  }

  function SimpleAnswer(known: Known, code: byte, chosen: Option<Option<Message>>): (e: Entry)
    requires Simple(code, chosen.Some?)
    ensures e.Item? && |e.value| < 0x1_0000
  {
    if code == SQL_STMT_TYPE then Number(code, StatementNumber(known.kind))
    else if code == SQL_BATCH_FETCH then Number(code, if known.noBatch then 0 else 1)
    else if Unanswered(code, chosen.Some?) then Unknown(code)
    else Number(code, MessageIndex(chosen.value))
  }

  /** One item of the request. */
  method Answer(w: Writer, known: Known, items: seq<byte>, chosen: Option<Option<Message>>, first: nat)
    returns (ok: bool, failed: bool, rest: seq<byte>, newChosen: Option<Option<Message>>, newFirst: nat)
    requires w.Valid() && ValidKnown(known) && Whole(items, chosen.Some?) && (chosen.Some? ==> ValidMessage(chosen.value))
    requires items != [] && items[0] != INFO_END
    modifies w`at, w.info
    ensures w.info[w.length..] == old(w.info[w.length..])
    ensures ok ==> w.Valid() && |rest| < |items| && Whole(rest, newChosen.Some?)
    ensures ok ==> (newChosen.Some? ==> ValidMessage(newChosen.value))
    ensures ok ==> w.Completed(Wanted(known, rest, newChosen, newFirst)) == old(w.Completed(Wanted(known, items, chosen, first)))
    ensures failed ==> !ok && old(w.Completed(Wanted(known, items, chosen, first))) == None
    ensures !ok && !failed ==>
              w.at < w.length && old(w.Completed(Wanted(known, items, chosen, first))) == Some(w.info[..w.at + 1])
  {
    hide Wanted, Writer.Completed, Whole, MessageVariables, LowWord, DescribeCodes, AfterDescribe, Number, Unknown, ValidMessage;
    var code := items[0];
    WantedStep(known, items, chosen, first);
    rest, newChosen, newFirst, ok, failed := items[1..], chosen, first, true, false;
    if code == SQL_SELECT || code == SQL_BIND {
      newChosen := Some(if code == SQL_SELECT then known.receive else known.send);
      ok := w.PutTag(code, Wanted(known, rest, newChosen, first));
    } else if Simple(code, chosen.Some?) {
      var e := SimpleAnswer(known, code, chosen);
      ok := w.PutItem(e.code, e.value, Wanted(known, rest, chosen, first));
    } else if code == SQL_SQLDA_START {
      newFirst := LowWord(rest[1..1 + rest[0]]);
      rest := rest[1 + rest[0]..];
    } else if code == SQL_RECORDS || code == SQL_GET_PLAN {
      var value := if code == SQL_RECORDS then known.records else known.plan;
      if value != [] {
        ok := w.PutItem(code, value, Wanted(known, rest, chosen, first));
      } else {
        assert [] + Wanted(known, rest, chosen, first) == Wanted(known, rest, chosen, first);
      }
    } else {
      ok, failed := AnswerDescribe(w, known, rest, chosen, first);
      rest := AfterDescribe(rest);
    }
  }

  /** The number of variables, and each from the first one wanted. */
  method AnswerDescribe(w: Writer, known: Known, rest: seq<byte>, chosen: Option<Option<Message>>, first: nat)
    returns (ok: bool, failed: bool)
    requires w.Valid() && chosen.Some? && ValidMessage(chosen.value) && Whole(AfterDescribe(rest), true)
    modifies w`at, w.info
    ensures w.info[w.length..] == old(w.info[w.length..])
    ensures var more := Wanted(known, AfterDescribe(rest), chosen, first);
            var all := [Number(SQL_DESCRIBE_VARS, MessageIndex(chosen.value))]
                       + (MessageVariables(chosen.value, rest[..DescribeCodes(rest)], first) + more);
            && (ok ==> w.Valid() && w.Completed(more) == old(w.Completed(all)))
            && (failed ==> !ok && old(w.Completed(all)) == None)
            && (!ok && !failed ==> w.at < w.length && old(w.Completed(all)) == Some(w.info[..w.at + 1]))
  {
    hide Wanted, Writer.Completed, Whole, MessageVariables;
    failed := false;
    ghost var more := Wanted(known, AfterDescribe(rest), chosen, first);
    var codes := rest[..DescribeCodes(rest)];
    ok := w.PutItem(SQL_DESCRIBE_VARS, Double(MessageIndex(chosen.value)), MessageVariables(chosen.value, codes, first) + more);
    if ok {
      ok, failed := w.VarInfo(chosen.value, codes, first, more);
    }
  }

  /** A request for information: the answers in order as far as they fit, then how the reply ends. */
  method SqlInfo(known: Known, items: seq<byte>, info: array<byte>, length: nat) returns (ok: bool, ghost written: nat)
    requires ValidKnown(known) && Whole(items, false) && 0 < length <= info.Length
    modifies info
    ensures info[length..] == old(info[length..]) && written <= length
    ensures ok <==> Fill(Wanted(known, items, None, 0), length).Some?
    ensures ok ==> Fill(Wanted(known, items, None, 0), length) == Some(info[..written])
  {
    var w := new Writer(info, length);
    var rest, first := items, 0;
    var chosen: Option<Option<Message>> := None;
    written := 0;
    ghost var reply := Fill(Wanted(known, items, None, 0), length);
    if reply.Some? {
      EmptyPlus(reply.value);
    }
    assert w.Completed(Wanted(known, items, None, 0)) == reply;
    hide Wanted, Writer.Completed, Fill, Whole;
    while rest != [] && rest[0] != INFO_END
      invariant w.Valid() && w.info == info && w.length == length && fresh(w) && info[length..] == old(info[length..])
      invariant Whole(rest, chosen.Some?) && (chosen.Some? ==> ValidMessage(chosen.value))
      invariant w.Completed(Wanted(known, rest, chosen, first)) == reply
      decreases |rest|
    {
      var failed;
      ok, failed, rest, chosen, first := Answer(w, known, rest, chosen, first);
      if !ok {
        ok := !failed;
        written := if failed then 0 else w.at + 1;
        return;
      }
    }
    FilledUp(w, known, rest, chosen, first);
    ghost var before := info[..w.at];
    info[w.at] := INFO_END;
    written := w.at + 1;
    assert info[..written] == before + [INFO_END];
    ok := true;
  }

  lemma FilledUp(w: Writer, known: Known, items: seq<byte>, chosen: Option<Option<Message>>, first: nat)
    requires w.Valid() && Whole(items, chosen.Some?) && (items == [] || items[0] == INFO_END)
    ensures w.Completed(Wanted(known, items, chosen, first)) == Some(w.info[..w.at] + [INFO_END])
  {
  }

  /** The first of the items asked for. */
  lemma WantedStep(known: Known, items: seq<byte>, chosen: Option<Option<Message>>, first: nat)
    requires Whole(items, chosen.Some?) && items != [] && items[0] != INFO_END
    ensures var code, rest := items[0], items[1..];
            var w := Wanted(known, items, chosen, first);
            if code == SQL_SELECT || code == SQL_BIND then
              Whole(rest, true)
              && w == [Tag(code)] + Wanted(known, rest, Some(if code == SQL_SELECT then known.receive else known.send), first)
            else if Simple(code, chosen.Some?) then
              Whole(rest, chosen.Some?)
              && w == [SimpleAnswer(known, code, chosen)] + Wanted(known, rest, chosen, first)
            else if code == SQL_SQLDA_START then
              rest != [] && rest[0] < |rest| && Whole(rest[1 + rest[0]..], chosen.Some?)
              && w == Wanted(known, rest[1 + rest[0]..], chosen, LowWord(rest[1..1 + rest[0]]))
            else if code == SQL_RECORDS || code == SQL_GET_PLAN then
              Whole(rest, chosen.Some?)
              && w == IfAny(code, if code == SQL_RECORDS then known.records else known.plan)
                      + Wanted(known, rest, chosen, first)
            else
              code == SQL_DESCRIBE_VARS && chosen.Some? && Whole(AfterDescribe(rest), true)
              && w == [Number(code, MessageIndex(chosen.value))]
                      + (MessageVariables(chosen.value, rest[..DescribeCodes(rest)], first)
                         + Wanted(known, AfterDescribe(rest), chosen, first))
  {
    hide MessageVariables, Number, Unknown, LowWord, DescribeCodes, AfterDescribe, IfAny, StatementNumber;
  }
}
