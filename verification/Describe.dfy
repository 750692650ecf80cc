/**
 Describing the variables of a statement to a client: the client asks for them, fills its
 area from the reply and, where the reply was cut, asks again from the last variable it has.
 */
module Describe {
  import opened Wrappers
  import opened Bytes
  import opened Streams
  import opened InfoReply
  import MessageLayout

  /** What is asked of each variable. */
  const CODES: seq<byte> := [9, 11, 12, 13, 14, 16, 17, 18, 19]

  /** The items of a request: all variables, or those from one on. */
  function Request(tag: byte, first: nat): seq<byte> {
    (if first == 0 then [] else [20, 2] + Word(first)) + [tag, 7] + CODES + [8]
  }

  // ----- the client's area

  /** One variable of the area; a name is what stands before its terminating zero. */
  datatype XVar = XVar(sqlType: int, subType: int, scale: int, length: int,
                       field: seq<byte>, relation: seq<byte>, owner: seq<byte>, alias_: seq<byte>)

  /**
   How filling an area ended: with the last variable, at a mark that the reply was cut, which
   tells the last variable that is complete, or with an error; Wild where bytes are read that
   the reply does not have, or written that the area does not have.
   */
  datatype Outcome = Done | Stopped(index: word) | Refused | Wild | ServerError

  const NAME_ROOM: nat := 31

  /** A number as the short it is stored in. */
  function AsShort(value: seq<byte>): int {
    Signed(LowWord(value), 0x1_0000)
  }

  function AsName(value: seq<byte>): seq<byte> {
    if |value| > NAME_ROOM then value[..NAME_ROOM] else value
  }

  predicate IsItem(code: byte) {
    code in {SQL_SQLDA_SEQ, SQL_TYPE, SQL_SUB_TYPE, SQL_SCALE, SQL_LENGTH, SQL_FIELD, SQL_RELATION, SQL_OWNER, SQL_ALIAS}
  }

  function Assigned(v: XVar, code: byte, value: seq<byte>): XVar
    requires IsItem(code) && code != SQL_SQLDA_SEQ
  {
    if code == SQL_TYPE then v.(sqlType := AsShort(value))
    else if code == SQL_SUB_TYPE then v.(subType := AsShort(value))
    else if code == SQL_SCALE then v.(scale := AsShort(value))
    else if code == SQL_LENGTH then v.(length := AsShort(value))
    else if code == SQL_FIELD then v.(field := AsName(value))
    else if code == SQL_RELATION then v.(relation := AsName(value))
    else if code == SQL_OWNER then v.(owner := AsName(value))
    else v.(alias_ := AsName(value))
  }

  /** Where the client is: the variable in hand, none before the first; the largest that is complete. */
  datatype Filling = Filling(at: word, last: word, inside: bool, vars: seq<XVar>)

  function Closed(f: Filling): Filling {
    f.(inside := false, last := if f.at > f.last then f.at else f.last)
  }

  /** One item: the variable's number, or something of the variable. */
  function Taken(f: Filling, code: byte, value: seq<byte>): (Filling, Outcome) {
    if code == SQL_SQLDA_SEQ then (f.(inside := true, at := LowWord(value)), Done)
    else if !IsItem(code) then (f, Refused)
    else if f.at == 0 || f.at > |f.vars| then (f, Wild)
    else (f.(inside := true, vars := f.vars[f.at - 1 := Assigned(f.vars[f.at - 1], code, value)]), Done)
  }

  /** The length of a value, if it is one and the value is there. */
  function ValueLength(s: seq<byte>): (n: Option<nat>)
    ensures n.Some? ==> 2 + n.value <= |s|
  {
    if |s| < 2 || FromWord(s) >= 0x8000 || 2 + FromWord(s) > |s| then None else Some(FromWord(s))
  }

  /** What the bytes of a reply make of an area. */
  function Parse(s: seq<byte>, f: Filling): (Filling, Outcome)
    decreases |s|
  {
    if s == [] then (f, Wild)
    else if !f.inside && s[0] == INFO_END then (f, Done)
    else if s[0] == SQL_DESCRIBE_END then
      if f.at == 0 then (f, Wild) else Parse(s[1..], Closed(f))
    else if s[0] == INFO_TRUNCATED then (f, Stopped(f.last))
    else if !IsItem(s[0]) then (f, Refused)
    else
      var n := ValueLength(s[1..]);
      if n.None? then (f, Wild)
      else
        var t := Taken(f, s[0], s[3..3 + n.value]);
        if t.1 != Done then t else Parse(s[3 + n.value..], t.0)
  }

  /** The same of the answers a reply reads back as. */
  function Play(es: seq<Entry>, marker: byte, f: Filling): (Filling, Outcome)
    decreases |es|
  {
    if es == [] then
      (f, if marker == INFO_TRUNCATED then Stopped(f.last) else if f.inside then Refused else Done)
    else match es[0]
      case Tag(code) =>
        if code != SQL_DESCRIBE_END then (f, Refused)
        else if f.at == 0 then (f, Wild)
        else Play(es[1..], marker, Closed(f))
      case Item(code, value) =>
        var t := Taken(f, code, value);
        if t.1 != Done then t else Play(es[1..], marker, t.0)
      case Undescribed => (f, Refused)
  }

  predicate Moderate(es: seq<Entry>) {
    forall e :: e in es && e.Item? ==> |e.value| < 0x8000
  }

  /** The client sees in a reply, whatever stands behind it, what the reply reads back as. */
  lemma {:induction false} ParseIsPlay(s: seq<byte>, f: Filling, rest: seq<byte>)
    requires Read(s).Some? && Moderate(Read(s).value.entries)
    ensures Parse(s + rest, f) == Play(Read(s).value.entries, Read(s).value.marker, f)
    decreases |s|
  {
    var r := Read(s).value;
    if s[0] == INFO_END || s[0] == INFO_TRUNCATED {
    } else if s[0] in TAGS {
      assert (s + rest)[1..] == s[1..] + rest;
      TailIs(r.entries, Tag(s[0]), Read(s[1..]).value.entries);
      ParseIsPlay(s[1..], Closed(f), rest);
    } else {
      var n: nat := FromWord(s[1..]);
      ItemSplits(s, rest, n);
      TailIs(r.entries, Item(s[0], s[3..3 + n]), Read(s[3 + n..]).value.entries);
      var t := Taken(f, s[0], s[3..3 + n]);
      ParseIsPlay(s[3 + n..], t.0, rest);
    }
  }

  lemma TailIs(es: seq<Entry>, e: Entry, more: seq<Entry>)
    requires es == [e] + more && Moderate(es)
    ensures es[0] == e && es[1..] == more && Moderate(more)
    ensures e.Item? ==> |e.value| < 0x8000
  {
    assert e in es;
  }

  lemma ItemSplits(s: seq<byte>, rest: seq<byte>, n: nat)
    requires |s| >= 3 && n == FromWord(s[1..]) && 3 + n <= |s|
    ensures (s + rest)[0] == s[0] && FromWord((s + rest)[1..]) == n
    ensures (s + rest)[3..3 + n] == s[3..3 + n] && (s + rest)[3 + n..] == s[3 + n..] + rest
  {
    assert (s + rest)[1..][0] == s[1..][0] && (s + rest)[1..][1] == s[1..][1];
  }

  // ----- the answers about one variable

  /** What a client gets of a variable. */
  function VarOf(par: Par): XVar
    requires SqlType(par).Some?
  {
    XVar(AsShort(Double(SqlType(par).value)), AsShort(Double(SqlSubType(par))), AsShort(Double(SqlScale(par))),
         AsShort(Double(SqlLength(par))), AsName(par.field), AsName(par.relation), AsName(par.owner), AsName(par.alias_))
  }

  /** A variable after some of its answers. */
  function Told(v: XVar, par: Par, codes: seq<byte>): XVar
    requires SqlType(par).Some? && forall c :: c in codes ==> IsItem(c) && c != SQL_SQLDA_SEQ
    decreases |codes|
  {
    if codes == [] then v
    else Told(Assigned(v, codes[0], Description(par, codes[0]).value), par, codes[1..])
  }

  lemma {:induction false} ToldFields(v: XVar, par: Par, codes: seq<byte>)
    requires SqlType(par).Some? && forall c :: c in codes ==> IsItem(c) && c != SQL_SQLDA_SEQ
    ensures var t, all := Told(v, par, codes), VarOf(par);
            && t.sqlType == (if SQL_TYPE in codes then all else v).sqlType
            && t.subType == (if SQL_SUB_TYPE in codes then all else v).subType
            && t.scale == (if SQL_SCALE in codes then all else v).scale
            && t.length == (if SQL_LENGTH in codes then all else v).length
            && t.field == (if SQL_FIELD in codes then all else v).field
            && t.relation == (if SQL_RELATION in codes then all else v).relation
            && t.owner == (if SQL_OWNER in codes then all else v).owner
            && t.alias_ == (if SQL_ALIAS in codes then all else v).alias_
    decreases |codes|
  {
    hide LowWord, Double, SqlType, SqlSubType, SqlScale, SqlLength, AsName, AsShort;
    if codes != [] {
      ToldFields(Assigned(v, codes[0], Description(par, codes[0]).value), par, codes[1..]);
      assert forall c :: c in codes <==> c == codes[0] || c in codes[1..];
    }
  }

  lemma AllTold(v: XVar, par: Par)
    requires SqlType(par).Some?
    ensures Told(v, par, CODES[1..]) == VarOf(par)
  {
    assert CODES[1..] == [11, 12, 13, 14, 16, 17, 18, 19];
    ToldFields(v, par, CODES[1..]);
  }

  lemma {:induction false} DescriptionsCount(par: Par, codes: seq<byte>)
    requires SqlType(par).Some?
    ensures |Descriptions(par, codes)| == |codes| + 1
    decreases |codes|
  {
    if codes != [] {
      DescriptionsCount(par, codes[1..]);
    }
  }

  lemma PlayItem(e: Entry, es: seq<Entry>, marker: byte, f: Filling)
    requires e.Item?
    ensures var t := Taken(f, e.code, e.value);
            Play([e] + es, marker, f) == if t.1 != Done then t else Play(es, marker, t.0)
  {
    assert ([e] + es)[1..] == es;
  }

  lemma DescriptionTaken(par: Par, code: byte, f: Filling)
    requires SqlType(par).Some? && IsItem(code) && code != SQL_SQLDA_SEQ
    requires 1 <= f.at <= |f.vars|
    ensures var e := Description(par, code);
            e == Item(code, e.value)
            && Taken(f, e.code, e.value)
               == (f.(inside := true, vars := f.vars[f.at - 1 := Assigned(f.vars[f.at - 1], code, e.value)]), Done)
  {
  }

  lemma {:induction false} PlayAnswers(par: Par, codes: seq<byte>, more: seq<Entry>, marker: byte, f: Filling)
    requires SqlType(par).Some? && forall c :: c in codes ==> IsItem(c) && c != SQL_SQLDA_SEQ
    requires 1 <= f.at == par.index <= |f.vars|
    ensures Play(Descriptions(par, codes) + more, marker, f)
            == Play(more, marker, Closed(f.(vars := f.vars[f.at - 1 := Told(f.vars[f.at - 1], par, codes)])))
    decreases |codes|
  {
    if codes == [] {
      assert ([Tag(SQL_DESCRIBE_END)] + more)[1..] == more;
      assert f.vars[f.at - 1 := f.vars[f.at - 1]] == f.vars;
    } else {
      var e := Description(par, codes[0]);
      assert codes[0] in codes;
      DescriptionTaken(par, codes[0], f);
      var t := Taken(f, e.code, e.value).0;
      assert Descriptions(par, codes) + more == [e] + (Descriptions(par, codes[1..]) + more);
      PlayItem(e, Descriptions(par, codes[1..]) + more, marker, f);
      hide Play, Description, Taken;
      PlayAnswers(par, codes[1..], more, marker, t);
      assert t.vars[t.at - 1 := Told(t.vars[t.at - 1], par, codes[1..])]
             == f.vars[f.at - 1 := Told(f.vars[f.at - 1], par, codes)];
    }
  }

  /** A reply that is cut within a variable changes that variable alone, and stops at the last complete one. */
  lemma {:induction false} PlayCut(par: Par, codes: seq<byte>, m: nat, f: Filling) returns (v: XVar)
    requires SqlType(par).Some? && forall c :: c in codes ==> IsItem(c) && c != SQL_SQLDA_SEQ
    requires 1 <= f.at == par.index <= |f.vars| && m <= |codes| && f.inside
    ensures m <= |Descriptions(par, codes)|
    ensures Play(Descriptions(par, codes)[..m], INFO_TRUNCATED, f) == (f.(vars := f.vars[f.at - 1 := v]), Stopped(f.last))
    decreases |codes|
  {
    DescriptionsCount(par, codes);
    if m == 0 {
      assert f.vars[f.at - 1 := f.vars[f.at - 1]] == f.vars;
      v := f.vars[f.at - 1];
    } else {
      var e := Description(par, codes[0]);
      assert codes[0] in codes;
      DescriptionTaken(par, codes[0], f);
      var t := Taken(f, e.code, e.value).0;
      assert Descriptions(par, codes)[..m] == [e] + Descriptions(par, codes[1..])[..m - 1];
      PlayItem(e, Descriptions(par, codes[1..])[..m - 1], INFO_TRUNCATED, f);
      hide Play, Description, Taken;
      v := PlayCut(par, codes[1..], m - 1, t);
      assert t.vars[t.at - 1 := v] == f.vars[f.at - 1 := v];
    }
  }

  // ----- the variables in a window

  /** All there is to say of a variable. */
  function Block(d: Par): seq<Entry>
    requires SqlType(d).Some?
  {
    Descriptions(d, CODES)
  }

  /** All there is to say of some variables. */
  function Blocks(ds: seq<Par>): seq<Entry>
    requires forall d :: d in ds ==> SqlType(d).Some?
  {
    if ds == [] then [] else Block(ds[0]) + Blocks(ds[1..])
  }

  /** The bytes a variable takes of a reply. */
  function Size(d: Par): nat {
    48 + |d.field| + |d.relation| + |d.owner| + |d.alias_|
  }

  function Total(es: seq<Entry>): nat
    requires Undescribed !in es
  {
    if es == [] then 0 else |EntryBytes(es[0])| + Total(es[1..])
  }

  lemma {:induction false} FitsOrNot(a: seq<Entry>, b: seq<Entry>, room: nat)
    requires Undescribed !in a && room > 0
    ensures if Total(a) < room then
              Fitting(a + b, room) == |a| + Fitting(b, room - Total(a))
              && (Fill(a + b, room).Some? <==> Fill(b, room - Total(a)).Some?)
            else Fitting(a + b, room) < |a| && Fill(a + b, room).Some?
    decreases |a|
  {
    if a == [] {
      assert a + b == b;
    } else {
      assert a[0] in a;
      assert (a + b)[1..] == a[1..] + b;
      if |EntryBytes(a[0])| < room {
        FitsOrNot(a[1..], b, room - |EntryBytes(a[0])|);
      }
    }
  }

  lemma SizeIs(d: Par)
    requires SqlType(d).Some?
    ensures Undescribed !in Block(d) && Total(Block(d)) == Size(d) && |Block(d)| == 10
  {
    DescriptionsCount(d, CODES);
    hide Double, SqlType, SqlSubType, SqlScale, SqlLength, Descriptions;
    NothingTold(d);
    OneMoreTold(d, 19, []);
    OneMoreTold(d, 18, [19]);
    OneMoreTold(d, 17, [18, 19]);
    OneMoreTold(d, 16, [17, 18, 19]);
    OneMoreTold(d, 14, [16, 17, 18, 19]);
    OneMoreTold(d, 13, [14, 16, 17, 18, 19]);
    OneMoreTold(d, 12, [13, 14, 16, 17, 18, 19]);
    OneMoreTold(d, 11, [12, 13, 14, 16, 17, 18, 19]);
    OneMoreTold(d, 9, [11, 12, 13, 14, 16, 17, 18, 19]);
  }

  lemma NothingTold(d: Par)
    requires SqlType(d).Some?
    ensures Undescribed !in Descriptions(d, []) && Total(Descriptions(d, [])) == 1
  {
  }

  function DescriptionSize(d: Par, code: byte): nat {
    match code
    case 16 => 3 + |d.field|
    case 17 => 3 + |d.relation|
    case 18 => 3 + |d.owner|
    case 19 => 3 + |d.alias_|
    case _ => 7
  }

  lemma OneMoreTold(d: Par, code: byte, codes: seq<byte>)
    requires SqlType(d).Some? && Undescribed !in Descriptions(d, codes) && IsItem(code)
    ensures Undescribed !in Descriptions(d, [code] + codes)
    ensures Total(Descriptions(d, [code] + codes)) == DescriptionSize(d, code) + Total(Descriptions(d, codes))
  {
    assert ([code] + codes)[1..] == codes;
    assert Descriptions(d, [code] + codes)[1..] == Descriptions(d, codes);
  }

  predicate Consecutive(ds: seq<Par>, base: nat) {
    forall i :: 0 <= i < |ds| ==> ds[i].index == base + i + 1 && SqlType(ds[i]).Some?
  }

  lemma ConsecutiveTail(ds: seq<Par>, base: nat)
    requires Consecutive(ds, base) && ds != []
    ensures Consecutive(ds[1..], base + 1) && ds[0].index == base + 1 && SqlType(ds[0]).Some?
    ensures forall d :: d in ds ==> SqlType(d).Some?
  {
  }

  /** How many variables from the first one on are told completely, each leaving a byte for the mark behind it. */
  function Reached(ds: seq<Par>, room: nat): (k: nat)
    ensures k <= |ds|
  {
    if ds == [] || Size(ds[0]) >= room then 0 else 1 + Reached(ds[1..], room - Size(ds[0]))
  }

  /** The first variables are the described ones, and the one behind them alone may be half told. */
  predicate ToldSoFar(before: seq<XVar>, after: seq<XVar>, ds: seq<Par>, base: nat, k: nat)
    requires Consecutive(ds, base) && k <= |ds| && base + |ds| <= |before|
  {
    && |after| == |before|
    && (forall i :: 0 <= i < k ==> after[base + i] == VarOf(ds[i]))
    && (forall j :: 0 <= j < |before| && (j < base || j > base + k || (j == base + k && k == |ds|)) ==> after[j] == before[j])
  }

  /** The client after the first of some variables. */
  function Next(ds: seq<Par>, base: nat, f: Filling): Filling
    requires ds != [] && Consecutive(ds, base) && base < |f.vars| < 0x1_0000
  {
    Filling(base + 1, base + 1, false, f.vars[base := VarOf(ds[0])])
  }

  /** The client after a variable that is told completely. */
  function After(d: Par, f: Filling): Filling
    requires SqlType(d).Some? && 1 <= d.index <= |f.vars| < 0x1_0000
  {
    Filling(d.index, if d.index > f.last then d.index else f.last, false, f.vars[d.index - 1 := VarOf(d)])
  }

  lemma WholeBlock(d: Par, more: seq<Entry>, marker: byte, f: Filling)
    requires SqlType(d).Some? && 1 <= d.index <= |f.vars| < 0x1_0000
    ensures Play(Block(d) + more, marker, f) == Play(more, marker, After(d, f))
  {
    NumberFirst(d, more, marker, f);
    var g := f.(inside := true, at := d.index);
    CodesAreItems();
    hide Play, Told, VarOf;
    PlayAnswers(d, CODES[1..], more, marker, g);
    AllTold(g.vars[g.at - 1], d);
  }

  lemma CodesAreItems()
    ensures forall c :: c in CODES[1..] ==> IsItem(c) && c != SQL_SQLDA_SEQ
  {
    assert CODES[1..] == [11, 12, 13, 14, 16, 17, 18, 19];
  }

  lemma NumberRead(n: nat)
    requires n < 0x1_0000
    ensures LowWord(Double(n)) == n
  {
  }

  lemma NumberFirst(d: Par, more: seq<Entry>, marker: byte, f: Filling)
    requires SqlType(d).Some? && d.index < 0x1_0000
    ensures Play(Descriptions(d, CODES) + more, marker, f)
            == Play(Descriptions(d, CODES[1..]) + more, marker, f.(inside := true, at := d.index))
  {
    NumberRead(d.index);
    hide Double, LowWord;
    var e := Description(d, CODES[0]);
    assert Descriptions(d, CODES) + more == [e] + (Descriptions(d, CODES[1..]) + more);
    PlayItem(e, Descriptions(d, CODES[1..]) + more, marker, f);
  }

  /** What the client makes of the answers that fit. */
  function Played(es: seq<Entry>, room: nat, f: Filling): (Filling, Outcome)
    requires room > 0
  {
    var n := Fitting(es, room);
    Play(es[..n], if n == |es| then INFO_END else INFO_TRUNCATED, f)
  }

  lemma PlayedWhole(b: seq<Entry>, more: seq<Entry>, room: nat, f: Filling)
    requires Undescribed !in b && Total(b) < room
    ensures Fitting(b + more, room) == |b| + Fitting(more, room - Total(b))
    ensures var n := Fitting(more, room - Total(b));
            Played(b + more, room, f) == Play(b + more[..n], if n == |more| then INFO_END else INFO_TRUNCATED, f)
  {
    FitsOrNot(b, more, room);
    var n := Fitting(more, room - Total(b));
    assert (b + more)[..|b| + n] == b + more[..n];
  }

  lemma PlayedCut(b: seq<Entry>, more: seq<Entry>, room: nat, f: Filling)
    requires Undescribed !in b && Total(b) >= room > 0
    ensures Fitting(b + more, room) < |b|
    ensures Played(b + more, room, f) == Play(b[..Fitting(b + more, room)], INFO_TRUNCATED, f)
  {
    FitsOrNot(b, more, room);
    var n := Fitting(b + more, room);
    assert (b + more)[..n] == b[..n];
  }

  /** Done, or stopped behind the variables a window holds. */
  predicate WindowIs(r: (Filling, Outcome), ds: seq<Par>, base: nat, k: nat, f: Filling)
    requires Consecutive(ds, base) && k <= |ds| && base + |ds| <= |f.vars| < 0x1_0000
  {
    && r.1 == (if k == |ds| then Done else Stopped(if k == 0 then f.last else base + k))
    && ToldSoFar(f.vars, r.0.vars, ds, base, k)
  }

  /** What the client makes of the variables in a window. */
  lemma {:induction false} WindowPlays(ds: seq<Par>, base: nat, room: nat, f: Filling)
    requires Consecutive(ds, base) && !f.inside && f.last <= base && base + |ds| <= |f.vars| < 0x1_0000 && room > 0
    requires forall d :: d in ds ==> SqlType(d).Some?
    ensures WindowIs(Played(Blocks(ds), room, f), ds, base, Reached(ds, room), f)
    decreases |ds|
  {
    hide Play, Block, Blocks, Played, WindowIs, ToldSoFar, Size, VarOf, SqlType, Fitting, Reached, Descriptions;
    if ds == [] {
      WindowEmpty(base, room, f);
    } else if Size(ds[0]) < room {
      ConsecutiveTail(ds, base);
      WindowPlays(ds[1..], base + 1, room - Size(ds[0]), Next(ds, base, f));
      WindowGrows(ds, base, room, f);
    } else {
      WindowCut(ds, base, room, f);
    }
  }

  lemma WindowEmpty(base: nat, room: nat, f: Filling)
    requires !f.inside && base <= |f.vars| < 0x1_0000 && room > 0
    ensures WindowIs(Played(Blocks([]), room, f), [], base, Reached([], room), f)
  {
    var es := Blocks([]);
    assert es == [] && Fitting(es, room) == 0 && es[..0] == [];
  }

  lemma WindowCut(ds: seq<Par>, base: nat, room: nat, f: Filling)
    requires ds != [] && Consecutive(ds, base) && !f.inside && f.last <= base
    requires base + |ds| <= |f.vars| < 0x1_0000 && Size(ds[0]) >= room > 0 && forall d :: d in ds ==> SqlType(d).Some?
    ensures WindowIs(Played(Blocks(ds), room, f), ds, base, Reached(ds, room), f)
  {
    SizeIs(ds[0]);
    hide Play, Block, ToldSoFar, Size, Fitting, VarOf, Consecutive, SqlType;
    PlayedCut(Block(ds[0]), Blocks(ds[1..]), room, f);
    CutBlock(ds, base, Fitting(Blocks(ds), room), f);
  }

  lemma WindowGrows(ds: seq<Par>, base: nat, room: nat, f: Filling)
    requires ds != [] && Consecutive(ds, base) && Consecutive(ds[1..], base + 1) && !f.inside && f.last <= base
    requires base + |ds| <= |f.vars| < 0x1_0000 && Size(ds[0]) < room && forall d :: d in ds ==> SqlType(d).Some?
    requires WindowIs(Played(Blocks(ds[1..]), room - Size(ds[0]), Next(ds, base, f)), ds[1..], base + 1,
                      Reached(ds[1..], room - Size(ds[0])), Next(ds, base, f))
    ensures WindowIs(Played(Blocks(ds), room, f), ds, base, Reached(ds, room), f)
  {
    hide Play, Block, Blocks, ToldSoFar, Size, Fitting, VarOf, Consecutive, SqlType, Played, Descriptions;
    ConsecutiveTail(ds, base);
    FirstFits(ds, room, f);
    assert After(ds[0], f) == Next(ds, base, f);
    var left := room - Size(ds[0]);
    var after := Played(Blocks(ds[1..]), left, Next(ds, base, f)).0.vars;
    ToldMore(f.vars, after, ds, base, Reached(ds[1..], left));
  }

  lemma {:induction false} FirstFits(ds: seq<Par>, room: nat, f: Filling)
    requires ds != [] && Size(ds[0]) < room && |f.vars| < 0x1_0000
    requires (forall d :: d in ds ==> SqlType(d).Some?) && 1 <= ds[0].index <= |f.vars|
    ensures Played(Blocks(ds), room, f) == Played(Blocks(ds[1..]), room - Size(ds[0]), After(ds[0], f))
  {
    var d, left := ds[0], room - Size(ds[0]);
    var more := Blocks(ds[1..]);
    SizeIs(d);
    hide Play, Block, Size, Fitting, VarOf, SqlType;
    PlayedWhole(Block(d), more, room, f);
    var n := Fitting(more, left);
    WholeBlock(d, more[..n], if n == |more| then INFO_END else INFO_TRUNCATED, f);
  }

  lemma ToldMore(before: seq<XVar>, after: seq<XVar>, ds: seq<Par>, base: nat, k: nat)
    requires ds != [] && Consecutive(ds, base) && Consecutive(ds[1..], base + 1) && k <= |ds| - 1
    requires base + |ds| <= |before|
    requires ToldSoFar(before[base := VarOf(ds[0])], after, ds[1..], base + 1, k)
    ensures ToldSoFar(before, after, ds, base, k + 1)
  {
    hide VarOf;
    forall i | 0 <= i < k + 1
      ensures after[base + i] == VarOf(ds[i])
    {
      if i > 0 {
        assert after[base + 1 + (i - 1)] == VarOf(ds[1..][i - 1]);
      }
    }
  }

  lemma CutBlock(ds: seq<Par>, base: nat, n: nat, f: Filling)
    requires ds != [] && Consecutive(ds, base) && !f.inside && base + |ds| <= |f.vars| < 0x1_0000
    requires n < |Block(ds[0])|
    ensures WindowIs(Play(Block(ds[0])[..n], INFO_TRUNCATED, f), ds, base, 0, f)
  {
    var d := ds[0];
    DescriptionsCount(d, CODES);
    DescriptionsCount(d, CODES[1..]);
    if n > 0 {
      NumberRead(d.index);
      hide Double, LowWord;
      var e := Description(d, CODES[0]);
      assert Descriptions(d, CODES)[..n] == [e] + Descriptions(d, CODES[1..])[..n - 1];
      PlayItem(e, Descriptions(d, CODES[1..])[..n - 1], INFO_TRUNCATED, f);
      CodesAreItems();
      var v := PlayCut(d, CODES[1..], n - 1, f.(inside := true, at := d.index));
    }
  }

  // ----- one question and its reply

  /** An area: how many variables there are, those it has room for, and how it was filled last. */
  datatype Area = Area(sqld: int, vars: seq<XVar>, outcome: Outcome)

  /** What the bytes of a reply make of an area; one too small is told the number and no more. */
  function ParseReply(s: seq<byte>, area: Area): Area {
    var n := if |s| < 2 then None else ValueLength(s[2..]);
    if n.None? then area.(outcome := Wild)
    else
      var sqld := AsShort(s[4..4 + n.value]);
      if sqld > |area.vars| then Area(sqld, area.vars, Done)
      else
        var (f, o) := Parse(s[4 + n.value..], Filling(0, 0, false, area.vars));
        Area(sqld, f.vars, o)
  }

  function MessageOf(known: Known, tag: byte): Option<Message> {
    if tag == SQL_SELECT then known.receive else known.send
  }

  predicate IsTag(tag: byte) {
    tag == SQL_SELECT || tag == SQL_BIND
  }

  function Answers(known: Known, tag: byte, first: nat): seq<Entry> {
    var m := MessageOf(known, tag);
    [Tag(tag)] + ([Number(SQL_DESCRIBE_VARS, MessageIndex(m))] + MessageVariables(m, CODES, first))
  }

  lemma {:induction false} CodesEnd(codes: seq<byte>)
    requires INFO_END !in codes && SQL_DESCRIBE_END !in codes
    ensures DescribeCodes(codes + [SQL_DESCRIBE_END]) == |codes|
    decreases |codes|
  {
    if codes != [] {
      assert (codes + [SQL_DESCRIBE_END])[1..] == codes[1..] + [SQL_DESCRIBE_END];
      CodesEnd(codes[1..]);
    }
  }

  /** A request is complete, and is answered by the message's number of variables and the variables. */
  lemma RequestAnswered(known: Known, tag: byte, first: nat)
    requires IsTag(tag) && first < 0x1_0000
    ensures Whole(Request(tag, first), false) && Wanted(known, Request(tag, first), None, 0) == Answers(known, tag, first)
  {
    TaggedAnswered(known, tag, first);
    var rest := [tag, 7] + CODES + [8];
    if first > 0 {
      StartRead(first);
      assert Request(tag, first) == [20, 2] + Word(first) + rest;
      AfterStart(known, Word(first), rest);
    } else {
      assert Request(tag, first) == rest;
    }
  }

  lemma AfterStart(known: Known, start: seq<byte>, rest: seq<byte>)
    requires |start| == 2 && Whole(rest, false)
    ensures var s := [20, 2] + start + rest;
            Whole(s, false) && Wanted(known, s, None, 0) == Wanted(known, rest, None, LowWord(start))
  {
    var s := [20, 2] + start + rest;
    assert s[1..][0] == 2 && s[1..][3..] == rest && s[1..][1..3] == start;
    hide LowWord, MessageVariables;
  }

  lemma StartRead(n: nat)
    requires n < 0x1_0000
    ensures LowWord(Word(n)) == n
  {
  }

  lemma TaggedAnswered(known: Known, tag: byte, first: nat)
    requires IsTag(tag)
    ensures var s := [tag, 7] + CODES + [8];
            Whole(s, false) && Wanted(known, s, None, first) == Answers(known, tag, first)
  {
    var rest := CODES + [SQL_DESCRIBE_END];
    CodesEnd(CODES);
    DescribedToEnd(known, Some(MessageOf(known, tag)), CODES, first);
    assert [tag, 7] + CODES + [8] == [tag] + ([7] + rest);
    assert ([tag] + ([7] + rest))[1..] == [7] + rest;
    hide MessageVariables, DescribeCodes, AfterDescribe;
  }

  lemma DescribedToEnd(known: Known, chosen: Option<Option<Message>>, codes: seq<byte>, first: nat)
    requires DescribeCodes(codes + [SQL_DESCRIBE_END]) == |codes| && chosen.Some?
    ensures var s := [SQL_DESCRIBE_VARS] + (codes + [SQL_DESCRIBE_END]);
            Whole(s, true)
            && Wanted(known, s, chosen, first)
               == [Number(SQL_DESCRIBE_VARS, MessageIndex(chosen.value))] + MessageVariables(chosen.value, codes, first)
  {
    var rest := codes + [SQL_DESCRIBE_END];
    assert ([SQL_DESCRIBE_VARS] + rest)[1..] == rest;
    assert rest[..|codes|] == codes && rest[|codes| + 1..] == [];
    hide MessageVariables, DescribeCodes, Number;
    assert Wanted(known, [], chosen, first) == [];
  }

  // ----- which variables those are

  /** The parameters that are a client's variables; the others are indicators. */
  function Declared(pars: seq<Par>): seq<Par> {
    if pars == [] then []
    else (if pars[0].index == 0 then [] else [pars[0]]) + Declared(pars[1..])
  }

  lemma {:induction false} VariablesDeclared(pars: seq<Par>, codes: seq<byte>, first: nat)
    ensures Variables(pars, codes, first) == Variables(Declared(pars), codes, first)
    decreases |pars|
  {
    if pars != [] {
      hide Descriptions;
      VariablesDeclared(pars[1..], codes, first);
      if pars[0].index != 0 {
        assert Declared(pars) == [pars[0]] + Declared(pars[1..]);
        assert Declared(pars)[1..] == Declared(pars[1..]);
      } else {
        assert Declared(pars) == Declared(pars[1..]);
      }
    }
  }

  lemma {:induction false} VariablesFrom(ds: seq<Par>, base: nat, first: nat)
    requires Consecutive(ds, base) && first <= base + |ds|
    requires forall d :: d in ds ==> SqlType(d).Some?
    ensures Variables(ds, CODES, first) == Blocks(if first <= base + 1 then ds else ds[first - 1 - base..])
    decreases |ds|
  {
    if ds != [] {
      hide Descriptions;
      ConsecutiveTail(ds, base);
      if first > base + 1 {
        VariablesFrom(ds[1..], base + 1, first);
        assert ds[1..][first - 2 - base..] == ds[first - 1 - base..];
      } else if |ds| == 1 {
        assert ds[1..] == [];
      } else {
        VariablesFrom(ds[1..], base + 1, first);
      }
    }
  }

  function VariablesOf(m: Option<Message>): seq<Par> {
    if m.None? then [] else Declared(m.value.ordered)
  }

  /** What the widths of a parameter's fields hold. */
  predicate Held(d: Par) {
    && 0 <= d.length < 0x1_0000 && (d.dtype == VaryingT ==> 2 <= d.length)
    && -0x80 <= d.scale < 0x80 && -0x8000 <= d.subType < 0x8000
    && |d.field| < 0x8000 && |d.relation| < 0x8000 && |d.owner| < 0x8000 && |d.alias_| < 0x8000
  }

  /** A message whose variables are numbered in its order, and are of types a client knows. */
  predicate Regular(m: Option<Message>) {
    var ds := VariablesOf(m);
    && Consecutive(ds, 0) && |ds| == MessageIndex(m) < 0x8000
    && forall d :: d in ds ==> SqlType(d).Some? && Held(d)
  }

  /** What one question and its reply make of an area. */
  function Ask(known: Known, tag: byte, first: nat, room: nat, area: Area): Area
    requires IsTag(tag) && first < 0x1_0000 && room > 0
  {
    var reply := Fill(Answers(known, tag, first), room);
    if reply.None? then area.(outcome := ServerError) else ParseReply(reply.value, area)
  }

  /** The variables a question is answered with. */
  function Window(ds: seq<Par>, first: nat): seq<Par>
    requires first <= |ds|
  {
    if first <= 1 then ds else ds[first - 1..]
  }

  function Base(first: nat): nat {
    if first == 0 then 0 else first - 1
  }

  lemma WindowConsecutive(ds: seq<Par>, first: nat)
    requires Consecutive(ds, 0) && first <= |ds|
    ensures Consecutive(Window(ds, first), Base(first)) && Base(first) + |Window(ds, first)| == |ds|
    ensures forall d :: d in Window(ds, first) ==> d in ds
  {
  }

  lemma AnswersAre(known: Known, tag: byte, first: nat)
    requires IsTag(tag) && Regular(MessageOf(known, tag)) && first <= |VariablesOf(MessageOf(known, tag))|
    ensures var m := MessageOf(known, tag);
            && (forall d :: d in Window(VariablesOf(m), first) ==> SqlType(d).Some?)
            && Answers(known, tag, first)
               == [Tag(tag)] + ([Number(SQL_DESCRIBE_VARS, |VariablesOf(m)|)] + Blocks(Window(VariablesOf(m), first)))
  {
    var m := MessageOf(known, tag);
    var ds := VariablesOf(m);
    WindowConsecutive(ds, first);
    hide Block, Number, Declared, SqlType, Held;
    if m.Some? {
      VariablesDeclared(m.value.ordered, CODES, first);
      VariablesFrom(ds, 0, first);
    }
  }

  function Header(tag: byte, number: nat): (s: seq<byte>)
    ensures |s| == 8
  {
    [tag, 7, 4, 0] + Double(number)
  }

  function Numbered(number: int, r: (Filling, Outcome)): Area {
    Area(number, r.0.vars, r.1)
  }

  lemma HeaderParsed(tag: byte, number: nat, tail: seq<byte>, area: Area)
    requires number < 0x8000
    ensures ParseReply(Header(tag, number) + tail, area)
            == if number > |area.vars| then Area(number, area.vars, Done)
               else Numbered(number, Parse(tail, Filling(0, 0, false, area.vars)))
  {
    var s := Header(tag, number) + tail;
    assert s[2..][0] == 4 && s[2..][1] == 0;
    assert s[4..8] == Double(number) && s[8..] == tail;
    NumberShort(number);
    hide Double, AsShort, Parse, Header;
  }

  /** The two answers in front of the variables take eight bytes. */
  lemma HeaderFilled(tag: byte, number: nat, es: seq<Entry>, room: nat)
    requires room > 8 && Fill(es, room - 8).Some?
    ensures Fill([Tag(tag)] + ([Number(SQL_DESCRIBE_VARS, number)] + es), room)
            == Some(Header(tag, number) + Fill(es, room - 8).value)
  {
    var e := Number(SQL_DESCRIBE_VARS, number);
    assert ([Tag(tag)] + ([e] + es))[1..] == [e] + es && ([e] + es)[1..] == es;
    var more := Fill(es, room - 8).value;
    assert EntryBytes(e) == [SQL_DESCRIBE_VARS, 4, 0] + Double(number);
    hide Double;
    assert Fill([e] + es, room - 1) == Some(EntryBytes(e) + more);
    assert [tag] + (EntryBytes(e) + more) == Header(tag, number) + more;
  }

  lemma NumberShort(n: int)
    requires -0x8000 <= n < 0x8000
    ensures AsShort(Double(n)) == n
  {
  }

  lemma {:induction false} BlocksValid(ds: seq<Par>)
    requires forall d :: d in ds ==> SqlType(d).Some? && Held(d)
    ensures ValidEntries(Blocks(ds)) && Moderate(Blocks(ds)) && Undescribed !in Blocks(ds)
    decreases |ds|
  {
    if ds != [] {
      assert ds[0] in ds;
      hide Description, Held, SqlType;
      BlocksValid(ds[1..]);
      BlockValid(ds[0], CODES);
    }
  }

  lemma {:induction false} BlockValid(d: Par, codes: seq<byte>)
    requires SqlType(d).Some? && Held(d) && INFO_END !in codes && SQL_DESCRIBE_END !in codes
    ensures ValidEntries(Descriptions(d, codes)) && Moderate(Descriptions(d, codes)) && Undescribed !in Descriptions(d, codes)
    decreases |codes|
  {
    DescriptionsValid(d, codes);
    if codes != [] {
      BlockValid(d, codes[1..]);
    }
  }

  lemma {:induction false} AllDescribed(es: seq<Entry>, room: nat)
    requires Undescribed !in es && room > 0
    ensures Fill(es, room).Some?
    decreases |es|
  {
    if es != [] && |EntryBytes(es[0])| < room {
      AllDescribed(es[1..], room - |EntryBytes(es[0])|);
    }
  }

  /** The client plays what it is told of the variables, whatever stands behind the reply. */
  lemma BlocksParsed(ds: seq<Par>, room: nat, f: Filling, rest: seq<byte>)
    requires room > 0 && forall d :: d in ds ==> SqlType(d).Some? && Held(d)
    ensures Fill(Blocks(ds), room).Some? && Parse(Fill(Blocks(ds), room).value + rest, f) == Played(Blocks(ds), room, f)
  {
    BlocksValid(ds);
    var es := Blocks(ds);
    AllDescribed(es, room);
    ReplyIsWellFormed(es, room);
    var n := Fitting(es, room);
    assert Moderate(es[..n]);
    hide Parse, Play, Read, Fill, Fitting, Blocks, ValidEntries, Moderate;
    ParseIsPlay(Fill(es, room).value, f, rest);
  }

  /** A question and its reply, whatever stands in the buffer behind it. */
  lemma AskIs(known: Known, tag: byte, first: nat, room: nat, area: Area, rest: seq<byte>)
    requires IsTag(tag) && room > 8 && Regular(MessageOf(known, tag)) && first <= |VariablesOf(MessageOf(known, tag))|
    requires |area.vars| < 0x8000
    ensures var ds := VariablesOf(MessageOf(known, tag));
            var w, f := Window(ds, first), Filling(0, 0, false, area.vars);
            && Consecutive(w, Base(first))
            && Fill(Answers(known, tag, first), room).Some?
            && ParseReply(Fill(Answers(known, tag, first), room).value + rest, area) == Ask(known, tag, first, room, area)
            && var a := Ask(known, tag, first, room, area);
               && a.sqld == |ds|
               && if |ds| > |area.vars| then a == Area(|ds|, area.vars, Done)
                  else WindowIs((f.(vars := a.vars), a.outcome), w, Base(first), Reached(w, room - 8), f)
  {
    var ds := VariablesOf(MessageOf(known, tag));
    var w, f := Window(ds, first), Filling(0, 0, false, area.vars);
    WindowConsecutive(ds, first);
    AnswersAre(known, tag, first);
    hide Blocks, Declared, Parse, Play, Fill, Number, Header, SqlType, Held, Answers, ParseReply, Reached, Consecutive;
    var reply := Ready(w, |ds|, tag, room, area, []);
    var same := Ready(w, |ds|, tag, room, area, rest);
    assert reply + [] == reply;
    if |ds| <= |area.vars| {
      WindowPlays(w, Base(first), room - 8, f);
      hide Played, ToldSoFar;
    }
  }

  lemma Ready(w: seq<Par>, number: nat, tag: byte, room: nat, area: Area, rest: seq<byte>) returns (reply: seq<byte>)
    requires room > 8 && number < 0x8000 && forall d :: d in w ==> SqlType(d).Some? && Held(d)
    ensures Fill([Tag(tag)] + ([Number(SQL_DESCRIBE_VARS, number)] + Blocks(w)), room) == Some(reply)
    ensures ParseReply(reply + rest, area)
            == if number > |area.vars| then Area(number, area.vars, Done)
               else Numbered(number, Played(Blocks(w), room - 8, Filling(0, 0, false, area.vars)))
  {
    hide Parse, Play, Fill, Number, Header, SqlType, Held, ParseReply, Blocks, Played;
    BlocksParsed(w, room - 8, Filling(0, 0, false, area.vars), rest);
    HeaderFilled(tag, number, Blocks(w), room);
    var more := Fill(Blocks(w), room - 8).value;
    HeaderParsed(tag, number, more + rest, area);
    reply := Header(tag, number) + more;
    Assoc(Header(tag, number), more, rest);
  }

  // ----- asking until all are told

  /** The further questions, at most so many, each from the last complete variable on. */
  function Iterate(known: Known, tag: byte, room: nat, area: Area, turns: nat): Area
    requires IsTag(tag) && room > 0
    decreases turns
  {
    if !area.outcome.Stopped? || area.outcome.index == 0 || turns == 0 then area
    else Iterate(known, tag, room, Ask(known, tag, area.outcome.index, room, area), turns - 1)
  }

  /** A variable and the next one fit into one reply, with its header and the mark behind them. */
  predicate Neighbours(ds: seq<Par>, i: nat, room: nat)
    requires i + 1 < |ds|
  {
    9 + Size(ds[i]) + Size(ds[i + 1]) <= room
  }

  predicate PairsFit(ds: seq<Par>, k: nat, room: nat)
    requires k <= |ds|
  {
    forall i :: 0 <= i < k - 1 ==> Neighbours(ds, i, room)
  }

  lemma PairsFitMore(ds: seq<Par>, k: nat, room: nat, less: nat)
    requires k < |ds| && less <= room && PairsFit(ds[1..], k, less) && (k > 0 ==> Neighbours(ds, 0, room))
    ensures PairsFit(ds, k + 1, room)
  {
    forall i | 0 <= i < k
      ensures Neighbours(ds, i, room)
    {
      if i > 0 {
        assert Neighbours(ds[1..], i - 1, less);
      }
    }
  }

  /** How many variables come before the first that does not fit into a reply behind the one before it. */
  function Fluent(ds: seq<Par>, room: nat): (p: nat)
    ensures p <= |ds|
    ensures p > 0 ==> 9 + Size(ds[0]) <= room
    ensures PairsFit(ds, p, room)
    ensures p < |ds| ==> 9 + Size(ds[p]) + (if p == 0 then 0 else Size(ds[p - 1])) > room
  {
    if ds == [] || 9 + Size(ds[0]) > room then 0
    else if |ds| == 1 || 9 + Size(ds[0]) + Size(ds[1]) > room then 1
    else
      var p := Fluent(ds[1..], room);
      PairsFitMore(ds, p, room, room);
      1 + p
  }

  lemma ReachedIs(ds: seq<Par>, room: nat)
    requires room > 8
    ensures var k := Reached(ds, room - 8);
            && (k > 0 <==> ds != [] && 9 + Size(ds[0]) <= room)
            && (k > 1 <==> |ds| > 1 && 9 + Size(ds[0]) + Size(ds[1]) <= room)
            && PairsFit(ds, k, room)
  {
    ReachedPairs(ds, room - 8);
  }

  lemma {:induction false} ReachedPairs(ds: seq<Par>, room: nat)
    ensures PairsFit(ds, Reached(ds, room), room + 8)
    decreases |ds|
  {
    if ds != [] && Size(ds[0]) < room {
      hide PairsFit;
      var less := room - Size(ds[0]);
      ReachedPairs(ds[1..], less);
      PairsFitMore(ds, Reached(ds[1..], less), room + 8, less + 8);
    } else {
      hide Size;
    }
  }

  /** A window never goes over the first variable that does not fit, and short of it takes in one more. */
  lemma WindowReaches(ds: seq<Par>, first: nat, room: nat)
    requires 1 <= first <= Fluent(ds, room) && room > 8
    ensures var p, reached := Fluent(ds, room), first - 1 + Reached(ds[first - 1..], room - 8);
            first <= reached <= p && (first < p ==> first < reached)
  {
    var w, p := ds[first - 1..], Fluent(ds, room);
    var k := Reached(w, room - 8);
    ReachedIs(w, room);
    hide Size, Reached, Fluent;
    assert w[0] == ds[first - 1];
    if first > 1 {
      assert Neighbours(ds, first - 2, room);
    }
    if first < p {
      assert Neighbours(ds, first - 1, room) && w[1] == ds[first];
    }
    forall i | first - 1 <= i < first + k - 2
      ensures Neighbours(ds, i, room)
    {
      assert Neighbours(w, i - first + 1, room);
    }
    assert p < |ds| ==> !Neighbours(ds, p - 1, room);
  }

  /** The first question reaches as far as a window from the first variable on. */
  lemma FirstReaches(ds: seq<Par>, room: nat)
    requires room > 8
    ensures var p, reached := Fluent(ds, room), Reached(ds, room - 8);
            reached <= p && (0 < p ==> 0 < reached)
  {
    if Fluent(ds, room) > 0 {
      assert ds[0..] == ds;
      WindowReaches(ds, 1, room);
    } else {
      ReachedIs(ds, room);
    }
  }

  predicate Describable(ds: seq<Par>) {
    forall d :: d in ds ==> SqlType(d).Some?
  }

  /** The first variables are told, and those the message does not have are as they were. */
  predicate Have(before: seq<XVar>, after: seq<XVar>, ds: seq<Par>, k: nat)
    requires k <= |ds| <= |before| && Describable(ds)
  {
    && |after| == |before|
    && (forall i :: 0 <= i < k ==> after[i] == VarOf(ds[i]))
    && after[|ds|..] == before[|ds|..]
  }

  /** A window adds to what is told. */
  lemma HaveMore(before: seq<XVar>, middle: seq<XVar>, after: seq<XVar>, ds: seq<Par>, first: nat, k: nat)
    requires first <= |ds| <= |before| && Describable(ds)
    requires Consecutive(Window(ds, first), Base(first)) && k <= |Window(ds, first)| && (first > 0 ==> k > 0)
    requires Have(before, middle, ds, first) && ToldSoFar(middle, after, Window(ds, first), Base(first), k)
    ensures Have(before, after, ds, Base(first) + k)
  {
    hide VarOf, SqlType, Consecutive;
    var w, b := Window(ds, first), Base(first);
    forall i | 0 <= i < b + k
      ensures after[i] == VarOf(ds[i])
    {
      if i >= b {
        assert after[b + (i - b)] == VarOf(w[i - b]) && w[i - b] == ds[i];
      }
    }
    forall j | |ds| <= j < |after|
      ensures after[j] == before[j]
    {
      assert middle[|ds|..][j - |ds|] == before[|ds|..][j - |ds|];
    }
  }

  /** An area that is complete, or stopped behind a variable. */
  predicate Coming(ds: seq<Par>, before: seq<XVar>, area: Area, k: nat)
    requires k <= |ds| <= |before| < 0x8000 && Describable(ds)
  {
    && area.sqld == |ds| && Have(before, area.vars, ds, k)
    && area.outcome == (if k == |ds| then Done else Stopped(k))
  }

  /** What is asked for. */
  predicate Asked(known: Known, tag: byte, ds: seq<Par>) {
    && IsTag(tag) && Regular(MessageOf(known, tag)) && ds == VariablesOf(MessageOf(known, tag))
    && Describable(ds)
  }

  /** A question from a complete variable on leaves those before it as they are. */
  lemma AskComing(known: Known, tag: byte, ds: seq<Par>, first: nat, room: nat, before: seq<XVar>, area: Area)
    requires Asked(known, tag, ds) && room > 8 && first <= |ds| <= |before| < 0x8000
    requires Have(before, area.vars, ds, first) && (first > 0 ==> Reached(Window(ds, first), room - 8) > 0)
    ensures Base(first) + Reached(Window(ds, first), room - 8) <= |ds|
    ensures Coming(ds, before, Ask(known, tag, first, room, area), Base(first) + Reached(Window(ds, first), room - 8))
  {
    hide Ask, Reached, ParseReply, Answers, Fill, VarOf, Size, Held, SqlType, Declared, VariablesOf, Consecutive, ToldSoFar;
    assert |area.vars| == |before|;
    AskIs(known, tag, first, room, area, []);
    HaveMore(before, area.vars, Ask(known, tag, first, room, area).vars, ds, first, Reached(Window(ds, first), room - 8));
  }

  lemma OneTurn(known: Known, tag: byte, ds: seq<Par>, room: nat, before: seq<XVar>, area: Area, k: nat) returns (next: nat)
    requires Describable(ds) && Asked(known, tag, ds) && room > 8 && 0 < k < |ds| <= |before| < 0x8000
    requires k <= Fluent(ds, room) && Coming(ds, before, area, k)
    ensures k <= next <= Fluent(ds, room) && (k < Fluent(ds, room) ==> k < next)
    ensures Coming(ds, before, Ask(known, tag, k, room, area), next)
  {
    hide *;
    next := k - 1 + Reached(Window(ds, k), room - 8);
    WindowFrom(ds, k);
    WindowReaches(ds, k, room);
    ComingHave(ds, before, area, k);
    AskComing(known, tag, ds, k, room, before, area);
  }

  lemma WindowFrom(ds: seq<Par>, k: nat)
    requires 0 < k <= |ds|
    ensures Window(ds, k) == ds[k - 1..] && Base(k) == k - 1
  {
  }

  lemma ComingHave(ds: seq<Par>, before: seq<XVar>, area: Area, k: nat)
    requires k <= |ds| <= |before| < 0x8000 && Describable(ds) && Coming(ds, before, area, k)
    ensures Have(before, area.vars, ds, k)
  {
  }

  lemma IterateStops(known: Known, tag: byte, ds: seq<Par>, room: nat, before: seq<XVar>, area: Area, k: nat, turns: nat)
    requires Asked(known, tag, ds) && room > 0 && k <= |ds| <= |before| < 0x8000 && Coming(ds, before, area, k)
    ensures Iterate(known, tag, room, area, turns)
            == if 0 < k < |ds| && turns > 0 then Iterate(known, tag, room, Ask(known, tag, k, room, area), turns - 1) else area
  {
    hide Ask, Have, Asked;
  }

  /** Each further question tells more until the first variable that does not fit behind the one before it. */
  lemma {:induction false} IterateComing(known: Known, tag: byte, ds: seq<Par>, room: nat, before: seq<XVar>, area: Area,
                                         k: nat, turns: nat)
    requires Describable(ds) && Asked(known, tag, ds) && room > 8 && |ds| <= |before| < 0x8000
    requires k <= Fluent(ds, room) <= turns + k && (k == 0 ==> Fluent(ds, room) == 0)
    requires Coming(ds, before, area, k)
    ensures Coming(ds, before, Iterate(known, tag, room, area, turns), Fluent(ds, room))
    decreases turns
  {
    hide *;
    WhatIsAsked(known, tag, ds);
    IterateStops(known, tag, ds, room, before, area, k, turns);
    if 0 < k < |ds| && turns > 0 {
      var next := OneTurn(known, tag, ds, room, before, area, k);
      IterateComing(known, tag, ds, room, before, Ask(known, tag, k, room, area), next, turns - 1);
    }
  }

  /** Describing: the first question, and at most so many further ones. */
  function Described(known: Known, tag: byte, room: nat, area: Area, turns: nat): Area
    requires IsTag(tag) && room > 0
  {
    Iterate(known, tag, room, Ask(known, tag, 0, room, area), turns)
  }

  /** Every two neighbours fit into a reply, as does a variable that has none. */
  predicate NeighboursFit(ds: seq<Par>, room: nat) {
    (ds != [] ==> 9 + Size(ds[0]) <= room) && PairsFit(ds, |ds|, room)
  }

  lemma FluentIff(ds: seq<Par>, room: nat)
    ensures NeighboursFit(ds, room) <==> Fluent(ds, room) == |ds|
  {
    var p := Fluent(ds, room);
    hide Size, Fluent;
    assert 0 < p < |ds| ==> !Neighbours(ds, p - 1, room);
  }

  /**
   A client is told all of a statement's variables iff every two neighbours fit into one
   reply; if not, it asks the same question for ever, or has an error at once when the first
   variable alone is too large.
   */
  lemma DescribedIff(known: Known, tag: byte, ds: seq<Par>, room: nat, area: Area, turns: nat)
    requires Asked(known, tag, ds) && room > 8 && |ds| <= |area.vars| < 0x8000 && turns >= |ds|
    ensures var a, p := Described(known, tag, room, area, turns), Fluent(ds, room);
            && (NeighboursFit(ds, room) <==> p == |ds|)
            && a.sqld == |ds| && a.outcome == (if NeighboursFit(ds, room) then Done else Stopped(p))
            && Have(area.vars, a.vars, ds, p)
  {
    FirstReaches(ds, room);
    FluentIff(ds, room);
    NothingYet(area.vars, ds);
    FirstAsked(known, tag, ds, room, area);
    var a, k := Ask(known, tag, 0, room, area), Reached(ds, room - 8);
    hide Reached, Ask, Iterate, Fluent, Have, NeighboursFit, Asked, Describable;
    IterateComing(known, tag, ds, room, area.vars, a, k, turns);
  }

  lemma FirstAsked(known: Known, tag: byte, ds: seq<Par>, room: nat, area: Area)
    requires Asked(known, tag, ds) && room > 8 && |ds| <= |area.vars| < 0x8000
    ensures Coming(ds, area.vars, Ask(known, tag, 0, room, area), Reached(ds, room - 8))
  {
    assert Window(ds, 0) == ds;
    NothingYet(area.vars, ds);
    hide Reached, Ask, Have, Asked, Describable, Coming;
    AskComing(known, tag, ds, 0, room, area.vars, area);
  }

  lemma NothingYet(vars: seq<XVar>, ds: seq<Par>)
    requires |ds| <= |vars| && Describable(ds)
    ensures Have(vars, vars, ds, 0)
  {
  }

  /** The room a client gives a reply: so much for each variable of its area, up to a limit. */
  function BufferLength(variables: nat): nat {
    if 32 + 172 * variables > 65500 then 65500 else 32 + 172 * variables
  }

  predicate ShortNames(d: Par) {
    |d.field| <= 31 && |d.relation| <= 31 && |d.owner| <= 31 && |d.alias_| <= 31
  }

  /** With the room a client gives and names of the length the engine allows, every variable is told. */
  lemma AllDescribedToClient(known: Known, tag: byte, ds: seq<Par>, area: Area, turns: nat)
    requires Asked(known, tag, ds) && |ds| <= |area.vars| < 0x8000 && turns >= |ds|
    requires forall d :: d in ds ==> ShortNames(d)
    ensures var a := Described(known, tag, BufferLength(|area.vars|), area, turns);
            a.sqld == |ds| && a.outcome == Done && Have(area.vars, a.vars, ds, |ds|)
  {
    var room := BufferLength(|area.vars|);
    DescribedIff(known, tag, ds, room, area, turns);
    hide Described, Have, Asked, Describable;
    assert forall i :: 0 <= i < |ds| ==> ShortNames(ds[i]) && Size(ds[i]) <= 172;
  }

  /** An area too small for the variables is told their number and left as it is. */
  lemma SmallArea(known: Known, tag: byte, ds: seq<Par>, room: nat, area: Area, turns: nat)
    requires Asked(known, tag, ds) && room > 8 && |area.vars| < |ds|
    ensures Described(known, tag, room, area, turns) == Area(|ds|, area.vars, Done)
  {
    hide Ask, Asked, Declared, Consecutive, WindowIs, Played, ParseReply, Fill, Answers, Size, VarOf;
    assert IsTag(tag) && Regular(MessageOf(known, tag)) && ds == VariablesOf(MessageOf(known, tag)) by {
      WhatIsAsked(known, tag, ds);
    }
    AskIs(known, tag, 0, room, area, []);
  }

  lemma WhatIsAsked(known: Known, tag: byte, ds: seq<Par>)
    requires Asked(known, tag, ds)
    ensures IsTag(tag) && Regular(MessageOf(known, tag)) && ds == VariablesOf(MessageOf(known, tag))
  {
  }

  // ----- variables that are not numbered in their order

  /** A message whose variables have numbers of their own, in whatever order. */
  predicate Numbering(m: Option<Message>) {
    var ds := VariablesOf(m);
    && MessageIndex(m) < 0x8000
    && (forall i, j :: 0 <= i < j < |ds| ==> ds[i].index != ds[j].index)
    && forall d :: d in ds ==> 1 <= d.index <= MessageIndex(m) && SqlType(d).Some? && Held(d)
  }

  function Sizes(ds: seq<Par>): nat {
    if ds == [] then 0 else Size(ds[0]) + Sizes(ds[1..])
  }

  /** The area after some variables. */
  function Put(vars: seq<XVar>, ds: seq<Par>): (r: seq<XVar>)
    requires forall d :: d in ds ==> SqlType(d).Some? && 1 <= d.index <= |vars|
    ensures |r| == |vars|
    decreases |ds|
  {
    if ds == [] then vars else Put(vars[ds[0].index - 1 := VarOf(ds[0])], ds[1..])
  }

  lemma {:induction false} PutIs(vars: seq<XVar>, ds: seq<Par>)
    requires forall d :: d in ds ==> SqlType(d).Some? && 1 <= d.index <= |vars|
    requires forall i, j :: 0 <= i < j < |ds| ==> ds[i].index != ds[j].index
    ensures forall i :: 0 <= i < |ds| ==> Put(vars, ds)[ds[i].index - 1] == VarOf(ds[i])
    ensures forall k :: 0 <= k < |vars| && (forall d :: d in ds ==> d.index != k + 1) ==> Put(vars, ds)[k] == vars[k]
    decreases |ds|
  {
    hide VarOf, SqlType;
    if ds != [] {
      PutIs(vars[ds[0].index - 1 := VarOf(ds[0])], ds[1..]);
      forall i | 0 <= i < |ds|
        ensures Put(vars, ds)[ds[i].index - 1] == VarOf(ds[i])
      {
        if i > 0 {
          assert ds[1..][i - 1] == ds[i];
        }
      }
    }
  }

  lemma {:induction false} AllFit(ds: seq<Par>, room: nat, f: Filling)
    requires Sizes(ds) < room && |f.vars| < 0x1_0000 && !f.inside
    requires forall d :: d in ds ==> SqlType(d).Some? && 1 <= d.index <= |f.vars|
    ensures Played(Blocks(ds), room, f).1 == Done && Played(Blocks(ds), room, f).0.vars == Put(f.vars, ds)
    decreases |ds|
  {
    if ds != [] {
      FirstFits(ds, room, f);
      hide Played, Blocks, Size, VarOf, SqlType;
      AllFit(ds[1..], room - Size(ds[0]), After(ds[0], f));
    }
  }

  lemma {:induction false} VariablesAll(ds: seq<Par>)
    requires forall d :: d in ds ==> SqlType(d).Some? && 1 <= d.index
    ensures Variables(ds, CODES, 0) == Blocks(ds)
    decreases |ds|
  {
    if ds != [] {
      hide Descriptions;
      VariablesAll(ds[1..]);
    }
  }

  /** Where one reply holds all variables, each is told whatever their order. */
  lemma {:induction false} ToldInOneReply(known: Known, tag: byte, ds: seq<Par>, room: nat, area: Area, turns: nat)
    requires IsTag(tag) && Numbering(MessageOf(known, tag)) && ds == VariablesOf(MessageOf(known, tag))
    requires MessageIndex(MessageOf(known, tag)) <= |area.vars| < 0x8000 && 9 + Sizes(ds) <= room
    ensures var a := Described(known, tag, room, area, turns);
            && a.sqld == MessageIndex(MessageOf(known, tag)) && a.outcome == Done && |a.vars| == |area.vars|
            && (forall i :: 0 <= i < |ds| ==> a.vars[ds[i].index - 1] == VarOf(ds[i]))
            && forall k :: 0 <= k < |area.vars| && (forall d :: d in ds ==> d.index != k + 1) ==> a.vars[k] == area.vars[k]
  {
    hide Play, Fill, SqlType, Held, Blocks, ParseReply, Played, Put, VarOf, Sizes, Ask, Answers, VariablesOf;
    PutIs(area.vars, ds);
    AllFit(ds, room - 8, Filling(0, 0, false, area.vars));
    AllAnswered(known, tag, ds);
    assert Ask(known, tag, 0, room, area)
           == Area(MessageIndex(MessageOf(known, tag)), Put(area.vars, ds), Done) by {
      var reply := Ready(ds, MessageIndex(MessageOf(known, tag)), tag, room, area, []);
      assert reply + [] == reply;
      AskOf(known, tag, 0, room, area);
    }
  }

  lemma AskOf(known: Known, tag: byte, first: word, room: nat, area: Area)
    requires IsTag(tag) && room > 0
    ensures Ask(known, tag, first, room, area)
            == if Fill(Answers(known, tag, first), room).None? then area.(outcome := ServerError)
               else ParseReply(Fill(Answers(known, tag, first), room).value, area)
  {
  }

  lemma {:induction false} AllAnswered(known: Known, tag: byte, ds: seq<Par>)
    requires IsTag(tag) && Numbering(MessageOf(known, tag)) && ds == VariablesOf(MessageOf(known, tag))
    ensures Answers(known, tag, 0)
            == [Tag(tag)] + ([Number(SQL_DESCRIBE_VARS, MessageIndex(MessageOf(known, tag)))] + Blocks(ds))
  {
    hide Variables, Declared, Blocks, Held, Number, SqlType;
    var m := MessageOf(known, tag);
    assert |ds| > 0 ==> 1 <= ds[0].index <= MessageIndex(m);
    if m.Some? {
      VariablesDeclared(m.value.ordered, CODES, 0);
      VariablesAll(ds);
    }
    NothingOf();
  }

  lemma NothingOf()
    ensures Blocks([]) == [] && Declared([]) == []
  {
  }

  lemma {:induction false} SizesAtMost(ds: seq<Par>)
    requires forall d :: d in ds ==> ShortNames(d)
    ensures Sizes(ds) <= 172 * |ds|
    decreases |ds|
  {
    if ds != [] {
      assert ds[0] in ds;
      SizesAtMost(ds[1..]);
    }
  }

  /** The room a client gives holds up to 380 variables in one reply. */
  lemma ClientHasRoom(ds: seq<Par>, variables: nat)
    requires |ds| <= variables && |ds| <= 380 && forall d :: d in ds ==> ShortNames(d)
    ensures 9 + Sizes(ds) <= BufferLength(variables)
  {
    SizesAtMost(ds);
  }

  /**
   Asking again from the largest variable that is complete passes over a smaller one that
   stood behind the cut: of the variables 2 and 1, the first told alone, 1 is never told.
   */
  lemma {:induction false} OutOfOrder(known: Known, two: Par, one: Par, area: Area, turns: nat)
    requires known.receive == Some(Message(2, [two, one])) && two.index == 2 && one.index == 1 && turns > 0
    requires SqlType(one).Some? && SqlType(two).Some? && Held(one) && Held(two) && 2 <= |area.vars| < 0x8000
    ensures var a := Described(known, SQL_SELECT, 9 + Size(two), area, turns);
            a.outcome == Done && a.sqld == 2 && a.vars == area.vars[1 := VarOf(two)]
  {
    var room, middle := 9 + Size(two), area.vars[1 := VarOf(two)];
    OutOfOrderReply(known, two, one, 0, area);
    OutOfOrderReply(known, two, one, 2, Area(2, middle, Stopped(2)));
    assert middle[1 := VarOf(two)] == middle;
    hide Ask, Size, VarOf, Held, SqlType;
    var stopped, done := Area(2, middle, Stopped(2)), Area(2, middle, Done);
    assert Ask(known, SQL_SELECT, 0, room, area) == stopped && Ask(known, SQL_SELECT, 2, room, stopped) == done;
    assert Iterate(known, SQL_SELECT, room, done, turns - 1) == done;
    assert Iterate(known, SQL_SELECT, room, stopped, turns) == done;
  }

  lemma {:induction false} OutOfOrderReply(known: Known, two: Par, one: Par, first: nat, area: Area)
    requires known.receive == Some(Message(2, [two, one])) && two.index == 2 && one.index == 1 && (first == 0 || first == 2)
    requires SqlType(one).Some? && SqlType(two).Some? && Held(one) && Held(two) && 2 <= |area.vars| < 0x8000
    ensures Ask(known, SQL_SELECT, first, 9 + Size(two), area)
            == Area(2, area.vars[1 := VarOf(two)], if first == 0 then Stopped(2) else Done)
  {
    hide Play, Fill, Number, Header, SqlType, Held, Block, Blocks, ParseReply, Played, Variables, VarOf, Size, Descriptions;
    var ds := if first == 0 then [two, one] else [two];
    var rest := if first == 0 then [one] else [];
    var room, f := 9 + Size(two), Filling(0, 0, false, area.vars);
    VariablesOfTwo(two, one);
    assert ds[1..] == rest && forall d :: d in ds ==> d == two || d == one;
    var reply := Ready(ds, 2, SQL_SELECT, room, area, []);
    assert reply + [] == reply;
    FirstFits(ds, room - 8, f);
    if first == 0 {
      NoRoom(one, After(two, f));
    } else {
      NothingLeft(After(two, f));
    }
  }

  lemma VariablesOfTwo(two: Par, one: Par)
    requires two.index == 2 && one.index == 1 && SqlType(one).Some? && SqlType(two).Some?
    ensures Variables([two, one], CODES, 0) == Blocks([two, one]) && Variables([two, one], CODES, 2) == Blocks([two])
  {
    VariablesAll([two, one]);
    hide Descriptions;
    assert [two, one][1..] == [one] && [one][1..] == [] && [two][1..] == [];
    assert Variables([], CODES, 2) == [];
    assert Variables([one], CODES, 2) == [];
    assert Blocks([two]) == Block(two) + [];
  }

  lemma NoRoom(d: Par, f: Filling)
    requires SqlType(d).Some? && !f.inside
    ensures Played(Blocks([d]), 1, f) == (f, Stopped(f.last))
  {
    SizeIs(d);
    var b := Block(d) + [];
    hide Block, Size;
    assert [d][1..] == [];
    assert Blocks([d]) == b;
    assert b[0] in Block(d);
    EntryLong(b[0]);
    assert Fitting(b, 1) == 0 && b[..0] == [];
  }

  lemma EntryLong(e: Entry)
    ensures !e.Undescribed? ==> |EntryBytes(e)| >= 1
  {
  }

  lemma NothingLeft(f: Filling)
    requires !f.inside
    ensures Played(Blocks([]), 1, f) == (f, Done)
  {
    var es := Blocks([]);
    assert es == [] && Fitting(es, 1) == 0 && es[..0] == [];
    assert Play([], INFO_END, f) == (f, Done);
  }

  // ----- what the client knows of a variable

  /** The type behind a client's code of it, its parity apart. */
  function TypeOfCode(code: int): Option<DescType> {
    if code == 448 then Some(VaryingT)
    else if code == 452 then Some(TextT)
    else if code == 480 then Some(DoubleT)
    else if code == 482 then Some(Real)
    else if code == 570 then Some(SqlDate)
    else if code == 560 then Some(SqlTime)
    else if code == 510 then Some(TimestampT)
    else if code == 520 then Some(BlobT)
    else if code == 540 then Some(Array)
    else if code == 496 then Some(LongT)
    else if code == 500 then Some(ShortT)
    else if code == 580 then Some(Int64T)
    else if code == 550 then Some(QuadT)
    else None
  }

  function ClientType(v: XVar): Option<DescType> {
    TypeOfCode(v.sqlType - v.sqlType % 2)
  }

  /** The bytes a client sets aside for a variable. */
  function ClientLength(v: XVar): nat {
    (v.length % 0x1_0000 + (if ClientType(v) == Some(VaryingT) then 2 else 0)) % 0x1_0000
  }

  /** The client knows of a variable what its statement does. */
  lemma VariableRegained(d: Par)
    requires SqlType(d).Some? && Held(d)
    ensures var v := VarOf(d);
            && ClientType(v) == Some(d.dtype) && (v.sqlType % 2 == 1 <==> d.nullable)
            && ClientLength(v) == d.length
            && (v.length < 0 <==> 0x8000 <= (if d.dtype == VaryingT then d.length - 2 else d.length))
            && v.scale == (if d.dtype in {DoubleT, ShortT, LongT, Int64T, QuadT} then d.scale else 0)
            && v.subType == (if d.dtype in {TextT, BlobT, VaryingT, ShortT, LongT, Int64T} then d.subType else 0)
            && (ShortNames(d) ==>
                  v.field == d.field && v.relation == d.relation && v.owner == d.owner && v.alias_ == d.alias_)
  {
    hide AsShort, Double, SqlType, TypeOfCode;
    CodeRead(d);
    NumberShort(SqlType(d).value);
    NumberShort(SqlScale(d));
    NumberShort(SqlSubType(d));
    UnsignedShort(SqlLength(d));
  }

  lemma CodeRead(d: Par)
    requires SqlType(d).Some?
    ensures var t := SqlType(d).value;
            0 < t < 0x8000 && TypeOfCode(t - t % 2) == Some(d.dtype) && (t % 2 == 1 <==> d.nullable)
  {
  }

  lemma UnsignedShort(n: int)
    requires 0 <= n < 0x1_0000
    ensures AsShort(Double(n)) % 0x1_0000 == n && (AsShort(Double(n)) < 0 <==> n >= 0x8000)
  {
  }

  /** What a client says of a variable when it describes its own message. */
  function ClientDesc(v: XVar): Option<MessageLayout.Desc> {
    var n := v.length % 0x1_0000;
    match ClientType(v)
    case None => None
    case Some(t) =>
      match t
      case VaryingT => Some(MessageLayout.Desc(MessageLayout.Varying, (n + 2) % 0x1_0000, 0, None))
      case TextT => Some(MessageLayout.Desc(MessageLayout.Text, n, 0, None))
      case DoubleT => Some(MessageLayout.Desc(MessageLayout.DoubleP, 8, 0, None))
      case Real => Some(MessageLayout.Desc(MessageLayout.Real, 4, 0, None))
      case SqlDate => Some(MessageLayout.Desc(MessageLayout.SqlDate, 4, 0, None))
      case SqlTime => Some(MessageLayout.Desc(MessageLayout.SqlTime, 4, 0, None))
      case TimestampT => Some(MessageLayout.Desc(MessageLayout.Timestamp, 8, 0, None))
      case BlobT => Some(MessageLayout.Desc(MessageLayout.Quad, 8, 0, None))
      case Array => Some(MessageLayout.Desc(MessageLayout.Quad, 8, 0, None))
      case LongT => Some(MessageLayout.Desc(MessageLayout.Long, 4, Low8(v.scale), None))
      case ShortT => Some(MessageLayout.Desc(MessageLayout.Short, 2, Low8(v.scale), None))
      case Int64T => Some(MessageLayout.Desc(MessageLayout.Int64, 8, Low8(v.scale), None))
      case QuadT => Some(MessageLayout.Desc(MessageLayout.Quad, 8, Low8(v.scale), None))
      case OtherT => None
  }

  /** The width of a type that has one of its own. */
  function Width(t: DescType): Option<nat> {
    match t
    case TextT => None
    case VaryingT => None
    case OtherT => None
    case ShortT => Some(2)
    case Real => Some(4)
    case SqlDate => Some(4)
    case SqlTime => Some(4)
    case LongT => Some(4)
    case DoubleT => Some(8)
    case TimestampT => Some(8)
    case BlobT => Some(8)
    case Array => Some(8)
    case Int64T => Some(8)
    case QuadT => Some(8)
  }

  /** A variable as it was described can be named in the description of a message, at its own length and scale. */
  lemma DescribedIsNameable(d: Par)
    requires SqlType(d).Some? && Held(d) && (Width(d.dtype).Some? ==> d.length == Width(d.dtype).value)
    ensures var c := ClientDesc(VarOf(d));
            && c.Some? && MessageLayout.Nameable(c.value) && c.value.length == d.length
            && (MessageLayout.IsScaled(c.value.dtype) && d.dtype in {ShortT, LongT, Int64T, QuadT} ==>
                  Signed(c.value.scale, 0x100) == d.scale)
  {
    hide VarOf, TypeOfCode;
    VariableRegained(d);
  }

  // ----- describing a statement

  /** A message of any kind whose parameters keep to the widths of their fields. */
  predicate Ordinary(m: Option<Message>) {
    MessageIndex(m) < 0x8000 && (m.None? || forall p :: p in m.value.ordered ==> Held(p))
  }

  lemma ModerateBoth(a: seq<Entry>, b: seq<Entry>)
    requires ValidEntries(a) && ValidEntries(b) && Moderate(a) && Moderate(b)
    ensures ValidEntries(a + b) && Moderate(a + b)
  {
  }

  lemma {:induction false} VariablesModerate(pars: seq<Par>, first: nat)
    requires forall p :: p in pars ==> Held(p)
    ensures ValidEntries(Variables(pars, CODES, first)) && Moderate(Variables(pars, CODES, first))
    decreases |pars|
  {
    if pars != [] {
      assert pars[0] in pars;
      hide Held, Descriptions, ValidEntries, Moderate;
      VariablesModerate(pars[1..], first);
      assert INFO_END !in CODES && SQL_DESCRIBE_END !in CODES;
      if SqlType(pars[0]).Some? {
        BlockValid(pars[0], CODES);
        ModerateBoth(Descriptions(pars[0], CODES), Variables(pars[1..], CODES, first));
      }
      NoneDescribed();
    }
  }

  lemma NoneDescribed()
    ensures ValidEntries([Undescribed]) && Moderate([Undescribed]) && ValidEntries([]) && Moderate([])
  {
  }

  /** What stands in the buffer behind a reply is not looked at. */
  lemma OnlyTheReply(known: Known, tag: byte, first: word, room: nat, area: Area, rest: seq<byte>)
    requires room > 8 && IsTag(tag) && Ordinary(MessageOf(known, tag)) && Fill(Answers(known, tag, first), room).Some?
    ensures ParseReply(Fill(Answers(known, tag, first), room).value + rest, area) == Ask(known, tag, first, room, area)
  {
    var m := MessageOf(known, tag);
    var es := MessageVariables(m, CODES, first);
    hide Variables, Held, Parse, Header, Number, ValidEntries, Moderate, Read, ParseReply;
    NoneDescribed();
    if m.Some? {
      VariablesModerate(m.value.ordered, first);
    }
    HeaderNeeded(tag, MessageIndex(m), es, room);
    HeaderFilled(tag, MessageIndex(m), es, room);
    var more := Fill(es, room - 8).value;
    hide Fill;
    FilledRead(es, room - 8);
    BothParsed(tag, MessageIndex(m), more, area, rest);
  }

  lemma FilledRead(es: seq<Entry>, room: nat)
    requires room > 0 && ValidEntries(es) && Moderate(es) && Fill(es, room).Some?
    ensures Read(Fill(es, room).value).Some? && Moderate(Read(Fill(es, room).value).value.entries)
  {
    ReplyIsWellFormed(es, room);
    hide Fill, Read, Fitting;
  }

  lemma BothParsed(tag: byte, number: nat, more: seq<byte>, area: Area, rest: seq<byte>)
    requires number < 0x8000 && Read(more).Some? && Moderate(Read(more).value.entries)
    ensures ParseReply(Header(tag, number) + more + rest, area) == ParseReply(Header(tag, number) + more, area)
  {
    hide Read, ParseReply, Parse, Play, Header;
    var f := Filling(0, 0, false, area.vars);
    ParseIsPlay(more, f, rest);
    ParseIsPlay(more, f, []);
    assert more + [] == more;
    HeaderParsed(tag, number, more + rest, area);
    HeaderParsed(tag, number, more, area);
    Assoc(Header(tag, number), more, rest);
  }

  lemma HeaderNeeded(tag: byte, number: nat, es: seq<Entry>, room: nat)
    requires room > 8 && Fill([Tag(tag)] + ([Number(SQL_DESCRIBE_VARS, number)] + es), room).Some?
    ensures Fill(es, room - 8).Some?
  {
    var e := Number(SQL_DESCRIBE_VARS, number);
    assert ([Tag(tag)] + ([e] + es))[1..] == [e] + es && ([e] + es)[1..] == es;
    assert |EntryBytes(e)| == 7;
    hide Double, EntryBytes;
    assert Fill([e] + es, room - 1).Some?;
  }

  class Sqlda {
    const vars: array<XVar>
    var sqld: int

    constructor (vars: array<XVar>)
      ensures this.vars == vars && sqld == 0
    {
      this.vars, sqld := vars, 0;
    }

    ghost function Contents(outcome: Outcome): Area
      reads this, vars
    {
      Area(sqld, vars[..], outcome)
    }

    /** One item; its bytes are passed when it is taken. */
    method TakeItem(info: array<byte>, start: nat, before: word, last: word, ghost f: Filling) returns (i: nat, at: word, outcome: Outcome)
      requires start < info.Length && info[start] != SQL_DESCRIBE_END && (f.inside || info[start] != INFO_END)
      requires f == Filling(before, last, f.inside, vars[..])
      modifies vars
      ensures outcome == Done ==> start < i <= info.Length
      ensures outcome == Done ==> Parse(info[start..], f) == Parse(info[i..], Filling(at, last, true, vars[..]))
      ensures outcome != Done ==> Parse(info[start..], f) == (f, outcome) && vars[..] == f.vars
    {
      hide Parse, Assigned, LowWord;
      i, at, outcome := start, before, Wild;
      var item := info[i];
      ParseStep(info[i..], f);
      if item == INFO_TRUNCATED {
        return i, at, Stopped(last);
      }
      if !IsItem(item) {
        return i, at, Refused;
      }
      assert info[i..][1..] == info[i + 1..];
      var n := ValueLength(info[i + 1..]);
      if n.None? {
        return;
      }
      var value := info[i + 3..i + 3 + n.value];
      assert info[i..][3..3 + n.value] == value;
      assert info[i..][3 + n.value..] == info[i + 3 + n.value..];
      if item == SQL_SQLDA_SEQ {
        at := LowWord(value);
      } else if at == 0 || at > vars.Length {
        return;
      } else {
        vars[at - 1] := Assigned(vars[at - 1], item, value);
        assert vars[..] == f.vars[at - 1 := Assigned(f.vars[at - 1], item, value)];
      }
      i, outcome := i + 3 + n.value, Done;
    }

    /** The items of one variable, up to the mark behind them. */
    method FillVariable(info: array<byte>, start: nat, before: word, last: word) returns (i: nat, at: word, outcome: Outcome)
      requires start < info.Length && info[start] != INFO_END
      modifies vars
      ensures outcome == Done ==> start < i <= info.Length
      ensures var all := Parse(info[start..], Filling(before, last, false, old(vars[..])));
              if outcome == Done then all == Parse(info[i..], Closed(Filling(at, last, false, vars[..])))
              else all.0.vars == vars[..] && all.1 == outcome
    {
      i, at, outcome := start, before, Wild;
      ghost var inside := false;
      ghost var all := Parse(info[start..], Filling(before, last, false, vars[..]));
      hide Parse;
      while i < info.Length && info[i] != SQL_DESCRIBE_END
        invariant start <= i <= info.Length && outcome == Wild && (inside || i == start)
        invariant Parse(info[i..], Filling(at, last, inside, vars[..])) == all
        decreases info.Length - i
      {
        i, at, outcome := TakeItem(info, i, at, last, Filling(at, last, inside, vars[..]));
        if outcome != Done {
          return;
        }
        outcome, inside := Wild, true;
      }
      ParseEnds(info[i..], Filling(at, last, inside, vars[..]));
      if i < info.Length && at != 0 {
        assert info[i..][1..] == info[i + 1..];
        i, outcome := i + 1, Done;
      }
    }

    /** The area is filled from a reply. */
    method ParseSqlInfo(info: array<byte>) returns (outcome: Outcome)
      modifies this`sqld, vars
      ensures Contents(outcome) == ParseReply(info[..], old(Contents(Done)))
    {
      ghost var before := Contents(Done);
      var n := if info.Length < 2 then None else ValueLength(info[2..]);
      assert info.Length >= 2 ==> info[..][2..] == info[2..];
      if n.None? {
        return Wild;
      }
      var i := 4 + n.value;
      assert info[..][4..i] == info[4..i] && info[..][i..] == info[i..];
      sqld := AsShort(info[4..i]);
      if sqld > vars.Length {
        return Done;
      }
      var at: word, last: word := 0, 0;
      ghost var number := sqld;
      ghost var all := Parse(info[i..], Filling(0, 0, false, vars[..]));
      while i < info.Length && info[i] != INFO_END
        invariant i <= info.Length && sqld == number && Parse(info[i..], Filling(at, last, false, vars[..])) == all
      {
        i, at, outcome := FillVariable(info, i, at, last);
        if outcome != Done {
          return;
        }
        last := if at > last then at else last;
      }
      outcome := if i < info.Length then Done else Wild;
    }
  }

  lemma ParseEnds(s: seq<byte>, f: Filling)
    requires s == [] || s[0] == SQL_DESCRIBE_END
    ensures Parse(s, f) == if s == [] || f.at == 0 then (f, Wild) else Parse(s[1..], Closed(f))
  {
  }

  lemma ParseStep(s: seq<byte>, f: Filling)
    requires s != [] && s[0] != SQL_DESCRIBE_END && (f.inside || s[0] != INFO_END)
    ensures Parse(s, f)
            == if s[0] == INFO_TRUNCATED then (f, Stopped(f.last))
               else if !IsItem(s[0]) then (f, Refused)
               else
                 var n := ValueLength(s[1..]);
                 if n.None? then (f, Wild)
                 else
                   var t := Taken(f, s[0], s[3..3 + n.value]);
                   if t.1 != Done then t else Parse(s[3 + n.value..], t.0)
  {
  }

  /** A client has a statement's variables described to it. */
  method DescribeStatement(known: Known, tag: byte, buffer: array<byte>, length: nat, da: Sqlda, turns: nat)
    returns (outcome: Outcome)
    requires IsTag(tag) && ValidKnown(known) && Ordinary(MessageOf(known, tag)) && 8 < length <= buffer.Length
    modifies buffer, da, da.vars
    ensures da.Contents(outcome) == Described(known, tag, length, old(da.Contents(Done)), turns)
  {
    outcome := AskOnce(known, tag, 0, buffer, length, da);
    ghost var all := Described(known, tag, length, old(da.Contents(Done)), turns);
    var left := turns;
    while outcome.Stopped? && outcome.index != 0 && left > 0
      invariant Iterate(known, tag, length, da.Contents(outcome), left) == all
      decreases left
    {
      outcome := AskOnce(known, tag, outcome.index, buffer, length, da);
      left := left - 1;
    }
  }

  method AskOnce(known: Known, tag: byte, first: word, buffer: array<byte>, length: nat, da: Sqlda) returns (outcome: Outcome)
    requires IsTag(tag) && ValidKnown(known) && Ordinary(MessageOf(known, tag)) && 8 < length <= buffer.Length
    modifies buffer, da, da.vars
    ensures forall was :: da.Contents(outcome) == Ask(known, tag, first, length, old(da.Contents(was)))
  {
    RequestAnswered(known, tag, first);
    ghost var before := da.Contents(Done);
    var ok;
    ghost var written;
    ok, written := SqlInfo(known, Request(tag, first), buffer, length);
    hide Wanted, Answers, ParseReply, Whole, ValidKnown, Ordinary, Fill;
    if !ok {
      return ServerError;
    }
    OnlyTheReply(known, tag, first, length, before, buffer[written..]);
    assert buffer[..] == buffer[..written] + buffer[written..];
    outcome := da.ParseSqlInfo(buffer);
  }
}
