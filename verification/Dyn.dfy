/**
 How the engine reads a trigger's definition: attributes by their codes, each value behind
 its two-byte length, up to the end code.
 */
module Dyn {
  import opened Wrappers
  import opened Bytes

  /** What is stored of a trigger; what no attribute gave has its default. */
  datatype Trigger = Trigger(name: seq<byte>, kind: Option<nat>, sequence: nat, inactive: nat,
                             relation: Option<seq<byte>>, sql: bool, systemFlag: Option<nat>, blr: Option<seq<byte>>)

  /** A value behind its length, and the rest. */
  function Counted(s: seq<byte>): (r: Option<(seq<byte>, seq<byte>)>)
    ensures r.Some? ==> |r.value.1| < |s|
  {
    if |s| < 2 || |s| < 2 + FromWord(s) then None
    else Some((s[2..2 + FromWord(s)], s[2 + FromWord(s)..]))
  }

  /** A number of any length, low byte first. */
  function VaxInteger(s: seq<byte>): nat {
    if s == [] then 0 else s[0] as int + 0x100 * VaxInteger(s[1..])
  }

  function Number(s: seq<byte>): (r: Option<(nat, seq<byte>)>)
    ensures r.Some? ==> |r.value.1| < |s|
  {
    var (v, rest) :- Counted(s);
    Some((VaxInteger(v), rest))
  }

  /** The definition's verb and the trigger's name, then its attributes. */
  function ReadTrigger(s: seq<byte>): Option<(Trigger, seq<byte>)> {
    if s == [] || s[0] != 15 then None
    else
      var (name, rest) :- Counted(s[1..]);
      ReadAttributes(Trigger(name, None, 0, 0, None, false, None, None), rest)
  }

  function ReadAttributes(t: Trigger, s: seq<byte>): Option<(Trigger, seq<byte>)>
    decreases |s|
  {
    if s == [] then None
    else
      var verb, rest := s[0], s[1..];
      if verb == 3 then Some((t, rest))
      else if verb == 196 then ReadAttributes(t.(sql := true), rest)
      else if verb == 110 then
        var (n, more) :- Number(rest);
        ReadAttributes(t.(kind := Some(n)), more)
      else if verb == 115 then
        var (n, more) :- Number(rest);
        ReadAttributes(t.(sequence := n), more)
      else if verb == 116 then
        var (n, more) :- Number(rest);
        ReadAttributes(t.(inactive := n), more)
      else if verb == 55 then
        var (n, more) :- Number(rest);
        ReadAttributes(t.(systemFlag := Some(n)), more)
      else if verb == 50 then
        var (v, more) :- Counted(rest);
        ReadAttributes(t.(relation := Some(v)), more)
      else if verb == 111 then
        var (v, more) :- Counted(rest);
        ReadAttributes(t.(blr := Some(v)), more)
      else None
  }

  lemma CountedReads(v: seq<byte>, rest: seq<byte>)
    requires |v| < 0x1_0000
    ensures Counted(Word(|v|) + (v + rest)) == Some((v, rest))
  {
    var s := Word(|v|) + (v + rest);
    WordRoundTrip(|v|);
    assert s[0] == Word(|v|)[0] && s[1] == Word(|v|)[1];
    assert FromWord(s) == |v|;
    assert s[2..2 + |v|] == v && s[2 + |v|..] == rest;
  }

  lemma NumberReads(n: nat, rest: seq<byte>)
    requires n < 0x1_0000
    ensures Number(Word(2) + (Word(n) + rest)) == Some((n, rest))
  {
    var v := Word(n);
    CountedReads(v, rest);
    assert v[1..] == [v[1]] && v[1..][1..] == [];
    assert VaxInteger(v[1..]) == v[1];
  }

  /** An attribute with a string for its value. */
  lemma StringStep(t: Trigger, verb: byte, v: seq<byte>, rest: seq<byte>)
    requires |v| < 0x1_0000 && verb in {50, 111}
    ensures ReadAttributes(t, [verb] + (Word(|v|) + (v + rest)))
            == ReadAttributes(if verb == 50 then t.(relation := Some(v)) else t.(blr := Some(v)), rest)
  {
    var s := [verb] + (Word(|v|) + (v + rest));
    assert s[1..] == Word(|v|) + (v + rest);
    hide Counted, Word;
    CountedReads(v, rest);
  }

  /** An attribute with a number for its value. */
  lemma NumberStep(t: Trigger, verb: byte, n: nat, rest: seq<byte>)
    requires n < 0x1_0000 && verb in {55, 110, 115, 116}
    ensures ReadAttributes(t, [verb] + (Word(2) + (Word(n) + rest)))
            == ReadAttributes(if verb == 110 then t.(kind := Some(n))
                              else if verb == 115 then t.(sequence := n)
                              else if verb == 116 then t.(inactive := n)
                              else t.(systemFlag := Some(n)), rest)
  {
    var s := [verb] + (Word(2) + (Word(n) + rest));
    assert s[1..] == Word(2) + (Word(n) + rest);
    hide Number, Word;
    NumberReads(n, rest);
  }

  lemma EndStep(t: Trigger, rest: seq<byte>)
    ensures ReadAttributes(t, [3] + rest) == Some((t, rest))
  {
  }

  lemma FlagStep(t: Trigger, rest: seq<byte>)
    ensures ReadAttributes(t, [196] + rest) == ReadAttributes(t.(sql := true), rest)
  {
    assert ([196] + rest)[1..] == rest;
  }

  lemma NameStep(name: seq<byte>, rest: seq<byte>)
    requires |name| < 0x1_0000
    ensures ReadTrigger([15] + (Word(|name|) + (name + rest)))
            == ReadAttributes(Trigger(name, None, 0, 0, None, false, None, None), rest)
  {
    var s := [15] + (Word(|name|) + (name + rest));
    assert s[1..] == Word(|name|) + (name + rest);
    hide Counted, Word, ReadAttributes;
    CountedReads(name, rest);
  }
}
