/**
 The request's byte-code buffer: a fixed block that is replaced by one 2048 bytes longer
 whenever it is full.  Every operation is specified as if the buffer only ever grew.
 */
module Request {
  import opened Bytes
  import opened BlrVerbs
  import opened Blr

  const BLR_INCREMENT: nat := 2048

  class DsqlRequest {
    var blrString: array<byte>
    var blr: nat
    var baseOffset: nat

    /** Everything written so far. */
    ghost var contents: seq<byte>

    ghost predicate Valid()
      reads this, blrString
    {
      blr <= blrString.Length && contents == blrString[..blr]
    }

    constructor (length: nat)
      ensures Valid() && fresh(blrString) && contents == []
    {
      blrString := new byte[length](_ => 0);
      blr := 0;
      baseOffset := 0;
      contents := [];
    }

    /** The buffer now holds what it held plus bs, wherever it lives. */
    twostate predicate Appended(bs: seq<byte>)
      reads this, blrString
    {
      && old(Valid()) && Valid()
      && (blrString == old(blrString) || fresh(blrString))
      && contents == old(contents) + bs
      && baseOffset == old(baseOffset)
    }

    /** The state left by an error: nothing written earlier was lost. */
    twostate predicate Abandoned()
      reads this, blrString
    {
      && old(Valid()) && Valid()
      && (blrString == old(blrString) || fresh(blrString))
      && old(contents) <= contents
    }

    method ExpandBuffer(b: byte)
      requires Valid()
      modifies this
      ensures Appended([b]) && fresh(blrString)
      ensures blrString.Length == old(blrString).Length + BLR_INCREMENT
    {
      var length := blrString.Length + BLR_INCREMENT;
      var newBuffer := new byte[length](_ => 0);
      var i := 0;
      while i < blr
        modifies newBuffer
        invariant i <= blr
        invariant newBuffer[..i] == blrString[..i]
      {
        newBuffer[i] := blrString[i];
        i := i + 1;
      }
      blrString := newBuffer;
      blrString[blr] := b;
      blr := blr + 1;
      contents := contents + [b];
    }

    method Stuff(b: byte)
      requires Valid()
      modifies this, blrString
      ensures Appended([b])
    {
      if blr < blrString.Length {
        blrString[blr] := b;
        blr := blr + 1;
        contents := contents + [b];
      } else {
        ExpandBuffer(b);
      }
    }

    method StuffWord(v: int)
      requires Valid()
      modifies this, blrString
      ensures Appended(Word(v))
    {
      Stuff(v % 0x100);
      Stuff((v / 0x100) % 0x100);
      assert Word(v) == [v % 0x100] + [(v / 0x100) % 0x100];
    }

    method StuffBytes(bs: seq<byte>)
      requires Valid()
      modifies this, blrString
      ensures Appended(bs)
    {
      var i := 0;
      while i < |bs|
        invariant i <= |bs|
        invariant Appended(bs[..i])
      {
        Stuff(bs[i]);
        assert bs[..i + 1] == bs[..i] + [bs[i]];
        i := i + 1;
      }
      assert bs[..i] == bs;
    }

    /** A name with its length in one byte. */
    method StuffCString(s: name)
      requires Valid()
      modifies this, blrString
      ensures Appended(EncodeName(s))
    {
      Stuff(|s|);
      StuffBytes(s);
    }

    /** The same byte several times. */
    method AppendUchars(b: byte, count: nat)
      requires Valid()
      modifies this, blrString
      ensures Appended(Repeat(b, count))
    {
      var i := 0;
      while i < count
        invariant i <= count
        invariant Appended(Repeat(b, i))
      {
        Stuff(b);
        i := i + 1;
      }
    }

    /** A verb's numeric argument, with its length. */
    method AppendNumber(verb: byte, number: int)
      requires Valid()
      modifies this, blrString
      ensures Appended((if verb != 0 then [verb] else []) + Word(2) + Word(number))
    {
      if verb != 0 {
        Stuff(verb);
      }
      StuffWord(2);
      StuffWord(number);
    }

    /** A string argument: its length takes two bytes after a verb and one without. */
    method AppendCString(verb: byte, s: seq<byte>)
      requires Valid() && |s| < (if verb != 0 then 0x1_0000 else 0x100)
      modifies this, blrString
      ensures Appended((if verb != 0 then [verb] + Word(|s|) else [|s|]) + s)
    {
      if verb != 0 {
        Stuff(verb);
        StuffWord(|s|);
      } else {
        Stuff(|s|);
      }
      StuffBytes(s);
    }

    /** Open a byte-code argument: two bytes are kept for its length. */
    method BeginBlr(verb: byte, version: byte)
      requires Valid()
      modifies this, blrString
      ensures Valid() && (blrString == old(blrString) || fresh(blrString))
      ensures contents == old(contents) + (if verb != 0 then [verb] else []) + [0, 0, version]
      ensures baseOffset == |old(contents)| + (if verb != 0 then 1 else 0)
    {
      if verb != 0 {
        Stuff(verb);
      }
      baseOffset := blr;
      StuffWord(0);
      Stuff(version);
    }

    /**
     Close it: the length of everything after the two kept bytes goes into them, or the
     definition is refused because sixteen bits cannot hold it.
     */
    method EndBlr() returns (ok: bool)
      requires Valid() && baseOffset + 2 <= blr
      modifies this, blrString
      ensures Valid() && (blrString == old(blrString) || fresh(blrString))
      ensures ok <==> |old(contents)| + 1 - baseOffset - 2 < 0x1_0000
      ensures baseOffset == old(baseOffset)
      ensures ok ==> contents == old(contents)[..baseOffset]
                                   + Word(|old(contents)[baseOffset + 2..]| + 1)
                                   + old(contents)[baseOffset + 2..] + [BLR_EOC]
      ensures !ok ==> contents == old(contents) + [BLR_EOC]
    {
      ghost var before := contents;
      Stuff(BLR_EOC);
      var length := blr - baseOffset - 2;
      ok := length < 0x1_0000;
      if ok {
        blrString[baseOffset] := length % 0x100;
        blrString[baseOffset + 1] := (length / 0x100) % 0x100;
        contents := blrString[..blr];
        assert contents[..baseOffset] == before[..baseOffset];
        assert contents[baseOffset..baseOffset + 2] == Word(length);
        assert contents[baseOffset + 2..] == before[baseOffset + 2..] + [BLR_EOC];
      }
    }
  }

  function Repeat(b: byte, n: nat): (bs: seq<byte>)
    ensures |bs| == n
  {
    if n == 0 then [] else Repeat(b, n - 1) + [b]
  }
}
