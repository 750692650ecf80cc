/**
 Backup streams over several files: a buffered writer that splits its output by file sizes,
 hands what a full disk leaves of one file's size on to the next and pads only its last
 block, and a buffered reader that joins the files again.
 */
module Volumes {
  import opened Wrappers
  import opened Bytes
  import opened Streams
  import Gsplit

  const BURP_BLOCK: nat := 512
  const ULONG_MODULUS: nat := 0x1_0000_0000
  const MAX_LENGTH: nat := 0xFFFF_FFFF

  function UpToBlock(n: nat): (m: nat)
    ensures n <= m < n + BURP_BLOCK && m % BURP_BLOCK == 0
  {
    (n + BURP_BLOCK - 1) / BURP_BLOCK * BURP_BLOCK
  }

  lemma FullBlock(n: nat)
    requires n % BURP_BLOCK == 0
    ensures UpToBlock(n) == n
  {
  }

  function Sum(xs: seq<nat>): nat {
    if xs == [] then 0 else Sum(xs[..|xs| - 1]) + xs[|xs| - 1]
  }

  lemma {:induction false} SumUpdate(xs: seq<nat>, i: nat, x: nat)
    requires i < |xs|
    ensures Sum(xs[i := x]) + xs[i] == Sum(xs) + x
    decreases |xs|
  {
    var n := |xs| - 1;
    if i < n {
      SumUpdate(xs[..n], i, x);
      assert xs[i := x][..n] == xs[..n][i := x];
    } else {
      assert xs[i := x][..n] == xs[..n];
    }
  }

  // ----- writing

  /** One file of a split backup behind its header: what may still be written to it, and what was. */
  class Fil {
    var length: nat
    var payload: seq<byte>
    /** The last write to it wrote nothing. */
    var refused: bool

    constructor (length: nat)
      requires length < ULONG_MODULUS
      ensures this.length == length && payload == [] && !refused
    {
      this.length, payload, refused := length, [], false;
    }

    /** The operating system writes as much as it can, which may be nothing. */
    method Write(s: seq<byte>) returns (n: nat)
      modifies this`payload, this`refused
      ensures n <= |s| && payload == old(payload) + s[..n] && (refused <==> n == 0)
    {
      n :| n <= |s|;
      payload := payload + s[..n];
      refused := n == 0;
    }
  }

  /** What is left of a size after a write of so much, of which something went out. */
  function Taken(length: nat, wanted: nat, written: nat): nat {
    if written == 0 then length else if length < wanted then 0 else length - wanted
  }

  class Backup {
    const files: seq<Fil>
    var act: nat

    const buffer: array<byte>
    /** Where the buffer starts: at its header until the first block is written, behind it from then on. */
    var start: nat
    const data: nat
    var ptr: nat
    var cnt: nat
    var size: nat
    const actualSize: nat

    /** The sizes the files were given, with what was handed on moved along. */
    ghost var granted: seq<nat>

    function Payloads(): (p: seq<seq<byte>>)
      reads files
      ensures |p| == |files| && forall i :: 0 <= i < |files| ==> p[i] == files[i].payload
    {
      seq(|files|, i requires 0 <= i < |files| reads files => files[i].payload)
    }

    ghost function Stream(): seq<byte>
      reads files
    {
      Flatten(Payloads())
    }

    ghost function Pending(): seq<byte>
      requires Valid()
      reads this, files, buffer
    {
      buffer[start..ptr]
    }

    /** No file but the last holds more than it was granted, and files not reached yet are empty. */
    ghost predicate Budgeted()
      reads this`act, this`granted, files
    {
      && |granted| == |files| && act < |files|
      && (forall i, j :: 0 <= i < |files| && 0 <= j < |files| && files[i] == files[j] ==> i == j)
      && (forall i :: act < i < |files| ==> files[i].payload == [])
      && (forall i :: 0 <= i < |files| ==> files[i].length < ULONG_MODULUS)
      && (forall i :: 0 <= i < act ==> |files[i].payload| <= granted[i])
      && (forall i :: act <= i < |files| - 1 ==> |files[i].payload| + files[i].length <= granted[i])
    }

    ghost predicate Buffered()
      reads this`start, this`ptr, this`cnt, this`size
    {
      && size > 0 && size % BURP_BLOCK == 0 && actualSize > 0 && actualSize % BURP_BLOCK == 0
      && start <= ptr && ptr + cnt == start + size <= buffer.Length
      && start + actualSize <= buffer.Length && data + actualSize <= buffer.Length
    }

    ghost predicate Valid()
      reads this, files
    {
      Budgeted() && Buffered()
    }

    constructor (files: seq<Fil>, buffer: array<byte>, header: seq<byte>, size: nat, actualSize: nat)
      requires files != [] && forall i, j :: 0 <= i < |files| && 0 <= j < |files| && files[i] == files[j] ==> i == j
      requires forall i :: 0 <= i < |files| ==> files[i].payload == [] && files[i].length < ULONG_MODULUS
      requires 0 < size && size % BURP_BLOCK == 0 && 0 < actualSize && actualSize % BURP_BLOCK == 0
      requires |header| <= size && size <= buffer.Length && |header| + actualSize <= buffer.Length
      modifies buffer
      ensures Valid() && Stream() == [] && Pending() == header && this.files == files
      ensures |granted| == |files| && forall i :: 0 <= i < |files| ==> granted[i] == files[i].length
    {
      this.files, act, this.buffer := files, 0, buffer;
      start, data, ptr, cnt, this.size, this.actualSize := 0, |header|, |header|, size - |header|, size, actualSize;
      granted := seq(|files|, i requires 0 <= i < |files| reads files => files[i].length);
      new;
      forall i | 0 <= i < |header| {
        buffer[i] := header[i];
      }
      FlattenEmpty(Payloads());
    }

    /** The file the next byte goes to: the one after a full one, if there is one. */
    ghost function Writing(): (i: nat)
      requires Budgeted()
      reads this`act, this`granted, files
      ensures act <= i < |files|
    {
      if files[act].length == 0 && act + 1 < |files| then act + 1 else act
    }

    /** How much that file may still take; the last one, once full, as much as can be. */
    ghost function Left(): nat
      requires Budgeted()
      reads this`act, this`granted, files
    {
      if files[act].length == 0 && act + 1 == |files| then MAX_LENGTH else files[Writing()].length
    }

    /** What the next file may take when that one takes no more. */
    ghost function HandedOn(): nat
      requires Budgeted()
      reads this`act, this`granted, files
    {
      if Writing() + 1 < |files| then (Left() + files[Writing() + 1].length) % ULONG_MODULUS else 0
    }

    /** The last file was reached, and it takes no more. */
    ghost predicate GivenUp()
      reads this`act, files
    {
      act + 1 == |files| && files[act].refused
    }

    /** A file that is full is left for the next; the last one is never full. */
    method LeaveFull()
      requires Budgeted()
      modifies this`act, files
      ensures Budgeted() && act == old(Writing()) < |files| && Stream() == old(Stream()) && files[act].length == old(Left())
      ensures forall i :: 0 <= i < |files| && i != act ==> files[i].length == old(files[i].length)
    {
      ghost var before := Payloads();
      if files[act].length == 0 {
        if act + 1 < |files| {
          act := act + 1;
        } else {
          files[act].length := MAX_LENGTH;
        }
      }
      SamePieces(Payloads(), before);
    }

    /** The disk is full: the next file may take what this one could not. */
    method HandOn()
      requires Budgeted() && act + 1 < |files|
      modifies this`act, this`granted, files
      ensures Budgeted() && Sum(granted) == old(Sum(granted)) && act == old(act) + 1 < |files|
      ensures Stream() == old(Stream())
      ensures files[act].length == (old(files[act].length) + old(files[act + 1].length)) % ULONG_MODULUS
      ensures granted[act] == old(granted[act + 1]) + old(files[act].length)
      ensures forall i :: 0 <= i < |files| && i != act ==> files[i].length == old(files[i].length)
    {
      hide Sum;
      ghost var before := Payloads();
      var f, next := files[act], files[act + 1];
      var rest := f.length;
      SumMove(granted, act, rest);
      granted := Moved(granted, act, rest);
      next.length := (next.length + rest) % ULONG_MODULUS;
      act := act + 1;
      SamePieces(Payloads(), before);
    }

    /** The part of a block the active file takes. */
    method WriteAct(s: seq<byte>) returns (n: nat)
      requires Budgeted() && s != []
      modifies files[act]
      ensures n <= |s| && files[act].payload == old(files[act].payload) + s[..n] && Budgeted()
      ensures files[act].refused <==> n == 0
      ensures files[act].length == Taken(old(files[act].length), |s|, n)
    {
      var f, left := files[act], |s|;
      assert forall i :: 0 <= i < |files| && i != act ==> files[i] != f;
      n := f.Write(if f.length < left then s[..f.length] else s);
      if n > 0 {
        f.length := if f.length < left then 0 else f.length - left;
      }
    }

    method WriteSome(s: seq<byte>) returns (n: nat)
      requires Budgeted() && s != []
      modifies files
      ensures n <= |s| && Stream() == old(Stream()) + s[..n] && Budgeted()
      ensures files[act].refused <==> n == 0
      ensures files[act].length == Taken(old(files[act].length), |s|, n)
      ensures forall i :: 0 <= i < |files| && i != act ==> files[i].length == old(files[i].length)
    {
      ghost var before := Payloads();
      assert forall i :: 0 <= i < |files| && i != act ==> files[i] != files[act];
      n := WriteAct(s);
      FlattenGrows(before, act, s[..n]);
      hide Flatten, Budgeted;
      SamePieces(Payloads(), before[act := before[act] + s[..n]]);
    }

    /** One system call, and what follows from it. */
    method WriteStep(s: seq<byte>) returns (count: nat, ok: bool)
      requires Budgeted() && s != []
      modifies this`act, this`granted, this`start, files
      ensures Budgeted() && Sum(granted) == old(Sum(granted)) && old(act) <= act < |files| && start == data
      ensures ok ==> count <= |s| && Stream() == old(Stream()) + s[..count] && (count > 0 || act > old(act))
      ensures !ok ==> GivenUp()
      ensures ok && count > 0 ==> act == old(Writing()) && files[act].length == Taken(old(Left()), |s|, count)
      ensures ok && count == 0 ==> act == old(Writing()) + 1 && files[act].length == old(HandedOn())
    {
      hide Sum, Stream, Budgeted, Left, Writing;
      LeaveFull();
      count := WriteSome(s);
      start := data;
      ok := true;
      if count == 0 {
        if act + 1 == |files| {
          return count, false;
        }
        HandOn();
      }
    }

    /** A whole block, over as many files as it takes. */
    method WriteOut(out: seq<byte>) returns (ok: bool)
      requires Budgeted()
      modifies this`act, this`granted, this`start, files
      ensures Budgeted() && Sum(granted) == old(Sum(granted))
      ensures ok ==> start == if out == [] then old(start) else data
      ensures ok ==> Stream() == old(Stream()) + out
      ensures !ok ==> GivenUp()
    {
      assert act < |files|;
      hide Sum, Stream, Budgeted;
      var left := out;
      while left != []
        invariant |left| <= |out| && Budgeted() && Sum(granted) == old(Sum(granted)) && act < |files|
        invariant (out == [] ==> start == old(start)) && (|left| < |out| ==> start == data)
        invariant Stream() + left == old(Stream()) + out
        decreases |files| - act, |left|
      {
        var count;
        ghost var stream := Stream();
        count, ok := WriteStep(left);
        if !ok {
          return;
        }
        TakeDrop(stream, left, count);
        left := left[count..];
      }
      ok := true;
    }

    /** The block a flush writes: what is pending, up to a multiple of 512 with whatever lies behind it. */
    ghost function Block(): (b: seq<byte>)
      requires Valid()
      reads this, files, buffer
      ensures Pending() <= b && |b| == UpToBlock(ptr - start)
    {
      BlockFits(ptr - start, size);
      buffer[start..start + UpToBlock(ptr - start)]
    }

    /** One byte more than the buffer holds: the buffer is written out and the byte starts the next one. */
    method Write(c: byte) returns (ok: bool)
      requires Valid()
      modifies this`act, this`granted, this`start, this`ptr, this`cnt, this`size, files, buffer
      ensures Sum(granted) == old(Sum(granted))
      ensures ok ==> Valid() && Stream() == old(Stream()) + old(Block()) && Pending() == [c]
      ensures !ok ==> GivenUp()
    {
      hide Stream, Sum, Budgeted;
      BlockFits(ptr - start, size);
      ok := WriteOut(buffer[start..start + UpToBlock(ptr - start)]);
      if ok {
        size := actualSize;
        buffer[start] := c;
        ptr := start + 1;
        cnt := size - 1;
      }
    }

    /** Bytes that fit are copied. */
    method Copy(s: seq<byte>)
      requires Valid() && |s| <= cnt
      modifies this`ptr, this`cnt, buffer
      ensures Valid() && Stream() == old(Stream()) && Pending() == old(Pending()) + s
      ensures cnt == old(cnt) - |s|
    {
      hide Stream, Budgeted;
      var i: nat := 0;
      while i < |s|
        invariant i <= |s| && Valid() && Pending() == old(Pending()) + s[..i] && cnt == old(cnt) - i
        invariant Stream() == old(Stream())
      {
        buffer[ptr] := s[i];
        ptr, cnt := ptr + 1, cnt - 1;
        i := i + 1;
      }
      assert s[..i] == s;
    }

    /** A full buffer goes out unpadded. */
    method WriteFull(c: byte) returns (ok: bool)
      requires Valid() && cnt == 0
      modifies this`act, this`granted, this`start, this`ptr, this`cnt, this`size, files, buffer
      ensures Sum(granted) == old(Sum(granted))
      ensures ok ==> Valid() && Stream() + Pending() == old(Stream() + Pending()) + [c]
      ensures !ok ==> GivenUp()
    {
      FullBlock(size);
      assert Block() == Pending();
      hide Stream, Sum, Budgeted, UpToBlock, Block;
      ok := Write(c);
    }

    /** One byte if the buffer is full, and what fits behind it. */
    method WritePart(s: seq<byte>) returns (n: nat, ok: bool)
      requires Valid() && s != []
      modifies this`act, this`granted, this`start, this`ptr, this`cnt, this`size, files, buffer
      ensures Sum(granted) == old(Sum(granted))
      ensures ok ==> Valid() && 0 < n <= |s| && Stream() + Pending() == old(Stream() + Pending()) + s[..n]
      ensures !ok ==> GivenUp()
    {
      hide Stream, Sum, Budgeted, Pending;
      n, ok := 0, true;
      if cnt == 0 {
        ok := WriteFull(s[0]);
        if !ok {
          return;
        }
        n := 1;
      }
      assert old(Stream() + Pending()) + s[..n] == Stream() + Pending();
      var more := if |s| - n < cnt then |s| - n else cnt;
      ghost var stream, pending := Stream(), Pending();
      Copy(s[n..n + more]);
      Pieces(stream, pending, old(Stream() + Pending()), s, n, more);
      n := n + more;
    }

    /** The stream is what was written and what is pending, however it is cut into blocks, files and system calls. */
    method WriteBlock(s: seq<byte>) returns (ok: bool)
      requires Valid()
      modifies this`act, this`granted, this`start, this`ptr, this`cnt, this`size, files, buffer
      ensures Sum(granted) == old(Sum(granted))
      ensures ok ==> Valid() && Stream() + Pending() == old(Stream() + Pending()) + s
      ensures !ok ==> GivenUp()
    {
      hide Stream, Sum, Budgeted, Pending;
      var p: nat := 0;
      ok := true;
      while p < |s|
        invariant p <= |s| && Valid() && Stream() + Pending() == old(Stream() + Pending()) + s[..p]
        invariant Sum(granted) == old(Sum(granted))
      {
        var n;
        n, ok := WritePart(s[p..]);
        if !ok {
          return;
        }
        assert s[..p] + s[p..][..n] == s[..p + n];
        p := p + n;
      }
      assert s[..p] == s;
    }

    /** The end of the backup: what is pending goes out, padded. */
    method Finish(endOfRecords: byte) returns (ok: bool)
      requires Valid()
      modifies this`act, this`granted, this`start, this`ptr, this`cnt, this`size, files, buffer
      ensures Sum(granted) == old(Sum(granted))
      ensures ok ==> old(Stream() + Pending()) <= Stream() && |Stream()| < |old(Stream() + Pending())| + BURP_BLOCK
      ensures ok ==> Budgeted()
      ensures !ok ==> GivenUp()
    {
      hide Stream, Sum, Budgeted;
      ok := Write(endOfRecords);
    }
  }

  lemma Pieces(stream: seq<byte>, pending: seq<byte>, before: seq<byte>, s: seq<byte>, n: nat, more: nat)
    requires n + more <= |s| && stream + pending == before + s[..n]
    ensures stream + (pending + s[n..n + more]) == before + s[..n + more]
  {
    assert s[..n] + s[n..n + more] == s[..n + more];
    assert stream + (pending + s[n..n + more]) == stream + pending + s[n..n + more];
  }

  lemma BlockFits(n: nat, size: nat)
    requires n <= size && size % BURP_BLOCK == 0
    ensures UpToBlock(n) <= size
  {
  }

  ghost function Moved(xs: seq<nat>, i: nat, x: nat): (r: seq<nat>)
    requires i + 1 < |xs| && x <= xs[i]
    ensures |r| == |xs| && r[i] == xs[i] - x && r[i + 1] == xs[i + 1] + x
    ensures forall j :: 0 <= j < |xs| && j != i && j != i + 1 ==> r[j] == xs[j]
  {
    xs[i := xs[i] - x][i + 1 := xs[i + 1] + x]
  }

  /** Handing on makes sizes neither grow nor shrink in all. */
  lemma SumMove(xs: seq<nat>, i: nat, x: nat)
    requires i + 1 < |xs| && x <= xs[i]
    ensures Sum(Moved(xs, i, x)) == Sum(xs)
  {
    SumUpdate(xs, i, xs[i] - x);
    SumUpdate(xs[i := xs[i] - x], i + 1, xs[i + 1] + x);
  }

  // ----- joining

  /** "InterBase/gbak,   " */
  const HDR_SPLIT_TAG: seq<byte> := [73, 110, 116, 101, 114, 66, 97, 115, 101, 47, 103, 98, 97, 107, 44, 32, 32, 32]
  const STDIN: seq<byte> := [115, 116, 100, 105, 110]

  /** A backup file as it is found: the name given, whether it can be opened, and what it holds. */
  datatype Part = Part(name: seq<byte>, opens: bool, contents: seq<byte>) {
    predicate IsStdin() {
      name == STDIN
    }

    /** What is behind a header. */
    function Payload(): seq<byte> {
      if |contents| < Gsplit.HEADER_REC_LEN then [] else contents[Gsplit.HEADER_REC_LEN..]
    }
  }

  datatype Header = Header(sequence: nat, total: nat)

  datatype Joining = Single | Joined(total: nat) | Failed(message: nat)

  /** The name's first 27 characters, or blanks behind it. */
  function NameField(name: seq<byte>): (s: seq<byte>)
    ensures |s| == Gsplit.MAX_FILE_NM_LEN
  {
    if |name| >= Gsplit.MAX_FILE_NM_LEN then name[..Gsplit.MAX_FILE_NM_LEN]
    else name + Gsplit.Blanks(Gsplit.MAX_FILE_NM_LEN - |name|)
  }

  /** The hundred bytes in front of a file of a split backup. */
  function HeaderBytes(time: seq<byte>, number: nat, total: nat, name: seq<byte>): (h: seq<byte>)
    requires |time| == 24 && number < 10000 && total < 10000
    ensures |h| == Gsplit.HEADER_REC_LEN
  {
    HDR_SPLIT_TAG + time + Gsplit.Blanks(6) + Gsplit.FILE_NO + Gsplit.Ntoc(number) + Gsplit.OF + Gsplit.Ntoc(total)
    + Gsplit.COMMA_BLANK + NameField(name)
  }

  /** A split header's tag is gbak's or gsplit's, its numbers are positive, and the file is one of the total. */
  function ReadHeader(f: Part): Option<Header> {
    var c := f.contents;
    if |c| < Gsplit.HEADER_REC_LEN || (c[..Gsplit.DATE_AT] != HDR_SPLIT_TAG && c[..Gsplit.DATE_AT] != Gsplit.HEADER_REC_NAME)
    then None
    else
      var number := Gsplit.Atoi(c[Gsplit.NUM_AT..Gsplit.HEADER_REC_LEN]);
      var total := Gsplit.Atoi(c[Gsplit.TOTAL_AT..Gsplit.HEADER_REC_LEN]);
      if 0 < number <= total then Some(Header(number, total)) else None
  }

  /** The fields that a header is recognized by. */
  predicate Stamped(h: seq<byte>, number: nat, total: nat)
    requires number < 10000 && total < 10000
  {
    && |h| == Gsplit.HEADER_REC_LEN
    && (h[..Gsplit.DATE_AT] == HDR_SPLIT_TAG || h[..Gsplit.DATE_AT] == Gsplit.HEADER_REC_NAME)
    && h[Gsplit.NUM_AT..Gsplit.TEXT2_AT] == Gsplit.Ntoc(number)
    && h[Gsplit.TEXT2_AT] == Gsplit.OF[0]
    && h[Gsplit.TOTAL_AT..Gsplit.TEXT3_AT] == Gsplit.Ntoc(total)
    && h[Gsplit.TEXT3_AT] == Gsplit.COMMA_BLANK[0]
  }

  /** Such a header reads back as its numbers, although the digits have no end of their own. */
  lemma StampedReads(f: Part, h: seq<byte>, number: nat, total: nat)
    requires 0 < number <= total < 10000 && Stamped(h, number, total) && h <= f.contents
    ensures ReadHeader(f) == Some(Header(number, total))
  {
    var c := f.contents;
    assert c[..Gsplit.DATE_AT] == h[..Gsplit.DATE_AT];
    var afterNumber, afterTotal := c[Gsplit.TEXT2_AT..Gsplit.HEADER_REC_LEN], c[Gsplit.TEXT3_AT..Gsplit.HEADER_REC_LEN];
    assert c[Gsplit.NUM_AT..Gsplit.TEXT2_AT] == h[Gsplit.NUM_AT..Gsplit.TEXT2_AT];
    assert c[Gsplit.TOTAL_AT..Gsplit.TEXT3_AT] == h[Gsplit.TOTAL_AT..Gsplit.TEXT3_AT];
    assert c[Gsplit.NUM_AT..Gsplit.HEADER_REC_LEN] == Gsplit.Ntoc(number) + afterNumber;
    assert c[Gsplit.TOTAL_AT..Gsplit.HEADER_REC_LEN] == Gsplit.Ntoc(total) + afterTotal;
    Gsplit.AtoiOfField(number, afterNumber);
    Gsplit.AtoiOfField(total, afterTotal);
  }

  lemma HeaderIsStamped(time: seq<byte>, number: nat, total: nat, name: seq<byte>)
    requires |time| == 24 && number < 10000 && total < 10000
    ensures Stamped(HeaderBytes(time, number, total, name), number, total)
  {
    hide Gsplit.Ntoc, Gsplit.Blanks, NameField;
    var h := HeaderBytes(time, number, total, name);
    assert h[..18] == HDR_SPLIT_TAG;
    assert h[59..63] == Gsplit.Ntoc(number);
    assert h[67..71] == Gsplit.Ntoc(total);
  }

  /** A restore takes the stand-alone splitter's files for its own. */
  lemma SplitterHeaderReads(f: Part, h: seq<byte>, number: nat, total: nat)
    requires 0 < number <= total < 10000 && Gsplit.IsHeader(h, number, total) && h <= f.contents
    ensures ReadHeader(f) == Some(Header(number, total))
  {
    hide Gsplit.Ntoc;
    assert h[..18] == Gsplit.HEADER_REC_NAME;
    assert h[59..63] == Gsplit.Ntoc(number) && h[67..71] == Gsplit.Ntoc(total);
    StampedReads(f, h, number, total);
  }

  /** The first files of the list are parts 1 to total, in this order, of one backup; a database file follows. */
  predicate Chain(fs: seq<Part>, total: nat) {
    && 0 < total < |fs|
    && (forall k :: 0 <= k < total ==> !fs[k].IsStdin() && fs[k].opens && ReadHeader(fs[k]) == Some(Header(k + 1, total)))
  }

  /** What each message says of the list: a file of the chain that is wrong, or the end of the list too early. */
  predicate Complaint(fs: seq<Part>, message: nat)
    requires fs != []
  {
    if message == 65 then exists k :: 0 <= k < |fs| && !fs[k].opens
    else if message == 263 then
      exists k :: 0 <= k < |fs| && ReadHeader(fs[k]).Some?
                  && ReadHeader(fs[0]).Some?
                  && ReadHeader(fs[k]).value != Header(k + 1, ReadHeader(fs[0]).value.total)
    else if message == 264 then ReadHeader(fs[0]).Some? && |fs| < ReadHeader(fs[0]).value.total
    else if message == 265 then exists k :: 1 <= k < |fs| && fs[k].IsStdin()
    else if message == 267 then exists k :: 1 <= k < |fs| && ReadHeader(fs[k]).None?
    else message == 268 && ReadHeader(fs[0]).Some? && |fs| == ReadHeader(fs[0]).value.total
  }

  /** The check of the sequence of backup files before a restore. */
  method OpenFiles(fs: seq<Part>) returns (r: Joining)
    requires fs != []
    ensures forall total :: r == Joined(total) <==> Chain(fs, total)
    ensures r == Single <==> fs[0].IsStdin() || (fs[0].opens && ReadHeader(fs[0]) == None)
    ensures r.Failed? ==> Complaint(fs, r.message)
  {
    if fs[0].IsStdin() {
      return Single;
    }
    if !fs[0].opens {
      return Failed(65);
    }
    var first := ReadHeader(fs[0]);
    if first.None? {
      return Single;
    }
    var total := first.value.total;
    if first.value.sequence != 1 {
      return Failed(263);
    }
    var k := 1;
    while k < total
      invariant 1 <= k <= total && k <= |fs|
      invariant forall i :: 0 <= i < k ==>
                  !fs[i].IsStdin() && fs[i].opens && ReadHeader(fs[i]) == Some(Header(i + 1, total))
    {
      if k == |fs| {
        return Failed(264);
      }
      if fs[k].IsStdin() {
        return Failed(265);
      }
      if !fs[k].opens {
        return Failed(65);
      }
      var header := ReadHeader(fs[k]);
      if header.None? {
        return Failed(267);
      }
      if header.value != Header(k + 1, total) {
        return Failed(263);
      }
      k := k + 1;
    }
    if k == |fs| {
      return Failed(268);
    }
    r := Joined(total);
  }

  // ----- reading

  class Restore {
    const fs: seq<Part>
    const total: nat
    var act: nat
    var offset: nat
    const buffer: array<byte>
    var ptr: nat
    var cnt: nat

    ghost predicate Valid()
      reads this`act, this`offset, this`ptr, this`cnt
    {
      && Chain(fs, total) && act < total <= |fs| && offset <= |fs[act].Payload()|
      && buffer.Length > 0 && ptr + cnt <= buffer.Length
    }

    /** What no read has delivered yet. */
    ghost function Rest(): seq<byte>
      requires act < total <= |fs| && offset <= |fs[act].Payload()|
      reads this`act, this`offset
    {
      fs[act].Payload()[offset..] + Flatten(Payloads(fs[act + 1..total]))
    }

    ghost function Remaining(): seq<byte>
      requires Valid()
      reads this, buffer
    {
      buffer[ptr..ptr + cnt] + Rest()
    }

    constructor (fs: seq<Part>, total: nat, buffer: array<byte>)
      requires Chain(fs, total) && buffer.Length > 0
      ensures Valid() && Remaining() == Flatten(Payloads(fs[..total])) && this.fs == fs && this.total == total
      ensures this.buffer == buffer
    {
      this.fs, this.total, act, offset := fs, total, 0, 0;
      this.buffer, ptr, cnt := buffer, 0, 0;
      new;
      WholeRest(fs, total);
      hide Chain, ReadHeader, Part.IsStdin, Part.Payload, Flatten, Payloads;
      assert buffer[ptr..ptr + cnt] == [];
      EmptyPlus(Rest());
    }

    /** The operating system reads some of the file, and nothing only at its end. */
    method ReadSome() returns (n: nat)
      requires Valid() && cnt == 0
      modifies this`offset, buffer
      ensures Valid() && n <= buffer.Length && (n == 0 ==> offset == |fs[act].Payload()|)
      ensures buffer[..n] + Rest() == old(Rest())
    {
      hide Flatten, Payloads, Chain;
      var left := |fs[act].Payload()| - offset;
      var most := if left < buffer.Length then left else buffer.Length;
      n := 0;
      if most > 0 {
        n :| 0 < n <= most;
      }
      forall i | 0 <= i < n {
        buffer[i] := fs[act].Payload()[offset + i];
      }
      assert buffer[..n] == fs[act].Payload()[offset..offset + n];
      RestSplit(fs[act].Payload(), offset, n, Flatten(Payloads(fs[act + 1..total])));
      offset := offset + n;
    }

    /** The next part, unless this was the last. */
    method NextVolume() returns (ok: bool)
      requires Valid() && cnt == 0 && offset == |fs[act].Payload()|
      modifies this`act, this`offset
      ensures Valid() && Rest() == old(Rest()) && act == old(act) + (if ok then 1 else 0)
      ensures !ok ==> old(Rest()) == []
    {
      hide ReadHeader, Part.Payload, Part.IsStdin;
      assert ReadHeader(fs[act]) == Some(Header(act + 1, total));
      hide Flatten, Payloads, Chain;
      NothingLeft(fs[act].Payload());
      if total > ReadHeader(fs[act]).value.sequence {
        PartsFrom(fs, act + 1, total);
        act, offset := act + 1, 0;
        return true;
      }
      PartsEnd(fs, total);
      ok := false;
    }

    /** A buffer's worth from the next part that has any. */
    method Refill() returns (n: nat)
      requires Valid() && cnt == 0
      modifies this`act, this`offset, buffer
      ensures Valid() && act >= old(act) && n <= buffer.Length
      ensures buffer[..n] + Rest() == old(Rest()) && (n == 0 ==> old(Rest()) == [])
    {
      hide Flatten, Payloads, Chain, Rest;
      ghost var rest := Rest();
      while true
        invariant Valid() && act >= old(act) && Rest() == rest
        decreases total - act
      {
        EmptyPlus(rest);
        n := ReadSome();
        if n > 0 {
          return;
        }
        EmptyPlus(Rest());
        assert buffer[..n] == [];
        var more := NextVolume();
        if !more {
          return;
        }
      }
    }

    /** A buffer's worth, and its first byte. */
    method Read() returns (b: byte, ok: bool)
      requires Valid() && cnt == 0
      modifies this`act, this`offset, this`ptr, this`cnt, buffer
      ensures Valid() && act >= old(act)
      ensures ok <==> old(Remaining()) != []
      ensures ok ==> b == old(Remaining())[0] && Remaining() == old(Remaining())[1..]
    {
      EmptyPlus(Rest());
      assert buffer[ptr..ptr + cnt] == [];
      ghost var all := Remaining();
      assert all == Rest();
      hide Flatten, Payloads, Chain, Rest;
      var n := Refill();
      if n == 0 {
        return 0, false;
      }
      ghost var head := buffer[..n];
      FirstOf(head, Rest());
      b := buffer[0];
      ptr, cnt := 1, n - 1;
      ok := true;
      assert buffer[ptr..ptr + cnt] == head[1..];
      assert Remaining() == head[1..] + Rest();
    }

    /** Bytes that are in the buffer are passed. */
    method Take(n: nat) returns (s: seq<byte>)
      requires Valid() && n <= cnt
      modifies this`ptr, this`cnt
      ensures Valid() && |s| == n && s + Remaining() == old(Remaining())
    {
      hide ReadHeader, Chain, Part.Payload, Part.IsStdin;
      ghost var rest := Rest();
      s := buffer[ptr..ptr + n];
      ptr, cnt := ptr + n, cnt - n;
      hide Rest;
      assert s + buffer[ptr..ptr + cnt] == old(buffer[ptr..ptr + cnt]);
      assert s + (buffer[ptr..ptr + cnt] + rest) == s + buffer[ptr..ptr + cnt] + rest;
    }

    /** One byte if the buffer is empty, and what else it holds of what is wanted. */
    method ReadPart(count: nat) returns (s: seq<byte>, ok: bool)
      requires Valid() && 0 < count
      modifies this`act, this`offset, this`ptr, this`cnt, buffer
      ensures Valid() && (ok <==> old(Remaining()) != [])
      ensures ok ==> 0 < |s| <= count && s + Remaining() == old(Remaining())
    {
      hide Chain, Flatten, Payloads, Rest, Remaining;
      s, ok := [], true;
      if cnt == 0 {
        ghost var all := Remaining();
        var b;
        b, ok := Read();
        if !ok {
          return;
        }
        s := [b];
        assert all == [all[0]] + all[1..];
      } else {
        RemainingIsNotEmpty();
      }
      var more := Take(if count - |s| < cnt then count - |s| else cnt);
      assert s + more + Remaining() == s + (more + Remaining());
      s := s + more;
    }

    lemma RemainingIsNotEmpty()
      requires Valid() && cnt > 0
      ensures Remaining() != []
    {
    }

    /** Whatever chunks the system reads, the next bytes of the joined payloads in order; or there are not so many. */
    method ReadBlock(count: nat) returns (s: seq<byte>, ok: bool)
      requires Valid()
      modifies this`act, this`offset, this`ptr, this`cnt, buffer
      ensures Valid() && (ok <==> count <= |old(Remaining())|)
      ensures ok ==> |s| == count && s + Remaining() == old(Remaining())
    {
      hide Chain, Flatten, Payloads, Rest, Remaining;
      s := [];
      while |s| < count
        invariant |s| <= count && Valid() && s + Remaining() == old(Remaining())
        decreases count - |s|
      {
        var more;
        more, ok := ReadPart(count - |s|);
        if !ok {
          return;
        }
        assert s + more + Remaining() == s + (more + Remaining());
        s := s + more;
      }
      ok := true;
    }

    /** Skipping leaves what reading would. */
    method SkipBlock(count: nat) returns (ok: bool)
      requires Valid()
      modifies this`act, this`offset, this`ptr, this`cnt, buffer
      ensures Valid() && (ok <==> count <= |old(Remaining())|)
      ensures ok ==> Remaining() == old(Remaining())[count..]
    {
      hide Chain, Flatten, Payloads, Rest, Remaining;
      var left: nat := count;
      ghost var s: seq<byte> := [];
      while left > 0
        invariant |s| + left == count && Valid() && s + Remaining() == old(Remaining())
      {
        var more;
        more, ok := ReadPart(left);
        if !ok {
          return;
        }
        assert s + more + Remaining() == s + (more + Remaining());
        s, left := s + more, left - |more|;
      }
      ok := true;
    }
  }

  lemma RestSplit(payload: seq<byte>, at: nat, n: nat, more: seq<byte>)
    requires at + n <= |payload|
    ensures payload[at..at + n] + (payload[at + n..] + more) == payload[at..] + more
  {
    assert payload[at..] == payload[at..at + n] + payload[at + n..];
  }

  lemma NothingLeft(payload: seq<byte>)
    ensures forall s: seq<byte> :: payload[|payload|..] + s == s
  {
  }

  lemma WholeRest(fs: seq<Part>, total: nat)
    requires 0 < total <= |fs|
    ensures fs[0].Payload()[0..] + Flatten(Payloads(fs[0 + 1..total])) == Flatten(Payloads(fs[..total]))
  {
    hide Part.Payload, Flatten, Payloads;
    PartsFrom(fs, 0, total);
    assert fs[0..total] == fs[..total];
  }

  /** What is left in the parts from the next one on. */
  lemma PartsFrom(fs: seq<Part>, k: nat, total: nat)
    requires k < total <= |fs|
    ensures Flatten(Payloads(fs[k..total])) == fs[k].Payload()[0..] + Flatten(Payloads(fs[k + 1..total]))
  {
    FlattenFirst(Payloads(fs[k..total]));
    SamePieces(Payloads(fs[k..total])[1..], Payloads(fs[k + 1..total]));
  }

  lemma PartsEnd(fs: seq<Part>, total: nat)
    requires total <= |fs|
    ensures Flatten(Payloads(fs[total..total])) == []
  {
  }

  lemma FirstOf(s: seq<byte>, t: seq<byte>)
    requires s != []
    ensures (s + t)[0] == s[0] && (s + t)[1..] == s[1..] + t
  {
  }

  function Payloads(fs: seq<Part>): (p: seq<seq<byte>>)
    ensures |p| == |fs| && forall i :: 0 <= i < |fs| ==> p[i] == fs[i].Payload()
  {
    seq(|fs|, i requires 0 <= i < |fs| => fs[i].Payload())
  }

  /** What a file of a split is given besides its bytes. */
  datatype Label = Label(name: seq<byte>, time: seq<byte>)

  predicate Labels(labels: seq<Label>) {
    |labels| < 10000 && forall i :: 0 <= i < |labels| ==> |labels[i].time| == 24 && labels[i].name != STDIN
  }

  /** What a split leaves on disk: every file behind its header, and the database to restore into. */
  function Parts(labels: seq<Label>, payloads: seq<seq<byte>>, database: Part): (fs: seq<Part>)
    requires Labels(labels) && |labels| == |payloads|
    ensures |fs| == |payloads| + 1
  {
    seq(|payloads|, i requires 0 <= i < |payloads| =>
      Part(labels[i].name, true,
           HeaderBytes(labels[i].time, i + 1, |payloads|, labels[i].name) + payloads[i]))
    + [database]
  }

  /**
   Splitting and joining is the identity: whatever sizes the files were given, however much each
   write and each read moved, the restore accepts the files by their headers and sees what the
   backup wrote, and behind it less than a block of padding.
   */
  lemma JoinedIsSplit(labels: seq<Label>, payloads: seq<seq<byte>>, database: Part, s: seq<byte>, padding: seq<byte>)
    requires Labels(labels) && |labels| == |payloads| && payloads != [] && Flatten(payloads) == s + padding
    ensures var fs := Parts(labels, payloads, database);
            Chain(fs, |payloads|) && Flatten(Payloads(fs[..|payloads|])) == s + padding
  {
    hide HeaderBytes, ReadHeader, Part.Payload, Part.IsStdin, Flatten;
    var fs := Parts(labels, payloads, database);
    hide Parts;
    forall k: nat | k < |payloads|
      ensures !fs[k].IsStdin() && fs[k].opens && fs[k].Payload() == payloads[k]
              && ReadHeader(fs[k]) == Some(Header(k + 1, |payloads|))
    {
      PartIsRead(labels, payloads, database, k);
    }
    SamePieces(Payloads(fs[..|payloads|]), payloads);
  }

  lemma PartIsRead(labels: seq<Label>, payloads: seq<seq<byte>>, database: Part, k: nat)
    requires Labels(labels) && |labels| == |payloads| && k < |payloads|
    ensures var f := Parts(labels, payloads, database)[k];
            && !f.IsStdin() && f.opens && f.Payload() == payloads[k]
            && ReadHeader(f) == Some(Header(k + 1, |payloads|))
  {
    hide HeaderBytes, ReadHeader, Stamped;
    var f := Parts(labels, payloads, database)[k];
    var h := HeaderBytes(labels[k].time, k + 1, |payloads|, labels[k].name);
    assert f.contents == h + payloads[k];
    HeaderIsStamped(labels[k].time, k + 1, |payloads|, labels[k].name);
    StampedReads(f, h, k + 1, |payloads|);
  }

  /** A whole backup: blocks of any length, and the end; what it leaves in the files. */
  method Split(backup: Backup, blocks: seq<seq<byte>>, endOfRecords: byte) returns (payloads: seq<seq<byte>>, ok: bool)
    requires backup.Valid()
    modifies backup, backup.files, backup.buffer
    ensures ok ==> payloads != [] && old(backup.Stream() + backup.Pending()) + Flatten(blocks) <= Flatten(payloads)
    ensures Sum(backup.granted) == old(Sum(backup.granted))
    ensures |payloads| <= |backup.files| && (ok ==> |payloads| == |backup.files|)
    ensures !ok ==> backup.GivenUp()
    ensures ok ==> WithinSizes(payloads, backup.granted)
  {
    assert backup.files != [];
    hide Flatten, Backup.Stream, Backup.Pending, Backup.Budgeted, Backup.Buffered, Sum;
    ghost var all := backup.Stream() + backup.Pending() + Flatten(blocks);
    payloads, ok := [], true;
    var rest := blocks;
    while rest != []
      invariant backup.Valid() && backup.Stream() + backup.Pending() + Flatten(rest) == all
      invariant Sum(backup.granted) == old(Sum(backup.granted))
      decreases |rest|
    {
      ghost var before := backup.Stream() + backup.Pending();
      FlattenFirst(rest);
      ok := backup.WriteBlock(rest[0]);
      if !ok {
        return;
      }
      Assoc(before, rest[0], Flatten(rest[1..]));
      rest := rest[1..];
    }
    FlattenEmpty(rest);
    assert backup.Stream() + backup.Pending() + [] == backup.Stream() + backup.Pending();
    ok := backup.Finish(endOfRecords);
    payloads := backup.Payloads();
    if ok {
      StreamIs(backup);
    }
  }

  lemma Prefix(s: seq<byte>, whole: seq<byte>, n: nat)
    requires s <= whole && n <= |s|
    ensures whole == s + whole[|s|..] && whole[..n] == s[..n]
  {
  }

  /** No file but the last holds more than it was granted. */
  predicate WithinSizes(payloads: seq<seq<byte>>, granted: seq<nat>) {
    |payloads| == |granted| && forall i :: 0 <= i < |payloads| - 1 ==> |payloads[i]| <= granted[i]
  }

  lemma StreamIs(backup: Backup)
    requires backup.Budgeted()
    ensures backup.Stream() == Flatten(backup.Payloads()) && WithinSizes(backup.Payloads(), backup.granted)
  {
  }

  /** A whole restore of so many bytes. */
  method Join(fs: seq<Part>, count: nat, buffer: array<byte>) returns (s: seq<byte>, ok: bool)
    requires fs != [] && buffer.Length > 0
    modifies buffer
    ensures forall total: nat :: Chain(fs, total) ==>
              (ok <==> count <= |Flatten(Payloads(fs[..total]))|) && (ok ==> s == Flatten(Payloads(fs[..total]))[..count])
  {
    s, ok := [], false;
    var joining := OpenFiles(fs);
    if joining.Joined? {
      hide Chain, Flatten, Restore.Remaining;
      var restore := new Restore(fs, joining.total, buffer);
      s, ok := restore.ReadBlock(count);
    }
  }

  /** The whole way there and back, with every write and every read as long or short as the system likes. */
  method SplitThenJoin(backup: Backup, blocks: seq<seq<byte>>, endOfRecords: byte, labels: seq<Label>,
                       database: Part, buffer: array<byte>, count: nat)
    returns (s: seq<byte>, written: bool, joined: bool)
    requires backup.Valid() && buffer.Length > 0 && Labels(labels) && |labels| == |backup.files|
    requires count <= |backup.Stream() + backup.Pending() + Flatten(blocks)|
    modifies backup, backup.files, backup.buffer, buffer
    ensures !written ==> backup.GivenUp()
    ensures written ==> joined && s == old(backup.Stream() + backup.Pending() + Flatten(blocks))[..count]
  {
    s, joined := [], false;
    ghost var all := backup.Stream() + backup.Pending() + Flatten(blocks);
    hide Flatten, Chain, Parts, Payloads, Backup.Valid, Backup.Stream, Backup.Pending;
    var payloads;
    payloads, written := Split(backup, blocks, endOfRecords);
    if written {
      ghost var padding := Flatten(payloads)[|all|..];
      Prefix(all, Flatten(payloads), count);
      JoinedIsSplit(labels, payloads, database, all, padding);
      s, joined := Join(Parts(labels, payloads, database), count, buffer);
    }
  }
}
