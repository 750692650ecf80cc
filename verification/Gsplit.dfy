/**
 The stand-alone splitter: standard input cut into files of given sizes, each behind a header
 with its number and the total, and the files joined again after a check of their numbers.
 */
module Gsplit {
  import opened Bytes
  import opened Streams

  const BLANK: byte := 32
  const ZERO: byte := 48
  const PLUS: byte := 43
  const MINUS: byte := 45
  const IO_BUFFER_SIZE: nat := 16384
  const MIN_FILE_SIZE: nat := 1048576
  const MAX_NUM_OF_FILES: nat := 9999

  // ----- numbers

  function Digits(n: nat): (s: seq<byte>)
    ensures |s| > 0
  {
    if n < 10 then [ZERO + n] else Digits(n / 10) + [ZERO + n % 10]
  }

  function Blanks(k: nat): (s: seq<byte>)
    ensures |s| == k && forall i :: 0 <= i < k ==> s[i] == BLANK
  {
    if k == 0 then [] else [BLANK] + Blanks(k - 1)
  }

  lemma FewDigits(n: nat)
    requires n < 10000
    ensures |Digits(n)| <= 4
  {
    assert n >= 10 ==> Digits(n) == Digits(n / 10) + [ZERO + n % 10];
    assert n >= 100 ==> Digits(n / 10) == Digits(n / 10 / 10) + [ZERO + n / 10 % 10];
    assert n >= 1000 ==> Digits(n / 10 / 10) == Digits(n / 10 / 10 / 10) + [ZERO + n / 10 / 10 % 10];
  }

  /** Four characters, right-aligned. */
  function Ntoc(n: nat): (s: seq<byte>)
    requires n < 10000
    ensures |s| == 4
  {
    FewDigits(n);
    Blanks(4 - |Digits(n)|) + Digits(n)
  }

  predicate IsDigit(c: byte) {
    ZERO <= c < ZERO + 10
  }

  predicate IsSpace(c: byte) {
    c == BLANK || 9 <= c <= 13
  }

  /** The C library's reading of a number: white space, a sign, then digits up to anything else. */
  function Atoi(s: seq<byte>): int {
    if s == [] then 0
    else if IsSpace(s[0]) then Atoi(s[1..])
    else if s[0] == MINUS then (0 - Value(s[1..], 0)) as int
    else if s[0] == PLUS then Value(s[1..], 0)
    else Value(s, 0)
  }

  function Value(s: seq<byte>, v: nat): nat {
    if s == [] || !IsDigit(s[0]) then v else Value(s[1..], 10 * v + (s[0] - ZERO))
  }

  lemma {:induction false} ValueSnoc(s: seq<byte>, v: nat, c: byte)
    requires IsDigit(c) && forall i :: 0 <= i < |s| ==> IsDigit(s[i])
    ensures Value(s + [c], v) == 10 * Value(s, v) + (c - ZERO)
  {
    if s == [] {
      assert (s + [c])[1..] == [];
    } else {
      assert (s + [c])[1..] == s[1..] + [c];
      ValueSnoc(s[1..], 10 * v + (s[0] - ZERO), c);
    }
  }

  lemma {:induction false} ValueOfDigits(n: nat)
    ensures forall i :: 0 <= i < |Digits(n)| ==> IsDigit(Digits(n)[i])
    ensures Value(Digits(n), 0) == n
  {
    if n < 10 {
      assert Digits(n)[1..] == [];
    } else {
      ValueOfDigits(n / 10);
      ValueSnoc(Digits(n / 10), 0, ZERO + n % 10);
    }
  }

  lemma {:induction false} AtoiBlanks(k: nat, s: seq<byte>)
    ensures Atoi(Blanks(k) + s) == Atoi(s)
  {
    if k == 0 {
      assert Blanks(k) + s == s;
    } else {
      assert (Blanks(k) + s)[1..] == Blanks(k - 1) + s;
      AtoiBlanks(k - 1, s);
    }
  }

  lemma {:induction false} ValueStops(s: seq<byte>, v: nat, more: seq<byte>)
    requires (forall i :: 0 <= i < |s| ==> IsDigit(s[i])) && (more != [] ==> !IsDigit(more[0]))
    ensures Value(s + more, v) == Value(s, v)
  {
    if s == [] {
      assert s + more == more;
    } else {
      assert (s + more)[1..] == s[1..] + more;
      ValueStops(s[1..], 10 * v + (s[0] - ZERO), more);
    }
  }

  /** A number read back is the number written, whatever follows that is no digit. */
  lemma AtoiOfField(n: nat, more: seq<byte>)
    requires n < 10000 && (more != [] ==> !IsDigit(more[0]))
    ensures Atoi(Ntoc(n) + more) == n
  {
    FewDigits(n);
    var k := 4 - |Digits(n)|;
    assert Ntoc(n) == Blanks(k) + Digits(n);
    hide Ntoc, Digits, Blanks, Value, Atoi;
    ValueOfDigits(n);
    Assoc(Blanks(k), Digits(n), more);
    AtoiBlanks(k, Digits(n) + more);
    AtoiOfDigits(Digits(n), more);
  }

  lemma AtoiOfDigits(s: seq<byte>, more: seq<byte>)
    requires s != [] && (forall i :: 0 <= i < |s| ==> IsDigit(s[i])) && (more != [] ==> !IsDigit(more[0]))
    ensures Atoi(s + more) == Value(s, 0)
  {
    ValueStops(s, 0, more);
    assert (s + more)[0] == s[0] && IsDigit(s[0]);
    hide Value;
  }

  lemma AtoiOfNtoc(n: nat)
    requires n < 10000
    ensures Atoi(Ntoc(n)) == n
  {
    AtoiOfField(n, []);
    assert Ntoc(n) + [] == Ntoc(n);
  }

  /** What a number field looks like: blanks, then digits with no leading zero. */
  predicate NumberField(s: seq<byte>, k: nat) {
    && |s| == 4 && k < 4 && s[..k] == Blanks(k)
    && (forall i :: k <= i < 4 ==> IsDigit(s[i])) && (s[k] != ZERO || k == 3)
  }

  lemma {:induction false} DigitsOfValue(s: seq<byte>)
    requires s != [] && (forall i :: 0 <= i < |s| ==> IsDigit(s[i])) && (s[0] != ZERO || |s| == 1)
    ensures Digits(Value(s, 0)) == s && (s[0] != ZERO ==> Value(s, 0) > 0)
    decreases |s|
  {
    var n := |s| - 1;
    assert s == s[..n] + [s[n]];
    ValueSnoc(s[..n], 0, s[n]);
    if n > 0 {
      DigitsOfValue(s[..n]);
      var v, d := Value(s[..n], 0), s[n] - ZERO;
      assert (10 * v + d) / 10 == v && (10 * v + d) % 10 == d;
    } else {
      assert s[..0] == [] && Value([], 0) == 0;
    }
  }

  /** A field written back is the field read. */
  lemma NtocOfAtoi(s: seq<byte>, k: nat)
    requires NumberField(s, k)
    ensures 0 <= Atoi(s) < 10000 && Ntoc(Atoi(s)) == s
  {
    assert s == Blanks(k) + s[k..];
    AtoiBlanks(k, s[k..]);
    assert IsDigit(s[k..][0]);
    DigitsOfValue(s[k..]);
    FourDigits(s[k..]);
  }

  function Ten(k: nat): nat {
    if k == 0 then 1 else 10 * Ten(k - 1)
  }

  lemma {:induction false} ValueBound(s: seq<byte>, v: nat, b: nat)
    requires v < b
    ensures Value(s, v) < b * Ten(|s|)
  {
    if s != [] && IsDigit(s[0]) {
      ValueBound(s[1..], 10 * v + (s[0] - ZERO), 10 * b);
      assert 10 * b * Ten(|s| - 1) == b * Ten(|s|);
    } else {
      TenPositive(|s|, v, b);
    }
  }

  lemma {:induction false} TenPositive(k: nat, v: nat, b: nat)
    requires v < b
    ensures v < b * Ten(k)
  {
    if k > 0 {
      TenPositive(k - 1, v, b);
      assert b * Ten(k) == 10 * (b * Ten(k - 1));
    }
  }

  lemma FourDigits(s: seq<byte>)
    requires |s| <= 4
    ensures Value(s, 0) < 10000
  {
    ValueBound(s, 0, 1);
    assert Ten(1) == 10 && Ten(2) == 100 && Ten(3) == 1000 && Ten(4) == 10000;
  }

  method ConvNtoc(n: nat, out: array<byte>)
    requires n < 10000 && out.Length >= 4
    modifies out
    ensures out[..4] == Ntoc(n)
    ensures out[4..] == old(out[4..])
  {
    FewDigits(n);
    var i, index := n, 3;
    ghost var done: seq<byte> := [];
    while true
      invariant 0 <= index <= 3 && 0 <= i < 10000 && Digits(n) == Digits(i) + done
      invariant |done| == 3 - index && out[index + 1..4] == done && out[4..] == old(out[4..])
      decreases i
    {
      Assoc(Digits(i / 10), [ZERO + i % 10], done);
      done := [ZERO + i % 10] + done;
      out[index] := ZERO + i % 10;
      index := index - 1;
      if i / 10 <= 0 {
        break;
      }
      i := i / 10;
    }
    assert done == Digits(n);
    ghost var blanks := index + 1;
    while index >= 0
      invariant -1 <= index < blanks && out[4..] == old(out[4..]) && out[blanks..4] == done
      invariant forall j :: index < j < blanks ==> out[j] == BLANK
    {
      out[index] := BLANK;
      index := index - 1;
    }
    assert out[..4] == out[..blanks] + out[blanks..4];
    assert out[..blanks] == Blanks(blanks);
  }

  // ----- the header record

  const HEADER_REC_LEN: nat := 100
  const NAME_AT: nat := 0
  const DATE_AT: nat := 18
  const TEXT1_AT: nat := 48
  const NUM_AT: nat := 59
  const TEXT2_AT: nat := 63
  const TOTAL_AT: nat := 67
  const TEXT3_AT: nat := 71
  const FL_NAME_AT: nat := 73
  const MAX_FILE_NM_LEN: nat := 27

  /** "InterBase/gsplit, " */
  const HEADER_REC_NAME: seq<byte> := [73, 110, 116, 101, 114, 66, 97, 115, 101, 47, 103, 115, 112, 108, 105, 116, 44, 32]
  const FILE_NO: seq<byte> := [44, 32, 102, 105, 108, 101, 32, 78, 111, 46, 32]
  const OF: seq<byte> := [32, 111, 102, 32]
  const COMMA_BLANK: seq<byte> := [44, 32]

  /** Line ends and terminators become blanks. */
  function Cleaned(s: seq<byte>): (r: seq<byte>)
    ensures |r| == |s|
    ensures (forall i :: 0 <= i < |s| ==> s[i] != 10 && s[i] != 0) ==> r == s
  {
    seq(|s|, i requires 0 <= i < |s| => if s[i] == 10 || s[i] == 0 then BLANK else s[i])
  }

  lemma NtocIsClean(n: nat)
    requires n < 10000
    ensures Cleaned(Ntoc(n)) == Ntoc(n)
  {
    ValueOfDigits(n);
    FewDigits(n);
    forall i | 0 <= i < 4
      ensures Ntoc(n)[i] == BLANK || IsDigit(Ntoc(n)[i])
    {
      var k := 4 - |Digits(n)|;
      assert Ntoc(n) == Blanks(k) + Digits(n);
    }
  }

  method SetHdrStr(header: array<byte>, s: seq<byte>, pos: nat)
    requires pos + |s| <= header.Length
    modifies header
    ensures forall i :: 0 <= i < header.Length ==>
              header[i] == if pos <= i < pos + |s| then Cleaned(s)[i - pos] else old(header[i])
  {
    forall i | 0 <= i < |s| {
      header[pos + i] := if s[i] == 10 || s[i] == 0 then BLANK else s[i];
    }
  }

  /** What every file's header has in common. */
  ghost predicate Template(h: seq<byte>, total: nat)
    requires total < 10000
  {
    && |h| == HEADER_REC_LEN
    && (forall i :: 0 <= i < DATE_AT ==> h[i] == HEADER_REC_NAME[i])
    && (forall i :: TEXT2_AT <= i < TOTAL_AT ==> h[i] == OF[i - TEXT2_AT])
    && (forall i :: TOTAL_AT <= i < TEXT3_AT ==> h[i] == Ntoc(total)[i - TOTAL_AT])
    && (forall i :: TEXT3_AT <= i < FL_NAME_AT ==> h[i] == COMMA_BLANK[i - TEXT3_AT])
  }

  /** A header of one file of so many. */
  ghost predicate IsHeader(h: seq<byte>, number: nat, total: nat)
    requires number < 10000 && total < 10000
  {
    Template(h, total) && forall i :: NUM_AT <= i < TEXT2_AT ==> h[i] == Ntoc(number)[i - NUM_AT]
  }

  method NewHeader(date: seq<byte>, total: nat) returns (header: array<byte>)
    requires |date| == TEXT1_AT - DATE_AT && total < 10000
    ensures fresh(header) && header.Length == HEADER_REC_LEN && Template(header[..], total)
  {
    header := new byte[HEADER_REC_LEN](_ => BLANK);
    SetHdrStr(header, HEADER_REC_NAME, NAME_AT);
    assert Cleaned(HEADER_REC_NAME) == HEADER_REC_NAME;
    SetHdrStr(header, date, DATE_AT);
    SetHdrStr(header, FILE_NO, TEXT1_AT);
    SetHdrStr(header, OF, TEXT2_AT);
    var number := new byte[5];
    ConvNtoc(total, number);
    NtocIsClean(total);
    SetHdrStr(header, number[..4], TOTAL_AT);
    SetHdrStr(header, COMMA_BLANK, TEXT3_AT);
  }

  // ----- files

  /** The system: whether one of its calls has failed. */
  class Device {
    var failed: bool

    constructor ()
      ensures !failed
    {
      failed := false;
    }

    method Call() returns (ok: bool)
      modifies this
      ensures failed == (old(failed) || !ok)
    {
      ok :| true;
      failed := failed || !ok;
    }
  }

  class File {
    const name: seq<byte>
    const number: nat
    var size: nat
    var created: bool
    var content: seq<byte>

    constructor (name: seq<byte>, number: nat, size: nat)
      ensures this.name == name && this.number == number && this.size == size && !created && content == []
    {
      this.name, this.number, this.size, created, content := name, number, size, false, [];
    }

    /** What is behind the header. */
    function Payload(): seq<byte>
      reads this
    {
      if |content| < HEADER_REC_LEN then [] else content[HEADER_REC_LEN..]
    }

    /** All of it is written, or the call fails. */
    method Write(s: seq<byte>, d: Device) returns (ok: bool)
      requires created
      modifies this`content, d
      ensures d.failed == (old(d.failed) || !ok)
      ensures ok ==> content == old(content) + s
    {
      ok := d.Call();
      if ok {
        content := content + s;
      }
    }
  }

  /** Standard input: reads are as short as the system likes, empty at the end alone, and may fail. */
  class Input {
    var rest: seq<byte>

    constructor (s: seq<byte>)
      ensures rest == s
    {
      rest := s;
    }

    method Read(n: nat, d: Device) returns (s: seq<byte>, ok: bool)
      requires n > 0
      modifies this, d
      ensures d.failed == (old(d.failed) || !ok)
      ensures |s| <= n && old(rest) == s + rest && (s == [] <==> old(rest) == [])
    {
      var most := if |rest| < n then |rest| else n;
      var k := 0;
      if most > 0 {
        k :| 0 < k <= most;
      }
      s, rest := rest[..k], rest[k..];
      ok := d.Call();
    }
  }

  /** The header of one file. */
  method Stamp(header: array<byte>, number: nat, name: seq<byte>, total: nat)
    requires number < 10000 && total < 10000 && |name| <= MAX_FILE_NM_LEN && Template(header[..], total)
    modifies header
    ensures IsHeader(header[..], number, total)
  {
    var digits := new byte[5];
    ConvNtoc(number, digits);
    NtocIsClean(number);
    hide Ntoc, Cleaned;
    SetHdrStr(header, digits[..4], NUM_AT);
    SetHdrStr(header, name, FL_NAME_AT);
  }

  /** The next name may be shorter. */
  method ClearName(header: array<byte>, length: nat, total: nat)
    requires total < 10000 && length <= MAX_FILE_NM_LEN && Template(header[..], total)
    modifies header
    ensures Template(header[..], total)
  {
    forall i | FL_NAME_AT <= i < FL_NAME_AT + length {
      header[i] := BLANK;
    }
  }

  method WriteHeader(f: File, header: array<byte>, total: nat, d: Device) returns (ok: bool)
    requires f.number < 10000 && total < 10000 && |f.name| <= MAX_FILE_NM_LEN && Template(header[..], total)
    requires f.created && f.content == []
    modifies f`content, header, d
    ensures d.failed == (old(d.failed) || !ok)
    ensures Template(header[..], total)
    ensures ok ==> IsHeader(f.content, f.number, total) && |f.content| == HEADER_REC_LEN && f.Payload() == []
  {
    Stamp(header, f.number, f.name, total);
    EmptyPlus(header[..]);
    ok := f.Write(header[..], d);
    hide Ntoc;
    ClearName(header, |f.name|, total);
  }

  // ----- splitting

  function Payloads(files: seq<File>): (p: seq<seq<byte>>)
    reads files
    ensures |p| == |files| && forall i :: 0 <= i < |files| ==> p[i] == files[i].Payload()
  {
    seq(|files|, i requires 0 <= i < |files| reads files => files[i].Payload())
  }

  ghost predicate Distinct(files: seq<File>) {
    forall i, j :: 0 <= i < |files| && 0 <= j < |files| && files[i] == files[j] ==> i == j
  }

  lemma Others(files: seq<File>, k: nat)
    requires Distinct(files) && k < |files|
    ensures forall i :: 0 <= i < |files| && i != k ==> files[i] != files[k]
  {
  }

  /** The first k files are made, each behind its header; the others are not. */
  ghost predicate Made(files: seq<File>, k: nat)
    reads files
  {
    && k <= |files| <= MAX_NUM_OF_FILES
    && Distinct(files)
    && (forall i :: 0 <= i < |files| ==> files[i].number == i + 1 && |files[i].name| <= MAX_FILE_NM_LEN)
    && (forall i :: 0 <= i < k ==> files[i].created && |files[i].content| >= HEADER_REC_LEN
                                    && IsHeader(files[i].content[..HEADER_REC_LEN], i + 1, |files|))
    && (forall i :: k <= i < |files| ==> !files[i].created && files[i].content == [])
  }

  method WriteTo(files: seq<File>, k: nat, s: seq<byte>, d: Device) returns (ok: bool)
    requires 0 < k && Made(files, k)
    modifies files[k - 1], d
    ensures d.failed == (old(d.failed) || !ok)
    ensures ok ==> Made(files, k) && files[k - 1].Payload() == old(files[k - 1].Payload()) + s
    ensures ok ==> files[k - 1].size == old(files[k - 1].size)
  {
    hide IsHeader, Distinct;
    var f := files[k - 1];
    Others(files, k - 1);
    ok := f.Write(s, d);
    assert ok ==> f.content[..HEADER_REC_LEN] == old(f.content[..HEADER_REC_LEN]);
  }

  /** What goes to the newest file goes to the end of the stream. */
  method Put(files: seq<File>, k: nat, s: seq<byte>, d: Device) returns (ok: bool)
    requires 0 < k && Made(files, k)
    modifies files[k - 1], d
    ensures d.failed == (old(d.failed) || !ok)
    ensures ok ==> Made(files, k) && Flatten(Payloads(files)) == old(Flatten(Payloads(files))) + s
    ensures ok ==> files[k - 1].Payload() == old(files[k - 1].Payload()) + s && files[k - 1].size == old(files[k - 1].size)
    ensures ok ==> forall i :: 0 <= i < |files| && i != k - 1 ==> files[i].Payload() == old(files[i].Payload())
  {
    ghost var before := Payloads(files);
    Others(files, k - 1);
    FlattenGrows(before, k - 1, s);
    hide Flatten, Made, Distinct, File.Payload;
    ok := WriteTo(files, k, s, d);
    if ok {
      SamePieces(Payloads(files), before[k - 1 := before[k - 1] + s]);
    }
  }

  /** A buffer's worth, but no more than the file still takes. */
  method ReadAndWrite(files: seq<File>, k: nat, input: Input, ioSize: nat, fileSize: nat, byteRead: nat, d: Device)
    returns (ok: bool, endOfInput: bool, newRead: nat)
    requires 0 < k && Made(files, k) && ioSize > 0 && byteRead < fileSize && |files[k - 1].Payload()| == byteRead
    modifies files[k - 1], input, d
    ensures d.failed == (old(d.failed) || !ok)
    ensures ok ==> Made(files, k) && newRead <= fileSize && |files[k - 1].Payload()| == newRead
    ensures ok ==> Flatten(Payloads(files)) + input.rest == old(Flatten(Payloads(files)) + input.rest)
    ensures ok ==> if endOfInput then input.rest == [] else newRead > byteRead
    ensures ok ==> forall i :: 0 <= i < |files| && i != k - 1 ==> files[i].Payload() == old(files[i].Payload())
    ensures ok ==> files[k - 1].size == old(files[k - 1].size)
  {
    ghost var f := files[k - 1];
    hide Flatten, Payloads, Made;
    endOfInput, newRead := false, byteRead;
    ghost var stream, all := Flatten(Payloads(files)), input.rest;
    var s;
    s, ok := input.Read(if byteRead + ioSize > fileSize then fileSize - byteRead else ioSize, d);
    if ok {
      if s == [] {
        endOfInput := true;
      } else {
        newRead := byteRead + |s|;
        ok := Put(files, k, s, d);
        Assoc(stream, s, input.rest);
      }
    }
  }

  /** A file that is not the last is filled, or the input ends. */
  method FillFile(files: seq<File>, k: nat, input: Input, ioSize: nat, fileSize: nat, d: Device) returns (ok: bool, endOfInput: bool)
    requires 0 < k && Made(files, k) && ioSize > 0 && fileSize > 0 && files[k - 1].Payload() == []
    modifies files[k - 1], input, d
    ensures d.failed == (old(d.failed) || !ok)
    ensures ok ==> Made(files, k) && Flatten(Payloads(files)) + input.rest == old(Flatten(Payloads(files)) + input.rest)
    ensures ok ==> if endOfInput then input.rest == [] && |files[k - 1].Payload()| <= fileSize
                   else |files[k - 1].Payload()| == fileSize
    ensures ok ==> forall i :: 0 <= i < |files| && i != k - 1 ==> files[i].Payload() == old(files[i].Payload())
    ensures ok ==> files[k - 1].size == old(files[k - 1].size)
  {
    ghost var f := files[k - 1];
    hide Flatten, Payloads, Made;
    ok, endOfInput := true, false;
    var byteRead := 0;
    while fileSize > byteRead
      invariant d.failed == old(d.failed)
      invariant ok && !endOfInput && byteRead <= fileSize && Made(files, k) && |f.Payload()| == byteRead
      invariant Flatten(Payloads(files)) + input.rest == old(Flatten(Payloads(files)) + input.rest)
      invariant forall i :: 0 <= i < |files| && i != k - 1 ==> files[i].Payload() == old(files[i].Payload())
      invariant f.size == old(f.size)
      decreases fileSize - byteRead
    {
      ok, endOfInput, byteRead := ReadAndWrite(files, k, input, ioSize, fileSize, byteRead, d);
      if !ok || endOfInput {
        return;
      }
    }
  }

  /** The last file takes all there is. */
  method FillLast(files: seq<File>, input: Input, ioSize: nat, d: Device) returns (ok: bool)
    requires files != [] && Made(files, |files|) && ioSize > 0
    modifies files[|files| - 1], input, d
    ensures d.failed == (old(d.failed) || !ok)
    ensures ok ==> Made(files, |files|) && input.rest == []
    ensures ok ==> Flatten(Payloads(files)) == old(Flatten(Payloads(files)) + input.rest)
    ensures ok ==> forall i :: 0 <= i < |files| - 1 ==> files[i].Payload() == old(files[i].Payload())
  {
    hide Flatten, Payloads, Made;
    ok := true;
    var endOfInput := false;
    while !endOfInput
      invariant d.failed == old(d.failed)
      invariant ok && Made(files, |files|) && (endOfInput ==> input.rest == [])
      invariant Flatten(Payloads(files)) + input.rest == old(Flatten(Payloads(files)) + input.rest)
      invariant forall i :: 0 <= i < |files| - 1 ==> files[i].Payload() == old(files[i].Payload())
      decreases |input.rest|, !endOfInput
    {
      ghost var stream := Flatten(Payloads(files));
      var s;
      s, ok := input.Read(ioSize, d);
      if !ok {
        return;
      }
      if s == [] {
        endOfInput := true;
      } else {
        ok := Put(files, |files|, s, d);
        if !ok {
          return;
        }
        Assoc(stream, s, input.rest);
      }
    }
    EmptyPlus(Flatten(Payloads(files)));
  }

  /** The next file is created behind its header. */
  method StartFile(files: seq<File>, k: nat, header: array<byte>, d: Device) returns (ok: bool)
    requires k < |files| && Made(files, k) && Template(header[..], |files|)
    modifies files[k], header, d
    ensures d.failed == (old(d.failed) || !ok)
    ensures Template(header[..], |files|)
    ensures ok ==> Made(files, k + 1) && Payloads(files) == old(Payloads(files)) && files[k].Payload() == []
    ensures ok ==> files[k].size == if k + 1 == |files| && old(files[k].size) == 0 then MIN_FILE_SIZE else old(files[k].size)
  {
    hide Ntoc, Template, IsHeader, Distinct;
    var f := files[k];
    ghost var before := Payloads(files);
    Others(files, k);
    if k + 1 == |files| && f.size == 0 {
      f.size := MIN_FILE_SIZE;
    }
    f.created := true;
    ok := WriteHeader(f, header, |files|, d);
    if ok {
      assert f.content[..HEADER_REC_LEN] == f.content;
      SamePieces(Payloads(files), before);
    }
  }

  /** From the k-th on, sizes a splitter accepts: at least the minimum, or none for the last file. */
  predicate ValidSizes(files: seq<File>, k: nat)
    requires k <= |files|
    reads files
  {
    forall i :: k <= i < |files| ==> files[i].size >= MIN_FILE_SIZE || (i == |files| - 1 && files[i].size == 0)
  }

  /** The first n files carry exactly their sizes. */
  ghost predicate Filled(files: seq<File>, n: nat)
    requires n <= |files|
    reads files
  {
    forall i :: 0 <= i < n ==> |files[i].Payload()| == files[i].size - HEADER_REC_LEN
  }

  /** One file: made, and filled unless the input ends. */
  method SplitOne(files: seq<File>, k: nat, input: Input, header: array<byte>, d: Device) returns (ok: bool, endOfInput: bool)
    requires k < |files| && Made(files, k) && Filled(files, k) && Template(header[..], |files|) && ValidSizes(files, k)
    modifies files[k], input, header, d
    ensures d.failed == (old(d.failed) || !ok)
    ensures Template(header[..], |files|)
    ensures ok ==> Made(files, k + 1) && Flatten(Payloads(files)) + input.rest == old(Flatten(Payloads(files)) + input.rest)
    ensures ok ==> ValidSizes(files, k + 1)
    ensures ok ==> if endOfInput then input.rest == [] && Filled(files, k) else k + 1 < |files| && Filled(files, k + 1)
  {
    hide Flatten, Template, Payloads, Distinct, File.Payload, IsHeader;
    Others(files, k);
    var f := files[k];
    endOfInput := false;
    ok := StartFile(files, k, header, d);
    if !ok {
      return;
    }
    hide Made;
    var fileSize := f.size - HEADER_REC_LEN;
    var ioSize := if fileSize < IO_BUFFER_SIZE then fileSize else IO_BUFFER_SIZE;
    if k + 1 == |files| {
      ok := FillLast(files, input, ioSize, d);
      endOfInput := true;
      EmptyPlus(Flatten(Payloads(files)));
    } else {
      ok, endOfInput := FillFile(files, k + 1, input, ioSize, fileSize, d);
    }
  }

  /**
   The input goes to the files in order; every file that is followed by another one that was
   made carries exactly its size, and the headers number the files made.
   */
  method GenMultiBackupFiles(files: seq<File>, input: Input, date: seq<byte>, d: Device) returns (ok: bool, made: nat)
    requires files != [] && Made(files, 0) && ValidSizes(files, 0) && |date| == TEXT1_AT - DATE_AT
    modifies files, input, d
    ensures d.failed == (old(d.failed) || !ok)
    ensures made <= |files| && (ok ==> 0 < made && Made(files, made) && input.rest == [])
    ensures ok ==> Flatten(Payloads(files)) == old(input.rest) && Filled(files, made - 1)
  {
    var header := NewHeader(date, |files|);
    ghost var all := input.rest;
    made := 0;
    FlattenEmpty(Payloads(files));
    EmptyPlus(all);
    hide Flatten, Template, Made, Filled, Payloads, ValidSizes;
    EmptyFilled(files);
    var endOfInput := false;
    while !endOfInput
      invariant d.failed == old(d.failed)
      invariant made <= |files| && fresh(header) && Template(header[..], |files|) && Made(files, made)
      invariant Flatten(Payloads(files)) + input.rest == all
      invariant ValidSizes(files, made)
      invariant if endOfInput then 0 < made && input.rest == [] && Filled(files, made - 1)
                else made < |files| && Filled(files, made)
      decreases |files| - made, !endOfInput
    {
      ok, endOfInput := SplitOne(files, made, input, header, d);
      if !ok {
        return;
      }
      made := made + 1;
    }
    ok := true;
    EmptyPlus(Flatten(Payloads(files)));
  }

  lemma EmptyFilled(files: seq<File>)
    ensures Filled(files, 0)
  {
  }

  // ----- joining

  /** The number a header gives, and the total. */
  function NumberOf(c: seq<byte>): int
    requires |c| >= HEADER_REC_LEN
  {
    Atoi(c[NUM_AT..TEXT2_AT])
  }

  function TotalOf(c: seq<byte>): int
    requires |c| >= HEADER_REC_LEN
  {
    Atoi(c[TOTAL_AT..TEXT3_AT])
  }

  /** The k-th file is one of a split, and its number is k + 1, not beyond the first one's total. */
  predicate Fits(contents: seq<seq<byte>>, k: nat)
    requires k < |contents|
  {
    var c := contents[k];
    && |c| >= HEADER_REC_LEN && |contents[0]| >= HEADER_REC_LEN
    && c[..DATE_AT - 1] == HEADER_REC_NAME[..DATE_AT - 1]
    && NumberOf(c) == k + 1 <= TotalOf(contents[0])
  }

  function Behind(contents: seq<seq<byte>>): (p: seq<seq<byte>>)
    requires forall k :: 0 <= k < |contents| ==> |contents[k]| >= HEADER_REC_LEN
    ensures |p| == |contents| && forall k :: 0 <= k < |contents| ==> p[k] == contents[k][HEADER_REC_LEN..]
  {
    seq(|contents|, k requires 0 <= k < |contents| => contents[k][HEADER_REC_LEN..])
  }

  /** Copies a file behind its header, whatever each read brings. */
  method CopyRest(input: Input, d: Device) returns (out: seq<byte>, ok: bool)
    modifies input, d
    ensures d.failed == (old(d.failed) || !ok)
    ensures ok ==> out == old(input.rest)
  {
    out := [];
    EmptyPlus(input.rest);
    var s;
    s, ok := input.Read(IO_BUFFER_SIZE, d);
    while ok && s != []
      invariant d.failed == (old(d.failed) || !ok)
      invariant ok ==> out + (s + input.rest) == old(input.rest) && (s == [] ==> input.rest == [])
      decreases |input.rest| + |s|, ok
    {
      Assoc(out, s, input.rest);
      out := out + s;
      s, ok := input.Read(IO_BUFFER_SIZE, d);
    }
    assert ok ==> out + ([] + []) == out;
  }

  datatype Joining = Joined | OutOfSequence | IoFailure

  /** One file: its header is checked, and what follows is copied. */
  method ReadAndWriteForJoin(contents: seq<seq<byte>>, k: nat, total: int, d: Device)
    returns (out: seq<byte>, r: Joining, newTotal: int)
    requires k < |contents| && (k > 0 ==> |contents[0]| >= HEADER_REC_LEN && total == TotalOf(contents[0]))
    modifies d
    ensures d.failed == (old(d.failed) || r == IoFailure)
    ensures r == OutOfSequence <==> !Fits(contents, k)
    ensures r == Joined ==> out == contents[k][HEADER_REC_LEN..] && newTotal == TotalOf(contents[0])
  {
    out, r, newTotal := [], OutOfSequence, total;
    var c := contents[k];
    if |c| < HEADER_REC_LEN || c[..DATE_AT - 1] != HEADER_REC_NAME[..DATE_AT - 1] {
      return;
    }
    if k == 0 {
      newTotal := Atoi(c[TOTAL_AT..TEXT3_AT]);
    }
    var number := Atoi(c[NUM_AT..TEXT2_AT]);
    if number != k + 1 || number > newTotal {
      return;
    }
    var input := new Input(c[HEADER_REC_LEN..]);
    var ok;
    out, ok := CopyRest(input, d);
    r := if ok then Joined else IoFailure;
  }

  /** The payloads in order, if the files are numbered from one in list order. */
  method JoinMultiBackupFiles(contents: seq<seq<byte>>, d: Device) returns (out: seq<byte>, r: Joining)
    modifies d
    ensures d.failed == (old(d.failed) || r == IoFailure)
    ensures r == Joined ==> forall k :: 0 <= k < |contents| ==> |contents[k]| >= HEADER_REC_LEN && Fits(contents, k)
    ensures r == Joined ==> out == Flatten(Behind(contents))
    ensures r == OutOfSequence ==> exists k :: 0 <= k < |contents| && !Fits(contents, k)
  {
    out, r := [], Joined;
    var total: int, k := 0, 0;
    ghost var pieces: seq<seq<byte>> := [];
    while k < |contents|
      invariant d.failed == old(d.failed)
      invariant k <= |contents| && out == Flatten(pieces) && |pieces| == k && r == Joined
      invariant forall i :: 0 <= i < k ==> Fits(contents, i) && pieces[i] == contents[i][HEADER_REC_LEN..]
      invariant k > 0 ==> |contents[0]| >= HEADER_REC_LEN && total == TotalOf(contents[0])
    {
      var piece;
      piece, r, total := ReadAndWriteForJoin(contents, k, total, d);
      if r != Joined {
        return;
      }
      assert (pieces + [piece])[..k] == pieces;
      out, pieces := out + piece, pieces + [piece];
      k := k + 1;
    }
    SamePieces(pieces, Behind(contents));
  }

  function Contents(files: seq<File>, k: nat): (c: seq<seq<byte>>)
    requires k <= |files|
    reads files
    ensures |c| == k && forall i :: 0 <= i < k ==> c[i] == files[i].content
  {
    seq(k, i requires 0 <= i < k reads files => files[i].content)
  }

  /** Files a split made pass the check of a join. */
  lemma MadeFits(files: seq<File>, k: nat, i: nat)
    requires Made(files, k) && i < k
    ensures Fits(Contents(files, k), i)
  {
    var c, first := files[i].content, files[0].content;
    AtoiOfNtoc(i + 1);
    AtoiOfNtoc(|files|);
    assert c[NUM_AT..TEXT2_AT] == Ntoc(i + 1);
    assert first[TOTAL_AT..TEXT3_AT] == Ntoc(|files|);
  }

  /** The files made hold the whole stream behind their headers. */
  lemma MadeHoldAll(files: seq<File>, k: nat)
    requires Made(files, k)
    ensures forall i :: 0 <= i < k ==> |Contents(files, k)[i]| >= HEADER_REC_LEN
    ensures Flatten(Behind(Contents(files, k))) == Flatten(Payloads(files))
  {
    hide IsHeader, Distinct, Flatten;
    var p := Payloads(files);
    assert forall i :: 0 <= i < k ==> |Contents(files, k)[i]| >= HEADER_REC_LEN;
    SamePieces(Behind(Contents(files, k)), p[..k]);
    FlattenEmpty(p[k..]);
    FlattenConcat(p[..k], p[k..]);
    assert p == p[..k] + p[k..];
  }

  /** What is split passes the check of the join and is the input again, however short the reads on either side. */
  method SplitThenJoin(files: seq<File>, input: Input, date: seq<byte>, d: Device) returns (out: seq<byte>, split: bool, r: Joining)
    requires files != [] && Made(files, 0) && ValidSizes(files, 0) && |date| == TEXT1_AT - DATE_AT
    modifies files, input, d
    ensures d.failed == (old(d.failed) || !split || r == IoFailure)
    ensures split ==> r != OutOfSequence && (r == Joined ==> out == old(input.rest))
    ensures !d.failed ==> r == Joined && out == old(input.rest)
  {
    out, r := [], IoFailure;
    hide Flatten, Fits, Behind, Filled, ValidSizes;
    var made;
    split, made := GenMultiBackupFiles(files, input, date, d);
    if split {
      MadeHoldAll(files, made);
      forall i | 0 <= i < made
        ensures Fits(Contents(files, made), i)
      {
        MadeFits(files, made, i);
      }
      out, r := JoinMultiBackupFiles(Contents(files, made), d);
    }
  }
}
