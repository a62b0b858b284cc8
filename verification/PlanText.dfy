/** The portable plan: one program prints it, the other reads it back after the first
    has exited. */
module PlanText {
  import opened Bytes
  import opened Wrappers
  import opened PortablePaths
  import opened Replacement

  const MAGIC := "ZZLOGG_PORTABLE_UPDATE_1"
  const MAX_LINE := 512
  const MAX_TEXT := 0x80_0000
  const U64_LIMIT := 0x1_0000_0000_0000_0000

  // ------------------------------------------------------------------ the numbers

  predicate Digit(c: char) {
    '0' <= c <= '9'
  }

  predicate Digits(s: string) {
    s != [] && forall i :: 0 <= i < |s| ==> Digit(s[i])
  }

  function DigitChar(d: nat): (c: char)
    requires d < 10
    ensures Digit(c) && DigitValue(c) == d
  {
    '0' + d as char
  }

  function DigitValue(c: char): (d: nat)
    requires Digit(c)
    ensures d < 10
  {
    c as int - '0' as int
  }

  function Decimal(n: nat): (s: string)
    ensures Digits(s) && Value(s) == n
  {
    if n < 10 then [DigitChar(n)]
    else
      var s := Decimal(n / 10);
      assert (s + [DigitChar(n % 10)])[..|s|] == s;
      s + [DigitChar(n % 10)]
  }

  function Value(s: string): (n: nat)
    requires Digits(s)
  {
    if |s| == 1 then DigitValue(s[0])
    else 10 * Value(s[..|s| - 1]) + DigitValue(s[|s| - 1])
  }

  function Power10(k: nat): (p: nat)
    ensures p > 0
  {
    if k == 0 then 1 else 10 * Power10(k - 1)
  }

  lemma {:induction false} DecimalLength(n: nat, k: nat)
    requires k > 0 && n < Power10(k)
    ensures |Decimal(n)| <= k
  {
    if n >= 10 {
      assert k > 1 by { assert Power10(1) == 10 * Power10(0); }
      DecimalLength(n / 10, k - 1);
    }
  }

  lemma SizeLength(n: nat)
    requires n < U64_LIMIT
    ensures |Decimal(n)| <= 20
  {
    calc {
      Power10(20);
      1000 * Power10(17);
      1000000 * Power10(14);
      1000000000 * Power10(11);
      1000000000000 * Power10(8);
      1000000000000000 * Power10(5);
      1000000000000000000 * Power10(2);
    }
    assert Power10(2) == 10 * Power10(1) && Power10(1) == 10 * Power10(0);
    DecimalLength(n, 20);
  }

  // -------------------------------------------------------------------- the lines

  function Lines(ls: seq<string>): (text: string) {
    if ls == [] then [] else ls[0] + ['\n'] + Lines(ls[1..])
  }

  lemma {:induction false} LinesSnoc(ls: seq<string>, l: string)
    ensures Lines(ls + [l]) == Lines(ls) + (l + ['\n'])
  {
    if ls == [] {
      assert [l][1..] == [];
    } else {
      assert (ls + [l])[1..] == ls[1..] + [l];
      LinesSnoc(ls[1..], l);
    }
  }

  lemma LineFound(l: string, rest: string)
    requires '\n' !in l
    ensures Find(l + ['\n'] + rest, '\n') == |l|
  {
    var s := l + ['\n'] + rest;
    FindBefore(s, '\n', |l|);
    assert forall i :: 0 <= i < |l| ==> s[i] == l[i] && l[i] in l;
  }

  predicate Hex64(s: string) {
    |s| == 64 && forall i :: 0 <= i < |s| ==> Digit(s[i]) || 'a' <= s[i] <= 'f'
  }

  predicate FitsRecord(f: File) {
    Hex64(f.sha) && f.size < U64_LIMIT && Safe(f.path)
  }

  function RecordText(f: File): (l: string) {
    f.sha + [' '] + Decimal(f.size) + [' '] + f.path
  }

  /** The first space at or after index 65 ends the size; everything behind it, spaces
      and all, is the name. */
  function ParseRecord(r: string): (f: Option<File>) {
    if |r| <= 66 || r[64] != ' ' then None
    else
      var split := 65 + Find(r[65..], ' ');
      if split == |r| then None
      else
        var sha, size, name := r[..64], r[65..split], r[split + 1..];
        if Hex64(sha) && Digits(size) && Value(size) < U64_LIMIT && Safe(name)
        then Some(File(name, Value(size), sha)) else None
  }

  lemma RecordReads(f: File)
    requires FitsRecord(f)
    ensures ParseRecord(RecordText(f)) == Some(f)
  {
    hide Safe;
    var r, size := RecordText(f), Decimal(f.size);
    SafeNotEmpty(f.path);
    assert r[65..] == size + [' '] + f.path && r[..64] == f.sha && r[64] == ' ';
    FirstSpace(size, f.path);
    assert r[65..65 + |size|] == size && r[65 + |size| + 1..] == f.path;
  }

  lemma FirstSpace(size: string, name: string)
    requires Digits(size)
    ensures Find(size + [' '] + name, ' ') == |size|
  {
    var s := size + [' '] + name;
    FindBefore(s, ' ', |size|);
    assert forall i :: 0 <= i < |size| ==> s[i] == size[i] && Digit(size[i]);
  }

  lemma SafeNotEmpty(p: string)
    requires Safe(p)
    ensures 0 < |p| <= MAX_NAME && '\n' !in p
  {
    assert forall i :: 0 <= i < |p| ==> SafeChar(p[i]);
  }

  lemma RecordIsLine(f: File)
    requires FitsRecord(f)
    ensures '\n' !in RecordText(f) && |RecordText(f)| <= MAX_LINE
  {
    hide Safe;
    SafeNotEmpty(f.path);
    SizeLength(f.size);
    DigitsIsLine(Decimal(f.size));
    assert '\n' !in f.sha by { assert forall i :: 0 <= i < |f.sha| ==> f.sha[i] != '\n'; }
  }

  lemma DigitsIsLine(s: string)
    requires Digits(s)
    ensures '\n' !in s
  {
    assert forall i :: 0 <= i < |s| ==> Digit(s[i]);
  }

  function Records(files: seq<File>): (ls: seq<string>)
    ensures |ls| == |files| && forall i :: 0 <= i < |files| ==> ls[i] == RecordText(files[i])
  {
    seq(|files|, i requires 0 <= i < |files| => RecordText(files[i]))
  }

  function AllLines(oldFiles: seq<string>, files: seq<File>): (ls: seq<string>) {
    [MAGIC, Decimal(|oldFiles|)] + oldFiles + [Decimal(|files|)] + Records(files)
  }

  // ------------------------------------------------------------------- the writer

  method WritePlan(oldFiles: seq<string>, files: seq<File>) returns (plan: string)
    ensures plan == Lines(AllLines(oldFiles, files))
  {
    hide Decimal, RecordText, MAGIC;
    ghost var all := AllLines(oldFiles, files);
    plan := MAGIC + ['\n'];
    plan := plan + (Decimal(|oldFiles|) + ['\n']);
    HeadLines(MAGIC, Decimal(|oldFiles|));
    assert all[..2] == [MAGIC, Decimal(|oldFiles|)];
    for i := 0 to |oldFiles|
      invariant plan == Lines(all[..2 + i])
    {
      assert all[..2 + i + 1] == all[..2 + i] + [oldFiles[i]];
      LinesSnoc(all[..2 + i], oldFiles[i]);
      plan := plan + (oldFiles[i] + ['\n']);
    }
    ghost var n := 2 + |oldFiles|;
    assert all[..n + 1] == all[..n] + [Decimal(|files|)];
    LinesSnoc(all[..n], Decimal(|files|));
    plan := plan + (Decimal(|files|) + ['\n']);
    for i := 0 to |files|
      invariant plan == Lines(all[..n + 1 + i])
    {
      assert all[..n + 1 + i + 1] == all[..n + 1 + i] + [RecordText(files[i])];
      LinesSnoc(all[..n + 1 + i], RecordText(files[i]));
      plan := plan + (RecordText(files[i]) + ['\n']);
    }
    assert all[..n + 1 + |files|] == all;
  }

  lemma HeadLines(a: string, b: string)
    ensures Lines([a, b]) == a + ['\n'] + (b + ['\n'])
  {
    LinesSnoc([], a);
    LinesSnoc([a], b);
    assert [] + [a] == [a] && [a] + [b] == [a, b];
  }

  // ------------------------------------------------------------------- the reader

  class Reader {
    const text: string
    var at: nat

    constructor (text: string)
      ensures this.text == text && at == 0
    {
      this.text := text;
      at := 0;
    }

    /** What is left is exactly these lines. */
    ghost predicate Left(ls: seq<string>)
      reads this
    {
      at <= |text| && text[at..] == Lines(ls)
    }

    /** getline, bounded: the text up to the next line feed or the end. */
    method Line() returns (l: Option<string>)
      requires at <= |text|
      modifies this`at
      ensures old(at) <= at <= |text| && (l.Some? ==> |l.value| <= MAX_LINE && '\n' !in l.value)
      ensures forall ls: seq<string> :: old(Left(ls)) && ls != [] && '\n' !in ls[0] && |ls[0]| <= MAX_LINE ==>
        l == Some(ls[0]) && Left(ls[1..])
    {
      if at == |text| {
        return None;
      }
      var end := Find(text[at..], '\n');
      ghost var rest := text[at..];
      forall ls: seq<string> | Left(ls) && ls != [] && '\n' !in ls[0]
        ensures end == |ls[0]| && rest[..end] == ls[0] && end < |rest| && rest[end + 1..] == Lines(ls[1..])
      {
        LineFound(ls[0], Lines(ls[1..]));
      }
      l := if end <= MAX_LINE then Some(text[at..][..end]) else None;
      if at + end < |text| {
        assert rest[end + 1..] == text[at + end + 1..];
        at := at + end + 1;
      } else {
        at := |text|;
      }
    }

    /** A count of files: digits only, from 1 to 20000. */
    method Count() returns (n: Option<nat>)
      requires at <= |text|
      modifies this`at
      ensures at <= |text| && (n.Some? ==> 0 < n.value <= MAX_FILES)
      ensures forall ls: seq<string>, k: nat ::
        old(Left(ls)) && ls != [] && ls[0] == Decimal(k) && 0 < k <= MAX_FILES ==>
          n == Some(k) && Left(ls[1..])
    {
      hide Decimal, Value;
      forall k: nat | 0 < k <= MAX_FILES
        ensures '\n' !in Decimal(k) && |Decimal(k)| <= MAX_LINE
      {
        DigitsIsLine(Decimal(k));
        SizeLength(k);
      }
      var l := Line();
      if l.None? || !Digits(l.value) || Value(l.value) >= U64_LIMIT {
        return None;
      }
      var number := Value(l.value);
      return if 0 < number <= MAX_FILES then Some(number) else None;
    }
  }

  ghost predicate FitsPlan(oldFiles: seq<string>, files: seq<File>) {
    && 0 < |oldFiles| <= MAX_FILES && 0 < |files| <= MAX_FILES
    && (forall i :: 0 <= i < |oldFiles| ==> Safe(oldFiles[i]))
    && (forall i :: 0 <= i < |files| ==> FitsRecord(files[i]))
  }

  /** The plan that was written, if any was. */
  ghost predicate IsPlan(text: string, oldFiles: seq<string>, files: seq<File>) {
    FitsPlan(oldFiles, files) && text == Lines(AllLines(oldFiles, files))
  }

  /** parsePlan. Whatever package the writer printed, within the size limit, is read
      back as it was, to the last character. */
  method ParsePlan(text: string, ghost oldWritten: seq<string>, ghost written: seq<File>)
    returns (r: Option<(seq<string>, seq<File>)>)
    ensures IsPlan(text, oldWritten, written) && |text| <= MAX_TEXT ==> r == Some((oldWritten, written))
    ensures r.Some? ==> |text| <= MAX_TEXT && 0 < |r.value.0| <= MAX_FILES && 0 < |r.value.1| <= MAX_FILES
    ensures r.Some? ==> forall i :: 0 <= i < |r.value.1| ==> FitsRecord(r.value.1[i])
  {
    hide MAGIC, Decimal, RecordText, Safe, Records, FitsRecord, Reader.Left;
    if |text| > MAX_TEXT {
      return None;
    }
    ghost var good := IsPlan(text, oldWritten, written);
    ghost var all := AllLines(oldWritten, written);
    var input := new Reader(text);
    assert text[0..] == text;
    assert good ==> input.Left(all) by { LeftAtStart(input, all); }
    MagicIsLine();
    var magic := input.Line();
    if magic != Some(MAGIC) {
      return None;
    }
    var oldCount := input.Count();
    if oldCount.None? {
      return None;
    }
    ghost var tail := [Decimal(|written|)] + Records(written);
    assert all[1..][1..] == oldWritten + tail;
    var oldFiles := ReadOld(input, oldCount.value, oldWritten, tail, good);
    if oldFiles.None? {
      return None;
    }
    var newCount := input.Count();
    if newCount.None? {
      return None;
    }
    assert tail[1..] == Records(written);
    var files := ReadRecords(input, newCount.value, written, good);
    if files.None? {
      return None;
    }
    assert good ==> input.at == |text| by { if good { NothingLeft(input); } }
    if input.at != |text| {
      return None;
    }
    return Some((oldFiles.value, files.value));
  }

  lemma LeftAtStart(input: Reader, all: seq<string>)
    requires input.at == 0 && input.text[0..] == input.text
    ensures input.text == Lines(all) ==> input.Left(all)
  {
  }

  lemma NothingLeft(input: Reader)
    requires input.Left([])
    ensures input.at == |input.text|
  {
  }

  lemma MagicIsLine()
    ensures '\n' !in MAGIC && |MAGIC| <= MAX_LINE
  {
  }

  method ReadOld(input: Reader, count: nat, ghost oldWritten: seq<string>, ghost tail: seq<string>, ghost good: bool)
    returns (oldFiles: Option<seq<string>>)
    requires input.at <= |input.text|
    requires good ==> |oldWritten| == count && input.Left(oldWritten + tail)
    requires good ==> forall i :: 0 <= i < |oldWritten| ==> Safe(oldWritten[i])
    modifies input`at
    ensures input.at <= |input.text| && (oldFiles.Some? ==> |oldFiles.value| == count)
    ensures good ==> oldFiles == Some(oldWritten) && input.Left(tail)
  {
    hide Safe, Reader.Left;
    var read: seq<string> := [];
    assert oldWritten[0..] == oldWritten;
    for i := 0 to count
      invariant input.at <= |input.text| && |read| == i
      invariant good ==> read == oldWritten[..i] && input.Left(oldWritten[i..] + tail)
    {
      if good {
        SafeNotEmpty(oldWritten[i]);
        assert (oldWritten[i..] + tail)[0] == oldWritten[i];
        assert (oldWritten[i..] + tail)[1..] == oldWritten[i + 1..] + tail;
      }
      var l := input.Line();
      if l.None? {
        return None;
      }
      read := read + [l.value];
    }
    assert good ==> oldWritten[count..] + tail == tail && oldWritten[..count] == oldWritten;
    return Some(read);
  }

  method ReadRecords(input: Reader, count: nat, ghost written: seq<File>,
      ghost good: bool) returns (files: Option<seq<File>>)
    requires input.at <= |input.text|
    requires good ==> |written| == count && input.Left(Records(written))
    requires good ==> forall i :: 0 <= i < |written| ==> FitsRecord(written[i])
    modifies input`at
    ensures input.at <= |input.text|
    ensures files.Some? ==> |files.value| == count && forall i :: 0 <= i < |files.value| ==> FitsRecord(files.value[i])
    ensures good ==> files == Some(written) && input.Left([])
  {
    hide Safe, Reader.Left, FitsRecord, RecordText;
    var read: seq<File> := [];
    ghost var ls := Records(written);
    assert ls[0..] == ls;
    for i := 0 to count
      invariant input.at <= |input.text| && |read| == i
      invariant good ==> read == written[..i] && input.Left(ls[i..])
      invariant forall k :: 0 <= k < i ==> FitsRecord(read[k])
    {
      if good {
        RecordIsLine(written[i]);
        RecordReads(written[i]);
        assert ls[i..][0] == RecordText(written[i]) && ls[i..][1..] == ls[i + 1..];
      }
      var l := input.Line();
      if l.None? {
        return None;
      }
      var f := ParseRecord(l.value);
      if f.None? {
        return None;
      }
      ReadRecordFits(l.value);
      read := read + [f.value];
    }
    assert good ==> ls[count..] == [] && written[..count] == written;
    return Some(read);
  }

  lemma ReadRecordFits(r: string)
    requires ParseRecord(r).Some?
    ensures FitsRecord(ParseRecord(r).value)
  {
    hide Safe;
  }

  /** Printed by the application, read by the helper. */
  method PlanRoundTrip(oldFiles: seq<string>, files: seq<File>) returns (plan: string, r: Option<(seq<string>,
      seq<File>)>)
    requires FitsPlan(oldFiles, files)
    ensures |plan| <= MAX_TEXT ==> r == Some((oldFiles, files))
    ensures |plan| > MAX_TEXT ==> r.None?
  {
    hide Safe, AllLines, FitsRecord;
    plan := WritePlan(oldFiles, files);
    r := ParsePlan(plan, oldFiles, files);
  }
}
