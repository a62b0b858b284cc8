/** Files written out byte by byte, and what their readers make of them. */
module Samples {
  import opened Bytes
  import opened Paths
  import opened Wrappers
  import Journal
  import Manifest
  import PlanText
  import PortablePaths
  import Replacement
  import Runs
  import Utf8
  import Zip

  // ------------------------------------------------------------------- a journal

  function Sevens(): (d: Journal.Digest) {
    [7, 7, 7, 7, 7, 7, 7, 7, 7, 7, 7, 7, 7, 7, 7, 7, 7, 7, 7, 7, 7, 7, 7, 7, 7, 7, 7, 7, 7, 7, 7, 7]
  }

  const FILE_A: wstring := [67, 58, 92, 97]         // C:\a
  const FILE_B: wstring := [67, 58, 92, 98]         // C:\b
  const KEY: wstring := [72, 75, 76, 77, 92, 107]   // HKLM\k

  /** One record of each operation. */
  function JournalRecords(): (rs: seq<Journal.Record>)
    ensures |rs| == 6
  {
    [ Journal.Record(1, Journal.Backup, 0, FILE_A, FILE_B, Sevens(), 258, []),
      Journal.Record(2, Journal.Replace, 0, FILE_A, FILE_B, Sevens(), 3, []),
      Journal.Record(3, Journal.Create, 0, FILE_B, [], Sevens(), 0, []),
      Journal.Record(4, Journal.Delete, 0, FILE_A, [], Sevens(), 0x0102_0304_0506_0708, []),
      Journal.Record(5, Journal.Registry, 0, KEY, [], Sevens(), 0, [0x20ac]),
      Journal.Record(6, Journal.Complete, 0, [], [], Sevens(), 0, []) ]
  }

  /** A record from the bytes of its fields: sequence number, code, size, the three
      lengths and the three strings; no flags, and the digest above. */
  function Laid(seqNo: seq<byte>, code: seq<byte>, size: seq<byte>, t: seq<byte>, b: seq<byte>, v: seq<byte>,
      target: seq<byte>, backup: seq<byte>, value: seq<byte>): (s: seq<byte>)
  {
    seqNo + code + [0, 0, 0, 0] + size + Sevens() + t + b + v + (target + backup + value)
  }

  /** C:\a, C:\b and HKLM\k in UTF-16. */
  const BYTES_A: seq<byte> := [67, 0, 58, 0, 92, 0, 97, 0]
  const BYTES_B: seq<byte> := [67, 0, 58, 0, 92, 0, 98, 0]
  const BYTES_KEY: seq<byte> := [72, 0, 75, 0, 76, 0, 77, 0, 92, 0, 107, 0]

  /** The same records, as they are on the disk. */
  function JournalPieces(): (pieces: seq<seq<byte>>)
    ensures |pieces| == 6
  {
    [ Laid([1, 0, 0, 0, 0, 0, 0, 0], [1, 0, 0, 0], [2, 1, 0, 0, 0, 0, 0, 0],
           [4, 0, 0, 0], [4, 0, 0, 0], [0, 0, 0, 0], BYTES_A, BYTES_B, []),
      Laid([2, 0, 0, 0, 0, 0, 0, 0], [2, 0, 0, 0], [3, 0, 0, 0, 0, 0, 0, 0],
           [4, 0, 0, 0], [4, 0, 0, 0], [0, 0, 0, 0], BYTES_A, BYTES_B, []),
      Laid([3, 0, 0, 0, 0, 0, 0, 0], [3, 0, 0, 0], [0, 0, 0, 0, 0, 0, 0, 0],
           [4, 0, 0, 0], [0, 0, 0, 0], [0, 0, 0, 0], BYTES_B, [], []),
      Laid([4, 0, 0, 0, 0, 0, 0, 0], [4, 0, 0, 0], [8, 7, 6, 5, 4, 3, 2, 1],
           [4, 0, 0, 0], [0, 0, 0, 0], [0, 0, 0, 0], BYTES_A, [], []),
      Laid([5, 0, 0, 0, 0, 0, 0, 0], [5, 0, 0, 0], [0, 0, 0, 0, 0, 0, 0, 0],
           [6, 0, 0, 0], [0, 0, 0, 0], [1, 0, 0, 0], BYTES_KEY, [], [0xac, 0x20]),
      Laid([6, 0, 0, 0, 0, 0, 0, 0], [6, 0, 0, 0], [0, 0, 0, 0, 0, 0, 0, 0],
           [0, 0, 0, 0], [0, 0, 0, 0], [0, 0, 0, 0], [], [], []) ]
  }

  function JournalHead(): (s: seq<byte>) {
    [0x5a, 0x5a, 0x54, 0x58, 0x4a, 0x52, 0x4e, 0x31] + [1, 0, 0, 0] + [0x0d, 0x0c, 0x0b, 0x0a, 4, 3, 2, 1]
    + [0, 0, 0, 0, 0, 0, 0, 0, 0, 0, 0, 0]
  }

  function JournalFile(): (bytes: seq<byte>) {
    var p := JournalPieces();
    JournalHead() + ([] + p[0] + p[1] + p[2] + p[3] + p[4] + p[5])
  }

  const JOURNAL_ID: u64 := 0x0102_0304_0a0b_0c0d

  lemma SmallPut(n: nat)
    requires n < 256
    ensures Put32(n) == [n, 0, 0, 0] && Put64(n) == [n, 0, 0, 0, 0, 0, 0, 0]
  {
    Put32Zero();
    assert Put64(n) == Put32(n) + Put32(0);
  }

  lemma Put32Zero()
    ensures Put32(0) == [0, 0, 0, 0]
  {
  }

  lemma LargePut()
    ensures Put64(258) == [2, 1, 0, 0, 0, 0, 0, 0]
    ensures Put64(0x0102_0304_0506_0708) == [8, 7, 6, 5, 4, 3, 2, 1]
    ensures Put64(JOURNAL_ID) == [0x0d, 0x0c, 0x0b, 0x0a, 4, 3, 2, 1]
  {
    Put32Zero();
    assert Put32(258) == [2, 1, 0, 0];
    assert Put32(0x0506_0708) == [8, 7, 6, 5];
    assert Put32(0x0102_0304) == [4, 3, 2, 1];
    assert Put32(0x0a0b_0c0d) == [0x0d, 0x0c, 0x0b, 0x0a];
    hide Put32;
    assert Put64(258) == Put32(258) + Put32(0);
    assert Put64(0x0102_0304_0506_0708) == Put32(0x0506_0708) + Put32(0x0102_0304);
    assert Put64(JOURNAL_ID) == Put32(0x0a0b_0c0d) + Put32(0x0102_0304);
  }

  lemma {:induction false} WideSmall(w: wstring, s: seq<byte>)
    requires |s| == 2 * |w| && forall i :: 0 <= i < |w| ==> w[i] < 256 && s[2 * i] == w[i] && s[2 * i + 1] == 0
    ensures WideBytes(w) == s
  {
    if w != [] {
      forall i | 0 <= i < |w| - 1
        ensures w[1..][i] < 256 && s[2..][2 * i] == w[1..][i] && s[2..][2 * i + 1] == 0
      {
        assert w[1..][i] == w[i + 1] && s[2..][2 * i] == s[2 * (i + 1)] && s[2..][2 * i + 1] == s[2 * (i + 1) + 1];
      }
      WideSmall(w[1..], s[2..]);
      assert s == [s[0], s[1]] + s[2..];
    }
  }

  lemma WideNames()
    ensures WideBytes(FILE_A) == BYTES_A && WideBytes(FILE_B) == BYTES_B && WideBytes(KEY) == BYTES_KEY
    ensures WideBytes([0x20ac]) == [0xac, 0x20] && WideBytes([]) == []
  {
    hide WideBytes;
    WideSmall(FILE_A, BYTES_A);
    WideSmall(FILE_B, BYTES_B);
    WideSmall(KEY, BYTES_KEY);
    WideEuro();
  }

  lemma WideEuro()
    ensures WideBytes([0x20ac]) == [0xac, 0x20] && WideBytes([]) == []
  {
    assert [0x20ac][1..] == [];
  }

  lemma LaidIs(r: Journal.Record)
    requires r.flags == 0 && r.sha == Sevens() && Journal.Encodable(r)
    ensures Journal.Serialize(r) ==
      Laid(Put64(r.seqNo), Put32(Journal.OpCode(r.op)), Put64(r.size), Put32(|r.target|), Put32(|r.backup|),
           Put32(|r.oldValue|), WideBytes(r.target), WideBytes(r.backup), WideBytes(r.oldValue))
  {
    Put32Zero();
    hide Put32, Put64, WideBytes, Sevens, Journal.OpCode;
  }

  lemma RecordPieces()
    ensures var rs, pieces := JournalRecords(), JournalPieces();
      && Journal.Serialize(rs[0]) == pieces[0] && Journal.Serialize(rs[1]) == pieces[1]
      && Journal.Serialize(rs[2]) == pieces[2] && Journal.Serialize(rs[3]) == pieces[3]
      && Journal.Serialize(rs[4]) == pieces[4] && Journal.Serialize(rs[5]) == pieces[5]
  {
    hide Put32, Put64, WideBytes, Sevens, Laid, Journal.Serialize;
    SmallPut(0); SmallPut(1); SmallPut(2); SmallPut(3); SmallPut(4); SmallPut(5); SmallPut(6);
    LargePut();
    WideNames();
    var rs := JournalRecords();
    LaidIs(rs[0]); LaidIs(rs[1]); LaidIs(rs[2]); LaidIs(rs[3]); LaidIs(rs[4]); LaidIs(rs[5]);
  }

  lemma RecordsValid()
    ensures Journal.ValidLog(JournalRecords())
  {
    ShortPathIsStandard(FILE_A);
    ShortPathIsStandard(FILE_B);
    hide StandardPath, Sevens;
    assert Upper(KEY[..5]) == W("HKLM\\");
  }

  lemma BodyOfSix(rs: seq<Journal.Record>)
    requires |rs| == 6
    ensures Journal.Body(rs) ==
      [] + Journal.Serialize(rs[0]) + Journal.Serialize(rs[1]) + Journal.Serialize(rs[2]) + Journal.Serialize(rs[3])
      + Journal.Serialize(rs[4]) + Journal.Serialize(rs[5])
  {
    hide Journal.Serialize;
    assert rs[..5][..4] == rs[..4] && rs[..4][..3] == rs[..3] && rs[..3][..2] == rs[..2] && rs[..2][..1] == rs[..1];
    assert rs[..1][..0] == [];
    assert Journal.Body(rs[..1]) == [] + Journal.Serialize(rs[0]);
    assert Journal.Body(rs[..2]) == Journal.Body(rs[..1]) + Journal.Serialize(rs[1]);
    assert Journal.Body(rs[..3]) == Journal.Body(rs[..2]) + Journal.Serialize(rs[2]);
    assert Journal.Body(rs[..4]) == Journal.Body(rs[..3]) + Journal.Serialize(rs[3]);
    assert Journal.Body(rs[..5]) == Journal.Body(rs[..4]) + Journal.Serialize(rs[4]);
  }

  /** These bytes are the journal of these records. */
  lemma SampleJournal()
    ensures Journal.IsJournal(JournalFile(), JOURNAL_ID, JournalRecords())
  {
    hide Sevens, Laid, Journal.ValidLog, Journal.Serialize, Journal.Header, Journal.Body, JournalHead, JournalRecords;
    RecordPieces();
    RecordsValid();
    BodyOfSix(JournalRecords());
    HeadIs();
    SampleSize();
  }

  lemma HeadIs()
    ensures JournalHead() == Journal.Header(JOURNAL_ID)
  {
    SmallPut(1);
    LargePut();
    hide Put32, Put64;
    assert seq(12, _ => 0) == [0, 0, 0, 0, 0, 0, 0, 0, 0, 0, 0, 0];
  }

  lemma SampleSize()
    ensures |JournalFile()| < 1000
  {
  }

  method ReplaySample() returns (r: Journal.Replayed)
    ensures r == Journal.Parsed(JournalRecords())
  {
    r := Journal.Replay(JournalFile(), JOURNAL_ID);
    SampleJournal();
    if r.Parsed? {
      Journal.JournalUnique(JournalFile(), JOURNAL_ID, r.records, JournalRecords());
    }
  }

  // ------------------------------------------------------------------ a manifest

  function ManifestEntries(): (es: seq<Manifest.Entry>) {
    [Manifest.Entry([97], 258, Sevens())]
  }

  /** One entry, whose path is the letter a. */
  function ManifestFile(): (bytes: seq<byte>) {
    [0x5a, 0x5a, 0x54, 0x58, 0x4d, 0x41, 0x4e, 0x31] + [1, 0, 0, 0] + [1, 0, 0, 0]
    + ([1, 0, 0, 0] + [2, 1, 0, 0, 0, 0, 0, 0] + Sevens() + [97] + [])
  }

  lemma SampleManifest()
    ensures Manifest.IsManifest(ManifestFile(), ManifestEntries())
  {
    Manifest.OneCharacter(97, 258, Sevens());
    hide Manifest.Writable, Manifest.WellFormedPaths, Manifest.ManifestBytes, Sevens;
    SampleManifestBytes();
  }

  lemma SampleManifestBytes()
    ensures Manifest.ManifestBytes(ManifestEntries()) == ManifestFile()
  {
    hide Put32, Put64, Sevens, Utf8.Encoded;
    LetterAlone();
    SmallPut(1);
    LargePut();
    var e := ManifestEntries()[0];
    assert Manifest.Entries([e]) == Manifest.EntryBytes(e) + Manifest.Entries([e][1..]);
    assert Manifest.Entries([e][1..]) == [];
  }

  lemma LetterAlone()
    ensures Utf8.Encoded([97]) == [97]
  {
    assert [97][1..] == [];
  }

  method ParseSample() returns (r: Manifest.Parse)
    ensures r == Manifest.Parsed(ManifestEntries())
  {
    r := Manifest.ParseManifest(Some(ManifestFile()));
    SampleManifest();
    hide Manifest.IsManifest;
    if r.Parsed? {
      Manifest.ManifestUnique(ManifestFile(), r.entries, ManifestEntries());
    }
  }

  /** One, two, three and four bytes for a character. */
  lemma SampleCharacters()
    ensures Utf8.Encoded([0x7a, 0xe9, 0x20ac, 0xd83d, 0xde00])
         == [0x7a, 0xc3, 0xa9, 0xe2, 0x82, 0xac, 0xf0, 0x9f, 0x98, 0x80]
  {
    var w: wstring := [0x7a, 0xe9, 0x20ac, 0xd83d, 0xde00];
    assert w[1..] == [0xe9, 0x20ac, 0xd83d, 0xde00] && w[1..][1..] == [0x20ac, 0xd83d, 0xde00];
    assert w[1..][1..][1..] == [0xd83d, 0xde00] && w[1..][1..][1..][2..] == [];
    assert Utf8.PairScalar(0xd83d, 0xde00) == 0x1f600;
    assert Utf8.Encoded([0xd83d, 0xde00]) == Utf8.CharBytes(0x1f600) + [];
    assert Utf8.Encoded([0x20ac, 0xd83d, 0xde00]) == Utf8.CharBytes(0x20ac) + Utf8.Encoded([0xd83d, 0xde00]);
    assert Utf8.Encoded([0xe9, 0x20ac, 0xd83d, 0xde00])
        == Utf8.CharBytes(0xe9) + Utf8.Encoded([0x20ac, 0xd83d, 0xde00]);
  }

  // -------------------------------------------------------------------- the texts

  lemma SampleDecimal()
    ensures PlanText.Decimal(1) == "1" && PlanText.Decimal(42) == "42"
  {
    assert PlanText.Decimal(4) == ['4'];
    assert PlanText.DigitChar(2) == '2';
  }

  lemma SampleHexadecimal()
    ensures Runs.HexDigits(0x1a, 16) == seq(14, _ => 48) + [49, 97]
  {
    Zeros(14);
    assert Runs.HexDigits(1, 15) == Runs.HexDigits(0, 14) + [49];
    assert Runs.HexDigits(0x1a, 16) == Runs.HexDigits(1, 15) + [97];
  }

  lemma {:induction false} Zeros(n: nat)
    ensures Runs.HexDigits(0, n) == seq(n, _ => 48)
  {
    if n > 0 {
      Zeros(n - 1);
    }
  }

  /** A plan of one old and one new file. */
  lemma SamplePlan(sha: string)
    ensures PlanText.Lines(PlanText.AllLines(["old"], [Replacement.File("new", 42, sha)]))
         == "ZZLOGG_PORTABLE_UPDATE_1\n" + "1\n" + "old\n" + "1\n" + (sha + " 42 new\n")
  {
    SampleDecimal();
    var f := Replacement.File("new", 42, sha);
    var ls := PlanText.AllLines(["old"], [f]);
    FiveLines(ls);
    hide PlanText.Decimal, PlanText.Lines;
    assert ls[0] == "ZZLOGG_PORTABLE_UPDATE_1";
    assert PlanText.RecordText(f) == sha + " 42 new";
    assert ls[4] == sha + " 42 new";
    assert ls[4] + "\n" == sha + " 42 new\n";
    assert ls[0] + "\n" == "ZZLOGG_PORTABLE_UPDATE_1\n";
  }

  lemma FiveLines(ls: seq<string>)
    requires |ls| == 5
    ensures PlanText.Lines(ls) == (ls[0] + "\n") + (ls[1] + "\n") + (ls[2] + "\n") + (ls[3] + "\n") + (ls[4] + "\n")
  {
    var one, two := ls[1..], ls[2..];
    var three, four := ls[3..], ls[4..];
    assert one[1..] == two && two[1..] == three && three[1..] == four && four[1..] == [];
    assert PlanText.Lines(four) == ls[4] + "\n";
    assert PlanText.Lines(three) == (ls[3] + "\n") + PlanText.Lines(four);
    assert PlanText.Lines(two) == (ls[2] + "\n") + PlanText.Lines(three);
    assert PlanText.Lines(one) == (ls[1] + "\n") + PlanText.Lines(two);
  }

  // ------------------------------------------------------------------- an archive

  /** A deflated file a of five bytes: its local header and three bytes of data, */
  const LOCAL: seq<byte> := [
    0x50, 0x4b, 3, 4, 20, 0, 0, 0, 8, 0, 0, 0, 0, 0, 0, 0, 0, 0, 3, 0, 0, 0, 5, 0, 0, 0, 1, 0, 0, 0, 97, 1, 2, 3]

  /** its central record, */
  const CENTRAL: seq<byte> := [
    0x50, 0x4b, 1, 2, 20, 0, 20, 0, 0, 0, 8, 0, 0, 0, 0, 0, 0, 0, 0, 0] + [
    3, 0, 0, 0, 5, 0, 0, 0, 1, 0, 0, 0, 0, 0, 0, 0, 0, 0, 0, 0, 0, 0, 0, 0, 0, 0, 97]

  /** and the end of the directory. */
  const END: seq<byte> := [
    0x50, 0x4b, 5, 6, 0, 0, 0, 0, 1, 0, 1, 0, 47, 0, 0, 0, 34, 0, 0, 0, 0, 0]

  function Archive(): (file: seq<byte>)
    ensures |file| == 103
  {
    LOCAL + CENTRAL + END
  }

  lemma ArchiveParts()
    ensures Archive()[0..34] == LOCAL && Archive()[34..81] == CENTRAL && Archive()[81..103] == END
  {
  }

  /** The numbers of a part are those of the whole. */
  lemma Within(whole: seq<byte>, part: seq<byte>, at: nat, k: nat)
    requires at + |part| <= |whole| && whole[at..at + |part|] == part
    ensures k + 2 <= |part| ==> Zip.U16(whole, at + k) == Zip.U16(part, k)
    ensures k + 4 <= |part| ==> Zip.U32(whole, at + k) == Zip.U32(part, k)
  {
    forall i | 0 <= i < |part|
      ensures part[i] == whole[at + i]
    {
      assert whole[at..at + |part|][i] == whole[at + i];
    }
    if k + 2 <= |part| {
      assert part[k..k + 2] == whole[at + k..at + k + 2];
    }
    if k + 4 <= |part| {
      assert part[k..k + 4] == whole[at + k..at + k + 4];
    }
  }

  lemma Two(s: seq<byte>, p: nat, v: nat)
    requires p + 2 <= |s| && s[p] == v < 256 && s[p + 1] == 0
    ensures Zip.U16(s, p) == v
  {
  }

  lemma Four(s: seq<byte>, p: nat, v: nat)
    requires p + 4 <= |s| && s[p] == v < 256 && s[p + 1] == s[p + 2] == s[p + 3] == 0
    ensures Zip.U32(s, p) == v
  {
  }

  lemma Signature(s: seq<byte>, third: byte, fourth: byte)
    requires 4 <= |s| && s[0] == 0x50 && s[1] == 0x4b && s[2] == third && s[3] == fourth
    ensures Zip.U32(s, 0) == 0x4b50 + 0x1_0000 * third as int + 0x100_0000 * fourth as int
  {
  }

  lemma EndNumbers()
    ensures Zip.U32(END, 0) == Zip.END_SIGNATURE && Zip.U16(END, 4) == 0 && Zip.U16(END, 6) == 0
    ensures Zip.U16(END, 8) == 1 && Zip.U16(END, 10) == 1 && Zip.U32(END, 12) == 47 && Zip.U32(END, 16) == 34
    ensures Zip.U16(END, 20) == 0
  {
    hide Zip.U16, Zip.U32;
    Signature(END, 5, 6);
    Two(END, 4, 0); Two(END, 6, 0); Two(END, 8, 1); Two(END, 10, 1);
    Four(END, 12, 47); Four(END, 16, 34); Two(END, 20, 0);
  }

  lemma CentralNumbers()
    ensures Zip.U32(CENTRAL, 0) == Zip.CENTRAL_SIGNATURE && Zip.U16(CENTRAL, 8) == 0 && Zip.U16(CENTRAL, 10) == 8
    ensures Zip.U32(CENTRAL, 20) == 3 && Zip.U32(CENTRAL, 24) == 5 && Zip.U16(CENTRAL, 28) == 1
    ensures Zip.U16(CENTRAL, 30) == 0 && Zip.U16(CENTRAL, 32) == 0 && Zip.U16(CENTRAL, 34) == 0
    ensures Zip.U32(CENTRAL, 38) == 0 && Zip.U32(CENTRAL, 42) == 0
  {
    hide Zip.U16, Zip.U32;
    Signature(CENTRAL, 1, 2);
    Two(CENTRAL, 8, 0); Two(CENTRAL, 10, 8); Four(CENTRAL, 20, 3); Four(CENTRAL, 24, 5); Two(CENTRAL, 28, 1);
    Two(CENTRAL, 30, 0); Two(CENTRAL, 32, 0); Two(CENTRAL, 34, 0); Four(CENTRAL, 38, 0); Four(CENTRAL, 42, 0);
  }

  lemma LocalNumbers()
    ensures Zip.U32(LOCAL, 0) == Zip.LOCAL_SIGNATURE && Zip.U16(LOCAL, 6) == 0 && Zip.U16(LOCAL, 8) == 8
    ensures Zip.U16(LOCAL, 26) == 1 && Zip.U16(LOCAL, 28) == 0
  {
    hide Zip.U16, Zip.U32;
    Signature(LOCAL, 3, 4);
    Two(LOCAL, 6, 0); Two(LOCAL, 8, 8); Two(LOCAL, 26, 1); Two(LOCAL, 28, 0);
  }

  lemma SampleEnd()
    ensures Zip.LastEnd(Archive(), 81) && Zip.EndOk(Archive(), 81)
    ensures Zip.U32(Archive(), 97) == 34 && Zip.U16(Archive(), 91) == 1
  {
    ArchiveParts();
    EndNumbers();
    hide Zip.U16, Zip.U32, Archive;
    Within(Archive(), END, 81, 0); Within(Archive(), END, 81, 4); Within(Archive(), END, 81, 6);
    Within(Archive(), END, 81, 8); Within(Archive(), END, 81, 10); Within(Archive(), END, 81, 12);
    Within(Archive(), END, 81, 16); Within(Archive(), END, 81, 20);
  }

  lemma SampleRecord()
    ensures Zip.Fits(CENTRAL, 0) && Zip.NextAt(CENTRAL, 0) == 47
    ensures Zip.EntryAt(CENTRAL, 0) == Zip.ZipEntry("a", 5, 3, 0, false)
    ensures Zip.KindOk(CENTRAL, 0) && Zip.RawName(CENTRAL, 0) == [97]
  {
    CentralNumbers();
    hide Zip.U16, Zip.U32;
    assert CENTRAL[46] == 97 && CENTRAL[46..47] == [97];
    assert Zip.Latin1([97]) == "a";
  }

  lemma SampleLocal()
    ensures Zip.Fits(CENTRAL, 0) && Zip.LocalOk(Archive(), 34, CENTRAL, 0)
  {
    ArchiveParts();
    CentralNumbers();
    LocalNumbers();
    SampleRecord();
    hide Zip.U16, Zip.U32, Archive, Zip.RawName, Zip.KindOk, Zip.EntryAt;
    Within(Archive(), LOCAL, 0, 0); Within(Archive(), LOCAL, 0, 6); Within(Archive(), LOCAL, 0, 8);
    Within(Archive(), LOCAL, 0, 26); Within(Archive(), LOCAL, 0, 28);
    LocalName();
    assert Archive()[0..34][30..31] == Archive()[30..31] == [97];
  }

  lemma LocalName()
    ensures LOCAL[30..31] == [97]
  {
    assert LOCAL[30] == 97;
  }

  lemma SampleEntry()
    ensures Zip.EntryOk(Archive(), 34, CENTRAL, 0)
  {
    SampleRecord();
    SampleLocal();
    Replacement.LetterIsSafe("a");
    hide Zip.U16, Zip.U32, Archive, PortablePaths.Safe, Zip.LocalOk, Zip.KindOk, Zip.Fits, Zip.EntryAt;
  }

  lemma SampleArchive()
    ensures Zip.Accepts(Archive(), 81, [0, 47])
  {
    ArchiveParts();
    SampleEnd();
    SampleRecord();
    SampleEntry();
    SampleTotal();
    hide Zip.U16, Zip.U32, Archive, Zip.EntryOk, Zip.EntryAt, Zip.NextAt, Zip.Fits, Zip.EndOk, Zip.LastEnd, Zip.SpanAt,
         Zip.SizeTotal, Zip.PathOf, Zip.KindOk, Zip.RawName;
  }

  lemma SampleTotal()
    ensures Zip.SizeTotal(CENTRAL, [0, 47], 1) == 5
  {
    SampleRecord();
    hide Zip.EntryAt, Zip.Fits, Zip.KindOk, Zip.RawName, Zip.NextAt;
    assert Zip.SizeTotal(CENTRAL, [0, 47], 1) == Zip.SizeTotal(CENTRAL, [0, 47], 0) + 5;
  }

  lemma AcceptedSample(e: nat, starts: seq<nat>)
    requires Zip.Accepts(Archive(), e, starts)
    ensures e == 81 && |starts| == 2 && starts[0] == 0
  {
    SampleEnd();
    Zip.OnlyEnd(Archive(), 81);
    hide Zip.U16, Zip.U32, Archive, Zip.EntryOk, Zip.EntryAt, Zip.NextAt, Zip.Fits, Zip.EndOk, Zip.LastEnd, Zip.EndAt,
         Zip.SpanAt, Zip.SizeTotal, Zip.Distinct;
  }

  /** The package check finds this file in this archive. */
  method InspectSample() returns (r: Option<seq<Zip.ZipEntry>>)
    ensures r == Some([Zip.ZipEntry("a", 5, 3, 0, false)])
  {
    hide Zip.U16, Zip.U32, Archive, Zip.EntryOk, Zip.EntryAt, Zip.NextAt, Zip.Fits, Zip.EndOk, Zip.EndAt, Zip.Accepts,
         Zip.KindOk, Zip.RawName, Zip.LastEnd;
    ghost var e, starts;
    r, e, starts := Zip.InspectZip(Archive());
    SampleArchive();
    SampleEnd();
    SampleRecord();
    ArchiveParts();
    assert !Zip.NoneAccepted(Archive(), 81);
    if r.Some? {
      AcceptedSample(e, starts);
      assert e + 16 == 97 && Archive()[Zip.U32(Archive(), e + 16)..e] == CENTRAL;
      assert r.value == [r.value[0]];
    }
  }
}
