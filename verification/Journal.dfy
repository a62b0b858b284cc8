/** The durable transaction journal: its byte layout, the strict parser that
    recovery relies on, and the writer that runs ahead of every operation. */
module Journal {
  import opened Bytes
  import opened Paths
  import opened Wrappers

  const HEADER_BYTES := 32
  const RECORD_FIXED := 68
  const MAX_JOURNAL_BYTES := 0x400_0000
  const MAX_PATH_CHARS := 1024
  const MAX_VALUE_CHARS := 4096
  const MAX_RECORDS := 100000

  const MAGIC: seq<byte> := [90, 90, 84, 88, 74, 82, 78, 49]

  type Digest = s: seq<byte> | |s| == 32 witness seq(32, _ => 0)

  datatype Op = Backup | Replace | Create | Delete | Registry | Complete

  datatype Record = Record(
    seqNo: u64, op: Op, flags: u32, target: wstring, backup: wstring,
    sha: Digest, size: u64, oldValue: wstring)

  function OpCode(op: Op): (code: u32)
    ensures 1 <= code <= 6
  {
    match op
    case Backup => 1
    case Replace => 2
    case Create => 3
    case Delete => 4
    case Registry => 5
    case Complete => 6
  }

  function OpOf(code: u32): (op: Option<Op>)
    ensures op.None? <==> !(1 <= code <= 6)
    ensures op.Some? ==> OpCode(op.value) == code
  {
    match code
    case 1 => Some(Backup)
    case 2 => Some(Replace)
    case 3 => Some(Create)
    case 4 => Some(Delete)
    case 5 => Some(Registry)
    case 6 => Some(Complete)
    case _ => None
  }

  predicate ValidRegistryTarget(t: wstring) {
    && 6 <= |t| <= MAX_PATH_CHARS
    && Upper(t[..5]) == W("HKLM\\")
    && forall i :: 0 <= i < |t| ==> t[i] >= 32
  }

  predicate ValidValue(v: wstring) {
    && |v| <= MAX_VALUE_CHARS
    && forall i :: 0 <= i < |v| ==> v[i] >= 32 || v[i] == 9
  }

  predicate ValidRecord(r: Record, expected: nat) {
    && r.seqNo == expected && r.flags == 0
    && |r.target| <= MAX_PATH_CHARS && |r.backup| <= MAX_PATH_CHARS
    && match r.op
       case Backup | Replace | Delete =>
         && StandardPath(r.target)
         && (r.backup == [] || StandardPath(r.backup))
         && r.oldValue == []
       case Create =>
         StandardPath(r.target) && r.backup == [] && r.oldValue == []
       case Registry =>
         ValidRegistryTarget(r.target) && r.backup == [] && ValidValue(r.oldValue)
       case Complete =>
         r.target == [] && r.backup == [] && r.oldValue == []
  }

  /** Numbered 1..n, every record valid, and nothing after a Complete. */
  ghost predicate ValidLog(rs: seq<Record>) {
    forall i :: 0 <= i < |rs| ==> ValidRecord(rs[i], i + 1) && (rs[i].op.Complete? ==> i == |rs| - 1)
  }

  /** Complete has been written: nothing may follow. */
  predicate Closed(rs: seq<Record>) {
    |rs| > 0 && rs[|rs| - 1].op.Complete?
  }

  lemma ValidSnoc(rs: seq<Record>, r: Record)
    requires ValidLog(rs) && !Closed(rs) && ValidRecord(r, |rs| + 1)
    ensures ValidLog(rs + [r])
  {
    hide ValidRecord;
    var all := rs + [r];
    forall i | 0 <= i < |all|
      ensures ValidRecord(all[i], i + 1) && (all[i].op.Complete? ==> i == |all| - 1)
    {
    }
  }

  /** The length as the 32-bit field stores it; validRecord keeps it exact. */
  function Length32(w: wstring): (n: u32)
    ensures |w| < 0x1_0000_0000 ==> n == |w|
  {
    |w| % 0x1_0000_0000
  }

  /** The fixed part of a record: everything but its three strings. */
  datatype Head = Head(seqNo: u64, op: Op, flags: u32, size: u64, sha: Digest, targets: u32, backups: u32, values: u32)

  function HeadOf(r: Record): Head {
    Head(r.seqNo, r.op, r.flags, r.size, r.sha, Length32(r.target), Length32(r.backup), Length32(r.oldValue))
  }

  function PutHead(h: Head): (s: seq<byte>)
    ensures |s| == RECORD_FIXED
  {
    Put64(h.seqNo) + Put32(OpCode(h.op)) + Put32(h.flags) + Put64(h.size) + h.sha
    + Put32(h.targets) + Put32(h.backups) + Put32(h.values)
  }

  function GetHead(s: seq<byte>): (h: Option<Head>)
    requires |s| == RECORD_FIXED
  {
    var op := OpOf(Get32(s[8..12]));
    if op.None? then None
    else Some(Head(Get64(s[0..8]), op.value, Get32(s[12..16]), Get64(s[16..24]), s[24..56],
                   Get32(s[56..60]), Get32(s[60..64]), Get32(s[64..68])))
  }

  function Bodies(r: Record): (s: seq<byte>)
    ensures |s| == 2 * |r.target| + 2 * |r.backup| + 2 * |r.oldValue|
  {
    WideBytes(r.target) + WideBytes(r.backup) + WideBytes(r.oldValue)
  }

  function Serialize(r: Record): (s: seq<byte>)
    ensures |s| == RECORD_FIXED + 2 * (|r.target| + |r.backup| + |r.oldValue|)
  {
    PutHead(HeadOf(r)) + Bodies(r)
  }

  function Header(txid: u64): (s: seq<byte>)
    ensures |s| == HEADER_BYTES
  {
    MAGIC + Put32(1) + Put64(txid) + seq(12, _ => 0)
  }

  function Body(rs: seq<Record>): (s: seq<byte>)
    ensures |s| >= RECORD_FIXED * |rs|
  {
    if |rs| == 0 then [] else Body(rs[..|rs| - 1]) + Serialize(rs[|rs| - 1])
  }

  /** The whole journal file that a run which appended exactly rs leaves. */
  function Encode(txid: u64, rs: seq<Record>): (s: seq<byte>) {
    Header(txid) + Body(rs)
  }

  predicate Encodable(r: Record) {
    |r.target| <= MAX_PATH_CHARS && |r.backup| <= MAX_PATH_CHARS && |r.oldValue| <= MAX_VALUE_CHARS
  }

  /** The strings that follow a head, when they are short enough and all there. */
  function GetRecord(h: Head, s: seq<byte>): (r: Option<Record>) {
    var t, b, v: nat := h.targets, h.backups, h.values;
    if t > MAX_PATH_CHARS || b > MAX_PATH_CHARS || v > MAX_VALUE_CHARS || |s| < 2 * (t + b + v) then None
    else
      Some(Record(h.seqNo, h.op, h.flags, WideFrom(s[..2 * t]), WideFrom(s[2 * t..2 * (t + b)]), h.sha, h.size,
                  WideFrom(s[2 * (t + b)..2 * (t + b + v)])))
  }

  /** Reads one record from the front of s. */
  function DecodeRecord(s: seq<byte>): (r: Option<Record>)
    ensures r.Some? ==> |s| >= RECORD_FIXED
  {
    if |s| < RECORD_FIXED then None
    else
      var h := GetHead(s[..RECORD_FIXED]);
      if h.None? then None else GetRecord(h.value, s[RECORD_FIXED..])
  }

  lemma FieldSlices(a: seq<byte>, b: seq<byte>, c: seq<byte>, d: seq<byte>, e: seq<byte>,
                    f: seq<byte>, g: seq<byte>, h: seq<byte>)
    requires |a| == |d| == 8 && |b| == |c| == |f| == |g| == |h| == 4 && |e| == 32
    ensures var s := a + b + c + d + e + f + g + h;
      && s[0..8] == a && s[8..12] == b && s[12..16] == c && s[16..24] == d && s[24..56] == e
      && s[56..60] == f && s[60..64] == g && s[64..68] == h
  {
  }

  lemma GetPutHead(h: Head)
    ensures GetHead(PutHead(h)) == Some(h)
  {
    FieldSlices(Put64(h.seqNo), Put32(OpCode(h.op)), Put32(h.flags), Put64(h.size), h.sha,
                Put32(h.targets), Put32(h.backups), Put32(h.values));
  }

  lemma PutGetHead(s: seq<byte>)
    requires |s| == RECORD_FIXED && GetHead(s).Some?
    ensures PutHead(GetHead(s).value) == s
  {
    PutGet64(s[0..8]); PutGet32(s[8..12]); PutGet32(s[12..16]); PutGet64(s[16..24]);
    PutGet32(s[56..60]); PutGet32(s[60..64]); PutGet32(s[64..68]);
    Regroup(s);
  }

  lemma Regroup(s: seq<byte>)
    requires |s| == RECORD_FIXED
    ensures s[0..8] + s[8..12] + s[12..16] + s[16..24] + s[24..56] + s[56..60] + s[60..64] + s[64..68] == s
  {
  }

  lemma GetPutBodies(r: Record, rest: seq<byte>)
    requires Encodable(r)
    ensures GetRecord(HeadOf(r), Bodies(r) + rest) == Some(r)
  {
    var a, b, c := WideBytes(r.target), WideBytes(r.backup), WideBytes(r.oldValue);
    var s := Bodies(r) + rest;
    assert s[..|a|] == a && s[|a|..|a| + |b|] == b && s[|a| + |b|..|a| + |b| + |c|] == c;
    WideFromBytes(r.target); WideFromBytes(r.backup); WideFromBytes(r.oldValue);
  }

  lemma ThreeSlices(s: seq<byte>, i: nat, j: nat, k: nat)
    requires i <= j <= k <= |s|
    ensures s[..i] + s[i..j] + s[j..k] == s[..k]
  {
  }

  lemma GetRecordShape(h: Head, s: seq<byte>)
    requires GetRecord(h, s).Some?
    ensures var r := GetRecord(h, s).value; Encodable(r) && HeadOf(r) == h && |Bodies(r)| <= |s|
  {
  }

  lemma PutGetBodies(h: Head, s: seq<byte>)
    requires GetRecord(h, s).Some?
    ensures var r := GetRecord(h, s).value; |Bodies(r)| <= |s| && s[..|Bodies(r)|] == Bodies(r)
  {
    GetRecordShape(h, s);
    var i, j, k := 2 * h.targets, 2 * (h.targets + h.backups), 2 * (h.targets + h.backups + h.values);
    ThreeSlices(s, i, j, k);
    WideBytesFrom(s[..i]); WideBytesFrom(s[i..j]); WideBytesFrom(s[j..k]);
  }

  /** A written record reads back as itself, whatever follows it. */
  lemma DecodeSerialize(r: Record, rest: seq<byte>)
    requires Encodable(r)
    ensures DecodeRecord(Serialize(r) + rest) == Some(r)
  {
    var head, s := PutHead(HeadOf(r)), Serialize(r) + rest;
    GetPutHead(HeadOf(r));
    GetPutBodies(r, rest);
    assert s[..RECORD_FIXED] == head;
    assert s[RECORD_FIXED..] == Bodies(r) + rest;
  }

  /** Whatever is read as a record is exactly what writing that record gives. */
  lemma SerializeDecode(s: seq<byte>)
    requires DecodeRecord(s).Some?
    ensures var r := DecodeRecord(s).value; Encodable(r) && |Serialize(r)| <= |s| && s[..|Serialize(r)|] == Serialize(r)
  {
    var head, rest := s[..RECORD_FIXED], s[RECORD_FIXED..];
    PutGetHead(head);
    GetRecordShape(GetHead(head).value, rest);
    PutGetBodies(GetHead(head).value, rest);
    var n := |Bodies(DecodeRecord(s).value)|;
    assert s[..RECORD_FIXED + n] == head + rest[..n];
  }

  // ------------------------------------------------------- the layout, byte by byte

  lemma HeaderParts(a: seq<byte>, b: seq<byte>, c: seq<byte>, d: seq<byte>)
    requires |a| == |c| == 8 && |b| == 4
    ensures var s := a + b + c + d;
      && s[..8] == a && s[8..12] == b && (forall k :: 0 <= k < 8 ==> s[12 + k] == c[k])
      && (forall k :: 20 <= k < |s| ==> s[k] == d[k - 20])
  {
  }

  /** The magic, the version, the transaction number with its low byte first, zeros. */
  lemma HeaderLayout(txid: u64)
    ensures var s := Header(txid);
      && s[..8] == [0x5a, 0x5a, 0x54, 0x58, 0x4a, 0x52, 0x4e, 0x31] && s[8..12] == [1, 0, 0, 0]
      && (forall k :: 0 <= k < 8 ==> s[12 + k] == Digit(txid, k))
      && (forall k :: 20 <= k < HEADER_BYTES ==> s[k] == 0)
  {
    hide Put64, Digit;
    var magic := MAGIC;
    HeaderParts(magic, Put32(1), Put64(txid), seq(12, _ => 0));
    forall k | 0 <= k < 8
      ensures Put64(txid)[k] == Digit(txid, k)
    {
      Put64At(txid, k);
    }
  }

  lemma HeadParts(a: seq<byte>, b: seq<byte>, c: seq<byte>, d: seq<byte>, e: seq<byte>,
                  f: seq<byte>, g: seq<byte>, h: seq<byte>, rest: seq<byte>)
    requires |a| == |d| == 8 && |b| == |c| == |f| == |g| == |h| == 4 && |e| == 32
    ensures var s := a + b + c + d + e + f + g + h + rest;
      && (forall k :: 0 <= k < 8 ==> s[k] == a[k] && s[16 + k] == d[k])
      && (forall k :: 0 <= k < 4 ==> s[8 + k] == b[k] && s[12 + k] == c[k])
      && s[24..56] == e && s[68..] == rest
      && (forall k :: 0 <= k < 4 ==> s[56 + k] == f[k] && s[60 + k] == g[k] && s[64 + k] == h[k])
  {
  }

  /** Where every field of a record is: the sequence number, the operation's code, the
      flags, the size, the digest, the three lengths and the three strings. */
  lemma RecordLayout(r: Record)
    requires Encodable(r)
    ensures var s := Serialize(r);
      && (forall k :: 0 <= k < 8 ==> s[k] == Digit(r.seqNo, k) && s[16 + k] == Digit(r.size, k))
      && s[8] == (match r.op case Backup => 1 case Replace => 2 case Create => 3
                             case Delete => 4 case Registry => 5 case Complete => 6)
      && s[9] == s[10] == s[11] == 0
      && (forall k :: 0 <= k < 4 ==> s[12 + k] == Digit(r.flags, k))
      && s[24..56] == r.sha
      && (forall k :: 0 <= k < 4 ==>
            && s[56 + k] == Digit(|r.target|, k) && s[60 + k] == Digit(|r.backup|, k)
            && s[64 + k] == Digit(|r.oldValue|, k))
      && s[68..] == WideBytes(r.target) + WideBytes(r.backup) + WideBytes(r.oldValue)
  {
    hide Put64, Put32, Digit, WideBytes;
    var h := HeadOf(r);
    HeadParts(Put64(h.seqNo), Put32(OpCode(h.op)), Put32(h.flags), Put64(h.size), h.sha,
              Put32(h.targets), Put32(h.backups), Put32(h.values), Bodies(r));
    forall k | 0 <= k < 8
      ensures Put64(r.seqNo)[k] == Digit(r.seqNo, k) && Put64(r.size)[k] == Digit(r.size, k)
    {
      Put64At(r.seqNo, k);
      Put64At(r.size, k);
    }
    CodeBytes(r.op);
    forall k | 0 <= k < 4
      ensures Put32(r.flags)[k] == Digit(r.flags, k) && Put32(h.targets)[k] == Digit(|r.target|, k)
      ensures Put32(h.backups)[k] == Digit(|r.backup|, k) && Put32(h.values)[k] == Digit(|r.oldValue|, k)
    {
      Put32At(r.flags, k);
      Put32At(h.targets, k);
      Put32At(h.backups, k);
      Put32At(h.values, k);
    }
  }

  lemma CodeBytes(op: Op)
    ensures Put32(OpCode(op)) == [OpCode(op), 0, 0, 0]
  {
  }

  // ---------------------------------------------------------------- whole logs

  /** bytes is what the writer leaves after appending exactly rs, within the caps
      that the parser enforces. */
  ghost predicate IsJournal(bytes: seq<byte>, txid: u64, rs: seq<Record>) {
    && |bytes| <= MAX_JOURNAL_BYTES && |rs| <= MAX_RECORDS
    && ValidLog(rs) && bytes == Encode(txid, rs)
  }

  lemma {:induction false} BodyPrefix(rs: seq<Record>, k: nat)
    requires k <= |rs|
    ensures Body(rs[..k]) <= Body(rs)
    decreases |rs|
  {
    if k < |rs| {
      var init := rs[..|rs| - 1];
      BodyPrefix(init, k);
      assert init[..k] == rs[..k];
    } else {
      assert rs[..k] == rs;
    }
  }

  lemma EncodeSnoc(txid: u64, rs: seq<Record>, r: Record)
    ensures Encode(txid, rs + [r]) == Encode(txid, rs) + Serialize(r)
  {
    assert (rs + [r])[..|rs|] == rs;
  }

  lemma EncodePrefix(txid: u64, rs: seq<Record>, k: nat)
    requires k <= |rs|
    ensures Encode(txid, rs[..k]) <= Encode(txid, rs)
  {
    BodyPrefix(rs, k);
  }

  /** At the end of the first k records of a log, the next one can be read. */
  lemma NextRecord(txid: u64, rs: seq<Record>, k: nat)
    requires ValidLog(rs) && k < |rs|
    ensures |Encode(txid, rs[..k])| < |Encode(txid, rs)|
    ensures DecodeRecord(Encode(txid, rs)[|Encode(txid, rs[..k])|..]) == Some(rs[k])
  {
    hide DecodeRecord, Serialize, Encode;
    var bytes, start := Encode(txid, rs), |Encode(txid, rs[..k])|;
    EncodePrefix(txid, rs, k + 1);
    assert rs[..k + 1] == rs[..k] + [rs[k]];
    EncodeSnoc(txid, rs[..k], rs[k]);
    var n := |Serialize(rs[k])|;
    assert bytes[start..] == Serialize(rs[k]) + bytes[start + n..];
    DecodeSerialize(rs[k], bytes[start + n..]);
  }

  lemma EncodeGrows(txid: u64, rs: seq<Record>, k: nat)
    requires k < |rs|
    ensures |Encode(txid, rs[..k])| < |Encode(txid, rs)|
  {
    EncodePrefix(txid, rs, k + 1);
    assert rs[..k + 1] == rs[..k] + [rs[k]];
    EncodeSnoc(txid, rs[..k], rs[k]);
  }

  /** More bytes after a readable record do not change what is read. */
  lemma DecodeExtend(s: seq<byte>, n: nat)
    requires n <= |s| && DecodeRecord(s[..n]).Some?
    ensures DecodeRecord(s) == DecodeRecord(s[..n])
  {
    SerializeDecode(s[..n]);
    var r := DecodeRecord(s[..n]).value;
    var m := |Serialize(r)|;
    assert s == Serialize(r) + s[m..];
    DecodeSerialize(r, s[m..]);
  }

  lemma CutStep(txid: u64, rs: seq<Record>, n: nat, cut: seq<Record>, k: nat)
    requires ValidLog(rs) && n <= |Encode(txid, rs)|
    requires ValidLog(cut) && Encode(txid, rs)[..n] == Encode(txid, cut)
    requires k < |cut| && k < |rs| && cut[..k] == rs[..k]
    ensures cut[k] == rs[k]
  {
    hide DecodeRecord, Serialize, Encode;
    var start := |Encode(txid, cut[..k])|;
    NextRecord(txid, cut, k);
    NextRecord(txid, rs, k);
    var whole := Encode(txid, rs)[start..];
    assert Encode(txid, cut)[start..] == whole[..n - start];
    DecodeExtend(whole, n - start);
  }

  /** A log that was cut somewhere and still parses is a prefix of the whole log. */
  lemma {:induction false} CutIsPrefix(txid: u64, rs: seq<Record>, n: nat, cut: seq<Record>, k: nat)
    requires ValidLog(rs) && n <= |Encode(txid, rs)|
    requires ValidLog(cut) && Encode(txid, rs)[..n] == Encode(txid, cut)
    requires k <= |cut|
    ensures k <= |rs| && cut[..k] == rs[..k]
    decreases k
  {
    hide DecodeRecord, Serialize, ValidRecord, Encode;
    if k > 0 {
      CutIsPrefix(txid, rs, n, cut, k - 1);
      EncodeGrows(txid, cut, k - 1);
      assert rs[..|rs|] == rs;
      assert k - 1 < |rs|;
      CutStep(txid, rs, n, cut, k - 1);
      assert cut[..k] == cut[..k - 1] + [cut[k - 1]];
      assert rs[..k] == rs[..k - 1] + [rs[k - 1]];
    }
  }

  lemma CutLength(txid: u64, rs: seq<Record>, n: nat, cut: seq<Record>)
    requires ValidLog(rs) && n <= |Encode(txid, rs)|
    requires ValidLog(cut) && Encode(txid, rs)[..n] == Encode(txid, cut)
    ensures |cut| <= |rs| && cut == rs[..|cut|] && n == |Encode(txid, rs[..|cut|])|
  {
    CutIsPrefix(txid, rs, n, cut, |cut|);
    assert cut == cut[..|cut|];
  }

  /** The bytes of a log determine its records. */
  lemma JournalUnique(bytes: seq<byte>, txid: u64, rs: seq<Record>, rs': seq<Record>)
    requires IsJournal(bytes, txid, rs) && IsJournal(bytes, txid, rs')
    ensures rs == rs'
  {
    assert bytes[..|bytes|] == bytes;
    CutLength(txid, rs, |bytes|, rs');
    CutLength(txid, rs', |bytes|, rs);
  }

  /** Cut at a record boundary, a journal is the journal of that many records. */
  lemma CutAtBoundary(bytes: seq<byte>, txid: u64, rs: seq<Record>, k: nat)
    requires IsJournal(bytes, txid, rs) && k <= |rs|
    ensures |Encode(txid, rs[..k])| <= |bytes|
    ensures IsJournal(bytes[..|Encode(txid, rs[..k])|], txid, rs[..k])
  {
    EncodePrefix(txid, rs, k);
  }

  /** Cut anywhere else, inside the header or inside a record, it is no journal. */
  lemma CutInside(txid: u64, rs: seq<Record>, n: nat, cut: seq<Record>)
    requires ValidLog(rs) && n <= |Encode(txid, rs)|
    requires forall k :: 0 <= k <= |rs| ==> n != |Encode(txid, rs[..k])|
    ensures !IsJournal(Encode(txid, rs)[..n], txid, cut)
  {
    if IsJournal(Encode(txid, rs)[..n], txid, cut) {
      CutLength(txid, rs, n, cut);
    }
  }

  /** A log followed by part of its next record is no journal. */
  lemma TornTail(txid: u64, rs: seq<Record>, r: Record, tail: seq<byte>, cut: seq<Record>)
    requires ValidLog(rs + [r])
    requires 0 < |tail| < |Serialize(r)| && tail <= Serialize(r)
    ensures !IsJournal(Encode(txid, rs) + tail, txid, cut)
  {
    var all := rs + [r];
    EncodeSnoc(txid, rs, r);
    var n := |Encode(txid, rs)| + |tail|;
    assert Encode(txid, all)[..n] == Encode(txid, rs) + tail;
    forall k | 0 <= k <= |all|
      ensures n != |Encode(txid, all[..k])|
    {
      if k < |all| {
        EncodePrefix(txid, rs, k);
        assert all[..k] == rs[..k];
      } else {
        assert all[..k] == all;
      }
    }
    CutInside(txid, all, n, cut);
  }

  /** Checks the magic, the version, the transaction and the twelve zero bytes. */
  method ReadHeader(bytes: seq<byte>, txid: u64) returns (ok: bool)
    requires |bytes| >= HEADER_BYTES
    ensures ok <==> bytes[..HEADER_BYTES] == Header(txid)
  {
    var front := bytes[..HEADER_BYTES];
    assert front[..8] == bytes[..8] && front[8..12] == bytes[8..12] && front[12..20] == bytes[12..20];
    HeaderFields(txid);
    if bytes[..8] != MAGIC || Get32(bytes[8..12]) != 1 || Get64(bytes[12..20]) != txid {
      return false;
    }
    var at := 20;
    while at < HEADER_BYTES
      invariant 20 <= at <= HEADER_BYTES
      invariant forall i :: 20 <= i < at ==> bytes[i] == 0
    {
      if bytes[at] != 0 {
        assert front[at] != Header(txid)[at];
        return false;
      }
      at := at + 1;
    }
    HeaderRead(bytes, txid);
    return true;
  }

  datatype Replayed = Parsed(records: seq<Record>) | Corrupt

  /** Strict replay: the records when the bytes are a journal of this transaction,
      and Corrupt, with no records, exactly when they are not. */
  method Replay(bytes: seq<byte>, txid: u64) returns (r: Replayed)
    ensures r.Parsed? ==> IsJournal(bytes, txid, r.records)
    ensures r.Corrupt? ==> forall rs :: !IsJournal(bytes, txid, rs)
  {
    hide DecodeRecord, Serialize, ValidRecord;
    if |bytes| < HEADER_BYTES || |bytes| > MAX_JOURNAL_BYTES {
      return Corrupt;
    }
    var headed := ReadHeader(bytes, txid);
    if !headed {
      forall rs
        ensures !IsJournal(bytes, txid, rs)
      {
        assert Encode(txid, rs)[..HEADER_BYTES] == Header(txid);
      }
      return Corrupt;
    }
    var at := HEADER_BYTES;
    var expectedSeq, complete, parsed := 1, false, [];
    assert bytes[..at] == Encode(txid, parsed);
    while at < |bytes|
      invariant HEADER_BYTES <= at <= |bytes| && bytes[..at] == Encode(txid, parsed)
      invariant ValidLog(parsed) && |parsed| <= MAX_RECORDS && expectedSeq == |parsed| + 1
      invariant complete <==> Closed(parsed)
      invariant forall rs | IsJournal(bytes, txid, rs) :: parsed <= rs
    {
      forall rs | IsJournal(bytes, txid, rs)
        ensures |parsed| < |rs| && DecodeRecord(bytes[at..]) == Some(rs[|parsed|])
        ensures ValidRecord(rs[|parsed|], expectedSeq) && !complete
      {
        ReplayStep(bytes, txid, rs, parsed, at);
      }
      if |bytes| - at < RECORD_FIXED || |parsed| >= MAX_RECORDS {
        return Corrupt;
      }
      var record := DecodeRecord(bytes[at..]);
      if record.None? {
        return Corrupt;
      }
      if complete || !ValidRecord(record.value, expectedSeq) {
        return Corrupt;
      }
      ReplayAccept(bytes, txid, parsed, record.value, at);
      var n := |Serialize(record.value)|;
      complete := record.value.op.Complete?;
      parsed := parsed + [record.value];
      expectedSeq := expectedSeq + 1;
      at := at + n;
    }
    assert bytes[..at] == bytes;
    return Parsed(parsed);
  }

  lemma HeaderFields(txid: u64)
    ensures var h := Header(txid);
      && h[..8] == MAGIC && Get32(h[8..12]) == 1 && Get64(h[12..20]) == txid
      && forall i :: 20 <= i < HEADER_BYTES ==> h[i] == 0
  {
    var h := Header(txid);
    assert h[8..12] == Put32(1) && h[12..20] == Put64(txid);
  }

  lemma HeaderRead(bytes: seq<byte>, txid: u64)
    requires |bytes| >= HEADER_BYTES
    requires bytes[..8] == MAGIC && Get32(bytes[8..12]) == 1 && Get64(bytes[12..20]) == txid
    requires forall i :: 20 <= i < HEADER_BYTES ==> bytes[i] == 0
    ensures bytes[..HEADER_BYTES] == Header(txid)
  {
    PutGet32(bytes[8..12]); PutGet64(bytes[12..20]);
    assert bytes[..HEADER_BYTES] == bytes[..8] + bytes[8..12] + bytes[12..20] + bytes[20..HEADER_BYTES];
    assert bytes[20..HEADER_BYTES] == seq(12, _ => 0);
  }

  lemma ReplayAccept(bytes: seq<byte>, txid: u64, parsed: seq<Record>, r: Record, at: nat)
    requires at <= |bytes| && bytes[..at] == Encode(txid, parsed) && DecodeRecord(bytes[at..]) == Some(r)
    requires ValidLog(parsed) && !Closed(parsed) && ValidRecord(r, |parsed| + 1)
    ensures at + |Serialize(r)| <= |bytes| && bytes[..at + |Serialize(r)|] == Encode(txid, parsed + [r])
    ensures ValidLog(parsed + [r])
  {
    hide DecodeRecord, Serialize, ValidRecord, Encode;
    SerializeDecode(bytes[at..]);
    EncodeSnoc(txid, parsed, r);
    ValidSnoc(parsed, r);
    var n := |Serialize(r)|;
    assert bytes[..at + n] == bytes[..at] + bytes[at..][..n];
  }

  lemma ReplayStep(bytes: seq<byte>, txid: u64, rs: seq<Record>, parsed: seq<Record>, at: nat)
    requires IsJournal(bytes, txid, rs) && parsed <= rs
    requires at < |bytes| && bytes[..at] == Encode(txid, parsed)
    ensures |parsed| < |rs| && DecodeRecord(bytes[at..]) == Some(rs[|parsed|])
    ensures ValidRecord(rs[|parsed|], |parsed| + 1)
    ensures !Closed(parsed)
  {
    assert rs[..|parsed|] == parsed;
    assert rs[..|rs|] == rs;
    assert |parsed| < |rs|;
    NextRecord(txid, rs, |parsed|);
  }
}
