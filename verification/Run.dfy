/** One execution of a plan: the journal, the records it has appended, and the
    file operations that follow each record. */
module Runs {
  import opened Bytes
  import opened Paths
  import opened Wrappers
  import opened Journal
  import opened Machines
  import opened Writer
  import opened WriteAhead
  import opened Undo

  datatype Planned = Planned(op: Op, incomingSize: u64, incomingSha: Digest, oldSize: u64, oldSha: Digest,
                             relpath: wstring, target: wstring, staged: wstring)

  datatype Outcome =
    | Prepared | Applied | Rejected | Conflict | RolledBack | Recovered
    | NothingToRecover | NeedsAuthorizedRecovery | RecoveryFailed
    | Stopped // not an answer: the process ended before it could give one

  /** Sixteen lower-case hexadecimal digits, most significant first. */
  function HexDigits(v: nat, n: nat): (w: wstring)
    ensures |w| == n
    decreases n
  {
    if n == 0 then [] else HexDigits(v / 16, n - 1) + [if v % 16 < 10 then 48 + v % 16 else 87 + v % 16]
  }

  function Power16(n: nat): (r: nat)
    ensures r > 0
  {
    if n == 0 then 1 else 16 * Power16(n - 1)
  }

  lemma {:induction false} HexDigitsApart(v: nat, v': nat, n: nat)
    requires v < Power16(n) && v' < Power16(n) && HexDigits(v, n) == HexDigits(v', n)
    ensures v == v'
    decreases n
  {
    if n > 0 {
      var a, b := HexDigits(v, n), HexDigits(v', n);
      assert HexDigits(v / 16, n - 1) == a[..n - 1] && HexDigits(v' / 16, n - 1) == b[..n - 1];
      assert a[n - 1] == b[n - 1];
      HexDigitsApart(v / 16, v' / 16, n - 1);
    }
  }

  function BackupPath(dir: wstring, seqNo: nat): wstring {
    dir + [BACKSLASH] + HexDigits(seqNo, 16)
  }

  lemma BackupPathNotEmpty(dir: wstring, seqNo: nat)
    ensures BackupPath(dir, seqNo) != []
  {
    assert BackupPath(dir, seqNo)[|dir|] == BACKSLASH;
  }

  lemma BackupPathsApart(dir: wstring, a: nat, b: nat)
    requires a != b && a <= MAX_RECORDS + 1 && b <= MAX_RECORDS + 1
    ensures BackupPath(dir, a) != BackupPath(dir, b)
  {
    if BackupPath(dir, a) == BackupPath(dir, b) {
      assert HexDigits(a, 16) == BackupPath(dir, a)[|dir| + 1..];
      assert HexDigits(b, 16) == BackupPath(dir, b)[|dir| + 1..];
      calc {
        Power16(16);
        16 * Power16(15);
        256 * Power16(14);
        4096 * Power16(13);
        65536 * Power16(12);
        1048576 * Power16(11);
      }
      HexDigitsApart(a, b, 16);
    }
  }

  /** The exit code that the engine program gives to an answer. */
  function ExitCode(o: Outcome): (code: nat)
    ensures code == 0 <==> o in {Applied, Recovered, NothingToRecover}
    ensures o in {Rejected, Conflict, RolledBack, NeedsAuthorizedRecovery, RecoveryFailed} ==> 42 <= code <= 46
  {
    match o
    case Applied | Recovered | NothingToRecover => 0
    case Rejected => 42
    case Conflict => 43
    case RolledBack => 44
    case NeedsAuthorizedRecovery => 45
    case RecoveryFailed => 46
    case Prepared | Stopped => 47
  }

  // ------------------------------------------------------ what a crash can leave

  /** The journal file holds exactly rs, and perhaps part of one more record. */
  ghost predicate HoldsLog(txid: u64, journal: Option<seq<byte>>, rs: seq<Record>) {
    && IsJournal(Encode(txid, rs), txid, rs) && !Closed(rs)
    && (|| journal == Some(Encode(txid, rs))
        || exists r, n :: TornAt(txid, journal, rs, r, n))
  }

  ghost predicate TornAt(txid: u64, journal: Option<seq<byte>>, rs: seq<Record>, r: Record, n: nat) {
    && ValidRecord(r, |rs| + 1) && 0 < n < |Serialize(r)|
    && journal == Some(Encode(txid, rs) + Serialize(r)[..n])
  }

  /** The journal file holds rs and a whole Complete record after it. */
  ghost predicate HoldsComplete(txid: u64, journal: Option<seq<byte>>, rs: seq<Record>) {
    && !Closed(rs) && journal.Some?
    && exists c: Record :: c.op.Complete? && IsJournal(journal.value, txid, rs + [c])
  }

  ghost predicate Completed(txid: u64, journal: Option<seq<byte>>) {
    exists rs :: HoldsComplete(txid, journal, rs)
  }

  /** The transaction is under way: everything done so far can still be undone. */
  ghost predicate Open(tx: Tx, txid: u64, d: Disk, rs: seq<Record>) {
    HoldsLog(txid, d.journal, rs) && LogFits(tx, rs) && Wal(tx, d, rs)
  }

  ghost predicate IsNew(tx: Tx, d: Disk) {
    d.files == tx.newFiles && d.version == tx.newVersion
  }

  /** Every state that a run, a crash or an interrupted recovery can leave behind:
      not started, under way, or complete. */
  ghost predicate Scene(tx: Tx, txid: u64, d: Disk) {
    || (Pristine(tx, d) && tx.marker in tx.files && (d.journal.None? || |d.journal.value| < HEADER_BYTES))
    || (exists rs :: Open(tx, txid, d, rs))
    || (IsNew(tx, d) && tx.marker in tx.newFiles && Completed(txid, d.journal))
  }

  /** The one state outside Scene: undoing has begun although the journal already
      holds the whole Complete record, because flushing it was reported to fail. */
  ghost predicate CompleteLost(tx: Tx, txid: u64, d: Disk) {
    exists rs :: HoldsComplete(txid, d.journal, rs) && LogFits(tx, rs) && Wal(tx, d, rs)
  }

  // -------------------------------------------------------- what a run journals

  /** The journal can hold these records. */
  ghost predicate Loggable(txid: u64, rs: seq<Record>) {
    IsJournal(Encode(txid, rs), txid, rs)
  }

  lemma LoggablePrefix(txid: u64, rs: seq<Record>, more: seq<Record>)
    requires Loggable(txid, rs + more)
    ensures Loggable(txid, rs)
  {
    hide ValidRecord, Encode;
    var all := rs + more;
    assert all[..|rs|] == rs;
    EncodePrefix(txid, all, |rs|);
    forall i | 0 <= i < |rs|
      ensures ValidRecord(rs[i], i + 1) && (rs[i].op.Complete? ==> i == |rs| - 1)
    {
      assert all[i] == rs[i];
    }
  }

  lemma LoggableLast(txid: u64, rs: seq<Record>, r: Record)
    requires Loggable(txid, rs + [r])
    ensures ValidRecord(r, |rs| + 1)
  {
    hide ValidRecord;
    assert (rs + [r])[|rs|] == r;
  }

  function SeqNo(n: nat): (v: u64) {
    if n < 0x1_0000_0000_0000_0000 then n else 0
  }

  function NoDigest(): (d: Digest) {
    seq(32, _ => 0)
  }

  function BackupRecord(n: nat, dir: wstring, target: wstring, sha: Digest, size: u64): Record {
    Record(SeqNo(n + 1), Op.Backup, 0, target, BackupPath(dir, n + 1), sha, size, [])
  }

  /** Journaled right after its backup, and naming the same backup file. */
  function ApplyRecord(n: nat, dir: wstring, op: Op, target: wstring, sha: Digest, size: u64): Record {
    Record(SeqNo(n + 1), op, 0, target, BackupPath(dir, n), sha, size, [])
  }

  function RegistryRecord(n: nat, version: wstring): Record {
    Record(SeqNo(n + 1), Op.Registry, 0, REGISTRATION_KEY, [], NoDigest(), 0, version)
  }

  function CompleteRecord(n: nat): Record {
    Record(SeqNo(n + 1), Op.Complete, 0, [], [], NoDigest(), 0, [])
  }

  /** The records of one planned file, when n have been written before. */
  function StepLog(f: Planned, n: nat, dir: wstring): (rs: seq<Record>) {
    match f.op
    case Create => [Record(SeqNo(n + 1), Op.Create, 0, f.target, [], f.incomingSha, f.incomingSize, [])]
    case Delete =>
      [BackupRecord(n, dir, f.target, f.oldSha, f.oldSize),
       ApplyRecord(n + 1, dir, f.op, f.target, f.oldSha, f.oldSize)]
    case _ =>
      [BackupRecord(n, dir, f.target, f.oldSha, f.oldSize),
       ApplyRecord(n + 1, dir, f.op, f.target, f.incomingSha, f.incomingSize)]
  }

  /** The step that replaces the installed manifest by the staged one. */
  ghost function ManifestStep(sha: Content -> Digest, files: Tree, staging: Tree, installed: wstring,
      staged: wstring): (f: Planned)
  {
    var before: Content := if installed in files then files[installed] else [];
    var after: Content := if staged in staging then staging[staged] else [];
    Planned(Op.Replace, SeqNo(|after|), sha(after), SeqNo(|before|), sha(before), [], installed, staged)
  }

  lemma StepNames(f: Planned, n: nat, dir: wstring)
    ensures forall i :: 0 <= i < |StepLog(f, n, dir)| ==> StepLog(f, n, dir)[i].target == f.target
  {
  }

  /** The file that is to be replaced or deleted is the one the manifest listed. */
  predicate AsListed(sha: Content -> Digest, files: Tree, f: Planned) {
    f.op.Create? || (f.target in files && sha(files[f.target]) == f.oldSha && |files[f.target]| == f.oldSize)
  }

  // ------------------------------------------------------------------- the run

  predicate NamesTarget(r: Record) {
    Touches(r) || r.op.Backup?
  }

  lemma StepInTwo(txid: u64, rs: seq<Record>, f: Planned, dir: wstring)
    requires f.op.Replace? || f.op.Delete?
    ensures |StepLog(f, |rs|, dir)| == 2
    ensures rs + StepLog(f, |rs|, dir) == rs + [StepLog(f, |rs|, dir)[0]] + [StepLog(f, |rs|, dir)[1]]
    ensures Loggable(txid, rs + StepLog(f, |rs|, dir)) ==> Loggable(txid, rs + [StepLog(f, |rs|, dir)[0]])
  {
    hide Loggable, BackupPath;
    var step := StepLog(f, |rs|, dir);
    assert rs + step == rs + [step[0]] + [step[1]];
    if Loggable(txid, rs + step) {
      LoggablePrefix(txid, rs + [step[0]], [step[1]]);
    }
  }

  class Run {
    const sha: Content -> Digest
    const staging: Tree
    const m: Machine
    const journal: TxJournal
    const backupDir: wstring
    var records: seq<Record>
    var nextSeq: nat
    ghost const tx: Tx
    ghost var logged: seq<Record> // the records that are whole on the disk

    /** Undoing records from here brings the original back. */
    ghost predicate CanRollBack()
      reads this, m, journal
    {
      && m.up && tx.sha == sha && records <= logged
      && LogFits(tx, logged) && Wal(tx, m.disk, logged)
      && (forall k :: |records| <= k < |logged| ==> Undone(tx, m.disk, logged[k]))
      && (HoldsLog(journal.txid, m.disk.journal, logged)
          || (m.flushLost && HoldsComplete(journal.txid, m.disk.journal, logged)))
    }

    /** No append has failed; the log on disk is the one in memory. */
    ghost predicate Running()
      reads this, m, journal
    {
      && m.up && tx.sha == sha && journal.Clean(m.disk) && !Closed(records)
      && records == logged == journal.records && nextSeq == |records| + 1 <= MAX_RECORDS + 1
      && LogFits(tx, records) && Wal(tx, m.disk, records)
      && (forall i :: 0 <= i < |records| && NeedsBackup(records[i]) ==> records[i].backup == BackupPath(backupDir, i))
      && !m.flushLost
    }

    ghost predicate Left()
      reads this, m, journal
    {
      Scene(tx, journal.txid, m.disk)
    }

    constructor (sha: Content -> Digest, staging: Tree, m: Machine, journal: TxJournal, backupDir: wstring,
        ghost tx: Tx)
      requires m.up && tx.sha == sha && journal.Clean(m.disk) && journal.records == [] && !m.flushLost
      requires Pristine(tx, m.disk) && tx.marker in tx.files
      ensures this.sha == sha && this.staging == staging && this.m == m && this.journal == journal
      ensures this.backupDir == backupDir && this.tx == tx && Running() && records == []
    {
      this.sha := sha;
      this.staging := staging;
      this.m := m;
      this.journal := journal;
      this.backupDir := backupDir;
      this.records := [];
      this.nextSeq := 1;
      this.tx := tx;
      this.logged := [];
    }

    lemma RunningCanRollBack()
      requires Running()
      ensures CanRollBack() && Open(tx, journal.txid, m.disk, records) && Left()
    {
      hide Wal, LogFits, Encode, IsJournal, BackupPath;
      assert Open(tx, journal.txid, m.disk, records);
    }

    /** Appends one record that fits the transaction and whose operation has not run. */
    method Append(r: Record) returns (ok: bool)
      requires Running() && r.seqNo == nextSeq && !r.op.Complete?
      requires RecordFits(tx, records + [r], |records|)
      requires forall i :: 0 <= i < |records| ==> Apart(records[i], r)
      requires TargetHeld(tx, m.disk, r) && Undone(tx, m.disk, r)
      requires NeedsBackup(r) ==> r.backup == BackupPath(backupDir, |records|)
      modifies this, m, journal
      ensures m.disk == old(m.disk).(journal := m.disk.journal)
      ensures Left()
      ensures ok ==> Running() && records == old(records) + [r] && ValidRecord(r, |old(records)| + 1)
      ensures ok ==> Loggable(journal.txid, old(records) + [r])
      ensures !ok ==> records == old(records)
      ensures m.up && !ok ==> CanRollBack()
      ensures m.sound ==> old(m.sound)
      ensures m.up && !ok && m.sound ==> !Loggable(journal.txid, old(records) + [r])
    {
      hide ValidRecord, Encode, Wal, LogFits, RecordFits, TargetHeld, Undone, IsJournal, StandardPath, Apart,
           HoldsLog, HoldsComplete, Scene, BackupPath, Loggable, Serialize, NeedsBackup;
      Refused(r);
      assert journal.Valid() && m.disk.journal.Some?;
      ghost var kept;
      ok, kept := journal.Append(m, r);
      AppendLeaves(tx, journal.txid, old(m.disk), m.disk, old(records), r, kept);
      nextSeq := nextSeq + 1;
      logged := if kept == |Serialize(r)| then records + [r] else records;
      if ok {
        assert Loggable(journal.txid, records + [r]) by { AppendedIsLoggable(r, kept); }
        records := records + [r];
        RunningCanRollBack();
      }
    }

    lemma AppendedIsLoggable(r: Record, kept: nat)
      requires kept == |Serialize(r)|
      requires kept > 0 ==> IsJournal(Encode(journal.txid, records + [r]), journal.txid, records + [r])
      ensures Loggable(journal.txid, records + [r])
    {
      hide IsJournal, Encode;
    }

    /** What the journal refuses without a failed call could not have been read back. */
    lemma Refused(r: Record)
      ensures !ValidRecord(r, |records| + 1) ||
        !IsJournal(Encode(journal.txid, records + [r]), journal.txid, records + [r])
        ==> !Loggable(journal.txid, records + [r])
    {
      hide ValidRecord, Encode, IsJournal;
      if Loggable(journal.txid, records + [r]) {
        LoggableLast(journal.txid, records, r);
      }
    }

    /** No record names this target yet, and it is not the installation marker. */
    ghost predicate NewTarget(t: wstring)
      reads this
    {
      && t != tx.marker
      && forall i :: 0 <= i < |records| && NamesTarget(records[i]) ==> records[i].target != t
    }

    lemma NewTargetSame(t: wstring)
      requires Running() && NewTarget(t)
      ensures Same(m.disk.files, tx.files, t)
    {
      assert Untouched(records, t);
    }

    /** Journals the intent to keep the old bytes of a target, then copies them into
        a new backup file while proving them against the expected digest. */
    method SaveOld(target: wstring, oldSha: Digest, oldSize: u64, verify: bool) returns (failure: Option<Outcome>)
      requires Running() && NewTarget(target)
      requires !verify && target in m.disk.files ==>
        oldSha == sha(m.disk.files[target]) && oldSize == |m.disk.files[target]|
      modifies this, m, journal
      ensures m.disk == old(m.disk).(journal := m.disk.journal, backups := m.disk.backups)
      ensures Left()
      ensures failure.None? ==>
        && Running() && records == old(records) + [BackupRecord(|old(records)|, backupDir, target, oldSha, oldSize)]
        && target in tx.files && sha(tx.files[target]) == oldSha && |tx.files[target]| == oldSize
        && BackupPath(backupDir, |records|) in m.disk.backups
        && m.disk.backups[BackupPath(backupDir, |records|)] == tx.files[target]
      ensures || records == old(records)
              || records == old(records) + [BackupRecord(|old(records)|, backupDir, target, oldSha, oldSize)]
      // a conflict exactly when the intent was journaled, and a file that cannot be proved
      ensures failure.Some? && m.up ==>
        CanRollBack() && failure.value == (if records == old(records) then RolledBack else Conflict)
      ensures failure.Some? && m.up && m.sound ==>
        (failure.value.Conflict? <==>
          Loggable(journal.txid, old(records) + [BackupRecord(|old(records)|, backupDir, target, oldSha, oldSize)]))
      ensures failure.Some? && m.up && m.sound ==>
        || !Loggable(journal.txid, old(records) + [BackupRecord(|old(records)|, backupDir, target, oldSha, oldSize)])
        || !(target in tx.files && (verify ==> sha(tx.files[target]) == oldSha && |tx.files[target]| == oldSize))
      ensures m.sound ==> old(m.sound)
    {
      hide ValidRecord, Encode, IsJournal, StandardPath, LogFits, Serialize, BackupPath, Wal, HoldsLog,
           HoldsComplete, Closed, Scene, Loggable;
      NewTargetSame(target);
      var path := BackupPath(backupDir, nextSeq);
      var backup := Record(nextSeq, Op.Backup, 0, target, path, oldSha, oldSize, []);
      assert backup == BackupRecord(|records|, backupDir, target, oldSha, oldSize);
      assert RecordFits(tx, records + [backup], |records|);
      var ok := Append(backup);
      if !ok {
        return Some(if m.up then RolledBack else Stopped);
      }
      RunningCanRollBack();
      var content := m.Read(m.disk.files, target);
      if content.None? {
        return Some(Conflict);
      }
      forall i | 0 <= i < |records| && NeedsBackup(records[i])
        ensures records[i].backup != path
      {
        BackupPathsApart(backupDir, i, |records|);
      }
      ghost var before := m.disk;
      ok := m.WriteBackup(path, content.value);
      BackupWritten(tx, records, before, m.disk, path);
      StillOpen(tx, journal.txid, before, m.disk, records);
      if !ok {
        return Some(if m.up then Conflict else Stopped);
      }
      if verify && (sha(content.value) != oldSha || |content.value| != oldSize) {
        return Some(Conflict);
      }
      return None;
    }

    /** The journal has room for the intent to save the file. */
    ghost predicate CanSave(f: Planned, rs: seq<Record>) {
      Loggable(journal.txid, rs + [BackupRecord(|rs|, backupDir, f.target, f.oldSha, f.oldSize)])
    }

    /** Everything this record needs to be undone is in place; its operation, if it
        has run, changed only its target, and only to what the record says. */
    lemma Moved(before: Disk, i: nat)
      requires Open(tx, journal.txid, before, records) && i < |records| && Touches(records[i])
      requires m.disk == before.(files := m.disk.files)
      requires m.disk.files - {records[i].target} == before.files - {records[i].target}
      requires TargetHeld(tx, m.disk, records[i])
      ensures Open(tx, journal.txid, m.disk, records) && Left()
    {
      hide Wal, LogFits, TargetHeld, HoldsLog, Scene;
      FileChange(tx, records, before, m.disk, i);
      StillOpen(tx, journal.txid, before, m.disk, records);
    }

    /** Create: journal, copy the proved staged bytes, place them where nothing is. */
    method Create(f: Planned) returns (failure: Option<Outcome>)
      requires Running() && NewTarget(f.target) && f.op.Create?
      requires f.target !in tx.files && f.target in tx.incoming && sha(tx.incoming[f.target]) == f.incomingSha
      requires f.staged in staging && staging[f.staged] == tx.incoming[f.target]
      requires |staging[f.staged]| == f.incomingSize
      modifies this, m, journal
      ensures Left()
      ensures failure.None? ==> Running() && m.disk.version == old(m.disk.version)
      ensures failure.None? ==> m.disk.files == old(m.disk.files)[f.target := tx.incoming[f.target]]
      ensures failure.None? ==> records == old(records) + StepLog(f, |old(records)|, backupDir)
      ensures failure.Some? && m.up ==> CanRollBack() && failure.value.RolledBack?
      ensures failure.Some? && m.up && m.sound ==>
        !Loggable(journal.txid, old(records) + StepLog(f, |old(records)|, backupDir))
      ensures m.sound ==> old(m.sound)
    {
      hide ValidRecord, Encode, IsJournal, StandardPath, LogFits, Serialize, BackupPath, Wal, HoldsLog,
           HoldsComplete, Closed, Loggable;
      NewTargetSame(f.target);
      var record := Record(nextSeq, Op.Create, 0, f.target, [], f.incomingSha, f.incomingSize, []);
      assert RecordFits(tx, records + [record], |records|);
      var ok := Append(record);
      if !ok {
        return Some(if m.up then RolledBack else Stopped);
      }
      RunningCanRollBack();
      var content := m.Read(staging, f.staged);
      if content.None? || sha(content.value) != f.incomingSha || |content.value| != f.incomingSize {
        return Some(RolledBack);
      }
      ghost var before := m.disk;
      ok := m.Place(f.target, content.value, false);
      Moved(before, |records| - 1);
      if !ok {
        return Some(if m.up then RolledBack else Stopped);
      }
      return None;
    }

    /** Journals a Replace or Delete whose backup SaveOld has just made. */
    method AppendApply(op: Op, target: wstring, newSha: Digest, newSize: u64) returns (ok: bool)
      requires Running() && (op.Replace? || op.Delete?) && |records| > 0
      requires forall i :: 0 <= i < |records| && Touches(records[i]) ==> records[i].target != target
      requires target != tx.marker && target in tx.files
      requires var b := records[|records| - 1];
        b.op.Backup? && b.target == target && b.sha == sha(tx.files[target]) && b.size == |tx.files[target]|
      requires op.Delete? ==> newSha == sha(tx.files[target]) && newSize == |tx.files[target]|
      requires op.Replace? ==>
        && target in tx.incoming && newSha == sha(tx.incoming[target])
        && (newSha == sha(tx.files[target]) ==> tx.incoming[target] == tx.files[target])
      requires target in m.disk.files && m.disk.files[target] == tx.files[target]
      modifies this, m, journal
      ensures m.disk == old(m.disk).(journal := m.disk.journal)
      ensures Left()
      ensures ok ==>
        Running() && records == old(records) + [ApplyRecord(|old(records)|, backupDir, op, target, newSha, newSize)]
      ensures m.up && !ok ==> CanRollBack()
      ensures m.up && !ok && m.sound ==>
        !Loggable(journal.txid, old(records) + [ApplyRecord(|old(records)|, backupDir, op, target, newSha, newSize)])
      ensures m.sound ==> old(m.sound)
    {
      hide ValidRecord, Encode, IsJournal, StandardPath, LogFits, Serialize, BackupPath, Wal, HoldsLog,
           HoldsComplete, Closed, Scene, Loggable;
      var apply := Record(nextSeq, op, 0, target, BackupPath(backupDir, |records|), newSha, newSize, []);
      assert apply == ApplyRecord(|records|, backupDir, op, target, newSha, newSize);
      assert apply.backup != [] by { BackupPathNotEmpty(backupDir, |records|); }
      assert RecordFits(tx, records + [apply], |records|);
      forall i | 0 <= i < |records|
        ensures Apart(records[i], apply)
      {
        if NeedsBackup(records[i]) {
          BackupPathsApart(backupDir, i, |records|);
        }
      }
      ok := Append(apply);
    }

    /** Copies the staged bytes while proving them, and moves them over the target of
        the Replace record that was appended last. */
    method PlaceOver(target: wstring, staged: wstring, newSha: Digest, newSize: u64) returns (failure: Option<Outcome>)
      requires Running() && |records| > 0
      requires var r := records[|records| - 1];
        r.op.Replace? && r.target == target && Saved(tx, m.disk, r)
      requires target in tx.incoming && (staged in staging ==> staging[staged] == tx.incoming[target])
      modifies this, m, journal
      ensures records == old(records) && Left()
      ensures failure.None? ==> Running() && target in tx.files && staged in staging
      ensures failure.None? ==> m.disk == old(m.disk).(files := old(m.disk.files)[target := tx.incoming[target]])
      ensures failure.Some? && m.up ==> CanRollBack() && failure.value.RolledBack?
      ensures failure.Some? && m.up && m.sound ==>
        staged !in staging || sha(staging[staged]) != newSha || |staging[staged]| != newSize
      ensures m.sound ==> old(m.sound)
    {
      hide ValidRecord, Encode, IsJournal, StandardPath, LogFits, Serialize, BackupPath, Wal, HoldsLog,
           HoldsComplete, Closed, Scene, RecordFits;
      RunningCanRollBack();
      var content := m.Read(staging, staged);
      if content.None? || sha(content.value) != newSha || |content.value| != newSize {
        return Some(RolledBack);
      }
      ghost var before := m.disk;
      var ok := m.Place(target, content.value, true);
      assert TargetHeld(tx, before, records[|records| - 1]) by { HeldAt(tx, before, records, |records| - 1); }
      Moved(before, |records| - 1);
      if !ok {
        return Some(if m.up then RolledBack else Stopped);
      }
      return None;
    }

    /** Delete: back up and prove the old bytes, journal, delete. */
    method Delete(f: Planned) returns (failure: Option<Outcome>)
      requires Running() && NewTarget(f.target) && f.op.Delete?
      modifies this, m, journal
      ensures Left()
      ensures failure.None? ==> Running() && m.disk.version == old(m.disk.version)
      ensures failure.None? ==> f.target in tx.files && m.disk.files == old(m.disk.files) - {f.target}
      ensures failure.None? ==> records == old(records) + StepLog(f, |old(records)|, backupDir)
      ensures failure.None? ==> AsListed(sha, tx.files, f)
      ensures failure.Some? && m.up ==> CanRollBack() && (failure.value.RolledBack? || failure.value.Conflict?)
      ensures failure.Some? && m.up && m.sound ==>
        (failure.value.Conflict? <==> !AsListed(sha, tx.files, f) && CanSave(f, old(records)))
      ensures m.up && failure == Some(Conflict) ==>
        records == old(records) + [BackupRecord(|old(records)|, backupDir, f.target, f.oldSha, f.oldSize)]
      ensures m.up && failure == Some(RolledBack) ==> records == old(records) || AsListed(sha, tx.files, f)
      ensures failure.Some? && m.up && m.sound ==>
        || !Loggable(journal.txid, old(records) + StepLog(f, |old(records)|, backupDir)) || !AsListed(sha, tx.files, f)
      ensures m.sound ==> old(m.sound)
    {
      hide ValidRecord, Encode, IsJournal, StandardPath, LogFits, Serialize, BackupPath, Wal, HoldsLog,
           HoldsComplete, Closed, Scene, RecordFits, Loggable;
      StepInTwo(journal.txid, records, f, backupDir);
      NewTargetSame(f.target);
      failure := SaveOld(f.target, f.oldSha, f.oldSize, true);
      if failure.Some? {
        return;
      }
      var ok := AppendApply(Op.Delete, f.target, f.oldSha, f.oldSize);
      if !ok {
        return Some(if m.up then RolledBack else Stopped);
      }
      RunningCanRollBack();
      ghost var before := m.disk;
      ok := m.Remove(f.target);
      Moved(before, |records| - 1);
      if !ok {
        return Some(if m.up then RolledBack else Stopped);
      }
      return None;
    }

    /** Replace: back up and prove the old bytes, journal, copy the proved staged
        bytes, move them over the target. */
    method Replace(f: Planned) returns (failure: Option<Outcome>)
      requires Running() && NewTarget(f.target) && f.op.Replace?
      requires f.target in tx.incoming && sha(tx.incoming[f.target]) == f.incomingSha
      requires f.staged in staging && staging[f.staged] == tx.incoming[f.target]
      requires |staging[f.staged]| == f.incomingSize
      requires f.target in tx.files && f.incomingSha == sha(tx.files[f.target]) ==>
        tx.incoming[f.target] == tx.files[f.target]
      modifies this, m, journal
      ensures Left()
      ensures failure.None? ==> Running() && m.disk.version == old(m.disk.version)
      ensures failure.None? ==>
        f.target in tx.files && m.disk.files == old(m.disk.files)[f.target := tx.incoming[f.target]]
      ensures failure.None? ==> records == old(records) + StepLog(f, |old(records)|, backupDir)
      ensures failure.None? ==> AsListed(sha, tx.files, f)
      ensures failure.Some? && m.up ==> CanRollBack() && (failure.value.RolledBack? || failure.value.Conflict?)
      ensures failure.Some? && m.up && m.sound ==>
        (failure.value.Conflict? <==> !AsListed(sha, tx.files, f) && CanSave(f, old(records)))
      ensures m.up && failure == Some(Conflict) ==>
        records == old(records) + [BackupRecord(|old(records)|, backupDir, f.target, f.oldSha, f.oldSize)]
      ensures m.up && failure == Some(RolledBack) ==> records == old(records) || AsListed(sha, tx.files, f)
      ensures failure.Some? && m.up && m.sound ==>
        || !Loggable(journal.txid, old(records) + StepLog(f, |old(records)|, backupDir)) || !AsListed(sha, tx.files, f)
      ensures m.sound ==> old(m.sound)
    {
      hide ValidRecord, Encode, IsJournal, StandardPath, LogFits, Serialize, BackupPath, Wal, HoldsLog,
           HoldsComplete, RecordFits, Closed, Left, CanRollBack, Loggable;
      StepInTwo(journal.txid, records, f, backupDir);
      NewTargetSame(f.target);
      failure := SaveOld(f.target, f.oldSha, f.oldSize, true);
      if failure.Some? {
        return;
      }
      var ok := AppendApply(Op.Replace, f.target, f.incomingSha, f.incomingSize);
      if !ok {
        return Some(if m.up then RolledBack else Stopped);
      }
      failure := PlaceOver(f.target, f.staged, f.incomingSha, f.incomingSize);
    }

    /** The old DisplayVersion is journaled before the new one is written. */
    method SetVersion(oldVersion: wstring, newVersion: wstring) returns (failure: Option<Outcome>)
      requires Running() && oldVersion == tx.version == m.disk.version && newVersion == tx.newVersion
      modifies this, m, journal
      ensures Left()
      ensures failure.None? ==> Running() && m.disk.files == old(m.disk.files) && m.disk.version == newVersion
      ensures failure.None? ==> records == old(records) + [RegistryRecord(|old(records)|, oldVersion)]
      ensures failure.Some? && m.up ==> CanRollBack() && failure.value.RolledBack?
      ensures failure.Some? && m.up && m.sound ==>
        !Loggable(journal.txid, old(records) + [RegistryRecord(|old(records)|, oldVersion)])
      ensures m.sound ==> old(m.sound)
    {
      hide ValidRecord, Encode, IsJournal, StandardPath, LogFits, Serialize, BackupPath, Wal, HoldsLog,
           HoldsComplete, Closed, Scene, Loggable;
      var record := Record(nextSeq, Op.Registry, 0, REGISTRATION_KEY, [], NoDigest(), 0, oldVersion);
      assert record == RegistryRecord(|records|, oldVersion);
      assert RecordFits(tx, records + [record], |records|);
      var ok := Append(record);
      if !ok {
        return Some(if m.up then RolledBack else Stopped);
      }
      RunningCanRollBack();
      ghost var before := m.disk;
      assert records[|records| - 1].op.Registry?;
      VersionWritten(tx, records, m.disk);
      ok := m.WriteVersion(newVersion);
      StillOpen(tx, journal.txid, before, m.disk, records);
      if !ok {
        return Some(if m.up then RolledBack else Stopped);
      }
      return None;
    }

    ghost function ManifestLog(n: nat, installed: wstring, staged: wstring): (rs: seq<Record>) {
      StepLog(ManifestStep(sha, tx.files, staging, installed, staged), n, backupDir)
    }

    lemma ManifestInTwo(installed: wstring, staged: wstring)
      ensures var step := ManifestLog(|records|, installed, staged);
        && |step| == 2 && records + step == records + [step[0]] + [step[1]]
        && (Loggable(journal.txid, records + step) ==> Loggable(journal.txid, records + [step[0]]))
    {
      hide Loggable, StepLog;
      StepInTwo(journal.txid, records, ManifestStep(sha, tx.files, staging, installed, staged), backupDir);
    }

    /** The installed manifest lands last, itself journaled as backup and replace. */
    method PlaceManifest(installed: wstring, staged: wstring) returns (failure: Option<Outcome>)
      requires Running() && NewTarget(installed)
      requires staged in staging ==> installed in tx.incoming && staging[staged] == tx.incoming[installed]
      requires installed in tx.files && staged in staging && sha(staging[staged]) == sha(tx.files[installed]) ==>
        staging[staged] == tx.files[installed]
      requires installed in tx.files ==> |tx.files[installed]| < 0x1_0000_0000_0000_0000
      requires staged in staging ==> |staging[staged]| < 0x1_0000_0000_0000_0000
      modifies this, m, journal
      ensures Left()
      ensures failure.None? ==> Running() && m.disk.version == old(m.disk.version)
      ensures failure.None? ==> staged in staging && installed in tx.files
      ensures failure.None? ==> m.disk.files == old(m.disk.files)[installed := staging[staged]]
      ensures failure.None? ==> records == old(records) + ManifestLog(|old(records)|, installed, staged)
      ensures failure.Some? && m.up ==> CanRollBack() && failure.value.RolledBack?
      ensures failure.Some? && m.up && m.sound ==>
        || installed !in tx.files || staged !in staging
        || !Loggable(journal.txid, old(records) + ManifestLog(|old(records)|, installed, staged))
      ensures m.sound ==> old(m.sound)
    {
      hide ValidRecord, Encode, IsJournal, StandardPath, LogFits, Serialize, BackupPath, Wal, HoldsLog,
           HoldsComplete, Closed, Scene, RecordFits, Loggable;
      ManifestInTwo(installed, staged);
      NewTargetSame(installed);
      RunningCanRollBack();
      var current := m.Read(m.disk.files, installed);
      if current.None? {
        return Some(RolledBack);
      }
      failure := SaveOld(installed, sha(current.value), |current.value|, false);
      if failure.Some? {
        return Some(if m.up then RolledBack else Stopped);
      }
      RunningCanRollBack();
      var content := m.Read(staging, staged);
      if content.None? {
        return Some(RolledBack);
      }
      var ok := AppendApply(Op.Replace, installed, sha(content.value), |content.value|);
      if !ok {
        return Some(if m.up then RolledBack else Stopped);
      }
      failure := PlaceOver(installed, staged, sha(content.value), |content.value|);
    }

    /** Reverses this run's records. A rollback that cannot finish is handed to the
        authorized recovery with the scene preserved. */
    method RollBack(outcome: Outcome) returns (o: Outcome)
      requires CanRollBack() && (outcome.RolledBack? || outcome.Conflict?)
      modifies m
      ensures o == outcome || o.NeedsAuthorizedRecovery? || o.Stopped?
      ensures m.disk.journal == old(m.disk.journal)
      ensures o == outcome ==> m.up && Pristine(tx, m.disk)
      ensures o.NeedsAuthorizedRecovery? ==> m.up && !m.sound
      ensures o.Stopped? ==> !m.up
      ensures Left() || (m.flushLost && CompleteLost(tx, journal.txid, m.disk))
      ensures m.flushLost == old(m.flushLost) && (m.sound ==> old(m.sound))
    {
      hide ValidRecord, Encode, IsJournal, StandardPath, LogFits, Serialize, BackupPath, Wal, HoldsLog,
           HoldsComplete, Closed;
      var backups := ContextFor(records);
      var ok := UndoAll(sha, m, records, backups, tx, logged);
      assert HoldsLog(journal.txid, m.disk.journal, logged) ==> Open(tx, journal.txid, m.disk, logged);
      if !m.up {
        return Stopped;
      }
      return if ok then outcome else NeedsAuthorizedRecovery;
    }

    /** The completion record: from here on there is nothing to recover. */
    method Finish() returns (failure: Option<Outcome>)
      requires Running() && IsNew(tx, m.disk) && tx.marker in tx.newFiles
      modifies this, m, journal
      ensures failure.None? ==> Loggable(journal.txid, old(records) + [CompleteRecord(|old(records)|)])
      ensures failure.None? ==> m.up && IsNew(tx, m.disk) && HoldsComplete(journal.txid, m.disk.journal, old(records))
      ensures !m.up || failure.None? ==> Left()
      ensures failure.Some? && m.up ==> CanRollBack() && failure.value.RolledBack?
      ensures failure.Some? && m.up && m.sound ==>
        !Loggable(journal.txid, old(records) + [CompleteRecord(|old(records)|)])
      ensures m.sound ==> old(m.sound)
    {
      hide ValidRecord, Encode, IsJournal, StandardPath, LogFits, Serialize, BackupPath, Wal, HoldsLog, Apart, Loggable;
      var complete := Record(nextSeq, Op.Complete, 0, [], [], NoDigest(), 0, []);
      assert complete == CompleteRecord(|records|);
      Refused(complete);
      ghost var before := m.disk;
      ghost var kept;
      var ok;
      ok, kept := journal.Append(m, complete);
      CompleteLeaves(tx, journal.txid, before, m.disk, records, complete, kept);
      if ok {
        AppendedIsLoggable(complete, kept);
        return None;
      }
      return Some(if m.up then RolledBack else Stopped);
    }
  }

  lemma AppendLeaves(tx: Tx, txid: u64, d: Disk, d': Disk, rs: seq<Record>, r: Record, kept: nat)
    requires LogFits(tx, rs) && Wal(tx, d, rs) && TargetHeld(tx, d, r) && Undone(tx, d, r)
    requires RecordFits(tx, rs + [r], |rs|) && forall i :: 0 <= i < |rs| ==> Apart(rs[i], r)
    requires IsJournal(Encode(txid, rs), txid, rs) && !Closed(rs)
    requires d.journal == Some(Encode(txid, rs)) && !r.op.Complete?
    requires kept <= |Serialize(r)| && d' == d.(journal := Some(d.journal.value + Serialize(r)[..kept]))
    requires kept > 0 ==> ValidRecord(r, |rs| + 1) && IsJournal(Encode(txid, rs + [r]), txid, rs + [r])
    ensures var logged := if kept == |Serialize(r)| then rs + [r] else rs;
      Open(tx, txid, d', logged) && Scene(tx, txid, d') && Undone(tx, d', r)
  {
    hide ValidRecord, Encode, Wal, LogFits, RecordFits, TargetHeld, Undone, IsJournal, StandardPath, Apart;
    var logged := if kept == |Serialize(r)| then rs + [r] else rs;
    Journaled(tx, rs, d, r);
    JournalOnly(tx, d, d', logged);
    JournalOnlyUndone(tx, d, d', r);
    AfterAppend(txid, d.journal, d'.journal, rs, r, kept);
    assert Open(tx, txid, d', logged);
  }

  lemma AfterAppend(txid: u64, journal: Option<seq<byte>>, journal': Option<seq<byte>>, rs: seq<Record>, r: Record,
      kept: nat)
    requires IsJournal(Encode(txid, rs), txid, rs) && !Closed(rs)
    requires journal == Some(Encode(txid, rs)) && !r.op.Complete?
    requires kept <= |Serialize(r)| && journal' == Some(journal.value + Serialize(r)[..kept])
    requires kept > 0 ==> ValidRecord(r, |rs| + 1) && IsJournal(Encode(txid, rs + [r]), txid, rs + [r])
    ensures HoldsLog(txid, journal', if kept == |Serialize(r)| then rs + [r] else rs)
  {
    hide ValidRecord, Encode, IsJournal, Serialize;
    EncodeSnoc(txid, rs, r);
    if kept == |Serialize(r)| {
      assert Serialize(r)[..kept] == Serialize(r);
    } else if kept > 0 {
      assert TornAt(txid, journal', rs, r, kept);
    } else {
      assert journal'.value == journal.value;
    }
  }

  lemma CompleteLeaves(tx: Tx, txid: u64, d: Disk, d': Disk, rs: seq<Record>, c: Record, kept: nat)
    requires LogFits(tx, rs) && Wal(tx, d, rs) && c.op.Complete?
    requires IsJournal(Encode(txid, rs), txid, rs) && !Closed(rs) && d.journal == Some(Encode(txid, rs))
    requires kept <= |Serialize(c)| && d' == d.(journal := Some(d.journal.value + Serialize(c)[..kept]))
    requires kept > 0 ==> ValidRecord(c, |rs| + 1) && IsJournal(Encode(txid, rs + [c]), txid, rs + [c])
    ensures Wal(tx, d', rs)
    ensures kept == |Serialize(c)| ==> HoldsComplete(txid, d'.journal, rs)
    ensures kept < |Serialize(c)| ==> Open(tx, txid, d', rs)
  {
    hide ValidRecord, Encode, IsJournal, Serialize, LogFits, Wal;
    JournalOnly(tx, d, d', rs);
    EncodeSnoc(txid, rs, c);
    if kept == |Serialize(c)| {
      assert Serialize(c)[..kept] == Serialize(c);
    } else if kept > 0 {
      assert TornAt(txid, d'.journal, rs, c, kept);
    } else {
      assert d'.journal.value == d.journal.value;
    }
  }

  lemma JournalOnly(tx: Tx, d: Disk, d': Disk, rs: seq<Record>)
    requires Wal(tx, d, rs) && d' == d.(journal := d'.journal)
    ensures Wal(tx, d', rs)
  {
    forall j | 0 <= j < |rs|
      ensures TargetHeld(tx, d', rs[j])
    {
      assert TargetHeld(tx, d, rs[j]);
    }
  }

  lemma HeldAt(tx: Tx, d: Disk, rs: seq<Record>, i: nat)
    requires Wal(tx, d, rs) && i < |rs|
    ensures TargetHeld(tx, d, rs[i])
  {
  }

  lemma StillOpen(tx: Tx, txid: u64, d: Disk, d': Disk, rs: seq<Record>)
    requires Open(tx, txid, d, rs) && d'.journal == d.journal && Wal(tx, d', rs)
    ensures Open(tx, txid, d', rs) && Scene(tx, txid, d')
  {
    hide Wal, LogFits, HoldsLog;
    assert Open(tx, txid, d', rs);
  }

  lemma JournalOnlyUndone(tx: Tx, d: Disk, d': Disk, r: Record)
    requires Undone(tx, d, r) && d' == d.(journal := d'.journal)
    ensures Undone(tx, d', r)
  {
  }
}
