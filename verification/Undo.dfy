/** Rolling a transaction back: restoreFromBackup, undoRecord, undoAll. Every
    method keeps the write-ahead invariant however it ends, including by stopping
    between the restoring move and the deletion of the backup. */
module Undo {
  import opened Bytes
  import opened Paths
  import opened Wrappers
  import opened Journal
  import opened Machines
  import opened WriteAhead

  type Context = map<wstring, Record>

  /** The Backup record of each target; a later one replaces an earlier one. */
  method ContextFor(records: seq<Record>) returns (backups: Context)
    ensures forall i :: 0 <= i < |records| && records[i].op.Backup? ==> records[i].target in backups
    ensures forall t :: t in backups ==> backups[t].op.Backup? && backups[t].target == t && backups[t] in records
  {
    backups := map[];
    for i := 0 to |records|
      invariant forall k :: 0 <= k < i && records[k].op.Backup? ==> records[k].target in backups
      invariant forall t :: t in backups ==> backups[t].op.Backup? && backups[t].target == t && backups[t] in records
    {
      if records[i].op.Backup? {
        backups := backups[records[i].target := records[i]];
      }
    }
  }

  /** With one Backup record a target, the context finds the record that proved the
      old content of a Replace. */
  lemma ContextFindsProof(tx: Tx, rs: seq<Record>, n: nat, backups: Context, i: nat)
    requires LogFits(tx, rs) && i < n <= |rs| && rs[i].op.Replace?
    requires forall k :: 0 <= k < n && rs[k].op.Backup? ==> rs[k].target in backups
    requires forall t :: t in backups ==> backups[t].op.Backup? && backups[t].target == t && backups[t] in rs[..n]
    ensures rs[i].target in backups && rs[i].target in tx.files
    ensures var b := backups[rs[i].target];
      b.sha == tx.sha(tx.files[rs[i].target]) && b.size == |tx.files[rs[i].target]|
  {
    assert RecordFits(tx, rs, i);
    assert rs[i - 1].target in backups;
    var b := backups[rs[i].target];
    var k :| 0 <= k < n && rs[..n][k] == b;
    assert rs[k] == b;
  }

  /** An undo step touches only what its record names. */
  ghost predicate OnlyOf(r: Record, d: Disk, d': Disk) {
    && d'.journal == d.journal
    && d'.files - {r.target} == d.files - {r.target}
    && d'.backups - {r.backup} == d.backups - {r.backup}
    && (r.op.Registry? || d'.version == d.version)
  }

  /** Puts the proved old bytes back by an atomic move, then drops the backup. */
  method RestoreFromBackup(sha: Content -> Digest, m: Machine, r: Record, oldSha: Digest, oldSize: nat,
                           ghost tx: Tx, ghost rs: seq<Record>, ghost i: nat) returns (ok: bool)
    requires m.up && tx.sha == sha && LogFits(tx, rs) && Wal(tx, m.disk, rs)
    requires i < |rs| && rs[i] == r && NeedsBackup(r) && r.target in tx.files
    requires oldSha == sha(tx.files[r.target]) && oldSize == |tx.files[r.target]|
    requires Saved(tx, m.disk, r)
    modifies m
    ensures Backwards(tx, rs, old(m.disk), m.disk) && OnlyOf(r, old(m.disk), m.disk)
    ensures ok ==> m.up && Undone(tx, m.disk, r)
    ensures m.up && !ok ==> !m.sound
    ensures (m.sound ==> old(m.sound)) && m.flushLost == old(m.flushLost)
  {
    assert RecordFits(tx, rs, i);
    if r.backup == [] {
      assert false;
    }
    var copy := m.Read(m.disk.backups, r.backup);
    if copy.None? || sha(copy.value) != oldSha || |copy.value| != oldSize {
      return false;
    }
    MoveBack(tx, rs, m.disk, i);
    ok := m.Place(r.target, copy.value, true);
    if !ok {
      return;
    }
    ghost var moved := m.disk;
    BackupDropped(tx, rs, m.disk, i);
    m.DropBackup(r.backup);
    BackwardsTrans(tx, rs, old(m.disk), moved, m.disk);
    assert Undone(tx, m.disk, rs[i]);
    ok := m.up;
  }

  /** One undo step. On the states that the invariant allows it is refused only
      when an operating-system call fails, and a repeated step changes nothing
      that matters. */
  method UndoRecord(sha: Content -> Digest, m: Machine, r: Record, backups: Context,
                    ghost tx: Tx, ghost rs: seq<Record>, ghost i: nat) returns (ok: bool)
    requires m.up && tx.sha == sha && LogFits(tx, rs) && Wal(tx, m.disk, rs)
    requires i < |rs| && rs[i] == r
    requires r.op.Replace? ==>
      && r.target in backups && r.target in tx.files
      && backups[r.target].sha == sha(tx.files[r.target]) && backups[r.target].size == |tx.files[r.target]|
    modifies m
    ensures Backwards(tx, rs, old(m.disk), m.disk) && OnlyOf(r, old(m.disk), m.disk)
    ensures ok ==> m.up && Undone(tx, m.disk, r)
    ensures m.up && !ok ==> !m.sound
    ensures (m.sound ==> old(m.sound)) && m.flushLost == old(m.flushLost)
  {
    assert RecordFits(tx, rs, i) && TargetHeld(tx, m.disk, rs[i]);
    match r.op {
      case Complete =>
        return true;
      case Backup =>
        return true;
      case Registry =>
        if !AllowedRegistryKey(r.target) {
          return false;
        }
        var current := m.ReadVersion();
        if current.None? {
          return false;
        }
        if current.value == r.oldValue {
          return true;
        }
        VersionRestored(tx, rs, m.disk);
        ok := m.WriteVersion(r.oldValue);
      case Create =>
        if r.target !in m.disk.files {
          return true;
        }
        var content := m.Read(m.disk.files, r.target);
        if content.None? || sha(content.value) != r.sha {
          return false;
        }
        RemoveCreated(tx, rs, m.disk, i);
        ok := m.Remove(r.target);
      case Delete =>
        if r.target in m.disk.files {
          var content := m.Read(m.disk.files, r.target);
          if content.None? || sha(content.value) != r.sha {
            return false;
          }
          BackupDropped(tx, rs, m.disk, i);
          m.DropBackup(r.backup);
          assert Undone(tx, m.disk, rs[i]);
          return m.up;
        }
        ok := RestoreFromBackup(sha, m, r, r.sha, r.size, tx, rs, i);
      case Replace =>
        if r.target !in backups {
          return false;
        }
        var proof := backups[r.target];
        if r.target in m.disk.files {
          var content := m.Read(m.disk.files, r.target);
          if content.None? {
            return false;
          }
          if sha(content.value) == proof.sha {
            BackupDropped(tx, rs, m.disk, i);
            m.DropBackup(r.backup);
            assert Undone(tx, m.disk, rs[i]);
            return m.up;
          }
          if sha(content.value) != r.sha {
            return false;
          }
        }
        ok := RestoreFromBackup(sha, m, r, proof.sha, proof.size, tx, rs, i);
    }
  }

  /** Undoes records in reverse, stopping at the first step that cannot be undone.
      rs is the log on disk; it may hold one more record, not yet acted on. */
  method UndoAll(sha: Content -> Digest, m: Machine, records: seq<Record>, backups: Context,
                 ghost tx: Tx, ghost rs: seq<Record>) returns (ok: bool)
    requires m.up && tx.sha == sha && LogFits(tx, rs) && Wal(tx, m.disk, rs) && records <= rs
    requires forall k :: 0 <= k < |records| && records[k].op.Backup? ==> records[k].target in backups
    requires forall t :: t in backups ==> backups[t].op.Backup? && backups[t].target == t && backups[t] in records
    requires forall k :: |records| <= k < |rs| ==> Undone(tx, m.disk, rs[k])
    modifies m
    ensures Backwards(tx, rs, old(m.disk), m.disk)
    ensures ok ==> m.up && Pristine(tx, m.disk)
    ensures m.up && !ok ==> !m.sound
    ensures (m.sound ==> old(m.sound)) && m.flushLost == old(m.flushLost)
  {
    assert rs[..|records|] == records;
    var i := |records|;
    while i > 0
      invariant 0 <= i <= |records| && m.up
      invariant Backwards(tx, rs, old(m.disk), m.disk)
      invariant forall k :: i <= k < |rs| ==> Undone(tx, m.disk, rs[k])
      invariant (m.sound ==> old(m.sound)) && m.flushLost == old(m.flushLost)
    {
      ghost var before := m.disk;
      i := i - 1;
      if records[i].op.Replace? {
        ContextFindsProof(tx, rs, |records|, backups, i);
      }
      ok := UndoRecord(sha, m, records[i], backups, tx, rs, i);
      BackwardsTrans(tx, rs, old(m.disk), before, m.disk);
      if !ok {
        return;
      }
    }
    AllUndone(tx, rs, m.disk);
    return true;
  }
}
