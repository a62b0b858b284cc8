/** The write-ahead discipline: how the durable state may differ from the original
    tree while a log is open, and why every undo step keeps that relation. */
module WriteAhead {
  import opened Bytes
  import opened Paths
  import opened Wrappers
  import opened Journal
  import opened Machines

  // HKLM\Software\Microsoft\Windows\CurrentVersion\Uninstall\ZzLogg
  const REGISTRATION_KEY: wstring := W("HKLM\\Software\\Microsoft\\Windows\\CurrentVersion\\Uninstall\\ZzLogg")

  predicate AllowedRegistryKey(key: wstring) {
    Upper(key) == Upper(REGISTRATION_KEY)
  }

  /** One transaction as seen from outside: the tree and the version it found, the
      content it brings for each target, and the state it is to leave. */
  datatype Tx = Tx(
    sha: Content -> Digest, files: Tree, version: wstring,
    incoming: Tree, newFiles: Tree, newVersion: wstring, marker: wstring)

  predicate Touches(r: Record) {
    r.op.Create? || r.op.Replace? || r.op.Delete?
  }

  predicate NeedsBackup(r: Record) {
    r.op.Replace? || r.op.Delete?
  }

  /** The old bytes were proved and journaled immediately before. */
  ghost predicate BackupBefore(tx: Tx, rs: seq<Record>, i: nat)
    requires i < |rs|
  {
    && rs[i].target in tx.files && rs[i].backup != []
    && i > 0 && rs[i - 1].op.Backup?
    && rs[i - 1].target == rs[i].target
    && rs[i - 1].sha == tx.sha(tx.files[rs[i].target]) && rs[i - 1].size == |tx.files[rs[i].target]|
  }

  /** What record i says is true of the original tree and the incoming content. */
  ghost predicate RecordFits(tx: Tx, rs: seq<Record>, i: nat)
    requires i < |rs|
  {
    var r := rs[i];
    && (Touches(r) ==> r.target != tx.marker)
    && match r.op
       case Create =>
         r.target !in tx.files && r.target in tx.incoming && r.sha == tx.sha(tx.incoming[r.target])
       case Replace =>
         && BackupBefore(tx, rs, i)
         && r.target in tx.incoming && r.sha == tx.sha(tx.incoming[r.target])
         && (r.sha == tx.sha(tx.files[r.target]) ==> tx.incoming[r.target] == tx.files[r.target])
       case Delete =>
         && BackupBefore(tx, rs, i)
         && r.sha == tx.sha(tx.files[r.target]) && r.size == |tx.files[r.target]|
       case Registry => r.target == REGISTRATION_KEY && r.oldValue == tx.version
       case Backup | Complete => true
  }

  /** No two records claim one target, and no two share a backup file. */
  predicate Apart(a: Record, b: Record) {
    && (Touches(a) && Touches(b) ==> a.target != b.target)
    && (a.op.Backup? && b.op.Backup? ==> a.target != b.target)
    && (NeedsBackup(a) && NeedsBackup(b) ==> a.backup != b.backup)
  }

  ghost predicate LogFits(tx: Tx, rs: seq<Record>) {
    && tx.marker in tx.files
    && (forall i :: 0 <= i < |rs| ==> RecordFits(tx, rs, i))
    && (forall i, j :: 0 <= i < j < |rs| ==> Apart(rs[i], rs[j]))
  }

  lemma PairApart(tx: Tx, rs: seq<Record>, i: nat, j: nat)
    requires LogFits(tx, rs) && i < |rs| && j < |rs| && i != j
    ensures Apart(rs[i], rs[j])
  {
    if j < i {
      assert Apart(rs[j], rs[i]);
    }
  }

  ghost predicate Same(f: Tree, g: Tree, p: wstring) {
    (p in f <==> p in g) && (p in f ==> f[p] == g[p])
  }

  ghost predicate Untouched(rs: seq<Record>, p: wstring) {
    forall i :: 0 <= i < |rs| && Touches(rs[i]) ==> rs[i].target != p
  }

  ghost predicate HasRegistry(rs: seq<Record>) {
    exists i :: 0 <= i < |rs| && rs[i].op.Registry?
  }

  ghost predicate Saved(tx: Tx, d: Disk, r: Record) {
    r.target in tx.files && r.backup in d.backups && d.backups[r.backup] == tx.files[r.target]
  }

  /** The target of a journaled record holds the old content, or the new content, or
      is rightly absent, never anything else; and old content that is no longer in
      place is in that record's backup file. */
  ghost predicate TargetHeld(tx: Tx, d: Disk, r: Record) {
    match r.op
    case Create =>
      r.target in d.files ==> r.target in tx.incoming && d.files[r.target] == tx.incoming[r.target]
    case Replace =>
      && r.target in d.files && r.target in tx.files && r.target in tx.incoming
      && (|| d.files[r.target] == tx.files[r.target]
          || (d.files[r.target] == tx.incoming[r.target] && Saved(tx, d, r)))
    case Delete =>
      && r.target in tx.files
      && if r.target in d.files then d.files[r.target] == tx.files[r.target] else Saved(tx, d, r)
    case Backup | Registry | Complete => true
  }

  /** The write-ahead invariant. */
  ghost predicate Wal(tx: Tx, d: Disk, rs: seq<Record>) {
    && (forall i :: 0 <= i < |rs| ==> TargetHeld(tx, d, rs[i]))
    && (forall p :: Untouched(rs, p) ==> Same(d.files, tx.files, p))
    && (d.version == tx.version || (d.version == tx.newVersion && HasRegistry(rs)))
  }

  /** The operation of this record leaves no trace in the installation. */
  ghost predicate Undone(tx: Tx, d: Disk, r: Record) {
    match r.op
    case Create => r.target !in d.files
    case Replace | Delete =>
      r.target in tx.files && r.target in d.files && d.files[r.target] == tx.files[r.target]
    case Registry => d.version == tx.version
    case Backup | Complete => true
  }

  ghost predicate Pristine(tx: Tx, d: Disk) {
    d.files == tx.files && d.version == tx.version
  }

  /** A step towards the original: the invariant holds after it, and whatever was
      already undone stays undone. */
  ghost predicate Backwards(tx: Tx, rs: seq<Record>, d: Disk, d': Disk) {
    && Wal(tx, d', rs) && d'.journal == d.journal
    && forall i :: 0 <= i < |rs| && Undone(tx, d, rs[i]) ==> Undone(tx, d', rs[i])
  }

  lemma BackwardsTrans(tx: Tx, rs: seq<Record>, d: Disk, d1: Disk, d2: Disk)
    requires Backwards(tx, rs, d, d1) && Backwards(tx, rs, d1, d2)
    ensures Backwards(tx, rs, d, d2)
  {
  }

  /** Once every record is undone the original state is back. */
  lemma AllUndone(tx: Tx, rs: seq<Record>, d: Disk)
    requires LogFits(tx, rs) && Wal(tx, d, rs)
    requires forall i :: 0 <= i < |rs| ==> Undone(tx, d, rs[i])
    ensures Pristine(tx, d)
  {
    forall p
      ensures Same(d.files, tx.files, p)
    {
      if !Untouched(rs, p) {
        var i :| 0 <= i < |rs| && Touches(rs[i]) && rs[i].target == p;
        assert RecordFits(tx, rs, i);
      }
    }
    SameEverywhere(d.files, tx.files);
    if HasRegistry(rs) {
      var i :| 0 <= i < |rs| && rs[i].op.Registry?;
      assert Undone(tx, d, rs[i]);
    }
  }

  lemma SameEverywhere(f: Tree, g: Tree)
    requires forall p :: Same(f, g, p)
    ensures f == g
  {
    forall p ensures p in f <==> p in g { assert Same(f, g, p); }
    forall p | p in f ensures f[p] == g[p] { assert Same(f, g, p); }
  }

  // ------------------------------------------------- the single undo operations

  lemma RemoveCreated(tx: Tx, rs: seq<Record>, d: Disk, i: nat)
    requires LogFits(tx, rs) && Wal(tx, d, rs) && i < |rs| && rs[i].op.Create?
    ensures var d' := d.(files := d.files - {rs[i].target});
      Backwards(tx, rs, d, d') && Undone(tx, d', rs[i])
  {
    var d' := d.(files := d.files - {rs[i].target});
    FileChange(tx, rs, d, d', i);
  }

  lemma MoveBack(tx: Tx, rs: seq<Record>, d: Disk, i: nat)
    requires LogFits(tx, rs) && Wal(tx, d, rs) && i < |rs| && NeedsBackup(rs[i])
    ensures rs[i].target in tx.files
    ensures var d' := d.(files := d.files[rs[i].target := tx.files[rs[i].target]]);
      Backwards(tx, rs, d, d') && Undone(tx, d', rs[i])
  {
    assert RecordFits(tx, rs, i);
    var d' := d.(files := d.files[rs[i].target := tx.files[rs[i].target]]);
    FileChange(tx, rs, d, d', i);
  }

  /** Changing only the target of record i, to something that record allows. */
  lemma FileChange(tx: Tx, rs: seq<Record>, d: Disk, d': Disk, i: nat)
    requires LogFits(tx, rs) && Wal(tx, d, rs) && i < |rs| && Touches(rs[i])
    requires d' == d.(files := d'.files) && d'.files - {rs[i].target} == d.files - {rs[i].target}
    requires TargetHeld(tx, d', rs[i])
    ensures Wal(tx, d', rs)
    ensures forall j :: 0 <= j < |rs| && j != i && Undone(tx, d, rs[j]) ==> Undone(tx, d', rs[j])
  {
    var t := rs[i].target;
    forall p | p != t
      ensures Same(d'.files, d.files, p)
    {
      assert p in d'.files <==> p in d'.files - {t};
      assert p in d.files <==> p in d.files - {t};
      if p in d.files {
        assert d.files[p] == (d.files - {t})[p] == (d'.files - {t})[p] == d'.files[p];
      }
    }
    forall j | 0 <= j < |rs|
      ensures TargetHeld(tx, d', rs[j]) && (j != i && Undone(tx, d, rs[j]) ==> Undone(tx, d', rs[j]))
    {
      if j != i && Touches(rs[j]) {
        PairApart(tx, rs, i, j);
        assert rs[j].target != t;
        assert Same(d'.files, d.files, rs[j].target);
        assert TargetHeld(tx, d, rs[j]);
      }
    }
    forall p | Untouched(rs, p)
      ensures Same(d'.files, tx.files, p)
    {
      assert p != t;
      assert Same(d'.files, d.files, p) && Same(d.files, tx.files, p);
    }
  }

  lemma BackupDropped(tx: Tx, rs: seq<Record>, d: Disk, i: nat)
    requires LogFits(tx, rs) && Wal(tx, d, rs) && i < |rs| && NeedsBackup(rs[i])
    requires Undone(tx, d, rs[i])
    ensures Backwards(tx, rs, d, d.(backups := d.backups - {rs[i].backup}))
  {
    var d' := d.(backups := d.backups - {rs[i].backup});
    forall j | 0 <= j < |rs|
      ensures TargetHeld(tx, d', rs[j])
    {
      assert TargetHeld(tx, d, rs[j]);
      if j != i && NeedsBackup(rs[j]) {
        PairApart(tx, rs, i, j);
      }
    }
  }

  lemma VersionRestored(tx: Tx, rs: seq<Record>, d: Disk)
    requires Wal(tx, d, rs)
    ensures Backwards(tx, rs, d, d.(version := tx.version))
  {
    var d' := d.(version := tx.version);
    forall j | 0 <= j < |rs|
      ensures TargetHeld(tx, d', rs[j])
    {
      assert TargetHeld(tx, d, rs[j]);
    }
  }

  // ------------------------------------------------------- the forward operations

  /** Journaling a record whose operation has not run yet. */
  lemma Journaled(tx: Tx, rs: seq<Record>, d: Disk, r: Record)
    requires LogFits(tx, rs) && Wal(tx, d, rs)
    requires RecordFits(tx, rs + [r], |rs|) && forall i :: 0 <= i < |rs| ==> Apart(rs[i], r)
    requires TargetHeld(tx, d, r)
    ensures LogFits(tx, rs + [r]) && Wal(tx, d, rs + [r])
  {
    var all := rs + [r];
    forall i | 0 <= i < |all|
      ensures RecordFits(tx, all, i)
    {
      if i < |rs| {
        assert RecordFits(tx, rs, i);
        assert i > 0 ==> all[i - 1] == rs[i - 1];
      }
    }
    forall p | Untouched(all, p)
      ensures Untouched(rs, p)
    {
      assert forall i :: 0 <= i < |rs| ==> all[i] == rs[i];
    }
    if HasRegistry(rs) {
      var i :| 0 <= i < |rs| && rs[i].op.Registry?;
      assert all[i].op.Registry?;
    }
  }

  /** Writing a backup file that no journaled Replace or Delete relies on. */
  lemma BackupWritten(tx: Tx, rs: seq<Record>, d: Disk, d': Disk, path: wstring)
    requires Wal(tx, d, rs)
    requires forall i :: 0 <= i < |rs| && NeedsBackup(rs[i]) ==> rs[i].backup != path
    requires d' == d.(backups := d'.backups) && d'.backups - {path} == d.backups - {path}
    ensures Wal(tx, d', rs)
  {
    forall j | 0 <= j < |rs|
      ensures TargetHeld(tx, d', rs[j])
    {
      assert TargetHeld(tx, d, rs[j]);
      if NeedsBackup(rs[j]) && rs[j].backup in d.backups {
        var q := rs[j].backup;
        assert q in d.backups - {path} && (d.backups - {path})[q] == d.backups[q];
        assert q in d'.backups && d'.backups[q] == (d'.backups - {path})[q];
      }
    }
  }

  lemma VersionWritten(tx: Tx, rs: seq<Record>, d: Disk)
    requires Wal(tx, d, rs) && HasRegistry(rs)
    ensures Wal(tx, d.(version := tx.newVersion), rs)
  {
    forall j | 0 <= j < |rs|
      ensures TargetHeld(tx, d.(version := tx.newVersion), rs[j])
    {
      assert TargetHeld(tx, d, rs[j]);
    }
  }
}
