/** Why crash atomicity excepts a completion record whose flush failed after all of
    it had reached the disk: what recovery does on such a disk, and a machine on which
    the engine's own rollback, cut short, leaves a tree that is neither old nor new. */
module LostCompletion {
  import opened Bytes
  import opened Paths
  import Wrappers
  import opened Journal
  import opened Machines
  import opened WriteAhead
  import opened Undo
  import opened Runs
  import opened Diffs
  import opened Engine
  import opened Recovery

  const PATH_A: wstring := [67, 58, 92, 97]
  const PATH_B: wstring := [67, 58, 92, 98]
  const ROOT: wstring := [67, 58, 92, 105]
  const JOURNALS: wstring := [67, 58, 92, 106]
  const MARKER: wstring := Under(ROOT, MARKER_FILE)

  function Created(seqNo: u64, p: wstring): Record {
    Record(seqNo, Op.Create, 0, p, [], seq(32, _ => 0), 0, [])
  }

  function TwoCreates(): (rs: seq<Record>)
    ensures |rs| == 2
  {
    [Created(1, PATH_A), Created(2, PATH_B)]
  }

  function TwoFiles(): Tx {
    var marked: Tree := map[MARKER := []];
    Tx((c: Content) => seq(32, _ => 0), marked, [], map[PATH_A := [], PATH_B := []],
       map[MARKER := [], PATH_A := [], PATH_B := []], [], MARKER)
  }

  function EndRecord(): Record {
    Record(3, Op.Complete, 0, [], [], seq(32, _ => 0), 0, [])
  }

  function CompleteDisk(txid: u64): Disk {
    Disk(Wrappers.Some(Encode(txid, TwoCreates() + [EndRecord()])), TwoFiles().newFiles, map[], [])
  }

  lemma LogIsJournal(txid: u64, rs: seq<Record>, c: Record)
    requires rs == TwoCreates() && c == EndRecord()
    requires StandardPath(PATH_A) && StandardPath(PATH_B)
    ensures IsJournal(Encode(txid, rs + [c]), txid, rs + [c]) && !Closed(rs)
  {
    hide StandardPath, Serialize;
    var all := rs + [c];
    assert ValidRecord(all[0], 1) && ValidRecord(all[1], 2) && ValidRecord(all[2], 3);
    EncodeSnoc(txid, [], rs[0]);
    EncodeSnoc(txid, [rs[0]], rs[1]);
    EncodeSnoc(txid, rs, c);
    assert [] + [rs[0]] == [rs[0]] && [rs[0]] + [rs[1]] == rs;
    assert |Encode(txid, all)| == HEADER_BYTES + |Serialize(rs[0])| + |Serialize(rs[1])| + |Serialize(c)|;
  }

  lemma TwoCreatesFit(d: Disk)
    requires d.files == TwoFiles().newFiles && d.version == []
    ensures LogFits(TwoFiles(), TwoCreates()) && Wal(TwoFiles(), d, TwoCreates())
  {
    var tx, rs := TwoFiles(), TwoCreates();
    PathsApart();
    assert RecordFits(tx, rs, 0) && RecordFits(tx, rs, 1);
    assert Apart(rs[0], rs[1]);
    forall p | Untouched(rs, p)
      ensures Same(d.files, tx.files, p)
    {
      assert Touches(rs[0]) && Touches(rs[1]);
    }
  }

  /** The tree is new and the log complete, as Finish leaves them when the flush of the
      Complete record is reported to fail. */
  ghost predicate NewAndComplete(tx: Tx, txid: u64, rs: seq<Record>, d: Disk) {
    && IsNew(tx, d) && tx.marker in tx.newFiles && LogFits(tx, rs) && Wal(tx, d, rs)
    && HoldsComplete(txid, d.journal, rs)
  }

  lemma PathsApart()
    ensures PATH_A != PATH_B && PATH_A != MARKER && PATH_B != MARKER
  {
    assert PATH_A[3] != PATH_B[3] && |MARKER| > |PATH_A| && |MARKER| > |PATH_B|;
  }

  /** One of the two files is there and one is not. */
  lemma NeitherOldNorNew(d: Disk, before: Disk)
    requires before.files == TwoFiles().newFiles && PATH_B !in d.files && d.files - {PATH_B} == before.files - {PATH_B}
    ensures !Pristine(TwoFiles(), d) && !IsNew(TwoFiles(), d)
  {
    PathsApart();
    assert PATH_A in before.files - {PATH_B};
    assert PATH_A in d.files && PATH_A !in TwoFiles().files && PATH_B in TwoFiles().newFiles;
  }

  lemma TwoFilesComplete(txid: u64)
    ensures NewAndComplete(TwoFiles(), txid, TwoCreates(), CompleteDisk(txid))
    ensures PATH_A != PATH_B && PATH_A != MARKER && PATH_B != MARKER
  {
    hide StandardPath, Serialize, Encode, IsJournal, LogFits, Wal;
    var rs := TwoCreates();
    ShortPathIsStandard(PATH_A);
    ShortPathIsStandard(PATH_B);
    LogIsJournal(txid, rs, EndRecord());
    TwoCreatesFit(CompleteDisk(txid));
    PathsApart();
  }

  /** Every recovery, however often it is tried, takes such a disk for finished and
      leaves it as it is; so the transaction ends neither old nor new exactly when the
      interrupted rollback had left it so. */
  method RecoverLost(world: World, m: Machine, imageOk: bool, journalRoot: wstring, txid: u64, installRoot: wstring,
                     attempts: nat, ghost tx: Tx) returns (answers: seq<Outcome>)
    requires tx.sha == world.sha && tx.marker == Under(installRoot, MARKER_FILE)
    requires CompleteLost(tx, txid, m.disk)
    modifies m
    ensures m.disk == old(m.disk)
    ensures |answers| == attempts && forall o :: o in answers ==> o in {Rejected, NothingToRecover, RecoveryFailed}
    ensures m.sound && RightTarget(world, imageOk, journalRoot, txid, installRoot) ==>
      forall o :: o in answers ==> o.NothingToRecover?
  {
    hide Scene, CompleteLost, RightTarget;
    answers := [];
    LostOrScene(tx, txid, m.disk);
    for i := 0 to attempts
      invariant m.disk == old(m.disk) && |answers| == i && (m.sound ==> old(m.sound))
      invariant forall o :: o in answers ==> o in {Rejected, NothingToRecover, RecoveryFailed}
      invariant m.sound && RightTarget(world, imageOk, journalRoot, txid, installRoot) ==>
        forall o :: o in answers ==> o.NothingToRecover?
    {
      m.Restart();
      var o := Recover(world, m, imageOk, journalRoot, txid, installRoot, tx);
      answers := answers + [o];
    }
  }

  /** An undo step of the newest record, from the new tree under a complete log to a
      tree that is neither old nor new. */
  ghost predicate BrokenStep(tx: Tx, txid: u64, rs: seq<Record>, d: Disk, d': Disk) {
    && rs != [] && NewAndComplete(tx, txid, rs, d)
    && OnlyOf(rs[|rs| - 1], d, d') && Undone(tx, d', rs[|rs| - 1]) && Backwards(tx, rs, d, d')
    && CompleteLost(tx, txid, d') && !Pristine(tx, d') && !IsNew(tx, d')
  }

  lemma LostCompletionBreaksAtomicity(txid: u64)
    ensures exists tx, rs, d, d' :: BrokenStep(tx, txid, rs, d, d')
  {
    hide StandardPath, Serialize, Encode, IsJournal, LogFits, Wal, HoldsComplete;
    var tx, rs, d := TwoFiles(), TwoCreates(), CompleteDisk(txid);
    var d' := d.(files := d.files - {PATH_B});
    TwoFilesComplete(txid);
    RemoveCreated(tx, rs, d, 1);
    NeitherOldNorNew(d', d);
    assert HoldsComplete(txid, d'.journal, rs);
    assert BrokenStep(tx, txid, rs, d, d');
  }

  /** The engine's own first undo step on such a disk, the removal of the file that was
      created last, and then the end of the process: what is left is neither the old
      tree nor the new one, and no number of recoveries changes that. It comes about
      whenever the step is not hindered. */
  method UndoThenStop(world: World, txid: u64, attempts: nat) returns (m: Machine, undone: bool, answers: seq<Outcome>)
    requires world.sha == TwoFiles().sha
    ensures fresh(m)
    ensures undone ==> !Pristine(TwoFiles(), m.disk) && !IsNew(TwoFiles(), m.disk)
    ensures undone ==> forall o :: o in answers ==> o in {Rejected, NothingToRecover, RecoveryFailed}
    ensures undone || !m.up || !m.sound
  {
    hide StandardPath, Serialize, Encode, IsJournal, LogFits, Wal, HoldsComplete;
    var rs := TwoCreates();
    TwoFilesComplete(txid);
    m := new Machine(CompleteDisk(txid));
    answers := [];
    undone := UndoRecord(world.sha, m, rs[1], map[], TwoFiles(), rs, 1);
    if undone {
      NeitherOldNorNew(m.disk, CompleteDisk(txid));
      assert CompleteLost(TwoFiles(), txid, m.disk);
      answers := RecoverLost(world, m, true, JOURNALS, txid, ROOT, attempts, TwoFiles());
    }
  }
}
