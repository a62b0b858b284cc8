/** Authorized recovery, and what any sequence of interrupted recoveries adds up to. */
module Recovery {
  import opened Bytes
  import opened Paths
  import opened Wrappers
  import opened Journal
  import opened Machines
  import opened WriteAhead
  import opened Undo
  import opened Runs
  import opened Diffs
  import opened Engine

  lemma MarkerPresent(tx: Tx, txid: u64, d: Disk)
    requires Scene(tx, txid, d) || CompleteLost(tx, txid, d)
    ensures tx.marker in d.files
  {
    hide HoldsLog, HoldsComplete, Apart, TargetHeld;
    if rs: seq<Record> :| LogFits(tx, rs) && Wal(tx, d, rs) {
      forall i | 0 <= i < |rs| && Touches(rs[i])
        ensures rs[i].target != tx.marker
      {
        assert RecordFits(tx, rs, i);
      }
      assert Untouched(rs, tx.marker);
      assert Same(d.files, tx.files, tx.marker);
    }
  }

  /** A torn journal is recognised as such, and an intact one gives its log back. */
  lemma ReplayReads(tx: Tx, txid: u64, d: Disk, rs: seq<Record>, parsed: seq<Record>)
    requires HoldsLog(txid, d.journal, rs) && d.journal.Some? && IsJournal(d.journal.value, txid, parsed)
    ensures parsed == rs
  {
    hide ValidRecord, Serialize, Encode, IsJournal;
    if d.journal == Some(Encode(txid, rs)) {
      JournalUnique(d.journal.value, txid, rs, parsed);
    } else {
      var r: Record, n: nat :| TornAt(txid, d.journal, rs, r, n);
      LogSnoc(txid, rs, r);
      TornTail(txid, rs, r, Serialize(r)[..n], parsed);
    }
  }

  lemma LogSnoc(txid: u64, rs: seq<Record>, r: Record)
    requires IsJournal(Encode(txid, rs), txid, rs) && !Closed(rs) && ValidRecord(r, |rs| + 1)
    ensures ValidLog(rs + [r])
  {
    hide ValidRecord;
    ValidSnoc(rs, r);
  }

  /** An open log never reads as a closed one, nor the other way round. */
  lemma OpenOrComplete(txid: u64, journal: Option<seq<byte>>, rs: seq<Record>, parsed: seq<Record>)
    requires HoldsComplete(txid, journal, rs) && IsJournal(journal.value, txid, parsed)
    ensures Closed(parsed)
  {
    hide ValidRecord, Serialize, Encode, IsJournal;
    var c: Record :| c.op.Complete? && IsJournal(journal.value, txid, rs + [c]);
    JournalUnique(journal.value, txid, rs + [c], parsed);
  }

  /** What the journal on disk says, as replay answers it. */
  ghost predicate Unreadable(txid: u64, journal: Option<seq<byte>>) {
    journal.Some? && forall rs :: !IsJournal(journal.value, txid, rs)
  }

  ghost predicate NothingPending(txid: u64, journal: Option<seq<byte>>) {
    journal.None? || exists rs :: IsJournal(journal.value, txid, rs) && (rs == [] || Closed(rs))
  }

  ghost predicate Pending(txid: u64, journal: Option<seq<byte>>) {
    journal.Some? && exists rs :: IsJournal(journal.value, txid, rs) && rs != [] && !Closed(rs)
  }

  /** Every journal says exactly one of these. */
  lemma OneReading(txid: u64, journal: Option<seq<byte>>)
    ensures Unreadable(txid, journal) || NothingPending(txid, journal) || Pending(txid, journal)
    ensures !(Unreadable(txid, journal) && NothingPending(txid, journal))
    ensures !(Unreadable(txid, journal) && Pending(txid, journal))
    ensures !(NothingPending(txid, journal) && Pending(txid, journal))
    ensures journal.None? ==> NothingPending(txid, journal)
  {
    hide IsJournal, Closed;
    forall rs, rs' | journal.Some? && IsJournal(journal.value, txid, rs) && IsJournal(journal.value, txid, rs')
      ensures rs == rs'
    {
      JournalUnique(journal.value, txid, rs, rs');
    }
  }

  lemma ReadingIs(txid: u64, journal: Option<seq<byte>>, rs: seq<Record>)
    requires journal.Some? && IsJournal(journal.value, txid, rs)
    ensures NothingPending(txid, journal) <==> rs == [] || Closed(rs)
    ensures Pending(txid, journal) <==> rs != [] && !Closed(rs)
  {
    hide IsJournal, Closed;
    OneReading(txid, journal);
  }

  /** A file that was created and got less than its header is not taken for a journal
      that has nothing in it. */
  lemma ShortIsUnreadable(txid: u64, bytes: seq<byte>)
    requires |bytes| < HEADER_BYTES
    ensures Unreadable(txid, Some(bytes)) && !NothingPending(txid, Some(bytes))
  {
    hide IsJournal;
    forall rs | IsJournal(bytes, txid, rs)
      ensures false
    {
      JournalNotShort(bytes, txid, rs);
    }
    OneReading(txid, Some(bytes));
  }

  /** What recovery asks of its inputs before it looks at the journal. */
  predicate RightTarget(world: World, imageOk: bool, journalRoot: wstring, txid: u64, installRoot: wstring) {
    imageOk && txid != 0 && StandardPath(journalRoot) && StandardPath(installRoot) && Registered(world, installRoot)
  }

  /** Authorized recovery: rechecks the target, replays the journal strictly and undoes
      its records in reverse. */
  method Recover(world: World, m: Machine, imageOk: bool, journalRoot: wstring, txid: u64, installRoot: wstring,
      ghost tx: Tx)
    returns (o: Outcome)
    requires m.up && tx.sha == world.sha && tx.marker == Under(installRoot, MARKER_FILE)
    requires Scene(tx, txid, m.disk) || CompleteLost(tx, txid, m.disk)
    modifies m
    ensures o in {Rejected, NothingToRecover, NeedsAuthorizedRecovery, RecoveryFailed, Recovered, Stopped}
    ensures o.Stopped? <==> !m.up
    // whatever happens, the next recovery starts from a scene again
    ensures m.disk.journal == old(m.disk.journal)
    ensures old(Scene(tx, txid, m.disk)) ==> Scene(tx, txid, m.disk)
    ensures o in {Rejected, NothingToRecover, NeedsAuthorizedRecovery} ==> m.disk == old(m.disk)
    ensures o.Recovered? ==> Pristine(tx, m.disk)
    ensures old(Pristine(tx, m.disk)) ==> Pristine(tx, m.disk)
    ensures o.NothingToRecover? && old(Scene(tx, txid, m.disk)) ==>
      Pristine(tx, m.disk) || (IsNew(tx, m.disk) && Completed(txid, m.disk.journal))
    // the journal alone decides between the answers that are not a failure
    ensures o !in {Rejected, RecoveryFailed, Stopped} ==>
      && (o.NeedsAuthorizedRecovery? <==> old(Unreadable(txid, m.disk.journal)))
      && (o.NothingToRecover? <==> old(NothingPending(txid, m.disk.journal)))
      && (o.Recovered? <==> old(Pending(txid, m.disk.journal)))
    ensures m.up && m.sound && RightTarget(world, imageOk, journalRoot, txid, installRoot) ==>
      o !in {Rejected, RecoveryFailed, Stopped}
    ensures !RightTarget(world, imageOk, journalRoot, txid, installRoot) ==> o.Rejected?
    ensures o.NeedsAuthorizedRecovery? ==> Unreadable(txid, m.disk.journal)
    ensures old(Unreadable(txid, m.disk.journal)) ==> m.disk == old(m.disk)
    // it gives up only over a failed operating-system call or a wrong target
    ensures o.RecoveryFailed? ==> !m.sound
    ensures o.Rejected? ==> !m.sound || !RightTarget(world, imageOk, journalRoot, txid, installRoot)
    // a whole completion record ends the matter, lost or not
    ensures old(Completed(txid, m.disk.journal)) ==>
      o in {Rejected, NothingToRecover, RecoveryFailed} && m.disk == old(m.disk)
    ensures m.sound ==> old(m.sound)
    ensures m.flushLost == old(m.flushLost)
  {
    hide Scene, CompleteLost, StandardPath, Upper, IsJournal, Encode, Serialize, HoldsLog, HoldsComplete, Wal, LogFits,
         NothingPending, Pending;
    if !imageOk || txid == 0 || !StandardPath(journalRoot) || !StandardPath(installRoot) {
      return Rejected;
    }
    var target, _ := RecheckTarget(world, m, installRoot);
    if !target {
      MarkerPresent(tx, txid, m.disk);
      return Rejected;
    }
    if m.disk.journal.None? {
      AbsentJournal(tx, txid, m.disk);
      OneReading(txid, m.disk.journal);
      return NothingToRecover;
    }
    var bytes := m.ReadJournal();
    if bytes.None? {
      return RecoveryFailed;
    }
    var replayed := Replay(bytes.value, txid);
    if replayed.Corrupt? {
      UnreadableIsNotComplete(tx, txid, m.disk);
      OneReading(txid, m.disk.journal);
      return NeedsAuthorizedRecovery;
    }
    var records := replayed.records;
    ReadableScene(tx, txid, m.disk, records);
    ReadingIs(txid, m.disk.journal, records);
    OneReading(txid, m.disk.journal);
    if records == [] || records[|records| - 1].op.Complete? {
      return NothingToRecover;
    }
    var backups := ContextFor(records);
    ghost var before := m.disk;
    var ok := UndoAll(world.sha, m, records, backups, tx, records);
    StillOpen(tx, txid, before, m.disk, records);
    if Pristine(tx, before) {
      StaysPristine(tx, records, before, m.disk);
    }
    if !m.up {
      return Stopped;
    }
    return if ok then Recovered else RecoveryFailed;
  }

  lemma AbsentJournal(tx: Tx, txid: u64, d: Disk)
    requires (Scene(tx, txid, d) || CompleteLost(tx, txid, d)) && d.journal.None?
    ensures Scene(tx, txid, d) && Pristine(tx, d) && !CompleteLost(tx, txid, d) && !Completed(txid, d.journal)
  {
  }

  lemma UnreadableIsNotComplete(tx: Tx, txid: u64, d: Disk)
    requires Unreadable(txid, d.journal)
    ensures !CompleteLost(tx, txid, d) && !Completed(txid, d.journal)
  {
  }

  /** A journal that replay accepts, on a scene: either nothing has happened, or the
      log is open and everything can be undone, or it is complete. */
  lemma ReadableScene(tx: Tx, txid: u64, d: Disk, parsed: seq<Record>)
    requires Scene(tx, txid, d) || CompleteLost(tx, txid, d)
    requires d.journal.Some? && IsJournal(d.journal.value, txid, parsed)
    ensures CompleteLost(tx, txid, d) || Completed(txid, d.journal) ==> Closed(parsed)
    ensures !Closed(parsed) ==> Open(tx, txid, d, parsed) && tx.marker in tx.files
    ensures !Closed(parsed) ==> Scene(tx, txid, d)
    ensures parsed == [] ==> Pristine(tx, d)
    ensures Closed(parsed) && Scene(tx, txid, d) ==> IsNew(tx, d) && Completed(txid, d.journal)
  {
    hide IsJournal, Encode, Serialize, ValidRecord, Wal, RecordFits, Apart;
    JournalNotShort(d.journal.value, txid, parsed);
    if rs :| Open(tx, txid, d, rs) {
      ReplayReads(tx, txid, d, rs, parsed);
      if rs == [] {
        EmptyLogPristine(tx, d);
      }
    }
    forall rs | HoldsComplete(txid, d.journal, rs)
      ensures Closed(parsed)
    {
      OpenOrComplete(txid, d.journal, rs, parsed);
    }
  }

  lemma JournalNotShort(bytes: seq<byte>, txid: u64, rs: seq<Record>)
    requires IsJournal(bytes, txid, rs)
    ensures |bytes| >= HEADER_BYTES
  {
  }

  lemma EmptyLogPristine(tx: Tx, d: Disk)
    requires LogFits(tx, []) && Wal(tx, d, [])
    ensures Pristine(tx, d)
  {
    AllUndone(tx, [], d);
  }

  lemma StaysPristine(tx: Tx, rs: seq<Record>, d: Disk, d': Disk)
    requires LogFits(tx, rs) && Wal(tx, d, rs) && Pristine(tx, d) && Backwards(tx, rs, d, d')
    ensures Pristine(tx, d')
  {
    forall i | 0 <= i < |rs|
      ensures Undone(tx, d', rs[i])
    {
      assert RecordFits(tx, rs, i);
      assert Undone(tx, d, rs[i]);
    }
    AllUndone(tx, rs, d');
  }

  /** Recovery can be interrupted and started again any number of times: no attempt
      loses what the next one needs, and once one has run to its end the original is
      back and later attempts leave it alone. */
  method RecoverRepeatedly(world: World, m: Machine, imageOk: bool, journalRoot: wstring, txid: u64,
      installRoot: wstring, attempts: nat, ghost tx: Tx)
    returns (recovered: bool)
    requires tx.sha == world.sha && tx.marker == Under(installRoot, MARKER_FILE)
    requires Scene(tx, txid, m.disk)
    modifies m
    ensures Scene(tx, txid, m.disk)
    ensures recovered ==> Pristine(tx, m.disk)
    ensures old(Pristine(tx, m.disk)) ==> Pristine(tx, m.disk)
  {
    recovered := false;
    for i := 0 to attempts
      invariant Scene(tx, txid, m.disk)
      invariant recovered ==> Pristine(tx, m.disk)
      invariant old(Pristine(tx, m.disk)) ==> Pristine(tx, m.disk)
    {
      m.Restart();
      var o := Recover(world, m, imageOk, journalRoot, txid, installRoot, tx);
      recovered := recovered || o.Recovered?;
    }
  }

  /** Crash atomicity: run a prepared plan, stopping anywhere or not at all, then
      recover. Whatever happened, every answer but one means what it says. The one is
      NothingToRecover on a disk that already holds a whole Complete record whose flush
      was reported to fail: there the answer is right exactly when it was right of what
      execute had left, because nothing is touched any more. */
  method ExecuteThenRecover(engine: TxEngine, m: Machine)
    returns (executed: Outcome, recovered: Outcome, ghost left: Disk)
    requires m.up && !m.flushLost && m.disk.journal.None?
    requires engine.prepared && !engine.executed && engine.Ready(m.disk)
    modifies engine, m
    ensures var tx, txid := old(engine.Transaction(m.disk)), engine.request.txid;
      && (Scene(tx, txid, left) || (m.flushLost && CompleteLost(tx, txid, left)))
      && (executed.Applied? ==>
            && IsNew(tx, left) && Completed(txid, left.journal) && m.disk == left
            && recovered in {NothingToRecover, Rejected, RecoveryFailed})
      && (executed in {RolledBack, Conflict, Rejected} ==> Pristine(tx, left) && Pristine(tx, m.disk))
      && (recovered in {Rejected, NothingToRecover, NeedsAuthorizedRecovery} ==> m.disk == left)
      && (recovered.Recovered? ==> Pristine(tx, m.disk))
      && (recovered !in {Rejected, RecoveryFailed, Stopped} ==>
            && (recovered.NeedsAuthorizedRecovery? <==> Unreadable(txid, left.journal))
            && (recovered.NothingToRecover? <==> NothingPending(txid, left.journal))
            && (recovered.Recovered? <==> Pending(txid, left.journal)))
      && (Scene(tx, txid, left) ==> Scene(tx, txid, m.disk))
      && (recovered.NothingToRecover? && Scene(tx, txid, left) ==>
            Pristine(tx, m.disk) || (IsNew(tx, m.disk) && Completed(txid, m.disk.journal)))
      && (recovered in {Recovered, NothingToRecover} ==>
            (Pristine(tx, m.disk) || IsNew(tx, m.disk) <==> Scene(tx, txid, left) || Pristine(tx, left)))
  {
    hide Scene, CompleteLost, IsNew, TxOf, PlanHolds, Assumed, Pristine, Unreadable, NothingPending, Pending,
         Executable, Conflicting, Holdable, AllListed;
    ghost var tx := engine.Transaction(m.disk);
    engine.TransactionBegins(m.disk);
    ghost var before := m.disk;
    executed := engine.Execute(m);
    left := m.disk;
    FreshScene(tx, engine.request.txid, before, m.disk);
    m.Restart();
    var r := engine.request;
    recovered := Recover(engine.world, m, engine.options.imageOk, r.journalRoot, r.txid, r.installRoot, tx);
    LostOrScene(tx, r.txid, left);
  }

  /** A disk with a lost Complete record is a scene, that is, one that recovery answers
      rightly, exactly when the new tree is still whole. */
  lemma LostOrScene(tx: Tx, txid: u64, d: Disk)
    ensures CompleteLost(tx, txid, d) ==>
      Completed(txid, d.journal) && (Scene(tx, txid, d) <==> IsNew(tx, d))
  {
    hide IsJournal, Encode, Serialize, ValidRecord, RecordFits, Apart, TargetHeld;
    if rs :| HoldsComplete(txid, d.journal, rs) && LogFits(tx, rs) && Wal(tx, d, rs) {
      var c: Record :| c.op.Complete? && IsJournal(d.journal.value, txid, rs + [c]);
      MarkerPresent(tx, txid, d);
      JournalNotShort(d.journal.value, txid, rs + [c]);
      forall open | Open(tx, txid, d, open)
        ensures false
      {
        ReplayReads(tx, txid, d, open, rs + [c]);
      }
    }
  }

  lemma FreshScene(tx: Tx, txid: u64, d: Disk, d': Disk)
    requires Pristine(tx, d) && tx.marker in tx.files && d.journal.None?
    ensures d' == d ==> Scene(tx, txid, d')
    ensures d' == d.(journal := d'.journal) ==> Pristine(tx, d')
  {
  }
}
