# Verified model of the ZzLogg update machinery

This project models how ZzLogg updates itself and proves what its users rely on: an
update is applied whole or not at all, no file is replaced under a running program, and
two writers never disagree about what they wrote. It is written in Dafny 4.11;
`dafny verify dfyconfig.toml` checks everything.

## What is modelled

- **The transaction engine** (`Bytes`, `Paths`, `Journal`, `Writer`, `Machine`,
  `WriteAhead`, `Undo`, `Run`, `Plan`, `Utf8`, `Manifest`, `Diff`, `Engine`, `Recovery`,
  `Upgrade`, `LostCompletion`, `PrepareAgain`). The disk is a map from path to content, one registry
  value, the backup directory and the bytes of `journal.log`. A `Machine` offers the
  operating-system calls; each can succeed, fail, or be the one during which the process
  stops. The engine's methods run on it as the source writes them, and a crash is
  possible inside every call, in the middle of a journal write included. Contents are
  byte strings, paths are UTF-16, the journal and the manifest are modelled to the byte.
- **The handoff** (`Protocol`, `Coordinator`, `Gate`, `Activity`, `Handoff`). The session and the
  coordinator are objects whose methods may be called in any order. The application, the
  relay and the engine are three processes that take steps in any order over two message
  channels, with the named mutex modelled as the set of open handles to it; other
  processes use the same gate.
- **The application's controller** (`Controller`): one object, two queues.
- **The portable updater** (`PortablePaths`, `Replace`, `PlanText`, `PortableHandshake`,
  `Zip`): file replacement with an exception at any operation, on a file system where
  names that differ only in case are one file; the plan as text; the handshake between
  two programs; the ZIP directory as bytes.
- **The feed publisher** (`Feed`) and **tab expansion** (`Untabify`).
- **Sample files** (`Samples`): a journal, a manifest, an archive and a plan written out
  literally, and what the modelled readers make of them.

## Where the code does not do what it says

- `src/updater/coordinator.cpp:232` promises that a second restart never launches another
  program. It can, when the first one was created but could not be adopted (lines
  256-266): `Coordination.RestartTwice` is such a run, `Coordination.Coordinator.SingleShot`
  gives the exact count, and `Coordination.OneLaunch` says for which sequences of answers
  there is at most one.
- `writeManifestFile` accepts a path with a lone surrogate, which `parseManifestFile` then
  refuses. `Manifest.WriteThenParse` states the exact condition,
  `Manifest.LoneSurrogateWritten` an input that fails it.
- A Complete record that reaches the disk whole although its flush reports a failure makes
  the engine undo a transaction that recovery will take for finished.
  `LostCompletion.UndoThenStop` is the engine's own undo step doing so, and
  `LostCompletion.RecoverLost` what every recovery then answers. The machine records
  exactly this event as `flushLost`. `Recovery.ExecuteThenRecover` covers it: recovery is
  right on such a disk exactly when the new tree is whole or the old one is back.
- The rollback of `replaceFiles` looks backups up by their exact spelling on a file system
  that ignores case. It always restores the original if and only if the new files that are
  installed are spelled as in the old list (`Replacement.AlikeIffAlwaysRestored`); every
  other such file is lost (`Replacement.MisspelledIsLost`, `Replacement.LoseFile`).
- A `prepare` that is refused keeps what it had already planned, and another one on the
  same object adds to it. The plan it accepts is usable if and only if nothing had been
  left (`Engine.TxEngine.Prepare`, `Engine.UsableIffFresh`); `PrepareAgain.PrepareTwice` is
  a refused and then an accepted prepare with an unusable plan. The engine program
  prepares once.
- An application can cancel after it has sent CommitExit, but nobody reads that Cancel:
  `Handoff.CancelInTime` and `Handoff.LateCancelIgnored` say which Cancel counts,
  `Handoff.LateCancelExecutes` is a run in which it does not.

## Model

| member | source | states |
|---|---|---|
| Bytes.Put64 | src/updater/txjournal_win.cpp:19-20 | little-endian numbers: what is put reads back as the same number |
| Bytes.PutGet64 | src/updater/txjournal_win.cpp:24-31 | and any eight bytes are the encoding of the number they read as |
| Bytes.WideFromBytes | src/updater/txjournal_win.cpp:21-23 | wide strings survive being written as two bytes per character |
| Bytes.WideBytesFrom | src/updater/txjournal_win.cpp:32-37 | every even byte string is the encoding of the wide string it reads as |
| Bytes.DigitIsWeighted | src/updater/txjournal_win.cpp:19-20 | digit k of a number is what is left of it divided by 256 to the k, modulo 256 |
| Bytes.Put32At | src/updater/txjournal_win.cpp:19-20 | byte k of a written 32-bit number is its digit k: low bytes first |
| Bytes.Put64At | src/updater/txjournal_win.cpp:19-20 | and so it is for 64 bits |
| Bytes.Get32At | src/updater/txjournal_win.cpp:24-31 | what is read has the bytes as its digits |
| Bytes.WideBytesAt | src/updater/txjournal_win.cpp:21-23 | each character of a wide string is two bytes, the low one first |
| Journal.OpOf | src/updater/txjournal_win.cpp:50-67 | the operation codes 1 to 6 and no others name an operation, each its own |
| Journal.DecodeSerialize | src/updater/txjournal_win.cpp:68-77 | a serialized record reads back as itself whatever bytes follow |
| Journal.SerializeDecode | src/updater/txjournal_win.cpp:244-276 | whatever reads as a record is byte for byte the serialization of what was read |
| Journal.HeaderLayout | src/updater/txjournal_win.cpp:158-201 | byte by byte: the header is ZZTXJRN1, the version 1, the transaction number with its low byte first, and zeros |
| Journal.RecordLayout | src/updater/txjournal_win.cpp:68-77 | byte by byte: where sequence number, operation code 1 to 6, flags, size, digest, lengths and strings of a record are |
| Samples.ReplaySample | src/updater/txjournal_win.cpp:225-276 | a journal written out in bytes, with a record of each operation, replays to exactly these records |
| Journal.ReadHeader | src/updater/txjournal_win.cpp:225-244 | the header test holds for exactly the 32 bytes of this transaction's header |
| Journal.Replay | src/updater/txjournal_win.cpp:225-276 | replay returns records exactly when the bytes are a journal of this transaction (numbered 1..n, valid, Complete only last, within both caps), and is Corrupt with no records exactly when they are not |
| Journal.JournalUnique | src/updater/txjournal_win.cpp:244-276 | the bytes of a journal determine its records |
| Journal.CutIsPrefix | src/updater/txjournal_win.cpp:244-276 | a journal cut somewhere that still parses holds a prefix of the records |
| Journal.CutAtBoundary | src/updater/txjournal_win.cpp:244-276 | cut at the end of the k-th record it is the journal of the first k records |
| Journal.CutInside | src/updater/txjournal_win.cpp:244-276 | cut anywhere else, in the header or in a record, it is no journal |
| Journal.TornTail | src/updater/txjournal_win.cpp:202-221 | a log followed by a proper part of its next record is no journal |
| Writer.TxJournal.Open | src/updater/txjournal_win.cpp:158-201 | creating the journal leaves at most a prefix of the header |
| Writer.TxJournal.Append | src/updater/txjournal_win.cpp:202-221 | a record is appended as a whole or refused; a failed write latches; nothing is written that would take the log over the reader's caps or out of its rules |
| Writer.AppendThenReplay | src/updater/txjournal_win.cpp:202-276 | after any sequence of appends, refused ones among them, replay returns exactly the records that were accepted, and which ones those are when no call fails |
| Runs.HexDigitsApart | src/updater/txengine_win.cpp:18-22 | fixed-width hexadecimal names of different numbers differ |
| Runs.BackupPathsApart | src/updater/txengine_win.cpp:670-672 | no two records of one run share a backup file name |
| WriteAhead.FileChange | src/updater/txengine_win.cpp:651-706 | changing only the target of a journaled record, to what that record allows, keeps the write-ahead invariant |
| WriteAhead.BackupWritten | src/updater/txengine_win.cpp:673-680 | writing a backup file that no record relies on yet keeps the invariant |
| WriteAhead.VersionWritten | src/updater/txengine_win.cpp:709-715 | DisplayVersion may differ once its old value is journaled |
| WriteAhead.Journaled | src/updater/txengine_win.cpp:646-650 | a record may be journaled while its operation has not run |
| WriteAhead.AllUndone | src/updater/txengine_win.cpp:473-477 | once every record is undone, files and DisplayVersion are the originals |
| WriteAhead.RemoveCreated | src/updater/txengine_win.cpp:439-444 | removing a created file is a step back and undoes its record |
| WriteAhead.MoveBack | src/updater/txengine_win.cpp:409-423 | restoring the old bytes is a step back and undoes its record |
| WriteAhead.BackupDropped | src/updater/txengine_win.cpp:445-453 | a backup may be dropped once its target holds the old bytes again |
| Runs.Run.Append | src/updater/txengine_win.cpp:646-650 | every append leaves a disk that recovery understands, and on success the invariant for the longer log |
| Runs.Run.SaveOld | src/updater/txengine_win.cpp:667-680 | the backup intent is journaled before the copy, and success means the backup holds exactly the bytes the manifest promised; a failure is a conflict exactly when the intent was journaled, and a rollback when it was not |
| Runs.Run.Create | src/updater/txengine_win.cpp:652-666 | a create places exactly the staged content where nothing was, after journaling it |
| Runs.Run.Replace | src/updater/txengine_win.cpp:667-705 | a replacement ends with the new content in place and the old in its backup; on any failure the run can still be rolled back; without a failed call it is a conflict exactly for a file that is not as listed and whose saving could be journaled |
| Runs.Run.Delete | src/updater/txengine_win.cpp:667-694 | a delete removes only a file whose content was proved and saved; without a failed call it is a conflict exactly for a file that is not as listed and whose saving could be journaled |
| Runs.Run.SetVersion | src/updater/txengine_win.cpp:707-715 | the old DisplayVersion is journaled before the new one is written |
| Runs.Run.PlaceManifest | src/updater/txengine_win.cpp:716-757 | the staged manifest replaces the installed one under the same discipline |
| Runs.Run.RollBack | src/updater/txengine_win.cpp:635-645 | rolling back restores the original tree and version, or reports that a system call failed |
| Runs.Run.Finish | src/updater/txengine_win.cpp:758-761 | Applied means that the Complete record is durable |
| Runs.AppendLeaves | src/updater/txjournal_win.cpp:202-221 | whatever part of a record an append leaves behind, the disk is a scene |
| Undo.ContextFor | src/updater/txengine_win.cpp:478-484 | every Backup record is found by its target and nothing else is |
| Undo.ContextFindsProof | src/updater/txengine_win.cpp:460-471 | for a journaled Replace the lookup finds the proof of exactly its target's original content |
| Undo.RestoreFromBackup | src/updater/txengine_win.cpp:409-423 | restoring is idempotent step by step: cut short anywhere it only moved towards the original |
| Undo.UndoRecord | src/updater/txengine_win.cpp:426-471 | each undo branch, cut short anywhere, only moves towards the original, and success means that record is undone |
| Undo.UndoAll | src/updater/txengine_win.cpp:473-477 | undoing in reverse brings the original back, or stops over a failed system call having lost nothing |
| Plans.IncomingAt | src/updater/txengine_win.cpp:557-571 | with distinct targets each file of the plan brings its own staged content |
| Plans.AfterAt | src/updater/txengine_win.cpp:651-706 | each created or replaced target ends with its new content, each deleted one is absent |
| Plans.AfterElsewhere | src/updater/txengine_win.cpp:651-706 | a path that no step targets keeps its content |
| Engine.RecheckTarget | src/updater/txengine_win.cpp:485-495 | passes only for the registered root, schema 2, and a present marker |
| Engine.TxEngine.Execute | src/updater/txengine_win.cpp:619-762 | wherever it stops the disk is untouched or a scene recovery understands; Applied means new tree, new version and a durable Complete; RolledBack and Conflict mean the originals; when no call fails the disk decides: Applied if and only if every file is as listed, both manifests are there and the journal can hold the transaction, Conflict if and only if the first file not as listed can be reached, RolledBack otherwise |
| Engine.ConflictIffModified | src/updater/txengine_win.cpp:673-680 | when the journal can hold the transaction, a conflict is met exactly when some managed file is not as the old manifest lists it |
| Runs.ExitCode | src/updater/txcontract_win_p.h:24-33 | the exit code is zero exactly for the answers that mean success, and 42 to 46 for the named failures |
| Runs.LoggablePrefix | src/updater/txjournal_win.cpp:202-221 | if the journal can hold a log it can hold every prefix of it |
| Plans.FullLogHolds | src/updater/txengine_win.cpp:646-759 | the log a run passes through is always a prefix of the one the plan determines |
| Engine.TxEngine.ApplyFiles | src/updater/txengine_win.cpp:651-706 | the loop over the plan: after k files the tree and the log are the plan's for k files |
| Engine.NotStarted | src/updater/txengine_win.cpp:625-632 | a journal that was created but never written to is still the original scene |
| Recovery.ReadableScene | src/updater/txengine_win.cpp:786-799 | what a readable journal says about a scene: nothing happened, undoable, or complete |
| Recovery.Recover | src/updater/txengine_win.cpp:767-806 | unless a call fails or the target is wrong, the journal alone decides: NeedsAuthorizedRecovery if and only if it is unreadable, NothingToRecover if and only if it is absent, empty or complete, Recovered if and only if records are pending; Recovered means the originals, NothingToRecover the originals or the new tree under a whole Complete record; an unreadable journal is left as found; every attempt leaves a scene for the next |
| Recovery.OneReading | src/updater/txengine_win.cpp:786-799 | every journal is unreadable, has nothing pending or has something pending, and only one of these |
| Recovery.ShortIsUnreadable | src/updater/txengine_win.cpp:764-766 | a journal shorter than its header is unreadable and never taken for one with nothing to recover |
| Recovery.RecoverRepeatedly | src/updater/txengine_win.cpp:767-806 | any number of interrupted attempts: one that completes brings the original back and later ones change nothing |
| Recovery.ExecuteThenRecover | src/updater/txengine_win.cpp:619-806 | crash atomicity end to end, from any prepared plan, any stop in execute and a following recovery: every answer means what it says and is the one the journal that was left calls for, and a finished or needless recovery leaves old or new exactly when execute had left a scene or the originals |
| Recovery.LostOrScene | src/updater/txengine_win.cpp:786-799 | on a disk with a whole Complete record recovery is right exactly when the new tree is whole |
| LostCompletion.LostCompletionBreaksAtomicity | src/updater/txjournal_win.cpp:214-218 | the one exception: from the new tree under a Complete record whose flush failed, undoing the newest record alone leaves a tree that is neither old nor new |
| LostCompletion.RecoverLost | src/updater/txengine_win.cpp:786-799 | on any such disk every one of any number of recoveries changes nothing and answers NothingToRecover, or reports a failed call or a wrong target |
| LostCompletion.UndoThenStop | src/updater/txengine_win.cpp:426-477 | the engine's own first undo step on such a disk, and then recovery as often as one likes: neither old nor new for good |
| Utf8.OctetsStep | src/updater/txengine_win.cpp:38-60 | section 4 of RFC 3629: the first byte decides the length of a character |
| Utf8.CharValue | src/updater/txengine_win.cpp:50-55 | the range checks after the loop are the byte ranges of the grammar |
| Utf8.Decode | src/updater/txengine_win.cpp:38-60 | succeeds for exactly the byte strings of the grammar, with the string they stand for |
| Utf8.Encode | src/updater/txengine_win.cpp:61-72 | surrogate pairs become four bytes, everything else its one to three |
| Utf8.DecodeEncode | src/updater/txengine_win.cpp:38-72 | what is encoded decodes if and only if no surrogate stands alone, and then to the same string |
| Utf8.EncodeDecode | src/updater/txengine_win.cpp:38-72 | what decodes is re-encoded to the same bytes |
| Samples.SampleCharacters | src/updater/txengine_win.cpp:61-72 | characters of one to four bytes and their UTF-8 |
| Manifest.ValidRelativePath | src/updater/txengine_win.cpp:73-84 | accepts exactly the paths whose every component is plain and does not end in a slash, dot or space |
| Manifest.FrontLayout | src/updater/txengine_win.cpp:323-328 | byte by byte: a manifest starts with ZZTXMAN1, the version 1 and the number of entries |
| Manifest.EntryLayout | src/updater/txengine_win.cpp:328-337 | byte by byte: where path length, size, digest and path of an entry are |
| Samples.ParseSample | src/updater/txengine_win.cpp:287-322 | a manifest written out in bytes is parsed to exactly its entry |
| Manifest.GetPutEntry | src/updater/txengine_win.cpp:307-316 | a written entry reads back as itself if and only if its path is well-formed UTF-16 |
| Manifest.PutGetEntry | src/updater/txengine_win.cpp:307-316 | what reads as an entry is byte for byte what writing it gives |
| Manifest.ParseManifest | src/updater/txengine_win.cpp:287-322 | entries exactly of the manifests, no entries for anything else; Unreadable and TooLarge exactly for unread and oversized files |
| Manifest.ManifestUnique | src/updater/txengine_win.cpp:287-322 | the bytes of a manifest determine its entries |
| Manifest.WriteManifest | src/updater/txengine_win.cpp:323-337 | bytes for exactly the lists of safe, distinct, short enough paths |
| Manifest.WriteThenParse | src/updater/txengine_win.cpp:287-337 | the round trip returns the same entries if and only if every path is well-formed; otherwise the parser refuses what the writer wrote |
| Manifest.LoneSurrogateRefused | src/updater/txengine_win.cpp:323-337 | no list of well-formed paths has the bytes of a list with a lone surrogate |
| Manifest.OneCharacter | src/updater/txengine_win.cpp:287-337 | a list with one file named by one plain character is accepted by the writer, and read back exactly when the character is no surrogate |
| Manifest.LoneSurrogateWritten | src/updater/txengine_win.cpp:323-337 | a list that the writer accepts and the parser refuses |
| Diffs.TargetsApart | src/updater/txengine_win.cpp:101-105 | different relative paths map to different targets |
| Diffs.ByPathAt | src/updater/txengine_win.cpp:546-549 | paths distinct up to case are distinct in the exact index |
| Diffs.PlanIncoming | src/updater/txengine_win.cpp:550-571 | creates and replacements for exactly the new entries that differ, and a refusal only over a collision or a nonstandard target |
| Diffs.PlanDeletes | src/updater/txengine_win.cpp:572-580 | with the deletions the plan covers exactly the paths the manifests disagree on, each once |
| Diffs.Saturated | src/updater/txengine_win.cpp:100-100 | saturating addition is the capped sum |
| Diffs.DiffTargetsApart | src/updater/txengine_win.cpp:557-579 | the targets of a plan are distinct |
| Engine.TxEngine.HasRoom | src/updater/txengine_win.cpp:581-606 | the preflight asks for the capped true totals, for both copies at once when one volume holds them |
| Engine.RoomMeans | src/updater/txengine_win.cpp:584-603 | with a truthful preflight there is room exactly when each volume can take the staged copies, the backups and the placed copies that go to it |
| Engine.CheckStaged | src/updater/txengine_win.cpp:607-612 | every staged file has the listed size and digest |
| Engine.TxEngine.Prepare | src/updater/txengine_win.cpp:519-615 | writes nothing; accepts only a plan that is the diff of the two manifests with every check passed; refuses only for a failed read or a listed reason; an accepted plan is usable if and only if no earlier prepare had left files in it; what a refusal leaves is for the two manifests, and is their whole diff when only room or a staged file was missing |
| Diffs.NothingBeforeDiff | src/updater/txengine_win.cpp:557-582 | a plan that ends in a whole difference is one exactly when nothing stands before it |
| Engine.UsableIffFresh | src/updater/txengine_win.cpp:608-613 | an accepted difference stays checked exactly when the plan had been empty |
| Engine.LeftoverUnusable | src/updater/txengine_win.cpp:557-582 | what was left for the same manifests makes two steps with one target |
| PrepareAgain.PrepareTwice | src/updater/txengine_win.cpp:557-615 | a request whose first prepare is refused for want of room and whose second is accepted with an unusable plan |
| Engine.CheckedHolds | src/updater/txengine_win.cpp:519-615 | an accepted plan is one that execute can be trusted with |
| Upgrades.NewTreeUpdated | src/updater/txengine_win.cpp:550-579 | a tree that agreed with the old manifest agrees with the new one, dropped files are gone, the installed manifest is the staged one, nothing else changed |
| Upgrades.Update | src/updater/txengine_win.cpp:519-762 | prepare and execute together: Applied means updated, every other answer means unchanged and has one of the listed causes; without a failed call Conflict means that the installation did not agree with its manifest |
| Upgrades.AgreeingMeetsNoConflict | src/updater/txengine_win.cpp:673-680 | an installation that agrees with its manifest meets no conflict |
| Protocol.DecodeEncode | src/updater/handoffprotocol.cpp:13-33 | exactly the valid messages have a wire form and it reads back as the message |
| Protocol.EncodeDecode | src/updater/handoffprotocol.cpp:13-33 | a message has only one wire form |
| Protocol.WireLayout | src/updater/handoffprotocol.cpp:13-20 | byte by byte: the wire form of each kind of message, with its number |
| Protocol.HandoffSession.Accept | src/updater/handoffprotocol.cpp:34-46 | only the next message of the one script advances; Cancel and Failed end in agreement; everything else aborts |
| Coordination.Coordinator.StartInstaller | src/updater/coordinator.cpp:118-175 | starts once, and exactly when everything it asks for can be had, with the observer on the reservation opened before the peer is launched; a failure after that ends the coordinator |
| Coordination.Coordinator.Authenticate | src/updater/coordinator.cpp:176-188 | succeeds exactly for this session's Hello from a live peer, answered by Ready |
| Coordination.Coordinator.AwaitAppExit | src/updater/coordinator.cpp:189-194 | waits exactly after this session's AwaitingAppExit |
| Coordination.Coordinator.CommitExit | src/updater/coordinator.cpp:199-202 | sends CommitExit exactly once, from the waiting state |
| Coordination.Coordinator.ProceedIfExited | src/updater/coordinator.cpp:203-217 | reports ProceedSent exactly when Proceed went out, which needs a really ended application, and never after an abort |
| Coordination.Coordinator.Finish | src/updater/coordinator.cpp:218-230 | each answer exactly from the peer's Complete, its end, its exit code and elevation; success needs the whole script; a failure latches |
| Coordination.Coordinator.Restart | src/updater/coordinator.cpp:231-280 | each answer exactly; creates a process exactly under the listed conditions, with the observer closed, and forgets it exactly when it is not adopted |
| Coordination.Coordinator.Cancel | src/updater/coordinator.cpp:281-284 | at most one Cancel, and an abort for good |
| Coordination.Coordinator.SendsInOrder | src/updater/coordinator.cpp:176-230 | for any calls and any peer: a prefix of Ready, CommitExit, Proceed and then at most one Cancel |
| Coordination.Coordinator.SingleShot | src/updater/coordinator.cpp:231-280 | the processes created are those not adopted and the one that was; there is at most one in all if and only if at most one of these occurred |
| Coordination.Coordinator.RestartRepeatedly | src/updater/coordinator.cpp:231-280 | restarting with any sequence of answers creates as many processes as the answers say |
| Coordination.OneLaunch | src/updater/coordinator.cpp:231-280 | that is at most one if and only if the first process created is adopted or no later answer creates another |
| Coordination.RestartTwice | src/updater/coordinator.cpp:256-266 | the single-shot promise fails after a failed adoption: a run in which two processes are created |
| Gates.RunOneOwner | src/updater/installlock_win.cpp:58-80 | never two owners of the mutex |
| Gates.Barred | src/updater/installationactivity_win.cpp:102-113 | while the object exists no probe passes and no claim is granted |
| Gates.StaysOutside | src/updater/installationactivity_win.cpp:114-160 | for as long as one process owns the mutex nobody else gets past a probe |
| Gates.LeasesBesideReservation | src/updater/installationactivity_win.cpp:114-160 | a lease beside a reservation belongs to an entry that stood between its probe and its lease at the claim and still at the exclusive probe |
| Activities.InstallationActivity.Enter | src/updater/installationactivity_win.cpp:60-113 | a lease is taken only after a probe that saw no mutex; an entry under an existing mutex is blocked |
| Activities.InstallationActivity.ReserveUpdate | src/updater/installationactivity_win.cpp:114-160 | among any interleaving of other processes: success means a claim on a mutex that did not exist and an exclusive probe that passed, owned ever since; a failure gives the mutex up; which answer it is follows from the mutex, the leases at the probe and the calls that failed |
| Activities.InstallationActivity.OtherLeases | src/updater/installationactivity_win.cpp:114-160 | however long a reservation has lasted, any other lease belongs to an entry that stood between its probe and its lease at the claim and at the exclusive probe |
| Activities.InstallationActivity.CancelUpdate | src/updater/installationactivity_win.cpp:161-169 | gives the mutex up and keeps the lease |
| Handoff.StepIsGateStep | src/updater/installlock_win.cpp:58-80 | every step of the three processes uses the gate only through the gate's own steps |
| Handoff.RelayKeepsOrder | src/updater/relay.cpp:52-95 | the relay forwards CommitExit only after receiving it and sends Proceed only after the application ended |
| Handoff.RunInv | src/updater/relay.cpp:52-95 | the invariants of the three processes hold in every run |
| Handoff.NeverExecutesUnderLiveApplication | src/updater/txengine_main.cpp:90-105 | in every interleaving the engine executes only after the application has ended, having itself sent CommitExit |
| Handoff.RestartsLast | src/updater/relay.cpp:86-95 | a new application comes only after execute has applied the transaction, Complete, exit code zero and the closing of both observers |
| Handoff.ReportsTheTruth | src/updater/txengine_main.cpp:103-105 | the engine reports Complete if and only if execute answered Applied, and an engine that ends by itself ends with the code of that answer, zero only for Applied |
| Handoff.AnswerRecorded | src/updater/txengine_main.cpp:103-105 | what execute answered, and nothing else, is what is remembered of it |
| Handoff.CommitsOnlyToPreparedEngine | src/updater/relay.cpp:70-79 | the application sends CommitExit only after the engine has reported that it is prepared |
| Handoff.GateContinuity | src/updater/relay.cpp:52-95 | from the reservation until the live relay leaves finish the mutex exists, also across the application's death |
| Handoff.GateStaysClosed | src/updater/installationactivity_win.cpp:102-160 | in that window every probe is blocked and no claim is granted |
| Handoff.RestartReachable | src/updater/relay.cpp:52-95 | the whole way to a restarted application can be walked |
| Handoff.CancelInTime | src/updater/relay.cpp:75-86 | a Cancel sent before CommitExit is effective: the engine never executes, whatever happens |
| Handoff.LateCancelIgnored | src/updater/relay.cpp:75-95 | the steps of the relay and of the engine are the same with a Cancel behind CommitExit and without it |
| Handoff.LateCancelExecutes | src/updater/relay.cpp:75-95 | a run in which the application sends CommitExit, then Cancel, ends, and the engine executes |
| Controllers.Controller.Begin | src/app/applicationupdatehandoff.cpp:145-223 | refuses while active, committed or still releasing; otherwise takes the reservation once and starts one generation |
| Controllers.Controller.Cancel | src/app/applicationupdatehandoff.cpp:225-262 | revokes the generation at once and keeps the reservation until the peer was cancelled |
| Controllers.Controller.CommitExit | src/app/applicationupdatehandoff.cpp:264-300 | posts a commit exactly from a prepared waiting state with none pending |
| Controllers.Controller.OnPreparationLost | src/app/applicationupdatehandoff.cpp:353-366 | revokes the generation and releases at once |
| Controllers.Controller.RunWorker | src/app/applicationupdatehandoff.cpp:201-221 | a worker step moves its request to the other queue with exactly the answer that the session gave |
| Controllers.Controller.RunGui | src/app/applicationupdatehandoff.cpp:302-351 | the next state and the reservation after every answer; the application is asked to commit its exit exactly on the good answer to the commit of the current generation while waiting, and the exit is committed exactly when it agrees; a stale answer never meets a newer pending commit; a posted release always matches |
| Controllers.StaleGone | src/app/applicationupdatehandoff.cpp:326-334 | a stale answer changes nothing but the queue |
| Controllers.StartAnswered | src/app/applicationupdatehandoff.cpp:302-324 | when a start is answered no older commit is left in either queue |
| Controllers.Controller.NeverLate | src/app/applicationupdatehandoff.cpp:326-351 | at most one committed exit, the application asked at most once for a generation, never for a revoked one and only when the peer was really told; after the exit the reservation is never released |
| Controllers.Controller.Drained | src/app/applicationupdatehandoff.cpp:145-262 | with both queues empty and no exit the reservation is held exactly while waiting |
| PortablePaths.SafePath | src/portableupdater/transaction.cpp:43-65 | the component loop accepts exactly the safe names |
| PortablePaths.TemporaryIsNotSafe | src/portableupdater/transaction.cpp:121-122 | the staging file can never be a packaged file |
| Replacement.CheckSet | src/portableupdater/transaction.cpp:28-41 | exactly the sets of safe names, distinct up to case, none a directory of another |
| Replacement.ValidateTransaction | src/portableupdater/transaction.cpp:80-97 | exactly the transactions with verified payload and no unknown file in the way |
| Replacement.ReplaceOne | src/portableupdater/transaction.cpp:118-132 | one replacement, with an exception at any operation |
| Replacement.BackUpAll | src/portableupdater/transaction.cpp:107-115 | every present old file is saved before anything is changed |
| Replacement.RollBack | src/portableupdater/transaction.cpp:137-147 | every changed name is removed and, if saved under its own spelling, restored |
| Replacement.RestoredExactly | src/portableupdater/transaction.cpp:137-147 | a working rollback restores everything but the changed files whose spelling is not in the old list, and so the original if and only if every changed file that existed was saved under its own spelling |
| Replacement.RestoredIffAlike | src/portableupdater/transaction.cpp:137-147 | that is the original if and only if each changed file that was installed is spelled as in the old list |
| Replacement.ReplaceFiles | src/portableupdater/transaction.cpp:98-149 | all or nothing under an exception at any operation; a working rollback restores the original if and only if the changed installed files are spelled as in the old list, and always when the installed new files are; complete unless something throws, the transaction is invalid, or an earlier update left its staging file behind |
| Replacement.AlikeIffAlwaysRestored | src/portableupdater/transaction.cpp:98-149 | what the caller can check: the installed new files are spelled as in the old list if and only if a working rollback restores the original wherever the replacement stops |
| Replacement.MisspelledIsLost | src/portableupdater/transaction.cpp:143-143 | every installed file that a changed name spells differently is lost by a working rollback |
| Replacement.LoseFile | src/portableupdater/transaction.cpp:118-147 | a run of it: "A" replaces the installed "a", and a failure whose rollback works leaves no file |
| PlanText.Decimal | src/portableupdater/portableupdateinstaller.cpp:53-57 | printed numbers read back |
| Samples.SamplePlan | src/portableupdater/portableupdateinstaller.cpp:52-57 | a plan written out, character by character |
| PlanText.RecordReads | src/portableupdater/helper_win.cpp:37-45 | a record line reads back, spaces in the name included |
| PlanText.Reader.Line | src/portableupdater/helper_win.cpp:24-26 | a line ends at its line feed and nowhere else |
| PlanText.WritePlan | src/portableupdater/portableupdateinstaller.cpp:52-57 | prints the lines in the order the reader expects |
| PlanText.ParsePlan | src/portableupdater/helper_win.cpp:31-47 | reads any printed plan back to the last character; accepts only valid counts and records |
| PlanText.PlanRoundTrip | src/portableupdater/helper_win.cpp:31-47 | the two programs agree on every plan within the size limit and refuse a longer one |
| PortableHandshake.ReplacesAlone | src/portableupdater/helper_win.cpp:113-128 | files are replaced only after an orderly end of the application and by the owner of the reservation |
| PortableHandshake.HandsOffToHolder | src/portableupdater/helper_win.cpp:100-112 | the application hands off only to a helper that has the mutex open, and the mutex then exists for as long as the helper goes on |
| PortableHandshake.CancelledNeverReplaces | src/portableupdater/portableupdateinstaller.cpp:116-128 | a cancellation written at any time, also after READY, means that nothing is ever replaced |
| PortableHandshake.ReplacementReachable | src/portableupdater/helper_win.cpp:113-128 | without one the replacement can be reached |
| Zip.Signatures | src/portableupdater/package.cpp:42-60 | the three signatures are the byte strings PK 5 6, PK 1 2 and PK 3 4 |
| Zip.EntryLayout | src/portableupdater/package.cpp:56-70 | which bytes of a central record are compressed size, size, offset and name |
| Samples.InspectSample | src/portableupdater/package.cpp:42-87 | an archive written out in bytes is accepted with exactly its entry |
| Zip.FindEnd | src/portableupdater/package.cpp:42-48 | finds the last end record whose comment reaches the end of the file |
| Zip.ApartInAnyOrder | src/portableupdater/package.cpp:84-85 | being pairwise disjoint does not depend on the order |
| Zip.CheckRanges | src/portableupdater/package.cpp:84-85 | the check of sorted neighbours decides pairwise disjointness |
| Zip.ReadEntry | src/portableupdater/package.cpp:56-81 | the checks of one central record against its local header |
| Zip.InspectZip | src/portableupdater/package.cpp:42-87 | accepts exactly the archives whose records tile the directory, agree with their local headers, have distinct safe names, disjoint ranges before the directory and sizes within 4 GiB |
| Feed.VersionOrder | scripts/ci/publish_update_feed.py:141-145 | text order of versions is the order of the joined numbers, both ways |
| Feed.StableSequenceFollowsVersion | scripts/ci/publish_update_feed.py:144-145 | for stable manifests the sequence check follows from the version check |
| Feed.StableProgress | scripts/ci/publish_update_feed.py:168-180 | a stable manifest may follow another exactly with a larger sequence number and a later version, or the same one with nothing but corrections |
| Feed.LaterTrans | scripts/ci/publish_update_feed.py:168-180 | equal versions at both ends squeeze everything in between |
| Feed.Remote.UpdateRef | scripts/ci/publish_update_feed.py:204-206 | an unforced update on top of an earlier head succeeds if and only if that head is still the head |
| Feed.Publisher.CapturedStays | scripts/ci/publish_update_feed.py:253-256 | what a publisher read stays true of the commits whatever others do |
| Feed.Publisher.Store | scripts/ci/publish_update_feed.py:183-206 | stores exactly when progress holds and the branch has not moved |
| Feed.Remote.HistoryIsOrdered | scripts/ci/publish_update_feed.py:168-206 | along the branch sequences increase and versions never decrease, over any distance and in both channels |
| Feed.Remote.SameVersionSameContents | scripts/ci/publish_update_feed.py:175-180 | two stable manifests of one version, however far apart, differ in nothing but sequence number, dates and notes |
| Untabify.ExpandConcat | src/logdata/include/linetypes.h:309-324 | expansion composes over concatenation with the shifted start column |
| Untabify.FirstTab | src/logdata/include/linetypes.h:314-321 | replacing the first tab by its spaces does not change what is shown |
| Untabify.Untabify | src/logdata/include/linetypes.h:309-324 | the in-place loop computes the expansion from any start column |
| Untabify.UntabifiedLength | src/logdata/include/linetypes.h:326-341 | the fast form is the length of the expansion from column zero |

## Left out

- Recovery.ExecuteThenRecover: a completion record whose flush failed after all of its bytes were on the disk leaves only what its contract says of that case (see above); it takes for granted that the manifests list neither themselves nor the marker and that old and new content of one file do not collide under SHA-256.
- Engine.TxEngine.Execute: between prepare and the end of execute no other program writes to the installation or to DisplayVersion, so the checks of prepare still hold of the disk that execute starts from; the directory pin, parent directories and leftover temporary files are not part of the state; one volume, so a rename is atomic.
- Engine.TxEngine.Prepare: old and new manifest are compared by exact path as the code does; two spellings of one file in the two manifests are two paths here.
- Diffs.PlanIncoming: a file attribute query is taken to answer truthfully.
- Coordination.Coordinator.StartInstaller: the plain start without an installer differs only in what it launches and is not modelled separately.
- Gates.LeasesBesideReservation: the directory chain above the installation and the identity checks on it are taken to succeed; that a dead owner leaves the mutex abandoned matters only for which refusal is reported.
- Handoff.GateContinuity: one handoff; the application has reserved before it and does not go back on it. What a failed relay does after leaving finish, and its restart of the old program, are not modelled.
- Controllers.Controller.RunGui: destruction of the controller and re-entrant slots other than the commit on Waiting.
- Replacement.ReplaceFiles: links and file types, and directories that are created and not removed; a staging file that cannot be deleted is reported as litter.
- PortableHandshake.CancelledNeverReplaces: a cancellation whose file could not be saved is not a written one.
- Feed.Remote.HistoryIsOrdered: only publishers write to the branch; the macOS appcasts stored beside the manifests are not modelled.
- Untabify.Untabify: characters are single units, and lengths do not exceed the line length type.
- Win32 handles, access control, process identity and pipe authentication: the peer of a channel is the intended process.
- The registry beyond DisplayVersion, InstallLocation and the schema number; log lines, retries, timing values: a timeout is one of the failures.
- Decompression, JSON, signatures, HTTP and the release checks of the publisher before the manifest is stored.
- User interface, translations, command line, smoke tests, packaging.
