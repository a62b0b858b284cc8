/** The journal writer: one object per transaction, refusing every record that
    the strict parser would refuse to read back. */
module Writer {
  import opened Bytes
  import opened Wrappers
  import opened Journal
  import opened Machines

  class TxJournal {
    const txid: u64
    var nextSeq: nat
    var writtenBytes: nat
    var completed: bool
    var failed: bool
    ghost var records: seq<Record> // what append has accepted

    /** The fields agree with the records, and the records are a readable log. */
    ghost predicate Valid()
      reads this
    {
      && IsJournal(Encode(txid, records), txid, records)
      && nextSeq == |records| + 1
      && writtenBytes == |Encode(txid, records)|
      && completed == Closed(records)
    }

    /** Nothing has been left behind by a failed write. */
    ghost predicate Clean(d: Disk)
      reads this
    {
      Valid() && !failed && d.journal == Some(Encode(txid, records))
    }

    constructor (txid: u64)
      ensures this.txid == txid && Valid() && !failed && records == []
    {
      this.txid := txid;
      nextSeq := 1;
      writtenBytes := HEADER_BYTES;
      completed := false;
      failed := false;
      records := [];
    }

    /** Creates journal.log with its header; the exclusively created directory is
        new, so a file found there means that the transaction already exists. */
    method Open(m: Machine) returns (ok: bool)
      requires m.up && m.disk.journal.None?
      requires Valid() && !failed && records == []
      modifies m
      ensures m.disk == old(m.disk).(journal := m.disk.journal)
      ensures m.disk.journal.None? || m.disk.journal.value <= Header(txid)
      ensures ok ==> m.up && Clean(m.disk)
      ensures m.up && !ok ==> !m.sound
      ensures (m.sound ==> old(m.sound)) && m.flushLost == old(m.flushLost)
    {
      ok := m.CreateJournal(Header(txid));
      assert Encode(txid, []) == Header(txid);
    }

    /** Serializes, writes and flushes one record. It is accepted or refused as a
        whole; a failed write latches and nothing is ever written after it. */
    method Append(m: Machine, r: Record) returns (ok: bool, ghost kept: nat)
      requires m.up && Valid() && m.disk.journal.Some?
      modifies this, m
      ensures Valid() && (old(failed) ==> failed)
      ensures kept <= |Serialize(r)|
      ensures m.disk == old(m.disk).(journal := Some(old(m.disk).journal.value + Serialize(r)[..kept]))
      ensures kept > 0 ==> !old(failed) && ValidRecord(r, |old(records)| + 1)
      ensures kept > 0 ==> IsJournal(Encode(txid, old(records) + [r]), txid, old(records) + [r])
      ensures ok ==> m.up && kept == |Serialize(r)| && records == old(records) + [r] && failed == old(failed)
      ensures !ok ==> records == old(records)
      ensures |records| <= MAX_RECORDS
      ensures !ok && m.up && kept > 0 ==> failed
      ensures ok <==> records != old(records)
      ensures ok && old(Clean(m.disk)) ==> Clean(m.disk)
      ensures m.sound ==> old(m.sound)
      ensures m.flushLost <==> old(m.flushLost) || (r.op.Complete? && m.up && !ok && kept == |Serialize(r)|)
      ensures failed ==> old(failed) || !m.up || !m.sound
      ensures m.up && !ok && m.sound ==>
        || old(failed) || Closed(old(records)) || !ValidRecord(r, |old(records)| + 1)
        || !IsJournal(Encode(txid, old(records) + [r]), txid, old(records) + [r])
    {
      hide ValidRecord, Serialize;
      ok, kept := false, 0;
      EncodeSnoc(txid, records, r);
      assert m.disk.journal.value + Serialize(r)[..0] == m.disk.journal.value;
      if failed || completed {
        return;
      }
      if !ValidRecord(r, nextSeq) {
        return;
      }
      var bytes := Serialize(r);
      if nextSeq > MAX_RECORDS || |bytes| > MAX_JOURNAL_BYTES - writtenBytes {
        return;
      }
      ValidSnoc(records, r);
      ok, kept := m.AppendJournal(bytes, r.op.Complete?);
      if !ok {
        failed := true;
        return;
      }
      assert bytes[..|bytes|] == bytes;
      writtenBytes := writtenBytes + |bytes|;
      completed := r.op.Complete?;
      nextSeq := nextSeq + 1;
      records := records + [r];
    }
  }

  /** Which of these records, offered one after the other behind a log, are accepted
      when no write fails: each one that leaves a log the parser can read. A refused
      one is simply left out. */
  ghost function Accepted(txid: u64, before: seq<Record>, rs: seq<Record>): (kept: seq<Record>)
    decreases |rs|
  {
    if |rs| == 0 then []
    else
      var r := rs[0];
      if IsJournal(Encode(txid, before + [r]), txid, before + [r])
      then [r] + Accepted(txid, before + [r], rs[1..])
      else Accepted(txid, before, rs[1..])
  }

  lemma LastIsValid(txid: u64, before: seq<Record>, r: Record)
    requires IsJournal(Encode(txid, before + [r]), txid, before + [r])
    ensures ValidRecord(r, |before| + 1) && !Closed(before)
  {
    hide ValidRecord;
    var all := before + [r];
    assert all[|before|] == r && (|before| > 0 ==> all[|before| - 1] == before[|before| - 1]);
  }

  /** Offers any sequence of records, refused ones among them, and replays the file:
      it gives back exactly the records that were accepted, and while no call fails
      those are exactly the ones that could be read back. */
  method AppendThenReplay(journal: TxJournal, m: Machine, rs: seq<Record>) returns (replayed: Replayed)
    requires m.up && journal.Clean(m.disk)
    modifies journal, m
    ensures old(journal.records) <= journal.records
    ensures m.up && !journal.failed ==> replayed == Parsed(journal.records)
    ensures m.up && m.sound ==>
      !journal.failed && journal.records == old(journal.records) + Accepted(journal.txid, old(journal.records), rs)
  {
    hide Encode, IsJournal, ValidRecord, Serialize, Closed;
    replayed := Corrupt;
    assert rs[0..] == rs;
    for i := 0 to |rs|
      invariant m.up && (journal.failed ==> !m.sound) && (!journal.failed ==> journal.Clean(m.disk))
      invariant journal.Valid() && m.disk.journal.Some? && old(journal.records) <= journal.records
      invariant m.sound ==>
        journal.records + Accepted(journal.txid, journal.records, rs[i..])
        == old(journal.records) + Accepted(journal.txid, old(journal.records), rs)
    {
      ghost var before := journal.records;
      assert rs[i..][0] == rs[i] && rs[i..][1..] == rs[i + 1..];
      if IsJournal(Encode(journal.txid, before + [rs[i]]), journal.txid, before + [rs[i]]) {
        LastIsValid(journal.txid, before, rs[i]);
      }
      ghost var bytes := m.disk.journal.value;
      var appended, kept := journal.Append(m, rs[i]);
      if !m.up {
        return;
      }
      if appended {
        assert before + ([rs[i]] + Accepted(journal.txid, before + [rs[i]], rs[i + 1..]))
            == (before + [rs[i]]) + Accepted(journal.txid, before + [rs[i]], rs[i + 1..]);
      } else if kept == 0 {
        assert bytes + Serialize(rs[i])[..0] == bytes;
      }
    }
    assert rs[|rs|..] == [];
    if journal.failed {
      return;
    }
    replayed := Replay(m.disk.journal.value, journal.txid);
    if replayed.Parsed? {
      JournalUnique(m.disk.journal.value, journal.txid, journal.records, replayed.records);
    }
  }
}
