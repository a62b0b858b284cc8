/** One process's installation activity: entering, reserving and giving back, as it runs
    among any number of others that use the same gate between any two of its steps. */
module Activities {
  import opened Wrappers
  import opened Gates

  datatype ActivityError = NoError | InvalidRoot | Unavailable | Blocked

  /** The shared names and leases of the operating system, with their history. */
  class Namespace {
    var gate: Gate
    ghost var run: seq<Gate>

    ghost predicate Valid()
      reads this
    {
      IsRun(run) && run[|run| - 1] == gate
    }

    constructor ()
      ensures Valid() && |run| == 1 && forall p :: PhaseOf(gate, p).Outside?
    {
      gate := Gate(map[], {});
      run := [Gate(map[], {})];
    }

    method Act(p: Proc, a: Action)
      requires Valid() && Enabled(gate, p, a)
      modifies this
      ensures Valid() && gate == Apply(old(gate), p, a) && run == old(run) + [gate]
    {
      hide Enabled, Apply, OneOwner;
      ghost var before := run;
      gate := Apply(gate, p, a);
      run := run + [gate];
      assert Next(before[|before| - 1], gate);
      forall k | 0 <= k < |run| - 1
        ensures Next(run[k], run[k + 1])
      {
        if k < |before| - 1 {
          assert run[k] == before[k] && run[k + 1] == before[k + 1];
        }
      }
    }

    /** The others go on for a while; none of them moves p. */
    method Others(p: Proc)
      requires Valid()
      modifies this
      ensures Valid() && old(run) <= run
      ensures forall i :: |old(run)| <= i < |run| ==> PhaseOf(run[i], p) == old(PhaseOf(gate, p))
      ensures PhaseOf(gate, p) == old(PhaseOf(gate, p))
    {
      hide Enabled, Apply, OneOwner, IsRun, Exists, OthersLeased;
      var steps: nat :| steps >= 0;
      for n := 0 to steps
        invariant Valid() && old(run) <= run
        invariant forall i :: |old(run)| <= i < |run| ==> PhaseOf(run[i], p) == old(PhaseOf(gate, p))
        invariant PhaseOf(gate, p) == old(PhaseOf(gate, p))
      {
        var q: Proc :| q >= 0;
        var a: Action := *;
        if q != p && Enabled(gate, q, a) {
          OthersStay(gate, q, a, p);
          Act(q, a);
        }
      }
    }
  }

  lemma OthersStay(g: Gate, q: Proc, a: Action, p: Proc)
    requires Enabled(g, q, a) && q != p
    ensures PhaseOf(Apply(g, q, a), p) == PhaseOf(g, p)
  {
    hide Exists, OthersLeased;
  }

  /** What the file system answers while a reservation is made. */
  datatype Answers = Answers(verified: bool, pinned: bool, probeOpens: bool, restored: bool)

  /** The outcome of the exclusive probe, given whether it met another lease. */
  function ProbeOutcome(a: Answers, leased: bool): (e: ActivityError) {
    if leased then Blocked else if a.probeOpens && a.restored then NoError else Unavailable
  }

  class InstallationActivity {
    const p: Proc
    const os: Namespace

    constructor (p: Proc, os: Namespace)
      ensures this.p == p && this.os == os
    {
      this.p := p;
      this.os := os;
    }

    ghost function Phase(): (phase: Phase)
      reads this, os
    {
      PhaseOf(os.gate, p)
    }

    /** A lease is taken only after a probe that saw no mutex; there is no re-entry. */
    method Enter(rootOk: bool, available: bool) returns (e: ActivityError)
      requires os.Valid()
      modifies os
      ensures os.Valid() && old(os.run) <= os.run
      ensures e.NoError? ==> Phase().Inside? && old(Phase()).Outside?
      ensures !e.NoError? ==> Phase() == old(Phase())
      ensures old(Phase()).Outside? && rootOk && available ==> e == if old(Exists(os.gate)) then Blocked else NoError
      ensures !old(Phase()).Outside? ==> e.Blocked?
    {
      hide IsRun, Exists, OthersLeased;
      if !PhaseOf(os.gate, p).Outside? {
        return Blocked;
      }
      if !rootOk {
        return InvalidRoot;
      }
      var blocked := Exists(os.gate);
      os.Act(p, Probe);
      if blocked {
        return Blocked;
      }
      os.Others(p);
      if !available {
        os.Act(p, Leave);
        return Unavailable;
      }
      os.Act(p, OpenLease);
      return NoError;
    }

    /** Claims the mutex, proves under it that nobody else holds a lease, and takes its
        own back. Every failure after the claim gives the mutex up again. */
    method ReserveUpdate(a: Answers) returns (e: ActivityError, ghost claim: nat, ghost check: nat)
      requires os.Valid() && (Phase().Outside? || Phase().Inside? || Phase().Reserved?)
      modifies os
      ensures os.Valid() && old(os.run) <= os.run
      ensures e.NoError? ==> Phase().Reserved? && ReservedSince(claim, check) && |old(os.run)| <= claim + 1
      ensures e.NoError? ==> old(Phase()).Inside? && !old(Exists(os.gate)) && a == Answers(true, true, true, true)
      ensures !e.NoError? ==> Phase() == old(Phase()) || (old(Phase()).Inside? && Phase().Outside? && !a.restored)
      // the reservation fails for a taken mutex, for another lease or for a failed call
      ensures e ==
        if old(Phase()).Outside? then Unavailable
        else if old(Phase()).Reserved? then Blocked
        else if !a.verified then Unavailable
        else if old(Exists(os.gate)) then Blocked
        else if !a.pinned then Unavailable
        else ProbeOutcome(a, check < |os.run| && OthersLeased(os.run[check], p))
    {
      hide IsRun, Exists, OthersLeased;
      claim, check := 0, 0;
      var phase := PhaseOf(os.gate, p);
      if phase.Outside? {
        return Unavailable, claim, check;
      }
      if Owns(phase) {
        return Blocked, claim, check;
      }
      if !a.verified {
        return Unavailable, claim, check;
      }
      var taken := Exists(os.gate);
      RunEnds(os);
      claim := |os.run| - 1;
      os.Act(p, Claim);
      if taken {
        return Blocked, claim, check;
      }
      e, check := ProveAlone(a, claim);
    }

    /** Under the mutex: the lease goes, the exclusive probe, the lease comes back. */
    method ProveAlone(a: Answers, ghost claim: nat) returns (e: ActivityError, ghost check: nat)
      requires os.Valid() && Phase().Claimed? && OwnedSince(claim)
      modifies os
      ensures os.Valid() && old(os.run) <= os.run
      ensures e.NoError? ==> Phase().Reserved? && ReservedSince(claim, check) && a.pinned && a.probeOpens && a.restored
      ensures !e.NoError? ==> Phase() == if a.restored then Inside else Outside
      ensures e == if !a.pinned then Unavailable
        else ProbeOutcome(a, check < |os.run| && OthersLeased(os.run[check], p))
    {
      hide IsRun, Exists, OthersLeased, Apply;
      check := 0;
      os.Others(p);
      if !a.pinned {
        Fail(a.restored);
        return Unavailable, check;
      }
      Quieten(claim);
      RunEnds(os);
      check := |os.run| - 1;
      if OthersLeased(os.gate, p) || !a.probeOpens {
        e := if OthersLeased(os.gate, p) then Blocked else Unavailable;
        Fail(a.restored);
        return;
      }
      ghost var last := os.run;
      os.Act(p, Check);
      Applied(os.run[check], p, Check);
      StillOwned(last, claim);
      last := os.run;
      os.Others(p);
      StillOwned(last, claim);
      if !a.restored {
        Fail(false);
        return Unavailable, check;
      }
      last := os.run;
      ghost var before := os.gate;
      os.Act(p, Restore);
      Applied(before, p, Restore);
      StillOwned(last, claim);
      return NoError, check;
    }

    /** Closes its own lease while the others go on. */
    method Quieten(ghost claim: nat)
      requires os.Valid() && Phase().Claimed? && OwnedSince(claim)
      modifies os
      ensures os.Valid() && old(os.run) <= os.run && Phase().Quiet? && OwnedSince(claim) && claim < |os.run| - 1
    {
      hide IsRun, Exists, OthersLeased, Apply;
      ghost var before, last := os.gate, os.run;
      os.Act(p, Quiesce);
      Applied(before, p, Quiesce);
      StillOwned(last, claim);
      last := os.run;
      os.Others(p);
      StillOwned(last, claim);
    }

    lemma Applied(g: Gate, p: Proc, a: Action)
      requires Enabled(g, p, a) && (a.Quiesce? || a.Check? || a.Restore?)
      ensures PhaseOf(Apply(g, p, a), p) == if a.Quiesce? then Quiet else if a.Check? then Checked else Reserved
    {
    }

    /** The mutex has been this process's since the claim. */
    ghost predicate OwnedSince(claim: nat)
      reads this, os
    {
      && claim < |os.run| - 1
      && Enabled(os.run[claim], p, Claim) && os.run[claim + 1] == Apply(os.run[claim], p, Claim)
      && forall i :: claim < i < |os.run| ==> Owns(PhaseOf(os.run[i], p))
    }

    lemma StillOwned(before: seq<Gate>, claim: nat)
      requires before <= os.run && claim < |before| - 1
      requires Enabled(before[claim], p, Claim) && before[claim + 1] == Apply(before[claim], p, Claim)
      requires forall i :: claim < i < |before| ==> Owns(PhaseOf(before[i], p))
      requires forall i :: |before| <= i < |os.run| ==> Owns(PhaseOf(os.run[i], p))
      ensures OwnedSince(claim)
    {
      hide Enabled, Apply;
      assert forall i :: 0 <= i < |before| ==> before[i] == os.run[i];
    }

    /** Restores the lease if that is possible, and releases the mutex in any case. */
    method Fail(restored: bool)
      requires os.Valid() && (Phase().Claimed? || Phase().Quiet? || Phase().Checked?)
      modifies os
      ensures os.Valid() && old(os.run) <= os.run
      ensures Phase() == if restored then Inside else Outside
    {
      hide IsRun, Exists, OthersLeased;
      os.Act(p, GiveUp(restored));
      os.Others(p);
      os.Act(p, Release);
    }

    method CancelUpdate()
      requires os.Valid()
      modifies os
      ensures os.Valid() && old(os.run) <= os.run
      ensures Phase() == if old(Phase()).Reserved? then Inside else old(Phase())
    {
      hide IsRun, Exists, OthersLeased;
      if PhaseOf(os.gate, p).Reserved? {
        os.Act(p, Gates.Cancel);
      }
    }

    /** The steps of the history that made the reservation. */
    ghost predicate ReservedSince(claim: nat, check: nat)
      reads this, os
    {
      claim < check < |os.run| - 1 && OwnedSince(claim) && Enabled(os.run[check], p, Check)
    }

    /** However long the reservation has lasted: another open lease belongs to a process
        that stood between its probe and its lease at the claim and still at the check. */
    lemma OtherLeases(claim: nat, check: nat, q: Proc)
      requires os.Valid() && ReservedSince(claim, check) && q != p && Leased(PhaseOf(os.gate, q))
      ensures PhaseOf(os.run[claim], q).Probed? && PhaseOf(os.run[check], q).Probed?
    {
      hide IsRun, Exists, OthersLeased, Enabled, Apply;
      RunEnds(os);
      LeasesBesideReservation(os.run, claim, check, |os.run| - 1, p, q);
    }
  }

  lemma RunEnds(os: Namespace)
    requires os.Valid()
    ensures |os.run| > 0 && os.run[|os.run| - 1] == os.gate
  {
  }
}
