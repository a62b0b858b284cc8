/** The portable update's last steps, in two processes: the application gets ready to
    exit and may still cancel, the helper waits for that exit and then replaces. They
    share files in the staging directory and the reservation mutex. */
module PortableHandshake {

  datatype Owner = Application | Helper | Nobody

  /** The helper's place in its procedure. */
  datatype Place =
    | Validating
    | MutexOpen    // the reservation exists and a handle to it is held
    | ReadyWritten // polling for cancellation and for the application's end
    | ExitSeen     // the parent process has ended
    | NotCancelled // no cancellation was found after that
    | Owning       // the reservation mutex is the helper's
    | Replacing    // inside replaceFiles
    | Replaced
    | GivenUp

  datatype Sys = Sys(
    appAlive: bool, handedOff: bool,
    mutexExists: bool, owner: Owner, abandoned: bool,
    cancelFile: bool, readyFile: bool,
    helper: Place, helperAlive: bool)

  datatype Act =
    | Cancel(saved: bool) // the application revokes, even after READY; saving can fail
    | SeeReady
    | ReleaseMutex        // an orderly exit gives the reservation up first
    | AppEnd              // the application process ends, in order or not
    | OpenMutex | WriteReady | SeeExit | Recheck | Acquire | Replace | Finish
    | HelperGivesUp       // cancelled, timed out, or any check failed
    | HelperEnd           // killed, also by the application

  predicate Enabled(s: Sys, a: Act) {
    match a
    case Cancel(_) | AppEnd => s.appAlive
    case SeeReady => s.appAlive && s.readyFile
    case ReleaseMutex => s.appAlive && s.owner.Application?
    case OpenMutex => s.helperAlive && s.helper.Validating? && s.mutexExists
    case WriteReady => s.helperAlive && s.helper.MutexOpen?
    case SeeExit => s.helperAlive && s.helper.ReadyWritten? && !s.appAlive
    case Recheck => s.helperAlive && s.helper.ExitSeen?
    case Acquire => s.helperAlive && s.helper.NotCancelled?
    case Replace => s.helperAlive && s.helper.Owning?
    case Finish => s.helperAlive && s.helper.Replacing?
    case HelperGivesUp | HelperEnd => s.helperAlive
  }

  /** The helper's handle to the mutex is open from OpenMutex until it ends. */
  predicate HoldsHandle(s: Sys) {
    s.helperAlive && !s.helper.Validating? && !s.helper.GivenUp? && !s.helper.Replaced?
  }

  function Step(s: Sys, a: Act): (s': Sys)
    requires Enabled(s, a)
  {
    match a
    case Cancel(saved) => s.(handedOff := false, cancelFile := s.cancelFile || saved)
    case SeeReady => s.(handedOff := true)
    case ReleaseMutex => s.(owner := Nobody, mutexExists := HoldsHandle(s))
    case AppEnd =>
      // an owner that just ends leaves the mutex abandoned, if anyone still has it open
      s.(appAlive := false, owner := if s.owner.Application? then Nobody else s.owner,
         abandoned := s.abandoned || s.owner.Application?, mutexExists := HoldsHandle(s))
    case OpenMutex => s.(helper := MutexOpen)
    case WriteReady => s.(helper := ReadyWritten, readyFile := true)
    case SeeExit => s.(helper := ExitSeen)
    case Recheck => s.(helper := if s.cancelFile then GivenUp else NotCancelled)
    case Acquire =>
      // only a plain success will do: a consumed abandonment is refused
      if s.owner.Nobody? && !s.abandoned then s.(helper := Owning, owner := Helper) else s.(helper := GivenUp)
    case Replace => s.(helper := Replacing)
    case Finish => s.(helper := Replaced, owner := Nobody)
    case HelperGivesUp => s.(helper := GivenUp, owner := if s.owner.Helper? then Nobody else s.owner)
    case HelperEnd => s.(helperAlive := false, owner := if s.owner.Helper? then Nobody else s.owner)
  }

  /** The helper has just been started; the application holds the reservation. */
  ghost predicate Init(s: Sys) {
    s == Sys(true, false, true, Application, false, false, false, Validating, true)
  }

  ghost predicate Next(s: Sys, s': Sys) {
    exists a :: Enabled(s, a) && s' == Step(s, a)
  }

  ghost predicate IsRun(run: seq<Sys>) {
    && |run| > 0 && Init(run[0])
    && forall k :: 0 <= k < |run| - 1 ==> Next(run[k], run[k + 1])
  }

  predicate PastExit(p: Place) {
    p.ExitSeen? || PastCancel(p)
  }

  predicate PastCancel(p: Place) {
    p.NotCancelled? || p.Owning? || p.Replacing? || p.Replaced?
  }

  ghost predicate Inv(s: Sys) {
    && (PastExit(s.helper) ==> !s.appAlive)
    && (PastCancel(s.helper) ==> !s.cancelFile)
    && (s.helperAlive && (s.helper.Owning? || s.helper.Replacing?) ==> s.owner.Helper?)
    && (s.owner.Application? ==> s.appAlive)
    && (s.helper.Owning? || s.helper.Replacing? || s.helper.Replaced? ==> !s.abandoned)
  }

  /** READY is written with the mutex open, and nothing is handed off before. */
  ghost predicate HandedInOrder(s: Sys) {
    && (s.handedOff ==> s.readyFile)
    && (s.readyFile ==> !s.helper.Validating? && !s.helper.MutexOpen?)
    && (HoldsHandle(s) || s.owner.Application? ==> s.mutexExists)
  }

  lemma HandsInOrder(s: Sys, a: Act)
    requires HandedInOrder(s) && Enabled(s, a)
    ensures HandedInOrder(Step(s, a))
  {
  }

  lemma InitInv(s: Sys)
    requires Init(s)
    ensures Inv(s)
  {
  }

  lemma StepInv(s: Sys, a: Act)
    requires Inv(s) && Enabled(s, a)
    ensures Inv(Step(s, a))
  {
  }

  lemma {:induction false} RunInv(run: seq<Sys>, k: nat)
    requires IsRun(run) && k < |run|
    ensures Inv(run[k])
  {
    hide Enabled, Step, Inv;
    if k == 0 {
      InitInv(run[0]);
    } else {
      RunInv(run, k - 1);
      assert Next(run[k - 1], run[k]);
      var a :| Enabled(run[k - 1], a) && run[k] == Step(run[k - 1], a);
      StepInv(run[k - 1], a);
    }
  }

  predicate Touches(s: Sys) {
    s.helper.Replacing? || s.helper.Replaced?
  }

  /** Files are replaced only after the application has ended in order, and only by the
      owner of the reservation. */
  lemma ReplacesAlone(run: seq<Sys>, k: nat)
    requires IsRun(run) && k < |run|
    ensures Touches(run[k]) ==> !run[k].appAlive && !run[k].abandoned
    ensures run[k].helperAlive && run[k].helper.Replacing? ==> run[k].owner.Helper?
  {
    RunInv(run, k);
  }

  /** The application hands off only to a helper that has the mutex open, and from there on
      the mutex exists for as long as the helper goes on, also across the exit. */
  lemma HandsOffToHolder(run: seq<Sys>, k: nat)
    requires IsRun(run) && k < |run|
    ensures run[k].handedOff ==> run[k].readyFile && !run[k].helper.Validating? && !run[k].helper.MutexOpen?
    ensures run[k].owner.Application? || HoldsHandle(run[k]) ==> run[k].mutexExists
  {
    RunHandsInOrder(run, k);
  }

  lemma {:induction false} RunHandsInOrder(run: seq<Sys>, k: nat)
    requires IsRun(run) && k < |run|
    ensures HandedInOrder(run[k])
  {
    hide Enabled, Step;
    if k > 0 {
      RunHandsInOrder(run, k - 1);
      assert Next(run[k - 1], run[k]);
      var a :| Enabled(run[k - 1], a) && run[k] == Step(run[k - 1], a);
      HandsInOrder(run[k - 1], a);
    }
  }

  lemma StepMonotone(s: Sys, a: Act)
    requires Enabled(s, a)
    ensures s.cancelFile ==> Step(s, a).cancelFile
    ensures Step(s, a).appAlive ==> s.appAlive
    ensures Step(s, a).cancelFile && !s.cancelFile ==> s.appAlive
    ensures Enabled(s, a) && Next(s, Step(s, a))
  {
  }

  lemma {:induction false} Monotone(run: seq<Sys>, j: nat, k: nat)
    requires IsRun(run) && j <= k < |run|
    ensures run[j].cancelFile ==> run[k].cancelFile
    ensures run[k].appAlive ==> run[j].appAlive
    ensures Touches(run[j]) ==> !run[j].appAlive
    decreases k - j
  {
    RunInv(run, j);
    if j < k {
      hide Enabled, Step, Inv;
      assert Next(run[j], run[j + 1]);
      var a :| Enabled(run[j], a) && run[j + 1] == Step(run[j], a);
      StepMonotone(run[j], a);
      Monotone(run, j + 1, k);
    }
  }

  /** A cancellation that was written at any time, also after READY was seen, means
      that the helper never replaces a file, neither before nor after. */
  lemma {:induction false} CancelledNeverReplaces(run: seq<Sys>, k: nat, j: nat)
    requires IsRun(run) && k < |run| && j < |run| && run[k].cancelFile
    ensures !Touches(run[j])
  {
    if k <= j {
      Monotone(run, k, j);
      RunInv(run, j);
    } else {
      var i := FirstCancel(run, k);
      if j <= i {
        Monotone(run, j, i);
      } else {
        Monotone(run, i + 1, j);
        RunInv(run, j);
      }
    }
  }

  /** The step that wrote the file was the application's own. */
  lemma {:induction false} FirstCancel(run: seq<Sys>, k: nat) returns (i: nat)
    requires IsRun(run) && k < |run| && run[k].cancelFile
    ensures i < k && run[i].appAlive && run[i + 1].cancelFile
  {
    hide Enabled, Step;
    assert Next(run[k - 1], run[k]);
    var a :| Enabled(run[k - 1], a) && run[k] == Step(run[k - 1], a);
    StepMonotone(run[k - 1], a);
    if run[k - 1].cancelFile {
      i := FirstCancel(run, k - 1);
    } else {
      i := k - 1;
    }
  }

  lemma Extend(run: seq<Sys>, a: Act) returns (run': seq<Sys>)
    requires IsRun(run) && Enabled(run[|run| - 1], a)
    ensures IsRun(run') && run'[|run'| - 1] == Step(run[|run| - 1], a)
  {
    hide Step;
    run' := run + [Step(run[|run| - 1], a)];
    assert Next(run'[|run| - 1], run'[|run|]);
  }

  /** Without a cancellation the replacement can be reached. */
  lemma ReplacementReachable()
    ensures exists run :: IsRun(run) && Touches(run[|run| - 1])
  {
    hide IsRun;
    var run := [Sys(true, false, true, Application, false, false, false, Validating, true)];
    Starts(run[0]);
    run := Extend(run, OpenMutex);
    run := Extend(run, WriteReady);
    run := Extend(run, ReleaseMutex);
    run := Extend(run, AppEnd);
    run := Extend(run, SeeExit);
    run := Extend(run, Recheck);
    run := Extend(run, Acquire);
    run := Extend(run, Replace);
  }

  lemma Starts(s: Sys)
    requires Init(s)
    ensures IsRun([s])
  {
  }
}
