/** The three processes of one update handoff, interleaved: the application, the relay
    and the transaction engine, two message channels and the installation gate. Any
    process can fail, time out or die between any two steps, and any number of other
    processes use the gate. */
module Handoff {
  import opened Wrappers
  import opened Protocol
  import opened Gates
  import Coordination
  import Runs

  const GUI: Proc := 0
  const RELAY: Proc := 1
  const BOOTSTRAP := 0 // the relay's observer from its bootstrap
  const COORDINATOR := 1 // the relay's observer from its coordinator

  /** The application's side, from its reservation on. */
  datatype Gui =
    | GReserved | GAwaitHello | GAwaitReady | GWaiting
    | GCommitSent  // CommitExit is out, the application can still cancel
    | GCommitted   // the exit is committed
    | GCancelled   // Cancel is out, the reservation not yet released
    | GReleased

  datatype Relay =
    | RNone | RStart | ROpened | RAwaitReady | RAuthenticated
    | RAwaitHello | RAwaitPrepared | RPrepared | RAwaitCommit | RCommitted
    | RPolling | RFinishing | RCompleteSeen | RFinished
    | RReleased | RClosed | RRestarted | RFailed

  datatype Engine =
    | ENone | EStart | EAwaitReady | EPreparing | EAwaitCommit | EAwaitProceed
    | EExecuting | EEnding(code: nat)

  /** Everything sent one way over a channel, and how much of it has been received. */
  datatype Link = Link(log: seq<Kind>, read: nat)

  datatype Sys = Sys(
    gate: Gate,
    gui: Gui, guiAlive: bool, relay: Relay, relayAlive: bool, engine: Engine, engineAlive: bool, exitCode: nat,
    guiToRelay: Link, relayToGui: Link, relayToEngine: Link, engineToRelay: Link,
    answer: Option<Runs.Outcome>) // what execute has answered, once it has

  function Send(l: Link, k: Kind): (l': Link) {
    l.(log := l.log + [k])
  }

  predicate Arrived(l: Link, k: Kind) {
    l.read < |l.log| && l.log[l.read] == k
  }

  function Receive(l: Link): (l': Link) {
    l.(read := l.read + 1)
  }

  // ------------------------------------------------------------- the application

  datatype GuiAct = Launch | GuiHello | GuiReady | GuiCommit | CommitApplication | GuiCancel | GuiRelease | GuiEnd

  predicate GuiEnabled(s: Sys, a: GuiAct) {
    s.guiAlive &&
    match a
    case Launch => s.gui.GReserved?
    case GuiHello => s.gui.GAwaitHello? && Arrived(s.relayToGui, Hello)
    case GuiReady => s.gui.GAwaitReady? && Arrived(s.relayToGui, AwaitingAppExit)
    case GuiCommit => s.gui.GWaiting?
    case CommitApplication => s.gui.GCommitSent?
    case GuiCancel => !s.gui.GCommitted? && !s.gui.GCancelled? && !s.gui.GReleased?
    case GuiRelease => s.gui.GCancelled? && Enabled(s.gate, GUI, Gates.Cancel)
    case GuiEnd => true
  }

  function GuiStep(s: Sys, a: GuiAct): (s': Sys)
    requires GuiEnabled(s, a)
  {
    match a
    case Launch => s.(gui := GAwaitHello, relay := RStart, relayAlive := true)
    case GuiHello =>
      s.(gui := GAwaitReady, relayToGui := Receive(s.relayToGui), guiToRelay := Send(s.guiToRelay, Ready))
    case GuiReady => s.(gui := GWaiting, relayToGui := Receive(s.relayToGui))
    case GuiCommit => s.(gui := GCommitSent, guiToRelay := Send(s.guiToRelay, CommitExit))
    case CommitApplication => s.(gui := GCommitted)
    case GuiCancel => s.(gui := GCancelled, guiToRelay := Send(s.guiToRelay, Kind.Cancel))
    case GuiRelease => s.(gui := GReleased, gate := Apply(s.gate, GUI, Gates.Cancel))
    case GuiEnd => s.(guiAlive := false, gate := Apply(s.gate, GUI, Die))
  }

  // --------------------------------------------------------------------- the relay

  datatype RelayAct =
    | OpenObserver | RelayHello | RelayReady | StartInstaller | EngineHello | EnginePrepared | TellWaiting
    | RelayCommit | ForwardCommit | Poll | TakeComplete | EngineGone
    | ReleaseObserver | CloseObserver | CreateApplication
    | RelayFail | RelayEnd

  predicate RelayEnabled(s: Sys, a: RelayAct) {
    s.relayAlive &&
    match a
    case OpenObserver => s.relay.RStart? && Exists(s.gate)
    case RelayHello => s.relay.ROpened?
    case RelayReady => s.relay.RAwaitReady? && Arrived(s.guiToRelay, Ready)
    case StartInstaller => s.relay.RAuthenticated? && Exists(s.gate)
    case EngineHello => s.relay.RAwaitHello? && Arrived(s.engineToRelay, Hello)
    case EnginePrepared => s.relay.RAwaitPrepared? && Arrived(s.engineToRelay, AwaitingAppExit)
    case TellWaiting => s.relay.RPrepared?
    case RelayCommit => s.relay.RAwaitCommit? && Arrived(s.guiToRelay, CommitExit)
    case ForwardCommit => s.relay.RCommitted?
    case Poll => s.relay.RPolling?
    case TakeComplete => s.relay.RFinishing? && Arrived(s.engineToRelay, Complete)
    case EngineGone => s.relay.RCompleteSeen? && !s.engineAlive && s.exitCode == 0
    case ReleaseObserver => s.relay.RFinished?
    case CloseObserver => s.relay.RReleased?
    case CreateApplication => s.relay.RClosed?
    case RelayFail => true
    case RelayEnd => true
  }

  function RelayStep(s: Sys, a: RelayAct): (s': Sys)
    requires RelayEnabled(s, a)
  {
    match a
    case OpenObserver => s.(relay := ROpened, gate := Apply(s.gate, RELAY, Observe(BOOTSTRAP)))
    case RelayHello => s.(relay := RAwaitReady, relayToGui := Send(s.relayToGui, Hello))
    case RelayReady => s.(relay := RAuthenticated, guiToRelay := Receive(s.guiToRelay))
    case StartInstaller =>
      s.(relay := RAwaitHello, gate := Apply(s.gate, RELAY, Observe(COORDINATOR)),
         engine := EStart, engineAlive := true)
    case EngineHello =>
      s.(relay := RAwaitPrepared, engineToRelay := Receive(s.engineToRelay),
         relayToEngine := Send(s.relayToEngine, Ready))
    case EnginePrepared => s.(relay := RPrepared, engineToRelay := Receive(s.engineToRelay))
    case TellWaiting => s.(relay := RAwaitCommit, relayToGui := Send(s.relayToGui, AwaitingAppExit))
    case RelayCommit => s.(relay := RCommitted, guiToRelay := Receive(s.guiToRelay))
    case ForwardCommit => s.(relay := RPolling, relayToEngine := Send(s.relayToEngine, CommitExit))
    case Poll => if s.guiAlive then s else s.(relay := RFinishing, relayToEngine := Send(s.relayToEngine, Proceed))
    case TakeComplete => s.(relay := RCompleteSeen, engineToRelay := Receive(s.engineToRelay))
    case EngineGone => s.(relay := RFinished)
    case ReleaseObserver => s.(relay := RReleased, gate := Apply(s.gate, RELAY, Forget(BOOTSTRAP)))
    case CloseObserver => s.(relay := RClosed, gate := Apply(s.gate, RELAY, Forget(COORDINATOR)))
    case CreateApplication => s.(relay := RRestarted)
    case RelayFail => s.(relay := RFailed, relayToGui := Send(s.relayToGui, Failed))
    case RelayEnd => s.(relayAlive := false, gate := Apply(s.gate, RELAY, Die))
  }

  // -------------------------------------------------------------------- the engine

  datatype EngineAct =
    | SendHello | TakeReady | Prepared | TakeCommit | TakeProceed | Executed(o: Runs.Outcome)
    | EngineFail(code: nat) | EngineEnd | EngineKilled(code: nat)

  predicate EngineEnabled(s: Sys, a: EngineAct) {
    s.engineAlive &&
    match a
    case SendHello => s.engine.EStart?
    case TakeReady => s.engine.EAwaitReady? && Arrived(s.relayToEngine, Ready)
    case Prepared => s.engine.EPreparing?
    case TakeCommit => s.engine.EAwaitCommit? && Arrived(s.relayToEngine, CommitExit)
    case TakeProceed => s.engine.EAwaitProceed? && Arrived(s.relayToEngine, Proceed)
    case Executed(o) =>
      && s.engine.EExecuting?
      && (o.Applied? || o.Rejected? || o.Conflict? || o.RolledBack? || o.NeedsAuthorizedRecovery?)
    case EngineFail(code) => !s.engine.EExecuting? && !s.engine.EEnding? && code != 0
    case EngineEnd => s.engine.EEnding?
    case EngineKilled(code) => true
  }

  function EngineStep(s: Sys, a: EngineAct): (s': Sys)
    requires EngineEnabled(s, a)
  {
    match a
    case SendHello => s.(engine := EAwaitReady, engineToRelay := Send(s.engineToRelay, Hello))
    case TakeReady => s.(engine := EPreparing, relayToEngine := Receive(s.relayToEngine))
    case Prepared => s.(engine := EAwaitCommit, engineToRelay := Send(s.engineToRelay, AwaitingAppExit))
    case TakeCommit => s.(engine := EAwaitProceed, relayToEngine := Receive(s.relayToEngine))
    case TakeProceed => s.(engine := EExecuting, relayToEngine := Receive(s.relayToEngine))
    case Executed(o) =>
      s.(engine := EEnding(Runs.ExitCode(o)), answer := Some(o),
         engineToRelay := Send(s.engineToRelay, if o.Applied? then Complete else Failed))
    case EngineFail(code) => s.(engine := EEnding(code), engineToRelay := Send(s.engineToRelay, Failed))
    case EngineEnd => s.(engineAlive := false, exitCode := s.engine.code)
    case EngineKilled(code) => s.(engineAlive := false, exitCode := code)
  }

  // ------------------------------------------------------------------- the system

  datatype Act = ByGui(g: GuiAct) | ByRelay(r: RelayAct) | ByEngine(e: EngineAct) | ByOther(p: Proc, a: Gates.Action)

  predicate CanStep(s: Sys, a: Act) {
    match a
    case ByGui(g) => GuiEnabled(s, g)
    case ByRelay(r) => RelayEnabled(s, r)
    case ByEngine(e) => EngineEnabled(s, e)
    case ByOther(p, x) => p != GUI && p != RELAY && Enabled(s.gate, p, x)
  }

  function Step(s: Sys, a: Act): (s': Sys)
    requires CanStep(s, a)
  {
    match a
    case ByGui(g) => GuiStep(s, g)
    case ByRelay(r) => RelayStep(s, r)
    case ByEngine(e) => EngineStep(s, e)
    case ByOther(p, x) => s.(gate := Apply(s.gate, p, x))
  }

  /** The application has just reserved the installation and started a handoff. */
  ghost predicate Init(s: Sys) {
    && OneOwner(s.gate) && PhaseOf(s.gate, GUI).Reserved? && PhaseOf(s.gate, RELAY).Outside?
    && (forall n :: (RELAY, n) !in s.gate.observers)
    && s.gui.GReserved? && s.guiAlive && s.relay.RNone? && !s.relayAlive && s.engine.ENone? && !s.engineAlive
    && s.guiToRelay == s.relayToGui == s.relayToEngine == s.engineToRelay == Link([], 0)
    && s.answer.None?
  }

  ghost predicate NextSys(s: Sys, s': Sys) {
    exists a :: CanStep(s, a) && s' == Step(s, a)
  }

  ghost predicate IsHandoff(run: seq<Sys>) {
    && |run| > 0 && Init(run[0])
    && forall k :: 0 <= k < |run| - 1 ==> NextSys(run[k], run[k + 1])
  }

  // ------------------------------------------------------------- what always holds

  /** How far the engine has read what the coordinator sends it. */
  function ReadBy(e: Engine): (n: nat) {
    match e
    case ENone | EStart | EAwaitReady => 0
    case EPreparing | EAwaitCommit => 1
    case EAwaitProceed => 2
    case EExecuting => 3
    case EEnding(_) => 0
  }

  /** Where the relay's coordinator stands in its session, from the relay's place in its
      procedure; and so how much of its script the coordinator has sent. */
  function SessionOf(r: Relay): (state: HandoffState) {
    match r
    case RNone | RStart | ROpened | RAwaitReady | RAuthenticated | RAwaitHello => Connecting
    case RAwaitPrepared => ReadyState
    case RPrepared | RAwaitCommit | RCommitted => AwaitingExit
    case RPolling => ExitCommitted
    case RFinishing => ExitConfirmed
    case RCompleteSeen | RFinished | RReleased | RClosed | RRestarted => Completed
    case RFailed => Aborted
  }

  function SentBy(r: Relay): (n: nat) {
    Coordination.SentCount(SessionOf(r))
  }

  predicate BeforeStart(r: Relay) {
    r.RNone? || r.RStart? || r.ROpened? || r.RAwaitReady? || r.RAuthenticated?
  }

  /** The relay's procedure has passed the application's CommitExit. */
  predicate PastCommit(r: Relay) {
    || r.RCommitted? || r.RPolling? || r.RFinishing? || r.RCompleteSeen? || r.RFinished?
    || r.RReleased? || r.RClosed? || r.RRestarted?
  }

  /** The gate to execute: what the coordinator sends is in order, CommitExit is only
      forwarded, and Proceed follows the end of the application. */
  ghost predicate ProceedGuarded(s: Sys) {
    && s.relayToEngine.log <= Coordination.OUTGOING
    && (!s.relay.RFailed? ==> |s.relayToEngine.log| == SentBy(s.relay))
    && (|s.relayToEngine.log| == 3 ==> !s.guiAlive)
    && (|s.relayToEngine.log| >= 2 || PastCommit(s.relay) ==> CommitExit in s.guiToRelay.log)
    && s.relayToEngine.read <= |s.relayToEngine.log|
    && (!s.engine.EEnding? ==> s.relayToEngine.read == ReadBy(s.engine))
    && (s.engine.EEnding? && s.engine.code == 0 ==> s.relayToEngine.read == 3)
  }

  /** The engine reports Complete exactly when execute has applied the transaction, and
      ends with the code of what execute answered. */
  ghost predicate CompleteMeansApplied(s: Sys) {
    && (Complete in s.engineToRelay.log <==> s.answer == Some(Runs.Applied))
    && (s.answer.Some? ==> s.engine == EEnding(Runs.ExitCode(s.answer.value)) && s.relayToEngine.read == 3)
    && (s.answer.Some? ==> !s.answer.value.Recovered? && !s.answer.value.NothingToRecover?)
    && (s.engine.EEnding? && s.answer.None? ==> s.engine.code != 0)
    && (s.relay.RCompleteSeen? || s.relay.RFinished?
        || s.relay.RReleased? || s.relay.RClosed? || s.relay.RRestarted? ==>
          Complete in s.engineToRelay.log)
    && (s.relay.RFinished? || s.relay.RReleased? || s.relay.RClosed? || s.relay.RRestarted? ==>
          !s.engineAlive && s.exitCode == 0)
    && (BeforeStart(s.relay) ==> s.engine.ENone? && s.engineToRelay.log == [])
    && (s.engineAlive ==> !s.engine.ENone?)
  }

  /** The relay is past opening its observer and has not left finish. */
  predicate HoldsBootstrap(r: Relay) {
    !(r.RNone? || r.RStart? || r.RReleased? || r.RClosed? || r.RRestarted? || r.RFailed?)
  }

  predicate HoldsCoordinator(r: Relay) {
    (HoldsBootstrap(r) && !BeforeStart(r)) || r.RReleased?
  }

  /** Who has which handle to the mutex. */
  ghost predicate HandlesHeld(s: Sys) {
    && (s.relayAlive && HoldsBootstrap(s.relay) ==> (RELAY, BOOTSTRAP) in s.gate.observers)
    && (s.relayAlive && HoldsCoordinator(s.relay) ==> (RELAY, COORDINATOR) in s.gate.observers)
    && (s.relay.RReleased? || s.relay.RClosed? || s.relay.RRestarted? ==> (RELAY, BOOTSTRAP) !in s.gate.observers)
    && (s.relay.RClosed? || s.relay.RRestarted? ==> (RELAY, COORDINATOR) !in s.gate.observers)
    && (s.guiAlive && !s.gui.GReleased? ==> PhaseOf(s.gate, GUI).Reserved?)
    && (!s.guiAlive ==> PhaseOf(s.gate, GUI).Outside?)
    && (s.relay.RNone? ==> !s.relayAlive)
    && (s.gui.GReserved? ==> s.relay.RNone?)
    && (s.relay.RNone? ==> s.gui.GReserved? || s.gui.GCancelled? || s.gui.GReleased?)
  }

  /** The application only gets to wait, and so to commit, over a relay that holds. */
  ghost predicate CommitNeedsRelay(s: Sys) {
    && (s.relayToGui.read <= |s.relayToGui.log|)
    && (Hello in s.relayToGui.log ==> !s.relay.RNone? && !s.relay.RStart?)
    && (s.gui.GAwaitReady? || s.gui.GWaiting? || s.gui.GCommitSent? || s.gui.GCommitted? ==> Hello in s.relayToGui.log)
    && (CommitExit in s.guiToRelay.log ==> Hello in s.relayToGui.log)
  }

  ghost predicate Inv(s: Sys) {
    OneOwner(s.gate) && ProceedGuarded(s) && CompleteMeansApplied(s) && HandlesHeld(s) && CommitNeedsRelay(s)
  }

  lemma InitInv(s: Sys)
    requires Init(s)
    ensures Inv(s)
  {
  }

  /** Every step of the handoff is a step of the gate, or leaves the gate alone. */
  lemma StepIsGateStep(s: Sys, a: Act)
    requires CanStep(s, a)
    ensures Next(s.gate, Step(s, a).gate)
  {
    hide Exists, OthersLeased, Apply, Enabled;
    match a {
      case ByGui(g) =>
        if g.GuiRelease? {
          assert Enabled(s.gate, GUI, Gates.Cancel);
        } else if g.GuiEnd? {
          DieEnabled(s.gate, GUI);
        }
      case ByRelay(r) =>
        RelayGateStep(s, r);
      case _ =>
    }
  }

  lemma DieEnabled(g: Gate, p: Proc)
    ensures Enabled(g, p, Die)
  {
  }

  lemma ObserverEnabled(g: Gate, p: Proc, n: nat)
    ensures Exists(g) <==> Enabled(g, p, Observe(n))
    ensures Enabled(g, p, Forget(n))
  {
  }

  lemma RelayGateStep(s: Sys, r: RelayAct)
    requires RelayEnabled(s, r)
    ensures Next(s.gate, RelayStep(s, r).gate)
  {
    hide Exists, OthersLeased, Apply, Enabled;
    ObserverEnabled(s.gate, RELAY, BOOTSTRAP);
    ObserverEnabled(s.gate, RELAY, COORDINATOR);
    DieEnabled(s.gate, RELAY);
  }

  lemma OneOwnerNext(g: Gate, g': Gate)
    requires OneOwner(g) && Next(g, g')
    ensures OneOwner(g')
  {
    hide Enabled, Apply, OneOwner;
    if g != g' {
      var p, a :| Enabled(g, p, a) && g' == Apply(g, p, a);
      OneOwnerStep(g, p, a);
    }
  }

  lemma GuiKeeps(s: Sys, g: GuiAct)
    requires Inv(s) && GuiEnabled(s, g)
    ensures ProceedGuarded(GuiStep(s, g)) && CompleteMeansApplied(GuiStep(s, g))
    ensures HandlesHeld(GuiStep(s, g)) && CommitNeedsRelay(GuiStep(s, g))
  {
    hide Exists, OthersLeased, OneOwner;
  }

  lemma RelayKeepsOrder(s: Sys, r: RelayAct)
    requires Inv(s) && RelayEnabled(s, r)
    ensures ProceedGuarded(RelayStep(s, r))
  {
    hide Exists, OthersLeased, OneOwner, HandlesHeld, Apply, CompleteMeansApplied, CommitNeedsRelay, Enabled,
         HoldsBootstrap, HoldsCoordinator;
    EngineNotStarted(s);
  }

  lemma RelayKeepsCommit(s: Sys, r: RelayAct)
    requires Inv(s) && RelayEnabled(s, r)
    ensures CommitNeedsRelay(RelayStep(s, r))
  {
    hide Exists, OthersLeased, OneOwner, HandlesHeld, Apply, CompleteMeansApplied, ProceedGuarded, Enabled,
         HoldsBootstrap, HoldsCoordinator;
  }

  lemma EngineNotStarted(s: Sys)
    requires CompleteMeansApplied(s)
    ensures BeforeStart(s.relay) ==> s.engine.ENone?
  {
  }

  lemma RelayKeepsComplete(s: Sys, r: RelayAct)
    requires Inv(s) && RelayEnabled(s, r)
    ensures CompleteMeansApplied(RelayStep(s, r))
  {
    hide Exists, OthersLeased, OneOwner, HandlesHeld, Apply, CommitNeedsRelay, ProceedGuarded, HoldsBootstrap,
         HoldsCoordinator;
  }

  lemma RelayKeepsHandles(s: Sys, r: RelayAct)
    requires Inv(s) && RelayEnabled(s, r)
    ensures HandlesHeld(RelayStep(s, r))
  {
    hide Exists, OthersLeased, OneOwner, CompleteMeansApplied, CommitNeedsRelay, ProceedGuarded;
  }

  lemma EngineKeeps(s: Sys, e: EngineAct)
    requires Inv(s) && EngineEnabled(s, e)
    ensures ProceedGuarded(EngineStep(s, e)) && CompleteMeansApplied(EngineStep(s, e))
    ensures HandlesHeld(EngineStep(s, e)) && CommitNeedsRelay(EngineStep(s, e))
  {
    hide Exists, OthersLeased, OneOwner;
  }

  lemma OtherKeeps(s: Sys, p: Proc, x: Gates.Action)
    requires Inv(s) && p != GUI && p != RELAY && Enabled(s.gate, p, x)
    ensures HandlesHeld(s.(gate := Apply(s.gate, p, x)))
  {
    hide Exists, OthersLeased, OneOwner;
  }

  lemma StepInv(s: Sys, a: Act)
    requires Inv(s) && CanStep(s, a)
    ensures Inv(Step(s, a))
  {
    hide OneOwner, ProceedGuarded, CompleteMeansApplied, HandlesHeld, CommitNeedsRelay, Next, GuiEnabled,
         RelayEnabled, EngineEnabled, Enabled, Apply;
    StepIsGateStep(s, a);
    OneOwnerNext(s.gate, Step(s, a).gate);
    match a {
      case ByGui(g) => GuiKeeps(s, g);
      case ByRelay(r) =>
        RelayKeepsOrder(s, r);
        RelayKeepsCommit(s, r);
        RelayKeepsComplete(s, r);
        RelayKeepsHandles(s, r);
      case ByEngine(e) => EngineKeeps(s, e);
      case ByOther(p, x) =>
        OtherKeeps(s, p, x);
        GateApart(s, Step(s, a).gate);
    }
  }

  lemma GateApart(s: Sys, g: Gate)
    ensures ProceedGuarded(s.(gate := g)) == ProceedGuarded(s)
    ensures CompleteMeansApplied(s.(gate := g)) == CompleteMeansApplied(s)
    ensures CommitNeedsRelay(s.(gate := g)) == CommitNeedsRelay(s)
  {
  }

  lemma {:induction false} RunInv(run: seq<Sys>, k: nat)
    requires IsHandoff(run) && k < |run|
    ensures Inv(run[k])
  {
    hide Inv, Init, CanStep, Step;
    if k == 0 {
      InitInv(run[0]);
    } else {
      RunInv(run, k - 1);
      assert NextSys(run[k - 1], run[k]);
      var a :| CanStep(run[k - 1], a) && run[k] == Step(run[k - 1], a);
      StepInv(run[k - 1], a);
    }
  }

  // ------------------------------------------------------------- the main results

  /** The engine has taken Proceed, after which it does nothing but execute and report. */
  predicate HasExecuted(s: Sys) {
    s.engine.EExecuting? || s.relayToEngine.read == 3
  }

  /** Whatever the interleaving: once the engine is inside execute, the application that
      began the handoff has ended, after it had itself sent CommitExit. */
  lemma NeverExecutesUnderLiveApplication(run: seq<Sys>, k: nat)
    requires IsHandoff(run) && k < |run|
    ensures HasExecuted(run[k]) ==> !run[k].guiAlive && CommitExit in run[k].guiToRelay.log
    ensures run[k].engine == EEnding(0) || run[k].answer.Some? ==> HasExecuted(run[k])
  {
    hide OneOwner, HandlesHeld, CommitNeedsRelay;
    RunInv(run, k);
  }

  /** The engine's report and its exit code are the truth about its transaction: Complete
      exactly when execute has applied it, and code zero, when it ends by itself, too. */
  lemma ReportsTheTruth(run: seq<Sys>, k: nat)
    requires IsHandoff(run) && k < |run|
    ensures Complete in run[k].engineToRelay.log <==> run[k].answer == Some(Runs.Applied)
    ensures EngineEnabled(run[k], EngineEnd) ==>
      (EngineStep(run[k], EngineEnd).exitCode == 0 <==> run[k].answer == Some(Runs.Applied))
    ensures EngineEnabled(run[k], EngineEnd) && run[k].answer.Some? ==>
      EngineStep(run[k], EngineEnd).exitCode == Runs.ExitCode(run[k].answer.value)
  {
    hide OneOwner, HandlesHeld, CommitNeedsRelay, ProceedGuarded;
    RunInv(run, k);
  }

  /** And what execute answers is what is remembered of it. */
  lemma AnswerRecorded(s: Sys, a: Act)
    requires CanStep(s, a)
    ensures Step(s, a).answer == if a.ByEngine? && a.e.Executed? then Some(a.e.o) else s.answer
  {
    hide Enabled, Apply, Exists, Send, Receive, Arrived;
  }

  /** The relay is past the engine's report that it has prepared. */
  predicate PastPrepared(r: Relay) {
    r.RPrepared? || r.RAwaitCommit? || PastCommit(r)
  }

  /** Who has been told that the engine waits, and by whom. */
  ghost predicate ToldInOrder(s: Sys) {
    && (AwaitingAppExit in s.engineToRelay.log ==> Ready in s.relayToEngine.log)
    && (s.engine.EPreparing? ==> Ready in s.relayToEngine.log)
    && (PastPrepared(s.relay) || AwaitingAppExit in s.relayToGui.log ==> AwaitingAppExit in s.engineToRelay.log)
    && (s.gui.GWaiting? || s.gui.GCommitSent? || s.gui.GCommitted? ==> AwaitingAppExit in s.relayToGui.log)
    && (CommitExit in s.guiToRelay.log ==> AwaitingAppExit in s.relayToGui.log)
  }

  lemma TellsInOrder(s: Sys, a: Act)
    requires ToldInOrder(s) && CanStep(s, a)
    ensures ToldInOrder(Step(s, a))
  {
    hide Enabled, Apply, Exists;
    match a {
      case ByGui(g) => GuiTellsInOrder(s, g);
      case ByRelay(r) => RelayTellsInOrder(s, r);
      case ByEngine(e) => EngineTellsInOrder(s, e);
      case ByOther(p, x) =>
    }
  }

  lemma GuiTellsInOrder(s: Sys, g: GuiAct)
    requires ToldInOrder(s) && GuiEnabled(s, g)
    ensures ToldInOrder(GuiStep(s, g))
  {
    hide Enabled, Apply, Exists;
  }

  lemma RelayTellsInOrder(s: Sys, r: RelayAct)
    requires ToldInOrder(s) && RelayEnabled(s, r)
    ensures ToldInOrder(RelayStep(s, r))
  {
    hide Enabled, Apply, Exists;
  }

  lemma EngineTellsInOrder(s: Sys, e: EngineAct)
    requires ToldInOrder(s) && EngineEnabled(s, e)
    ensures ToldInOrder(EngineStep(s, e))
  {
    hide Enabled, Apply, Exists, PastPrepared;
  }

  /** The application commits its exit only to an engine that has prepared the update: its
      report has gone through the relay before. */
  lemma {:induction false} CommitsOnlyToPreparedEngine(run: seq<Sys>, k: nat)
    requires IsHandoff(run) && k < |run|
    ensures ToldInOrder(run[k])
    ensures CommitExit in run[k].guiToRelay.log ==> AwaitingAppExit in run[k].engineToRelay.log
  {
    hide CanStep, Step, OneOwner;
    if k > 0 {
      CommitsOnlyToPreparedEngine(run, k - 1);
      assert NextSys(run[k - 1], run[k]);
      var a :| CanStep(run[k - 1], a) && run[k] == Step(run[k - 1], a);
      TellsInOrder(run[k - 1], a);
    }
  }

  /** A new application is created only after the transaction was applied, the engine
      reported Complete and ended with code zero, and after both of the relay's observers
      were closed. */
  lemma RestartsLast(run: seq<Sys>, k: nat)
    requires IsHandoff(run) && k < |run| && run[k].relay.RRestarted?
    ensures Complete in run[k].engineToRelay.log && !run[k].engineAlive && run[k].exitCode == 0
    ensures run[k].answer == Some(Runs.Applied)
    ensures !run[k].guiAlive && CommitExit in run[k].guiToRelay.log
    ensures (RELAY, BOOTSTRAP) !in run[k].gate.observers && (RELAY, COORDINATOR) !in run[k].gate.observers
  {
    hide OneOwner, CommitNeedsRelay;
    RunInv(run, k);
  }

  /** The application has not gone back on the handoff, and if it has ended, it ended
      after committing its exit. */
  predicate Committing(s: Sys) {
    && !s.gui.GCancelled? && !s.gui.GReleased?
    && (s.guiAlive || CommitExit in s.guiToRelay.log)
  }

  predicate StillHolds(s: Sys) {
    s.guiAlive || (s.relayAlive && HoldsBootstrap(s.relay))
  }

  /** Going backwards in time, a relay that still holds held before. */
  lemma HeldBefore(s: Sys, a: Act)
    requires Inv(s) && CanStep(s, a) && Committing(s)
    requires StillHolds(Step(s, a))
    ensures StillHolds(s)
  {
    hide OneOwner, ProceedGuarded, CompleteMeansApplied, Exists, OthersLeased, Apply, Enabled;
  }

  lemma HoldingExists(s: Sys)
    requires Inv(s) && Committing(s) && StillHolds(s)
    ensures Exists(s.gate)
  {
    hide OneOwner, ProceedGuarded, CompleteMeansApplied, CommitNeedsRelay, Exists;
    if s.guiAlive {
      OwnerKeeps(s.gate, GUI);
    } else {
      ObserverKeeps(s.gate, (RELAY, BOOTSTRAP));
    }
  }

  lemma ObserverKeeps(g: Gate, o: (Proc, nat))
    requires o in g.observers
    ensures Exists(g)
  {
  }

  /** From the reservation on, across the death of the application, for as long as the
      application lives or the live relay has not left finish, the mutex exists. */
  lemma {:induction false} GateContinuity(run: seq<Sys>, k: nat, j: nat)
    requires IsHandoff(run) && k <= j < |run|
    requires forall i :: 0 <= i <= j ==> Committing(run[i])
    requires StillHolds(run[j])
    ensures StillHolds(run[k]) && Exists(run[k].gate)
    decreases j - k
  {
    hide Inv, Init, CanStep, Step, Committing, StillHolds, Exists;
    RunInv(run, k);
    if k < j {
      GateContinuity(run, k + 1, j);
      assert NextSys(run[k], run[k + 1]);
      var a :| CanStep(run[k], a) && run[k + 1] == Step(run[k], a);
      HeldBefore(run[k], a);
    }
    HoldingExists(run[k]);
  }

  /** In that window nobody's probe succeeds and nobody's claim is granted. */
  lemma GateStaysClosed(run: seq<Sys>, k: nat, j: nat, q: Proc)
    requires IsHandoff(run) && k < j < |run|
    requires forall i :: 0 <= i <= j ==> Committing(run[i])
    requires StillHolds(run[j])
    ensures PhaseOf(run[k].gate, q).Outside? ==> PhaseOf(run[k + 1].gate, q).Outside?
    ensures !Owns(PhaseOf(run[k].gate, q)) ==> !Owns(PhaseOf(run[k + 1].gate, q))
  {
    hide Inv, Init, CanStep, Step, Committing, StillHolds, Exists, Enabled, Apply;
    GateContinuity(run, k, j);
    assert NextSys(run[k], run[k + 1]);
    var a :| CanStep(run[k], a) && run[k + 1] == Step(run[k], a);
    StepIsGateStep(run[k], a);
    var g, g' := run[k].gate, run[k + 1].gate;
    if g != g' {
      var p, x :| Enabled(g, p, x) && g' == Apply(g, p, x);
      Barred(g, p, x, q);
    }
  }

  // -------------------------------------------------------------- the cancellation

  /** Cancel is the last thing the application sends. */
  lemma {:induction false} CancelledForGood(run: seq<Sys>, k: nat)
    requires IsHandoff(run) && k < |run|
    ensures Kind.Cancel in run[k].guiToRelay.log ==> run[k].gui.GCancelled? || run[k].gui.GReleased?
  {
    hide Inv, CanStep, Step;
    if k > 0 {
      CancelledForGood(run, k - 1);
      assert NextSys(run[k - 1], run[k]);
      var a :| CanStep(run[k - 1], a) && run[k] == Step(run[k - 1], a);
      CancelStep(run[k - 1], a);
    }
  }

  /** What it does to the application's messages. */
  lemma CancelStep(s: Sys, a: Act)
    requires CanStep(s, a) && (Kind.Cancel in s.guiToRelay.log ==> s.gui.GCancelled? || s.gui.GReleased?)
    ensures var s' := Step(s, a);
      && (Kind.Cancel in s'.guiToRelay.log ==> s'.gui.GCancelled? || s'.gui.GReleased?)
      && (Kind.Cancel in s.guiToRelay.log ==> s'.guiToRelay.log == s.guiToRelay.log)
  {
    hide Enabled, Apply, Exists;
  }

  lemma {:induction false} NothingAfterCancel(run: seq<Sys>, k: nat, j: nat)
    requires IsHandoff(run) && k <= j < |run| && Kind.Cancel in run[k].guiToRelay.log
    ensures run[j].guiToRelay.log == run[k].guiToRelay.log
    decreases j - k
  {
    hide Inv, Init, CanStep, Step;
    if k < j {
      NothingAfterCancel(run, k, j - 1);
      CancelledForGood(run, j - 1);
      assert NextSys(run[j - 1], run[j]);
      var a :| CanStep(run[j - 1], a) && run[j] == Step(run[j - 1], a);
      CancelStep(run[j - 1], a);
    }
  }

  /** A Cancel that is sent before CommitExit is effective: from then on, whatever
      happens, the engine never executes. */
  lemma CancelInTime(run: seq<Sys>, k: nat, j: nat)
    requires IsHandoff(run) && k <= j < |run|
    requires Kind.Cancel in run[k].guiToRelay.log && CommitExit !in run[k].guiToRelay.log
    ensures !HasExecuted(run[j])
  {
    hide IsHandoff, HasExecuted;
    NothingAfterCancel(run, k, j);
    NeverExecutesUnderLiveApplication(run, j);
  }

  /** The same system in which the application has not sent its Cancel. */
  function Uncancelled(s: Sys): (s': Sys) {
    s.(guiToRelay := WithoutCancel(s.guiToRelay))
  }

  function WithoutCancel(l: Link): (l': Link) {
    if l.log != [] && l.log[|l.log| - 1] == Kind.Cancel then Link(l.log[..|l.log| - 1], l.read) else l
  }

  lemma SameArrivals(l: Link)
    ensures forall k :: k != Kind.Cancel ==> (Arrived(l, k) <==> Arrived(WithoutCancel(l), k))
    ensures WithoutCancel(Receive(l)) == Receive(WithoutCancel(l))
  {
  }

  lemma EngineApart(s: Sys, l: Link, e: EngineAct)
    ensures EngineEnabled(s, e) <==> EngineEnabled(s.(guiToRelay := l), e)
    ensures EngineEnabled(s, e) ==> EngineStep(s.(guiToRelay := l), e) == EngineStep(s, e).(guiToRelay := l)
    ensures EngineEnabled(s, e) ==> EngineStep(s, e).guiToRelay == s.guiToRelay
  {
  }

  lemma RelayOpens(s: Sys, l: Link, r: RelayAct)
    requires forall k :: k != Kind.Cancel ==> (Arrived(s.guiToRelay, k) <==> Arrived(l, k))
    ensures RelayEnabled(s, r) <==> RelayEnabled(s.(guiToRelay := l), r)
  {
    hide Arrived, Exists;
  }

  lemma RelayApart(s: Sys, l: Link, r: RelayAct)
    requires RelayEnabled(s, r) && RelayEnabled(s.(guiToRelay := l), r)
    ensures var received := r.RelayReady? || r.RelayCommit?;
      && RelayStep(s, r).guiToRelay == (if received then Receive(s.guiToRelay) else s.guiToRelay)
      && RelayStep(s.(guiToRelay := l), r) == RelayStep(s, r).(guiToRelay := if received then Receive(l) else l)
  {
    hide Arrived, Exists, Apply, Enabled, Send, Receive;
  }

  /** One that is sent after CommitExit is ignored. A Cancel opens and closes no step of
      the relay or of the engine, and their steps do the same with it and without it:
      it only takes the place of a CommitExit that the relay is still waiting for, and
      then the relay fails as it can at any time. */
  lemma LateCancelIgnored(s: Sys, a: Act)
    requires a.ByRelay? || a.ByEngine?
    ensures CanStep(s, a) <==> CanStep(Uncancelled(s), a)
    ensures CanStep(s, a) ==> Uncancelled(Step(s, a)) == Step(Uncancelled(s), a)
  {
    hide RelayEnabled, RelayStep, EngineEnabled, EngineStep, WithoutCancel, Arrived, Receive;
    var l := WithoutCancel(s.guiToRelay);
    SameArrivals(s.guiToRelay);
    if a.ByRelay? {
      RelayOpens(s, l, a.r);
      if RelayEnabled(s, a.r) {
        RelayApart(s, l, a.r);
      }
    } else {
      EngineApart(s, l, a.e);
    }
  }

  // ---------------------------------------------------------------- a whole handoff

  lemma Extend(run: seq<Sys>, a: Act) returns (run': seq<Sys>)
    requires IsHandoff(run) && CanStep(run[|run| - 1], a)
    ensures IsHandoff(run') && |run'| == |run| + 1 && run'[|run|] == Step(run[|run| - 1], a)
  {
    hide Step, CanStep, Init;
    run' := run + [Step(run[|run| - 1], a)];
    assert NextSys(run'[|run| - 1], run'[|run|]);
  }

  function AfterReservation(): (s: Sys) {
    var none := Link([], 0);
    Sys(Gate(map[GUI := Reserved], {}), GReserved, true, RNone, false, ENone, false, 0, none, none, none, none, None)
  }

  /** The engine is prepared and the application is told so. */
  lemma PreparedReachable() returns (run: seq<Sys>)
    ensures IsHandoff(run)
    ensures var s := run[|run| - 1];
      && s == Sys(s.gate, GAwaitReady, true, RAwaitCommit, true, EAwaitCommit, true, 0, Link([Ready], 1),
                  Link([Hello, AwaitingAppExit], 1), Link([Ready], 1), Link([Hello, AwaitingAppExit], 2), None)
  {
    hide IsHandoff, Exists, OthersLeased;
    run := [AfterReservation()];
    Starts(run[0]);
    run := Extend(run, ByGui(Launch));
    OwnerKeeps(run[|run| - 1].gate, GUI);
    run := Extend(run, ByRelay(OpenObserver));
    ObserverKeeps(run[|run| - 1].gate, (RELAY, BOOTSTRAP));
    run := Extend(run, ByRelay(RelayHello));
    run := Extend(run, ByGui(GuiHello));
    run := Extend(run, ByRelay(RelayReady));
    run := Extend(run, ByRelay(StartInstaller));
    run := Extend(run, ByEngine(SendHello));
    run := Extend(run, ByRelay(EngineHello));
    run := Extend(run, ByEngine(TakeReady));
    run := Extend(run, ByEngine(Prepared));
    run := Extend(run, ByRelay(EnginePrepared));
    run := Extend(run, ByRelay(TellWaiting));
  }

  /** The application committed its exit and is gone; the engine waits for CommitExit. */
  lemma CommittedReachable() returns (run: seq<Sys>)
    ensures IsHandoff(run)
    ensures var s := run[|run| - 1];
      && s == Sys(s.gate, GCommitted, false, RPolling, true, EAwaitCommit, true, 0, Link([Ready, CommitExit], 2),
                  Link([Hello, AwaitingAppExit], 2), Link([Ready, CommitExit], 1), Link([Hello, AwaitingAppExit], 2),
                  None)
  {
    hide IsHandoff, Exists, OthersLeased;
    run := PreparedReachable();
    run := Extend(run, ByGui(GuiReady));
    run := Extend(run, ByGui(GuiCommit));
    run := Extend(run, ByRelay(RelayCommit));
    run := Extend(run, ByRelay(ForwardCommit));
    run := Extend(run, ByGui(CommitApplication));
    run := Extend(run, ByGui(GuiEnd));
  }

  lemma Starts(s: Sys)
    requires s == AfterReservation()
    ensures IsHandoff([s])
  {
    assert PhaseOf(s.gate, GUI).Reserved?;
  }

  /** The whole way to a restarted application is possible. */
  lemma RestartReachable()
    ensures exists run: seq<Sys> :: IsHandoff(run) && run[|run| - 1].relay.RRestarted?
  {
    hide IsHandoff, Exists, OthersLeased;
    var run := CommittedReachable();
    run := Extend(run, ByRelay(Poll));
    run := Extend(run, ByEngine(TakeCommit));
    run := Extend(run, ByEngine(TakeProceed));
    run := Extend(run, ByEngine(Executed(Runs.Applied)));
    run := Extend(run, ByEngine(EngineEnd));
    run := Extend(run, ByRelay(TakeComplete));
    run := Extend(run, ByRelay(EngineGone));
    run := Extend(run, ByRelay(ReleaseObserver));
    run := Extend(run, ByRelay(CloseObserver));
    run := Extend(run, ByRelay(CreateApplication));
  }

  /** And it can come too late: an application that has sent CommitExit and then Cancel,
      and then ends, has the engine execute. */
  lemma LateCancelExecutes()
    ensures exists run: seq<Sys> ::
      && IsHandoff(run) && HasExecuted(run[|run| - 1])
      && run[|run| - 1].guiToRelay.log == [Ready, CommitExit, Kind.Cancel]
  {
    hide IsHandoff, Exists, OthersLeased;
    var run := PreparedReachable();
    run := Extend(run, ByGui(GuiReady));
    run := Extend(run, ByGui(GuiCommit));
    run := Extend(run, ByGui(GuiCancel));
    run := Extend(run, ByRelay(RelayCommit));
    run := Extend(run, ByRelay(ForwardCommit));
    run := Extend(run, ByGui(GuiEnd));
    run := Extend(run, ByRelay(Poll));
    run := Extend(run, ByEngine(TakeCommit));
    run := Extend(run, ByEngine(TakeProceed));
  }
}
