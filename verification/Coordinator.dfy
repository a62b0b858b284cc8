/** The coordinating side of one handoff. Its methods may be called in any order and
    the peer may send anything; what the world answers to each call is a parameter. */
module Coordination {
  import opened Bytes
  import opened Wrappers
  import opened Protocol

  datatype Result =
    | NotCoordinated // CoordinationResult::Failed
    | WaitingForAppExit | PeerRunning | ProceedSent | Finished | ManualRestartRequired
    | Restarted | RestartFailed

  /** What a coordinator sends, in this order. */
  const OUTGOING: seq<Kind> := [Ready, CommitExit, Proceed]

  /** A prefix of the outgoing script, and then at most one Cancel. */
  ghost predicate InOrder(sent: seq<Kind>) {
    || sent <= OUTGOING
    || (|sent| > 0 && sent[|sent| - 1] == Cancel && sent[..|sent| - 1] <= OUTGOING)
  }

  /** In an ordered log, Proceed is the third message, after Ready and CommitExit. */
  ghost predicate HasProceeded(sent: seq<Kind>) {
    |sent| >= 3 && sent[2] == Proceed
  }

  /** How much of the script a live session has sent. */
  function SentCount(s: HandoffState): (n: nat)
    ensures n <= |OUTGOING|
  {
    match s
    case Connecting | Aborted => 0
    case ReadyState | AwaitingExit => 1
    case ExitCommitted => 2
    case ExitConfirmed | Completed => 3
  }

  lemma ScriptThenCancel(n: nat)
    requires n <= |OUTGOING|
    ensures InOrder(OUTGOING[..n]) && InOrder(OUTGOING[..n] + [Cancel])
  {
    var s := OUTGOING[..n];
    assert (s + [Cancel])[..n] == s;
  }

  /** The application whose real exit opens the gate. */
  class Application {
    var exited: bool

    constructor ()
      ensures !exited
    {
      exited := false;
    }

    method Exit()
      modifies this
      ensures exited
    {
      exited := true;
    }
  }

  /** What the world answers to the calls that start a composition. */
  datatype StartAnswers = StartAnswers(
    argumentsOk: bool, secretsOk: bool, applicationGiven: bool, adopted: bool, elevated: bool,
    reserved: bool, observerOk: bool, channelOk: bool, launched: bool,
    transaction: Transaction, token: Token)

  /** Everything up to the session can be had. */
  predicate Bindable(a: StartAnswers) {
    a.argumentsOk && a.secretsOk && (a.applicationGiven ==> a.adopted) && (a.reserved ==> a.observerOk)
  }

  /** What the world answers to a restart. */
  datatype RestartAnswers = RestartAnswers(
    directoryOk: bool, filesOk: bool, created: bool, adopted: bool, confirmed: bool)

  predicate Creates(a: RestartAnswers) {
    a.directoryOk && a.filesOk && a.created
  }

  /** The processes that one restart after another creates: none after an adopted one. */
  function LaunchCount(answers: seq<RestartAnswers>): (n: nat) {
    if answers == [] then 0
    else if !Creates(answers[0]) then LaunchCount(answers[1..])
    else if answers[0].adopted then 1
    else 1 + LaunchCount(answers[1..])
  }

  function FirstCreated(answers: seq<RestartAnswers>): (f: nat)
    ensures f <= |answers| && (f < |answers| ==> Creates(answers[f]))
    ensures forall i :: 0 <= i < f ==> !Creates(answers[i])
  {
    if answers == [] || Creates(answers[0]) then 0 else 1 + FirstCreated(answers[1..])
  }

  /** At most one process exactly when the first one to be created is adopted or no
      later restart would create another. */
  lemma {:induction false} OneLaunch(answers: seq<RestartAnswers>)
    ensures var f := FirstCreated(answers);
      LaunchCount(answers) <= 1 <==>
        f == |answers| || answers[f].adopted || forall j :: f < j < |answers| ==> !Creates(answers[j])
  {
    if answers != [] {
      if Creates(answers[0]) {
        NoLaunch(answers[1..]);
      } else {
        OneLaunch(answers[1..]);
        assert forall j :: 0 < j < |answers| ==> answers[j] == answers[1..][j - 1];
      }
    }
  }

  lemma {:induction false} NoLaunch(answers: seq<RestartAnswers>)
    ensures LaunchCount(answers) == 0 <==> forall j :: 0 <= j < |answers| ==> !Creates(answers[j])
  {
    if answers != [] {
      NoLaunch(answers[1..]);
      assert forall j :: 0 < j < |answers| ==> answers[j] == answers[1..][j - 1];
    }
  }

  class Coordinator {
    const application: Application
    var session: HandoffSession?
    var failed: bool
    var completeReceived: bool
    var applicationHeld: bool
    var proceedSent: bool
    var elevated: bool
    var installerChain: bool
    var finishedOk: bool
    var observerOpen: bool
    var restarted: bool
    ghost var sent: seq<Kind>    // every message given to the channel
    ghost var launches: nat      // application processes created by restart
    ghost var strays: nat        // those of them whose handle was not adopted
    ghost var peerSucceeded: bool // the peer process was seen to end with code zero

    ghost function Repr(): (objects: set<object>)
      reads this
    {
      if session == null then {this} else {this, session}
    }

    ghost function Sessions(): (objects: set<object>)
      reads this
    {
      if session == null then {} else {session}
    }

    ghost predicate Valid()
      reads Repr(), application
    {
      SessionValid() && LatchesValid()
    }

    /** A live session has sent its share of the script; InOrder survives the abort. */
    ghost predicate SessionValid()
      reads Repr()
    {
      && (session == null ==> sent == [])
      && (session != null ==> session.Valid())
      && (session != null && !failed ==>
            sent == OUTGOING[..SentCount(session.state)] && (session.state == Aborted ==> session.history == []))
      && InOrder(sent)
    }

    ghost predicate LatchesValid()
      reads Repr(), application
    {
      && (session == null ==> !completeReceived)
      && (proceedSent ==> HasProceeded(sent))
      && (!failed && HasProceeded(sent) ==> proceedSent)
      && (HasProceeded(sent) ==> application.exited)
      && (completeReceived ==> session.history == SCRIPT && HasProceeded(sent))
      && (finishedOk ==> completeReceived && peerSucceeded && !elevated)
      && (launches > 0 ==> finishedOk && installerChain && !observerOpen)
      && launches == strays + (if restarted then 1 else 0)
    }

    constructor (application: Application)
      ensures Valid() && this.application == application && session == null && sent == [] && launches == 0
      ensures !failed && !installerChain && !finishedOk && !restarted && strays == 0
    {
      this.application := application;
      session := null;
      failed, completeReceived, applicationHeld, proceedSent := false, false, false, false;
      elevated, installerChain, finishedOk, observerOpen, restarted := false, false, false, false, false;
      sent, launches, strays, peerSucceeded := [], 0, 0, false;
    }

    /** The latch: closes the channel for good. */
    method Abort()
      modifies this`failed
      ensures failed
    {
      failed := true;
    }

    /** startInstaller: the observer on the reservation is opened before the peer is
        launched, and nothing is started twice. */
    method StartInstaller(a: StartAnswers) returns (ok: bool)
      requires Valid()
      modifies this`session, this`failed, this`applicationHeld, this`elevated, this`installerChain, this`observerOpen
      ensures Valid() && fresh(Sessions() - old(Sessions())) && (old(failed) ==> failed)
      ensures ok ==> old(session) == null && session != null && installerChain && failed == old(failed)
      ensures ok ==> session.transaction == a.transaction && session.token == a.token
      ensures ok ==> session.state == (if Nonzero(a.transaction) && Nonzero(a.token) then Connecting else Aborted)
      ensures ok ==> (a.applicationGiven ==> applicationHeld) && elevated == a.elevated && (a.reserved ==> observerOpen)
      ensures ok <==> old(session) == null && Bindable(a) && a.channelOk && a.launched
      // a start that fails before there is a session can be tried again, a later one not
      ensures !ok && old(session) == null && Bindable(a) ==> session != null && failed
      ensures old(session) != null || !Bindable(a) ==> session == old(session) && failed == old(failed)
    {
      hide InOrder, Nonzero, HandoffSession.Valid;
      if session != null || !a.argumentsOk || !a.secretsOk || (a.applicationGiven && !a.adopted) {
        return false;
      }
      ok := Bind(a);
      if !ok {
        return;
      }
      session := new HandoffSession(a.transaction, a.token);
      if !a.channelOk || !a.launched {
        failed := true;
        ok := false;
      }
    }

    /** Takes hold of the application and of the reserved mutex object. */
    method Bind(a: StartAnswers) returns (ok: bool)
      requires Valid() && session == null
      modifies this`applicationHeld, this`elevated, this`installerChain, this`observerOpen
      ensures Valid() && installerChain && elevated == a.elevated
      ensures applicationHeld <==> old(applicationHeld) || a.applicationGiven
      ensures ok <==> (a.reserved ==> a.observerOk)
      ensures observerOpen <==> old(observerOpen) || (a.reserved && ok)
    {
      applicationHeld, elevated := applicationHeld || a.applicationGiven, a.elevated;
      installerChain := true;
      if a.reserved {
        if !a.observerOk {
          return false;
        }
        observerOpen := true;
      }
      return true;
    }

    predicate CanCommitExit(alive: bool)
      reads this, Repr()
    {
      session != null && !failed && session.CanExit() && alive
    }

    ghost predicate In(s: HandoffState)
      reads this, Repr()
    {
      session != null && !failed && session.state == s
    }

    /** The peer's Hello, answered by Ready. */
    method Authenticate(connected: bool, message: Option<Message>, alive: bool, delivered: bool) returns (ok: bool)
      requires Valid()
      modifies this`failed, this`sent, Sessions()
      ensures Valid()
      ensures ok <==>
        && old(In(Connecting)) && connected && alive && delivered
        && message.Some? && message.value.kind == Code(Hello) && session.Ours(message.value)
      ensures ok ==> In(ReadyState)
      ensures !ok ==> failed
    {
      hide InOrder, Nonzero, ValidMessage, HandoffSession.Valid;
      if session == null || failed || session.state != Connecting || !connected {
        Abort();
        return false;
      }
      if message.None? || message.value.kind != Code(Hello) {
        Abort();
        return false;
      }
      ok := session.Accept(message.value);
      if !ok || !alive {
        failed := true;
        return false;
      }
      sent := sent + [Ready];
      assert sent == OUTGOING[..1];
      ScriptThenCancel(1);
      if !delivered {
        Abort();
        return false;
      }
    }

    method AwaitAppExit(message: Option<Message>, alive: bool) returns (r: Result)
      requires Valid()
      modifies this`failed, Sessions()
      ensures Valid()
      ensures r.WaitingForAppExit? <==>
        && old(In(ReadyState)) && alive
        && message.Some? && message.value.kind == Code(AwaitingAppExit) && session.Ours(message.value)
      ensures r.WaitingForAppExit? ==> In(AwaitingExit)
      ensures !r.WaitingForAppExit? ==> r.NotCoordinated? && failed
    {
      hide InOrder, Nonzero, ValidMessage, HandoffSession.Valid;
      if session == null || failed || session.state != ReadyState || message.None? {
        Abort();
        return NotCoordinated;
      }
      var accepted := session.Accept(message.value);
      if !accepted || !CanCommitExit(alive) {
        failed := true;
        return NotCoordinated;
      }
      return WaitingForAppExit;
    }

    function Own(k: Kind): (m: Message)
      requires session != null
      reads this
    {
      Message(Code(k), session.transaction, session.token)
    }

    lemma OwnIsOurs(k: Kind)
      requires Valid() && session != null && session.state != Aborted
      ensures session.Ours(Own(k))
    {
    }

    method CommitExit(alive: bool, delivered: bool) returns (ok: bool)
      requires Valid()
      modifies this`failed, this`sent, Sessions()
      ensures Valid()
      ensures ok <==> old(In(AwaitingExit)) && alive && delivered
      ensures ok ==> In(ExitCommitted)
      ensures !ok ==> failed
    {
      hide InOrder, Nonzero, ValidMessage, HandoffSession.Valid;
      if !CanCommitExit(alive) {
        Abort();
        return false;
      }
      OwnIsOurs(Kind.CommitExit);
      ok := session.Accept(Own(Kind.CommitExit));
      if !ok {
        failed := true;
        return;
      }
      sent := sent + [Kind.CommitExit];
      assert sent == OUTGOING[..2];
      ScriptThenCancel(2);
      if !delivered {
        Abort();
        return false;
      }
    }

    /** Proceed goes out once, and only when the application has really exited. After
        an abort the latch is never reported again. */
    method ProceedIfExited(waitFails: bool, delivered: bool) returns (r: Result)
      requires Valid()
      modifies this`failed, this`sent, this`proceedSent, Sessions()
      ensures Valid()
      ensures old(failed) || old(session) == null ==> r.NotCoordinated? && sent == old(sent)
      ensures r.ProceedSent? ==> application.exited && sent == OUTGOING && !failed
      ensures r.ProceedSent? <==>
        || (session != null && !old(failed) && old(proceedSent))
        || (old(In(ExitCommitted)) && applicationHeld && !waitFails && application.exited && delivered)
      ensures r.PeerRunning? <==>
        old(In(ExitCommitted)) && !old(proceedSent) && applicationHeld && !waitFails && !application.exited
      ensures r.PeerRunning? ==> sent == old(sent) && In(ExitCommitted)
      ensures r in {ProceedSent, PeerRunning, NotCoordinated} && (r.NotCoordinated? ==> failed)
      ensures r.ProceedSent? && !old(proceedSent) ==> In(ExitConfirmed)
    {
      hide InOrder, Nonzero, ValidMessage, HandoffSession.Valid;
      if session == null || failed {
        Abort();
        return NotCoordinated;
      }
      if proceedSent {
        return ProceedSent;
      }
      if session.state != ExitCommitted || !applicationHeld {
        Abort();
        return NotCoordinated;
      }
      if !waitFails && !application.exited {
        return PeerRunning;
      }
      if waitFails {
        Abort();
        return NotCoordinated;
      }
      OwnIsOurs(Proceed);
      var accepted := session.Accept(Own(Proceed));
      sent := sent + [Proceed];
      assert sent == OUTGOING == OUTGOING[..3];
      ScriptThenCancel(3);
      if !delivered {
        failed := true;
        return NotCoordinated;
      }
      proceedSent := true;
      return ProceedSent;
    }

    /** Complete and then the peer's own end; success only with exit code zero. */
    method Finish(message: Option<Message>, peerEnded: bool, exitCode: Option<u32>) returns (r: Result)
      requires Valid()
      modifies this`failed, this`completeReceived, this`peerSucceeded, this`finishedOk, Sessions()
      ensures Valid()
      ensures r.Finished? <==>
        finishedOk && !failed && peerEnded && exitCode == Some(0) && !elevated && completeReceived
      ensures r.Finished? ==> session.history == SCRIPT && application.exited
      ensures r.ManualRestartRequired? ==> elevated && completeReceived && peerEnded && exitCode == Some(0)
      ensures r in {Finished, ManualRestartRequired, PeerRunning, NotCoordinated}
      // the one message, the peer's end and its exit code decide the answer
      ensures completeReceived <==>
        || old(completeReceived)
        || (old(In(ExitConfirmed))
            && message.Some? && message.value.kind == Code(Complete) && session.Ours(message.value))
      ensures r ==
        if session == null || old(failed) || !completeReceived then NotCoordinated
        else if !peerEnded then PeerRunning
        else if exitCode != Some(0) then NotCoordinated
        else if elevated then ManualRestartRequired else Finished
      ensures failed <==> old(failed) || (r.NotCoordinated? && session != null)
      ensures (old(In(ExitConfirmed))
               && message.Some? && message.value.kind == Code(Complete) && session.Ours(message.value)
               && peerEnded && exitCode == Some(0) && !elevated) ==> r.Finished?
    {
      hide InOrder, Nonzero, ValidMessage;
      if session == null || failed {
        return NotCoordinated;
      }
      if !completeReceived {
        if message.None? {
          Abort();
          return NotCoordinated;
        }
        var accepted := session.Accept(message.value);
        if !accepted || session.state != Completed {
          failed := true;
          return NotCoordinated;
        }
        assert sent == OUTGOING[..3] && session.history == SCRIPT;
        completeReceived := true;
      }
      if !peerEnded {
        return PeerRunning;
      }
      if exitCode != Some(0) {
        Abort();
        return NotCoordinated;
      }
      peerSucceeded := true;
      if elevated {
        return ManualRestartRequired;
      }
      finishedOk := true;
      return Finished;
    }

    /** Nothing but the answers stands between restart and a new process. */
    predicate MayRestart()
      reads this
    {
      installerChain && finishedOk && !failed && !elevated && !restarted
    }

    /** Creates the new application only after a finished transaction and with the
        observer closed. A process that was created and not adopted is forgotten. */
    method Restart(a: RestartAnswers) returns (r: Result)
      requires Valid()
      modifies this`observerOpen, this`launches, this`strays, this`restarted
      ensures Valid()
      ensures launches == old(launches) + (if old(MayRestart()) && Creates(a) then 1 else 0)
      ensures launches > old(launches) ==>
        !observerOpen && session.history == SCRIPT && peerSucceeded && application.exited
      ensures strays == old(strays) + (if old(MayRestart()) && Creates(a) && !a.adopted then 1 else 0)
      ensures r == if !old(MayRestart()) then NotCoordinated
        else if Creates(a) && a.adopted && a.confirmed then Restarted else RestartFailed
      ensures restarted <==> old(restarted) || (launches > old(launches) && a.adopted)
    {
      if !installerChain || !finishedOk || failed || elevated || restarted {
        return NotCoordinated;
      }
      if !a.directoryOk || !a.filesOk {
        return RestartFailed;
      }
      observerOpen := false;
      if !a.created {
        return RestartFailed;
      }
      launches := launches + 1;
      if !a.adopted {
        strays := strays + 1;
        return RestartFailed;
      }
      restarted := true;
      return if a.confirmed then Restarted else RestartFailed;
    }

    /** However often it is called. */
    method RestartRepeatedly(answers: seq<RestartAnswers>)
      requires Valid()
      modifies this`observerOpen, this`launches, this`strays, this`restarted
      ensures Valid()
      ensures launches == old(launches) + (if old(MayRestart()) then LaunchCount(answers) else 0)
    {
      hide Valid;
      for i := 0 to |answers|
        invariant Valid() && (MayRestart() ==> old(MayRestart()))
        invariant launches + (if MayRestart() then LaunchCount(answers[i..]) else 0)
               == old(launches) + (if old(MayRestart()) then LaunchCount(answers) else 0)
      {
        assert answers[i..][0] == answers[i] && answers[i..][1..] == answers[i + 1..];
        var _ := Restart(answers[i]);
      }
    }

    method Cancel(delivered: bool)
      requires Valid()
      modifies this`failed, this`sent, Sessions()
      ensures Valid() && failed
      ensures sent == if old(session) != null && !old(failed) then old(sent) + [Kind.Cancel] else old(sent)
    {
      hide InOrder, Nonzero, ValidMessage, HandoffSession.Valid;
      if session != null && !failed {
        sent := sent + [Kind.Cancel];
        ScriptThenCancel(SentCount(session.state));
        var _ := session.Accept(Own(Kind.Cancel));
      }
      failed := true;
    }

    /** Whatever has been called and received: Ready, CommitExit, Proceed as far as they
        go, then at most one Cancel and nothing more; and Proceed only to follow the
        end of the application. */
    lemma SendsInOrder()
      requires Valid()
      ensures exists n :: 0 <= n <= 3 && (sent == OUTGOING[..n] || sent == OUTGOING[..n] + [Kind.Cancel])
      ensures Proceed in sent ==> application.exited
      ensures proceedSent ==> sent[..3] == [Ready, Kind.CommitExit, Proceed]
    {
      var n := if sent <= OUTGOING then |sent| else |sent| - 1;
      assert sent == OUTGOING[..n] || sent == OUTGOING[..n] + [Kind.Cancel];
      assert Proceed in sent ==> n == 3;
    }

    lemma NotYetProceeded()
      requires Valid() && In(ExitCommitted)
      ensures !proceedSent
    {
    }

    /** The application can end at any time without disturbing the coordinator. */
    twostate lemma ExitKeepsValid()
      requires old(Valid()) && unchanged(this) && (session != null ==> unchanged(session))
      requires old(application.exited) ==> application.exited
      ensures Valid()
    {
    }

    /** The processes created are those that were not adopted and the one that was; so
        there is at most one in all exactly when at most one of these occurred. */
    lemma SingleShot()
      requires Valid()
      ensures launches == strays + (if restarted then 1 else 0)
      ensures launches <= 1 <==> strays == 0 || (strays == 1 && !restarted)
    {
    }
  }

  /** A handshake in which the world answers well. */
  method Handshake(c: Coordinator, transaction: Transaction, token: Token)
    requires c.Valid() && c.session == null && !c.failed && Nonzero(transaction) && Nonzero(token)
    modifies c
    ensures c.Valid() && fresh(c.Repr() - {c}) && c.In(ExitCommitted)
    ensures c.applicationHeld && c.installerChain && !c.elevated
    ensures c.session.transaction == transaction && c.session.token == token
    ensures c.launches == old(c.launches) && c.restarted == old(c.restarted)
  {
    hide Coordinator.Valid, Nonzero, HandoffSession.Valid, InOrder;
    var started := c.StartInstaller(
      StartAnswers(true, true, true, true, false, true, true, true, true, transaction, token));
    var ok := c.Authenticate(true, Some(Message(Code(Hello), transaction, token)), true, true);
    var r := c.AwaitAppExit(Some(Message(Code(AwaitingAppExit), transaction, token)), true);
    ok := c.CommitExit(true, true);
  }

  /** The condition is needed: a process that was created but could not be adopted is
      forgotten, and the next restart creates a second one. */
  method RestartTwice(transaction: Transaction, token: Token) returns (c: Coordinator)
    requires Nonzero(transaction) && Nonzero(token)
    ensures fresh(c) && c.launches == 2
  {
    hide Coordinator.Valid, Nonzero, HandoffSession.Valid, InOrder;
    var application := new Application();
    c := new Coordinator(application);
    Handshake(c, transaction, token);
    c.NotYetProceeded();
    label Running:
    application.Exit();
    c.ExitKeepsValid@Running();
    var r := c.ProceedIfExited(false, true);
    r := c.Finish(Some(Message(Code(Complete), transaction, token)), true, Some(0));
    r := c.Restart(RestartAnswers(true, true, true, false, false));
    r := c.Restart(RestartAnswers(true, true, true, true, true));
  }
}
