/** The application's update controller: two threads that only exchange queued
    tasks. The public methods and the two queues may be driven in any order. */
module Controllers {
  import opened Wrappers

  datatype State = Idle | Preparing | Waiting | ExitCommitted | Cancelled | Failed

  /** What waits on the worker thread. */
  datatype Work =
    | StartSession(gen: nat)
    | CommitSession(gen: nat)
    | CancelSession(gen: nat) // and then have the reservation released
    | DiscardSession

  /** What waits on the GUI thread. */
  datatype Done =
    | StartFinished(gen: nat, ok: bool)
    | CommitFinished(gen: nat, ok: bool)
    | ReleaseReservation(gen: nat)

  /** One request on its way through both queues, on whichever side it is. */
  datatype Item = Start(gen: nat) | Commit(gen: nat) | Rel(gen: nat)

  function ItemOfDone(d: Done): (i: Item) {
    match d
    case StartFinished(g, _) => Start(g)
    case CommitFinished(g, _) => Commit(g)
    case ReleaseReservation(g) => Rel(g)
  }

  function ItemsOfDone(ds: seq<Done>): (items: seq<Item>)
    ensures |items| == |ds|
    ensures forall k :: 0 <= k < |ds| ==> items[k] == ItemOfDone(ds[k])
  {
    seq(|ds|, k requires 0 <= k < |ds| => ItemOfDone(ds[k]))
  }

  function ItemOfWork(w: Work): (items: seq<Item>) {
    match w
    case StartSession(g) => [Start(g)]
    case CommitSession(g) => [Commit(g)]
    case CancelSession(g) => [Rel(g)]
    case DiscardSession => []
  }

  function ItemsOfWork(ws: seq<Work>): (items: seq<Item>) {
    if ws == [] then [] else ItemOfWork(ws[0]) + ItemsOfWork(ws[1..])
  }

  lemma {:induction false} WorkSnoc(ws: seq<Work>, w: Work)
    ensures ItemsOfWork(ws + [w]) == ItemsOfWork(ws) + ItemOfWork(w)
  {
    if ws == [] {
      assert [w][1..] == [];
    } else {
      WorkSnoc(ws[1..], w);
      assert (ws + [w])[1..] == ws[1..] + [w];
    }
  }

  // ------------------------------------------------------- what the pipeline says

  /** Requests of the current generation are there only while their state lasts. */
  ghost predicate Current(p: seq<Item>, state: State, generation: nat, commitPending: bool) {
    && (forall k :: 0 <= k < |p| ==> p[k].gen <= generation)
    && (forall k :: 0 <= k < |p| && p[k] == Start(generation) ==> state.Preparing?)
    && (forall k :: 0 <= k < |p| && p[k] == Commit(generation) ==> state.Waiting? && commitPending)
    && (forall j, k :: 0 <= j < k < |p| && !p[j].Rel? && p[j].gen == generation ==> p[k] != p[j])
    && (commitPending ==> state.Waiting? && Commit(generation) in p)
  }

  /** A stale commit is never behind the start of a newer generation, and is gone once
      that start has been answered. */
  ghost predicate StaleCommitsFirst(p: seq<Item>, state: State, generation: nat) {
    && (state.Preparing? ==> Start(generation) in p)
    && (forall j, k :: 0 <= j < k < |p| && p[j] == Start(generation) && state.Preparing? ==> !p[k].Commit?)
    && (forall j :: 0 <= j < |p| && p[j].Commit? && state.Waiting? ==> p[j].gen == generation)
  }

  /** A posted release is the only one, belongs to the current generation and finds the
      reservation still held. */
  ghost predicate OneRelease(p: seq<Item>, state: State, generation: nat, held: bool) {
    && (forall k :: 0 <= k < |p| && p[k].Rel? ==> state.Cancelled? && held && p[k].gen == generation)
    && (forall j, k :: 0 <= j < k < |p| && p[j].Rel? ==> !p[k].Rel?)
    && (held ==> state.Preparing? || state.Waiting? || state.ExitCommitted? || Rel(generation) in p)
    && (state.Preparing? || state.Waiting? || state.ExitCommitted? ==> held)
  }

  ghost predicate Pipeline(p: seq<Item>, state: State, generation: nat, commitPending: bool, held: bool) {
    && Current(p, state, generation, commitPending) && StaleCommitsFirst(p, state, generation)
    && OneRelease(p, state, generation, held)
  }

  lemma AddStart(p: seq<Item>, state: State, generation: nat)
    requires Pipeline(p, state, generation, false, false)
    ensures Pipeline(p + [Start(generation + 1)], Preparing, generation + 1, false, true)
  {
  }

  lemma AddCommit(p: seq<Item>, generation: nat)
    requires Pipeline(p, Waiting, generation, false, true)
    ensures Pipeline(p + [Commit(generation)], Waiting, generation, true, true)
  {
  }

  /** Cancelling makes every pending request stale and posts the one release. */
  lemma AddRelease(p: seq<Item>, state: State, generation: nat, pending: bool)
    requires Pipeline(p, state, generation, pending, true) && (state.Preparing? || state.Waiting?)
    ensures Pipeline(p + [Rel(generation + 1)], Cancelled, generation + 1, false, true)
  {
  }

  /** So does losing the preparation, which releases at once. */
  lemma GiveUp(p: seq<Item>, state: State, generation: nat, pending: bool)
    requires Pipeline(p, state, generation, pending, true) && (state.Preparing? || state.Waiting?)
    ensures Pipeline(p, Failed, generation + 1, false, false)
  {
  }

  lemma GiveUpWaiting(p: seq<Item>, generation: nat)
    requires Pipeline(p, Waiting, generation, false, true)
    ensures Pipeline(p, Failed, generation, false, false)
  {
  }

  lemma Shorter(p: seq<Item>, q: seq<Item>)
    requires p != [] && q == p[1..]
    ensures forall k :: 0 <= k < |q| ==> q[k] == p[k + 1]
    ensures forall k :: 0 < k < |p| ==> p[k] == q[k - 1]
    ensures forall i :: i in q ==> i in p
    ensures forall i :: i in p && i != p[0] ==> i in q
  {
  }

  /** A stale answer: nothing but its own place in the queue changes. */
  lemma StaleGone(p: seq<Item>, q: seq<Item>, state: State, generation: nat, pending: bool, held: bool)
    requires p != [] && q == p[1..] && Pipeline(p, state, generation, pending, held)
    requires p[0].gen != generation || (p[0].Start? && !state.Preparing?) || (p[0].Commit? && !state.Waiting?)
    ensures !p[0].Rel? && !(p[0].Commit? && state.Waiting?)
    ensures Pipeline(q, state, generation, pending, held)
  {
    Shorter(p, q);
  }

  /** The answer to the current start: nothing stale is left that could be mistaken. */
  lemma StartAnswered(p: seq<Item>, q: seq<Item>, generation: nat)
    requires p != [] && q == p[1..] && p[0] == Start(generation) && Pipeline(p, Preparing, generation, false, true)
    ensures Pipeline(q, Waiting, generation, false, true)
    ensures Pipeline(q, Failed, generation, false, false)
  {
    Shorter(p, q);
  }

  lemma CommitAnswered(p: seq<Item>, q: seq<Item>, generation: nat)
    requires p != [] && q == p[1..] && p[0] == Commit(generation) && Pipeline(p, Waiting, generation, true, true)
    ensures Pipeline(q, ExitCommitted, generation, false, true)
    ensures Pipeline(q, Failed, generation, false, false)
  {
    Shorter(p, q);
  }

  lemma Released(p: seq<Item>, q: seq<Item>, state: State, generation: nat, pending: bool, held: bool)
    requires p != [] && q == p[1..] && p[0].Rel? && Pipeline(p, state, generation, pending, held)
    ensures p[0].gen == generation && held && state.Cancelled? && !pending
    ensures Pipeline(q, Cancelled, generation, false, false)
  {
    Shorter(p, q);
  }

  /** The completion that a request posts to the GUI thread, if it posts one. */
  function Completion(w: Work, started: bool, sent: bool): (posts: seq<Done>)
    ensures ItemsOfDone(posts) == ItemOfWork(w)
  {
    match w
    case StartSession(g) => [StartFinished(g, started)]
    case CommitSession(g) => [CommitFinished(g, sent)]
    case CancelSession(g) => [ReleaseReservation(g)]
    case DiscardSession => []
  }

  lemma EmptyPipeline()
    ensures ItemsOfDone([]) + ItemsOfWork([]) == [] && Pipeline([], Idle, 0, false, false)
  {
  }

  /** What the worker posts stands for the same request. */
  lemma Carried(gui: seq<Done>, worker: seq<Work>, posts: seq<Done>)
    requires worker != [] && ItemsOfDone(posts) == ItemOfWork(worker[0])
    ensures ItemsOfDone(gui + posts) + ItemsOfWork(worker[1..]) == ItemsOfDone(gui) + ItemsOfWork(worker)
  {
    hide ItemOfWork;
    var a, b, c := ItemsOfDone(gui), ItemsOfDone(posts), ItemsOfWork(worker[1..]);
    assert ItemsOfWork(worker) == b + c;
    hide ItemsOfWork;
    assert ItemsOfDone(gui + posts) == a + b;
    assert (a + b) + c == a + (b + c);
  }

  // --------------------------------------------------------------- the controller

  /** What the application and the platform answer to begin. */
  datatype BeginAnswers = BeginAnswers(factory: bool, prepared: bool, reserved: bool, session: bool)

  class Controller {
    var state: State
    var generation: nat
    var session: bool          // a coordination session is attached
    var commitPending: bool
    var reservationHeld: bool
    var committed: bool
    var prepared: bool         // the application's exit preparation
    var gui: seq<Done>
    var worker: seq<Work>
    ghost var taken: nat       // successful reserveUpdate calls
    ghost var released: nat    // cancelUpdate calls
    ghost var exits: nat       // successful commitApplicationExit calls
    ghost var begun: set<nat>  // generations whose session was really started
    ghost var told: set<nat>   // generations whose session really sent CommitExit
    ghost var calls: seq<nat>  // the generation of every commitApplicationExit call
    ghost var revoked: set<nat> // generations that were cancelled or lost their preparation

    ghost function Requests(): (p: seq<Item>)
      reads this
    {
      ItemsOfDone(gui) + ItemsOfWork(worker)
    }

    /** One call for a generation at most, and none for a revoked one. */
    ghost predicate CallsRecorded()
      reads this`calls, this`generation, this`revoked, this`exits
    {
      && (forall i, j :: 0 <= i < j < |calls| ==> calls[i] < calls[j])
      && (forall g :: g in calls ==> g <= generation && g !in revoked)
      && exits <= |calls|
    }

    /** The answers on their way and what was made of those that came are true. */
    ghost predicate Truthful()
      reads this`gui, this`begun, this`told, this`calls
    {
      && (forall k :: 0 <= k < |gui| ==> TrueAnswer(gui[k]))
      && (forall g :: g in calls ==> g in told)
    }

    ghost predicate Earned()
      reads this`begun, this`calls, this`state, this`generation
    {
      && (state.Waiting? || state.ExitCommitted? ==> generation in begun)
      && (state.ExitCommitted? ==> generation in calls)
    }

    ghost predicate TrueAnswer(d: Done)
      reads this`begun, this`told
    {
      match d
      case StartFinished(g, ok) => ok ==> g in begun
      case CommitFinished(g, ok) => ok ==> g in told
      case ReleaseReservation(_) => true
    }

    ghost predicate Valid()
      reads this
    {
      && Truthful() && Earned()
      && Pipeline(Requests(), state, generation, commitPending, reservationHeld)
      && CallsRecorded() && (state.Preparing? || state.Waiting? ==> generation !in calls)
      && (state.Preparing? || state.Waiting? ==> session)
      && (committed <==> state.ExitCommitted?)
      && taken == released + (if reservationHeld then 1 else 0)
      && exits == (if committed then 1 else 0)
      && (state.Preparing? || state.Waiting? || state.ExitCommitted? ==> generation !in revoked)
      && (forall g :: g in revoked ==> g <= generation)
    }

    constructor ()
      ensures Valid() && state == Idle && gui == [] && worker == [] && taken == released == exits == 0 && calls == []
    {
      state, generation, session, commitPending := Idle, 0, false, false;
      reservationHeld, committed, prepared := false, false, false;
      gui, worker := [], [];
      taken, released, exits, calls, revoked := 0, 0, 0, [], {};
      begun, told := {}, {};
      new;
      EmptyPipeline();
    }

    method Post(w: Work)
      modifies this`worker
      ensures worker == old(worker) + [w] && Requests() == old(Requests()) + ItemOfWork(w)
    {
      WorkSnoc(worker, w);
      worker := worker + [w];
    }

    method Begin(a: BeginAnswers) returns (ok: bool)
      requires Valid()
      modifies this
      ensures Valid() && gui == old(gui)
      ensures ok <==> !(old(state).Preparing? || old(state).Waiting? || old(committed) || old(reservationHeld))
                      && a == BeginAnswers(true, true, true, true)
      ensures ok ==> state.Preparing? && reservationHeld && taken == old(taken) + 1 && generation == old(generation) + 1
      ensures !ok ==> generation == old(generation) && reservationHeld == old(reservationHeld) && worker == old(worker)
      ensures state == if ok then Preparing
        else if old(state).Preparing? || old(state).Waiting? || old(committed) || old(reservationHeld) then old(state)
        else Failed
      ensures begun == old(begun) && told == old(told)
      ensures revoked == old(revoked) && exits == old(exits) && calls == old(calls) && generation >= old(generation)
    {
      hide Pipeline, ItemsOfWork, ItemsOfDone, Truthful;
      ok := false;
      if state.Preparing? || state.Waiting? || committed {
        return;
      }
      if reservationHeld {
        return; // the previous cancellation is still releasing the reservation
      }
      StartsIdle();
      if !a.factory || !a.prepared {
        state := Failed;
        return;
      }
      if !a.reserved {
        prepared := false;
        state := Failed;
        return;
      }
      taken := taken + 1;
      if !a.session {
        released := released + 1;
        prepared := false;
        state := Failed;
        return;
      }
      AddStart(Requests(), state, generation);
      prepared, reservationHeld, session, state := true, true, true, Preparing;
      generation := generation + 1;
      Post(StartSession(generation));
      return true;
    }

    /** With nothing held, a refusal may leave any of these states. */
    lemma StartsIdle()
      requires Valid() && !reservationHeld
      ensures !commitPending && Pipeline(Requests(), Failed, generation, false, false)
    {
    }

    /** Late completions can never commit the exit afterwards. */
    method Cancel()
      requires Valid()
      modifies this
      ensures Valid() && gui == old(gui) && exits == old(exits) && calls == old(calls)
      ensures generation >= old(generation)
      ensures old(state).Preparing? || old(state).Waiting? ==>
        && state.Cancelled? && old(generation) in revoked && generation == old(generation) + 1
        && !prepared && !commitPending
      ensures !(old(state).Preparing? || old(state).Waiting?) ==> state == old(state) && worker == old(worker)
      ensures old(revoked) <= revoked && reservationHeld == old(reservationHeld)
      ensures begun == old(begun) && told == old(told)
    {
      hide Pipeline, ItemsOfWork, ItemsOfDone, Truthful;
      if !state.Preparing? && !state.Waiting? {
        return;
      }
      HeldWhileActive();
      AddRelease(Requests(), state, generation, commitPending);
      revoked := revoked + {generation};
      generation := generation + 1;
      commitPending, prepared := false, false;
      session := false;
      Post(CancelSession(generation));
      state := State.Cancelled;
    }

    lemma HeldWhileActive()
      requires Valid()
      ensures state.Preparing? || state.Waiting? ==> reservationHeld
      ensures commitPending ==> state.Waiting?
    {
    }

    method CommitExit(canCommit: bool) returns (ok: bool)
      requires Valid()
      modifies this
      ensures Valid() && gui == old(gui) && generation == old(generation)
      ensures exits == old(exits) && calls == old(calls)
      ensures ok <==> old(state).Waiting? && !old(commitPending) && old(prepared) && canCommit
      ensures ok ==> commitPending && worker == old(worker) + [CommitSession(generation)]
      ensures state == if old(state).Waiting? && !old(commitPending) && !ok then Failed else old(state)
      ensures reservationHeld <==> old(reservationHeld) && (state.Failed? ==> old(state).Failed?)
      ensures revoked == old(revoked) && begun == old(begun) && told == old(told)
    {
      hide Pipeline, ItemsOfWork, ItemsOfDone, Truthful;
      ok := false;
      if !state.Waiting? || commitPending || !session {
        return;
      }
      HeldWhileActive();
      if !prepared || !canCommit {
        GiveUpWaiting(Requests(), generation);
        FailFromWaiting();
        return;
      }
      AddCommit(Requests(), generation);
      commitPending := true;
      Post(CommitSession(generation));
      return true;
    }

    /** Discards the session, releases the reservation and restores the windows. */
    method FailFromWaiting()
      requires reservationHeld && taken == released + 1 && !committed && exits == 0 && !commitPending
      requires Pipeline(Requests(), Failed, generation, false, false) && CallsRecorded()
      requires Truthful() && forall g :: g in revoked ==> g <= generation
      modifies this`session, this`reservationHeld, this`released, this`prepared, this`state, this`worker
      ensures Valid() && state.Failed? && !reservationHeld && !prepared
    {
      hide Pipeline, ItemsOfDone, ItemsOfWork;
      if session {
        Post(DiscardSession);
        assert old(Requests()) + [] == old(Requests());
        session := false;
      }
      released := released + 1;
      reservationHeld, prepared, state := false, false, Failed;
    }

    /** A participant was destroyed: the preparation is already gone. */
    method OnPreparationLost()
      requires Valid()
      modifies this
      ensures Valid() && gui == old(gui) && generation >= old(generation)
      ensures exits == old(exits) && calls == old(calls)
      ensures old(state).Preparing? || old(state).Waiting? ==>
        state.Failed? && old(generation) in revoked && generation == old(generation) + 1 && !reservationHeld
      ensures !(old(state).Preparing? || old(state).Waiting?) ==>
        state == old(state) && reservationHeld == old(reservationHeld)
      ensures old(revoked) <= revoked && begun == old(begun) && told == old(told)
    {
      hide Pipeline, ItemsOfWork, ItemsOfDone, Truthful;
      if state.Idle? || !(state.Preparing? || state.Waiting?) {
        return;
      }
      HeldWhileActive();
      GiveUp(Requests(), state, generation, commitPending);
      revoked := revoked + {generation};
      generation := generation + 1;
      commitPending := false;
      FailFromWaiting();
    }

    /** The preparation can vanish without the controller being told yet. */
    method ParticipantGone()
      requires Valid()
      modifies this`prepared
      ensures Valid() && !prepared
    {
      prepared := false;
    }

    /** The worker takes its oldest entry and posts the completion. */
    method RunWorker(started: bool, canCommit: bool, sent: bool)
      requires Valid() && worker != []
      modifies this`worker, this`gui, this`begun, this`told
      ensures Valid() && worker == old(worker)[1..] && Requests() == old(Requests())
      // what it reports is what the session answered
      ensures gui == old(gui) +
        match old(worker)[0]
        case StartSession(g) => [StartFinished(g, started && canCommit)]
        case CommitSession(g) => [CommitFinished(g, sent)]
        case CancelSession(g) => [ReleaseReservation(g)]
        case DiscardSession => []
      ensures begun == old(begun) +
        (if old(worker)[0].StartSession? && started && canCommit then {old(worker)[0].gen} else {})
      ensures told == old(told) + (if old(worker)[0].CommitSession? && sent then {old(worker)[0].gen} else {})
    {
      hide Pipeline, ItemsOfDone, ItemsOfWork;
      var w := worker[0];
      var posts := Completion(w, started && canCommit, sent);
      Carried(gui, worker, posts);
      gui := gui + posts;
      worker := worker[1..];
      begun := begun + (if w.StartSession? && started && canCommit then {w.gen} else {});
      told := told + (if w.CommitSession? && sent then {w.gen} else {});
    }

    /** The next entry is the good answer to the commit of the current generation. */
    ghost predicate CommitsExit()
      reads this
    {
      gui != [] && gui[0] == CommitFinished(generation, true) && state.Waiting?
    }

    /** The GUI thread takes its oldest entry. The exit is committed only by the answer
        to the commit of the current generation, while it is still pending. */
    method RunGui(appCommits: bool)
      requires Valid() && gui != []
      modifies this
      ensures Valid() && gui == old(gui)[1..] && generation == old(generation) && revoked == old(revoked)
      // the application is asked exactly then, and the exit is committed if it agrees
      ensures calls == old(calls) + (if old(CommitsExit()) then [generation] else [])
      ensures exits == old(exits) + (if old(CommitsExit()) && appCommits && old(prepared) then 1 else 0)
      ensures old(CommitsExit()) ==> old(commitPending) && generation !in revoked
      ensures exits > old(exits) ==> state.ExitCommitted? && reservationHeld
      // an answer to the current request decides the state, any other leaves it alone
      ensures state ==
        match old(gui)[0]
        case StartFinished(g, ok) =>
          if g == generation && old(state).Preparing? then (if ok then Waiting else Failed) else old(state)
        case CommitFinished(g, ok) =>
          if g == generation && old(state).Waiting?
          then (if ok && appCommits && old(prepared) then ExitCommitted else Failed) else old(state)
        case ReleaseReservation(_) => old(state)
      ensures reservationHeld <==>
        old(reservationHeld) && (state.Failed? ==> old(state).Failed?) && !old(gui)[0].ReleaseReservation?
      ensures begun == old(begun) && told == old(told)
      // a stale completion of a commit never finds a newer commit pending
      ensures old(gui)[0].CommitFinished? && old(commitPending) ==> old(gui)[0].gen == generation
      // a posted release always finds its own generation and the reservation held
      ensures old(gui)[0].ReleaseReservation? ==> released == old(released) + 1 && !reservationHeld
    {
      hide Pipeline, ItemsOfWork;
      ghost var before := Requests();
      var d := gui[0];
      assert TrueAnswer(d);
      HeldWhileActive();
      assert before[0] == ItemOfDone(d);
      gui := gui[1..];
      assert Requests() == before[1..];
      match d {
        case StartFinished(g, ok) =>
          OnStartFinished(g, ok, before);
        case CommitFinished(g, ok) =>
          OnCommitFinished(g, ok, appCommits, before);
        case ReleaseReservation(g) =>
          Released(before, Requests(), state, generation, commitPending, reservationHeld);
          if g == generation && reservationHeld {
            released := released + 1;
            reservationHeld := false;
          }
      }
    }

    /** Everything that Valid says besides the pipeline. */
    ghost predicate Rest()
      reads this
    {
      && (state.Preparing? || state.Waiting? ==> session && reservationHeld)
      && (committed <==> state.ExitCommitted?)
      && taken == released + (if reservationHeld then 1 else 0)
      && exits == (if committed then 1 else 0)
      && (state.Preparing? || state.Waiting? || state.ExitCommitted? ==> generation !in revoked)
      && (forall g :: g in revoked ==> g <= generation)
      && CallsRecorded() && (state.Preparing? || state.Waiting? ==> generation !in calls)
      && Truthful() && Earned()
    }

    method OnStartFinished(g: nat, ok: bool, ghost before: seq<Item>)
      requires Rest() && Pipeline(before, state, generation, commitPending, reservationHeld)
      requires before != [] && before[0] == Start(g) && Requests() == before[1..] && (commitPending ==> state.Waiting?)
      requires ok ==> g in begun
      modifies this`state, this`session, this`reservationHeld, this`released, this`prepared, this`worker
      ensures Valid()
      ensures state ==
        if g == generation && old(state).Preparing? then (if ok then Waiting else Failed) else old(state)
      ensures reservationHeld <==> old(reservationHeld) && (state.Failed? ==> old(state).Failed?)
    {
      hide Pipeline, ItemsOfDone, ItemsOfWork;
      if g != generation || !state.Preparing? {
        StaleGone(before, Requests(), state, generation, commitPending, reservationHeld);
        return;
      }
      StartAnswered(before, Requests(), generation);
      if ok {
        state := Waiting;
        return;
      }
      FailFromWaiting();
    }

    lemma EarlierCalls()
      requires CallsRecorded() && generation !in calls
      ensures forall i :: 0 <= i < |calls| ==> calls[i] < generation
    {
      forall i | 0 <= i < |calls|
        ensures calls[i] < generation
      {
        assert calls[i] in calls;
      }
    }

    method OnCommitFinished(g: nat, ok: bool, appCommits: bool, ghost before: seq<Item>)
      requires Rest() && Pipeline(before, state, generation, commitPending, reservationHeld)
      requires before != [] && before[0] == Commit(g) && Requests() == before[1..] && (commitPending ==> state.Waiting?)
      requires ok ==> g in told
      modifies this`state, this`session, this`reservationHeld, this`released, this`prepared, this`worker,
               this`commitPending, this`committed, this`exits, this`calls
      ensures Valid() && !commitPending
      ensures old(commitPending) ==> g == generation
      ensures var asks := g == generation && ok && old(state).Waiting?;
        && calls == old(calls) + (if asks then [generation] else [])
        && exits == old(exits) + (if asks && appCommits && old(prepared) then 1 else 0)
        && (asks ==> old(commitPending))
        && state == (if g != generation || !old(state).Waiting? then old(state)
                     else if asks && appCommits && old(prepared) then ExitCommitted else Failed)
      ensures reservationHeld <==> old(reservationHeld) && (state.Failed? ==> old(state).Failed?)
      ensures exits > old(exits) ==> state.ExitCommitted? && reservationHeld
    {
      hide Pipeline, ItemsOfDone, ItemsOfWork;
      CommitIsCurrent(before, state, generation, commitPending, reservationHeld);
      commitPending := false;
      if g != generation || !state.Waiting? {
        StaleGone(before, Requests(), state, generation, false, reservationHeld);
        return;
      }
      CommitAnswered(before, Requests(), generation);
      if ok {
        EarlierCalls();
        calls := calls + [generation];
      }
      if !ok || !(appCommits && prepared) {
        FailFromWaiting();
        return;
      }
      committed, exits, state := true, exits + 1, ExitCommitted;
      prepared := false;
    }

    /** With both queues drained and no exit committed, the reservation is held exactly
        while the controller waits. */
    lemma Drained()
      requires Valid() && gui == [] && worker == [] && !committed
      ensures reservationHeld <==> state.Waiting?
    {
    }

    /** The exit is committed at most once, the application asked at most once for one
        generation, never for a revoked one, and only when the peer had really been told;
        so no exit is committed of which the peer does not know. */
    lemma NeverLate()
      requires Valid()
      ensures exits <= 1 && exits <= |calls|
      ensures forall i, j :: 0 <= i < j < |calls| ==> calls[i] != calls[j]
      ensures forall g :: g in calls ==> g !in revoked && g in told
      ensures exits == 1 ==> generation in begun && generation in told
      ensures exits == 1 ==> generation !in revoked && reservationHeld && taken == released + 1
      ensures exits == 0 && !reservationHeld ==> taken == released
    {
    }
  }

  /** In the pipeline of a waiting controller every commit is the current one; in every
      other state none is pending. */
  lemma CommitIsCurrent(p: seq<Item>, state: State, generation: nat, pending: bool, held: bool)
    requires p != [] && p[0].Commit? && Pipeline(p, state, generation, pending, held)
    ensures state.Waiting? ==> p[0].gen == generation && pending
    ensures !state.Waiting? ==> !pending
  {
  }
}
