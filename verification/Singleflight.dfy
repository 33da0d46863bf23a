/**
 The in-flight embedding proxy.  Callers that ask for the same key while a provider task for it
 is running share that task; the last caller to leave an unfinished task cancels it.

 The lock of the proxy is never held across a suspension point, so joining a flight and releasing
 a waiter are atomic.  What remains is the interleaving of callers, task completion and caller
 cancellation, which `Enabled` and `Next` describe one step at a time.  The class at the end updates
 the registry in place and is proved against the same two registry functions.
 */
module Singleflight {

  /** How a task, or one call of the proxy, ends. */
  datatype Outcome = Value(v: int) | Raised(e: int) | Cancelled

  /** A provider task.  `cancelAsked` records that the proxy has called cancel on it. */
  datatype Task = Task(key: string, done: bool, outcome: Outcome, cancelAsked: bool)

  /** A registered flight.  Each flight owns one task, so the task number identifies the flight. */
  datatype FlightView = FlightView(task: nat, waiters: int)

  type Registry = map<string, FlightView>

  /** One call of the proxy.  `interrupted` tells a caller that was itself cancelled. */
  datatype Caller =
    | Waiting(key: string, task: nat)
    | Collecting(key: string, task: nat)
    | Finished(key: string, task: nat, outcome: Outcome, interrupted: bool, collected: bool)

  datatype State = State(inflight: Registry, tasks: seq<Task>, callers: map<nat, Caller>)

  const Init := State(map[], [], map[])

  /** The registry after a caller of `key` has joined; `newTask` is the task to start if there is none. */
  function JoinRegistry(r: Registry, key: string, newTask: nat): Registry {
    if key in r then r[key := r[key].(waiters := r[key].waiters + 1)]
    else r[key := FlightView(newTask, 1)]
  }

  /** True when the flight that `task` belongs to is the one registered under `key`. */
  predicate IsCurrent(r: Registry, key: string, task: nat) {
    key in r && r[key].task == task
  }

  /** True when releasing one waiter of this flight takes the flight off the registry. */
  predicate LastWaiter(r: Registry, key: string, task: nat) {
    IsCurrent(r, key, task) && r[key].waiters - 1 <= 0
  }

  /** The registry after one waiter of the flight has been released. */
  function ReleaseRegistry(r: Registry, key: string, task: nat): Registry {
    if !IsCurrent(r, key, task) then r
    else if LastWaiter(r, key, task) then r - {key}
    else r[key := r[key].(waiters := r[key].waiters - 1)]
  }

  datatype Label =
    | Join(caller: nat, key: string)               // enter the proxy
    | Complete(task: nat, outcome: Outcome)        // the provider task ends, in any way
    | Leave(caller: nat, interrupted: bool)        // stop waiting and release, normally or cancelled
    | Collect(caller: nat, interrupted: bool)      // stop waiting for a cancelled task to wind up

  predicate Enabled(s: State, l: Label) {
    match l
    case Join(c, _) => c !in s.callers
    case Complete(t, _) => t < |s.tasks| && !s.tasks[t].done
    case Leave(c, interrupted) =>
      c in s.callers && s.callers[c].Waiting? && s.callers[c].task < |s.tasks|
      && (interrupted || s.tasks[s.callers[c].task].done)
    case Collect(c, interrupted) =>
      c in s.callers && s.callers[c].Collecting? && s.callers[c].task < |s.tasks|
      && (interrupted || s.tasks[s.callers[c].task].done)
  }

  function Next(s: State, l: Label): State
    requires Enabled(s, l)
  {
    match l
    case Join(c, k) =>
      var t := if k in s.inflight then s.inflight[k].task else |s.tasks|;
      State(JoinRegistry(s.inflight, k, |s.tasks|),
            if k in s.inflight then s.tasks else s.tasks + [Task(k, false, Cancelled, false)],
            s.callers[c := Waiting(k, t)])
    case Complete(t, o) =>
      s.(tasks := s.tasks[t := s.tasks[t].(done := true, outcome := o)])
    case Leave(c, interrupted) =>
      var k, t := s.callers[c].key, s.callers[c].task;
      var collect := LastWaiter(s.inflight, k, t) && !s.tasks[t].done;
      var result := if interrupted then Cancelled else s.tasks[t].outcome;
      State(ReleaseRegistry(s.inflight, k, t),
            if collect then s.tasks[t := s.tasks[t].(cancelAsked := true)] else s.tasks,
            s.callers[c := if collect then Collecting(k, t) else Finished(k, t, result, interrupted, false)])
    case Collect(c, interrupted) =>
      // Only a cancelled caller leaves an unfinished task behind, so it ends as cancelled either way.
      s.(callers := s.callers[c := Finished(s.callers[c].key, s.callers[c].task, Cancelled, true, !interrupted)])
  }

  /** The callers between joining this flight and releasing it. */
  ghost function Waiters(s: State, key: string, task: nat): set<nat> {
    set c | c in s.callers && s.callers[c] == Waiting(key, task)
  }

  /** A registered flight owns a live task of its key and counts its waiters, at least one, exactly. */
  ghost predicate FlightOk(s: State, k: string)
    requires k in s.inflight
  {
    var f := s.inflight[k];
    && f.task < |s.tasks|
    && s.tasks[f.task].key == k
    && !s.tasks[f.task].cancelAsked
    && f.waiters == |Waiters(s, k, f.task)|
    && f.waiters >= 1
  }

  ghost predicate CountsExact(s: State) {
    forall k :: k in s.inflight ==> FlightOk(s, k)
  }

  /** What the state says about one caller. */
  ghost predicate CallerOk(s: State, c: Caller) {
    c.task < |s.tasks| && s.tasks[c.task].key == c.key &&
    match c
    case Waiting(k, t) => IsCurrent(s.inflight, k, t)
    case Collecting(k, t) => s.tasks[t].cancelAsked
    case Finished(k, t, o, interrupted, collected) =>
      && (interrupted ==> o == Cancelled)
      && (!interrupted ==> s.tasks[t].done && s.tasks[t].outcome == o)
      && (collected ==> s.tasks[t].done)
  }

  ghost predicate CallersOk(s: State) {
    forall c :: c in s.callers ==> CallerOk(s, s.callers[c])
  }

  /** A task off the registry has ended or has been asked to. */
  ghost predicate TasksOk(s: State) {
    forall t :: 0 <= t < |s.tasks| ==>
      s.tasks[t].done || s.tasks[t].cancelAsked || IsCurrent(s.inflight, s.tasks[t].key, t)
  }

  ghost predicate Inv(s: State) {
    CountsExact(s) && CallersOk(s) && TasksOk(s)
  }

  /** Joining adds the caller to the waiters of its flight. */
  lemma JoinAddsWaiter(s: State, c: nat, k: string)
    requires c !in s.callers
    ensures var s' := Next(s, Join(c, k));
      var t := s'.inflight[k].task;
      Waiters(s', k, t) == Waiters(s, k, t) + {c} && c !in Waiters(s, k, t)
  {}

  lemma FlightAfterJoin(s: State, c: nat, k: string)
    requires Inv(s) && c !in s.callers
    ensures FlightOk(Next(s, Join(c, k)), k)
  {
    if k in s.inflight {
      assert FlightOk(s, k);
    } else {
      NewTaskUnwaited(s, k);
    }
    JoinedFlight(s, c, k);
  }

  lemma JoinedFlight(s: State, c: nat, k: string)
    requires c !in s.callers
    requires if k in s.inflight then FlightOk(s, k) else Waiters(s, k, |s.tasks|) == {}
    ensures FlightOk(Next(s, Join(c, k)), k)
  {
    JoinAddsWaiter(s, c, k);
  }

  lemma NewTaskUnwaited(s: State, k: string)
    requires Inv(s)
    ensures Waiters(s, k, |s.tasks|) == {}
  {
    forall d | d in s.callers ensures s.callers[d] != Waiting(k, |s.tasks|) {
      assert CallerOk(s, s.callers[d]);
    }
  }

  lemma OtherFlight(s: State, s': State, k: string)
    requires k in s.inflight && k in s'.inflight && s'.inflight[k] == s.inflight[k] && FlightOk(s, k)
    requires s.inflight[k].task < |s'.tasks|
    requires s'.tasks[s.inflight[k].task].key == k && !s'.tasks[s.inflight[k].task].cancelAsked
    requires forall c :: c in s.callers || c in s'.callers ==>
      (c in s.callers && s.callers[c] == Waiting(k, s.inflight[k].task)
       <==> c in s'.callers && s'.callers[c] == Waiting(k, s.inflight[k].task))
    ensures FlightOk(s', k)
  {
    assert Waiters(s', k, s.inflight[k].task) == Waiters(s, k, s.inflight[k].task);
  }

  lemma CountsAfterJoin(s: State, c: nat, k: string)
    requires Inv(s) && c !in s.callers
    ensures CountsExact(Next(s, Join(c, k)))
  {
    var s' := Next(s, Join(c, k));
    FlightAfterJoin(s, c, k);
    forall k' | k' in s'.inflight && k' != k ensures FlightOk(s', k') {
      assert FlightOk(s, k');
      OtherFlight(s, s', k');
    }
  }

  /** The leaving caller is the last waiter of its flight exactly when it is the only one. */
  lemma LastWaiterIsOnlyWaiter(s: State, c: nat)
    requires Inv(s) && c in s.callers && s.callers[c].Waiting?
    ensures LastWaiter(s.inflight, s.callers[c].key, s.callers[c].task) <==>
            Waiters(s, s.callers[c].key, s.callers[c].task) == {c}
  {
    var k, t := s.callers[c].key, s.callers[c].task;
    assert CallerOk(s, s.callers[c]);
    assert FlightOk(s, k);
    assert c in Waiters(s, k, t);
    assert |Waiters(s, k, t) - {c}| == |Waiters(s, k, t)| - 1;
    if LastWaiter(s.inflight, k, t) {
      assert Waiters(s, k, t) - {c} == {};
    }
  }

  lemma CountsAfterLeave(s: State, c: nat, interrupted: bool)
    requires Inv(s) && Enabled(s, Leave(c, interrupted))
    ensures CountsExact(Next(s, Leave(c, interrupted)))
  {
    var s' := Next(s, Leave(c, interrupted));
    var k, t := s.callers[c].key, s.callers[c].task;
    assert CallerOk(s, s.callers[c]);
    forall k' | k' in s'.inflight ensures FlightOk(s', k') {
      assert FlightOk(s, k');
      if k' == k {
        assert c in Waiters(s, k, t);
        assert Waiters(s', k, t) == Waiters(s, k, t) - {c};
      } else {
        OtherFlight(s, s', k');
      }
    }
  }

  lemma CountsAfterOther(s: State, l: Label)
    requires Inv(s) && Enabled(s, l) && (l.Complete? || l.Collect?)
    ensures CountsExact(Next(s, l))
  {
    forall k | k in s.inflight ensures FlightOk(Next(s, l), k) {
      assert FlightOk(s, k);
      OtherFlight(s, Next(s, l), k);
    }
  }

  lemma StepKeepsCallers(s: State, l: Label)
    requires Inv(s) && Enabled(s, l)
    ensures CallersOk(Next(s, l))
  {
    var s' := Next(s, l);
    forall c | c in s'.callers ensures CallerOk(s', s'.callers[c]) {
      StepKeepsCaller(s, l, c);
    }
  }

  lemma StepKeepsCaller(s: State, l: Label, c: int)
    requires Inv(s) && Enabled(s, l) && c in Next(s, l).callers
    ensures CallerOk(Next(s, l), Next(s, l).callers[c])
  {
    if c in s.callers {
      assert CallerOk(s, s.callers[c]);
    }
    if l.Leave? && c != l.caller && s.callers[c].Waiting? {
      LeaveKeepsWaiter(s, l, c);
    }
  }

  /** Another caller's departure leaves a waiting caller's flight registered. */
  lemma LeaveKeepsWaiter(s: State, l: Label, c: int)
    requires Inv(s) && Enabled(s, l) && l.Leave? && c in s.callers && c != l.caller && s.callers[c].Waiting?
    ensures CallerOk(Next(s, l), s.callers[c])
  {
    var k, t := s.callers[l.caller].key, s.callers[l.caller].task;
    assert CallerOk(s, s.callers[c]);
    assert CallerOk(s, s.callers[l.caller]);
    LastWaiterIsOnlyWaiter(s, l.caller);
    if s.callers[c].key == k {
      assert c in Waiters(s, k, t);
    }
  }

  lemma StepKeepsTasks(s: State, l: Label)
    requires Inv(s) && Enabled(s, l)
    ensures TasksOk(Next(s, l))
  {
    if l.Leave? {
      assert CallerOk(s, s.callers[l.caller]);
    }
  }

  lemma StepKeepsCounts(s: State, l: Label)
    requires Inv(s) && Enabled(s, l)
    ensures CountsExact(Next(s, l))
  {
    match l {
      case Join(c, k) => CountsAfterJoin(s, c, k);
      case Leave(c, interrupted) => CountsAfterLeave(s, c, interrupted);
      case Complete(_, _) => CountsAfterOther(s, l);
      case Collect(_, _) => CountsAfterOther(s, l);
    }
  }

  /** Every step of the protocol keeps the invariant. */
  lemma StepKeepsInv(s: State, l: Label)
    requires Inv(s) && Enabled(s, l)
    ensures Inv(Next(s, l))
  {
    StepKeepsCallers(s, l);
    StepKeepsTasks(s, l);
    StepKeepsCounts(s, l);
  }

  /** A run lists the states of an execution; each comes from the one before by an enabled step. */
  ghost predicate IsRun(states: seq<State>, labels: seq<Label>) {
    && |states| == |labels| + 1
    && states[0] == Init
    && forall i :: 0 <= i < |labels| ==> Enabled(states[i], labels[i]) && states[i + 1] == Next(states[i], labels[i])
  }

  lemma {:induction false} RunKeepsInv(states: seq<State>, labels: seq<Label>, i: nat)
    requires IsRun(states, labels) && i <= |labels|
    ensures Inv(states[i])
  {
    if i > 0 {
      RunKeepsInv(states, labels, i - 1);
      StepKeepsInv(states[i - 1], labels[i - 1]);
    }
  }

  /** In every reachable state a flight counts exactly its waiting callers, and nobody waits off the registry. */
  lemma WaiterCountIsExact(states: seq<State>, labels: seq<Label>, i: nat, key: string, task: nat)
    requires IsRun(states, labels) && i <= |labels|
    ensures IsCurrent(states[i].inflight, key, task) ==>
      states[i].inflight[key].waiters == |Waiters(states[i], key, task)| >= 1
    ensures !IsCurrent(states[i].inflight, key, task) ==> Waiters(states[i], key, task) == {}
  {
    RunKeepsInv(states, labels, i);
    forall c | c in Waiters(states[i], key, task) ensures IsCurrent(states[i].inflight, key, task) {
      assert CallerOk(states[i], states[i].callers[c]);
    }
  }

  /** The release guard for a replaced flight never fires, and a release never drives a count below zero. */
  lemma ReleaseGuardNeverTaken(states: seq<State>, labels: seq<Label>, i: nat)
    requires IsRun(states, labels) && i < |labels| && labels[i].Leave?
    ensures var c := states[i].callers[labels[i].caller];
      IsCurrent(states[i].inflight, c.key, c.task) && states[i].inflight[c.key].waiters - 1 >= 0
  {
    RunKeepsInv(states, labels, i);
    assert CallerOk(states[i], states[i].callers[labels[i].caller]);
  }

  /** The proxy asks a task to stop exactly when its only waiter leaves before the task has ended. */
  lemma CancelOnlyWithoutWaiters(states: seq<State>, labels: seq<Label>, i: nat, t: nat)
    requires IsRun(states, labels) && i < |labels| && t < |states[i].tasks|
    ensures t < |states[i + 1].tasks|
    ensures !states[i].tasks[t].cancelAsked && states[i + 1].tasks[t].cancelAsked <==>
      && labels[i].Leave?
      && states[i].callers[labels[i].caller].task == t
      && Waiters(states[i], states[i].tasks[t].key, t) == {labels[i].caller}
      && !states[i].tasks[t].done
  {
    RunKeepsInv(states, labels, i);
    if labels[i].Leave? {
      assert CallerOk(states[i], states[i].callers[labels[i].caller]);
      LastWaiterIsOnlyWaiter(states[i], labels[i].caller);
    }
  }

  /** A task the proxy has asked to stop has no waiter, now or at any later point of the run. */
  lemma {:induction false} CancelledTaskStaysUnwaited(states: seq<State>, labels: seq<Label>, i: nat, j: nat, t: nat)
    requires IsRun(states, labels) && i <= j <= |labels|
    requires t < |states[i].tasks| && states[i].tasks[t].cancelAsked
    ensures t < |states[j].tasks| && states[j].tasks[t].cancelAsked
    ensures forall c :: c in states[j].callers && states[j].callers[c].Waiting? ==> states[j].callers[c].task != t
    decreases j
  {
    RunKeepsInv(states, labels, j);
    if i < j {
      CancelledTaskStaysUnwaited(states, labels, i, j - 1, t);
    }
    forall c | c in states[j].callers && states[j].callers[c].Waiting?
      ensures states[j].callers[c].task != t
    {
      assert CallerOk(states[j], states[j].callers[c]);
    }
  }

  /** At most one task per key is running without having been asked to stop. */
  lemma OneLiveTaskPerKey(states: seq<State>, labels: seq<Label>, i: nat, t: nat, u: nat)
    requires IsRun(states, labels) && i <= |labels|
    requires t < |states[i].tasks| && u < |states[i].tasks|
    requires states[i].tasks[t].key == states[i].tasks[u].key
    requires !states[i].tasks[t].done && !states[i].tasks[t].cancelAsked
    requires !states[i].tasks[u].done && !states[i].tasks[u].cancelAsked
    ensures t == u
  {
    RunKeepsInv(states, labels, i);
  }

  /** Once a task has ended, its outcome never changes again. */
  lemma {:induction false} OutcomeIsFinal(states: seq<State>, labels: seq<Label>, j: nat, i: nat, t: nat, o: Outcome)
    requires IsRun(states, labels) && j < i <= |labels| && labels[j] == Complete(t, o)
    ensures t < |states[i].tasks| && states[i].tasks[t].done && states[i].tasks[t].outcome == o
    decreases i
  {
    if j < i - 1 {
      OutcomeIsFinal(states, labels, j, i - 1, t, o);
    }
  }

  /** A task that has ended ended with the outcome that it is recorded with. */
  lemma {:induction false} DoneWasCompleted(states: seq<State>, labels: seq<Label>, i: nat, t: nat)
    requires IsRun(states, labels) && i <= |labels| && t < |states[i].tasks| && states[i].tasks[t].done
    ensures exists j :: 0 <= j < i && labels[j] == Complete(t, states[i].tasks[t].outcome)
    decreases i
  {
    if i > 0 && labels[i - 1] != Complete(t, states[i].tasks[t].outcome) {
      DoneWasCompleted(states, labels, i - 1, t);
    }
  }

  /** A caller is known exactly from its own join on, under the key that it joined with. */
  lemma {:induction false} CallerHasJoined(states: seq<State>, labels: seq<Label>, i: nat, c: nat)
    requires IsRun(states, labels) && i <= |labels|
    ensures c in states[i].callers <==> exists j, k :: 0 <= j < i && labels[j] == Join(c, k)
    ensures c in states[i].callers ==> exists j :: 0 <= j < i && labels[j] == Join(c, states[i].callers[c].key)
    decreases i
  {
    if i > 0 {
      CallerHasJoined(states, labels, i - 1, c);
    }
  }

  /** How a caller has stopped waiting so far. */
  ghost predicate LeftAs(c: nat, caller: Caller, labels: seq<Label>, i: nat)
    requires i <= |labels|
  {
    match caller
    case Waiting(_, _) => NeitherLeftNorCollected(c, labels, i)
    case Collecting(_, _) => (exists j :: 0 <= j < i && labels[j] == Leave(c, true)) && !CollectedBy(c, labels, i)
    case Finished(_, _, _, interrupted, collected) =>
      (exists j :: 0 <= j < i && labels[j] == Leave(c, interrupted)) && (collected <==> CollectedBy(c, labels, i))
  }

  /** The caller waited for the cancelled task to wind up, without being interrupted again. */
  ghost predicate CollectedBy(c: nat, labels: seq<Label>, i: nat)
    requires i <= |labels|
  {
    exists j :: 0 <= j < i && labels[j] == Collect(c, false)
  }

  ghost predicate NeitherLeftNorCollected(c: nat, labels: seq<Label>, i: nat)
    requires i <= |labels|
  {
    forall j :: 0 <= j < i && (labels[j].Leave? || labels[j].Collect?) ==> labels[j].caller != c
  }

  /** A caller that left before any join of its own does not exist, and a caller leaves once. */
  lemma {:induction false} LeavesOnlyAfterJoin(states: seq<State>, labels: seq<Label>, i: nat, c: nat)
    requires IsRun(states, labels) && i <= |labels| && c !in states[i].callers
    ensures NeitherLeftNorCollected(c, labels, i)
    decreases i
  {
    if i > 0 {
      LeavesOnlyAfterJoin(states, labels, i - 1, c);
    }
  }

  /** Whether a caller waits, winds a task up or has ended is what its own departures say. */
  lemma {:induction false} CallerEndsAsItLeft(states: seq<State>, labels: seq<Label>, i: nat, c: nat)
    requires IsRun(states, labels) && i <= |labels| && c in states[i].callers
    ensures LeftAs(c, states[i].callers[c], labels, i)
    decreases i
  {
    if i > 0 {
      LeftStep(states, labels, i, c);
    }
  }

  lemma LeftStep(states: seq<State>, labels: seq<Label>, i: nat, c: nat)
    requires IsRun(states, labels) && 0 < i <= |labels| && c in states[i].callers
    ensures LeftAs(c, states[i].callers[c], labels, i)
    decreases i, 0
  {
    var l := labels[i - 1];
    if c !in states[i - 1].callers {
      LeavesOnlyAfterJoin(states, labels, i - 1, c);
    } else {
      CallerEndsAsItLeft(states, labels, i - 1, c);
      if l.Leave? && l.caller == c {
        assert labels[i - 1] == Leave(c, l.interrupted);
      } else if l.Collect? && l.caller == c {
        assert labels[i - 1] == Collect(c, l.interrupted);
      }
    }
  }

  /**
   A caller that was not interrupted ends with the outcome that the task of its flight ended with, and the flight
   is one of the key that it joined with; an interrupted caller ends as cancelled.
   */
  lemma CallerGetsItsFlightOutcome(states: seq<State>, labels: seq<Label>, i: nat, c: nat)
    requires IsRun(states, labels) && i <= |labels|
    requires c in states[i].callers && states[i].callers[c].Finished?
    ensures var f := states[i].callers[c];
      && f.task < |states[i].tasks| && states[i].tasks[f.task].key == f.key
      && (exists j :: 0 <= j < i && labels[j] == Join(c, f.key))
      && (exists j :: 0 <= j < i && labels[j] == Leave(c, f.interrupted))
      && (if f.interrupted then f.outcome == Cancelled else exists j :: 0 <= j < i && labels[j] == Complete(f.task, f.outcome))
      && (f.collected ==> states[i].tasks[f.task].done) && (f.collected <==> CollectedBy(c, labels, i))
  {
    var f := states[i].callers[c];
    RunKeepsInv(states, labels, i);
    assert CallerOk(states[i], f);
    CallerHasJoined(states, labels, i, c);
    CallerEndsAsItLeft(states, labels, i, c);
    if !f.interrupted {
      DoneWasCompleted(states, labels, i, f.task);
    }
  }

  /** The caller whose departure asks a task to stop, and no other, stays to collect it. */
  lemma AskerCollects(states: seq<State>, labels: seq<Label>, i: nat)
    requires IsRun(states, labels) && i < |labels| && labels[i].Leave?
    ensures var c := labels[i].caller; var t := states[i].callers[c].task;
      && t < |states[i].tasks| && t < |states[i + 1].tasks| && c in states[i + 1].callers
      && (states[i + 1].callers[c].Collecting? <==> !states[i].tasks[t].cancelAsked && states[i + 1].tasks[t].cancelAsked)
      && !states[i + 1].callers[c].Waiting?
  {
    RunKeepsInv(states, labels, i);
    assert CallerOk(states[i], states[i].callers[labels[i].caller]);
  }

  /** Whatever has happened, a waiting caller can still be served: when its task ends, it gets that outcome. */
  lemma WaiterCanBeServed(states: seq<State>, labels: seq<Label>, c: nat, o: Outcome)
    returns (states': seq<State>, labels': seq<Label>)
    requires IsRun(states, labels) && c in states[|labels|].callers && states[|labels|].callers[c].Waiting?
    ensures IsRun(states', labels') && labels <= labels' && c in states'[|labels'|].callers
    ensures var w, f := states[|labels|].callers[c], states'[|labels'|].callers[c];
      && f.Finished? && f.key == w.key && f.task == w.task && !f.interrupted
      && w.task < |states[|labels|].tasks|
      && f.outcome == if states[|labels|].tasks[w.task].done then states[|labels|].tasks[w.task].outcome else o
  {
    var s := states[|labels|];
    RunKeepsInv(states, labels, |labels|);
    assert CallerOk(s, s.callers[c]);
    states', labels' := states, labels;
    if !s.tasks[s.callers[c].task].done {
      states', labels' := OneStepMore(states, labels, Complete(s.callers[c].task, o));
    }
    states', labels' := OneStepMore(states', labels', Leave(c, false));
  }

  /** And one that waits for a task to wind up can still collect it, once that task ends. */
  lemma CollectorCanCollect(states: seq<State>, labels: seq<Label>, c: nat, o: Outcome)
    returns (states': seq<State>, labels': seq<Label>)
    requires IsRun(states, labels) && c in states[|labels|].callers && states[|labels|].callers[c].Collecting?
    ensures IsRun(states', labels') && labels <= labels' && c in states'[|labels'|].callers
    ensures var w, f := states[|labels|].callers[c], states'[|labels'|].callers[c];
      f.Finished? && f.key == w.key && f.task == w.task && f.collected
  {
    var s := states[|labels|];
    RunKeepsInv(states, labels, |labels|);
    assert CallerOk(s, s.callers[c]);
    states', labels' := states, labels;
    if !s.tasks[s.callers[c].task].done {
      states', labels' := OneStepMore(states, labels, Complete(s.callers[c].task, o));
    }
    states', labels' := OneStepMore(states', labels', Collect(c, false));
  }

  /** A caller that is cancelled can end by itself, without its task ending and without any other caller moving. */
  lemma CancelledCallerCanEnd(states: seq<State>, labels: seq<Label>, c: nat)
    returns (states': seq<State>, labels': seq<Label>)
    requires IsRun(states, labels) && c in states[|labels|].callers
    ensures IsRun(states', labels') && labels <= labels' && |labels'| <= |labels| + 2
    ensures forall j :: |labels| <= j < |labels'| ==> labels'[j] == Leave(c, true) || labels'[j] == Collect(c, true)
    ensures c in states'[|labels'|].callers && states'[|labels'|].callers[c].Finished?
  {
    RunKeepsInv(states, labels, |labels|);
    assert CallerOk(states[|labels|], states[|labels|].callers[c]);
    states', labels' := states, labels;
    if states[|labels|].callers[c].Waiting? {
      states', labels' := OneStepMore(states, labels, Leave(c, true));
    }
    if states'[|labels'|].callers[c].Collecting? {
      states', labels' := OneStepMore(states', labels', Collect(c, true));
    }
  }

  lemma OneStepMore(states: seq<State>, labels: seq<Label>, l: Label) returns (states': seq<State>, labels': seq<Label>)
    requires IsRun(states, labels) && Enabled(states[|labels|], l)
    ensures labels' == labels + [l] && IsRun(states', labels')
    ensures states'[|labels'|] == Next(states[|labels|], l)
  {
    states', labels' := states + [Next(states[|labels|], l)], labels + [l];
  }

  /** A caller keeps the key and the flight it joined with until the end of the run. */
  lemma {:induction false} CallerKeepsItsFlight(states: seq<State>, labels: seq<Label>, i: nat, j: nat, c: nat)
    requires IsRun(states, labels) && i <= j <= |labels|
    requires c in states[i].callers
    ensures c in states[j].callers
    ensures states[j].callers[c].key == states[i].callers[c].key
    ensures states[j].callers[c].task == states[i].callers[c].task
    decreases j
  {
    if i < j {
      CallerKeepsItsFlight(states, labels, i, j - 1, c);
    }
  }

  /** Every registered flight has a caller waiting on it. */
  lemma FlightHasWaiter(s: State, k: string) returns (c: nat)
    requires Inv(s) && k in s.inflight
    ensures c in Waiters(s, k, s.inflight[k].task)
  {
    assert FlightOk(s, k);
    c :| c in Waiters(s, k, s.inflight[k].task);
  }

  /** Once every caller has left, nothing is registered and every task has ended or been asked to. */
  lemma QuiescentRegistryIsEmpty(states: seq<State>, labels: seq<Label>, i: nat)
    requires IsRun(states, labels) && i <= |labels|
    requires forall c :: c in states[i].callers ==> !states[i].callers[c].Waiting?
    ensures states[i].inflight == map[]
    ensures forall t :: 0 <= t < |states[i].tasks| ==> states[i].tasks[t].done || states[i].tasks[t].cancelAsked
  {
    RunKeepsInv(states, labels, i);
    if k :| k in states[i].inflight {
      var c := FlightHasWaiter(states[i], k);
      assert false;
    }
  }

  /** Interrupting one of several waiters neither ends nor cancels the shared task. */
  lemma SurvivorKeepsTask(states: seq<State>, labels: seq<Label>, i: nat, survivor: nat)
    requires IsRun(states, labels) && i < |labels| && labels[i].Leave? && labels[i].caller != survivor
    requires survivor in states[i].callers && states[i].callers[survivor].Waiting?
    ensures states[i + 1].callers[survivor] == states[i].callers[survivor]
    ensures states[i].callers[survivor].task < |states[i].tasks| == |states[i + 1].tasks|
    ensures states[i + 1].tasks[states[i].callers[survivor].task] == states[i].tasks[states[i].callers[survivor].task]
    ensures IsCurrent(states[i + 1].inflight, states[i].callers[survivor].key, states[i].callers[survivor].task)
  {
    RunKeepsInv(states, labels, i);
    RunKeepsInv(states, labels, i + 1);
    var leaver, stays := states[i].callers[labels[i].caller], states[i].callers[survivor];
    assert CallerOk(states[i], leaver) && CallerOk(states[i], stays);
    assert CallerOk(states[i + 1], states[i + 1].callers[survivor]);
    if stays.task == leaver.task {
      assert {survivor, labels[i].caller} <= Waiters(states[i], leaver.key, leaver.task);
      LastWaiterIsOnlyWaiter(states[i], labels[i].caller);
    }
  }

  /** A flight object: its task is fixed, its waiter count is updated in place. */
  class Flight {
    const task: nat
    var waiters: int

    constructor (task: nat)
      ensures this.task == task && waiters == 1
    {
      this.task := task;
      waiters := 1;
    }
  }

  /** The registry object of the proxy. */
  class InFlightProxy {
    var inflight: map<string, Flight>
    ghost var issued: set<Flight>  // every flight this proxy has handed out

    ghost predicate Valid()
      reads this
    {
      && (forall f, g :: f in issued && g in issued && f.task == g.task ==> f == g)
      && (forall k :: k in inflight ==> inflight[k] in issued)
      && (forall k, l :: k in inflight && l in inflight && inflight[k] == inflight[l] ==> k == l)
    }

    ghost function View(): Registry
      reads this, inflight.Values
    {
      map k | k in inflight :: FlightView(inflight[k].task, inflight[k].waiters)
    }

    constructor ()
      ensures Valid() && View() == map[] && issued == {}
    {
      inflight := map[];
      issued := {};
    }

    /** Joins the flight of `key`, or registers a new one for `freshTask`. */
    method JoinFlight(key: string, freshTask: nat) returns (flight: Flight)
      requires Valid()
      requires forall f :: f in issued ==> f.task != freshTask
      modifies this, inflight.Values
      ensures Valid()
      ensures View() == JoinRegistry(old(View()), key, freshTask)
      ensures key in inflight && flight == inflight[key]
      ensures issued == old(issued) + {flight}
      ensures flight !in old(issued) ==> fresh(flight) && flight.task == freshTask
    {
      if key in inflight {
        flight := inflight[key];
        flight.waiters := flight.waiters + 1;
      } else {
        flight := new Flight(freshTask);
        inflight := inflight[key := flight];
        issued := issued + {flight};
      }
    }

    /** Releases one waiter; `collect` asks the caller to cancel and await the task. */
    method ReleaseWaiter(key: string, flight: Flight, taskDone: bool) returns (collect: bool)
      requires Valid()
      requires flight in issued
      modifies this, inflight.Values
      ensures Valid() && issued == old(issued)
      ensures View() == ReleaseRegistry(old(View()), key, flight.task)
      ensures collect <==> LastWaiter(old(View()), key, flight.task) && !taskDone
    {
      collect := false;
      if key !in inflight || inflight[key] != flight {
        return;
      }
      flight.waiters := flight.waiters - 1;
      if flight.waiters <= 0 {
        inflight := inflight - {key};
        if !taskDone {
          collect := true;
        }
      }
    }
  }
}
