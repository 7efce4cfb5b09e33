/**
 The managed MCP server actor as a step system. A step is what happens between
 two suspension points of the runner coroutine, of the caller of start/stop, or of
 a requester. Calls of start and stop on one actor do not overlap.
 */
module Actor {
  import opened Prelude

  /** A request, identified by its future. */
  type Req = nat

  datatype Outcome = Pending | Answered | Failed | Cancelled

  datatype ServerState = IsStopped | IsStarting | IsReady | IsFailed | IsStopping

  /** Where a session is suspended: being opened; in the wait for a request or the
      process exit; holding a request the getter has taken, before the wait has
      resumed; serving it; leaving the session with an error. */
  datatype Place = Opening | Waiting | Picked(picked: Req) | Serving(serving: Req) | Closing

  /** The runner task. `Created` has not run yet; `Unwinding` carries a
      cancellation out of the session; `Finished` is done. */
  datatype Runner = NoTask | Created | InSession(at: Place) | Backoff | Unwinding | Finished

  /** The one call of start or stop that may be in progress. */
  datatype Control = Idle | AwaitReady | AwaitStop

  datatype Limits = Limits(restartOnFailure: bool, maxRestarts: nat)

  /** The actor's fields, the queue's unfinished count, the getters that a
      cancelled wait left behind, the loop variables of the runner, and a record of
      what was admitted, taken from the queue (in order), and taken but dropped. */
  datatype State = State(
    state: ServerState,
    task: Runner,
    readyEvent: bool,
    control: Control,
    queue: seq<Req>,
    futures: map<Req, Outcome>,
    unfinished: int,
    orphans: nat,
    attempts: nat,
    sessions: nat,
    waited: nat,
    admitted: seq<Req>,
    taken: seq<Req>,
    lost: set<Req>)

  const Initial := State(IsStopped, NoTask, false, Idle, [], map[], 0, 0, 0, 0, 0, [], [], {})

  function Live(t: Runner): bool {
    t.Created? || t.InSession? || t.Backoff? || t.Unwinding?
  }

  /** The request that has left the queue and is not finished with. */
  function Hand(t: Runner): Option<Req> {
    match t
    case InSession(Picked(r)) => Some(r)
    case InSession(Serving(r)) => Some(r)
    case _ => None
  }

  // ---------------------------------------------------------------- futures

  /** `if not future.done(): future.set_…` */
  function Settle(futures: map<Req, Outcome>, r: Req, o: Outcome): map<Req, Outcome> {
    if r in futures && futures[r].Pending? then futures[r := o] else futures
  }

  function FailAll(futures: map<Req, Outcome>, queue: seq<Req>): map<Req, Outcome> {
    map r | r in futures :: if r in queue && futures[r].Pending? then Failed else futures[r]
  }

  /** `_fail_pending` */
  function FailPending(a: State): State {
    a.(queue := [], futures := FailAll(a.futures, a.queue), unfinished := a.unfinished - |a.queue|, taken := a.taken + a.queue)
  }

  /** The loop of `_fail_pending`: take from the queue until it is empty. */
  method FailPendingLoop(queue: seq<Req>, futures: map<Req, Outcome>, unfinished: int)
    returns (queue': seq<Req>, futures': map<Req, Outcome>, unfinished': int)
    ensures queue' == [] && futures' == FailAll(futures, queue) && unfinished' == unfinished - |queue|
    ensures futures'.Keys == futures.Keys
    ensures forall r :: r in queue && r in futures && futures[r].Pending? ==> futures'[r].Failed?
    ensures forall r :: r in futures && (r !in queue || !futures[r].Pending?) ==> futures'[r] == futures[r]
  {
    queue', futures', unfinished' := queue, futures, unfinished;
    var k := 0;
    while queue' != []
      invariant k <= |queue| && queue' == queue[k..]
      invariant futures' == FailAll(futures, queue[..k])
      invariant unfinished' == unfinished - k
      decreases |queue'|
    {
      assert queue[..k + 1] == queue[..k] + [queue[k]];
      futures' := Settle(futures', queue'[0], Failed);
      queue', unfinished' := queue'[1..], unfinished' - 1;
      k := k + 1;
    }
    assert queue[..k] == queue;
  }

  // ---------------------------------------------------------------- steps

  datatype Step =
    | StartCall(digestOk: bool)
    | StartSucceeds
    | StartFails
    | StartTimesOut
    | StopCall
    | StopReturns
    | Admit(r: Req)
    | CallerCancels(who: Req)
    | RunnerBegins
    | SessionReady
    | Take
    | Proceed
    | Answer
    | AnswerFails
    | SessionBreaks
    | BreaksWhilePicked
    | SessionClosed
    | BackoffOver
    | CancelArrives
    | Unwound
    | OrphanTakes

  /** While a cancellation is pending the runner takes no other step. */
  predicate RunnerFree(a: State) {
    !a.control.AwaitStop?
  }

  predicate Enabled(a: State, s: Step) {
    match s
    case StartCall(_) => a.control.Idle?
    case StartSucceeds => a.control.AwaitReady? && a.readyEvent && a.state.IsReady?
    case StartFails => a.control.AwaitReady? && a.readyEvent && !a.state.IsReady?
    case StartTimesOut => a.control.AwaitReady?
    case StopCall => a.control.Idle?
    case StopReturns => a.control.AwaitStop? && a.task.Finished?
    case Admit(r) => a.state.IsReady? && r !in a.futures
    case CallerCancels(r) => r in a.futures && a.futures[r].Pending?
    case RunnerBegins => RunnerFree(a) && a.task.Created?
    case SessionReady => RunnerFree(a) && a.task == InSession(Opening)
    case Take => a.task == InSession(Waiting) && a.queue != []
    case Proceed => RunnerFree(a) && a.task.InSession? && a.task.at.Picked?
    case Answer => RunnerFree(a) && a.task.InSession? && a.task.at.Serving?
    case AnswerFails => RunnerFree(a) && a.task.InSession? && a.task.at.Serving?
    case SessionBreaks => RunnerFree(a) && a.task.InSession? && (a.task.at.Opening? || a.task.at.Waiting?)
    case BreaksWhilePicked => RunnerFree(a) && a.task.InSession? && a.task.at.Picked?
    case SessionClosed => RunnerFree(a) && a.task == InSession(Closing)
    case BackoffOver => RunnerFree(a) && a.task.Backoff?
    case CancelArrives => a.control.AwaitStop? && (a.task.Created? || a.task.InSession? || a.task.Backoff?)
    case Unwound => a.task.Unwinding?
    case OrphanTakes => a.orphans > 0 && a.queue != []
  }

  /** `min(2 ** (attempts - 1), 30)` */
  function Delay(attempt: nat): nat
    requires attempt >= 1
  {
    if Pow2(attempt - 1) < 30 then Pow2(attempt - 1) else 30
  }

  function Pow2(n: nat): nat {
    if n == 0 then 1 else 2 * Pow2(n - 1)
  }

  /** Cancel the runner and wait for it, or finish at once if there is nothing to wait for. */
  function Stop(a: State): State {
    if a.task.NoTask? then a.(state := IsStopped, control := Idle)
    else if a.task.Finished? then StopEnd(a)
    else a.(state := IsStopping, control := AwaitStop)
  }

  function StopEnd(a: State): State {
    FailPending(a.(task := NoTask, state := IsStopped, control := Idle))
  }

  /** The `finally` of the session, then the handler of the runner loop. */
  function AfterFailure(lim: Limits, a: State): State {
    var f := FailPending(a.(state := IsFailed));
    if lim.restartOnFailure && f.attempts < lim.maxRestarts
    then f.(state := IsStarting, task := Backoff, attempts := f.attempts + 1, waited := f.waited + Delay(f.attempts + 1))
    else f.(task := Finished, readyEvent := true)
  }

  function Cancelled_(a: State): State
    requires Enabled(a, CancelArrives)
  {
    match a.task
    case InSession(Waiting) => a.(task := Unwinding, orphans := a.orphans + 1)
    case InSession(Picked(r)) => a.(task := Unwinding, lost := a.lost + {r})
    case InSession(Serving(r)) => a.(task := Unwinding, futures := Settle(a.futures, r, Failed), unfinished := a.unfinished - 1)
    case InSession(_) => a.(task := Unwinding)
    case _ => a.(task := Finished)
  }

  function Next(lim: Limits, a: State, s: Step): State
    requires Enabled(a, s)
  {
    match s
    case StartCall(digestOk) =>
      if Live(a.task) then a.(control := AwaitReady)
      else if !digestOk then a
      else a.(state := IsStarting, readyEvent := false, task := Created, control := AwaitReady, attempts := 0, sessions := 0, waited := 0)
    case StartSucceeds => a.(control := Idle)
    case StartFails => a.(control := Idle)
    case StartTimesOut => Stop(a)
    case StopCall => Stop(a)
    case StopReturns => StopEnd(a)
    case Admit(r) => a.(queue := a.queue + [r], futures := a.futures[r := Pending], unfinished := a.unfinished + 1, admitted := a.admitted + [r])
    case CallerCancels(r) => a.(futures := a.futures[r := Cancelled])
    case RunnerBegins => a.(task := InSession(Opening), sessions := 1)
    case SessionReady => a.(task := InSession(Waiting), state := IsReady, readyEvent := true)
    case Take => a.(task := InSession(Picked(a.queue[0])), queue := a.queue[1..], taken := a.taken + [a.queue[0]])
    case Proceed => a.(task := InSession(Serving(a.task.at.picked)))
    case Answer => a.(task := InSession(Waiting), futures := Settle(a.futures, a.task.at.serving, Answered), unfinished := a.unfinished - 1)
    case AnswerFails => a.(task := InSession(Closing), futures := Settle(a.futures, a.task.at.serving, Failed), unfinished := a.unfinished - 1)
    case SessionBreaks => a.(task := InSession(Closing))
    case BreaksWhilePicked => a.(task := InSession(Closing), lost := a.lost + {a.task.at.picked})
    case SessionClosed => AfterFailure(lim, a)
    case BackoffOver => a.(task := InSession(Opening), sessions := a.sessions + 1)
    case CancelArrives => Cancelled_(a)
    case Unwound => a.(task := Finished)
    case OrphanTakes => a.(orphans := a.orphans - 1, queue := a.queue[1..], taken := a.taken + [a.queue[0]], lost := a.lost + {a.queue[0]})
  }

  // ---------------------------------------------------------------- the invariant

  /** What has been admitted is what was taken followed by what is queued. */
  ghost predicate InOrder(a: State) {
    && a.admitted == a.taken + a.queue
    && NoDup(a.admitted)
    && forall r :: r in a.futures <==> r in a.admitted
  }

  /** The actor has not set this future; its owner may have cancelled it. */
  predicate Unanswered(o: Outcome) {
    o.Pending? || o.Cancelled?
  }

  /** A taken request is in hand, dropped, or settled; the actor has not answered
      one that is queued, in hand or dropped; `task_done` is called once for every
      request that was neither dropped nor is still there. */
  ghost predicate Accounted(a: State) {
    && (Hand(a.task).Some? ==> Hand(a.task).value in a.taken && Hand(a.task).value !in a.lost)
    && (forall r :: r in a.lost ==> r in a.taken)
    && (forall r :: r in a.taken && r in a.futures ==>
          Hand(a.task) == Some(r) || r in a.lost || !a.futures[r].Pending?)
    && (forall r :: r in a.futures && (r in a.lost || r in a.queue || Hand(a.task) == Some(r)) ==> Unanswered(a.futures[r]))
    && a.unfinished == |a.queue| + |a.lost| + (if Hand(a.task).Some? then 1 else 0)
  }

  /** Which states go with which places. */
  ghost predicate InStep(a: State) {
    && (a.control.AwaitStop? ==> a.state.IsStopping? && !a.task.NoTask?)
    && (a.control.AwaitReady? ==> !a.task.NoTask?)
    && (a.task.NoTask? ==> a.state.IsStopped?)
    && (!a.control.AwaitStop? ==>
          match a.task
          case NoTask => a.queue == []
          case Created => a.state.IsStarting? && a.queue == []
          case InSession(Opening) => a.state.IsStarting? && a.queue == []
          case InSession(Closing) => (a.state.IsReady? && a.readyEvent) || (a.state.IsStarting? && a.queue == [])
          case InSession(_) => a.state.IsReady? && a.readyEvent
          case Backoff => a.state.IsStarting? && a.queue == []
          case Unwinding => false
          case Finished => a.state.IsFailed? && a.readyEvent && a.queue == [])
  }

  /** Restarts are counted over the whole life of the runner. */
  ghost predicate Bounded(lim: Limits, a: State) {
    && a.attempts <= lim.maxRestarts
    && (!lim.restartOnFailure ==> a.attempts == 0)
    && a.sessions <= a.attempts + 1
    && (a.task.Backoff? ==> a.sessions <= a.attempts)
    && (a.task.Created? ==> a.attempts == 0 && a.sessions == 0)
    && a.waited == TotalDelay(a.attempts)
  }

  function TotalDelay(n: nat): nat {
    if n == 0 then 0 else TotalDelay(n - 1) + Delay(n)
  }

  ghost predicate Inv(lim: Limits, a: State) {
    InOrder(a) && Accounted(a) && InStep(a) && Bounded(lim, a)
  }

  lemma {:induction false} InitialInv(lim: Limits)
    ensures Inv(lim, Initial)
  {
  }

  lemma {:induction false} FailPendingAccounts(a: State)
    requires InOrder(a) && Accounted(a)
    ensures InOrder(FailPending(a)) && Accounted(FailPending(a))
  {
    var f := FailPending(a);
    assert f.admitted == f.taken + f.queue;
    forall r | r in f.lost || Hand(a.task) == Some(r) ensures r !in a.queue {
      Apart(a, r);
    }
  }

  /** A taken request is not queued any more. */
  lemma {:induction false} Apart(a: State, r: Req)
    requires InOrder(a) && r in a.taken
    ensures r !in a.queue
  {
    var i :| 0 <= i < |a.taken| && a.taken[i] == r;
    assert a.admitted[i] == r;
    assert forall j :: 0 <= j < |a.queue| ==> a.admitted[|a.taken| + j] == a.queue[j];
  }

  lemma {:induction false} TakeKeepsOrder(a: State)
    requires InOrder(a) && a.queue != []
    ensures a.admitted == (a.taken + [a.queue[0]]) + a.queue[1..]
    ensures a.queue[0] !in a.taken
  {
    assert a.admitted[|a.taken|] == a.queue[0];
    assert forall i :: 0 <= i < |a.taken| ==> a.admitted[i] == a.taken[i];
  }

  lemma {:induction false} StepKeepsOrder(lim: Limits, a: State, s: Step)
    requires InOrder(a) && Enabled(a, s)
    ensures InOrder(Next(lim, a, s))
  {
    var b := Next(lim, a, s);
    if s.Take? || s.OrphanTakes? {
      TakeKeepsOrder(a);
    }
    assert b.admitted == b.taken + b.queue;
  }

  lemma {:induction false} StepKeepsPlaces(lim: Limits, a: State, s: Step)
    requires InStep(a) && Enabled(a, s)
    ensures InStep(Next(lim, a, s))
  {
  }

  lemma {:induction false} FailureKeepsBounds(lim: Limits, a: State)
    requires Bounded(lim, a) && a.task == InSession(Closing)
    ensures Bounded(lim, AfterFailure(lim, a))
  {
  }

  lemma {:induction false} StepKeepsBounds(lim: Limits, a: State, s: Step)
    requires Bounded(lim, a) && Enabled(a, s)
    ensures Bounded(lim, Next(lim, a, s))
  {
    if s.SessionClosed? {
      FailureKeepsBounds(lim, a);
    }
  }

  /** The account does not depend on the state field, the control or the counters. */
  lemma {:induction false} SameAccount(a: State, b: State)
    requires Accounted(a) && InOrder(a)
    requires b.queue == a.queue && b.futures == a.futures && b.unfinished == a.unfinished
    requires b.admitted == a.admitted && b.taken == a.taken && b.lost == a.lost
    requires Hand(b.task) == Hand(a.task)
    ensures Accounted(b) && InOrder(b)
  {
  }

  lemma {:induction false} StopKeepsAccount(a: State)
    requires InOrder(a) && Accounted(a)
    ensures Accounted(Stop(a))
    ensures a.task.Finished? ==> Accounted(StopEnd(a))
  {
    if a.task.Finished? {
      var b := a.(task := NoTask, state := IsStopped, control := Idle);
      SameAccount(a, b);
      FailPendingAccounts(b);
    }
  }

  lemma {:induction false} FailureKeepsAccount(lim: Limits, a: State)
    requires InOrder(a) && Accounted(a) && a.task == InSession(Closing)
    ensures Accounted(AfterFailure(lim, a))
  {
    var b := a.(state := IsFailed);
    SameAccount(a, b);
    FailPendingAccounts(b);
    SameAccount(FailPending(b), AfterFailure(lim, a));
  }

  lemma {:induction false} TakingKeepsAccount(lim: Limits, a: State, s: Step)
    requires InOrder(a) && Accounted(a) && Enabled(a, s) && (s.Take? || s.OrphanTakes?)
    ensures Accounted(Next(lim, a, s))
  {
    TakeKeepsOrder(a);
    assert a.queue[0] in a.queue;
    assert a.queue[0] in a.admitted;
    forall r | r in a.lost || Hand(a.task) == Some(r) ensures r != a.queue[0] {
      Apart(a, r);
    }
  }

  lemma {:induction false} PickedKeepsAccount(lim: Limits, a: State, s: Step)
    requires InOrder(a) && Accounted(a) && Enabled(a, s) && (s.Proceed? || s.BreaksWhilePicked?)
    ensures Accounted(Next(lim, a, s))
  {
    if s.Proceed? {
      SameAccount(a, Next(lim, a, s));
    } else {
      Apart(a, Hand(a.task).value);
    }
  }

  lemma {:induction false} ServingKeepsAccount(lim: Limits, a: State, s: Step)
    requires InOrder(a) && Accounted(a) && Enabled(a, s) && (s.Answer? || s.AnswerFails?)
    ensures Accounted(Next(lim, a, s))
  {
    Apart(a, Hand(a.task).value);
  }

  lemma {:induction false} CancelKeepsAccount(lim: Limits, a: State)
    requires InOrder(a) && Accounted(a) && Enabled(a, CancelArrives)
    ensures Accounted(Next(lim, a, CancelArrives))
  {
    if Hand(a.task).Some? {
      Apart(a, Hand(a.task).value);
    }
  }

  lemma {:induction false} StepKeepsAccount(lim: Limits, a: State, s: Step)
    requires InOrder(a) && Accounted(a) && Enabled(a, s)
    ensures Accounted(Next(lim, a, s))
  {
    match s
    case StartTimesOut => StopKeepsAccount(a);
    case StopCall => StopKeepsAccount(a);
    case StopReturns => StopKeepsAccount(a);
    case SessionClosed => FailureKeepsAccount(lim, a);
    case Take => TakingKeepsAccount(lim, a, s);
    case OrphanTakes => TakingKeepsAccount(lim, a, s);
    case Proceed => PickedKeepsAccount(lim, a, s);
    case Answer => ServingKeepsAccount(lim, a, s);
    case AnswerFails => ServingKeepsAccount(lim, a, s);
    case BreaksWhilePicked => PickedKeepsAccount(lim, a, s);
    case CancelArrives => CancelKeepsAccount(lim, a);
    case _ =>
      OtherKeepsAccount(lim, a, s);
  }

  lemma {:induction false} OtherKeepsAccount(lim: Limits, a: State, s: Step)
    requires InOrder(a) && Accounted(a) && Enabled(a, s)
    requires s.StartCall? || s.StartSucceeds? || s.StartFails? || s.Admit? || s.CallerCancels? || s.RunnerBegins? || s.SessionReady?
      || s.SessionBreaks? || s.BackoffOver? || s.Unwound?
    ensures Accounted(Next(lim, a, s))
  {
    if s.Admit? {
      AdmitKeepsAccount(lim, a, s.r);
    } else if !s.CallerCancels? {
      SameAccount(a, Next(lim, a, s));
    }
  }

  lemma {:induction false} AdmitKeepsAccount(lim: Limits, a: State, r: Req)
    requires InOrder(a) && Accounted(a) && Enabled(a, Admit(r))
    ensures Accounted(Next(lim, a, Admit(r)))
  {
    assert r !in a.admitted;
    assert forall x :: x in a.taken ==> x in a.admitted;
  }

  lemma {:induction false} StepKeepsInv(lim: Limits, a: State, s: Step)
    requires Inv(lim, a) && Enabled(a, s)
    ensures Inv(lim, Next(lim, a, s))
  {
    StepKeepsOrder(lim, a, s);
    StepKeepsAccount(lim, a, s);
    StepKeepsPlaces(lim, a, s);
    StepKeepsBounds(lim, a, s);
  }

  // ---------------------------------------------------------------- runs

  ghost predicate IsRun(lim: Limits, steps: seq<Step>, states: seq<State>) {
    && |states| == |steps| + 1
    && states[0] == Initial
    && forall k :: 0 <= k < |steps| ==> Enabled(states[k], steps[k]) && states[k + 1] == Next(lim, states[k], steps[k])
  }

  lemma {:induction false} RunKeepsInv(lim: Limits, steps: seq<Step>, states: seq<State>, k: nat)
    requires IsRun(lim, steps, states) && k < |states|
    ensures Inv(lim, states[k])
    decreases k
  {
    if k == 0 {
      InitialInv(lim);
    } else {
      RunKeepsInv(lim, steps, states, k - 1);
      StepKeepsInv(lim, states[k - 1], steps[k - 1]);
    }
  }

  // ---------------------------------------------------------------- requests

  ghost predicate Settled(a: State, r: Req) {
    r in a.taken && r !in a.lost && Hand(a.task) != Some(r)
  }

  /** At every point of every run each admitted request is in exactly one of four
      places: queued, in hand, dropped, or settled with its future done. Requests
      leave the queue in admission order. */
  lemma {:induction false} RequestsAreConserved(lim: Limits, steps: seq<Step>, states: seq<State>, k: nat, r: Req)
    requires IsRun(lim, steps, states) && k < |states| && r in states[k].admitted
    ensures
      var a := states[k];
      var queued, held, dropped, settled := r in a.queue, Hand(a.task) == Some(r), r in a.lost, Settled(a, r);
      && (queued || held || dropped || settled)
      && !(queued && held) && !(queued && dropped) && !(queued && settled)
      && !(held && dropped) && !(held && settled) && !(dropped && settled)
      && r in a.futures
      && (settled ==> !a.futures[r].Pending?)
      && (!settled ==> Unanswered(a.futures[r]))
      && a.taken <= a.admitted
  {
    RunKeepsInv(lim, steps, states, k);
    var a := states[k];
    assert r in a.taken + a.queue;
    if r in a.taken {
      Apart(a, r);
    }
  }

  /** A step never sets a future that is already done, and never takes a request
      back out of the record. */
  lemma {:induction false} StepSetsOnce(lim: Limits, a: State, s: Step)
    requires Enabled(a, s)
    ensures forall r :: r in a.futures && !a.futures[r].Pending? ==>
      r in Next(lim, a, s).futures && Next(lim, a, s).futures[r] == a.futures[r]
    ensures a.admitted <= Next(lim, a, s).admitted && a.taken <= Next(lim, a, s).taken
    ensures a.lost <= Next(lim, a, s).lost
  {
  }

  ghost predicate SetTo(a: State, r: Req, o: Outcome) {
    r in a.futures && a.futures[r] == o
  }

  lemma {:induction false} RunStepSetsOnce(lim: Limits, steps: seq<Step>, states: seq<State>, k: nat, r: Req, o: Outcome)
    requires IsRun(lim, steps, states) && k < |steps| && !o.Pending? && SetTo(states[k], r, o)
    ensures SetTo(states[k + 1], r, o)
  {
    StepSetsOnce(lim, states[k], steps[k]);
  }

  /** No future is set twice in a run, whoever set it first. */
  lemma {:induction false} FuturesAreSetOnce(lim: Limits, steps: seq<Step>, states: seq<State>, j: nat, k: nat, r: Req, o: Outcome)
    requires IsRun(lim, steps, states) && j <= k < |states| && !o.Pending?
    requires SetTo(states[j], r, o)
    ensures SetTo(states[k], r, o)
    decreases k
  {
    if j < k {
      FuturesAreSetOnce(lim, steps, states, j, k - 1, r, o);
      RunStepSetsOnce(lim, steps, states, k - 1, r, o);
    }
  }

  /** The step drops the request, which has left the queue: the process exit seen
      together with it, a cancellation before it is served, or a getter left behind by
      an earlier cancellation. */
  predicate Drops(a: State, s: Step, r: Req) {
    match s
    case BreaksWhilePicked => a.task == InSession(Picked(r))
    case CancelArrives => a.task == InSession(Picked(r))
    case OrphanTakes => a.queue != [] && a.queue[0] == r
    case _ => false
  }

  ghost predicate DroppedBefore(steps: seq<Step>, states: seq<State>, k: nat, r: Req)
    requires k <= |steps| && |steps| < |states|
  {
    exists j :: 0 <= j < k && Drops(states[j], steps[j], r)
  }

  lemma {:induction false} StepDropsIff(lim: Limits, a: State, s: Step, r: Req)
    requires Enabled(a, s)
    ensures r in Next(lim, a, s).lost <==> r in a.lost || Drops(a, s, r)
  {
  }

  /** The record of dropped requests is right: it holds those that a step dropped. */
  lemma {:induction false} RunDropsIff(lim: Limits, steps: seq<Step>, states: seq<State>, k: nat, r: Req)
    requires IsRun(lim, steps, states) && k < |states|
    ensures r in states[k].lost <==> DroppedBefore(steps, states, k, r)
    decreases k
  {
    if k > 0 {
      RunDropsIff(lim, steps, states, k - 1, r);
      StepDropsIff(lim, states[k - 1], steps[k - 1], r);
      assert DroppedBefore(steps, states, k, r) <==>
        DroppedBefore(steps, states, k - 1, r) || Drops(states[k - 1], steps[k - 1], r);
    }
  }

  ghost predicate CancelledBefore(steps: seq<Step>, k: nat, r: Req)
    requires k <= |steps|
  {
    exists j :: 0 <= j < k && steps[j] == CallerCancels(r)
  }

  lemma {:induction false} StepCancelsIff(lim: Limits, a: State, s: Step, r: Req)
    requires Enabled(a, s)
    ensures SetTo(Next(lim, a, s), r, Cancelled) <==> SetTo(a, r, Cancelled) || s == CallerCancels(r)
  {
  }

  /** Only its caller cancels a request. */
  lemma {:induction false} RunCancelsIff(lim: Limits, steps: seq<Step>, states: seq<State>, k: nat, r: Req)
    requires IsRun(lim, steps, states) && k < |states|
    ensures SetTo(states[k], r, Cancelled) <==> CancelledBefore(steps, k, r)
    decreases k
  {
    if k > 0 {
      RunCancelsIff(lim, steps, states, k - 1, r);
      StepCancelsIff(lim, states[k - 1], steps[k - 1], r);
      assert CancelledBefore(steps, k, r) <==> CancelledBefore(steps, k - 1, r) || steps[k - 1] == CallerCancels(r);
    }
  }

  // ---- which outcome

  /** The call made for `r` returns. */
  predicate Returns(a: State, s: Step, r: Req) {
    s.Answer? && a.task == InSession(Serving(r))
  }

  /** The step ends in failure what was asked of `r`: its call raises or is cancelled, or
      the session closes or the stop ends while `r` is queued. */
  predicate Fails(a: State, s: Step, r: Req) {
    match s
    case AnswerFails => a.task == InSession(Serving(r))
    case CancelArrives => a.task == InSession(Serving(r))
    case SessionClosed => r in a.queue
    case StopReturns => r in a.queue
    case StopCall => a.task.Finished? && r in a.queue
    case StartTimesOut => a.task.Finished? && r in a.queue
    case _ => false
  }

  lemma {:induction false} StepAnswersIff(lim: Limits, a: State, s: Step, r: Req)
    requires Enabled(a, s)
    ensures SetTo(Next(lim, a, s), r, Answered) <==> SetTo(a, r, Answered) || (Returns(a, s, r) && SetTo(a, r, Pending))
  {
  }

  lemma {:induction false} StepFailsIff(lim: Limits, a: State, s: Step, r: Req)
    requires Enabled(a, s)
    ensures SetTo(Next(lim, a, s), r, Failed) <==> SetTo(a, r, Failed) || (Fails(a, s, r) && SetTo(a, r, Pending))
  {
  }

  /** What is being served or queued is pending, unless its caller has cancelled it. */
  lemma {:induction false} OpenIsPending(lim: Limits, steps: seq<Step>, states: seq<State>, k: nat, r: Req)
    requires IsRun(lim, steps, states) && k < |steps| && (Returns(states[k], steps[k], r) || Fails(states[k], steps[k], r))
    ensures SetTo(states[k], r, Pending) <==> !CancelledBefore(steps, k, r)
  {
    RunKeepsInv(lim, steps, states, k);
    RunCancelsIff(lim, steps, states, k, r);
    var a := states[k];
    assert r in a.taken || r in a.queue;
    assert r in a.admitted;
  }

  ghost predicate AnsweredBefore(steps: seq<Step>, states: seq<State>, k: nat, r: Req)
    requires k <= |steps| && |steps| < |states|
  {
    exists j :: 0 <= j < k && Returns(states[j], steps[j], r) && !CancelledBefore(steps, j, r)
  }

  ghost predicate FailedBefore(steps: seq<Step>, states: seq<State>, k: nat, r: Req)
    requires k <= |steps| && |steps| < |states|
  {
    exists j :: 0 <= j < k && Fails(states[j], steps[j], r) && !CancelledBefore(steps, j, r)
  }

  lemma {:induction false} SettledBeforeStep(steps: seq<Step>, states: seq<State>, k: nat, r: Req)
    requires k < |steps| && |steps| < |states|
    ensures AnsweredBefore(steps, states, k + 1, r) <==>
      (AnsweredBefore(steps, states, k, r) || (Returns(states[k], steps[k], r) && !CancelledBefore(steps, k, r)))
    ensures FailedBefore(steps, states, k + 1, r) <==>
      (FailedBefore(steps, states, k, r) || (Fails(states[k], steps[k], r) && !CancelledBefore(steps, k, r)))
  {
  }

  /** A future is answered exactly when its call returned and its caller had not
      cancelled it before; a request that was never served is never answered. */
  lemma {:induction false} AnsweredIff(lim: Limits, steps: seq<Step>, states: seq<State>, k: nat, r: Req)
    requires IsRun(lim, steps, states) && k < |states|
    ensures SetTo(states[k], r, Answered) <==> AnsweredBefore(steps, states, k, r)
    decreases k
  {
    if k > 0 {
      AnsweredIff(lim, steps, states, k - 1, r);
      RunAnswersStep(lim, steps, states, k - 1, r);
      SettledBeforeStep(steps, states, k - 1, r);
    }
  }

  lemma {:induction false} RunAnswersStep(lim: Limits, steps: seq<Step>, states: seq<State>, k: nat, r: Req)
    requires IsRun(lim, steps, states) && k < |steps|
    ensures SetTo(states[k + 1], r, Answered) <==>
      SetTo(states[k], r, Answered) || (Returns(states[k], steps[k], r) && !CancelledBefore(steps, k, r))
    ensures SetTo(states[k + 1], r, Failed) <==>
      SetTo(states[k], r, Failed) || (Fails(states[k], steps[k], r) && !CancelledBefore(steps, k, r))
  {
    StepAnswersIff(lim, states[k], steps[k], r);
    StepFailsIff(lim, states[k], steps[k], r);
    if Returns(states[k], steps[k], r) || Fails(states[k], steps[k], r) {
      OpenIsPending(lim, steps, states, k, r);
    }
  }

  /** A future has failed exactly when its call raised or was cancelled, or the session
      closed or a stop ended while it was queued, its caller not having cancelled it. */
  lemma {:induction false} FailedIff(lim: Limits, steps: seq<Step>, states: seq<State>, k: nat, r: Req)
    requires IsRun(lim, steps, states) && k < |states|
    ensures SetTo(states[k], r, Failed) <==> FailedBefore(steps, states, k, r)
    decreases k
  {
    if k > 0 {
      FailedIff(lim, steps, states, k - 1, r);
      RunAnswersStep(lim, steps, states, k - 1, r);
      SettledBeforeStep(steps, states, k - 1, r);
    }
  }

  lemma {:induction false} StepHolds(lim: Limits, a: State, s: Step, q: Req)
    requires InOrder(a) && Enabled(a, s) && q in a.taken && Hand(a.task) != Some(q)
    ensures q in Next(lim, a, s).taken && Hand(Next(lim, a, s).task) != Some(q)
  {
    Apart(a, q);
  }

  /** What has left the runner's hand does not come back. */
  lemma {:induction false} NotHeldAgain(lim: Limits, steps: seq<Step>, states: seq<State>, j: nat, k: nat, q: Req)
    requires IsRun(lim, steps, states) && j <= k < |states| && q in states[j].taken && Hand(states[j].task) != Some(q)
    ensures q in states[k].taken && Hand(states[k].task) != Some(q)
    decreases k
  {
    if j < k {
      NotHeldAgain(lim, steps, states, j, k - 1, q);
      RunKeepsInv(lim, steps, states, k - 1);
      StepHolds(lim, states[k - 1], steps[k - 1], q);
    }
  }

  lemma {:induction false} RunTakes(lim: Limits, steps: seq<Step>, states: seq<State>, k: nat)
    requires IsRun(lim, steps, states) && k < |steps|
    ensures states[k].taken <= states[k + 1].taken
  {
    StepSetsOnce(lim, states[k], steps[k]);
  }

  lemma {:induction false} TakenGrows(lim: Limits, steps: seq<Step>, states: seq<State>, j: nat, k: nat)
    requires IsRun(lim, steps, states) && j <= k < |states|
    ensures states[j].taken <= states[k].taken
    decreases k
  {
    if j < k {
      TakenGrows(lim, steps, states, j, k - 1);
      RunTakes(lim, steps, states, k - 1);
    }
  }

  /** Requests are served in the order in which they were admitted. */
  lemma {:induction false} ServedInOrder(lim: Limits, steps: seq<Step>, states: seq<State>, j: nat, k: nat, r: Req, q: Req)
    requires IsRun(lim, steps, states) && j < k < |states| && r != q
    requires Hand(states[j].task) == Some(r) && Hand(states[k].task) == Some(q)
    ensures Before(states[k].admitted, r, q)
  {
    RunKeepsInv(lim, steps, states, j);
    RunKeepsInv(lim, steps, states, k);
    TakenGrows(lim, steps, states, j, k);
    if q in states[j].taken {
      NotHeldAgain(lim, steps, states, j, k, q);
    }
    var early, late := states[j].taken, states[k].taken[|states[j].taken|..];
    assert states[k].taken == early + late;
    BeforeConcat(early, late, r, q);
    BeforeConcat(states[k].taken, states[k].queue, r, q);
  }

  /** Once the runner has failed for good or the actor has been stopped, a caller still
      waits for an admitted request exactly when some step dropped it and the caller has
      not given up. */
  lemma {:induction false} StrandedIff(lim: Limits, steps: seq<Step>, states: seq<State>, k: nat, r: Req)
    requires IsRun(lim, steps, states) && k < |states| && r in states[k].admitted
    requires states[k].state.IsFailed? || states[k].state.IsStopped?
    ensures SetTo(states[k], r, Pending) <==> DroppedBefore(steps, states, k, r) && !CancelledBefore(steps, k, r)
  {
    RunKeepsInv(lim, steps, states, k);
    RunDropsIff(lim, steps, states, k, r);
    RunCancelsIff(lim, steps, states, k, r);
    RequestsAreConserved(lim, steps, states, k, r);
  }

  /** The step drops no request: the wake-up is atomic, a stop does not land between
      taking and serving, and no getter left behind takes a request. */
  predicate Orderly(a: State, s: Step) {
    && !s.BreaksWhilePicked?
    && !(s.CancelArrives? && a.task.InSession? && a.task.at.Picked?)
    && !s.OrphanTakes?
  }

  ghost predicate OrderlyUpTo(steps: seq<Step>, states: seq<State>, k: nat)
    requires k <= |steps| && |steps| < |states|
  {
    forall j :: 0 <= j < k ==> Orderly(states[j], steps[j])
  }

  /** In an orderly run every admitted request is queued, in hand or resolved, and all
      are resolved whenever the runner has failed for good or been stopped, however
      often an idle server is stopped and started. */
  lemma {:induction false} OrderlyRunResolvesAll(lim: Limits, steps: seq<Step>, states: seq<State>, k: nat, r: Req)
    requires IsRun(lim, steps, states) && k < |states| && OrderlyUpTo(steps, states, k)
    requires r in states[k].admitted
    ensures r !in states[k].lost
    ensures r in states[k].queue || Hand(states[k].task) == Some(r) || !SetTo(states[k], r, Pending)
    ensures states[k].state.IsFailed? || states[k].state.IsStopped? ==> !SetTo(states[k], r, Pending)
  {
    RunDropsIff(lim, steps, states, k, r);
    RequestsAreConserved(lim, steps, states, k, r);
    RunKeepsInv(lim, steps, states, k);
  }

  /** Whenever the runner has failed for good or the actor has been stopped, every
      admitted request that was not dropped has been resolved. */
  lemma {:induction false} QuietActorHasResolvedAll(lim: Limits, steps: seq<Step>, states: seq<State>, k: nat, r: Req)
    requires IsRun(lim, steps, states) && k < |states|
    requires states[k].state.IsFailed? || states[k].state.IsStopped?
    requires r in states[k].admitted && r !in states[k].lost
    ensures r in states[k].futures && !states[k].futures[r].Pending?
    ensures states[k].queue == []
  {
    RunKeepsInv(lim, steps, states, k);
    RequestsAreConserved(lim, steps, states, k, r);
  }

  /** A dropped request keeps its requester waiting: the actor never answers it, in
      any later state. */
  lemma {:induction false} DroppedIsNeverAnswered(lim: Limits, steps: seq<Step>, states: seq<State>, j: nat, k: nat, r: Req)
    requires IsRun(lim, steps, states) && j <= k < |states| && r in states[j].lost
    ensures r in states[k].lost && r in states[k].futures && Unanswered(states[k].futures[r])
    decreases k
  {
    RunKeepsInv(lim, steps, states, k);
    if j < k {
      DroppedIsNeverAnswered(lim, steps, states, j, k - 1, r);
      StepSetsOnce(lim, states[k - 1], steps[k - 1]);
    }
    assert r in states[k].taken;
    assert r in states[k].admitted;
  }

  /** Failing the session leaves a dropped request as it is. */
  lemma {:induction false} FailureSparesDropped(lim: Limits, a: State, r: Req)
    requires InOrder(a) && Accounted(a) && r in a.lost && r in a.futures && Enabled(a, SessionClosed)
    ensures
      var b := Next(lim, a, SessionClosed);
      b.queue == [] && r in b.lost && r in b.futures && b.futures[r] == a.futures[r]
  {
    Apart(a, r);
  }

  /** The double wake-up, from any reachable idle wait with a queued request: the
      session fails, the queue is empty, and the request is still pending. */
  lemma {:induction false} DoubleWakeUpDropsRequest(lim: Limits, a: State)
    requires Inv(lim, a) && !a.control.AwaitStop? && a.task == InSession(Waiting)
    requires a.queue != [] && a.futures[a.queue[0]].Pending?
    ensures
      var b := Next(lim, a, Take);
      var c := Next(lim, b, BreaksWhilePicked);
      var d := Next(lim, c, SessionClosed);
      d.queue == [] && a.queue[0] in d.lost && a.queue[0] in d.futures && d.futures[a.queue[0]].Pending?
  {
    var b := Next(lim, a, Take);
    var c := Next(lim, b, BreaksWhilePicked);
    StepKeepsInv(lim, a, Take);
    StepKeepsInv(lim, b, BreaksWhilePicked);
    FailureSparesDropped(lim, c, a.queue[0]);
  }

  // ---------------------------------------------------------------- lifecycle

  /** `ready` means a live runner inside a session; requests are admitted only then. */
  lemma {:induction false} ReadyMeansServing(lim: Limits, steps: seq<Step>, states: seq<State>, k: nat)
    requires IsRun(lim, steps, states) && k < |states|
    ensures states[k].state.IsReady? ==> states[k].task.InSession? && states[k].task.at != Opening && states[k].readyEvent
    ensures states[k].queue != [] ==> states[k].task.InSession? || states[k].control.AwaitStop?
    ensures states[k].task.NoTask? ==> states[k].state.IsStopped? && states[k].queue == []
  {
    RunKeepsInv(lim, steps, states, k);
  }

  /** Which start creates a runner: one on an actor without a live runner whose package is
      as registered. A changed package leaves everything as it was, and so does a start on
      a live runner, but for waiting. */
  lemma {:induction false} StartCreatesIff(lim: Limits, a: State, digestOk: bool)
    requires Inv(lim, a) && Enabled(a, StartCall(digestOk))
    ensures
      var b := Next(lim, a, StartCall(digestOk));
      && (!Live(a.task) && digestOk ==>
            b.task.Created? && b.state.IsStarting? && !b.readyEvent && b.attempts == 0 && b.sessions == 0 && b.waited == 0)
      && (Live(a.task) || !digestOk ==> b == a.(control := b.control))
      && (b.control.AwaitReady? <==> Live(a.task) || digestOk)
      && b.queue == a.queue && b.futures == a.futures && b.orphans == a.orphans
  {
  }

  /** A start can succeed: on an actor without a live runner whose package is unchanged the
      runner begins, its session gets ready, the start returns, and requests are admitted. */
  lemma {:induction false} StartCanSucceed(lim: Limits, a: State, r: Req)
    requires Inv(lim, a) && a.control.Idle? && !Live(a.task) && r !in a.futures
    ensures
      var b := Next(lim, a, StartCall(true));
      Enabled(b, RunnerBegins) &&
      var c := Next(lim, b, RunnerBegins);
      Enabled(c, SessionReady) &&
      var d := Next(lim, c, SessionReady);
      Enabled(d, StartSucceeds) &&
      var e := Next(lim, d, StartSucceeds);
      e.control.Idle? && Enabled(e, Admit(r))
  {
  }

  /** A request can be answered: from every idle wait with a queue the one that was
      admitted first is taken, served and answered, and the runner waits again. */
  lemma {:induction false} RequestCanBeAnswered(lim: Limits, a: State)
    requires Inv(lim, a) && !a.control.AwaitStop? && a.task == InSession(Waiting) && a.queue != []
    requires a.futures[a.queue[0]].Pending?
    ensures
      Enabled(a, Take) &&
      var b := Next(lim, a, Take);
      Enabled(b, Proceed) &&
      var c := Next(lim, b, Proceed);
      Enabled(c, Answer) &&
      var d := Next(lim, c, Answer);
      SetTo(d, a.queue[0], Answered) && d.task == InSession(Waiting) && d.queue == a.queue[1..]
  {
  }

  /** A start that returns normally leaves a live runner inside an opened session. */
  lemma {:induction false} StartSucceedsServing(lim: Limits, steps: seq<Step>, states: seq<State>, k: nat)
    requires IsRun(lim, steps, states) && k < |steps| && steps[k].StartSucceeds?
    ensures
      var b := states[k + 1];
      b.state.IsReady? && b.control.Idle? && b.task.InSession? && b.task.at != Opening
  {
    RunKeepsInv(lim, steps, states, k);
  }

  /** The step creates a new runner. */
  predicate Creates(a: State, s: Step) {
    s == StartCall(true) && !Live(a.task)
  }

  /** The runner has had a session ready, in this session or before a restart. */
  ghost predicate WasReady(steps: seq<Step>, states: seq<State>, k: nat)
    requires k <= |steps| && |steps| < |states|
  {
    exists j :: 0 <= j < k && steps[j].SessionReady? && forall i :: j < i < k ==> !Creates(states[i], steps[i])
  }

  lemma {:induction false} WasReadyStep(steps: seq<Step>, states: seq<State>, k: nat)
    requires k < |steps| && |steps| < |states|
    ensures WasReady(steps, states, k + 1) <==>
      steps[k].SessionReady? || (WasReady(steps, states, k) && !Creates(states[k], steps[k]))
  {
    if WasReady(steps, states, k) && !Creates(states[k], steps[k]) {
      var j :| 0 <= j < k && steps[j].SessionReady? && forall i :: j < i < k ==> !Creates(states[i], steps[i]);
      assert forall i :: j < i < k + 1 ==> !Creates(states[i], steps[i]);
    }
  }

  lemma {:induction false} StepSetsEvent(lim: Limits, a: State, s: Step)
    requires Enabled(a, s) && Live(Next(lim, a, s).task)
    ensures Next(lim, a, s).readyEvent <==> s.SessionReady? || (Live(a.task) && a.readyEvent)
    ensures !Creates(a, s) ==> Live(a.task)
  {
  }

  lemma {:induction false} RunSetsEvent(lim: Limits, steps: seq<Step>, states: seq<State>, k: nat)
    requires IsRun(lim, steps, states) && k < |steps| && Live(states[k + 1].task)
    ensures states[k + 1].readyEvent <==> steps[k].SessionReady? || (Live(states[k].task) && states[k].readyEvent)
    ensures Creates(states[k], steps[k]) || Live(states[k].task)
    ensures Creates(states[k], steps[k]) ==> !Live(states[k].task)
  {
    StepSetsEvent(lim, states[k], steps[k]);
  }

  /** What the ready event means while the runner lives: it has been ready since it
      was created, not that it is. */
  lemma {:induction false} EventMeansWasReady(lim: Limits, steps: seq<Step>, states: seq<State>, k: nat)
    requires IsRun(lim, steps, states) && k < |states| && Live(states[k].task)
    ensures states[k].readyEvent <==> WasReady(steps, states, k)
    decreases k
  {
    if k > 0 {
      RunSetsEvent(lim, steps, states, k - 1);
      WasReadyStep(steps, states, k - 1);
      if Live(states[k - 1].task) {
        EventMeansWasReady(lim, steps, states, k - 1);
      }
    }
  }

  /** Between sessions, or in one that is not open yet or failed to open. */
  predicate Restarting(t: Runner) {
    t.Backoff? || t == InSession(Opening) || t == InSession(Closing)
  }

  /** The ready event is not cleared by a restart. A start called on a live runner
      fails at once exactly when the runner was ready before and is not now; that
      happens only around a restart, and leaves the runner alive. */
  lemma {:induction false} StartFailsAtOnceIff(lim: Limits, steps: seq<Step>, states: seq<State>, k: nat, digestOk: bool)
    requires IsRun(lim, steps, states) && k < |states| && states[k].control.Idle? && Live(states[k].task)
    ensures
      var a := states[k];
      var b := Next(lim, a, StartCall(digestOk));
      && (Enabled(b, StartFails) <==> WasReady(steps, states, k) && !a.state.IsReady?)
      && (Enabled(b, StartFails) ==> !Enabled(b, StartSucceeds) && Live(Next(lim, b, StartFails).task) && Restarting(a.task))
      && (Enabled(b, StartSucceeds) <==> a.state.IsReady?)
  {
    RunKeepsInv(lim, steps, states, k);
    EventMeansWasReady(lim, steps, states, k);
    CreatedIsNotReady(lim, steps, states, k);
  }

  lemma {:induction false} CreatedIsNotReady(lim: Limits, steps: seq<Step>, states: seq<State>, k: nat)
    requires IsRun(lim, steps, states) && k < |states|
    ensures states[k].task.Created? ==> !states[k].readyEvent
    decreases k
  {
    if k > 0 {
      CreatedIsNotReady(lim, steps, states, k - 1);
    }
  }

  /** So every start called while a runner that was ready once waits for its restart,
      or opens its session again, fails. */
  lemma {:induction false} StartDuringRestartFails(lim: Limits, a: State, digestOk: bool)
    requires Inv(lim, a) && a.control.Idle? && a.readyEvent && (a.task.Backoff? || a.task == InSession(Opening))
    ensures
      var b := Next(lim, a, StartCall(digestOk));
      Enabled(b, StartFails) && !Enabled(b, StartSucceeds) && Live(Next(lim, b, StartFails).task)
  {
  }

  /** A stop that returns leaves state `stopped`, no runner and an empty queue. */
  lemma {:induction false} StopReturnsStopped(lim: Limits, steps: seq<Step>, states: seq<State>, k: nat)
    requires IsRun(lim, steps, states) && k < |steps|
    requires steps[k].StopReturns? || ((steps[k].StopCall? || steps[k].StartTimesOut?) && states[k + 1].control.Idle?)
    ensures
      var b := states[k + 1];
      b.state.IsStopped? && b.task.NoTask? && b.queue == [] && b.control.Idle?
  {
    RunKeepsInv(lim, steps, states, k);
  }

  /** How many runner steps a pending stop still has to wait for. */
  function StopRank(t: Runner): nat {
    match t
    case InSession(_) => 2
    case Finished => 0
    case NoTask => 0
    case _ => 1
  }

  /** A pending stop cannot be held up: the runner always has its next step, each
      such step brings it closer, nothing else sets it back, and no request is admitted. */
  lemma {:induction false} StopMakesProgress(lim: Limits, a: State, s: Step)
    requires InStep(a) && a.control.AwaitStop? && Enabled(a, s)
    ensures Enabled(a, CancelArrives) || Enabled(a, Unwound) || Enabled(a, StopReturns)
    ensures !s.Admit?
    ensures s.StopReturns? || Next(lim, a, s).control.AwaitStop?
    ensures s.CancelArrives? || s.Unwound? ==> StopRank(Next(lim, a, s).task) < StopRank(a.task)
    ensures !s.StopReturns? ==> StopRank(Next(lim, a, s).task) <= StopRank(a.task)
  {
  }

  // ---------------------------------------------------------------- restarts

  /** One start opens at most 1 + max_restarts sessions: a session that became ready
      does not reset the count. */
  lemma {:induction false} SessionsAreBounded(lim: Limits, steps: seq<Step>, states: seq<State>, k: nat)
    requires IsRun(lim, steps, states) && k < |states|
    ensures states[k].sessions <= 1 + lim.maxRestarts
    ensures !lim.restartOnFailure ==> states[k].sessions <= 1
    ensures states[k].waited == TotalDelay(states[k].attempts) && states[k].attempts <= lim.maxRestarts
  {
    RunKeepsInv(lim, steps, states, k);
  }

  /** How many sessions there have been, and when the runner gives up. */
  ghost predicate Counted(lim: Limits, a: State) {
    && (a.task.Created? ==> a.sessions == 0 && a.attempts == 0)
    && (a.task.InSession? ==> a.sessions == a.attempts + 1)
    && (a.task.Backoff? ==> a.sessions == a.attempts)
    && (a.task.Finished? && a.state.IsFailed? ==>
          a.sessions == a.attempts + 1 && (!lim.restartOnFailure || a.attempts == lim.maxRestarts))
  }

  lemma {:induction false} StepKeepsCount(lim: Limits, a: State, s: Step)
    requires Bounded(lim, a) && InStep(a) && Counted(lim, a) && Enabled(a, s)
    ensures Counted(lim, Next(lim, a, s))
  {
  }

  /** The runner fails for good only when restarts are off or all of them are used up:
      with restarts on, only after 1 + max_restarts sessions. */
  lemma {:induction false} GivesUpWhenExhausted(lim: Limits, steps: seq<Step>, states: seq<State>, k: nat)
    requires IsRun(lim, steps, states) && k < |states|
    ensures Counted(lim, states[k])
    decreases k
  {
    if k > 0 {
      GivesUpWhenExhausted(lim, steps, states, k - 1);
      RunKeepsInv(lim, steps, states, k - 1);
      StepKeepsCount(lim, states[k - 1], steps[k - 1]);
    }
  }

  /** No session is open, or the one that was is being left. */
  predicate Leaving(t: Runner) {
    !t.InSession? || t.at.Closing?
  }

  ghost predicate OpensBetween(steps: seq<Step>, j: nat, k: nat)
    requires k <= |steps|
  {
    exists i :: j < i < k && (steps[i].RunnerBegins? || steps[i].BackoffOver?)
  }

  /** A call that raises, an exit and a break end the session: no further request is taken
      or served before another one is opened. */
  lemma {:induction false} FailureEndsSession(lim: Limits, steps: seq<Step>, states: seq<State>, j: nat, k: nat)
    requires IsRun(lim, steps, states) && j < k < |states|
    requires steps[j].AnswerFails? || steps[j].SessionBreaks? || steps[j].BreaksWhilePicked?
    ensures Leaving(states[k].task) || OpensBetween(steps, j, k)
    decreases k
  {
    if j + 1 < k {
      FailureEndsSession(lim, steps, states, j, k - 1);
      if Leaving(states[k - 1].task) {
        LeavingStays(lim, steps, states, k - 1);
      } else {
        var i :| j < i < k - 1 && (steps[i].RunnerBegins? || steps[i].BackoffOver?);
      }
    } else {
      assert Enabled(states[j], steps[j]) && states[j + 1] == Next(lim, states[j], steps[j]);
    }
  }

  lemma {:induction false} LeavingStays(lim: Limits, steps: seq<Step>, states: seq<State>, k: nat)
    requires IsRun(lim, steps, states) && k < |steps| && Leaving(states[k].task)
    ensures Leaving(states[k + 1].task) || steps[k].RunnerBegins? || steps[k].BackoffOver?
  {
    var a, s := states[k], steps[k];
    assert Enabled(a, s) && states[k + 1] == Next(lim, a, s);
  }

  /** n restarts wait 2^n - 1 seconds in all up to five, and 30 more for each after that. */
  lemma {:induction false} TotalDelayClosedForm(n: nat)
    ensures TotalDelay(n) == if n <= 5 then Pow2(n) - 1 else 31 + 30 * (n - 5)
    decreases n
  {
    if n > 0 {
      TotalDelayClosedForm(n - 1);
      if n > 5 {
        Pow2Grows(5, n - 1);
        assert Pow2(5) == 32;
      } else {
        Pow2Grows(n - 1, 4);
        assert Pow2(4) == 16;
      }
    }
  }

  lemma {:induction false} Pow2Grows(a: nat, b: nat)
    requires a <= b
    ensures Pow2(a) <= Pow2(b)
    decreases b
  {
    if a < b {
      Pow2Grows(a, b - 1);
    }
  }

  /** With the schema's bound of twenty restarts, one start waits at most 481 seconds. */
  lemma {:induction false} WaitsAreBounded(lim: Limits, steps: seq<Step>, states: seq<State>, k: nat)
    requires IsRun(lim, steps, states) && k < |states| && lim.maxRestarts <= 20
    ensures states[k].waited <= 481
  {
    SessionsAreBounded(lim, steps, states, k);
    TotalDelayClosedForm(states[k].attempts);
    if states[k].attempts <= 5 {
      Pow2Grows(states[k].attempts, 5);
      assert Pow2(5) == 32;
    }
  }
}
