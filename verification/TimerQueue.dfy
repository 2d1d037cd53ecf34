/** The timer queue's life: callers add and cancel timers through a queue of requests, and a worker
    thread that dies when it has had nothing to do for a while and is started again by the next add.

    One step is one critical section, one request, or one timer that the worker finds due.  When a
    timer is due is left to chance. */
module TimerQueue {
  import opened Collections

  type Tid = nat

  datatype Request = Add(t: Tid) | Remove(t: Tid)

  /** `removed` once its removal has been processed. */
  datatype Timer = Timer(oneShot: bool, cancelled: bool, asked: bool, fired: nat, removed: bool)

  datatype Worker =
    | Ended                            // no thread, or one that is on its way out
    | Looking                          // at the top of work_loop
    | Handling(batch: seq<Request>)    // in process_request_queue
    | Firing                           // in the loop of process_timers

  datatype State = State(
    timers: map<Tid, Timer>,           // every timer ever made
    live: set<Tid>,                    // the worker's own set
    requests: seq<Request>,
    worker: Worker,
    idle: bool,
    abort: bool)

  datatype Step =
    | Make(t: Tid, oneShot: bool)      // add_timer
    | Cancel(t: Tid)                   // Timer::cancel sets the flag
    | Ask(t: Tid)                      // and then queues the removal
    | Take                             // work_loop takes the requests
    | TimeOut                          // nothing came for max_waiting_time
    | Handle                           // the first request of the batch
    | Due(t: Tid)                      // a timer has expired
    | Done                             // process_timers returns
    | Shutdown

  predicate Enabled(s: State, step: Step) {
    match step
    case Make(t, _) => t !in s.timers
    case Cancel(t) => t in s.timers && !s.timers[t].cancelled
    case Ask(t) => t in s.timers && s.timers[t].cancelled && !s.timers[t].asked
    case Take => s.worker.Looking? && (s.live != {} || s.requests != [] || s.abort)
    case TimeOut => s.worker.Looking? && s.live == {} && s.requests == [] && !s.abort
    case Handle => s.worker.Handling? && s.worker.batch != []
    case Due(t) => s.worker.Firing? && t in s.live && t in s.timers
    case Done => s.worker.Firing? || s.worker == Handling([])
    case Shutdown => true
  }

  function Apply(s: State, step: Step): State
    requires Enabled(s, step)
  {
    match step
    case Make(t, oneShot) =>
      if s.abort then s
      else
        s.(timers := s.timers[t := Timer(oneShot, false, false, 0, false)],
           worker := if s.idle then Looking else s.worker, idle := false, requests := s.requests + [Add(t)])
    case Cancel(t) => s.(timers := s.timers[t := s.timers[t].(cancelled := true)])
    case Ask(t) => s.(timers := s.timers[t := s.timers[t].(asked := true)], requests := s.requests + [Remove(t)])
    case Take => if s.abort then s.(worker := Ended, live := {}) else s.(worker := Handling(s.requests), requests := [])
    case TimeOut => s.(worker := Ended, idle := true)
    case Handle => HandleOne(s.(worker := Handling(s.worker.batch[1..])), s.worker.batch[0])
    case Due(t) =>
      var timer := s.timers[t];
      var fires := !timer.cancelled;
      s.(timers := if fires then s.timers[t := timer.(fired := timer.fired + 1)] else s.timers,
         live := if timer.oneShot || timer.cancelled then s.live - {t} else s.live)
    case Done => if s.worker.Firing? then s.(worker := Looking) else s.(worker := Firing)
    case Shutdown => if s.abort then s else s.(abort := true, requests := [])
  }

  function HandleOne(s: State, r: Request): State {
    match r
    case Add(t) => s.(live := s.live + {t})
    case Remove(t) =>
      if t in s.timers then s.(live := s.live - {t}, timers := s.timers[t := s.timers[t].(removed := true)])
      else s.(live := s.live - {t})
  }

  /** The assertions of add_timer_internal and remove_timer_internal, and that a timer whose removal
      was processed does not fire. */
  predicate Asserts(s: State, step: Step)
    requires Enabled(s, step)
  {
    match step
    case Handle =>
      var r := s.worker.batch[0];
      if r.Add? then r.t !in s.live
      else r.t in s.live || (r.t in s.timers && (s.timers[r.t].oneShot || s.timers[r.t].cancelled))
    case Due(t) => !s.timers[t].removed
    case _ => true
  }

  // ---- What holds in every state ---------------------------------------------------------------

  /** The requests that have not been handled, oldest first. */
  function Queued(s: State): seq<Request> {
    (if s.worker.Handling? then s.worker.batch else []) + s.requests
  }

  /** No timer is removed before it is added. */
  predicate AddsFirst(q: seq<Request>) {
    forall i, j :: 0 <= i < j < |q| && q[i].Remove? ==> q[j] != Add(q[i].t)
  }

  predicate QueueOk(q: seq<Request>) {
    Distinct(q) && AddsFirst(q)
  }

  predicate TimerOk(s: State, q: seq<Request>, t: Tid) {
    if t !in s.timers then t !in s.live && Add(t) !in q && Remove(t) !in q
    else
      var timer := s.timers[t];
      && (Add(t) in q ==> t !in s.live && timer.fired == 0 && !timer.removed)
      && (t in s.live ==> !timer.removed && (timer.oneShot ==> timer.fired == 0))
      && (timer.oneShot ==> timer.fired <= 1)
      && (Remove(t) in q ==> timer.asked && !timer.removed)
      && (timer.asked ==> timer.cancelled) && (timer.removed ==> timer.asked)
      && (s.abort || (Kept(s, q, t) && (timer.asked && !timer.removed ==> Remove(t) in q)))
  }

  /** A timer that was added is queued or in the set until it has fired its one shot or is cancelled. */
  predicate Kept(s: State, q: seq<Request>, t: Tid)
    requires t in s.timers
  {
    Add(t) in q || t in s.live || (s.timers[t].oneShot && s.timers[t].fired > 0) || s.timers[t].cancelled
  }

  ghost predicate Inv(s: State) {
    && QueueOk(Queued(s))
    && (forall t :: TimerOk(s, Queued(s), t))
    && (s.idle ==> s.worker.Ended? && s.live == {} && forall t :: Add(t) !in s.requests)
    && (s.worker.Ended? ==> s.live == {} && (s.idle || s.abort))
  }

  predicate Init(s: State) {
    s == State(map[], {}, [], Ended, true, false)
  }

  lemma AppendOk(q: seq<Request>, r: Request)
    requires QueueOk(q) && r !in q && (r.Add? ==> Remove(r.t) !in q)
    ensures QueueOk(q + [r])
  {
    forall i | 0 <= i < |q|
      ensures q[i] != r && (q[i].Remove? && r.Add? ==> q[i].t != r.t)
    {
      assert q[i] in q;
    }
  }

  lemma MakeKeeps(s: State, t: Tid, oneShot: bool)
    requires Inv(s) && Enabled(s, Make(t, oneShot))
    ensures Inv(Apply(s, Make(t, oneShot)))
    ensures
      var after := Apply(s, Make(t, oneShot));
      !s.abort ==> !after.worker.Ended? && (after.worker != s.worker <==> s.worker.Ended?) && (s.idle <==> s.worker.Ended?)
  {
    var after := Apply(s, Make(t, oneShot));
    if !s.abort {
      assert TimerOk(s, Queued(s), t);
      assert Queued(after) == Queued(s) + [Add(t)];
      AppendOk(Queued(s), Add(t));
      forall u
        ensures TimerOk(after, Queued(after), u)
      {
        assert TimerOk(s, Queued(s), u);
      }
    }
  }

  lemma AskKeeps(s: State, t: Tid)
    requires Inv(s) && Enabled(s, Ask(t))
    ensures Inv(Apply(s, Ask(t)))
  {
    var after := Apply(s, Ask(t));
    assert TimerOk(s, Queued(s), t);
    assert Queued(after) == Queued(s) + [Remove(t)];
    AppendOk(Queued(s), Remove(t));
    forall u
      ensures TimerOk(after, Queued(after), u)
    {
      assert TimerOk(s, Queued(s), u);
    }
  }

  /** Steps that leave the queue as it is. */
  lemma QuietKeeps(s: State, step: Step)
    requires Inv(s) && Enabled(s, step) && (step.Cancel? || step.TimeOut? || step.Due? || step.Done?)
    ensures Inv(Apply(s, step))
  {
    var after := Apply(s, step);
    assert Queued(after) == Queued(s);
    forall u
      ensures TimerOk(after, Queued(after), u)
    {
      assert TimerOk(s, Queued(s), u);
    }
  }

  lemma TakeKeeps(s: State)
    requires Inv(s) && Enabled(s, Take)
    ensures Inv(Apply(s, Take))
  {
    var after := Apply(s, Take);
    assert Queued(after) == Queued(s);
    forall u
      ensures TimerOk(after, Queued(after), u)
    {
      assert TimerOk(s, Queued(s), u);
    }
  }

  lemma ShutdownKeeps(s: State)
    requires Inv(s)
    ensures Inv(Apply(s, Shutdown))
  {
    var after := Apply(s, Shutdown);
    var q := Queued(after);
    assert q == Queued(s)[..|q|];
    forall u
      ensures TimerOk(after, q, u)
    {
      assert TimerOk(s, Queued(s), u);
    }
  }

  lemma HandleKeeps(s: State)
    requires Inv(s) && Enabled(s, Handle)
    ensures Inv(Apply(s, Handle)) && Asserts(s, Handle)
    ensures
      var after, r := Apply(s, Handle), s.worker.batch[0];
      && after.live == (if r.Add? then s.live + {r.t} else s.live - {r.t})
      && (r.Remove? ==> r.t in after.timers && after.timers[r.t].removed)
  {
    var after := Apply(s, Handle);
    var q, r := Queued(s), s.worker.batch[0];
    assert q[0] == r && Queued(after) == q[1..];
    assert r in q && TimerOk(s, q, r.t);
    assert r !in q[1..] && (r.Remove? ==> Add(r.t) !in q[1..]);
    assert forall x :: x in q <==> x == r || x in q[1..];
    forall u
      ensures TimerOk(after, q[1..], u)
    {
      assert TimerOk(s, q, u);
    }
  }

  lemma StepKeeps(s: State, step: Step)
    requires Inv(s) && Enabled(s, step)
    ensures Inv(Apply(s, step)) && Asserts(s, step)
  {
    match step
    case Make(t, oneShot) => MakeKeeps(s, t, oneShot);
    case Ask(t) => AskKeeps(s, t);
    case Take => TakeKeeps(s);
    case Handle => HandleKeeps(s);
    case Shutdown => ShutdownKeeps(s);
    case Due(t) => assert TimerOk(s, Queued(s), t); QuietKeeps(s, step);
    case _ => QuietKeeps(s, step);
  }

  // ---- Every run -------------------------------------------------------------------------------

  /** A one-shot timer fires at most once; a worker that has ended leaves no timer behind, and an idle queue no
      add to handle; and until shutdown no timer that was added is lost, and no removal that was asked for. */
  ghost predicate Promised(s: State) {
    && (forall t :: t in s.timers && s.timers[t].oneShot ==> s.timers[t].fired <= 1)
    && (s.idle || s.worker.Ended? ==> s.live == {})
    && (s.idle ==> forall t :: Add(t) !in Queued(s))
    && (!s.abort ==> forall t :: t in s.timers && !s.timers[t].cancelled && !(s.timers[t].oneShot && s.timers[t].fired > 0) ==>
          (Add(t) in Queued(s) || t in s.live) && !s.worker.Ended?)
    && (!s.abort ==> forall t :: t in s.timers && s.timers[t].asked && !s.timers[t].removed ==> Remove(t) in Queued(s))
  }

  lemma InvPromises(s: State)
    requires Inv(s)
    ensures Promised(s)
  {
    forall t | t in s.timers
      ensures s.timers[t].oneShot ==> s.timers[t].fired <= 1
      ensures !s.abort && !s.timers[t].cancelled && !(s.timers[t].oneShot && s.timers[t].fired > 0) ==>
                (Add(t) in Queued(s) || t in s.live) && !s.worker.Ended?
      ensures !s.abort && s.timers[t].asked && !s.timers[t].removed ==> Remove(t) in Queued(s)
    {
      assert TimerOk(s, Queued(s), t);
    }
    assert s.idle ==> Queued(s) == s.requests;
  }

  /** A worker ends when it has had nothing to do for a while or finds the queue shut down, and a new one
      starts with the next timer.  The first shutdown drops the requests nobody has taken; another does
      nothing. */
  predicate Lives(s: State, step: Step)
    requires Enabled(s, step)
  {
    var after := Apply(s, step);
    && (after.worker.Ended? <==>
          step.TimeOut? || (step.Take? && s.abort) || (s.worker.Ended? && !(step.Make? && !s.abort)))
    && (step.Shutdown? ==> if s.abort then after == s else after.requests == [] && after.live == s.live)
  }

  ghost predicate Safe(s: State, run: seq<Step>)
    decreases |run|
  {
    && Promised(s)
    && (run != [] && Enabled(s, run[0]) ==>
          Asserts(s, run[0]) && Lives(s, run[0]) && Safe(Apply(s, run[0]), run[1..]))
  }

  lemma {:induction false} RunSafe(s: State, run: seq<Step>)
    requires Inv(s)
    ensures Safe(s, run)
    decreases |run|
  {
    InvPromises(s);
    if run != [] && Enabled(s, run[0]) {
      assert Lives(s, run[0]);
      hide Inv, Promised, Lives;
      StepKeeps(s, run[0]);
      RunSafe(Apply(s, run[0]), run[1..]);
    }
  }

  /** For any callers, any timers and any interleaving, with workers ending and starting again. */
  lemma EveryRunSafe(s: State, run: seq<Step>)
    requires Init(s)
    ensures Safe(s, run)
  {
    RunSafe(s, run);
  }

  // ---- What was asked for ------------------------------------------------------------------------

  ghost predicate Runs(s: State, run: seq<Step>)
    decreases |run|
  {
    run == [] || (Enabled(s, run[0]) && Runs(Apply(s, run[0]), run[1..]))
  }

  ghost function After(s: State, run: seq<Step>): State
    requires Runs(s, run)
    decreases |run|
  {
    if run == [] then s else After(Apply(s, run[0]), run[1..])
  }

  /** The kind of timer `t` in the call that makes it, which no shutdown comes before. */
  function Made(run: seq<Step>, t: Tid): Option<bool> {
    if run == [] || run[0].Shutdown? then None
    else if run[0].Make? && run[0].t == t then Some(run[0].oneShot)
    else Made(run[1..], t)
  }

  /** How often timer `t` is due before it is cancelled. */
  function DueBefore(run: seq<Step>, t: Tid): nat {
    if run == [] || run[0] == Cancel(t) then 0
    else (if run[0] == Due(t) then 1 else 0) + DueBefore(run[1..], t)
  }

  lemma StepTells(s: State, step: Step, t: Tid)
    requires Enabled(s, step)
    ensures
      var after := Apply(s, step);
      && (after.abort <==> s.abort || step.Shutdown?)
      && (t in after.timers <==> t in s.timers || (!s.abort && step.Make? && step.t == t))
      && (t in after.timers && t !in s.timers ==> after.timers[t] == Timer(step.oneShot, false, false, 0, false))
      && (t in s.timers ==>
            && after.timers[t].oneShot == s.timers[t].oneShot
            && (after.timers[t].cancelled <==> s.timers[t].cancelled || step == Cancel(t))
            && (after.timers[t].asked <==> s.timers[t].asked || step == Ask(t))
            && after.timers[t].fired == s.timers[t].fired + if step == Due(t) && !s.timers[t].cancelled then 1 else 0)
  {
  }

  /** Which timers there are, of which kind, whether they are cancelled and how often they have fired is
      read off the calls and expiries of the run. */
  lemma {:induction false} TimersAsAsked(s: State, run: seq<Step>, t: Tid)
    requires Runs(s, run)
    ensures
      var after := After(s, run);
      && (after.abort <==> s.abort || Shutdown in run)
      && (t in s.timers ==>
            && t in after.timers && after.timers[t].oneShot == s.timers[t].oneShot
            && (after.timers[t].cancelled <==> s.timers[t].cancelled || Cancel(t) in run)
            && (after.timers[t].asked <==> s.timers[t].asked || Ask(t) in run)
            && after.timers[t].fired == s.timers[t].fired + if s.timers[t].cancelled then 0 else DueBefore(run, t))
      && (t !in s.timers ==>
            && (t in after.timers <==> !s.abort && Made(run, t).Some?)
            && (t in after.timers ==>
                  && after.timers[t].oneShot == Made(run, t).value
                  && (after.timers[t].cancelled <==> Cancel(t) in run) && (after.timers[t].asked <==> Ask(t) in run)
                  && after.timers[t].fired == DueBefore(run, t)))
    decreases |run|
  {
    if run != [] {
      var step, next := run[0], Apply(s, run[0]);
      StepTells(s, step, t);
      assert t !in s.timers ==> step != Cancel(t) && step != Ask(t) && step != Due(t);
      assert forall x :: x in run <==> x == step || x in run[1..];
      hide Apply, Enabled;
      TimersAsAsked(next, run[1..], t);
    }
  }

  // ---- What is bound to happen -------------------------------------------------------------------

  predicate Pending(s: State, t: Tid) {
    !s.abort && t in s.timers && !s.timers[t].cancelled && !(s.timers[t].oneShot && s.timers[t].fired > 0)
  }

  /** What the worker does next so that timer `t` fires. */
  function Next(s: State, t: Tid): Step {
    match s.worker
    case Looking => Take
    case Handling(batch) => if batch == [] then Done else Handle
    case Firing => if t in s.live then Due(t) else Done
    case Ended => Take
  }

  /** How far timer `t` is from firing. */
  function ToFiring(s: State, t: Tid): nat {
    var here := match s.worker
      case Handling(batch) => |batch| + 2
      case Firing => 1
      case _ => |s.requests| + 3;
    if t in s.live || (s.worker.Handling? && Add(t) in s.worker.batch) || s.worker.Looking? then here
    else here + |s.requests| + 4
  }

  lemma NextNearer(s: State, t: Tid)
    requires Inv(s) && Pending(s, t)
    ensures Enabled(s, Next(s, t)) && ByWorker(Next(s, t))
    ensures
      var after := Apply(s, Next(s, t));
      if Next(s, t) == Due(t) then after.timers[t].fired == s.timers[t].fired + 1
      else Pending(after, t) && after.timers[t].fired == s.timers[t].fired && ToFiring(after, t) < ToFiring(s, t)
  {
    assert TimerOk(s, Queued(s), t);
  }

  predicate ByWorker(step: Step) {
    step.Take? || step.Handle? || step.Due? || step.Done?
  }

  lemma {:induction false} TimerFires(s: State, t: Tid) returns (run: seq<Step>)
    requires Inv(s) && Pending(s, t)
    ensures forall i :: 0 <= i < |run| ==> ByWorker(run[i])
    ensures Runs(s, run) && t in After(s, run).timers && After(s, run).timers[t].fired == s.timers[t].fired + 1
    decreases ToFiring(s, t)
  {
    var step := Next(s, t);
    NextNearer(s, t);
    StepKeeps(s, step);
    var after := Apply(s, step);
    if step == Due(t) {
      run := Then(s, step, []);
    } else {
      hide Inv, Apply, Enabled, ToFiring, Next, Pending;
      var rest := TimerFires(after, t);
      run := Then(s, step, rest);
    }
  }

  lemma Then(s: State, step: Step, rest: seq<Step>) returns (run: seq<Step>)
    requires Enabled(s, step) && Runs(Apply(s, step), rest)
    ensures run == [step] + rest && Runs(s, run) && After(s, run) == After(Apply(s, step), rest)
  {
    run := [step] + rest;
    assert run[1..] == rest;
  }

  lemma {:induction false} RunKeeps(s: State, run: seq<Step>)
    requires Inv(s) && Runs(s, run)
    ensures Inv(After(s, run))
    decreases |run|
  {
    if run != [] {
      StepKeeps(s, run[0]);
      hide Inv, Apply, Enabled;
      RunKeeps(Apply(s, run[0]), run[1..]);
    }
  }

  /** After any run, a timer that was made before any shutdown, is not cancelled and is not a one-shot that has
      fired can be brought to fire once more by the worker alone. */
  lemma EveryTimerFires(s: State, run: seq<Step>, t: Tid) returns (more: seq<Step>)
    requires Init(s) && Runs(s, run)
    requires Made(run, t).Some? && Shutdown !in run && Cancel(t) !in run && !(Made(run, t).value && DueBefore(run, t) > 0)
    ensures forall i :: 0 <= i < |more| ==> ByWorker(more[i])
    ensures Runs(After(s, run), more) && t in After(After(s, run), more).timers
    ensures After(After(s, run), more).timers[t].fired == DueBefore(run, t) + 1
  {
    TimersAsAsked(s, run, t);
    RunKeeps(s, run);
    var now := After(s, run);
    hide After, Inv, Made, DueBefore;
    more := TimerFires(now, t);
  }
}
