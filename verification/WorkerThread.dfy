/** The single-worker executor: a public queue under a lock, a private queue of the worker, a
    semaphore, and a shutdown that joins the worker.

    One step is one critical section, one semaphore operation, one atomic access or one stretch of
    the worker's own code.  `Release` keeps at most `cap` tokens, so that the same proof covers a
    counting semaphore and one that saturates. */
module WorkerThread {

  /** A task that has been moved from runs as nothing. */
  datatype Task = Empty | Job(id: nat)

  /** A queued task and whether it came through the public queue. */
  datatype Item = Item(task: Task, foreign: bool)

  datatype Worker =
    | NotStarted
    | Entering                       // about to lock in drain_queue
    | Blocked                        // has unlocked, is in semaphore_.acquire()
    | Woken                          // has acquired, about to lock again
    | Draining                       // at the top of drain_queue_impl
    | Popped(item: Item)             // has taken the front, about to test for abort
    | Running(item: Item)
    | Falling(item: Item, count: nat)  // enqueued locally, goes on to the public queue
    | Releasing(item: Item)          // inside a task, about to release
    | Ended

  datatype Other =
    | Outside
    | Notifying                      // enqueued into an empty queue, about to release
    | Aborting                       // won the exchange in shutdown
    | AbortSet                       // set abort_
    | PrivateSet                     // set private_atomic_abort_
    | Joining
    | Clearing
    | ShutDown                       // the first shutdown has returned

  type Tid = nat

  datatype State = State(
    public: seq<Item>,
    private: seq<Item>,
    tokens: nat,
    abort: bool,
    privateAbort: bool,
    atomicAbort: bool,
    worker: Worker,
    others: map<Tid, Other>,
    arrived: seq<Item>,   // history: what was put into either queue
    executed: seq<Item>,  // history: what the worker ran
    dropped: seq<Item>)   // history: what shutdown threw away

  datatype Step =
    | Enqueue(t: Tid, tasks: seq<Task>) | Notify(t: Tid)
    | Exchange(t: Tid) | SetAbort(t: Tid) | SetPrivate(t: Tid) | ReleaseLast(t: Tid) | Join(t: Tid) | Clear(t: Tid)
    | Enter | Acquire | Relock | Pop | Check | Finish
    | EnqueueSelf(own: seq<Task>) | FallThrough | ReleaseSelf

  function Release(tokens: nat, cap: nat): nat {
    if tokens < cap then tokens + 1 else tokens
  }

  function Items(tasks: seq<Task>, foreign: bool): seq<Item> {
    seq(|tasks|, i requires 0 <= i < |tasks| => Item(tasks[i], foreign))
  }

  /** What is left of tasks that have been moved from. */
  function Husks(n: nat): seq<Item> {
    seq(n, i => Item(Empty, true))
  }

  predicate Enabled(s: State, step: Step) {
    match step
    case Enqueue(t, _) => t in s.others && s.others[t].Outside?
    case Notify(t) => t in s.others && s.others[t].Notifying?
    case Exchange(t) => t in s.others && s.others[t].Outside?
    case SetAbort(t) => t in s.others && s.others[t].Aborting?
    case SetPrivate(t) => t in s.others && s.others[t].AbortSet?
    case ReleaseLast(t) => t in s.others && s.others[t].PrivateSet?
    case Join(t) => t in s.others && s.others[t].Joining? && (s.worker.NotStarted? || s.worker.Ended?)
    case Clear(t) => t in s.others && s.others[t].Clearing?
    case Enter => s.worker.Entering?
    case Acquire => s.worker.Blocked? && s.tokens > 0
    case Relock => s.worker.Woken?
    case Pop => s.worker.Draining?
    case Check => s.worker.Popped?
    case Finish => s.worker.Running?
    case EnqueueSelf(_) => s.worker.Running?
    case FallThrough => s.worker.Falling?
    case ReleaseSelf => s.worker.Releasing?
  }

  function With(s: State, t: Tid, pc: Other): State {
    s.(others := s.others[t := pc])
  }

  /** enqueue_foreign; a queue that has been aborted refuses. */
  function Arrive(s: State, items: seq<Item>): State {
    s.(public := s.public + items, arrived := s.arrived + items)
  }

  /** drain_queue after wait_for_task: go, take everything, or wait. */
  function Look(s: State): State {
    if s.abort then s.(worker := Ended)
    else if s.public != [] then s.(private := s.public, public := s.private, worker := Draining)
    else s.(worker := Blocked)
  }

  function Apply(s: State, step: Step, cap: nat): State
    requires Enabled(s, step)
  {
    match step
    case Enqueue(t, tasks) =>
      if s.abort then s
      else
        var next := Arrive(s, Items(tasks, true));
        if s.worker.NotStarted? then next.(worker := Entering)
        else if s.public == [] then With(next, t, Notifying)
        else next
    case Notify(t) => With(s.(tokens := Release(s.tokens, cap)), t, Outside)
    case Exchange(t) => if s.atomicAbort then s else With(s.(atomicAbort := true), t, Aborting)
    case SetAbort(t) => With(s.(abort := true), t, AbortSet)
    case SetPrivate(t) => With(s.(privateAbort := true), t, PrivateSet)
    case ReleaseLast(t) => With(s.(tokens := Release(s.tokens, cap)), t, Joining)
    case Join(t) => With(s, t, Clearing)
    case Clear(t) => With(s.(private := [], public := [], dropped := s.dropped + s.private + s.public), t, ShutDown)
    case Enter => Look(s)
    case Acquire => s.(tokens := s.tokens - 1, worker := Woken)
    case Relock => Look(s)
    case Pop => if s.private == [] then s.(worker := Entering) else s.(private := s.private[1..], worker := Popped(s.private[0]))
    case Check =>
      if s.privateAbort then s.(worker := Ended, dropped := s.dropped + [s.worker.item])
      else s.(worker := Running(s.worker.item), executed := s.executed + [s.worker.item])
    case Finish => s.(worker := Draining)
    case EnqueueSelf(own) =>
      if s.privateAbort then s
      else s.(private := s.private + Items(own, false), arrived := s.arrived + Items(own, false),
              worker := Falling(s.worker.item, |own|))
    case FallThrough =>
      if s.abort then s.(worker := Running(s.worker.item))
      else
        var next := Arrive(s, Husks(s.worker.count));
        next.(worker := if s.public == [] then Releasing(s.worker.item) else Running(s.worker.item))
    case ReleaseSelf => s.(tokens := Release(s.tokens, cap), worker := Running(s.worker.item))
  }

  // ---- What holds in every state ---------------------------------------------------------------

  /** The items of one origin, in order. */
  function Of(items: seq<Item>, foreign: bool): (r: seq<Item>) {
    if items == [] then [] else Of(items[..|items| - 1], foreign) + (if items[|items| - 1].foreign == foreign then [items[|items| - 1]] else [])
  }

  lemma {:induction false} OfPlus(a: seq<Item>, b: seq<Item>, foreign: bool)
    ensures Of(a + b, foreign) == Of(a, foreign) + Of(b, foreign)
    decreases |b|
  {
    if b == [] {
      assert a + b == a;
    } else {
      OfPlus(a, b[..|b| - 1], foreign);
      assert (a + b)[..|a + b| - 1] == a + b[..|b| - 1];
    }
  }

  /** What the worker has in hand and has not run. */
  function InHand(s: State): seq<Item> {
    if s.worker.Popped? then [s.worker.item] else []
  }

  function All(s: State): seq<Item> {
    s.executed + s.dropped + InHand(s) + s.private + s.public
  }

  /** Of either origin, what was run or dropped, what the worker holds and what still waits are
      together everything that arrived, in its order. */
  ghost predicate InOrder(s: State, foreign: bool) {
    Of(s.arrived, foreign) == Of(All(s), foreign)
  }

  predicate Waking(o: Other) {
    o.Notifying? || o.AbortSet? || o.PrivateSet?
  }

  /** No wakeup is lost: a blocked worker that has something to do can acquire, or somebody is about to release. */
  ghost predicate Wakes(s: State) {
    s.worker.Blocked? && (s.public != [] || s.abort) ==> s.tokens > 0 || exists t :: t in s.others && Waking(s.others[t])
  }

  predicate ShuttingDown(o: Other) {
    o.Aborting? || o.AbortSet? || o.PrivateSet? || o.Joining? || o.Clearing? || o.ShutDown?
  }

  predicate OtherOk(s: State, o: Other) {
    && (ShuttingDown(o) ==> s.atomicAbort)
    && (ShuttingDown(o) && !o.Aborting? ==> s.abort)
    && (o.PrivateSet? || o.Joining? || o.Clearing? || o.ShutDown? ==> s.privateAbort)
    && (o.Clearing? || o.ShutDown? ==> s.worker.NotStarted? || s.worker.Ended?)
    && (o.ShutDown? ==> s.public == [] && s.private == [])
  }

  predicate WorkerOk(s: State) {
    && (s.worker.NotStarted? ==> s.public == [] && s.executed == [])
    && (s.worker.NotStarted? || s.worker.Entering? || s.worker.Blocked? || s.worker.Woken? ==> s.private == [])
    && (s.dropped != [] ==> s.worker.Ended?)
    && (s.privateAbort ==> s.abort) && (s.abort ==> s.atomicAbort)
    && (s.worker.Ended? ==> s.abort)
  }

  predicate OthersOk(s: State) {
    forall t :: t in s.others ==> OtherOk(s, s.others[t])
  }

  /** One thread shuts down, and it has begun when the flag is set. */
  ghost predicate OneShutsDown(s: State) {
    && (forall t, u :: t in s.others && u in s.others && ShuttingDown(s.others[t]) && ShuttingDown(s.others[u]) ==> t == u)
    && (s.atomicAbort ==> exists t :: t in s.others && ShuttingDown(s.others[t]))
  }

  predicate PublicIsForeign(s: State) {
    forall i :: 0 <= i < |s.public| ==> s.public[i].foreign
  }

  ghost predicate Inv(s: State) {
    && InOrder(s, true) && InOrder(s, false)
    && Wakes(s) && WorkerOk(s) && OthersOk(s) && OneShutsDown(s) && PublicIsForeign(s)
  }

  predicate Init(s: State) {
    s == State([], [], 0, false, false, false, NotStarted, s.others, [], [], [])
    && forall t :: t in s.others ==> s.others[t].Outside?
  }

  lemma {:induction false} OfNone(items: seq<Item>, foreign: bool)
    requires forall i :: 0 <= i < |items| ==> items[i].foreign != foreign
    ensures Of(items, foreign) == []
  {
    if items != [] {
      OfNone(items[..|items| - 1], foreign);
    }
  }

  lemma ArriveInOrder(s: State, items: seq<Item>, foreign: bool)
    requires InOrder(s, foreign)
    ensures InOrder(Arrive(s, items), foreign)
  {
    assert All(Arrive(s, items)) == All(s) + items;
    OfPlus(All(s), items, foreign);
    OfPlus(s.arrived, items, foreign);
  }

  lemma Between(arrived: seq<Item>, front: seq<Item>, items: seq<Item>, back: seq<Item>, foreign: bool)
    requires Of(arrived, foreign) == Of(front + back, foreign)
    requires Of(items, foreign) == [] || Of(back, foreign) == []
    ensures Of(arrived + items, foreign) == Of(front + items + back, foreign)
  {
    hide Of;
    OfPlus(front, back, foreign);
    OfPlus(front, items, foreign);
    OfPlus(front + items, back, foreign);
    OfPlus(arrived, items, foreign);
    Neutral(Of(front, foreign), Of(items, foreign), Of(back, foreign));
  }

  lemma Neutral(f: seq<Item>, i: seq<Item>, b: seq<Item>)
    requires i == [] || b == []
    ensures f + b + i == f + i + b
  {
  }

  lemma OwnInOrder(s: State, items: seq<Item>, foreign: bool)
    requires InOrder(s, foreign) && !s.worker.Popped?
    requires forall i :: 0 <= i < |s.public| ==> s.public[i].foreign
    requires forall i :: 0 <= i < |items| ==> !items[i].foreign
    ensures Of(s.arrived + items, foreign) == Of(s.executed + s.dropped + s.private + items + s.public, foreign)
  {
    hide Of;
    var front := s.executed + s.dropped + s.private;
    assert All(s) == front + s.public;
    if foreign { OfNone(items, true); } else { OfNone(s.public, false); }
    Between(s.arrived, front, items, s.public, foreign);
  }

  lemma OneMoves(done: seq<Item>, dropped: seq<Item>, item: Item, private: seq<Item>, public: seq<Item>)
    ensures done + dropped + [item] + private + public == done + dropped + [] + ([item] + private) + public
    ensures done + [item] + [] + [] + private + public == done + [] + [item] + private + public
    ensures done + (dropped + [item]) + [] + private + public == done + dropped + [item] + private + public
  {
  }

  lemma TakeMoves(s: State, step: Step, cap: nat)
    requires Inv(s) && Enabled(s, step) && (step.Pop? || step.Check?)
    ensures All(Apply(s, step, cap)) == All(s)
  {
    hide InOrder, Wakes, OthersOk, OneShutsDown, PublicIsForeign;
    if step.Check? {
      OneMoves(s.executed, s.dropped, s.worker.item, s.private, s.public);
    } else if s.private != [] {
      assert s.private == [s.private[0]] + s.private[1..];
      OneMoves(s.executed, s.dropped, s.private[0], s.private[1..], s.public);
    }
  }

  lemma ClearMoves(s: State, t: Tid, cap: nat)
    requires Inv(s) && Enabled(s, Clear(t))
    ensures All(Apply(s, Clear(t), cap)) == All(s)
  {
    hide InOrder, Wakes;
    assert OtherOk(s, s.others[t]);
  }

  /** Steps that take in nothing move items along, in their order. */
  lemma MovesAlong(s: State, step: Step, cap: nat)
    requires Inv(s) && Enabled(s, step) && !step.Enqueue? && !step.EnqueueSelf? && !step.FallThrough?
    ensures All(Apply(s, step, cap)) == All(s)
  {
    hide InOrder, Wakes;
    if step.Pop? || step.Check? {
      TakeMoves(s, step, cap);
    } else if step.Clear? {
      ClearMoves(s, step.t, cap);
    } else if (step.Enter? || step.Relock?) && !s.abort && s.public != [] {
      assert s.executed + s.dropped + [] + s.public + s.private == s.executed + s.dropped + [] + s.private + s.public;
    }
  }

  lemma OrderKeeps(s: State, step: Step, cap: nat, foreign: bool)
    requires Inv(s) && Enabled(s, step) && InOrder(s, foreign)
    ensures InOrder(Apply(s, step, cap), foreign)
  {
    hide Wakes, Of;
    match step
    case Enqueue(_, tasks) =>
      ArriveInOrder(s, Items(tasks, true), foreign);
    case FallThrough =>
      ArriveInOrder(s, Husks(s.worker.count), foreign);
    case EnqueueSelf(own) =>
      if !s.privateAbort {
        OwnInOrder(s, Items(own, false), foreign);
        var after := Apply(s, step, cap);
        assert All(after) == s.executed + s.dropped + s.private + Items(own, false) + s.public;
      }
    case _ => MovesAlong(s, step, cap);
  }

  lemma WakesKeeps(s: State, step: Step, cap: nat)
    requires Inv(s) && Enabled(s, step) && cap > 0
    ensures Wakes(Apply(s, step, cap))
  {
    hide InOrder;
    var after := Apply(s, step, cap);
    if after.worker.Blocked? && (after.public != [] || after.abort) && after.tokens == 0 {
      match step
      case Enqueue(t, _) =>
        if s.public == [] && !s.abort { assert after.others[t].Notifying?; }
      case SetAbort(t) => assert after.others[t].AbortSet?;
      case SetPrivate(t) => assert after.others[t].PrivateSet?;
      case Exchange(_) =>
        var u :| u in s.others && Waking(s.others[u]);
        assert Waking(after.others[u]);
      case _ =>
    }
  }

  lemma OthersKeep(s: State, step: Step, cap: nat)
    requires OthersOk(s) && OneShutsDown(s) && WorkerOk(s) && Enabled(s, step)
    ensures OthersOk(Apply(s, step, cap))
  {
    var after := Apply(s, step, cap);
    forall u | u in after.others
      ensures OtherOk(after, after.others[u])
    {
      assert OtherOk(s, s.others[u]);
    }
  }

  lemma ShutdownKeeps(s: State, step: Step, cap: nat)
    requires OneShutsDown(s) && OthersOk(s) && Enabled(s, step)
    ensures OneShutsDown(Apply(s, step, cap))
  {
    var after := Apply(s, step, cap);
    forall t | t in after.others && ShuttingDown(after.others[t])
      ensures if s.atomicAbort then ShuttingDown(s.others[t]) else step.Exchange? && t == step.t
    {
      assert OtherOk(s, s.others[t]);
    }
    if s.atomicAbort {
      var u :| u in s.others && ShuttingDown(s.others[u]);
      assert ShuttingDown(after.others[u]);
    } else if step.Exchange? {
      assert ShuttingDown(after.others[step.t]);
    }
  }

  lemma WorkerKeeps(s: State, step: Step, cap: nat)
    requires WorkerOk(s) && OthersOk(s) && PublicIsForeign(s) && Enabled(s, step)
    ensures WorkerOk(Apply(s, step, cap))
  {
    match step
    case SetAbort(t) => assert OtherOk(s, s.others[t]);
    case SetPrivate(t) => assert OtherOk(s, s.others[t]);
    case Clear(t) => assert OtherOk(s, s.others[t]);
    case _ =>
  }

  lemma ForeignKeeps(s: State, step: Step, cap: nat)
    requires WorkerOk(s) && PublicIsForeign(s) && Enabled(s, step)
    ensures PublicIsForeign(Apply(s, step, cap))
  {
  }

  lemma StepKeeps(s: State, step: Step, cap: nat)
    requires Inv(s) && Enabled(s, step) && cap > 0
    ensures Inv(Apply(s, step, cap))
  {
    hide InOrder, Wakes, OthersOk, WorkerOk, OneShutsDown, PublicIsForeign;
    OthersKeep(s, step, cap);
    ShutdownKeeps(s, step, cap);
    WorkerKeeps(s, step, cap);
    ForeignKeeps(s, step, cap);
    WakesKeeps(s, step, cap);
    OrderKeeps(s, step, cap, true);
    OrderKeeps(s, step, cap, false);
  }

  // ---- Every run -------------------------------------------------------------------------------

  /** The assertion before the swap. */
  predicate Asserts(s: State, step: Step) {
    (step.Enter? || step.Relock?) && !s.abort && s.public != [] ==> s.private == []
  }

  /** Tasks of either origin run in the order they arrived; a wakeup is never lost; and once the
      shutdown has returned the worker is gone and nothing is left. */
  ghost predicate Promised(s: State) {
    && (forall foreign :: Of(s.executed, foreign) <= Of(s.arrived, foreign))
    && (forall foreign :: Of(s.arrived, foreign) == Of(All(s), foreign))
    && Wakes(s)
    && (forall t :: t in s.others && s.others[t].ShutDown? ==>
          (s.worker.NotStarted? || s.worker.Ended?) && s.private == [] && s.public == [])
  }

  predicate Returned(s: State) {
    exists t :: t in s.others && s.others[t].ShutDown?
  }

  /** The semaphore is released for what was put into a queue that was empty, and only then; the worker waits for
      it exactly when it has found nothing. */
  predicate NotifiesRightly(s: State, step: Step, cap: nat)
    requires Enabled(s, step)
  {
    var after := Apply(s, step, cap);
    match step
    case Enqueue(t, _) => after.others[t].Notifying? <==> !s.abort && s.public == [] && !s.worker.NotStarted?
    case FallThrough => after.worker.Releasing? <==> !s.abort && s.public == []
    case Enter => after.worker.Blocked? <==> !s.abort && s.public == []
    case Relock => after.worker.Blocked? <==> !s.abort && s.public == []
    case _ => true
  }

  ghost predicate Safe(s: State, run: seq<Step>, cap: nat)
    decreases |run|
  {
    && Promised(s)
    && (run != [] && Enabled(s, run[0]) ==>
          var after := Apply(s, run[0], cap);
          && Asserts(s, run[0]) && NotifiesRightly(s, run[0], cap) && Safe(after, run[1..], cap)
          && (Returned(s) ==> after.executed == s.executed && Returned(after)))
  }

  lemma InvPromises(s: State)
    requires Inv(s)
    ensures Promised(s)
  {
    forall foreign
      ensures Of(s.executed, foreign) <= Of(s.arrived, foreign)
    {
      hide Of;
      var rest := s.dropped + InHand(s) + s.private + s.public;
      assert All(s) == s.executed + rest;
      assert InOrder(s, foreign);
      OfPlus(s.executed, rest, foreign);
    }
    forall t | t in s.others && s.others[t].ShutDown?
      ensures (s.worker.NotStarted? || s.worker.Ended?) && s.private == [] && s.public == []
    {
      assert OtherOk(s, s.others[t]);
    }
  }

  lemma NothingAfterShutdown(s: State, step: Step, cap: nat)
    requires Inv(s) && Enabled(s, step) && Returned(s)
    ensures Apply(s, step, cap).executed == s.executed && Returned(Apply(s, step, cap))
  {
    hide InOrder, Wakes;
    var t :| t in s.others && s.others[t].ShutDown?;
    assert OtherOk(s, s.others[t]);
    assert Apply(s, step, cap).others[t].ShutDown?;
  }

  lemma StepNotifies(s: State, step: Step, cap: nat)
    requires WorkerOk(s) && Enabled(s, step)
    ensures NotifiesRightly(s, step, cap) && Asserts(s, step)
  {
  }

  lemma {:induction false} RunSafe(s: State, run: seq<Step>, cap: nat)
    requires Inv(s) && cap > 0
    ensures Safe(s, run, cap)
    decreases |run|
  {
    InvPromises(s);
    if run != [] && Enabled(s, run[0]) {
      var after := Apply(s, run[0], cap);
      StepKeeps(s, run[0], cap);
      StepNotifies(s, run[0], cap);
      if Returned(s) { NothingAfterShutdown(s, run[0], cap); }
      hide Inv, Promised, Returned, Asserts, NotifiesRightly, Apply, Enabled;
      RunSafe(after, run[1..], cap);
    }
  }

  /** For any threads, any tasks, any interleaving, and a semaphore that counts up to any `cap`. */
  lemma EveryRunSafe(s: State, run: seq<Step>, cap: nat)
    requires Init(s) && cap > 0
    ensures Safe(s, run, cap)
  {
    RunSafe(s, run, cap);
  }

  // ---- The semaphore holds more than one token ------------------------------------------------

  ghost function After(s: State, run: seq<Step>, cap: nat): State
    decreases |run|
  {
    if run == [] || !Enabled(s, run[0]) then s else After(Apply(s, run[0], cap), run[1..], cap)
  }

  lemma AfterOne(s: State, step: Step, rest: seq<Step>, cap: nat)
    requires Enabled(s, step)
    ensures After(s, [step] + rest, cap) == After(Apply(s, step, cap), rest, cap)
  {
    assert ([step] + rest)[1..] == rest;
  }

  /** The worker is between tasks and the queues are empty. */
  predicate Resting(s: State, t: Tid) {
    s.worker.Draining? && s.private == [] && s.public == [] && !s.abort && !s.privateAbort && t in s.others && s.others[t].Outside?
  }

  /** An enqueue into the empty queue, which the worker then finds without having waited. */
  function Cycle(t: Tid, rest: seq<Step>): seq<Step> {
    [Enqueue(t, [Job(0)])] + ([Notify(t)] + ([Pop] + ([Enter] + ([Pop] + ([Check] + ([Finish] + rest))))))
  }

  lemma CycleAddsToken(s: State, t: Tid, rest: seq<Step>, cap: nat) returns (after: State)
    requires Resting(s, t)
    ensures Resting(after, t) && after.tokens == Release(s.tokens, cap) && After(s, Cycle(t, rest), cap) == After(after, rest, cap)
  {
    hide After;
    after := s;
    var r6 := [Finish] + rest;
    var r5 := [Check] + r6;
    var r4 := [Pop] + r5;
    var r3 := [Enter] + r4;
    var r2 := [Pop] + r3;
    var r1 := [Notify(t)] + r2;
    AfterOne(after, Enqueue(t, [Job(0)]), r1, cap);
    after := Apply(after, Enqueue(t, [Job(0)]), cap);
    AfterOne(after, Notify(t), r2, cap);
    after := Apply(after, Notify(t), cap);
    AfterOne(after, Pop, r3, cap);
    after := Apply(after, Pop, cap);
    AfterOne(after, Enter, r4, cap);
    after := Apply(after, Enter, cap);
    AfterOne(after, Pop, r5, cap);
    after := Apply(after, Pop, cap);
    AfterOne(after, Check, r6, cap);
    after := Apply(after, Check, cap);
    AfterOne(after, Finish, rest, cap);
    after := Apply(after, Finish, cap);
  }

  function PumpRun(t: Tid, k: nat): seq<Step> {
    if k == 0 then [] else Cycle(t, PumpRun(t, k - 1))
  }

  lemma {:induction false} Pump(s: State, t: Tid, k: nat, cap: nat)
    requires Resting(s, t) && s.tokens + k <= cap
    ensures After(s, PumpRun(t, k), cap).tokens == s.tokens + k
    decreases k
  {
    if k > 0 {
      hide Cycle;
      var after := CycleAddsToken(s, t, PumpRun(t, k - 1), cap);
      Pump(after, t, k - 1, cap);
    }
  }

  /** A semaphore that may hold only one token is not enough: one producer and the worker alone
      can release it any number of times with no acquisition in between. */
  lemma TokensPileUp(s: State, t: Tid, k: nat, cap: nat) returns (run: seq<Step>)
    requires Init(s) && t in s.others && k <= cap
    ensures After(s, run, cap).tokens == k
  {
    hide After;
    var rest := PumpRun(t, k);
    var r3 := [Finish] + rest;
    var r2 := [Check] + r3;
    var r1 := [Pop] + r2;
    var r0 := [Enter] + r1;
    run := [Enqueue(t, [Job(0)])] + r0;
    AfterOne(s, Enqueue(t, [Job(0)]), r0, cap);
    var s1 := Apply(s, Enqueue(t, [Job(0)]), cap);
    AfterOne(s1, Enter, r1, cap);
    var s2 := Apply(s1, Enter, cap);
    AfterOne(s2, Pop, r2, cap);
    var s3 := Apply(s2, Pop, cap);
    AfterOne(s3, Check, r3, cap);
    var s4 := Apply(s3, Check, cap);
    AfterOne(s4, Finish, rest, cap);
    Pump(Apply(s4, Finish, cap), t, k, cap);
  }

  predicate Releases(step: Step) {
    step.Notify? || step.ReleaseSelf? || step.ReleaseLast?
  }

  ghost predicate Runs(s: State, run: seq<Step>, cap: nat)
    decreases |run|
  {
    run == [] || (Enabled(s, run[0]) && Runs(Apply(s, run[0], cap), run[1..], cap))
  }

  /** Some release of the run finds the only token a binary semaphore may hold already there. */
  ghost predicate Overflows(s: State, run: seq<Step>)
    requires Runs(s, run, 1)
    decreases |run|
  {
    run != [] && ((Releases(run[0]) && s.tokens == 1) || Overflows(Apply(s, run[0], 1), run[1..]))
  }

  /** The release at `j` follows the one at `i` without an acquisition between them. */
  predicate Twice(run: seq<Step>, i: nat, j: nat)
    requires i < j < |run|
  {
    Releases(run[i]) && Releases(run[j]) && forall k :: i < k < j ==> !run[k].Acquire?
  }

  /** No acquisition comes before the release at `j`. */
  predicate Unacquired(run: seq<Step>, j: nat)
    requires j < |run|
  {
    Releases(run[j]) && forall k :: 0 <= k < j ==> !run[k].Acquire?
  }

  ghost predicate SomeTwice(run: seq<Step>) {
    exists i, j :: 0 <= i < j < |run| && Twice(run, i, j)
  }

  ghost predicate SomeUnacquired(run: seq<Step>) {
    exists j :: 0 <= j < |run| && Unacquired(run, j)
  }

  lemma Shifted(run: seq<Step>, i: nat, j: nat)
    requires i < j < |run|
    ensures i > 0 ==> (Twice(run, i, j) <==> Twice(run[1..], i - 1, j - 1))
    ensures i == 0 ==> (Twice(run, i, j) <==> Releases(run[0]) && Unacquired(run[1..], j - 1))
    ensures Unacquired(run, j) <==> !run[0].Acquire? && Unacquired(run[1..], j - 1)
  {
    var rest := run[1..];
    assert forall k :: 0 < k < |run| ==> run[k] == rest[k - 1];
    assert forall k :: 0 <= k < |rest| ==> rest[k] == run[k + 1];
  }

  lemma SomeTwiceLater(run: seq<Step>)
    requires run != []
    ensures SomeTwice(run) <==> SomeTwice(run[1..]) || (Releases(run[0]) && SomeUnacquired(run[1..]))
  {
    hide Twice, Unacquired, Releases;
    if SomeTwice(run) {
      var i, j :| 0 <= i < j < |run| && Twice(run, i, j);
      Shifted(run, i, j);
    }
    if SomeTwice(run[1..]) {
      var i, j :| 0 <= i < j < |run| - 1 && Twice(run[1..], i, j);
      Shifted(run, i + 1, j + 1);
    }
    if Releases(run[0]) && SomeUnacquired(run[1..]) {
      var j :| 0 <= j < |run| - 1 && Unacquired(run[1..], j);
      Shifted(run, 0, j + 1);
    }
  }

  lemma SomeUnacquiredLater(run: seq<Step>)
    requires run != []
    ensures SomeUnacquired(run) <==> Releases(run[0]) || (!run[0].Acquire? && SomeUnacquired(run[1..]))
  {
    if Releases(run[0]) {
      assert Unacquired(run, 0);
    }
    hide Unacquired, Releases;
    if SomeUnacquired(run) && !Unacquired(run, 0) {
      var j :| 0 <= j < |run| && Unacquired(run, j);
      Shifted(run, 0, j);
    }
    if !run[0].Acquire? && SomeUnacquired(run[1..]) {
      var j :| 0 <= j < |run| - 1 && Unacquired(run[1..], j);
      Shifted(run, 0, j + 1);
    }
  }

  lemma TokensStep(s: State, step: Step)
    requires Enabled(s, step) && s.tokens <= 1
    ensures Apply(s, step, 1).tokens == if Releases(step) then 1 else if step.Acquire? then 0 else s.tokens
    ensures !(Releases(step) && step.Acquire?)
  {
  }

  lemma {:induction false} OverflowFrom(s: State, run: seq<Step>)
    requires Runs(s, run, 1) && s.tokens <= 1
    ensures Overflows(s, run) <==> SomeTwice(run) || (s.tokens == 1 && SomeUnacquired(run))
    decreases |run|
  {
    if run != [] {
      TokensStep(s, run[0]);
      SomeTwiceLater(run);
      SomeUnacquiredLater(run);
      hide SomeTwice, SomeUnacquired, Apply, Enabled, Releases;
      OverflowFrom(Apply(s, run[0], 1), run[1..]);
    }
  }

  /** Exactly when a binary semaphore is released above its maximum: two releases of the run have no
      acquisition between them. */
  lemma OverflowExactly(s: State, run: seq<Step>)
    requires Init(s) && Runs(s, run, 1)
    ensures Overflows(s, run) <==> exists i, j :: 0 <= i < j < |run| && Twice(run, i, j)
  {
    OverflowFrom(s, run);
  }

  // ---- What was asked for ------------------------------------------------------------------------

  /** What the calls of a run offer to queues that take it, read off the run alone: foreign tasks until
      abort_ is set, the worker's own until its private flag is, and as many husks as the worker's last
      call had tasks when that call goes on to the public queue. */
  function Offered(run: seq<Step>, abort: bool, privateAbort: bool, count: nat): seq<Item> {
    if run == [] then []
    else
      match run[0]
      case Enqueue(_, tasks) =>
        (if abort then [] else seq(|tasks|, i requires 0 <= i < |tasks| => Item(tasks[i], true)))
        + Offered(run[1..], abort, privateAbort, count)
      case EnqueueSelf(own) =>
        if privateAbort then Offered(run[1..], abort, privateAbort, count)
        else seq(|own|, i requires 0 <= i < |own| => Item(own[i], false)) + Offered(run[1..], abort, privateAbort, |own|)
      case FallThrough =>
        (if abort then [] else seq(count, i => Item(Empty, true))) + Offered(run[1..], abort, privateAbort, count)
      case SetAbort(_) => Offered(run[1..], true, privateAbort, count)
      case SetPrivate(_) => Offered(run[1..], abort, true, count)
      case _ => Offered(run[1..], abort, privateAbort, count)
  }

  /** What one step takes in, and what it leaves for the steps to come. */
  lemma StepOffers(s: State, step: Step, rest: seq<Step>, cap: nat, count: nat) returns (count': nat, taken: seq<Item>)
    requires Enabled(s, step) && (s.worker.Falling? ==> s.worker.count == count)
    ensures
      var after := Apply(s, step, cap);
      && after.arrived == s.arrived + taken && (after.worker.Falling? ==> after.worker.count == count')
      && Offered([step] + rest, s.abort, s.privateAbort, count) == taken + Offered(rest, after.abort, after.privateAbort, count')
  {
    var after := Apply(s, step, cap);
    assert ([step] + rest)[1..] == rest;
    count' := if step.EnqueueSelf? && !s.privateAbort then |step.own| else count;
    taken := after.arrived[|s.arrived|..];
    var later := Offered(rest, after.abort, after.privateAbort, count');
    match step
    case Enqueue(_, tasks) =>
      assert taken == if s.abort then [] else seq(|tasks|, i requires 0 <= i < |tasks| => Item(tasks[i], true));
    case EnqueueSelf(own) =>
      if !s.privateAbort { assert taken == seq(|own|, i requires 0 <= i < |own| => Item(own[i], false)); }
      else { assert [] + later == later; }
    case FallThrough =>
      assert taken == if s.abort then [] else seq(count, i => Item(Empty, true));
    case _ =>
      assert [] + later == later;
  }

  /** Nothing that is asked for is left out, changed or let in late. */
  lemma {:induction false} ArrivesAllOffered(s: State, run: seq<Step>, cap: nat, count: nat)
    requires Runs(s, run, cap) && (s.worker.Falling? ==> s.worker.count == count)
    ensures After(s, run, cap).arrived == s.arrived + Offered(run, s.abort, s.privateAbort, count)
    decreases |run|
  {
    if run != [] {
      var after := Apply(s, run[0], cap);
      assert [run[0]] + run[1..] == run;
      var count', taken := StepOffers(s, run[0], run[1..], cap, count);
      hide Apply, Enabled, Offered;
      ArrivesAllOffered(after, run[1..], cap, count');
      assert s.arrived + taken + Offered(run[1..], after.abort, after.privateAbort, count')
          == s.arrived + (taken + Offered(run[1..], after.abort, after.privateAbort, count'));
    }
  }

  /** A call from inside a task does not stop at the worker's own queue: as many empty tasks follow through the
      public one. */
  lemma OwnCallLeavesHusks(s: State, own: seq<Task>, cap: nat)
    requires s.worker.Running? && !s.abort && !s.privateAbort
    ensures
      var middle := Apply(s, EnqueueSelf(own), cap);
      && Enabled(middle, FallThrough)
      && var after := Apply(middle, FallThrough, cap);
         && after.private == s.private + seq(|own|, i requires 0 <= i < |own| => Item(own[i], false))
         && after.public == s.public + seq(|own|, i => Item(Empty, true))
  {
  }

  // ---- What is bound to happen -------------------------------------------------------------------

  /** Steps of the worker and of a caller that is about to wake it; nobody asks for anything. */
  predicate GoesOn(step: Step) {
    match step
    case Notify(_) => true
    case Enter => true case Acquire => true case Relock => true case Pop => true case Check => true
    case Finish => true case FallThrough => true case ReleaseSelf => true
    case _ => false
  }

  predicate AllGoOn(run: seq<Step>) {
    forall i :: 0 <= i < |run| ==> GoesOn(run[i])
  }

  /** A worker with something to do is not stuck, unless the shutdown has still to wake it. */
  lemma WorkerMoves(s: State) returns (step: Step)
    requires Wakes(s) && !s.worker.NotStarted? && !s.worker.Ended?
    requires s.worker.Blocked? ==> s.public != [] || s.abort
    requires forall t :: t in s.others ==> !s.others[t].AbortSet? && !s.others[t].PrivateSet?
    ensures Enabled(s, step) && GoesOn(step) && (step.Notify? <==> s.worker.Blocked? && s.tokens == 0)
  {
    match s.worker
    case Entering => step := Enter;
    case Blocked =>
      if s.tokens > 0 {
        step := Acquire;
      } else {
        var t :| t in s.others && Waking(s.others[t]);
        step := Notify(t);
      }
    case Woken => step := Relock;
    case Draining => step := Pop;
    case Popped(_) => step := Check;
    case Running(_) => step := Finish;
    case Falling(_, _) => step := FallThrough;
    case Releasing(_) => step := ReleaseSelf;
  }

  lemma Then(s: State, step: Step, rest: seq<Step>, cap: nat) returns (run: seq<Step>)
    requires Enabled(s, step) && Runs(Apply(s, step, cap), rest, cap)
    ensures run == [step] + rest && Runs(s, run, cap) && After(s, run, cap) == After(Apply(s, step, cap), rest, cap)
  {
    run := [step] + rest;
    assert run[1..] == rest;
  }

  predicate Drained(s: State) {
    s.private == [] && s.public == [] && !s.worker.Popped? && !s.worker.Falling?
  }

  /** How far the worker is from having run everything. */
  function Distance(s: State): nat {
    4 * (|s.private| + |s.public|) + (if s.public != [] then 10 else 0)
    + match s.worker
      case Blocked => if s.tokens > 0 then 2 else 3
      case Entering => 0 case Woken => 1 case Draining => 1
      case Popped(_) => 4 case Running(_) => 3 case Releasing(_) => 5
      case Falling(_, count) => 4 * count + 16
      case _ => 0
  }

  lemma DistanceDrops(s: State, step: Step, cap: nat)
    requires WorkerOk(s) && !s.abort && cap > 0 && Enabled(s, step) && GoesOn(step) && !Drained(s)
    requires step.Notify? ==> s.worker.Blocked? && s.tokens == 0
    ensures Distance(Apply(s, step, cap)) < Distance(s) && !Apply(s, step, cap).abort
  {
  }

  /** Without a shutdown everything that has arrived comes to be run, in its order, if only the worker
      and those about to wake it go on. */
  lemma {:induction false} WorkerDrains(s: State, cap: nat) returns (run: seq<Step>)
    requires Inv(s) && !s.abort && cap > 0
    ensures Runs(s, run, cap) && AllGoOn(run)
    ensures
      var after := After(s, run, cap);
      Drained(after) && forall foreign :: Of(after.executed, foreign) == Of(after.arrived, foreign)
    decreases Distance(s)
  {
    if Drained(s) {
      run := [];
      assert s.dropped == [] && All(s) == s.executed;
      assert InOrder(s, true) && InOrder(s, false);
    } else {
      forall t | t in s.others
        ensures !s.others[t].AbortSet? && !s.others[t].PrivateSet?
      {
        assert OtherOk(s, s.others[t]);
      }
      var step := WorkerMoves(s);
      DistanceDrops(s, step, cap);
      StepKeeps(s, step, cap);
      hide Inv, Apply, Enabled, Distance, Drained, Of;
      var rest := WorkerDrains(Apply(s, step, cap), cap);
      run := Then(s, step, rest, cap);
    }
  }

  // Shutdown comes to an end, whatever the worker was doing.

  /** How far an aborted worker is from its end. */
  function ToEnd(s: State): nat {
    match s.worker
    case Blocked => if s.tokens > 0 then 2 else 3
    case Entering => 1 case Woken => 1 case Popped(_) => 1 case Draining => 2
    case Running(_) => 3 case Releasing(_) => 4 case Falling(_, _) => 5
    case _ => 0
  }

  lemma ToEndDrops(s: State, step: Step, cap: nat)
    requires s.abort && s.privateAbort && cap > 0 && Enabled(s, step) && GoesOn(step) && !s.worker.NotStarted? && !s.worker.Ended?
    requires step.Notify? ==> s.worker.Blocked? && s.tokens == 0
    ensures ToEnd(Apply(s, step, cap)) < ToEnd(s)
    ensures forall t :: t in s.others && !s.others[t].Notifying? ==> t in Apply(s, step, cap).others && Apply(s, step, cap).others[t] == s.others[t]
  {
  }

  lemma {:induction false} WorkerEnds(s: State, t: Tid, cap: nat) returns (run: seq<Step>)
    requires Inv(s) && cap > 0 && t in s.others && s.others[t].Joining?
    ensures Runs(s, run, cap) && Returned(After(s, run, cap))
    decreases ToEnd(s)
  {
    assert OtherOk(s, s.others[t]);
    if s.worker.NotStarted? || s.worker.Ended? {
      var joined := Apply(s, Join(t), cap);
      var cleared := Apply(joined, Clear(t), cap);
      assert cleared.others[t].ShutDown?;
      run := Then(joined, Clear(t), [], cap);
      run := Then(s, Join(t), run, cap);
    } else {
      forall u | u in s.others
        ensures !s.others[u].AbortSet? && !s.others[u].PrivateSet?
      {
        assert ShuttingDown(s.others[u]) ==> u == t;
      }
      var step := WorkerMoves(s);
      ToEndDrops(s, step, cap);
      StepKeeps(s, step, cap);
      hide Inv, Apply, Enabled, ToEnd;
      var rest := WorkerEnds(Apply(s, step, cap), t, cap);
      run := Then(s, step, rest, cap);
    }
  }

  /** The thread that shuts down goes on until it waits for the worker. */
  lemma {:induction false} ShutterJoins(s: State, t: Tid, cap: nat) returns (run: seq<Step>)
    requires Inv(s) && cap > 0 && t in s.others && ShuttingDown(s.others[t])
    ensures Runs(s, run, cap) && Returned(After(s, run, cap))
    decreases if s.others[t].Aborting? then 3 else if s.others[t].AbortSet? then 2 else if s.others[t].PrivateSet? then 1 else 0
  {
    if s.others[t].Joining? {
      run := WorkerEnds(s, t, cap);
    } else if s.others[t].Clearing? {
      var after := Apply(s, Clear(t), cap);
      assert after.others[t].ShutDown?;
      run := Then(s, Clear(t), [], cap);
    } else if s.others[t].ShutDown? {
      run := [];
    } else {
      var step := if s.others[t].Aborting? then SetAbort(t) else if s.others[t].AbortSet? then SetPrivate(t) else ReleaseLast(t);
      StepKeeps(s, step, cap);
      var rest := ShutterJoins(Apply(s, step, cap), t, cap);
      run := Then(s, step, rest, cap);
    }
  }

  /** Shutdown has begun, or thread `t` may call it. */
  predicate MayShutDown(s: State, t: Tid) {
    s.atomicAbort || (t in s.others && s.others[t].Outside?)
  }

  /** In any reachable state a call of shutdown, or the one under way, can come to its end. */
  lemma ShutdownReturns(s: State, t: Tid, cap: nat) returns (run: seq<Step>)
    requires Inv(s) && cap > 0 && MayShutDown(s, t)
    ensures Runs(s, run, cap) && Returned(After(s, run, cap))
  {
    if s.atomicAbort {
      var u :| u in s.others && ShuttingDown(s.others[u]);
      run := ShutterJoins(s, u, cap);
    } else {
      StepKeeps(s, Exchange(t), cap);
      var rest := ShutterJoins(Apply(s, Exchange(t), cap), t, cap);
      run := Then(s, Exchange(t), rest, cap);
    }
  }

  lemma {:induction false} RunKeeps(s: State, run: seq<Step>, cap: nat)
    requires Inv(s) && cap > 0 && Runs(s, run, cap)
    ensures Inv(After(s, run, cap))
    decreases |run|
  {
    if run != [] {
      StepKeeps(s, run[0], cap);
      hide Inv, Apply, Enabled;
      RunKeeps(Apply(s, run[0], cap), run[1..], cap);
    }
  }

  /** After any run the worker can go on to have run, in its order, all that was asked for and taken; and a
      shutdown can be brought to its end. */
  lemma EveryRunGoesOn(s: State, run: seq<Step>, t: Tid, cap: nat) returns (drain: seq<Step>, shut: seq<Step>)
    requires Init(s) && Runs(s, run, cap) && cap > 0
    ensures
      var now := After(s, run, cap);
      && Runs(now, drain, cap) && AllGoOn(drain)
      && (!now.abort ==>
            var after := After(now, drain, cap);
            Drained(after) && forall foreign :: Of(after.executed, foreign) == Of(after.arrived, foreign))
      && Runs(now, shut, cap) && (MayShutDown(now, t) ==> Returned(After(now, shut, cap)))
  {
    RunKeeps(s, run, cap);
    var now := After(s, run, cap);
    hide After;
    drain, shut := [], [];
    if !now.abort { drain := WorkerDrains(now, cap); }
    if MayShutDown(now, t) { shut := ShutdownReturns(now, t, cap); }
  }
}
