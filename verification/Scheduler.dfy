/** How the connection manager limits the connections that work at the same time: a counter, a
    deque of waiting ids with a set beside it, and tasks that enqueue again when they end.

    `enqueue` runs under the manager's mutex, but tasks decrement the counter without it, so the
    value that `enqueue` loaded may be too high when it is used; both moments are steps. */
module Scheduler {
  import opened Collections

  type Id = nat
  type TaskId = nat

  /** A posted task has not yet decremented the counter, an ending one has and will enqueue. */
  datatype Task = Posted(id: Id) | Ending(id: Id)

  datatype Lock =
    | Free
    | Held(caller: Option<TaskId>, id: Option<Id>, loaded: nat)  // inside enqueue, the counter loaded

  datatype State = State(
    running: bool,
    count: nat,
    deque: seq<Id>,
    waiting: set<Id>,
    tasks: map<TaskId, Task>,
    lock: Lock)

  datatype Step =
    | Call(id: Id)                            // enqueue by any other thread
    | Decrement(t: TaskId)
    | Again(t: TaskId)                        // an ending task enqueues its connection again
    | Leave(t: TaskId)                        // an ending task enqueues whatever waits
    | Act(next: TaskId)                      // the rest of enqueue, and unlocking
    | Stop

  predicate Enabled(s: State, step: Step) {
    match step
    case Call(_) => s.lock.Free?
    case Decrement(t) => t in s.tasks && s.tasks[t].Posted?
    case Again(t) => t in s.tasks && s.tasks[t].Ending? && s.lock.Free?
    case Leave(t) => t in s.tasks && s.tasks[t].Ending? && s.lock.Free?
    case Act(next) => s.lock.Held? && next !in s.tasks
    case Stop => true
  }

  function Without(s: State, caller: Option<TaskId>): State {
    if caller.Some? then s.(tasks := s.tasks - {caller.value}) else s
  }

  /** enqueue up to the load; a manager that does not run returns at once. */
  function Load(s: State, caller: Option<TaskId>, id: Option<Id>): State {
    if s.running then s.(lock := Held(caller, id, s.count)) else Without(s, caller)
  }

  function Push(s: State, id: Id): State {
    if id in s.waiting then s else s.(deque := s.deque + [id], waiting := s.waiting + {id})
  }

  function Post(s: State, id: Id, next: TaskId): State {
    s.(count := s.count + 1, tasks := s.tasks[next := Posted(id)])
  }

  /** The rest of enqueue: post, or wait.  A task that called it is over. */
  function Finish(s: State, next: TaskId, max: int): State
    requires s.lock.Held?
  {
    var id := s.lock.id;
    var u := Without(s.(lock := Free), s.lock.caller);
    if max <= 0 || s.lock.loaded < max then
      if id.Some? then Post(u, id.value, next)
      else if u.deque == [] then u
      else Post(u.(deque := u.deque[1..], waiting := u.waiting - {u.deque[0]}), u.deque[0], next)
    else if id.Some? then Push(u, id.value)
    else u
  }

  function Apply(s: State, step: Step, max: int): State
    requires Enabled(s, step)
  {
    match step
    case Call(id) => Load(s, None, Some(id))
    case Decrement(t) =>
      s.(count := if s.count > 0 then s.count - 1 else s.count, tasks := s.tasks[t := Ending(s.tasks[t].id)])
    case Again(t) => Load(s, Some(t), Some(s.tasks[t].id))
    case Leave(t) => Load(s, Some(t), None)
    case Act(next) => Finish(s, next, max)
    case Stop => s.(running := false)
  }

  // ---- What holds in every state ---------------------------------------------------------------

  ghost function Undecremented(tasks: map<TaskId, Task>): set<TaskId> {
    set t | t in tasks && tasks[t].Posted?
  }

  ghost predicate SameElements(q: seq<Id>, w: set<Id>) {
    Distinct(q) && forall id :: id in q <==> id in w
  }

  /** The tasks that are not the one inside enqueue. */
  ghost function Others(s: State): set<TaskId> {
    if s.lock.Held? && s.lock.caller.Some? then s.tasks.Keys - {s.lock.caller.value} else s.tasks.Keys
  }

  /** While the lock is held tasks may decrement, but none can leave. */
  ghost predicate LockOk(s: State) {
    s.lock.Held? ==>
      && s.count <= s.lock.loaded <= |Others(s)|
      && (s.lock.caller.Some? ==> s.lock.caller.value in s.tasks && s.tasks[s.lock.caller.value].Ending?)
  }

  ghost predicate Inv(s: State, max: int) {
    && s.count == |Undecremented(s.tasks)|
    && (max > 0 ==> s.count <= max)
    && SameElements(s.deque, s.waiting)
    && (s.deque != [] && s.running ==> s.tasks != map[])
    && LockOk(s)
  }

  predicate Init(s: State) {
    s == State(s.running, 0, [], {}, map[], Free)
  }

  lemma LoadKeeps(s: State, caller: Option<TaskId>, id: Option<Id>, max: int)
    requires Inv(s, max) && s.lock.Free?
    requires caller.Some? ==> caller.value in s.tasks && s.tasks[caller.value].Ending?
    ensures Inv(Load(s, caller, id), max)
  {
    var after := Load(s, caller, id);
    if s.running {
      Fewer(Undecremented(s.tasks), Others(after));
    } else {
      assert Undecremented(after.tasks) == Undecremented(s.tasks);
    }
  }

  lemma DecrementKeeps(s: State, t: TaskId, max: int)
    requires Inv(s, max) && Enabled(s, Decrement(t))
    ensures Inv(Apply(s, Decrement(t), max), max)
  {
    var after := Apply(s, Decrement(t), max);
    assert t in Undecremented(s.tasks);
    assert Undecremented(after.tasks) == Undecremented(s.tasks) - {t};
    assert Others(after) == Others(s);
  }

  lemma PushSame(s: State, id: Id)
    requires SameElements(s.deque, s.waiting)
    ensures SameElements(Push(s, id).deque, Push(s, id).waiting)
  {
  }

  lemma PopSame(q: seq<Id>, w: set<Id>)
    requires SameElements(q, w) && q != []
    ensures SameElements(q[1..], w - {q[0]})
  {
    assert q == [q[0]] + q[1..];
    assert q[0] !in q[1..];
  }

  /** Unlocking, and the end of a task that called. */
  lemma UnlockKeeps(s: State, max: int)
    requires Inv(s, max) && s.lock.Held?
    ensures
      var u := Without(s.(lock := Free), s.lock.caller);
      && u.count == |Undecremented(u.tasks)| && u.count <= s.lock.loaded <= |u.tasks.Keys|
  {
    var u := Without(s.(lock := Free), s.lock.caller);
    assert Undecremented(u.tasks) == Undecremented(s.tasks);
    assert u.tasks.Keys == Others(s);
  }

  lemma PostKeeps(u: State, id: Id, next: TaskId, max: int)
    requires u.count == |Undecremented(u.tasks)| && u.lock.Free? && next !in u.tasks && (max > 0 ==> u.count < max)
    requires SameElements(u.deque, u.waiting)
    ensures Inv(Post(u, id, next), max)
  {
    hide SameElements;
    var after := Post(u, id, next);
    assert Undecremented(after.tasks) == Undecremented(u.tasks) + {next};
    assert next in after.tasks;
  }

  lemma ActKeeps(s: State, next: TaskId, max: int)
    requires Inv(s, max) && Enabled(s, Act(next))
    ensures Inv(Apply(s, Act(next), max), max)
  {
    var u := Without(s.(lock := Free), s.lock.caller);
    UnlockKeeps(s, max);
    if max <= 0 || s.lock.loaded < max {
      if s.lock.id.Some? {
        PostKeeps(u, s.lock.id.value, next, max);
      } else if s.deque != [] {
        PopSame(s.deque, s.waiting);
        PostKeeps(u.(deque := u.deque[1..], waiting := u.waiting - {u.deque[0]}), u.deque[0], next, max);
      }
    } else {
      assert u.tasks != map[];
      if s.lock.id.Some? { PushSame(u, s.lock.id.value); }
    }
    hide SameElements, Undecremented;
  }

  lemma StepKeeps(s: State, step: Step, max: int)
    requires Inv(s, max) && Enabled(s, step)
    ensures Inv(Apply(s, step, max), max)
  {
    match step
    case Call(id) => LoadKeeps(s, None, Some(id), max);
    case Decrement(t) => DecrementKeeps(s, t, max);
    case Again(t) => LoadKeeps(s, Some(t), Some(s.tasks[t].id), max);
    case Leave(t) => LoadKeeps(s, Some(t), None, max);
    case Act(next) => ActKeeps(s, next, max);
    case Stop =>
  }

  // ---- Every run -------------------------------------------------------------------------------

  /** The counter counts the tasks that have not decremented it and stays within its limit; the deque
      holds each waiting id once; and while something waits a task is still to enqueue. */
  ghost predicate Promised(s: State, max: int) {
    && s.count == |Undecremented(s.tasks)|
    && (max > 0 ==> s.count <= max)
    && SameElements(s.deque, s.waiting)
    && (s.running && s.deque != [] ==> exists t :: t in s.tasks)
  }

  /** Whether a step handles `id` as it must: a call posts it, makes it wait, or finds it waiting. */
  ghost predicate Handled(s: State, step: Step, max: int)
    requires Enabled(s, step)
  {
    var after := Apply(s, step, max);
    && (step.Act? && s.lock.id.Some? ==>
          (step.next in after.tasks && after.tasks[step.next] == Posted(s.lock.id.value)) || s.lock.id.value in after.waiting)
    && (forall id :: id in s.waiting ==>
          id in after.waiting || (step.Act? && step.next in after.tasks && after.tasks[step.next] == Posted(id)))
  }

  ghost predicate Safe(s: State, run: seq<Step>, max: int)
    decreases |run|
  {
    && Promised(s, max)
    && (run != [] && Enabled(s, run[0]) ==> Handled(s, run[0], max) && Safe(Apply(s, run[0], max), run[1..], max))
  }

  lemma StepHandles(s: State, step: Step, max: int)
    requires Inv(s, max) && Enabled(s, step)
    ensures Handled(s, step, max)
  {
    if step.Act? && s.deque != [] {
      PopSame(s.deque, s.waiting);
    }
  }

  lemma {:induction false} RunSafe(s: State, run: seq<Step>, max: int)
    requires Inv(s, max)
    ensures Safe(s, run, max)
    decreases |run|
  {
    assert s.tasks == map[] || exists t :: t in s.tasks;
    if run != [] && Enabled(s, run[0]) {
      StepKeeps(s, run[0], max);
      StepHandles(s, run[0], max);
      RunSafe(Apply(s, run[0], max), run[1..], max);
    }
  }

  /** For any callers, any tasks, any limit (none if it is not positive) and any interleaving. */
  lemma EveryRunSafe(s: State, run: seq<Step>, max: int)
    requires Init(s)
    ensures Safe(s, run, max)
  {
    assert Undecremented(s.tasks) == {};
    RunSafe(s, run, max);
  }

  // ---- What becomes of an id that is enqueued ----------------------------------------------------

  ghost predicate Runs(s: State, run: seq<Step>, max: int)
    decreases |run|
  {
    run == [] || (Enabled(s, run[0]) && Runs(Apply(s, run[0], max), run[1..], max))
  }

  ghost function After(s: State, run: seq<Step>, max: int): State
    requires Runs(s, run, max)
    decreases |run|
  {
    if run == [] then s else After(Apply(s, run[0], max), run[1..], max)
  }

  /** Steps other threads can take while one is inside enqueue. */
  predicate Meanwhile(run: seq<Step>) {
    forall i :: 0 <= i < |run| ==> run[i].Decrement? || run[i].Stop?
  }

  /** The same tasks, for the same connections. */
  predicate SameTasks(s: State, t: State) {
    s.tasks.Keys == t.tasks.Keys && forall x :: x in s.tasks ==> s.tasks[x].id == t.tasks[x].id
  }

  lemma {:induction false} MeanwhileKeeps(s: State, run: seq<Step>, max: int)
    requires Runs(s, run, max) && Meanwhile(run)
    ensures
      var t := After(s, run, max);
      t.lock == s.lock && t.deque == s.deque && t.waiting == s.waiting && SameTasks(s, t)
    decreases |run|
  {
    if run != [] {
      MeanwhileKeeps(Apply(s, run[0], max), run[1..], max);
    }
  }

  /** Room for one more was there when the counter was loaded. */
  predicate Room(s: State, max: int) {
    max <= 0 || s.count < max
  }

  /** A call of enqueue with an id posts a task for that connection if there is room, and otherwise the id
      waits, behind those that wait already; whatever other threads do between the load and the rest. */
  lemma CallHandled(s: State, id: Id, run: seq<Step>, next: TaskId, max: int)
    requires s.running && s.lock.Free? && SameElements(s.deque, s.waiting)
    requires Runs(Apply(s, Call(id), max), run, max) && Meanwhile(run) && next !in s.tasks
    ensures Enabled(After(Apply(s, Call(id), max), run, max), Act(next))
    ensures
      var t := Apply(After(Apply(s, Call(id), max), run, max), Act(next), max);
      && t.lock.Free? && t.tasks.Keys == s.tasks.Keys + (if Room(s, max) then {next} else {})
      && (Room(s, max) ==> t.tasks[next] == Posted(id) && t.deque == s.deque)
      && (!Room(s, max) ==> t.deque == if id in s.deque then s.deque else s.deque + [id])
  {
    MeanwhileKeeps(Apply(s, Call(id), max), run, max);
  }

  /** A task that ends and enqueues its connection again does the same for that connection, and is over. */
  lemma AgainHandled(s: State, x: TaskId, run: seq<Step>, next: TaskId, max: int)
    requires Enabled(s, Again(x)) && s.running && SameElements(s.deque, s.waiting)
    requires Runs(Apply(s, Again(x), max), run, max) && Meanwhile(run) && next !in s.tasks
    ensures Enabled(After(Apply(s, Again(x), max), run, max), Act(next))
    ensures
      var id, t := s.tasks[x].id, Apply(After(Apply(s, Again(x), max), run, max), Act(next), max);
      && t.lock.Free? && t.tasks.Keys == s.tasks.Keys - {x} + (if Room(s, max) then {next} else {})
      && (Room(s, max) ==> t.tasks[next] == Posted(id) && t.deque == s.deque)
      && (!Room(s, max) ==> t.deque == if id in s.deque then s.deque else s.deque + [id])
  {
    MeanwhileKeeps(Apply(s, Again(x), max), run, max);
  }

  /** A task that ends otherwise posts the one that has waited longest, if there is room. */
  lemma LeaveHandled(s: State, x: TaskId, run: seq<Step>, next: TaskId, max: int)
    requires Enabled(s, Leave(x)) && s.running
    requires Runs(Apply(s, Leave(x), max), run, max) && Meanwhile(run) && next !in s.tasks
    ensures Enabled(After(Apply(s, Leave(x), max), run, max), Act(next))
    ensures
      var t := Apply(After(Apply(s, Leave(x), max), run, max), Act(next), max);
      var posts := Room(s, max) && s.deque != [];
      && t.lock.Free? && t.tasks.Keys == s.tasks.Keys - {x} + (if posts then {next} else {})
      && (posts ==> s.deque == [t.tasks[next].id] + t.deque && t.tasks[next].Posted?)
      && (!posts ==> t.deque == s.deque)
  {
    MeanwhileKeeps(Apply(s, Leave(x), max), run, max);
  }

  /** Working ends for exactly one task, and a manager that has stopped takes nothing. */
  lemma OthersUntouched(s: State, step: Step, max: int)
    requires Inv(s, max) && Enabled(s, step)
    ensures step.Decrement? ==>
              SameTasks(s, Apply(s, step, max)) && Apply(s, step, max).tasks[step.t].Ending?
              && forall x :: x in s.tasks && x != step.t ==> Apply(s, step, max).tasks[x] == s.tasks[x]
    ensures step.Stop? ==> !Apply(s, step, max).running && Apply(s, step, max).tasks == s.tasks
    ensures (step.Call? || step.Again? || step.Leave?) && !s.running ==>
              Apply(s, step, max) == if step.Call? then s else s.(tasks := s.tasks - {step.t})
  {
  }
}
