/** The thread pool: workers with a public queue under a lock and a private one, threads that die
    when idle and are started again by enqueuers, donations from busy workers to idle ones, and a
    shutdown that joins the workers one after the other.

    One step is one critical section or one atomic access.  Waking up is left to chance: a waiting
    worker may find a token, or time out, at any moment. */
module ThreadPool {

  type Task = nat

  datatype Pc =
    | Ended                // no thread, or one that has set idle_ for the last time
    | Entering             // about to lock in drain_queue
    | Waiting
    | Draining             // at the top of drain_queue_impl; may donate
    | Passed               // has found no abort, about to take a task
    | Running(task: Task)
    | Aborting             // has found atomic_abort_, or was refused by a donee

  datatype Worker = Worker(
    public: seq<Task>,
    private: seq<Task>,
    pc: Pc,
    idle: bool,
    atomicAbort: bool,
    abort: bool)

  /** How far the first call of shutdown is with the worker `i`. */
  datatype Shutdown =
    | NotCalled
    | Storing(i: nat) | Setting(i: nat) | Joining(i: nat) | Clearing(i: nat)
    | Returned

  datatype State = State(
    workers: seq<Worker>,
    shutdown: Shutdown,
    accepted: multiset<Task>,   // history
    executed: multiset<Task>,
    discarded: multiset<Task>)

  datatype Step =
    | Enqueue(v: nat, tasks: seq<Task>)     // enqueue_foreign, by any thread
    | Look(w: nat)                          // wait_for_task finds work or an abort, or goes to wait
    | Wake(w: nat)                          // a token, and the lock
    | TimeOut(w: nat)
    | Donate(w: nat, to: nat, count: nat)   // one segment of balance_work
    | Test(w: nat)                          // atomic_abort_
    | Take(w: nat)
    | EnqueueLocal(w: nat, own: seq<Task>)
    | Finish(w: nat)
    | SetIdle(w: nat)
    | Shut                                  // the next step of shutdown

  predicate Enabled(s: State, step: Step) {
    match step
    case Enqueue(v, _) => v < |s.workers|
    case Look(w) => w < |s.workers| && s.workers[w].pc.Entering?
    case Wake(w) => w < |s.workers| && s.workers[w].pc.Waiting?
    case TimeOut(w) => w < |s.workers| && s.workers[w].pc.Waiting?
    case Donate(w, to, count) =>
      w < |s.workers| && s.workers[w].pc.Draining? && to < |s.workers| && to != w && 0 < count < |s.workers[w].private|
    case Test(w) => w < |s.workers| && s.workers[w].pc.Draining?
    case Take(w) => w < |s.workers| && s.workers[w].pc.Passed?
    case EnqueueLocal(w, _) => w < |s.workers| && s.workers[w].pc.Running?
    case Finish(w) => w < |s.workers| && s.workers[w].pc.Running?
    case SetIdle(w) => w < |s.workers| && s.workers[w].pc.Aborting?
    case Shut => CanShut(s)
  }

  predicate CanShut(s: State) {
    match s.shutdown
    case NotCalled => true
    case Joining(i) => i < |s.workers| && s.workers[i].pc.Ended?
    case Returned => false
    case sh => sh.i < |s.workers|
  }

  function Put(s: State, w: nat, worker: Worker): State
    requires w < |s.workers|
  {
    s.(workers := s.workers[w := worker])
  }

  /** Adding to the public queue; an idle worker gets a new thread. */
  function Receive(v: Worker, tasks: seq<Task>): Worker {
    v.(public := v.public + tasks, pc := if v.idle then Entering else v.pc, idle := false)
  }

  /** Taking over the public queue, or ending because of an abort, with the lock held. */
  function Grab(w: Worker): Worker {
    if w.abort then w.(pc := Ended, idle := true)
    else w.(public := w.private, private := w.public, pc := Draining)
  }

  function Apply(s: State, step: Step): State
    requires Enabled(s, step)
  {
    match step
    case Enqueue(v, tasks) =>
      if s.workers[v].abort then s
      else Put(s, v, Receive(s.workers[v], tasks)).(accepted := s.accepted + multiset(tasks))
    case Look(w) =>
      var x := s.workers[w];
      Put(s, w, if x.public != [] || x.abort then Grab(x) else x.(pc := Waiting))
    case Wake(w) =>
      var x := s.workers[w];
      Put(s, w, if x.public == [] && !x.abort then x else Grab(x))
    case TimeOut(w) => Put(s, w, s.workers[w].(pc := Ended, idle := true))
    case Donate(w, to, count) =>
      var x := s.workers[w];
      if s.workers[to].abort then Put(s, w, x.(pc := Aborting))
      else
        Put(Put(s, to, Receive(s.workers[to], x.private[..count])), w, x.(private := x.private[count..]))
    case Test(w) =>
      var x := s.workers[w];
      Put(s, w, x.(pc := if x.private == [] then Entering else if x.atomicAbort then Aborting else Passed))
    case Take(w) =>
      var x := s.workers[w];
      if x.private == [] then s
      else Put(s, w, x.(private := x.private[..|x.private| - 1], pc := Running(x.private[|x.private| - 1])))
    case EnqueueLocal(w, own) =>
      var x := s.workers[w];
      if x.atomicAbort then s
      else Put(s, w, x.(private := x.private + own)).(accepted := s.accepted + multiset(own))
    case Finish(w) =>
      var x := s.workers[w];
      Put(s, w, x.(pc := Draining)).(executed := s.executed + multiset{x.pc.task})
    case SetIdle(w) => Put(s, w, s.workers[w].(pc := Ended, idle := true))
    case Shut => ApplyShut(s)
  }

  function Next(s: State, i: nat): Shutdown {
    if i < |s.workers| then Storing(i) else Returned
  }

  function ApplyShut(s: State): State
    requires CanShut(s)
  {
    match s.shutdown
    case NotCalled => s.(shutdown := Next(s, 0))
    case Storing(i) => Put(s, i, s.workers[i].(atomicAbort := true)).(shutdown := Setting(i))
    case Setting(i) => Put(s, i, s.workers[i].(abort := true)).(shutdown := Joining(i))
    case Joining(i) => s.(shutdown := Clearing(i))
    case Clearing(i) =>
      var x := s.workers[i];
      Put(s, i, x.(public := [], private := [])).(
        discarded := s.discarded + multiset(x.public) + multiset(x.private), shutdown := Next(s, i + 1))
  }

  // ---- Where the tasks are --------------------------------------------------------------------

  /** How often a task is with a worker. */
  function Here(w: Worker, x: Task): nat {
    multiset(w.public)[x] + multiset(w.private)[x] + (if w.pc == Running(x) then 1 else 0)
  }

  function Sum(ws: seq<Worker>, x: Task): nat {
    if ws == [] then 0 else Sum(ws[..|ws| - 1], x) + Here(ws[|ws| - 1], x)
  }

  lemma {:induction false} SumPut(ws: seq<Worker>, i: nat, w: Worker, x: Task)
    requires i < |ws|
    ensures Sum(ws[i := w], x) == Sum(ws, x) - Here(ws[i], x) + Here(w, x)
    decreases |ws|
  {
    hide Here;
    var n := |ws| - 1;
    if i == n {
      assert ws[i := w][..n] == ws[..n];
    } else {
      SumPut(ws[..n], i, w, x);
      assert ws[i := w][..n] == ws[..n][i := w];
    }
  }

  /** Every accepted task is as often with a worker, executed or discarded as it was accepted. */
  predicate Conserves(s: State, x: Task) {
    Sum(s.workers, x) + s.executed[x] + s.discarded[x] == s.accepted[x]
  }

  // ---- What holds in every state ---------------------------------------------------------------

  /** The steps of a shutdown of `n` workers, numbered. */
  function Rank(sh: Shutdown, n: nat): nat {
    match sh
    case NotCalled => 0
    case Storing(i) => 4 * i + 1
    case Setting(i) => 4 * i + 2
    case Joining(i) => 4 * i + 3
    case Clearing(i) => 4 * i + 4
    case Returned => 4 * n + 1
  }

  /** A worker may end with private tasks: its own atomic_abort_ is set, or another worker refuses. */
  predicate MayLeave(rank: nat, i: nat) {
    rank >= (if i == 0 then 2 else 3)
  }

  predicate WorkerOk(rank: nat, i: nat, w: Worker) {
    && (w.idle <==> w.pc.Ended?)
    && (w.atomicAbort <==> rank >= 4 * i + 2)
    && (w.abort <==> rank >= 4 * i + 3)
    && (w.pc.Passed? ==> w.private != [])
    && (w.pc.Ended? || w.pc.Entering? || w.pc.Waiting? ==> w.private == [] || MayLeave(rank, i))
    && (w.pc.Aborting? ==> MayLeave(rank, i))
  }

  predicate Finished(w: Worker) {
    w.abort && w.pc.Ended? && w.public == [] && w.private == []
  }

  /** The workers before the one shutdown is at are finished. */
  predicate ShutOk(rank: nat, i: nat, w: Worker) {
    && (rank >= 4 * i + 4 ==> w.pc.Ended?)
    && (rank >= 4 * i + 5 ==> Finished(w))
  }

  predicate Ok(rank: nat, i: nat, w: Worker) {
    WorkerOk(rank, i, w) && ShutOk(rank, i, w)
  }

  function RankOf(s: State): nat {
    Rank(s.shutdown, |s.workers|)
  }

  predicate WorkersOk(s: State) {
    && (forall i :: 0 <= i < |s.workers| ==> Ok(RankOf(s), i, s.workers[i]))
    && (!s.shutdown.NotCalled? && !s.shutdown.Returned? ==> s.shutdown.i < |s.workers|)
  }

  ghost predicate Inv(s: State) {
    WorkersOk(s) && forall x :: Conserves(s, x)
  }

  /** A step of a worker on itself alone. */
  predicate Single(step: Step) {
    step.Look? || step.Wake? || step.TimeOut? || step.Test? || step.Take? || step.EnqueueLocal? || step.Finish? || step.SetIdle?
  }

  lemma SingleKeeps(s: State, step: Step)
    requires WorkersOk(s) && Enabled(s, step) && Single(step)
    ensures WorkersOk(Apply(s, step))
  {
    assert Ok(RankOf(s), step.w, s.workers[step.w]);
  }

  lemma EnqueueKeeps(s: State, v: nat, tasks: seq<Task>)
    requires WorkersOk(s) && v < |s.workers|
    ensures WorkersOk(Apply(s, Enqueue(v, tasks)))
  {
    assert Ok(RankOf(s), v, s.workers[v]);
  }

  lemma DonateKeeps(s: State, w: nat, to: nat, count: nat)
    requires WorkersOk(s) && Enabled(s, Donate(w, to, count))
    ensures WorkersOk(Apply(s, Donate(w, to, count)))
  {
    assert Ok(RankOf(s), w, s.workers[w]) && Ok(RankOf(s), to, s.workers[to]);
  }

  lemma ShutKeeps(s: State)
    requires WorkersOk(s) && CanShut(s)
    ensures WorkersOk(ApplyShut(s))
  {
    var after := ApplyShut(s);
    forall i | 0 <= i < |after.workers|
      ensures Ok(RankOf(after), i, after.workers[i])
    {
      assert Ok(RankOf(s), i, s.workers[i]);
    }
  }

  // ---- Conservation ----------------------------------------------------------------------------

  lemma Split(q: seq<Task>, k: nat, x: Task)
    requires k <= |q|
    ensures multiset(q)[x] == multiset(q[..k])[x] + multiset(q[k..])[x]
  {
    assert q == q[..k] + q[k..];
  }

  lemma TakeConserves(s: State, w: nat, x: Task)
    requires Enabled(s, Take(w)) && Conserves(s, x)
    ensures Conserves(Apply(s, Take(w)), x)
  {
    hide Sum;
    var q, after := s.workers[w].private, Apply(s, Take(w));
    if q != [] {
      Split(q, |q| - 1, x);
      assert q[|q| - 1..] == [q[|q| - 1]];
    }
    SumPut(s.workers, w, after.workers[w], x);
  }

  lemma TaskConserves(s: State, step: Step, x: Task)
    requires Enabled(s, step) && (step.EnqueueLocal? || step.Finish?) && Conserves(s, x)
    ensures Conserves(Apply(s, step), x)
  {
    hide Sum;
    SumPut(s.workers, step.w, Apply(s, step).workers[step.w], x);
  }

  /** Swapping the queues, waiting and ending leave a worker with the tasks it had. */
  lemma SingleConserves(s: State, step: Step, x: Task)
    requires WorkersOk(s) && Enabled(s, step) && Single(step) && Conserves(s, x)
    ensures Conserves(Apply(s, step), x)
  {
    hide Sum, Ok;
    if step.Take? {
      TakeConserves(s, step.w, x);
    } else if step.EnqueueLocal? || step.Finish? {
      TaskConserves(s, step, x);
    } else {
      var w, after := step.w, Apply(s, step);
      SumPut(s.workers, w, after.workers[w], x);
      assert Here(after.workers[w], x) == Here(s.workers[w], x);
    }
  }

  lemma EnqueueConserves(s: State, v: nat, tasks: seq<Task>, x: Task)
    requires WorkersOk(s) && v < |s.workers| && Conserves(s, x)
    ensures Conserves(Apply(s, Enqueue(v, tasks)), x)
  {
    hide Sum;
    assert Ok(RankOf(s), v, s.workers[v]);
    SumPut(s.workers, v, Receive(s.workers[v], tasks), x);
  }

  lemma DonateConserves(s: State, w: nat, to: nat, count: nat, x: Task)
    requires WorkersOk(s) && Enabled(s, Donate(w, to, count)) && Conserves(s, x)
    ensures Conserves(Apply(s, Donate(w, to, count)), x)
  {
    hide Sum;
    assert Ok(RankOf(s), w, s.workers[w]) && Ok(RankOf(s), to, s.workers[to]);
    var a := s.workers[w];
    if s.workers[to].abort {
      SumPut(s.workers, w, a.(pc := Aborting), x);
    } else {
      var middle := s.workers[to := Receive(s.workers[to], a.private[..count])];
      SumPut(s.workers, to, middle[to], x);
      SumPut(middle, w, a.(private := a.private[count..]), x);
      Split(a.private, count, x);
    }
  }

  lemma ShutConserves(s: State, x: Task)
    requires WorkersOk(s) && CanShut(s) && Conserves(s, x)
    ensures Conserves(ApplyShut(s), x)
  {
    hide Sum;
    var sh, after := s.shutdown, ApplyShut(s);
    if sh.Storing? || sh.Setting? || sh.Clearing? {
      assert Ok(RankOf(s), sh.i, s.workers[sh.i]);
      SumPut(s.workers, sh.i, after.workers[sh.i], x);
    }
  }

  lemma StepKeeps(s: State, step: Step)
    requires Inv(s) && Enabled(s, step)
    ensures Inv(Apply(s, step))
  {
    hide WorkersOk, Conserves;
    match step
    case Enqueue(v, tasks) =>
      EnqueueKeeps(s, v, tasks);
      forall x ensures Conserves(Apply(s, step), x) { EnqueueConserves(s, v, tasks, x); }
    case Donate(w, to, count) =>
      DonateKeeps(s, w, to, count);
      forall x ensures Conserves(Apply(s, step), x) { DonateConserves(s, w, to, count, x); }
    case Shut =>
      ShutKeeps(s);
      forall x ensures Conserves(Apply(s, step), x) { ShutConserves(s, x); }
    case _ =>
      SingleKeeps(s, step);
      forall x ensures Conserves(Apply(s, step), x) { SingleConserves(s, step, x); }
  }

  // ---- Every run -------------------------------------------------------------------------------

  predicate Init(s: State) {
    && (forall i :: 0 <= i < |s.workers| ==> s.workers[i] == Worker([], [], Ended, true, false, false))
    && s.shutdown == NotCalled && s.accepted == s.executed == s.discarded == multiset{}
  }

  lemma {:induction false} SumFresh(ws: seq<Worker>, x: Task)
    requires forall i :: 0 <= i < |ws| ==> ws[i] == Worker([], [], Ended, true, false, false)
    ensures Sum(ws, x) == 0
  {
    if ws != [] {
      SumFresh(ws[..|ws| - 1], x);
    }
  }

  /** The assertion before the swap in drain_queue, and the one before a task is taken. */
  predicate Asserts(s: State, step: Step)
    requires Enabled(s, step)
  {
    match step
    case Look(w) => s.workers[w].public != [] && !s.workers[w].abort ==> s.workers[w].private == []
    case Wake(w) => s.workers[w].public != [] && !s.workers[w].abort ==> s.workers[w].private == []
    case Take(w) => s.workers[w].private != []
    case _ => true
  }

  /** Each accepted task is in exactly as many places as it was accepted times; once shutdown has
      returned nothing waits or runs. */
  ghost predicate Promised(s: State) {
    && (forall x :: Sum(s.workers, x) + s.executed[x] + s.discarded[x] == s.accepted[x])
    && s.executed <= s.accepted
    && (s.shutdown.Returned? ==> forall i :: 0 <= i < |s.workers| ==> Finished(s.workers[i]))
  }

  /** The phases of a shutdown in which a worker can be given a new thread although it has private tasks:
      before its own abort_ is stored, but after its atomic_abort_, or after the abort_ of the first
      worker, which from then on refuses its donations. */
  predicate Exposed(w: nat, sh: Shutdown) {
    sh == Setting(w) || (w > 0 && !sh.Returned? && 3 <= Rank(sh, 0) <= 4 * w + 2)
  }

  lemma AssertsUnlessExposed(s: State, step: Step)
    requires WorkersOk(s) && Enabled(s, step)
    ensures Asserts(s, step) || ((step.Look? || step.Wake?) && Exposed(step.w, s.shutdown))
  {
    if step.Look? || step.Wake? || step.Take? {
      assert Ok(RankOf(s), step.w, s.workers[step.w]);
    }
  }

  /** Only the end of a task executes one, and only a shutdown discards any.  A worker that looks for tasks waits
      exactly if it finds none, and ends exactly if its abort_ is set. */
  predicate Counts(s: State, step: Step)
    requires Enabled(s, step)
  {
    var after := Apply(s, step);
    && after.executed == s.executed + (if step.Finish? then multiset{s.workers[step.w].pc.task} else multiset{})
    && (!step.Shut? ==> after.discarded == s.discarded)
    && (step.Look? || step.Wake? ==>
          var x, y := s.workers[step.w], after.workers[step.w];
          (y.pc.Waiting? <==> x.public == [] && !x.abort) && (y.pc.Ended? <==> x.abort))
  }

  ghost predicate Safe(s: State, run: seq<Step>)
    decreases |run|
  {
    && Promised(s)
    && (run != [] && Enabled(s, run[0]) ==>
          var after := Apply(s, run[0]);
          && Safe(after, run[1..]) && Counts(s, run[0])
          && (Asserts(s, run[0]) || ((run[0].Look? || run[0].Wake?) && Exposed(run[0].w, s.shutdown)))
          && (s.shutdown.Returned? ==> after == s))
  }

  lemma StepCounts(s: State, step: Step)
    requires Enabled(s, step)
    ensures Counts(s, step)
  {
  }

  lemma AfterReturn(s: State, step: Step)
    requires Inv(s) && Enabled(s, step) && s.shutdown.Returned?
    ensures Apply(s, step) == s
  {
    hide Conserves;
    forall i | 0 <= i < |s.workers|
      ensures s.workers[i].pc.Ended? && s.workers[i].abort
    {
      assert Ok(RankOf(s), i, s.workers[i]);
    }
  }

  lemma {:induction false} RunSafe(s: State, run: seq<Step>)
    requires Inv(s)
    ensures Safe(s, run)
    decreases |run|
  {
    forall x ensures Sum(s.workers, x) + s.executed[x] + s.discarded[x] == s.accepted[x] {
      assert Conserves(s, x);
    }
    hide Conserves, Sum;
    forall i | 0 <= i < |s.workers|
      ensures Ok(RankOf(s), i, s.workers[i])
    {
    }
    if run != [] && Enabled(s, run[0]) {
      StepKeeps(s, run[0]);
      AssertsUnlessExposed(s, run[0]);
      StepCounts(s, run[0]);
      hide Counts;
      if s.shutdown.Returned? { AfterReturn(s, run[0]); }
      hide Promised;
      RunSafe(Apply(s, run[0]), run[1..]);
    }
  }

  /** For any number of workers, any tasks and any interleaving: accepted tasks are neither lost
      nor doubled, the assertions hold until shutdown is called, and after it returned nothing happens. */
  lemma EveryRunSafe(s: State, run: seq<Step>)
    requires Init(s)
    ensures Safe(s, run)
  {
    forall x ensures Conserves(s, x) { SumFresh(s.workers, x); }
    RunSafe(s, run);
  }

  // ---- Runs, step by step ------------------------------------------------------------------------

  ghost predicate Runs(s: State, run: seq<Step>)
    decreases |run|
  {
    run == [] || (Enabled(s, run[0]) && Runs(Apply(s, run[0]), run[1..]))
  }

  ghost function After(s: State, run: seq<Step>): State
    requires Runs(s, run)
    decreases |run|
  {
    if run == [] then s else After(Apply(s, run[0]), run[1..])
  }

  lemma {:induction false} Extend(s: State, run: seq<Step>, step: Step)
    requires Runs(s, run) && Enabled(After(s, run), step)
    ensures Runs(s, run + [step]) && After(s, run + [step]) == Apply(After(s, run), step)
    decreases |run|
  {
    if run == [] {
      assert (run + [step])[1..] == [];
    } else {
      Extend(Apply(s, run[0]), run[1..], step);
      assert (run + [step])[1..] == run[1..] + [step];
    }
  }

  lemma {:induction false} RunKeeps(s: State, run: seq<Step>)
    requires Inv(s) && Runs(s, run)
    ensures Inv(After(s, run))
    decreases |run|
  {
    if run != [] {
      StepKeeps(s, run[0]);
      hide Inv;
      RunKeeps(Apply(s, run[0]), run[1..]);
    }
  }

  // ---- What is accepted, read from the run alone -------------------------------------------------

  function Shuts(run: seq<Step>): nat {
    if run == [] then 0 else Shuts(run[..|run| - 1]) + if run[|run| - 1].Shut? then 1 else 0
  }

  /** The tasks a step asks to be run.  A worker refuses those of others once its abort_ is stored, and its
      own once its atomic_abort_ is, which is so after that many steps of the shutdown. */
  function Asked(step: Step, shuts: nat): multiset<Task> {
    match step
    case Enqueue(v, tasks) => if shuts >= 4 * v + 3 then multiset{} else multiset(tasks)
    case EnqueueLocal(w, own) => if shuts >= 4 * w + 2 then multiset{} else multiset(own)
    case _ => multiset{}
  }

  function Offered(run: seq<Step>, shuts: nat): multiset<Task> {
    if run == [] then multiset{}
    else
      var before := run[..|run| - 1];
      Offered(before, shuts) + Asked(run[|run| - 1], shuts + Shuts(before))
  }

  lemma ShutRanks(s: State)
    requires WorkersOk(s) && CanShut(s)
    ensures RankOf(ApplyShut(s)) == RankOf(s) + 1
  {
  }

  lemma EnqueueAccepts(s: State, step: Step)
    requires WorkersOk(s) && Enabled(s, step) && (step.Enqueue? || step.EnqueueLocal?)
    ensures Apply(s, step).accepted == s.accepted + Asked(step, RankOf(s)) && RankOf(Apply(s, step)) == RankOf(s)
  {
    var w := if step.Enqueue? then step.v else step.w;
    assert Ok(RankOf(s), w, s.workers[w]);
    hide ShutOk, MayLeave, Ok;
  }

  lemma AcceptsAsked(s: State, step: Step)
    requires Inv(s) && Enabled(s, step)
    ensures Apply(s, step).accepted == s.accepted + Asked(step, RankOf(s))
    ensures RankOf(Apply(s, step)) == RankOf(s) + if step.Shut? then 1 else 0
  {
    hide Conserves, Ok;
    if step.Enqueue? || step.EnqueueLocal? {
      EnqueueAccepts(s, step);
    } else if step.Shut? {
      ShutRanks(s);
    }
  }

  lemma {:induction false} Before(s: State, run: seq<Step>, n: nat)
    requires Runs(s, run) && n <= |run|
    ensures Runs(s, run[..n]) && (n < |run| ==> Enabled(After(s, run[..n]), run[n]))
    ensures n + 1 == |run| ==> After(s, run) == Apply(After(s, run[..n]), run[n])
    decreases |run|
  {
    if n > 0 {
      Before(Apply(s, run[0]), run[1..], n - 1);
      assert run[..n][1..] == run[1..][..n - 1];
    } else if |run| == 1 {
      assert run[1..] == [];
    }
  }

  /** Every task asked for is accepted, by every run, except those that come too late for a shutdown. */
  lemma {:induction false} AcceptsAllOffered(s: State, run: seq<Step>)
    requires Inv(s) && Runs(s, run)
    ensures After(s, run).accepted == s.accepted + Offered(run, RankOf(s))
    ensures RankOf(After(s, run)) == RankOf(s) + Shuts(run)
    decreases |run|
  {
    if run != [] {
      var before := run[..|run| - 1];
      Before(s, run, |run| - 1);
      AcceptsAllOffered(s, before);
      RunKeeps(s, before);
      AcceptsAsked(After(s, before), run[|run| - 1]);
    }
  }

  // ---- What a worker does with its tasks ---------------------------------------------------------

  predicate Quiet(s: State, w: nat) {
    w < |s.workers| && s.shutdown.NotCalled? && WorkersOk(s)
  }

  /** A donation moves the oldest tasks, behind those that wait already: put together, the two queues are as before. */
  lemma DonatesOldest(s: State, w: nat, to: nat, count: nat)
    requires Enabled(s, Donate(w, to, count)) && !s.workers[to].abort
    ensures
      var after := Apply(s, Donate(w, to, count));
      && after.workers[to].public + after.workers[w].private == s.workers[to].public + s.workers[w].private
      && |after.workers[w].private| == |s.workers[w].private| - count
  {
    var q := s.workers[w].private;
    assert q == q[..count] + q[count..];
    var a, b, c := s.workers[to].public, q[..count], q[count..];
    assert a + b + c == a + (b + c);
  }

  /** Draining alone: the private tasks are run, the newest first, and then the worker looks for more. */
  lemma {:induction false} DrainsAlone(s: State, run: seq<Step>, w: nat) returns (longer: seq<Step>)
    requires Inv(s) && Runs(s, run)
    requires Quiet(After(s, run), w) && After(s, run).workers[w].pc.Draining?
    ensures Runs(s, longer)
    ensures
      var t, u := After(s, run), After(s, longer);
      && Quiet(u, w) && u.executed == t.executed + multiset(t.workers[w].private)
      && u.workers[w] == t.workers[w].(private := [], pc := Entering)
    decreases |After(s, run).workers[w].private|
  {
    var t := After(s, run);
    var x := t.workers[w];
    hide Runs, After;
    RunKeeps(s, run);
    longer := Then(s, run, Test(w));
    RunKeeps(s, longer);
    if x.private != [] {
      longer := Then(s, longer, Take(w));
      RunKeeps(s, longer);
      longer := Then(s, longer, Finish(w));
      RunKeeps(s, longer);
      var n := |x.private| - 1;
      assert x.private == x.private[..n] + [x.private[n]];
      longer := DrainsAlone(s, longer, w);
    }
  }

  /** A worker that has a thread runs all that is in its public queue, if nobody disturbs it. */
  lemma RunsAll(s: State, run: seq<Step>, w: nat) returns (longer: seq<Step>)
    requires Inv(s) && Runs(s, run)
    requires Quiet(After(s, run), w) && After(s, run).workers[w].public != []
    requires After(s, run).workers[w].pc.Entering? || After(s, run).workers[w].pc.Waiting?
    ensures Runs(s, longer)
    ensures
      var t, u := After(s, run), After(s, longer);
      && u.executed == t.executed + multiset(t.workers[w].public)
      && Quiet(u, w) && u.workers[w].public == u.workers[w].private == [] && u.workers[w].pc.Entering?
  {
    var t := After(s, run);
    assert Ok(RankOf(t), w, t.workers[w]);
    hide Runs, After;
    RunKeeps(s, run);
    longer := Then(s, run, if t.workers[w].pc.Entering? then Look(w) else Wake(w));
    RunKeeps(s, longer);
    longer := DrainsAlone(s, longer, w);
  }

  /** Of its private tasks a worker runs the newest. */
  lemma NewestFirst(s: State, w: nat, older: seq<Task>, x: Task)
    requires Enabled(s, Take(w)) && s.workers[w].private == older + [x]
    ensures Apply(s, Take(w)).workers[w].pc == Running(x) && Apply(s, Take(w)).workers[w].private == older
  {
  }

  /** New tasks go behind the old ones, in the queue of the worker they are for. */
  lemma GoesBehind(s: State, v: nat, tasks: seq<Task>)
    requires Quiet(s, v)
    ensures Apply(s, Enqueue(v, tasks)).workers[v].public == s.workers[v].public + tasks
    ensures s.workers[v].pc.Running? ==> Apply(s, EnqueueLocal(v, tasks)).workers[v].private == s.workers[v].private + tasks
  {
    assert Ok(RankOf(s), v, s.workers[v]);
  }

  lemma Nothing(s: State) returns (run: seq<Step>)
    ensures run == [] && Runs(s, run) && After(s, run) == s
  {
    run := [];
  }

  function Fresh(n: nat): State {
    State(seq(n, i => Worker([], [], Ended, true, false, false)), NotCalled, multiset{}, multiset{}, multiset{})
  }

  lemma FreshKeeps(n: nat)
    ensures Init(Fresh(n)) && Inv(Fresh(n))
  {
    var s := Fresh(n);
    forall x ensures Conserves(s, x) { SumFresh(s.workers, x); }
  }

  // ---- A shutdown comes to its end ---------------------------------------------------------------

  /** How far a worker whose abort flags are set is from its end. */
  function ToEnd(pc: Pc): nat {
    match pc
    case Ended => 0
    case Entering => 1 case Waiting => 1 case Aborting => 1
    case Draining => 2 case Running(_) => 3 case Passed => 4
  }

  function ToReturn(s: State): int {
    8 * (4 * |s.workers| + 1 - RankOf(s))
    + if s.shutdown.Joining? && s.shutdown.i < |s.workers| then ToEnd(s.workers[s.shutdown.i].pc) else 0
  }

  /** What worker `w` does next. */
  function NextOf(w: nat, pc: Pc): Step {
    match pc
    case Ended => Shut
    case Entering => Look(w)
    case Waiting => Wake(w)
    case Aborting => SetIdle(w)
    case Draining => Test(w)
    case Running(_) => Finish(w)
    case Passed => Take(w)
  }

  lemma ShutMoves(s: State) returns (step: Step)
    requires WorkersOk(s) && !s.shutdown.Returned?
    ensures Enabled(s, step) && (step.Shut? || Single(step)) && 0 <= ToReturn(Apply(s, step)) < ToReturn(s)
  {
    if s.shutdown.Joining? {
      var i := s.shutdown.i;
      assert Ok(RankOf(s), i, s.workers[i]);
      step := NextOf(i, s.workers[i].pc);
    } else {
      step := Shut;
      ShutRanks(s);
    }
    if step.Shut? { ShutKeeps(s); } else { SingleKeeps(s, step); }
  }

  /** Whatever the workers are doing, the threads can go on until shutdown has returned. */
  lemma {:induction false} ShutdownReturns(s: State, run: seq<Step>) returns (longer: seq<Step>)
    requires Inv(s) && Runs(s, run)
    ensures run <= longer && Runs(s, longer) && After(s, longer).shutdown.Returned?
    ensures forall i :: |run| <= i < |longer| ==> longer[i].Shut? || Single(longer[i])
    decreases ToReturn(After(s, run))
  {
    RunKeeps(s, run);
    longer := run;
    if !After(s, run).shutdown.Returned? {
      var step := ShutMoves(After(s, run));
      hide Runs, After, Apply, Enabled, ToReturn, Inv, Single;
      longer := Then(s, run, step);
      longer := ShutdownReturns(s, longer);
    }
  }

  // ---- The assertion that can fail ---------------------------------------------------------------

  predicate FailsAt(s: State, w: nat) {
    (Enabled(s, Look(w)) && !Asserts(s, Look(w))) || (Enabled(s, Wake(w)) && !Asserts(s, Wake(w)))
  }

  ghost predicate LeadsToFailure(n: nat, run: seq<Step>, w: nat, sh: Shutdown) {
    Runs(Fresh(n), run) && After(Fresh(n), run).shutdown == sh && FailsAt(After(Fresh(n), run), w)
  }

  /** The worker `w` is about to start on new tasks with old ones in its private queue, and no other works. */
  predicate Laid(s: State, n: nat, w: nat) {
    && |s.workers| == n && w < n && 2 <= RankOf(s) <= 4 * w + 2 && !s.shutdown.Returned?
    && (forall j :: 0 <= j < n && j != w ==> s.workers[j].pc.Ended?)
    && var x := s.workers[w]; x.pc.Entering? && x.public != [] && x.private != [] && !x.abort
  }

  /** Shutdown goes on, one step at a time, without disturbing it. */
  lemma {:induction false} ShutOn(s: State, run: seq<Step>, n: nat, w: nat, rank: nat) returns (longer: seq<Step>)
    requires Runs(s, run) && Laid(After(s, run), n, w) && RankOf(After(s, run)) <= rank <= 4 * w + 2
    ensures Runs(s, longer) && Laid(After(s, longer), n, w) && RankOf(After(s, longer)) == rank
    decreases rank - RankOf(After(s, run))
  {
    longer := run;
    if RankOf(After(s, run)) < rank {
      Extend(s, run, Shut);
      longer := ShutOn(s, run + [Shut], n, w, rank);
    }
  }

  /** A worker that saw its atomic_abort_ ends with private tasks; abort_ is not yet set, so an enqueuer
      starts a new thread on them. */
  lemma LaidByAbort(n: nat) returns (run: seq<Step>)
    requires n > 0
    ensures Runs(Fresh(n), run) && Laid(After(Fresh(n), run), n, 0) && RankOf(After(Fresh(n), run)) == 2
  {
    hide Runs, After;
    var s := Fresh(n);
    run := Nothing(s);
    run := Then(s, run, Enqueue(0, [7]));
    run := Then(s, run, Look(0));
    run := Then(s, run, Shut);
    run := Then(s, run, Shut);
    run := Then(s, run, Test(0));
    run := Then(s, run, SetIdle(0));
    run := Then(s, run, Enqueue(0, [9]));
  }

  /** A worker whose donation is refused ends with private tasks, long before its own turn. */
  lemma LaidByRefusal(n: nat, w: nat) returns (run: seq<Step>)
    requires 0 < w < n
    ensures Runs(Fresh(n), run) && Laid(After(Fresh(n), run), n, w) && RankOf(After(Fresh(n), run)) == 3
  {
    hide Runs, After;
    var s := Fresh(n);
    run := Nothing(s);
    run := Then(s, run, Enqueue(w, [7, 8]));
    run := Then(s, run, Look(w));
    run := Then(s, run, Shut);
    run := Then(s, run, Shut);
    run := Then(s, run, Shut);
    run := Then(s, run, Donate(w, 0, 1));
    run := Then(s, run, SetIdle(w));
    run := Then(s, run, Enqueue(w, [9]));
  }

  lemma Then(s: State, run: seq<Step>, step: Step) returns (longer: seq<Step>)
    requires Runs(s, run) && Enabled(After(s, run), step)
    ensures longer == run + [step] && Runs(s, longer) && After(s, longer) == Apply(After(s, run), step)
  {
    Extend(s, run, step);
    longer := run + [step];
  }

  lemma RankInjective(a: Shutdown, b: Shutdown, n: nat)
    requires !a.Returned? && !b.Returned? && Rank(a, n) == Rank(b, n)
    ensures a == b
  {
  }

  /** In every phase in which a worker is exposed, and for any number of workers, some run makes the
      assertion that its private queue is empty before the swap fail. */
  lemma SwapAssertionFails(n: nat, w: nat, sh: Shutdown) returns (run: seq<Step>)
    requires w < n && Exposed(w, sh)
    ensures LeadsToFailure(n, run, w, sh)
  {
    if w == 0 {
      run := LaidByAbort(n);
    } else {
      run := LaidByRefusal(n, w);
    }
    run := ShutOn(Fresh(n), run, n, w, Rank(sh, n));
    RankInjective(After(Fresh(n), run).shutdown, sh, n);
  }

  /** And in no other phase. */
  lemma SwapAssertionExact(n: nat, w: nat, sh: Shutdown)
    requires w < n
    ensures (exists run :: LeadsToFailure(n, run, w, sh)) <==> Exposed(w, sh)
  {
    if Exposed(w, sh) {
      var run := SwapAssertionFails(n, w, sh);
    }
    forall run | LeadsToFailure(n, run, w, sh)
      ensures Exposed(w, sh)
    {
      var t := After(Fresh(n), run);
      FreshKeeps(n);
      RunKeeps(Fresh(n), run);
      if Enabled(t, Look(w)) { AssertsUnlessExposed(t, Look(w)); }
      if Enabled(t, Wake(w)) { AssertsUnlessExposed(t, Wake(w)); }
    }
  }

  // ---- The task that waits for nobody ------------------------------------------------------------

  /** Without a shutdown, a worker has no thread but tasks in its public queue. */
  predicate Stranded(s: State) {
    s.shutdown.NotCalled? && exists w :: 0 <= w < |s.workers| && s.workers[w].pc.Ended? && s.workers[w].public != []
  }

  ghost predicate Strands(s: State, run: seq<Step>)
    decreases |run|
  {
    Stranded(s) || (run != [] && Enabled(s, run[0]) && Strands(Apply(s, run[0]), run[1..]))
  }

  /** A worker whose idle time is over, and whose queue is not looked at again, ends with tasks in it. */
  predicate EndsLate(s: State, step: Step) {
    step.TimeOut? && Enabled(s, step) && s.shutdown.NotCalled? && s.workers[step.w].public != []
  }

  ghost predicate SomeEndsLate(s: State, run: seq<Step>)
    decreases |run|
  {
    run != [] && Enabled(s, run[0]) && (EndsLate(s, run[0]) || SomeEndsLate(Apply(s, run[0]), run[1..]))
  }

  lemma StrandedByTimeOut(s: State, step: Step)
    requires WorkersOk(s) && !Stranded(s) && Enabled(s, step)
    ensures Stranded(Apply(s, step)) <==> EndsLate(s, step)
  {
    var after := Apply(s, step);
    if EndsLate(s, step) {
      assert after.workers[step.w].pc.Ended? && after.workers[step.w].public != [];
    } else if after.shutdown.NotCalled? {
      forall w | 0 <= w < |after.workers|
        ensures !(after.workers[w].pc.Ended? && after.workers[w].public != [])
      {
        assert Ok(RankOf(s), w, s.workers[w]);
      }
    }
  }

  /** A run without a shutdown strands a task exactly if some worker times out with tasks in its queue. */
  lemma {:induction false} StrandedExactly(s: State, run: seq<Step>)
    requires Inv(s) && !Stranded(s)
    ensures Strands(s, run) <==> SomeEndsLate(s, run)
    decreases |run|
  {
    if run != [] && Enabled(s, run[0]) {
      var after := Apply(s, run[0]);
      StrandedByTimeOut(s, run[0]);
      StepKeeps(s, run[0]);
      hide Inv, Stranded, EndsLate;
      if !Stranded(after) { StrandedExactly(after, run[1..]); }
    }
  }

  lemma RunsOne() returns (run: seq<Step>)
    ensures Runs(Fresh(1), run) && After(Fresh(1), run).shutdown.NotCalled?
    ensures After(Fresh(1), run).workers == [Worker([], [], Running(1), false, false, false)]
  {
    hide Runs, After;
    var s := Fresh(1);
    run := Nothing(s);
    assert s.workers[0].public + [1] == [1];
    run := Then(s, run, Enqueue(0, [1]));
    assert After(s, run).workers == [Worker([1], [], Entering, false, false, false)];
    run := Then(s, run, Look(0));
    assert After(s, run).workers == [Worker([], [1], Draining, false, false, false)];
    run := Then(s, run, Test(0));
    assert After(s, run).workers == [Worker([], [1], Passed, false, false, false)];
    run := Then(s, run, Take(0));
  }

  lemma Waits() returns (run: seq<Step>)
    ensures Runs(Fresh(1), run) && After(Fresh(1), run).shutdown.NotCalled?
    ensures After(Fresh(1), run).workers == [Worker([], [], Waiting, false, false, false)]
  {
    hide Runs, After, Fresh;
    var s := Fresh(1);
    run := RunsOne();
    run := Then(s, run, Finish(0));
    assert After(s, run).workers == [Worker([], [], Draining, false, false, false)];
    run := Then(s, run, Test(0));
    assert After(s, run).workers == [Worker([], [], Entering, false, false, false)];
    run := Then(s, run, Look(0));
  }

  /** For instance: the second task comes when the worker has just stopped waiting. */
  lemma TaskStranded() returns (run: seq<Step>)
    ensures Runs(Fresh(1), run) && Stranded(After(Fresh(1), run)) && After(Fresh(1), run).workers[0].public == [2]
  {
    hide Runs, After;
    run := Waits();
    assert After(Fresh(1), run).workers[0].public + [2] == [2];
    run := Then(Fresh(1), run, Enqueue(0, [2]));
    run := Then(Fresh(1), run, TimeOut(0));
    assert After(Fresh(1), run).workers[0] == Worker([2], [], Ended, true, false, false);
  }
}
