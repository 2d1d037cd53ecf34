/** The executor that starts one thread for each task.  A thread that has run its task takes the
    place of the last retired one and joins it; shutdown joins the last of the chain. */
module ThreadExecutor {
  import opened Collections

  type Tid = nat

  datatype Pc =
    | Running                   // in its task; its handle is in workers_
    | Retired(pred: seq<Tid>)   // has taken over last_retired_, about to join what it found there
    | Leaving                   // past the join
    | Finished                  // the operating system thread has ended

  datatype Shutdown = NotCalled | Waiting | Joining | Returned

  datatype State = State(
    threads: map<Tid, Pc>,
    workers: set<Tid>,
    lastRetired: seq<Tid>,
    abort: bool,
    shutdown: Shutdown,
    chain: seq<Tid>,             // history: the retired threads, in order
    joined: multiset<Tid>)       // history: every join that has returned

  datatype Step = Enqueue(t: Tid) | Retire(t: Tid) | Join(t: Tid) | Finish(t: Tid) | Shut

  predicate Ended(s: State, q: seq<Tid>) {
    forall k :: 0 <= k < |q| ==> q[k] in s.threads && s.threads[q[k]].Finished?
  }

  predicate Enabled(s: State, step: Step) {
    match step
    case Enqueue(t) => t !in s.threads
    case Retire(t) => t in s.workers && t in s.threads && s.threads[t].Running?
    case Join(t) => t in s.threads && s.threads[t].Retired? && Ended(s, s.threads[t].pred)
    case Finish(t) => t in s.threads && s.threads[t].Leaving?
    case Shut =>
      match s.shutdown
      case NotCalled => true
      case Waiting => s.workers == {}
      case Joining => Ended(s, s.lastRetired)
      case Returned => false
  }

  function Apply(s: State, step: Step): State
    requires Enabled(s, step)
  {
    match step
    case Enqueue(t) => if s.abort then s else s.(threads := s.threads[t := Running], workers := s.workers + {t})
    case Retire(t) =>
      s.(threads := s.threads[t := Retired(s.lastRetired)], workers := s.workers - {t}, lastRetired := [t],
         chain := s.chain + [t])
    case Join(t) =>
      s.(threads := s.threads[t := Leaving], joined := s.joined + multiset(s.threads[t].pred))
    case Finish(t) => s.(threads := s.threads[t := Finished])
    case Shut =>
      match s.shutdown
      case NotCalled => s.(abort := true, shutdown := Waiting)
      case Waiting => if s.lastRetired == [] then s.(shutdown := Returned) else s.(shutdown := Joining)
      case Joining => s.(joined := s.joined + multiset(s.lastRetired), lastRetired := [], shutdown := Returned)
  }

  /** Only what is a single thread is ever joined. */
  predicate Asserts(s: State, step: Step)
    requires Enabled(s, step)
  {
    match step
    case Join(t) => |s.threads[t].pred| <= 1
    case Shut => s.shutdown.Joining? ==> |s.lastRetired| == 1
    case _ => true
  }

  predicate Past(pc: Pc) {
    pc.Leaving? || pc.Finished?
  }

  /** What the i-th retired thread found in last_retired_: its predecessor in the chain. */
  function Found(chain: seq<Tid>, i: nat): seq<Tid>
    requires i < |chain|
  {
    if i == 0 then [] else [chain[i - 1]]
  }

  /** The join of the i-th retired thread has returned, in its successor or in shutdown. */
  predicate WasJoined(s: State, i: nat)
    requires i < |s.chain| && forall k :: 0 <= k < |s.chain| ==> s.chain[k] in s.threads
  {
    if i + 1 < |s.chain| then Past(s.threads[s.chain[i + 1]]) else s.shutdown.Returned?
  }

  predicate LinkOk(s: State, i: nat)
    requires i < |s.chain| && forall k :: 0 <= k < |s.chain| ==> s.chain[k] in s.threads
  {
    var pc := s.threads[s.chain[i]];
    && (pc == Retired(Found(s.chain, i)) || Past(pc))
    && s.joined[s.chain[i]] == (if WasJoined(s, i) then 1 else 0)
    && (WasJoined(s, i) ==> pc.Finished?)
  }

  /** Every thread is a worker or has retired, once. */
  ghost predicate Members(s: State) {
    && Distinct(s.chain)
    && (forall t :: t in s.threads <==> t in s.workers || t in s.chain)
    && (forall t :: t in s.workers ==> t in s.threads && s.threads[t].Running? && t !in s.chain)
    && (forall k :: 0 <= k < |s.chain| ==> s.chain[k] in s.threads)
    && (forall t :: t in s.joined ==> t in s.chain)
  }

  predicate Links(s: State)
    requires forall k :: 0 <= k < |s.chain| ==> s.chain[k] in s.threads
  {
    forall i :: 0 <= i < |s.chain| ==> LinkOk(s, i)
  }

  predicate ShutOk(s: State) {
    && s.lastRetired == (if s.chain == [] || s.shutdown.Returned? then [] else [s.chain[|s.chain| - 1]])
    && (s.abort <==> !s.shutdown.NotCalled?)
    && (s.shutdown.Joining? || s.shutdown.Returned? ==> s.workers == {})
    && (s.shutdown.Joining? ==> s.chain != [])
  }

  ghost predicate Inv(s: State) {
    Members(s) && Links(s) && ShutOk(s)
  }

  predicate Init(s: State) {
    s == State(map[], {}, [], false, NotCalled, [], multiset{})
  }

  /** A retired thread and its place in the chain. */
  lemma Place(s: State, t: Tid) returns (i: nat)
    requires Inv(s) && t in s.threads && !s.threads[t].Running?
    ensures i < |s.chain| && s.chain[i] == t && LinkOk(s, i)
  {
    i :| 0 <= i < |s.chain| && s.chain[i] == t;
  }

  lemma EnqueueKeeps(s: State, t: Tid)
    requires Inv(s) && Enabled(s, Enqueue(t))
    ensures Inv(Apply(s, Enqueue(t)))
  {
    var after := Apply(s, Enqueue(t));
    forall i | 0 <= i < |after.chain|
      ensures LinkOk(after, i)
    {
      assert LinkOk(s, i);
    }
  }

  lemma RetireMembers(s: State, t: Tid)
    requires Members(s) && Enabled(s, Retire(t))
    ensures Members(Apply(s, Retire(t)))
  {
    var after := Apply(s, Retire(t));
    assert forall x :: x in after.chain <==> x in s.chain || x == t;
    assert forall k :: 0 <= k < |after.chain| ==> after.chain[k] in after.chain;
  }

  lemma RetireLinks(s: State, t: Tid)
    requires Inv(s) && Enabled(s, Retire(t)) && Members(Apply(s, Retire(t)))
    ensures Links(Apply(s, Retire(t)))
  {
    var after := Apply(s, Retire(t));
    var n := |s.chain|;
    forall i | 0 <= i < n
      ensures LinkOk(after, i)
    {
      hide Members;
      assert LinkOk(s, i) && after.chain[i] == s.chain[i];
      assert s.chain[i] != t;
    }
    assert t !in s.joined && after.chain[n] == t;
    assert LinkOk(after, n);
  }

  lemma RetireKeeps(s: State, t: Tid)
    requires Inv(s) && Enabled(s, Retire(t))
    ensures Inv(Apply(s, Retire(t)))
  {
    RetireMembers(s, t);
    RetireLinks(s, t);
    hide Members, LinkOk;
  }

  lemma JoinMembers(s: State, t: Tid, at: nat)
    requires Members(s) && Enabled(s, Join(t)) && at < |s.chain| && s.chain[at] == t && s.threads[t].pred == Found(s.chain, at)
    ensures Members(Apply(s, Join(t)))
  {
    var after := Apply(s, Join(t));
    forall x | x in after.joined
      ensures x in s.chain
    {
      assert x in s.joined || x in s.threads[t].pred;
    }
  }

  lemma JoinLinks(s: State, t: Tid, at: nat, i: nat)
    requires Members(s) && Links(s) && Enabled(s, Join(t)) && at < |s.chain| && s.chain[at] == t
    requires s.threads[t].pred == Found(s.chain, at) && i < |s.chain| && Members(Apply(s, Join(t)))
    ensures LinkOk(Apply(s, Join(t)), i)
  {
    var after := Apply(s, Join(t));
    assert LinkOk(s, i) && LinkOk(s, at);
    assert i != at ==> s.chain[i] != t;
    if at == 0 {
      assert after.joined[s.chain[i]] == s.joined[s.chain[i]];
    } else if i == at - 1 {
      assert after.joined[s.chain[i]] == s.joined[s.chain[i]] + 1;
    } else {
      assert s.chain[i] != s.chain[at - 1];
    }
  }

  lemma JoinKeeps(s: State, t: Tid)
    requires Inv(s) && Enabled(s, Join(t))
    ensures Inv(Apply(s, Join(t))) && |s.threads[t].pred| <= 1
  {
    var after := Apply(s, Join(t));
    var at := Place(s, t);
    assert s.threads[t].pred == Found(s.chain, at);
    JoinMembers(s, t, at);
    forall i | 0 <= i < |after.chain|
      ensures LinkOk(after, i)
    {
      hide LinkOk, Distinct;
      JoinLinks(s, t, at, i);
    }
    hide Members, LinkOk;
  }

  lemma FinishKeeps(s: State, t: Tid)
    requires Inv(s) && Enabled(s, Finish(t))
    ensures Inv(Apply(s, Finish(t)))
  {
    var after := Apply(s, Finish(t));
    forall i | 0 <= i < |after.chain|
      ensures LinkOk(after, i)
    {
      assert LinkOk(s, i);
    }
  }

  lemma ShutKeeps(s: State)
    requires Inv(s) && Enabled(s, Shut)
    ensures Inv(Apply(s, Shut)) && Asserts(s, Shut)
  {
    var after := Apply(s, Shut);
    forall i | 0 <= i < |after.chain|
      ensures LinkOk(after, i)
    {
      assert LinkOk(s, i);
      if s.shutdown.Joining? && i + 1 < |s.chain| {
        assert s.chain[i] != s.chain[|s.chain| - 1];
      }
    }
  }

  lemma StepKeeps(s: State, step: Step)
    requires Inv(s) && Enabled(s, step)
    ensures Inv(Apply(s, step)) && Asserts(s, step)
  {
    hide Inv;
    match step
    case Enqueue(t) => EnqueueKeeps(s, t);
    case Retire(t) => RetireKeeps(s, t);
    case Join(t) => JoinKeeps(s, t);
    case Finish(t) => FinishKeeps(s, t);
    case Shut => ShutKeeps(s);
  }

  /** Going back along the chain from one that has ended. */
  lemma {:induction false} ChainEnded(s: State, i: nat)
    requires Inv(s) && i < |s.chain| && s.threads[s.chain[i]].Finished?
    ensures forall k :: 0 <= k <= i ==> s.threads[s.chain[k]].Finished?
  {
    if i > 0 {
      assert LinkOk(s, i - 1) && WasJoined(s, i - 1);
      ChainEnded(s, i - 1);
    }
  }

  /** No thread is joined twice, last_retired_ holds at most one, and when the first shutdown has
      returned every thread ever started has ended and has been joined. */
  ghost predicate Promised(s: State) {
    && |s.lastRetired| <= 1
    && (forall t :: s.joined[t] <= 1)
    && (forall t :: t in s.joined ==> t in s.threads && s.threads[t].Finished?)
    && (s.shutdown.Returned? ==> forall t :: t in s.threads ==> s.threads[t].Finished? && s.joined[t] == 1)
  }

  lemma InvPromises(s: State)
    requires Inv(s)
    ensures Promised(s)
  {
    var n := |s.chain|;
    if s.shutdown.Returned? && n > 0 {
      assert LinkOk(s, n - 1);
      ChainEnded(s, n - 1);
    }
    forall t
      ensures s.joined[t] <= 1
      ensures t in s.joined ==> t in s.threads && s.threads[t].Finished?
      ensures s.shutdown.Returned? && t in s.threads ==> s.threads[t].Finished? && s.joined[t] == 1
    {
      if t in s.chain {
        var i :| 0 <= i < n && s.chain[i] == t;
        assert LinkOk(s, i);
      }
    }
  }

  ghost predicate Safe(s: State, run: seq<Step>)
    decreases |run|
  {
    && Promised(s)
    && (run != [] && Enabled(s, run[0]) ==>
          && Asserts(s, run[0]) && Safe(Apply(s, run[0]), run[1..])
          && (s.shutdown.Returned? ==> Apply(s, run[0]) == s))
  }

  lemma {:induction false} RunSafe(s: State, run: seq<Step>)
    requires Inv(s)
    ensures Safe(s, run)
    decreases |run|
  {
    InvPromises(s);
    if run != [] && Enabled(s, run[0]) {
      StepKeeps(s, run[0]);
      hide Inv;
      RunSafe(Apply(s, run[0]), run[1..]);
    }
  }

  /** For any tasks and any interleaving of the threads' steps. */
  lemma EveryRunSafe(s: State, run: seq<Step>)
    requires Init(s)
    ensures Safe(s, run)
  {
    RunSafe(s, run);
  }

  /** A thread that waits to join is never stuck: somewhere down the chain a thread can go on. */
  lemma {:induction false} ChainMoves(s: State, i: nat) returns (step: Step)
    requires Inv(s) && i < |s.chain| && !s.threads[s.chain[i]].Finished?
    ensures (step.Join? || step.Finish?) && Enabled(s, step)
  {
    var t := s.chain[i];
    assert LinkOk(s, i);
    if s.threads[t].Leaving? {
      step := Finish(t);
    } else if i == 0 || s.threads[s.chain[i - 1]].Finished? {
      step := Join(t);
    } else {
      step := ChainMoves(s, i - 1);
    }
  }

  // ---- What was asked for ------------------------------------------------------------------------

  ghost predicate Runs(s: State, run: seq<Step>)
    decreases |run|
  {
    run == [] || (Enabled(s, run[0]) && Runs(Apply(s, run[0]), run[1..]))
  }

  ghost function After(s: State, run: seq<Step>): State
    requires Runs(s, run)
    decreases |run|
  {
    if run == [] then s else After(Apply(s, run[0]), run[1..])
  }

  /** Task `t` is enqueued before any shutdown. */
  predicate Accepted(run: seq<Step>, t: Tid) {
    run != [] && !run[0].Shut? && (run[0] == Enqueue(t) || Accepted(run[1..], t))
  }

  lemma StepStarts(s: State, step: Step, t: Tid)
    requires ShutOk(s) && Enabled(s, step)
    ensures
      var after := Apply(s, step);
      && (after.abort <==> s.abort || step.Shut?)
      && (t in after.threads <==> t in s.threads || (!s.abort && step == Enqueue(t)))
      && (t in after.threads && t !in s.threads ==> after.threads[t] == Running && t in after.workers)
  {
  }

  /** A thread is started for exactly the tasks that came before shutdown. */
  lemma {:induction false} StartsAllAccepted(s: State, run: seq<Step>, t: Tid)
    requires Inv(s) && Runs(s, run)
    ensures Inv(After(s, run)) && (After(s, run).abort <==> s.abort || Shut in run)
    ensures t in After(s, run).threads <==> t in s.threads || (!s.abort && Accepted(run, t))
    decreases |run|
  {
    if run != [] {
      StepStarts(s, run[0], t);
      StepKeeps(s, run[0]);
      assert Shut in run <==> run[0].Shut? || Shut in run[1..];
      hide Inv, Apply, Enabled;
      StartsAllAccepted(Apply(s, run[0]), run[1..], t);
    }
  }

  // ---- What is bound to happen -------------------------------------------------------------------

  function Weight(pc: Pc): nat {
    match pc case Running => 3 case Retired(_) => 2 case Leaving => 1 case Finished => 0
  }

  /** What the retired threads have still to do. */
  function Remaining(threads: map<Tid, Pc>, chain: seq<Tid>): nat
    requires forall k :: 0 <= k < |chain| ==> chain[k] in threads
  {
    if chain == [] then 0
    else Remaining(threads, chain[..|chain| - 1]) + Weight(threads[chain[|chain| - 1]])
  }

  lemma {:induction false} RemainingMoved(threads: map<Tid, Pc>, chain: seq<Tid>, t: Tid, pc: Pc)
    requires Distinct(chain) && t in threads && forall k :: 0 <= k < |chain| ==> chain[k] in threads
    ensures t !in chain ==> Remaining(threads[t := pc], chain) == Remaining(threads, chain)
    ensures t in chain && Weight(pc) < Weight(threads[t]) ==> Remaining(threads[t := pc], chain) < Remaining(threads, chain)
    decreases |chain|
  {
    if chain != [] {
      var n := |chain| - 1;
      assert forall x :: x in chain <==> x in chain[..n] || x == chain[n];
      RemainingMoved(threads, chain[..n], t, pc);
    }
  }

  /** How far shutdown is from its return. */
  function ToReturn(s: State): nat
    requires forall k :: 0 <= k < |s.chain| ==> s.chain[k] in s.threads
  {
    4 * |s.workers| + Remaining(s.threads, s.chain)
    + match s.shutdown case NotCalled => 3 case Waiting => 2 case Joining => 1 case Returned => 0
  }

  lemma RetireNearer(s: State, t: Tid)
    requires Inv(s) && Enabled(s, Retire(t)) && Inv(Apply(s, Retire(t)))
    ensures ToReturn(Apply(s, Retire(t))) < ToReturn(s)
  {
    var after := Apply(s, Retire(t));
    RemainingMoved(s.threads, s.chain, t, Retired(s.lastRetired));
    assert after.chain[..|after.chain| - 1] == s.chain;
    assert |after.workers| == |s.workers| - 1;
  }

  lemma ChainNearer(s: State, step: Step)
    requires Inv(s) && Enabled(s, step) && (step.Join? || step.Finish?) && Inv(Apply(s, step))
    ensures ToReturn(Apply(s, step)) < ToReturn(s)
  {
    var i := Place(s, step.t);
    RemainingMoved(s.threads, s.chain, step.t, if step.Join? then Leaving else Finished);
  }

  /** Until shutdown has returned, a thread or shutdown itself can go on. */
  lemma SomebodyMoves(s: State) returns (step: Step)
    requires Inv(s) && !s.shutdown.Returned?
    ensures !step.Enqueue? && Enabled(s, step) && Inv(Apply(s, step)) && ToReturn(Apply(s, step)) < ToReturn(s)
  {
    if s.workers != {} {
      var t :| t in s.workers;
      step := Retire(t);
      StepKeeps(s, step);
      RetireNearer(s, t);
    } else if i: nat :| i < |s.chain| && !s.threads[s.chain[i]].Finished? {
      step := ChainMoves(s, i);
      StepKeeps(s, step);
      ChainNearer(s, step);
    } else {
      step := Shut;
      StepKeeps(s, step);
    }
  }

  lemma Then(s: State, step: Step, rest: seq<Step>) returns (run: seq<Step>)
    requires Enabled(s, step) && Runs(Apply(s, step), rest)
    ensures run == [step] + rest && Runs(s, run) && After(s, run) == After(Apply(s, step), rest)
  {
    run := [step] + rest;
    assert run[1..] == rest;
  }

  lemma {:induction false} ShutdownReturns(s: State) returns (run: seq<Step>)
    requires Inv(s)
    ensures Runs(s, run) && After(s, run).shutdown.Returned? && Inv(After(s, run))
    ensures forall i :: 0 <= i < |run| ==> !run[i].Enqueue?
    ensures forall t :: t in After(s, run).threads <==> t in s.threads
    decreases ToReturn(s)
  {
    if s.shutdown.Returned? {
      run := [];
    } else {
      var step := SomebodyMoves(s);
      var after := Apply(s, step);
      assert forall t :: t in after.threads <==> t in s.threads;
      hide Inv, Apply, Enabled, ToReturn;
      var rest := ShutdownReturns(after);
      run := Then(s, step, rest);
    }
  }

  /** After any run, the threads and a shutdown can go on until every task that came before it has been run to
      its end and its thread joined exactly once. */
  lemma EveryRunEnds(s: State, run: seq<Step>) returns (more: seq<Step>)
    requires Init(s) && Runs(s, run)
    ensures Runs(After(s, run), more) && forall i :: 0 <= i < |more| ==> !more[i].Enqueue?
    ensures
      var after := After(After(s, run), more);
      && after.shutdown.Returned?
      && forall t :: if Accepted(run, t) then t in after.threads && after.threads[t].Finished? && after.joined[t] == 1
                     else t !in after.threads
  {
    forall t
      ensures Inv(After(s, run)) && (t in After(s, run).threads <==> Accepted(run, t))
    {
      StartsAllAccepted(s, run, t);
    }
    var now := After(s, run);
    assert Inv(now) by { StartsAllAccepted(s, run, 0); }
    hide After, Inv, Accepted;
    more := ShutdownReturns(now);
    InvPromises(After(now, more));
  }
}
