/** How the thread pool deals out work: claiming idle workers, donating segments of a private queue,
    and spreading a bulk of tasks over all workers. */
module WorkSharing {
  import opened Collections

  /** The answer of try_acquire_flag for each worker.  Other threads may change the flags while the
      loops below run; as no worker is asked about twice, one answer for each stands for all that. */
  type Flags = nat -> bool

  /** The k-th worker from `start` on, round the pool. */
  function Around(start: nat, k: nat, size: nat): nat
    requires size > 0
  {
    (start + k) % size
  }

  lemma AroundIs(start: nat, k: nat, size: nat)
    requires start < size && k < size
    ensures Around(start, k, size) == if start + k < size then start + k else start + k - size
  {
    var x := start + k;
    assert x == x / size * size + x % size;
    Multiple(x / size, size);
  }

  lemma Multiple(q: int, n: nat)
    requires n > 0
    ensures (q <= 0 ==> q * n <= 0) && (q >= 1 ==> q * n >= n) && (q >= 2 ==> q * n >= 2 * n)
  {
  }

  /** How far worker `w` is from `start`, going up and round. */
  function Ahead(start: nat, w: nat, size: nat): int {
    if w >= start then w - start else size - start + w
  }

  /** Every worker is met once on the way round, as far on as it is ahead. */
  lemma Offset(start: nat, w: nat, size: nat) returns (k: nat)
    requires start < size && w < size
    ensures k < size && Around(start, k, size) == w && k == Ahead(start, w, size)
    ensures k == 0 <==> w == start
  {
    k := Ahead(start, w, size);
    AroundIs(start, k, size);
  }

  lemma AheadOf(start: nat, k: nat, size: nat)
    requires start < size && k < size
    ensures Around(start, k, size) < size && Ahead(start, Around(start, k, size), size) == k
  {
    AroundIs(start, k, size);
  }

  lemma DifferentOffsets(start: nat, j: nat, k: nat, size: nat)
    requires start < size && j < k < size
    ensures Around(start, j, size) != Around(start, k, size)
  {
    AroundIs(start, j, size);
    AroundIs(start, k, size);
  }

  /** IdleWorkerSet::find_idle_worker: the nearest, going up and round from the caller; one that is no worker
      starts at its hashed id. */
  method FindIdleWorker(size: nat, caller: Option<nat>, hash: nat, approxSize: int, acquire: Flags) returns (r: Option<nat>)
    requires size > 0 && (caller.Some? ==> caller.value < size)
    ensures r.Some? ==> approxSize > 0 && r.value < size && acquire(r.value) && r != caller
    ensures r.None? ==> approxSize <= 0 || forall w :: 0 <= w < size && Some(w) != caller ==> !acquire(w)
    ensures
      var start := if caller.Some? then caller.value else hash % size;
      r.Some? ==>
        forall w :: 0 <= w < size && Some(w) != caller && Ahead(start, w, size) < Ahead(start, r.value, size) ==> !acquire(w)
  {
    if approxSize <= 0 { return None; }
    var start := if caller.Some? then caller.value else hash % size;
    hide Around;
    for i := 0 to size
      invariant forall k :: 0 <= k < i && Some(Around(start, k, size)) != caller ==> !acquire(Around(start, k, size))
    {
      var index := Around(start, i, size);
      if Some(index) != caller && acquire(index) {
        AheadOf(start, i, size);
        forall w | 0 <= w < size && Some(w) != caller && Ahead(start, w, size) < i
          ensures !acquire(w)
        {
          var k := Offset(start, w, size);
        }
        return Some(index);
      }
    }
    forall w | 0 <= w < size && Some(w) != caller
      ensures !acquire(w)
    {
      var k := Offset(start, w, size);
    }
    r := None;
  }

  /** The workers `r` were found at the increasing offsets `at`. */
  ghost predicate FoundAt(r: seq<nat>, at: seq<nat>, caller: nat, size: nat)
    requires size > 0
  {
    && |at| == |r|
    && (forall k :: 0 <= k < |r| ==> 0 < at[k] < size && r[k] == Around(caller, at[k], size))
    && (forall j, k :: 0 <= j < k < |at| ==> at[j] < at[k])
  }

  lemma FoundDistinct(r: seq<nat>, at: seq<nat>, caller: nat, size: nat)
    requires caller < size && FoundAt(r, at, caller, size)
    ensures Distinct(r) && caller !in r && forall w :: w in r ==> w < size
  {
    AroundIs(caller, 0, size);
    forall k | 0 <= k < |r|
      ensures r[k] != caller && r[k] < size
    {
      AroundIs(caller, at[k], size);
    }
    forall j, k | 0 <= j < k < |r|
      ensures r[j] != r[k]
    {
      DifferentOffsets(caller, at[j], at[k], size);
    }
  }

  /** IdleWorkerSet::find_idle_workers: distinct workers, never the caller, as many as may be had, the nearest
      first. */
  method FindIdleWorkers(size: nat, caller: nat, approxSize: int, maxCount: nat, acquire: Flags) returns (r: seq<nat>)
    requires caller < size
    ensures Distinct(r) && caller !in r && |r| <= maxCount && (|r| > 0 ==> |r| <= approxSize)
    ensures forall w :: w in r ==> w < size && acquire(w)
    ensures |r| < maxCount && |r| < approxSize ==> forall w :: 0 <= w < size && w != caller && acquire(w) ==> w in r
    ensures forall j, k :: 0 <= j < k < |r| ==> Ahead(caller, r[j], size) < Ahead(caller, r[k], size)
    ensures forall w, k :: 0 <= w < size && w != caller && acquire(w) && 0 <= k < |r| && Ahead(caller, w, size) < Ahead(caller, r[k], size) ==> w in r
  {
    r := [];
    if approxSize <= 0 { return; }
    hide Around;
    var maxWaiters := Min(approxSize, maxCount);
    var i := 0;
    ghost var at: seq<nat> := [];
    AroundIs(caller, 0, size);
    while i < size && |r| < maxWaiters
      invariant i <= size && |r| <= maxWaiters
      invariant FoundAt(r, at, caller, size) && forall k :: 0 <= k < |at| ==> at[k] < i
      invariant forall w :: w in r ==> acquire(w)
      invariant forall k :: 0 < k < i && acquire(Around(caller, k, size)) ==> Around(caller, k, size) in r
    {
      var index := Around(caller, i, size);
      if i > 0 { AroundIs(caller, i, size); }
      if index != caller && acquire(index) {
        r := r + [index];
        at := at + [i];
      }
      i := i + 1;
    }
    FoundDistinct(r, at, caller, size);
    forall k | 0 <= k < |r|
      ensures Ahead(caller, r[k], size) == at[k]
    {
      AheadOf(caller, at[k], size);
    }
    forall w | 0 <= w < size && w != caller && acquire(w) && Ahead(caller, w, size) < i
      ensures w in r
    {
      var k := Offset(caller, w, size);
    }
    if i == size {
      forall w | 0 <= w < size ensures Ahead(caller, w, size) < i { var k := Offset(caller, w, size); }
    }
  }

  // ---- Segments --------------------------------------------------------------------------------

  /** Each part is the quotient, and the first ones one more, so that no two differ by more than one. */
  predicate Even<T>(parts: seq<seq<T>>, quotient: nat, extra: int) {
    forall k :: 0 <= k < |parts| ==> |parts[k]| == quotient + if k < extra then 1 else 0
  }

  function Times(m: nat, d: nat): nat {
    m * d
  }

  lemma Quotient(count: nat, workers: nat)
    requires 0 < workers <= count
    ensures 0 < count / workers && 0 <= count - Times(workers, count / workers) == count % workers < workers
  {
    assert count == count / workers * workers + count % workers;
    Multiple(count / workers, workers);
  }

  lemma OneLess(m: nat, d: nat)
    requires m > 0
    ensures Times(m, d) == Times(m - 1, d) + d
  {
  }

  lemma NoTimes(d: nat)
    ensures Times(0, d) == 0
  {
  }

  /** A task slot; a task that has been moved from leaves an empty one. */
  type Slot = Option<nat>

  /** ThreadPoolWorker::balance_work, after `claimed` workers have been found: the donations and what
      is left are the queue, in order, in parts that differ by at most one, none of them empty. */
  method BalanceWork(queue: array<Slot>, claimed: seq<nat>) returns (donations: seq<seq<Slot>>, rest: seq<Slot>)
    requires 0 < |claimed| < queue.Length
    requires forall k :: 0 <= k < queue.Length ==> queue[k].Some?
    modifies queue
    ensures |donations| == |claimed| && Concat(donations) + rest == old(queue[..])
    ensures var quotient := queue.Length / (|claimed| + 1);
            quotient > 0 && Even(donations, quotient, queue.Length % (|claimed| + 1)) && |rest| == quotient
    ensures forall k :: 0 <= k < queue.Length - |rest| ==> queue[k].None?  // moved from
  {
    var count := queue.Length;
    var total := |claimed| + 1;
    var quotient := count / total;
    var extra := count - Times(total, quotient);
    Quotient(count, total);
    hide Times;
    ghost var was := queue[..];
    var begin, end := 0, quotient;
    donations := [];
    ghost var extras := extra;
    for i := 0 to |claimed|
      invariant end == begin + quotient && 0 <= extra <= |claimed| - i && extra == if i < extras then extras - i else 0
      invariant begin + Times(total - i, quotient) + extra == count
      invariant |donations| == i && Concat(donations) == was[..begin] && Even(donations, quotient, extras)
      invariant forall k :: 0 <= k < begin ==> queue[k].None?
      invariant forall k :: begin <= k < count ==> queue[k] == was[k]
    {
      OneLess(total - i, quotient);
      assert begin < count;
      if extra != 0 {
        end := end + 1;
        extra := extra - 1;
      }
      assert end <= count;
      var part := queue[begin..end];
      ConcatLast(donations, part);
      assert part == was[begin..end] && was[..begin] + part == was[..end];
      donations := donations + [part];
      forall k | begin <= k < end {
        queue[k] := None;
      }
      begin := end;
      end := end + quotient;
    }
    OneLess(1, quotient);
    assert begin + quotient == count by { NoTimes(quotient); }
    assert forall k :: begin <= k < count ==> queue[k].Some?;
    rest := queue[begin..];
    assert rest == was[begin..];
  }

  /** ThreadPool::enqueue of at least as many tasks as there are workers: every task goes to exactly
      one worker, and the workers' shares differ by at most one. */
  method Spread<T>(tasks: seq<T>, workers: nat) returns (shares: seq<seq<T>>)
    requires 0 < workers <= |tasks|
    ensures |shares| == workers && Concat(shares) == tasks
    ensures Even(shares, |tasks| / workers, |tasks| % workers) && |tasks| / workers > 0
  {
    var count := |tasks|;
    var quotient := count / workers;
    var extra := count - Times(workers, quotient);
    Quotient(count, workers);
    hide Times;
    var begin, end := 0, quotient;
    shares := [];
    ghost var extras := extra;
    for i := 0 to workers
      invariant end == begin + quotient && 0 <= extra <= workers - i && extra == if i < extras then extras - i else 0
      invariant begin + Times(workers - i, quotient) + extra == count
      invariant |shares| == i && begin <= count && Concat(shares) == tasks[..begin] && Even(shares, quotient, extras)
    {
      OneLess(workers - i, quotient);
      assert begin < count;
      if extra != 0 {
        end := end + 1;
        extra := extra - 1;
      }
      assert end <= count;
      ConcatLast(shares, tasks[begin..end]);
      assert tasks[..begin] + tasks[begin..end] == tasks[..end];
      shares := shares + [tasks[begin..end]];
      begin := end;
      end := end + quotient;
    }
    NoTimes(quotient);
    assert tasks[..begin] == tasks;
  }
}
