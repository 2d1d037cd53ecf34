/** The timer queue's ordered set of timers and the map from timers to their places in it.  Firing a
    timer changes the key the set is ordered by. */
module TimerSet {

  type Tid = nat
  type Time = int   // nanoseconds

  const MILLISECOND: Time := 1_000_000
  const DAY: Time := 24 * 3600 * 1000 * MILLISECOND

  /** A node of the set; `place` stands for the iterator that designates it. */
  datatype Node = Node(place: nat, timer: Tid)

  datatype Request = Add(t: Tid, deadline: Time) | Remove(t: Tid)

  /** What the loop finds when it comes to a timer: whether it has been cancelled, its frequency in
      milliseconds, and the clock when it fires. */
  datatype Reading = Reading(cancelled: bool, frequency: nat, clock: Time)

  type Deadlines = map<Tid, Time>

  ghost predicate Keyed(nodes: seq<Node>, deadline: Deadlines) {
    forall i :: 0 <= i < |nodes| ==> nodes[i].timer in deadline
  }

  ghost predicate Sorted(nodes: seq<Node>, deadline: Deadlines)
    requires Keyed(nodes, deadline)
  {
    forall i, j :: 0 <= i < j < |nodes| ==> deadline[nodes[i].timer] <= deadline[nodes[j].timer]
  }

  /** The set and the map are in bijection: each holds a node exactly once, under its own place. */
  ghost predicate Matched(nodes: seq<Node>, mapper: map<Tid, nat>) {
    && (forall n :: n in nodes <==> n.timer in mapper && mapper[n.timer] == n.place)
    && (forall n :: multiset(nodes)[n] <= 1)
    && (forall t, u :: t in mapper && u in mapper && mapper[t] == mapper[u] ==> t == u)
  }

  /** Where std::multiset puts a new element: behind those that are not greater. */
  function Upper(nodes: seq<Node>, deadline: Deadlines, key: Time): (i: nat)
    requires Keyed(nodes, deadline)
    ensures i <= |nodes|
  {
    if nodes == [] || deadline[nodes[|nodes| - 1].timer] <= key then |nodes|
    else Upper(nodes[..|nodes| - 1], deadline, key)
  }

  lemma {:induction false} UpperSplits(nodes: seq<Node>, deadline: Deadlines, key: Time)
    requires Keyed(nodes, deadline) && Sorted(nodes, deadline)
    ensures var i := Upper(nodes, deadline, key);
            && (forall k :: 0 <= k < i ==> deadline[nodes[k].timer] <= key)
            && (forall k :: i <= k < |nodes| ==> key < deadline[nodes[k].timer])
    decreases |nodes|
  {
    if nodes != [] && deadline[nodes[|nodes| - 1].timer] > key {
      UpperSplits(nodes[..|nodes| - 1], deadline, key);
    }
  }

  function Insert(nodes: seq<Node>, deadline: Deadlines, node: Node): (r: seq<Node>)
    requires Keyed(nodes, deadline) && node.timer in deadline
    ensures forall n :: n in r <==> n in nodes || n == node
    ensures |r| == |nodes| + 1
  {
    var i := Upper(nodes, deadline, deadline[node.timer]);
    nodes[..i] + [node] + nodes[i..]
  }

  lemma InsertSorted(nodes: seq<Node>, deadline: Deadlines, node: Node)
    requires Keyed(nodes, deadline) && Sorted(nodes, deadline) && node.timer in deadline
    ensures Keyed(Insert(nodes, deadline, node), deadline) && Sorted(Insert(nodes, deadline, node), deadline)
  {
    var key := deadline[node.timer];
    UpperSplits(nodes, deadline, key);
  }

  lemma PutMatched(a: seq<Node>, node: Node, b: seq<Node>, mapper: map<Tid, nat>)
    requires Matched(a + b, mapper)
    requires node.timer !in mapper && forall t :: t in mapper ==> mapper[t] != node.place
    ensures Matched(a + [node] + b, mapper[node.timer := node.place])
  {
    assert multiset(a + [node] + b) == multiset(a + b) + multiset{node};
    assert forall n :: n in a + [node] + b <==> n in a + b || n == node;
    assert node !in a + b;
  }

  lemma EraseMatched(a: seq<Node>, node: Node, b: seq<Node>, mapper: map<Tid, nat>)
    requires Matched(a + [node] + b, mapper)
    ensures node.timer in mapper && mapper[node.timer] == node.place && Matched(a + b, mapper - {node.timer})
  {
    var nodes := a + [node] + b;
    assert node in nodes;
    assert multiset(nodes) == multiset(a + b) + multiset{node};
    assert multiset(nodes)[node] <= 1;
    assert forall n :: n in nodes <==> n in a + b || n == node;
    assert node !in a + b;
    assert forall n :: multiset(a + b)[n] <= multiset(nodes)[n];
  }

  lemma InsertMatched(nodes: seq<Node>, mapper: map<Tid, nat>, deadline: Deadlines, node: Node)
    requires Matched(nodes, mapper) && Keyed(nodes, deadline) && node.timer in deadline
    requires node.timer !in mapper && forall t :: t in mapper ==> mapper[t] != node.place
    ensures Matched(Insert(nodes, deadline, node), mapper[node.timer := node.place])
  {
    hide Matched;
    var i := Upper(nodes, deadline, deadline[node.timer]);
    assert nodes == nodes[..i] + nodes[i..];
    PutMatched(nodes[..i], node, nodes[i..], mapper);
  }

  /** The deadline that firing sets. */
  function Next(r: Reading): Time {
    r.clock + r.frequency * MILLISECOND
  }

  /** The set after a list of requests. */
  ghost function Handle(live: map<Tid, Time>, queue: seq<Request>): map<Tid, Time> {
    if queue == [] then live
    else
      var before := Handle(live, queue[..|queue| - 1]);
      match queue[|queue| - 1]
      case Add(t, d) => before[t := d]
      case Remove(t) => before - {t}
  }

  /** Nothing is added that is there already. */
  ghost predicate Admissible(live: map<Tid, Time>, queue: seq<Request>) {
    forall i :: 0 <= i < |queue| && queue[i].Add? ==> queue[i].t !in Handle(live, queue[..i])
  }

  /** What the clock leaves of the timers at `now`: those that are due go, unless they come again. */
  ghost function Left(live: map<Tid, Time>, now: Time, oneShot: Tid -> bool, read: Tid -> Reading): map<Tid, Time> {
    map t | t in live && !(live[t] <= now && (oneShot(t) || read(t).cancelled)) :: if live[t] <= now then Next(read(t)) else live[t]
  }

  /** The timers that are due and not cancelled, each once, in the order of their deadlines. */
  ghost predicate FiredInOrder(live: map<Tid, Time>, now: Time, read: Tid -> Reading, fired: seq<Tid>) {
    && (forall t :: t in fired <==> t in live && live[t] <= now && !read(t).cancelled)
    && (forall i, j :: 0 <= i < j < |fired| ==> fired[i] != fired[j] && live[fired[i]] <= live[fired[j]])
  }

  class Timers {
    var nodes: seq<Node>             // timers_
    var mapper: map<Tid, nat>        // iterator_mapper_
    var deadline: Deadlines          // the deadline_ of each timer
    var unused: nat                  // no place from here on has been handed out

    ghost predicate Valid()
      reads this
    {
      && Keyed(nodes, deadline) && Sorted(nodes, deadline) && Matched(nodes, mapper)
      && forall t :: t in mapper ==> t in deadline && mapper[t] < unused
    }

    /** The timers in the set with their deadlines. */
    ghost function Live(): map<Tid, Time>
      requires Valid()
      reads this
    {
      map t | t in mapper :: deadline[t]
    }

    constructor ()
      ensures Valid() && Live() == map[]
    {
      nodes, mapper, deadline, unused := [], map[], map[], 0;
    }

    /** Inserting a node for a timer that is not in the set, and noting its place. */
    method Place(t: Tid, place: nat)
      requires Valid() && t !in mapper && t in deadline && place >= unused
      modifies this`nodes, this`mapper, this`unused
      ensures Valid() && mapper == old(mapper)[t := place] && Live() == old(Live())[t := deadline[t]]
    {
      InsertSorted(nodes, deadline, Node(place, t));
      InsertMatched(nodes, mapper, deadline, Node(place, t));
      nodes := Insert(nodes, deadline, Node(place, t));
      mapper := mapper[t := place];
      unused := place + 1;
    }

    /** add_timer_internal */
    method AddTimer(t: Tid, d: Time)
      requires Valid() && t !in mapper
      modifies this
      ensures Valid() && Live() == old(Live())[t := d]
    {
      assert Keyed(nodes, deadline[t := d]) && Sorted(nodes, deadline[t := d]) by { Unused(nodes, mapper, t); }
      deadline := deadline[t := d];
      Place(t, unused);
    }

    /** remove_timer_internal; a timer that has left the set is passed over. */
    method RemoveTimer(t: Tid)
      requires Valid()
      modifies this`nodes, this`mapper
      ensures Valid() && Live() == old(Live()) - {t}
    {
      if t !in mapper { return; }
      assert Node(mapper[t], t) in nodes;
      var i := Find(nodes, mapper[t]);
      Erase(i);
    }

    method Erase(i: nat)
      requires Valid() && i < |nodes|
      modifies this`nodes, this`mapper
      ensures Valid() && nodes == old(nodes[..i] + nodes[i + 1..]) && mapper == old(mapper - {nodes[i].timer})
      ensures old(nodes[i].timer) in old(Live()) && Live() == old(Live()) - {old(nodes[i].timer)}
    {
      assert nodes == nodes[..i] + [nodes[i]] + nodes[i + 1..];
      EraseMatched(nodes[..i], nodes[i], nodes[i + 1..], mapper);
      EraseSorted(nodes, i, deadline);
      mapper := mapper - {nodes[i].timer};
      nodes := nodes[..i] + nodes[i + 1..];
    }

    /** One round of the loop in process_timers, for a timer that is due. */
    method Round(oneShot: bool, r: Reading) returns (fired: bool)
      requires Valid() && nodes != []
      modifies this
      ensures Valid() && fired == !r.cancelled && (r.cancelled ==> deadline == old(deadline))
      ensures
        var t := old(nodes[0].timer);
        && t in old(Live())
        && Live() == if oneShot || r.cancelled then old(Live()) - {t} else old(Live())[t := r.clock + r.frequency * 1_000_000]
    {
      hide Matched, Sorted, Keyed;
      var t := nodes[0].timer;
      Erase(0);
      fired := !r.cancelled;
      if fired {
        Fire(t, r);
      }
      if oneShot || r.cancelled { return; }
      Place(t, unused);
    }

    /** TimerStateBasic::fire changes the key of a timer, which is out of the set at that moment. */
    method Fire(t: Tid, r: Reading)
      requires Valid() && t !in mapper
      modifies this`deadline
      ensures Valid() && Live() == old(Live()) && t in deadline && deadline[t] == r.clock + r.frequency * 1_000_000
    {
      Unused(nodes, mapper, t);
      deadline := deadline[t := Next(r)];
    }

    /** process_request_queue */
    method ProcessRequests(queue: seq<Request>)
      requires Valid() && Admissible(Live(), queue)
      modifies this
      ensures Valid() && Live() == Handle(old(Live()), queue)
    {
      ghost var was := Live();
      for i := 0 to |queue|
        invariant Valid() && Live() == Handle(was, queue[..i])
      {
        assert queue[..i + 1][..i] == queue[..i];
        if queue[i].Add? {
          assert queue[i].t !in Live();
          AddTimer(queue[i].t, queue[i].deadline);
        } else {
          RemoveTimer(queue[i].t);
        }
      }
      assert queue[..|queue|] == queue;
    }

    /** The first node has the least deadline. */
    lemma FirstIsLeast()
      requires Valid()
      ensures nodes == [] <==> Live() == map[]
      ensures nodes != [] ==> nodes[0].timer in Live() && forall t :: t in Live() ==> Live()[nodes[0].timer] <= Live()[t]
    {
      if nodes != [] { assert nodes[0] in nodes; }
      forall t | t in mapper
        ensures nodes != [] && deadline[nodes[0].timer] <= deadline[t]
      {
        var n := Node(mapper[t], t);
        assert n in nodes;
        var i :| 0 <= i < |nodes| && nodes[i] == n;
      }
    }

    /** process_timers, for timers whose next deadline is later than `now`: with a clock that does not go
        back those with a positive frequency, and those with none if the clock has moved on. */
    method ProcessTimers(queue: seq<Request>, now: Time, oneShot: Tid -> bool, read: Tid -> Reading)
      returns (next: Time, fired: seq<Tid>)
      requires Valid() && Admissible(Live(), queue)
      requires forall t :: !oneShot(t) ==> now < Next(read(t))
      modifies this
      ensures Valid()
      ensures FiredInOrder(Handle(old(Live()), queue), now, read, fired)
      // times are in nanoseconds, frequencies in milliseconds
      ensures
        var live := Handle(old(Live()), queue);
        && (forall t :: t in Live() <==> t in live && (live[t] > now || (!oneShot(t) && !read(t).cancelled)))
        && (forall t :: t in Live() ==>
              Live()[t] == if live[t] > now then live[t] else read(t).clock + read(t).frequency * 1_000_000)
      ensures Live() == map[] ==> next == now + 86_400_000_000_000
      ensures Live() != map[] ==> next in Live().Values && forall t :: t in Live() ==> now < next <= Live()[t]
    {
      ProcessRequests(queue);
      ghost var live := Live();
      fired := ProcessDue(now, oneShot, read);
      LeftIs(live, now, oneShot, read);
      FirstIsLeast();
      LeastLater(live, now, oneShot, read);
      hide Left, FiredInOrder, Handle, Matched, Sorted, Next;
      if nodes == [] {
        next := now + DAY;
      } else {
        next := deadline[nodes[0].timer];
        assert next == Live()[nodes[0].timer];
      }
    }

    /** The first timer of the set, which is due. */
    method OneDue(now: Time, oneShot: Tid -> bool, read: Tid -> Reading, ghost live: map<Tid, Time>, ghost done: set<Tid>,
                  before: seq<Tid>) returns (fired: seq<Tid>)
      requires Valid() && nodes != [] && deadline[nodes[0].timer] <= now
      requires forall t :: !oneShot(t) ==> now < Next(read(t))
      requires InProgress(live, now, oneShot, read, done, Live(), before)
      modifies this
      ensures Valid() && InProgress(live, now, oneShot, read, done + {old(nodes[0].timer)}, Live(), fired)
      ensures old(nodes[0].timer) in live && old(nodes[0].timer) !in done
    {
      hide InProgress, Matched, Sorted, Next;
      var t := nodes[0].timer;
      ghost var left := Live();
      FirstIsLeast();
      Progress(live, now, oneShot, read, done, left, before, t);
      NextIs(read(t));
      fired := before;
      var f := Round(oneShot(t), read(t));
      assert Live() == if oneShot(t) || read(t).cancelled then left - {t} else left[t := Next(read(t))];
      if f {
        fired := before + [t];
      }
    }

    /** The loop of process_timers. */
    method ProcessDue(now: Time, oneShot: Tid -> bool, read: Tid -> Reading) returns (fired: seq<Tid>)
      requires Valid() && forall t :: !oneShot(t) ==> now < Next(read(t))
      modifies this
      ensures Valid() && FiredInOrder(old(Live()), now, read, fired) && Live() == Left(old(Live()), now, oneShot, read)
    {
      ghost var live := Live();
      ghost var done: set<Tid> := {};
      fired := [];
      Begins(live, now, oneShot, read);
      while nodes != []
        invariant Valid() && InProgress(live, now, oneShot, read, done, Live(), fired)
        decreases live.Keys - done
      {
        hide InProgress, Matched, Sorted, Left, FiredInOrder, Next;
        ghost var t := nodes[0].timer;
        if deadline[nodes[0].timer] > now { break; }
        fired := OneDue(now, oneShot, read, live, done, fired);
        done := done + {t};
      }
      FirstIsLeast();
      AllDone(live, now, oneShot, read, done, Live(), fired);
    }
  }

  lemma Begins(live: map<Tid, Time>, now: Time, oneShot: Tid -> bool, read: Tid -> Reading)
    ensures InProgress(live, now, oneShot, read, {}, live, [])
  {
  }

  lemma NextIs(r: Reading)
    ensures Next(r) == r.clock + r.frequency * 1_000_000
  {
  }

  /** What is left is due later. */
  lemma LeastLater(live: map<Tid, Time>, now: Time, oneShot: Tid -> bool, read: Tid -> Reading)
    requires forall t :: !oneShot(t) ==> now < Next(read(t))
    ensures var left := Left(live, now, oneShot, read); forall t :: t in left ==> now < left[t]
  {
  }

  /** Half way: the timers in `done` have had their round, in the order of their deadlines. */
  ghost predicate InProgress(live: map<Tid, Time>, now: Time, oneShot: Tid -> bool, read: Tid -> Reading,
                             done: set<Tid>, left: map<Tid, Time>, fired: seq<Tid>) {
    && (forall t :: t in done ==> t in live && live[t] <= now)
    && (forall t, u :: t in done && u in live && u !in done ==> live[t] <= live[u])
    && (forall t :: t in left <==> t in live && !(t in done && (oneShot(t) || read(t).cancelled)))
    && (forall t :: t in left ==> left[t] == if t in done then Next(read(t)) else live[t])
    && (forall t :: t in fired <==> t in done && !read(t).cancelled)
    && (forall i, j :: 0 <= i < j < |fired| ==> fired[i] != fired[j] && live[fired[i]] <= live[fired[j]])
  }

  lemma Progress(live: map<Tid, Time>, now: Time, oneShot: Tid -> bool, read: Tid -> Reading,
                 done: set<Tid>, left: map<Tid, Time>, fired: seq<Tid>, t: Tid)
    requires InProgress(live, now, oneShot, read, done, left, fired)
    requires forall x :: !oneShot(x) ==> now < Next(read(x))
    requires t in left && left[t] <= now && forall u :: u in left ==> left[t] <= left[u]
    ensures t !in done && t in live
    ensures
      var after := if oneShot(t) || read(t).cancelled then left - {t} else left[t := Next(read(t))];
      InProgress(live, now, oneShot, read, done + {t}, after, if read(t).cancelled then fired else fired + [t])
  {
    assert t !in done;
    forall u | u in live && u !in done
      ensures live[t] <= live[u]
    {
      assert u in left;
    }
    assert forall i :: 0 <= i < |fired| ==> fired[i] in fired;
  }

  lemma AllDone(live: map<Tid, Time>, now: Time, oneShot: Tid -> bool, read: Tid -> Reading,
                done: set<Tid>, left: map<Tid, Time>, fired: seq<Tid>)
    requires InProgress(live, now, oneShot, read, done, left, fired)
    requires forall t :: !oneShot(t) ==> now < Next(read(t))
    requires forall t :: t in left ==> left[t] > now
    ensures FiredInOrder(live, now, read, fired) && left == Left(live, now, oneShot, read)
  {
    forall t | t in live
      ensures t in done <==> live[t] <= now
    {
      if t !in done { assert t in left; }
    }
  }

  lemma LeftIs(live: map<Tid, Time>, now: Time, oneShot: Tid -> bool, read: Tid -> Reading)
    ensures
      var left := Left(live, now, oneShot, read);
      && (forall t :: t in left <==> t in live && (live[t] > now || (!oneShot(t) && !read(t).cancelled)))
      && (forall t :: t in left ==>
            left[t] == if live[t] > now then live[t] else read(t).clock + read(t).frequency * 1_000_000)
  {
  }

  lemma Later(r: Reading, now: Time)
    requires now <= r.clock
    ensures now < Next(r) <==> r.frequency > 0 || now < r.clock
  {
  }

  lemma Unused(nodes: seq<Node>, mapper: map<Tid, nat>, t: Tid)
    requires Matched(nodes, mapper) && t !in mapper
    ensures forall i :: 0 <= i < |nodes| ==> nodes[i].timer != t
  {
    forall i | 0 <= i < |nodes|
      ensures nodes[i].timer != t
    {
      assert nodes[i] in nodes;
    }
  }

  lemma EraseSorted(nodes: seq<Node>, i: nat, deadline: Deadlines)
    requires i < |nodes| && Keyed(nodes, deadline) && Sorted(nodes, deadline)
    ensures Keyed(nodes[..i] + nodes[i + 1..], deadline) && Sorted(nodes[..i] + nodes[i + 1..], deadline)
  {
    var rest := nodes[..i] + nodes[i + 1..];
    assert forall k :: 0 <= k < |rest| ==> rest[k] == if k < i then nodes[k] else nodes[k + 1];
  }

  /** The node an iterator designates. */
  method Find(nodes: seq<Node>, place: nat) returns (i: nat)
    requires exists n :: n in nodes && n.place == place
    ensures i < |nodes| && nodes[i].place == place
  {
    i := 0;
    while nodes[i].place != place
      invariant i < |nodes| && exists n :: n in nodes[i..] && n.place == place
      decreases |nodes| - i
    {
      assert nodes[i..] == [nodes[i]] + nodes[i + 1..];
      i := i + 1;
    }
  }
}
