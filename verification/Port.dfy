/** wepoll's port: sockets registered with an epoll set, the poll request each of them has
    outstanding with the AFD driver, and the queues that decide when to submit or free.

    Objects are known by their addresses; the driver is the environment.  It answers every
    submission and cancellation, and completes each accepted poll exactly once. */
module Port {
  import opened Collections

  type Events = bv32

  const EPOLLIN: Events := 0x1
  const EPOLLPRI: Events := 0x2
  const EPOLLOUT: Events := 0x4
  const EPOLLERR: Events := 0x8
  const EPOLLHUP: Events := 0x10
  const EPOLLRDNORM: Events := 0x40
  const EPOLLRDBAND: Events := 0x80
  const EPOLLWRNORM: Events := 0x100
  const EPOLLWRBAND: Events := 0x200
  const EPOLLMSG: Events := 0x400
  const EPOLLRDHUP: Events := 0x2000
  const EPOLLONESHOT: Events := 0x8000_0000

  const KNOWN: Events := EPOLLIN | EPOLLPRI | EPOLLOUT | EPOLLERR | EPOLLHUP | EPOLLRDNORM | EPOLLRDBAND
                         | EPOLLWRNORM | EPOLLWRBAND | EPOLLMSG | EPOLLRDHUP

  const AFD_RECEIVE: Events := 0x1
  const AFD_RECEIVE_EXPEDITED: Events := 0x2
  const AFD_SEND: Events := 0x4
  const AFD_DISCONNECT: Events := 0x8
  const AFD_ABORT: Events := 0x10
  const AFD_LOCAL_CLOSE: Events := 0x20
  const AFD_ACCEPT: Events := 0x80
  const AFD_CONNECT_FAIL: Events := 0x100

  function When(mask: Events, events: Events, bits: Events): Events {
    if events & mask != 0 then bits else 0
  }

  /** sock__epoll_events_to_afd_events */
  function ToAfd(e: Events): Events {
    AFD_LOCAL_CLOSE
    | When(EPOLLIN | EPOLLRDNORM, e, AFD_RECEIVE | AFD_ACCEPT)
    | When(EPOLLPRI | EPOLLRDBAND, e, AFD_RECEIVE_EXPEDITED)
    | When(EPOLLOUT | EPOLLWRNORM | EPOLLWRBAND, e, AFD_SEND)
    | When(EPOLLIN | EPOLLRDNORM | EPOLLRDHUP, e, AFD_DISCONNECT)
    | When(EPOLLHUP, e, AFD_ABORT)
    | When(EPOLLERR, e, AFD_CONNECT_FAIL)
  }

  /** sock__afd_events_to_epoll_events */
  function ToEpoll(a: Events): Events {
    When(AFD_RECEIVE | AFD_ACCEPT, a, EPOLLIN | EPOLLRDNORM)
    | When(AFD_RECEIVE_EXPEDITED, a, EPOLLPRI | EPOLLRDBAND)
    | When(AFD_SEND, a, EPOLLOUT | EPOLLWRNORM | EPOLLWRBAND)
    | When(AFD_DISCONNECT, a, EPOLLIN | EPOLLRDNORM | EPOLLRDHUP)
    | When(AFD_ABORT, a, EPOLLHUP)
    | When(AFD_CONNECT_FAIL, a, EPOLLIN | EPOLLOUT | EPOLLERR | EPOLLRDNORM | EPOLLWRNORM | EPOLLRDHUP)
  }

  /** Every event the user may be told about, except the one that is never reported, is monitored:
      a driver that reports all it was asked for makes every requested event show up. */
  lemma Monitored(e: Events)
    ensures e & KNOWN & !EPOLLMSG & !ToEpoll(ToAfd(e)) == 0
  {
  }

  /** The driver is never asked for less when the user asks for more. */
  lemma ToAfdMonotone(e: Events, f: Events)
    requires e & !f == 0
    ensures ToAfd(e) & !ToAfd(f) == 0
  {
  }

  lemma ToEpollMonotone(a: Events, b: Events)
    requires a & !b == 0
    ensures ToEpoll(a) & !ToEpoll(b) == 0
  {
  }

  predicate OneBit(e: Events) {
    e != 0 && e & (e - 1) == 0
  }

  /** Event by event: what the driver is asked to watch for an epoll event, it reports as that event; and it
      reports nothing else as that event, but for a failed connection, which comes as many events. */
  lemma EventForEvent(e: Events, b: Events)
    requires OneBit(e) && e & KNOWN != 0 && e != EPOLLMSG && OneBit(b)
    ensures b != AFD_LOCAL_CLOSE && ToAfd(e) & b != 0 ==> ToEpoll(b) & e != 0
    ensures ToEpoll(b) & e != 0 ==> ToAfd(e) & b != 0 || b == AFD_CONNECT_FAIL
  {
  }

  /** Both conversions go bit by bit. */
  lemma ToAfdBitByBit(a: Events, b: Events)
    ensures ToAfd(a | b) == ToAfd(a) | ToAfd(b)
  {
  }

  lemma ToEpollBitByBit(a: Events, b: Events)
    ensures ToEpoll(a | b) == ToEpoll(a) | ToEpoll(b)
  {
  }

  /** The bits as they are numbered in the two interfaces: of epoll IN, PRI, OUT, ERR, HUP, RDNORM, RDBAND,
      WRNORM, WRBAND, MSG and RDHUP; of AFD the bits of RECEIVE, RECEIVE_EXPEDITED, SEND, DISCONNECT, ABORT,
      LOCAL_CLOSE, ACCEPT and CONNECT_FAIL. */
  lemma Numbers()
    ensures ToAfd(0) == 0x20
    ensures ToAfd(0x1) == ToAfd(0x40) == 0xa9 && ToAfd(0x2) == ToAfd(0x80) == 0x22
    ensures ToAfd(0x4) == ToAfd(0x100) == ToAfd(0x200) == 0x24 && ToAfd(0x2000) == 0x28
    ensures ToAfd(0x8) == 0x120 && ToAfd(0x10) == 0x30 && ToAfd(0x400) == ToAfd(0x8000_0000) == 0x20
    ensures ToEpoll(0x1) == ToEpoll(0x80) == 0x41 && ToEpoll(0x2) == 0x82 && ToEpoll(0x4) == 0x304
    ensures ToEpoll(0x8) == 0x2041 && ToEpoll(0x10) == 0x10 && ToEpoll(0x100) == 0x214d && ToEpoll(0x20) == ToEpoll(0) == 0
    ensures KNOWN == 0x27df
  {
  }

  // ---- Sockets and queues --------------------------------------------------------------------

  const INVALID_SOCKET: nat := 0xffff_ffff_ffff_ffff

  type Address = nat

  datatype PollStatus = Idle | Pending | Cancelled

  datatype Sock = Sock(
    socket: nat,
    userEvents: Events,
    userData: int,
    asked: Events,           // the AFD mask of the last request
    pendingEvents: Events,
    pollStatus: PollStatus,
    deletePending: bool)
  {
    /** Known events the user wants and the pending poll does not watch. */
    function Missing(): Events {
      userEvents & KNOWN & !pendingEvents
    }

    /** Nothing needs to be submitted for this socket now. */
    predicate Covered() {
      pollStatus.Cancelled? || (pollStatus.Pending? && Missing() == 0)
    }
  }

  datatype Afd = Accepted | InvalidHandle | OtherError

  /** What the driver answers to a cancellation and to a submission. */
  datatype Answer = Answer(cancelOk: bool, poll: Afd)

  /** The driver cancels what it is asked to and fails no poll, except for sockets that have been closed. */
  ghost predicate Obliging(env: nat -> Answer) {
    forall i :: env(i).cancelOk && env(i).poll != OtherError
  }

  /** How a poll completes: cancelled, failed, without a handle, or with the events of its handle. */
  datatype Completion = WasCancelled | Failed | NoHandle | Happened(afd: Events)

  /** How a wait ends: with completions, because its time is over, or with an error. */
  datatype Wakeup = Packets(done: seq<(Address, Completion)>) | TimedOut | WaitFailed

  datatype Event = Event(data: int, events: Events)

  /** The epoll events a completion carries before the user's mask is applied. */
  function Reports(c: Completion): Events {
    match c
    case WasCancelled => 0
    case Failed => EPOLLERR
    case NoHandle => 0
    case Happened(afd) => ToEpoll(afd)
  }

  /** Of the events found, those the user asked for. */
  function Wanted(found: Events, asked: Events): Events {
    found & asked
  }

  predicate OneShot(asked: Events) {
    asked & EPOLLONESHOT != 0
  }

  predicate Closed(c: Completion) {
    c.Happened? && c.afd & AFD_LOCAL_CLOSE != 0
  }

  /** queue_remove, if the object is enqueued. */
  function Dequeue(q: seq<Address>, id: Address): (r: seq<Address>)
    ensures forall x :: x in r <==> x in q && x != id
    ensures |r| <= |q| && (id in q ==> |r| < |q|) && (id !in q ==> r == q)
  {
    if |q| == 0 then []
    else if q[0] == id then Dequeue(q[1..], id)
    else [q[0]] + Dequeue(q[1..], id)
  }

  lemma {:induction false} DequeueDistinct(q: seq<Address>, id: Address)
    requires Distinct(q)
    ensures Distinct(Dequeue(q, id))
  {
    if |q| > 0 {
      DequeueDistinct(q[1..], id);
      var rest := Dequeue(q[1..], id);
      assert q[0] !in q[1..];
      if q[0] != id {
        assert forall k :: 0 <= k < |rest| ==> rest[k] in rest;
      }
    }
  }

  /** queue_append, unless the object is enqueued. */
  function Enqueue(q: seq<Address>, id: Address): (r: seq<Address>)
    ensures forall x :: x in r <==> x in q || x == id
    ensures Distinct(q) ==> Distinct(r)
  {
    if id in q then q else q + [id]
  }

  lemma Meanings(c: Completion, asked: Events)
    ensures Closed(c) <==> c.Happened? && c.afd & 0x20 != 0
    ensures OneShot(asked) <==> asked & 0x8000_0000 != 0
  {
  }

  // ---- What holds whenever the port's lock is free -------------------------------------------

  /** The port's tables, and the polls the driver has accepted and not completed. */
  datatype Tables = Tables(
    tree: map<nat, Address>,
    socks: map<Address, Sock>,
    updateQueue: seq<Address>,
    deletedQueue: seq<Address>,
    acquired: nat,
    outstanding: multiset<Address>)
  {
    predicate Registered(id: Address)
      requires id in socks
    {
      socks[id].socket in tree && tree[socks[id].socket] == id
    }

    /** What the tables say about the object at `id` fits its state. */
    predicate Local(id: Address) {
      if id !in socks then id !in updateQueue && id !in deletedQueue && id !in outstanding
      else
        var s := socks[id];
        && (id in deletedQueue ==> s.deletePending)
        && (s.deletePending <==> !Registered(id))
        && (s.deletePending ==> id !in updateQueue)
        && outstanding[id] == (if s.pollStatus.Idle? then 0 else 1)
        && (if s.pollStatus.Pending? then s.asked == ToAfd(s.pendingEvents) else s.pendingEvents == 0)
    }

    /** A deleted object is kept, in the queue for such objects, only while its poll is outstanding. */
    predicate Kept(id: Address) {
      id in socks && socks[id].deletePending ==> id in deletedQueue && !socks[id].pollStatus.Idle?
    }

    /** No socket is forgotten: it waits in the update queue or needs no new poll now. */
    predicate Attended(id: Address) {
      id in socks && !socks[id].deletePending ==> id in updateQueue || socks[id].Covered()
    }

    ghost predicate Coherent() {
      && (forall id :: Local(id))
      && (forall k :: k in tree ==> tree[k] in socks && socks[tree[k]].socket == k)
      && Distinct(updateQueue) && Distinct(deletedQueue)
      && acquired == |socks|
    }

    ghost predicate Valid() {
      Coherent() && forall id :: Kept(id) && Attended(id)
    }

    predicate SameAbout(id: Address, t: Tables) {
      && (id in socks <==> id in t.socks) && (id in socks ==> socks[id] == t.socks[id])
      && (id in updateQueue <==> id in t.updateQueue) && (id in deletedQueue <==> id in t.deletedQueue)
      && outstanding[id] == t.outstanding[id]
      && (id in socks ==> (Registered(id) <==> t.Registered(id)))
    }

    /** Whatever is at `id` in `t` was there before, and its user's wishes are the same. */
    predicate SameWish(id: Address, t: Tables) {
      id in t.socks ==>
        && id in socks && t.socks[id].socket == socks[id].socket && t.socks[id].deletePending == socks[id].deletePending
        && t.socks[id].userEvents == socks[id].userEvents && t.socks[id].userData == socks[id].userData
    }

    ghost predicate KeepsWishes(t: Tables) {
      forall id :: SameWish(id, t)
    }

    /** `t` differs from these tables only in what it says about `id`. */
    ghost predicate OnlyAbout(id: Address, t: Tables) {
      forall x :: x != id ==> SameAbout(x, t)
    }
  }

  lemma OthersKeep(before: Tables, id: Address, after: Tables)
    requires before.OnlyAbout(id, after)
    ensures (forall x :: before.Local(x)) && after.Local(id) ==> forall x :: after.Local(x)
    ensures forall x :: x != id ==> (before.Attended(x) ==> after.Attended(x)) && (before.Kept(x) ==> after.Kept(x))
  {
    forall x | x != id
      ensures before.Local(x) ==> after.Local(x)
      ensures (before.Attended(x) ==> after.Attended(x)) && (before.Kept(x) ==> after.Kept(x))
    {
      assert before.SameAbout(x, after);
    }
  }

  /** A registered socket that does not wait for an update is either being re-polled, or the
      driver watches every known event its user wants (message events do not exist here). */
  lemma NeverDeaf(t: Tables, id: Address)
    requires t.Valid() && id in t.socks && t.Registered(id) && id !in t.updateQueue
    ensures t.outstanding[id] == 1
    ensures
      var s := t.socks[id];
      s.pollStatus.Cancelled? || s.userEvents & KNOWN & !EPOLLMSG & !ToEpoll(s.asked) == 0
  {
    assert t.Local(id) && t.Attended(id);
    var s := t.socks[id];
    if s.pollStatus.Pending? {
      var known := s.userEvents & KNOWN;
      Watches(known, s.pendingEvents);
    }
  }

  lemma Watches(wanted: Events, watched: Events)
    requires wanted & !watched == 0
    ensures wanted & KNOWN & !EPOLLMSG & !ToEpoll(ToAfd(watched)) == 0
  {
    Monitored(wanted);
    ToAfdMonotone(wanted, watched);
    ToEpollMonotone(ToAfd(wanted), ToAfd(watched));
    var all, some := ToEpoll(ToAfd(watched)), ToEpoll(ToAfd(wanted));
    Chain(wanted & KNOWN & !EPOLLMSG, some, all);
  }

  /** Errors and hang-ups are always wanted, so a socket without a poll always needs one. */
  lemma AlwaysMissing(e: Events)
    ensures (e | EPOLLERR | EPOLLHUP) & KNOWN & !(0 as Events) != 0
  {
  }

  lemma Watched(e: Events)
    ensures e & KNOWN & !e == 0
  {
  }

  lemma Chain(a: Events, b: Events, c: Events)
    requires a & !b == 0 && b & !c == 0
    ensures a & !c == 0
  {
  }

  lemma ValidAgain(before: Tables, id: Address, after: Tables)
    requires before.Valid() && before.OnlyAbout(id, after) && after.Coherent() && after.Attended(id) && after.Kept(id)
    ensures after.Valid()
  {
    OthersKeep(before, id, after);
  }

  lemma SamePolls(before: Tables, id: Address, after: Tables)
    requires before.OnlyAbout(id, after) && before.outstanding[id] == after.outstanding[id]
    ensures before.outstanding == after.outstanding
  {
    forall x
      ensures before.outstanding[x] == after.outstanding[x]
    {
      assert x != id ==> before.SameAbout(x, after);
    }
  }

  lemma OnlyAboutTransitive(a: Tables, id: Address, b: Tables, c: Tables)
    requires a.OnlyAbout(id, b) && b.OnlyAbout(id, c)
    ensures a.OnlyAbout(id, c)
  {
    forall x | x != id
      ensures a.SameAbout(x, c)
    {
      assert a.SameAbout(x, b) && b.SameAbout(x, c);
    }
  }

  lemma WishesKept(was: Tables, now: Tables, id: Address, next: Tables)
    requires was.KeepsWishes(now) && now.OnlyAbout(id, next) && now.SameWish(id, next)
    ensures was.KeepsWishes(next)
  {
    forall x
      ensures was.SameWish(x, next)
    {
      assert was.SameWish(x, now);
      assert x != id ==> now.SameAbout(x, next);
    }
  }

  lemma WishesCompose(a: Tables, b: Tables, c: Tables)
    requires a.KeepsWishes(b) && b.KeepsWishes(c)
    ensures a.KeepsWishes(c)
  {
    forall x
      ensures a.SameWish(x, c)
    {
      assert a.SameWish(x, b) && b.SameWish(x, c);
    }
  }

  /** A registered socket keeps its registration as long as its object is there. */
  lemma WishGranted(before: Tables, id: Address, socket: nat, after: Tables)
    requires before.Valid() && after.Valid() && before.KeepsWishes(after)
    requires socket in before.tree && before.tree[socket] == id
    ensures id in before.socks && before.SameWish(id, after)
    ensures socket in after.tree <==> id in after.socks
    ensures id in after.socks ==> after.tree[socket] == id
  {
    hide ToAfd;
    assert before.SameWish(id, after) && before.Local(id) && after.Local(id);
    if socket in after.tree {
      var other := after.tree[socket];
      assert before.SameWish(other, after) && after.Local(other) && before.Local(other);
    }
  }

  lemma AllCovered(t: Tables)
    requires t.Valid() && t.updateQueue == []
    ensures forall id :: id in t.socks && !t.socks[id].deletePending ==> t.socks[id].Covered()
  {
    forall id | id in t.socks && !t.socks[id].deletePending
      ensures t.socks[id].Covered()
    {
      assert t.Attended(id);
    }
  }

  lemma Unaffected(was: Tables, now: Tables, id: Address, next: Tables)
    requires id in was.updateQueue && now.OnlyAbout(id, next)
    requires forall x :: x !in was.updateQueue ==> was.SameAbout(x, now)
    ensures forall x :: x !in was.updateQueue ==> was.SameAbout(x, next)
  {
    forall x | x !in was.updateQueue
      ensures was.SameAbout(x, next)
    {
      assert was.SameAbout(x, now) && now.SameAbout(x, next);
    }
  }

  ghost function Completed(done: seq<(Address, Completion)>): multiset<Address> {
    if done == [] then multiset{} else Completed(done[..|done| - 1]) + multiset{done[|done| - 1].0}
  }

  lemma {:induction false} CompletedGrows(done: seq<(Address, Completion)>, i: nat)
    requires i <= |done|
    ensures Completed(done[..i]) <= Completed(done)
    decreases |done|
  {
    if i < |done| {
      CompletedGrows(done[..|done| - 1], i);
      assert done[..|done| - 1][..i] == done[..i];
    } else {
      assert done[..i] == done;
    }
  }

  lemma StillOutstanding(done: seq<(Address, Completion)>, i: nat, polls: multiset<Address>)
    requires i < |done| && Completed(done) <= polls
    ensures done[i].0 in polls - Completed(done[..i]) && done[i].0 in Completed(done)
    ensures polls - Completed(done[..i + 1]) == polls - Completed(done[..i]) - multiset{done[i].0}
    ensures Completed(done[..i + 1]) == Completed(done[..i]) + multiset{done[i].0}
  {
    assert done[..i + 1][..i] == done[..i];
    CompletedGrows(done, i + 1);
    TakeOne(polls, Completed(done), Completed(done[..i]), done[i].0);
  }

  lemma TakeOne(polls: multiset<Address>, all: multiset<Address>, some: multiset<Address>, id: Address)
    requires some + multiset{id} <= all <= polls
    ensures id in polls - some && id in all
    ensures polls - (some + multiset{id}) == polls - some - multiset{id}
  {
    assert (some + multiset{id})[id] == some[id] + 1;
  }

  lemma Shrinks(before: Tables, id: Address, after: Tables)
    requires before.OnlyAbout(id, after) && id in before.socks && id !in after.socks
    ensures |after.socks| < |before.socks|
  {
    forall x | x in after.socks
      ensures x in before.socks
    {
      assert before.SameAbout(x, after);
    }
    assert after.socks.Keys <= before.socks.Keys - {id};
    Fewer(after.socks.Keys, before.socks.Keys - {id});
  }

  lemma NoMembers(q: seq<Address>)
    ensures q == [] || exists id :: id in q
  {
    if q != [] {
      assert q[0] in q;
    }
  }

  lemma Emptied(t: Tables)
    requires t.Valid() && t.tree == map[] && t.deletedQueue == []
    ensures t.socks == map[] && t.updateQueue == []
  {
    forall id
      ensures id !in t.socks && id !in t.updateQueue
    {
      assert t.Kept(id);
      assert t.Local(id);
    }
    assert t.socks.Keys == {};
    NoMembers(t.updateQueue);
  }

  lemma Untouched(was: Tables, done: multiset<Address>, now: Tables, id: Address, next: Tables)
    requires now.OnlyAbout(id, next)
    requires forall x :: x !in done ==> was.SameAbout(x, now)
    ensures forall x :: x !in done + multiset{id} ==> was.SameAbout(x, next)
  {
    forall x | x !in done + multiset{id}
      ensures was.SameAbout(x, next)
    {
      assert was.SameAbout(x, now) && now.SameAbout(x, next);
    }
  }

  /** What is reported of the events found: those the user wants, with the user's data. */
  function Report(s: Sock, found: Events): seq<Event> {
    var wanted := Wanted(found, s.userEvents);
    if wanted == 0 then [] else [Event(s.userData, wanted)]
  }

  /** What the user is told about one completion, and about a row of them. */
  function ToldOf(s: Sock, c: Completion): seq<Event> {
    if s.deletePending || Closed(c) then [] else Report(s, Reports(c))
  }

  /** What is wanted was found and asked for, and nothing that was is kept back. */
  lemma WantedIs(found: Events, asked: Events)
    ensures Wanted(found, asked) == 0 <==> found & asked == 0
    ensures Wanted(found, asked) & !found == 0 && Wanted(found, asked) & !asked == 0
    ensures found & asked & !Wanted(found, asked) == 0
  {
  }

  /** A failed poll is an error; what happened is converted; the rest is nothing to tell. */
  lemma ToldIs(s: Sock, c: Completion)
    ensures s.deletePending ==> ToldOf(s, c) == []
    ensures !s.deletePending && c.Failed? ==> ToldOf(s, c) == Report(s, 0x8)
    ensures !s.deletePending && c.Happened? ==> ToldOf(s, c) == if c.afd & 0x20 != 0 then [] else Report(s, ToEpoll(c.afd))
    ensures c.WasCancelled? || c.NoHandle? ==> ToldOf(s, c) == []
  {
    ReportNothing(s);
    hide ToEpoll, Report;
  }

  lemma ReportNothing(s: Sock)
    ensures Report(s, 0) == []
  {
  }

  ghost function Told(socks: map<Address, Sock>, done: seq<(Address, Completion)>): seq<Event> {
    if done == [] then []
    else
      var last := done[|done| - 1];
      Told(socks, done[..|done| - 1]) + if last.0 in socks then ToldOf(socks[last.0], last.1) else []
  }

  lemma ToldMore(socks: map<Address, Sock>, done: seq<(Address, Completion)>, i: nat)
    requires i < |done|
    ensures Told(socks, done[..i + 1])
         == Told(socks, done[..i]) + if done[i].0 in socks then ToldOf(socks[done[i].0], done[i].1) else []
  {
    hide ToldOf;
    assert done[..i + 1][..i] == done[..i];
  }

  /** A socket has one poll outstanding at most, so it completes once. */
  lemma FirstTime(t: Tables, id: Address, done: multiset<Address>)
    requires t.Valid() && id in t.outstanding - done
    ensures id !in done
  {
    hide ToAfd;
    assert t.Local(id);
  }

  /** Half way through the completions: those before `i` have been fed. */
  ghost predicate Fed(was: Tables, done: seq<(Address, Completion)>, i: nat, now: Tables, events: seq<Event>)
    requires i <= |done|
  {
    && now.Valid() && events == Told(was.socks, done[..i])
    && now.outstanding == was.outstanding - Completed(done[..i])
    && forall x :: x !in Completed(done[..i]) ==> was.SameAbout(x, now)
  }

  lemma FedNothing(was: Tables, done: seq<(Address, Completion)>)
    requires was.Valid()
    ensures Fed(was, done, 0, was, [])
  {
    hide Tables.Valid, Tables.Local;
  }

  lemma FedAll(was: Tables, done: seq<(Address, Completion)>, now: Tables, events: seq<Event>)
    requires Fed(was, done, |done|, now, events)
    ensures now.Valid() && events == Told(was.socks, done) && now.outstanding == was.outstanding - Completed(done)
    ensures forall x :: x !in Completed(done) ==> was.SameAbout(x, now)
  {
    assert done[..|done|] == done;
  }

  lemma FedBefore(was: Tables, done: seq<(Address, Completion)>, i: nat, now: Tables, events: seq<Event>)
    requires i < |done| && was.Valid() && Completed(done) <= was.outstanding && Fed(was, done, i, now, events)
    ensures
      var id := done[i].0;
      && now.Valid() && id in now.socks && id in now.outstanding
      && id in was.socks && was.socks[id] == now.socks[id]
  {
    hide ToAfd, Completed, Told;
    var id := done[i].0;
    StillOutstanding(done, i, was.outstanding);
    assert now.Local(id);
    FirstTime(was, id, Completed(done[..i]));
    assert was.SameAbout(id, now);
  }

  lemma FedNext(was: Tables, done: seq<(Address, Completion)>, i: nat, now: Tables, events: seq<Event>, next: Tables, told: seq<Event>)
    requires i < |done| && was.Valid() && Completed(done) <= was.outstanding && Fed(was, done, i, now, events)
    requires next.Valid() && now.OnlyAbout(done[i].0, next) && next.outstanding == now.outstanding - multiset{done[i].0}
    requires done[i].0 in was.socks && told == ToldOf(was.socks[done[i].0], done[i].1)
    ensures Fed(was, done, i + 1, next, events + told)
  {
    ToldMore(was.socks, done, i);
    StillOutstanding(done, i, was.outstanding);
    hide ToAfd, Completed, Told, ToldOf, Tables.Valid, Tables.OnlyAbout, Tables.SameAbout;
    Untouched(was, Completed(done[..i]), now, done[i].0, next);
  }

  /** Giving a registered socket a new state, and a place in the update queue or none. */
  lemma Restate(t: Tables, id: Address, s: Sock, q: seq<Address>, polls: multiset<Address>, after: Tables)
    requires t.Coherent() && id in t.socks && s.socket == t.socks[id].socket && !s.deletePending && t.Registered(id)
    requires Distinct(q) && (forall x :: x != id ==> (x in q <==> x in t.updateQueue) && polls[x] == t.outstanding[x])
    requires after == t.(socks := t.socks[id := s], updateQueue := q, outstanding := polls) && after.Local(id)
    ensures after.Coherent() && t.OnlyAbout(id, after) && after.Kept(id)
    ensures t.Valid() && after.Attended(id) ==> after.Valid()
  {
    hide ToAfd;
    OthersKeep(t, id, after);
    assert after.Kept(id);
  }

  /** Taking a socket out of the tree and the update queue. */
  lemma Withdraw(t: Tables, id: Address, s: Sock, q: seq<Address>, after: Tables)
    requires t.Coherent() && id in t.socks && s.socket == t.socks[id].socket && t.Registered(id)
    requires Distinct(q) && forall x :: x in q <==> x in t.updateQueue && x != id
    requires after == t.(tree := t.tree - {s.socket}, socks := t.socks[id := s], updateQueue := q) && after.Local(id)
    ensures after.Coherent() && t.OnlyAbout(id, after)
  {
    hide ToAfd;
    forall x | x != id
      ensures t.SameAbout(x, after)
    {
      assert t.Local(x);
    }
    OthersKeep(t, id, after);
  }

  class PortState {
    var tree: map<nat, Address>        // sock_tree, by socket
    var socks: map<Address, Sock>      // the allocated sock_state objects
    var updateQueue: seq<Address>
    var deletedQueue: seq<Address>
    var acquired: nat                  // outstanding poll group acquisitions
    var activePolls: nat               // threads waiting for completions
    ghost var outstanding: multiset<Address>  // polls the driver accepted and has not completed
    ghost var failed: bool             // the last attempt to serve the update queue failed

    ghost function T(): Tables
      reads this`tree, this`socks, this`updateQueue, this`deletedQueue, this`acquired, this`outstanding
    {
      Tables(tree, socks, updateQueue, deletedQueue, acquired, outstanding)
    }

    /** While a thread waits for completions no socket is left without its poll, unless an attempt to serve
        the update queue failed. */
    ghost predicate Served()
      reads this`updateQueue, this`activePolls, this`failed
    {
      activePolls > 0 && !failed ==> updateQueue == []
    }

    /** What holds whenever the port's lock is released. */
    ghost predicate Released()
      reads this
    {
      T().Valid() && Served()
    }

    /** port_new */
    constructor ()
      ensures Released() && activePolls == 0 && T() == Tables(map[], map[], [], [], 0, multiset{})
    {
      tree, socks, updateQueue, deletedQueue, acquired, outstanding := map[], map[], [], [], 0, multiset{};
      activePolls, failed := 0, false;
    }

    /** The first half of sock__delete: cancel, leave the update queue and the tree. */
    method Unregister(id: Address, cancelOk: bool)
      requires T().Coherent() && id in socks && !socks[id].deletePending
      modifies this`tree, this`socks, this`updateQueue
      ensures T().Coherent() && old(T()).OnlyAbout(id, T())
      ensures id in socks && socks[id].deletePending && (socks[id].pollStatus.Idle? <==> old(socks[id].pollStatus.Idle?))
      ensures cancelOk ==> !socks[id].pollStatus.Pending?
      ensures tree == old(tree) - {old(socks[id].socket)}
      ensures updateQueue == Dequeue(old(updateQueue), id)
    {
      hide ToAfd, Dequeue;
      ghost var was := T();
      assert was.Local(id);
      var s := socks[id];
      DequeueDistinct(updateQueue, id);
      if s.pollStatus.Pending? && cancelOk {
        s := s.(pollStatus := Cancelled, pendingEvents := 0);
      }
      updateQueue := Dequeue(updateQueue, id);
      tree := tree - {s.socket};
      s := s.(deletePending := true);
      socks := socks[id := s];
      Withdraw(was, id, s, updateQueue, T());
    }

    /** poll_group_release and sock__free; when forced, the driver has dropped the poll. */
    method Discard(id: Address)
      requires T().Coherent() && id in socks && socks[id].deletePending
      modifies this`socks, this`deletedQueue, this`acquired, this`outstanding
      ensures T().Coherent() && old(T()).OnlyAbout(id, T()) && id !in socks && socks == old(socks) - {id}
    {
      hide ToAfd, Dequeue;
      ghost var was := T();
      assert was.Local(id);
      DequeueDistinct(deletedQueue, id);
      deletedQueue := Dequeue(deletedQueue, id);
      acquired := acquired - 1;
      socks := socks - {id};
      outstanding := outstanding[id := 0];
      OthersKeep(was, id, T());
    }

    /** sock__delete.  A forced deletion happens only after the completion port is gone. */
    method Delete(id: Address, force: bool, cancelOk: bool)
      requires T().Coherent() && id in socks
      modifies this`tree, this`socks, this`updateQueue, this`deletedQueue, this`acquired, this`outstanding
      ensures T().Coherent() && T().Kept(id) && old(T()).OnlyAbout(id, T())
      ensures id in socks <==> !force && !old(socks[id].pollStatus.Idle?)
      ensures id in socks ==> socks[id].deletePending && id in outstanding
      ensures id in socks && cancelOk && !old(socks[id].deletePending) ==> socks[id].pollStatus.Cancelled?
      ensures tree == if old(socks[id].deletePending) then old(tree) else old(tree) - {old(socks[id].socket)}
      ensures updateQueue == Dequeue(old(updateQueue), id)
    {
      hide ToAfd, Dequeue;
      ghost var was := T();
      assert was.Local(id);
      if !socks[id].deletePending {
        Unregister(id, cancelOk);
      }
      ghost var detached := T();
      assert detached.Local(id);
      if force || socks[id].pollStatus.Idle? {
        Discard(id);
      } else {
        deletedQueue := Enqueue(deletedQueue, id);
        OthersKeep(detached, id, T());
      }
      OnlyAboutTransitive(was, id, detached, T());
    }

    /** sock_new.  `base` is the base socket, `group` and `memory` say which allocations succeed. */
    method New(socket: nat, base: bool, group: bool, memory: bool, block: Address) returns (r: Option<Address>)
      requires T().Valid() && block !in socks
      modifies this`tree, this`socks, this`updateQueue, this`deletedQueue, this`acquired, this`outstanding
      ensures T().Coherent() && old(T()).OnlyAbout(block, T()) && forall id :: T().Kept(id)
      ensures r.Some? <==> socket != 0 && socket != 0xffff_ffff_ffff_ffff && base && group && memory && socket !in old(tree)
      ensures r.None? ==> T() == old(T())
      ensures r.Some? ==> r.value == block && tree == old(tree)[socket := block] && updateQueue == old(updateQueue)
                          && socks == old(socks)[block := Sock(socket, 0, 0, 0, 0, Idle, false)]
    {
      if socket == 0 || socket == INVALID_SOCKET { return None; }
      if !base { return None; }
      if !group { return None; }
      acquired := acquired + 1;
      if !memory || socket in tree {
        acquired := acquired - 1;
        return None;
      }
      ghost var was := old(T());
      assert was.Local(block);
      tree := tree[socket := block];
      socks := socks[block := Sock(socket, 0, 0, 0, 0, Idle, false)];
      OthersKeep(was, block, T());
      r := Some(block);
    }

    /** sock_set_event */
    method SetEvent(id: Address, ev: Event)
      requires T().Coherent() && id in socks && !socks[id].deletePending
      modifies this`socks, this`updateQueue
      ensures T().Coherent() && old(T()).OnlyAbout(id, T()) && T().Attended(id) && T().Kept(id)
      ensures socks == old(socks)[id := old(socks[id]).(userEvents := ev.events | EPOLLERR | EPOLLHUP, userData := ev.data)]
      ensures socks[id].Missing() == 0 ==> updateQueue == old(updateQueue)
    {
      hide ToAfd;
      ghost var was := T();
      assert was.Local(id);
      socks := socks[id := socks[id].(userEvents := ev.events | EPOLLERR | EPOLLHUP, userData := ev.data)];
      if socks[id].Missing() != 0 {
        updateQueue := Enqueue(updateQueue, id);
      }
      Restate(was, id, socks[id], updateQueue, outstanding, T());
      AlwaysMissing(ev.events);
    }

    /** The driver refused the handle: the socket has been closed. */
    method UpdateClosed(id: Address, cancelOk: bool) returns (r: int)
      requires T().Valid() && id in socks && socks[id].pollStatus.Idle?
      modifies this`tree, this`socks, this`updateQueue, this`deletedQueue, this`acquired, this`outstanding
      ensures T().Valid() && old(T()).OnlyAbout(id, T()) && r == 0 && id !in socks
      ensures tree.Keys <= old(tree.Keys)
      ensures updateQueue == Dequeue(old(updateQueue), id)
    {
      hide ToAfd, Dequeue;
      ghost var was := T();
      Delete(id, false, cancelOk);
      OthersKeep(was, id, T());
      r := 0;
    }

    /** sock_update */
    method Update(id: Address, answer: Answer) returns (r: int)
      requires T().Valid() && id in updateQueue && id in socks
      modifies this`tree, this`socks, this`updateQueue, this`deletedQueue, this`acquired, this`outstanding
      ensures T().Valid() && old(T()).OnlyAbout(id, T())
      ensures r == 0 || r == -1
      ensures r == 0 ==> id !in updateQueue && updateQueue == Dequeue(old(updateQueue), id)
      ensures r == -1 ==> T() == old(T())
      ensures
        var s := old(socks[id]);
        && (r == -1 <==> (s.pollStatus.Pending? && s.Missing() != 0 && !answer.cancelOk)
                         || (s.pollStatus.Idle? && answer.poll == OtherError))
        && (id in socks <==> !(s.pollStatus.Idle? && answer.poll == InvalidHandle))
        && (s.pollStatus.Idle? && answer.poll == Accepted ==> outstanding == old(outstanding) + multiset{id})
        && (r == 0 && id in socks ==>
              socks[id] == if s.Covered() then s
                           else if s.pollStatus.Pending? then s.(pollStatus := Cancelled, pendingEvents := 0)
                           else s.(asked := ToAfd(s.userEvents), pollStatus := Pending, pendingEvents := s.userEvents))
      ensures tree.Keys <= old(tree.Keys)
    {
      hide ToAfd, Dequeue;
      ghost var was := T();
      assert was.Local(id) && was.Kept(id);
      var s := socks[id];
      assert !s.deletePending;
      if s.pollStatus.Idle? && answer.poll == InvalidHandle {
        r := UpdateClosed(id, answer.cancelOk);
        return;
      }
      if s.pollStatus.Pending? && s.Missing() == 0 {
      } else if s.pollStatus.Pending? {
        if !answer.cancelOk { return -1; }
        s := s.(pollStatus := Cancelled, pendingEvents := 0);
      } else if s.pollStatus.Cancelled? {
      } else {
        if answer.poll == OtherError { return -1; }
        outstanding := outstanding + multiset{id};
        s := s.(asked := ToAfd(s.userEvents), pollStatus := Pending, pendingEvents := s.userEvents);
      }
      DequeueDistinct(updateQueue, id);
      socks := socks[id := s];
      updateQueue := Dequeue(updateQueue, id);
      Watched(s.userEvents);
      Restate(was, id, s, updateQueue, outstanding, T());
      r := 0;
    }

    /** port__update_events.  `env` answers the i-th time the driver is asked. */
    method UpdateEvents(env: nat -> Answer) returns (r: int)
      requires T().Valid()
      modifies this`tree, this`socks, this`updateQueue, this`deletedQueue, this`acquired, this`outstanding, this`failed
      ensures T().Valid() && old(T()).KeepsWishes(T())
      ensures (r == 0 || r == -1) && failed == (r == -1)
      ensures r == 0 ==> updateQueue == [] && forall id :: id in socks && !socks[id].deletePending ==> socks[id].Covered()
      ensures r == -1 ==> updateQueue != []
      ensures Obliging(env) ==> r == 0
      ensures forall id :: id !in old(updateQueue) ==> old(T()).SameAbout(id, T())
      ensures tree.Keys <= old(tree.Keys)
    {
      ghost var was := T();
      var i := 0;
      while updateQueue != []
        invariant T().Valid() && was.KeepsWishes(T())
        invariant forall x :: x in updateQueue ==> x in was.updateQueue
        invariant forall x :: x !in was.updateQueue ==> was.SameAbout(x, T())
        invariant tree.Keys <= was.tree.Keys
        decreases |updateQueue|
      {
        hide Tables.SameAbout, Tables.OnlyAbout, Dequeue, ToAfd, Sock.Missing, Sock.Covered;
        ghost var now := T();
        var id := updateQueue[0];
        assert now.Local(id);
        r := Update(id, env(i));
        Unaffected(was, now, id, T());
        WishesKept(was, now, id, T());
        if r < 0 {
          failed := true;
          return;
        }
        i := i + 1;
      }
      AllCovered(T());
      failed := false;
      r := 0;
    }

    /** The poll is over: the object is idle again. */
    method Complete(id: Address)
      requires T().Coherent() && id in socks && id in outstanding
      modifies this`socks, this`outstanding
      ensures T().Coherent() && old(T()).OnlyAbout(id, T())
      ensures outstanding == old(outstanding) - multiset{id}
      ensures socks == old(socks)[id := old(socks[id]).(pollStatus := Idle, pendingEvents := 0)]
    {
      hide ToAfd;
      ghost var was := T();
      assert was.Local(id);
      outstanding := outstanding - multiset{id};
      socks := socks[id := socks[id].(pollStatus := Idle, pendingEvents := 0)];
      OthersKeep(was, id, T());
    }

    /** An idle object is freed at once. */
    method Drop(id: Address)
      requires T().Coherent() && id in socks && socks[id].pollStatus.Idle?
      modifies this`tree, this`socks, this`updateQueue, this`deletedQueue, this`acquired, this`outstanding
      ensures T().Coherent() && old(T()).OnlyAbout(id, T()) && id !in socks
      ensures outstanding == old(outstanding)
    {
      hide ToAfd, Dequeue;
      ghost var was := T();
      assert was.Local(id);
      Delete(id, false, true);
      assert T().Local(id);
      SamePolls(was, id, T());
    }

    /** The object needs a new poll; what its last one found goes to the user, if it is wanted. */
    method Requeue(id: Address, found: Events) returns (r: Option<Event>)
      requires T().Coherent() && id in socks && !socks[id].deletePending && socks[id].pollStatus.Idle?
      modifies this`socks, this`updateQueue
      ensures T().Coherent() && old(T()).OnlyAbout(id, T()) && T().Kept(id)
      ensures id in socks && !socks[id].deletePending && id in updateQueue
      ensures
        var s := old(socks[id]);
        var events := Wanted(found, s.userEvents);
        && r == (if events == 0 then None else Some(Event(s.userData, events)))
        && socks[id] == if r.Some? && OneShot(s.userEvents) then s.(userEvents := 0) else s
    {
      hide ToAfd, Wanted, OneShot;
      ghost var was := T();
      assert was.Local(id);
      updateQueue := Enqueue(updateQueue, id);
      var s := socks[id];
      var events := Wanted(found, s.userEvents);
      r := None;
      if events != 0 {
        r := Some(Event(s.userData, events));
        if OneShot(s.userEvents) {
          s := s.(userEvents := 0);
        }
      }
      socks := socks[id := s];
      Restate(was, id, s, updateQueue, outstanding, T());
    }

    /** sock_feed_event.  A failed poll is an error; a local close ends the object, as an earlier deletion
        does; a socket that has been reported and is one-shot, bit 31, wants nothing more. */
    method Feed(id: Address, c: Completion) returns (r: Option<Event>)
      requires T().Valid() && id in socks && id in outstanding
      modifies this`tree, this`socks, this`updateQueue, this`deletedQueue, this`acquired, this`outstanding
      ensures T().Valid() && old(T()).OnlyAbout(id, T())
      ensures outstanding == old(outstanding) - multiset{id}
      ensures id !in socks <==> old(socks[id]).deletePending || (c.Happened? && c.afd & 0x20 != 0)
      ensures (if r.Some? then [r.value] else []) == ToldOf(old(socks[id]), c)
      ensures
        var s := old(socks[id]);
        id in socks ==>
          && id in updateQueue && socks[id].userData == s.userData
          && socks[id].userEvents == if r.Some? && s.userEvents & 0x8000_0000 != 0 then 0 else s.userEvents
    {
      Meanings(c, socks[id].userEvents);
      hide ToAfd, ToEpoll, Dequeue, Wanted, OneShot, Closed, Reports;
      ghost var was := T();
      Complete(id);
      ghost var completed := T();
      if socks[id].deletePending || Closed(c) {
        Drop(id);
        r := None;
      } else {
        r := Requeue(id, Reports(c));
      }
      OnlyAboutTransitive(was, id, completed, T());
      ValidAgain(was, id, T());
    }

    /** One round of port__feed_events. */
    method FeedOne(id: Address, c: Completion) returns (told: seq<Event>)
      requires T().Valid() && id in socks && id in outstanding
      modifies this`tree, this`socks, this`updateQueue, this`deletedQueue, this`acquired, this`outstanding
      ensures T().Valid() && old(T()).OnlyAbout(id, T())
      ensures outstanding == old(outstanding) - multiset{id} && told == ToldOf(old(socks[id]), c)
    {
      hide ToldOf, ToEpoll, Tables.Valid, Tables.OnlyAbout;
      var r := Feed(id, c);
      told := if r.Some? then [r.value] else [];
    }

    /** port__feed_events.  The driver completes only polls it accepted, each once. */
    method FeedEvents(done: seq<(Address, Completion)>) returns (events: seq<Event>)
      requires T().Valid() && Completed(done) <= outstanding
      modifies this`tree, this`socks, this`updateQueue, this`deletedQueue, this`acquired, this`outstanding
      ensures T().Valid() && outstanding == old(outstanding) - Completed(done)
      ensures events == Told(old(socks), done)
      ensures forall id :: id !in Completed(done) ==> old(T()).SameAbout(id, T())
    {
      ghost var was := T();
      events := [];
      hide Fed, Told, ToldOf, Completed, Tables.Valid, Tables.OnlyAbout, Tables.SameAbout;
      FedNothing(was, done);
      for i := 0 to |done|
        invariant Fed(was, done, i, T(), events)
      {
        ghost var now := T();
        FedBefore(was, done, i, now, events);
        var told := FeedOne(done[i].0, done[i].1);
        FedNext(was, done, i, now, events, T(), told);
        events := events + told;
      }
      FedAll(was, done, T(), events);
    }

    /** port__update_events_if_polling; its result is ignored. */
    method UpdateIfPolling(env: nat -> Answer)
      requires T().Valid()
      modifies this`tree, this`socks, this`updateQueue, this`deletedQueue, this`acquired, this`outstanding, this`failed
      ensures Released() && old(T()).KeepsWishes(T()) && tree.Keys <= old(tree.Keys)
      ensures activePolls == 0 ==> T() == old(T())
      ensures activePolls > 0 && Obliging(env) ==> updateQueue == []
    {
      if activePolls > 0 {
        var _ := UpdateEvents(env);
      }
    }

    /** port__poll up to the wait: nobody waits unless the update queue has been served. */
    method BeginPoll(env: nat -> Answer) returns (waiting: bool)
      requires T().Valid()
      modifies this`tree, this`socks, this`updateQueue, this`deletedQueue, this`acquired, this`outstanding, this`failed, this`activePolls
      ensures T().Valid() && old(T()).KeepsWishes(T())
      ensures waiting ==> activePolls == old(activePolls) + 1 && updateQueue == [] && !failed
      ensures !waiting ==> activePolls == old(activePolls) && failed && updateQueue != []
      ensures Obliging(env) ==> waiting
    {
      var r := UpdateEvents(env);
      if r < 0 { return false; }
      activePolls := activePolls + 1;
      waiting := true;
    }

    /** port_wait up to its first release of the lock. */
    method StartWait(maxEvents: int, env: nat -> Answer, again: nat -> Answer) returns (waiting: bool, r: int)
      requires Released()
      modifies this`tree, this`socks, this`updateQueue, this`deletedQueue, this`acquired, this`outstanding, this`failed, this`activePolls
      ensures Released() && old(T()).KeepsWishes(T())
      ensures activePolls == old(activePolls) + if waiting then 1 else 0
      ensures waiting ==> updateQueue == [] && maxEvents > 0
      ensures !waiting ==> r == -1
      ensures maxEvents <= 0 ==> T() == old(T())
      ensures maxEvents > 0 && Obliging(env) ==> waiting
      ensures maxEvents > 0 && !waiting && activePolls > 0 && Obliging(again) ==> updateQueue == []
    {
      r := -1;
      if maxEvents <= 0 { return false, -1; }
      ghost var was := T();
      waiting := BeginPoll(env);
      if !waiting {
        ghost var polled := T();
        UpdateIfPolling(again);
        WishesCompose(was, polled, T());
      }
    }

    /** port_wait from the end of a wait to the next release of the lock: the completions are reported, or
        none of interest has come and the thread waits again, unless its time is over. */
    method EndWait(woken: Wakeup, expired: bool, env: nat -> Answer, again: nat -> Answer)
      returns (waiting: bool, r: int, events: seq<Event>)
      requires Released() && activePolls > 0
      requires woken.Packets? ==> Completed(woken.done) <= outstanding
      modifies this`tree, this`socks, this`updateQueue, this`deletedQueue, this`acquired, this`outstanding, this`failed, this`activePolls
      ensures Released() && activePolls == old(activePolls) - if waiting then 0 else 1
      ensures events == if woken.Packets? then Told(old(socks), woken.done) else []
      ensures waiting ==> updateQueue == [] && woken.Packets? && events == [] && !expired
      ensures !waiting ==>
                r == match woken
                     case TimedOut => 0
                     case WaitFailed => -1
                     case Packets(_) => if events == [] && !expired then -1 else |events|
      ensures woken.Packets? && events == [] && !expired && Obliging(env) ==> waiting
      ensures !waiting && activePolls > 0 && Obliging(again) ==> updateQueue == []
    {
      activePolls := activePolls - 1;
      events := [];
      waiting := false;
      match woken {
        case TimedOut => r := 0;
        case WaitFailed => r := -1;
        case Packets(done) =>
          events := FeedEvents(done);
          r := |events|;
          if events == [] && !expired {
            waiting := BeginPoll(env);
            r := -1;
          }
      }
      if !waiting {
        UpdateIfPolling(again);
      }
    }

    /** port__ctl_add.  If a thread polls, the new socket is served at once; it is dropped only if the
        driver says that it has been closed. */
    method Add(socket: nat, ev: Event, base: bool, group: bool, memory: bool, block: Address, env: nat -> Answer)
      returns (r: int)
      requires Released() && block !in socks
      modifies this`tree, this`socks, this`updateQueue, this`deletedQueue, this`acquired, this`outstanding, this`failed
      ensures Released()
      ensures r == if socket != 0 && socket != 0xffff_ffff_ffff_ffff && base && group && memory && socket !in old(tree) then 0 else -1
      ensures r == -1 ==> T() == old(T())
      ensures r == 0 ==> tree.Keys <= old(tree.Keys) + {socket} && (socket in tree <==> block in socks)
      ensures r == 0 && block in socks ==>
                tree[socket] == block && socks[block].userEvents == ev.events | EPOLLERR | EPOLLHUP && socks[block].userData == ev.data
      ensures r == 0 && activePolls == 0 ==> tree == old(tree)[socket := block] && block in updateQueue
    {
      hide ToAfd;
      ghost var was := T();
      var s := New(socket, base, group, memory, block);
      if s.None? { return -1; }
      ghost var made := T();
      SetEvent(block, ev);
      OnlyAboutTransitive(was, block, made, T());
      ValidAgain(was, block, T());
      ghost var wished := T();
      UpdateIfPolling(env);
      WishGranted(wished, block, socket, T());
      r := 0;
    }

    /** port__ctl_mod */
    method Modify(socket: nat, ev: Event, env: nat -> Answer) returns (r: int)
      requires Released()
      modifies this`tree, this`socks, this`updateQueue, this`deletedQueue, this`acquired, this`outstanding, this`failed
      ensures Released()
      ensures r == if socket in old(tree) then 0 else -1
      ensures r == -1 ==> T() == old(T())
      ensures r == 0 && socket in tree ==>
                tree[socket] == old(tree)[socket] && tree[socket] in socks
                && socks[tree[socket]].userEvents == ev.events | EPOLLERR | EPOLLHUP && socks[tree[socket]].userData == ev.data
      ensures r == 0 && activePolls == 0 ==> tree == old(tree)
    {
      hide ToAfd;
      if socket !in tree { return -1; }
      var id := tree[socket];
      ghost var was := T();
      assert was.Local(id);
      SetEvent(id, ev);
      ValidAgain(was, id, T());
      ghost var wished := T();
      UpdateIfPolling(env);
      WishGranted(wished, id, socket, T());
      r := 0;
    }

    /** port__ctl_del.  What the user deleted is never reported again. */
    method Del(socket: nat, cancelOk: bool) returns (r: int)
      requires Released()
      modifies this`tree, this`socks, this`updateQueue, this`deletedQueue, this`acquired, this`outstanding
      ensures Released()
      ensures r == if socket in old(tree) then 0 else -1
      ensures tree == old(tree) - {socket}
      ensures
        r == 0 ==>
          var id := old(tree)[socket];
          && old(T()).OnlyAbout(id, T()) && outstanding == old(outstanding)
          && (id in socks <==> id in outstanding) && (id in socks ==> socks[id].deletePending)
    {
      if socket !in tree {
        assert tree - {socket} == tree;
        return -1;
      }
      var id := tree[socket];
      ghost var was := T();
      assert was.Local(id);
      Delete(id, false, cancelOk);
      ValidAgain(was, id, T());
      assert T().Local(id);
      SamePolls(was, id, T());
      r := 0;
    }

    /** port_delete: closing the port frees every object and returns every acquisition. */
    method Close()
      requires T().Valid()
      modifies this`tree, this`socks, this`updateQueue, this`deletedQueue, this`acquired, this`outstanding
      ensures socks == map[] && tree == map[] && updateQueue == [] && deletedQueue == [] && acquired == 0
    {
      while tree != map[]
        invariant T().Valid()
        decreases |tree|
      {
        var k :| k in tree;
        ghost var was := T();
        var id := tree[k];
        assert was.Local(id);
        Delete(id, true, true);
        ValidAgain(was, id, T());
      }
      while deletedQueue != []
        invariant T().Valid() && tree == map[]
        decreases |socks|
      {
        ghost var was := T();
        var id := deletedQueue[0];
        assert was.Local(id);
        Delete(id, true, true);
        ValidAgain(was, id, T());
        Shrinks(was, id, T());
      }
      Emptied(T());
    }
  }
}
