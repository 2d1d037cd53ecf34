/** The reference lock that lets epoll_close() free a port while other threads still use it, and
    the thread-safe tree that hands out references.

    Threads interleave at the granularity of the lock operations, the atomic additions and
    exchanges, and the keyed event, on which one releasing and one waiting thread meet. */
module RefLock {
  import opened Collections

  const REF: int := 0x0000_0001
  const REF_MASK: int := 0x0fff_ffff
  const DESTROY: int := 0x1000_0000
  const POISON: int := 0x300d_ead0

  /** InterlockedAdd on a 32-bit word. */
  function Plus(word: int, delta: int): int {
    (word + delta) % 0x1_0000_0000
  }

  /** The bits under REFLOCK__DESTROY_MASK, as a number. */
  function High(word: int): int {
    word / DESTROY
  }

  /** The bits under REFLOCK__REF_MASK. */
  function Low(word: int): int {
    word % DESTROY
  }

  type Tid = nat
  type Addr = nat

  /** A tree node with its lock; `waits` and `signals` count the uses of its event. */
  datatype Node = Node(key: nat, inTree: bool, word: int, waits: nat, signals: nat)

  /** Where a thread is.  `Shared*` and `Excl*` hold the tree's lock. */
  datatype Pc =
    | Away
    | Shared | SharedFound(n: Addr) | SharedRef(n: Addr)
    | Using(n: Addr) | Signalling(n: Addr)
    | Excl | ExclFound(n: Addr) | ExclDeleted(n: Addr) | ExclRef(n: Addr)
    | Closing(n: Addr) | Waiting(n: Addr) | Exchanging(n: Addr) | Freeing(n: Addr)
  {
    predicate LocksExclusive() {
      Excl? || ExclFound? || ExclDeleted? || ExclRef?
    }

    predicate LocksShared() {
      Shared? || SharedFound? || SharedRef?
    }

    predicate Locks() {
      LocksExclusive() || LocksShared()
    }
  }

  datatype State = State(nodes: map<Addr, Node>, threads: map<Tid, Pc>)

  datatype Step =
    | Add(a: Addr, key: nat)
    | LockShared(t: Tid) | FindShared(t: Tid, a: Addr) | MissShared(t: Tid) | RefShared(t: Tid) | UnlockShared(t: Tid)
    | Unref(t: Tid)
    | LockExcl(t: Tid) | FindExcl(t: Tid, a: Addr) | MissExcl(t: Tid) | DelExcl(t: Tid) | RefExcl(t: Tid) | UnlockExcl(t: Tid)
    | Destroy(t: Tid) | Meet(t: Tid, waiter: Tid) | Exchange(t: Tid) | Free(t: Tid)

  predicate At(s: State, t: Tid, pc: Pc) {
    t in s.threads && s.threads[t] == pc
  }

  predicate NoneExclusive(s: State) {
    forall u :: u in s.threads ==> !s.threads[u].LocksExclusive()
  }

  predicate NoneLocked(s: State) {
    forall u :: u in s.threads ==> !s.threads[u].Locks()
  }

  predicate Enabled(s: State, step: Step) {
    && (step.Add? || step.t in s.threads)
    && match step
       case Add(a, key) =>
         NoneLocked(s) && a !in s.nodes && forall b :: b in s.nodes && s.nodes[b].inTree ==> s.nodes[b].key != key
       case LockShared(t) => s.threads[t].Away? && NoneExclusive(s)
       case FindShared(t, a) => s.threads[t].Shared? && a in s.nodes && s.nodes[a].inTree
       case MissShared(t) => s.threads[t].Shared?
       case RefShared(t) => s.threads[t].SharedFound?
       case UnlockShared(t) => s.threads[t].SharedRef?
       case Unref(t) => s.threads[t].Using?
       case LockExcl(t) => s.threads[t].Away? && NoneLocked(s)
       case FindExcl(t, a) => s.threads[t].Excl? && a in s.nodes && s.nodes[a].inTree
       case MissExcl(t) => s.threads[t].Excl?
       case DelExcl(t) => s.threads[t].ExclFound?
       case RefExcl(t) => s.threads[t].ExclDeleted?
       case UnlockExcl(t) => s.threads[t].ExclRef?
       case Destroy(t) => s.threads[t].Closing?
       case Meet(t, w) =>
         s.threads[t].Signalling? && w in s.threads && s.threads[w].Waiting? && s.threads[w].n == s.threads[t].n
       case Exchange(t) => s.threads[t].Exchanging?
       case Free(t) => s.threads[t].Freeing?
  }

  /** No step touches the lock of a node that has been freed. */
  predicate Touches(s: State, step: Step)
    requires Enabled(s, step)
  {
    match step
    case RefShared(t) => s.threads[t].n in s.nodes
    case Unref(t) => s.threads[t].n in s.nodes
    case DelExcl(t) => s.threads[t].n in s.nodes && s.nodes[s.threads[t].n].inTree
    case RefExcl(t) => s.threads[t].n in s.nodes
    case Destroy(t) => s.threads[t].n in s.nodes
    case Exchange(t) => s.threads[t].n in s.nodes
    case Free(t) => s.threads[t].n in s.nodes
    case _ => true
  }

  function Apply(s: State, step: Step): State
    requires Enabled(s, step) && Touches(s, step)
  {
    match step
    case Add(a, key) => s.(nodes := s.nodes[a := Node(key, true, 0, 0, 0)])
    case LockShared(t) => Go(s, t, Shared)
    case FindShared(t, a) => Go(s, t, SharedFound(a))
    case MissShared(t) => Go(s, t, Away)
    case RefShared(t) => var n := s.threads[t].n; Go(Adds(s, n, REF), t, SharedRef(n))
    case UnlockShared(t) => Go(s, t, Using(s.threads[t].n))
    case Unref(t) =>
      var n := s.threads[t].n;
      var next := Adds(s, n, -REF);
      if next.nodes[n].word == DESTROY then
        Go(next.(nodes := next.nodes[n := next.nodes[n].(signals := next.nodes[n].signals + 1)]), t, Signalling(n))
      else Go(next, t, Away)
    case LockExcl(t) => Go(s, t, Excl)
    case FindExcl(t, a) => Go(s, t, ExclFound(a))
    case MissExcl(t) => Go(s, t, Away)
    case DelExcl(t) =>
      var n := s.threads[t].n;
      Go(s.(nodes := s.nodes[n := s.nodes[n].(inTree := false)]), t, ExclDeleted(n))
    case RefExcl(t) => var n := s.threads[t].n; Go(Adds(s, n, REF), t, ExclRef(n))
    case UnlockExcl(t) => Go(s, t, Closing(s.threads[t].n))
    case Destroy(t) =>
      var n := s.threads[t].n;
      var next := Adds(s, n, DESTROY - REF);
      if Low(next.nodes[n].word) != 0 then
        Go(next.(nodes := next.nodes[n := next.nodes[n].(waits := next.nodes[n].waits + 1)]), t, Waiting(n))
      else Go(next, t, Exchanging(n))
    case Meet(t, w) => Go(Go(s, t, Away), w, Exchanging(s.threads[t].n))
    case Exchange(t) =>
      var n := s.threads[t].n;
      Go(s.(nodes := s.nodes[n := s.nodes[n].(word := POISON)]), t, Freeing(n))
    case Free(t) => Go(s.(nodes := s.nodes - {s.threads[t].n}), t, Away)
  }

  function Go(s: State, t: Tid, pc: Pc): State {
    s.(threads := s.threads[t := pc])
  }

  function Adds(s: State, n: Addr, delta: int): State
    requires n in s.nodes
  {
    s.(nodes := s.nodes[n := s.nodes[n].(word := Plus(s.nodes[n].word, delta))])
  }

  /** The assertions of the C code at the step, and what the wait is for. */
  predicate Asserts(s: State, step: Step)
    requires Enabled(s, step) && Touches(s, step)
  {
    match step
    case RefShared(t) => High(Apply(s, step).nodes[s.threads[t].n].word) == 0
    case RefExcl(t) => High(Apply(s, step).nodes[s.threads[t].n].word) == 0
    case Unref(t) => High(Apply(s, step).nodes[s.threads[t].n].word) in {0, 1}
    case Destroy(t) => High(Apply(s, step).nodes[s.threads[t].n].word) == 1
    case Exchange(t) => s.nodes[s.threads[t].n].word == DESTROY
    case _ => true
  }

  // ---- Who refers to a node ------------------------------------------------------------------

  datatype Role = Holder | Remover | Waiter | Exchanger | Freer | Signaller

  predicate Plays(pc: Pc, role: Role, n: Addr) {
    match role
    case Holder => pc == SharedRef(n) || pc == Using(n) || pc == ExclRef(n) || pc == Closing(n)
    case Remover => pc == ExclDeleted(n) || pc == ExclRef(n) || pc == Closing(n)
    case Waiter => pc == Waiting(n)
    case Exchanger => pc == Exchanging(n)
    case Freer => pc == Freeing(n)
    case Signaller => pc == Signalling(n)
  }

  ghost function Team(threads: map<Tid, Pc>, role: Role, n: Addr): set<Tid> {
    set t | t in threads && Plays(threads[t], role, n)
  }

  ghost function Count(threads: map<Tid, Pc>, role: Role, n: Addr): nat {
    |Team(threads, role, n)|
  }

  function One(b: bool): nat {
    if b then 1 else 0
  }

  lemma CountMoves(threads: map<Tid, Pc>, t: Tid, pc: Pc, role: Role, n: Addr)
    requires t in threads
    ensures Count(threads[t := pc], role, n)
            == Count(threads, role, n) - One(Plays(threads[t], role, n)) + One(Plays(pc, role, n))
    ensures Plays(threads[t], role, n) ==> Count(threads, role, n) > 0
  {
    var before, after := Team(threads, role, n), Team(threads[t := pc], role, n);
    assert after == before - {t} + (if Plays(pc, role, n) then {t} else {});
    assert Plays(threads[t], role, n) <==> t in before;
  }

  lemma CountBound(threads: map<Tid, Pc>, t: Tid, role: Role, n: Addr)
    requires t in threads
    ensures Count(threads, role, n) <= |threads|
    ensures !Plays(threads[t], role, n) ==> Count(threads, role, n) < |threads|
  {
    var team := Team(threads, role, n);
    assert team <= threads.Keys;
    Fewer(team, threads.Keys);
    if !Plays(threads[t], role, n) {
      Fewer(team, threads.Keys - {t});
    }
  }

  datatype Tally = Tally(holders: int, removers: int, waiters: int, exchangers: int, freers: int, signallers: int)

  ghost function TallyOf(threads: map<Tid, Pc>, n: Addr): Tally {
    Tally(Count(threads, Holder, n), Count(threads, Remover, n), Count(threads, Waiter, n),
          Count(threads, Exchanger, n), Count(threads, Freer, n), Count(threads, Signaller, n))
  }

  function Single(pc: Pc, n: Addr): Tally {
    Tally(One(Plays(pc, Holder, n)), One(Plays(pc, Remover, n)), One(Plays(pc, Waiter, n)),
          One(Plays(pc, Exchanger, n)), One(Plays(pc, Freer, n)), One(Plays(pc, Signaller, n)))
  }

  /** What the tally becomes when one thread moves from `p` to `q`. */
  function Shift(c: Tally, p: Tally, q: Tally): Tally {
    Tally(c.holders - p.holders + q.holders, c.removers - p.removers + q.removers, c.waiters - p.waiters + q.waiters,
          c.exchangers - p.exchangers + q.exchangers, c.freers - p.freers + q.freers,
          c.signallers - p.signallers + q.signallers)
  }

  predicate Includes(c: Tally, p: Tally) {
    && c.holders >= p.holders && c.removers >= p.removers && c.waiters >= p.waiters
    && c.exchangers >= p.exchangers && c.freers >= p.freers && c.signallers >= p.signallers
  }

  lemma TallyMoves(threads: map<Tid, Pc>, t: Tid, pc: Pc, n: Addr)
    requires t in threads
    ensures TallyOf(threads[t := pc], n) == Shift(TallyOf(threads, n), Single(threads[t], n), Single(pc, n))
    ensures Includes(TallyOf(threads, n), Single(threads[t], n))
  {
    CountMoves(threads, t, pc, Holder, n);
    CountMoves(threads, t, pc, Remover, n);
    CountMoves(threads, t, pc, Waiter, n);
    CountMoves(threads, t, pc, Exchanger, n);
    CountMoves(threads, t, pc, Freer, n);
    CountMoves(threads, t, pc, Signaller, n);
  }

  // ---- The invariant -------------------------------------------------------------------------

  /** The lock word counts the references; once the node has left the tree one thread sees to its
      end, and the event is signalled for it when, and only when, it waits and nobody holds a reference. */
  predicate Fits(node: Node, c: Tally) {
    && One(node.inTree) + c.removers + c.waiters + c.exchangers + c.freers == 1
    && node.word == (if c.freers > 0 then 0x300d_ead0 else c.holders + 0x1000_0000 * (c.waiters + c.exchangers))
    && (c.exchangers + c.freers > 0 ==> c.holders == 0)
    && c.signallers == One(c.waiters > 0 && c.holders == 0)
    && (c.waiters > 0 ==> node.waits == 1 && node.signals == c.signallers)
    && (c.exchangers + c.freers > 0 ==> node.waits == node.signals <= 1)
    && (node.inTree || c.removers > 0 ==> node.waits == node.signals == 0)
  }

  ghost predicate NodeOk(nodes: map<Addr, Node>, threads: map<Tid, Pc>, n: Addr) {
    var c := TallyOf(threads, n);
    if n in nodes then Fits(nodes[n], c) else c == Tally(0, 0, 0, 0, 0, 0)
  }

  predicate ThreadOk(s: State, t: Tid)
    requires t in s.threads
  {
    var pc := s.threads[t];
    && (pc.SharedFound? || pc.ExclFound? ==> pc.n in s.nodes && s.nodes[pc.n].inTree)
    && (pc.LocksExclusive() ==> forall u :: u in s.threads && u != t ==> !s.threads[u].Locks())
  }

  ghost predicate Inv(s: State) {
    && |s.threads| <= REF_MASK
    && (forall n :: NodeOk(s.nodes, s.threads, n))
    && (forall t :: t in s.threads ==> ThreadOk(s, t))
    && UniqueKeys(s.nodes)
  }

  ghost predicate UniqueKeys(nodes: map<Addr, Node>) {
    forall a, b :: a in nodes && b in nodes && nodes[a].inTree && nodes[b].inTree && nodes[a].key == nodes[b].key ==> a == b
  }

  predicate Init(s: State) {
    s.nodes == map[] && (forall t :: t in s.threads ==> s.threads[t].Away?) && |s.threads| <= REF_MASK
  }

  lemma InitInv(s: State)
    requires Init(s)
    ensures Inv(s)
  {
    forall n
      ensures NodeOk(s.nodes, s.threads, n)
    {
      forall role
        ensures Count(s.threads, role, n) == 0
      {
        assert Team(s.threads, role, n) == {};
      }
    }
  }

  predicate Concerns(pc: Pc, n: Addr) {
    match pc
    case Away => true
    case Shared => true
    case Excl => true
    case _ => pc.n == n
  }

  lemma OtherTally(threads: map<Tid, Pc>, t: Tid, pc: Pc, n: Addr, m: Addr)
    requires t in threads && Concerns(threads[t], n) && Concerns(pc, n) && m != n
    ensures TallyOf(threads[t := pc], m) == TallyOf(threads, m)
  {
    hide Count;
    TallyMoves(threads, t, pc, m);
    assert Single(pc, m) == Single(threads[t], m);
  }

  /** A step of one thread about one node leaves the other nodes as they are. */
  lemma OneNode(s: State, t: Tid, pc: Pc, n: Addr, after: State)
    requires forall m :: NodeOk(s.nodes, s.threads, m)
    requires t in s.threads && Concerns(s.threads[t], n) && Concerns(pc, n)
    requires forall m :: m != n ==> (m in after.nodes <==> m in s.nodes) && (m in s.nodes ==> after.nodes[m] == s.nodes[m])
    requires after.threads == s.threads[t := pc]
    requires NodeOk(after.nodes, after.threads, n)
    ensures forall m :: NodeOk(after.nodes, after.threads, m)
  {
    hide TallyOf, Fits;
    forall m | m != n
      ensures NodeOk(after.nodes, after.threads, m)
    {
      assert NodeOk(s.nodes, s.threads, m);
      OtherTally(s.threads, t, pc, n, m);
    }
  }

  /** The references on a node never overflow their 28 bits. */
  lemma Room(s: State, t: Tid, n: Addr)
    requires Inv(s) && t in s.threads
    ensures TallyOf(s.threads, n).holders <= REF_MASK
    ensures !Plays(s.threads[t], Holder, n) ==> TallyOf(s.threads, n).holders < REF_MASK
  {
    CountBound(s.threads, t, Holder, n);
  }

  /** The node a thread works on is there, and its lock word is what the step expects. */
  lemma StepIsSafe(s: State, step: Step)
    requires Inv(s) && Enabled(s, step)
    ensures Touches(s, step) && Asserts(s, step)
  {
    hide Count;
    if !step.Add? && step.t in s.threads {
      var t, pc := step.t, s.threads[step.t];
      assert ThreadOk(s, t);
      if !pc.Away? && !pc.Shared? && !pc.Excl? {
        var n := pc.n;
        assert NodeOk(s.nodes, s.threads, n);
        TallyMoves(s.threads, t, pc, n);
        Room(s, t, n);
      }
    }
  }

  ghost predicate NodesOk(s: State) {
    forall n :: NodeOk(s.nodes, s.threads, n)
  }

  /** What becomes of the tally of the node a thread's step is about. */
  lemma Moves(s: State, t: Tid, pc: Pc, n: Addr, after: State)
    requires Inv(s) && t in s.threads && Concerns(s.threads[t], n) && Concerns(pc, n)
    requires after.threads == s.threads[t := pc]
    requires forall m :: m != n ==> (m in after.nodes <==> m in s.nodes) && (m in s.nodes ==> after.nodes[m] == s.nodes[m])
    ensures
      var c, p, q := TallyOf(s.threads, n), Single(s.threads[t], n), Single(pc, n);
      && Includes(c, p) && 0 <= c.holders <= REF_MASK && (p.holders == 0 ==> c.holders < REF_MASK)
      && Counted(c) && NodeOk(s.nodes, s.threads, n)
      && ((if n in after.nodes then Fits(after.nodes[n], Shift(c, p, q)) else Shift(c, p, q) == Tally(0, 0, 0, 0, 0, 0))
          ==> NodesOk(after))
  {
    hide Count, Fits;
    TallyMoves(s.threads, t, pc, n);
    Room(s, t, n);
    if NodeOk(after.nodes, after.threads, n) {
      OneNode(s, t, pc, n, after);
    }
  }

  /** A reference taken while the node is in the tree, or by the thread that took it out. */
  lemma RefFits(node: Node, c: Tally)
    requires Fits(node, c) && c.holders >= 0 && c.holders < REF_MASK && (node.inTree || c.removers > 0)
    requires c.removers >= 0 && c.waiters >= 0 && c.exchangers >= 0 && c.freers >= 0
    ensures Fits(node.(word := Plus(node.word, REF)), c.(holders := c.holders + 1)) && High(Plus(node.word, REF)) == 0
  {
  }

  lemma RefSharedKeeps(s: State, t: Tid)
    requires Inv(s) && Enabled(s, RefShared(t)) && Touches(s, RefShared(t))
    ensures NodesOk(Apply(s, RefShared(t)))
  {
    hide TallyOf, Fits, Plus, NodesOk;
    var n := s.threads[t].n;
    var c := TallyOf(s.threads, n);
    assert ThreadOk(s, t);
    Moves(s, t, SharedRef(n), n, Apply(s, RefShared(t)));
    RefFits(s.nodes[n], c);
    assert Shift(c, Single(SharedFound(n), n), Single(SharedRef(n), n)) == c.(holders := c.holders + 1);
  }

  lemma RefExclKeeps(s: State, t: Tid)
    requires Inv(s) && Enabled(s, RefExcl(t)) && Touches(s, RefExcl(t))
    ensures NodesOk(Apply(s, RefExcl(t)))
  {
    hide TallyOf, Fits, Plus, NodesOk;
    var n := s.threads[t].n;
    var c := TallyOf(s.threads, n);
    Moves(s, t, ExclRef(n), n, Apply(s, RefExcl(t)));
    RefFits(s.nodes[n], c);
    assert Shift(c, Single(ExclDeleted(n), n), Single(ExclRef(n), n)) == c.(holders := c.holders + 1);
  }

  predicate Counted(c: Tally) {
    && 0 <= c.holders <= REF_MASK && c.removers >= 0 && c.waiters >= 0
    && c.exchangers >= 0 && c.freers >= 0 && c.signallers >= 0
  }

  /** Only the last reference given back after the destruction began finds the word at DESTROY. */
  lemma UnrefFits(node: Node, c: Tally)
    requires Fits(node, c) && Counted(c) && c.holders > 0
    ensures
      var w := Plus(node.word, -REF);
      var d := c.(holders := c.holders - 1);
      if w == DESTROY then Fits(node.(word := w).(signals := node.signals + 1), d.(signallers := c.signallers + 1))
      else Fits(node.(word := w), d)
  {
  }

  lemma UnrefKeeps(s: State, t: Tid)
    requires Inv(s) && Enabled(s, Unref(t)) && Touches(s, Unref(t))
    ensures NodesOk(Apply(s, Unref(t)))
  {
    hide TallyOf, Fits, Plus, NodesOk;
    var n, after := s.threads[t].n, Apply(s, Unref(t));
    var c := TallyOf(s.threads, n);
    if Plus(s.nodes[n].word, -REF) == DESTROY {
      Moves(s, t, Signalling(n), n, after);
      UnrefFits(s.nodes[n], c);
      assert Shift(c, Single(Using(n), n), Single(Signalling(n), n)) == c.(holders := c.holders - 1, signallers := c.signallers + 1);
    } else {
      Moves(s, t, Away, n, after);
      UnrefFits(s.nodes[n], c);
      assert Shift(c, Single(Using(n), n), Single(Away, n)) == c.(holders := c.holders - 1);
    }
  }

  lemma DelKeeps(s: State, t: Tid)
    requires Inv(s) && Enabled(s, DelExcl(t)) && Touches(s, DelExcl(t))
    ensures NodesOk(Apply(s, DelExcl(t)))
  {
    hide TallyOf;
    Moves(s, t, ExclDeleted(s.threads[t].n), s.threads[t].n, Apply(s, DelExcl(t)));
  }

  /** The destroyer waits exactly when references remain. */
  lemma DestroyFits(node: Node, c: Tally)
    requires Fits(node, c) && Counted(c) && c.holders > 0 && c.removers > 0
    ensures
      var w := Plus(node.word, DESTROY - REF);
      var d := c.(holders := c.holders - 1, removers := c.removers - 1);
      if Low(w) != 0 then Fits(node.(word := w).(waits := node.waits + 1), d.(waiters := c.waiters + 1))
      else Fits(node.(word := w), d.(exchangers := c.exchangers + 1))
  {
  }

  lemma DestroyKeeps(s: State, t: Tid)
    requires Inv(s) && Enabled(s, Destroy(t)) && Touches(s, Destroy(t))
    ensures NodesOk(Apply(s, Destroy(t)))
  {
    hide TallyOf, Fits, Plus, Low, NodesOk;
    var n, after := s.threads[t].n, Apply(s, Destroy(t));
    var c := TallyOf(s.threads, n);
    if Low(Plus(s.nodes[n].word, DESTROY - REF)) != 0 {
      Moves(s, t, Waiting(n), n, after);
      DestroyFits(s.nodes[n], c);
      assert Shift(c, Single(Closing(n), n), Single(Waiting(n), n))
          == c.(holders := c.holders - 1, removers := c.removers - 1, waiters := c.waiters + 1);
    } else {
      Moves(s, t, Exchanging(n), n, after);
      DestroyFits(s.nodes[n], c);
      assert Shift(c, Single(Closing(n), n), Single(Exchanging(n), n))
          == c.(holders := c.holders - 1, removers := c.removers - 1, exchangers := c.exchangers + 1);
    }
  }

  lemma EndKeeps(s: State, step: Step)
    requires Inv(s) && (step.Exchange? || step.Free?) && Enabled(s, step) && Touches(s, step)
    ensures NodesOk(Apply(s, step))
  {
    hide TallyOf;
    var n, after := s.threads[step.t].n, Apply(s, step);
    Moves(s, step.t, after.threads[step.t], n, after);
  }

  lemma SameRole(s: State, t: Tid, pc: Pc, n: Addr)
    requires Inv(s) && t in s.threads && Concerns(s.threads[t], n) && Concerns(pc, n)
    requires Single(s.threads[t], n) == Single(pc, n)
    ensures NodesOk(Go(s, t, pc))
  {
    hide TallyOf, Fits, Single;
    Moves(s, t, pc, n, Go(s, t, pc));
    var c, p := TallyOf(s.threads, n), Single(pc, n);
    assert Shift(c, p, p) == c;
  }

  lemma LooksKeep(s: State, step: Step)
    requires Inv(s) && Enabled(s, step) && (step.FindShared? || step.UnlockShared? || step.FindExcl? || step.UnlockExcl?)
    ensures NodesOk(Apply(s, step))
  {
    hide NodesOk, Inv;
    match step
    case FindShared(t, a) => SameRole(s, t, SharedFound(a), a);
    case UnlockShared(t) => SameRole(s, t, Using(s.threads[t].n), s.threads[t].n);
    case FindExcl(t, a) => SameRole(s, t, ExclFound(a), a);
    case UnlockExcl(t) => SameRole(s, t, Closing(s.threads[t].n), s.threads[t].n);
  }

  lemma LocksKeep(s: State, step: Step)
    requires Inv(s) && Enabled(s, step) && (step.LockShared? || step.MissShared? || step.LockExcl? || step.MissExcl?)
    ensures NodesOk(Apply(s, step))
  {
    hide NodesOk, Inv;
    match step
    case LockShared(t) => SameRole(s, t, Shared, 0);
    case MissShared(t) => SameRole(s, t, Away, 0);
    case LockExcl(t) => SameRole(s, t, Excl, 0);
    case MissExcl(t) => SameRole(s, t, Away, 0);
  }

  lemma MeetFits(node: Node, c: Tally)
    requires Fits(node, c) && Counted(c) && c.signallers > 0 && c.waiters > 0
    ensures Fits(node, c.(signallers := c.signallers - 1, waiters := c.waiters - 1, exchangers := c.exchangers + 1))
  {
  }

  lemma MeetTally(s: State, t: Tid, w: Tid)
    requires Enabled(s, Meet(t, w))
    ensures
      var n := s.threads[t].n;
      var c, d := TallyOf(s.threads, n), TallyOf(Apply(s, Meet(t, w)).threads, n);
      && c.signallers > 0 && c.waiters > 0
      && d == c.(signallers := c.signallers - 1, waiters := c.waiters - 1, exchangers := c.exchangers + 1)
    ensures forall m :: m != s.threads[t].n ==> TallyOf(Apply(s, Meet(t, w)).threads, m) == TallyOf(s.threads, m)
  {
    hide Count;
    var n, middle, after := s.threads[t].n, Go(s, t, Away), Apply(s, Meet(t, w));
    TallyMoves(s.threads, t, Away, n);
    TallyMoves(middle.threads, w, Exchanging(n), n);
    forall m | m != n
      ensures TallyOf(after.threads, m) == TallyOf(s.threads, m)
    {
      hide TallyOf;
      OtherTally(s.threads, t, Away, n, m);
      OtherTally(middle.threads, w, Exchanging(n), n, m);
    }
  }

  lemma MeetKeeps(s: State, t: Tid, w: Tid)
    requires Inv(s) && Enabled(s, Meet(t, w))
    ensures NodesOk(Apply(s, Meet(t, w)))
  {
    hide TallyOf, Fits;
    var n, after := s.threads[t].n, Apply(s, Meet(t, w));
    MeetTally(s, t, w);
    Room(s, t, n);
    assert NodeOk(s.nodes, s.threads, n);
    TallyCounted(s.threads, n);
    MeetFits(s.nodes[n], TallyOf(s.threads, n));
    forall m | m != n
      ensures NodeOk(after.nodes, after.threads, m)
    {
      assert NodeOk(s.nodes, s.threads, m);
    }
  }

  lemma TallyCounted(threads: map<Tid, Pc>, n: Addr)
    ensures TallyOf(threads, n).holders <= REF_MASK ==> Counted(TallyOf(threads, n))
  {
  }

  lemma AddKeeps(s: State, a: Addr, key: nat)
    requires Inv(s) && Enabled(s, Add(a, key))
    ensures NodesOk(Apply(s, Add(a, key)))
  {
    hide TallyOf;
    var after := Apply(s, Add(a, key));
    forall m
      ensures NodeOk(after.nodes, after.threads, m)
    {
      assert NodeOk(s.nodes, s.threads, m);
    }
  }

  lemma FreedIsOut(s: State, t: Tid)
    requires Inv(s) && Enabled(s, Free(t)) && Touches(s, Free(t))
    ensures !s.nodes[s.threads[t].n].inTree
  {
    hide Count;
    assert NodeOk(s.nodes, s.threads, s.threads[t].n);
    TallyMoves(s.threads, t, Away, s.threads[t].n);
  }

  /** Nobody is inside the lock with an exclusive holder, and what a lookup found stays in the tree. */
  lemma ThreadKeeps(s: State, step: Step, u: Tid)
    requires Inv(s) && Enabled(s, step) && Touches(s, step) && u in s.threads
    ensures u in Apply(s, step).threads && ThreadOk(Apply(s, step), u)
  {
    hide NodeOk;
    assert ThreadOk(s, u);
    assert !step.Add? ==> ThreadOk(s, step.t);
    if step.Free? { FreedIsOut(s, step.t); }
  }

  lemma ThreadsKeep(s: State, step: Step)
    requires Inv(s) && Enabled(s, step) && Touches(s, step)
    ensures var after := Apply(s, step); forall u :: u in after.threads ==> ThreadOk(after, u)
    ensures |Apply(s, step).threads| == |s.threads| && UniqueKeys(Apply(s, step).nodes)
  {
    hide NodeOk;
    var after := Apply(s, step);
    assert after.threads.Keys == s.threads.Keys;
    forall u | u in after.threads
      ensures ThreadOk(after, u)
    {
      ThreadKeeps(s, step, u);
    }
  }

  lemma StepKeeps(s: State, step: Step)
    requires Inv(s) && Enabled(s, step)
    ensures Touches(s, step) && Inv(Apply(s, step))
  {
    StepIsSafe(s, step);
    ThreadsKeep(s, step);
    hide ThreadOk, UniqueKeys, NodeOk;
    if step.RefShared? { RefSharedKeeps(s, step.t); }
    else if step.RefExcl? { RefExclKeeps(s, step.t); }
    else if step.Unref? { UnrefKeeps(s, step.t); }
    else if step.DelExcl? { DelKeeps(s, step.t); }
    else if step.Destroy? { DestroyKeeps(s, step.t); }
    else if step.Exchange? || step.Free? { EndKeeps(s, step); }
    else if step.Meet? { MeetKeeps(s, step.t, step.waiter); }
    else if step.Add? { AddKeeps(s, step.a, step.key); }
    else if step.FindShared? || step.UnlockShared? || step.FindExcl? || step.UnlockExcl? { LooksKeep(s, step); }
    else { LocksKeep(s, step); }
  }

  // ---- Every run -----------------------------------------------------------------------------

  /** What the lock promises, said of the threads alone: past the wait nobody holds a reference; a
      thread that signals is alone in doing so and somebody waits for it; for a thread that waits there is
      one that holds a reference or signals, so it is never stranded; and at the end the event was
      signalled as often as it was awaited, at most once. */
  ghost predicate PromiseTo(s: State, t: Tid, n: Addr)
    requires t in s.threads
  {
    && (s.threads[t] in {Exchanging(n), Freeing(n)} ==> forall u :: u in s.threads ==> !Plays(s.threads[u], Holder, n))
    && (At(s, t, Signalling(n)) ==> exists w :: At(s, w, Waiting(n)))
    && (At(s, t, Waiting(n)) ==> exists u :: u in s.threads && (Plays(s.threads[u], Holder, n) || Plays(s.threads[u], Signaller, n)))
    && (At(s, t, Signalling(n)) ==> forall u :: At(s, u, Signalling(n)) ==> t == u)
    && (At(s, t, Freeing(n)) ==> n in s.nodes && s.nodes[n].waits == s.nodes[n].signals <= 1)
  }

  ghost predicate Promised(s: State) {
    forall t, n :: t in s.threads ==> PromiseTo(s, t, n)
  }

  /** Along the run every state keeps the promise, no step touches a freed lock, and no assertion fails. */
  ghost predicate Safe(s: State, run: seq<Step>)
    decreases |run|
  {
    && Promised(s)
    && (run != [] && Enabled(s, run[0]) ==>
          Touches(s, run[0]) && Asserts(s, run[0]) && Safe(Apply(s, run[0]), run[1..]))
  }

  lemma Members(threads: map<Tid, Pc>, role: Role, n: Addr)
    ensures Count(threads, role, n) == 0 ==> forall u :: u in threads ==> !Plays(threads[u], role, n)
    ensures Count(threads, role, n) > 0 ==> exists u :: u in threads && Plays(threads[u], role, n)
    ensures Count(threads, role, n) == 1 ==>
              forall t, u :: t in threads && u in threads && Plays(threads[t], role, n) && Plays(threads[u], role, n) ==> t == u
  {
    var team := Team(threads, role, n);
    forall u | u in threads && Plays(threads[u], role, n)
      ensures u in team
    {
    }
    if |team| == 1 {
      forall t, u | t in team && u in team
        ensures t == u
      {
        assert u !in team - {t} || |team - {t}| > 0;
      }
    }
    if team != {} {
      var u :| u in team;
    }
  }

  lemma NodePromise(s: State, t: Tid, n: Addr)
    requires Inv(s) && t in s.threads
    ensures PromiseTo(s, t, n)
  {
    hide Count;
    assert NodeOk(s.nodes, s.threads, n);
    TallyMoves(s.threads, t, Away, n);
    Members(s.threads, Holder, n);
    Members(s.threads, Signaller, n);
    Members(s.threads, Waiter, n);
    if At(s, t, Signalling(n)) {
      var w :| w in s.threads && Plays(s.threads[w], Waiter, n);
      assert At(s, w, Waiting(n));
    }
  }

  lemma InvPromises(s: State)
    requires Inv(s)
    ensures Promised(s)
  {
    hide Inv, PromiseTo;
    forall t, n | t in s.threads
      ensures PromiseTo(s, t, n)
    {
      NodePromise(s, t, n);
    }
  }

  /** For any number of threads the counter has room for, and any interleaving of their steps. */
  lemma {:induction false} EveryRunSafe(s: State, run: seq<Step>)
    requires Init(s)
    ensures Safe(s, run)
  {
    InitInv(s);
    RunSafe(s, run);
  }

  lemma {:induction false} RunSafe(s: State, run: seq<Step>)
    requires Inv(s)
    ensures Safe(s, run)
    decreases |run|
  {
    hide Inv, Promised, Asserts;
    InvPromises(s);
    if run != [] && Enabled(s, run[0]) {
      StepIsSafe(s, run[0]);
      StepKeeps(s, run[0]);
      RunSafe(Apply(s, run[0]), run[1..]);
    }
  }

  // ---- What was asked for --------------------------------------------------------------------

  ghost predicate Runs(s: State, run: seq<Step>)
    decreases |run|
  {
    run == [] || (Enabled(s, run[0]) && Touches(s, run[0]) && Runs(Apply(s, run[0]), run[1..]))
  }

  ghost function After(s: State, run: seq<Step>): State
    requires Runs(s, run)
    decreases |run|
  {
    if run == [] then s else After(Apply(s, run[0]), run[1..])
  }

  lemma Then(s: State, step: Step, rest: seq<Step>) returns (run: seq<Step>)
    requires Enabled(s, step) && Touches(s, step) && Runs(Apply(s, step), rest)
    ensures run == [step] + rest && Runs(s, run) && After(s, run) == After(Apply(s, step), rest)
  {
    run := [step] + rest;
    assert run[1..] == rest;
  }

  lemma {:induction false} RunKeeps(s: State, run: seq<Step>)
    requires Inv(s) && Runs(s, run)
    ensures Inv(After(s, run))
    decreases |run|
  {
    if run != [] {
      StepKeeps(s, run[0]);
      hide Inv, Apply, Enabled, Touches;
      RunKeeps(Apply(s, run[0]), run[1..]);
    }
  }

  /** No thread of the run takes node `n` out of the tree. */
  ghost predicate LeavesIn(s: State, run: seq<Step>, n: Addr)
    requires Runs(s, run)
    decreases |run|
  {
    run == [] || (!(run[0].DelExcl? && At(s, run[0].t, ExclFound(n))) && LeavesIn(Apply(s, run[0]), run[1..], n))
  }

  lemma StaysIn(s: State, step: Step, n: Addr)
    requires Inv(s) && Enabled(s, step) && Touches(s, step) && n in s.nodes && s.nodes[n].inTree
    requires !(step.DelExcl? && At(s, step.t, ExclFound(n)))
    ensures
      var after := Apply(s, step);
      n in after.nodes && after.nodes[n].inTree && after.nodes[n].key == s.nodes[n].key
  {
    hide NodeOk;
    if step.Free? { FreedIsOut(s, step.t); }
  }

  lemma {:induction false} StaysInTree(s: State, run: seq<Step>, n: Addr)
    requires Inv(s) && Runs(s, run) && LeavesIn(s, run, n) && n in s.nodes && s.nodes[n].inTree
    ensures
      var after := After(s, run);
      n in after.nodes && after.nodes[n].inTree && after.nodes[n].key == s.nodes[n].key && Inv(after)
    decreases |run|
  {
    if run != [] {
      StaysIn(s, run[0], n);
      StepKeeps(s, run[0]);
      hide Inv, Apply, Enabled, Touches;
      StaysInTree(Apply(s, run[0]), run[1..], n);
    }
  }

  /** A node that was added is what a lookup of its key finds, until it is deleted. */
  lemma AddedIsFound(s: State, a: Addr, key: nat, run: seq<Step>)
    requires Inv(s) && Enabled(s, Add(a, key)) && Runs(Apply(s, Add(a, key)), run)
    requires LeavesIn(Apply(s, Add(a, key)), run, a)
    ensures
      var after := After(Apply(s, Add(a, key)), run);
      forall b :: b in after.nodes && after.nodes[b].inTree && after.nodes[b].key == key <==> b == a
  {
    var added := Apply(s, Add(a, key));
    StepKeeps(s, Add(a, key));
    assert a in added.nodes && added.nodes[a].inTree && added.nodes[a].key == key;
    hide Apply, NodeOk, ThreadOk;
    StaysInTree(added, run, a);
  }

  // ---- What is bound to happen ---------------------------------------------------------------

  /** A reference is given back, by a thread that may first have to leave the tree's lock. */
  lemma GiveBack(s: State, u: Tid, n: Addr, t: Tid) returns (run: seq<Step>)
    requires Inv(s) && (At(s, u, SharedRef(n)) || At(s, u, Using(n))) && At(s, t, Waiting(n))
    ensures Runs(s, run) && Inv(After(s, run)) && At(After(s, run), t, Waiting(n))
    ensures Count(After(s, run).threads, Holder, n) < Count(s.threads, Holder, n)
  {
    run := [];
    var middle := s;
    if At(s, u, SharedRef(n)) {
      StepKeeps(s, UnlockShared(u));
      middle := Apply(s, UnlockShared(u));
      CountMoves(s.threads, u, Using(n), Holder, n);
    }
    StepKeeps(middle, Unref(u));
    var after := Apply(middle, Unref(u));
    CountMoves(middle.threads, u, after.threads[u], Holder, n);
    hide Inv, Count;
    run := Then(middle, Unref(u), []);
    if At(s, u, SharedRef(n)) {
      run := Then(s, UnlockShared(u), run);
    }
  }

  /** While a thread waits, nobody else is taking the node out, so whoever holds a reference uses it. */
  lemma HolderUses(s: State, t: Tid, n: Addr, u: Tid)
    requires Inv(s) && At(s, t, Waiting(n)) && u in s.threads && Plays(s.threads[u], Holder, n)
    ensures At(s, u, SharedRef(n)) || At(s, u, Using(n))
  {
    hide Count;
    assert NodeOk(s.nodes, s.threads, n);
    TallyMoves(s.threads, t, Away, n);
    TallyMoves(s.threads, u, Away, n);
  }

  lemma {:induction false} WaitEnds(s: State, t: Tid, n: Addr) returns (run: seq<Step>)
    requires Inv(s) && At(s, t, Waiting(n))
    ensures Runs(s, run) && Inv(After(s, run)) && At(After(s, run), t, Exchanging(n))
    decreases Count(s.threads, Holder, n)
  {
    NodePromise(s, t, n);
    var u :| u in s.threads && (Plays(s.threads[u], Holder, n) || Plays(s.threads[u], Signaller, n));
    if Plays(s.threads[u], Signaller, n) {
      StepKeeps(s, Meet(u, t));
      run := Then(s, Meet(u, t), []);
    } else {
      HolderUses(s, t, n, u);
      var first := GiveBack(s, u, n, t);
      hide Inv, Apply, Enabled, Touches, Count;
      var rest := WaitEnds(After(s, first), t, n);
      run := Joined(s, first, rest);
    }
  }

  lemma {:induction false} Joined(s: State, first: seq<Step>, second: seq<Step>) returns (run: seq<Step>)
    requires Runs(s, first) && Runs(After(s, first), second)
    ensures run == first + second && Runs(s, run) && After(s, run) == After(After(s, first), second)
    decreases |first|
  {
    if first == [] {
      run := second;
      assert first + second == second;
    } else {
      hide Apply, Enabled, Touches;
      var rest := Joined(Apply(s, first[0]), first[1..], second);
      run := Then(s, first[0], rest);
      assert first == [first[0]] + first[1..];
      assert run == first + second;
    }
  }

  /** What the thread that took the node out does next. */
  function Next(t: Tid, pc: Pc): Step {
    match pc
    case ExclDeleted(_) => RefExcl(t)
    case ExclRef(_) => UnlockExcl(t)
    case Closing(_) => Destroy(t)
    case Exchanging(_) => Exchange(t)
    case _ => Free(t)
  }

  function ToFree(pc: Pc): nat {
    match pc
    case ExclDeleted(_) => 6 case ExclRef(_) => 5 case Closing(_) => 4
    case Waiting(_) => 3 case Exchanging(_) => 2 case _ => 1
  }

  predicate Sees(pc: Pc, n: Addr) {
    pc in {ExclDeleted(n), ExclRef(n), Closing(n), Waiting(n), Exchanging(n), Freeing(n)}
  }

  lemma {:induction false} CloserFrees(s: State, t: Tid, n: Addr) returns (run: seq<Step>)
    requires Inv(s) && t in s.threads && Sees(s.threads[t], n)
    ensures Runs(s, run) && n !in After(s, run).nodes && At(After(s, run), t, Away)
    decreases ToFree(s.threads[t])
  {
    var pc := s.threads[t];
    if pc.Waiting? {
      var first := WaitEnds(s, t, n);
      var rest := CloserFrees(After(s, first), t, n);
      run := Joined(s, first, rest);
    } else {
      var step := Next(t, pc);
      StepKeeps(s, step);
      if pc.Freeing? {
        run := Then(s, step, []);
      } else {
        var rest := CloserFrees(Apply(s, step), t, n);
        run := Then(s, step, rest);
      }
    }
  }

  /** Some thread sees to the end of a node that is out of the tree. */
  lemma SomeoneSees(s: State, n: Addr) returns (t: Tid)
    requires Inv(s) && n in s.nodes && !s.nodes[n].inTree
    ensures t in s.threads && Sees(s.threads[t], n)
  {
    hide Count;
    assert NodeOk(s.nodes, s.threads, n);
    Members(s.threads, Remover, n);
    Members(s.threads, Waiter, n);
    Members(s.threads, Exchanger, n);
    Members(s.threads, Freer, n);
    assert exists u :: u in s.threads && Sees(s.threads[u], n) by {
      if u :| u in s.threads && Plays(s.threads[u], Remover, n) {
        assert Sees(s.threads[u], n);
      } else if u :| u in s.threads && Plays(s.threads[u], Waiter, n) {
        assert Sees(s.threads[u], n);
      } else if u :| u in s.threads && Plays(s.threads[u], Exchanger, n) {
        assert Sees(s.threads[u], n);
      } else {
        var u :| u in s.threads && Plays(s.threads[u], Freer, n);
        assert Sees(s.threads[u], n);
      }
    }
    t :| t in s.threads && Sees(s.threads[t], n);
  }

  /** After any run a node that has been taken out of the tree can be brought to be freed: nobody who holds a
      reference, waits or signals is stuck. */
  lemma EveryCloseEnds(s: State, run: seq<Step>, n: Addr) returns (more: seq<Step>)
    requires Init(s) && Runs(s, run) && n in After(s, run).nodes && !After(s, run).nodes[n].inTree
    ensures Runs(After(s, run), more) && n !in After(After(s, run), more).nodes
  {
    InitInv(s);
    RunKeeps(s, run);
    hide Inv, After, Runs;
    var t := SomeoneSees(After(s, run), n);
    more := CloserFrees(After(s, run), t, n);
  }
}
