/** The pool of poll groups: each group serves at most 32 sockets, and the queue keeps the
    full groups in front so that its last group has room whenever any group has. */
module PollGroups {
  import opened Collections
  import opened IntrusiveQueue

  const MAX_GROUP_SIZE: nat := 32

  class PollGroup {
    const queueNode: QueueNode<PollGroup>
    var groupSize: nat

    constructor ()
      ensures groupSize == 0 && fresh(queueNode) && !queueNode.Enqueued() && queueNode.owner == Some(this)
    {
      queueNode := new QueueNode<PollGroup>();
      groupSize := 0;
      new;
      queueNode.owner := Some(this);
    }
  }

  // The order of the groups, in terms of the acquisitions they still serve.

  ghost predicate Full(held: multiset<PollGroup>, g: PollGroup) {
    held[g] >= 32
  }

  ghost predicate AllFull(held: multiset<PollGroup>, groups: seq<PollGroup>) {
    forall g :: g in groups ==> Full(held, g)
  }

  /** No group serves more than 32, and all full groups come before all others. */
  ghost predicate FullFirst(held: multiset<PollGroup>, groups: seq<PollGroup>) {
    && (forall g :: g in groups ==> held[g] <= 32)
    && (forall j, k :: 0 <= j < k < |groups| && Full(held, groups[k]) ==> Full(held, groups[j]))
  }

  /** If the last group is full, so are all. */
  lemma LastFull(held: multiset<PollGroup>, groups: seq<PollGroup>)
    requires FullFirst(held, groups) && |groups| > 0
    ensures Full(held, groups[|groups| - 1]) <==> AllFull(held, groups)
  {
    var n := |groups| - 1;
    if Full(held, groups[n]) {
      forall g | g in groups
        ensures Full(held, g)
      {
        var k :| 0 <= k < |groups| && groups[k] == g;
      }
    }
  }

  lemma AppendKeeps(held: multiset<PollGroup>, groups: seq<PollGroup>, g: PollGroup)
    requires FullFirst(held, groups) && AllFull(held, groups) && held[g] == 0
    ensures FullFirst(held, groups + [g])
  {
  }

  lemma TakeKeeps(held: multiset<PollGroup>, groups: seq<PollGroup>)
    requires FullFirst(held, groups) && Distinct(groups) && |groups| > 0 && !Full(held, groups[|groups| - 1])
    ensures
      var n := |groups| - 1;
      var (g, h) := (groups[n], held + multiset{groups[n]});
      FullFirst(h, if Full(h, g) then [g] + Without(groups, n) else groups)
  {
    var n := |groups| - 1;
    var (g, h) := (groups[n], held + multiset{groups[n]});
    var after := [g] + Without(groups, n);
    assert forall k :: 0 < k < |after| ==> after[k] == groups[k - 1];
  }

  lemma ReleaseKeeps(held: multiset<PollGroup>, groups: seq<PollGroup>, k: nat)
    requires FullFirst(held, groups) && Distinct(groups) && k < |groups| && held[groups[k]] > 0
    ensures FullFirst(held - multiset{groups[k]}, Without(groups, k) + [groups[k]])
  {
    var h := held - multiset{groups[k]};
    var after := Without(groups, k) + [groups[k]];
    assert forall j :: 0 <= j < |groups| - 1 ==> after[j] == groups[if j < k then j else j + 1];
    assert forall j :: 0 <= j < |groups| - 1 ==> h[after[j]] == held[after[j]];
    WithoutSame(groups, k);
  }

  ghost function Without<T>(s: seq<T>, k: nat): seq<T>
    requires k < |s|
  {
    s[..k] + s[k + 1..]
  }

  lemma WithoutSame<T>(s: seq<T>, k: nat)
    requires k < |s|
    ensures multiset(Without(s, k)) + multiset{s[k]} == multiset(s)
    ensures forall x :: x in s <==> x in Without(s, k) || x == s[k]
  {
    assert s == s[..k] + [s[k]] + s[k + 1..];
  }

  ghost function Nodes(groups: seq<PollGroup>): (s: seq<QueueNode<PollGroup>>)
    ensures |s| == |groups| && forall k :: 0 <= k < |s| ==> s[k] == groups[k].queueNode
  {
    seq(|groups|, k requires 0 <= k < |groups| => groups[k].queueNode)
  }

  /** container_of finds each group from its node. */
  ghost predicate Owned(groups: seq<PollGroup>)
    reads (set g | g in groups :: g.queueNode)`owner
  {
    forall g :: g in groups ==> g.queueNode.owner == Some(g)
  }

  lemma NodesMoved(groups: seq<PollGroup>, k: nat)
    requires k < |groups|
    ensures Nodes(Without(groups, k)) == Without(Nodes(groups), k)
    ensures Nodes([groups[k]] + Without(groups, k)) == [groups[k].queueNode] + Without(Nodes(groups), k)
    ensures Nodes(Without(groups, k) + [groups[k]]) == Without(Nodes(groups), k) + [groups[k].queueNode]
  {
  }

  class Pool {
    const queue: Queue<PollGroup>
    ghost var groups: seq<PollGroup>
    ghost var held: multiset<PollGroup>  // acquisitions not yet released

    /** The queue links the groups, in this order. */
    ghost predicate Linked()
      reads this`groups, queue`items, queue.Members()`prev, queue.Members()`next, (set g | g in groups :: g.queueNode)`owner
    {
      queue.Valid() && Nodes(groups) == queue.items && Owned(groups)
    }

    /** Each group's size is the number of acquisitions it still serves. */
    ghost predicate Accounted()
      reads this`groups, this`held, (set g | g in groups)`groupSize
    {
      (forall g :: g in groups ==> g.groupSize == held[g]) && (forall g :: g in held ==> g in groups)
    }

    ghost predicate Valid()
      reads this, queue, queue.Members(), (set g | g in groups), (set g | g in groups :: g.queueNode)
    {
      Linked() && FullFirst(held, groups) && Accounted()
    }

    constructor ()
      ensures Valid() && groups == [] && held == multiset{} && fresh(queue) && fresh(queue.Members())
    {
      queue := new Queue<PollGroup>();
      groups, held := [], multiset{};
    }

    method AppendNew() returns (group: PollGroup)
      requires Linked()
      modifies this`groups, queue`items, queue.Members()`prev, queue.Members()`next
      ensures Linked() && fresh(group) && group.groupSize == 0 && groups == old(groups) + [group]
      ensures fresh(queue.Members() - old(queue.Members()))
    {
      hide Cycle;
      group := new PollGroup();
      queue.Append(group.queueNode);
      groups := groups + [group];
      assert Nodes(groups) == Nodes(old(groups)) + [group.queueNode];
    }

    method MoveFirst(group: PollGroup, ghost k: nat)
      requires Linked() && k < |groups| && groups[k] == group
      modifies this`groups, queue`items, queue.Members()`prev, queue.Members()`next
      ensures Linked() && groups == [group] + Without(old(groups), k)
    {
      hide Cycle;
      NodesMoved(groups, k);
      WithoutSame(groups, k);
      queue.MoveToStart(group.queueNode, k);
      groups := [group] + Without(groups, k);
    }

    method MoveLast(group: PollGroup, ghost k: nat)
      requires Linked() && k < |groups| && groups[k] == group
      modifies this`groups, queue`items, queue.Members()`prev, queue.Members()`next
      ensures Linked() && groups == Without(old(groups), k) + [group]
    {
      hide Cycle;
      NodesMoved(groups, k);
      WithoutSame(groups, k);
      queue.MoveToEnd(group.queueNode, k);
      groups := Without(groups, k) + [group];
    }

    /** No group is linked twice. */
    lemma LinkedDistinct()
      requires Linked()
      ensures Distinct(groups)
    {
      var (c, nodes) := (queue.Ring(), Nodes(groups));
      forall j, k | 0 <= j < k < |groups|
        ensures groups[j] != groups[k]
      {
        assert c[j + 1] == nodes[j] && c[k + 1] == nodes[k] && c[j + 1] != c[k + 1];
      }
    }

    method Count(group: PollGroup)
      requires Accounted() && group in groups
      modifies this`held, group`groupSize
      ensures Accounted() && held == old(held) + multiset{group}
    {
      group.groupSize := group.groupSize + 1;
      held := held + multiset{group};
    }

    method Uncount(group: PollGroup)
      requires Accounted() && held[group] > 0
      modifies this`held, group`groupSize
      ensures Accounted() && held == old(held) - multiset{group} && group.groupSize == held[group]
    {
      assert group in held;
      group.groupSize := group.groupSize - 1;
      held := held - multiset{group};
    }

    /** Put a group in front if it has become full. */
    method Settle(group: PollGroup)
      requires Linked() && Accounted() && |groups| > 0 && groups[|groups| - 1] == group
      modifies this`groups, queue`items, queue.Members()`prev, queue.Members()`next
      ensures Linked() && Accounted() && multiset(groups) == multiset(old(groups))
      ensures groups == if held[group] == 32 then [group] + Without(old(groups), |old(groups)| - 1) else old(groups)
    {
      hide Linked;
      WithoutSame(groups, |groups| - 1);
      if group.groupSize == MAX_GROUP_SIZE {
        MoveFirst(group, |groups| - 1);
      }
    }

    /** Count one more acquisition of the last group, and move the group if that fills it. */
    method Take(group: PollGroup)
      requires Valid() && |groups| > 0 && groups[|groups| - 1] == group && !Full(held, group)
      modifies this`groups, this`held, queue`items, queue.Members()`prev, queue.Members()`next, group`groupSize
      ensures Valid() && held == old(held) + multiset{group} && multiset(groups) == multiset(old(groups))
    {
      hide Accounted, Nodes, Owned;
      LinkedDistinct();
      TakeKeeps(held, groups);
      hide FullFirst, Linked, Distinct, Without;
      Count(group);
      Settle(group);
    }

    /** poll_group__new */
    method NewGroup() returns (group: PollGroup)
      requires Valid() && AllFull(held, groups)
      modifies this`groups, queue`items, queue.Members()`prev, queue.Members()`next
      ensures Valid() && fresh(group) && held[group] == 0 && groups == old(groups) + [group]
      ensures fresh(queue.Members() - old(queue.Members()))
    {
      group := AppendNew();
      assert held[group] == 0;
      AppendKeeps(held, old(groups), group);
    }

    /** poll_group_acquire; `allocOk` says whether memory and the AFD handle for a new group could be had. */
    method Acquire(allocOk: bool) returns (group: PollGroup?)
      requires Valid()
      modifies this`groups, this`held, queue`items, queue.Members()`prev, queue.Members()`next, (set g | g in groups)`groupSize
      ensures Valid()
      ensures group == null <==> !allocOk && old(AllFull(held, groups))
      ensures group == null ==> groups == old(groups) && held == old(held)
      ensures group != null ==> held == old(held) + multiset{group}
      ensures group != null ==> (fresh(group) <==> old(AllFull(held, groups)))
      ensures group != null ==>
        multiset(groups) == multiset(old(groups)) + if old(AllFull(held, groups)) then multiset{group} else multiset{}
    {
      group := WithRoom();
      hide Linked, FullFirst, Nodes, Owned;
      if group == null {
        if !allocOk {
          return null;
        }
        group := NewGroup();
      }
      Take(group);
    }

    /** The last group, if it has room; if it has none, no group has. */
    method WithRoom() returns (group: PollGroup?)
      requires Valid()
      ensures group == null <==> AllFull(held, groups)
      ensures group != null ==> |groups| > 0 && groups[|groups| - 1] == group && !Full(held, group)
    {
      var last := queue.Last();
      if last == null { return null; }
      LastFull(held, groups);
      assert last == Nodes(groups)[|groups| - 1];
      hide Linked, FullFirst, Nodes;
      group := last.owner.value;
      if group.groupSize >= MAX_GROUP_SIZE {
        group := null;
      }
    }

    method SettleReleased(group: PollGroup, ghost k: nat)
      requires Linked() && Accounted() && k < |groups| && groups[k] == group
      modifies this`groups, queue`items, queue.Members()`prev, queue.Members()`next
      ensures Linked() && Accounted() && multiset(groups) == multiset(old(groups))
      ensures groups == Without(old(groups), k) + [group]
    {
      hide Linked;
      WithoutSame(groups, k);
      MoveLast(group, k);
    }

    lemma ReleaseReady(group: PollGroup) returns (k: nat)
      requires Valid() && held[group] > 0
      ensures k < |groups| && groups[k] == group && held[group] <= 32
      ensures FullFirst(held - multiset{group}, Without(groups, k) + [group])
    {
      assert group in held;
      k :| 0 <= k < |groups| && groups[k] == group;
      LinkedDistinct();
      ReleaseKeeps(held, groups, k);
    }

    /** poll_group_release */
    method Release(group: PollGroup)
      requires Valid() && held[group] > 0
      modifies this`groups, this`held, queue`items, queue.Members()`prev, queue.Members()`next, group`groupSize
      ensures Valid() && held == old(held) - multiset{group} && multiset(groups) == multiset(old(groups))
      ensures group.groupSize < 32
    {
      hide FullFirst, Linked, Distinct, Accounted;
      ghost var k := ReleaseReady(group);
      Uncount(group);
      SettleReleased(group, k);
    }
  }
}
