/** The intrusive circular queue of wepoll.c.  A node that is in no queue points to itself. */
module IntrusiveQueue {
  import opened Collections

  class QueueNode<T> {
    var prev: QueueNode<T>
    var next: QueueNode<T>
    var owner: Option<T>  // what container_of yields; None for a queue's head

    /** queue_node_init */
    constructor ()
      ensures prev == this && next == this && owner == None
    {
      prev, next, owner := this, this, None;
    }

    /** queue_is_enqueued */
    predicate Enqueued()
      reads this
    {
      prev != this
    }
  }

  ghost function Succ(c: seq, k: nat): (j: nat)
    requires k < |c|
    ensures j < |c|
  {
    if k + 1 == |c| then 0 else k + 1
  }

  /** The nodes of `c`, in this order, form one cycle. */
  ghost predicate Cycle<T>(c: seq<QueueNode<T>>)
    reads (set n | n in c)`prev, (set n | n in c)`next
  {
    && (forall j, k :: 0 <= j < k < |c| ==> c[j] != c[k])
    && (forall k :: 0 <= k < |c| ==> c[k].next == c[Succ(c, k)] && c[Succ(c, k)].prev == c[k])
  }

  class Queue<T> {
    const head: QueueNode<T>
    ghost var items: seq<QueueNode<T>>

    ghost function Ring(): seq<QueueNode<T>>
      reads this`items
    {
      [head] + items
    }

    ghost function Members(): set<QueueNode<T>>
      reads this`items
    {
      set n | n in Ring()
    }

    ghost predicate Valid()
      reads this`items, Members()`prev, Members()`next
    {
      Cycle(Ring())
    }

    /** queue_init */
    constructor ()
      ensures Valid() && items == [] && fresh(head)
    {
      head := new QueueNode<T>();
      items := [];
    }

    /** queue_is_empty */
    method IsEmpty() returns (r: bool)
      requires Valid()
      ensures r <==> items == []
    {
      assert Ring()[Succ(Ring(), |items|)] == head;
      r := !head.Enqueued();
    }

    /** queue_first */
    method First() returns (r: QueueNode?<T>)
      requires Valid()
      ensures r == if items == [] then null else items[0]
    {
      assert Ring()[Succ(Ring(), 0)] == if items == [] then head else items[0];
      var empty := IsEmpty();
      r := if !empty then head.next else null;
    }

    /** queue_last */
    method Last() returns (r: QueueNode?<T>)
      requires Valid()
      ensures r == if items == [] then null else items[|items| - 1]
    {
      assert Ring()[Succ(Ring(), |items|)] == head;
      var empty := IsEmpty();
      r := if !empty then head.prev else null;
    }

    /** queue_prepend */
    method Prepend(node: QueueNode<T>)
      requires Valid() && node !in Ring()
      modifies this`items, Members()`prev, Members()`next, node`prev, node`next
      ensures Valid() && items == [node] + old(items)
    {
      ghost var c := Ring();
      assert c[0].next == c[Succ(c, 0)];
      assert c[Succ(c, |items|)] == head;
      node.next := head.next;
      node.prev := head;
      node.next.prev := node;
      head.next := node;
      items := [node] + items;
      ghost var c' := Ring();
      assert forall k :: 2 <= k < |c'| ==> c'[k] == c[k - 1];
    }

    /** queue_append */
    method Append(node: QueueNode<T>)
      requires Valid() && node !in Ring()
      modifies this`items, Members()`prev, Members()`next, node`prev, node`next
      ensures Valid() && items == old(items) + [node]
    {
      ghost var c := Ring();
      assert c[Succ(c, |items|)] == head && head.prev == c[|items|];
      node.next := head;
      node.prev := head.prev;
      node.prev.next := node;
      head.prev := node;
      items := items + [node];
      ghost var c' := Ring();
      assert c' == c + [node];
    }

    /** queue__detach_node: `node` is item `k`; its own links are left as they are. */
    method Detach(node: QueueNode<T>, ghost k: nat)
      requires Valid() && k < |items| && items[k] == node
      modifies this`items, Members()`prev, Members()`next
      ensures Valid() && items == old(items[..k] + items[k + 1..]) && node !in Ring()
      ensures node.prev == old(node.prev) && node.next == old(node.next)
    {
      ghost var c := Ring();
      ghost var after := Succ(c, k + 1);
      assert c[k + 1] == node && c[Succ(c, k)] == node;
      assert node.prev == c[k] && node.next == c[after];
      node.prev.next := node.next;
      node.next.prev := node.prev;
      items := items[..k] + items[k + 1..];
      ghost var c' := Ring();
      assert forall j :: 0 <= j <= k ==> c'[j] == c[j];
      assert forall j :: k < j < |c'| ==> c'[j] == c[j + 1];
      assert c'[Succ(c', k)] == c[after];
      forall j | 0 <= j < |c'|
        ensures c'[j].next == c'[Succ(c', j)] && c'[Succ(c', j)].prev == c'[j]
      {
        if j < k {
          assert c[j].next == c[Succ(c, j)] && c[Succ(c, j)].prev == c[j];
        } else if j > k {
          assert c[j + 1].next == c[Succ(c, j + 1)] && c[Succ(c, j + 1)].prev == c[j + 1];
        }
      }
    }

    /** queue_move_to_start */
    method MoveToStart(node: QueueNode<T>, ghost k: nat)
      requires Valid() && k < |items| && items[k] == node
      modifies this`items, Members()`prev, Members()`next
      ensures Valid() && items == [node] + old(items[..k] + items[k + 1..])
    {
      assert Ring()[k + 1] == node;
      Detach(node, k);
      assert Members() <= old(Members());
      Prepend(node);
    }

    /** queue_move_to_end */
    method MoveToEnd(node: QueueNode<T>, ghost k: nat)
      requires Valid() && k < |items| && items[k] == node
      modifies this`items, Members()`prev, Members()`next
      ensures Valid() && items == old(items[..k] + items[k + 1..]) + [node]
    {
      assert Ring()[k + 1] == node;
      Detach(node, k);
      assert Members() <= old(Members());
      Append(node);
    }

    /** queue_remove */
    method Remove(node: QueueNode<T>, ghost k: nat)
      requires Valid() && k < |items| && items[k] == node
      modifies this`items, Members()`prev, Members()`next
      ensures Valid() && items == old(items[..k] + items[k + 1..]) && !node.Enqueued()
    {
      assert Ring()[k + 1] == node;
      Detach(node, k);
      assert Members() <= old(Members());
      node.prev, node.next := node, node;
    }

    /** A node that belongs to this queue reports being enqueued. */
    lemma MembersEnqueued()
      requires Valid()
      ensures forall k :: 0 <= k < |items| ==> items[k].Enqueued()
    {
      var c := Ring();
      forall k | 0 <= k < |items|
        ensures items[k].Enqueued()
      {
        assert c[Succ(c, k)] == items[k] && c[k] != items[k];
      }
    }
  }
}
