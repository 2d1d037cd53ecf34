/** The connection manager's table: connection slots, the ids in use behind a shared pointer that is
    copied before it is changed, and the ids that are free again. */
module ConnectionTable {
  import opened Collections

  type Id = int

  const INVALID_ID: Id := -1

  /** A connection in its slot: the id it was given last, and whether it outlives its removal. */
  datatype Slot = Slot(id: Id, keepAlive: bool)

  /** A set of ids behind a shared pointer; `owners` is the pointer's use count. */
  class IdSet {
    var ids: set<Id>
    var owners: nat

    constructor (ids: set<Id>)
      ensures this.ids == ids && owners == 1
    {
      this.ids, owners := ids, 1;
    }
  }

  /** The ids in use and the free ones are all the ids given out so far, and each has a slot. */
  ghost predicate Partition(ids: set<Id>, freeIds: set<Id>, maxId: Id, maxCount: nat, list: seq<Slot>) {
    && ids !! freeIds && (forall i :: i in ids || i in freeIds <==> 1 <= i <= maxId)
    && 0 <= maxId <= maxCount && maxId <= |list|
    && (forall i :: i in ids ==> 1 <= i <= |list| && list[i - 1].id == i)
  }

  lemma Reuse(ids: set<Id>, freeIds: set<Id>, maxId: Id, maxCount: nat, list: seq<Slot>, id: Id)
    requires Partition(ids, freeIds, maxId, maxCount, list) && id in freeIds
    ensures 1 <= id <= maxId <= |list| && id !in ids
    ensures Partition(ids + {id}, freeIds - {id}, maxId, maxCount, list[id - 1 := list[id - 1].(id := id)])
  {
  }

  lemma Extend(ids: set<Id>, maxId: Id, maxCount: nat, list: seq<Slot>)
    requires Partition(ids, {}, maxId, maxCount, list) && maxId < maxCount
    ensures
      var id := maxId + 1;
      var grown := if id > |list| then list + [Slot(INVALID_ID, false)] else list;
      id !in ids && id <= |grown| && Partition(ids + {id}, {}, id, maxCount, grown[id - 1 := grown[id - 1].(id := id)])
  {
  }

  lemma Release(ids: set<Id>, freeIds: set<Id>, maxId: Id, maxCount: nat, list: seq<Slot>, id: Id)
    requires Partition(ids, freeIds, maxId, maxCount, list) && 1 <= id <= maxId
    ensures Partition(ids - {id}, freeIds + {id}, maxId, maxCount, list)
  {
  }

  class Table {
    const maxCount: nat
    var list: seq<Slot>
    var current: IdSet
    var freeIds: set<Id>
    var size: nat
    var maxId: Id
    ghost var held: multiset<IdSet>   // snapshots that broadcast() and foreach() hold

    ghost predicate Counted(s: IdSet)
      reads this`current, this`held, s`owners
    {
      s.owners == held[s] + (if s == current then 1 else 0)
    }

    /** The use counts are right. */
    ghost predicate Shared()
      reads this`current, this`held, current, held
    {
      Counted(current) && forall s :: s in held ==> Counted(s)
    }

    ghost predicate Valid()
      reads this, current, held
    {
      Partition(current.ids, freeIds, maxId, maxCount, list) && Shared()
    }

    /** init_connections */
    constructor (defaultCount: nat, maxCount: nat)
      requires defaultCount <= maxCount
      ensures Valid() && this.maxCount == maxCount && fresh(current)
      ensures current.ids == {} && freeIds == {} && size == 0 && held == multiset{} && maxId == 0
      ensures |list| == defaultCount && forall k :: 0 <= k < |list| ==> !list[k].keepAlive
    {
      this.maxCount := maxCount;
      list := seq(defaultCount, i => Slot(INVALID_ID, false));
      current := new IdSet({});
      freeIds, size, maxId, held := {}, 0, 0, multiset{};
    }

    predicate IsFull()
      reads this`freeIds, this`maxId
    {
      freeIds == {} && maxId != INVALID_ID && maxId >= maxCount
    }

    /** A table is full exactly when all the ids it may give out are in use. */
    lemma FullExactly()
      requires Valid()
      ensures IsFull() <==> forall i :: i in current.ids <==> 1 <= i <= maxCount
    {
      var ids := current.ids;
      if forall i :: i in ids <==> 1 <= i <= maxCount {
        assert maxCount > 0 ==> maxCount in ids;
        assert forall i :: i in freeIds ==> i in ids;
        assert freeIds == {};
      }
    }

    /** Changing the ids: they are copied first if anybody else holds them. */
    method Change(ids: set<Id>)
      requires Shared()
      modifies this`current, current
      ensures Shared() && current.ids == ids && (current == old(current) || fresh(current))
      ensures fresh(current) <==> old(current.owners) > 1
      ensures forall s :: s in held ==> s.ids == old(s.ids)
    {
      if current.owners > 1 {
        var copy := new IdSet(current.ids);
        current.owners := current.owners - 1;
        current := copy;
      }
      current.ids := ids;
    }

    /** The least free id, or the next new one, and its slot. */
    method Allocate() returns (id: Id)
      requires Partition(current.ids, freeIds, maxId, maxCount, list) && !IsFull()
      modifies this`list, this`freeIds, this`maxId
      ensures Partition(current.ids + {id}, freeIds, maxId, maxCount, list)
      ensures freeIds <= old(freeIds) && maxId >= old(maxId) && |list| == (if id > old(|list|) then id else old(|list|))
      ensures forall k :: 0 <= k < |list| ==> list[k].keepAlive == (k < old(|list|) && old(list[k].keepAlive))
      ensures id !in current.ids && 1 <= id <= maxCount && id <= |list| && list[id - 1].id == id
      ensures old(freeIds) != {} ==> id in old(freeIds) && maxId == old(maxId) && forall x :: x in old(freeIds) ==> id <= x
      ensures old(freeIds) == {} ==> id == maxId == old(maxId) + 1
    {
      if freeIds != {} {
        id := Least(freeIds);
        Reuse(current.ids, freeIds, maxId, maxCount, list, id);
        freeIds := freeIds - {id};
      } else {
        Extend(current.ids, maxId, maxCount, list);
        maxId := maxId + 1;
        id := maxId;
        if id > |list| {
          list := list + [Slot(INVALID_ID, false)];
        }
      }
      list := list[id - 1 := list[id - 1].(id := id)];
    }

    /** new_conn: an id nobody uses, or nothing when the table is full. */
    method NewConn() returns (r: Option<Id>)
      requires Valid()
      modifies this`current, this`list, this`freeIds, this`size, this`maxId, current
      ensures Valid() && (current == old(current) || fresh(current))
      ensures r.None? <==> old(IsFull())
      ensures r.None? ==> current.ids == old(current.ids) && size == old(size)
      ensures freeIds <= old(freeIds) && maxId >= old(maxId)
      ensures |list| == if r.Some? && r.value > old(|list|) then r.value else old(|list|)
      ensures forall k :: 0 <= k < |list| ==> list[k].keepAlive == (k < old(|list|) && old(list[k].keepAlive))
      ensures r.Some? && old(freeIds) == {} ==> r.value == maxId == old(maxId) + 1
      ensures r.Some? ==> r.value !in old(current.ids) && 1 <= r.value <= maxCount
                          && current.ids == old(current.ids) + {r.value} && size == old(size) + 1
      ensures forall s :: s in held ==> s.ids == old(s.ids)
    {
      if IsFull() { return None; }
      var id := Allocate();
      hide Partition, Counted;
      size := size + 1;
      Change(current.ids + {id});
      r := Some(id);
    }

    /** remove.  The id of a connection that is kept alive stays in use. */
    method Remove(id: Id)
      requires Valid() && id != INVALID_ID
      modifies this`current, this`freeIds, this`size, current
      ensures Valid() && (current == old(current) || fresh(current))
      ensures var gone := 1 <= id <= maxId && !list[id - 1].keepAlive;
              && current.ids == (if gone then old(current.ids) - {id} else old(current.ids))
              && freeIds == (if gone then old(freeIds) + {id} else old(freeIds))
              && size == if gone && old(size) > 0 then old(size) - 1 else old(size)
      // the manager waits for work while its count is zero; a removal keeps the count right exactly if
      // it returns early, or the id is in use, or none is
      ensures old(size) == |old(current.ids)| ==>
                (size == |current.ids|
                 <==> !(1 <= id <= maxId && !list[id - 1].keepAlive) || id in old(current.ids) || old(current.ids) == {})
      ensures forall s :: s in held ==> s.ids == old(s.ids)
    {
      if id <= 0 || id > maxId { return; }
      if list[id - 1].keepAlive { return; }
      if size == |current.ids| { CountAfterRemove(current.ids, size, id); }
      Free(id);
    }

    /** The rest of remove, for an id that is given up, whether it is in use or not. */
    method Free(id: Id)
      requires Valid() && 1 <= id <= maxId
      modifies this`current, this`freeIds, this`size, current
      ensures Valid() && (current == old(current) || fresh(current))
      ensures current.ids == old(current.ids) - {id} && freeIds == old(freeIds) + {id}
      ensures size == if old(size) > 0 then old(size) - 1 else 0
      ensures forall s :: s in held ==> s.ids == old(s.ids)
    {
      Release(current.ids, freeIds, maxId, maxCount, list, id);
      hide Partition, Counted;
      freeIds := freeIds + {id};
      if size > 0 {
        size := size - 1;
      }
      Change(current.ids - {id});
    }

    /** What broadcast and foreach walk over. */
    method Snapshot() returns (s: IdSet)
      requires Valid()
      modifies this`held, current`owners
      ensures Valid() && s == current && s.ids == current.ids == old(current.ids) && held == old(held) + multiset{s}
    {
      s := current;
      s.owners := s.owners + 1;
      held := held + multiset{s};
    }

    method Drop(s: IdSet)
      requires Valid() && s in held
      modifies this`held, s`owners
      ensures Valid() && held == old(held) - multiset{s}
    {
      s.owners := s.owners - 1;
      held := held - multiset{s};
    }
  }

  /** What taking one off the count does to its agreement with the ids. */
  lemma CountAfterRemove(ids: set<Id>, size: nat, id: Id)
    requires size == |ids|
    ensures (if size > 0 then size - 1 else size) == |ids - {id}| <==> id in ids || ids == {}
  {
    if id !in ids {
      assert ids - {id} == ids;
    }
  }

  /** Removing a connection twice makes the count wrong: it says none, but one is in use. */
  method CountGoesWrong() returns (t: Table)
    ensures t.Valid() && t.size == 0 && |t.current.ids| == 1
  {
    t := TwoConnections();
    hide Partition, Table.Shared;
    t.Remove(1);
    assert t.current.ids == {2};
    t.Remove(1);
    assert t.current.ids == {2};
  }

  method TwoConnections() returns (t: Table)
    ensures t.Valid() && fresh(t) && fresh(t.current)
    ensures t.current.ids == {1, 2} && t.size == 2 && t.maxId == 2 && !t.list[0].keepAlive
  {
    hide Partition, Table.Shared;
    t := new Table(2, 2);
    var a := t.NewConn();
    assert a == Some(1) && t.freeIds == {};
    var b := t.NewConn();
    assert b == Some(2) && t.current.ids == {1, 2};
  }

  lemma Member<T>(s: set<T>) returns (x: T)
    requires s != {}
    ensures x in s
  {
    x :| x in s;
  }

  /** The first of the free ids. */
  method Least(s: set<Id>) returns (m: Id)
    requires s != {}
    ensures m in s && forall x :: x in s ==> m <= x
  {
    ghost var some := Member(s);
    m :| m in s;
    var rest := s - {m};
    while rest != {}
      invariant m in s && rest <= s && forall x :: x in s && x !in rest ==> m <= x
      decreases rest
    {
      ghost var other := Member(rest);
      var x :| x in rest;
      if x < m { m := x; }
      rest := rest - {x};
    }
  }
}
