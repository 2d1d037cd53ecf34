/** The ring buffer: two counters, a size and a mask over a storage that a fixed ring keeps and a
    dynamic one enlarges. */
module Ring {
  import opened Collections
  import opened RingIndex

  /** `counter & mask_`, for a mask of low bits. */
  function Masked(counter: nat, mask: nat): nat {
    counter % (mask + 1)
  }

  /** The value of a std::size_t counter. */
  function Wrap(x: nat): (r: nat)
    ensures r < WRAP
    ensures x < WRAP ==> r == x
  {
    x % WRAP
  }

  /** Subtraction of std::size_t values. */
  function Distance(head: nat, tail: nat): (r: nat)
    ensures r < WRAP
  {
    (head - tail) % WRAP
  }

  /** What the counters designate in a storage. */
  function View<T>(storage: seq<T>, tail: nat, n: nat, size: nat): (r: seq<T>)
    requires 0 < size <= |storage|
    ensures |r| == n
  {
    seq(n, i requires 0 <= i => storage[Place(tail, i, size)])
  }

  /** std::vector::resize to a greater size. */
  function Enlarged<T>(storage: seq<T>, size: nat, zero: T): (r: seq<T>)
    ensures |storage| <= size ==> |r| == size
    ensures |storage| <= size ==> forall k :: 0 <= k < size ==> r[k] == if k < |storage| then storage[k] else zero
  {
    if |storage| <= size then storage + seq(size - |storage|, i => zero) else storage[..size]
  }

  /** The contents as they are after the storage has been enlarged. */
  function Grown<T>(storage: seq<T>, tail: nat, n: nat, to: nat, zero: T): (r: seq<T>)
    requires |storage| <= to && 0 < to
    ensures |r| == n
  {
    View(Enlarged(storage, to, zero), tail, n, to)
  }

  // ---- Growth ----------------------------------------------------------------------------------

  /** A place that does not change when the size does is one within the old storage. */
  lemma SamePlace(x: nat, size: nat, grown: nat)
    requires size > 0 && grown > 0 && grown % size == 0
    ensures x % grown < size ==> x % size == x % grown
  {
    var y, c := x % grown, grown / size;
    if y < size {
      assert x == x / grown * grown + y && grown == c * size;
      assert x / grown * (c * size) == (x / grown * c) * size;
      ModIs(x, x / grown * c, y, size);
    }
  }

  /** The elements lie within the old storage, in a row. */
  predicate Unwrapped(tail: nat, n: nat, size: nat, grown: nat)
    requires grown > 0
  {
    n == 0 || tail % grown + n <= size
  }

  lemma PlaceInRow(tail: nat, i: nat, grown: nat)
    requires grown > 0 && tail % grown + i < grown
    ensures Place(tail, i, grown) == tail % grown + i
  {
    ModIs(tail + i, tail / grown, tail % grown + i, grown);
  }

  /** Enlarging the storage keeps the contents if they lie in a row in it. */
  lemma GrowthKeeps<T>(storage: seq<T>, tail: nat, n: nat, size: nat, grown: nat, zero: T)
    requires 0 < size == |storage| < grown && Divides(size, grown) && Unwrapped(tail, n, size, grown)
    ensures Grown(storage, tail, n, grown, zero) == View(storage, tail, n, size)
  {
    forall i | 0 <= i < n
      ensures Place(tail, i, grown) < size && Place(tail, i, size) == Place(tail, i, grown)
    {
      PlaceInRow(tail, i, grown);
      SamePlace(tail + i, size, grown);
    }
  }

  /** Otherwise there is a storage whose contents it does not keep. */
  lemma GrowthLoses(tail: nat, n: nat, size: nat, grown: nat) returns (storage: seq<int>)
    requires 0 < size < grown && n <= size && grown >= 2 * size && !Unwrapped(tail, n, size, grown)
    ensures |storage| == size && Grown(storage, tail, n, grown, 0) != View(storage, tail, n, size)
  {
    storage := seq(size, i => 1);
    var r := tail % grown;
    var i := if r >= size then 0 else size - r;
    PlaceInRow(tail, i, grown);
    assert Grown(storage, tail, n, grown, 0)[i] == 0;
    assert View(storage, tail, n, size)[i] == 1;
  }

  /** Growth keeps all that can be in the ring exactly when it lies in a row in the old storage. */
  lemma GrowthExact(tail: nat, n: nat, size: nat, grown: nat)
    requires 0 < size < grown && n <= size && grown >= 2 * size && grown % size == 0
    ensures Unwrapped(tail, n, size, grown)
            <==> forall storage: seq<int> :: |storage| == size ==>
                   Grown(storage, tail, n, grown, 0) == View(storage, tail, n, size)
  {
    if Unwrapped(tail, n, size, grown) {
      forall storage: seq<int> | |storage| == size
        ensures Grown(storage, tail, n, grown, 0) == View(storage, tail, n, size)
      {
        GrowthKeeps(storage, tail, n, size, grown, 0);
      }
    } else {
      var storage := GrowthLoses(tail, n, size, grown);
    }
  }

  // ---- Putting one element behind the others ---------------------------------------------------

  lemma ViewPut<T>(storage: seq<T>, tail: nat, n: nat, size: nat, x: T)
    requires 0 < size <= |storage| && n < size
    ensures View(storage[Place(tail, n, size) := x], tail, n + 1, size) == View(storage, tail, n, size) + [x]
  {
    forall i | 0 <= i < n
      ensures Place(tail, i, size) != Place(tail, n, size)
    {
      PlacesDiffer(tail, i, n, size);
    }
  }

  lemma ViewDrop<T>(storage: seq<T>, tail: nat, n: nat, k: nat, size: nat)
    requires 0 < size <= |storage| && k <= n
    ensures View(storage, tail + k, n - k, size) == View(storage, tail, n, size)[k..]
  {
    var base := tail + k;
    assert forall i :: 0 <= i < n - k ==> Place(base, i, size) == Place(tail, k + i, size);
  }

  /** A wrapped counter designates the same contents. */
  lemma ViewWrap<T>(storage: seq<T>, tail: nat, n: nat, size: nat, log: nat)
    requires Capacity(size, log) && size <= |storage|
    ensures View(storage, Wrap(tail), n, size) == View(storage, tail, n, size)
  {
    forall i | 0 <= i < n
      ensures Place(Wrap(tail), i, size) == Place(tail, i, size)
    {
      WrapPlus(tail, i, size, log);
    }
  }

  lemma Multiple(y: nat, q: nat, c: nat, size: nat)
    requires size > 0
    ensures (q * (c * size) + y) % size == y % size
  {
    assert y == y / size * size + y % size;
    assert q * (c * size) == (q * c) * size;
    assert (q * c) * size + y / size * size == (q * c + y / size) * size;
    ModIs(q * (c * size) + y, q * c + y / size, y % size, size);
  }

  lemma WrapPlus(x: nat, i: nat, size: nat, log: nat)
    requires Capacity(size, log)
    ensures (x % WRAP + i) % size == (x + i) % size
  {
    WrapIs64();
    Pow2Split(log, 64);
    Multiple(x % WRAP + i, x / WRAP, Pow2(64 - log), size);
    assert x == x / WRAP * WRAP + x % WRAP;
  }

  lemma HeadUp(head: nat, tail: nat, k: nat)
    requires head < WRAP && tail < WRAP && Distance(head, tail) + k < WRAP
    ensures Distance(Wrap(head + k), tail) == Distance(head, tail) + k
  {
  }

  lemma TailUp(head: nat, tail: nat, k: nat)
    requires head < WRAP && tail < WRAP && k <= Distance(head, tail)
    ensures Distance(head, Wrap(tail + k)) == Distance(head, tail) - k
  {
  }

  lemma HeadIs(head: nat, tail: nat)
    requires head < WRAP && tail < WRAP
    ensures head == Wrap(tail + Distance(head, tail))
  {
  }

  lemma TailPlace(tail: nat, i: nat, size: nat, log: nat)
    requires Capacity(size, log)
    ensures Masked(Wrap(tail + i), size - 1) == Place(tail, i, size)
  {
    WrapPlus(tail + i, 0, size, log);
  }

  lemma CounterPlus(base: nat, k: nat)
    ensures Wrap(Wrap(base) + k) == Wrap(base + k)
  {
  }

  lemma Bounded(size: nat, log: nat)
    requires Capacity(size, log)
    ensures 0 < size <= HALF
  {
    Pow2Mono(log, 63);
    WrapIs64();
    Pow2Split(63, 64);
  }

  class Ring<T(0)> {
    const dynamic: bool
    const initial: nat        // SIZE
    ghost const initialLog: nat
    const zero: T
    var buffer: array<T>
    var head: nat
    var tail: nat
    var size: nat
    var mask: nat
    ghost var log: nat

    ghost predicate Valid()
      reads this
    {
      && Capacity(size, log) && mask == size - 1 && Capacity(initial, initialLog)
      && (if dynamic then buffer.Length == size else buffer.Length == size + 1)
      && head < WRAP && tail < WRAP && Distance(head, tail) <= size
    }

    ghost function Contents(): seq<T>
      requires Valid()
      reads this, buffer
    {
      View(buffer[..], tail, Distance(head, tail), size)
    }

    /** FixedRing and DynamicRing */
    constructor (dynamic: bool, initial: nat, ghost log: nat, zero: T)
      requires Capacity(initial, log)
      ensures Valid() && fresh(buffer) && Contents() == [] && size == initial && head == tail == 0
      ensures this.dynamic == dynamic && this.initial == initial && this.zero == zero
    {
      this.dynamic, this.initial, this.initialLog, this.zero := dynamic, initial, log, zero;
      buffer := new T[if dynamic then initial else initial + 1](i => zero);
      head, tail, size, mask, this.log := 0, 0, initial, initial - 1, log;
    }

    function ReadAvail(): (r: nat)
      reads this`head, this`tail
    {
      Distance(head, tail)
    }

    function WriteAvail(): (r: nat)
      requires Distance(head, tail) <= size
      reads this`head, this`tail, this`size
    {
      size - Distance(head, tail)
    }

    /** DynamicRing::resize to a greater size; a fixed ring refuses. */
    method Resize(to: nat, ghost toLog: nat) returns (ok: bool)
      requires Valid() && Capacity(to, toLog) && size < to
      modifies this`buffer, this`size, this`mask, this`log
      ensures Valid() && ok == dynamic && (buffer == old(buffer) || fresh(buffer))
      ensures !ok ==> buffer == old(buffer) && size == old(size)
      ensures ok ==> size == to && buffer[..] == Enlarged(old(buffer[..]), to, zero)
    {
      if !dynamic { return false; }
      var was := buffer;
      buffer := new T[to](i reads was => if 0 <= i < was.Length then was[i] else zero);
      size, mask, log := to, to - 1, toLog;
      assert buffer[..] == Enlarged(was[..], to, zero);
      ok := true;
    }

    /** insert */
    method Insert(x: T) returns (ok: bool)
      requires Valid() && size < HALF
      modifies this`head, this`buffer, this`size, this`mask, this`log, buffer
      ensures Valid() && (buffer == old(buffer) || fresh(buffer)) && tail == old(tail)
      ensures ok <==> dynamic || old(WriteAvail()) > 0
      ensures !ok ==> Contents() == old(Contents()) && size == old(size)
      ensures ok ==> size == (if old(WriteAvail()) > 0 then old(size) else 2 * old(size))
      ensures ok && old(WriteAvail()) > 0 ==> Contents() == old(Contents()) + [x]
      ensures ok && old(WriteAvail()) == 0 ==> Contents() == Grown(old(buffer[..]), tail, old(ReadAvail()), size, zero) + [x]
      ensures ok && old(WriteAvail()) == 0 && Unwrapped(tail, old(ReadAvail()), old(size), size) ==>
                Contents() == old(Contents()) + [x]
    {
      hide View, Place, Divides;
      Bounded(size, log);
      if Distance(head, tail) == size {
        Doubles(size, log);
        CapacityDivides(size, log, 2 * size, log + 1);
        if dynamic && Unwrapped(tail, Distance(head, tail), size, 2 * size) {
          GrowthKeeps(buffer[..], tail, Distance(head, tail), size, 2 * size, zero);
        }
        ok := Resize(2 * size, log + 1);
        if !ok { return; }
      }
      ghost var n := Store([x]);
      ok := true;
    }

    /** `buffer_[tmp_head++ & mask_] = x`, where `k` elements come before. */
    method Put(tmpHead: nat, ghost k: nat, x: T) returns (next: nat)
      requires Valid() && tmpHead == Wrap(tail + k) && k < size
      modifies buffer
      ensures next == Wrap(tail + k + 1)
      ensures View(buffer[..], tail, k + 1, size) == View(old(buffer[..]), tail, k, size) + [x]
    {
      hide View, Place, Distance;
      TailPlace(tail, k, size, log);
      ViewPut(buffer[..], tail, k, size, x);
      ghost var before := buffer[..];
      var at := Masked(tmpHead, mask);
      buffer[at] := x;
      assert buffer[..] == before[at := x];
      CounterPlus(tail + k, 1);
      next := Wrap(tmpHead + 1);
    }

    /** The copy loop of insert and write, behind the `used` elements already there. */
    method CopyIn(data: seq<T>, ghost used: nat) returns (tmpHead: nat)
      requires Valid() && head == Wrap(tail + used) && used + |data| <= size
      modifies buffer
      ensures tmpHead == Wrap(tail + used + |data|)
      ensures View(buffer[..], tail, used + |data|, size) == old(View(buffer[..], tail, used, size)) + data
    {
      hide View, Place, Distance, Masked, Wrap, Capacity;
      ghost var was := View(buffer[..], tail, used, size);
      tmpHead := head;
      for i := 0 to |data|
        invariant tmpHead == Wrap(tail + used + i)
        invariant View(buffer[..], tail, used + i, size) == was + data[..i]
      {
        tmpHead := Put(tmpHead, used + i, data[i]);
        Longer(was, data, i);
      }
      assert data[..|data|] == data;
    }

    /** insert and write publish the head when the elements are in place. */
    method Store(data: seq<T>) returns (ghost n: nat)
      requires Valid() && Distance(head, tail) + |data| <= size
      modifies this`head, buffer
      ensures Valid() && Contents() == old(Contents()) + data && n == Distance(head, tail) == old(Distance(head, tail)) + |data|
    {
      Bounded(size, log);
      HeadIs(head, tail);
      HeadUp(head, tail, |data|);
      hide View, Place, Distance, Masked, Wrap, Capacity;
      ghost var used := Distance(head, tail);
      CounterPlus(tail + used, |data|);
      var tmpHead := CopyIn(data, used);
      head := tmpHead;
      n := used + |data|;
    }

    /** The size write asks for: doubled until `count` more elements fit, at most a hundred times. */
    method Enough(count: nat) returns (to: nat, ghost toLog: nat)
      requires Valid() && WriteAvail() < count && ReadAvail() + count <= HALF
      ensures Capacity(to, toLog) && 2 * size <= to && ReadAvail() + count <= to
      ensures to == 2 * size || to / 2 < ReadAvail() + count
    {
      Bounded(size, log);
      Doubles(size, log);
      to, toLog := 2 * size, log + 1;
      var i := 0;
      while i < 99 && to - Distance(head, tail) < count
        invariant Capacity(to, toLog) && 2 * size <= to && i == toLog - log - 1
        invariant to == 2 * size || to / 2 < ReadAvail() + count
        decreases 99 - i
      {
        Doubles(to, toLog);
        to, toLog := Wrap(2 * to), toLog + 1;
        Bounded(to, toLog);
        i := i + 1;
      }
    }

    /** write.  A fixed ring takes what fits, or nothing if all of it must be written; a dynamic one
        enlarges its storage first. */
    method Write(data: seq<T>, full: bool) returns (k: nat)
      requires Valid() && ReadAvail() + |data| <= HALF
      modifies this`head, this`buffer, this`size, this`mask, this`log, buffer
      ensures Valid() && (buffer == old(buffer) || fresh(buffer)) && tail == old(tail)
      ensures k == (if dynamic || |data| <= old(WriteAvail()) then |data| else if full then 0 else old(WriteAvail()))
      ensures size == old(size) <==> !dynamic || |data| <= old(WriteAvail())
      ensures size == old(size) ==> Contents() == old(Contents()) + data[..k]
      ensures size != old(size) ==> 0 < old(size) < size && Divides(old(size), size)
      ensures size != old(size) ==> old(buffer.Length) <= size
      ensures size != old(size) ==> Contents() == Grown(old(buffer[..]), tail, old(ReadAvail()), size, zero) + data
      ensures size != old(size) && Unwrapped(tail, old(ReadAvail()), old(size), size) ==> Contents() == old(Contents()) + data
    {
      Bounded(size, log);
      hide View, Place, Masked, Distance, Divides, Wrap, Capacity, Enlarged;
      k := |data|;
      if size - Distance(head, tail) < |data| {
        var to, toLog := Enough(|data|);
        CapacityDivides(size, log, to, toLog);
        if dynamic && Unwrapped(tail, Distance(head, tail), size, to) {
          GrowthKeeps(buffer[..], tail, Distance(head, tail), size, to, zero);
        }
        var ok := Resize(to, toLog);
        if !ok {
          if full { return 0; }
          k := size - Distance(head, tail);
        }
      }
      ghost var n := Store(data[..k]);
    }

    /** `buffer_[counter & mask_]` for the i-th element. */
    method Get(counter: nat, ghost i: nat) returns (x: T)
      requires Valid() && counter == Wrap(tail + i) && i < ReadAvail()
      ensures x == Contents()[i]
    {
      hide Place, Distance, Wrap;
      TailPlace(tail, i, size, log);
      x := buffer[Masked(counter, mask)];
    }

    /** The copy loop of read. */
    method Copy(toRead: nat) returns (data: seq<T>)
      requires Valid() && toRead <= ReadAvail()
      ensures data == Contents()[..toRead]
    {
      hide Place, Distance, Wrap, Masked, Capacity, View;
      data := [];
      var tmpTail := tail;
      for i := 0 to toRead
        invariant data == Contents()[..i] && tmpTail == Wrap(tail + i)
      {
        var x := Get(tmpTail, i);
        data := data + [x];
        CounterPlus(tail + i, 1);
        tmpTail := Wrap(tmpTail + 1);
      }
    }

    /** read; with `readOnly` nothing is taken out.  A ring that has been emptied starts anew. */
    method Read(count: nat, readOnly: bool) returns (data: seq<T>)
      requires Valid()
      modifies this`head, this`tail
      ensures Valid() && size == old(size)
      ensures data == old(Contents())[..if count < old(ReadAvail()) then count else old(ReadAvail())]
      ensures Contents() == if readOnly then old(Contents()) else old(Contents())[|data|..]
      ensures readOnly ==> head == old(head) && tail == old(tail)
      ensures !readOnly && Contents() == [] ==> head == tail == 0
    {
      hide Distance, Capacity, View;
      var available := Distance(head, tail);
      var toRead := if available < count then available else count;
      data := Copy(toRead);
      if !readOnly {
        Advance(toRead);
      }
    }

    method MoveTail(k: nat)
      requires Valid() && k <= ReadAvail()
      modifies this`tail
      ensures Valid() && Contents() == old(Contents())[k..] && tail == Wrap(old(tail) + k)
    {
      hide View, Distance, Wrap, Capacity;
      TailUp(head, tail, k);
      ViewDrop(buffer[..], tail, Distance(head, tail), k, size);
      ViewWrap(buffer[..], tail + k, Distance(head, tail) - k, size, log);
      tail := Wrap(tail + k);
    }

    /** The end of read and remove: the tail moves on, or both counters start anew. */
    method Advance(k: nat)
      requires Valid() && k <= ReadAvail()
      modifies this`head, this`tail
      ensures Valid() && Contents() == old(Contents())[k..] && (Contents() == [] ==> head == tail == 0)
    {
      if k == Distance(head, tail) {
        head, tail := 0, 0;
      } else {
        MoveTail(k);
      }
    }

    /** remove of up to `count` elements */
    method Remove(count: nat) returns (k: nat)
      requires Valid()
      modifies this`head, this`tail
      ensures Valid() && k == (if count < old(ReadAvail()) then count else old(ReadAvail()))
      ensures Contents() == old(Contents())[k..] && (Contents() == [] ==> head == tail == 0)
    {
      var available := Distance(head, tail);
      k := if count > available then available else count;
      Advance(k);
    }

    /** remove of one element; the counters are not reset. */
    method RemoveOne() returns (r: Option<T>)
      requires Valid()
      modifies this`tail
      ensures Valid()
      ensures old(Contents()) == [] ==> r == None && Contents() == []
      ensures old(Contents()) != [] ==> r == Some(old(Contents())[0]) && Contents() == old(Contents())[1..]
      ensures old(Contents()) != [] ==> tail == Wrap(old(tail) + 1)
    {
      if tail == head { return None; }
      var x := Get(tail, 0);
      MoveTail(1);
      r := Some(x);
    }

    /** at */
    method At(index: nat) returns (r: Option<T>)
      requires Valid() && index < WRAP
      ensures r == if index < ReadAvail() then Some(Contents()[index]) else None
    {
      if Distance(head, tail) <= index { return None; }
      var x := Get(Wrap(tail + index), index);
      r := Some(x);
    }

    /** peek: the first element, if `count` elements can be read; whatever is there if none is asked for. */
    method Peek(count: nat) returns (r: Option<T>)
      requires Valid()
      ensures r.None? <==> ReadAvail() < count
      ensures r.Some? && ReadAvail() > 0 ==> r.value == Contents()[0]
    {
      if Distance(head, tail) < count { return None; }
      TailPlace(tail, 0, size, log);
      r := Some(buffer[Masked(tail, mask)]);
    }

    /** clear: a dynamic ring goes back to the size it was made with. */
    method Clear()
      requires Valid()
      modifies this
      ensures Valid() && Contents() == [] && (buffer == old(buffer) || fresh(buffer))
      ensures size == if dynamic then initial else old(size)
    {
      if dynamic {
        buffer := new T[initial](i => zero);
        size, mask, log := initial, initial - 1, initialLog;
      }
      head, tail := 0, 0;
    }

    /** consumer_clear */
    method ConsumerClear()
      requires Valid()
      modifies this`head, this`tail
      ensures Valid() && Contents() == []
    {
      head, tail := 0, 0;
    }
  }

  lemma ThirdIsNew(storage: seq<int>)
    requires |storage| == 2
    ensures Grown(storage, 1, 2, 4, 0) == [View(storage, 1, 2, 2)[0], 0]
  {
    PlaceInRow(1, 0, 4);
    PlaceInRow(1, 1, 4);
    PlaceInRow(1, 0, 2);
  }

  /** A dynamic ring of two loses an element when it grows: after 1, 2 and 3 have been inserted and the
      1 removed, inserting 4 turns the 3 into a zero. */
  method GrowthExample() returns (ring: Ring<int>)
    ensures ring.Valid() && ring.Contents() == [2, 0, 4]
  {
    hide View, Place, Distance, Grown;
    TwoIsCapacity();
    ring := new Ring<int>(true, 2, 1, 0);
    var a := ring.Insert(1);
    var b := ring.Insert(2);
    assert ring.Contents() == [1, 2];
    var first := ring.RemoveOne();
    var c := ring.Insert(3);
    assert ring.Contents() == [2, 3];
    ThirdIsNew(ring.buffer[..]);
    var d := ring.Insert(4);
  }

  lemma TwoIsCapacity()
    ensures Capacity(2, 1)
  {
  }

  /** Counters that have not gone beyond the storage are in a row. */
  lemma NotBeyond(head: nat, tail: nat, size: nat, grown: nat)
    requires tail <= head <= size < grown && head < WRAP
    ensures Unwrapped(tail, Distance(head, tail), size, grown)
  {
  }

  predicate Divides(size: nat, to: nat)
    requires size > 0
  {
    to % size == 0
  }

  lemma CapacityDivides(size: nat, log: nat, to: nat, toLog: nat)
    requires Capacity(size, log) && Capacity(to, toLog) && size <= to
    ensures Divides(size, to)
  {
    if toLog < log {
      Pow2Mono(toLog, log - 1);
    } else {
      Pow2Split(log, toLog);
      ModIs(to, Pow2(toLog - log), 0, size);
    }
  }

  lemma Longer<T>(was: seq<T>, data: seq<T>, i: nat)
    requires i < |data|
    ensures was + data[..i + 1] == was + data[..i] + [data[i]]
  {
  }

  lemma Doubles(size: nat, log: nat)
    requires Capacity(size, log) && size < HALF
    ensures Capacity(2 * size, log + 1)
  {
    WrapIs64();
    Pow2Split(63, 64);
    assert log == 63 ==> size == HALF;
  }
}
