/** The output side of a connection's stream: what waits in the ring is offered to the socket, which
    takes as much as it likes. */
module Stream {
  import opened Collections
  import R = Ring
  import RI = RingIndex

  const SOCKET_ERROR: int := -1
  const WOULD_BLOCK: int := -100
  const ONCE_MAX: nat := 1024 * 1024

  /** What a socket may answer when it is offered `length` bytes. */
  predicate Answers(result: int, length: nat) {
    result == -100 || result == -1 || 0 <= result <= length
  }

  /** How much of `bytes` the socket takes from the i-th offer on, after `done` of them, and whether it
      ends with an error: at most 99 offers, each of all that is left, until the socket would block. */
  ghost function Takes<T>(send: (nat, seq<T>) -> int, bytes: seq<T>, i: nat, done: nat): (r: (nat, bool))
    decreases 99 - i
  {
    if i >= 99 || done >= |bytes| then (done, false)
    else
      var result := send(i, bytes[done..]);
      if result == -100 || result == 0 then (done, false)
      else if result == -1 then (done, true)
      else if result < 0 then (done, false)
      else Takes(send, bytes, i + 1, done + result)
  }

  lemma TakesOne<T>(send: (nat, seq<T>) -> int, bytes: seq<T>, i: nat, done: nat)
    requires i < 99 && done < |bytes|
    ensures
      var result := send(i, bytes[done..]);
      && (result == WOULD_BLOCK || result == 0 ==> Takes(send, bytes, i, done) == (done, false))
      && (result == SOCKET_ERROR ==> Takes(send, bytes, i, done) == (done, true))
      && (result > 0 ==> Takes(send, bytes, i, done) == Takes(send, bytes, i + 1, done + result))
  {
  }

  /** What is taken is a part of what is offered. */
  lemma {:induction false} TakesPrefix<T(!new)>(send: (nat, seq<T>) -> int, bytes: seq<T>, i: nat, done: nat)
    requires done <= |bytes| && forall k, offer :: Answers(send(k, offer), |offer|)
    ensures done <= Takes(send, bytes, i, done).0 <= |bytes|
    decreases 99 - i
  {
    if i < 99 && done < |bytes| {
      var result := send(i, bytes[done..]);
      assert Answers(result, |bytes[done..]|);
      if result > 0 { TakesPrefix(send, bytes, i + 1, done + result); }
    }
  }

  /** Basic::push.  `send(i, bytes)` is the socket's answer to the i-th offer.  What leaves the ring is
      exactly what the socket took, and the result says how much that is, or that the socket failed. */
  method Push<T(0,!new)>(buffer: R.Ring<T>, valid: bool, send: (nat, seq<T>) -> int) returns (r: int)
    requires buffer.Valid() && forall i, bytes :: Answers(send(i, bytes), |bytes|)
    modifies buffer`head, buffer`tail
    ensures buffer.Valid()
    ensures !valid ==> r == 0 && buffer.Contents() == old(buffer.Contents())
    ensures valid ==>
              var was := old(buffer.Contents());
              var taken := Takes(send, was[..Min(|was|, 1_048_576)], 0, 0);
              && taken.0 <= Min(|was|, 1_048_576) && buffer.Contents() == was[taken.0..]
              && r == if taken.1 then -2 else taken.0
  {
    hide R.View, R.Distance, RI.Capacity, Takes;
    if !valid { return 0; }
    ghost var was := buffer.Contents();
    var sendSize := Min(buffer.ReadAvail(), ONCE_MAX);
    ghost var offered := was[..sendSize];
    TakesPrefix(send, offered, 0, 0);
    if sendSize == 0 {
      TakesNothing(send, offered);
      return 0;
    }
    var bytes := buffer.Read(sendSize, true);
    var sent: nat := 0;
    var i := 0;
    while i < 99 && sent < sendSize
      invariant buffer.Valid() && 0 <= sent <= sendSize && i <= 99
      invariant buffer.Contents() == was[sent..]
      invariant Takes(send, bytes, 0, 0) == Takes(send, bytes, i, sent)
      decreases 99 - i
    {
      var temp := bytes[sent..];
      TakesOne(send, bytes, i, sent);
      var result := send(i, temp);
      assert Answers(result, |temp|);
      if result == WOULD_BLOCK || result == 0 { return sent; }
      if result == SOCKET_ERROR { return SOCKET_ERROR - 1; }
      var removed := buffer.Remove(result);
      sent := sent + result;
      i := i + 1;
    }
    TakesAll(send, bytes, i, sent);
    r := sent;
  }

  lemma TakesNothing<T>(send: (nat, seq<T>) -> int, bytes: seq<T>)
    requires bytes == []
    ensures Takes(send, bytes, 0, 0) == (0, false)
  {
  }

  lemma TakesAll<T>(send: (nat, seq<T>) -> int, bytes: seq<T>, i: nat, done: nat)
    requires i >= 99 || done >= |bytes|
    ensures Takes(send, bytes, i, done) == (done, false)
  {
  }
}
