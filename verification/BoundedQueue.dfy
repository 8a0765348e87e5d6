/** The circular queue of pthreads_pc/producer_consumer.c: first on values, then in place. */
module BoundedQueue {

  datatype Ring = Ring(buf: seq<int>, head: nat, tail: nat, full: bool, empty: bool)

  function Wrap(i: nat, size: nat): (r: nat)
    requires i < 2 * size
    ensures r < size
  {
    if i < size then i else i - size
  }

  /** `q` holds the items of `s`, oldest first, and its flags agree with their number. */
  ghost predicate Holds(q: Ring, s: seq<int>) {
    var size := |q.buf|;
    && q.head < size && q.tail < size && |s| <= size
    && q.tail == Wrap(q.head + |s|, size)
    && (q.full <==> |s| == size) && (q.empty <==> |s| == 0)
    && forall i :: 0 <= i < |s| ==> s[i] == q.buf[Wrap(q.head + i, size)]
  }

  /** `queueAdd`. */
  function Add(q: Ring, x: int): Ring
    requires q.tail < |q.buf|
  {
    var tail := if q.tail + 1 == |q.buf| then 0 else q.tail + 1;
    Ring(q.buf[q.tail := x], q.head, tail, if tail == q.head then true else q.full, false)
  }

  /** `queueRemove`. */
  function Remove(q: Ring): (Ring, int)
    requires q.head < |q.buf|
  {
    var head := if q.head + 1 == |q.buf| then 0 else q.head + 1;
    (Ring(q.buf, head, q.tail, false, if head == q.tail then true else q.empty), q.buf[q.head])
  }

  function Empty(size: nat): Ring {
    Ring(seq(size, _ => 0), 0, 0, false, true)
  }

  /** Adding to a queue with room appends, across the wrap-around. */
  lemma AddAppends(q: Ring, s: seq<int>, x: int)
    requires Holds(q, s) && !q.full
    ensures Holds(Add(q, x), s + [x])
  {
    var size := |q.buf|;
    forall i {:trigger s[i]} | 0 <= i < |s| ensures Wrap(q.head + i, size) != q.tail {
    }
  }

  /** Removing from a non-empty queue takes the oldest item. */
  lemma RemoveTakesOldest(q: Ring, s: seq<int>)
    requires Holds(q, s) && !q.empty
    ensures Holds(Remove(q).0, s[1..]) && Remove(q).1 == s[0]
  {
    assert q.buf[Wrap(q.head + 0, |q.buf|)] == s[0];
    forall i | 0 <= i < |s| - 1
      ensures s[1..][i] == q.buf[Wrap(Remove(q).0.head + i, |q.buf|)]
    {
      assert s[i + 1] == q.buf[Wrap(q.head + (i + 1), |q.buf|)];
    }
  }

  class Queue {
    const buf: array<int>
    var head: nat
    var tail: nat
    var full: bool
    var empty: bool
    ghost var contents: seq<int>

    ghost function View(): Ring
      reads this, buf
    {
      Ring(buf[..], head, tail, full, empty)
    }

    ghost predicate Valid()
      reads this, buf
    {
      Holds(View(), contents)
    }

    /** `queueInit`. */
    constructor (size: nat)
      requires size > 0
      ensures Valid() && contents == [] && buf.Length == size && fresh(buf)
    {
      buf := new int[size];
      head, tail := 0, 0;
      full, empty := false, true;
      contents := [];
    }

    /** `queueAdd`: the caller has seen that the queue is not full. */
    method QueueAdd(x: int)
      requires Valid() && !full
      modifies this, buf
      ensures Valid() && View() == Add(old(View()), x)
      ensures contents == old(contents) + [x]
    {
      AddAppends(View(), contents, x);
      buf[tail] := x;
      tail := tail + 1;
      if tail == buf.Length {
        tail := 0;
      }
      if tail == head {
        full := true;
      }
      empty := false;
      contents := contents + [x];
    }

    /** `queueRemove`: the caller has seen that the queue is not empty. */
    method QueueRemove() returns (x: int)
      requires Valid() && !empty
      modifies this
      ensures Valid() && (View(), x) == Remove(old(View()))
      ensures contents == old(contents)[1..] && x == old(contents)[0]
    {
      RemoveTakesOldest(View(), contents);
      x := buf[head];
      head := head + 1;
      if head == buf.Length {
        head := 0;
      }
      if head == tail {
        empty := true;
      }
      full := false;
      contents := contents[1..];
    }
  }
}
