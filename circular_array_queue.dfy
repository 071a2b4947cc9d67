/** A fixed-capacity FIFO queue over an array: `head` is the slot of the
    oldest element, `tail` the slot of the newest one (-1 before the first
    insertion), and `size` disambiguates the empty queue from the full one. */
module CircularArray {
  import opened Wrappers

  /** The exceptions the queue throws: `IllegalStateException("queue is full")`
      and `NullPointerException("Queue is empty")`. */
  datatype QueueError = QueueFull | QueueEmpty

  /** (x mod c) for 0 <= x <= c, the only case the queue ever needs. */
  lemma ModStep(x: int, c: int)
    requires 0 < c && 0 <= x <= c
    ensures x % c == if x == c then 0 else x
  {
    if x == c {
      assert x % c == 0;
    }
  }

  class CircularArrayQueue<E(0)> {
    const capacity: nat
    const values: array<E>
    var size: nat
    var head: int
    var tail: int

    /** The elements in the queue, oldest first. */
    ghost var Contents: seq<E>

    /** The slot that lies `k` places after `head`, for k <= capacity. */
    ghost function Wrap(x: int): int
      reads this
    {
      if x < capacity then x else x - capacity
    }

    ghost predicate Valid()
      reads this, values
    {
      && values.Length == capacity
      && size <= capacity
      && |Contents| == size
      && (capacity == 0 ==> head == 0 && tail == -1)
      && (capacity > 0 ==>
            && 0 <= head < capacity
            && -1 <= tail < capacity
            && Wrap(tail + 1) == Wrap(head + size))
      && forall i :: 0 <= i < size ==> Contents[i] == values[Wrap(head + i)]
    }

    constructor (capacity: nat)
      ensures Valid() && fresh(values)
      ensures this.capacity == capacity && Contents == []
      ensures size == 0 && head == 0 && tail == -1
    {
      this.capacity := capacity;
      values := new E[capacity];
      size, head, tail := 0, 0, -1;
      Contents := [];
    }

    method Size() returns (n: nat)
      requires Valid()
      ensures n == |Contents|
    {
      n := size;
    }

    method IsEmpty() returns (b: bool)
      requires Valid()
      ensures b <==> Contents == []
    {
      b := size == 0;
    }

    /** Resets the indices; the slots keep their old values but are no longer part of the queue. */
    method Clear()
      requires Valid()
      modifies this
      ensures Valid() && Contents == []
      ensures size == 0 && head == 0 && tail == -1
      ensures values[..] == old(values[..])
    {
      head := 0;
      tail := -1;
      size := 0;
      Contents := [];
    }

    method AddLastElement(e: E) returns (ok: bool)
      requires Valid() && |Contents| < capacity
      modifies this, values
      ensures Valid() && ok
      ensures Contents == old(Contents) + [e]
      ensures head == old(head) && size == old(size) + 1
    {
      ModStep(tail + 1, capacity);
      tail := (tail + 1) % capacity;
      values[tail] := e;
      size := size + 1;
      Contents := Contents + [e];
      ok := true;
    }

    /** `add`: throws when the queue is full, leaving it unchanged. */
    method Add(e: E) returns (r: Result<bool, QueueError>)
      requires Valid()
      modifies this, values
      ensures Valid()
      ensures old(|Contents|) == capacity ==>
                r == Failure(QueueFull) && unchanged(this) && unchanged(values)
      ensures old(|Contents|) < capacity ==>
                r == Success(true) && Contents == old(Contents) + [e]
    {
      if size == capacity {
        return Failure(QueueFull);
      }
      var ok := AddLastElement(e);
      return Success(ok);
    }

    /** `offer`: like `add`, but reports a full queue by returning false. */
    method Offer(e: E) returns (ok: bool)
      requires Valid()
      modifies this, values
      ensures Valid()
      ensures ok <==> old(|Contents|) < capacity
      ensures !ok ==> unchanged(this) && unchanged(values)
      ensures ok ==> Contents == old(Contents) + [e]
    {
      if size == capacity {
        return false;
      }
      ok := AddLastElement(e);
    }

    method FirstElement() returns (x: E)
      requires Valid() && Contents != []
      modifies this
      ensures Valid()
      ensures x == old(Contents[0]) && Contents == old(Contents[1..])
      ensures tail == old(tail) && size == old(size) - 1
    {
      x := values[head];
      ModStep(head + 1, capacity);
      head := (head + 1) % capacity;
      size := size - 1;
      Contents := Contents[1..];
    }

    /** `remove()`: throws on an empty queue. */
    method Remove() returns (r: Result<E, QueueError>)
      requires Valid()
      modifies this
      ensures Valid()
      ensures old(Contents) == [] ==> r == Failure(QueueEmpty) && unchanged(this)
      ensures old(Contents) != [] ==>
                r == Success(old(Contents[0])) && Contents == old(Contents[1..])
    {
      if size == 0 {
        return Failure(QueueEmpty);
      }
      var x := FirstElement();
      return Success(x);
    }

    /** `poll()`: returns null on an empty queue. */
    method Poll() returns (r: Option<E>)
      requires Valid()
      modifies this
      ensures Valid()
      ensures old(Contents) == [] ==> r == None && unchanged(this)
      ensures old(Contents) != [] ==>
                r == Some(old(Contents[0])) && Contents == old(Contents[1..])
    {
      if size == 0 {
        return None;
      }
      var x := FirstElement();
      return Some(x);
    }

    /** `element()`: the oldest element, throwing on an empty queue. */
    method Element() returns (r: Result<E, QueueError>)
      requires Valid()
      ensures Contents == [] ==> r == Failure(QueueEmpty)
      ensures Contents != [] ==> r == Success(Contents[0])
    {
      if size == 0 {
        return Failure(QueueEmpty);
      }
      return Success(values[head]);
    }

    /** `peek()`: the oldest element, or null on an empty queue. */
    method Peek() returns (r: Option<E>)
      requires Valid()
      ensures Contents == [] ==> r == None
      ensures Contents != [] ==> r == Some(Contents[0])
    {
      r := if size == 0 then None else Some(values[head]);
    }

    /** `addAll`: adds the elements in order; the first one that does not fit
        throws, and the ones added before it stay. */
    method AddAll(c: seq<E>) returns (r: Result<bool, QueueError>)
      requires Valid()
      modifies this, values
      ensures Valid()
      ensures old(|Contents|) + |c| <= capacity ==>
                r == Success(true) && Contents == old(Contents) + c
      ensures old(|Contents|) + |c| > capacity ==>
                r == Failure(QueueFull) && Contents == old(Contents) + c[..capacity - old(|Contents|)]
    {
      var i := 0;
      while i < |c|
        invariant 0 <= i <= |c|
        invariant Valid()
        invariant |old(Contents)| + i <= capacity
        invariant Contents == old(Contents) + c[..i]
      {
        var added := Add(c[i]);
        if added.Failure? {
          return Failure(QueueFull);
        }
        i := i + 1;
      }
      assert c[..i] == c;
      return Success(true);
    }
  }

  /** The queue's own demonstration: capacity 6, add 0..5, remove four times,
      add 7 and 8; draining the queue then yields 4, 5, 7, 8 (the tail has
      wrapped round to slot 1). */
  method SixSlotScenario() returns (rest: seq<int>)
    ensures rest == [4, 5, 7, 8]
  {
    var q := new CircularArrayQueue<int>(6);
    var filled := q.AddAll([0, 1, 2, 3, 4, 5]);
    var removed := q.Remove();
    removed := q.Remove();
    removed := q.Remove();
    removed := q.Remove();
    var added := q.Add(7);
    added := q.Add(8);
    assert q.Contents == [4, 5, 7, 8];
    var a := q.Poll();
    var b := q.Poll();
    var c := q.Poll();
    var d := q.Poll();
    rest := [a.value, b.value, c.value, d.value];
  }
}
