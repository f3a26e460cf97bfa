/**
 The ring buffer of common/misc/circular_queue.h, refining a bounded sequence.
 Equal indices mean empty, so one slot of the array is never used.
 */
module CircularQueue {

  /** Index arithmetic: below twice the size, `%` is at most one subtraction. */
  lemma ModOnce(x: nat, m: nat)
    requires 0 < m && x < 2 * m
    ensures x % m == if x < m then x else x - m
  {
    var q := x / m;
    assert x == m * q + x % m;
    assert q >= 2 ==> m * q >= m * 2;
    if q == 1 { assert m * q == m; }
  }

  class CircularQueue<T(0)> {
    const size: nat
    const queue: array<T>
    var first: nat  // the next element goes here
    var last: nat   // the oldest element is here

    ghost predicate Valid() reads this {
      queue.Length == size && first < size && last < size
    }

    ghost function Length(): nat
      reads this
      requires Valid()
    {
      if last <= first then first - last else first + size - last
    }

    ghost function Index(i: nat): nat
      reads this
      requires Valid() && i < size
    {
      if last + i < size then last + i else last + i - size
    }

    /** The queued elements, oldest first. */
    ghost function Contents(): (c: seq<T>)
      reads this, queue
      requires Valid()
      ensures |c| == Length() < size
      ensures forall i :: 0 <= i < |c| ==> c[i] == queue[Index(i)]
    {
      seq(Length(), i requires Valid() && 0 <= i < Length() reads this, queue => queue[Index(i)])
    }

    constructor (capacity: nat)
      ensures Valid() && size == capacity + 1 && fresh(queue)
      ensures Contents() == []
    {
      size := capacity + 1;
      queue := new T[capacity + 1];
      first, last := 0, 0;
    }

    method Full() returns (b: bool)
      requires Valid()
      ensures b <==> |Contents()| == size - 1
    {
      ModOnce(first + 1, size);
      b := (first + 1) % size == last;
    }

    method Empty() returns (b: bool)
      requires Valid()
      ensures b <==> Contents() == []
    {
      b := first == last;
    }

    method Size() returns (n: nat)
      requires Valid()
      ensures n == |Contents()|
    {
      ModOnce(first + size - last, size);
      n := (first + size - last) % size;
    }

    /** `operator[]` behind the bounds assertion of `at`. */
    method At(i: nat) returns (x: T)
      requires Valid() && i < |Contents()|
      ensures x == Contents()[i]
    {
      ModOnce(last + i, size);
      x := queue[(last + i) % size];
    }

    method Front() returns (x: T)
      requires Valid() && Contents() != []
      ensures x == Contents()[0]
    {
      x := queue[last];
    }

    method Back() returns (x: T)
      requires Valid() && Contents() != []
      ensures x == Contents()[|Contents()| - 1]
    {
      ModOnce(first + size - 1, size);
      x := queue[(first + size - 1) % size];
    }

    method Push(x: T)
      requires Valid() && |Contents()| < size - 1
      modifies this`first, queue
      ensures Valid() && last == old(last)
      ensures Contents() == old(Contents()) + [x]
    {
      ModOnce(first + 1, size);
      queue[first] := x;
      first := (first + 1) % size;
    }

    method Pop() returns (x: T)
      requires Valid() && Contents() != []
      modifies this`last
      ensures Valid() && first == old(first)
      ensures [x] + Contents() == old(Contents())
    {
      ModOnce(last + 1, size);
      var i := last;
      last := (last + 1) % size;
      x := queue[i];
      assert forall j :: 0 <= j < |Contents()| ==> Contents()[j] == old(Contents())[j + 1];
    }

    /** Push that drops the oldest element when there is no room. */
    method PushCircular(x: T)
      requires Valid() && size > 1
      modifies this`first, this`last, queue
      ensures Valid()
      ensures Contents() == (if |old(Contents())| == size - 1 then old(Contents())[1..] else old(Contents())) + [x]
    {
      var full := Full();
      if full {
        var dropped := Pop();
      }
      Push(x);
    }
  }
}
