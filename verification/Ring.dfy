/** A ring buffer with head, tail and count, as used for tty input and for keyboard
    events, seen as a queue. */
module Ring {

  /** The count elements from index head on, wrapping at the end of the buffer. */
  function Contents<T>(buf: seq<T>, head: nat, count: nat): (r: seq<T>)
    requires head < |buf| && count <= |buf|
    ensures |r| == count
  {
    seq(count, i requires 0 <= i < count => buf[Slot(head, i, |buf|)])
  }

  function Slot(head: nat, i: nat, size: nat): (k: nat)
    requires head < size && i <= size
    ensures k < size && k == (head + i) % size
  {
    if head + i < size then head + i else (assert head + i - size < size; ModOnce(head + i, size); head + i - size)
  }

  lemma ModOnce(a: nat, size: nat)
    requires size <= a < 2 * size
    ensures a % size == a - size
  {
  }

  predicate RingOk(size: nat, head: nat, tail: nat, count: nat)
  {
    head < size && count <= size && tail == Slot(head, count, size)
  }

  lemma PutBack<T>(buf: seq<T>, head: nat, tail: nat, count: nat, x: T)
    requires RingOk(|buf|, head, tail, count) && count < |buf|
    ensures RingOk(|buf|, head, (tail + 1) % |buf|, count + 1)
    ensures Contents(buf[tail := x], head, count + 1) == Contents(buf, head, count) + [x]
  {
    NextSlot(head, count, |buf|);
    forall i | 0 <= i < count ensures Slot(head, i, |buf|) != tail { }
  }

  lemma TakeFront<T>(buf: seq<T>, head: nat, tail: nat, count: nat)
    requires RingOk(|buf|, head, tail, count) && 0 < count
    ensures RingOk(|buf|, (head + 1) % |buf|, tail, count - 1)
    ensures buf[head] == Contents(buf, head, count)[0]
    ensures Contents(buf, (head + 1) % |buf|, count - 1) == Contents(buf, head, count)[1..]
  {
    NextSlot(head, 0, |buf|);
  }

  lemma NextSlot(head: nat, i: nat, size: nat)
    requires head < size && i < size
    ensures (Slot(head, i, size) + 1) % size == Slot(head, i + 1, size)
  {
    var k := Slot(head, i, size);
    if k + 1 == size { ModOnce(k + 1, size); }
  }
}
