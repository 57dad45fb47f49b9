// The ring of producer_consumer.c and shm_demo.c: a fixed array with a head, a tail and a fill count.
module Ring {

  datatype Ring = Ring(buffer: seq<int>, head: nat, tail: nat, count: nat)

  // Position k places on, for k below twice the size.
  function Wrap(k: nat, size: nat): nat
    requires 0 < size
  {
    if k < size then k else k - size
  }

  lemma ModIsWrap(k: nat, size: nat)
    requires k < 2 * size
    ensures k % size == Wrap(k, size)
  {
    if k >= size {
      assert k == 1 * size + (k - size);
    }
  }

  predicate Valid(r: Ring) {
    && 0 < |r.buffer| && r.head < |r.buffer| && r.tail < |r.buffer| && r.count <= |r.buffer|
    && r.head == Wrap(r.tail + r.count, |r.buffer|)
  }

  // The stored items, oldest first.
  function Window(r: Ring): (w: seq<int>)
    requires Valid(r)
    ensures |w| == r.count
    ensures forall i :: 0 <= i < r.count ==> w[i] == r.buffer[Wrap(r.tail + i, |r.buffer|)]
  {
    seq(r.count, i requires 0 <= i < r.count => r.buffer[Wrap(r.tail + i, |r.buffer|)])
  }

  function Put(r: Ring, x: int): Ring
    requires Valid(r)
  {
    Ring(r.buffer[r.head := x], (r.head + 1) % |r.buffer|, r.tail, r.count + 1)
  }

  function Take(r: Ring): (Ring, int)
    requires Valid(r) && r.count > 0
  {
    (Ring(r.buffer, r.head, (r.tail + 1) % |r.buffer|, r.count - 1), r.buffer[r.tail])
  }

  function Empty(size: nat): Ring { Ring(seq(size, _ => 0), 0, 0, 0) }

  lemma EmptyIsValid(size: nat)
    requires 0 < size
    ensures Valid(Empty(size)) && Window(Empty(size)) == []
  {
  }

  // A put behind a ring that is not full appends to its window.
  lemma PutAppends(r: Ring, x: int)
    requires Valid(r) && r.count < |r.buffer|
    ensures Valid(Put(r, x)) && Window(Put(r, x)) == Window(r) + [x]
  {
    ModIsWrap(r.head + 1, |r.buffer|);
  }

  // A take from a ring that is not empty removes the oldest item.
  lemma TakeDrops(r: Ring)
    requires Valid(r) && r.count > 0
    ensures Valid(Take(r).0) && Window(r) == [Take(r).1] + Window(Take(r).0)
  {
    ModIsWrap(r.tail + 1, |r.buffer|);
  }

  // bounded_buffer_t: the array and the three counters updated in place.
  class BoundedBuffer {
    const buffer: array<int>
    var head: nat
    var tail: nat
    var count: nat

    function Model(): Ring
      reads this, buffer
    {
      Ring(buffer[..], head, tail, count)
    }

    constructor (size: nat)
      requires 0 < size
      ensures Valid(Model()) && Window(Model()) == [] && buffer.Length == size
    {
      buffer := new int[size];
      head, tail, count := 0, 0, 0;
    }

    // The producer's critical section, once the buffer is not full.
    method Insert(item: int)
      requires Valid(Model()) && count < buffer.Length
      modifies this, buffer
      ensures Model() == Put(old(Model()), item)
      ensures Valid(Model()) && Window(Model()) == old(Window(Model())) + [item]
    {
      PutAppends(Model(), item);
      buffer[head] := item;
      head := (head + 1) % buffer.Length;
      count := count + 1;
      assert Model() == Put(old(Model()), item);
    }

    // The consumer's critical section, once the buffer is not empty.
    method Remove() returns (item: int)
      requires Valid(Model()) && count > 0
      modifies this`tail, this`count
      ensures (Model(), item) == Take(old(Model()))
      ensures Valid(Model()) && old(Window(Model())) == [item] + Window(Model())
    {
      TakeDrops(Model());
      item := buffer[tail];
      tail := (tail + 1) % buffer.Length;
      count := count - 1;
      assert (Model(), item) == Take(old(Model()));
    }
  }
}
