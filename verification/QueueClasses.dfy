/**
 * The two queues as objects, called by one thread at a time: every call behaves like the bounded
 * FIFO that the interleaved models keep to.
 */
module QueueClasses {
  import opened Ring

  datatype Node<T> = Node(sequence: nat, data: T)

  /** Inside the current lap a sequence says whether its position was pushed. */
  ghost predicate Sequenced<T>(nodes: seq<Node<T>>, head: nat, tail: nat) {
    forall i: nat | head <= i < head + |nodes| ::
      nodes[Slot(i, |nodes|)].sequence == if i < tail then i + 1 else i
  }

  /** The items between the two positions. */
  ghost function Items<T>(nodes: seq<Node<T>>, head: nat, tail: nat): (s: seq<T>)
    requires head <= tail && (nodes == [] ==> head == tail)
    ensures |s| == tail - head
  {
    seq(tail - head, k requires 0 <= k < tail - head => nodes[Slot(head + k, |nodes|)].data)
  }

  /** Filling the next slot appends its item. */
  lemma PushItems<T>(nodes: seq<Node<T>>, head: nat, tail: nat, item: T)
    requires head <= tail < head + |nodes| && Sequenced(nodes, head, tail)
    ensures var nodes' := nodes[Slot(tail, |nodes|) := Node(tail + 1, item)];
            && Sequenced(nodes', head, tail + 1)
            && Items(nodes', head, tail + 1) == Items(nodes, head, tail) + [item]
  {
    WindowInjective(head, |nodes|);
  }

  /** Handing back the oldest slot, one lap on, drops its item. */
  lemma PopItems<T>(nodes: seq<Node<T>>, head: nat, tail: nat, item: T)
    requires head < tail <= head + |nodes| && Sequenced(nodes, head, tail)
    ensures var nodes' := nodes[Slot(head, |nodes|) := Node(head + |nodes|, item)];
            && Sequenced(nodes', head + 1, tail)
            && Items(nodes', head + 1, tail) == Items(nodes, head, tail)[1..]
    ensures Items(nodes, head, tail)[0] == nodes[Slot(head, |nodes|)].data
  {
    WindowInjective(head, |nodes|);
    SlotNextLap(head, |nodes|);
  }

  function Copies<T>(n: nat, item: T): (s: seq<T>)
    ensures |s| == n
  {
    seq(n, _ => item)
  }

  /** With one slot there always seems to be room. */
  predicate Room(slots: nat, count: nat) {
    slots == 1 || count < slots
  }

  /** What pushing `items` one after the other leaves, if all are accepted. */
  function Extended<T>(slots: nat, contents: seq<T>, items: seq<T>): (s: seq<T>)
    ensures |s| == |contents| + |items|
  {
    if slots == 1 && items != [] then Copies(|contents| + |items|, items[|items| - 1]) else contents + items
  }

  /** One more push of a batch. */
  lemma ExtendedMore<T>(slots: nat, contents: seq<T>, items: seq<T>, i: nat)
    requires i < |items|
    ensures Extended(slots, Extended(slots, contents, items[..i]), [items[i]]) ==
            Extended(slots, contents, items[..i + 1])
  {
    assert items[..i + 1] == items[..i] + [items[i]];
    assert contents + items[..i + 1] == contents + items[..i] + [items[i]];
  }

  /** On a ring of one slot all items are the one pushed last. */
  lemma OneSlotItems<T>(nodes: seq<Node<T>>, head: nat, tail: nat)
    requires |nodes| == 1 && head <= tail
    ensures Items(nodes, head, tail) == Copies(tail - head, nodes[0].data)
  {
    forall k | 0 <= k < tail - head ensures Items(nodes, head, tail)[k] == nodes[0].data {
      assert Slot(head + k, 1) == 0;
    }
  }

  /** What the two positions and the sequences say about each other between calls. */
  ghost predicate ValidRing<T>(nodes: seq<Node<T>>, head: nat, tail: nat) {
    && head <= tail
    && if |nodes| == 1 then nodes[0].sequence == tail
       else tail <= head + |nodes| && Sequenced(nodes, head, tail)
  }

  /** Something can be popped: with one slot, only if exactly one push was made. */
  predicate Poppable(slots: nat, count: nat) {
    if slots == 1 then count == 1 else count > 0
  }

  /** What the sequence at a position in or just after the lap says. */
  lemma Verdicts<T>(nodes: seq<Node<T>>, head: nat, tail: nat)
    requires head <= tail <= head + |nodes| && |nodes| >= 2 && Sequenced(nodes, head, tail)
    ensures nodes[Slot(tail, |nodes|)].sequence <= tail
    ensures nodes[Slot(tail, |nodes|)].sequence == tail <==> tail < head + |nodes|
    ensures nodes[Slot(head, |nodes|)].sequence == head + 1 <==> head < tail
  {
    SlotNextLap(head, |nodes|);
  }

  /** The sequence at the dequeue position tells whether something can be popped. */
  lemma PopVerdict<T>(nodes: seq<Node<T>>, head: nat, tail: nat)
    requires nodes != [] && ValidRing(nodes, head, tail)
    ensures nodes[Slot(head, |nodes|)].sequence == head + 1 <==> Poppable(|nodes|, tail - head)
  {
    if |nodes| > 1 {
      Verdicts(nodes, head, tail);
    }
  }

  /** What a successful `Pop` does to a ring of any size. */
  lemma PopRing<T>(nodes: seq<Node<T>>, head: nat, tail: nat, item: T)
    requires nodes != [] && ValidRing(nodes, head, tail) && Poppable(|nodes|, tail - head)
    ensures var nodes' := nodes[Slot(head, |nodes|) := Node(head + |nodes|, item)];
            ValidRing(nodes', head + 1, tail) && Items(nodes', head + 1, tail) == Items(nodes, head, tail)[1..]
    ensures Items(nodes, head, tail)[0] == nodes[Slot(head, |nodes|)].data
  {
    if |nodes| > 1 {
      PopItems(nodes, head, tail, item);
    } else {
      assert Slot(head, 1) == 0;
    }
  }

  lemma OneMorePopped<T>(popped: seq<T>, item: T, rest: seq<T>)
    ensures popped + ([item] + rest) == (popped + [item]) + rest
  {}

  /**
   * `MPSCQueue` between calls; capacity 0 stands for the null pool of a queue without `Init`. With
   * one slot, which only `Reserve` accepts, it is no FIFO: a push overwrites all that is queued.
   */
  class MpscQueue<T> {
    var pool: array<Node<T>>
    var enqueuePos: nat
    var dequeuePos: nat

    ghost predicate Valid()
      reads this, pool
    {
      ValidRing(pool[..], dequeuePos, enqueuePos)
    }

    ghost function Contents(): (s: seq<T>)
      requires Valid()
      reads this, pool
      ensures |s| == enqueuePos - dequeuePos
    {
      Items(pool[..], dequeuePos, enqueuePos)
    }

    constructor ()
      ensures Valid() && pool.Length == 0 && Contents() == []
    {
      pool := new Node<T>[0];
      enqueuePos, dequeuePos := 0, 0;
    }

    /** A pool of `n` nodes with sequences 0, 1, ... */
    method FreshPool(n: nat, blank: T) returns (nodes: array<Node<T>>)
      ensures fresh(nodes) && nodes.Length == n
      ensures forall i: nat | i < n :: nodes[i].sequence == i
    {
      nodes := new Node<T>[n](_ => Node(0, blank));
      for i := 0 to n
        invariant forall k: nat | k < i :: nodes[k].sequence == k
      {
        nodes[i] := Node(i, nodes[i].data);
      }
    }

    /** Fewer than two slots are refused, and leave the queue without a pool. */
    method Init(capacity: nat, blank: T) returns (ok: bool)
      modifies this
      ensures Valid() && Contents() == [] && fresh(pool)
      ensures ok <==> capacity >= 2
      ensures pool.Length == if ok then capacity else 0
    {
      enqueuePos, dequeuePos := 0, 0;
      if capacity < 2 {
        pool := new Node<T>[0];
        return false;
      }
      pool := FreshPool(capacity, blank);
      ok := true;
    }

    /** Grows an empty queue and refuses to grow any other. Unlike `Init` it accepts one slot. */
    method Reserve(newCapacity: nat, blank: T) returns (ok: bool)
      requires Valid()
      modifies this
      ensures ok <==> newCapacity <= old(pool.Length) || old(Contents()) == []
      ensures pool.Length == if ok && newCapacity > old(pool.Length) then newCapacity else old(pool.Length)
      ensures Valid() && Contents() == old(Contents())
      ensures pool == old(pool) || fresh(pool)
    {
      if newCapacity <= pool.Length {
        return true;
      }
      if enqueuePos != dequeuePos {
        return false;
      }
      pool := FreshPool(newCapacity, blank);
      enqueuePos, dequeuePos := 0, 0;
      ok := true;
    }

    /** True exactly when there is room; then the item is the newest one, or all there is on one slot. */
    method Push(item: T) returns (ok: bool)
      requires Valid()
      modifies this`enqueuePos, pool
      ensures Valid()
      ensures ok <==> Room(pool.Length, |old(Contents())|)
      ensures Contents() == if ok then Extended(pool.Length, old(Contents()), [item]) else old(Contents())
    {
      if pool.Length == 0 {
        return false;
      }
      if pool.Length > 1 {
        Verdicts(pool[..], dequeuePos, enqueuePos);
      }
      var pos := enqueuePos;
      var claimed := false;
      while !claimed
        invariant !claimed ==> pos == enqueuePos == old(enqueuePos)
        invariant claimed ==> pos == old(enqueuePos) && enqueuePos == pos + 1
        invariant claimed ==> Room(pool.Length, pos - dequeuePos)
        invariant pool[..] == old(pool[..])
        decreases !claimed
      {
        var difference := pool[Slot(pos, pool.Length)].sequence - pos;
        if difference == 0 {
          if enqueuePos == pos {
            enqueuePos := pos + 1;
            claimed := true;
          } else {
            pos := enqueuePos;
          }
        } else if difference < 0 {
          return false;
        } else {
          pos := enqueuePos;
        }
      }
      if pool.Length > 1 {
        PushItems(pool[..], dequeuePos, pos, item);
      }
      var slot := Slot(pos, pool.Length);
      pool[slot] := Node(pool[slot].sequence, item);
      pool[slot] := Node(pos + 1, pool[slot].data);
      assert pool[..] == old(pool[..])[slot := Node(pos + 1, item)];
      if pool.Length == 1 {
        OneSlotItems(pool[..], dequeuePos, enqueuePos);
      }
      ok := true;
    }

    /** True exactly when there is an item to pop; then it is the oldest one. */
    method Pop(blank: T) returns (ok: bool, item: T)
      requires Valid()
      modifies this`dequeuePos, pool
      ensures Valid()
      ensures ok <==> Poppable(pool.Length, |old(Contents())|)
      ensures ok ==> item == old(Contents())[0] && Contents() == old(Contents())[1..]
      ensures !ok ==> item == blank && Contents() == old(Contents())
    {
      item := blank;
      if pool.Length == 0 {
        return false, item;
      }
      PopVerdict(pool[..], dequeuePos, enqueuePos);
      var pos := dequeuePos;
      var slot := Slot(pos, pool.Length);
      if pool[slot].sequence != pos + 1 {
        return false, item;
      }
      PopRing(pool[..], pos, enqueuePos, pool[slot].data);
      item := pool[slot].data;
      dequeuePos := pos + 1;
      pool[slot] := Node(pos + pool.Length, item);
      assert pool[..] == old(pool[..])[slot := Node(pos + pool.Length, item)];
      ok := true;
    }

    /** Pushes a prefix of the items, as much as there is room for. */
    method PushBatch(items: seq<T>) returns (pushed: nat)
      requires Valid()
      modifies this`enqueuePos, pool
      ensures Valid()
      ensures pushed <= |items| && Contents() == Extended(pool.Length, old(Contents()), items[..pushed])
      ensures pool.Length == 1 ==> pushed == |items|
      ensures pool.Length != 1 ==> |old(Contents())| + pushed <= pool.Length
      ensures pushed == |items| || |old(Contents())| + pushed == pool.Length
    {
      pushed := 0;
      for i := 0 to |items|
        invariant pushed == i && Valid()
        invariant Contents() == Extended(pool.Length, old(Contents()), items[..i])
        invariant pool.Length != 1 ==> |old(Contents())| + i <= pool.Length
      {
        var ok := Push(items[i]);
        if !ok {
          break;
        }
        ExtendedMore(pool.Length, old(Contents()), items, i);
        pushed := pushed + 1;
      }
    }

    /** Pops up to `count` items, oldest first. */
    method PopBatch(count: nat, blank: T) returns (items: seq<T>)
      requires Valid()
      modifies this`dequeuePos, pool
      ensures Valid()
      ensures |items| <= count && old(Contents()) == items + Contents()
      ensures |items| == count || !Poppable(pool.Length, |Contents()|)
    {
      items := [];
      for i := 0 to count
        invariant |items| == i && Valid()
        invariant old(Contents()) == items + Contents()
      {
        ghost var before := Contents();
        var ok, item := Pop(blank);
        if !ok {
          break;
        }
        assert before == [item] + Contents();
        OneMorePopped(items, item, Contents());
        items := items + [item];
      }
    }

    method Empty() returns (empty: bool)
      requires Valid()
      ensures empty <==> !Poppable(pool.Length, |Contents()|)
    {
      if pool.Length == 0 {
        return true;
      }
      PopVerdict(pool[..], dequeuePos, enqueuePos);
      empty := pool[Slot(dequeuePos, pool.Length)].sequence != dequeuePos + 1;
    }

    method SizeApprox() returns (size: nat)
      requires Valid()
      ensures size == |Contents()|
    {
      size := enqueuePos - dequeuePos;
    }
  }

  // ---------------------------------------------------------------- the two-index ring

  ghost function Between<T>(buffer: seq<T>, read: nat, size: nat): (s: seq<T>)
    requires |buffer| > 0
    ensures |s| == size
  {
    seq(size, k requires 0 <= k < size => buffer[Slot(read + k, |buffer|)])
  }

  /** `size` slots after `read` is the write index exactly when the indices are `size` apart. */
  lemma DistanceIs(read: nat, size: nat, cap: nat)
    requires read < cap && size < cap
    ensures Distance(read, Slot(read + size, cap), cap) == size
    ensures Slot(Slot(read + size, cap) + 1, cap) == read <==> size == cap - 1
  {
    RingDistance(read, read + size, cap);
    SlotSuccessor(read + size, cap);
    SlotNextLap(read, cap);
    if Slot(read + size + 1, cap) == read {
      SlotInjective(read + size + 1, read + cap, cap);
    }
  }

  lemma WriteIsRead(read: nat, write: nat, cap: nat)
    requires read < cap && write < cap
    ensures Slot(read + Distance(read, write, cap), cap) == write
  {
    SlotNextLap(write, cap);
  }

  lemma AppendItem<T>(buffer: seq<T>, read: nat, size: nat, item: T)
    requires read < |buffer| && size < |buffer|
    ensures Between(buffer[Slot(read + size, |buffer|) := item], read, size + 1) == Between(buffer, read, size) + [item]
  {
    WindowInjective(read, |buffer|);
  }

  lemma DropItem<T>(buffer: seq<T>, read: nat, size: nat)
    requires read < |buffer| && 0 < size < |buffer|
    ensures Between(buffer, Slot(read + 1, |buffer|), size - 1) == Between(buffer, read, size)[1..]
    ensures Slot(Slot(read + 1, |buffer|) + (size - 1), |buffer|) == Slot(read + size, |buffer|)
    ensures Between(buffer, read, size)[0] == buffer[read]
  {
    assert Between(buffer, read, size)[0] == buffer[Slot(read + 0, |buffer|)];
    var after := Between(buffer, Slot(read + 1, |buffer|), size - 1);
    forall k: nat | k < size - 1 ensures after[k] == Between(buffer, read, size)[k + 1] {
      SlotPlus(read + 1, k, |buffer|);
    }
    SlotPlus(read + 1, size - 1, |buffer|);
  }

  /** `SPSCQueue` between calls of the two sides; it is valid once `Init` has succeeded. */
  class SpscQueue<T> {
    var buffer: array<T>
    var readIdx: nat
    var writeIdx: nat

    ghost predicate Valid()
      reads this, buffer
    {
      readIdx < buffer.Length && writeIdx < buffer.Length
    }

    ghost function Contents(): seq<T>
      requires Valid()
      reads this, buffer
    {
      Between(buffer[..], readIdx, Distance(readIdx, writeIdx, buffer.Length))
    }

    /** Without a buffer, until `Init` succeeds. */
    constructor ()
      ensures buffer.Length == 0
    {
      buffer := new T[0];
      readIdx, writeIdx := 0, 0;
    }

    /** Any positive capacity is accepted; capacity 0 leaves the queue without a buffer. */
    method Init(capacity: nat, blank: T) returns (ok: bool)
      modifies this
      ensures ok <==> capacity > 0
      ensures ok ==> Valid() && Contents() == [] && fresh(buffer)
      ensures buffer.Length == capacity
    {
      if capacity == 0 {
        buffer := new T[0];
        return false;
      }
      buffer := new T[capacity](_ => blank);
      readIdx, writeIdx := 0, 0;
      ok := true;
    }

    /** True exactly when fewer than capacity - 1 items are queued. */
    method Push(item: T) returns (ok: bool)
      requires Valid()
      modifies this`writeIdx, buffer
      ensures Valid()
      ensures ok <==> |old(Contents())| < buffer.Length - 1
      ensures Contents() == if ok then old(Contents()) + [item] else old(Contents())
    {
      ghost var size := Distance(readIdx, writeIdx, buffer.Length);
      WriteIsRead(readIdx, writeIdx, buffer.Length);
      DistanceIs(readIdx, size, buffer.Length);
      var write := writeIdx;
      var next := Slot(write + 1, buffer.Length);
      if next == readIdx {
        return false;
      }
      AppendItem(buffer[..], readIdx, size, item);
      SlotSuccessor(readIdx + size, buffer.Length);
      DistanceIs(readIdx, size + 1, buffer.Length);
      buffer[write] := item;
      assert buffer[..] == old(buffer[..])[write := item];
      writeIdx := next;
      ok := true;
    }

    /** True exactly when something is queued; then the item is the oldest one. */
    method Pop(blank: T) returns (ok: bool, item: T)
      requires Valid()
      modifies this`readIdx
      ensures Valid()
      ensures ok <==> old(Contents()) != []
      ensures ok ==> item == old(Contents())[0] && Contents() == old(Contents())[1..]
      ensures !ok ==> item == blank && Contents() == old(Contents())
    {
      ghost var size := Distance(readIdx, writeIdx, buffer.Length);
      WriteIsRead(readIdx, writeIdx, buffer.Length);
      var read := readIdx;
      if read == writeIdx {
        return false, blank;
      }
      DropItem(buffer[..], read, size);
      item := buffer[read];
      readIdx := Slot(read + 1, buffer.Length);
      DistanceIs(readIdx, size - 1, buffer.Length);
      ok := true;
    }

    method Empty() returns (empty: bool)
      requires Valid()
      ensures empty <==> Contents() == []
    {
      empty := readIdx == writeIdx;
    }

    method Full() returns (full: bool)
      requires Valid()
      ensures full <==> |Contents()| == buffer.Length - 1
    {
      WriteIsRead(readIdx, writeIdx, buffer.Length);
      DistanceIs(readIdx, Distance(readIdx, writeIdx, buffer.Length), buffer.Length);
      full := Slot(writeIdx + 1, buffer.Length) == readIdx;
    }

    method SizeApprox() returns (size: nat)
      requires Valid()
      ensures size == |Contents()|
    {
      size := if writeIdx >= readIdx then writeIdx - readIdx else buffer.Length - (readIdx - writeIdx);
    }
  }
}
