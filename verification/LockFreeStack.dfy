/** The stack that the pools thread through their free blocks, each call taken as atomic. */
module LockFreeStack {
  import opened FreeList

  /** The first words of all blocks. */
  class Heap {
    var next: Memory

    constructor ()
      ensures next == map[]
    {
      next := map[];
    }
  }

  class Stack {
    var head: Addr

    constructor ()
      ensures head == 0
    {
      head := 0;
    }

    /** The list that starts at `head` is `items`. */
    ghost predicate Represents(heap: Heap, items: seq<Addr>)
      reads this, heap
    {
      Chain(heap.next, head, items)
    }

    method Push(heap: Heap, ptr: Addr, ghost items: seq<Addr>)
      requires Represents(heap, items) && ptr != 0 && ptr !in items
      modifies this, heap
      ensures Represents(heap, [ptr] + items)
      ensures heap.next == old(heap.next)[ptr := old(head)] && head == ptr
    {
      PushChain(heap.next, head, items, ptr);
      heap.next := heap.next[ptr := head];
      head := ptr;
    }

    method Pop(heap: Heap, ghost items: seq<Addr>) returns (ptr: Addr)
      requires Represents(heap, items)
      modifies this
      ensures ptr == 0 <==> items == []
      ensures ptr != 0 ==> ptr == items[0] && Represents(heap, items[1..])
      ensures ptr == 0 ==> Represents(heap, items)
    {
      ptr := head;
      if ptr != 0 {
        head := heap.next[ptr];
      }
    }
  }
}
