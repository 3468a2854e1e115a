/**
 * The intrusive free list: each free block holds the address of the next one in its first word.
 * `Memory` maps the address of a block to that word; address 0 is the null pointer.
 */
module FreeList {
  import opened Sequences
  import opened Word

  type Addr = nat

  type Memory = map<Addr, Addr>

  /** Following the links from `head` visits exactly the blocks of `s` and then finds null. */
  predicate Chain(next: Memory, head: Addr, s: seq<Addr>)
    decreases s
  {
    if s == [] then head == 0
    else head == s[0] != 0 && head in next && Chain(next, next[head], s[1..])
  }

  /** Writes to blocks that are not in the list leave the list alone. */
  lemma {:induction false} ChainFrame(next: Memory, next': Memory, head: Addr, s: seq<Addr>)
    requires Chain(next, head, s)
    requires forall a | a in s :: a in next' && next'[a] == (if a in next then next[a] else 0)
    ensures Chain(next', head, s)
    decreases s
  {
    if s != [] {
      ChainFrame(next, next', next[head], s[1..]);
    }
  }

  /** There is only one list from a given head. */
  lemma {:induction false} ChainUnique(next: Memory, head: Addr, s: seq<Addr>, t: seq<Addr>)
    requires Chain(next, head, s) && Chain(next, head, t)
    ensures s == t
    decreases s
  {
    if s != [] {
      assert t != [];
      ChainUnique(next, next[head], s[1..], t[1..]);
    }
  }

  lemma {:induction false} ChainTail(next: Memory, head: Addr, s: seq<Addr>, i: nat)
    requires Chain(next, head, s) && i < |s|
    ensures Chain(next, s[i], s[i..])
    decreases s
  {
    if i > 0 {
      ChainTail(next, next[head], s[1..], i - 1);
      assert s[1..][i - 1..] == s[i..];
    }
  }

  /** A list that ends in null never visits a block twice. */
  lemma ChainIsAcyclic(next: Memory, head: Addr, s: seq<Addr>)
    requires Chain(next, head, s)
    ensures NoDuplicates(s)
  {
    forall i, j | 0 <= i < j < |s| ensures s[i] != s[j] {
      ChainTail(next, head, s, i);
      ChainTail(next, head, s, j);
      if s[i] == s[j] {
        ChainUnique(next, s[i], s[i..], s[j..]);
      }
    }
  }

  lemma {:induction false} ChainInMemory(next: Memory, head: Addr, s: seq<Addr>)
    requires Chain(next, head, s)
    ensures forall a | a in s :: a in next && a != 0
    decreases s
  {
    if s != [] {
      ChainInMemory(next, next[head], s[1..]);
    }
  }

  /** `Push` of a block that is not in the list. */
  lemma PushChain(next: Memory, head: Addr, s: seq<Addr>, ptr: Addr)
    requires Chain(next, head, s) && ptr != 0 && ptr !in s
    ensures Chain(next[ptr := head], ptr, [ptr] + s)
  {
    ChainInMemory(next, head, s);
    ChainFrame(next, next[ptr := head], head, s);
    assert ([ptr] + s)[1..] == s;
  }

  /** Along a list, pushing `ptr` changes nothing until the walk arrives at `ptr`. */
  lemma {:induction false} WalkReaches(next: Memory, h: Addr, head: Addr, s: seq<Addr>, ptr: Addr, t: seq<Addr>)
    requires Chain(next, head, s) && ptr in s
    requires Chain(next[ptr := h], head, t)
    ensures ptr in t
    decreases s
  {
    if head != ptr {
      assert t != [];
      WalkReaches(next, h, next[head], s[1..], ptr, t[1..]);
    }
  }

  ghost predicate IsList(next: Memory, head: Addr) {
    exists s: seq<Addr> :: Chain(next, head, s)
  }

  /** Pushing a block gives a null-terminated list exactly when the block was not in the list yet. */
  lemma PushKeepsListIff(next: Memory, head: Addr, s: seq<Addr>, ptr: Addr)
    requires Chain(next, head, s) && ptr != 0
    ensures IsList(next[ptr := head], ptr) <==> ptr !in s
  {
    if ptr !in s {
      PushChain(next, head, s, ptr);
    } else {
      var next' := next[ptr := head];
      forall t: seq<Addr> | Chain(next', ptr, t) ensures false {
        ChainIsAcyclic(next', ptr, t);
        WalkReaches(next, head, head, s, ptr, t[1..]);
      }
    }
  }

  // ---------------------------------------------------------------- carving a chunk

  /** The size of `n` blocks, counted up so that proofs need no multiplication. */
  function Bytes(n: nat, size: nat): nat {
    if n == 0 then 0 else Bytes(n - 1, size) + size
  }

  lemma {:induction false} BytesIsProduct(n: nat, size: nat)
    ensures Bytes(n, size) == n * size
  {
    if n > 0 {
      BytesIsProduct(n - 1, size);
    }
  }

  lemma {:induction false} BytesGap(i: nat, j: nat, size: nat)
    requires i < j
    ensures Bytes(i, size) + size <= Bytes(j, size)
  {
    if i < j - 1 {
      BytesGap(i, j - 1, size);
    }
  }

  /** The addresses of the first `n` blocks of a chunk, in address order. */
  function Carve(base: Addr, n: nat, size: nat): (s: seq<Addr>)
    ensures |s| == n
  {
    if n == 0 then [] else Carve(base, n - 1, size) + [base + Bytes(n - 1, size)]
  }

  lemma {:induction false} CarveAt(base: Addr, n: nat, size: nat, i: nat)
    requires i < n
    ensures Carve(base, n, size)[i] == base + Bytes(i, size)
  {
    if i < n - 1 {
      CarveAt(base, n - 1, size, i);
    }
  }

  /** Blocks of one chunk do not overlap. */
  lemma CarveSpaced(base: Addr, n: nat, size: nat, i: nat, j: nat)
    requires i < j < n
    ensures Carve(base, n, size)[i] + size <= Carve(base, n, size)[j]
  {
    CarveAt(base, n, size, i);
    CarveAt(base, n, size, j);
    BytesGap(i, j, size);
  }

  lemma CarveInside(base: Addr, n: nat, size: nat, i: nat)
    requires i < n
    ensures base <= Carve(base, n, size)[i]
    ensures Carve(base, n, size)[i] + size <= base + Bytes(n, size)
  {
    CarveAt(base, n, size, i);
    BytesGap(i, n, size);
  }

  /** The blocks of a chunk are different addresses exactly when the block size is positive. */
  lemma CarveDistinctIff(base: Addr, n: nat, size: nat)
    ensures NoDuplicates(Carve(base, n, size)) <==> size > 0 || n <= 1
  {
    var s := Carve(base, n, size);
    if size > 0 {
      forall i, j | 0 <= i < j < n ensures s[i] != s[j] {
        CarveSpaced(base, n, size, i, j);
      }
    } else if n > 1 {
      CarveAt(base, n, size, 0);
      CarveAt(base, n, size, 1);
    }
  }

  // ---------------------------------------------------------------- alignment

  /** `align_up(size, 16)` on 64-bit unsigned integers. */
  function AlignUp(size: nat): nat {
    var sum := Wrapped(size + 15);
    sum - sum % 16
  }

  /** The least multiple of 16 that is at least `size`, unless the addition wraps around. */
  lemma AlignUpIsLeast(size: nat)
    requires size < TWO_TO_THE_64
    ensures AlignUp(size) % 16 == 0
    ensures size <= TWO_TO_THE_64 - 16 ==> size <= AlignUp(size) < size + 16
    ensures size > TWO_TO_THE_64 - 16 ==> AlignUp(size) == 0
    ensures AlignUp(size) > 0 <==> 0 < size <= TWO_TO_THE_64 - 16
  {
    if size > TWO_TO_THE_64 - 16 {
      assert Wrapped(size + 15) == size + 15 - TWO_TO_THE_64;
    }
  }

  /** Clearing the low four bits, as the code does, is the same as subtracting the remainder. */
  lemma MaskIsTruncation(x: bv64)
    ensures x & !15 == x - x % 16
  {}
}
