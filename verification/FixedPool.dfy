/** The growing pool of blocks of one size. */
module FixedPool {
  import opened FreeList
  import opened Sequences
  import opened Word
  import opened LockFreeStack

  /** A chunk obtained from `new char[]`: its address and how many blocks it is cut into. */
  datatype Chunk = Chunk(base: Addr, blocks: nat)

  function End(c: Chunk, size: nat): Addr {
    c.base + Bytes(c.blocks, size)
  }

  /** Every block that was ever cut. */
  function AllBlocks(chunks: seq<Chunk>, size: nat): set<Addr> {
    if chunks == [] then {}
    else
      var last := chunks[|chunks| - 1];
      AllBlocks(chunks[..|chunks| - 1], size) + Elements(Carve(last.base, last.blocks, size))
  }

  /** `new char[]` returns a non-null region that overlaps no earlier chunk. */
  predicate FreshChunk(chunks: seq<Chunk>, c: Chunk, size: nat) {
    && c.base > 0
    && forall d | d in chunks :: End(d, size) <= c.base || End(c, size) <= d.base
  }

  /** Blocks do not overlap. */
  ghost predicate Spaced(blocks: set<Addr>, size: nat) {
    forall a, b | a in blocks && b in blocks && a < b :: a + size <= b
  }

  ghost predicate InsideSome(chunks: seq<Chunk>, a: Addr, size: nat) {
    exists c :: c in chunks && c.base <= a && a + size <= End(c, size)
  }

  lemma {:induction false} BlocksInside(chunks: seq<Chunk>, size: nat, a: Addr)
    requires a in AllBlocks(chunks, size)
    ensures InsideSome(chunks, a, size)
  {
    var n := |chunks| - 1;
    var last := chunks[n];
    if a in Elements(Carve(last.base, last.blocks, size)) {
      var i :| 0 <= i < last.blocks && Carve(last.base, last.blocks, size)[i] == a;
      CarveInside(last.base, last.blocks, size, i);
    } else {
      BlocksInside(chunks[..n], size, a);
    }
  }

  lemma CarvedBlock(c: Chunk, size: nat, a: Addr)
    requires a in Elements(Carve(c.base, c.blocks, size))
    ensures c.base <= a && a + size <= End(c, size)
  {
    var i :| 0 <= i < c.blocks && Carve(c.base, c.blocks, size)[i] == a;
    CarveInside(c.base, c.blocks, size, i);
  }

  lemma CarvedSpaced(c: Chunk, size: nat)
    ensures Spaced(Elements(Carve(c.base, c.blocks, size)), size)
  {
    var s := Carve(c.base, c.blocks, size);
    forall a, b | a in s && b in s && a < b ensures a + size <= b {
      var i :| 0 <= i < |s| && s[i] == a;
      var j :| 0 <= j < |s| && s[j] == b;
      if i < j {
        CarveSpaced(c.base, c.blocks, size, i, j);
      } else {
        CarveSpaced(c.base, c.blocks, size, j, i);
      }
    }
  }

  /** Cutting a fresh chunk adds new blocks and keeps all blocks apart. */
  lemma FreshBlocks(chunks: seq<Chunk>, c: Chunk, size: nat)
    requires size > 0 && FreshChunk(chunks, c, size) && Spaced(AllBlocks(chunks, size), size)
    ensures AllBlocks(chunks + [c], size) == AllBlocks(chunks, size) + Elements(Carve(c.base, c.blocks, size))
    ensures AllBlocks(chunks, size) !! Elements(Carve(c.base, c.blocks, size))
    ensures Spaced(AllBlocks(chunks + [c], size), size)
    ensures forall a | a in Elements(Carve(c.base, c.blocks, size)) :: a > 0
  {
    var before, added := AllBlocks(chunks, size), Elements(Carve(c.base, c.blocks, size));
    assert (chunks + [c])[..|chunks|] == chunks;
    CarvedSpaced(c, size);
    forall a, b | a in before && b in added ensures a + size <= b || b + size <= a {
      BlocksInside(chunks, size, a);
      CarvedBlock(c, size, b);
    }
    forall a | a in added ensures a > 0 {
      CarvedBlock(c, size, a);
    }
  }

  /** A carved sequence without repetition has as many addresses as entries. */
  lemma {:induction false} DistinctSize(s: seq<Addr>)
    requires NoDuplicates(s)
    ensures |Elements(s)| == |s|
  {
    if s != [] {
      DistinctSize(s[1..]);
      assert Elements(s) == {s[0]} + Elements(s[1..]);
    }
  }

  /** Every block is either free or in a client's hands, never both. */
  ghost predicate Partition(blocks: set<Addr>, free: seq<Addr>, live: set<Addr>) {
    Elements(free) + live == blocks && Elements(free) !! live
  }

  function BlockCount(chunks: seq<Chunk>): nat {
    if chunks == [] then 0
    else BlockCount(chunks[..|chunks| - 1]) + chunks[|chunks| - 1].blocks
  }

  lemma {:induction false} BytesOfSum(a: nat, b: nat, size: nat)
    ensures Bytes(a + b, size) == Bytes(a, size) + Bytes(b, size)
  {
    if b > 0 {
      BytesOfSum(a, b - 1, size);
    }
  }

  /** Each chunk was fresh when it was added. */
  predicate Separate(chunks: seq<Chunk>, size: nat) {
    if chunks == [] then true
    else
      var n := |chunks| - 1;
      FreshChunk(chunks[..n], chunks[n], size) && Separate(chunks[..n], size)
  }

  /** Blocks are apart, not null, and as many as the chunks were cut into. */
  ghost predicate WellCut(chunks: seq<Chunk>, size: nat) {
    && Spaced(AllBlocks(chunks, size), size)
    && 0 !in AllBlocks(chunks, size)
    && |AllBlocks(chunks, size)| == BlockCount(chunks)
  }

  lemma FreshWellCut(chunks: seq<Chunk>, c: Chunk, size: nat)
    requires size > 0 && FreshChunk(chunks, c, size) && WellCut(chunks, size)
    ensures WellCut(chunks + [c], size)
  {
    FreshBlocks(chunks, c, size);
    CarveDistinctIff(c.base, c.blocks, size);
    DistinctSize(Carve(c.base, c.blocks, size));
    assert (chunks + [c])[..|chunks|] == chunks;
  }

  /** Separate chunks are well cut. */
  lemma {:induction false} SeparateBlocks(chunks: seq<Chunk>, size: nat)
    requires size > 0 && Separate(chunks, size)
    ensures WellCut(chunks, size)
  {
    if chunks != [] {
      var n := |chunks| - 1;
      assert chunks == chunks[..n] + [chunks[n]];
      assert FreshChunk(chunks[..n], chunks[n], size) && Separate(chunks[..n], size);
      assert WellCut(chunks[..n] + [chunks[n]], size) by {
        SeparateBlocks(chunks[..n], size);
        FreshWellCut(chunks[..n], chunks[n], size);
      }
    }
  }

  /** What changes when one more chunk is cut. */
  lemma CutMore(chunks: seq<Chunk>, c: Chunk, size: nat)
    requires size > 0 && FreshChunk(chunks, c, size) && Separate(chunks, size)
    ensures Separate(chunks + [c], size)
    ensures BlockCount(chunks + [c]) == BlockCount(chunks) + c.blocks
    ensures AllBlocks(chunks + [c], size) == AllBlocks(chunks, size) + Elements(Carve(c.base, c.blocks, size))
    ensures AllBlocks(chunks, size) !! Elements(Carve(c.base, c.blocks, size))
    ensures NoDuplicates(Carve(c.base, c.blocks, size)) && 0 !in Elements(Carve(c.base, c.blocks, size))
  {
    SeparateBlocks(chunks, size);
    FreshBlocks(chunks, c, size);
    CarveDistinctIff(c.base, c.blocks, size);
    assert (chunks + [c])[..|chunks|] == chunks;
  }

  lemma PartitionGrows(blocks: set<Addr>, free: seq<Addr>, live: set<Addr>, added: set<Addr>, free': seq<Addr>)
    requires Partition(blocks, free, live) && blocks !! added && Elements(free') == Elements(free) + added
    ensures Partition(blocks + added, free', live)
  {}

  lemma PartitionTakes(blocks: set<Addr>, free: seq<Addr>, live: set<Addr>)
    requires Partition(blocks, free, live) && free != [] && NoDuplicates(free)
    ensures Partition(blocks, free[1..], live + {free[0]})
    ensures free[0] !in live
  {
    assert free == [free[0]] + free[1..];
  }

  /** Two blocks of a partition of spaced blocks. */
  lemma BlockOfPartition(blocks: set<Addr>, free: seq<Addr>, live: set<Addr>, size: nat, a: Addr, b: Addr)
    requires Partition(blocks, free, live) && Spaced(blocks, size) && 0 !in blocks
    requires (a in live || a in free) && (b in live || b in free)
    ensures a in blocks && (a < b ==> a + size <= b) && a > 0
    ensures a in live <==> a !in free
  {
    assert forall x: Addr :: x in free <==> x in Elements(free);
  }

  lemma PartitionGives(blocks: set<Addr>, free: seq<Addr>, live: set<Addr>, ptr: Addr)
    requires Partition(blocks, free, live) && ptr in live
    ensures Partition(blocks, [ptr] + free, live - {ptr})
    ensures ptr !in free && ptr in blocks
  {}

  /** All that holds between two calls once a fresh chunk was cut and its blocks were pushed. */
  lemma CutKeepsBooks(chunks: seq<Chunk>, c: Chunk, size: nat, free: seq<Addr>, free': seq<Addr>, live: set<Addr>)
    requires size > 0 && FreshChunk(chunks, c, size) && Separate(chunks, size)
    requires Partition(AllBlocks(chunks, size), free, live)
    requires Elements(free') == Elements(free) + Elements(Carve(c.base, c.blocks, size))
    ensures Partition(AllBlocks(chunks + [c], size), free', live)
    ensures Separate(chunks + [c], size)
    ensures Bytes(BlockCount(chunks + [c]), size) == Bytes(BlockCount(chunks), size) + Bytes(c.blocks, size)
  {
    CutMore(chunks, c, size);
    BytesOfSum(BlockCount(chunks), c.blocks, size);
    PartitionGrows(AllBlocks(chunks, size), free, live, Elements(Carve(c.base, c.blocks, size)), free');
  }

  lemma MultipleIsNatural(n: nat, factor: real)
    requires factor > 1.0
    ensures n as real * factor >= n as real
    ensures (n as real * factor).Floor >= n
    ensures (n as real * factor).Floor == 0 <==> n == 0
  {}

  /** The first chunk has the configured number of blocks, later ones that number times the factor. */
  function BlocksInChunk(perChunk: nat, factor: real, first: bool): (n: nat)
    ensures n == 0 <==> perChunk == 0
    ensures first || factor <= 1.0 ==> n == perChunk
    ensures !first && factor > 1.0 ==> n as real <= perChunk as real * factor < (n + 1) as real
  {
    if factor > 1.0 && !first then
      MultipleIsNatural(perChunk, factor);
      (perChunk as real * factor).Floor
    else perChunk
  }

  lemma CarveNonEmpty(base: Addr, n: nat, size: nat)
    ensures Elements(Carve(base, n, size)) == {} <==> n == 0
  {
    if n > 0 {
      assert Carve(base, n, size)[0] in Elements(Carve(base, n, size));
    }
  }

  /** What taking the first block leaves. */
  lemma TakenFrom(list: seq<Addr>, rest: seq<Addr>, ptr: Addr)
    requires list != [] && NoDuplicates(list) && ptr == list[0] && rest == list[1..]
    ensures Elements(rest) + {ptr} == Elements(list) && ptr !in rest
  {
    assert list == [ptr] + rest;
  }

  class FixedSizeMemoryPool {
    const heap: Heap
    const freeList: Stack
    const blockSize: nat
    const blocksPerChunk: nat
    var chunks: seq<Chunk>
    var maxChunks: nat
    var growFactor: real
    var isExpanding: bool
    var totalAllocated: nat

    /** The free list as a sequence, and the blocks in the hands of clients. */
    ghost var free: seq<Addr>
    ghost var live: set<Addr>

    /** Everything but the expansion flag, which is up while `Expand` runs. */
    ghost predicate Ready()
      reads this, heap, freeList
    {
      && blockSize > 0
      && freeList.Represents(heap, free)
      && Partition(AllBlocks(chunks, blockSize), free, live)
      && Separate(chunks, blockSize)
      && totalAllocated == Bytes(BlockCount(chunks), blockSize)
    }

    ghost predicate Valid()
      reads this, heap, freeList
    {
      !isExpanding && Ready()
    }

    /** How many blocks the next chunk will be cut into. */
    function NextBlocks(): nat
      reads this
    {
      BlocksInChunk(blocksPerChunk, growFactor, chunks == [])
    }

    predicate AtLimit()
      reads this
    {
      maxChunks > 0 && |chunks| >= maxChunks
    }

    /** Sizes that `align_up` turns into 0 would make all blocks of a chunk coincide. */
    constructor (size: nat, blocks: nat, base: Addr)
      requires 0 < size <= TWO_TO_THE_64 - 16
      requires base > 0
      ensures Valid() && fresh(heap) && fresh(freeList)
      ensures live == {} && chunks == [Chunk(base, blocks)]
      ensures size <= blockSize < size + 16 && blockSize % 16 == 0 && blocksPerChunk == blocks
      ensures maxChunks == 0 && growFactor == 1.0
    {
      AlignUpIsLeast(size);
      heap := new Heap();
      freeList := new Stack();
      blockSize := AlignUp(size);
      blocksPerChunk := blocks;
      chunks, maxChunks, growFactor, isExpanding, totalAllocated := [], 0, 1.0, false, 0;
      free, live := [], {};
      new;
      assert Ready();
      assert !AtLimit() && NextBlocks() == blocks;
      Expand(base);
    }

    method SetMaxChunks(max: nat)
      requires Valid()
      modifies this`maxChunks
      ensures Valid() && maxChunks == max
    {
      maxChunks := max;
    }

    method SetGrowFactor(factor: real)
      requires Valid()
      modifies this`growFactor
      ensures Valid() && growFactor == factor
    {
      growFactor := factor;
    }

    /** Pushes the blocks of a new chunk one by one. */
    method CarveChunk(c: Chunk)
      requires freeList.Represents(heap, free)
      requires NoDuplicates(Carve(c.base, c.blocks, blockSize))
      requires Elements(Carve(c.base, c.blocks, blockSize)) !! Elements(free)
      requires 0 !in Elements(Carve(c.base, c.blocks, blockSize))
      modifies this`free, this`totalAllocated, heap, freeList
      ensures freeList.Represents(heap, free)
      ensures Elements(free) == old(Elements(free)) + Elements(Carve(c.base, c.blocks, blockSize))
      ensures totalAllocated == old(totalAllocated) + Bytes(c.blocks, blockSize)
    {
      ghost var all := Carve(c.base, c.blocks, blockSize);
      for i := 0 to c.blocks
        invariant freeList.Represents(heap, free)
        invariant Elements(free) == old(Elements(free)) + Elements(all[..i])
        invariant totalAllocated == old(totalAllocated) + Bytes(i, blockSize)
      {
        var ptr := c.base + i * blockSize;
        BytesIsProduct(i, blockSize);
        CarveAt(c.base, c.blocks, blockSize, i);
        assert all[..i + 1] == all[..i] + [ptr];
        assert ptr in Elements(all) && ptr !in Elements(all[..i]);
        freeList.Push(heap, ptr, free);
        free := [ptr] + free;
        totalAllocated := totalAllocated + blockSize;
      }
      assert all[..c.blocks] == all;
    }

    /** `base` is what `new char[]` returns if it is called. */
    method Expand(base: Addr)
      requires Ready()
      requires FreshChunk(chunks, Chunk(base, NextBlocks()), blockSize)
      modifies this`chunks, this`free, this`totalAllocated, heap, freeList
      ensures Ready()
      ensures chunks == if old(AtLimit()) then old(chunks) else old(chunks) + [Chunk(base, old(NextBlocks()))]
      ensures old(AtLimit()) ==> free == old(free)
      ensures !old(AtLimit()) ==>
                Elements(free) == old(Elements(free)) + Elements(Carve(base, old(NextBlocks()), blockSize))
    {
      if AtLimit() {
        return;
      }
      var blocks := NextBlocks();
      var chunk := Chunk(base, blocks);
      CutMore(chunks, chunk, blockSize);
      chunks := chunks + [chunk];
      CarveChunk(chunk);
      CutKeepsBooks(old(chunks), chunk, blockSize, old(free), free, live);
    }

    /** `Pop`, with the block changing hands. */
    method TakeFree() returns (ptr: Addr)
      requires Ready()
      modifies this`free, this`live, freeList
      ensures Ready()
      ensures ptr == 0 <==> old(free) == []
      ensures ptr == 0 ==> free == old(free) && live == old(live)
      ensures ptr != 0 ==> ptr == old(free)[0] && free == old(free)[1..]
      ensures ptr != 0 ==> ptr !in old(live) && live == old(live) + {ptr}
    {
      ChainIsAcyclic(heap.next, freeList.head, free);
      ptr := freeList.Pop(heap, free);
      if ptr != 0 {
        PartitionTakes(AllBlocks(chunks, blockSize), free, live);
        free := free[1..];
        live := live + {ptr};
      }
    }

    /** Returns null exactly when no block is free and none can be added. */
    method Allocate(base: Addr) returns (ptr: Addr)
      requires Valid()
      requires FreshChunk(chunks, Chunk(base, NextBlocks()), blockSize)
      modifies this`chunks, this`free, this`live, this`totalAllocated, this`isExpanding, heap, freeList
      ensures Valid()
      ensures ptr == 0 <==> old(free) == [] && (0 < maxChunks <= old(|chunks|) || blocksPerChunk == 0)
      ensures ptr == 0 ==> live == old(live)
      ensures ptr != 0 ==> ptr !in old(live) && live == old(live) + {ptr}
      ensures old(free) != [] ==> ptr == old(free)[0] && free == old(free)[1..] && chunks == old(chunks)
      ensures old(free) == [] ==>
                chunks == if 0 < maxChunks <= old(|chunks|) then old(chunks)
                          else old(chunks) + [Chunk(base, old(NextBlocks()))]
      ensures old(free) == [] && ptr != 0 ==>
                Elements(free) + {ptr} == Elements(Carve(base, old(NextBlocks()), blockSize)) && ptr !in free
    {
      ptr := TakeFree();
      if ptr == 0 {
        if !isExpanding {
          isExpanding := true;
          Expand(base);
          isExpanding := false;
        }
        CarveNonEmpty(base, old(NextBlocks()), blockSize);
        ghost var grown := free;
        ChainIsAcyclic(heap.next, freeList.head, grown);
        ptr := TakeFree();
        if ptr != 0 {
          TakenFrom(grown, free, ptr);
        }
      }
    }

    /** Takes back a block, or ignores null. */
    method Deallocate(ptr: Addr)
      requires Valid() && (ptr == 0 || ptr in live)
      modifies this`free, this`live, heap, freeList
      ensures Valid()
      ensures live == if ptr == 0 then old(live) else old(live) - {ptr}
      ensures free == if ptr == 0 then old(free) else [ptr] + old(free)
    {
      if ptr != 0 {
        PartitionGives(AllBlocks(chunks, blockSize), free, live, ptr);
        freeList.Push(heap, ptr, free);
        free := [ptr] + free;
        live := live - {ptr};
      }
    }

    /** The maintained counter is the block size times the number of blocks cut so far. */
    method TotalAllocated() returns (bytes: nat)
      requires Valid()
      ensures bytes == |AllBlocks(chunks, blockSize)| * blockSize
    {
      SeparateBlocks(chunks, blockSize);
      BytesIsProduct(BlockCount(chunks), blockSize);
      bytes := totalAllocated;
    }

    /** A client writes anything into the first word of a block it holds. */
    method ClientWrites(ptr: Addr, word: Addr)
      requires Valid() && ptr in live
      modifies heap
      ensures Valid()
    {
      ChainInMemory(heap.next, freeList.head, free);
      ChainFrame(heap.next, heap.next[ptr := word], freeList.head, free);
      heap.next := heap.next[ptr := word];
    }
  }

  /** In every state of a pool its blocks are apart, and no client holds a free one. */
  lemma BlocksAreDisjoint(pool: FixedSizeMemoryPool, a: Addr, b: Addr)
    requires pool.Valid()
    requires (a in pool.live || a in pool.free) && (b in pool.live || b in pool.free)
    ensures a < b ==> a + pool.blockSize <= b
    ensures a > 0 && InsideSome(pool.chunks, a, pool.blockSize)
    ensures a in pool.live <==> a !in pool.free
  {
    SeparateBlocks(pool.chunks, pool.blockSize);
    BlockOfPartition(AllBlocks(pool.chunks, pool.blockSize), pool.free, pool.live, pool.blockSize, a, b);
    BlocksInside(pool.chunks, pool.blockSize, a);
  }
}
