/** Eight pools of different block sizes, and the bridge that remembers the size of each block. */
module SlabPool {
  import opened FreeList
  import opened Sequences
  import opened LockFreeStack
  import opened FixedPool

  const SLAB_COUNT: nat := 8
  const LAST_CLASS: nat := 7
  const MAX_SLAB_SIZE: nat := 4096
  const SIZES: seq<nat> := [16, 32, 64, 128, 256, 512, 1024, 4096]
  const BLOCKS_PER_CHUNK: nat := 256

  /** Class `i` is the first that holds `size` bytes; larger sizes get the last class. */
  predicate IsIndexFor(size: nat, i: nat) {
    && i < SLAB_COUNT
    && (size <= MAX_SLAB_SIZE ==> size <= SIZES[i] && forall j | 0 <= j < i :: SIZES[j] < size)
    && (size > MAX_SLAB_SIZE ==> i == SLAB_COUNT - 1)
  }

  /** The least class size that is at least `bytes`. */
  predicate IsLeastClass(c: nat, bytes: nat) {
    c in SIZES && bytes <= c && forall d | d in SIZES && bytes <= d :: c <= d
  }

  /** What `GetSlabSize` makes of a size: its least class, or the last class for larger sizes. */
  predicate IsRounded(c: nat, size: nat) {
    if size <= MAX_SLAB_SIZE then IsLeastClass(c, size) else c == MAX_SLAB_SIZE
  }

  lemma ClassesIncrease(i: nat, j: nat)
    requires i < j < SLAB_COUNT
    ensures 0 < SIZES[i] < SIZES[j] <= MAX_SLAB_SIZE
  {
    assert i == 0 || i == 1 || i == 2 || i == 3 || i == 4 || i == 5 || i == 6;
    assert j == 1 || j == 2 || j == 3 || j == 4 || j == 5 || j == 6 || j == 7;
  }

  lemma IndexGivesLeastClass(size: nat, i: nat)
    requires IsIndexFor(size, i) && size <= MAX_SLAB_SIZE
    ensures IsLeastClass(SIZES[i], size)
  {
    forall d | d in SIZES && size <= d ensures SIZES[i] <= d {
      var j :| 0 <= j < |SIZES| && SIZES[j] == d;
      if i < j { ClassesIncrease(i, j); }
    }
  }

  /** A size that rounds to a class leads to that class. */
  lemma IndexOfRounded(i: nat, j: nat, size: nat)
    requires i < SLAB_COUNT && IsRounded(SIZES[i], size) && IsIndexFor(size, j)
    ensures i == j
  {
    if size <= MAX_SLAB_SIZE {
      IndexGivesLeastClass(size, j);
    }
    if i < j { ClassesIncrease(i, j); } else if j < i { ClassesIncrease(j, i); }
  }

  /** A lower block ends before a higher one begins. */
  predicate Before(owner: map<Addr, nat>, a: Addr, b: Addr) {
    a in owner && b in owner && a < b && owner[a] < SLAB_COUNT ==> a + SIZES[owner[a]] <= b
  }

  /** Only one class is the first that holds a size. */
  lemma IndexUnique(size: nat, i: nat)
    requires IsIndexFor(size, i)
    ensures forall j: nat | IsIndexFor(size, j) :: j == i
  {}

  /** A size and its class size lead to the same class. */
  lemma SameIndex(size: nat, rounded: nat, i: nat)
    requires IsIndexFor(size, i) && size <= MAX_SLAB_SIZE && IsLeastClass(rounded, size)
    ensures IsIndexFor(rounded, i)
  {
    IndexGivesLeastClass(size, i);
    forall j | 0 <= j < i ensures SIZES[j] < rounded {
      ClassesIncrease(j, i);
    }
    if i < LAST_CLASS { ClassesIncrease(i, LAST_CLASS); }
  }

  /** Blocks of any two classes do not overlap; `owner` says which class each block was cut for. */
  ghost predicate Apart(owner: map<Addr, nat>) {
    && (forall a | a in owner :: owner[a] < SLAB_COUNT && a > 0)
    && (forall a, b :: Before(owner, a, b))
  }

  /** `new char[]` returns a non-null region that overlaps no block cut so far. */
  ghost predicate FreshRegion(owner: map<Addr, nat>, c: Chunk, size: nat) {
    && c.base > 0
    && forall a | a in owner && owner[a] < SLAB_COUNT :: a + SIZES[owner[a]] <= c.base || End(c, size) <= a
  }

  function WithAdded(owner: map<Addr, nat>, added: set<Addr>, i: nat): map<Addr, nat> {
    owner + map a | a in added :: i
  }

  function WithBlocks(owner: map<Addr, nat>, c: Chunk, i: nat): map<Addr, nat>
    requires i < SLAB_COUNT
  {
    WithAdded(owner, Elements(Carve(c.base, c.blocks, SIZES[i])), i)
  }

  lemma ApartWithBlocks(owner: map<Addr, nat>, c: Chunk, i: nat)
    requires Apart(owner) && i < SLAB_COUNT && FreshRegion(owner, c, SIZES[i])
    ensures Apart(WithBlocks(owner, c, i))
    ensures owner.Keys !! Elements(Carve(c.base, c.blocks, SIZES[i]))
    ensures NoDuplicates(Carve(c.base, c.blocks, SIZES[i])) && 0 !in Elements(Carve(c.base, c.blocks, SIZES[i]))
  {
    var size := SIZES[i];
    assert size > 0 by { if i < 7 { ClassesIncrease(i, 7); } }
    var added := Elements(Carve(c.base, c.blocks, size));
    CarveDistinctIff(c.base, c.blocks, size);
    CarvedSpaced(c, size);
    forall a, b | a in owner && b in added ensures a + SIZES[owner[a]] <= b || b + size <= a {
      CarvedBlock(c, size, b);
    }
    forall a, b | a in owner && b in added ensures a != b {
      assert a + SIZES[owner[a]] <= b || b + size <= a;
      assert SIZES[owner[a]] > 0 by { if owner[a] < 7 { ClassesIncrease(owner[a], 7); } }
    }
    forall b | b in added ensures b > 0 {
      CarvedBlock(c, size, b);
    }
    var owner' := WithBlocks(owner, c, i);
    forall a, b ensures Before(owner', a, b) {
      assert Before(owner, a, b);
    }
  }

  /** A free block waits in the list of the class it was cut for. */
  ghost predicate Sorted(owner: map<Addr, nat>, free: seq<seq<Addr>>) {
    && |free| == SLAB_COUNT
    && Apart(owner)
    && (forall i, a | 0 <= i < SLAB_COUNT && a in free[i] :: a in owner && owner[a] == i)
  }

  predicate CutFor(owner: map<Addr, nat>, chunks: seq<Chunk>, i: nat, a: Addr)
    requires i < SLAB_COUNT
  {
    a in AllBlocks(chunks, SIZES[i]) <==> a in owner && owner[a] == i
  }

  /** The blocks of a class are the pieces of its chunks. */
  ghost predicate Cut(owner: map<Addr, nat>, chunks: seq<seq<Chunk>>) {
    && |chunks| == SLAB_COUNT
    && (forall i, a | 0 <= i < SLAB_COUNT :: CutFor(owner, chunks[i], i, a))
  }

  /** The blocks handed out and not taken back, with the size of their class. */
  ghost function LiveBlocks(owner: map<Addr, nat>, free: seq<seq<Addr>>): map<Addr, nat>
    requires Sorted(owner, free)
  {
    map a | a in owner && a !in free[owner[a]] :: SIZES[owner[a]]
  }

  /** Cutting blocks for class `i` adds them under that class and changes no other block. */
  lemma OwnerOf(owner: map<Addr, nat>, c: Chunk, i: nat, a: Addr)
    requires Apart(owner) && i < SLAB_COUNT && FreshRegion(owner, c, SIZES[i])
    ensures var owner' := WithBlocks(owner, c, i);
            var added := Elements(Carve(c.base, c.blocks, SIZES[i]));
            && (a in owner' <==> a in owner || a in added)
            && (a in owner ==> a !in added && owner'[a] == owner[a])
            && (a in added ==> owner'[a] == i)
  {
    ApartWithBlocks(owner, c, i);
  }

  /** The list of class `i` gains exactly `added`; the others stay. */
  ghost predicate Gains(free: seq<seq<Addr>>, free': seq<seq<Addr>>, i: nat, added: set<Addr>) {
    && |free| == |free'| == SLAB_COUNT && i < SLAB_COUNT
    && (forall j | 0 <= j < SLAB_COUNT && j != i :: free'[j] == free[j])
    && (forall a :: a in free'[i] <==> a in free[i] || a in added)
  }

  lemma LiveAt(owner: map<Addr, nat>, free: seq<seq<Addr>>, free': seq<seq<Addr>>, added: set<Addr>, i: nat, a: Addr)
    requires Sorted(owner, free) && Gains(free, free', i, added) && owner.Keys !! added
    ensures a in WithAdded(owner, added, i) <==> a in owner || a in added
    ensures a in owner ==> WithAdded(owner, added, i)[a] == owner[a] && (a in free'[owner[a]] <==> a in free[owner[a]])
    ensures a in added ==> WithAdded(owner, added, i)[a] == i && a in free'[i]
  {
    assert a in free'[i] <==> a in free[i] || a in added;
  }

  /** New blocks that all wait in their list are not live, and change nothing for the others. */
  lemma LiveStays(owner: map<Addr, nat>, free: seq<seq<Addr>>, free': seq<seq<Addr>>, added: set<Addr>, i: nat)
    requires Sorted(owner, free) && Gains(free, free', i, added) && owner.Keys !! added
    requires Sorted(WithAdded(owner, added, i), free')
    ensures LiveBlocks(WithAdded(owner, added, i), free') == LiveBlocks(owner, free)
  {
    var before, after := LiveBlocks(owner, free), LiveBlocks(WithAdded(owner, added, i), free');
    forall a ensures a in after <==> a in before
      ensures a in before ==> after[a] == before[a]
    {
      LiveAt(owner, free, free', added, i, a);
    }
  }

  lemma SortedStays(owner: map<Addr, nat>, free: seq<seq<Addr>>, free': seq<seq<Addr>>, added: set<Addr>, i: nat)
    requires Sorted(owner, free) && Gains(free, free', i, added) && owner.Keys !! added
    requires Apart(WithAdded(owner, added, i))
    ensures Sorted(WithAdded(owner, added, i), free')
  {
    forall j, a | 0 <= j < SLAB_COUNT && a in free'[j]
      ensures a in WithAdded(owner, added, i) && WithAdded(owner, added, i)[a] == j
    {
      assert (j == i && a in added) || a in free[j];
    }
  }

  lemma SortedGrows(owner: map<Addr, nat>, free: seq<seq<Addr>>, free': seq<seq<Addr>>, c: Chunk, i: nat)
    requires Sorted(owner, free) && i < SLAB_COUNT && FreshRegion(owner, c, SIZES[i])
    requires Gains(free, free', i, Elements(Carve(c.base, c.blocks, SIZES[i])))
    ensures Sorted(WithBlocks(owner, c, i), free')
    ensures LiveBlocks(WithBlocks(owner, c, i), free') == LiveBlocks(owner, free)
  {
    var added := Elements(Carve(c.base, c.blocks, SIZES[i]));
    ApartWithBlocks(owner, c, i);
    SortedStays(owner, free, free', added, i);
    LiveStays(owner, free, free', added, i);
  }

  lemma ElementsGain(free: seq<seq<Addr>>, free': seq<seq<Addr>>, i: nat, added: set<Addr>)
    requires |free| == |free'| == SLAB_COUNT && i < SLAB_COUNT
    requires forall j | 0 <= j < SLAB_COUNT && j != i :: free'[j] == free[j]
    requires Elements(free'[i]) == Elements(free[i]) + added
    ensures Gains(free, free', i, added)
  {
    forall a ensures a in free'[i] <==> a in free[i] || a in added {
      assert a in Elements(free'[i]) <==> a in free'[i];
      assert a in Elements(free[i]) <==> a in free[i];
    }
  }

  lemma AllBlocksMore(chunks: seq<Chunk>, c: Chunk, size: nat)
    ensures AllBlocks(chunks + [c], size) == AllBlocks(chunks, size) + Elements(Carve(c.base, c.blocks, size))
  {
    assert (chunks + [c])[..|chunks|] == chunks;
  }

  lemma CutGrows(owner: map<Addr, nat>, chunks: seq<seq<Chunk>>, c: Chunk, i: nat)
    requires Apart(owner) && Cut(owner, chunks) && i < SLAB_COUNT && FreshRegion(owner, c, SIZES[i])
    ensures Cut(WithBlocks(owner, c, i), chunks[i := chunks[i] + [c]])
  {
    var owner', chunks' := WithBlocks(owner, c, i), chunks[i := chunks[i] + [c]];
    forall j, a | 0 <= j < SLAB_COUNT ensures CutFor(owner', chunks'[j], j, a) {
      assert CutFor(owner, chunks[j], j, a);
      OwnerOf(owner, c, i, a);
      if j == i { AllBlocksMore(chunks[i], c, SIZES[i]); }
    }
  }

  /** After the first block of list `i` was taken, the lists hold the same blocks but that one. */
  lemma ListsTake(owner: map<Addr, nat>, free: seq<seq<Addr>>, i: nat)
    requires Sorted(owner, free) && i < SLAB_COUNT && free[i] != [] && NoDuplicates(free[i])
    ensures Sorted(owner, free[i := free[i][1..]])
    ensures forall a | a in owner ::
              a in free[i := free[i][1..]][owner[a]] <==> a in free[owner[a]] && a != free[i][0]
    ensures free[i][0] in owner && owner[free[i][0]] == i && free[i][0] in free[i]
  {
    assert free[i] == [free[i][0]] + free[i][1..];
  }

  lemma LiveTakes(owner: map<Addr, nat>, free: seq<seq<Addr>>, i: nat)
    requires Sorted(owner, free) && i < SLAB_COUNT && free[i] != [] && NoDuplicates(free[i])
    ensures Sorted(owner, free[i := free[i][1..]])
    ensures LiveBlocks(owner, free[i := free[i][1..]]) == LiveBlocks(owner, free)[free[i][0] := SIZES[i]]
    ensures free[i][0] !in LiveBlocks(owner, free) && free[i][0] in owner && owner[free[i][0]] == i
  {
    ListsTake(owner, free, i);
  }

  lemma LiveGives(owner: map<Addr, nat>, free: seq<seq<Addr>>, ptr: Addr)
    requires Sorted(owner, free) && ptr in LiveBlocks(owner, free)
    ensures var i := owner[ptr];
            && Sorted(owner, free[i := [ptr] + free[i]])
            && LiveBlocks(owner, free[i := [ptr] + free[i]]) == LiveBlocks(owner, free) - {ptr}
    ensures ptr != 0 && forall j | 0 <= j < SLAB_COUNT :: ptr !in free[j]
  {}

  /** List `i` has taken in the blocks of `some`; the others are as they were. */
  ghost predicate Pushed(before: seq<seq<Addr>>, free: seq<seq<Addr>>, i: nat, some: seq<Addr>) {
    && |before| == |free| == SLAB_COUNT && i < SLAB_COUNT
    && (forall j | 0 <= j < SLAB_COUNT && j != i :: free[j] == before[j])
    && Elements(free[i]) == Elements(before[i]) + Elements(some)
  }

  /** The next block of a fresh chunk waits in no list yet, and is taken in like the others. */
  lemma PushedNext(owner: map<Addr, nat>, before: seq<seq<Addr>>, free: seq<seq<Addr>>, i: nat, all: seq<Addr>, k: nat)
    requires Sorted(owner, before) && k < |all| && Pushed(before, free, i, all[..k])
    requires NoDuplicates(all) && 0 !in Elements(all) && owner.Keys !! Elements(all)
    ensures all[k] != 0 && forall j | 0 <= j < SLAB_COUNT :: all[k] !in free[j]
    ensures Pushed(before, free[i := [all[k]] + free[i]], i, all[..k + 1])
  {
    ElementsMoved(all, k, Elements(before[i]), free[i]);
    assert all[k] in Elements(all);
    assert all[k] !in Elements(free[i]);
  }

  /** The first block of list `i` was handed out; nothing else changed. */
  ghost predicate Reused(free: seq<seq<Addr>>, free': seq<seq<Addr>>, chunks: seq<seq<Chunk>>, chunks': seq<seq<Chunk>>,
                         i: nat, ptr: Addr) {
    && i < |free| && free[i] != [] && ptr == free[i][0]
    && free' == free[i := free[i][1..]]
    && chunks' == chunks
  }

  /** Class `i`, and no other, was given one more chunk of 256 blocks, and one of these was handed out. */
  ghost predicate Grown(free: seq<seq<Addr>>, free': seq<seq<Addr>>, chunks: seq<seq<Chunk>>, chunks': seq<seq<Chunk>>,
                        i: nat, ptr: Addr, base: Addr) {
    && |free| == |free'| == |chunks| == SLAB_COUNT && i < SLAB_COUNT && free[i] == []
    && chunks' == chunks[i := chunks[i] + [Chunk(base, 256)]]
    && Elements(free'[i]) + {ptr} == Elements(Carve(base, 256, SIZES[i])) && ptr !in free'[i]
    && forall j | 0 <= j < SLAB_COUNT && j != i :: free'[j] == free[j]
  }

  class SlabAllocator {
    const heap: Heap
    const freeLists: seq<Stack>
    var chunks: seq<seq<Chunk>>

    /** The free lists as sequences, and the class that each block was cut for. */
    ghost var free: seq<seq<Addr>>
    ghost var owner: map<Addr, nat>

    ghost predicate Lists()
      reads this, heap, freeLists
    {
      && |freeLists| == |free| == |chunks| == SLAB_COUNT
      && (forall i, j | 0 <= i < j < SLAB_COUNT :: freeLists[i] != freeLists[j])
      && (forall i | 0 <= i < SLAB_COUNT :: freeLists[i].Represents(heap, free[i]))
    }

    ghost predicate Valid()
      reads this, heap, freeLists
    {
      Lists() && Sorted(owner, free) && Cut(owner, chunks)
    }

    ghost function Live(): map<Addr, nat>
      requires Valid()
      reads this, heap, freeLists
    {
      LiveBlocks(owner, free)
    }

    constructor ()
      ensures Valid() && fresh(heap) && fresh(freeLists)
      ensures owner == map[]
    {
      heap := new Heap();
      var lists: seq<Stack> := [];
      for i := 0 to SLAB_COUNT
        invariant |lists| == i && fresh(lists)
        invariant forall j, k | 0 <= j < k < i :: lists[j] != lists[k]
        invariant forall j | 0 <= j < i :: lists[j].head == 0
      {
        var list := new Stack();
        lists := lists + [list];
      }
      freeLists := lists;
      chunks := seq(SLAB_COUNT, _ => []);
      free := seq(SLAB_COUNT, _ => []);
      owner := map[];
    }

    /** The linear search over the class sizes. */
    method IndexFor(size: nat) returns (index: nat)
      ensures IsIndexFor(size, index)
    {
      if size > SIZES[LAST_CLASS] {
        return LAST_CLASS;
      }
      for i := 0 to SLAB_COUNT
        invariant forall j | 0 <= j < i :: SIZES[j] < size
      {
        if size <= SIZES[i] {
          return i;
        }
      }
      index := LAST_CLASS;
    }

    method GetSlabSize(size: nat) returns (rounded: nat)
      ensures rounded in SIZES && IsRounded(rounded, size)
    {
      var i := IndexFor(size);
      if size <= MAX_SLAB_SIZE {
        IndexGivesLeastClass(size, i);
      }
      rounded := SIZES[i];
    }

    predicate CanAllocate(size: nat) {
      0 < size <= MAX_SLAB_SIZE
    }

    /** `Push` on one of the lists; the blocks of the other lists are not touched. */
    method PushBlock(i: nat, ptr: Addr)
      requires Lists() && i < SLAB_COUNT && ptr != 0
      requires forall j | 0 <= j < SLAB_COUNT :: ptr !in free[j]
      modifies heap, freeLists[i], this`free
      ensures Lists()
      ensures free == old(free)[i := [ptr] + old(free)[i]]
    {
      ghost var before := heap.next;
      freeLists[i].Push(heap, ptr, free[i]);
      forall j | 0 <= j < SLAB_COUNT && j != i ensures freeLists[j].Represents(heap, free[j]) {
        ChainInMemory(before, freeLists[j].head, free[j]);
        ChainFrame(before, heap.next, freeLists[j].head, free[j]);
      }
      free := free[i := [ptr] + free[i]];
    }

    method PopBlock(i: nat) returns (ptr: Addr)
      requires Lists() && i < SLAB_COUNT
      modifies freeLists[i], this`free
      ensures Lists()
      ensures ptr == 0 <==> old(free)[i] == []
      ensures ptr == 0 ==> free == old(free)
      ensures ptr != 0 ==> ptr == old(free)[i][0] && free == old(free)[i := old(free)[i][1..]]
    {
      ptr := freeLists[i].Pop(heap, free[i]);
      if ptr != 0 {
        free := free[i := free[i][1..]];
      }
    }

    /** Pushes the blocks of a new chunk one by one. */
    method PushAll(i: nat, c: Chunk)
      requires Lists() && Sorted(owner, free) && i < SLAB_COUNT
      requires NoDuplicates(Carve(c.base, c.blocks, SIZES[i])) && 0 !in Elements(Carve(c.base, c.blocks, SIZES[i]))
      requires owner.Keys !! Elements(Carve(c.base, c.blocks, SIZES[i]))
      modifies heap, freeLists[i], this`free
      ensures Lists()
      ensures forall j | 0 <= j < SLAB_COUNT && j != i :: free[j] == old(free)[j]
      ensures Elements(free[i]) == old(Elements(free[i])) + Elements(Carve(c.base, c.blocks, SIZES[i]))
    {
      ghost var all := Carve(c.base, c.blocks, SIZES[i]);
      for k := 0 to c.blocks
        invariant Lists()
        invariant Pushed(old(free), free, i, all[..k])
      {
        BytesIsProduct(k, SIZES[i]);
        CarveAt(c.base, c.blocks, SIZES[i], k);
        var ptr := c.base + k * SIZES[i];
        PushedNext(owner, old(free), free, i, all, k);
        PushBlock(i, ptr);
      }
      assert all[..c.blocks] == all;
    }

    /** A new chunk for class `i`, cut and pushed. */
    method Grow(i: nat, base: Addr)
      requires Valid() && i < SLAB_COUNT
      requires FreshRegion(owner, Chunk(base, BLOCKS_PER_CHUNK), SIZES[i])
      modifies heap, freeLists[i], this
      ensures Valid()
      ensures owner == WithBlocks(old(owner), Chunk(base, BLOCKS_PER_CHUNK), i)
      ensures chunks == old(chunks)[i := old(chunks)[i] + [Chunk(base, BLOCKS_PER_CHUNK)]]
      ensures Live() == old(Live())
      ensures free[i] != [] && forall j | 0 <= j < SLAB_COUNT && j != i :: free[j] == old(free)[j]
      ensures Elements(free[i]) == old(Elements(free[i])) + Elements(Carve(base, BLOCKS_PER_CHUNK, SIZES[i]))
    {
      var chunk := Chunk(base, BLOCKS_PER_CHUNK);
      ApartWithBlocks(owner, chunk, i);
      AllBlocksMore(chunks[i], chunk, SIZES[i]);
      ghost var before := free;
      PushAll(i, chunk);
      ElementsGain(before, free, i, Elements(Carve(base, BLOCKS_PER_CHUNK, SIZES[i])));
      SortedGrows(owner, before, free, chunk, i);
      CutGrows(owner, chunks, chunk, i);
      CarveNonEmpty(base, BLOCKS_PER_CHUNK, SIZES[i]);
      assert Elements(free[i]) != {};
      chunks := chunks[i := chunks[i] + [chunk]];
      owner := WithBlocks(owner, chunk, i);
    }

    /** `Pop`, with the block changing hands. */
    method TakeFree(i: nat) returns (ptr: Addr)
      requires Valid() && i < SLAB_COUNT
      modifies freeLists[i], this`free
      ensures Valid()
      ensures ptr == 0 <==> old(free)[i] == []
      ensures ptr == 0 ==> Live() == old(Live()) && free == old(free)
      ensures ptr != 0 ==> ptr !in old(Live()) && Live() == old(Live())[ptr := SIZES[i]]
      ensures ptr != 0 ==> ptr == old(free)[i][0] && free == old(free)[i := old(free)[i][1..]]
    {
      ChainIsAcyclic(heap.next, freeLists[i].head, free[i]);
      if free[i] != [] {
        LiveTakes(owner, free, i);
      }
      ptr := PopBlock(i);
    }

    /** A new chunk for class `i`, and its first free block. */
    method GrowAndTake(i: nat, base: Addr) returns (ptr: Addr)
      requires Valid() && i < SLAB_COUNT && free[i] == []
      requires FreshRegion(owner, Chunk(base, BLOCKS_PER_CHUNK), SIZES[i])
      modifies this, heap, freeLists[i]
      ensures Valid()
      ensures ptr != 0 && ptr !in old(Live()) && Live() == old(Live())[ptr := SIZES[i]]
      ensures Grown(old(free), free, old(chunks), chunks, i, ptr, base)
      ensures owner == WithBlocks(old(owner), Chunk(base, BLOCKS_PER_CHUNK), i)
    {
      Grow(i, base);
      ghost var grown := free[i];
      ChainIsAcyclic(heap.next, freeLists[i].head, grown);
      ptr := TakeFree(i);
      TakenFrom(grown, free[i], ptr);
    }

    /** The two attempts to pop a block of class `i`, and the growth if both fail. */
    method AllocateFrom(i: nat, base: Addr) returns (ptr: Addr)
      requires Valid() && i < SLAB_COUNT
      requires FreshRegion(owner, Chunk(base, BLOCKS_PER_CHUNK), SIZES[i])
      modifies this, heap, freeLists[i]
      ensures Valid()
      ensures ptr != 0 && ptr !in old(Live()) && Live() == old(Live())[ptr := SIZES[i]]
      ensures if old(free)[i] != [] then Reused(old(free), free, old(chunks), chunks, i, ptr)
              else Grown(old(free), free, old(chunks), chunks, i, ptr, base)
      ensures owner == if old(free)[i] != [] then old(owner)
                       else WithBlocks(old(owner), Chunk(base, BLOCKS_PER_CHUNK), i)
    {
      ptr := TakeFree(i);
      if ptr == 0 {
        ptr := TakeFree(i);
        if ptr == 0 {
          ptr := GrowAndTake(i, base);
        }
      }
    }

    /** Takes the first free block of the class, growing the class by one chunk if it has none. */
    method Allocate(size: nat, base: Addr) returns (ptr: Addr)
      requires Valid()
      requires forall i: nat | IsIndexFor(size, i) :: FreshRegion(owner, Chunk(base, BLOCKS_PER_CHUNK), SIZES[i])
      modifies this, heap, freeLists
      ensures Valid()
      ensures ptr == 0 <==> !CanAllocate(size)
      ensures ptr == 0 ==> Live() == old(Live()) && free == old(free) && chunks == old(chunks) && owner == old(owner)
      ensures ptr != 0 ==> ptr !in old(Live()) && ptr in Live() && Live() == old(Live())[ptr := Live()[ptr]]
      ensures ptr != 0 ==> IsLeastClass(Live()[ptr], size)
      ensures ptr != 0 ==> forall i: nat | IsIndexFor(size, i) ::
                if old(free)[i] != [] then Reused(old(free), free, old(chunks), chunks, i, ptr) && owner == old(owner)
                else Grown(old(free), free, old(chunks), chunks, i, ptr, base)
    {
      if !CanAllocate(size) {
        return 0;
      }
      var i := IndexFor(size);
      IndexGivesLeastClass(size, i);
      IndexUnique(size, i);
      ptr := AllocateFrom(i, base);
    }

    /** Callers must pass a size that rounds to the block's class, such as the size they asked for. */
    method Deallocate(ptr: Addr, size: nat)
      requires Valid()
      requires ptr != 0 ==> ptr in Live() && IsRounded(Live()[ptr], size)
      modifies this`free, heap, freeLists
      ensures Valid()
      ensures Live() == if ptr == 0 then old(Live()) else old(Live()) - {ptr}
      ensures ptr != 0 ==> free == old(free)[owner[ptr] := [ptr] + old(free)[owner[ptr]]]
    {
      if ptr == 0 {
        return;
      }
      var i := IndexFor(size);
      IndexOfRounded(owner[ptr], i, size);
      LiveGives(owner, free, ptr);
      PushBlock(i, ptr);
    }

    /** A client writes anything into the first word of a block it holds. */
    method ClientWrites(ptr: Addr, word: Addr)
      requires Valid() && ptr in Live()
      modifies heap
      ensures Valid() && Live() == old(Live())
    {
      ghost var before := heap.next;
      heap.next := heap.next[ptr := word];
      forall j | 0 <= j < SLAB_COUNT ensures freeLists[j].Represents(heap, free[j]) {
        ChainInMemory(before, freeLists[j].head, free[j]);
        ChainFrame(before, heap.next, freeLists[j].head, free[j]);
      }
    }
  }

  lemma ClassIsRounded(c: nat)
    requires c in SIZES
    ensures IsRounded(c, c)
  {
    var i :| 0 <= i < |SIZES| && SIZES[i] == c;
    if i < LAST_CLASS { ClassesIncrease(i, LAST_CLASS); }
  }

  /** The least class for a class size is that size. */
  lemma ClassOfClassSize(rounded: nat, c: nat)
    requires rounded in SIZES && IsLeastClass(c, rounded)
    ensures c == rounded
  {}

  class SlabPoolBridge {
    const allocator: SlabAllocator
    var sizeMap: map<Addr, nat>

    ghost predicate Valid()
      reads this, allocator, allocator.heap, allocator.freeLists
    {
      && allocator.Valid()
      && sizeMap == allocator.Live()
    }

    constructor ()
      ensures Valid() && sizeMap == map[]
    {
      allocator := new SlabAllocator();
      sizeMap := map[];
    }

    /** `base` is what `new char[]` returns if the class has to grow. */
    method Allocate(bytes: nat, base: Addr) returns (p: Addr)
      requires Valid()
      requires forall i: nat | i < SLAB_COUNT ::
                 FreshRegion(allocator.owner, Chunk(base, BLOCKS_PER_CHUNK), SIZES[i])
      modifies this, allocator, allocator.heap, allocator.freeLists
      ensures Valid()
      ensures p == 0 <==> bytes == 0 || bytes > MAX_SLAB_SIZE
      ensures p == 0 ==> sizeMap == old(sizeMap)
      ensures p != 0 ==> p !in old(sizeMap) && p in sizeMap
      ensures p != 0 ==> sizeMap == old(sizeMap)[p := sizeMap[p]] && IsLeastClass(sizeMap[p], bytes)
      ensures p == 0 ==> allocator.free == old(allocator.free) && allocator.chunks == old(allocator.chunks)
      ensures p != 0 ==> forall i: nat | IsIndexFor(bytes, i) ::
                if old(allocator.free)[i] != [] then
                  && Reused(old(allocator.free), allocator.free, old(allocator.chunks), allocator.chunks, i, p)
                  && allocator.owner == old(allocator.owner)
                else
                  Grown(old(allocator.free), allocator.free, old(allocator.chunks), allocator.chunks, i, p, base)
    {
      if bytes == 0 || bytes > MAX_SLAB_SIZE {
        return 0;
      }
      var rounded := allocator.GetSlabSize(bytes);
      p := allocator.Allocate(rounded, base);
      forall i: nat | IsIndexFor(bytes, i) ensures IsIndexFor(rounded, i) {
        SameIndex(bytes, rounded, i);
      }
      if p != 0 {
        ClassOfClassSize(rounded, allocator.Live()[p]);
        sizeMap := sizeMap[p := rounded];
      }
    }

    /** Any pointer may be passed: only a block that is live now goes back to the class it was cut for. */
    method Deallocate(ptr: Addr)
      requires Valid()
      modifies this, allocator`free, allocator.heap, allocator.freeLists
      ensures Valid()
      ensures ptr !in old(sizeMap) ==> sizeMap == old(sizeMap) && allocator.free == old(allocator.free)
      ensures ptr in old(sizeMap) ==>
                && sizeMap == old(sizeMap) - {ptr}
                && var i := allocator.owner[ptr];
                   allocator.free == old(allocator.free)[i := [ptr] + old(allocator.free)[i]]
    {
      if ptr == 0 {
        assert ptr !in sizeMap;
        return;
      }
      if ptr !in sizeMap {
        return;
      }
      var size := sizeMap[ptr];
      sizeMap := sizeMap - {ptr};
      ClassIsRounded(size);
      allocator.Deallocate(ptr, size);
    }
  }
}
