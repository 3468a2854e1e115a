/**
 * Calls of `Allocate` on the growing pool that no other thread interrupts, blocks that come back, and
 * the two settings.
 */
module PoolCalls {
  import opened FreeList
  import opened Sequences
  import opened FixedPool
  import opened ConcurrentPool

  /** `k` steps of the call of thread `t`. */
  ghost function Advancing(p: Pool, t: Thread, base: Addr, k: nat): Pool
    decreases k
  {
    if k == 0 then p else Advancing(AdvanceStep(p, t, base), t, base, k - 1)
  }

  lemma {:induction false} AdvancingMore(p: Pool, t: Thread, base: Addr, j: nat, k: nat)
    ensures Advancing(p, t, base, j + k) == Advancing(Advancing(p, t, base, j), t, base, k)
    decreases j
  {
    if j > 0 {
      AdvancingMore(AdvanceStep(p, t, base), t, base, j - 1, k);
    }
  }

  lemma AdvancingOne(p: Pool, t: Thread, base: Addr)
    ensures Advancing(p, t, base, 1) == AdvanceStep(p, t, base)
  {
    assert Advancing(p, t, base, 1) == Advancing(AdvanceStep(p, t, base), t, base, 0);
  }

  /** A block that comes back is the first free one, and what the next call returns; nothing is lost or reordered. */
  lemma ReturnedBlockIsReused(p: Pool, ptr: Addr, t: Thread, base: Addr)
    requires Inv(p) && ptr in p.live && At(p, t).Idle?
    ensures var back := Step(p, Deallocate(ptr));
            var again := Advancing(Step(back, CallAllocate(t)), t, base, 1);
            && back.free == [ptr] + p.free && back.live == p.live - {ptr}
            && again.returned == p.returned + [Return(t, ptr)]
            && again.free == p.free && again.live == p.live && again.head == p.head && again.chunks == p.chunks
  {
    var back := Step(p, Deallocate(ptr));
    StepInv(p, back, Deallocate(ptr));
    var called := Step(back, CallAllocate(t));
    assert called.head == ptr != 0 by { assert back.head in Elements(back.free); }
    assert Advancing(called, t, base, 1) == Advancing(AdvanceStep(called, t, base), t, base, 0);
    assert p.live - {ptr} + {ptr} == p.live;
  }

  /** The blocks of a new chunk, from the next one to be pushed to the last. */
  lemma {:induction false} PushesEnd(p: Pool, t: Thread, base: Addr, c: Chunk, i: nat) returns (k: nat)
    requires Inv(p) && At(p, t) == PushBlock(c, i)
    ensures var q := Advancing(p, t, base, k);
            && Inv(q) && At(q, t) == LowerFlag(Grew(c))
            && q.chunks == p.chunks && q.live == p.live && q.returned == p.returned && q.free != []
            && q.blockSize == p.blockSize
    decreases c.blocks - i
  {
    assert CallerInv(p.chunks, p.blockSize, Elements(Pending(p)), At(p, t));
    var p1 := AdvanceStep(p, t, base);
    AdvanceInv(p, p1, t, base);
    var p2 := AdvanceStep(p1, t, base);
    AdvanceInv(p1, p2, t, base);
    assert Advancing(p, t, base, 2) == p2 by {
      assert Advancing(p1, t, base, 1) == Advancing(p2, t, base, 0);
    }
    if i + 1 < c.blocks {
      k := PushesEnd(p2, t, base, c, i + 1);
      AdvancingMore(p, t, base, 2, k);
      k := 2 + k;
    } else {
      k := 2;
    }
  }

  /** The call has added chunk `c` and pushed all its blocks, and the flag is down again. */
  ghost predicate HasGrown(p: Pool, q: Pool, t: Thread, c: Chunk) {
    && Inv(q) && At(q, t) == SecondPop(Grew(c)) && !q.isExpanding
    && q.chunks == p.chunks + [c] && q.live == p.live && q.returned == p.returned && q.free != []
    && q.blockSize == p.blockSize
  }

  lemma LowersFlag(p: Pool, q: Pool, t: Thread, base: Addr, c: Chunk)
    requires Inv(q) && At(q, t) == LowerFlag(Grew(c)) && q.free != []
    requires q.chunks == p.chunks + [c] && q.live == p.live && q.returned == p.returned && q.blockSize == p.blockSize
    ensures HasGrown(p, AdvanceStep(q, t, base), t, c)
  {
    AdvanceInv(q, AdvanceStep(q, t, base), t, base);
  }

  /** From the cut of the chunk to the second `Pop`. */
  lemma GrowsAlone(p: Pool, t: Thread, base: Addr) returns (k: nat)
    requires Inv(p) && At(p, t).CutChunk? && !AtLimit(p)
    requires FreshChunk(p.chunks, NextChunk(p, base), p.blockSize) && NextChunk(p, base).blocks > 0
    ensures HasGrown(p, Advancing(p, t, base, k), t, NextChunk(p, base))
  {
    var c, p1 := NextChunk(p, base), AdvanceStep(p, t, base);
    AdvanceInv(p, p1, t, base);
    var j := PushesEnd(p1, t, base, c, 0);
    var q := Advancing(p1, t, base, j);
    LowersFlag(p, q, t, base, c);
    AdvancingOne(q, t, base);
    AdvancingMore(p1, t, base, j, 1);
    k := 1 + (j + 1);
  }

  /** The steps of a call up to the check of the limit, with nothing free and nobody expanding. */
  lemma EntersAlone(p: Pool, t: Thread, base: Addr) returns (k: nat)
    requires Inv(p) && At(p, t).FirstPop? && p.free == [] && !p.isExpanding
    ensures Inv(Advancing(p, t, base, k))
    ensures Advancing(p, t, base, k) ==
            Goto(p, t, if AtLimit(p) then LowerFlag(LimitReached) else CutChunk).(isExpanding := true, holder := t)
  {
    var p1 := AdvanceStep(p, t, base);
    AdvanceInv(p, p1, t, base);
    var p2 := AdvanceStep(p1, t, base);
    AdvanceInv(p1, p2, t, base);
    var p3 := AdvanceStep(p2, t, base);
    AdvanceInv(p2, p3, t, base);
    assert p1 == Goto(p, t, RaiseFlag);
    assert p2 == Goto(p, t, CheckLimit).(isExpanding := true, holder := t);
    assert Advancing(p2, t, base, 1) == Advancing(p3, t, base, 0);
    assert Advancing(p1, t, base, 2) == Advancing(p2, t, base, 1);
    k := 3;
  }

  /** At the limit the flag is lowered and the second `Pop` finds nothing. */
  lemma LimitAlone(p: Pool, t: Thread, base: Addr) returns (k: nat)
    requires Inv(p) && At(p, t) == LowerFlag(LimitReached) && p.free == []
    ensures Advancing(p, t, base, k) == Goto(p, t, Idle).(isExpanding := false, returned := p.returned + [Return(t, 0)])
  {
    var p1 := AdvanceStep(p, t, base);
    var p2 := AdvanceStep(p1, t, base);
    assert p1 == Goto(p, t, SecondPop(LimitReached)).(isExpanding := false);
    assert p2 == Goto(p, t, Idle).(isExpanding := false, returned := p.returned + [Return(t, 0)]);
    assert Advancing(p1, t, base, 1) == Advancing(p2, t, base, 0);
    k := 2;
  }

  /** The only free blocks after a growth that found none free are those of the new chunk. */
  lemma NewBlock(p: Pool, q: Pool, c: Chunk)
    requires Inv(p) && Inv(q) && p.free == [] && !p.isExpanding && !q.isExpanding && q.free != []
    requires q.chunks == p.chunks + [c] && q.live == p.live && q.blockSize == p.blockSize
    ensures q.head == q.free[0] != 0 && q.head in Elements(Carve(c.base, c.blocks, q.blockSize))
  {
    assert (p.chunks + [c])[..|p.chunks|] == p.chunks;
    assert AllBlocks(q.chunks, q.blockSize) ==
           AllBlocks(p.chunks, q.blockSize) + Elements(Carve(c.base, c.blocks, q.blockSize));
    assert q.free[0] in Elements(q.free);
    assert Elements(p.free) == {} && Elements(Pending(p)) == {};
  }

  /** What a call of `Allocate` that nothing interrupts has done. */
  ghost predicate Allocated(p: Pool, q: Pool, t: Thread, base: Addr) {
    && At(q, t).Idle? && |q.returned| == |p.returned| + 1 && q.returned[|p.returned|].thread == t
    && var ptr, blocks := q.returned[|p.returned|].ptr, BlocksInChunk(p.blocksPerChunk, p.growFactor, p.chunks == []);
       if p.free != [] then
         ptr == p.free[0] && q.free == p.free[1..] && q.chunks == p.chunks && q.live == p.live + {ptr}
       else if 0 < p.maxChunks <= |p.chunks| then
         ptr == 0 && q.free == [] && q.chunks == p.chunks && q.live == p.live
       else if blocks == 0 then
         ptr == 0 && q.free == [] && q.chunks == p.chunks + [Chunk(base, 0)] && q.live == p.live
       else
         && q.chunks == p.chunks + [Chunk(base, blocks)] && q.live == p.live + {ptr}
         && ptr in Elements(Carve(base, blocks, p.blockSize))
  }

  lemma TakesAlone(p: Pool, t: Thread, base: Addr)
    requires Inv(p) && At(p, t).FirstPop? && p.free != []
    ensures Allocated(p, AdvanceStep(p, t, base), t, base)
  {
    ChainInMemory(p.next, p.head, p.free);
  }

  lemma NullAlone(p: Pool, t: Thread, base: Addr) returns (k: nat)
    requires Inv(p) && At(p, t).FirstPop? && p.free == [] && !p.isExpanding && AtLimit(p)
    ensures Allocated(p, Advancing(p, t, base, k), t, base)
  {
    var i := EntersAlone(p, t, base);
    var j := LimitAlone(Advancing(p, t, base, i), t, base);
    AdvancingMore(p, t, base, i, j);
    k := i + j;
  }

  /** A chunk without blocks is added, and null returned. */
  lemma EmptyChunkAlone(p: Pool, t: Thread, base: Addr) returns (k: nat)
    requires Inv(p) && At(p, t).CutChunk? && p.free == [] && !AtLimit(p)
    requires FreshChunk(p.chunks, NextChunk(p, base), p.blockSize) && NextChunk(p, base).blocks == 0
    ensures var c := NextChunk(p, base);
            Advancing(p, t, base, k) == Goto(p, t, Idle).(chunks := p.chunks + [c], isExpanding := false,
              returned := p.returned + [Return(t, 0)])
  {
    var c := NextChunk(p, base);
    var p1 := AdvanceStep(p, t, base);
    var p2 := AdvanceStep(p1, t, base);
    var p3 := AdvanceStep(p2, t, base);
    assert p1 == Goto(p, t, LowerFlag(Grew(c))).(chunks := p.chunks + [c]);
    assert p2 == Goto(p, t, SecondPop(Grew(c))).(chunks := p.chunks + [c], isExpanding := false);
    assert p3.callers == p.callers[t := Idle];
    assert Advancing(p2, t, base, 1) == Advancing(p3, t, base, 0);
    assert Advancing(p1, t, base, 2) == Advancing(p2, t, base, 1);
    k := 3;
  }

  lemma ZeroAlone(p: Pool, t: Thread, base: Addr) returns (k: nat)
    requires Inv(p) && At(p, t).FirstPop? && p.free == [] && !p.isExpanding && !AtLimit(p)
    requires FreshChunk(p.chunks, NextChunk(p, base), p.blockSize) && NextChunk(p, base).blocks == 0
    ensures Allocated(p, Advancing(p, t, base, k), t, base)
  {
    var i := EntersAlone(p, t, base);
    var j := EmptyChunkAlone(Advancing(p, t, base, i), t, base);
    AdvancingMore(p, t, base, i, j);
    k := i + j;
  }

  /** The pop after the growth. */
  lemma PopsNewBlock(p: Pool, q: Pool, t: Thread, base: Addr)
    requires Inv(p) && p.free == [] && !p.isExpanding && !AtLimit(p)
    requires HasGrown(p, q, t, NextChunk(p, base)) && NextChunk(p, base).blocks > 0
    ensures Allocated(p, AdvanceStep(q, t, base), t, base)
  {
    NewBlock(p, q, NextChunk(p, base));
  }

  /** From the first `Pop` to the second. */
  lemma EntersAndGrows(p: Pool, t: Thread, base: Addr) returns (k: nat)
    requires Inv(p) && At(p, t).FirstPop? && p.free == [] && !p.isExpanding && !AtLimit(p)
    requires FreshChunk(p.chunks, NextChunk(p, base), p.blockSize) && NextChunk(p, base).blocks > 0
    ensures HasGrown(p, Advancing(p, t, base, k), t, NextChunk(p, base))
  {
    var i := EntersAlone(p, t, base);
    var j := GrowsAlone(Advancing(p, t, base, i), t, base);
    AdvancingMore(p, t, base, i, j);
    k := i + j;
  }

  lemma NewAlone(p: Pool, t: Thread, base: Addr) returns (k: nat)
    requires Inv(p) && At(p, t).FirstPop? && p.free == [] && !p.isExpanding && !AtLimit(p)
    requires FreshChunk(p.chunks, NextChunk(p, base), p.blockSize) && NextChunk(p, base).blocks > 0
    ensures Allocated(p, Advancing(p, t, base, k), t, base)
  {
    var j := EntersAndGrows(p, t, base);
    PopsNewBlock(p, Advancing(p, t, base, j), t, base);
    AdvancingOne(Advancing(p, t, base, j), t, base);
    AdvancingMore(p, t, base, j, 1);
    k := j + 1;
  }

  /**
   * A call of `Allocate` that nothing interrupts, with nobody expanding: it returns the first free
   * block; without one, null at the limit, and else a block of the one chunk that it adds.
   */
  lemma AllocateAlone(p: Pool, t: Thread, base: Addr) returns (k: nat)
    requires Inv(p) && At(p, t).FirstPop? && !p.isExpanding
    requires FreshChunk(p.chunks, NextChunk(p, base), p.blockSize)
    ensures Allocated(p, Advancing(p, t, base, k), t, base)
  {
    if p.free != [] {
      k := 1;
      AdvancingOne(p, t, base);
      TakesAlone(p, t, base);
    } else if AtLimit(p) {
      k := NullAlone(p, t, base);
    } else if NextChunk(p, base).blocks == 0 {
      k := ZeroAlone(p, t, base);
    } else {
      k := NewAlone(p, t, base);
    }
  }

  // ---------------------------------------------------------------- the settings

  lemma AdvanceLimit(p: Pool, t: Thread, base: Addr)
    ensures var q := AdvanceStep(p, t, base);
            q.maxChunks == p.maxChunks && (q.chunks != p.chunks ==> !AtLimit(p) && |q.chunks| == |p.chunks| + 1)
  {
    if At(p, t).CutChunk? {
      assert AtLimit(p) ==> AdvanceStep(p, t, base).chunks == p.chunks;
    }
  }

  lemma StepLimit(p: Pool, a: Action, n: nat)
    requires n > 0 && p.maxChunks == n && !a.SetMaxChunks?
    ensures var q := Step(p, a);
            q.maxChunks == n && (q.chunks == p.chunks || |q.chunks| == |p.chunks| + 1 <= n)
  {
    if a.Advance? {
      AdvanceLimit(p, a.thread, a.base);
    }
  }

  /** Once the limit is set, no run without another `SetMaxChunks` adds a chunk beyond it. */
  lemma {:induction false} LimitHolds(p: Pool, n: nat, actions: seq<Action>)
    requires n > 0 && forall a | a in actions :: !a.SetMaxChunks?
    ensures var q := Run(Step(p, SetMaxChunks(n)), actions);
            q.maxChunks == n && |q.chunks| <= if |p.chunks| < n then n else |p.chunks|
  {
    if actions != [] {
      var before, a := actions[..|actions| - 1], actions[|actions| - 1];
      assert a in actions;
      LimitHolds(p, n, before);
      StepLimit(Run(Step(p, SetMaxChunks(n)), before), a, n);
    }
  }

  /** The two settings decide whether an undisturbed call with nothing free adds a chunk, and of what size. */
  lemma SettingsDecide(p: Pool, t: Thread, base: Addr, max: nat, factor: real) returns (k: nat)
    requires Inv(p) && At(p, t).FirstPop? && p.free == [] && !p.isExpanding
    requires FreshChunk(p.chunks, Chunk(base, BlocksInChunk(p.blocksPerChunk, factor, p.chunks == [])), p.blockSize)
    ensures var q := Advancing(Step(Step(p, SetMaxChunks(max)), SetGrowFactor(factor)), t, base, k);
            && At(q, t).Idle?
            && q.chunks == if 0 < max <= |p.chunks| then p.chunks
                           else p.chunks + [Chunk(base, BlocksInChunk(p.blocksPerChunk, factor, p.chunks == []))]
  {
    var limited := Step(p, SetMaxChunks(max));
    StepInv(p, limited, SetMaxChunks(max));
    var q := Step(limited, SetGrowFactor(factor));
    StepInv(limited, q, SetGrowFactor(factor));
    k := AllocateAlone(q, t, base);
  }
}
