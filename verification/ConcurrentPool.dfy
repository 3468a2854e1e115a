/**
 * The growing pool under any number of threads: the flag that lets one thread at a time expand, the
 * checks of the limit, every push of a new block and every counter update are separate steps. `Push`
 * and `Pop` of the free list are atomic. An action that its thread cannot take changes nothing.
 */
module ConcurrentPool {
  import opened FreeList
  import opened Sequences
  import opened LockFreeStack
  import opened FixedPool

  type Thread = nat

  /** Why a call came to its second `Pop`. */
  datatype Route = FlagWasUp | LimitReached | Grew(chunk: Chunk)

  /** Where a thread stands inside `Allocate` and the `Expand` that it calls. */
  datatype Caller =
    | Idle
    | FirstPop
    | RaiseFlag
    | CheckLimit
    | CutChunk
    | PushBlock(chunk: Chunk, i: nat)
    | CountBlock(chunk: Chunk, i: nat)
    | LowerFlag(route: Route)
    | SecondPop(route: Route)

  /** A call of `Allocate` that returned; address 0 is null. */
  datatype Return = Return(thread: Thread, ptr: Addr)

  /**
   * `free` is the free list as a sequence and `live` what the clients hold; `holder` raised the flag
   * last, and `returned` records the calls that are over.
   */
  datatype Pool = Pool(
    blockSize: nat,
    blocksPerChunk: nat,
    maxChunks: nat,
    growFactor: real,
    chunks: seq<Chunk>,
    head: Addr,
    next: Memory,
    isExpanding: bool,
    totalAllocated: nat,
    callers: map<Thread, Caller>,
    free: seq<Addr>,
    live: set<Addr>,
    holder: Thread,
    returned: seq<Return>)

  /** `base` is what `new char[]` returns if this step calls it. */
  datatype Action =
    | CallAllocate(thread: Thread)
    | Advance(thread: Thread, base: Addr)
    | Deallocate(ptr: Addr)
    | ClientWrites(ptr: Addr, word: Addr)
    | SetMaxChunks(max: nat)
    | SetGrowFactor(factor: real)

  // ---------------------------------------------------------------- transitions

  function At(p: Pool, t: Thread): Caller {
    if t in p.callers then p.callers[t] else Idle
  }

  function Goto(p: Pool, t: Thread, at: Caller): Pool {
    p.(callers := p.callers[t := at])
  }

  predicate AtLimit(p: Pool) {
    p.maxChunks > 0 && |p.chunks| >= p.maxChunks
  }

  function NextChunk(p: Pool, base: Addr): Chunk {
    Chunk(base, BlocksInChunk(p.blocksPerChunk, p.growFactor, p.chunks == []))
  }

  function Tail<T>(s: seq<T>): seq<T> {
    if s == [] then [] else s[1..]
  }

  /** A `Pop` that finds a block, which the call of `t` then returns. */
  function Take(p: Pool, t: Thread): Pool {
    Goto(p, t, Idle).(
    head := if p.head in p.next then p.next[p.head] else 0,
    free := Tail(p.free),
    live := p.live + {p.head},
    returned := p.returned + [Return(t, p.head)])
  }

  /** A `Push`. */
  function Put(p: Pool, ptr: Addr): Pool {
    p.(next := p.next[ptr := p.head], head := ptr, free := [ptr] + p.free)
  }

  /** The i-th block of a chunk, at `base + i * size`; `BytesIsProduct` is about this sum. */
  function BlockAt(chunk: Chunk, i: nat, size: nat): Addr {
    chunk.base + Bytes(i, size)
  }

  function AfterBlock(chunk: Chunk, i: nat): Caller {
    if i < chunk.blocks then PushBlock(chunk, i) else LowerFlag(Grew(chunk))
  }

  function AdvanceStep(p: Pool, t: Thread, base: Addr): Pool {
    match At(p, t)
    case Idle => p
    case FirstPop => if p.head == 0 then Goto(p, t, RaiseFlag) else Take(p, t)
    case RaiseFlag =>
      if p.isExpanding then Goto(p, t, SecondPop(FlagWasUp))
      else Goto(p, t, CheckLimit).(isExpanding := true, holder := t)
    case CheckLimit => Goto(p, t, if AtLimit(p) then LowerFlag(LimitReached) else CutChunk)
    case CutChunk =>
      var chunk := NextChunk(p, base);
      if AtLimit(p) then Goto(p, t, LowerFlag(LimitReached))
      else if !FreshChunk(p.chunks, chunk, p.blockSize) then p  // not what `new char[]` returns
      else Goto(p, t, AfterBlock(chunk, 0)).(chunks := p.chunks + [chunk])
    case PushBlock(chunk, i) => Put(Goto(p, t, CountBlock(chunk, i)), BlockAt(chunk, i, p.blockSize))
    case CountBlock(chunk, i) =>
      Goto(p, t, AfterBlock(chunk, i + 1)).(totalAllocated := p.totalAllocated + p.blockSize)
    case LowerFlag(route) => Goto(p, t, SecondPop(route)).(isExpanding := false)
    case SecondPop(route) =>
      if p.head == 0 then Goto(p, t, Idle).(returned := p.returned + [Return(t, 0)]) else Take(p, t)
  }

  function Step(p: Pool, a: Action): Pool {
    match a
    case CallAllocate(t) => if At(p, t).Idle? then Goto(p, t, FirstPop) else p
    case Advance(t, base) => AdvanceStep(p, t, base)
    case Deallocate(ptr) => if ptr in p.live then Put(p, ptr).(live := p.live - {ptr}) else p
    case ClientWrites(ptr, word) => if ptr in p.live then p.(next := p.next[ptr := word]) else p
    case SetMaxChunks(max) => p.(maxChunks := max)
    case SetGrowFactor(factor) => p.(growFactor := factor)
  }

  function Run(p: Pool, actions: seq<Action>): Pool {
    if actions == [] then p
    else Step(Run(p, actions[..|actions| - 1]), actions[|actions| - 1])
  }

  // ---------------------------------------------------------------- invariant

  /** The thread is between raising the flag and lowering it. */
  predicate InExpand(at: Caller) {
    at.CheckLimit? || at.CutChunk? || at.PushBlock? || at.CountBlock? || at.LowerFlag?
  }

  /** Blocks of the newest chunk that are cut but not pushed yet. */
  function NotPushed(at: Caller, size: nat): seq<Addr> {
    match at
    case PushBlock(c, i) => if i <= c.blocks then Carve(c.base, c.blocks, size)[i..] else []
    case CountBlock(c, i) => if i < c.blocks then Carve(c.base, c.blocks, size)[i + 1..] else []
    case _ => []
  }

  function Pending(p: Pool): seq<Addr> {
    if p.isExpanding then NotPushed(At(p, p.holder), p.blockSize) else []
  }

  function NotCounted(at: Caller): nat {
    if (at.PushBlock? || at.CountBlock?) && at.i <= at.chunk.blocks then at.chunk.blocks - at.i else 0
  }

  function Uncounted(p: Pool): nat {
    if p.isExpanding then NotCounted(At(p, p.holder)) else 0
  }

  /** Every block is free, in a client's hands, or waits to be pushed, and only one of these. */
  ghost predicate Split(blocks: set<Addr>, free: seq<Addr>, live: set<Addr>, pending: seq<Addr>) {
    && Elements(free) + live + Elements(pending) == blocks
    && Elements(free) !! live !! Elements(pending)
    && NoDuplicates(pending) && 0 !in blocks
  }

  /** The blocks of a chunk that a call has added are all pushed. */
  predicate RouteInv(chunks: seq<Chunk>, size: nat, pending: set<Addr>, route: Route) {
    route.Grew? ==>
      && route.chunk in chunks
      && Elements(Carve(route.chunk.base, route.chunk.blocks, size)) !! pending
  }

  predicate CallerInv(chunks: seq<Chunk>, size: nat, pending: set<Addr>, at: Caller) {
    match at
    case PushBlock(c, i) => i < c.blocks && c in chunks
    case CountBlock(c, i) => i < c.blocks && c in chunks
    case LowerFlag(route) => RouteInv(chunks, size, pending, route)
    case SecondPop(route) => RouteInv(chunks, size, pending, route)
    case _ => true
  }

  ghost predicate CallersInv(p: Pool) {
    forall t: Thread :: CallerInv(p.chunks, p.blockSize, Elements(Pending(p)), At(p, t))
  }

  /** The flag is up exactly while one thread, the holder, is inside `Expand`. */
  ghost predicate FlagInv(p: Pool) {
    forall t: Thread :: InExpand(At(p, t)) <==> p.isExpanding && t == p.holder
  }

  ghost predicate Books(p: Pool) {
    && p.blockSize > 0 && Separate(p.chunks, p.blockSize)
    && Chain(p.next, p.head, p.free)
    && Split(AllBlocks(p.chunks, p.blockSize), p.free, p.live, Pending(p))
    && p.totalAllocated + Bytes(Uncounted(p), p.blockSize) == Bytes(BlockCount(p.chunks), p.blockSize)
  }

  ghost predicate Inv(p: Pool) {
    Books(p) && FlagInv(p) && CallersInv(p)
  }

  /** A caller moves, and perhaps blocks leave the pending ones: the other callers do not notice. */
  lemma CallersKept(p: Pool, p': Pool, t: Thread)
    requires CallersInv(p) && p'.chunks == p.chunks && p'.blockSize == p.blockSize
    requires Elements(Pending(p')) <= Elements(Pending(p))
    requires p'.callers == p.callers[t := At(p', t)]
    requires CallerInv(p'.chunks, p'.blockSize, Elements(Pending(p')), At(p', t))
    ensures CallersInv(p')
  {
    forall u: Thread ensures CallerInv(p'.chunks, p'.blockSize, Elements(Pending(p')), At(p', u)) {
      assert CallerInv(p.chunks, p.blockSize, Elements(Pending(p)), At(p, u));
      assert u != t ==> At(p', u) == At(p, u);
    }
  }

  lemma FlagKept(p: Pool, p': Pool, t: Thread)
    requires FlagInv(p) && p'.isExpanding == p.isExpanding && p'.holder == p.holder
    requires p'.callers == p.callers[t := At(p', t)] && InExpand(At(p', t)) == InExpand(At(p, t))
    ensures FlagInv(p')
  {
    forall u: Thread ensures InExpand(At(p', u)) <==> p'.isExpanding && u == p'.holder {
      assert u != t ==> At(p', u) == At(p, u);
      assert InExpand(At(p, u)) <==> p.isExpanding && u == p.holder;
    }
  }

  /** A step that touches no block and no counter. */
  lemma MoveInv(p: Pool, p': Pool, t: Thread)
    requires Inv(p) && p' == Goto(p, t, At(p', t)).(returned := p'.returned)
    requires InExpand(At(p', t)) == InExpand(At(p, t))
    requires NotPushed(At(p', t), p.blockSize) == NotPushed(At(p, t), p.blockSize)
    requires NotCounted(At(p', t)) == NotCounted(At(p, t))
    requires CallerInv(p.chunks, p.blockSize, Elements(Pending(p)), At(p', t))
    ensures Inv(p')
  {
    assert p.holder != t ==> At(p', p.holder) == At(p, p.holder);
    assert Pending(p') == Pending(p) && Uncounted(p') == Uncounted(p);
    FlagKept(p, p', t);
    CallersKept(p, p', t);
  }

  lemma RaiseInv(p: Pool, p': Pool, t: Thread)
    requires Inv(p) && At(p, t).RaiseFlag? && !p.isExpanding
    requires p' == Goto(p, t, CheckLimit).(isExpanding := true, holder := t)
    ensures Inv(p')
  {
    assert Pending(p') == Pending(p) == [] && Uncounted(p') == Uncounted(p) == 0;
    forall u: Thread ensures InExpand(At(p', u)) <==> u == t {
      assert u != t ==> At(p', u) == At(p, u);
      assert !InExpand(At(p, u));
    }
    CallersKept(p, p', t);
  }

  /** A thread inside `Expand` is the holder of the flag, which is up. */
  lemma IsHolder(p: Pool, t: Thread)
    requires FlagInv(p) && InExpand(At(p, t))
    ensures p.isExpanding && p.holder == t
  {}

  lemma LowerInv(p: Pool, p': Pool, t: Thread)
    requires Inv(p) && At(p, t).LowerFlag?
    requires p' == Goto(p, t, SecondPop(At(p, t).route)).(isExpanding := false)
    ensures Inv(p')
  {
    IsHolder(p, t);
    assert Pending(p') == Pending(p) == [] && Uncounted(p') == Uncounted(p) == 0;
    forall u: Thread ensures !InExpand(At(p', u)) {
      assert InExpand(At(p, u)) <==> u == t;
      assert u != t ==> At(p', u) == At(p, u);
    }
    assert CallerInv(p.chunks, p.blockSize, Elements(Pending(p)), At(p, t));
    CallersKept(p, p', t);
  }

  lemma SplitTakes(blocks: set<Addr>, free: seq<Addr>, live: set<Addr>, pending: seq<Addr>)
    requires Split(blocks, free, live, pending) && free != [] && NoDuplicates(free)
    ensures Split(blocks, free[1..], live + {free[0]}, pending) && free[0] !in live
  {
    assert free == [free[0]] + free[1..];
  }

  /** `Pop` of a block that is not null. */
  lemma TakeInv(p: Pool, p': Pool, t: Thread)
    requires Inv(p) && (At(p, t).FirstPop? || At(p, t).SecondPop?) && p.head != 0 && p' == Take(p, t)
    ensures Inv(p') && p.head in p.free && p.head !in p.live
  {
    assert p.free == [p.head] + p'.free;
    assert p.holder != t ==> At(p', p.holder) == At(p, p.holder);
    assert Pending(p') == Pending(p) && Uncounted(p') == Uncounted(p) by { assert !InExpand(At(p, t)); }
    ChainIsAcyclic(p.next, p.head, p.free);
    SplitTakes(AllBlocks(p.chunks, p.blockSize), p.free, p.live, Pending(p));
    FlagKept(p, p', t);
    CallersKept(p, p', t);
  }

  /** A step outside `Allocate`. */
  lemma NobodyMoved(p: Pool, p': Pool)
    requires FlagInv(p) && CallersInv(p) && p'.callers == p.callers
    requires p'.isExpanding == p.isExpanding && p'.holder == p.holder
    requires p'.chunks == p.chunks && p'.blockSize == p.blockSize
    ensures Pending(p') == Pending(p) && Uncounted(p') == Uncounted(p)
    ensures FlagInv(p') && CallersInv(p')
  {
    forall u: Thread
      ensures InExpand(At(p', u)) <==> p'.isExpanding && u == p'.holder
      ensures CallerInv(p'.chunks, p'.blockSize, Elements(Pending(p')), At(p', u))
    {
      assert At(p', u) == At(p, u);
      assert InExpand(At(p, u)) <==> p.isExpanding && u == p.holder;
      assert CallerInv(p.chunks, p.blockSize, Elements(Pending(p)), At(p, u));
    }
  }

  lemma SplitGives(blocks: set<Addr>, free: seq<Addr>, live: set<Addr>, pending: seq<Addr>, ptr: Addr)
    requires Split(blocks, free, live, pending) && ptr in live
    ensures Split(blocks, [ptr] + free, live - {ptr}, pending)
    ensures ptr != 0 && ptr !in free
  {
    assert ptr in Elements(free) <==> ptr in free;
  }

  /** `Push` of a block that a client holds. */
  lemma DeallocateInv(p: Pool, p': Pool, ptr: Addr)
    requires Inv(p) && ptr in p.live && p' == Put(p, ptr).(live := p.live - {ptr})
    ensures Inv(p')
  {
    SplitGives(AllBlocks(p.chunks, p.blockSize), p.free, p.live, Pending(p), ptr);
    PushChain(p.next, p.head, p.free, ptr);
    NobodyMoved(p, p');
  }

  lemma ClientWritesInv(p: Pool, p': Pool, ptr: Addr, word: Addr)
    requires Inv(p) && ptr in p.live && p' == p.(next := p.next[ptr := word])
    ensures Inv(p')
  {
    assert ptr !in p.free by { assert ptr !in Elements(p.free); }
    ChainInMemory(p.next, p.head, p.free);
    ChainFrame(p.next, p'.next, p.head, p.free);
    NobodyMoved(p, p');
  }

  // ---------------------------------------------------------------- the steps of `Expand`

  lemma {:induction false} ChunkInBlocks(chunks: seq<Chunk>, c: Chunk, size: nat)
    requires c in chunks
    ensures Elements(Carve(c.base, c.blocks, size)) <= AllBlocks(chunks, size)
  {
    var n := |chunks| - 1;
    if c != chunks[n] {
      assert chunks == chunks[..n] + [chunks[n]];
      ChunkInBlocks(chunks[..n], c, size);
    }
  }

  /** The new blocks are not among those of an earlier chunk. */
  lemma CutNoticed(p: Pool, t: Thread, chunk: Chunk, u: Thread)
    requires Inv(p) && At(p, t).CutChunk?
    requires AllBlocks(p.chunks, p.blockSize) !! Elements(Carve(chunk.base, chunk.blocks, p.blockSize))
    ensures u != t ==> CallerInv(p.chunks + [chunk], p.blockSize,
                                 Elements(Carve(chunk.base, chunk.blocks, p.blockSize)), At(p, u))
  {
    IsHolder(p, t);
    assert InExpand(At(p, u)) <==> u == t;
    assert CallerInv(p.chunks, p.blockSize, Elements(Pending(p)), At(p, u));
    if At(p, u).SecondPop? && At(p, u).route.Grew? {
      ChunkInBlocks(p.chunks, At(p, u).route.chunk, p.blockSize);
    }
  }

  lemma SplitCuts(blocks: set<Addr>, free: seq<Addr>, live: set<Addr>, added: seq<Addr>)
    requires Split(blocks, free, live, []) && blocks !! Elements(added)
    requires NoDuplicates(added) && 0 !in Elements(added)
    ensures Split(blocks + Elements(added), free, live, added)
  {}

  /** The books after a fresh chunk was cut: all its blocks are pending. */
  lemma CutBooks(chunks: seq<Chunk>, chunk: Chunk, size: nat, free: seq<Addr>, live: set<Addr>)
    requires size > 0 && Separate(chunks, size) && FreshChunk(chunks, chunk, size)
    requires Split(AllBlocks(chunks, size), free, live, [])
    ensures Separate(chunks + [chunk], size)
    ensures Split(AllBlocks(chunks + [chunk], size), free, live, Carve(chunk.base, chunk.blocks, size))
    ensures Bytes(BlockCount(chunks + [chunk]), size) == Bytes(BlockCount(chunks), size) + Bytes(chunk.blocks, size)
    ensures AllBlocks(chunks, size) !! Elements(Carve(chunk.base, chunk.blocks, size))
  {
    CutMore(chunks, chunk, size);
    SplitCuts(AllBlocks(chunks, size), free, live, Carve(chunk.base, chunk.blocks, size));
    BytesOfSum(BlockCount(chunks), chunk.blocks, size);
  }

  lemma CutCallers(p: Pool, p': Pool, t: Thread, chunk: Chunk)
    requires Inv(p) && At(p, t).CutChunk?
    requires p' == Goto(p, t, AfterBlock(chunk, 0)).(chunks := p.chunks + [chunk])
    requires AllBlocks(p.chunks, p.blockSize) !! Elements(Carve(chunk.base, chunk.blocks, p.blockSize))
    requires Pending(p') == Carve(chunk.base, chunk.blocks, p.blockSize)
    ensures CallersInv(p')
  {
    forall u: Thread ensures CallerInv(p'.chunks, p'.blockSize, Elements(Pending(p')), At(p', u)) {
      CutNoticed(p, t, chunk, u);
      assert u != t ==> At(p', u) == At(p, u);
      CarveNonEmpty(chunk.base, chunk.blocks, p.blockSize);
    }
  }

  /** Cutting a fresh chunk. */
  lemma CutInv(p: Pool, p': Pool, t: Thread, chunk: Chunk)
    requires Inv(p) && At(p, t).CutChunk? && FreshChunk(p.chunks, chunk, p.blockSize)
    requires p' == Goto(p, t, AfterBlock(chunk, 0)).(chunks := p.chunks + [chunk])
    ensures Inv(p')
  {
    var all := Carve(chunk.base, chunk.blocks, p.blockSize);
    IsHolder(p, t);
    assert Pending(p) == [] && Uncounted(p) == 0;
    assert Pending(p') == all && Uncounted(p') == chunk.blocks;
    CutBooks(p.chunks, chunk, p.blockSize, p.free, p.live);
    FlagKept(p, p', t);
    CutCallers(p, p', t, chunk);
  }

  lemma SplitPushes(blocks: set<Addr>, free: seq<Addr>, live: set<Addr>, ptr: Addr, rest: seq<Addr>)
    requires Split(blocks, free, live, [ptr] + rest)
    ensures Split(blocks, [ptr] + free, live, rest)
    ensures ptr != 0 && ptr !in free && Elements(rest) <= Elements([ptr] + rest)
  {
    var s := [ptr] + rest;
    assert ptr in Elements(s);
    assert NoDuplicates(rest) by {
      forall i, j | 0 <= i < j < |rest| ensures rest[i] != rest[j] {
        assert s[i + 1] == rest[i] && s[j + 1] == rest[j];
      }
    }
    forall k | 0 <= k < |rest| ensures rest[k] != ptr {
      assert s[k + 1] == rest[k] && s[0] == ptr;
    }
    assert ptr in free <==> ptr in Elements(free);
    assert Elements(s) == {ptr} + Elements(rest);
    assert Elements([ptr] + free) == {ptr} + Elements(free);
  }

  /** The block to be pushed next is the first of the pending ones. */
  lemma PendingAtPush(p: Pool, t: Thread, c: Chunk, i: nat)
    requires FlagInv(p) && CallersInv(p) && At(p, t) == PushBlock(c, i)
    ensures p.isExpanding && p.holder == t && i < c.blocks && c in p.chunks
    ensures Pending(p) == [BlockAt(c, i, p.blockSize)] + NotPushed(CountBlock(c, i), p.blockSize)
  {
    IsHolder(p, t);
    assert CallerInv(p.chunks, p.blockSize, Elements(Pending(p)), At(p, t));
    CarveAt(c.base, c.blocks, p.blockSize, i);
  }

  /** Pushing the next pending block. */
  lemma PushInv(p: Pool, p': Pool, t: Thread, c: Chunk, i: nat)
    requires Inv(p) && At(p, t) == PushBlock(c, i)
    requires p' == Put(Goto(p, t, CountBlock(c, i)), BlockAt(c, i, p.blockSize))
    ensures Inv(p')
  {
    PendingAtPush(p, t, c, i);
    assert Uncounted(p') == Uncounted(p);
    SplitPushes(AllBlocks(p.chunks, p.blockSize), p.free, p.live, BlockAt(c, i, p.blockSize), Pending(p'));
    PushChain(p.next, p.head, p.free, BlockAt(c, i, p.blockSize));
    FlagKept(p, p', t);
    CallersKept(p, p', t);
  }

  /** Counting the block that was pushed last. */
  lemma CountInv(p: Pool, p': Pool, t: Thread, c: Chunk, i: nat)
    requires Inv(p) && At(p, t) == CountBlock(c, i)
    requires p' == Goto(p, t, AfterBlock(c, i + 1)).(totalAllocated := p.totalAllocated + p.blockSize)
    ensures Inv(p')
  {
    IsHolder(p, t);
    assert CallerInv(p.chunks, p.blockSize, Elements(Pending(p)), At(p, t));
    var all := Carve(c.base, c.blocks, p.blockSize);
    assert Pending(p) == all[i + 1..] && Pending(p') == all[i + 1..];
    assert Uncounted(p) == Uncounted(p') + 1;
    FlagKept(p, p', t);
    CallersKept(p, p', t);
  }

  lemma CutChunkInv(p: Pool, p': Pool, t: Thread, base: Addr)
    requires Inv(p) && At(p, t).CutChunk? && p' == AdvanceStep(p, t, base)
    ensures Inv(p')
  {
    if AtLimit(p) {
      MoveInv(p, p', t);
    } else if FreshChunk(p.chunks, NextChunk(p, base), p.blockSize) {
      CutInv(p, p', t, NextChunk(p, base));
    }
  }

  /** One of the two `Pop` calls of `Allocate`. */
  lemma PopInv(p: Pool, p': Pool, t: Thread, base: Addr)
    requires Inv(p) && (At(p, t).FirstPop? || At(p, t).SecondPop?) && p' == AdvanceStep(p, t, base)
    ensures Inv(p')
  {
    if p.head == 0 {
      MoveInv(p, p', t);
    } else {
      TakeInv(p, p', t);
    }
  }

  /** The flag and the first check of the limit. */
  lemma EnterInv(p: Pool, p': Pool, t: Thread, base: Addr)
    requires Inv(p) && (At(p, t).RaiseFlag? || At(p, t).CheckLimit?) && p' == AdvanceStep(p, t, base)
    ensures Inv(p')
  {
    if At(p, t).RaiseFlag? && !p.isExpanding {
      RaiseInv(p, p', t);
    } else {
      MoveInv(p, p', t);
    }
  }

  lemma AdvanceInv(p: Pool, p': Pool, t: Thread, base: Addr)
    requires Inv(p) && p' == AdvanceStep(p, t, base)
    ensures Inv(p')
  {
    match At(p, t)
    case Idle =>
    case FirstPop => PopInv(p, p', t, base);
    case RaiseFlag => EnterInv(p, p', t, base);
    case CheckLimit => EnterInv(p, p', t, base);
    case CutChunk => CutChunkInv(p, p', t, base);
    case PushBlock(c, i) => PushInv(p, p', t, c, i);
    case CountBlock(c, i) => CountInv(p, p', t, c, i);
    case LowerFlag(_) => LowerInv(p, p', t);
    case SecondPop(_) => PopInv(p, p', t, base);
  }

  lemma StepInv(p: Pool, p': Pool, a: Action)
    requires Inv(p) && p' == Step(p, a)
    ensures Inv(p')
  {
    match a
    case CallAllocate(t) => if At(p, t).Idle? { MoveInv(p, p', t); }
    case Advance(t, base) => AdvanceInv(p, p', t, base);
    case Deallocate(ptr) => if ptr in p.live { DeallocateInv(p, p', ptr); }
    case ClientWrites(ptr, word) => if ptr in p.live { ClientWritesInv(p, p', ptr, word); }
    case SetMaxChunks(max) => NobodyMoved(p, p');
    case SetGrowFactor(factor) => NobodyMoved(p, p');
  }

  /** A pool that nobody is inside of, such as the constructor leaves. */
  ghost predicate Start(p: Pool) {
    && p.blockSize > 0 && Separate(p.chunks, p.blockSize)
    && Chain(p.next, p.head, p.free)
    && Partition(AllBlocks(p.chunks, p.blockSize), p.free, p.live)
    && p.totalAllocated == Bytes(BlockCount(p.chunks), p.blockSize)
    && !p.isExpanding && p.callers == map[] && p.returned == []
  }

  /** What a pool object looks like to the threads that start to call it. */
  ghost function StateOf(pool: FixedSizeMemoryPool): Pool
    reads pool, pool.heap, pool.freeList
  {
    Pool(pool.blockSize, pool.blocksPerChunk, pool.maxChunks, pool.growFactor, pool.chunks, pool.freeList.head,
         pool.heap.next, pool.isExpanding, pool.totalAllocated, map[], pool.free, pool.live, 0, [])
  }

  lemma ValidPoolStarts(pool: FixedSizeMemoryPool)
    requires pool.Valid()
    ensures Start(StateOf(pool))
  {}

  lemma {:induction false} RunInv(p: Pool, actions: seq<Action>)
    requires Start(p)
    ensures Inv(Run(p, actions))
  {
    if actions == [] {
      SeparateBlocks(p.chunks, p.blockSize);
    } else {
      RunInv(p, actions[..|actions| - 1]);
      StepInv(Run(p, actions[..|actions| - 1]), Run(p, actions), actions[|actions| - 1]);
    }
  }

  // ---------------------------------------------------------------- what every run guarantees

  /**
   * In every interleaving each block cut so far is free, in a client's hands or about to be pushed,
   * and only one of these; the free list is acyclic; blocks do not overlap; at most one thread is
   * inside `Expand`.
   */
  lemma EveryRunPartitions(p: Pool, actions: seq<Action>, t: Thread, u: Thread)
    requires Start(p)
    ensures var q := Run(p, actions);
            && Split(AllBlocks(q.chunks, q.blockSize), q.free, q.live, Pending(q))
            && Chain(q.next, q.head, q.free) && NoDuplicates(q.free)
            && Spaced(AllBlocks(q.chunks, q.blockSize), q.blockSize)
            && (InExpand(At(q, t)) && InExpand(At(q, u)) ==> t == u)
            && (!q.isExpanding ==> Pending(q) == [] && q.totalAllocated == Bytes(BlockCount(q.chunks), q.blockSize))
  {
    RunInv(p, actions);
    var q := Run(p, actions);
    ChainIsAcyclic(q.next, q.head, q.free);
    SeparateBlocks(q.chunks, q.blockSize);
  }

  /** A call returns a block that nobody held, or null. */
  lemma ReturnsAreNew(p: Pool, actions: seq<Action>, t: Thread, base: Addr)
    requires Start(p)
    ensures var q := Run(p, actions);
            var q' := Step(q, Advance(t, base));
            q'.returned != q.returned ==>
              && |q'.returned| == |q.returned| + 1 && q'.returned[..|q.returned|] == q.returned
              && var r := q'.returned[|q.returned|];
                 && r.thread == t
                 && (r.ptr != 0 ==>
                       && r.ptr in AllBlocks(q.chunks, q.blockSize) && r.ptr !in q.live
                       && q'.live == q.live + {r.ptr})
                 && (r.ptr == 0 ==> q'.live == q.live)
  {
    RunInv(p, actions);
    var q := Run(p, actions);
    if (At(q, t).FirstPop? || At(q, t).SecondPop?) && q.head != 0 {
      TakeInv(q, Take(q, t), t);
      assert q.head in Elements(q.free);
    }
  }

  lemma EmptyIff(blocks: set<Addr>, free: seq<Addr>, live: set<Addr>, pending: seq<Addr>)
    requires Split(blocks, free, live, pending)
    ensures free == [] <==> blocks == live + Elements(pending)
  {
    if free != [] {
      assert free[0] in Elements(free);
    }
  }

  /** The step of `t` ends its call with null. */
  predicate ReturnsNull(p: Pool, t: Thread, base: Addr) {
    Step(p, Advance(t, base)).returned == p.returned + [Return(t, 0)]
  }

  lemma NullMeansEmpty(p: Pool, t: Thread, base: Addr)
    requires Inv(p)
    ensures ReturnsNull(p, t, base) <==> At(p, t).SecondPop? && p.free == []
  {
    assert p.head == 0 <==> p.free == [];
    assert (p.returned + [Return(t, 0)])[|p.returned|] == Return(t, 0);
    assert (p.returned + [Return(t, p.head)])[|p.returned|] == Return(t, p.head);
  }

  /** The blocks of a chunk that a call has added are free or live. */
  lemma OwnChunk(p: Pool, t: Thread)
    requires Inv(p) && At(p, t).SecondPop? && At(p, t).route.Grew?
    ensures var c := At(p, t).route.chunk;
            c in p.chunks && Elements(Carve(c.base, c.blocks, p.blockSize)) <= Elements(p.free) + p.live
  {
    assert CallerInv(p.chunks, p.blockSize, Elements(Pending(p)), At(p, t));
    ChunkInBlocks(p.chunks, At(p, t).route.chunk, p.blockSize);
  }

  /**
   * A call returns null exactly when, at its second `Pop`, each block cut so far is in a client's
   * hands or still to be pushed. If it has added a chunk itself, clients hold all of that chunk.
   */
  lemma NullIff(p: Pool, actions: seq<Action>, t: Thread, base: Addr)
    requires Start(p)
    ensures var q := Run(p, actions);
            && (ReturnsNull(q, t, base) <==>
                  At(q, t).SecondPop? && AllBlocks(q.chunks, q.blockSize) == q.live + Elements(Pending(q)))
            && (ReturnsNull(q, t, base) && At(q, t).route.Grew? ==>
                  var c := At(q, t).route.chunk;
                  c in q.chunks && Elements(Carve(c.base, c.blocks, q.blockSize)) <= q.live)
  {
    RunInv(p, actions);
    var q := Run(p, actions);
    NullMeansEmpty(q, t, base);
    EmptyIff(AllBlocks(q.chunks, q.blockSize), q.free, q.live, Pending(q));
    if At(q, t).SecondPop? && At(q, t).route.Grew? {
      OwnChunk(q, t);
    }
  }

  /**
   * How a call gets to a second `Pop` without a chunk of its own: another thread is inside `Expand`
   * when it tries the flag, or the limit is reached at one of its two checks. Chunks are added only
   * below the limit.
   */
  lemma RoutesAreExact(p: Pool, actions: seq<Action>, t: Thread, base: Addr)
    requires Start(p)
    ensures var q := Run(p, actions);
            var q' := Step(q, Advance(t, base));
            && (At(q, t).RaiseFlag? ==>
                  (At(q', t) == SecondPop(FlagWasUp) <==> exists u: Thread :: u != t && InExpand(At(q, u))))
            && (At(q, t).CheckLimit? || At(q, t).CutChunk? ==>
                  (At(q', t) == LowerFlag(LimitReached) <==> 0 < q.maxChunks <= |q.chunks|))
            && (q'.chunks != q.chunks ==>
                  && At(q, t).CutChunk? && |q'.chunks| == |q.chunks| + 1
                  && (q.maxChunks > 0 ==> |q'.chunks| <= q.maxChunks))
  {
    RunInv(p, actions);
    var q := Run(p, actions);
    if At(q, t).RaiseFlag? {
      assert !InExpand(At(q, t));
      if q.isExpanding {
        assert InExpand(At(q, q.holder));
      } else {
        forall u: Thread ensures !InExpand(At(q, u)) {
          assert InExpand(At(q, u)) <==> q.isExpanding && u == q.holder;
        }
      }
    }
  }

  lemma {:induction false} RunConcat(p: Pool, a: seq<Action>, b: seq<Action>)
    ensures Run(p, a + b) == Run(Run(p, a), b)
  {
    if b == [] {
      assert a + b == a;
    } else {
      var n := |b| - 1;
      RunConcat(p, a, b[..n]);
      assert (a + b)[..|a + b| - 1] == a + b[..n];
    }
  }

  lemma RunThree(p: Pool, a: seq<Action>)
    requires |a| == 3
    ensures Run(p, a) == Step(Step(Step(p, a[0]), a[1]), a[2])
  {
    assert a[..2][..1] == [a[0]] && a[..2][1] == a[1];
    assert [a[0]][..0] == [];
    assert Run(p, [a[0]]) == Step(p, a[0]);
  }

  /** With nothing free, a call that meets an expansion in progress returns null below any limit. */
  lemma NullWhileGrowing(p: Pool, base: Addr) returns (actions: seq<Action>)
    requires Start(p) && p.free == []
    ensures Run(p, actions).returned == [Return(1, 0)]
    ensures Run(p, actions).maxChunks == p.maxChunks && Run(p, actions).chunks == p.chunks
  {
    var p1 := Goto(Goto(p, 0, FirstPop), 0, RaiseFlag);
    var p2 := Goto(p1, 0, CheckLimit).(isExpanding := true, holder := 0);
    actions := [CallAllocate(0), Advance(0, base), Advance(0, base)];
    RunThree(p, actions);
    assert Run(p, actions) == p2;
    var second := [CallAllocate(1), Advance(1, base), Advance(1, base)];
    RunConcat(p, actions, second);
    RunThree(p2, second);
    var p3 := Goto(Goto(Goto(p2, 1, FirstPop), 1, RaiseFlag), 1, SecondPop(FlagWasUp));
    assert Run(p, actions + second) == p3;
    actions := actions + second + [Advance(1, base)];
    assert actions[..6] == [CallAllocate(0), Advance(0, base), Advance(0, base)] + second;
  }
}
