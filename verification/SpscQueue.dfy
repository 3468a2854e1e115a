/**
 * The single-producer single-consumer ring, one transition per atomic access. A schedule is any
 * interleaving of the two sides; an action that its side cannot take leaves the state unchanged.
 */
module SpscQueue {
  import opened Ring
  import opened Sequences

  /** Where the producer stands inside `Push`. */
  datatype Producer<T> =
    | Idle
    | LoadWrite(item: T)
    | LoadRead(item: T, write: nat)
    | WriteSlot(item: T, write: nat)
    | StoreWrite(item: T, write: nat)

  /** Where the consumer stands inside `Pop`. */
  datatype Consumer<T> =
    | Resting
    | LoadOwnRead
    | LoadOtherWrite(read: nat)
    | ReadSlot(read: nat)
    | StoreRead(read: nat, item: T)

  /** `pushed` and `popped` record the items of the calls that moved an index. */
  datatype Queue<T> = Queue(
    buffer: seq<T>,
    readIdx: nat,
    writeIdx: nat,
    producer: Producer<T>,
    consumer: Consumer<T>,
    pushed: seq<T>,
    popped: seq<T>)

  datatype Action<T> = CallPush(item: T) | Produce | CallPop | Consume

  function Capacity<T>(q: Queue<T>): nat { |q.buffer| }

  /** `Init`: any positive capacity, uninitialised slots. */
  function Initial<T>(blank: seq<T>): Queue<T> {
    Queue(blank, 0, 0, Idle, Resting, [], [])
  }

  predicate WellFormed<T>(q: Queue<T>) {
    && q.readIdx < |q.buffer| && q.writeIdx < |q.buffer|
    && (q.producer.WriteSlot? ==> q.producer.write < |q.buffer|)
    && (q.producer.LoadRead? ==> q.producer.write < |q.buffer|)
    && (q.consumer.ReadSlot? ==> q.consumer.read < |q.buffer|)
    && (q.consumer.LoadOtherWrite? ==> q.consumer.read < |q.buffer|)
  }

  function ProducerStep<T>(q: Queue<T>): (r: Queue<T>)
    requires WellFormed(q)
    ensures WellFormed(r)
  {
    match q.producer
    case Idle => q
    case LoadWrite(item) => q.(producer := LoadRead(item, q.writeIdx))
    case LoadRead(item, write) =>
      if Slot(write + 1, Capacity(q)) == q.readIdx then q.(producer := Idle)
      else q.(producer := WriteSlot(item, write))
    case WriteSlot(item, write) => q.(producer := StoreWrite(item, write), buffer := q.buffer[write := item])
    case StoreWrite(item, write) =>
      q.(producer := Idle, writeIdx := Slot(write + 1, Capacity(q)), pushed := q.pushed + [item])
  }

  function ConsumerStep<T>(q: Queue<T>): (r: Queue<T>)
    requires WellFormed(q)
    ensures WellFormed(r)
  {
    match q.consumer
    case Resting => q
    case LoadOwnRead => q.(consumer := LoadOtherWrite(q.readIdx))
    case LoadOtherWrite(read) =>
      if read == q.writeIdx then q.(consumer := Resting) else q.(consumer := ReadSlot(read))
    case ReadSlot(read) => q.(consumer := StoreRead(read, q.buffer[read]))
    case StoreRead(read, item) =>
      q.(consumer := Resting, readIdx := Slot(read + 1, Capacity(q)), popped := q.popped + [item])
  }

  function Step<T>(q: Queue<T>, a: Action<T>): (r: Queue<T>)
    requires WellFormed(q)
    ensures WellFormed(r)
  {
    match a
    case CallPush(item) => if q.producer.Idle? then q.(producer := LoadWrite(item)) else q
    case Produce => ProducerStep(q)
    case CallPop => if q.consumer.Resting? then q.(consumer := LoadOwnRead) else q
    case Consume => ConsumerStep(q)
  }

  function Run<T>(q: Queue<T>, schedule: seq<Action<T>>): (r: Queue<T>)
    requires WellFormed(q)
    ensures WellFormed(r)
  {
    if schedule == [] then q
    else Step(Run(q, schedule[..|schedule| - 1]), schedule[|schedule| - 1])
  }

  /** How many items the two indices of one state are apart. */
  function Size<T>(q: Queue<T>): nat
    requires WellFormed(q)
  {
    Distance(q.readIdx, q.writeIdx, Capacity(q))
  }

  /** The two indices of one state say that there is no room. */
  predicate Full<T>(q: Queue<T>)
    requires WellFormed(q)
  {
    Slot(q.writeIdx + 1, Capacity(q)) == q.readIdx
  }

  /** The abstract FIFO: the slots from the read index up to the write index, around the ring. */
  function Contents<T>(q: Queue<T>): seq<T>
    requires WellFormed(q)
  {
    seq(Size(q), i requires 0 <= i < Size(q) => q.buffer[Slot(q.readIdx + i, Capacity(q))])
  }

  // ---------------------------------------------------------------- invariant

  ghost predicate RingInv<T>(q: Queue<T>) {
    var cap, tail, head := Capacity(q), |q.pushed|, |q.popped|;
    && WellFormed(q)
    && head <= tail <= head + cap - 1
    && q.writeIdx == Slot(tail, cap)
    && q.readIdx == Slot(head, cap)
    && (forall i: nat | head <= i < tail :: q.buffer[Slot(i, cap)] == q.pushed[i])
    && q.popped == q.pushed[..head]
  }

  ghost predicate ProducerInv<T>(q: Queue<T>)
    requires WellFormed(q)
  {
    var room := |q.pushed| < |q.popped| + Capacity(q) - 1;
    match q.producer
    case Idle => true
    case LoadWrite(_) => true
    case LoadRead(_, write) => write == q.writeIdx
    case WriteSlot(_, write) => write == q.writeIdx && room
    case StoreWrite(item, write) => write == q.writeIdx && room && q.buffer[write] == item
  }

  ghost predicate ConsumerInv<T>(q: Queue<T>)
    requires WellFormed(q)
  {
    var some := |q.popped| < |q.pushed|;
    match q.consumer
    case Resting => true
    case LoadOwnRead => true
    case LoadOtherWrite(read) => read == q.readIdx
    case ReadSlot(read) => read == q.readIdx && some
    case StoreRead(read, item) => read == q.readIdx && some && item == q.pushed[|q.popped|]
  }

  ghost predicate Inv<T>(q: Queue<T>) {
    RingInv(q) && ProducerInv(q) && ConsumerInv(q)
  }

  lemma PublishInv<T>(q: Queue<T>)
    requires Inv(q) && q.producer.StoreWrite?
    ensures Inv(ProducerStep(q))
  {
    var q', cap, tail := ProducerStep(q), Capacity(q), |q.pushed|;
    SlotSuccessor(tail, cap);
    assert q'.pushed[..|q.popped|] == q.pushed[..|q.popped|];
    assert RingInv(q') by {
      forall i: nat | |q.popped| <= i < tail + 1 ensures q'.buffer[Slot(i, cap)] == q'.pushed[i] {
        assert i < tail ==> q.buffer[Slot(i, cap)] == q.pushed[i];
      }
    }
  }

  /** The index after the write index is the read index exactly when all slots but one are taken. */
  lemma FullIff<T>(q: Queue<T>)
    requires RingInv(q)
    ensures Full(q) <==> |q.pushed| - |q.popped| == Capacity(q) - 1
  {
    var cap, tail, head := Capacity(q), |q.pushed|, |q.popped|;
    SlotSuccessor(tail, cap);
    SlotNextLap(head, cap);
    if Full(q) {
      SlotInjective(tail + 1, head + cap, cap);
    }
  }

  /** The comparison with the other side's index sees whether there is room. */
  lemma RoomInv<T>(q: Queue<T>)
    requires Inv(q) && q.producer.LoadRead?
    ensures Inv(ProducerStep(q))
  {
    FullIff(q);
  }

  lemma WriteInv<T>(q: Queue<T>)
    requires Inv(q) && q.producer.WriteSlot?
    ensures Inv(ProducerStep(q))
  {
    WindowInjective(|q.popped|, Capacity(q));
  }

  lemma ProducerStepInv<T>(q: Queue<T>)
    requires Inv(q)
    ensures Inv(ProducerStep(q))
  {
    match q.producer
    case LoadRead(_, write) => RoomInv(q);
    case WriteSlot(item, write) => WriteInv(q);
    case StoreWrite(item, write) => PublishInv(q);
    case Idle =>
    case LoadWrite(item) =>
  }

  lemma ReleaseInv<T>(q: Queue<T>)
    requires Inv(q) && q.consumer.StoreRead?
    ensures Inv(ConsumerStep(q))
  {
    var head := |q.popped|;
    SlotSuccessor(head, Capacity(q));
    assert q.pushed[..head] + [q.consumer.item] == q.pushed[..head + 1];
  }

  lemma ConsumerStepInv<T>(q: Queue<T>)
    requires Inv(q)
    ensures Inv(ConsumerStep(q))
  {
    match q.consumer
    case ReadSlot(read) => assert q.buffer[Slot(|q.popped|, Capacity(q))] == q.pushed[|q.popped|];
    case StoreRead(read, item) => ReleaseInv(q);
    case _ =>
  }

  lemma StepInv<T>(q: Queue<T>, a: Action<T>)
    requires Inv(q)
    ensures Inv(Step(q, a)) && Capacity(Step(q, a)) == Capacity(q)
  {
    match a
    case Produce => ProducerStepInv(q);
    case Consume => ConsumerStepInv(q);
    case _ =>
  }

  lemma {:induction false} RunInv<T>(blank: seq<T>, schedule: seq<Action<T>>)
    requires |blank| > 0
    ensures Inv(Run(Initial(blank), schedule)) && Capacity(Run(Initial(blank), schedule)) == |blank|
  {
    if schedule != [] {
      RunInv(blank, schedule[..|schedule| - 1]);
      StepInv(Run(Initial(blank), schedule[..|schedule| - 1]), schedule[|schedule| - 1]);
    }
  }

  /** The two indices determine the number of items, although they forget how often they wrapped. */
  lemma SizeIsExact<T>(q: Queue<T>)
    requires Inv(q)
    ensures Size(q) == |q.pushed| - |q.popped|
    ensures Full(q) <==> Size(q) == Capacity(q) - 1
  {
    RingDistance(|q.popped|, |q.pushed|, Capacity(q));
    FullIff(q);
  }

  lemma ContentsAre<T>(q: Queue<T>)
    requires Inv(q)
    ensures Contents(q) == q.pushed[|q.popped|..]
  {
    SizeIsExact(q);
    var cap, head := Capacity(q), |q.popped|;
    forall i | 0 <= i < Size(q) ensures Contents(q)[i] == q.pushed[head..][i] {
      SlotPlus(head, i, cap);
      assert q.buffer[Slot(head + i, cap)] == q.pushed[head + i];
    }
  }

  // ---------------------------------------------------------------- what every run guarantees

  lemma InvIsFifo<T>(q: Queue<T>)
    requires Inv(q)
    ensures q.pushed == q.popped + Contents(q) && |Contents(q)| <= Capacity(q) - 1
  {
    ContentsAre(q);
  }

  /** In every interleaving the ring holds exactly what was pushed and not yet popped, in order. */
  lemma EveryRunIsFifo<T>(blank: seq<T>, schedule: seq<Action<T>>)
    requires |blank| > 0
    ensures var q := Run(Initial(blank), schedule);
            && q.pushed == q.popped + Contents(q)
            && Capacity(q) == |blank|
            && |Contents(q)| <= |blank| - 1
  {
    RunInv(blank, schedule);
    InvIsFifo(Run(Initial(blank), schedule));
  }

  /** Seen from the abstract FIFO, action `a` is a push, a pop of the oldest item, or nothing. */
  ghost predicate Refines<T>(q: Queue<T>, a: Action<T>)
    requires WellFormed(q)
  {
    var q' := Step(q, a);
    if a.Produce? && q.producer.StoreWrite? then
      Contents(q') == Contents(q) + [q.producer.item] && q'.popped == q.popped
    else if a.Consume? && q.consumer.StoreRead? then
      |Contents(q)| > 0 && q.consumer.item == Contents(q)[0] && Contents(q') == Contents(q)[1..]
    else
      Contents(q') == Contents(q) && q'.popped == q.popped && q'.pushed == q.pushed
  }

  /** Pushing and popping, in terms of the part of `pushed` that was not popped yet. */
  lemma Slices<T>(pushed: seq<T>, head: nat)
    requires head <= |pushed|
    ensures forall x: T :: (pushed + [x])[head..] == pushed[head..] + [x]
    ensures head < |pushed| ==> pushed[head..][0] == pushed[head] && pushed[head + 1..] == pushed[head..][1..]
  {}

  /** Which accesses move the histories, and how. */
  lemma HistoryStep<T>(q: Queue<T>, a: Action<T>)
    requires Inv(q)
    ensures var q' := Step(q, a);
            if a.Produce? && q.producer.StoreWrite? then
              q'.pushed == q.pushed + [q.producer.item] && q'.popped == q.popped
            else if a.Consume? && q.consumer.StoreRead? then
              q'.pushed == q.pushed && |q'.popped| == |q.popped| + 1 && q.consumer.item == q.pushed[|q.popped|]
            else
              q'.popped == q.popped && q'.pushed == q.pushed
  {}

  lemma StepRefines<T>(q: Queue<T>, a: Action<T>)
    requires Inv(q)
    ensures Refines(q, a)
  {
    StepInv(q, a);
    ContentsAre(q);
    ContentsAre(Step(q, a));
    HistoryStep(q, a);
    Slices(q.pushed, |q.popped|);
  }

  /** Each access appends one item, removes the oldest item, or leaves the abstract FIFO alone. */
  lemma EveryStepRefinesFifo<T>(blank: seq<T>, schedule: seq<Action<T>>, a: Action<T>)
    requires |blank| > 0
    ensures Refines(Run(Initial(blank), schedule), a)
  {
    RunInv(blank, schedule);
    StepRefines(Run(Initial(blank), schedule), a);
  }

  /** The two sides never touch the same slot at once. */
  lemma SidesAreDisjoint<T>(blank: seq<T>, schedule: seq<Action<T>>)
    requires |blank| > 0
    ensures var q := Run(Initial(blank), schedule);
            q.producer.WriteSlot? && q.consumer.ReadSlot? ==> q.producer.write != q.consumer.read
  {
    RunInv(blank, schedule);
    var q := Run(Initial(blank), schedule);
    if q.producer.WriteSlot? && q.consumer.ReadSlot? {
      WindowInjective(|q.popped|, Capacity(q));
      assert Slot(|q.popped|, Capacity(q)) == q.consumer.read;
      assert Slot(|q.pushed|, Capacity(q)) == q.producer.write;
    }
  }

  lemma PushOutcome<T>(q: Queue<T>)
    requires Inv(q) && q.producer.LoadRead?
    ensures Step(q, Produce).producer.Idle? <==> |Contents(q)| == Capacity(q) - 1
  {
    SizeIsExact(q);
  }

  lemma PopOutcome<T>(q: Queue<T>)
    requires Inv(q) && q.consumer.LoadOtherWrite?
    ensures Step(q, Consume).consumer.Resting? <==> Contents(q) == []
  {
    SizeIsExact(q);
    assert |Contents(q)| == Size(q);
  }

  /** `Push` gives up exactly when the queue is full, and `Pop` exactly when it is empty, at the load. */
  lemma OutcomesAreExact<T>(blank: seq<T>, schedule: seq<Action<T>>)
    requires |blank| > 0
    ensures var q := Run(Initial(blank), schedule);
            && (q.producer.LoadRead? ==>
                  (Step(q, Produce).producer.Idle? <==> |Contents(q)| == Capacity(q) - 1))
            && (q.consumer.LoadOtherWrite? ==>
                  (Step(q, Consume).consumer.Resting? <==> Contents(q) == []))
  {
    RunInv(blank, schedule);
    var q := Run(Initial(blank), schedule);
    if q.producer.LoadRead? { PushOutcome(q); }
    if q.consumer.LoadOtherWrite? { PopOutcome(q); }
  }

  // ---------------------------------------------------------------- size queries from any thread

  /**
   * `SizeApprox` loads the read index in the state `first` and the write index in a later one;
   * `Empty` loads in the same order, `Full` the other way round.
   */
  function SizeSeen<T>(first: Queue<T>, second: Queue<T>): nat
    requires WellFormed(first) && WellFormed(second) && Capacity(first) == Capacity(second)
  {
    Distance(first.readIdx, second.writeIdx, Capacity(first))
  }

  predicate EmptySeen<T>(first: Queue<T>, second: Queue<T>) {
    first.readIdx == second.writeIdx
  }

  predicate FullSeen<T>(first: Queue<T>, second: Queue<T>)
    requires WellFormed(first)
  {
    Slot(first.writeIdx + 1, Capacity(first)) == second.readIdx
  }

  lemma {:induction false} RunConcat<T>(q: Queue<T>, a: seq<Action<T>>, b: seq<Action<T>>)
    requires WellFormed(q)
    ensures Run(q, a + b) == Run(Run(q, a), b)
  {
    if b == [] {
      assert a + b == a;
    } else {
      var n := |b| - 1;
      RunConcat(q, a, b[..n]);
      assert (a + b)[..|a + b| - 1] == a + b[..n];
    }
  }

  /** What the first load of a query leaves to the second. */
  ghost predicate Loads<T>(first: Queue<T>, second: Queue<T>) {
    && Inv(first) && Inv(second)
    && Capacity(first) == Capacity(second)
    && |first.pushed| <= |second.pushed| && |first.popped| <= |second.popped|
  }

  /** The histories grow, and each of them only by steps of its own side. */
  lemma {:induction false} HistoriesGrow<T>(q: Queue<T>, between: seq<Action<T>>)
    requires Inv(q)
    ensures var q' := Run(q, between);
            && Loads(q, q')
            && ((forall a | a in between :: !a.Produce?) ==> |q'.pushed| == |q.pushed|)
            && ((forall a | a in between :: !a.Consume?) ==> |q'.popped| == |q.popped|)
  {
    if between != [] {
      var n := |between| - 1;
      HistoriesGrow(q, between[..n]);
      StepInv(Run(q, between[..n]), between[n]);
      HistoryStep(Run(q, between[..n]), between[n]);
    }
  }

  /** The states in which a query that began after `before` makes its two loads. */
  lemma TwoLoads<T>(blank: seq<T>, before: seq<Action<T>>, between: seq<Action<T>>)
    requires |blank| > 0
    ensures var first, second := Run(Initial(blank), before), Run(Initial(blank), before + between);
            && Loads(first, second) && Capacity(first) == |blank|
            && ((forall a | a in between :: !a.Produce?) ==> |second.pushed| == |first.pushed|)
            && ((forall a | a in between :: !a.Consume?) ==> |second.popped| == |first.popped|)
  {
    RunInv(blank, []);
    RunInv(blank, before);
    HistoriesGrow(Initial(blank), before);
    RunConcat(Initial(blank), before, between);
    HistoriesGrow(Run(Initial(blank), before), between);
  }

  /** The verdicts of a query that any thread makes while both sides go on. */
  ghost predicate Observed<T>(first: Queue<T>, second: Queue<T>)
    requires WellFormed(first) && WellFormed(second) && Capacity(first) == Capacity(second)
    requires |first.popped| <= |second.pushed|
  {
    && SizeSeen(first, second) == Slot(|second.pushed| - |first.popped|, Capacity(first))
    && (SizeSeen(first, second) == |Contents(second)| <==> first.readIdx == second.readIdx)
    && (SizeSeen(first, second) == |Contents(first)| <==> first.writeIdx == second.writeIdx)
    && (EmptySeen(first, second) <==> SizeSeen(first, second) == 0)
    && (FullSeen(first, second) ==>
          && (|Contents(first)| == Capacity(first) - 1 <==> first.readIdx == second.readIdx)
          && (|Contents(second)| == Capacity(second) - 1 <==> first.writeIdx == second.writeIdx))
  }

  lemma ContentsSize<T>(q: Queue<T>)
    requires Inv(q)
    ensures |Contents(q)| == Distance(q.readIdx, q.writeIdx, Capacity(q)) == |q.pushed| - |q.popped|
    ensures Full(q) <==> |Contents(q)| == Capacity(q) - 1
  {
    SizeIsExact(q);
  }

  /** A size is right at a load exactly when the other index was the same at both. */
  lemma SizeVerdict<T>(first: Queue<T>, second: Queue<T>)
    requires Inv(first) && Inv(second) && Capacity(first) == Capacity(second)
    ensures SizeSeen(first, second) == |Contents(second)| <==> first.readIdx == second.readIdx
    ensures SizeSeen(first, second) == |Contents(first)| <==> first.writeIdx == second.writeIdx
  {
    ContentsSize(first);
    ContentsSize(second);
  }

  lemma FullIndices<T>(first: Queue<T>, second: Queue<T>)
    requires RingInv(first) && RingInv(second) && Capacity(first) == Capacity(second)
    ensures FullSeen(first, second) ==>
              && (Full(first) <==> first.readIdx == second.readIdx)
              && (Full(second) <==> first.writeIdx == second.writeIdx)
  {
    var w, w' := first.writeIdx, second.writeIdx;
    if Slot(w + 1, Capacity(first)) == Slot(w' + 1, Capacity(first)) {
      WindowInjective(1, Capacity(first));
    }
  }

  /** A verdict "full" is right at a load exactly when the other index was the same at both. */
  lemma FullVerdict<T>(first: Queue<T>, second: Queue<T>)
    requires Inv(first) && Inv(second) && Capacity(first) == Capacity(second)
    ensures FullSeen(first, second) ==>
              && (|Contents(first)| == Capacity(first) - 1 <==> first.readIdx == second.readIdx)
              && (|Contents(second)| == Capacity(second) - 1 <==> first.writeIdx == second.writeIdx)
  {
    FullIndices(first, second);
    ContentsSize(first);
    ContentsSize(second);
  }

  /** The size seen, up to whole laps. */
  lemma SizeValue<T>(first: Queue<T>, second: Queue<T>)
    requires RingInv(first) && RingInv(second) && Capacity(first) == Capacity(second)
    requires |first.popped| <= |second.pushed|
    ensures SizeSeen(first, second) == Slot(|second.pushed| - |first.popped|, Capacity(first))
    ensures EmptySeen(first, second) <==> SizeSeen(first, second) == 0
  {
    LapsForgotten(|first.popped|, |second.pushed|, Capacity(first));
  }

  lemma LoadsObserve<T>(first: Queue<T>, second: Queue<T>)
    requires Loads(first, second)
    ensures |first.popped| <= |second.pushed| && Observed(first, second)
  {
    SizeValue(first, second);
    SizeVerdict(first, second);
    FullVerdict(first, second);
  }

  /**
   * What any thread reads off the indices while both sides go on: the number of items pushed by the
   * second load and not popped by the first, except that whole laps are lost. The size is right at
   * a load exactly when the index loaded at the other time was the same then.
   */
  lemma ObserverSees<T>(blank: seq<T>, before: seq<Action<T>>, between: seq<Action<T>>)
    requires |blank| > 0
    ensures var first, second := Run(Initial(blank), before), Run(Initial(blank), before + between);
            && Capacity(first) == Capacity(second) == |blank|
            && |first.popped| <= |second.pushed|
            && Observed(first, second)
            && SizeSeen(first, second) <= |blank| - 1
  {
    TwoLoads(blank, before, between);
    LoadsObserve(Run(Initial(blank), before), Run(Initial(blank), before + between));
  }

  /** One of the two sides stands still between the loads of a query. */
  ghost predicate OwnQuery<T>(first: Queue<T>, second: Queue<T>)
    requires WellFormed(first) && WellFormed(second) && Capacity(first) == Capacity(second)
  {
    && (|first.pushed| == |second.pushed| ==>
          && SizeSeen(first, second) == |Contents(first)|
          && (EmptySeen(first, second) <==> Contents(first) == [])
          && (FullSeen(first, second) <==> |Contents(second)| == Capacity(second) - 1))
    && (|first.popped| == |second.popped| ==>
          && SizeSeen(first, second) == |Contents(second)|
          && (EmptySeen(first, second) <==> Contents(second) == [])
          && (FullSeen(first, second) <==> |Contents(first)| == Capacity(first) - 1))
  }

  lemma LoadsAreExact<T>(first: Queue<T>, second: Queue<T>)
    requires Loads(first, second)
    ensures OwnQuery(first, second)
  {
    ContentsSize(first);
    ContentsSize(second);
  }

  /**
   * A side that asks about its own queue, and so does nothing else meanwhile, gets the truth at its
   * load of the other side's index.
   */
  lemma OwnQueriesAreExact<T>(blank: seq<T>, before: seq<Action<T>>, between: seq<Action<T>>)
    requires |blank| > 0
    ensures var first, second := Run(Initial(blank), before), Run(Initial(blank), before + between);
            && Capacity(first) == Capacity(second) == |blank|
            && OwnQuery(first, second)
            && ((forall a | a in between :: !a.Produce?) ==> |second.pushed| == |first.pushed|)
            && ((forall a | a in between :: !a.Consume?) ==> |second.popped| == |first.popped|)
  {
    TwoLoads(blank, before, between);
    LoadsAreExact(Run(Initial(blank), before), Run(Initial(blank), before + between));
  }

  lemma FiveSteps<T>(q: Queue<T>, a: Action<T>, b: Action<T>)
    requires WellFormed(q)
    ensures Run(q, [a, b, b, b, b]) == Step(Step(Step(Step(Step(q, a), b), b), b), b)
  {
    var all := [a, b, b, b, b];
    assert all[..4] == [a, b, b, b] && all[..4][..3] == [a, b, b] && [a, b, b][..2] == [a, b] && [a, b][..1] == [a];
    assert [a][..0] == [];
    assert Run(q, [a]) == Step(q, a);
    assert Run(q, [a, b]) == Step(Step(q, a), b);
    assert Run(q, [a, b, b]) == Step(Step(Step(q, a), b), b);
    assert Run(q, [a, b, b, b]) == Step(Step(Step(Step(q, a), b), b), b);
  }

  lemma PushAlone<T>(q: Queue<T>, x: T)
    requires WellFormed(q) && q.producer.Idle?
    ensures var loaded := q.(producer := LoadRead(x, q.writeIdx));
            && Step(Step(q, CallPush(x)), Produce) == loaded
            && Step(Step(Step(loaded, Produce), Produce), Produce) ==
               if Full(q) then q
               else q.(writeIdx := Slot(q.writeIdx + 1, Capacity(q)), buffer := q.buffer[q.writeIdx := x],
                       pushed := q.pushed + [x])
  {
    var loaded := q.(producer := LoadRead(x, q.writeIdx));
    if !Full(q) {
      assert Step(loaded, Produce) == q.(producer := WriteSlot(x, q.writeIdx));
      assert Step(Step(loaded, Produce), Produce) ==
             q.(producer := StoreWrite(x, q.writeIdx), buffer := q.buffer[q.writeIdx := x]);
    } else {
      assert Step(loaded, Produce) == q;
    }
  }

  lemma PopAlone<T>(q: Queue<T>)
    requires WellFormed(q) && q.consumer.Resting?
    ensures var loaded := q.(consumer := LoadOtherWrite(q.readIdx));
            && Step(Step(q, CallPop), Consume) == loaded
            && Step(Step(Step(loaded, Consume), Consume), Consume) ==
               if q.readIdx == q.writeIdx then q
               else q.(readIdx := Slot(q.readIdx + 1, Capacity(q)), popped := q.popped + [q.buffer[q.readIdx]])
  {
    var loaded := q.(consumer := LoadOtherWrite(q.readIdx));
    if q.readIdx != q.writeIdx {
      assert Step(loaded, Consume) == q.(consumer := ReadSlot(q.readIdx));
      assert Step(Step(loaded, Consume), Consume) == q.(consumer := StoreRead(q.readIdx, q.buffer[q.readIdx]));
    } else {
      assert Step(loaded, Consume) == q;
    }
  }

  /** A call of `Push` that nothing interrupts appends its item, or changes nothing if the queue is full. */
  lemma UndisturbedPush<T>(q: Queue<T>, x: T)
    requires Inv(q) && q.producer.Idle?
    ensures Run(q, [CallPush(x), Produce, Produce, Produce, Produce]) ==
            if |Contents(q)| == Capacity(q) - 1 then q
            else q.(writeIdx := Slot(q.writeIdx + 1, Capacity(q)), buffer := q.buffer[q.writeIdx := x],
                    pushed := q.pushed + [x])
  {
    FiveSteps(q, CallPush(x), Produce);
    PushAlone(q, x);
    ContentsSize(q);
  }

  /** A call of `Pop` that nothing interrupts returns the oldest item, or nothing if there is none. */
  lemma UndisturbedPop<T>(q: Queue<T>)
    requires Inv(q) && q.consumer.Resting?
    ensures Run(q, [CallPop, Consume, Consume, Consume, Consume]) ==
            if Contents(q) == [] then q
            else q.(readIdx := Slot(q.readIdx + 1, Capacity(q)), popped := q.popped + [Contents(q)[0]])
  {
    FiveSteps(q, CallPop, Consume);
    PopAlone(q);
    ContentsAre(q);
    ContentsSize(q);
    if Contents(q) != [] {
      assert q.buffer[Slot(|q.popped|, Capacity(q))] == q.pushed[|q.popped|];
    }
  }

  /**
   * Any other thread may be told anything: while one item passes through, the empty queue looks
   * full and looks as if it held an item.
   */
  lemma ObserverMayBeWrong<T>(blank: seq<T>) returns (between: seq<Action<T>>)
    requires |blank| >= 2
    ensures var first, second := Initial(blank), Run(Initial(blank), between);
            && Contents(first) == Contents(second) == [] && Capacity(second) == |blank|
            && SizeSeen(first, second) == 1
            && FullSeen(first, second)
  {
    var x := blank[0];
    var q0 := Initial(blank);
    var pushed := [CallPush(x), Produce, Produce, Produce, Produce];
    var popped := [CallPop, Consume, Consume, Consume, Consume];
    between := pushed + popped;
    RunConcat(q0, pushed, popped);
    RunInv(blank, []);
    RunInv(blank, pushed);
    RunInv(blank, between);
    ContentsAre(q0);
    UndisturbedPush(q0, x);
    ContentsAre(Run(q0, pushed));
    UndisturbedPop(Run(q0, pushed));
    ContentsAre(Run(q0, between));
    assert Slot(1, |blank|) == 1;
  }

  // ---------------------------------------------------------------- the calls of the two sides

  ghost function CalledBy<T>(q: Queue<T>, a: Action<T>): seq<T> {
    if a.CallPush? && q.producer.Idle? then [a.item] else []
  }

  /** The items of the calls of `Push` that took effect, in order. */
  ghost function PushCalls<T>(q: Queue<T>, schedule: seq<Action<T>>): seq<T>
    requires WellFormed(q)
  {
    if schedule == [] then []
    else
      var n := |schedule| - 1;
      PushCalls(q, schedule[..n]) + CalledBy(Run(q, schedule[..n]), schedule[n])
  }

  /** The action brings the producer out of `Push`, and nothing was pushed. */
  ghost predicate Refuses<T>(q: Queue<T>, a: Action<T>)
    requires WellFormed(q)
  {
    !q.producer.Idle? && Step(q, a).producer.Idle? && Step(q, a).pushed == q.pushed
  }

  /** How many calls of `Push` returned false. */
  ghost function Refusals<T>(q: Queue<T>, schedule: seq<Action<T>>): nat
    requires WellFormed(q)
  {
    if schedule == [] then 0
    else
      var n := |schedule| - 1;
      Refusals(q, schedule[..n]) + if Refuses(Run(q, schedule[..n]), schedule[n]) then 1 else 0
  }

  /** The producer carries the item of its latest call, and what it pushed is among its calls. */
  ghost predicate Accounted<T>(q: Queue<T>, calls: seq<T>, refusals: nat) {
    && Subsequence(q.pushed, if !q.producer.Idle? && calls != [] then calls[..|calls| - 1] else calls)
    && (!q.producer.Idle? ==> calls != [] && q.producer.item == calls[|calls| - 1])
    && |calls| == |q.pushed| + refusals + if q.producer.Idle? then 0 else 1
  }

  /** What an action does to the producer's call. */
  lemma ProducerEffect<T>(q: Queue<T>, a: Action<T>)
    requires WellFormed(q)
    ensures var q' := Step(q, a);
            && (CalledBy(q, a) != [] <==> q.producer.Idle? && !q'.producer.Idle?)
            && (CalledBy(q, a) != [] ==> CalledBy(q, a) == [q'.producer.item])
            && (!q.producer.Idle? && !q'.producer.Idle? ==> q'.producer.item == q.producer.item)
            && (q'.pushed == q.pushed ||
                (!q.producer.Idle? && q'.producer.Idle? && q'.pushed == q.pushed + [q.producer.item]))
  {}

  lemma StepAccounted<T>(q: Queue<T>, a: Action<T>, calls: seq<T>, refusals: nat)
    requires WellFormed(q) && Accounted(q, calls, refusals)
    ensures Accounted(Step(q, a), calls + CalledBy(q, a), refusals + if Refuses(q, a) then 1 else 0)
  {
    ProducerEffect(q, a);
    assert calls + [] == calls;
    if q.producer.Idle? {
      if a.CallPush? { assert (calls + [a.item])[..|calls|] == calls; }
    } else {
      var n := |calls| - 1;
      assert calls == calls[..n] + [calls[n]];
      SubsequenceSkip(q.pushed, calls[..n], calls[n]);
      SubsequenceTake(q.pushed, calls[..n], calls[n]);
    }
  }

  /**
   * In every run the producer inside `Push` carries the item of its latest call; the items pushed
   * are among those of the calls, in order and at most one per call; and each call has pushed, has
   * returned false, or is still inside.
   */
  lemma {:induction false} CallsPushTheirItems<T>(blank: seq<T>, schedule: seq<Action<T>>)
    requires |blank| > 0
    ensures Accounted(Run(Initial(blank), schedule), PushCalls(Initial(blank), schedule),
                      Refusals(Initial(blank), schedule))
  {
    if schedule != [] {
      var n := |schedule| - 1;
      CallsPushTheirItems(blank, schedule[..n]);
      StepAccounted(Run(Initial(blank), schedule[..n]), schedule[n], PushCalls(Initial(blank), schedule[..n]),
                    Refusals(Initial(blank), schedule[..n]));
    }
  }

  /** How many calls of `Pop` took effect. */
  ghost function PopCalls<T>(q: Queue<T>, schedule: seq<Action<T>>): nat
    requires WellFormed(q)
  {
    if schedule == [] then 0
    else
      var n := |schedule| - 1;
      PopCalls(q, schedule[..n]) + if schedule[n].CallPop? && Run(q, schedule[..n]).consumer.Resting? then 1 else 0
  }

  /** How many calls of `Pop` returned false. */
  ghost function PopRefusals<T>(q: Queue<T>, schedule: seq<Action<T>>): nat
    requires WellFormed(q)
  {
    if schedule == [] then 0
    else
      var n := |schedule| - 1;
      var before, after := Run(q, schedule[..n]), Run(q, schedule);
      PopRefusals(q, schedule[..n]) +
      if !before.consumer.Resting? && after.consumer.Resting? && after.popped == before.popped then 1 else 0
  }

  lemma PopStep<T>(q: Queue<T>, a: Action<T>)
    requires WellFormed(q)
    ensures var q' := Step(q, a);
            && (q.consumer.Resting? && !q'.consumer.Resting? <==> a.CallPop? && q.consumer.Resting?)
            && (q'.popped != q.popped ==>
                  !q.consumer.Resting? && q'.consumer.Resting? && |q'.popped| == |q.popped| + 1)
  {}

  /** Each call of `Pop` returned one value, returned false, or is still inside. */
  lemma {:induction false} PopsAreAccounted<T>(blank: seq<T>, schedule: seq<Action<T>>)
    requires |blank| > 0
    ensures var q := Run(Initial(blank), schedule);
            PopCalls(Initial(blank), schedule) ==
            |q.popped| + PopRefusals(Initial(blank), schedule) + if q.consumer.Resting? then 0 else 1
  {
    if schedule != [] {
      PopsAreAccounted(blank, schedule[..|schedule| - 1]);
      PopStep(Run(Initial(blank), schedule[..|schedule| - 1]), schedule[|schedule| - 1]);
    }
  }
}
