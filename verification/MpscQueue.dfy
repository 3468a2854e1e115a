/**
 * The bounded multi-producer single-consumer queue, one transition per atomic access.
 *
 * A schedule is any list of actions by any number of producer threads and one consumer. Positions
 * are unbounded and atomics are sequentially consistent. An action that its thread cannot take in
 * the current state leaves the state unchanged, so every list of actions is a run.
 */
module MpscQueue {
  import opened Ring
  import opened Word

  type Thread = nat

  /** Where a producer stands inside `Push`: each constructor names its next access. */
  datatype Producer<T> =
    | Idle
    | LoadEnqueuePos(item: T)
    | LoadSequence(item: T, pos: nat)
    | CompareExchange(item: T, pos: nat)
    | WriteData(item: T, pos: nat)
    | StoreSequence(item: T, pos: nat)

  /** Where the consumer stands inside `Pop`. */
  datatype Consumer<T> =
    | Resting
    | LoadDequeuePos
    | LoadPublished(pos: nat)
    | ReadData(pos: nat)
    | StoreDequeuePos(pos: nat, item: T)
    | StoreReleased(pos: nat, item: T)

  /** A won compare-exchange: who won it, and what it is going to store. */
  datatype Claim<T> = Claim(thread: Thread, item: T)

  /**
   * `sequences` and `data` are the two fields of every node of the pool. `claims[i]` records who
   * claimed position i, `popped` the values that `Pop` returned, both since the last reset;
   * `claimsBefore` and `poppedBefore` keep the histories before it.
   */
  datatype Queue<T> = Queue(
    cap: nat,
    sequences: seq<nat>,
    data: seq<T>,
    enqueuePos: nat,
    dequeuePos: nat,
    producers: map<Thread, Producer<T>>,
    consumer: Consumer<T>,
    claims: seq<Claim<T>>,
    popped: seq<T>,
    claimsBefore: seq<Claim<T>>,
    poppedBefore: seq<T>)

  datatype Action<T> =
    | CallPush(thread: Thread, item: T)
    | Produce(thread: Thread, spurious: bool)
    | CallPop
    | Consume
    | Reserve(newCap: nat, blank: seq<T>)

  // ---------------------------------------------------------------- transitions

  /** A pool of `cap` nodes with sequences 0, 1, ...; `blank` is its uninitialised data. */
  function Initial<T>(cap: nat, blank: seq<T>): Queue<T>
    requires |blank| == cap
  {
    Queue(cap, seq(cap, i => i), blank, 0, 0, map[], Resting, [], [], [], [])
  }

  function At<T>(q: Queue<T>, t: Thread): Producer<T> {
    if t in q.producers then q.producers[t] else Idle
  }

  function Goto<T>(q: Queue<T>, t: Thread, p: Producer<T>): Queue<T> {
    q.(producers := q.producers[t := p])
  }

  predicate WellFormed<T>(q: Queue<T>) {
    q.cap > 0 && |q.sequences| == q.cap && |q.data| == q.cap
  }

  function SequenceAt<T>(q: Queue<T>, pos: nat): nat
    requires WellFormed(q)
  {
    q.sequences[Slot(pos, q.cap)]
  }

  function DataAt<T>(q: Queue<T>, pos: nat): T
    requires WellFormed(q)
  {
    q.data[Slot(pos, q.cap)]
  }

  /** The next access of producer `t` in `Push`. A return is a move back to `Idle`. */
  function ProducerStep<T>(q: Queue<T>, t: Thread, spurious: bool): Queue<T>
    requires WellFormed(q)
  {
    match At(q, t)
    case Idle => q
    case LoadEnqueuePos(item) => Goto(q, t, LoadSequence(item, q.enqueuePos))
    case LoadSequence(item, pos) =>
      var difference := SequenceAt(q, pos) - pos;
      if difference == 0 then Goto(q, t, CompareExchange(item, pos))
      else if difference < 0 then Goto(q, t, Idle)
      else Goto(q, t, LoadEnqueuePos(item))
    case CompareExchange(item, pos) =>
      if q.enqueuePos == pos && !spurious then
        Goto(q, t, WriteData(item, pos)).(enqueuePos := pos + 1, claims := q.claims + [Claim(t, item)])
      else
        Goto(q, t, LoadSequence(item, q.enqueuePos))
    case WriteData(item, pos) =>
      Goto(q, t, StoreSequence(item, pos)).(data := q.data[Slot(pos, q.cap) := item])
    case StoreSequence(item, pos) =>
      Goto(q, t, Idle).(sequences := q.sequences[Slot(pos, q.cap) := pos + 1])
  }

  /** The next access of the consumer in `Pop`; `popped` grows when it returns true. */
  function ConsumerStep<T>(q: Queue<T>): Queue<T>
    requires WellFormed(q)
  {
    match q.consumer
    case Resting => q
    case LoadDequeuePos => q.(consumer := LoadPublished(q.dequeuePos))
    case LoadPublished(pos) =>
      if SequenceAt(q, pos) != pos + 1 then q.(consumer := Resting) else q.(consumer := ReadData(pos))
    case ReadData(pos) => q.(consumer := StoreDequeuePos(pos, DataAt(q, pos)))
    case StoreDequeuePos(pos, item) => q.(consumer := StoreReleased(pos, item), dequeuePos := pos + 1)
    case StoreReleased(pos, item) =>
      q.(consumer := Resting, sequences := q.sequences[Slot(pos, q.cap) := pos + q.cap],
         popped := q.popped + [item])
  }

  predicate Quiescent<T>(q: Queue<T>) {
    q.consumer.Resting? && forall t | t in q.producers :: q.producers[t].Idle?
  }

  function Items<T>(claims: seq<Claim<T>>): seq<T> {
    seq(|claims|, i requires 0 <= i < |claims| => claims[i].item)
  }

  lemma ItemsConcat<T>(a: seq<Claim<T>>, b: seq<Claim<T>>)
    ensures Items(a + b) == Items(a) + Items(b)
  {}

  /** `Reserve`, which its callers may only use while nobody is inside `Push` or `Pop`. */
  function ReserveStep<T>(q: Queue<T>, newCap: nat, blank: seq<T>): Queue<T> {
    if !Quiescent(q) || |blank| != newCap || newCap <= q.cap || q.enqueuePos != q.dequeuePos then q
    else
      Initial(newCap, blank).(
      producers := q.producers,
      claimsBefore := q.claimsBefore + q.claims,
      poppedBefore := q.poppedBefore + q.popped)
  }

  function Step<T>(q: Queue<T>, a: Action<T>): (r: Queue<T>)
    requires WellFormed(q)
    ensures WellFormed(r)
  {
    match a
    case CallPush(t, item) => if At(q, t).Idle? then Goto(q, t, LoadEnqueuePos(item)) else q
    case Produce(t, spurious) => ProducerStep(q, t, spurious)
    case CallPop => if q.consumer.Resting? then q.(consumer := LoadDequeuePos) else q
    case Consume => ConsumerStep(q)
    case Reserve(newCap, blank) => ReserveStep(q, newCap, blank)
  }

  /** The state after a whole schedule. */
  function Run<T>(q: Queue<T>, schedule: seq<Action<T>>): (r: Queue<T>)
    requires WellFormed(q)
    ensures WellFormed(r)
  {
    if schedule == [] then q
    else Step(Run(q, schedule[..|schedule| - 1]), schedule[|schedule| - 1])
  }

  // ---------------------------------------------------------------- invariant

  /** How many positions the consumer has handed back to the producers. */
  function Released<T>(q: Queue<T>): int {
    if q.consumer.StoreReleased? then q.dequeuePos - 1 else q.dequeuePos
  }

  predicate Published<T>(q: Queue<T>, pos: nat)
    requires WellFormed(q)
  {
    SequenceAt(q, pos) == pos + 1
  }

  /** Producer `t` has claimed `pos` and not yet published it. */
  predicate Owns<T>(q: Queue<T>, t: Thread, pos: nat) {
    match At(q, t)
    case WriteData(_, p) => p == pos
    case StoreSequence(_, p) => p == pos
    case _ => false
  }

  ghost predicate SlotInv<T>(q: Queue<T>, i: nat)
    requires WellFormed(q) && |q.claims| == q.enqueuePos
  {
    if i < q.enqueuePos then
      if Published(q, i) then DataAt(q, i) == q.claims[i].item
      else SequenceAt(q, i) == i && Owns(q, q.claims[i].thread, i)
    else SequenceAt(q, i) == i
  }

  ghost predicate Claimed<T>(q: Queue<T>, t: Thread, item: T, pos: nat)
    requires WellFormed(q) && |q.claims| == q.enqueuePos
  {
    && Released(q) <= pos < q.enqueuePos
    && q.claims[pos] == Claim(t, item)
    && SequenceAt(q, pos) == pos
  }

  ghost predicate ProducerInv<T>(q: Queue<T>, t: Thread)
    requires WellFormed(q) && |q.claims| == q.enqueuePos
  {
    match At(q, t)
    case Idle => true
    case LoadEnqueuePos(_) => true
    case LoadSequence(_, pos) => pos <= q.enqueuePos
    case CompareExchange(_, pos) => pos <= q.enqueuePos && pos < Released(q) + q.cap
    case WriteData(item, pos) => Claimed(q, t, item, pos)
    case StoreSequence(item, pos) => Claimed(q, t, item, pos) && DataAt(q, pos) == item
  }

  ghost predicate ConsumerInv<T>(q: Queue<T>)
    requires WellFormed(q) && |q.claims| == q.enqueuePos
  {
    match q.consumer
    case Resting => true
    case LoadDequeuePos => true
    case LoadPublished(pos) => pos == q.dequeuePos
    case ReadData(pos) => pos == q.dequeuePos < q.enqueuePos && Published(q, pos)
    case StoreDequeuePos(pos, item) =>
      pos == q.dequeuePos < q.enqueuePos && Published(q, pos) && item == q.claims[pos].item
    case StoreReleased(pos, item) =>
      pos + 1 == q.dequeuePos <= q.enqueuePos && Published(q, pos) && item == q.claims[pos].item
  }

  ghost predicate HistoryInv<T>(q: Queue<T>)
    requires |q.claims| == q.enqueuePos
    requires 0 <= Released(q) <= q.enqueuePos
  {
    && |q.popped| == Released(q)
    && (forall i | 0 <= i < |q.popped| :: q.popped[i] == q.claims[i].item)
    && Items(q.claimsBefore) == q.poppedBefore
  }

  ghost predicate Inv<T>(q: Queue<T>) {
    && WellFormed(q)
    && q.cap >= 2
    && |q.claims| == q.enqueuePos
    && 0 <= Released(q) <= q.dequeuePos <= q.enqueuePos <= Released(q) + q.cap
    && (forall i: nat | Released(q) <= i < Released(q) + q.cap :: SlotInv(q, i))
    && (forall t: Thread :: ProducerInv(q, t))
    && ConsumerInv(q)
    && HistoryInv(q)
  }

  lemma InitialInv<T>(cap: nat, blank: seq<T>)
    requires |blank| == cap >= 2
    ensures Inv(Initial(cap, blank))
  {
    var q := Initial(cap, blank);
    forall i: nat | i < cap ensures SlotInv(q, i) {
      WindowInjective(0, cap);
      assert Slot(i, cap) == i;
    }
  }

  /** A sequence load that reads exactly `pos` proves that `pos` is inside the current lap. */
  lemma SeenFree<T>(q: Queue<T>, pos: nat)
    requires Inv(q) && pos <= q.enqueuePos
    ensures SequenceAt(q, pos) == pos ==> Released(q) <= pos < Released(q) + q.cap
    ensures SequenceAt(q, pos) < pos ==> pos == q.enqueuePos == Released(q) + q.cap
    ensures SequenceAt(q, pos) > pos ==> pos < q.enqueuePos
  {
    var r := Released(q);
    if pos < r {
      var j := Representative(pos, r, q.cap);
      assert SlotInv(q, j);
    } else if pos < r + q.cap {
      assert SlotInv(q, pos);
    } else {
      SlotNextLap(r, q.cap);
      assert SlotInv(q, r);
    }
  }

  /** A step that only moves one producer, which owns nothing before or after, keeps the invariant. */
  lemma OnlyPcChanged<T>(q: Queue<T>, q': Queue<T>, t: Thread)
    requires Inv(q) && q' == Goto(q, t, At(q', t))
    requires !At(q, t).WriteData? && !At(q, t).StoreSequence?
    requires !At(q', t).WriteData? && !At(q', t).StoreSequence?
    requires ProducerInv(q', t)
    ensures Inv(q')
  {
    forall i: nat | Released(q) <= i < Released(q) + q.cap ensures SlotInv(q', i) {
      assert SlotInv(q, i);
    }
    forall u: Thread ensures ProducerInv(q', u) {
      assert ProducerInv(q, u);
    }
  }

  lemma LoadSequenceInv<T>(q: Queue<T>, q': Queue<T>, t: Thread, pos: nat)
    requires Inv(q) && At(q, t).LoadSequence? && At(q, t).pos == pos
    requires q' == ProducerStep(q, t, false)
    ensures Inv(q')
  {
    assert ProducerInv(q, t);
    SeenFree(q, pos);
    OnlyPcChanged(q, q', t);
  }

  lemma ClaimInv<T>(q: Queue<T>, q': Queue<T>, t: Thread, item: T, pos: nat)
    requires Inv(q) && At(q, t) == CompareExchange(item, pos) && q.enqueuePos == pos
    requires q' == ProducerStep(q, t, false)
    ensures Inv(q')
  {
    forall i: nat | Released(q) <= i < Released(q) + q.cap ensures SlotInv(q', i) {
      assert SlotInv(q, i);
    }
    assert ProducerInv(q, t);
    assert SlotInv(q, pos);
    forall u: Thread ensures ProducerInv(q', u) {
      assert ProducerInv(q, u);
    }
  }

  /** Within the lap no other position uses the slot of `pos`. */
  lemma OtherSlots<T>(q: Queue<T>, pos: nat)
    requires Inv(q) && Released(q) <= pos < Released(q) + q.cap
    ensures forall i: nat | Released(q) <= i < Released(q) + q.cap && i != pos :: Slot(i, q.cap) != Slot(pos, q.cap)
  {
    WindowInjective(Released(q), q.cap);
  }

  lemma WriteInv<T>(q: Queue<T>, q': Queue<T>, t: Thread, item: T, pos: nat)
    requires Inv(q) && At(q, t) == WriteData(item, pos)
    requires q' == Goto(q, t, StoreSequence(item, pos)).(data := q.data[Slot(pos, q.cap) := item])
    ensures Inv(q')
  {
    assert ProducerInv(q, t);
    OtherSlots(q, pos);
    forall i: nat | Released(q) <= i < Released(q) + q.cap ensures SlotInv(q', i) {
      assert SlotInv(q, i);
    }
    forall u: Thread ensures ProducerInv(q', u) {
      assert ProducerInv(q, u);
    }
  }

  lemma PublishSlot<T>(q: Queue<T>, q': Queue<T>, t: Thread, item: T, pos: nat, i: nat)
    requires Inv(q) && At(q, t) == StoreSequence(item, pos) && Released(q) <= pos < q.enqueuePos
    requires Claimed(q, t, item, pos) && DataAt(q, pos) == item
    requires q' == Goto(q, t, Idle).(sequences := q.sequences[Slot(pos, q.cap) := pos + 1])
    requires Released(q) <= i < Released(q) + q.cap && (i != pos ==> Slot(i, q.cap) != Slot(pos, q.cap))
    ensures SlotInv(q', i)
  {
    assert SlotInv(q, i);
  }

  lemma PublishProducer<T>(q: Queue<T>, q': Queue<T>, t: Thread, item: T, pos: nat, u: Thread)
    requires Inv(q) && At(q, t) == StoreSequence(item, pos) && Claimed(q, t, item, pos)
    requires q' == Goto(q, t, Idle).(sequences := q.sequences[Slot(pos, q.cap) := pos + 1])
    ensures ProducerInv(q', u)
  {
    OtherSlots(q, pos);
    assert ProducerInv(q, u);
    if u != t && (At(q, u).WriteData? || At(q, u).StoreSequence?) {
      assert At(q, u).pos != pos;
    }
  }

  lemma PublishInv<T>(q: Queue<T>, q': Queue<T>, t: Thread, item: T, pos: nat)
    requires Inv(q) && At(q, t) == StoreSequence(item, pos)
    requires q' == Goto(q, t, Idle).(sequences := q.sequences[Slot(pos, q.cap) := pos + 1])
    ensures Inv(q')
  {
    assert ProducerInv(q, t);
    OtherSlots(q, pos);
    forall i: nat | Released(q) <= i < Released(q) + q.cap ensures SlotInv(q', i) {
      PublishSlot(q, q', t, item, pos, i);
    }
    forall u: Thread ensures ProducerInv(q', u) {
      PublishProducer(q, q', t, item, pos, u);
    }
  }

  lemma ProducerStepInv<T>(q: Queue<T>, t: Thread, spurious: bool)
    requires Inv(q)
    ensures Inv(ProducerStep(q, t, spurious))
  {
    var q' := ProducerStep(q, t, spurious);
    match At(q, t)
    case Idle =>
    case LoadEnqueuePos(item) => OnlyPcChanged(q, q', t);
    case LoadSequence(item, pos) => LoadSequenceInv(q, q', t, pos);
    case CompareExchange(item, pos) =>
      if q.enqueuePos == pos && !spurious {
        ClaimInv(q, q', t, item, pos);
      } else {
        OnlyPcChanged(q, q', t);
      }
    case WriteData(item, pos) => WriteInv(q, q', t, item, pos);
    case StoreSequence(item, pos) => PublishInv(q, q', t, item, pos);
  }

  /** A consumer step that writes no slot and releases none. */
  lemma ConsumerMoved<T>(q: Queue<T>, q': Queue<T>)
    requires Inv(q)
    requires q' == q.(consumer := q'.consumer, dequeuePos := q'.dequeuePos)
    requires Released(q') == Released(q) <= q'.dequeuePos <= q.enqueuePos
    requires ConsumerInv(q')
    ensures Inv(q')
  {
    forall i: nat | Released(q) <= i < Released(q) + q.cap ensures SlotInv(q', i) {
      assert SlotInv(q, i);
    }
    forall u: Thread ensures ProducerInv(q', u) {
      assert ProducerInv(q, u);
    }
  }

  /** A sequence one past the dequeue position means that its claim has been published. */
  lemma PublishedIsClaimed<T>(q: Queue<T>)
    requires Inv(q) && Released(q) == q.dequeuePos
    ensures Published(q, q.dequeuePos) ==>
              q.dequeuePos < q.enqueuePos && DataAt(q, q.dequeuePos) == q.claims[q.dequeuePos].item
  {
    assert SlotInv(q, q.dequeuePos);
  }

  lemma ReleaseInv<T>(q: Queue<T>, q': Queue<T>, pos: nat)
    requires Inv(q) && q.consumer.StoreReleased? && q.consumer.pos == pos
    requires q' == ConsumerStep(q)
    ensures Inv(q')
  {
    WindowInjective(pos, q.cap);
    WindowInjective(pos + 1, q.cap);
    SlotNextLap(pos, q.cap);
    forall i: nat | Released(q') <= i < Released(q') + q.cap ensures SlotInv(q', i) {
      if i < pos + q.cap {
        assert SlotInv(q, i);
      }
    }
    forall u: Thread ensures ProducerInv(q', u) {
      assert ProducerInv(q, u);
    }
  }

  lemma ConsumerStepInv<T>(q: Queue<T>)
    requires Inv(q)
    ensures Inv(ConsumerStep(q))
  {
    if q.consumer.StoreReleased? {
      ReleaseInv(q, ConsumerStep(q), q.consumer.pos);
    } else {
      if q.consumer.LoadPublished? || q.consumer.ReadData? {
        PublishedIsClaimed(q);
      }
      ConsumerMoved(q, ConsumerStep(q));
    }
  }

  lemma ReserveStepInv<T>(q: Queue<T>, newCap: nat, blank: seq<T>)
    requires Inv(q)
    ensures Inv(ReserveStep(q, newCap, blank))
  {
    var q' := ReserveStep(q, newCap, blank);
    if q' != q {
      InitialInv(newCap, blank);
      forall i: nat | 0 <= i < newCap ensures SlotInv(q', i) {
        assert SlotInv(Initial(newCap, blank), i);
      }
      assert Items(q.claims) == q.popped;
      forall t: Thread ensures ProducerInv(q', t) {
        assert At(q', t).Idle?;
      }
    }
  }

  lemma StepInv<T>(q: Queue<T>, a: Action<T>)
    requires Inv(q)
    ensures Inv(Step(q, a))
  {
    match a
    case CallPush(t, item) =>
      if At(q, t).Idle? { OnlyPcChanged(q, Step(q, a), t); }
    case Produce(t, spurious) => ProducerStepInv(q, t, spurious);
    case CallPop => ConsumerMoved(q, Step(q, a));
    case Consume => ConsumerStepInv(q);
    case Reserve(newCap, blank) => ReserveStepInv(q, newCap, blank);
  }

  lemma {:induction false} RunInv<T>(cap: nat, blank: seq<T>, schedule: seq<Action<T>>)
    requires |blank| == cap >= 2
    ensures Inv(Run(Initial(cap, blank), schedule))
  {
    if schedule == [] {
      InitialInv(cap, blank);
    } else {
      RunInv(cap, blank, schedule[..|schedule| - 1]);
      StepInv(Run(Initial(cap, blank), schedule[..|schedule| - 1]), schedule[|schedule| - 1]);
    }
  }

  // ---------------------------------------------------------------- what every run guarantees

  /** Everything ever pushed, in the order in which the positions were claimed. */
  function Pushed<T>(q: Queue<T>): seq<T> { Items(q.claimsBefore) + Items(q.claims) }

  /** Everything ever returned by `Pop`. */
  function Popped<T>(q: Queue<T>): seq<T> { q.poppedBefore + q.popped }

  /** A claimed position that was not popped yet still has its value, or its claimer is still busy. */
  ghost predicate Kept<T>(q: Queue<T>, i: nat)
    requires WellFormed(q) && i < |q.claims|
  {
    (Published(q, i) && DataAt(q, i) == q.claims[i].item) || Owns(q, q.claims[i].thread, i)
  }

  /** Nothing lost, nothing duplicated, nothing reordered. */
  ghost predicate Fifo<T>(q: Queue<T>)
    requires WellFormed(q)
  {
    && Popped(q) <= Pushed(q)
    && (forall i: nat | |q.popped| <= i < |q.claims| :: Kept(q, i))
  }

  /** No slot has two writers, and the slot being read has none. */
  ghost predicate Exclusive<T>(q: Queue<T>)
    requires WellFormed(q)
  {
    && (forall t: Thread, u: Thread, i: nat, j: nat | Owns(q, t, i) && Owns(q, u, j) ::
          Slot(i, q.cap) == Slot(j, q.cap) ==> t == u)
    && (forall t: Thread, i: nat | Owns(q, t, i) && q.consumer.ReadData? ::
          Slot(i, q.cap) != Slot(q.consumer.pos, q.cap))
  }

  lemma InvImpliesFifo<T>(q: Queue<T>)
    requires Inv(q)
    ensures Fifo(q)
  {
    assert q.popped == Items(q.claims)[..|q.popped|];
    forall i: nat | |q.popped| <= i < |q.claims| ensures Kept(q, i) {
      assert SlotInv(q, i);
    }
  }

  lemma InvImpliesExclusive<T>(q: Queue<T>)
    requires Inv(q)
    ensures Exclusive(q)
  {
    forall t: Thread, u: Thread, i: nat, j: nat
      | Owns(q, t, i) && Owns(q, u, j) && Slot(i, q.cap) == Slot(j, q.cap)
      ensures t == u
    {
      assert ProducerInv(q, t) && ProducerInv(q, u);
      WindowInjective(Released(q), q.cap);
    }
    forall t: Thread, i: nat | Owns(q, t, i) && q.consumer.ReadData?
      ensures Slot(i, q.cap) != Slot(q.consumer.pos, q.cap)
    {
      assert ProducerInv(q, t);
      WindowInjective(Released(q), q.cap);
    }
  }

  /** With two slots or more, every interleaving delivers the claimed values in claim order. */
  lemma EveryRunIsFifo<T>(cap: nat, blank: seq<T>, schedule: seq<Action<T>>)
    requires |blank| == cap >= 2
    ensures Fifo(Run(Initial(cap, blank), schedule))
    ensures Exclusive(Run(Initial(cap, blank), schedule))
  {
    RunInv(cap, blank, schedule);
    InvImpliesFifo(Run(Initial(cap, blank), schedule));
    InvImpliesExclusive(Run(Initial(cap, blank), schedule));
  }

  /** Every step only appends to what was pushed and to what was popped. */
  lemma HistoriesOnlyGrow<T>(q: Queue<T>, a: Action<T>)
    requires WellFormed(q)
    ensures Pushed(q) <= Pushed(Step(q, a)) && Popped(q) <= Popped(Step(q, a))
  {
    match a
    case Produce(t, spurious) =>
      match At(q, t) {
        case CompareExchange(item, pos) =>
          assert Items(q.claims + [Claim(t, item)]) == Items(q.claims) + [item];
        case _ =>
      }
    case Reserve(newCap, blank) => ItemsConcat(q.claimsBefore, q.claims);
    case _ =>
  }

  /**
   * `Reserve` while nobody is inside `Push` or `Pop`: an empty queue that has to grow becomes one of
   * the new capacity with all slots free, and any other call changes nothing. No history is lost.
   */
  lemma ReserveIsExact<T>(q: Queue<T>, newCap: nat, blank: seq<T>)
    requires Inv(q) && Quiescent(q) && |blank| == newCap
    ensures var q' := Step(q, Reserve(newCap, blank));
            && Pushed(q') == Pushed(q) && Popped(q') == Popped(q) && Quiescent(q')
            && (newCap <= q.cap || q.enqueuePos != q.dequeuePos ==> q' == q)
            && (newCap > q.cap && q.enqueuePos == q.dequeuePos ==>
                  && q'.cap == newCap && q'.enqueuePos == q'.dequeuePos
                  && forall i: nat | q'.dequeuePos <= i < q'.dequeuePos + newCap :: SequenceAt(q', i) == i)
  {
    ItemsConcat(q.claimsBefore, q.claims);
    var q' := Step(q, Reserve(newCap, blank));
    StepInv(q, Reserve(newCap, blank));
    forall i: nat | q'.dequeuePos <= i < q'.dequeuePos + q'.cap && q'.enqueuePos == q'.dequeuePos
      ensures SequenceAt(q', i) == i
    {
      assert SlotInv(q', i);
    }
  }

  /** A compare-exchange that is about to succeed finds its slot exactly as the earlier load saw it. */
  lemma ClaimedSlotIsStillFree<T>(cap: nat, blank: seq<T>, schedule: seq<Action<T>>, t: Thread)
    requires |blank| == cap >= 2
    ensures var q := Run(Initial(cap, blank), schedule);
            var p := At(q, t);
            p.CompareExchange? && q.enqueuePos == p.pos ==>
              && SequenceAt(q, p.pos) == p.pos
              && (forall u: Thread, i: nat | Owns(q, u, i) :: Slot(i, q.cap) != Slot(p.pos, q.cap))
  {
    RunInv(cap, blank, schedule);
    var q := Run(Initial(cap, blank), schedule);
    var p := At(q, t);
    if p.CompareExchange? && q.enqueuePos == p.pos {
      assert ProducerInv(q, t);
      assert SlotInv(q, p.pos);
      WindowInjective(Released(q), q.cap);
      forall u: Thread, i: nat | Owns(q, u, i) ensures Slot(i, q.cap) != Slot(p.pos, q.cap) {
        assert ProducerInv(q, u);
      }
    }
  }

  /** Position `pos` is claimed, and its claimer has not published it yet. */
  predicate InFlight<T>(q: Queue<T>, pos: nat)
    requires |q.claims| == q.enqueuePos
  {
    pos < q.enqueuePos && Owns(q, q.claims[pos].thread, pos)
  }

  /** Among the claimed positions, the ones in flight are those whose sequence has not moved yet. */
  lemma InFlightIff<T>(q: Queue<T>, pos: nat)
    requires Inv(q) && pos <= q.enqueuePos
    ensures InFlight(q, pos) <==> pos < q.enqueuePos && SequenceAt(q, pos) == pos
  {
    if pos < q.enqueuePos {
      assert ProducerInv(q, q.claims[pos].thread);
      SeenFree(q, pos);
      if SequenceAt(q, pos) == pos {
        assert SlotInv(q, pos);
      }
    }
  }

  /**
   * The three verdicts of a sequence load in `Push` are exact: it gives up exactly when the
   * position is the next one and `capacity` claimed positions are unreleased, goes on to the
   * compare-exchange exactly when the slot is free or its claimer is still writing, and otherwise
   * reloads, which means that `enqueue_pos_` has moved on. So does a failed compare-exchange that
   * is not spurious.
   */
  lemma PushOutcomesAreExact<T>(cap: nat, blank: seq<T>, schedule: seq<Action<T>>, t: Thread, spurious: bool)
    requires |blank| == cap >= 2
    ensures var q := Run(Initial(cap, blank), schedule);
            var next := At(Step(q, Produce(t, spurious)), t);
            match At(q, t)
            case LoadSequence(_, pos) =>
              && |q.claims| == q.enqueuePos
              && (next.Idle? <==> pos == q.enqueuePos == Released(q) + q.cap)
              && (next.CompareExchange? <==> (pos == q.enqueuePos < Released(q) + q.cap) || InFlight(q, pos))
              && (next.LoadEnqueuePos? <==> pos < q.enqueuePos && !InFlight(q, pos))
            case CompareExchange(_, pos) =>
              && (next.LoadSequence? <==> q.enqueuePos > pos || spurious)
              && (next.LoadSequence? ==> next.pos == q.enqueuePos)
            case _ => true
  {
    RunInv(cap, blank, schedule);
    var q := Run(Initial(cap, blank), schedule);
    assert ProducerInv(q, t);
    match At(q, t)
    case LoadSequence(_, pos) =>
      SeenFree(q, pos);
      InFlightIff(q, pos);
    case _ =>
  }

  /** `Pop` gives up exactly when the position to dequeue is unclaimed or its claimer is not done. */
  lemma PopOutcomesAreExact<T>(cap: nat, blank: seq<T>, schedule: seq<Action<T>>)
    requires |blank| == cap >= 2
    ensures var q := Run(Initial(cap, blank), schedule);
            q.consumer.LoadPublished? ==>
              && q.consumer.pos == q.dequeuePos == |q.popped|
              && (Step(q, Consume).consumer.Resting? <==>
                  |q.popped| >= |q.claims| || Owns(q, q.claims[|q.popped|].thread, |q.popped|))
  {
    RunInv(cap, blank, schedule);
    var q := Run(Initial(cap, blank), schedule);
    if q.consumer.LoadPublished? {
      assert SlotInv(q, q.dequeuePos);
      if q.dequeuePos < q.enqueuePos {
        assert ProducerInv(q, q.claims[q.dequeuePos].thread);
      }
    }
  }

  // ---------------------------------------------------------------- where the guarantees stop

  lemma RunOneMore<T>(q: Queue<T>, schedule: seq<Action<T>>, a: Action<T>)
    requires WellFormed(q)
    ensures Run(q, schedule + [a]) == Step(Run(q, schedule), a)
  {
    assert (schedule + [a])[..|schedule|] == schedule;
  }

  /** The first three accesses of an undisturbed `Push`: it claims the next position. */
  lemma ClaimAlone<T>(q: Queue<T>, schedule: seq<Action<T>>, t: Thread, item: T) returns (after: seq<Action<T>>)
    requires WellFormed(q)
    requires var now := Run(q, schedule); At(now, t).Idle? && SequenceAt(now, now.enqueuePos) == now.enqueuePos
    ensures var now := Run(q, schedule);
            Run(q, after) == Goto(now, t, WriteData(item, now.enqueuePos)).(
              enqueuePos := now.enqueuePos + 1,
              claims := now.claims + [Claim(t, item)])
  {
    var now := Run(q, schedule);
    var pos := now.enqueuePos;
    var s1 := schedule + [CallPush(t, item)];
    RunOneMore(q, schedule, CallPush(t, item));
    assert Run(q, s1) == Goto(now, t, LoadEnqueuePos(item));
    var s2 := s1 + [Produce(t, false)];
    RunOneMore(q, s1, Produce(t, false));
    assert Run(q, s2) == Goto(now, t, LoadSequence(item, pos));
    var s3 := s2 + [Produce(t, false)];
    RunOneMore(q, s2, Produce(t, false));
    assert Run(q, s3) == Goto(now, t, CompareExchange(item, pos));
    after := s3 + [Produce(t, false)];
    RunOneMore(q, s3, Produce(t, false));
  }

  /** The last two accesses of an undisturbed `Push`: the item, then the sequence. */
  lemma FinishAlone<T>(q: Queue<T>, schedule: seq<Action<T>>, t: Thread, item: T, pos: nat)
    returns (after: seq<Action<T>>)
    requires WellFormed(q) && At(Run(q, schedule), t) == WriteData(item, pos)
    ensures var now := Run(q, schedule);
            Run(q, after) == Goto(now, t, Idle).(
              data := now.data[Slot(pos, now.cap) := item],
              sequences := now.sequences[Slot(pos, now.cap) := pos + 1])
  {
    var now := Run(q, schedule);
    var s1 := schedule + [Produce(t, false)];
    RunOneMore(q, schedule, Produce(t, false));
    assert Run(q, s1) == Goto(now, t, StoreSequence(item, pos)).(data := now.data[Slot(pos, now.cap) := item]);
    after := s1 + [Produce(t, false)];
    RunOneMore(q, s1, Produce(t, false));
    assert Run(q, after).producers == now.producers[t := Idle];
  }

  lemma MovedTwice<T>(producers: map<Thread, Producer<T>>, t: Thread, p: Producer<T>, p': Producer<T>)
    ensures producers[t := p][t := p'] == producers[t := p']
  {}

  /** All five accesses of an undisturbed `Push`. */
  lemma PushAlone<T>(q: Queue<T>, schedule: seq<Action<T>>, t: Thread, item: T) returns (after: seq<Action<T>>)
    requires WellFormed(q)
    requires var now := Run(q, schedule); At(now, t).Idle? && SequenceAt(now, now.enqueuePos) == now.enqueuePos
    ensures var now := Run(q, schedule);
            Run(q, after) == Goto(now, t, Idle).(
              enqueuePos := now.enqueuePos + 1,
              claims := now.claims + [Claim(t, item)],
              data := now.data[Slot(now.enqueuePos, now.cap) := item],
              sequences := now.sequences[Slot(now.enqueuePos, now.cap) := now.enqueuePos + 1])
  {
    var now := Run(q, schedule);
    var claimed := ClaimAlone(q, schedule, t, item);
    MovedTwice(now.producers, t, WriteData(item, now.enqueuePos), Idle);
    after := FinishAlone(q, claimed, t, item, now.enqueuePos);
  }

  /**
   * `Reserve(1)` on an uninitialised queue builds a pool of one slot, which `Init` refuses. On it a
   * second `Push` overwrites the first, because the sequence that publishes position 0 reads as
   * "free" for position 1.
   */
  lemma OneSlotLosesItems<T>(blank: seq<T>) returns (schedule: seq<Action<T>>)
    requires |blank| == 1
    ensures !Fifo(Run(Initial(1, blank), schedule))
    ensures |Run(Initial(1, blank), schedule).claims| == 2
  {
    var q := Initial(1, blank);
    var one := PushAlone(q, [], 0, blank[0]);
    schedule := PushAlone(q, one, 0, blank[0]);
    var end := Run(q, schedule);
    assert !Kept(end, 0);
  }

  /** The FIFO guarantee holds for all runs exactly from two slots on. */
  lemma FifoNeedsTwoSlots<T>(cap: nat, blank: seq<T>)
    requires |blank| == cap > 0
    ensures (forall schedule: seq<Action<T>> :: Fifo(Run(Initial(cap, blank), schedule))) <==> cap >= 2
  {
    if cap >= 2 {
      forall schedule: seq<Action<T>> ensures Fifo(Run(Initial(cap, blank), schedule)) {
        EveryRunIsFifo(cap, blank, schedule);
      }
    } else {
      var bad := OneSlotLosesItems(blank);
    }
  }

  /**
   * A completed `Push` need not be visible to a later `Pop`: while the claimer of an earlier
   * position is still writing, `Pop` returns false although a later item is already published.
   */
  lemma PopMayMissACompletedPush<T>(blank: seq<T>) returns (before: seq<Action<T>>, schedule: seq<Action<T>>)
    requires |blank| == 2
    ensures schedule == before + [CallPop, Consume, Consume]
    ensures var q := Run(Initial(2, blank), before);
            At(q, 1).Idle? && |q.claims| == 2 && q.claims[1].thread == 1 && Published(q, 1) && q.consumer.Resting?
    ensures Run(Initial(2, blank), schedule) == Run(Initial(2, blank), before)
  {
    var q := Initial(2, blank);
    var claimed := ClaimAlone(q, [], 0, blank[0]);
    before := PushAlone(q, claimed, 1, blank[0]);
    RunOneMore(q, before, CallPop);
    RunOneMore(q, before + [CallPop], Consume);
    RunOneMore(q, before + [CallPop] + [Consume], Consume);
    schedule := before + [CallPop, Consume, Consume];
    assert schedule == before + [CallPop] + [Consume] + [Consume];
  }

  // ---------------------------------------------------------------- size queries from any thread

  /** How many positions are claimed and not dequeued yet. */
  function Queued<T>(q: Queue<T>): int {
    q.enqueuePos - q.dequeuePos
  }

  lemma {:induction false} RunConcat<T>(q: Queue<T>, a: seq<Action<T>>, b: seq<Action<T>>)
    requires WellFormed(q)
    ensures Run(q, a + b) == Run(Run(q, a), b)
  {
    if b == [] {
      assert a + b == a;
    } else {
      var n := |b| - 1;
      RunConcat(q, a, b[..n]);
      assert (a + b)[..|a + b| - 1] == a + b[..n];
    }
  }

  /** From `first` to `second` positions only move on. */
  predicate MovesOn<T>(first: Queue<T>, second: Queue<T>) {
    && second.cap == first.cap
    && first.enqueuePos <= second.enqueuePos
    && first.dequeuePos <= second.dequeuePos
  }

  lemma StepMovesOn<T>(q: Queue<T>, a: Action<T>)
    requires Inv(q) && !a.Reserve?
    ensures MovesOn(q, Step(q, a))
    ensures !a.Consume? ==> Step(q, a).dequeuePos == q.dequeuePos
  {}

  lemma {:induction false} RunMovesOn<T>(q: Queue<T>, between: seq<Action<T>>)
    requires Inv(q) && forall a | a in between :: !a.Reserve?
    ensures Inv(Run(q, between)) && MovesOn(q, Run(q, between))
    ensures (forall a | a in between :: !a.Consume?) ==> Run(q, between).dequeuePos == q.dequeuePos
  {
    if between != [] {
      var n := |between| - 1;
      RunMovesOn(q, between[..n]);
      StepInv(Run(q, between[..n]), between[n]);
      StepMovesOn(Run(q, between[..n]), between[n]);
    }
  }

  lemma QueuedBounds<T>(q: Queue<T>)
    requires Inv(q)
    ensures 0 <= Queued(q) <= q.cap
  {}

  ghost predicate EnqueueLoadedFirst<T>(first: Queue<T>, second: Queue<T>) {
    var seen := Wrapped(first.enqueuePos - second.dequeuePos);
    && (seen <= first.cap <==> second.dequeuePos <= first.enqueuePos)
    && (seen == Queued(first) <==> second.dequeuePos == first.dequeuePos)
    && (seen == Queued(second) <==> second.enqueuePos == first.enqueuePos)
  }

  ghost predicate DequeueLoadedFirst<T>(first: Queue<T>, second: Queue<T>) {
    var seen := Wrapped(second.enqueuePos - first.dequeuePos);
    && Queued(first) <= seen && Queued(second) <= seen
    && (seen == Queued(first) <==> second.enqueuePos == first.enqueuePos)
    && (seen == Queued(second) <==> second.dequeuePos == first.dequeuePos)
  }

  lemma LoadsObserve<T>(first: Queue<T>, second: Queue<T>)
    requires MovesOn(first, second)
    requires 0 <= Queued(first) <= first.cap && 0 <= Queued(second) <= first.cap
    ensures first.cap < TWO_TO_THE_63 && second.enqueuePos < TWO_TO_THE_63 ==>
              EnqueueLoadedFirst(first, second) && DequeueLoadedFirst(first, second)
  {
    if first.cap < TWO_TO_THE_63 && second.enqueuePos < TWO_TO_THE_63 {
      WrappedDifference(first.enqueuePos, second.dequeuePos);
      WrappedDifference(second.enqueuePos, first.dequeuePos);
    }
  }

  /**
   * `SizeApprox`, whose two loads the compiler may order either way; `before` ran up to the first
   * load, `between` up to the second, and positions stay below 2^63. If the enqueue position is
   * loaded first, the result is a size of at most `capacity` unless the consumer has meanwhile
   * passed that position: then the unsigned difference wraps around. In the other order it never
   * wraps, but may exceed the capacity. Either way it is right at a load exactly when the position
   * loaded at the other time was the same then.
   */
  lemma ObserverSees<T>(cap: nat, blank: seq<T>, before: seq<Action<T>>, between: seq<Action<T>>)
    requires |blank| == cap >= 2
    requires forall a | a in between :: !a.Reserve?
    ensures var first, second := Run(Initial(cap, blank), before), Run(Initial(cap, blank), before + between);
            && 0 <= Queued(first) <= first.cap && 0 <= Queued(second) <= first.cap
            && (first.cap < TWO_TO_THE_63 && second.enqueuePos < TWO_TO_THE_63 ==>
                  EnqueueLoadedFirst(first, second) && DequeueLoadedFirst(first, second))
            && ((forall a | a in between :: !a.Consume?) ==> second.dequeuePos == first.dequeuePos)
  {
    RunInv(cap, blank, before);
    RunConcat(Initial(cap, blank), before, between);
    RunMovesOn(Run(Initial(cap, blank), before), between);
    QueuedBounds(Run(Initial(cap, blank), before));
    QueuedBounds(Run(Initial(cap, blank), before + between));
    LoadsObserve(Run(Initial(cap, blank), before), Run(Initial(cap, blank), before + between));
  }

  /** `Empty` loads the dequeue position in the state `first` and the sequence at it in `second`. */
  predicate EmptySeen<T>(first: Queue<T>, second: Queue<T>)
    requires WellFormed(second)
  {
    SequenceAt(second, first.dequeuePos) != first.dequeuePos + 1
  }

  lemma EmptyVerdict<T>(q: Queue<T>, pos: nat)
    requires Inv(q) && pos <= q.dequeuePos
    ensures SequenceAt(q, pos) == pos + 1 <==> Released(q) <= pos < q.enqueuePos && !InFlight(q, pos)
  {
    InFlightIff(q, pos);
    var r := Released(q);
    if pos < r {
      var j := Representative(pos, r, q.cap);
      assert SlotInv(q, j);
      if j == pos + 1 {
        SlotInjective(pos, j, q.cap);
      }
    } else {
      assert SlotInv(q, pos);
    }
  }

  /**
   * `Empty` asked by any thread says "not empty" exactly when the position it loaded is published
   * and its slot not handed back at the second load. That is the truth about the queue if the
   * consumer has not moved, as when it asks itself.
   */
  lemma EmptyIsExact<T>(cap: nat, blank: seq<T>, before: seq<Action<T>>, between: seq<Action<T>>)
    requires |blank| == cap >= 2
    requires forall a | a in between :: !a.Reserve?
    ensures var first, second := Run(Initial(cap, blank), before), Run(Initial(cap, blank), before + between);
            && |second.claims| == second.enqueuePos
            && (!EmptySeen(first, second) <==>
                  && Released(second) <= first.dequeuePos < second.enqueuePos
                  && !InFlight(second, first.dequeuePos))
            && ((forall a | a in between :: !a.Consume?) ==> second.dequeuePos == first.dequeuePos)
  {
    RunInv(cap, blank, before);
    RunConcat(Initial(cap, blank), before, between);
    RunMovesOn(Run(Initial(cap, blank), before), between);
    EmptyVerdict(Run(Initial(cap, blank), before + between), Run(Initial(cap, blank), before).dequeuePos);
  }

  /** The first three accesses of an undisturbed `Pop` of a published item. */
  lemma SeeAlone<T>(q: Queue<T>, schedule: seq<Action<T>>) returns (after: seq<Action<T>>)
    requires WellFormed(q)
    requires var now := Run(q, schedule); now.consumer.Resting? && Published(now, now.dequeuePos)
    ensures var now := Run(q, schedule); Run(q, after) == now.(consumer := ReadData(now.dequeuePos))
  {
    var now := Run(q, schedule);
    var s1 := schedule + [CallPop];
    RunOneMore(q, schedule, CallPop);
    assert Run(q, s1) == now.(consumer := LoadDequeuePos);
    var s2 := s1 + [Consume];
    RunOneMore(q, s1, Consume);
    assert Run(q, s2) == now.(consumer := LoadPublished(now.dequeuePos));
    after := s2 + [Consume];
    RunOneMore(q, s2, Consume);
  }

  lemma ReadAlone<T>(q: Queue<T>, schedule: seq<Action<T>>, pos: nat) returns (after: seq<Action<T>>)
    requires WellFormed(q) && Run(q, schedule).consumer == ReadData(pos)
    ensures var now := Run(q, schedule);
            Run(q, after) == now.(consumer := StoreDequeuePos(pos, DataAt(now, pos)))
  {
    after := schedule + [Consume];
    RunOneMore(q, schedule, Consume);
  }

  /** The last two accesses of an undisturbed `Pop`: the position, then the sequence. */
  lemma ReleaseAlone<T>(q: Queue<T>, schedule: seq<Action<T>>, pos: nat, item: T) returns (after: seq<Action<T>>)
    requires WellFormed(q) && Run(q, schedule).consumer == StoreDequeuePos(pos, item)
    ensures var now := Run(q, schedule);
            Run(q, after) == now.(
              consumer := Resting,
              dequeuePos := pos + 1,
              popped := now.popped + [item],
              sequences := now.sequences[Slot(pos, now.cap) := pos + now.cap])
  {
    var now := Run(q, schedule);
    var stored := schedule + [Consume];
    RunOneMore(q, schedule, Consume);
    assert Run(q, stored) == now.(consumer := StoreReleased(pos, item), dequeuePos := pos + 1);
    after := stored + [Consume];
    RunOneMore(q, stored, Consume);
  }

  /** All accesses of an undisturbed `Pop` of a published item. */
  lemma PopAlone<T>(q: Queue<T>, schedule: seq<Action<T>>) returns (after: seq<Action<T>>)
    requires WellFormed(q)
    requires var now := Run(q, schedule); now.consumer.Resting? && Published(now, now.dequeuePos)
    ensures var now := Run(q, schedule);
            Run(q, after) == now.(
              dequeuePos := now.dequeuePos + 1,
              popped := now.popped + [DataAt(now, now.dequeuePos)],
              sequences := now.sequences[Slot(now.dequeuePos, now.cap) := now.dequeuePos + now.cap])
  {
    var now := Run(q, schedule);
    var seen := SeeAlone(q, schedule);
    var read := ReadAlone(q, seen, now.dequeuePos);
    after := ReleaseAlone(q, read, now.dequeuePos, DataAt(now, now.dequeuePos));
  }

  /** While one item passes through an empty queue, `SizeApprox` may return 2^64 - 1. */
  lemma SizeApproxMayWrap<T>(blank: seq<T>) returns (between: seq<Action<T>>)
    requires |blank| >= 2
    ensures var first, second := Initial(|blank|, blank), Run(Initial(|blank|, blank), between);
            && Queued(first) == Queued(second) == 0
            && Wrapped(first.enqueuePos - second.dequeuePos) == TWO_TO_THE_64 - 1
  {
    var q := Initial(|blank|, blank);
    var pushed := PushAlone(q, [], 0, blank[0]);
    between := PopAlone(q, pushed);
  }
}
