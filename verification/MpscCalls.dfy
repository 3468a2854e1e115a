/**
 * What the calls of the multi-producer queue amount to, told from the schedule: every claim is the
 * item of a call of that thread, and every call claims once, gives up, or is still inside.
 */
module MpscCalls {
  import opened MpscQueue
  import opened Sequences

  /** The thread is inside `Push` and has claimed nothing yet. */
  predicate BeforeClaim<T>(p: Producer<T>) {
    p.LoadEnqueuePos? || p.LoadSequence? || p.CompareExchange?
  }

  ghost function CalledBy<T>(q: Queue<T>, a: Action<T>, t: Thread): seq<T> {
    if a.CallPush? && a.thread == t && At(q, t).Idle? then [a.item] else []
  }

  /** The items of the calls of `Push` by `t` that took effect, in order. */
  ghost function Calls<T>(q: Queue<T>, schedule: seq<Action<T>>, t: Thread): seq<T>
    requires WellFormed(q)
  {
    if schedule == [] then []
    else
      var n := |schedule| - 1;
      Calls(q, schedule[..n], t) + CalledBy(Run(q, schedule[..n]), schedule[n], t)
  }

  /** What an action does to the calls of thread `t`. */
  datatype Effect = None | Called | Claimed | Refused | Returned

  ghost function EffectOn<T>(q: Queue<T>, a: Action<T>, t: Thread): Effect
    requires WellFormed(q)
  {
    var at, at' := At(q, t), At(Step(q, a), t);
    if at.Idle? then if at'.Idle? then None else Called
    else if BeforeClaim(at) then if at'.Idle? then Refused else if BeforeClaim(at') then None else Claimed
    else if at'.Idle? then Returned else None
  }

  /** How many calls of `Push` by `t` have returned false. */
  ghost function Refusals<T>(q: Queue<T>, schedule: seq<Action<T>>, t: Thread): nat
    requires WellFormed(q)
  {
    if schedule == [] then 0
    else
      var n := |schedule| - 1;
      Refusals(q, schedule[..n], t) + if EffectOn(Run(q, schedule[..n]), schedule[n], t).Refused? then 1 else 0
  }

  /** The items that `t` has claimed positions for, in order. */
  function ClaimedBy<T>(claims: seq<Claim<T>>, t: Thread): seq<T> {
    if claims == [] then []
    else
      var n := |claims| - 1;
      ClaimedBy(claims[..n], t) + if claims[n].thread == t then [claims[n].item] else []
  }

  function AllClaims<T>(q: Queue<T>): seq<Claim<T>> {
    q.claimsBefore + q.claims
  }

  /** A thread inside `Push` carries the item of its latest call, and its claims are among its calls. */
  ghost predicate Accounted<T>(at: Producer<T>, claimed: seq<T>, calls: seq<T>, refusals: nat) {
    && Subsequence(claimed, if BeforeClaim(at) && calls != [] then calls[..|calls| - 1] else calls)
    && (!at.Idle? ==> calls != [] && at.item == calls[|calls| - 1])
    && |calls| == |claimed| + refusals + if BeforeClaim(at) then 1 else 0
  }

  lemma ClaimedBySnoc<T>(claims: seq<Claim<T>>, c: Claim<T>, t: Thread)
    ensures ClaimedBy(claims + [c], t) == ClaimedBy(claims, t) + if c.thread == t then [c.item] else []
  {
    assert (claims + [c])[..|claims|] == claims;
  }

  /** An access of producer `u` moves no other producer, and adds a claim if it wins a compare-exchange. */
  lemma ProducerClaims<T>(q: Queue<T>, u: Thread, spurious: bool)
    requires WellFormed(q)
    ensures var at, q' := At(q, u), ProducerStep(q, u, spurious);
            && (forall t: Thread | t != u :: At(q', t) == At(q, t))
            && (BeforeClaim(at) && !At(q', u).Idle? && !BeforeClaim(At(q', u)) ==>
                  AllClaims(q') == AllClaims(q) + [Claim(u, at.item)])
            && ((BeforeClaim(at) && !At(q', u).Idle? && !BeforeClaim(At(q', u))) || AllClaims(q') == AllClaims(q))
            && (!At(q', u).Idle? ==> !at.Idle? && At(q', u).item == at.item)
            && (at.Idle? ==> At(q', u).Idle?)
            && (!BeforeClaim(at) ==> !BeforeClaim(At(q', u)))
  {
    match At(q, u)
    case Idle =>
    case LoadEnqueuePos(item) =>
    case LoadSequence(item, pos) =>
    case CompareExchange(item, pos) =>
    case WriteData(item, pos) =>
    case StoreSequence(item, pos) =>
  }

  /** What an effect means for the place of the thread, its item and its claims. */
  ghost predicate Means<T>(q: Queue<T>, a: Action<T>, t: Thread)
    requires WellFormed(q)
  {
    var at, at', effect := At(q, t), At(Step(q, a), t), EffectOn(q, a, t);
    && (effect.Called? ==> a.CallPush? && a.thread == t && BeforeClaim(at') && at'.item == a.item)
    && (effect.None? ==> BeforeClaim(at') == BeforeClaim(at) && at'.Idle? == at.Idle?)
    && (!effect.Called? && !at'.Idle? ==> !at.Idle? && at'.item == at.item)
    && ClaimedBy(AllClaims(Step(q, a)), t) ==
       ClaimedBy(AllClaims(q), t) + if effect.Claimed? then [at.item] else []
  }

  lemma ProduceMeans<T>(q: Queue<T>, u: Thread, spurious: bool, t: Thread)
    requires WellFormed(q)
    ensures Means(q, Produce(u, spurious), t)
  {
    ProducerClaims(q, u, spurious);
    if !At(q, u).Idle? {
      ClaimedBySnoc(AllClaims(q), Claim(u, At(q, u).item), t);
    }
  }

  lemma EffectIs<T>(q: Queue<T>, a: Action<T>, t: Thread)
    requires WellFormed(q)
    ensures Means(q, a, t)
    ensures CalledBy(q, a, t) == if EffectOn(q, a, t).Called? then [a.item] else []
  {
    match a
    case Produce(u, spurious) => ProduceMeans(q, u, spurious, t);
    case Reserve(newCap, blank) => assert AllClaims(Step(q, a)) == AllClaims(q);
    case _ =>
  }

  /** The account of a thread after an action with the given effect. */
  lemma AccountAfter<T>(at: Producer<T>, at': Producer<T>, claimed: seq<T>, calls: seq<T>, refusals: nat,
                        effect: Effect, x: T)
    requires Accounted(at, claimed, calls, refusals)
    requires effect.None? ==>
               BeforeClaim(at') == BeforeClaim(at) && at'.Idle? == at.Idle? && (!at'.Idle? ==> at'.item == at.item)
    requires effect.Called? ==> at.Idle? && BeforeClaim(at') && at'.item == x
    requires effect.Claimed? ==> BeforeClaim(at) && !BeforeClaim(at') && !at'.Idle? && at'.item == at.item
    requires effect.Refused? ==> BeforeClaim(at) && at'.Idle?
    requires effect.Returned? ==> !BeforeClaim(at) && at'.Idle?
    ensures Accounted(at', claimed + (if effect.Claimed? then [at.item] else []),
                      calls + (if effect.Called? then [x] else []), refusals + if effect.Refused? then 1 else 0)
  {
    assert claimed + [] == claimed && calls + [] == calls;
    assert (calls + [x])[..|calls|] == calls;
    if BeforeClaim(at) {
      var n := |calls| - 1;
      assert calls == calls[..n] + [calls[n]];
      SubsequenceSkip(claimed, calls[..n], calls[n]);
      SubsequenceTake(claimed, calls[..n], calls[n]);
    }
  }

  lemma StepAccounted<T>(q: Queue<T>, a: Action<T>, t: Thread, calls: seq<T>, refusals: nat)
    requires WellFormed(q)
    requires Accounted(At(q, t), ClaimedBy(AllClaims(q), t), calls, refusals)
    ensures Accounted(At(Step(q, a), t), ClaimedBy(AllClaims(Step(q, a)), t), calls + CalledBy(q, a, t),
                      refusals + if EffectOn(q, a, t).Refused? then 1 else 0)
  {
    EffectIs(q, a, t);
    if a.CallPush? {
      AccountAfter(At(q, t), At(Step(q, a), t), ClaimedBy(AllClaims(q), t), calls, refusals, EffectOn(q, a, t), a.item);
    } else if !At(q, t).Idle? {
      AccountAfter(At(q, t), At(Step(q, a), t), ClaimedBy(AllClaims(q), t), calls, refusals, EffectOn(q, a, t),
                   At(q, t).item);
    } else {
      assert calls + [] == calls && ClaimedBy(AllClaims(q), t) + [] == ClaimedBy(AllClaims(q), t);
    }
  }

  /**
   * In every run, a thread inside `Push` carries the item of its latest call; the items it has
   * claimed positions for are among those of its calls, in order and at most one per call; and each
   * call has claimed, has returned false, or is still before its claim.
   */
  lemma {:induction false} CallsClaimTheirItems<T>(cap: nat, blank: seq<T>, schedule: seq<Action<T>>, t: Thread)
    requires |blank| == cap > 0
    ensures var q0 := Initial(cap, blank);
            var q := Run(q0, schedule);
            Accounted(At(q, t), ClaimedBy(AllClaims(q), t), Calls(q0, schedule, t), Refusals(q0, schedule, t))
  {
    if schedule != [] {
      var n := |schedule| - 1;
      CallsClaimTheirItems(cap, blank, schedule[..n], t);
      StepAccounted(Run(Initial(cap, blank), schedule[..n]), schedule[n], t,
                    Calls(Initial(cap, blank), schedule[..n], t), Refusals(Initial(cap, blank), schedule[..n], t));
    }
  }

  /** The k-th value claimed is the k-th in the order in which `Popped` is a prefix. */
  lemma PushedAreClaims<T>(q: Queue<T>)
    ensures Pushed(q) == Items(AllClaims(q))
  {
    ItemsConcat(q.claimsBefore, q.claims);
  }

  // ---------------------------------------------------------------- the consumer's calls

  /** How many calls of `Pop` took effect. */
  ghost function PopCalls<T>(q: Queue<T>, schedule: seq<Action<T>>): nat
    requires WellFormed(q)
  {
    if schedule == [] then 0
    else
      var n := |schedule| - 1;
      PopCalls(q, schedule[..n]) + if schedule[n].CallPop? && Run(q, schedule[..n]).consumer.Resting? then 1 else 0
  }

  /** How many calls of `Pop` have returned false. */
  ghost function PopRefusals<T>(q: Queue<T>, schedule: seq<Action<T>>): nat
    requires WellFormed(q)
  {
    if schedule == [] then 0
    else
      var n := |schedule| - 1;
      var before, after := Run(q, schedule[..n]), Run(q, schedule);
      PopRefusals(q, schedule[..n]) +
      if !before.consumer.Resting? && after.consumer.Resting? && Popped(after) == Popped(before) then 1 else 0
  }

  /** A call of `Pop` begins by `CallPop` only, and a value is popped only when a call ends. */
  lemma PopStep<T>(q: Queue<T>, a: Action<T>)
    requires WellFormed(q)
    ensures var q' := Step(q, a);
            && (q.consumer.Resting? && !q'.consumer.Resting? <==> a.CallPop? && q.consumer.Resting?)
            && (Popped(q') != Popped(q) ==>
                  !q.consumer.Resting? && q'.consumer.Resting? && |Popped(q')| == |Popped(q)| + 1)
  {
    match a
    case Consume =>
      if q.consumer.StoreReleased? {
        assert Popped(Step(q, a)) == Popped(q) + [q.consumer.item];
      }
    case _ =>
  }

  /** Each call of `Pop` returned one value, returned false, or is still inside. */
  lemma {:induction false} PopsAreAccounted<T>(cap: nat, blank: seq<T>, schedule: seq<Action<T>>)
    requires |blank| == cap > 0
    ensures var q0 := Initial(cap, blank);
            var q := Run(q0, schedule);
            PopCalls(q0, schedule) ==
            |Popped(q)| + PopRefusals(q0, schedule) + if q.consumer.Resting? then 0 else 1
  {
    if schedule != [] {
      PopsAreAccounted(cap, blank, schedule[..|schedule| - 1]);
      PopStep(Run(Initial(cap, blank), schedule[..|schedule| - 1]), schedule[|schedule| - 1]);
    }
  }
}
