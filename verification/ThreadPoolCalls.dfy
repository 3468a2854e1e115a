/**
 * What the calls of the thread pool amount to: when `enqueue` accepts, what `pause` and `shutdown`
 * stop, and what a round of a worker or a call of a client does when nothing interrupts it.
 */
module ThreadPoolCalls {
  import opened ThreadPool

  // ---------------------------------------------------------------- who is where

  predicate IsInside(at: Client) {
    at.Enqueuing? || at.LockedCheck? || at.LockedPush?
  }

  /** The clients inside `enqueue`. */
  function Inside(clients: map<Thread, Client>): set<Thread> {
    set c | c in clients && IsInside(clients[c])
  }

  /** The clients that have passed the check of the stop flag. */
  function Pushing(clients: map<Thread, Client>): set<Thread> {
    set c | c in clients && clients[c].LockedPush?
  }

  predicate PastPause(at: Worker) {
    at.LoadEmpty? || at.CheckStop? || at.CheckPause? || at.Take?
  }

  /** The workers that have passed the load of the pause flag and not taken a task yet. */
  function Taking(workers: map<Thread, Worker>): set<Thread> {
    set w | w in workers && PastPause(workers[w])
  }

  function Where(clients: map<Thread, Client>, c: Thread): Client {
    if c in clients then clients[c] else Free
  }

  lemma InsideMoves(clients: map<Thread, Client>, c: Thread, to: Client)
    ensures |Inside(clients[c := to])| == |Inside(clients)| + OneIf(IsInside(to)) - OneIf(IsInside(Where(clients, c)))
  {
    assert Inside(clients[c := to]) == if IsInside(to) then Inside(clients) + {c} else Inside(clients) - {c};
  }

  lemma PushingMoves(clients: map<Thread, Client>, c: Thread, to: Client)
    ensures |Pushing(clients[c := to])| ==
            |Pushing(clients)| + OneIf(to.LockedPush?) - OneIf(Where(clients, c).LockedPush?)
  {
    assert Pushing(clients[c := to]) == if to.LockedPush? then Pushing(clients) + {c} else Pushing(clients) - {c};
  }

  lemma WorkerMoves(workers: map<Thread, Worker>, w: Thread, to: Worker)
    requires w in workers
    ensures |Taking(workers[w := to])| == |Taking(workers)| + OneIf(PastPause(to)) - OneIf(PastPause(workers[w]))
  {
    assert Taking(workers[w := to]) == if PastPause(to) then Taking(workers) + {w} else Taking(workers) - {w};
  }

  // ---------------------------------------------------------------- accepted and refused

  predicate Enqueues(p: Pool, a: Action) {
    a.CallEnqueue? && At(p, a.client).Free?
  }

  /** How many calls of `enqueue` took effect. */
  ghost function EnqueueCalls(p: Pool, actions: seq<Action>): nat {
    if actions == [] then 0
    else
      var n := |actions| - 1;
      EnqueueCalls(p, actions[..n]) + OneIf(Enqueues(Run(p, actions[..n]), actions[n]))
  }

  lemma WorkerSparesClients(p: Pool, w: Thread)
    requires w in p.workers
    ensures var p' := WorkerStep(p, w);
            && p'.clients == p.clients && p'.accepted == p.accepted && p'.refused == p.refused
            && p'.stop == p.stop && p'.pause == p.pause
  {
    match p.workers[w]
    case Waiting =>
    case LoadStop =>
    case LoadPause =>
    case LoadEmpty =>
    case CheckStop =>
    case CheckPause =>
    case Take =>
    case Taken(ticket) =>
    case InBody(ticket) =>
    case Retire =>
    case CountCompleted =>
    case Exited =>
  }

  /** How one access of a client changes the account. */
  lemma ClientEffect(p: Pool, c: Thread)
    ensures var p' := ClientStep(p, c);
            var at, at' := At(p, c), At(p', c);
            && (p'.clients == p.clients || p'.clients == p.clients[c := at'])
            && p'.accepted == p.accepted + OneIf(at.LockedPush?)
            && |p'.refused| == |p.refused| + OneIf(at.LockedCheck? && at'.Free?)
            && (at.LockedPush? ==> at'.Free?)
            && (IsInside(at) && !IsInside(at') ==> at.LockedPush? || (at.LockedCheck? && at'.Free?))
            && (IsInside(at') ==> IsInside(at))
            && (at'.LockedPush? && !at.LockedPush? ==> !p.stop)
            && (p'.refused != p.refused ==> p.stop)
            && p'.workers == p.workers && p'.dequeued == p.dequeued && p'.stop == p.stop && p'.pause == p.pause
  {
    match At(p, c)
    case Free =>
    case Enqueuing =>
    case LockedCheck =>
    case LockedPush =>
    case WaitingAll =>
    case LockedLoadEmpty =>
    case LockedLoadActive =>
    case WaitedFor(accepted) =>
  }

  /** How one action changes the account of the calls. */
  lemma StepAccount(p: Pool, a: Action)
    ensures var p' := Step(p, a);
            && p'.accepted + |p'.refused| + |Inside(p'.clients)| ==
               p.accepted + |p.refused| + |Inside(p.clients)| + OneIf(Enqueues(p, a))
            && (p'.refused != p.refused ==> p.stop)
            && (p'.stop <==> p.stop || a.Shutdown?)
  {
    match a
    case Work(w) => if w in p.workers { WorkerSparesClients(p, w); }
    case CallEnqueue(c) => InsideMoves(p.clients, c, Enqueuing);
    case CallWaitAll(c) => InsideMoves(p.clients, c, WaitingAll);
    case Continue(c) =>
      ClientEffect(p, c);
      InsideMoves(p.clients, c, At(ClientStep(p, c), c));
    case _ =>
  }

  /**
   * In every run each call of `enqueue` was accepted, was refused, or is still inside, and calls are
   * refused only after a shutdown; so without one, every call that has returned was accepted.
   */
  lemma {:induction false} EnqueuesAreAccounted(n: nat, actions: seq<Action>)
    ensures var p := Run(Initial(n), actions);
            && EnqueueCalls(Initial(n), actions) == p.accepted + |p.refused| + |Inside(p.clients)|
            && (p.stop <==> Shutdown in actions)
            && (p.refused != [] ==> Shutdown in actions)
  {
    if actions == [] {
      assert Inside(map[]) == {};
    } else {
      var k := |actions| - 1;
      assert actions == actions[..k] + [actions[k]];
      EnqueuesAreAccounted(n, actions[..k]);
      StepAccount(Run(Initial(n), actions[..k]), actions[k]);
    }
  }

  // ---------------------------------------------------------------- after shutdown and pause

  lemma Singleton(s: set<Thread>)
    requires forall a, b | a in s && b in s :: a == b
    ensures |s| <= 1
  {
    if s != {} {
      var a :| a in s;
      assert s == {a};
    }
  }

  /** The mutex lets at most one thread be at such a place. */
  lemma AtMostOne(p: Pool)
    requires MutexInv(p)
    ensures |Pushing(p.clients)| <= 1 && |Taking(p.workers)| <= 1
  {
    forall c, d | c in Pushing(p.clients) && d in Pushing(p.clients) ensures c == d {
      assert p.mutex == OwnedByClient(c) == OwnedByClient(d);
    }
    forall w, u | w in Taking(p.workers) && u in Taking(p.workers) ensures w == u {
      assert p.mutex == OwnedByWorker(w) == OwnedByWorker(u);
    }
    Singleton(Pushing(p.clients));
    Singleton(Taking(p.workers));
  }

  /** Once the stop flag is up, only a client past the check can still add a task. */
  lemma StoppedStep(p: Pool, a: Action)
    requires p.stop
    ensures var p' := Step(p, a);
            p'.stop && p'.accepted + |Pushing(p'.clients)| <= p.accepted + |Pushing(p.clients)|
  {
    match a
    case Work(w) => if w in p.workers { WorkerSparesClients(p, w); }
    case CallEnqueue(c) => PushingMoves(p.clients, c, Enqueuing);
    case CallWaitAll(c) => PushingMoves(p.clients, c, WaitingAll);
    case Continue(c) =>
      ClientEffect(p, c);
      PushingMoves(p.clients, c, At(ClientStep(p, c), c));
    case _ =>
  }

  lemma {:induction false} StoppedRun(p: Pool, actions: seq<Action>)
    requires p.stop
    ensures var q := Run(p, actions);
            q.stop && q.accepted + |Pushing(q.clients)| <= p.accepted + |Pushing(p.clients)|
  {
    if actions != [] {
      StoppedRun(p, actions[..|actions| - 1]);
      StoppedStep(Run(p, actions[..|actions| - 1]), actions[|actions| - 1]);
    }
  }

  /** After `shutdown` at most one more task is accepted: that of a client already past the check. */
  lemma ShutdownStopsAccepting(n: nat, before: seq<Action>, after: seq<Action>)
    ensures var p := Run(Initial(n), before);
            Run(Step(p, Shutdown), after).accepted <= p.accepted + 1
  {
    RunInv(n, before);
    AtMostOne(Run(Initial(n), before));
    StoppedRun(Step(Run(Initial(n), before), Shutdown), after);
  }

  /** There is a `Pause` that no `Resume` follows. */
  predicate PausedLast(actions: seq<Action>) {
    exists i | 0 <= i < |actions| :: actions[i].Pause? && forall j | i < j < |actions| :: !actions[j].Resume?
  }

  lemma PausedLastMore(actions: seq<Action>, a: Action)
    ensures PausedLast(actions + [a]) <==> a.Pause? || (!a.Resume? && PausedLast(actions))
  {
    var all := actions + [a];
    if a.Pause? {
      assert all[|actions|].Pause?;
    } else if !a.Resume? && PausedLast(actions) {
      var i :| 0 <= i < |actions| && actions[i].Pause? && forall j | i < j < |actions| :: !actions[j].Resume?;
      assert all[i].Pause?;
    } else if PausedLast(all) {
      var i :| 0 <= i < |all| && all[i].Pause? && forall j | i < j < |all| :: !all[j].Resume?;
      assert i < |actions| && !all[|actions|].Resume?;
      forall j | i < j < |actions| ensures !actions[j].Resume? {
        assert !all[j].Resume?;
      }
      assert actions[i].Pause?;
    }
  }

  lemma StepFlags(p: Pool, a: Action)
    ensures Step(p, a).stop <==> p.stop || a.Shutdown?
    ensures Step(p, a).pause <==> a.Pause? || (!a.Resume? && p.pause)
  {
    match a
    case Work(w) => if w in p.workers { assert WorkerStep(p, w).stop == p.stop; }
    case Continue(c) => assert ClientStep(p, c).stop == p.stop;
    case _ =>
  }

  /** In every run the pool is stopped exactly after a `shutdown`, and paused exactly after an unresumed `pause`. */
  lemma {:induction false} FlagsFollowCalls(n: nat, actions: seq<Action>)
    ensures var p := Run(Initial(n), actions);
            && (p.stop <==> Shutdown in actions)
            && (p.pause <==> PausedLast(actions))
  {
    if actions != [] {
      var before, a := actions[..|actions| - 1], actions[|actions| - 1];
      assert actions == before + [a];
      FlagsFollowCalls(n, before);
      StepFlags(Run(Initial(n), before), a);
      PausedLastMore(before, a);
    }
  }

  /** Neither resumes nor stops. */
  predicate LeavesPaused(a: Action) {
    !a.Resume? && !a.Shutdown?
  }

  lemma PausedWork(p: Pool, w: Thread)
    requires p.pause && !p.stop && w in p.workers
    ensures var p' := WorkerStep(p, w);
            |p'.dequeued| + |Taking(p'.workers)| <= |p.dequeued| + |Taking(p.workers)|
  {
    match p.workers[w]
    case Waiting => WorkerMoves(p.workers, w, LoadStop);
    case LoadStop => WorkerMoves(p.workers, w, LoadPause);
    case LoadPause => WorkerMoves(p.workers, w, Waiting);
    case LoadEmpty =>
      WorkerMoves(p.workers, w, Waiting);
      WorkerMoves(p.workers, w, CheckStop);
    case CheckStop =>
      WorkerMoves(p.workers, w, CheckPause);
    case CheckPause =>
      WorkerMoves(p.workers, w, Waiting);
      WorkerMoves(p.workers, w, Take);
    case Take => if p.queue != [] { WorkerMoves(p.workers, w, Taken(p.queue[0])); }
    case Taken(ticket) => WorkerMoves(p.workers, w, InBody(ticket));
    case InBody(ticket) => WorkerMoves(p.workers, w, Retire);
    case Retire => WorkerMoves(p.workers, w, CountCompleted);
    case CountCompleted => WorkerMoves(p.workers, w, Waiting);
    case Exited =>
  }

  /** While the pool is paused and not stopped, only a worker past the load of the flag can take a task. */
  lemma PausedStep(p: Pool, a: Action)
    requires p.pause && !p.stop && LeavesPaused(a)
    ensures var p' := Step(p, a);
            p'.pause && !p'.stop && |p'.dequeued| + |Taking(p'.workers)| <= |p.dequeued| + |Taking(p.workers)|
  {
    match a
    case Work(w) =>
      if w in p.workers {
        WorkerSparesClients(p, w);
        PausedWork(p, w);
      }
    case Continue(c) => ClientEffect(p, c);
    case Resize(w) =>
      if w !in p.workers && p.mutex.Nobody? {
        assert Taking(p.workers[w := Waiting]) == Taking(p.workers);
      }
    case _ =>
  }

  lemma {:induction false} PausedRun(p: Pool, actions: seq<Action>)
    requires p.pause && !p.stop && forall a | a in actions :: LeavesPaused(a)
    ensures var q := Run(p, actions);
            q.pause && !q.stop && |q.dequeued| + |Taking(q.workers)| <= |p.dequeued| + |Taking(p.workers)|
  {
    if actions != [] {
      PausedRun(p, actions[..|actions| - 1]);
      PausedStep(Run(p, actions[..|actions| - 1]), actions[|actions| - 1]);
    }
  }

  /** After `pause`, until `resume` or `shutdown`, at most one more task is taken from the queue. */
  lemma PauseStopsTaking(n: nat, before: seq<Action>, after: seq<Action>)
    requires forall a | a in after :: LeavesPaused(a)
    ensures var p := Run(Initial(n), before);
            !p.stop ==> |Run(Step(p, Pause), after).dequeued| <= |p.dequeued| + 1
  {
    RunInv(n, before);
    var p := Run(Initial(n), before);
    AtMostOne(p);
    if !p.stop {
      PausedRun(Step(p, Pause), after);
    }
  }

  // ---------------------------------------------------------------- a worker that nothing interrupts

  /** `k` steps of worker `w`. */
  ghost function Working(p: Pool, w: Thread, k: nat): Pool
    decreases k
  {
    if k == 0 then p else Step(Working(p, w, k - 1), Work(w))
  }

  /** The waiting worker `w` moved on to a place where it holds the mutex. */
  function Locked(p: Pool, w: Thread, to: Worker): Pool {
    Move(p, w, to).(mutex := OwnedByWorker(w))
  }

  /** The pool after `w` has run the front task. */
  function RanFront(p: Pool, w: Thread): Pool
    requires p.queue != []
  {
    p.(queue := p.queue[1..], queued := p.queued - 1, completed := p.completed + 1,
    dequeued := p.dequeued + [Dequeued(p.queue[0], w)],
    started := p.started + [p.queue[0]], finished := p.finished + {p.queue[0]})
  }

  predicate WaitsAlone(p: Pool, w: Thread) {
    w in p.workers && p.workers[w].Waiting? && p.mutex.Nobody?
  }

  lemma MovedTwice<A, B>(m: map<A, B>, a: A, b: B, b': B)
    ensures m[a := b][a := b'] == m[a := b']
    ensures a in m ==> m[a := b][a := m[a]] == m
  {}

  /** The loads of the wait predicate. */
  lemma LookStep(p: Pool, w: Thread, at: Worker)
    requires WaitsAlone(p, w) && (at.LoadStop? || at.LoadPause? || at.LoadEmpty?)
    ensures Step(Locked(p, w, at), Work(w)) ==
            if at.LoadStop? then Locked(p, w, if p.stop then CheckStop else LoadPause)
            else if at.LoadPause? then (if p.pause then p else Locked(p, w, LoadEmpty))
            else if p.queue == [] then p else Locked(p, w, CheckStop)
  {
    MovedTwice(p.workers, w, at, CheckStop);
    MovedTwice(p.workers, w, at, LoadPause);
    MovedTwice(p.workers, w, at, LoadEmpty);
  }

  /** The two checks after the wait. */
  lemma CheckStep(p: Pool, w: Thread, at: Worker)
    requires WaitsAlone(p, w) && (at.CheckStop? || at.CheckPause?)
    ensures Step(Locked(p, w, at), Work(w)) ==
            if at.CheckStop? then (if p.stop && p.queue == [] then Move(p, w, Exited) else Locked(p, w, CheckPause))
            else if p.pause && p.queue == [] then p else Locked(p, w, Take)
  {
    MovedTwice(p.workers, w, at, Exited);
    MovedTwice(p.workers, w, at, CheckPause);
    MovedTwice(p.workers, w, at, Take);
  }

  /** `f` applied `k` times. */
  ghost function Iterate<S(!new)>(f: S -> S, s: S, k: nat): S
    decreases k
  {
    if k == 0 then s else f(Iterate(f, s, k - 1))
  }

  lemma {:induction false} IterateMore<S(!new)>(f: S -> S, s: S, j: nat, k: nat)
    ensures Iterate(f, s, j + k) == Iterate(f, Iterate(f, s, j), k)
    decreases k
  {
    if k > 0 {
      IterateMore(f, s, j, k - 1);
      assert Iterate(f, s, j + k) == f(Iterate(f, s, j + (k - 1)));
    }
  }

  lemma {:induction false} WorkingIterates(p: Pool, w: Thread, k: nat)
    ensures Working(p, w, k) == Iterate((q: Pool) => Step(q, Work(w)), p, k)
  {
    if k > 0 {
      WorkingIterates(p, w, k - 1);
    }
  }

  lemma WorkingThen(p: Pool, w: Thread, j: nat, q: Pool, k: nat)
    requires Working(p, w, j) == q
    ensures Working(p, w, j + k) == Working(q, w, k)
  {
    WorkingIterates(p, w, j);
    WorkingIterates(p, w, j + k);
    WorkingIterates(q, w, k);
    IterateMore((q: Pool) => Step(q, Work(w)), p, j, k);
  }

  /** From the checks on, if there is something to take or the pool is stopped. */
  lemma ChecksAlone(p: Pool, w: Thread)
    requires WaitsAlone(p, w) && (p.stop || p.queue != [])
    ensures p.queue == [] ==> Working(Locked(p, w, CheckStop), w, 1) == Move(p, w, Exited)
    ensures p.queue != [] ==> Working(Locked(p, w, CheckStop), w, 2) == Locked(p, w, Take)
  {
    var q := Locked(p, w, CheckStop);
    assert Working(q, w, 0) == q;
    CheckStep(p, w, CheckStop);
    CheckStep(p, w, CheckPause);
    assert Working(q, w, 1) == Step(q, Work(w));
    assert Working(q, w, 2) == Step(Working(q, w, 1), Work(w));
  }

  /** From waiting to the checks or back to waiting. */
  lemma LookAlone(p: Pool, w: Thread) returns (k: nat)
    requires WaitsAlone(p, w)
    ensures k > 0
    ensures Working(p, w, k) ==
            if p.stop || (!p.pause && p.queue != []) then Locked(p, w, CheckStop) else p
  {
    assert Working(p, w, 0) == p;
    assert Working(p, w, 1) == Locked(p, w, LoadStop);
    LookStep(p, w, LoadStop);
    assert Working(p, w, 2) == Step(Working(p, w, 1), Work(w));
    k := 2;
    if !p.stop {
      LookStep(p, w, LoadPause);
      assert Working(p, w, 3) == Step(Working(p, w, 2), Work(w));
      k := 3;
      if !p.pause {
        LookStep(p, w, LoadEmpty);
        assert Working(p, w, 4) == Step(Working(p, w, 3), Work(w));
        k := 4;
      }
    }
  }

  /** The body and the counters. */
  lemma BodyAlone(p: Pool, q: Pool, w: Thread)
    requires WaitsAlone(p, w) && p.queue != []
    requires q == Move(p, w, InBody(p.queue[0])).(
                    queue := p.queue[1..], queued := p.queued - 1, active := p.active + 1,
                    dequeued := p.dequeued + [Dequeued(p.queue[0], w)], started := p.started + [p.queue[0]])
    ensures Working(q, w, 3) == RanFront(p, w)
  {
    var k := p.queue[0];
    MovedTwice(p.workers, w, InBody(k), Retire);
    MovedTwice(p.workers, w, Retire, CountCompleted);
    MovedTwice(p.workers, w, CountCompleted, Waiting);
    assert Working(q, w, 0) == q;
    var retire := q.(workers := p.workers[w := Retire], finished := p.finished + {k});
    assert Working(q, w, 1) == retire;
    var counting := retire.(workers := p.workers[w := CountCompleted], active := p.active);
    assert Working(q, w, 2) == counting;
    assert Working(q, w, 3) == counting.(workers := p.workers, completed := p.completed + 1);
  }

  /** The take, the body and the counters. */
  lemma TakeAlone(p: Pool, w: Thread)
    requires WaitsAlone(p, w) && p.queue != []
    ensures Working(Locked(p, w, Take), w, 5) == RanFront(p, w)
  {
    var q, k := Locked(p, w, Take), p.queue[0];
    var taken := Move(p, w, Taken(k)).(queue := p.queue[1..], queued := p.queued - 1, active := p.active + 1,
                                       dequeued := p.dequeued + [Dequeued(k, w)]);
    MovedTwice(p.workers, w, Take, Taken(k));
    MovedTwice(p.workers, w, Taken(k), InBody(k));
    assert Working(q, w, 0) == q;
    assert Working(q, w, 1) == taken;
    var inBody := Move(p, w, InBody(k)).(queue := taken.queue, queued := taken.queued, active := taken.active,
                                         dequeued := taken.dequeued, started := p.started + [k]);
    assert Working(q, w, 2) == inBody;
    BodyAlone(p, inBody, w);
    WorkingThen(q, w, 2, inBody, 3);
  }

  /** From the checks on, when there is a task to take. */
  lemma TakeRound(p: Pool, w: Thread, k: nat)
    requires WaitsAlone(p, w) && p.queue != [] && Working(p, w, k) == Locked(p, w, CheckStop)
    ensures Working(p, w, k + 7) == RanFront(p, w)
  {
    ChecksAlone(p, w);
    WorkingThen(p, w, k, Locked(p, w, CheckStop), 2);
    TakeAlone(p, w);
    WorkingThen(p, w, k + 2, Locked(p, w, Take), 5);
  }

  /** From the checks on, when the pool is stopped and empty. */
  lemma ExitRound(p: Pool, w: Thread, k: nat)
    requires WaitsAlone(p, w) && p.stop && p.queue == [] && Working(p, w, k) == Locked(p, w, CheckStop)
    ensures Working(p, w, k + 1) == Move(p, w, Exited)
  {
    ChecksAlone(p, w);
    WorkingThen(p, w, k, Locked(p, w, CheckStop), 1);
  }

  /**
   * One round of a worker that nothing interrupts: it takes and runs the front task if there is one
   * and the pool is not paused, or is paused and stopped; it exits if the pool is stopped and the
   * queue is empty; otherwise it goes back to waiting and nothing has changed.
   */
  lemma WorkerRoundIs(p: Pool, w: Thread) returns (k: nat)
    requires WaitsAlone(p, w)
    ensures k > 0
    ensures Working(p, w, k) ==
            if p.queue != [] && (p.stop || !p.pause) then RanFront(p, w)
            else if p.queue == [] && p.stop then Move(p, w, Exited)
            else p
  {
    k := LookAlone(p, w);
    if p.queue != [] && (p.stop || !p.pause) {
      TakeRound(p, w, k);
      k := k + 7;
    } else if p.stop {
      ExitRound(p, w, k);
      k := k + 1;
    }
  }

  /** A worker added by `resize` to a pool that is not paused runs the front task. */
  lemma AddedWorkerWorks(p: Pool, w: Thread) returns (k: nat)
    requires w !in p.workers && p.mutex.Nobody? && p.queue != [] && !p.pause
    ensures Working(Step(p, Resize(w)), w, k) == Move(RanFront(p, w), w, Waiting)
  {
    k := WorkerRoundIs(Step(p, Resize(w)), w);
  }

  /** `pause` keeps the front task from a waiting worker, and `resume` lets the worker take it. */
  lemma ResumeLetsWork(p: Pool, w: Thread) returns (j: nat, k: nat)
    requires WaitsAlone(p, w) && p.queue != [] && !p.stop
    ensures j > 0 && Working(Step(p, Pause), w, j) == Step(p, Pause)
    ensures Working(Step(Step(p, Pause), Resume), w, k) == RanFront(p, w).(pause := false)
  {
    j := WorkerRoundIs(Step(p, Pause), w);
    k := WorkerRoundIs(Step(Step(p, Pause), Resume), w);
  }

  // ---------------------------------------------------------------- a client that nothing interrupts

  /** `k` steps of client `c`. */
  ghost function Continuing(p: Pool, c: Thread, k: nat): Pool
    decreases k
  {
    if k == 0 then p else Step(Continuing(p, c, k - 1), Continue(c))
  }

  function ClientLocked(p: Pool, c: Thread, to: Client): Pool {
    MoveClient(p, c, to).(mutex := OwnedByClient(c))
  }

  /** A call of `enqueue` that nothing interrupts is accepted exactly if the pool is not stopped. */
  lemma EnqueueCallIs(p: Pool, c: Thread) returns (k: nat)
    requires At(p, c).Free? && p.mutex.Nobody?
    ensures Continuing(Step(p, CallEnqueue(c)), c, k) == MoveClient(
              if p.stop then p.(refused := p.refused + [c])
              else p.(queue := p.queue + [p.accepted], queued := p.queued + 1, accepted := p.accepted + 1), c, Free)
  {
    var q := MoveClient(p, c, Enqueuing);
    MovedTwice(p.clients, c, Enqueuing, LockedCheck);
    MovedTwice(p.clients, c, LockedCheck, LockedPush);
    MovedTwice(p.clients, c, LockedCheck, Free);
    MovedTwice(p.clients, c, LockedPush, Free);
    assert Continuing(q, c, 0) == q;
    assert Continuing(q, c, 1) == ClientLocked(p, c, LockedCheck);
    if p.stop {
      assert Continuing(q, c, 2) == MoveClient(p, c, Free).(refused := p.refused + [c]);
      k := 2;
    } else {
      assert Continuing(q, c, 2) == ClientLocked(p, c, LockedPush);
      assert Continuing(q, c, 3) == Step(Continuing(q, c, 2), Continue(c));
      k := 3;
    }
  }

  /** A call of `wait_all` that nothing interrupts returns exactly if the pool is idle. */
  lemma WaitAllCallIs(p: Pool, c: Thread) returns (k: nat)
    requires At(p, c).Free? && p.mutex.Nobody?
    ensures k > 0
    ensures Continuing(Step(p, CallWaitAll(c)), c, k) ==
            MoveClient(p, c, if p.queue == [] && p.active == 0 then WaitedFor(p.accepted) else WaitingAll)
    ensures p.queue == [] && p.active == 0 ==>
              Continuing(Step(p, CallWaitAll(c)), c, k + 1) == MoveClient(p, c, Free)
  {
    var q := MoveClient(p, c, WaitingAll);
    MovedTwice(p.clients, c, WaitingAll, LockedLoadEmpty);
    MovedTwice(p.clients, c, LockedLoadEmpty, WaitingAll);
    MovedTwice(p.clients, c, LockedLoadEmpty, LockedLoadActive);
    MovedTwice(p.clients, c, LockedLoadActive, WaitingAll);
    MovedTwice(p.clients, c, LockedLoadActive, WaitedFor(p.accepted));
    assert Continuing(q, c, 0) == q;
    assert Continuing(q, c, 1) == ClientLocked(p, c, LockedLoadEmpty);
    if p.queue != [] {
      assert Continuing(q, c, 2) == q;
      k := 2;
    } else {
      assert Continuing(q, c, 2) == ClientLocked(p, c, LockedLoadActive);
      assert Continuing(q, c, 3) == Step(Continuing(q, c, 2), Continue(c));
      MovedTwice(p.clients, c, WaitedFor(p.accepted), Free);
      assert Continuing(q, c, 4) == Step(Continuing(q, c, 3), Continue(c));
      k := 3;
    }
  }
}
