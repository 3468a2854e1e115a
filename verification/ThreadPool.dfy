/**
 * The thread pool, one transition per critical-section step or atomic access, for any number of
 * client threads and workers. Condition variables may wake up at any time. The k-th task that
 * `enqueue` accepts is ticket k. A run is any list of actions; an action that its thread cannot
 * take leaves the state unchanged.
 */
module ThreadPool {

  type Thread = nat

  type Ticket = nat

  /** Where a worker stands in `worker_loop`; it holds the mutex from `LoadStop` to `Take`. */
  datatype Worker =
    | Waiting
    | LoadStop
    | LoadPause
    | LoadEmpty
    | CheckStop
    | CheckPause
    | Take
    | Taken(ticket: Ticket)
    | InBody(ticket: Ticket)
    | Retire
    | CountCompleted
    | Exited

  /** Where a client stands; it holds the mutex in the constructors that start with `Locked`. */
  datatype Client =
    | Free
    | Enqueuing
    | LockedCheck
    | LockedPush
    | WaitingAll
    | LockedLoadEmpty
    | LockedLoadActive
    | WaitedFor(accepted: nat)

  datatype Owner = Nobody | OwnedByWorker(worker: Thread) | OwnedByClient(client: Thread)

  datatype Dequeued = Dequeued(ticket: Ticket, worker: Thread)

  /** `accepted`, `dequeued`, `started`, `finished` and `refused` record what became of the tasks. */
  datatype Pool = Pool(
    mutex: Owner,
    queue: seq<Ticket>,
    stop: bool,
    pause: bool,
    active: int,
    queued: int,
    completed: nat,
    workers: map<Thread, Worker>,
    clients: map<Thread, Client>,
    accepted: nat,
    dequeued: seq<Dequeued>,
    started: seq<Ticket>,
    finished: set<Ticket>,
    refused: seq<Thread>)

  datatype Action =
    | Work(worker: Thread)
    | CallEnqueue(client: Thread)
    | CallWaitAll(client: Thread)
    | Continue(client: Thread)
    | Pause
    | Resume
    | Resize(worker: Thread)
    | Shutdown

  function Names(n: nat): (names: set<Thread>)
    ensures forall w: Thread :: w in names <==> w < n
  {
    if n == 0 then {} else Names(n - 1) + {n - 1}
  }

  function Initial(n: nat): Pool {
    Pool(Nobody, [], false, false, 0, 0, 0, map w: Thread | w in Names(n) :: Waiting, map[], 0, [], [], {}, [])
  }

  function Move(p: Pool, w: Thread, to: Worker): Pool {
    p.(workers := p.workers[w := to])
  }

  function WorkerStep(p: Pool, w: Thread): Pool
    requires w in p.workers
  {
    match p.workers[w]
    case Waiting => if p.mutex.Nobody? then Move(p, w, LoadStop).(mutex := OwnedByWorker(w)) else p
    case LoadStop => Move(p, w, if p.stop then CheckStop else LoadPause)
    case LoadPause => if p.pause then Move(p, w, Waiting).(mutex := Nobody) else Move(p, w, LoadEmpty)
    case LoadEmpty => if p.queue == [] then Move(p, w, Waiting).(mutex := Nobody) else Move(p, w, CheckStop)
    case CheckStop =>
      if p.stop && p.queue == [] then Move(p, w, Exited).(mutex := Nobody) else Move(p, w, CheckPause)
    case CheckPause =>
      if p.pause && p.queue == [] then Move(p, w, Waiting).(mutex := Nobody) else Move(p, w, Take)
    case Take =>
      if p.queue == [] then p  // front() of an empty queue: excluded by FrontIsNeverEmpty
      else
        Move(p, w, Taken(p.queue[0])).(
        queue := p.queue[1..], queued := p.queued - 1, active := p.active + 1, mutex := Nobody,
        dequeued := p.dequeued + [Dequeued(p.queue[0], w)])
    case Taken(ticket) => Move(p, w, InBody(ticket)).(started := p.started + [ticket])
    case InBody(ticket) => Move(p, w, Retire).(finished := p.finished + {ticket})
    case Retire => Move(p, w, CountCompleted).(active := p.active - 1)
    case CountCompleted => Move(p, w, Waiting).(completed := p.completed + 1)
    case Exited => p
  }

  function At(p: Pool, c: Thread): Client {
    if c in p.clients then p.clients[c] else Free
  }

  function MoveClient(p: Pool, c: Thread, to: Client): Pool {
    p.(clients := p.clients[c := to])
  }

  function ClientStep(p: Pool, c: Thread): Pool {
    match At(p, c)
    case Free => p
    case Enqueuing => if p.mutex.Nobody? then MoveClient(p, c, LockedCheck).(mutex := OwnedByClient(c)) else p
    case LockedCheck =>
      if p.stop then MoveClient(p, c, Free).(mutex := Nobody, refused := p.refused + [c])
      else MoveClient(p, c, LockedPush)
    case LockedPush =>
      MoveClient(p, c, Free).(
      queue := p.queue + [p.accepted], queued := p.queued + 1, accepted := p.accepted + 1, mutex := Nobody)
    case WaitingAll => if p.mutex.Nobody? then MoveClient(p, c, LockedLoadEmpty).(mutex := OwnedByClient(c)) else p
    case LockedLoadEmpty =>
      if p.queue == [] then MoveClient(p, c, LockedLoadActive)
      else MoveClient(p, c, WaitingAll).(mutex := Nobody)
    case LockedLoadActive =>
      MoveClient(p, c, if p.active == 0 then WaitedFor(p.accepted) else WaitingAll).(mutex := Nobody)
    case WaitedFor(_) => MoveClient(p, c, Free)
  }

  function Step(p: Pool, a: Action): Pool {
    match a
    case Work(w) => if w in p.workers then WorkerStep(p, w) else p
    case CallEnqueue(c) => if At(p, c).Free? then MoveClient(p, c, Enqueuing) else p
    case CallWaitAll(c) => if At(p, c).Free? then MoveClient(p, c, WaitingAll) else p
    case Continue(c) => ClientStep(p, c)
    case Pause => p.(pause := true)
    case Resume => p.(pause := false)
    case Resize(w) => if w !in p.workers && p.mutex.Nobody? then Move(p, w, Waiting) else p
    case Shutdown => p.(stop := true)
  }

  function Run(p: Pool, actions: seq<Action>): Pool {
    if actions == [] then p
    else Step(Run(p, actions[..|actions| - 1]), actions[|actions| - 1])
  }

  // ---------------------------------------------------------------- invariant

  predicate HoldsMutex(w: Worker) {
    w.LoadStop? || w.LoadPause? || w.LoadEmpty? || w.CheckStop? || w.CheckPause? || w.Take?
  }

  predicate ClientHoldsMutex(c: Client) {
    c.LockedCheck? || c.LockedPush? || c.LockedLoadEmpty? || c.LockedLoadActive?
  }

  predicate IsBusy(w: Worker) {
    w.Taken? || w.InBody? || w.Retire?
  }

  /** The workers that `active_` counts. */
  function Busy(workers: map<Thread, Worker>): set<Thread> {
    set w | w in workers && IsBusy(workers[w])
  }

  ghost predicate MutexInv(p: Pool) {
    && (forall w | w in p.workers && HoldsMutex(p.workers[w]) :: p.mutex == OwnedByWorker(w))
    && (forall c | c in p.clients && ClientHoldsMutex(p.clients[c]) :: p.mutex == OwnedByClient(c))
  }

  /** What a worker may rely on at its place. */
  ghost predicate WorkerInv(p: Pool, w: Thread, at: Worker) {
    match at
    case CheckStop => p.stop || p.queue != []
    case CheckPause => p.queue != []
    case Take => p.queue != []
    case Taken(k) => k < |p.dequeued| && p.dequeued[k].worker == w && k !in p.finished && k !in p.started
    case InBody(k) => k < |p.dequeued| && p.dequeued[k].worker == w && k !in p.finished && k in p.started
    case Exited => p.stop && p.queue == []
    case _ => true
  }

  ghost predicate ClientInv(p: Pool, at: Client) {
    match at
    case LockedPush => forall w | w in p.workers :: !p.workers[w].Exited?
    case LockedLoadActive => p.queue == []
    case WaitedFor(n) => n <= p.accepted && forall k: Ticket | k < n :: k in p.finished
    case _ => true
  }

  predicate Holds(w: Worker, k: Ticket) {
    (w.Taken? || w.InBody?) && w.ticket == k
  }

  predicate Held(p: Pool, w: Thread, k: Ticket) {
    w in p.workers && Holds(p.workers[w], k)
  }

  /** Tickets leave the queue in the order of acceptance, each to one worker. */
  ghost predicate TicketsInv(p: Pool) {
    && |p.dequeued| + |p.queue| == p.accepted
    && (forall i | 0 <= i < |p.queue| :: p.queue[i] == |p.dequeued| + i)
    && (forall i | 0 <= i < |p.dequeued| :: p.dequeued[i].ticket == i)
    && (forall i | 0 <= i < |p.dequeued| :: i in p.finished || Held(p, p.dequeued[i].worker, i))
    && (forall k | k in p.finished :: k < |p.dequeued| && k in p.started)
  }

  ghost predicate StartedInv(p: Pool) {
    && (forall i, j | 0 <= i < j < |p.started| :: p.started[i] != p.started[j])
    && (forall k | k in p.started :: k < |p.dequeued|)
  }

  ghost predicate WorkersInv(p: Pool) {
    forall w | w in p.workers :: WorkerInv(p, w, p.workers[w])
  }

  ghost predicate ClientsInv(p: Pool) {
    forall c | c in p.clients :: ClientInv(p, p.clients[c])
  }

  ghost predicate Inv(p: Pool) {
    && MutexInv(p)
    && p.active == |Busy(p.workers)|
    && p.queued == |p.queue|
    && WorkersInv(p)
    && ClientsInv(p)
    && TicketsInv(p)
    && StartedInv(p)
  }

  function OneIf(b: bool): nat {
    if b then 1 else 0
  }

  lemma BusyMove(workers: map<Thread, Worker>, w: Thread, to: Worker)
    ensures |Busy(workers[w := to])| ==
            |Busy(workers)| + OneIf(IsBusy(to)) - OneIf(w in workers && IsBusy(workers[w]))
  {
    assert Busy(workers[w := to]) == if IsBusy(to) then Busy(workers) + {w} else Busy(workers) - {w};
  }

  /** The other workers and the clients do not notice a change that spares queue and histories. */
  lemma OthersKept(p: Pool, p': Pool, w: Thread)
    requires WorkersInv(p) && ClientsInv(p)
    requires p'.clients == p.clients && p'.workers.Keys == p.workers.Keys && w in p.workers
    requires forall u | u in p.workers && u != w :: p'.workers[u] == p.workers[u]
    requires p'.queue == p.queue && p'.dequeued == p.dequeued && p'.accepted == p.accepted
    requires p.finished == p'.finished && p.started == p'.started && p'.stop == p.stop
    requires p'.workers[w].Exited? ==> forall c | c in p.clients :: !p.clients[c].LockedPush?
    requires WorkerInv(p', w, p'.workers[w])
    ensures WorkersInv(p') && ClientsInv(p')
  {
    forall u | u in p'.workers ensures WorkerInv(p', u, p'.workers[u]) {
      if u != w { assert WorkerInv(p, u, p.workers[u]); }
    }
    forall c | c in p'.clients ensures ClientInv(p', p'.clients[c]) {
      assert ClientInv(p, p.clients[c]);
    }
  }

  /** A worker step that touches neither the queue nor the histories. */
  lemma WorkerMoved(p: Pool, p': Pool, w: Thread)
    requires Inv(p) && w in p.workers && w in p'.workers
    requires p' == Move(p, w, p'.workers[w]).(mutex := p'.mutex, active := p'.active, completed := p'.completed)
    requires !p.workers[w].Taken? && !p.workers[w].InBody? && !p'.workers[w].Exited?
    requires p.mutex.Nobody? || p.mutex == OwnedByWorker(w) || p'.mutex == p.mutex
    requires HoldsMutex(p'.workers[w]) ==> p'.mutex == OwnedByWorker(w)
    requires WorkerInv(p', w, p'.workers[w])
    requires p'.active == |Busy(p'.workers)|
    ensures Inv(p')
  {
    OthersKept(p, p', w);
    assert TicketsInv(p');
  }

  /** The loads of the wait predicate. */
  lemma PredicateInv(p: Pool, w: Thread)
    requires Inv(p) && w in p.workers
    requires var at := p.workers[w];
             at.Waiting? || at.LoadStop? || at.LoadPause? || at.LoadEmpty? || at.CheckPause? || at.Exited?
    ensures Inv(WorkerStep(p, w))
  {
    var p' := WorkerStep(p, w);
    BusyMove(p.workers, w, p'.workers[w]);
    assert WorkerInv(p, w, p.workers[w]);
    if p' != p {
      WorkerMoved(p, p', w);
    }
  }

  /** The two counters after a body. */
  lemma RetireInv(p: Pool, w: Thread)
    requires Inv(p) && w in p.workers && (p.workers[w].Retire? || p.workers[w].CountCompleted?)
    ensures Inv(WorkerStep(p, w))
  {
    var p' := WorkerStep(p, w);
    BusyMove(p.workers, w, p'.workers[w]);
    WorkerMoved(p, p', w);
  }

  lemma CheckStopInv(p: Pool, w: Thread)
    requires Inv(p) && w in p.workers && p.workers[w].CheckStop?
    ensures Inv(WorkerStep(p, w))
  {
    var p' := WorkerStep(p, w);
    assert WorkerInv(p, w, p.workers[w]);
    BusyMove(p.workers, w, p'.workers[w]);
    if p'.workers[w].Exited? {
      OthersKept(p, p', w);
      assert TicketsInv(p');
    } else {
      WorkerMoved(p, p', w);
    }
  }

  lemma TakeInv(p: Pool, w: Thread)
    requires Inv(p) && w in p.workers && p.workers[w].Take?
    ensures Inv(WorkerStep(p, w))
  {
    var p' := WorkerStep(p, w);
    BusyMove(p.workers, w, p'.workers[w]);
    assert WorkerInv(p, w, p.workers[w]);
    forall u | u in p'.workers ensures WorkerInv(p', u, p'.workers[u]) {
      if u != w { assert WorkerInv(p, u, p.workers[u]); }
    }
    forall c | c in p'.clients ensures ClientInv(p', p'.clients[c]) {
      assert ClientInv(p, p.clients[c]);
    }
    assert TicketsInv(p');
  }

  lemma StartInv(p: Pool, w: Thread)
    requires Inv(p) && w in p.workers && p.workers[w].Taken?
    ensures Inv(WorkerStep(p, w))
  {
    var p' := WorkerStep(p, w);
    BusyMove(p.workers, w, p'.workers[w]);
    assert WorkerInv(p, w, p.workers[w]);
    forall u | u in p'.workers ensures WorkerInv(p', u, p'.workers[u]) {
      if u != w { assert WorkerInv(p, u, p.workers[u]); }
    }
    forall c | c in p'.clients ensures ClientInv(p', p'.clients[c]) {
      assert ClientInv(p, p.clients[c]);
    }
    assert TicketsInv(p');
  }

  lemma FinishInv(p: Pool, w: Thread)
    requires Inv(p) && w in p.workers && p.workers[w].InBody?
    ensures Inv(WorkerStep(p, w))
  {
    var p' := WorkerStep(p, w);
    BusyMove(p.workers, w, p'.workers[w]);
    assert WorkerInv(p, w, p.workers[w]);
    forall u | u in p'.workers ensures WorkerInv(p', u, p'.workers[u]) {
      if u != w { assert WorkerInv(p, u, p.workers[u]); }
    }
    forall c | c in p'.clients ensures ClientInv(p', p'.clients[c]) {
      assert ClientInv(p, p.clients[c]);
    }
    assert TicketsInv(p');
  }

  lemma WorkerStepInv(p: Pool, w: Thread)
    requires Inv(p) && w in p.workers
    ensures Inv(WorkerStep(p, w))
  {
    match p.workers[w]
    case Take => TakeInv(p, w);
    case Taken(k) => StartInv(p, w);
    case InBody(k) => FinishInv(p, w);
    case CheckStop => CheckStopInv(p, w);
    case Retire => RetireInv(p, w);
    case CountCompleted => RetireInv(p, w);
    case _ => PredicateInv(p, w);
  }

  /** An idle pool with an empty queue has finished everything it accepted. */
  lemma IdleIsFinished(p: Pool)
    requires TicketsInv(p) && p.queue == []
    requires forall w | w in p.workers :: !p.workers[w].Taken? && !p.workers[w].InBody?
    ensures forall k: Ticket | k < p.accepted :: k in p.finished
  {
    forall k: Ticket | k < p.accepted ensures k in p.finished {
      assert p.dequeued[k].ticket == k;
    }
  }

  lemma ClientMoved(p: Pool, p': Pool, c: Thread)
    requires Inv(p) && c in p.clients && c in p'.clients
    requires p' == MoveClient(p, c, p'.clients[c]).(mutex := p'.mutex, refused := p'.refused)
    requires p'.mutex == p.mutex || (p.mutex.Nobody? && p'.mutex == OwnedByClient(c)) || p.mutex == OwnedByClient(c)
    requires ClientHoldsMutex(p'.clients[c]) ==> p'.mutex == OwnedByClient(c)
    requires ClientInv(p', p'.clients[c])
    ensures Inv(p')
  {
    forall u | u in p'.workers ensures WorkerInv(p', u, p'.workers[u]) {
      assert WorkerInv(p, u, p.workers[u]);
    }
    forall d | d in p'.clients ensures ClientInv(p', p'.clients[d]) {
      if d != c { assert ClientInv(p, p.clients[d]); }
    }
  }

  lemma AcquireInv(p: Pool, c: Thread)
    requires Inv(p) && c in p.clients
    requires var at := p.clients[c];
             at.Enqueuing? || at.WaitingAll? || at.LockedLoadEmpty? || at.WaitedFor?
    ensures Inv(ClientStep(p, c))
  {
    var p' := ClientStep(p, c);
    if p' != p {
      ClientMoved(p, p', c);
    }
  }

  lemma LockedCheckInv(p: Pool, c: Thread)
    requires Inv(p) && c in p.clients && p.clients[c].LockedCheck?
    ensures Inv(ClientStep(p, c))
  {
    assert !p.stop ==> forall w | w in p.workers :: WorkerInv(p, w, p.workers[w]) && !p.workers[w].Exited?;
    ClientMoved(p, ClientStep(p, c), c);
  }

  lemma LoadActiveInv(p: Pool, c: Thread)
    requires Inv(p) && c in p.clients && p.clients[c].LockedLoadActive?
    ensures Inv(ClientStep(p, c))
  {
    assert ClientInv(p, p.clients[c]);
    if p.active == 0 {
      assert forall w | w in p.workers && IsBusy(p.workers[w]) :: w in Busy(p.workers);
      IdleIsFinished(p);
    }
    ClientMoved(p, ClientStep(p, c), c);
  }

  lemma PushInv(p: Pool, c: Thread)
    requires Inv(p) && c in p.clients && p.clients[c].LockedPush?
    ensures Inv(ClientStep(p, c))
  {
    var p' := ClientStep(p, c);
    assert ClientInv(p, p.clients[c]);
    forall u | u in p'.workers ensures WorkerInv(p', u, p'.workers[u]) {
      assert WorkerInv(p, u, p.workers[u]);
    }
    forall d | d in p'.clients ensures ClientInv(p', p'.clients[d]) {
      if d != c { assert ClientInv(p, p.clients[d]); }
    }
  }

  lemma ClientStepInv(p: Pool, c: Thread)
    requires Inv(p)
    ensures Inv(ClientStep(p, c))
  {
    match At(p, c)
    case Free =>
    case LockedPush => PushInv(p, c);
    case LockedLoadActive => LoadActiveInv(p, c);
    case LockedCheck => LockedCheckInv(p, c);
    case _ => AcquireInv(p, c);
  }

  lemma CallInv(p: Pool, c: Thread, to: Client)
    requires Inv(p) && At(p, c).Free? && (to.Enqueuing? || to.WaitingAll?)
    ensures Inv(MoveClient(p, c, to))
  {
    var p' := MoveClient(p, c, to);
    forall u | u in p'.workers ensures WorkerInv(p', u, p'.workers[u]) {
      assert WorkerInv(p, u, p.workers[u]);
    }
    forall d | d in p'.clients ensures ClientInv(p', p'.clients[d]) {
      if d != c { assert ClientInv(p, p.clients[d]); }
    }
  }

  lemma FlagsInv(p: Pool, stop: bool, pause: bool)
    requires Inv(p) && (p.stop ==> stop)
    ensures Inv(p.(stop := stop, pause := pause))
  {
    var p' := p.(stop := stop, pause := pause);
    forall u | u in p'.workers ensures WorkerInv(p', u, p'.workers[u]) {
      assert WorkerInv(p, u, p.workers[u]);
    }
    forall d | d in p'.clients ensures ClientInv(p', p'.clients[d]) {
      assert ClientInv(p, p.clients[d]);
    }
  }

  lemma ResizeInv(p: Pool, w: Thread)
    requires Inv(p) && w !in p.workers && p.mutex.Nobody?
    ensures Inv(Move(p, w, Waiting))
  {
    var p' := Move(p, w, Waiting);
    BusyMove(p.workers, w, Waiting);
    forall u | u in p'.workers ensures WorkerInv(p', u, p'.workers[u]) {
      if u != w { assert WorkerInv(p, u, p.workers[u]); }
    }
    forall d | d in p'.clients ensures ClientInv(p', p'.clients[d]) {
      assert ClientInv(p, p.clients[d]);
    }
    assert TicketsInv(p');
  }

  lemma StepInv(p: Pool, a: Action)
    requires Inv(p)
    ensures Inv(Step(p, a))
  {
    match a
    case Work(w) => if w in p.workers { WorkerStepInv(p, w); }
    case Continue(c) => ClientStepInv(p, c);
    case CallEnqueue(c) => if At(p, c).Free? { CallInv(p, c, Enqueuing); }
    case CallWaitAll(c) => if At(p, c).Free? { CallInv(p, c, WaitingAll); }
    case Pause => FlagsInv(p, p.stop, true);
    case Resume => FlagsInv(p, p.stop, false);
    case Resize(w) => if w !in p.workers && p.mutex.Nobody? { ResizeInv(p, w); }
    case Shutdown => FlagsInv(p, true, p.pause);
  }

  lemma InitialInv(n: nat)
    ensures Inv(Initial(n))
  {
    assert Busy(Initial(n).workers) == {};
  }

  lemma {:induction false} RunInv(n: nat, actions: seq<Action>)
    ensures Inv(Run(Initial(n), actions))
  {
    if actions == [] {
      InitialInv(n);
    } else {
      RunInv(n, actions[..|actions| - 1]);
      StepInv(Run(Initial(n), actions[..|actions| - 1]), actions[|actions| - 1]);
    }
  }

  // ---------------------------------------------------------------- what every run guarantees

  /**
   * Every accepted task is either still queued or was dequeued, in the order of acceptance, and no
   * body starts twice.
   */
  lemma DequeuedInOrderAndStartedOnce(n: nat, actions: seq<Action>)
    ensures var p := Run(Initial(n), actions);
            && (forall i | 0 <= i < |p.dequeued| :: p.dequeued[i].ticket == i)
            && (forall i | 0 <= i < |p.queue| :: p.queue[i] == |p.dequeued| + i)
            && |p.dequeued| + |p.queue| == p.accepted
            && (forall i, j | 0 <= i < j < |p.started| :: p.started[i] != p.started[j])
            && (forall k | k in p.started :: k < |p.dequeued|)
  {
    RunInv(n, actions);
  }

  /** A worker that is about to take the front of the queue finds one. */
  lemma FrontIsNeverEmpty(n: nat, actions: seq<Action>, w: Thread)
    ensures var p := Run(Initial(n), actions);
            w in p.workers && p.workers[w].Take? ==> p.queue != [] && p.mutex == OwnedByWorker(w)
  {
    RunInv(n, actions);
    var p := Run(Initial(n), actions);
    if w in p.workers {
      assert WorkerInv(p, w, p.workers[w]);
    }
  }

  /** `wait_all` returns only when every task accepted up to its last look has finished running. */
  lemma WaitAllWaitsForAll(n: nat, actions: seq<Action>, c: Thread)
    ensures var p := Run(Initial(n), actions);
            && (At(p, c).WaitedFor? ==> forall k: Ticket | k < At(p, c).accepted :: k in p.finished)
            && (At(p, c).LockedLoadActive? && At(Step(p, Continue(c)), c).WaitedFor? ==>
                  At(Step(p, Continue(c)), c).accepted == p.accepted)
  {
    RunInv(n, actions);
  }

  lemma WorkerStepKeepsWorkers(p: Pool, u: Thread, w: Thread)
    requires u in p.workers && w in p.workers
    ensures w in WorkerStep(p, u).workers
  {
    match p.workers[u]
    case Waiting =>
    case LoadStop =>
    case LoadPause =>
    case LoadEmpty =>
    case CheckStop =>
    case CheckPause =>
    case Take =>
    case Taken(ticket) =>
    case InBody(ticket) =>
    case Retire =>
    case CountCompleted =>
    case Exited =>
  }

  lemma ClientStepKeepsWorkers(p: Pool, c: Thread)
    ensures ClientStep(p, c).workers == p.workers
  {}

  lemma StepKeepsWorkers(p: Pool, a: Action, w: Thread)
    requires w in p.workers
    ensures w in Step(p, a).workers
  {
    match a
    case Work(u) => if u in p.workers { WorkerStepKeepsWorkers(p, u, w); }
    case Continue(c) => ClientStepKeepsWorkers(p, c);
    case _ =>
  }

  lemma {:induction false} WorkersStay(n: nat, actions: seq<Action>, w: Thread)
    requires w < n
    ensures w in Run(Initial(n), actions).workers
  {
    if actions != [] {
      WorkersStay(n, actions[..|actions| - 1], w);
      StepKeepsWorkers(Run(Initial(n), actions[..|actions| - 1]), actions[|actions| - 1], w);
    }
  }

  /** Once a pool with at least one worker has lost all of them, everything it accepted has run. */
  lemma DrainedWhenAllExited(n: nat, actions: seq<Action>)
    requires n > 0
    ensures var p := Run(Initial(n), actions);
            (forall w | w in p.workers :: p.workers[w].Exited?) ==>
              forall k: Ticket | k < p.accepted :: k in p.finished && k in p.started
  {
    RunInv(n, actions);
    WorkersStay(n, actions, 0);
    var p := Run(Initial(n), actions);
    if forall w | w in p.workers :: p.workers[w].Exited? {
      assert WorkerInv(p, 0, p.workers[0]);
      IdleIsFinished(p);
    }
  }

  /** `active_` and `queued_` are exact: the workers between a take and its retirement, the queue's length. */
  lemma CountersAreExact(n: nat, actions: seq<Action>)
    ensures var p := Run(Initial(n), actions);
            p.active == |Busy(p.workers)| && p.queued == |p.queue|
  {
    RunInv(n, actions);
  }
}
