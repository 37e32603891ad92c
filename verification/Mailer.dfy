/** The asynchronous mailer: a bounded queue, a pool of workers with retries, and a shutdown
    that drains. The inner mailer is an oracle that succeeds or fails each attempt. */
module Mailer {
  import opened Base
  import opened Backoff

  datatype Kind = OTP | PasswordReset
  datatype Job = Job(kind: Kind, payload: string, receiver: string)

  datatype Result = Sent | Failed | Abandoned

  /** Inside deliver: about to make an attempt, or sleeping after a failed one. */
  datatype Worker =
    | Idle
    | Sending(job: Job, attempt: nat)
    | Sleeping(job: Job, attempt: nat)
    | Exited

  datatype Signal = Succeeds | Fails | TimerFires | StopSeen

  /** One step of deliver, and the job's fate if that step ends it. */
  function Deliver(retries: nat, w: Worker, g: Signal): (Worker, seq<Result>) {
    match (w, g)
    case (Sending(_, _), Succeeds) => (Idle, [Sent])
    case (Sending(j, a), Fails) => if a == retries then (Idle, [Failed]) else (Sleeping(j, a), [])
    case (Sleeping(j, a), TimerFires) => (Sending(j, a + 1), [])
    case (Sleeping(_, _), StopSeen) => (Idle, [Abandoned])
    case (_, _) => (w, [])
  }

  predicate Accepts(w: Worker, g: Signal, stopped: bool) {
    match g
    case Succeeds => w.Sending?
    case Fails => w.Sending?
    case TimerFires => w.Sleeping?
    case StopSeen => w.Sleeping? && stopped
  }

  datatype State = State(
    queue: seq<Job>,
    workers: seq<Worker>,
    stopped: bool,                 // stop channel closed
    closed: bool,                  // queue channel closed, after stop
    accepted: seq<Job>,            // every job enqueue took, in order
    taken: seq<Job>,               // every job a worker received, in order
    tried: multiset<Job>,          // jobs with at least one attempt made
    sent: multiset<Job>, failed: multiset<Job>, abandoned: multiset<Job>,
    panics: nat)                   // sends on the closed queue

  datatype Action =
    | Enqueue(j: Job)
    | Take(w: nat)
    | Signalled(w: nat, g: Signal)
    | Stop
    | Close
    | Exit(w: nat)

  predicate Enabled(s: State, a: Action) {
    match a
    case Enqueue(_) => true
    case Take(w) => w < |s.workers| && s.workers[w].Idle? && s.queue != []
    case Signalled(w, g) => w < |s.workers| && Accepts(s.workers[w], g, s.stopped)
    case Stop => true
    case Close => s.stopped
    case Exit(w) => w < |s.workers| && s.workers[w].Idle? && s.closed && s.queue == []
  }

  function Next(s: State, a: Action, capacity: nat, retries: nat): State
    requires Enabled(s, a)
  {
    match a
    case Enqueue(j) =>
      if s.closed then s.(panics := s.panics + 1)
      else if |s.queue| < capacity then s.(queue := s.queue + [j], accepted := s.accepted + [j]) else s
    case Take(w) =>
      s.(queue := s.queue[1..], taken := s.taken + [s.queue[0]], workers := s.workers[w := Sending(s.queue[0], 1)])
    case Signalled(w, g) =>
      var j, before := s.workers[w].job, s.workers[w];
      var (w', fate) := Deliver(retries, before, g);
      s.(workers := s.workers[w := w'],
         tried := if before.Sending? && before.attempt == 1 then s.tried + multiset{j} else s.tried,
         sent := if fate == [Sent] then s.sent + multiset{j} else s.sent,
         failed := if fate == [Failed] then s.failed + multiset{j} else s.failed,
         abandoned := if fate == [Abandoned] then s.abandoned + multiset{j} else s.abandoned)
    case Stop => s.(stopped := true)
    case Close => s.(closed := true)
    case Exit(w) => s.(workers := s.workers[w := Exited])
  }

  predicate Busy(w: Worker) { w.Sending? || w.Sleeping? }

  /** A job whose first attempt has been made but whose fate is open. */
  predicate Retrying(w: Worker) { w.Sleeping? || (w.Sending? && w.attempt > 1) }

  /** Copies of job x in flight over the whole pool, and those with a first attempt behind them. */
  function InFlight(ws: seq<Worker>, x: Job): nat {
    if ws == [] then 0
    else var n := |ws| - 1; InFlight(ws[..n], x) + if Busy(ws[n]) && ws[n].job == x then 1 else 0
  }

  function TriedInFlight(ws: seq<Worker>, x: Job): nat {
    if ws == [] then 0
    else var n := |ws| - 1; TriedInFlight(ws[..n], x) + if Retrying(ws[n]) && ws[n].job == x then 1 else 0
  }

  lemma {:induction false} UpdateWorker(ws: seq<Worker>, i: nat, w: Worker, x: Job)
    requires i < |ws|
    ensures InFlight(ws[i := w], x) + (if Busy(ws[i]) && ws[i].job == x then 1 else 0)
              == InFlight(ws, x) + (if Busy(w) && w.job == x then 1 else 0)
    ensures TriedInFlight(ws[i := w], x) + (if Retrying(ws[i]) && ws[i].job == x then 1 else 0)
              == TriedInFlight(ws, x) + (if Retrying(w) && w.job == x then 1 else 0)
    decreases |ws|
  {
    var n := |ws| - 1;
    if i < n {
      UpdateWorker(ws[..n], i, w, x);
      assert ws[i := w][..n] == ws[..n][i := w];
    } else {
      assert ws[i := w][..n] == ws[..n];
    }
  }

  /** Order, capacity, attempt numbers and the meaning of an exited worker. */
  ghost predicate Shape(s: State, capacity: nat, retries: nat) {
    && s.accepted == s.taken + s.queue
    && |s.queue| <= capacity && (s.closed ==> s.stopped)
    && (forall i | 0 <= i < |s.workers| :: WorkerOk(s, s.workers[i], retries))
  }

  predicate WorkerOk(s: State, w: Worker, retries: nat) {
    match w
    case Sending(_, a) => 1 <= a <= retries
    case Sleeping(_, a) => 1 <= a < retries
    case Exited => s.closed && s.queue == []
    case Idle => true
  }

  /** Every copy of x that was taken is in flight or met exactly one fate; likewise those attempted. */
  ghost predicate Balanced(s: State, x: Job) {
    && multiset(s.taken)[x] == InFlight(s.workers, x) + s.sent[x] + s.failed[x] + s.abandoned[x]
    && s.tried[x] == TriedInFlight(s.workers, x) + s.sent[x] + s.failed[x] + s.abandoned[x]
    && (s.abandoned[x] > 0 ==> s.stopped)
  }

  lemma TakeKeeps(s: State, w: nat, capacity: nat, retries: nat, x: Job)
    requires Shape(s, capacity, retries) && Balanced(s, x) && Enabled(s, Take(w)) && retries >= 1
    ensures var s' := Next(s, Take(w), capacity, retries); Shape(s', capacity, retries) && Balanced(s', x)
  {
    hide InFlight, TriedInFlight;
    var s' := Next(s, Take(w), capacity, retries);
    assert s.taken + s.queue == s.taken + [s.queue[0]] + s.queue[1..];
    assert forall i | 0 <= i < |s.workers| :: WorkerOk(s, s.workers[i], retries);
    forall i | 0 <= i < |s'.workers| ensures WorkerOk(s', s'.workers[i], retries) {
      if i != w { assert s'.workers[i] == s.workers[i] && WorkerOk(s, s.workers[i], retries); }
    }
    UpdateWorker(s.workers, w, Sending(s.queue[0], 1), x);
    assert multiset(s.taken + [s.queue[0]])[x] == multiset(s.taken)[x] + if s.queue[0] == x then 1 else 0;
  }

  lemma SignalShape(s: State, w: nat, g: Signal, capacity: nat, retries: nat)
    requires Shape(s, capacity, retries) && Enabled(s, Signalled(w, g))
    ensures Shape(Next(s, Signalled(w, g), capacity, retries), capacity, retries)
  {
    var s' := Next(s, Signalled(w, g), capacity, retries);
    assert WorkerOk(s, s.workers[w], retries);
    forall i | 0 <= i < |s'.workers| ensures WorkerOk(s', s'.workers[i], retries) {
      if i != w { assert s'.workers[i] == s.workers[i] && WorkerOk(s, s.workers[i], retries); }
    }
  }

  lemma SignalKeeps(s: State, w: nat, g: Signal, capacity: nat, retries: nat, x: Job)
    requires Shape(s, capacity, retries) && Balanced(s, x) && Enabled(s, Signalled(w, g)) && retries >= 1
    ensures var s' := Next(s, Signalled(w, g), capacity, retries); Shape(s', capacity, retries) && Balanced(s', x)
  {
    hide InFlight, TriedInFlight;
    SignalShape(s, w, g, capacity, retries);
    assert WorkerOk(s, s.workers[w], retries);
    hide Shape;
    UpdateWorker(s.workers, w, Deliver(retries, s.workers[w], g).0, x);
  }

  lemma OtherKeeps(s: State, a: Action, capacity: nat, retries: nat, x: Job)
    requires Shape(s, capacity, retries) && Balanced(s, x) && Enabled(s, a) && (a.Enqueue? || a.Stop? || a.Close? || a.Exit?)
    ensures var s' := Next(s, a, capacity, retries); Shape(s', capacity, retries) && Balanced(s', x)
  {
    hide InFlight, TriedInFlight;
    var s' := Next(s, a, capacity, retries);
    if a.Exit? { UpdateWorker(s.workers, a.w, Exited, x); }
    if a.Enqueue? { assert s.taken + (s.queue + [a.j]) == s.taken + s.queue + [a.j]; }
    forall i | 0 <= i < |s'.workers| ensures WorkerOk(s', s'.workers[i], retries) {
      assert WorkerOk(s, s.workers[i], retries);
    }
  }

  lemma NextKeepsInv(s: State, a: Action, capacity: nat, retries: nat, x: Job)
    requires Shape(s, capacity, retries) && Balanced(s, x) && Enabled(s, a) && retries >= 1
    ensures var s' := Next(s, a, capacity, retries);
            Shape(s', capacity, retries) && Balanced(s', x) && |s'.workers| == |s.workers|
  {
    hide Shape, Balanced;
    match a
    case Take(w) => TakeKeeps(s, w, capacity, retries, x);
    case Signalled(w, g) => SignalKeeps(s, w, g, capacity, retries, x);
    case _ => OtherKeeps(s, a, capacity, retries, x);
  }

  function Started(n: nat): State {
    State([], seq(n, _ => Idle), false, false, [], [], multiset{}, multiset{}, multiset{}, multiset{}, 0)
  }

  ghost predicate IsRun(run: seq<State>, acts: seq<Action>, workers: nat, capacity: nat, retries: nat) {
    && |run| == |acts| + 1 && run[0] == Started(workers)
    && forall i | 0 <= i < |acts| :: Enabled(run[i], acts[i]) && run[i + 1] == Next(run[i], acts[i], capacity, retries)
  }

  lemma {:induction false} IdlePool(ws: seq<Worker>, x: Job)
    requires forall i | 0 <= i < |ws| :: !Busy(ws[i])
    ensures InFlight(ws, x) == 0 && TriedInFlight(ws, x) == 0
  {
    if ws != [] { IdlePool(ws[..|ws| - 1], x); }
  }

  lemma {:induction false} RunKeepsInv(run: seq<State>, acts: seq<Action>, workers: nat, capacity: nat, retries: nat, i: nat, x: Job)
    requires IsRun(run, acts, workers, capacity, retries) && i < |run| && retries >= 1
    ensures Shape(run[i], capacity, retries) && Balanced(run[i], x) && |run[i].workers| == workers
  {
    if i == 0 {
      IdlePool(run[0].workers, x);
    } else {
      hide Shape, Balanced, Next;
      RunKeepsInv(run, acts, workers, capacity, retries, i - 1, x);
      NextKeepsInv(run[i - 1], acts[i - 1], capacity, retries, x);
    }
  }

  /** In every interleaving no copy of any job is lost or duplicated, jobs are taken in the order they were
      accepted, and none is abandoned before Shutdown. */
  lemma JobsConserved(run: seq<State>, acts: seq<Action>, workers: nat, capacity: nat, retries: nat, i: nat, x: Job)
    requires IsRun(run, acts, workers, capacity, retries) && i < |run| && retries >= 1
    ensures var s := run[i];
            && multiset(s.accepted)[x] == multiset(s.queue)[x] + InFlight(s.workers, x) + s.sent[x] + s.failed[x] + s.abandoned[x]
            && s.taken <= s.accepted && s.accepted[|s.taken|..] == s.queue && |s.queue| <= capacity
            && (s.abandoned[x] > 0 ==> s.stopped)
  {
    RunKeepsInv(run, acts, workers, capacity, retries, i, x);
    var s := run[i];
    assert s.accepted[..|s.taken|] == s.taken && s.accepted[|s.taken|..] == s.queue;
    assert multiset(s.taken + s.queue) == multiset(s.taken) + multiset(s.queue);
  }

  /** When every worker has exited, which is when Shutdown returns nil, the queue is empty and every accepted job
      was attempted and met its fate. */
  lemma ShutdownDrains(run: seq<State>, acts: seq<Action>, workers: nat, capacity: nat, retries: nat, i: nat, x: Job)
    requires IsRun(run, acts, workers, capacity, retries) && i < |run| && retries >= 1 && workers >= 1
    requires forall w | 0 <= w < |run[i].workers| :: run[i].workers[w].Exited?
    ensures var s := run[i];
            && s.stopped && s.closed && s.queue == [] && s.taken == s.accepted
            && s.tried[x] == multiset(s.accepted)[x] == s.sent[x] + s.failed[x] + s.abandoned[x]
  {
    RunKeepsInv(run, acts, workers, capacity, retries, i, x);
    var s := run[i];
    IdlePool(s.workers, x);
    assert WorkerOk(s, s.workers[0], retries);
    assert s.accepted == s.taken;
  }

  /** Sends that found the queue closed. */
  function LateSends(run: seq<State>, acts: seq<Action>, i: nat): nat
    requires i <= |acts| <= |run|
  {
    if i == 0 then 0
    else LateSends(run, acts, i - 1) + if acts[i - 1].Enqueue? && run[i - 1].closed then 1 else 0
  }

  lemma PanicStep(s: State, a: Action, capacity: nat, retries: nat)
    requires Enabled(s, a)
    ensures var s' := Next(s, a, capacity, retries);
            && s'.panics == s.panics + (if a.Enqueue? && s.closed then 1 else 0)
            && (a.Enqueue? && s.closed ==> s'.accepted == s.accepted && s'.queue == s.queue)
  {
  }

  /** Enqueue panics exactly on the sends that come after Shutdown closed the queue; such a send is never accepted.
      A server that stops its callers first has none. */
  lemma {:induction false} PanicsAreLateSends(run: seq<State>, acts: seq<Action>, workers: nat, capacity: nat, retries: nat, i: nat)
    requires IsRun(run, acts, workers, capacity, retries) && i < |run|
    ensures run[i].panics == LateSends(run, acts, i)
    ensures i > 0 && acts[i - 1].Enqueue? && run[i - 1].closed ==> run[i].accepted == run[i - 1].accepted && run[i].queue == run[i - 1].queue
  {
    if i > 0 {
      hide Next, Enabled;
      PanicsAreLateSends(run, acts, workers, capacity, retries, i - 1);
      PanicStep(run[i - 1], acts[i - 1], capacity, retries);
    }
  }

  /** The worker's own view of one job: what deliver saw, step by step. */
  function DeliverAll(retries: nat, w: Worker, gs: seq<Signal>): (Worker, seq<Result>) {
    if gs == [] then (w, [])
    else
      var n := |gs| - 1;
      var (w1, r1) := DeliverAll(retries, w, gs[..n]);
      var (w2, r2) := Deliver(retries, w1, gs[n]);
      (w2, r1 + r2)
  }

  lemma DeliverMore(retries: nat, w: Worker, gs: seq<Signal>, g: Signal)
    ensures DeliverAll(retries, w, gs + [g]) ==
              var (w1, r1) := DeliverAll(retries, w, gs);
              var (w2, r2) := Deliver(retries, w1, g);
              (w2, r1 + r2)
    ensures DeliverAll(retries, w, gs).1 == [] ==>
              DeliverAll(retries, w, gs + [g]) == Deliver(retries, DeliverAll(retries, w, gs).0, g)
  {
    assert (gs + [g])[..|gs|] == gs;
    assert [] + Deliver(retries, DeliverAll(retries, w, gs).0, g).1 == Deliver(retries, DeliverAll(retries, w, gs).0, g).1;
  }

  /** NewAsyncOTPMailer's defaults. */
  function OrDefault(n: int, d: nat): (r: nat)
    requires d > 0
    ensures r > 0 && (n > 0 ==> r == n)
  {
    if n <= 0 then d else n
  }

  /** Jobs that other workers took. */
  function Elsewhere(jobs: seq<Job>): (r: seq<(Job, Option<Result>)>)
    ensures |r| == |jobs| && forall i | 0 <= i < |jobs| :: r[i] == (jobs[i], None)
  {
    seq(|jobs|, i requires 0 <= i < |jobs| => (jobs[i], None))
  }

  /** Other workers took position i of the queue when they took others(n) jobs from position n on. */
  predicate TakesFrom(others: nat -> nat, n: nat, i: nat) { n <= i < n + others(n) }

  ghost predicate TakenByOthers(others: nat -> nat, i: nat) { exists n: nat :: TakesFrom(others, n, i) }

  /** Job i met its fate at attempt k: every earlier attempt failed, and the fate is what that attempt, the limit
      or the stop made it. */
  ghost predicate Attempted(retries: nat, attemptOk: (nat, nat) -> bool, stopSeen: (nat, nat) -> bool, i: nat, fate: Result, k: nat) {
    && 1 <= k <= retries && (forall a: nat | 1 <= a < k :: !attemptOk(i, a))
    && (fate == Sent <==> attemptOk(i, k)) && (fate == Failed ==> k == retries) && (fate == Abandoned ==> stopSeen(i, k) && k < retries)
  }

  ghost predicate Delivered(retries: nat, attemptOk: (nat, nat) -> bool, stopSeen: (nat, nat) -> bool, i: nat, fate: Result) {
    exists k: nat :: Attempted(retries, attemptOk, stopSeen, i, fate, k)
  }

  /** How many of so many jobs fit. */
  function Fitting(room: nat, jobs: nat): (n: nat)
    ensures n <= jobs && n <= room
  {
    if jobs <= room then jobs else room
  }

  datatype Enqueued = Accepted | QueueFull | Panicked

  class AsyncOTPMailer {
    const workers: nat
    const capacity: nat
    const retries: nat
    const backoff: nat
    var queue: seq<Job>
    var stopped: bool
    var closed: bool

    ghost predicate Valid() reads this {
      (closed ==> stopped) && workers > 0 && capacity > 0 && retries > 0 && backoff > 0 && |queue| <= capacity
    }

    constructor (workers: int, queueSize: int, retries: int, backoff: int)
      ensures Valid() && queue == [] && !stopped && !closed
      ensures this.workers == OrDefault(workers, 2) && this.capacity == OrDefault(queueSize, 64) && this.retries == OrDefault(retries, 3)
      ensures this.backoff == OrDefault(backoff, 1_000_000_000)
    {
      this.workers := OrDefault(workers, 2);
      this.capacity := OrDefault(queueSize, 64);
      this.retries := OrDefault(retries, 3);
      this.backoff := OrDefault(backoff, 1_000_000_000);
      queue, stopped, closed := [], false, false;
    }

    /** Never blocks: a saturated queue refuses, a closed one panics. */
    method EnqueueJob(j: Job) returns (r: Enqueued)
      requires Valid()
      modifies this`queue
      ensures Valid()
      ensures r.Panicked? <==> closed
      ensures r.Accepted? <==> !closed && |old(queue)| < capacity
      ensures queue == if r.Accepted? then old(queue) + [j] else old(queue)
    {
      if closed {
        return Panicked;
      }
      if |queue| == capacity {
        return QueueFull;
      }
      queue := queue + [j];
      r := Accepted;
    }

    /** The retry loop. attemptOk says which attempts succeed, stopSeen during which sleeps the stop arrives. */
    method DeliverJob(j: Job, attemptOk: nat -> bool, stopSeen: nat -> bool)
      returns (fate: Result, attempts: nat, waits: seq<int>, ghost log: seq<Signal>)
      requires Valid()
      ensures 1 <= attempts <= retries
      ensures DeliverAll(retries, Sending(j, 1), log) == (Idle, [fate])
      ensures forall i: nat | 1 <= i < attempts :: !attemptOk(i)
      ensures fate == Sent <==> attemptOk(attempts)
      ensures fate == Failed ==> attempts == retries
      ensures fate == Abandoned ==> stopSeen(attempts) && attempts < retries
      ensures |waits| == (if fate == Abandoned then attempts else attempts - 1)
      ensures forall i | 0 <= i < |waits| :: waits[i] == Wait(backoff, i + 1)
      ensures Sum(waits) <= CAP * (retries - 1)
    {
      hide Wrap64, Pow2, Sum;
      attempts, waits, log, fate := 0, [], [], Failed;
      var attempt := 1;
      while attempt <= retries
        invariant 1 <= attempt <= retries && attempts == attempt - 1 == |waits|
        invariant DeliverAll(retries, Sending(j, 1), log) == (Sending(j, attempt), [])
        invariant forall i: nat | 1 <= i < attempt :: !attemptOk(i)
        invariant forall i | 0 <= i < |waits| :: waits[i] == Wait(backoff, i + 1)
      {
        attempts := attempt;
        ghost var g := if attemptOk(attempt) then Succeeds else Fails;
        DeliverMore(retries, Sending(j, 1), log, g);
        log := log + [g];
        if attemptOk(attempt) {
          fate := Sent;
          break;
        }
        if attempt == retries {
          fate := Failed;
          break;
        }
        waits := waits + [Wait(backoff, attempt)];
        g := if stopSeen(attempt) then StopSeen else TimerFires;
        DeliverMore(retries, Sending(j, 1), log, g);
        log := log + [g];
        if stopSeen(attempt) {
          fate := Abandoned;
          break;
        }
        attempt := attempt + 1;
      }
      SumBounded(waits);
      assert CAP * |waits| <= CAP * (retries - 1);
    }

    /** Shutdown up to its wait: stop is closed first, then the queue; between the two, callers may still enqueue
        what fits. A second call changes nothing. */
    method CloseQueue(between: seq<Job>)
      requires Valid()
      modifies this
      ensures Valid() && closed
      ensures queue == if old(closed) then old(queue)
                       else old(queue) + between[..Fitting(capacity - |old(queue)|, |between|)]
    {
      if closed {
        return;
      }
      stopped := true;
      var i := 0;
      while i < |between|
        invariant 0 <= i <= |between| && Valid() && stopped && !closed
        invariant queue == old(queue) + between[..Fitting(capacity - |old(queue)|, i)]
      {
        var _ := EnqueueJob(between[i]);
        i := i + 1;
      }
      closed := true;
    }

    /** One worker's loop over the closed queue while others take from it too: before each receive they take as
        many jobs as `others` says. The log has every job once, in queue order, with its fate if this worker took it. */
    method Work(attemptOk: (nat, nat) -> bool, stopSeen: (nat, nat) -> bool, others: nat -> nat)
      returns (log: seq<(Job, Option<Result>)>)
      requires Valid() && closed
      modifies this`queue
      ensures Valid() && queue == []
      ensures |log| == |old(queue)| && forall i | 0 <= i < |log| :: log[i].0 == old(queue)[i]
      ensures forall i: nat | i < |log| && log[i].1.None? :: TakenByOthers(others, i)
      ensures forall i: nat | i < |log| && log[i].1.Some? :: Delivered(retries, attemptOk, stopSeen, i, log[i].1.value)
    {
      hide DeliverAll, Wait, Sum, Elsewhere;
      log := [];
      while queue != []
        invariant Valid() && |log| + |queue| == |old(queue)| && queue == old(queue)[|log|..]
        invariant forall i | 0 <= i < |log| :: log[i].0 == old(queue)[i]
        invariant forall i: nat | i < |log| && log[i].1.None? :: TakenByOthers(others, i)
        invariant forall i: nat | i < |log| && log[i].1.Some? :: Delivered(retries, attemptOk, stopSeen, i, log[i].1.value)
        decreases |queue|
      {
        var n := |log|;
        var taken := if others(n) < |queue| then others(n) else |queue|;
        forall i: nat | n <= i < n + taken ensures TakenByOthers(others, i) { assert TakesFrom(others, n, i); }
        log := log + Elsewhere(queue[..taken]);
        queue := queue[taken..];
        assert queue == old(queue)[|log|..];
        if queue != [] {
          var j, at := queue[0], |log|;
          queue := queue[1..];
          var succeeds := (a: nat) => attemptOk(at, a);
          var fate, attempts, _, _ := DeliverJob(j, succeeds, (a: nat) => stopSeen(at, a));
          forall a: nat | 1 <= a < attempts ensures !attemptOk(at, a) { assert !succeeds(a); }
          assert Attempted(retries, attemptOk, stopSeen, at, fate, attempts);
          log := log + [(j, Some(fate))];
        }
      }
    }
  }
}
