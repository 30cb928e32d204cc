/** The dispatcher (`TaskQueuedHostedService`): drains the shared queue,
    runs each package's handler, and on failure consults the retry ledger to
    re-enqueue the package or drop it. */
module TaskQueuedHostedService {
  import opened Results
  import opened Runtime
  import opened InvokePackage
  import opened BackgroundTaskQueue

  /** `TaskQueuedOptions`: retry off, at most 3 retries and a capacity of 10
      unless configured otherwise. The dispatcher never reads `capacity`. */
  datatype Options = Options(enableFalidRetry: bool, maxRetryTime: Int32, capacity: Int32)

  const DefaultOptions: Options := Options(false, 3, 10)

  /** The failure-count dictionary, keyed by package identity. */
  type Ledger = map<nat, Int32>

  /** The service's state: its options (null for the options-less
      constructor) and its ledger (null unless retry was enabled when the
      service was built). */
  datatype Service = Service(options: Option<Options>, ledger: Option<Ledger>) {

    /** Whenever the retry gate can open, the ledger exists. */
    predicate Valid() {
      options.Some? && options.value.enableFalidRetry ==> ledger.Some?
    }
  }

  /** The constructor without options. */
  function NewService(): (s: Service)
    ensures s.Valid() && s.options.None? && s.ledger.None?
  {
    Service(None, None)
  }

  /** The constructor with options: it reads `EnableFalidRetry` from the
      options it is given (so null options throw) and creates an empty
      ledger only when retry is on. */
  function NewServiceWithOptions(options: Option<Options>): (r: Result<Service>)
    ensures r.Err? <==> options.None?
    ensures r.Err? ==> r.error == NullReference
    ensures r.Ok? ==> r.value.Valid() && r.value.options == options
    ensures r.Ok? ==> (r.value.ledger.Some? <==> options.value.enableFalidRetry)
    ensures r.Ok? && r.value.ledger.Some? ==> r.value.ledger.value == map[]
  {
    match options
    case None => Err(NullReference)
    case Some(o) => Ok(Service(options, if o.enableFalidRetry then Some(map[]) else None))
  }

  /** The condition under which a failed package goes to `BackToQueued`. */
  predicate RetryGate(s: Service, p: Package) {
    s.options.Some? && s.options.value.enableFalidRetry && p.enableRetry
  }

  /** A ledger together with the count `IncFalidCount` returned. */
  datatype Counted = Counted(ledger: Ledger, count: Int32)

  /** `IncFalidCount`: an absent package gets count 1, a present one its old
      count plus one (C# `int`, unchecked); the new count is stored and
      returned and no other entry changes. */
  function IncFalidCount(ledger: Ledger, p: Package): (r: Counted)
    ensures p.id !in ledger ==> r.count == 1
    ensures p.id in ledger && ledger[p.id] < MaxInt32 ==> r.count == ledger[p.id] + 1
    ensures p.id in ledger && ledger[p.id] == MaxInt32 ==> r.count == MinInt32
    ensures r.ledger.Keys == ledger.Keys + {p.id}
    ensures r.ledger[p.id] == r.count
    ensures forall k :: k in ledger && k != p.id ==> r.ledger[k] == ledger[k]
  {
    if p.id in ledger then
      var c := UncheckedInc(ledger[p.id]);
      Counted(ledger[p.id := c], c)
    else
      Counted(ledger[p.id := 1], 1)
  }

  /** Two packages with the same contents are separate ledger entries:
      counting one leaves the other's count as it was. */
  lemma CountsAreKeyedByIdentity(ledger: Ledger, p: Package, p': Package)
    requires p' == p.(id := p'.id) && p'.id != p.id
    ensures (p'.id in IncFalidCount(ledger, p).ledger) <==> p'.id in ledger
    ensures p'.id in ledger ==> IncFalidCount(ledger, p).ledger[p'.id] == ledger[p'.id]
  {
  }

  /** What one `BackToQueued` call did to the ledger and the queue. `Blocked`
      is a re-enqueue still waiting for a free slot. */
  datatype Requeue = Requeued(ledger: Ledger, queue: Queue) | Blocked(ledger: Ledger) | Dropped(ledger: Ledger)

  /** `BackToQueued`: count the failure; while the count is within
      `MaxRetryTime` put the package back at the end of the queue, otherwise
      remove its ledger entry and drop it. */
  function BackToQueued(s: Service, q: Queue, p: Package): (r: Requeue)
    requires s.Valid() && q.Valid() && RetryGate(s, p)
    ensures
      var c := IncFalidCount(s.ledger.value, p);
      && (c.count <= s.options.value.maxRetryTime ==> !r.Dropped? && r.ledger == c.ledger)
      && (c.count > s.options.value.maxRetryTime ==> r == Dropped(s.ledger.value - {p.id}))
      && (r.Blocked? <==> c.count <= s.options.value.maxRetryTime && q.Full())
    ensures r.Requeued? ==> r.queue.Valid() && r.queue.cap == q.cap && r.queue.items == q.items + [p]
  {
    var c := IncFalidCount(s.ledger.value, p);
    if c.count <= s.options.value.maxRetryTime then
      match EnqueuePackage(q, Some(p))
      case Written(q') => Requeued(c.ledger, q')
      case _ => Blocked(c.ledger)
    else
      assert c.ledger - {p.id} == s.ledger.value - {p.id};
      Dropped(c.ledger - {p.id})
  }

  /** The handler run, abstracted to its result. A failure covers every
      exception raised inside the spawned task's try block, including the
      failure to resolve the handler from the service scope. */
  datatype HandlerOutcome = Succeeded | Failed

  /** One iteration of `BackgroundProcessing`. */
  datatype StepResult =
    | Stopped                  // the stopping token was signalled: the loop is left
    | Idle                     // the queue is empty: the dequeue waits
    | Dispatched(item: Package, service: Service, queue: Queue, requeued: bool)

  /** One iteration, with the handler run inlined: dequeue the oldest
      package, run its handler, and on failure go through the retry gate. */
  function Step(s: Service, q: Queue, stopRequested: bool, outcome: HandlerOutcome): (r: StepResult)
    requires s.Valid() && q.Valid()
    ensures r.Stopped? <==> stopRequested
    ensures !stopRequested ==> (r.Idle? <==> q.items == [])
    ensures r.Dispatched? ==>
      && r.item == q.items[0]
      && r.service.Valid() && r.service.options == s.options
      && r.queue.Valid() && r.queue.cap == q.cap
      && r.queue.items == q.items[1..] + (if r.requeued then [r.item] else [])
    ensures r.Dispatched? && (outcome == Succeeded || !RetryGate(s, r.item)) ==>
      r.service == s && !r.requeued
    ensures r.Dispatched? && outcome == Failed && RetryGate(s, r.item) ==>
      var c := IncFalidCount(s.ledger.value, r.item);
      && (r.requeued <==> c.count <= s.options.value.maxRetryTime)
      && r.service.ledger == Some(if r.requeued then c.ledger else s.ledger.value - {r.item.id})
  {
    if stopRequested then Stopped
    else match Dequeue(q)
      case Empty => Idle
      case Item(p, rest) =>
        if outcome == Failed && RetryGate(s, p) then
          match BackToQueued(s, rest, p)
          case Requeued(l, q') => Dispatched(p, s.(ledger := Some(l)), q', true)
          case Dropped(l) => Dispatched(p, s.(ledger := Some(l)), rest, false)
          case Blocked(_) => assert false; Idle
        else
          Dispatched(p, s, rest, false)
  }

  /** The service built without options never re-enqueues anything and never
      touches a ledger, whatever the handler does. */
  lemma OptionlessServiceNeverRetries(q: Queue, outcome: HandlerOutcome)
    requires q.Valid() && q.items != []
    ensures Step(NewService(), q, false, outcome).Dispatched?
    ensures !Step(NewService(), q, false, outcome).requeued
    ensures Step(NewService(), q, false, outcome).service == NewService()
    ensures Step(NewService(), q, false, outcome).queue.items == q.items[1..]
  {
  }

  /** A success after earlier failures leaves the stale count in the ledger. */
  lemma SuccessKeepsStaleCount(s: Service, q: Queue, k: Int32)
    requires s.Valid() && q.Valid() && q.items != []
    requires s.ledger.Some? && q.items[0].id in s.ledger.value && s.ledger.value[q.items[0].id] == k
    ensures Step(s, q, false, Succeeded).service.ledger.value[q.items[0].id] == k
  {
  }

  /** One handler run of the loop: the package dispatched and whether it
      was put back on the queue. */
  datatype Attempt = Attempt(item: Package, requeued: bool)

  /** How often the package with identity `id` was run in a trace. */
  function Runs(trace: seq<Attempt>, id: nat): (n: nat)
    ensures n <= |trace|
  {
    if trace == [] then 0
    else (if trace[0].item.id == id then 1 else 0) + Runs(trace[1..], id)
  }

  /** How often the package with identity `id` was re-enqueued in a trace;
      never more often than it was run. */
  function Requeues(trace: seq<Attempt>, id: nat): (n: nat)
    ensures n <= Runs(trace, id)
  {
    if trace == [] then 0
    else (if trace[0].item.id == id && trace[0].requeued then 1 else 0) + Requeues(trace[1..], id)
  }

  /** The dispatcher run against a handler that always fails, for at most
      `fuel` iterations or until the queue is empty: the final state and the
      trace of handler runs. */
  datatype Run = Run(service: Service, queue: Queue, trace: seq<Attempt>)

  function RunFailing(s: Service, q: Queue, fuel: nat): (r: Run)
    requires s.Valid() && q.Valid()
    ensures r.service.Valid() && r.queue.Valid() && r.queue.cap == q.cap
    ensures r.service.options == s.options
    ensures |r.trace| <= fuel && |r.queue.items| <= |q.items|
    ensures forall a :: a in r.trace && a.requeued ==> RetryGate(s, a.item)
    decreases fuel
  {
    if fuel == 0 then Run(s, q, [])
    else
      var step := Step(s, q, false, Failed);
      if step.Dispatched? then
        var r := RunFailing(step.service, step.queue, fuel - 1);
        Run(r.service, r.queue, [Attempt(step.item, step.requeued)] + r.trace)
      else
        Run(s, q, [])
  }

  /** Once a package is neither queued nor counted, further iterations
      never run it and never count it again. */
  lemma {:induction false} AbsentPackageStaysAbsent(s: Service, q: Queue, p: Package, fuel: nat)
    requires s.Valid() && q.Valid() && RetryGate(s, p)
    requires forall i :: 0 <= i < |q.items| ==> q.items[i].id != p.id
    requires p.id !in s.ledger.value
    ensures
      var r := RunFailing(s, q, fuel);
      && Runs(r.trace, p.id) == 0 && Requeues(r.trace, p.id) == 0
      && (forall i :: 0 <= i < |r.queue.items| ==> r.queue.items[i].id != p.id)
      && p.id !in r.service.ledger.value
    decreases fuel
  {
    var step := Step(s, q, false, Failed);
    if fuel > 0 && step.Dispatched? {
      var q' := step.queue;
      forall i | 0 <= i < |q'.items|
        ensures q'.items[i].id != p.id
      {
        if i < |q.items| - 1 {
          assert q'.items[i] == q.items[i + 1];
        } else {
          assert q'.items[i] == q.items[0];
        }
      }
      AbsentPackageStaysAbsent(step.service, q', p, fuel - 1);
      var r' := RunFailing(step.service, q', fuel - 1);
      assert RunFailing(s, q, fuel).trace == [Attempt(step.item, step.requeued)] + r'.trace;
      assert ([Attempt(step.item, step.requeued)] + r'.trace)[1..] == r'.trace;
    }
  }

  /** A failing iteration that runs another package moves `p` one place
      forward, keeps it the only package with its identity, and leaves its
      ledger entry as it was. */
  lemma OtherPackageRuns(s: Service, q: Queue, p: Package, pos: nat)
    requires s.Valid() && q.Valid() && RetryGate(s, p)
    requires 0 < pos < |q.items| && q.items[pos] == p
    requires forall i :: 0 <= i < |q.items| && i != pos ==> q.items[i].id != p.id
    ensures
      var step := Step(s, q, false, Failed);
      && step.Dispatched? && step.item.id != p.id
      && step.queue.items[pos - 1] == p
      && (forall i :: 0 <= i < |step.queue.items| && i != pos - 1 ==> step.queue.items[i].id != p.id)
      && (p.id in step.service.ledger.value <==> p.id in s.ledger.value)
      && (p.id in s.ledger.value ==> step.service.ledger.value[p.id] == s.ledger.value[p.id])
  {
    var step := Step(s, q, false, Failed);
    var q' := step.queue;
    assert q'.items[pos - 1] == q.items[pos];
    forall i | 0 <= i < |q'.items| && i != pos - 1
      ensures q'.items[i].id != p.id
    {
      if i < |q.items| - 1 {
        assert q'.items[i] == q.items[i + 1];
      } else {
        assert q'.items[i] == q.items[0];
      }
    }
  }

  /** A failing iteration that runs `p` itself, after `k` earlier failures
      within the bound: its count becomes `k + 1`, and it goes to the back
      of the queue while that is within `MaxRetryTime`, otherwise it leaves
      both queue and ledger. No other queued package has its identity. */
  lemma PackageRunsItself(s: Service, q: Queue, p: Package, k: nat)
    requires s.Valid() && q.Valid() && RetryGate(s, p)
    requires k < MaxInt32
    requires 0 < |q.items| && q.items[0] == p
    requires forall i :: 0 < i < |q.items| ==> q.items[i].id != p.id
    requires if k == 0 then p.id !in s.ledger.value else p.id in s.ledger.value && s.ledger.value[p.id] == k
    ensures
      var step := Step(s, q, false, Failed);
      && step.Dispatched? && step.item == p
      && (step.requeued <==> k + 1 <= s.options.value.maxRetryTime)
      && (forall i :: 0 <= i < |q.items| - 1 ==> step.queue.items[i].id != p.id)
      && (step.requeued ==>
            && step.queue.items[|step.queue.items| - 1] == p
            && p.id in step.service.ledger.value && step.service.ledger.value[p.id] == k + 1)
      && (!step.requeued ==>
            && |step.queue.items| == |q.items| - 1
            && p.id !in step.service.ledger.value)
  {
    var step := Step(s, q, false, Failed);
    assert IncFalidCount(s.ledger.value, p).count == k + 1;
    forall i | 0 <= i < |q.items| - 1
      ensures step.queue.items[i].id != p.id
    {
      assert step.queue.items[i] == q.items[i + 1];
    }
  }

  /** `rounds` passes over a queue no longer than `len`: `rounds * len`
      iterations, defined by recursion so that proofs about it stay linear. */
  function Rounds(rounds: nat, len: nat): (n: nat)
    ensures n == rounds * len
  {
    if rounds == 0 then 0 else len + Rounds(rounds - 1, len)
  }

  /** The inductive core of the retry bound. Package `p`, the only one with
      its identity, sits at position `pos` of a queue no longer than `len`
      and has already failed `k <= MaxRetryTime` times. The other packages
      may be anything. With enough iterations, `p` runs `MaxRetryTime + 1 - k`
      more times, is re-enqueued `MaxRetryTime - k` more times, and ends
      neither queued nor counted. */
  lemma {:induction false} FailingPackageFrom(s: Service, q: Queue, p: Package, pos: nat, k: nat, len: nat, fuel: nat)
    requires s.Valid() && q.Valid() && RetryGate(s, p)
    requires s.options.value.maxRetryTime < MaxInt32
    requires k <= s.options.value.maxRetryTime
    requires pos < |q.items| <= len && q.items[pos] == p
    requires forall i :: 0 <= i < |q.items| && i != pos ==> q.items[i].id != p.id
    requires if k == 0 then p.id !in s.ledger.value else p.id in s.ledger.value && s.ledger.value[p.id] == k
    requires fuel >= pos + 1 + Rounds(s.options.value.maxRetryTime - k, len)
    ensures
      var r := RunFailing(s, q, fuel);
      && Runs(r.trace, p.id) == s.options.value.maxRetryTime + 1 - k
      && Requeues(r.trace, p.id) == s.options.value.maxRetryTime - k
      && (forall i :: 0 <= i < |r.queue.items| ==> r.queue.items[i].id != p.id)
      && p.id !in r.service.ledger.value
    decreases fuel
  {
    var max := s.options.value.maxRetryTime;
    var step := Step(s, q, false, Failed);
    var s', q' := step.service, step.queue;
    var r' := RunFailing(s', q', fuel - 1);
    var a := Attempt(step.item, step.requeued);
    assert RunFailing(s, q, fuel).trace == [a] + r'.trace;
    assert ([a] + r'.trace)[1..] == r'.trace;
    if pos > 0 {
      OtherPackageRuns(s, q, p, pos);
      FailingPackageFrom(s', q', p, pos - 1, k, len, fuel - 1);
    } else {
      PackageRunsItself(s, q, p, k);
      if k + 1 <= max {
        FailingPackageFrom(s', q', p, |q'.items| - 1, k + 1, len, fuel - 1);
      } else {
        AbsentPackageStaysAbsent(s', q', p, fuel - 1);
      }
    }
  }

  /** With `MaxRetryTime = N` (0 <= N < int.MaxValue) and a handler that
      always fails, a retry-enabled package anywhere in a queue of distinct
      identities is run N + 1 times and re-enqueued exactly N times, and
      then leaves both the queue and the ledger. The other packages may or
      may not be retry-enabled; `pos + 1 + N * |queue|` iterations suffice. */
  lemma AlwaysFailingPackageRetriesExactlyMax(s: Service, q: Queue, p: Package, pos: nat, fuel: nat)
    requires s.Valid() && q.Valid() && RetryGate(s, p)
    requires 0 <= s.options.value.maxRetryTime < MaxInt32
    requires pos < |q.items| && q.items[pos] == p
    requires forall i, j :: 0 <= i < j < |q.items| ==> q.items[i].id != q.items[j].id
    requires p.id !in s.ledger.value
    requires fuel >= pos + 1 + Rounds(s.options.value.maxRetryTime, |q.items|)
    ensures
      var r := RunFailing(s, q, fuel);
      && Runs(r.trace, p.id) == s.options.value.maxRetryTime + 1
      && Requeues(r.trace, p.id) == s.options.value.maxRetryTime
      && (forall i :: 0 <= i < |r.queue.items| ==> r.queue.items[i].id != p.id)
      && p.id !in r.service.ledger.value
  {
    FailingPackageFrom(s, q, p, pos, 0, |q.items|, fuel);
  }

  /** The case of a package alone in the queue: it runs `MaxRetryTime + 1 - k`
      more times in all, and the loop then finds the queue empty and the
      ledger as it was apart from that package's entry. */
  lemma {:induction false} LoneFailingPackageFrom(s: Service, q: Queue, p: Package, k: nat, fuel: nat)
    requires s.Valid() && q.Valid() && q.items == [p] && RetryGate(s, p)
    requires s.options.value.maxRetryTime < MaxInt32
    requires k <= s.options.value.maxRetryTime
    requires if k == 0 then p.id !in s.ledger.value else p.id in s.ledger.value && s.ledger.value[p.id] == k
    requires fuel > s.options.value.maxRetryTime - k
    ensures
      var r := RunFailing(s, q, fuel);
      && |r.trace| == s.options.value.maxRetryTime + 1 - k
      && Requeues(r.trace, p.id) == s.options.value.maxRetryTime - k
      && r.queue.items == []
      && r.service.ledger == Some(s.ledger.value - {p.id})
    decreases s.options.value.maxRetryTime - k
  {
    var max := s.options.value.maxRetryTime;
    var step := Step(s, q, false, Failed);
    var c := IncFalidCount(s.ledger.value, p);
    assert c.count == k + 1;
    var s', q' := step.service, step.queue;
    var r' := RunFailing(s', q', fuel - 1);
    assert RunFailing(s, q, fuel).trace == [Attempt(p, step.requeued)] + r'.trace;
    assert ([Attempt(p, step.requeued)] + r'.trace)[1..] == r'.trace;
    if k + 1 <= max {
      assert step.requeued && q'.items == [p];
      assert s'.ledger.value[p.id] == k + 1;
      LoneFailingPackageFrom(s', q', p, k + 1, fuel - 1);
      assert s'.ledger.value - {p.id} == s.ledger.value - {p.id};
    } else {
      assert !step.requeued && q'.items == [];
      if fuel - 1 > 0 {
        assert Step(s', q', false, Failed).Idle?;
      }
    }
  }

  /** Alone in the queue, the package's N + 1 runs are all the loop does;
      afterwards the queue is empty and the service is exactly as before. */
  lemma LoneFailingPackageIsDroppedCleanly(s: Service, q: Queue, p: Package, fuel: nat)
    requires s.Valid() && q.Valid() && q.items == [p] && RetryGate(s, p)
    requires 0 <= s.options.value.maxRetryTime < MaxInt32
    requires p.id !in s.ledger.value
    requires fuel > s.options.value.maxRetryTime
    ensures
      var r := RunFailing(s, q, fuel);
      && |r.trace| == s.options.value.maxRetryTime + 1
      && Requeues(r.trace, p.id) == s.options.value.maxRetryTime
      && r.queue.items == []
      && r.service == s
  {
    LoneFailingPackageFrom(s, q, p, 0, fuel);
    assert s.ledger.value - {p.id} == s.ledger.value;
  }

  /** Without the retry gate a failing package runs once and is dropped:
      nothing is re-enqueued and the ledger is untouched. */
  lemma {:induction false} FailingPackageWithoutRetryRunsOnce(s: Service, q: Queue, p: Package, fuel: nat)
    requires s.Valid() && q.Valid() && q.items == [p] && !RetryGate(s, p)
    requires fuel > 0
    ensures
      var r := RunFailing(s, q, fuel);
      r.trace == [Attempt(p, false)] && r.queue.items == [] && r.service == s
  {
    var step := Step(s, q, false, Failed);
    if fuel > 1 {
      assert Step(step.service, step.queue, false, Failed).Idle?;
    }
  }

  /** With `MaxRetryTime = int.MaxValue` the unchecked increment lets the
      count wrap to `int.MinValue`, which is within the bound, so the package
      is re-enqueued once more instead of being dropped. */
  lemma CountWrapsAtInt32Max(s: Service, q: Queue, p: Package)
    requires s.Valid() && q.Valid() && q.items == [p] && RetryGate(s, p)
    requires s.options.value.maxRetryTime == MaxInt32
    requires p.id in s.ledger.value && s.ledger.value[p.id] == MaxInt32
    ensures Step(s, q, false, Failed).requeued
    ensures Step(s, q, false, Failed).service.ledger.value[p.id] == MinInt32
  {
  }
}
