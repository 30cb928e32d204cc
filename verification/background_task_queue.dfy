/** The bounded FIFO work queue (`BackgroundTaskQueue`): a channel of
    `InvokePackage`s whose writers wait while it is full. */
module BackgroundTaskQueue {
  import opened Results
  import opened Runtime
  import opened InvokePackage

  /** A queue of capacity `cap` holding `items`, oldest first. */
  datatype Queue = Queue(cap: Int32, items: seq<Package>) {

    /** What the constructor and the bounded channel guarantee. */
    predicate Valid() {
      0 < cap && |items| <= cap
    }

    /** A write would have to wait for a free slot. */
    predicate Full() {
      |items| >= cap
    }
  }

  /** The constructor: a non-positive `Capacity` is rejected with an
      argument error; otherwise the queue starts empty. */
  function Create(capacity: Int32): (r: Result<Queue>)
    ensures r.Err? <==> capacity <= 0
    ensures r.Err? ==> r.error == InvalidArgument("Capacity")
    ensures r.Ok? ==> r.value.Valid() && r.value.cap == capacity && r.value.items == []
  {
    if capacity <= 0 then Err(InvalidArgument("Capacity")) else Ok(Queue(capacity, []))
  }

  /** What becomes of one `QueueBackgroundWorkItemAsync` call: the item is
      written at the back, or the call is still waiting for a free slot
      (nothing written, nothing dropped), or it threw. */
  datatype Write = Written(queue: Queue) | Waiting | Rejected(error: Error)

  /** `Writer.WriteAsync` on a bounded channel in wait mode. */
  function WriteAsync(q: Queue, p: Package): (w: Write)
    requires q.Valid()
    ensures w.Waiting? <==> q.Full()
    ensures !w.Rejected?
    ensures w.Written? ==> w.queue.Valid() && w.queue.cap == q.cap && w.queue.items == q.items + [p]
  {
    if q.Full() then Waiting else Written(q.(items := q.items + [p]))
  }

  /** The one-argument overload: enqueue an existing package. */
  function EnqueuePackage(q: Queue, workItem: Option<Package>): (w: Write)
    requires q.Valid()
    ensures w.Rejected? <==> workItem.None?
    ensures w.Rejected? ==> w.error == ArgumentNull("workItem")
    ensures w.Waiting? <==> workItem.Some? && q.Full()
    ensures w.Written? ==> w.queue.Valid() && w.queue.cap == q.cap && w.queue.items == q.items + [workItem.value]
  {
    match workItem
    case None => Rejected(ArgumentNull("workItem"))
    case Some(p) => WriteAsync(q, p)
  }

  /** The three-argument overload: wrap the request in a new package with
      retry off. `id` is the identity of the package object it allocates. */
  function EnqueueRequest(q: Queue, request: Option<Request>, handlerType: TypeDesc, token: Token, id: nat): (w: Write)
    requires q.Valid()
    ensures w.Rejected? <==> request.None?
    ensures w.Rejected? ==> w.error == ArgumentNull("request")
    ensures w.Waiting? <==> request.Some? && q.Full()
    ensures w.Written? ==>
      && w.queue.Valid() && w.queue.cap == q.cap
      && |w.queue.items| == |q.items| + 1
      && w.queue.items[..|q.items|] == q.items
      && var p := w.queue.items[|q.items|];
         && p.id == id && p.request == request.value && p.handlerType == handlerType
         && !p.enableRetry && p.cancelToken == DefaultToken
  {
    match request
    case None => Rejected(ArgumentNull("request"))
    case Some(r) => WriteAsync(q, InvokePackage.New(id, r, handlerType, token))
  }

  /** The four-argument overload: as the three-argument one, with the
      package's retry flag set to `enableRetry`. */
  function EnqueueRequestWithRetry(q: Queue, request: Option<Request>, handlerType: TypeDesc, token: Token, enableRetry: bool, id: nat): (w: Write)
    requires q.Valid()
    ensures w.Rejected? <==> request.None?
    ensures w.Rejected? ==> w.error == ArgumentNull("request")
    ensures w.Waiting? <==> request.Some? && q.Full()
    ensures w.Written? ==>
      && w.queue.Valid() && w.queue.cap == q.cap
      && |w.queue.items| == |q.items| + 1
      && w.queue.items[..|q.items|] == q.items
      && var p := w.queue.items[|q.items|];
         && p.id == id && p.request == request.value && p.handlerType == handlerType
         && p.enableRetry == enableRetry && p.cancelToken == DefaultToken
  {
    match request
    case None => Rejected(ArgumentNull("request"))
    case Some(r) => WriteAsync(q, InvokePackage.NewWithRetry(id, r, handlerType, token, enableRetry))
  }

  /** What becomes of one `DequeueAsync` call: the oldest item and the rest
      of the queue, or a reader that waits because the queue is empty. */
  datatype Read = Item(item: Package, rest: Queue) | Empty

  function Dequeue(q: Queue): (r: Read)
    requires q.Valid()
    ensures r.Empty? <==> q.items == []
    ensures r.Item? ==>
      && r.item == q.items[0]
      && r.rest.items == q.items[1..]
      && r.rest.cap == q.cap
      && r.rest.Valid() && !r.rest.Full()
  {
    if q.items == [] then Empty else Item(q.items[0], q.(items := q.items[1..]))
  }

  /** Write the packages `ps` one after another; `None` as soon as one of the
      writes would have to wait. */
  function EnqueueAll(q: Queue, ps: seq<Package>): (r: Option<Queue>)
    requires q.Valid()
    ensures r.Some? ==> r.value.Valid() && r.value.cap == q.cap
    decreases |ps|
  {
    if ps == [] then Some(q)
    else match EnqueuePackage(q, Some(ps[0]))
      case Written(q') => EnqueueAll(q', ps[1..])
      case _ => None
  }

  /** Dequeue until the reader would wait; the items in the order read. */
  function DrainAll(q: Queue): (r: seq<Package>)
    requires q.Valid()
    decreases |q.items|
  {
    match Dequeue(q)
    case Empty => []
    case Item(p, rest) => [p] + DrainAll(rest)
  }

  /** The queue never holds more than its capacity: a run of writes goes
      through exactly when it fits, appends in order, and otherwise some
      write waits instead of an item being dropped. */
  lemma {:induction false} EnqueueAllFits(q: Queue, ps: seq<Package>)
    requires q.Valid()
    ensures EnqueueAll(q, ps).Some? <==> |q.items| + |ps| <= q.cap
    ensures EnqueueAll(q, ps).Some? ==> EnqueueAll(q, ps).value.items == q.items + ps
    decreases |ps|
  {
    if ps != [] {
      if !q.Full() {
        var q' := q.(items := q.items + [ps[0]]);
        EnqueueAllFits(q', ps[1..]);
        assert q.items + ps == q'.items + ps[1..];
      }
    }
  }

  /** Reading drains the items oldest first. */
  lemma {:induction false} DrainAllIsFifo(q: Queue)
    requires q.Valid()
    ensures DrainAll(q) == q.items
    decreases |q.items|
  {
    if q.items != [] {
      DrainAllIsFifo(q.(items := q.items[1..]));
    }
  }

  /** An empty queue of capacity `c` accepts exactly `c` writes, and the
      items come out in the order they went in. */
  lemma FillThenDrain(capacity: Int32, ps: seq<Package>)
    requires 0 < capacity
    ensures Create(capacity) == Ok(Queue(capacity, []))
    ensures EnqueueAll(Queue(capacity, []), ps).Some? <==> |ps| <= capacity
    ensures |ps| <= capacity ==> DrainAll(EnqueueAll(Queue(capacity, []), ps).value) == ps
  {
    var q := Queue(capacity, []);
    EnqueueAllFits(q, ps);
    assert q.items + ps == ps;
    if |ps| <= capacity {
      DrainAllIsFifo(EnqueueAll(q, ps).value);
    }
  }

  /** The write/read sequence of the queue's interleaving test: write i1,
      read i1; write i1 and i2, read i1; write i3, read i2, then i3. */
  lemma InterleavedWriteRead(i1: Package, i2: Package, i3: Package)
    ensures
      var q0 := Queue(10, []);
      var w1 := EnqueuePackage(q0, Some(i1));
      && w1.Written?
      && var r1 := Dequeue(w1.queue);
      && r1.Item? && r1.item == i1
      && var w2 := EnqueuePackage(r1.rest, Some(i1));
      && w2.Written?
      && var w3 := EnqueuePackage(w2.queue, Some(i2));
      && w3.Written?
      && var r2 := Dequeue(w3.queue);
      && r2.Item? && r2.item == i1
      && var w4 := EnqueuePackage(r2.rest, Some(i3));
      && w4.Written?
      && var r3 := Dequeue(w4.queue);
      && r3.Item? && r3.item == i2
      && var r4 := Dequeue(r3.rest);
      && r4.Item? && r4.item == i3 && r4.rest.items == []
  {
  }

  /** Backpressure at capacity 2: X and Y are written at once, Z waits;
      one read returns X and frees the slot Z then takes. */
  lemma BackpressureAtCapacityTwo(x: Package, y: Package, z: Package)
    ensures
      var wx := EnqueuePackage(Queue(2, []), Some(x));
      && wx.Written?
      && var wy := EnqueuePackage(wx.queue, Some(y));
      && wy.Written?
      && EnqueuePackage(wy.queue, Some(z)) == Waiting
      && var r := Dequeue(wy.queue);
      && r.Item? && r.item == x
      && var wz := EnqueuePackage(r.rest, Some(z));
      && wz.Written? && wz.queue.items == [y, z]
  {
  }

  /** The process-wide statics: `Capacity` and the singleton instance. */
  datatype Host = Host(capacity: Int32, singleton: Option<Queue>) {
    predicate Valid() {
      singleton.Some? ==> singleton.value.Valid()
    }
  }

  /** The static `Capacity` property starts at 10 and no instance exists. */
  const InitialHost: Host := Host(10, None)

  /** Assigning the static `Capacity` property. */
  function SetCapacity(h: Host, capacity: Int32): (h': Host)
    ensures h'.capacity == capacity && h'.singleton == h.singleton
  {
    h.(capacity := capacity)
  }

  /** `Instance()` in the non-test build: the first successful call builds
      the queue from the current `Capacity` and keeps it; every later call
      returns that same queue. A failed first construction stores nothing. */
  function Instance(h: Host): (r: Result<Host>)
    requires h.Valid()
    ensures h.singleton.Some? ==> r == Ok(h)
    ensures h.singleton.None? ==> (r.Err? <==> h.capacity <= 0)
    ensures r.Err? ==> r.error == InvalidArgument("Capacity")
    ensures r.Ok? ==> r.value.Valid() && r.value.singleton.Some? && r.value.capacity == h.capacity
    ensures r.Ok? && h.singleton.None? ==> r.value.singleton.value == Queue(h.capacity, [])
  {
    match h.singleton
    case Some(_) => Ok(h)
    case None =>
      var q :- Create(h.capacity);
      Ok(h.(singleton := Some(q)))
  }

  /** `Capacity` is read only by the first construction: once an instance
      exists, changing `Capacity` and asking again yields the same queue,
      even for a capacity that construction would reject. */
  lemma InstanceIgnoresLaterCapacity(h: Host, c: Int32)
    requires h.Valid() && Instance(h).Ok?
    ensures Instance(SetCapacity(Instance(h).value, c)).Ok?
    ensures Instance(SetCapacity(Instance(h).value, c)).value.singleton == Instance(h).value.singleton
  {
  }

  /** Construction fails for every non-positive capacity and succeeds for
      every positive one, starting from the initial statics. */
  lemma InstanceFromInitial(c: Int32)
    ensures Instance(SetCapacity(InitialHost, c)).Ok? <==> 0 < c
    ensures 0 < c ==> Instance(SetCapacity(InitialHost, c)).value.singleton == Some(Queue(c, []))
  {
  }
}
