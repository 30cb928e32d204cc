/** The provider and the dispatcher sharing the one queue instance, with
    package identities handed out by the runtime's allocator. */
module Pipeline {
  import opened Results
  import opened Runtime
  import opened InvokePackage
  import opened BackgroundTaskQueue
  import opened BackgroundTaskProvider
  import opened TaskQueuedHostedService

  /** The shared queue, the dispatcher's state, the libraries scanned for
      handlers, and the identity the next new package object will get. */
  datatype State = State(queue: Queue, service: Service, libs: seq<Library>, nextId: nat)

  /** Every queued package and every ledger key was allocated before
      `nextId`, and no package sits in the queue twice. */
  predicate Inv(st: State) {
    && st.queue.Valid() && st.service.Valid()
    && (forall i :: 0 <= i < |st.queue.items| ==> st.queue.items[i].id < st.nextId)
    && (forall i, j :: 0 <= i < j < |st.queue.items| ==> st.queue.items[i].id != st.queue.items[j].id)
    && (st.service.ledger.Some? ==> forall k :: k in st.service.ledger.value ==> k < st.nextId)
  }

  /** Start-up: the first `Instance()` call with the configured capacity,
      and the service. Without registered options the container uses the
      options-less constructor; with options, the options constructor. */
  function Start(capacity: Int32, options: Option<Options>, libs: seq<Library>): (r: Result<State>)
    ensures r.Err? <==> capacity <= 0
    ensures r.Ok? ==> Inv(r.value) && r.value.queue == Queue(capacity, []) && r.value.service.options == options
    ensures r.Ok? && options.None? ==> r.value.service == NewService()
  {
    var h :- Instance(SetCapacity(InitialHost, capacity));
    var s := if options.None? then NewService() else NewServiceWithOptions(options).value;
    Ok(State(h.singleton.value, s, libs, 0))
  }

  /** A `Send` call and the state after it: only a completed write changes
      the queue; every call allocates one identity. */
  datatype Produced = Produced(write: Write, state: State)

  function Produce(st: State, request: Option<Request>, token: Token): (r: Produced)
    requires Inv(st)
    ensures Inv(r.state)
    ensures r.write == Send(st.queue, st.libs, request, token, st.nextId)
    ensures r.state.service == st.service && r.state.nextId == st.nextId + 1
    ensures r.state.queue == (if r.write.Written? then r.write.queue else st.queue)
  {
    var w := Send(st.queue, st.libs, request, token, st.nextId);
    Produced(w, st.(queue := if w.Written? then w.queue else st.queue, nextId := st.nextId + 1))
  }

  function ProduceWithRetry(st: State, request: Option<Request>, enableRetry: bool, token: Token): (r: Produced)
    requires Inv(st)
    ensures Inv(r.state)
    ensures r.write == SendWithRetry(st.queue, st.libs, request, enableRetry, token, st.nextId)
    ensures r.state.service == st.service && r.state.nextId == st.nextId + 1
    ensures r.state.queue == (if r.write.Written? then r.write.queue else st.queue)
  {
    var w := SendWithRetry(st.queue, st.libs, request, enableRetry, token, st.nextId);
    Produced(w, st.(queue := if w.Written? then w.queue else st.queue, nextId := st.nextId + 1))
  }

  /** One dispatcher iteration on the shared state; the package it
      re-enqueues is never a duplicate of one still queued. */
  function Dispatch(st: State, stopRequested: bool, outcome: HandlerOutcome): (r: Option<State>)
    requires Inv(st)
    ensures r.Some? ==> Inv(r.value)
    ensures r.None? <==> stopRequested || st.queue.items == []
    ensures r.Some? ==> |r.value.queue.items| <= |st.queue.items| && r.value.nextId == st.nextId
  {
    var step := Step(st.service, st.queue, stopRequested, outcome);
    if step.Dispatched? then
      DispatchKeepsInv(st, stopRequested, outcome);
      Some(st.(queue := step.queue, service := step.service))
    else
      None
  }

  /** A dispatcher iteration keeps the invariant: the only package it can
      re-enqueue is the one it just removed from the front. */
  lemma DispatchKeepsInv(st: State, stopRequested: bool, outcome: HandlerOutcome)
    requires Inv(st) && Step(st.service, st.queue, stopRequested, outcome).Dispatched?
    ensures
      var step := Step(st.service, st.queue, stopRequested, outcome);
      Inv(st.(queue := step.queue, service := step.service))
  {
    var step := Step(st.service, st.queue, stopRequested, outcome);
    var old_ := st.queue.items;
    var new_ := step.queue.items;
    assert |new_| == |old_| - 1 + (if step.requeued then 1 else 0);
    forall i, j | 0 <= i < j < |new_|
      ensures new_[i].id != new_[j].id
    {
      if j == |new_| - 1 && step.requeued {
        assert new_[i] == old_[i + 1];
        assert new_[j] == old_[0];
      } else {
        assert new_[i] == old_[i + 1] && new_[j] == old_[j + 1];
      }
    }
    forall i | 0 <= i < |new_|
      ensures new_[i].id < st.nextId
    {
      if i < |old_| - 1 {
        assert new_[i] == old_[i + 1];
      } else {
        assert new_[i] == old_[0];
      }
    }
  }
}
