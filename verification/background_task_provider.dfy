/** The producer facade (`BackgroundTaskProvider`): resolves the handler type
    of a request by scanning the application's own assemblies, then wraps the
    request in a package and enqueues it. */
module BackgroundTaskProvider {
  import opened Results
  import opened Runtime
  import opened InvokePackage
  import opened BackgroundTaskQueue

  /** A compile-time library of the dependency context; `types` stands for
      what `Assembly.Load(name).GetTypes()` would return. */
  datatype Library = Library(name: string, kind: string, types: seq<TypeDesc>)

  /** A loaded assembly and its types, in reflection order. */
  datatype Assembly = Assembly(name: string, types: seq<TypeDesc>)

  /** The libraries `GetCurrentPathAssembly` loads: not a framework library
      (name starting "Microsoft" or "System") and of type "project". */
  predicate IsProjectLibrary(l: Library) {
    !StartsWith(l.name, "Microsoft") && !StartsWith(l.name, "System") && l.kind == "project"
  }

  function Load(l: Library): Assembly {
    Assembly(l.name, l.types)
  }

  /** Load the application's own libraries, in dependency-context order. */
  function GetCurrentPathAssembly(libs: seq<Library>): (r: seq<Assembly>)
    ensures |r| <= |libs|
    ensures forall a :: a in r ==> exists l :: l in libs && IsProjectLibrary(l) && a == Load(l)
    ensures forall l :: l in libs && IsProjectLibrary(l) ==> Load(l) in r
  {
    if libs == [] then []
    else (if IsProjectLibrary(libs[0]) then [Load(libs[0])] else []) + GetCurrentPathAssembly(libs[1..])
  }

  /** The filter keeps the original order: loading a concatenation loads
      each part in turn. */
  lemma {:induction false} GetCurrentPathAssemblyAppend(xs: seq<Library>, ys: seq<Library>)
    ensures GetCurrentPathAssembly(xs + ys) == GetCurrentPathAssembly(xs) + GetCurrentPathAssembly(ys)
  {
    if xs == [] {
      assert xs + ys == ys;
    } else {
      assert (xs + ys)[0] == xs[0];
      assert (xs + ys)[1..] == xs[1..] + ys;
      GetCurrentPathAssemblyAppend(xs[1..], ys);
    }
  }

  /** A single library is loaded exactly when it is a project library. */
  lemma GetCurrentPathAssemblySingle(l: Library)
    ensures GetCurrentPathAssembly([l]) == if IsProjectLibrary(l) then [Load(l)] else []
  {
  }

  /** A type `GetHandlerType` accepts for a request of runtime type `rt`: a
      non-abstract class implementing `IBackgroundTaskHandler<rt>`. */
  predicate IsHandlerFor(t: TypeDesc, rt: string) {
    t.isClass && !t.isAbstract && rt in t.handles
  }

  /** Reference definition of the scan of one assembly: the last handler in
      type order, if any. */
  function LastHandler(types: seq<TypeDesc>, rt: string): (r: Option<TypeDesc>)
    ensures r.Some? ==> r.value in types && IsHandlerFor(r.value, rt)
    ensures r.None? <==> forall t :: t in types ==> !IsHandlerFor(t, rt)
  {
    if types == [] then None
    else if IsHandlerFor(types[|types| - 1], rt) then Some(types[|types| - 1])
    else LastHandler(types[..|types| - 1], rt)
  }

  /** Reference definition of the whole search: the last handler of the
      first assembly that has one; later assemblies are not consulted. */
  function FindHandler(asms: seq<Assembly>, rt: string): (r: Option<TypeDesc>)
    ensures r.Some? ==> IsHandlerFor(r.value, rt)
  {
    if asms == [] then None
    else match LastHandler(asms[0].types, rt)
      case Some(t) => Some(t)
      case None => FindHandler(asms[1..], rt)
  }

  /** Position (i, j) is the one the search selects: the type there is a
      handler, no earlier assembly has any, and no later type of the same
      assembly is one. */
  ghost predicate Selected(asms: seq<Assembly>, rt: string, i: int, j: int) {
    && 0 <= i < |asms| && 0 <= j < |asms[i].types|
    && IsHandlerFor(asms[i].types[j], rt)
    && (forall i' :: 0 <= i' < i ==> forall t :: t in asms[i'].types ==> !IsHandlerFor(t, rt))
    && (forall j' :: j < j' < |asms[i].types| ==> !IsHandlerFor(asms[i].types[j'], rt))
  }

  lemma {:induction false} LastHandlerPosition(types: seq<TypeDesc>, rt: string, j: int)
    requires 0 <= j < |types| && IsHandlerFor(types[j], rt)
    requires forall j' :: j < j' < |types| ==> !IsHandlerFor(types[j'], rt)
    ensures LastHandler(types, rt) == Some(types[j])
  {
    if j < |types| - 1 {
      LastHandlerPosition(types[..|types| - 1], rt, j);
    }
  }

  lemma {:induction false} LastHandlerHasPosition(types: seq<TypeDesc>, rt: string) returns (j: int)
    requires LastHandler(types, rt).Some?
    ensures 0 <= j < |types| && types[j] == LastHandler(types, rt).value
    ensures forall j' :: j < j' < |types| ==> !IsHandlerFor(types[j'], rt)
  {
    if IsHandlerFor(types[|types| - 1], rt) {
      j := |types| - 1;
    } else {
      j := LastHandlerHasPosition(types[..|types| - 1], rt);
    }
  }

  /** Soundness of the search: whatever it returns sits at the selected
      position. */
  lemma {:induction false} FindHandlerSound(asms: seq<Assembly>, rt: string) returns (i: int, j: int)
    requires FindHandler(asms, rt).Some?
    ensures Selected(asms, rt, i, j) && asms[i].types[j] == FindHandler(asms, rt).value
  {
    if LastHandler(asms[0].types, rt).Some? {
      i := 0;
      j := LastHandlerHasPosition(asms[0].types, rt);
    } else {
      var i', j' := FindHandlerSound(asms[1..], rt);
      i, j := i' + 1, j';
      forall k | 0 <= k < i
        ensures forall t :: t in asms[k].types ==> !IsHandlerFor(t, rt)
      {
        if k > 0 {
          assert asms[k] == asms[1..][k - 1];
        }
      }
    }
  }

  /** Completeness of the search: the selected position is what it returns. */
  lemma {:induction false} FindHandlerComplete(asms: seq<Assembly>, rt: string, i: int, j: int)
    requires Selected(asms, rt, i, j)
    ensures FindHandler(asms, rt) == Some(asms[i].types[j])
  {
    if i == 0 {
      LastHandlerPosition(asms[0].types, rt, j);
    } else {
      assert LastHandler(asms[0].types, rt).None?;
      forall k | 0 <= k < i - 1
        ensures forall t :: t in asms[1..][k].types ==> !IsHandlerFor(t, rt)
      {
        assert asms[1..][k] == asms[k + 1];
      }
      FindHandlerComplete(asms[1..], rt, i - 1, j);
    }
  }

  /** The search fails exactly when no scanned assembly holds a handler. */
  lemma {:induction false} FindHandlerNone(asms: seq<Assembly>, rt: string)
    ensures FindHandler(asms, rt).None? <==>
      forall i :: 0 <= i < |asms| ==> forall t :: t in asms[i].types ==> !IsHandlerFor(t, rt)
  {
    if asms != [] {
      FindHandlerNone(asms[1..], rt);
      assert forall i :: 1 <= i < |asms| ==> asms[i] == asms[1..][i - 1];
    }
  }

  /** `GetHandlerType` as a function: the handler type for the request's
      runtime type, or the "no handler found" exception. */
  function HandlerTypeOf(libs: seq<Library>, request: Request): (r: Result<TypeDesc>)
    ensures r.Ok? ==> IsHandlerFor(r.value, request.runtimeType)
    ensures r.Err? ==> r.error == HandlerNotFound("request")
  {
    match FindHandler(GetCurrentPathAssembly(libs), request.runtimeType)
    case Some(t) => Ok(t)
    case None => Err(HandlerNotFound("request"))
  }

  /** End to end, resolution fails exactly when no project library holds a
      non-abstract class handling the request's runtime type. */
  lemma HandlerTypeOfFails(libs: seq<Library>, request: Request)
    ensures HandlerTypeOf(libs, request).Err? <==>
      forall l :: l in libs && IsProjectLibrary(l) ==>
        forall t :: t in l.types ==> !IsHandlerFor(t, request.runtimeType)
  {
    var rt := request.runtimeType;
    var asms := GetCurrentPathAssembly(libs);
    FindHandlerNone(asms, rt);
    if HandlerTypeOf(libs, request).Err? {
      forall l, t | l in libs && IsProjectLibrary(l) && t in l.types
        ensures !IsHandlerFor(t, rt)
      {
        assert Load(l) in asms;
        var i :| 0 <= i < |asms| && asms[i] == Load(l);
        assert t in asms[i].types;
      }
    } else {
      var i, j := FindHandlerSound(asms, rt);
      assert asms[i] in asms;
      var l :| l in libs && IsProjectLibrary(l) && asms[i] == Load(l);
      assert l.types[j] in l.types;
    }
  }

  /** `GetHandlerType` as written: one pass over the assemblies, remembering
      the last handler seen and stopping after the first assembly that has
      one. It agrees with the reference search. */
  method GetHandlerType(libs: seq<Library>, request: Request) returns (r: Result<TypeDesc>)
    ensures r == HandlerTypeOf(libs, request)
  {
    var rt := request.runtimeType;
    var allAssembly := GetCurrentPathAssembly(libs);
    var firstHandler: Option<TypeDesc> := None;
    var i := 0;
    while i < |allAssembly|
      invariant 0 <= i <= |allAssembly|
      invariant firstHandler.None?
      invariant FindHandler(allAssembly, rt) == FindHandler(allAssembly[i..], rt)
    {
      var types := allAssembly[i].types;
      var j := 0;
      while j < |types|
        invariant 0 <= j <= |types|
        invariant firstHandler == LastHandler(types[..j], rt)
      {
        if IsHandlerFor(types[j], rt) {
          firstHandler := Some(types[j]);
        }
        assert types[..j + 1][..j] == types[..j];
        j := j + 1;
      }
      assert types[..j] == types;
      if firstHandler.Some? {
        break;
      }
      assert allAssembly[i..][1..] == allAssembly[i + 1..];
      i := i + 1;
    }
    match firstHandler
    case None =>
      r := Err(HandlerNotFound("request"));
    case Some(t) =>
      r := Ok(t);
  }

  /** What one `Send` call did: rejected (null request, or no handler),
      still waiting for a free slot, or written. */
  function Send(q: Queue, libs: seq<Library>, request: Option<Request>, token: Token, id: nat): (w: Write)
    requires q.Valid()
    ensures request.None? ==> w == Rejected(ArgumentNull("request"))
    ensures request.Some? ==> (w.Rejected? <==> HandlerTypeOf(libs, request.value).Err?)
    ensures request.Some? && HandlerTypeOf(libs, request.value).Err? ==> w == Rejected(HandlerNotFound("request"))
    ensures w.Waiting? ==> q.Full()
    ensures request.Some? && HandlerTypeOf(libs, request.value).Ok? && q.Full() ==> w.Waiting?
    ensures w.Written? ==>
      && request.Some?
      && w.queue.Valid() && w.queue.cap == q.cap
      && |w.queue.items| == |q.items| + 1
      && w.queue.items[..|q.items|] == q.items
      && var p := w.queue.items[|q.items|];
         && p.id == id && p.request == request.value && !p.enableRetry && p.cancelToken == DefaultToken
         && HandlerTypeOf(libs, request.value) == Ok(p.handlerType)
  {
    match request
    case None => Rejected(ArgumentNull("request"))
    case Some(r) =>
      match HandlerTypeOf(libs, r)
      case Err(e) => Rejected(e)
      case Ok(h) => EnqueueRequest(q, request, h, token, id)
  }

  /** The `Send(request, enableRetry)` overload. */
  function SendWithRetry(q: Queue, libs: seq<Library>, request: Option<Request>, enableRetry: bool, token: Token, id: nat): (w: Write)
    requires q.Valid()
    ensures request.None? ==> w == Rejected(ArgumentNull("request"))
    ensures request.Some? ==> (w.Rejected? <==> HandlerTypeOf(libs, request.value).Err?)
    ensures request.Some? && HandlerTypeOf(libs, request.value).Err? ==> w == Rejected(HandlerNotFound("request"))
    ensures w.Waiting? ==> q.Full()
    ensures request.Some? && HandlerTypeOf(libs, request.value).Ok? && q.Full() ==> w.Waiting?
    ensures w.Written? ==>
      && request.Some?
      && w.queue.Valid() && w.queue.cap == q.cap
      && |w.queue.items| == |q.items| + 1
      && w.queue.items[..|q.items|] == q.items
      && var p := w.queue.items[|q.items|];
         && p.id == id && p.request == request.value && p.enableRetry == enableRetry && p.cancelToken == DefaultToken
         && HandlerTypeOf(libs, request.value) == Ok(p.handlerType)
  {
    match request
    case None => Rejected(ArgumentNull("request"))
    case Some(r) =>
      match HandlerTypeOf(libs, r)
      case Err(e) => Rejected(e)
      case Ok(h) => EnqueueRequestWithRetry(q, request, h, token, enableRetry, id)
  }

  /** The two overloads differ only in the retry flag of the package. */
  lemma SendOverloadsAgree(q: Queue, libs: seq<Library>, request: Option<Request>, token: Token, id: nat)
    requires q.Valid()
    ensures Send(q, libs, request, token, id) == SendWithRetry(q, libs, request, false, token, id)
  {
  }
}
