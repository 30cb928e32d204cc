/** The work item placed on the background queue (`InvokePackage`). */
module InvokePackage {
  import opened Runtime

  /** A work item. The C# class has no equality override, so two packages
      are the same key only if they are the same object; `id` stands for
      that object identity. `cancelToken` is the auto-property, which no
      constructor assigns. */
  datatype Package = Package(
    id: nat,
    request: Request,
    handlerType: TypeDesc,
    enableRetry: bool,
    cancelToken: Token)

  /** The three-argument constructor: the retry flag keeps its `false`
      initialiser and the token argument is dropped. */
  function New(id: nat, request: Request, handlerType: TypeDesc, cancelToken: Token): (p: Package)
    ensures p.id == id
    ensures p.request == request && p.handlerType == handlerType
    ensures !p.enableRetry
    ensures p.cancelToken == DefaultToken
  {
    Package(id, request, handlerType, false, DefaultToken)
  }

  /** The four-argument constructor, which chains to the three-argument one
      and then sets the retry flag. */
  function NewWithRetry(id: nat, request: Request, handlerType: TypeDesc, cancelToken: Token, enableRetry: bool): (p: Package)
    ensures p.id == id
    ensures p.request == request && p.handlerType == handlerType
    ensures p.enableRetry == enableRetry
    ensures p.cancelToken == DefaultToken
  {
    New(id, request, handlerType, cancelToken).(enableRetry := enableRetry)
  }

  /** The token argument has no effect on the package built, and the
      four-argument constructor differs from the three-argument one in the
      retry flag only. */
  lemma ConstructorsAgree(id: nat, request: Request, handlerType: TypeDesc, t1: Token, t2: Token, enableRetry: bool)
    ensures New(id, request, handlerType, t1) == New(id, request, handlerType, t2)
    ensures NewWithRetry(id, request, handlerType, t1, false) == New(id, request, handlerType, t2)
    ensures NewWithRetry(id, request, handlerType, t1, enableRetry).(enableRetry := false) == New(id, request, handlerType, t2)
  {
  }
}
