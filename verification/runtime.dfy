/** The pieces of the .NET runtime the background-task core relies on:
    32-bit integers, reflected type descriptors, request objects and
    cancellation tokens. */
module Runtime {

  const MinInt32: int := -0x8000_0000
  const MaxInt32: int := 0x7FFF_FFFF

  /** C#'s `int`. */
  type Int32 = x: int | MinInt32 <= x <= MaxInt32

  /** `x + 1` evaluated in C#'s default unchecked context (two's-complement
      wrap-around). */
  function UncheckedInc(x: Int32): (r: Int32)
    ensures x < MaxInt32 ==> r == x + 1
    ensures x == MaxInt32 ==> r == MinInt32
  {
    (x - MinInt32 + 1) % 0x1_0000_0000 + MinInt32
  }

  /** Ordinal `string.StartsWith`. */
  predicate StartsWith(s: string, prefix: string) {
    |prefix| <= |s| && s[..|prefix|] == prefix
  }

  /** What reflection reveals about one type of an assembly: its name, whether
      it is a class, whether it is abstract, and the request types `T` for
      which it implements `IBackgroundTaskHandler<T>`. */
  datatype TypeDesc = TypeDesc(name: string, isClass: bool, isAbstract: bool, handles: set<string>)

  /** A task request object: its exact runtime type name and an opaque payload. */
  datatype Request = Request(runtimeType: string, payload: string)

  /** A `CancellationToken`; `DefaultToken` is `default(CancellationToken)`. */
  datatype Token = DefaultToken | SourceToken(source: nat)
}
