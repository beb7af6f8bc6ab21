/** The retry combinator: `retry(expects, times)` re-runs an async callable while it
    raises an expected exception, and the `AsyncRetryProtocol` metaclass applies it to
    the public coroutine methods of a class (the store uses it with
    `expects=OperationalError`). Each attempt's outcome is an input: `attempt(i)` is
    what the i-th call of the wrapped callable does. */
module Retry {
  import opened Optional

  /** An exception object, given by the names of the classes it is an instance of. */
  datatype Exc = Exc(classes: set<string>)

  /** `except expects as ex`: the exception is an instance of an expected class. */
  predicate Caught(expects: set<string>, e: Exc) {
    e.classes * expects != {}
  }

  /** What one call of the wrapped callable does. */
  datatype Outcome<T> = Return(value: T) | Raise(exc: Exc)

  /** What the wrapper does: return a value, let an unexpected exception through, or
      raise `TooManyTriesException` chained from the last expected one (if any). */
  datatype Result<T> = Returned(value: T) | Propagated(exc: Exc) | TooManyTries(cause: Option<Exc>)

  function Max(a: int, b: int): int { if a >= b then a else b }

  /** `retry(expects=..., times=...)(f)` awaited once; `calls` is how often `f` ran. */
  method Retried<T>(attempt: nat -> Outcome<T>, expects: set<string> := {"Exception"}, times: int := 3)
    returns (r: Result<T>, calls: nat)
    // never more than `times` calls (none at all when `times <= 0`)
    ensures calls <= Max(times, 0)
    // every call before the last one raised an expected exception
    ensures forall i :: 0 <= i < calls - 1 ==> attempt(i).Raise? && Caught(expects, attempt(i).exc)
    // the first successful result is returned
    ensures r.Returned? <==> calls > 0 && attempt(calls - 1).Return?
    ensures r.Returned? ==> r.value == attempt(calls - 1).value
    // an unexpected exception leaves at once
    ensures r.Propagated? <==> calls > 0 && attempt(calls - 1).Raise? && !Caught(expects, attempt(calls - 1).exc)
    ensures r.Propagated? ==> r.exc == attempt(calls - 1).exc
    // giving up happens only after `times` expected exceptions, chained from the last
    ensures r.TooManyTries? ==> calls == Max(times, 0)
    ensures r.TooManyTries? ==> r.cause == (if calls == 0 then None else Some(attempt(calls - 1).exc))
    ensures r.TooManyTries? && calls > 0 ==> attempt(calls - 1).Raise? && Caught(expects, attempt(calls - 1).exc)
  {
    var exception: Option<Exc> := None;
    calls := 0;
    for i := 0 to Max(times, 0)
      invariant calls == i
      invariant forall j :: 0 <= j < i ==> attempt(j).Raise? && Caught(expects, attempt(j).exc)
      invariant exception == (if i == 0 then None else Some(attempt(i - 1).exc))
    {
      var outcome := attempt(i);
      calls := calls + 1;
      match outcome {
        case Return(v) =>
          return Returned(v), calls;
        case Raise(ex) =>
          if Caught(expects, ex) {
            exception := Some(ex);
          } else {
            return Propagated(ex), calls;
          }
      }
    }
    r := TooManyTries(exception);
  }

  // ---------------------------------------------------------------------------
  // The metaclass

  /** A class attribute as the metaclass sees it: a plain value (`coroutine` when it is
      an `async def`), or one already wrapped by `retry`, which is itself an `async def`. */
  datatype AttrValue =
    | Plain(id: int, coroutine: bool)
    | Wrapped(inner: AttrValue, expects: set<string>, times: int)

  /** `asyncio.iscoroutinefunction`. */
  predicate IsCoroutineFunction(v: AttrValue) {
    v.Wrapped? || v.coroutine
  }

  /** The keyword arguments of the class statement; `None` when not given. */
  datatype ClassKwargs = ClassKwargs(exclude: Option<seq<string>>, expects: Option<set<string>>, times: Option<int>)

  function ExcludeOf(kwargs: ClassKwargs): seq<string> { kwargs.exclude.GetOr([]) }
  function ExpectsOf(kwargs: ClassKwargs): set<string> { kwargs.expects.GetOr({"Exception"}) }
  function TimesOf(kwargs: ClassKwargs): int { kwargs.times.GetOr(3) }

  /** `name.startswith("_")`. */
  predicate Private(name: string) {
    |name| > 0 && name[0] == '_'
  }

  predicate ShouldWrap(name: string, value: AttrValue, exclude: seq<string>) {
    !Private(name) && name !in exclude && IsCoroutineFunction(value)
  }

  /** The value the metaclass leaves under `name`: a public, not excluded coroutine
      function is wrapped once with the class's retry settings; anything else stays. */
  function Decorate(name: string, value: AttrValue, kwargs: ClassKwargs): (v: AttrValue)
    ensures v != value <==> ShouldWrap(name, value, ExcludeOf(kwargs))
    ensures v != value ==>
      v.Wrapped? && v.inner == value && v.expects == ExpectsOf(kwargs) && v.times == TimesOf(kwargs)
  {
    if ShouldWrap(name, value, ExcludeOf(kwargs)) then
      var w := Wrapped(value, ExpectsOf(kwargs), TimesOf(kwargs));
      assert value < w;
      w
    else value
  }

  /** `AsyncRetryProtocol.__new__`: rewrites the attribute table in place, key by key,
      keeping names and order. */
  method DecorateAttrs(attrs: seq<(string, AttrValue)>, kwargs: ClassKwargs) returns (result: seq<(string, AttrValue)>)
    ensures |result| == |attrs|
    ensures forall i :: 0 <= i < |attrs| ==> result[i] == (attrs[i].0, Decorate(attrs[i].0, attrs[i].1, kwargs))
  {
    var exclude := ExcludeOf(kwargs);
    var expects := ExpectsOf(kwargs);
    var times := TimesOf(kwargs);
    result := attrs;
    for i := 0 to |attrs|
      invariant |result| == |attrs|
      invariant forall j :: 0 <= j < i ==> result[j] == (attrs[j].0, Decorate(attrs[j].0, attrs[j].1, kwargs))
      invariant result[i..] == attrs[i..]
    {
      var (name, value) := result[i];
      if !Private(name) && name !in exclude && IsCoroutineFunction(value) {
        result := result[i := (name, Wrapped(value, expects, times))];
      }
    }
  }

  /** The store's class statement: `metaclass=AsyncRetryProtocol,
      expects=errors.OperationalError`. Each of its public async queries is retried up
      to three times on `OperationalError` only. */
  const StoreKwargs := ClassKwargs(None, Some({"OperationalError"}), None)

  lemma StoreQueriesRetried(name: string, value: AttrValue)
    requires !Private(name) && IsCoroutineFunction(value)
    ensures Decorate(name, value, StoreKwargs) == Wrapped(value, {"OperationalError"}, 3)
  {
  }

  /** Private helpers and synchronous attributes are never wrapped. */
  lemma PrivateOrSyncUntouched(name: string, value: AttrValue, kwargs: ClassKwargs)
    requires Private(name) || !IsCoroutineFunction(value)
    ensures Decorate(name, value, kwargs) == value
  {
  }
}
