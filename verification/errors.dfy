/**
 * Go error values as far as the façade inspects them: a finite chain that
 * `errors.Is` and `errors.As` walk by calling `Unwrap` until it gives nil.
 */
module Errors {
  import opened Bytes
  import opened Nilable

  /** `syscall.EINVAL` on Linux. */
  const EINVAL: nat := 22

  /** `syscall.ENOTTY` on Linux. */
  const ENOTTY: nat := 25

  datatype Error =
    /** A `syscall.Errno`; it unwraps to nothing. */
    | Errno(code: nat)
    /** An `*os.PathError`; its `Unwrap` gives `err`. */
    | PathError(op: GoString, path: GoString, err: Error)
    /** Any other wrapper with an `Unwrap() error` method, such as `fmt.Errorf("%w")`. */
    | Wrapped(msg: GoString, err: Error)
    /** An error without `Unwrap`, such as one from `errors.New`. */
    | Plain(msg: GoString)

  /** The errors `errors.Is` and `errors.As` look at, in the order they look: e, Unwrap(e), ... */
  function Chain(e: Error): (c: seq<Error>)
    ensures |c| >= 1 && c[0] == e
  {
    match e
    case PathError(_, _, inner) => [e] + Chain(inner)
    case Wrapped(_, inner) => [e] + Chain(inner)
    case _ => [e]
  }

  /**
   * `errors.Is(e, syscall.Errno(code))`: compare, then unwrap, until nil. It
   * finds the errno exactly when the errno occurs somewhere on the chain.
   */
  function Is(e: Error, code: nat): (found: bool)
    ensures found <==> Errno(code) in Chain(e)
  {
    if e == Errno(code) then true
    else match e
      case PathError(_, _, inner) => Is(inner, code)
      case Wrapped(_, inner) => Is(inner, code)
      case _ => false
  }

  /** `errors.As(e, &perr)` with `perr *os.PathError`: the first path error of the chain, if any. */
  function AsPathError(e: Error): (r: Option<Error>)
    ensures r.Some? ==> r.value.PathError? && r.value in Chain(e)
  {
    match e
    case PathError(_, _, _) => Some(e)
    case Wrapped(_, inner) => AsPathError(inner)
    case _ => None
  }

  /**
   * `errors.As` finds the first path error of the chain, and finds none
   * exactly when the chain holds none.
   */
  lemma {:induction false} AsPathErrorFirst(e: Error)
    ensures AsPathError(e).None? <==> forall k :: 0 <= k < |Chain(e)| ==> !Chain(e)[k].PathError?
    ensures AsPathError(e).Some? ==>
      exists k :: 0 <= k < |Chain(e)| && Chain(e)[k] == AsPathError(e).value
        && forall j :: 0 <= j < k ==> !Chain(e)[j].PathError?
  {
    match e
    case PathError(_, _, _) =>
      assert Chain(e)[0] == e;
    case Wrapped(_, inner) =>
      AsPathErrorFirst(inner);
      var c := Chain(inner);
      assert Chain(e) == [e] + c;
      if AsPathError(inner).Some? {
        var k :| 0 <= k < |c| && c[k] == AsPathError(inner).value
          && forall j :: 0 <= j < k ==> !c[j].PathError?;
        assert Chain(e)[k + 1] == c[k];
        assert forall j :: 0 <= j < k + 1 ==> !Chain(e)[j].PathError? by {
          forall j | 0 <= j < k + 1 ensures !Chain(e)[j].PathError? {
            if j > 0 {
              assert Chain(e)[j] == c[j - 1];
            }
          }
        }
      } else {
        assert AsPathError(inner).None?;
        assert forall k :: 0 <= k < |Chain(inner)| ==> !Chain(inner)[k].PathError?;
        forall k | 0 <= k < |Chain(e)| ensures !Chain(e)[k].PathError? {
          if k > 0 {
            assert Chain(e)[k] == c[k - 1];
          }
        }
      }
    case _ =>
  }

  /** What `errors.As` finds lies on the chain, so every error its own chain holds is on the outer chain too. */
  lemma {:induction false} AsPathErrorOnChain(e: Error, code: nat)
    requires AsPathError(e).Some?
    ensures Is(AsPathError(e).value, code) ==> Is(e, code)
  {
    match e
    case Wrapped(_, inner) =>
      AsPathErrorOnChain(inner, code);
    case _ =>
  }
}
