/** The result algebra: the two-case outcome of one parse attempt. */
module Results {
  import opened Errors

  /** `success(output, input, next)` or `failure(error)`. */
  datatype ParseResult<E, O> = Success(output: O, input: seq<E>, next: nat) | Failure(error: ParseError)

  /** What a Swift function marked `throws` gives back: a value, or the error it threw. */
  datatype Throws<T> = Returned(value: T) | Threw(thrown: ParseError)

  /** `map`: transform the output of a success, keep its input and next index. */
  function MapResult<E, O, B>(r: ParseResult<E, O>, f: (O, seq<E>, nat) -> B): (m: ParseResult<E, B>)
    ensures m.Success? <==> r.Success?
    ensures r.Success? ==> m.output == f(r.output, r.input, r.next) && m.input == r.input && m.next == r.next
    ensures r.Failure? ==> m.error == r.error
  {
    match r
    case Success(o, input, n) => Success(f(o, input, n), input, n)
    case Failure(e) => Failure(e)
  }

  /** `flatMap`: on success the transform decides the whole result; a failure is passed on. */
  function FlatMapResult<E, O, B>(r: ParseResult<E, O>, f: (O, seq<E>, nat) -> ParseResult<E, B>): (m: ParseResult<E, B>)
    ensures r.Success? ==> m == f(r.output, r.input, r.next)
    ensures r.Failure? ==> m == Failure(r.error)
  {
    match r
    case Success(o, input, n) => f(o, input, n)
    case Failure(e) => Failure(e)
  }

  function IsSuccess<E, O>(r: ParseResult<E, O>): (b: bool)
    ensures b <==> r.Success?
  {
    match r
    case Success(_, _, _) => true
    case Failure(_) => false
  }

  function IsFailed<E, O>(r: ParseResult<E, O>): (b: bool)
    ensures b <==> r.Failure?
  {
    match r
    case Failure(_) => true
    case Success(_, _, _) => false
  }

  /** `unwrap()`: the output, or throws `unwrappedFailedResult`. */
  function Unwrap<E, O>(r: ParseResult<E, O>): (u: Throws<O>)
    ensures u.Returned? <==> r.Success?
    ensures r.Success? ==> u.value == r.output
    ensures r.Failure? ==> u.thrown == UnwrappedFailedResult
  {
    match r
    case Success(o, _, _) => Returned(o)
    case Failure(_) => Threw(UnwrappedFailedResult)
  }

  /** `unwrap(fallback:)`, written as the source does: `(try? unwrap()) ?? fallback`. */
  function UnwrapOr<E, O>(r: ParseResult<E, O>, fallback: O): (v: O)
    ensures r.Success? ==> v == r.output
    ensures r.Failure? ==> v == fallback
  {
    match Unwrap(r)
    case Returned(o) => o
    case Threw(_) => fallback
  }

  /** `index()`: the next index, or throws `unwrappedFailedResult`. */
  function Index<E, O>(r: ParseResult<E, O>): (u: Throws<nat>)
    ensures u.Returned? <==> r.Success?
    ensures r.Success? ==> u.value == r.next
    ensures r.Failure? ==> u.thrown == UnwrappedFailedResult
  {
    match r
    case Success(_, _, n) => Returned(n)
    case Failure(_) => Threw(UnwrappedFailedResult)
  }

  /** `error()`: the error, or throws `errorFromSuccessfulResult`. */
  function Error<E, O>(r: ParseResult<E, O>): (u: Throws<ParseError>)
    ensures u.Returned? <==> r.Failure?
    ensures r.Failure? ==> u.value == r.error
    ensures r.Success? ==> u.thrown == ErrorFromSuccessfulResult
  {
    match r
    case Failure(e) => Returned(e)
    case Success(_, _, _) => Threw(ErrorFromSuccessfulResult)
  }

  /** Exactly one of `isSuccess()` and `isFailed()` holds, and each agrees with the accessor that
      does not throw on it. */
  lemma ClassifiersComplementary<E, O>(r: ParseResult<E, O>)
    ensures IsSuccess(r) != IsFailed(r)
    ensures IsSuccess(r) <==> Unwrap(r).Returned? && Index(r).Returned?
    ensures IsFailed(r) <==> Error(r).Returned?
  {
  }

  /** `map` is `flatMap` into a success that keeps input and index. */
  lemma MapIsFlatMap<E, O, B>(r: ParseResult<E, O>, f: (O, seq<E>, nat) -> B)
    ensures MapResult(r, f) == FlatMapResult(r, (o, input, n) => Success(f(o, input, n), input, n))
  {
  }

  /** Re-wrapping the success unchanged is the identity for `flatMap`. */
  lemma FlatMapRightIdentity<E, O>(r: ParseResult<E, O>)
    ensures FlatMapResult(r, (o, input, n) => Success(o, input, n)) == r
  {
  }

  /** `map` keeps what `index()` and `error()` report. */
  lemma MapKeepsIndexAndError<E, O, B>(r: ParseResult<E, O>, f: (O, seq<E>, nat) -> B)
    ensures Index(MapResult(r, f)) == Index(r)
    ensures Error(MapResult(r, f)) == Error(r)
  {
  }
}
