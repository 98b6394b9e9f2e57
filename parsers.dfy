/** The `Parser` value and its core combinators: a parser is a function from a source and a
    start index to a `ParseResult`. */
module Parsers {
  import opened Errors
  import opened Results

  /** `Parser<Input, Output>`: the wrapped parse function. A source collection is a `seq<E>`
      and its indices are the natural numbers. */
  type Parser<!E, O> = (seq<E>, nat) -> ParseResult<E, O>

  /** A parse function that may throw (what `memoizedLazyOf` can build). */
  type ThrowingParser<!E, O> = (seq<E>, nat) -> Throws<ParseResult<E, O>>

  /** A result that, when successful, hands back the source it was given and an index
      between the start index and the end of the source. */
  ghost predicate Behaves<E(!new), O>(r: ParseResult<E, O>, s: seq<E>, i: nat) {
    r.Success? ==> r.input == s && i <= r.next <= |s|
  }

  /** The discipline every parser of the library keeps: from an index inside the source it
      never moves backwards, never runs past the end, and never swaps the source. */
  ghost predicate WellBehaved<E(!new), O>(p: Parser<E, O>) {
    forall s: seq<E>, i: nat :: i <= |s| ==> Behaves(p(s, i), s, i)
  }

  /** Strict progress: every success consumes at least one element. This is what an
      unbounded `rep` needs of its parser to stop. */
  ghost predicate Consumes<E(!new), O>(p: Parser<E, O>) {
    forall s: seq<E>, i: nat :: p(s, i).Success? ==> p(s, i).input == s && i < p(s, i).next <= |s|
  }

  lemma ConsumesIsWellBehaved<E(!new), O>(p: Parser<E, O>)
    requires Consumes(p)
    ensures WellBehaved(p)
  {
  }

  /** `parse(input, index)`. */
  function Parse<E(!new), O>(p: Parser<E, O>, s: seq<E>, i: nat): (r: ParseResult<E, O>)
    ensures WellBehaved(p) && i <= |s| ==> Behaves(r, s, i)
  {
    p(s, i)
  }

  /** `just(value)`: succeed with `value`, consuming nothing. */
  function Just<E(!new), O>(value: O): (p: Parser<E, O>)
    ensures forall s: seq<E>, i: nat :: p(s, i) == Success(value, s, i)
  {
    (s: seq<E>, i: nat) => Success(value, s, i)
  }

  /** `fail(error:)`: fail with `error` wherever it is run. */
  function Fail<E(!new), O>(error: ParseError): (p: Parser<E, O>)
    ensures forall s: seq<E>, i: nat :: p(s, i) == Failure(error)
  {
    (s: seq<E>, i: nat) => Failure(error)
  }

  /** `fail(message:)`: fail with a `GenericParseError` carrying `message`. */
  function FailMessage<E(!new), O>(message: string): (p: Parser<E, O>)
    ensures forall s: seq<E>, i: nat :: p(s, i) == Failure(Generic(message))
  {
    Fail(Generic(message))
  }

  /** `flatMap`: the parser the transform picks from the first output continues on the
      input and index the first success reported. */
  function FlatMap<E(!new), O, B>(p: Parser<E, O>, f: O -> Parser<E, B>): (q: Parser<E, B>)
    ensures forall s: seq<E>, i: nat :: p(s, i).Failure? ==> q(s, i) == Failure(p(s, i).error)
    ensures forall s: seq<E>, i: nat ::
      p(s, i).Success? ==> q(s, i) == f(p(s, i).output)(p(s, i).input, p(s, i).next)
  {
    (s: seq<E>, i: nat) => FlatMapResult(p(s, i), (o, input2, n) => f(o)(input2, n))
  }

  /** `map`: transform the output, keep where the parse ended. */
  function Map<E(!new), O, B>(p: Parser<E, O>, f: O -> B): (q: Parser<E, B>)
    ensures forall s: seq<E>, i: nat :: q(s, i).Success? <==> p(s, i).Success?
    ensures forall s: seq<E>, i: nat ::
      p(s, i).Success? ==> q(s, i) == Success(f(p(s, i).output), p(s, i).input, p(s, i).next)
    ensures forall s: seq<E>, i: nat :: p(s, i).Failure? ==> q(s, i) == Failure(p(s, i).error)
  {
    (s: seq<E>, i: nat) => MapResult(p(s, i), (o, _, _) => f(o))
  }

  /** `filter`: a success whose output fails `pred` becomes `Errors.filtered`; everything else
      is passed on unchanged. */
  function Filter<E(!new), O>(p: Parser<E, O>, pred: O -> bool): (q: Parser<E, O>)
    ensures forall s: seq<E>, i: nat :: p(s, i).Failure? ==> q(s, i) == p(s, i)
  {
    (s: seq<E>, i: nat) =>
      var r1 := p(s, i);
      match r1
      case Success(o, _, _) => if pred(o) then r1 else Failure(Filtered)
      case Failure(_) => r1
  }

  /** `passWith(x)`: another name for `just(x)`. */
  function PassWith<E(!new), O>(x: O): (p: Parser<E, O>)
    ensures forall s: seq<E>, i: nat :: p(s, i) == Just(x)(s, i)
  {
    Just(x)
  }

  /** `lazyOf`: the parser is produced only when the result is asked for. */
  function LazyOf<E(!new), O>(p: () -> Parser<E, O>): (q: Parser<E, O>)
    ensures forall s: seq<E>, i: nat :: q(s, i) == p()(s, i)
  {
    (s: seq<E>, i: nat) => p()(s, i)
  }

  /** Running a parser that was produced by a throwing expression: the producer's error,
      or the parser's result. */
  function RunProduced<E, O>(made: Throws<Parser<E, O>>, s: seq<E>, i: nat): (r: Throws<ParseResult<E, O>>)
    ensures r.Threw? <==> made.Threw?
    ensures made.Threw? ==> r.thrown == made.thrown
    ensures made.Returned? ==> r.value == made.value(s, i)
  {
    match made
    case Returned(m) => Returned(m(s, i))
    case Threw(e) => Threw(e)
  }

  /** `lazyOf(try parser())` with a producer that may throw: the producer runs at parse time
      and its error surfaces there. */
  function LazyOfThrowing<E(!new), O>(parser: () -> Throws<Parser<E, O>>): (q: ThrowingParser<E, O>)
    ensures forall s: seq<E>, i: nat :: parser().Threw? ==> q(s, i) == Threw(parser().thrown)
  {
    (s: seq<E>, i: nat) => RunProduced(parser(), s, i)
  }

  /** `memoizedLazyOf`: below the memo limit the producer is run once, up front, and its parser
      (or its error) is what every parse sees; at the limit it degrades to `lazyOf`. */
  function MemoizedLazyOf<E(!new), O>(parser: () -> Throws<Parser<E, O>>, count: int, max: int): (q: ThrowingParser<E, O>)
    ensures count < max ==> forall s: seq<E>, i: nat :: q(s, i) == RunProduced(parser(), s, i)
  {
    if count < max then
      var made := parser();
      (s: seq<E>, i: nat) => RunProduced(made, s, i)
    else
      LazyOfThrowing(parser)
  }

  /** Memoisation is not observable: on either side of the limit the parser behaves as
      `lazyOf(try parser())`. */
  lemma MemoizedIsLazy<E(!new), O>(parser: () -> Throws<Parser<E, O>>, count: int, max: int, s: seq<E>, i: nat)
    ensures MemoizedLazyOf(parser, count, max)(s, i) == LazyOfThrowing(parser)(s, i)
  {
  }

  // ---------------------------------------------------------------------------------------
  // Laws

  /** `just` is a left identity of `flatMap`. */
  lemma FlatMapLeftIdentity<E(!new), O, B>(v: O, f: O -> Parser<E, B>, s: seq<E>, i: nat)
    ensures FlatMap(Just(v), f)(s, i) == f(v)(s, i)
  {
  }

  /** `just` is a right identity of `flatMap`. */
  lemma FlatMapRightIdentity<E(!new), O>(p: Parser<E, O>, s: seq<E>, i: nat)
    ensures FlatMap(p, (o: O) => Just(o))(s, i) == p(s, i)
  {
  }

  /** `flatMap` is associative. */
  lemma FlatMapAssociative<E(!new), A, B, C>(p: Parser<E, A>, f: A -> Parser<E, B>, g: B -> Parser<E, C>, s: seq<E>, i: nat)
    ensures FlatMap(FlatMap(p, f), g)(s, i) == FlatMap(p, (a: A) => FlatMap(f(a), g))(s, i)
  {
  }

  /** `map` is `flatMap` followed by `just`, for a well-behaved parser's own input. */
  lemma MapIsFlatMapJust<E(!new), O, B>(p: Parser<E, O>, f: O -> B, s: seq<E>, i: nat)
    ensures Map(p, f)(s, i) == FlatMap(p, (o: O) => Just(f(o)))(s, i)
  {
  }

  /** `map` keeps where the parse ended and transforms only the output. */
  lemma MapSemantics<E(!new), O, B>(p: Parser<E, O>, f: O -> B, s: seq<E>, i: nat)
    ensures p(s, i).Success? ==> Map(p, f)(s, i) == Success(f(p(s, i).output), p(s, i).input, p(s, i).next)
    ensures p(s, i).Failure? ==> Map(p, f)(s, i) == Failure(p(s, i).error)
  {
  }

  /** Two `map`s fuse into one. */
  lemma MapFusion<E(!new), A, B, C>(p: Parser<E, A>, f: A -> B, g: B -> C, s: seq<E>, i: nat)
    ensures Map(Map(p, f), g)(s, i) == Map(p, (a: A) => g(f(a)))(s, i)
  {
  }

  /** `filter` succeeds exactly where the parser succeeds with an output that satisfies the
      predicate, and then returns that very success. */
  lemma FilterSemantics<E(!new), O>(p: Parser<E, O>, pred: O -> bool, s: seq<E>, i: nat)
    ensures Filter(p, pred)(s, i).Success? <==> p(s, i).Success? && pred(p(s, i).output)
    ensures Filter(p, pred)(s, i).Success? ==> Filter(p, pred)(s, i) == p(s, i)
    ensures p(s, i).Success? && !pred(p(s, i).output) ==> Filter(p, pred)(s, i) == Failure(Filtered)
  {
  }

  /** Filtering twice is filtering by the conjunction. */
  lemma FilterFusion<E(!new), O>(p: Parser<E, O>, a: O -> bool, b: O -> bool, s: seq<E>, i: nat)
    ensures Filter(Filter(p, a), b)(s, i).Success? <==> Filter(p, (o: O) => a(o) && b(o))(s, i).Success?
  {
  }

  // ---------------------------------------------------------------------------------------
  // The discipline is preserved by every combinator

  lemma JustFailWellBehaved<E(!new), O>(v: O, e: ParseError)
    ensures WellBehaved(Just<E, O>(v))
    ensures WellBehaved(Fail<E, O>(e))
    ensures Consumes(Fail<E, O>(e))
  {
  }

  lemma MapPreserves<E(!new), O, B>(p: Parser<E, O>, f: O -> B)
    ensures WellBehaved(p) ==> WellBehaved(Map(p, f))
    ensures Consumes(p) ==> Consumes(Map(p, f))
  {
  }

  lemma FilterPreserves<E(!new), O>(p: Parser<E, O>, pred: O -> bool)
    ensures WellBehaved(p) ==> WellBehaved(Filter(p, pred))
    ensures Consumes(p) ==> Consumes(Filter(p, pred))
  {
  }

  /** `flatMap` of well-behaved parsers is well behaved, and it consumes when the first
      parser consumes. */
  lemma {:induction false} FlatMapPreserves<E(!new), O, B>(p: Parser<E, O>, f: O -> Parser<E, B>)
    requires WellBehaved(p)
    requires forall o: O :: WellBehaved(f(o))
    ensures WellBehaved(FlatMap(p, f))
    ensures Consumes(p) ==> Consumes(FlatMap(p, f))
  {
    forall s: seq<E>, i: nat | i <= |s|
      ensures Behaves(FlatMap(p, f)(s, i), s, i)
    {
      if p(s, i).Success? {
        ContinuationBehaves(p, f, s, i);
      }
    }
    if Consumes(p) {
      forall s: seq<E>, i: nat | FlatMap(p, f)(s, i).Success?
        ensures FlatMap(p, f)(s, i).input == s && i < FlatMap(p, f)(s, i).next <= |s|
      {
        ContinuationBehaves(p, f, s, i);
      }
    }
  }

  /** One step of `FlatMapPreserves`: a continuation started where a well-behaved first parser
      stopped stays within the source. */
  lemma ContinuationBehaves<E(!new), O, B>(p: Parser<E, O>, f: O -> Parser<E, B>, s: seq<E>, i: nat)
    requires forall o: O :: WellBehaved(f(o))
    requires p(s, i).Success? && p(s, i).input == s && p(s, i).next <= |s|
    ensures Behaves(f(p(s, i).output)(s, p(s, i).next), s, p(s, i).next)
    ensures FlatMap(p, f)(s, i) == f(p(s, i).output)(s, p(s, i).next)
  {
    match p(s, i)
    case Success(o, _, n) =>
      assert WellBehaved(f(o));
      assert Behaves(f(o)(s, n), s, n);
  }
}
