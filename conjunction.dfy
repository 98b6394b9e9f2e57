/** Choice, repetition and lookahead (`Parser+Conjunction.swift`). */
module Conjunction {
  import opened Errors
  import opened Options
  import opened Results
  import opened Parsers
  import opened Sequential

  /** `typeErased`: the same outcome and next index, with the output replaced by `()`. The
      success carries the source the parser was started on. */
  function TypeErased<E(!new), O>(p: Parser<E, O>): (q: Parser<E, ()>)
    ensures forall s: seq<E>, i: nat :: q(s, i).Success? <==> p(s, i).Success?
    ensures forall s: seq<E>, i: nat :: p(s, i).Success? ==> q(s, i) == Success((), s, p(s, i).next)
    ensures forall s: seq<E>, i: nat :: p(s, i).Failure? ==> q(s, i) == Failure(p(s, i).error)
  {
    (s: seq<E>, i: nat) =>
      match p(s, i)
      case Success(_, _, n) => Success((), s, n)
      case Failure(e) => Failure(e)
  }

  /** `or`: the first success wins; on failure `other` is tried from the same index, and its
      result (success or failure) is the answer. */
  function Or<E(!new), O>(p: Parser<E, O>, other: Parser<E, O>): (q: Parser<E, O>)
    ensures forall s: seq<E>, i: nat :: p(s, i).Success? ==> q(s, i) == p(s, i)
    ensures forall s: seq<E>, i: nat :: p(s, i).Failure? ==> q(s, i) == other(s, i)
  {
    (s: seq<E>, i: nat) =>
      match p(s, i)
      case Failure(_) => other(s, i)
      case Success(_, _, _) => p(s, i)
  }

  /** `optional`: `map { $0 } | just(nil)`. */
  function Optional<E(!new), O>(p: Parser<E, O>): (q: Parser<E, Option<O>>)
    ensures forall s: seq<E>, i: nat :: q(s, i).Success?
    ensures forall s: seq<E>, i: nat :: p(s, i).Failure? ==> q(s, i) == Success(None, s, i)
    ensures forall s: seq<E>, i: nat :: p(s, i).Success? ==>
      q(s, i) == Success(Some(p(s, i).output), p(s, i).input, p(s, i).next)
  {
    Or(Map(p, (o: O) => Some(o)), Just(None))
  }

  /** `positiveLookahead`: succeeds without consuming exactly when `p` succeeds here. */
  function PositiveLookahead<E(!new), O>(p: Parser<E, O>): (q: Parser<E, ()>)
    ensures forall s: seq<E>, i: nat :: p(s, i).Success? ==> q(s, i) == Success((), s, i)
    ensures forall s: seq<E>, i: nat :: p(s, i).Failure? ==> q(s, i) == Failure(PositiveLookaheadFailed)
  {
    (s: seq<E>, i: nat) =>
      match p(s, i)
      case Success(_, _, _) => Success((), s, i)
      case Failure(_) => Failure(PositiveLookaheadFailed)
  }

  /** `negativeLookahead`: succeeds without consuming exactly when `p` fails here. */
  function NegativeLookahead<E(!new), O>(p: Parser<E, O>): (q: Parser<E, ()>)
    ensures forall s: seq<E>, i: nat :: p(s, i).Failure? ==> q(s, i) == Success((), s, i)
    ensures forall s: seq<E>, i: nat :: p(s, i).Success? ==> q(s, i) == Failure(NegativeLookaheadFailed)
  {
    (s: seq<E>, i: nat) =>
      match p(s, i)
      case Success(_, _, _) => Failure(NegativeLookaheadFailed)
      case Failure(_) => Success((), s, i)
  }

  // ---------------------------------------------------------------------------------------
  // Laws of choice and lookahead

  /** `or` is associative. */
  lemma OrAssociative<E(!new), O>(a: Parser<E, O>, b: Parser<E, O>, c: Parser<E, O>, s: seq<E>, i: nat)
    ensures Or(Or(a, b), c)(s, i) == Or(a, Or(b, c))(s, i)
  {
  }

  /** A parser that always fails is a left identity of `or`, and on the right it only replaces
      the error. */
  lemma OrFail<E(!new), O>(p: Parser<E, O>, e: ParseError, s: seq<E>, i: nat)
    ensures Or(Fail(e), p)(s, i) == p(s, i)
    ensures Or(p, Fail(e))(s, i).Success? <==> p(s, i).Success?
    ensures p(s, i).Failure? ==> Or(p, Fail(e))(s, i) == Failure(e)
  {
  }

  /** `or` fails only when both alternatives fail, with the second one's error. */
  lemma OrFailsIffBoth<E(!new), O>(p: Parser<E, O>, other: Parser<E, O>, s: seq<E>, i: nat)
    ensures Or(p, other)(s, i).Failure? <==> p(s, i).Failure? && other(s, i).Failure?
    ensures Or(p, other)(s, i).Failure? ==> Or(p, other)(s, i).error == other(s, i).error
  {
  }

  /** The two lookaheads are exact opposites, and neither consumes input. */
  lemma LookaheadsOpposite<E(!new), O>(p: Parser<E, O>, s: seq<E>, i: nat)
    ensures PositiveLookahead(p)(s, i).Success? <==> NegativeLookahead(p)(s, i).Failure?
    ensures PositiveLookahead(p)(s, i).Success? ==> PositiveLookahead(p)(s, i).next == i
    ensures NegativeLookahead(p)(s, i).Success? ==> NegativeLookahead(p)(s, i).next == i
    ensures PositiveLookahead(PositiveLookahead(p))(s, i) == PositiveLookahead(p)(s, i)
  {
  }

  /** Choice, option, erasure and the lookaheads keep the discipline. */
  lemma ChoicePreserves<E(!new), O>(p: Parser<E, O>, other: Parser<E, O>)
    requires WellBehaved(p) && WellBehaved(other)
    ensures WellBehaved(Or(p, other))
    ensures WellBehaved(Optional(p))
    ensures WellBehaved(TypeErased(p))
    ensures WellBehaved(PositiveLookahead(p)) && WellBehaved(NegativeLookahead(p))
  {
  }

  /** `or` of two consuming parsers consumes, and so does erasing the output. */
  lemma ChoiceConsumes<E(!new), O>(p: Parser<E, O>, other: Parser<E, O>)
    requires Consumes(p) && Consumes(other)
    ensures Consumes(Or(p, other))
    ensures Consumes(TypeErased(p))
  {
  }

  // ---------------------------------------------------------------------------------------
  // Repetition

  /** What `rep` needs to stop: a bound on the number of repetitions, or an element parser that
      consumes on every success. The source loops forever without one of them. */
  ghost predicate Terminates<E(!new), O>(p: Parser<E, O>, max: Option<int>) {
    max.Some? || Consumes(p)
  }

  /** The measure the repetition loop decreases: first the repetitions still allowed by `max`,
      then the elements left in the source. */
  function Allowed(max: Option<int>, count: nat): nat {
    if max.Some? && max.value > count then max.value - count else 0
  }

  function Remaining<E>(s: seq<E>, i: nat): nat {
    if i <= |s| then |s| - i else 0
  }

  /** The `while` loop of `rep`: starting at `i` with the outputs `outs` collected so far, parse
      again while `max` allows it, and stop at the first failure. Gives the outputs and the index
      after the last success. */
  function RepeatLoop<E(!new), O>(p: Parser<E, O>, max: Option<int>, s: seq<E>, i: nat, outs: seq<O>): (r: (seq<O>, nat))
    requires Terminates(p, max)
    decreases Allowed(max, |outs|), Remaining(s, i)
    ensures |outs| <= |r.0| && r.0[..|outs|] == outs
    ensures max.Some? && |outs| <= max.value ==> |r.0| <= max.value
    ensures |r.0| == |outs| ==> r.1 == i
  {
    if max.Some? && |outs| >= max.value then (outs, i)
    else
      match p(s, i)
      case Failure(_) => (outs, i)
      case Success(o, _, n) => RepeatLoop(p, max, s, n, outs + [o])
  }

  /** The outcome of `rep(min, max)` once the loop has stopped with `outs` at index `n`. */
  function RepOutcome<E, O>(min: int, s: seq<E>, outs: seq<O>, n: nat): ParseResult<E, seq<O>> {
    if |outs| >= min then Success(outs, s, n) else Failure(ExpectedAtLeast(min))
  }

  /** `rep(min, max)` run at index `i`. */
  function Repeat<E(!new), O>(p: Parser<E, O>, min: int, max: Option<int>, s: seq<E>, i: nat): (r: ParseResult<E, seq<O>>)
    requires Terminates(p, max)
    ensures r.Success? ==> r.input == s && min <= |r.output|
    ensures r.Success? && max.Some? && 0 <= max.value ==> |r.output| <= max.value
    ensures r.Success? && r.output == [] ==> r.next == i
    ensures r.Failure? ==> r.error == ExpectedAtLeast(min)
  {
    var (outs, n) := RepeatLoop(p, max, s, i, []);
    RepOutcome(min, s, outs, n)
  }

  /** `rep(min, max)` as a parser. */
  function Rep<E(!new), O>(p: Parser<E, O>, min: int, max: Option<int>): (q: Parser<E, seq<O>>)
    requires Terminates(p, max)
    ensures forall s: seq<E>, i: nat :: q(s, i).Failure? ==> q(s, i) == Failure(ExpectedAtLeast(min))
    ensures forall s: seq<E>, i: nat :: q(s, i).Success? ==> q(s, i).input == s && min <= |q(s, i).output|
  {
    (s: seq<E>, i: nat) => Repeat(p, min, max, s, i)
  }

  /** The loop of `rep` as the source writes it: append each output and advance `i` until the
      element parser fails or `max` outputs have been collected. */
  method RepParse<E(!new), O>(p: Parser<E, O>, min: int, max: Option<int>, s: seq<E>, index: nat)
    returns (r: ParseResult<E, seq<O>>)
    requires Terminates(p, max)
    ensures r == Repeat(p, min, max, s, index)
  {
    var outputs: seq<O> := [];
    var i := index;
    while max.None? || |outputs| < max.value
      invariant RepeatLoop(p, max, s, i, outputs) == RepeatLoop(p, max, s, index, [])
      decreases Allowed(max, |outputs|), Remaining(s, i)
    {
      match p(s, i)
      case Success(output, _, nextIndex) =>
        outputs := outputs + [output];
        i := nextIndex;
      case Failure(_) =>
        r := RepOutcome(min, s, outputs, i);
        return;
    }
    r := RepOutcome(min, s, outputs, i);
  }

  /** `outs` are the outputs of running `p` back to back from `i`, the last one ending at `n`. */
  ghost predicate Chain<E, O>(p: Parser<E, O>, s: seq<E>, i: nat, outs: seq<O>, n: nat)
    decreases |outs|
  {
    if outs == [] then n == i
    else p(s, i).Success? && p(s, i).output == outs[0] && Chain(p, s, p(s, i).next, outs[1..], n)
  }

  /** Why the loop stopped after collecting `outs` at `n`: `max` was reached, or `p` failed. */
  ghost predicate Stopped<E, O>(p: Parser<E, O>, max: Option<int>, s: seq<E>, outs: seq<O>, n: nat) {
    (max.Some? && |outs| >= max.value) || p(s, n).Failure?
  }

  /** `outs` respects `max` (a `max` below zero allows no repetition at all). */
  predicate WithinMax<O>(max: Option<int>, outs: seq<O>) {
    max.Some? ==> |outs| <= max.value || outs == []
  }

  /** What the loop returns: the outputs collected before, then a chain of further outputs
      after which it had to stop. */
  lemma {:induction false} RepeatLoopSound<E(!new), O>(p: Parser<E, O>, max: Option<int>, s: seq<E>, i: nat, acc: seq<O>)
    requires Terminates(p, max)
    requires WithinMax(max, acc)
    ensures var (outs, n) := RepeatLoop(p, max, s, i, acc);
      |acc| <= |outs| && outs[..|acc|] == acc && Chain(p, s, i, outs[|acc|..], n) &&
      Stopped(p, max, s, outs, n) && WithinMax(max, outs)
    decreases Allowed(max, |acc|), Remaining(s, i)
  {
    if max.Some? && |acc| >= max.value {
    } else {
      match p(s, i)
      case Failure(_) =>
      case Success(o, _, n1) =>
        RepeatLoopSound(p, max, s, n1, acc + [o]);
        var (outs, n) := RepeatLoop(p, max, s, n1, acc + [o]);
        assert outs[..|acc|] == acc by {
          assert outs[..|acc|] == outs[..|acc + [o]|][..|acc|];
        }
        assert outs[|acc|..][1..] == outs[|acc + [o]|..];
    }
  }

  /** Conversely, a chain that had to stop and respects `max` is what the loop returns. */
  lemma {:induction false} RepeatLoopUnique<E(!new), O>(p: Parser<E, O>, max: Option<int>, s: seq<E>, i: nat, acc: seq<O>, more: seq<O>, n: nat)
    requires Terminates(p, max)
    requires Chain(p, s, i, more, n) && Stopped(p, max, s, acc + more, n) && WithinMax(max, acc + more)
    ensures RepeatLoop(p, max, s, i, acc) == (acc + more, n)
    decreases |more|
  {
    if more == [] {
      assert acc + more == acc;
    } else {
      match p(s, i)
      case Success(o, _, n1) =>
        assert acc + more == (acc + [o]) + more[1..];
        RepeatLoopUnique(p, max, s, n1, acc + [o], more[1..], n);
    }
  }

  /** The loop's result is characterised exactly: it is the chain of outputs from `i` that had
      to stop and respects `max`. */
  lemma RepeatLoopCharacterized<E(!new), O>(p: Parser<E, O>, max: Option<int>, s: seq<E>, i: nat, outs: seq<O>, n: nat)
    requires Terminates(p, max)
    ensures RepeatLoop(p, max, s, i, []) == (outs, n) <==>
      Chain(p, s, i, outs, n) && Stopped(p, max, s, outs, n) && WithinMax(max, outs)
  {
    RepeatLoopSound(p, max, s, i, []);
    var (o, m) := RepeatLoop(p, max, s, i, []);
    assert o[0..] == o;
    if Chain(p, s, i, outs, n) && Stopped(p, max, s, outs, n) && WithinMax(max, outs) {
      assert [] + outs == outs;
      RepeatLoopUnique(p, max, s, i, [], outs, n);
    }
  }

  /** `rep(min, max)` succeeds with the outputs of the back-to-back parses from `i`, in parse
      order, ending after the last element; it collects at least `min` and at most `max`
      outputs, and stops only at `max` or at the first failure. */
  lemma {:induction false} RepSuccess<E(!new), O>(p: Parser<E, O>, min: int, max: Option<int>, s: seq<E>, i: nat)
    requires Terminates(p, max)
    ensures var r := Repeat(p, min, max, s, i);
      r.Success? ==>
        r.input == s && Chain(p, s, i, r.output, r.next) && Stopped(p, max, s, r.output, r.next) &&
        min <= |r.output| && (max.Some? && max.value >= 0 ==> |r.output| <= max.value) &&
        (max.Some? && max.value <= 0 ==> r.output == [])
  {
    RepeatLoopSound(p, max, s, i, []);
    var (o, m) := RepeatLoop(p, max, s, i, []);
    assert o[0..] == o;
  }

  /** `rep(min, max)` fails with `expectedAtLeast(count: min)` exactly when the loop collected
      fewer than `min` outputs; in particular `rep(0)` never fails. */
  lemma RepFailure<E(!new), O>(p: Parser<E, O>, min: int, max: Option<int>, s: seq<E>, i: nat)
    requires Terminates(p, max)
    ensures Repeat(p, min, max, s, i).Failure? <==> |RepeatLoop(p, max, s, i, []).0| < min
    ensures Repeat(p, min, max, s, i).Failure? ==> Repeat(p, min, max, s, i).error == ExpectedAtLeast(min)
    ensures min <= 0 ==> Repeat(p, min, max, s, i).Success?
  {
  }

  /** A chain of well-behaved parses stays within the source and never moves backwards; a chain
      of consuming parses moves forward at every element. */
  lemma {:induction false} ChainBehaves<E(!new), O>(p: Parser<E, O>, s: seq<E>, i: nat, outs: seq<O>, n: nat)
    requires WellBehaved(p) && i <= |s| && Chain(p, s, i, outs, n)
    ensures i <= n <= |s|
    ensures Consumes(p) ==> i + |outs| <= n
    decreases |outs|
  {
    if outs != [] {
      ChainBehaves(p, s, p(s, i).next, outs[1..], n);
    }
  }

  /** `rep` keeps the discipline, and with `min >= 1` it consumes when its element does. */
  lemma {:induction false} RepPreserves<E(!new), O>(p: Parser<E, O>, min: int, max: Option<int>)
    requires Terminates(p, max) && WellBehaved(p)
    ensures WellBehaved(Rep(p, min, max))
    ensures Consumes(p) && min >= 1 ==> Consumes(Rep(p, min, max))
  {
    forall s: seq<E>, i: nat | i <= |s|
      ensures Behaves(Rep(p, min, max)(s, i), s, i)
    {
      RepSuccess(p, min, max, s, i);
      var r := Repeat(p, min, max, s, i);
      if r.Success? {
        ChainBehaves(p, s, i, r.output, r.next);
      }
    }
    if Consumes(p) && min >= 1 {
      forall s: seq<E>, i: nat | Rep(p, min, max)(s, i).Success?
        ensures Rep(p, min, max)(s, i).input == s && i < Rep(p, min, max)(s, i).next <= |s|
      {
        RepSuccess(p, min, max, s, i);
        var r := Repeat(p, min, max, s, i);
        match p(s, i)
        case Success(_, _, n1) =>
          ChainBehaves(p, s, n1, r.output[1..], r.next);
      }
    }
  }

  // ---------------------------------------------------------------------------------------
  // Separated repetition

  /** `rep1sep(sep)`: `(self ~ (sep ~> self).rep(0)).map { [head] + tail }`. The unbounded
      repetition needs `sep ~> self` to consume. */
  function Rep1Sep<E(!new), O, S>(p: Parser<E, O>, sep: Parser<E, S>): (q: Parser<E, seq<O>>)
    requires Consumes(SeqRight(sep, p))
    ensures forall s: seq<E>, i: nat :: q(s, i).Success? <==> p(s, i).Success?
  {
    Map(Seq(p, Rep(SeqRight(sep, p), 0, None)), (ht: (O, seq<O>)) => [ht.0] + ht.1)
  }

  /** `rep1sep` needs one element; its output is that element followed by the elements of the
      `sep ~> self` pairs that follow, separators dropped, and it ends after the last pair. */
  lemma {:induction false} Rep1SepSemantics<E(!new), O, S>(p: Parser<E, O>, sep: Parser<E, S>, s: seq<E>, i: nat)
    requires Consumes(SeqRight(sep, p))
    ensures p(s, i).Failure? ==> Rep1Sep(p, sep)(s, i) == Failure(p(s, i).error)
    ensures p(s, i).Success? ==>
      var tail := Repeat(SeqRight(sep, p), 0, None, s, p(s, i).next);
      Rep1Sep(p, sep)(s, i) == Success([p(s, i).output] + tail.output, s, tail.next)
  {
    match p(s, i)
    case Failure(_) =>
    case Success(o, _, n) =>
      RepFailure(SeqRight(sep, p), 0, None, s, n);
  }

  /** A consuming separator between well-behaved elements is enough for `rep1sep`. */
  lemma SeparatorConsumes<E(!new), O, S>(p: Parser<E, O>, sep: Parser<E, S>)
    requires Consumes(sep) && WellBehaved(p)
    ensures Consumes(SeqRight(sep, p))
  {
    ConsumesIsWellBehaved(sep);
    SeqPreserves(sep, p);
  }
}
