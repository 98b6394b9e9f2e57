/** Sequential conjunction: `~>`, `<~`, `~` and the tuple-flattening `~` overloads. The right
    operand is run on the same source, from the index where the left operand stopped. */
module Sequential {
  import opened Results
  import opened Parsers

  /** The shape shared by the tuple-building operators: run `lhs`; on success run `rhs` on the
      original source from `lhs`'s next index and combine the two outputs. The result keeps
      `rhs`'s input and next index. */
  function SeqWith<E(!new), A, B, C>(lhs: Parser<E, A>, rhs: Parser<E, B>, combine: (A, B) -> C): (q: Parser<E, C>)
    ensures forall s: seq<E>, i: nat :: lhs(s, i).Failure? ==> q(s, i) == Failure(lhs(s, i).error)
    ensures forall s: seq<E>, i: nat :: lhs(s, i).Success? && rhs(s, lhs(s, i).next).Failure? ==>
      q(s, i) == Failure(rhs(s, lhs(s, i).next).error)
    ensures forall s: seq<E>, i: nat :: lhs(s, i).Success? && rhs(s, lhs(s, i).next).Success? ==>
      q(s, i) == Success(combine(lhs(s, i).output, rhs(s, lhs(s, i).next).output),
                         rhs(s, lhs(s, i).next).input, rhs(s, lhs(s, i).next).next)
  {
    (s: seq<E>, i: nat) =>
      FlatMapResult(lhs(s, i), (a, _, n) => MapResult(rhs(s, n), (b, _, _) => combine(a, b)))
  }

  /** `lhs ~> rhs`: `lhs`'s failure, or exactly what `rhs` gives from `lhs`'s next index. */
  function SeqRight<E(!new), A, B>(lhs: Parser<E, A>, rhs: Parser<E, B>): (q: Parser<E, B>)
    ensures forall s: seq<E>, i: nat :: lhs(s, i).Success? ==> q(s, i) == rhs(s, lhs(s, i).next)
    ensures forall s: seq<E>, i: nat :: lhs(s, i).Failure? ==> q(s, i) == Failure(lhs(s, i).error)
  {
    (s: seq<E>, i: nat) => FlatMapResult(lhs(s, i), (_, _, n) => rhs(s, n))
  }

  /** `lhs <~ rhs`: succeeds exactly when both succeed in turn, with `lhs`'s output and the
      input and next index of `rhs`. */
  function SeqLeft<E(!new), A, B>(lhs: Parser<E, A>, rhs: Parser<E, B>): (q: Parser<E, A>)
    ensures forall s: seq<E>, i: nat :: q(s, i).Success? <==> lhs(s, i).Success? && rhs(s, lhs(s, i).next).Success?
    ensures forall s: seq<E>, i: nat :: lhs(s, i).Failure? ==> q(s, i) == Failure(lhs(s, i).error)
    ensures forall s: seq<E>, i: nat :: lhs(s, i).Success? && rhs(s, lhs(s, i).next).Failure? ==>
      q(s, i) == Failure(rhs(s, lhs(s, i).next).error)
    ensures forall s: seq<E>, i: nat :: q(s, i).Success? ==>
      q(s, i) == Success(lhs(s, i).output, rhs(s, lhs(s, i).next).input, rhs(s, lhs(s, i).next).next)
  {
    (s: seq<E>, i: nat) =>
      FlatMapResult(lhs(s, i), (a, _, n) => MapResult(rhs(s, n), (_, _, _) => a))
  }

  /** `lhs ~ rhs`: succeeds exactly when both succeed in turn, with the pair of outputs and the
      input and next index of `rhs`. */
  function Seq<E(!new), A, B>(lhs: Parser<E, A>, rhs: Parser<E, B>): (q: Parser<E, (A, B)>)
    ensures forall s: seq<E>, i: nat :: q(s, i).Success? <==> lhs(s, i).Success? && rhs(s, lhs(s, i).next).Success?
    ensures forall s: seq<E>, i: nat :: lhs(s, i).Failure? ==> q(s, i) == Failure(lhs(s, i).error)
    ensures forall s: seq<E>, i: nat :: lhs(s, i).Success? && rhs(s, lhs(s, i).next).Failure? ==>
      q(s, i) == Failure(rhs(s, lhs(s, i).next).error)
    ensures forall s: seq<E>, i: nat :: q(s, i).Success? ==>
      q(s, i) == Success((lhs(s, i).output, rhs(s, lhs(s, i).next).output),
                         rhs(s, lhs(s, i).next).input, rhs(s, lhs(s, i).next).next)
  {
    (s: seq<E>, i: nat) =>
      FlatMapResult(lhs(s, i), (a, _, n) => MapResult(rhs(s, n), (b, _, _) => (a, b)))
  }

  /** Replace the output of a success, keeping everything else. */
  function MapOutput<E, O, B>(r: ParseResult<E, O>, f: O -> B): (m: ParseResult<E, B>)
    ensures m.Success? <==> r.Success?
    ensures m.Success? ==> m.output == f(r.output) && m.input == r.input && m.next == r.next
    ensures m.Failure? ==> m.error == r.error
  {
    match r
    case Success(o, input, n) => Success(f(o), input, n)
    case Failure(e) => Failure(e)
  }

  /** Combining the outputs on the way is the same as pairing them with `~` and flattening
      the pair afterwards. */
  lemma {:induction false} SeqWithIsFlattenedSeq<E(!new), A, B, C>(lhs: Parser<E, A>, rhs: Parser<E, B>, combine: (A, B) -> C, flatten: ((A, B)) -> C)
    requires forall a: A, b: B :: combine(a, b) == flatten((a, b))
    ensures forall s: seq<E>, i: nat :: SeqWith(lhs, rhs, combine)(s, i) == MapOutput(Seq(lhs, rhs)(s, i), flatten)
  {
    forall s: seq<E>, i: nat
      ensures SeqWith(lhs, rhs, combine)(s, i) == MapOutput(Seq(lhs, rhs)(s, i), flatten)
    {
      match lhs(s, i)
      case Failure(_) =>
      case Success(a, _, n) =>
        match rhs(s, n)
        case Failure(_) =>
        case Success(b, _, _) =>
          assert combine(a, b) == flatten((a, b));
    }
  }

  function Join3L<T1, T2, T3>(t: (T1, T2), x: T3): (T1, T2, T3) { (t.0, t.1, x) }
  function Flatten3L<T1, T2, T3>(p: ((T1, T2), T3)): (T1, T2, T3) { (p.0.0, p.0.1, p.1) }

  /** `(T1, T2) ~ T3`: the left tuple's components in order, then the right output; the same as
      `~` followed by flattening. */
  function Seq3L<E(!new), T1, T2, T3>(lhs: Parser<E, (T1, T2)>, rhs: Parser<E, T3>): (q: Parser<E, (T1, T2, T3)>)
    ensures forall s: seq<E>, i: nat :: q(s, i) == MapOutput(Seq(lhs, rhs)(s, i), Flatten3L)
  {
    SeqWithIsFlattenedSeq(lhs, rhs, Join3L, Flatten3L);
    SeqWith(lhs, rhs, Join3L)
  }

  function Join3R<T1, T2, T3>(x: T1, t: (T2, T3)): (T1, T2, T3) { (x, t.0, t.1) }
  function Flatten3R<T1, T2, T3>(p: (T1, (T2, T3))): (T1, T2, T3) { (p.0, p.1.0, p.1.1) }

  /** `T1 ~ (T2, T3)`: the left output, then the right tuple's components in order; the same as
      `~` followed by flattening. */
  function Seq3R<E(!new), T1, T2, T3>(lhs: Parser<E, T1>, rhs: Parser<E, (T2, T3)>): (q: Parser<E, (T1, T2, T3)>)
    ensures forall s: seq<E>, i: nat :: q(s, i) == MapOutput(Seq(lhs, rhs)(s, i), Flatten3R)
  {
    SeqWithIsFlattenedSeq(lhs, rhs, Join3R, Flatten3R);
    SeqWith(lhs, rhs, Join3R)
  }

  function Join4L<T1, T2, T3, T4>(t: (T1, T2, T3), x: T4): (T1, T2, T3, T4) { (t.0, t.1, t.2, x) }
  function Flatten4L<T1, T2, T3, T4>(p: ((T1, T2, T3), T4)): (T1, T2, T3, T4) { (p.0.0, p.0.1, p.0.2, p.1) }

  /** `(T1, T2, T3) ~ T4`: the left tuple's components in order, then the right output; the same as
      `~` followed by flattening. */
  function Seq4L<E(!new), T1, T2, T3, T4>(lhs: Parser<E, (T1, T2, T3)>, rhs: Parser<E, T4>): (q: Parser<E, (T1, T2, T3, T4)>)
    ensures forall s: seq<E>, i: nat :: q(s, i) == MapOutput(Seq(lhs, rhs)(s, i), Flatten4L)
  {
    SeqWithIsFlattenedSeq(lhs, rhs, Join4L, Flatten4L);
    SeqWith(lhs, rhs, Join4L)
  }

  function Join4R<T1, T2, T3, T4>(x: T1, t: (T2, T3, T4)): (T1, T2, T3, T4) { (x, t.0, t.1, t.2) }
  function Flatten4R<T1, T2, T3, T4>(p: (T1, (T2, T3, T4))): (T1, T2, T3, T4) { (p.0, p.1.0, p.1.1, p.1.2) }

  /** `T1 ~ (T2, T3, T4)`: the left output, then the right tuple's components in order; the same as
      `~` followed by flattening. */
  function Seq4R<E(!new), T1, T2, T3, T4>(lhs: Parser<E, T1>, rhs: Parser<E, (T2, T3, T4)>): (q: Parser<E, (T1, T2, T3, T4)>)
    ensures forall s: seq<E>, i: nat :: q(s, i) == MapOutput(Seq(lhs, rhs)(s, i), Flatten4R)
  {
    SeqWithIsFlattenedSeq(lhs, rhs, Join4R, Flatten4R);
    SeqWith(lhs, rhs, Join4R)
  }

  function Join5L<T1, T2, T3, T4, T5>(t: (T1, T2, T3, T4), x: T5): (T1, T2, T3, T4, T5) { (t.0, t.1, t.2, t.3, x) }
  function Flatten5L<T1, T2, T3, T4, T5>(p: ((T1, T2, T3, T4), T5)): (T1, T2, T3, T4, T5) { (p.0.0, p.0.1, p.0.2, p.0.3, p.1) }

  /** `(T1, T2, T3, T4) ~ T5`: the left tuple's components in order, then the right output; the same as
      `~` followed by flattening. */
  function Seq5L<E(!new), T1, T2, T3, T4, T5>(lhs: Parser<E, (T1, T2, T3, T4)>, rhs: Parser<E, T5>): (q: Parser<E, (T1, T2, T3, T4, T5)>)
    ensures forall s: seq<E>, i: nat :: q(s, i) == MapOutput(Seq(lhs, rhs)(s, i), Flatten5L)
  {
    SeqWithIsFlattenedSeq(lhs, rhs, Join5L, Flatten5L);
    SeqWith(lhs, rhs, Join5L)
  }

  function Join5R<T1, T2, T3, T4, T5>(x: T1, t: (T2, T3, T4, T5)): (T1, T2, T3, T4, T5) { (x, t.0, t.1, t.2, t.3) }
  function Flatten5R<T1, T2, T3, T4, T5>(p: (T1, (T2, T3, T4, T5))): (T1, T2, T3, T4, T5) { (p.0, p.1.0, p.1.1, p.1.2, p.1.3) }

  /** `T1 ~ (T2, T3, T4, T5)`: the left output, then the right tuple's components in order; the same as
      `~` followed by flattening. */
  function Seq5R<E(!new), T1, T2, T3, T4, T5>(lhs: Parser<E, T1>, rhs: Parser<E, (T2, T3, T4, T5)>): (q: Parser<E, (T1, T2, T3, T4, T5)>)
    ensures forall s: seq<E>, i: nat :: q(s, i) == MapOutput(Seq(lhs, rhs)(s, i), Flatten5R)
  {
    SeqWithIsFlattenedSeq(lhs, rhs, Join5R, Flatten5R);
    SeqWith(lhs, rhs, Join5R)
  }

  function Join6L<T1, T2, T3, T4, T5, T6>(t: (T1, T2, T3, T4, T5), x: T6): (T1, T2, T3, T4, T5, T6) { (t.0, t.1, t.2, t.3, t.4, x) }
  function Flatten6L<T1, T2, T3, T4, T5, T6>(p: ((T1, T2, T3, T4, T5), T6)): (T1, T2, T3, T4, T5, T6) { (p.0.0, p.0.1, p.0.2, p.0.3, p.0.4, p.1) }

  /** `(T1, T2, T3, T4, T5) ~ T6`: the left tuple's components in order, then the right output; the same as
      `~` followed by flattening. */
  function Seq6L<E(!new), T1, T2, T3, T4, T5, T6>(lhs: Parser<E, (T1, T2, T3, T4, T5)>, rhs: Parser<E, T6>): (q: Parser<E, (T1, T2, T3, T4, T5, T6)>)
    ensures forall s: seq<E>, i: nat :: q(s, i) == MapOutput(Seq(lhs, rhs)(s, i), Flatten6L)
  {
    SeqWithIsFlattenedSeq(lhs, rhs, Join6L, Flatten6L);
    SeqWith(lhs, rhs, Join6L)
  }

  function Join6R<T1, T2, T3, T4, T5, T6>(x: T1, t: (T2, T3, T4, T5, T6)): (T1, T2, T3, T4, T5, T6) { (x, t.0, t.1, t.2, t.3, t.4) }
  function Flatten6R<T1, T2, T3, T4, T5, T6>(p: (T1, (T2, T3, T4, T5, T6))): (T1, T2, T3, T4, T5, T6) { (p.0, p.1.0, p.1.1, p.1.2, p.1.3, p.1.4) }

  /** `T1 ~ (T2, T3, T4, T5, T6)`: the left output, then the right tuple's components in order; the same as
      `~` followed by flattening. */
  function Seq6R<E(!new), T1, T2, T3, T4, T5, T6>(lhs: Parser<E, T1>, rhs: Parser<E, (T2, T3, T4, T5, T6)>): (q: Parser<E, (T1, T2, T3, T4, T5, T6)>)
    ensures forall s: seq<E>, i: nat :: q(s, i) == MapOutput(Seq(lhs, rhs)(s, i), Flatten6R)
  {
    SeqWithIsFlattenedSeq(lhs, rhs, Join6R, Flatten6R);
    SeqWith(lhs, rhs, Join6R)
  }

  function Join7L<T1, T2, T3, T4, T5, T6, T7>(t: (T1, T2, T3, T4, T5, T6), x: T7): (T1, T2, T3, T4, T5, T6, T7) { (t.0, t.1, t.2, t.3, t.4, t.5, x) }
  function Flatten7L<T1, T2, T3, T4, T5, T6, T7>(p: ((T1, T2, T3, T4, T5, T6), T7)): (T1, T2, T3, T4, T5, T6, T7) { (p.0.0, p.0.1, p.0.2, p.0.3, p.0.4, p.0.5, p.1) }

  /** `(T1, T2, T3, T4, T5, T6) ~ T7`: the left tuple's components in order, then the right output; the same as
      `~` followed by flattening. */
  function Seq7L<E(!new), T1, T2, T3, T4, T5, T6, T7>(lhs: Parser<E, (T1, T2, T3, T4, T5, T6)>, rhs: Parser<E, T7>): (q: Parser<E, (T1, T2, T3, T4, T5, T6, T7)>)
    ensures forall s: seq<E>, i: nat :: q(s, i) == MapOutput(Seq(lhs, rhs)(s, i), Flatten7L)
  {
    SeqWithIsFlattenedSeq(lhs, rhs, Join7L, Flatten7L);
    SeqWith(lhs, rhs, Join7L)
  }

  function Join7R<T1, T2, T3, T4, T5, T6, T7>(x: T1, t: (T2, T3, T4, T5, T6, T7)): (T1, T2, T3, T4, T5, T6, T7) { (x, t.0, t.1, t.2, t.3, t.4, t.5) }
  function Flatten7R<T1, T2, T3, T4, T5, T6, T7>(p: (T1, (T2, T3, T4, T5, T6, T7))): (T1, T2, T3, T4, T5, T6, T7) { (p.0, p.1.0, p.1.1, p.1.2, p.1.3, p.1.4, p.1.5) }

  /** `T1 ~ (T2, T3, T4, T5, T6, T7)`: the left output, then the right tuple's components in order; the same as
      `~` followed by flattening. */
  function Seq7R<E(!new), T1, T2, T3, T4, T5, T6, T7>(lhs: Parser<E, T1>, rhs: Parser<E, (T2, T3, T4, T5, T6, T7)>): (q: Parser<E, (T1, T2, T3, T4, T5, T6, T7)>)
    ensures forall s: seq<E>, i: nat :: q(s, i) == MapOutput(Seq(lhs, rhs)(s, i), Flatten7R)
  {
    SeqWithIsFlattenedSeq(lhs, rhs, Join7R, Flatten7R);
    SeqWith(lhs, rhs, Join7R)
  }

  function Join8L<T1, T2, T3, T4, T5, T6, T7, T8>(t: (T1, T2, T3, T4, T5, T6, T7), x: T8): (T1, T2, T3, T4, T5, T6, T7, T8) { (t.0, t.1, t.2, t.3, t.4, t.5, t.6, x) }
  function Flatten8L<T1, T2, T3, T4, T5, T6, T7, T8>(p: ((T1, T2, T3, T4, T5, T6, T7), T8)): (T1, T2, T3, T4, T5, T6, T7, T8) { (p.0.0, p.0.1, p.0.2, p.0.3, p.0.4, p.0.5, p.0.6, p.1) }

  /** `(T1, T2, T3, T4, T5, T6, T7) ~ T8`: the left tuple's components in order, then the right output; the same as
      `~` followed by flattening. */
  function Seq8L<E(!new), T1, T2, T3, T4, T5, T6, T7, T8>(lhs: Parser<E, (T1, T2, T3, T4, T5, T6, T7)>, rhs: Parser<E, T8>): (q: Parser<E, (T1, T2, T3, T4, T5, T6, T7, T8)>)
    ensures forall s: seq<E>, i: nat :: q(s, i) == MapOutput(Seq(lhs, rhs)(s, i), Flatten8L)
  {
    SeqWithIsFlattenedSeq(lhs, rhs, Join8L, Flatten8L);
    SeqWith(lhs, rhs, Join8L)
  }

  function Join8R<T1, T2, T3, T4, T5, T6, T7, T8>(x: T1, t: (T2, T3, T4, T5, T6, T7, T8)): (T1, T2, T3, T4, T5, T6, T7, T8) { (x, t.0, t.1, t.2, t.3, t.4, t.5, t.6) }
  function Flatten8R<T1, T2, T3, T4, T5, T6, T7, T8>(p: (T1, (T2, T3, T4, T5, T6, T7, T8))): (T1, T2, T3, T4, T5, T6, T7, T8) { (p.0, p.1.0, p.1.1, p.1.2, p.1.3, p.1.4, p.1.5, p.1.6) }

  /** `T1 ~ (T2, T3, T4, T5, T6, T7, T8)`: the left output, then the right tuple's components in order; the same as
      `~` followed by flattening. */
  function Seq8R<E(!new), T1, T2, T3, T4, T5, T6, T7, T8>(lhs: Parser<E, T1>, rhs: Parser<E, (T2, T3, T4, T5, T6, T7, T8)>): (q: Parser<E, (T1, T2, T3, T4, T5, T6, T7, T8)>)
    ensures forall s: seq<E>, i: nat :: q(s, i) == MapOutput(Seq(lhs, rhs)(s, i), Flatten8R)
  {
    SeqWithIsFlattenedSeq(lhs, rhs, Join8R, Flatten8R);
    SeqWith(lhs, rhs, Join8R)
  }

  function Join9L<T1, T2, T3, T4, T5, T6, T7, T8, T9>(t: (T1, T2, T3, T4, T5, T6, T7, T8), x: T9): (T1, T2, T3, T4, T5, T6, T7, T8, T9) { (t.0, t.1, t.2, t.3, t.4, t.5, t.6, t.7, x) }
  function Flatten9L<T1, T2, T3, T4, T5, T6, T7, T8, T9>(p: ((T1, T2, T3, T4, T5, T6, T7, T8), T9)): (T1, T2, T3, T4, T5, T6, T7, T8, T9) { (p.0.0, p.0.1, p.0.2, p.0.3, p.0.4, p.0.5, p.0.6, p.0.7, p.1) }

  /** `(T1, T2, T3, T4, T5, T6, T7, T8) ~ T9`: the left tuple's components in order, then the right output; the same as
      `~` followed by flattening. */
  function Seq9L<E(!new), T1, T2, T3, T4, T5, T6, T7, T8, T9>(lhs: Parser<E, (T1, T2, T3, T4, T5, T6, T7, T8)>, rhs: Parser<E, T9>): (q: Parser<E, (T1, T2, T3, T4, T5, T6, T7, T8, T9)>)
    ensures forall s: seq<E>, i: nat :: q(s, i) == MapOutput(Seq(lhs, rhs)(s, i), Flatten9L)
  {
    SeqWithIsFlattenedSeq(lhs, rhs, Join9L, Flatten9L);
    SeqWith(lhs, rhs, Join9L)
  }

  function Join9R<T1, T2, T3, T4, T5, T6, T7, T8, T9>(x: T1, t: (T2, T3, T4, T5, T6, T7, T8, T9)): (T1, T2, T3, T4, T5, T6, T7, T8, T9) { (x, t.0, t.1, t.2, t.3, t.4, t.5, t.6, t.7) }
  function Flatten9R<T1, T2, T3, T4, T5, T6, T7, T8, T9>(p: (T1, (T2, T3, T4, T5, T6, T7, T8, T9))): (T1, T2, T3, T4, T5, T6, T7, T8, T9) { (p.0, p.1.0, p.1.1, p.1.2, p.1.3, p.1.4, p.1.5, p.1.6, p.1.7) }

  /** `T1 ~ (T2, T3, T4, T5, T6, T7, T8, T9)`: the left output, then the right tuple's components in order; the same as
      `~` followed by flattening. */
  function Seq9R<E(!new), T1, T2, T3, T4, T5, T6, T7, T8, T9>(lhs: Parser<E, T1>, rhs: Parser<E, (T2, T3, T4, T5, T6, T7, T8, T9)>): (q: Parser<E, (T1, T2, T3, T4, T5, T6, T7, T8, T9)>)
    ensures forall s: seq<E>, i: nat :: q(s, i) == MapOutput(Seq(lhs, rhs)(s, i), Flatten9R)
  {
    SeqWithIsFlattenedSeq(lhs, rhs, Join9R, Flatten9R);
    SeqWith(lhs, rhs, Join9R)
  }

  function Join10L<T1, T2, T3, T4, T5, T6, T7, T8, T9, T10>(t: (T1, T2, T3, T4, T5, T6, T7, T8, T9), x: T10): (T1, T2, T3, T4, T5, T6, T7, T8, T9, T10) { (t.0, t.1, t.2, t.3, t.4, t.5, t.6, t.7, t.8, x) }
  function Flatten10L<T1, T2, T3, T4, T5, T6, T7, T8, T9, T10>(p: ((T1, T2, T3, T4, T5, T6, T7, T8, T9), T10)): (T1, T2, T3, T4, T5, T6, T7, T8, T9, T10) { (p.0.0, p.0.1, p.0.2, p.0.3, p.0.4, p.0.5, p.0.6, p.0.7, p.0.8, p.1) }

  /** `(T1, T2, T3, T4, T5, T6, T7, T8, T9) ~ T10`: the left tuple's components in order, then the right output; the same as
      `~` followed by flattening. */
  function Seq10L<E(!new), T1, T2, T3, T4, T5, T6, T7, T8, T9, T10>(lhs: Parser<E, (T1, T2, T3, T4, T5, T6, T7, T8, T9)>, rhs: Parser<E, T10>): (q: Parser<E, (T1, T2, T3, T4, T5, T6, T7, T8, T9, T10)>)
    ensures forall s: seq<E>, i: nat :: q(s, i) == MapOutput(Seq(lhs, rhs)(s, i), Flatten10L)
  {
    SeqWithIsFlattenedSeq(lhs, rhs, Join10L, Flatten10L);
    SeqWith(lhs, rhs, Join10L)
  }

  function Join10R<T1, T2, T3, T4, T5, T6, T7, T8, T9, T10>(x: T1, t: (T2, T3, T4, T5, T6, T7, T8, T9, T10)): (T1, T2, T3, T4, T5, T6, T7, T8, T9, T10) { (x, t.0, t.1, t.2, t.3, t.4, t.5, t.6, t.7, t.8) }
  function Flatten10R<T1, T2, T3, T4, T5, T6, T7, T8, T9, T10>(p: (T1, (T2, T3, T4, T5, T6, T7, T8, T9, T10))): (T1, T2, T3, T4, T5, T6, T7, T8, T9, T10) { (p.0, p.1.0, p.1.1, p.1.2, p.1.3, p.1.4, p.1.5, p.1.6, p.1.7, p.1.8) }

  /** `T1 ~ (T2, T3, T4, T5, T6, T7, T8, T9, T10)`: the left output, then the right tuple's components in order; the same as
      `~` followed by flattening. */
  function Seq10R<E(!new), T1, T2, T3, T4, T5, T6, T7, T8, T9, T10>(lhs: Parser<E, T1>, rhs: Parser<E, (T2, T3, T4, T5, T6, T7, T8, T9, T10)>): (q: Parser<E, (T1, T2, T3, T4, T5, T6, T7, T8, T9, T10)>)
    ensures forall s: seq<E>, i: nat :: q(s, i) == MapOutput(Seq(lhs, rhs)(s, i), Flatten10R)
  {
    SeqWithIsFlattenedSeq(lhs, rhs, Join10R, Flatten10R);
    SeqWith(lhs, rhs, Join10R)
  }

  function Join11L<T1, T2, T3, T4, T5, T6, T7, T8, T9, T10, T11>(t: (T1, T2, T3, T4, T5, T6, T7, T8, T9, T10), x: T11): (T1, T2, T3, T4, T5, T6, T7, T8, T9, T10, T11) { (t.0, t.1, t.2, t.3, t.4, t.5, t.6, t.7, t.8, t.9, x) }
  function Flatten11L<T1, T2, T3, T4, T5, T6, T7, T8, T9, T10, T11>(p: ((T1, T2, T3, T4, T5, T6, T7, T8, T9, T10), T11)): (T1, T2, T3, T4, T5, T6, T7, T8, T9, T10, T11) { (p.0.0, p.0.1, p.0.2, p.0.3, p.0.4, p.0.5, p.0.6, p.0.7, p.0.8, p.0.9, p.1) }

  /** `(T1, T2, T3, T4, T5, T6, T7, T8, T9, T10) ~ T11`: the left tuple's components in order, then the right output; the same as
      `~` followed by flattening. */
  function Seq11L<E(!new), T1, T2, T3, T4, T5, T6, T7, T8, T9, T10, T11>(lhs: Parser<E, (T1, T2, T3, T4, T5, T6, T7, T8, T9, T10)>, rhs: Parser<E, T11>): (q: Parser<E, (T1, T2, T3, T4, T5, T6, T7, T8, T9, T10, T11)>)
    ensures forall s: seq<E>, i: nat :: q(s, i) == MapOutput(Seq(lhs, rhs)(s, i), Flatten11L)
  {
    SeqWithIsFlattenedSeq(lhs, rhs, Join11L, Flatten11L);
    SeqWith(lhs, rhs, Join11L)
  }

  function Join11R<T1, T2, T3, T4, T5, T6, T7, T8, T9, T10, T11>(x: T1, t: (T2, T3, T4, T5, T6, T7, T8, T9, T10, T11)): (T1, T2, T3, T4, T5, T6, T7, T8, T9, T10, T11) { (x, t.0, t.1, t.2, t.3, t.4, t.5, t.6, t.7, t.8, t.9) }
  function Flatten11R<T1, T2, T3, T4, T5, T6, T7, T8, T9, T10, T11>(p: (T1, (T2, T3, T4, T5, T6, T7, T8, T9, T10, T11))): (T1, T2, T3, T4, T5, T6, T7, T8, T9, T10, T11) { (p.0, p.1.0, p.1.1, p.1.2, p.1.3, p.1.4, p.1.5, p.1.6, p.1.7, p.1.8, p.1.9) }

  /** `T1 ~ (T2, T3, T4, T5, T6, T7, T8, T9, T10, T11)`: the left output, then the right tuple's components in order; the same as
      `~` followed by flattening. */
  function Seq11R<E(!new), T1, T2, T3, T4, T5, T6, T7, T8, T9, T10, T11>(lhs: Parser<E, T1>, rhs: Parser<E, (T2, T3, T4, T5, T6, T7, T8, T9, T10, T11)>): (q: Parser<E, (T1, T2, T3, T4, T5, T6, T7, T8, T9, T10, T11)>)
    ensures forall s: seq<E>, i: nat :: q(s, i) == MapOutput(Seq(lhs, rhs)(s, i), Flatten11R)
  {
    SeqWithIsFlattenedSeq(lhs, rhs, Join11R, Flatten11R);
    SeqWith(lhs, rhs, Join11R)
  }

  // ---------------------------------------------------------------------------------------
  // Laws

  /** `rhs` is not consulted when `lhs` fails: any two right operands give the same result. */
  lemma RhsUnusedOnFailure<E(!new), A, B>(lhs: Parser<E, A>, rhs1: Parser<E, B>, rhs2: Parser<E, B>, s: seq<E>, i: nat)
    requires lhs(s, i).Failure?
    ensures SeqRight(lhs, rhs1)(s, i) == SeqRight(lhs, rhs2)(s, i)
    ensures SeqLeft(lhs, rhs1)(s, i) == SeqLeft(lhs, rhs2)(s, i)
    ensures Seq(lhs, rhs1)(s, i) == Seq(lhs, rhs2)(s, i)
  {
  }

  /** Grouping does not matter: `(p ~ q) ~ r` and `p ~ (q ~ r)` give the same flattened triple,
      the same input, next index and error. */
  lemma {:induction false} SeqAssociative<E(!new), A, B, C>(p: Parser<E, A>, q: Parser<E, B>, r: Parser<E, C>, s: seq<E>, i: nat)
    ensures Seq3L(Seq(p, q), r)(s, i) == Seq3R(p, Seq(q, r))(s, i)
  {
    match p(s, i)
    case Failure(_) =>
    case Success(a, _, n1) =>
      match q(s, n1)
      case Failure(_) =>
      case Success(b, _, n2) =>
        match r(s, n2)
        case Failure(_) =>
        case Success(c, _, _) =>
  }

  /** Sequencing keeps the discipline, and consumes when the left operand consumes. */
  lemma {:induction false} SeqPreserves<E(!new), A, B>(lhs: Parser<E, A>, rhs: Parser<E, B>)
    requires WellBehaved(lhs) && WellBehaved(rhs)
    ensures WellBehaved(Seq(lhs, rhs)) && WellBehaved(SeqLeft(lhs, rhs)) && WellBehaved(SeqRight(lhs, rhs))
    ensures Consumes(lhs) ==> Consumes(Seq(lhs, rhs)) && Consumes(SeqLeft(lhs, rhs)) && Consumes(SeqRight(lhs, rhs))
  {
    forall s: seq<E>, i: nat | i <= |s| && lhs(s, i).Success?
      ensures Behaves(rhs(s, lhs(s, i).next), s, lhs(s, i).next)
    {
    }
    if Consumes(lhs) {
      forall s: seq<E>, i: nat | lhs(s, i).Success?
        ensures Behaves(rhs(s, lhs(s, i).next), s, lhs(s, i).next)
      {
      }
    }
  }
}
