/** The two loops the leaf scanners share. `string` matches a literal element by element;
    `elemWhilePred`, `satisfy(_:min:max:)`, `charWhilePred` and the continuation run of `char`
    consume the run of elements a predicate accepts. Each loop is a method proved equal to a
    recursive specification function, whose result is characterised exactly by lemmas. */
module Scanning {
  import opened Options

  /** How matching a literal from `index` ends: every element matched (ending at `next`), or the
      source ran out before element `k` of the literal, or element `k` differs. */
  datatype LiteralOutcome<E> =
    | Matched(next: nat)
    | RanOut(k: nat)
    | Mismatch(k: nat, expected: E, got: E)

  /** The first `k` elements of `lit` lie before `end` and agree with the source from `index`. */
  ghost predicate Agree<E>(lit: seq<E>, s: seq<E>, index: nat, end: int, k: nat) {
    forall j | 0 <= j < k :: index + j < end && j < |lit| && index + j < |s| && s[index + j] == lit[j]
  }

  /** Matching `lit` from `index` when its first `k` elements have matched already; `end` is the
      first position the scanner may not read. */
  function MatchFrom<E(==)>(lit: seq<E>, s: seq<E>, index: nat, end: int, k: nat): (r: LiteralOutcome<E>)
    requires end <= |s| && k <= |lit|
    decreases |lit| - k
    ensures match r
      case Matched(n) => n == index + |lit| && (k < |lit| ==> n <= end)
      case RanOut(m) => k <= m < |lit| && index + m >= end
      case Mismatch(m, e, g) => k <= m < |lit| && index + m < end && e == lit[m] && g == s[index + m] && e != g
  {
    if k == |lit| then Matched(index + k)
    else if index + k >= end then RanOut(k)
    else if lit[k] != s[index + k] then Mismatch(k, lit[k], s[index + k])
    else MatchFrom(lit, s, index, end, k + 1)
  }

  /** Matching all of `lit` from `index`. */
  function Literal<E(==)>(lit: seq<E>, s: seq<E>, index: nat, end: int): (r: LiteralOutcome<E>)
    requires end <= |s|
    ensures match r
      case Matched(n) => n == index + |lit| && (lit != [] ==> n <= end)
      case RanOut(m) => m < |lit| && index + m >= end
      case Mismatch(m, e, g) => m < |lit| && index + m < end && e == lit[m] && g == s[index + m] && e != g
  {
    MatchFrom(lit, s, index, end, 0)
  }

  /** What `MatchFrom` returns, given that the first `k` elements agree. */
  lemma {:induction false} MatchFromSound<E>(lit: seq<E>, s: seq<E>, index: nat, end: int, k: nat)
    requires end <= |s| && k <= |lit| && Agree(lit, s, index, end, k)
    decreases |lit| - k
    ensures match MatchFrom(lit, s, index, end, k)
      case Matched(n) => n == index + |lit| && Agree(lit, s, index, end, |lit|)
      case RanOut(m) => k <= m < |lit| && Agree(lit, s, index, end, m) && index + m >= end
      case Mismatch(m, e, g) =>
        k <= m < |lit| && Agree(lit, s, index, end, m) && index + m < end &&
        e == lit[m] && g == s[index + m] && e != g
  {
    if k < |lit| && index + k < end && lit[k] == s[index + k] {
      assert Agree(lit, s, index, end, k + 1) by {
        forall j | 0 <= j < k + 1
          ensures index + j < end && j < |lit| && index + j < |s| && s[index + j] == lit[j]
        {
          if j < k {
            assert index + j < end && s[index + j] == lit[j];
          }
        }
      }
      MatchFromSound(lit, s, index, end, k + 1);
    }
  }

  /** Two stopping points that both have an agreeing prefix and a clash (or the end) right after
      it are the same point. */
  lemma StopUnique<E>(lit: seq<E>, s: seq<E>, index: nat, end: int, m1: nat, m2: nat)
    requires end <= |s|
    requires m1 < |lit| && Agree(lit, s, index, end, m1) && (index + m1 >= end || s[index + m1] != lit[m1])
    requires m2 <= |lit| && Agree(lit, s, index, end, m2)
    ensures m2 <= m1
  {
    if m1 < m2 {
      assert false;
    }
  }

  /** Exactly when matching `lit` succeeds, runs out, or meets a mismatch. */
  lemma LiteralCases<E>(lit: seq<E>, s: seq<E>, index: nat, end: int, k: nat, e: E, g: E)
    requires end <= |s|
    ensures Literal(lit, s, index, end).Matched? <==> Agree(lit, s, index, end, |lit|)
    ensures Literal(lit, s, index, end).Matched? ==> Literal(lit, s, index, end).next == index + |lit|
    ensures Literal(lit, s, index, end) == RanOut(k) <==>
      k < |lit| && Agree(lit, s, index, end, k) && index + k >= end
    ensures Literal(lit, s, index, end) == Mismatch(k, e, g) <==>
      k < |lit| && Agree(lit, s, index, end, k) && index + k < end &&
      e == lit[k] && g == s[index + k] && e != g
  {
    MatchFromSound(lit, s, index, end, 0);
    match Literal(lit, s, index, end)
    case Matched(_) =>
      if k < |lit| {
        assert index + k < end && s[index + k] == lit[k];
      }
    case RanOut(m) =>
      BreakEndsAgreement(lit, s, index, end, m, |lit|);
      if k < |lit| && Agree(lit, s, index, end, k) && (index + k >= end || s[index + k] != lit[k]) {
        StopUnique(lit, s, index, end, k, m);
        StopUnique(lit, s, index, end, m, k);
      }
    case Mismatch(m, _, _) =>
      BreakEndsAgreement(lit, s, index, end, m, |lit|);
      if k < |lit| && Agree(lit, s, index, end, k) && (index + k >= end || s[index + k] != lit[k]) {
        StopUnique(lit, s, index, end, k, m);
        StopUnique(lit, s, index, end, m, k);
      }
  }

  /** No prefix longer than `m` agrees once the source has ended, or differs, at position `m`. */
  lemma BreakEndsAgreement<E>(lit: seq<E>, s: seq<E>, index: nat, end: int, m: nat, n: nat)
    requires end <= |s| && m < n && m < |lit|
    requires index + m >= end || s[index + m] != lit[m]
    ensures !Agree(lit, s, index, end, n)
  {
    var expected := lit[m];  // the element agreement would have to find at `index + m`
  }

  /** A full match of a non-empty literal is the slice of the source, ending by `end`. */
  lemma AgreeIsSlice<E>(lit: seq<E>, s: seq<E>, index: nat, end: int)
    requires end <= |s|
    ensures Agree(lit, s, index, end, |lit|) <==>
      lit == [] || (index + |lit| <= end && s[index..index + |lit|] == lit)
  {
    if index + |lit| <= end && s[index..index + |lit|] == lit {
      forall j | 0 <= j < |lit|
        ensures index + j < end && s[index + j] == lit[j]
      {
        assert s[index..index + |lit|][j] == s[index + j];
      }
    }
    if Agree(lit, s, index, end, |lit|) && |lit| > 0 {
      var last := |lit| - 1;
      var e := lit[last];
      assert index + last < end && s[index + last] == e;
      forall j | 0 <= j < |lit|
        ensures s[index..index + |lit|][j] == lit[j]
      {
        assert s[index + j] == lit[j];
      }
    }
  }

  /** The `for c in string` loop of `string`: step through the literal, stop when the source
      ends or an element differs. */
  method ScanLiteral<E(==)>(lit: seq<E>, s: seq<E>, index: nat, end: int) returns (r: LiteralOutcome<E>)
    requires end <= |s|
    ensures r == Literal(lit, s, index, end)
  {
    var i := index;
    for k := 0 to |lit|
      invariant i == index + k
      invariant MatchFrom(lit, s, index, end, k) == Literal(lit, s, index, end)
    {
      if i >= end {
        return RanOut(k);
      }
      if lit[k] != s[i] {
        return Mismatch(k, lit[k], s[i]);
      }
      i := i + 1;
    }
    return Matched(i);
  }

  /** The loop guard `max == nil || count < max!`. */
  predicate BelowMax(max: Option<int>, count: nat) {
    max.None? || count < max.value
  }

  /** The run consumed by a `while` loop over the elements that `f` accepts, from `index`, after
      `count` elements: it stops at `max`, at `end`, or before the first element `f` rejects. */
  function RunFrom<E>(f: E -> bool, max: Option<int>, s: seq<E>, index: nat, end: int, count: nat): (r: nat)
    requires end <= |s|
    decreases end - (index + count)
    ensures count <= r
    ensures r > count ==> index + r <= end && BelowMax(max, r - 1)
  {
    if BelowMax(max, count) && index + count < end && f(s[index + count])
    then RunFrom(f, max, s, index, end, count + 1)
    else count
  }

  /** The length of the whole run from `index`. */
  function Run<E>(f: E -> bool, max: Option<int>, s: seq<E>, index: nat, end: int): (r: nat)
    requires end <= |s|
    ensures r > 0 ==> index + r <= end && BelowMax(max, r - 1)
  {
    RunFrom(f, max, s, index, end, 0)
  }

  /** `n` is the length of a maximal run: its elements lie before `end` and satisfy `f`, every
      step was allowed by `max`, and the next step is not possible. */
  ghost predicate IsRun<E>(f: E -> bool, max: Option<int>, s: seq<E>, index: nat, end: int, n: nat)
    requires end <= |s|
  {
    (n == 0 || index + n <= end) &&
    (forall k | index <= k < index + n :: k < end && f(s[k])) &&
    (n == 0 || BelowMax(max, n - 1)) &&
    !(BelowMax(max, n) && index + n < end && f(s[index + n]))
  }

  lemma {:induction false} RunFromIsRun<E>(f: E -> bool, max: Option<int>, s: seq<E>, index: nat, end: int, count: nat)
    requires end <= |s|
    requires count == 0 || index + count <= end
    requires forall k | index <= k < index + count :: k < end && f(s[k])
    requires count == 0 || BelowMax(max, count - 1)
    decreases end - (index + count)
    ensures IsRun(f, max, s, index, end, RunFrom(f, max, s, index, end, count))
  {
    if BelowMax(max, count) && index + count < end && f(s[index + count]) {
      RunFromIsRun(f, max, s, index, end, count + 1);
    }
  }

  /** `Run` is a maximal run, and the only one: the loop consumes exactly the run. */
  lemma RunCharacterized<E>(f: E -> bool, max: Option<int>, s: seq<E>, index: nat, end: int, m: nat)
    requires end <= |s|
    ensures IsRun(f, max, s, index, end, Run(f, max, s, index, end))
    ensures IsRun(f, max, s, index, end, m) <==> m == Run(f, max, s, index, end)
  {
    RunFromIsRun(f, max, s, index, end, 0);
    if IsRun(f, max, s, index, end, m) {
      RunFromReaches(f, max, s, index, end, m, 0);
    }
  }

  /** The counting recursion started below the length of a maximal run reaches that length. */
  lemma {:induction false} RunFromReaches<E>(f: E -> bool, max: Option<int>, s: seq<E>, index: nat, end: int, m: nat, count: nat)
    requires end <= |s| && count <= m
    requires m == 0 || index + m <= end
    requires forall k | index <= k < index + m :: k < end && f(s[k])
    requires m == 0 || BelowMax(max, m - 1)
    requires !(BelowMax(max, m) && index + m < end && f(s[index + m]))
    decreases m - count
    ensures RunFrom(f, max, s, index, end, count) == m
  {
    if count < m {
      var k := index + count;
      assert f(s[k]);
      assert BelowMax(max, count);
      RunFromReaches(f, max, s, index, end, m, count + 1);
    }
  }

  /** The elements of a sequence, as a set (`Set(elems)`). */
  function Elements<E(!new)>(elems: seq<E>): (r: set<E>)
    ensures forall e :: e in r <==> e in elems
  {
    set e | e in elems
  }

  /** `set.contains`, as a predicate. */
  function Member<E(==)>(elems: set<E>): E -> bool {
    e => e in elems
  }

  /** Membership in a sequence, as a predicate. */
  function Listed<E(==)>(elems: seq<E>): E -> bool {
    e => e in elems
  }

  /** Membership in the set of a sequence's elements is membership in the sequence, so both
      give the same runs. */
  lemma ElementsRun<E(!new)>(elems: seq<E>, max: Option<int>)
    ensures forall s: seq<E>, index: nat, end: int | end <= |s| ::
      Run(Member(Elements(elems)), max, s, index, end) == Run(Listed(elems), max, s, index, end)
  {
    RunExt(Member(Elements(elems)), Listed(elems), max);
  }

  /** Two predicates that accept the same elements give the same run. */
  lemma {:induction false} RunFromExt<E>(f: E -> bool, g: E -> bool, max: Option<int>, s: seq<E>, index: nat, end: int, count: nat)
    requires end <= |s| && forall e :: f(e) == g(e)
    decreases end - (index + count)
    ensures RunFrom(f, max, s, index, end, count) == RunFrom(g, max, s, index, end, count)
  {
    if BelowMax(max, count) && index + count < end && f(s[index + count]) {
      RunFromExt(f, g, max, s, index, end, count + 1);
    }
  }

  /** `Run` depends only on which elements the predicate accepts. */
  lemma RunExt<E>(f: E -> bool, g: E -> bool, max: Option<int>)
    requires forall e :: f(e) == g(e)
    ensures forall s: seq<E>, index: nat, end: int | end <= |s| :: Run(f, max, s, index, end) == Run(g, max, s, index, end)
  {
    forall s: seq<E>, index: nat, end: int | end <= |s|
      ensures Run(f, max, s, index, end) == Run(g, max, s, index, end)
    {
      RunFromExt(f, g, max, s, index, end, 0);
    }
  }

  /** A run never reaches past `end` (nor past `max`, when one is given and not negative). */
  lemma RunBounds<E>(f: E -> bool, max: Option<int>, s: seq<E>, index: nat, end: int)
    requires end <= |s|
    ensures var n := Run(f, max, s, index, end);
      (n == 0 || index + n <= end) && (max.Some? && n > 0 ==> n <= max.value)
  {
    var n := Run(f, max, s, index, end);
    RunCharacterized(f, max, s, index, end, n);
    if n > 0 {
      var k := index + n - 1;
      assert k < end && f(s[k]);
    }
  }

  /** The `n` elements consumed from `i`: a slice, empty when nothing was consumed (even from an
      index past the end). */
  function Span<E>(s: seq<E>, i: nat, n: nat): (r: seq<E>)
    requires n == 0 || i + n <= |s|
    ensures |r| == n && forall k | 0 <= k < n :: r[k] == s[i + k]
  {
    if n == 0 then [] else s[i..i + n]
  }

  /** The `while` loop itself: count the elements `f` accepts, from `index`. */
  method ScanWhile<E>(f: E -> bool, max: Option<int>, s: seq<E>, index: nat, end: int) returns (count: nat)
    requires end <= |s|
    ensures count == Run(f, max, s, index, end)
  {
    count := 0;
    var i := index;
    while BelowMax(max, count) && i < end && f(s[i])
      invariant i == index + count
      invariant RunFrom(f, max, s, index, end, count) == Run(f, max, s, index, end)
      decreases end - i
    {
      count := count + 1;
      i := i + 1;
    }
  }

  /** A UTF-8 code unit. */
  newtype Byte = b: int | 0 <= b < 0x100

  /** `UTF8.isContinuation`: the byte has the form `10xxxxxx`. */
  predicate IsContinuation(b: Byte) {
    (b as bv8) & 0xC0 == 0x80
  }

  /** The continuation bytes are exactly 0x80 to 0xBF (section 3 of RFC 3629). */
  lemma ContinuationRange(b: Byte)
    ensures IsContinuation(b) <==> 0x80 <= b <= 0xBF
  {
  }
}
