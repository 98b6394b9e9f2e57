/** `StringParser`: the leaf scanners over the characters of a string. The source ends at its
    last character, and the outputs are the characters consumed. */
module Strings {
  import opened Errors
  import opened Options
  import opened Results
  import opened Parsers
  import opened Scanning
  import opened Conjunction

  /** The result of `string(lit)` once its loop has stopped. */
  function StringOutcome(lit: string, s: string, r: LiteralOutcome<char>): ParseResult<char, string> {
    match r
    case Matched(n) => Success(lit, s, n)
    case RanOut(_) => Failure(NoMoreSource)
    case Mismatch(_, e, g) => Failure(UnexpectedCharacter(e, g))
  }

  /** `string(lit)`: the characters of `lit`, one after another from `index`. */
  function String(lit: string): (p: Parser<char, string>)
    ensures forall s: string, i: nat :: p(s, i).Success? ==>
      p(s, i) == Success(lit, s, i + |lit|) && (lit != [] ==> i + |lit| <= |s|)
    ensures forall s: string, i: nat :: p(s, i).Failure? ==> lit != [] && (p(s, i).error == NoMoreSource || p(s, i).error.UnexpectedCharacter?)
  {
    (s: string, i: nat) => StringOutcome(lit, s, Literal(lit, s, i, |s|))
  }

  /** `string(lit)` succeeds exactly when `lit` follows `index`, and ends right after it; it
      fails with `noMoreSource` when the source ends first, and with `unexpectedCharacter` on the
      first character that differs. */
  lemma StringCases(lit: string, s: string, i: nat, k: nat)
    ensures String(lit)(s, i).Success? <==> lit == [] || (i + |lit| <= |s| && s[i..i + |lit|] == lit)
    ensures String(lit)(s, i).Success? ==> String(lit)(s, i) == Success(lit, s, i + |lit|)
    ensures k < |lit| && Agree(lit, s, i, |s|, k) && i + k >= |s| ==>
      String(lit)(s, i) == Failure(NoMoreSource)
    ensures k < |lit| && Agree(lit, s, i, |s|, k) && i + k < |s| && s[i + k] != lit[k] ==>
      String(lit)(s, i) == Failure(UnexpectedCharacter(lit[k], s[i + k]))
  {
    AgreeIsSlice(lit, s, i, |s|);
    if k < |lit| && Agree(lit, s, i, |s|, k) && i + k < |s| && s[i + k] != lit[k] {
      LiteralCases(lit, s, i, |s|, k, lit[k], s[i + k]);
    } else {
      LiteralCases(lit, s, i, |s|, k, ' ', ' ');
    }
  }

  /** The closure of `string(lit)`: the literal loop, then its result. */
  method StringParse(lit: string, s: string, index: nat) returns (r: ParseResult<char, string>)
    ensures r == String(lit)(s, index)
  {
    var outcome := ScanLiteral(lit, s, index, |s|);
    r := StringOutcome(lit, s, outcome);
  }

  /** `string("abc")` on "abc" gives "abc" and ends at the end. */
  lemma StringAbc()
    ensures String("abc")("abc", 0) == Success("abc", "abc", 3)
  {
    StringCases("abc", "abc", 0, 0);
  }

  /** `char(c)`: the character `c` at `index`; `noMoreSource` at the end, and
      `unexpectedCharacter` on another character. */
  function Char(c: char): (p: Parser<char, char>)
    ensures Consumes(p)
    ensures forall s: string, i: nat :: p(s, i).Success? <==> i < |s| && s[i] == c
    ensures forall s: string, i: nat :: p(s, i).Success? ==> p(s, i) == Success(c, s, i + 1)
    ensures forall s: string, i: nat :: i >= |s| ==> p(s, i) == Failure(NoMoreSource)
    ensures forall s: string, i: nat :: i < |s| && s[i] != c ==> p(s, i) == Failure(UnexpectedCharacter(c, s[i]))
  {
    (s: string, i: nat) =>
      if i >= |s| then Failure(NoMoreSource)
      else if s[i] == c then Success(c, s, i + 1)
      else Failure(UnexpectedCharacter(c, s[i]))
  }

  /** `one`: the character at `index`; `noMoreSource` at the end. */
  function One(): (p: Parser<char, char>)
    ensures Consumes(p)
    ensures forall s: string, i: nat :: p(s, i).Success? <==> i < |s|
    ensures forall s: string, i: nat :: i < |s| ==> p(s, i) == Success(s[i], s, i + 1)
    ensures forall s: string, i: nat :: p(s, i).Failure? ==> p(s, i).error == NoMoreSource
  {
    (s: string, i: nat) => if i < |s| then Success(s[i], s, i + 1) else Failure(NoMoreSource)
  }

  /** Repeated `one` from `i` reads every character from `i` to the end, one by one. */
  lemma {:induction false} OneChain(s: string, i: nat)
    requires i <= |s|
    decreases |s| - i
    ensures Chain(One(), s, i, s[i..], |s|)
  {
    if i < |s| {
      OneChain(s, i + 1);
      assert s[i..][1..] == s[i + 1..];
    }
  }

  /** The loop of `one.rep` from the start collects every character of the source. */
  lemma OneLoopReads(s: string)
    ensures RepeatLoop(One(), None, s, 0, []) == (s, |s|)
  {
    OneChain(s, 0);
    assert s[0..] == s;
    assert Chain(One(), s, 0, s, |s|);
    assert One()(s, |s|).Failure?;
    assert Stopped(One(), None, s, s, |s|) && WithinMax(None, s);
    RepeatLoopCharacterized(One(), None, s, 0, s, |s|);
  }

  /** `one.rep(1)` over a non-empty source gives back all of its characters, in order; so over
      "abc" it gives "abc". */
  lemma OneRepReconstructs(s: string)
    requires |s| >= 1
    ensures Rep(One(), 1, None)(s, 0) == Success(s, s, |s|)
  {
    OneLoopReads(s);
    assert Rep(One(), 1, None)(s, 0) == Repeat(One(), 1, None, s, 0);
  }

  /** `string(length: n)`: the next `n` characters; `noMoreSource` when fewer remain. A negative
      length makes the source's range construction trap, so `n` is a `nat`. */
  function StringOfLength(n: nat): (p: Parser<char, string>)
    ensures WellBehaved(p)
    ensures forall s: string, i: nat :: p(s, i).Success? <==> i + n <= |s|
    ensures forall s: string, i: nat :: i + n <= |s| ==> p(s, i) == Success(s[i..i + n], s, i + n)
    ensures forall s: string, i: nat :: p(s, i).Failure? ==> p(s, i).error == NoMoreSource
  {
    (s: string, i: nat) => if i + n <= |s| then Success(s[i..i + n], s, i + n) else Failure(NoMoreSource)
  }

  /** `charPred(f)`: one character that `f` accepts; `noMoreSource` at the end. */
  function CharPred(f: char -> bool): (p: Parser<char, char>)
    ensures Consumes(p)
    ensures forall s: string, i: nat :: p(s, i).Success? <==> i < |s| && f(s[i])
    ensures forall s: string, i: nat :: p(s, i).Success? ==> p(s, i) == Success(s[i], s, i + 1)
    ensures forall s: string, i: nat :: i >= |s| ==> p(s, i) == Failure(NoMoreSource)
    ensures forall s: string, i: nat :: i < |s| && !f(s[i]) ==> p(s, i) == Failure(Generic("[WIP]"))
  {
    (s: string, i: nat) =>
      if i >= |s| then Failure(NoMoreSource)
      else if f(s[i]) then Success(s[i], s, i + 1)
      else Failure(Generic("[WIP]"))
  }

  /** The result of `charWhilePred(f, min:, max:)` after its loop counted `count` characters. */
  function WhileOutcome(min: int, s: string, i: nat, count: nat): ParseResult<char, string>
    requires count == 0 || i + count <= |s|
  {
    if count >= min then Success(Span(s, i, count), s, i + count)
    else Failure(ExpectedAtLeastGot(min, count))
  }

  /** `charWhilePred(f, min:, max:)` from `i`. */
  function CharWhilePredAt(f: char -> bool, min: int, max: Option<int>, s: string, i: nat): (r: ParseResult<char, string>)
    ensures r.Success? ==> r.input == s && i <= r.next
    ensures r.Success? && i <= |s| ==> r.next <= |s|
  {
    RunBounds(f, max, s, i, |s|);
    WhileOutcome(min, s, i, Run(f, max, s, i, |s|))
  }

  /** `charWhilePred(f, min:, max:)`: the run of characters `f` accepts, capped at `max`. */
  function CharWhilePred(f: char -> bool, min: int, max: Option<int>): (p: Parser<char, string>)
    ensures WellBehaved(p)
  {
    (s: string, i: nat) => CharWhilePredAt(f, min, max, s, i)
  }

  /** `charWhilePred(f, min:, max:)` succeeds with the maximal run exactly when it has at least
      `min` characters, and otherwise fails with `expectedAtLeast(min, got:)` and the run's
      length. */
  lemma CharWhilePredCases(f: char -> bool, min: int, max: Option<int>, s: string, i: nat, o: string, n: nat)
    ensures CharWhilePred(f, min, max)(s, i) == Success(o, s, i + n) <==>
      (n == 0 || i + n <= |s|) && o == Span(s, i, n) && IsRun(f, max, s, i, |s|, n) && n >= min
    ensures CharWhilePred(f, min, max)(s, i).Failure? <==> Run(f, max, s, i, |s|) < min
    ensures CharWhilePred(f, min, max)(s, i).Failure? ==>
      CharWhilePred(f, min, max)(s, i).error == ExpectedAtLeastGot(min, Run(f, max, s, i, |s|))
  {
    RunCharacterized(f, max, s, i, |s|, n);
    RunBounds(f, max, s, i, |s|);
  }

  /** The closure of `charWhilePred(f, min:, max:)`: the counting loop, then its result. */
  method CharWhilePredParse(f: char -> bool, min: int, max: Option<int>, s: string, index: nat)
    returns (r: ParseResult<char, string>)
    ensures r == CharWhilePred(f, min, max)(s, index)
  {
    var count := ScanWhile(f, max, s, index, |s|);
    RunBounds(f, max, s, index, |s|);
    r := WhileOutcome(min, s, index, count);
  }

  /** `charIn(chars)` for a set: one character of `chars`. */
  function CharIn(chars: set<char>): (p: Parser<char, char>)
    ensures Consumes(p)
    ensures forall s: string, i: nat :: p(s, i).Success? <==> i < |s| && s[i] in chars
  {
    CharPred(Member(chars))
  }

  /** `charIn(string)`, `charIn(c...)` and `charIn([c])`: one of the listed characters. */
  function CharInList(chars: string): (p: Parser<char, char>)
    ensures forall s: string, i: nat :: p(s, i).Success? <==> i < |s| && s[i] in chars
  {
    CharIn(Elements(chars))
  }

  /** `charsWhileIn(chars, min:, max:)` for a set: the run of characters of `chars` (turning the
      characters into a `String` changes nothing here). */
  function CharsWhileIn(chars: set<char>, min: int, max: Option<int>): (p: Parser<char, string>)
    ensures WellBehaved(p)
  {
    CharWhilePred(Member(chars), min, max)
  }

  /** `charsWhileIn(string, min:, max:)` and `charsWhileIn([c], min:, max:)`: the run of the
      listed characters. */
  function CharsWhileInList(chars: string, min: int, max: Option<int>): (p: Parser<char, string>)
    ensures forall s: string, i: nat :: p(s, i) == CharWhilePred(Listed(chars), min, max)(s, i)
  {
    ElementsRun(chars, max);
    CharsWhileIn(Elements(chars), min, max)
  }

  /** `binaryDigit`: "0" or "1". */
  function BinaryDigit(): (p: Parser<char, char>)
    ensures forall s: string, i: nat :: p(s, i).Success? <==> i < |s| && (s[i] == '0' || s[i] == '1')
  {
    CharPred(c => c == '0' || c == '1')
  }

  // -----------------------------------------------------------------------------------------
  // stringIn: the candidates grouped by length, the lengths tried in ascending order

  /** The candidates of length `len` (one group of `Dictionary(grouping:)`). */
  function Group(xs: seq<string>, len: nat): (g: set<string>)
    ensures forall x :: x in g <==> x in xs && |x| == len
  {
    set x | x in xs && |x| == len
  }

  /** The length of the longest candidate (0 when there are none). */
  function MaxLen(xs: seq<string>): (m: nat)
    ensures forall x | x in xs :: |x| <= m
  {
    if xs == [] then 0
    else
      var rest := MaxLen(xs[1..]);
      assert forall x | x in xs :: x == xs[0] || x in xs[1..];
      if |xs[0]| > rest then |xs[0]| else rest
  }

  /** The non-empty groups for the lengths `len` to `bound`, in ascending order of length. */
  function GroupsFrom(xs: seq<string>, len: nat, bound: nat): seq<(nat, set<string>)>
    decreases bound - len
  {
    if len > bound then []
    else if Group(xs, len) != {} then [(len, Group(xs, len))] + GroupsFrom(xs, len + 1, bound)
    else GroupsFrom(xs, len + 1, bound)
  }

  /** `sets`: the groups of the candidates by length, sorted by length. */
  function Groups(xs: seq<string>): seq<(nat, set<string>)> {
    GroupsFrom(xs, 0, MaxLen(xs))
  }

  /** One step of the grouping: the group for `len`, when it has candidates, then the rest. */
  lemma GroupsFromUnfold(xs: seq<string>, len: nat, bound: nat)
    requires len <= bound
    ensures var rest := GroupsFrom(xs, len + 1, bound);
      GroupsFrom(xs, len, bound) == if Group(xs, len) != {} then [(len, Group(xs, len))] + rest else rest
  {
  }

  /** The groups from `len` on are the non-empty sets of all candidates of their lengths, and
      those lengths lie between `len` and `bound`. */
  lemma {:induction false} GroupsFromBounds(xs: seq<string>, len: nat, bound: nat)
    decreases bound - len
    ensures var gs := GroupsFrom(xs, len, bound);
      forall k | 0 <= k < |gs| :: len <= gs[k].0 <= bound && gs[k].1 == Group(xs, gs[k].0) && gs[k].1 != {}
  {
    if len <= bound {
      GroupsFromBounds(xs, len + 1, bound);
      GroupsFromUnfold(xs, len, bound);
      var gs := GroupsFrom(xs, len, bound);
      var rest := GroupsFrom(xs, len + 1, bound);
      if Group(xs, len) != {} {
        forall k | 1 <= k < |gs|
          ensures gs[k] == rest[k - 1]
        {
        }
      }
    }
  }

  /** The lengths of the groups from `len` on strictly ascend. */
  lemma {:induction false} GroupsFromAscending(xs: seq<string>, len: nat, bound: nat)
    decreases bound - len
    ensures var gs := GroupsFrom(xs, len, bound);
      forall a, b | 0 <= a < b < |gs| :: gs[a].0 < gs[b].0
  {
    if len <= bound && Group(xs, len) != {} {
      GroupsFromAscending(xs, len + 1, bound);
      GroupsFromBounds(xs, len + 1, bound);
      var rest := GroupsFrom(xs, len + 1, bound);
      GroupsFromUnfold(xs, len, bound);
      var gs := GroupsFrom(xs, len, bound);
      forall a, b | 0 <= a < b < |gs|
        ensures gs[a].0 < gs[b].0
      {
        assert gs[b] == rest[b - 1];
        assert len + 1 <= rest[b - 1].0;
        if a > 0 {
          assert gs[a] == rest[a - 1];
          assert rest[a - 1].0 < rest[b - 1].0;
        }
      }
    } else if len <= bound {
      GroupsFromAscending(xs, len + 1, bound);
      GroupsFromUnfold(xs, len, bound);
    }
  }

  /** Every length from `len` to `bound` that has a candidate has its group. */
  lemma {:induction false} GroupsFromCovers(xs: seq<string>, len: nat, bound: nat, x: string)
    requires x in xs && len <= |x| <= bound
    decreases bound - len
    ensures var gs := GroupsFrom(xs, len, bound);
      exists k | 0 <= k < |gs| :: gs[k].0 == |x|
  {
    GroupsFromUnfold(xs, len, bound);
    var gs := GroupsFrom(xs, len, bound);
    var rest := GroupsFrom(xs, len + 1, bound);
    if |x| == len {
      assert x in Group(xs, len);
      assert gs[0].0 == |x|;
    } else {
      GroupsFromCovers(xs, len + 1, bound, x);
      var k :| 0 <= k < |rest| && rest[k].0 == |x|;
      if Group(xs, len) != {} {
        assert gs[k + 1] == rest[k];
      } else {
        assert gs[k] == rest[k];
      }
    }
  }

  /** `sets` holds, in strictly ascending order of length, one group per length that has a
      candidate, and each group is all the candidates of its length. */
  lemma GroupsShape(xs: seq<string>)
    ensures var gs := Groups(xs);
      forall k | 0 <= k < |gs| :: gs[k].1 == Group(xs, gs[k].0) && gs[k].1 != {}
    ensures var gs := Groups(xs);
      forall a, b | 0 <= a < b < |gs| :: gs[a].0 < gs[b].0
    ensures var gs := Groups(xs);
      forall x | x in xs :: exists k | 0 <= k < |gs| :: gs[k].0 == |x|
  {
    var gs := Groups(xs);
    assert gs == GroupsFrom(xs, 0, MaxLen(xs));
    GroupsFromBounds(xs, 0, MaxLen(xs));
    GroupsFromAscending(xs, 0, MaxLen(xs));
    forall x | x in xs
      ensures exists k | 0 <= k < |gs| :: gs[k].0 == |x|
    {
      GroupsFromCovers(xs, 0, MaxLen(xs), x);
    }
  }

  /** `sets.first { ... }`: the length of the first group whose length still fits in the source
      and which holds the slice of that length at `i`. */
  function FirstGroup(groups: seq<(nat, set<string>)>, s: string, i: nat): (r: Option<nat>)
    ensures r.Some? ==> i + r.value <= |s|
  {
    if groups == [] then None
    else if i + groups[0].0 <= |s| && s[i..i + groups[0].0] in groups[0].1 then Some(groups[0].0)
    else FirstGroup(groups[1..], s, i)
  }

  /** A candidate of length `l` starts at `i`. */
  predicate Fits(xs: seq<string>, s: string, i: nat, l: nat) {
    i + l <= |s| && s[i..i + l] in xs
  }

  /** The groups from `len` on begin with the one for `len` when there is a candidate of that
      length, and the first of them matches at `len` exactly when a candidate of that length
      starts at `i`. */
  lemma FirstGroupStep(xs: seq<string>, s: string, i: nat, len: nat, bound: nat)
    requires len <= bound
    ensures FirstGroup(GroupsFrom(xs, len, bound), s, i) ==
      if Fits(xs, s, i, len) then Some(len) else FirstGroup(GroupsFrom(xs, len + 1, bound), s, i)
  {
    var rest := GroupsFrom(xs, len + 1, bound);
    if Group(xs, len) != {} {
      var gs := [(len, Group(xs, len))] + rest;
      assert gs[1..] == rest;
      if i + len <= |s| {
        assert |s[i..i + len]| == len;
        assert s[i..i + len] in Group(xs, len) <==> Fits(xs, s, i, len);
      }
    }
  }

  /** Over the groups from `len` on, the first matching group is that of the shortest length
      at which a candidate starts at `i`. */
  lemma {:induction false} FirstGroupFrom(xs: seq<string>, s: string, i: nat, len: nat, bound: nat, l: nat)
    decreases bound - len
    ensures FirstGroup(GroupsFrom(xs, len, bound), s, i) == Some(l) <==>
      len <= l <= bound && Fits(xs, s, i, l) && forall k | len <= k < l :: !Fits(xs, s, i, k)
    ensures FirstGroup(GroupsFrom(xs, len, bound), s, i).None? <==>
      forall k | len <= k <= bound :: !Fits(xs, s, i, k)
  {
    if len <= bound {
      FirstGroupFrom(xs, s, i, len + 1, bound, l);
      FirstGroupStep(xs, s, i, len, bound);
    }
  }

  /** Over all of `sets`, the first matching group is that of the shortest candidate at `i`;
      there is none exactly when no candidate starts at `i`. */
  lemma FirstGroupShortest(xs: seq<string>, s: string, i: nat, l: nat)
    ensures FirstGroup(Groups(xs), s, i) == Some(l) <==> Fits(xs, s, i, l) && forall k | 0 <= k < l :: !Fits(xs, s, i, k)
    ensures FirstGroup(Groups(xs), s, i).None? <==> forall k: nat :: !Fits(xs, s, i, k)
  {
    var m := MaxLen(xs);
    FirstGroupFrom(xs, s, i, 0, m, l);
    forall k: nat | Fits(xs, s, i, k)
      ensures k <= m
    {
      assert |s[i..i + k]| == k;
    }
  }

  /** The error of a `stringIn` that matches nothing. The source puts a description of the
      candidates into the message; the model keeps its fixed part. */
  const NoStringIn: ParseError := Generic("Did not match stringIn")

  /** The parse once the first matching group is known. */
  function StringInOutcome(s: string, i: nat, found: Option<nat>): ParseResult<char, string>
    requires found.Some? ==> i + found.value <= |s|
  {
    match found
    case Some(len) => Success(s[i..i + len], s, i + len)
    case None => Failure(NoStringIn)
  }

  /** `stringIn(xs)`: the slice at `index` of the first length, in ascending order, at which it
      is a candidate. */
  function StringIn(xs: seq<string>): Parser<char, string>
  {
    (s: string, i: nat) => StringInOutcome(s, i, FirstGroup(Groups(xs), s, i))
  }

  /** `stringIn(xs)` succeeds, ending at `n`, exactly when the slice up to `n` is the shortest
      candidate at `i`. */
  lemma StringInSuccess(xs: seq<string>, s: string, i: nat, o: string, n: nat)
    ensures StringIn(xs)(s, i) == Success(o, s, n) <==>
      i <= n <= |s| && o == s[i..n] && o in xs && forall k | i <= k < n :: s[i..k] !in xs
  {
    var g := FirstGroup(Groups(xs), s, i);
    assert StringIn(xs)(s, i) == StringInOutcome(s, i, g);
    OutcomeSuccess(s, i, g, o, n);
    if i <= n <= |s| {
      var l := n - i;
      FirstGroupShortest(xs, s, i, l);
      NoShorterFits(xs, s, i, n);
      assert Fits(xs, s, i, l) <==> s[i..n] in xs;
    }
  }

  /** The parse a found length gives is the slice up to that length. */
  lemma OutcomeSuccess(s: string, i: nat, g: Option<nat>, o: string, n: nat)
    requires g.Some? ==> i + g.value <= |s|
    ensures StringInOutcome(s, i, g) == Success(o, s, n) <==> g.Some? && n == i + g.value && n <= |s| && o == s[i..n]
  {
  }

  /** No candidate ends between `i` and `n` exactly when no candidate of a length below
      `n - i` starts at `i`. */
  lemma NoShorterFits(xs: seq<string>, s: string, i: nat, n: nat)
    requires i <= n <= |s|
    ensures (forall k | i <= k < n :: s[i..k] !in xs) <==> (forall l | 0 <= l < n - i :: !Fits(xs, s, i, l))
  {
    if forall k | i <= k < n :: s[i..k] !in xs {
      forall l | 0 <= l < n - i
        ensures !Fits(xs, s, i, l)
      {
        assert s[i..i + l] !in xs;
      }
    }
    if forall l | 0 <= l < n - i :: !Fits(xs, s, i, l) {
      forall k | i <= k < n
        ensures s[i..k] !in xs
      {
        assert !Fits(xs, s, i, k - i);
      }
    }
  }

  /** `stringIn(xs)` fails, with its own error, exactly when no candidate starts at `i`. */
  lemma StringInFailure(xs: seq<string>, s: string, i: nat)
    ensures StringIn(xs)(s, i).Failure? <==> forall k | i <= k <= |s| :: s[i..k] !in xs
    ensures StringIn(xs)(s, i).Failure? ==> StringIn(xs)(s, i).error == NoStringIn
  {
    FirstGroupShortest(xs, s, i, 0);
    if forall k | i <= k <= |s| :: s[i..k] !in xs {
      forall l: nat
        ensures !Fits(xs, s, i, l)
      {
        if i + l <= |s| {
          assert s[i..i + l] !in xs;
        }
      }
    }
    if FirstGroup(Groups(xs), s, i).None? {
      forall k | i <= k <= |s|
        ensures s[i..k] !in xs
      {
        assert !Fits(xs, s, i, k - i);
      }
    }
  }

  /** `stringIn(xs)` succeeds, ending at `n`, exactly when the slice up to `n` is the shortest
      candidate at `i`; it fails exactly when no candidate starts at `i`. So the order in which
      the candidates are listed does not matter. */
  lemma StringInCases(xs: seq<string>, s: string, i: nat, o: string, n: nat)
    ensures StringIn(xs)(s, i) == Success(o, s, n) <==>
      i <= n <= |s| && o == s[i..n] && o in xs && forall k | i <= k < n :: s[i..k] !in xs
    ensures StringIn(xs)(s, i).Failure? <==> forall k | i <= k <= |s| :: s[i..k] !in xs
    ensures StringIn(xs)(s, i).Failure? ==> StringIn(xs)(s, i).error == NoStringIn
  {
    StringInSuccess(xs, s, i, o, n);
    StringInFailure(xs, s, i);
  }

  /** With no candidates `stringIn` always fails; with candidates "a" and "ab", the input "ab"
      gives the shorter "a". */
  lemma StringInExamples(s: string, i: nat)
    ensures StringIn([])(s, i) == Failure(NoStringIn)
    ensures StringIn(["ab", "a"])("ab", 0) == Success("a", "ab", 1)
  {
    StringInFailure([], s, i);
    assert "ab"[0..1] == "a" && "ab"[0..0] == "";
    StringInSuccess(["ab", "a"], "ab", 0, "a", 1);
  }

  /** The `first` loop of `stringIn` as the source writes it: for each group, take the slice of
      its length into the captured `subStr` (when it fits) and stop at the first group holding
      it. `subStr` is then that slice. */
  method FirstMatch(sets: seq<(nat, set<string>)>, s: string, index: nat) returns (found: Option<nat>, subStr: Option<string>)
    ensures found == FirstGroup(sets, s, index)
    ensures found.Some? ==> subStr == Some(s[index..index + found.value])
  {
    subStr := None;
    for k := 0 to |sets|
      invariant FirstGroup(sets[k..], s, index) == FirstGroup(sets, s, index)
    {
      assert sets[k..][1..] == sets[k + 1..];
      var (len, group) := sets[k];
      if index + len <= |s| {
        subStr := Some(s[index..index + len]);
        if subStr.value in group {
          return Some(len), subStr;
        }
      }
    }
    return None, subStr;
  }

  /** The closure of `stringIn(xs)`, with the grouping done beforehand. */
  method StringInParse(xs: seq<string>, s: string, index: nat) returns (r: ParseResult<char, string>)
    ensures r == StringIn(xs)(s, index)
  {
    var sets := Groups(xs);
    var found, subStr := FirstMatch(sets, s, index);
    match found
    case Some(len) =>
      r := Success(subStr.value, s, index + len);
    case None =>
      r := Failure(NoStringIn);
  }

  /** `start`: zero width, only at the start; it fails with `notTheEnd` elsewhere. */
  function Start(): (p: Parser<char, string>)
    ensures forall s: string, i: nat :: p(s, i).Success? <==> i == 0
    ensures forall s: string, i: nat :: p(s, i).Success? ==> p(s, i) == Success([], s, i)
    ensures forall s: string, i: nat :: p(s, i).Failure? ==> p(s, i).error == NotTheEnd
  {
    (s: string, i: nat) => if i == 0 then Success([], s, i) else Failure(NotTheEnd)
  }

  /** `end`: zero width, only at the end of the source. */
  function End(): (p: Parser<char, string>)
    ensures WellBehaved(p)
    ensures forall s: string, i: nat :: p(s, i).Success? <==> i == |s|
    ensures forall s: string, i: nat :: p(s, i).Success? ==> p(s, i) == Success([], s, i)
    ensures forall s: string, i: nat :: p(s, i).Failure? ==> p(s, i).error == NotTheEnd
  {
    (s: string, i: nat) => if i == |s| then Success([], s, i) else Failure(NotTheEnd)
  }
}
