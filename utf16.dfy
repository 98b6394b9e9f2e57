/** `UTF16Parser`: the leaf scanners over the UTF-16 code units of a string. The source ends at
    its last code unit, and every output is the run of code units consumed. */
module Utf16 {
  import opened Errors
  import opened Options
  import opened Results
  import opened Parsers
  import opened Scanning
  import Tries

  /** A UTF-16 code unit. */
  newtype CodeUnit = u: int | 0 <= u < 0x1_0000

  /** `one`: the code unit at `index`; `noMoreSources` at the end. */
  function One(): (p: Parser<CodeUnit, CodeUnit>)
    ensures Consumes(p)
    ensures forall s: seq<CodeUnit>, i: nat :: p(s, i).Success? <==> i < |s|
    ensures forall s: seq<CodeUnit>, i: nat :: i < |s| ==> p(s, i).output == s[i]
    ensures forall s: seq<CodeUnit>, i: nat :: p(s, i).Failure? ==> p(s, i).error == NoMoreSource
  {
    (s: seq<CodeUnit>, i: nat) => if i < |s| then Success(s[i], s, i + 1) else Failure(NoMoreSource)
  }

  /** The result of `string(lit)` once its loop has stopped. */
  function StringOutcome(lit: seq<CodeUnit>, s: seq<CodeUnit>, r: LiteralOutcome<CodeUnit>): ParseResult<CodeUnit, seq<CodeUnit>> {
    match r
    case Matched(n) => Success(lit, s, n)
    case RanOut(_) => Failure(NoMoreSource)
    case Mismatch(_, e, g) => Failure(UnexpectedToken(e as int, g as int))
  }

  /** `string(lit)`: the code units of `lit`, one after another from `index`. */
  function String(lit: seq<CodeUnit>): (p: Parser<CodeUnit, seq<CodeUnit>>)
    ensures forall s: seq<CodeUnit>, i: nat :: p(s, i).Success? ==>
      p(s, i) == Success(lit, s, i + |lit|) && (lit != [] ==> i + |lit| <= |s|)
    ensures forall s: seq<CodeUnit>, i: nat :: p(s, i).Failure? ==> lit != [] && (p(s, i).error == NoMoreSource || p(s, i).error.UnexpectedToken?)
  {
    (s: seq<CodeUnit>, i: nat) => StringOutcome(lit, s, Literal(lit, s, i, |s|))
  }

  /** `string(lit)` succeeds exactly when `lit` follows `index`, and ends right after it; it
      fails with `noMoreSources` when the source ends first, and with `unexpectedToken` on the
      first code unit that differs. */
  lemma StringCases(lit: seq<CodeUnit>, s: seq<CodeUnit>, i: nat, k: nat)
    ensures String(lit)(s, i).Success? <==> lit == [] || (i + |lit| <= |s| && s[i..i + |lit|] == lit)
    ensures String(lit)(s, i).Success? ==> String(lit)(s, i) == Success(lit, s, i + |lit|)
    ensures k < |lit| && Agree(lit, s, i, |s|, k) && i + k >= |s| ==>
      String(lit)(s, i) == Failure(NoMoreSource)
    ensures k < |lit| && Agree(lit, s, i, |s|, k) && i + k < |s| && s[i + k] != lit[k] ==>
      String(lit)(s, i) == Failure(UnexpectedToken(lit[k] as int, s[i + k] as int))
  {
    AgreeIsSlice(lit, s, i, |s|);
    if k < |lit| && Agree(lit, s, i, |s|, k) && i + k < |s| && s[i + k] != lit[k] {
      LiteralCases(lit, s, i, |s|, k, lit[k], s[i + k]);
    } else {
      LiteralCases(lit, s, i, |s|, k, 0, 0);
    }
  }

  /** The closure of `string(lit)`: the literal loop, then its result. */
  method StringParse(lit: seq<CodeUnit>, s: seq<CodeUnit>, index: nat) returns (r: ParseResult<CodeUnit, seq<CodeUnit>>)
    ensures r == String(lit)(s, index)
  {
    var outcome := ScanLiteral(lit, s, index, |s|);
    r := StringOutcome(lit, s, outcome);
  }

  /** `elem(e)`: reads `source[index]` without a bounds check, so it needs `index` inside the
      source; the code unit there must be `e`. */
  function Elem(e: CodeUnit, s: seq<CodeUnit>, i: nat): (r: ParseResult<CodeUnit, CodeUnit>)
    requires i < |s|
    ensures r.Success? <==> s[i] == e
    ensures r.Success? ==> r == Success(e, s, i + 1)
    ensures r.Failure? ==> r.error == UnexpectedToken(e as int, s[i] as int)
  {
    if s[i] == e then Success(e, s, i + 1) else Failure(UnexpectedToken(e as int, s[i] as int))
  }

  /** `satisfy(f)`: one code unit that `f` accepts. */
  function Satisfy(f: CodeUnit -> bool): (p: Parser<CodeUnit, seq<CodeUnit>>)
    ensures Consumes(p)
    ensures forall s: seq<CodeUnit>, i: nat :: p(s, i).Success? <==> i < |s| && f(s[i])
    ensures forall s: seq<CodeUnit>, i: nat :: p(s, i).Success? ==> p(s, i).output == [s[i]] && p(s, i).next == i + 1
    ensures forall s: seq<CodeUnit>, i: nat :: i >= |s| ==> p(s, i) == Failure(NoMoreSource)
    ensures forall s: seq<CodeUnit>, i: nat :: i < |s| && !f(s[i]) ==> p(s, i) == Failure(Generic("[WIP]"))
  {
    (s: seq<CodeUnit>, i: nat) =>
      if i >= |s| then Failure(NoMoreSource)
      else if f(s[i]) then Success([s[i]], s, i + 1)
      else Failure(Generic("[WIP]"))
  }

  /** Where `elem(e)` can be run, it accepts what `satisfy` of "equals `e`" accepts. */
  lemma ElemIsSatisfyEquals(e: CodeUnit, s: seq<CodeUnit>, i: nat)
    requires i < |s|
    ensures Elem(e, s, i).Success? <==> Satisfy(u => u == e)(s, i).Success?
    ensures Elem(e, s, i).Success? ==> Elem(e, s, i).next == Satisfy(u => u == e)(s, i).next
  {
  }

  /** The result of `satisfy(f, min:, max:)` after its loop consumed `count` code units. */
  function SatisfyOutcome(min: int, s: seq<CodeUnit>, i: nat, count: nat): ParseResult<CodeUnit, seq<CodeUnit>>
    requires count == 0 || i + count <= |s|
  {
    if count == 0 then Failure(Generic("[WIP]"))
    else if count >= min then Success(s[i..i + count], s, i + count)
    else Failure(Generic("[WIP]"))
  }

  /** `satisfy(f, min:, max:)` from `i`. */
  function SatisfyRangeAt(f: CodeUnit -> bool, min: int, max: Option<int>, s: seq<CodeUnit>, i: nat): (r: ParseResult<CodeUnit, seq<CodeUnit>>)
    ensures r.Success? ==> r.input == s && i < r.next <= |s|
  {
    RunBounds(f, max, s, i, |s|);
    SatisfyOutcome(min, s, i, Run(f, max, s, i, |s|))
  }

  /** `satisfy(f, min:, max:)`: the run of code units `f` accepts, capped at `max`; it fails
      when the run is empty, whatever `min` is, and when it is shorter than `min`. */
  function SatisfyRange(f: CodeUnit -> bool, min: int, max: Option<int>): (p: Parser<CodeUnit, seq<CodeUnit>>)
    ensures Consumes(p)
  {
    (s: seq<CodeUnit>, i: nat) => SatisfyRangeAt(f, min, max, s, i)
  }

  /** `satisfy(f, min:, max:)` succeeds exactly on a non-empty maximal run of at least `min`
      code units, and its output is that run. */
  lemma SatisfyRangeCases(f: CodeUnit -> bool, min: int, max: Option<int>, s: seq<CodeUnit>, i: nat, o: seq<CodeUnit>, n: nat)
    ensures SatisfyRange(f, min, max)(s, i) == Success(o, s, i + n) <==>
      i + n <= |s| && o == s[i..i + n] && IsRun(f, max, s, i, |s|, n) && n > 0 && n >= min
    ensures SatisfyRange(f, min, max)(s, i).Failure? <==>
      Run(f, max, s, i, |s|) == 0 || Run(f, max, s, i, |s|) < min
    ensures SatisfyRange(f, min, max)(s, i).Failure? ==> SatisfyRange(f, min, max)(s, i).error == Generic("[WIP]")
  {
    RunCharacterized(f, max, s, i, |s|, n);
    RunBounds(f, max, s, i, |s|);
  }

  /** An empty run fails even when `min` asks for nothing. */
  lemma SatisfyRangeNeedsOne(f: CodeUnit -> bool, min: int, max: Option<int>, s: seq<CodeUnit>, i: nat)
    requires i >= |s| || !f(s[i])
    ensures SatisfyRange(f, min, max)(s, i) == Failure(Generic("[WIP]"))
  {
    RunCharacterized(f, max, s, i, |s|, 0);
  }

  /** The closure of `satisfy(f, min:, max:)`: the counting loop, then its result. */
  method SatisfyRangeParse(f: CodeUnit -> bool, min: int, max: Option<int>, s: seq<CodeUnit>, index: nat)
    returns (r: ParseResult<CodeUnit, seq<CodeUnit>>)
    ensures r == SatisfyRange(f, min, max)(s, index)
  {
    var count := ScanWhile(f, max, s, index, |s|);
    RunBounds(f, max, s, index, |s|);
    r := SatisfyOutcome(min, s, index, count);
  }

  /** `charIn(units)`: one code unit of `units`. */
  function CharIn(units: set<CodeUnit>): (p: Parser<CodeUnit, seq<CodeUnit>>)
    ensures Consumes(p)
    ensures forall s: seq<CodeUnit>, i: nat :: p(s, i).Success? <==> i < |s| && s[i] in units
  {
    Satisfy(u => u in units)
  }

  /** `charsIn(units, min:, max:)`: the run of code units of `units`. */
  function CharsIn(units: set<CodeUnit>, min: int, max: Option<int>): (p: Parser<CodeUnit, seq<CodeUnit>>)
    ensures Consumes(p)
    ensures forall s: seq<CodeUnit>, i: nat :: p(s, i) == SatisfyRange(u => u in units, min, max)(s, i)
  {
    SatisfyRange(u => u in units, min, max)
  }

  /** The code units of "0123456789", "01" and "01234567". */
  const DigitUnits: set<CodeUnit> := {48, 49, 50, 51, 52, 53, 54, 55, 56, 57}
  const BinaryUnits: set<CodeUnit> := {48, 49}
  const HexUnits: set<CodeUnit> := {48, 49, 50, 51, 52, 53, 54, 55}

  function Digit(): Parser<CodeUnit, seq<CodeUnit>> { CharIn(DigitUnits) }
  function Digits(): Parser<CodeUnit, seq<CodeUnit>> { CharsIn(DigitUnits, 1, None) }
  function BinaryDigit(): Parser<CodeUnit, seq<CodeUnit>> { CharIn(BinaryUnits) }
  function HexDigit(): Parser<CodeUnit, seq<CodeUnit>> { CharIn(HexUnits) }

  /** `hexDigit` accepts only "0" to "7": "7" passes, while "8" and "a" fail. */
  lemma HexDigitIsOctal()
    ensures HexDigit()([55], 0) == Success([55], [55], 1)
    ensures HexDigit()([56], 0).Failure? && HexDigit()([97], 0).Failure?
  {
  }

  /** The error of a `stringIn` that matches nothing. The source puts a description of the
      candidates into the message; the model keeps its fixed part. */
  const NoStringIn: ParseError := Generic("Did not match stringIn")

  /** `stringIn(xs)`: the first terminating node on the walk from `index` gives the shortest
      candidate that starts there, and the parse ends after it. */
  function StringIn(xs: set<seq<CodeUnit>>): (p: Parser<CodeUnit, seq<CodeUnit>>)
    ensures Consumes(p)
  {
    (s: seq<CodeUnit>, i: nat) =>
      match Tries.ShortestWord(Tries.KeyMap(xs), s, i, |s|)
      case Some((o, n)) => Success(o, s, n)
      case None => Failure(NoStringIn)
  }

  /** `stringIn(xs)` succeeds with the candidate that ends at `n` exactly when no shorter
      candidate starts at `i`; it fails exactly when no candidate starts at `i`. */
  lemma StringInCases(xs: set<seq<CodeUnit>>, s: seq<CodeUnit>, i: nat, o: seq<CodeUnit>, n: nat)
    ensures StringIn(xs)(s, i) == Success(o, s, n) <==>
      i < n <= |s| && o == s[i..n] && o in xs && forall k | i < k < n :: s[i..k] !in xs
    ensures StringIn(xs)(s, i).Failure? <==> forall k | i < k <= |s| :: s[i..k] !in xs
    ensures StringIn(xs)(s, i).Failure? ==> StringIn(xs)(s, i).error == NoStringIn
  {
    Tries.ShortestKeyCases(xs, s, i, |s|, o, n);
  }

  /** Given keys "a" and "ab", the input "ab" gives "a", ending after it. */
  lemma StringInFirstTerminalWins()
    ensures StringIn({[97], [97, 98]})([97, 98], 0) == Success([97], [97, 98], 1)
  {
    StringInCases({[97], [97, 98]}, [97, 98], 0, [97], 1);
    assert [97, 98][0..1] == [97];
  }

  /** `stringIn(xs)`: build the trie of `xs`, each key its own payload. */
  method NewStringIn(xs: set<seq<CodeUnit>>) returns (trie: Tries.Trie<CodeUnit, seq<CodeUnit>>)
    ensures trie.Valid() && fresh(trie.Repr) && trie.words == Tries.KeyMap(xs)
  {
    trie := Tries.Build(xs);
  }

  /** The closure of `stringIn(xs)`: walk the trie to the first terminating node. */
  method StringInParse(trie: Tries.Trie<CodeUnit, seq<CodeUnit>>, ghost xs: set<seq<CodeUnit>>, s: seq<CodeUnit>, index: nat)
    returns (r: ParseResult<CodeUnit, seq<CodeUnit>>)
    requires trie.Valid() && trie.words == Tries.KeyMap(xs)
    ensures r == StringIn(xs)(s, index)
  {
    var found := trie.FirstTerminal(s, index, |s|);
    match found
    case Some((o, n)) =>
      r := Success(o, s, n);
    case None =>
      r := Failure(NoStringIn);
  }

  /** `start`: zero width, only at the start; it fails with `notTheEnd` elsewhere. */
  function Start(): (p: Parser<CodeUnit, seq<CodeUnit>>)
    ensures forall s: seq<CodeUnit>, i: nat :: p(s, i).Success? <==> i == 0
    ensures forall s: seq<CodeUnit>, i: nat :: p(s, i).Success? ==> p(s, i) == Success([], s, i)
    ensures forall s: seq<CodeUnit>, i: nat :: p(s, i).Failure? ==> p(s, i).error == NotTheEnd
  {
    (s: seq<CodeUnit>, i: nat) => if i == 0 then Success([], s, i) else Failure(NotTheEnd)
  }

  /** `end`: zero width, only at the end of the source. */
  function End(): (p: Parser<CodeUnit, seq<CodeUnit>>)
    ensures WellBehaved(p)
    ensures forall s: seq<CodeUnit>, i: nat :: p(s, i).Success? <==> i == |s|
    ensures forall s: seq<CodeUnit>, i: nat :: p(s, i).Success? ==> p(s, i) == Success([], s, i)
    ensures forall s: seq<CodeUnit>, i: nat :: p(s, i).Failure? ==> p(s, i).error == NotTheEnd
  {
    (s: seq<CodeUnit>, i: nat) => if i == |s| then Success([], s, i) else Failure(NotTheEnd)
  }
}
