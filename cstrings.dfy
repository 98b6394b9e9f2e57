/** `UTF8CStringParser`: the leaf scanners over a NUL-terminated array of C characters (the
    `utf8CString` of a string). The last element is the terminator: every scanner except `elem`
    stops at `endIndexWithoutTerminator`, and every output is the run of bytes consumed. */
module CStrings {
  import opened Errors
  import opened Options
  import opened Results
  import opened Parsers
  import opened Scanning
  import opened Conjunction
  import Tries

  /** A C character: a signed byte. */
  newtype CChar = c: int | -128 <= c < 128

  /** `UInt8(bitPattern:)`: the same eight bits read as an unsigned byte. */
  function BitPattern(c: CChar): (b: Byte)
    ensures b as int % 0x100 == c as int % 0x100
    ensures c >= 0 ==> b as int == c as int
  {
    if c < 0 then (c as int + 0x100) as Byte else c as int as Byte
  }

  /** `UTF8.isContinuation(UInt8(bitPattern: c))`. */
  predicate IsCont(c: CChar) {
    IsContinuation(BitPattern(c))
  }

  /** Read as signed characters, the continuation bytes 0x80 to 0xBF are -128 to -65; so no
      ASCII character and not the terminator. */
  lemma ContinuationIsNegative(c: CChar)
    ensures IsCont(c) <==> -128 <= c <= -65
  {
    ContinuationRange(BitPattern(c));
  }

  /** `endIndexWithoutTerminator`: the index of the terminator, one before the end. */
  function EndWithoutTerminator(s: seq<CChar>): (e: int)
    ensures e < |s| && e + 1 == |s|
  {
    |s| - 1
  }

  /** A parser that, from any index up to the terminator, succeeds only up to the terminator:
      it never consumes the terminator or anything after it. */
  ghost predicate StaysBeforeTerminator<O>(p: Parser<CChar, O>) {
    forall s: seq<CChar>, i: nat | i <= |s| - 1 ::
      p(s, i).Success? ==> p(s, i).input == s && i <= p(s, i).next <= |s| - 1
  }

  /** A parser that, when it succeeds, consumes at least one byte and stops before the
      terminator. */
  ghost predicate ConsumesBeforeTerminator<O>(p: Parser<CChar, O>) {
    forall s: seq<CChar>, i: nat ::
      p(s, i).Success? ==> p(s, i).input == s && i < p(s, i).next <= |s| - 1
  }

  /** Consuming before the terminator is one way of staying before it and of consuming. */
  lemma ConsumesBeforeTerminatorStays<O>(p: Parser<CChar, O>)
    requires ConsumesBeforeTerminator(p)
    ensures StaysBeforeTerminator(p) && Consumes(p)
  {
  }

  /** The result of `string(lit)` once its loop has stopped. */
  function StringOutcome(lit: seq<CChar>, s: seq<CChar>, r: LiteralOutcome<CChar>): ParseResult<CChar, seq<CChar>> {
    match r
    case Matched(n) => Success(lit, s, n)
    case RanOut(_) => Failure(NoMoreSource)
    case Mismatch(_, e, g) => Failure(UnexpectedToken(e as int, g as int))
  }

  /** `string(lit)`, for the bytes `lit` of the string without its terminator. */
  function String(lit: seq<CChar>): (p: Parser<CChar, seq<CChar>>)
    ensures forall s: seq<CChar>, i: nat :: p(s, i).Success? ==>
      p(s, i) == Success(lit, s, i + |lit|) && (lit != [] ==> i + |lit| <= |s| - 1)
    ensures forall s: seq<CChar>, i: nat :: p(s, i).Failure? ==> lit != [] && (p(s, i).error == NoMoreSource || p(s, i).error.UnexpectedToken?)
  {
    (s: seq<CChar>, i: nat) => StringOutcome(lit, s, Literal(lit, s, i, |s| - 1))
  }

  /** `string(lit)` succeeds exactly when `lit` follows `index` before the terminator, and ends
      right after it; it fails with `noMoreSource` when the terminator comes first, and with
      `unexpectedToken` on the first byte that differs. */
  lemma StringCases(lit: seq<CChar>, s: seq<CChar>, i: nat, k: nat)
    ensures String(lit)(s, i).Success? <==> lit == [] || (i + |lit| <= |s| - 1 && s[i..i + |lit|] == lit)
    ensures String(lit)(s, i).Success? ==> String(lit)(s, i) == Success(lit, s, i + |lit|)
    ensures k < |lit| && Agree(lit, s, i, |s| - 1, k) && i + k >= |s| - 1 ==>
      String(lit)(s, i) == Failure(NoMoreSource)
    ensures k < |lit| && Agree(lit, s, i, |s| - 1, k) && i + k < |s| - 1 && s[i + k] != lit[k] ==>
      String(lit)(s, i) == Failure(UnexpectedToken(lit[k] as int, s[i + k] as int))
  {
    AgreeIsSlice(lit, s, i, |s| - 1);
    if k < |lit| && Agree(lit, s, i, |s| - 1, k) && i + k < |s| - 1 && s[i + k] != lit[k] {
      LiteralCases(lit, s, i, |s| - 1, k, lit[k], s[i + k]);
    } else {
      LiteralCases(lit, s, i, |s| - 1, k, 0, 0);
    }
  }

  /** `string(lit)` never reaches the terminator. */
  lemma StringStaysBeforeTerminator(lit: seq<CChar>)
    ensures StaysBeforeTerminator(String(lit))
  {
    forall s: seq<CChar>, i: nat | i <= |s| - 1 && String(lit)(s, i).Success?
      ensures String(lit)(s, i).input == s && i <= String(lit)(s, i).next <= |s| - 1
    {
      StringCases(lit, s, i, 0);
    }
  }

  /** The closure of `string(lit)`: the literal loop, then its result. */
  method StringParse(lit: seq<CChar>, s: seq<CChar>, index: nat) returns (r: ParseResult<CChar, seq<CChar>>)
    ensures r == String(lit)(s, index)
  {
    var outcome := ScanLiteral(lit, s, index, |s| - 1);
    r := StringOutcome(lit, s, outcome);
  }

  /** `string("abc")` on "abc".utf8CString gives "abc" and stops before the terminator. */
  lemma StringAbc()
    ensures String([97, 98, 99])(CString([97, 98, 99]), 0) == Success([97, 98, 99], CString([97, 98, 99]), 3)
  {
    StringCases([97, 98, 99], CString([97, 98, 99]), 0, 0);
  }

  /** `elem(e)`: reads `source[index]` without a bounds check (so it may read the terminator),
      and needs `index` inside the array; the byte there must be `e`. */
  function Elem(e: CChar, s: seq<CChar>, i: nat): (r: ParseResult<CChar, CChar>)
    requires i < |s|
    ensures r.Success? <==> s[i] == e
    ensures r.Success? ==> r == Success(e, s, i + 1)
    ensures r.Failure? ==> r.error == UnexpectedToken(e as int, s[i] as int)
  {
    if s[i] == e then Success(e, s, i + 1) else Failure(UnexpectedToken(e as int, s[i] as int))
  }

  /** Unlike the other scanners, `elem(0)` accepts the terminator itself. */
  lemma ElemReadsTerminator(s: seq<CChar>)
    requires |s| > 0 && s[|s| - 1] == 0
    ensures Elem(0, s, |s| - 1) == Success(0, s, |s|)
  {
  }

  /** `one`: the byte at `index`, before the terminator; `noMoreSource` otherwise. */
  function One(): (p: Parser<CChar, CChar>)
    ensures ConsumesBeforeTerminator(p) && Consumes(p)
    ensures forall s: seq<CChar>, i: nat :: p(s, i).Success? <==> i < |s| - 1
    ensures forall s: seq<CChar>, i: nat :: i < |s| - 1 ==> p(s, i) == Success(s[i], s, i + 1)
    ensures forall s: seq<CChar>, i: nat :: p(s, i).Failure? ==> p(s, i).error == NoMoreSource
  {
    (s: seq<CChar>, i: nat) => if i < |s| - 1 then Success(s[i], s, i + 1) else Failure(NoMoreSource)
  }

  /** Repeated `one` from `i` reads every byte from `i` up to the terminator, one by one. */
  lemma {:induction false} OneChain(s: seq<CChar>, i: nat)
    requires i <= |s| - 1
    decreases |s| - i
    ensures Chain(One(), s, i, s[i..|s| - 1], |s| - 1)
  {
    if i < |s| - 1 {
      OneChain(s, i + 1);
      assert s[i..|s| - 1][1..] == s[i + 1..|s| - 1];
    }
  }

  /** The loop of `one.rep` from the start collects every byte before the terminator. */
  lemma OneLoopDropsTerminator(s: seq<CChar>)
    requires |s| >= 1
    ensures RepeatLoop(One(), None, s, 0, []) == (s[..|s| - 1], |s| - 1)
  {
    var body := s[..|s| - 1];
    OneChain(s, 0);
    assert s[0..|s| - 1] == body;
    assert Chain(One(), s, 0, body, |s| - 1);
    assert One()(s, |s| - 1).Failure?;
    assert Stopped(One(), None, s, body, |s| - 1) && WithinMax(None, body);
    RepeatLoopCharacterized(One(), None, s, 0, body, |s| - 1);
  }

  /** `one.rep(1)` over a terminated array with at least one byte before the terminator gives
      back every byte but the terminator, in order; so over "abc".utf8CString it gives "abc". */
  lemma OneRepDropsTerminator(s: seq<CChar>)
    requires |s| >= 2
    ensures Rep(One(), 1, None)(s, 0) == Success(s[..|s| - 1], s, |s| - 1)
  {
    OneLoopDropsTerminator(s);
    assert Rep(One(), 1, None)(s, 0) == Repeat(One(), 1, None, s, 0);
  }

  /** The result of `char` once its loop found `n` continuation bytes after the lead byte. */
  function CharOutcome(s: seq<CChar>, i: nat, n: nat): ParseResult<CChar, seq<CChar>>
    requires i + 1 + n <= |s|
  {
    Success(s[i..i + 1 + n], s, i + 1 + n)
  }

  /** `char` from `i`. */
  function CharAt(s: seq<CChar>, i: nat): (r: ParseResult<CChar, seq<CChar>>)
    ensures r.Success? ==> r.input == s && i < r.next <= |s| - 1
  {
    if i >= |s| - 1 then Failure(NoMoreSource)
    else
      RunBounds(IsCont, None, s, i + 1, |s| - 1);
      CharOutcome(s, i, Run(IsCont, None, s, i + 1, |s| - 1))
  }

  /** `char`: one lead byte and the continuation bytes after it, up to the terminator. */
  function Char(): (p: Parser<CChar, seq<CChar>>)
    ensures ConsumesBeforeTerminator(p)
  {
    (s: seq<CChar>, i: nat) => CharAt(s, i)
  }

  /** `char` succeeds exactly before the terminator; its output is the lead byte followed by the
      maximal run of continuation bytes, and it fails with `noMoreSource` at the terminator. */
  lemma CharCases(s: seq<CChar>, i: nat, o: seq<CChar>, n: nat)
    ensures Char()(s, i) == Success(o, s, i + 1 + n) <==>
      i < |s| - 1 && i + 1 + n <= |s| - 1 && o == s[i..i + 1 + n] && IsRun(IsCont, None, s, i + 1, |s| - 1, n)
    ensures Char()(s, i).Failure? <==> i >= |s| - 1
    ensures Char()(s, i).Failure? ==> Char()(s, i).error == NoMoreSource
  {
    if i < |s| - 1 {
      var r := Run(IsCont, None, s, i + 1, |s| - 1);
      RunCharacterized(IsCont, None, s, i + 1, |s| - 1, n);
      RunBounds(IsCont, None, s, i + 1, |s| - 1);
      assert Char()(s, i) == Success(s[i..i + 1 + r], s, i + 1 + r);
    }
  }

  /** The closure of `char`: the continuation loop, then its result. */
  method CharParse(s: seq<CChar>, index: nat) returns (r: ParseResult<CChar, seq<CChar>>)
    ensures r == Char()(s, index)
  {
    if index >= |s| - 1 {
      return Failure(NoMoreSource);
    }
    var n := ScanWhile(IsCont, None, s, index + 1, |s| - 1);
    RunBounds(IsCont, None, s, index + 1, |s| - 1);
    r := CharOutcome(s, index, n);
  }

  /** `elemPred(f)`: one byte that `f` accepts, before the terminator. */
  function ElemPred(f: CChar -> bool): (p: Parser<CChar, seq<CChar>>)
    ensures ConsumesBeforeTerminator(p)
    ensures forall s: seq<CChar>, i: nat :: p(s, i).Success? <==> i < |s| - 1 && f(s[i])
    ensures forall s: seq<CChar>, i: nat :: p(s, i).Success? ==> p(s, i).output == [s[i]] && p(s, i).next == i + 1
    ensures forall s: seq<CChar>, i: nat :: i >= |s| - 1 ==> p(s, i) == Failure(NoMoreSource)
    ensures forall s: seq<CChar>, i: nat :: i < |s| - 1 && !f(s[i]) ==> p(s, i) == Failure(Generic("[WIP]"))
  {
    (s: seq<CChar>, i: nat) =>
      if i >= |s| - 1 then Failure(NoMoreSource)
      else if f(s[i]) then Success([s[i]], s, i + 1)
      else Failure(Generic("[WIP]"))
  }

  /** The result of `elemWhilePred(f, min:, max:)` after its loop consumed `count` bytes. */
  function WhileOutcome(min: int, s: seq<CChar>, i: nat, count: nat): ParseResult<CChar, seq<CChar>>
    requires count == 0 || i + count <= |s|
  {
    if count >= min then Success(Span(s, i, count), s, i + count)
    else Failure(ExpectedAtLeastGot(min, count))
  }

  /** `elemWhilePred(f, min:, max:)` from `i`. */
  function ElemWhilePredAt(f: CChar -> bool, min: int, max: Option<int>, s: seq<CChar>, i: nat): (r: ParseResult<CChar, seq<CChar>>)
    ensures r.Success? ==> r.input == s && i <= r.next
    ensures r.Success? && i <= |s| - 1 ==> r.next <= |s| - 1
    ensures r.Success? && i <= |s| ==> r.next <= |s|
  {
    RunBounds(f, max, s, i, |s| - 1);
    WhileOutcome(min, s, i, Run(f, max, s, i, |s| - 1))
  }

  /** `elemWhilePred(f, min:, max:)`: the run of bytes `f` accepts, capped at `max`. */
  function ElemWhilePred(f: CChar -> bool, min: int, max: Option<int>): (p: Parser<CChar, seq<CChar>>)
    ensures WellBehaved(p) && StaysBeforeTerminator(p)
  {
    (s: seq<CChar>, i: nat) => ElemWhilePredAt(f, min, max, s, i)
  }

  /** `elemWhilePred(f, min:, max:)` succeeds with the maximal run exactly when it has at least
      `min` bytes, and otherwise fails with `expectedAtLeast(min, got:)` and the run's length. */
  lemma ElemWhilePredCases(f: CChar -> bool, min: int, max: Option<int>, s: seq<CChar>, i: nat, o: seq<CChar>, n: nat)
    ensures ElemWhilePred(f, min, max)(s, i) == Success(o, s, i + n) <==>
      (n == 0 || i + n <= |s|) && o == Span(s, i, n) && IsRun(f, max, s, i, |s| - 1, n) && n >= min
    ensures ElemWhilePred(f, min, max)(s, i).Failure? <==> Run(f, max, s, i, |s| - 1) < min
    ensures ElemWhilePred(f, min, max)(s, i).Failure? ==>
      ElemWhilePred(f, min, max)(s, i).error == ExpectedAtLeastGot(min, Run(f, max, s, i, |s| - 1))
  {
    RunCharacterized(f, max, s, i, |s| - 1, n);
    RunBounds(f, max, s, i, |s| - 1);
  }

  /** The closure of `elemWhilePred(f, min:, max:)`: the counting loop, then its result. */
  method ElemWhilePredParse(f: CChar -> bool, min: int, max: Option<int>, s: seq<CChar>, index: nat)
    returns (r: ParseResult<CChar, seq<CChar>>)
    ensures r == ElemWhilePred(f, min, max)(s, index)
  {
    var count := ScanWhile(f, max, s, index, |s| - 1);
    RunBounds(f, max, s, index, |s| - 1);
    r := WhileOutcome(min, s, index, count);
  }

  /** The set an array overload of `elemIn`/`elemsWhileIn` builds: a trailing 0 is dropped. */
  function ArraySet(elems: seq<CChar>): (r: set<CChar>)
    ensures |elems| > 0 && elems[|elems| - 1] == 0 ==> r == Elements(elems[..|elems| - 1])
    ensures (|elems| == 0 || elems[|elems| - 1] != 0) ==> r == Elements(elems)
  {
    if |elems| > 0 && elems[|elems| - 1] == 0 then Elements(elems[..|elems| - 1]) else Elements(elems)
  }

  /** The `utf8CString` of a string's bytes: the bytes and the terminator. */
  function CString(bytes: seq<CChar>): (r: seq<CChar>)
    ensures |r| == |bytes| + 1 && r[..|bytes|] == bytes && r[|bytes|] == 0
  {
    bytes + [0]
  }

  /** For a NUL-terminated array whose only 0 is its terminator, the terminator byte is not in
      the set; for the `utf8CString` of any string, the set is exactly the string's bytes. */
  lemma ArraySetDropsTerminator(elems: seq<CChar>, bytes: seq<CChar>)
    ensures |elems| > 0 && elems[|elems| - 1] == 0 && (forall k | 0 <= k < |elems| - 1 :: elems[k] != 0) ==>
      0 !in ArraySet(elems)
    ensures ArraySet(CString(bytes)) == Elements(bytes)
  {
    assert CString(bytes)[..|bytes|] == bytes;
  }

  /** `elemIn(elems)` for a set: one byte of `elems`. */
  function ElemIn(elems: set<CChar>): (p: Parser<CChar, seq<CChar>>)
    ensures ConsumesBeforeTerminator(p)
    ensures forall s: seq<CChar>, i: nat :: p(s, i).Success? <==> i < |s| - 1 && s[i] in elems
  {
    ElemPred(Member(elems))
  }

  /** `elemIn(c...)`: the set of the listed bytes (no terminator is dropped). */
  function ElemInList(elems: seq<CChar>): (p: Parser<CChar, seq<CChar>>)
    ensures forall s: seq<CChar>, i: nat :: p(s, i).Success? <==> i < |s| - 1 && s[i] in elems
  {
    ElemIn(Elements(elems))
  }

  /** `elemIn(array)`: the set of the array, without a trailing 0. */
  function ElemInArray(elems: seq<CChar>): (p: Parser<CChar, seq<CChar>>)
    ensures forall s: seq<CChar>, i: nat :: p(s, i).Success? <==> i < |s| - 1 && s[i] in ArraySet(elems)
  {
    ElemIn(ArraySet(elems))
  }

  /** `elemIn(string)`, for the string's bytes: its precondition rejects continuation bytes, and
      it accepts exactly the string's bytes. */
  function ElemInString(bytes: seq<CChar>): (p: Parser<CChar, seq<CChar>>)
    requires forall k | 0 <= k < |bytes| :: !IsCont(bytes[k])
    ensures forall s: seq<CChar>, i: nat :: p(s, i).Success? <==> i < |s| - 1 && s[i] in bytes
  {
    ArraySetDropsTerminator([], bytes);
    ElemInArray(CString(bytes))
  }

  /** `elemsWhileIn(elems, min:, max:)` for a set: the run of bytes of `elems`. */
  function ElemsWhileIn(elems: set<CChar>, min: int, max: Option<int>): (p: Parser<CChar, seq<CChar>>)
    ensures WellBehaved(p) && StaysBeforeTerminator(p)
  {
    ElemWhilePred(Member(elems), min, max)
  }

  /** `elemsWhileIn([CChar], min:, max:)`: the set of the listed bytes (no terminator is dropped). */
  function ElemsWhileInList(elems: seq<CChar>, min: int, max: Option<int>): (p: Parser<CChar, seq<CChar>>)
    ensures forall s: seq<CChar>, i: nat :: p(s, i) == ElemWhilePred(Listed(elems), min, max)(s, i)
  {
    ElementsRun(elems, max);
    ElemsWhileIn(Elements(elems), min, max)
  }

  /** `elemsWhileIn(array, min:, max:)`: the set of the array, without a trailing 0. */
  function ElemsWhileInArray(elems: seq<CChar>, min: int, max: Option<int>): (p: Parser<CChar, seq<CChar>>)
    ensures forall s: seq<CChar>, i: nat :: p(s, i) == ElemWhilePred(Member(ArraySet(elems)), min, max)(s, i)
  {
    ElemsWhileIn(ArraySet(elems), min, max)
  }

  /** `elemsWhileIn(string, min:, max:)`, for the string's bytes, which may not be continuation
      bytes: the run of the string's bytes. */
  function ElemsWhileInString(bytes: seq<CChar>, min: int, max: Option<int>): (p: Parser<CChar, seq<CChar>>)
    requires forall k | 0 <= k < |bytes| :: !IsCont(bytes[k])
    ensures forall s: seq<CChar>, i: nat :: p(s, i) == ElemWhilePred(Listed(bytes), min, max)(s, i)
  {
    ArraySetDropsTerminator([], bytes);
    ElementsRun(bytes, max);
    ElemsWhileInArray(CString(bytes), min, max)
  }

  /** The bytes of "0123456789", "01" and "01234567". */
  const DigitBytes: seq<CChar> := [48, 49, 50, 51, 52, 53, 54, 55, 56, 57]
  const BinaryBytes: seq<CChar> := [48, 49]
  const HexBytes: seq<CChar> := [48, 49, 50, 51, 52, 53, 54, 55]

  /** Non-negative characters are never continuation bytes. */
  lemma AsciiNotCont(cs: seq<CChar>)
    requires forall k | 0 <= k < |cs| :: 0 <= cs[k]
    ensures forall k | 0 <= k < |cs| :: !IsCont(cs[k])
  {
    forall k | 0 <= k < |cs|
      ensures !IsCont(cs[k])
    {
      ContinuationIsNegative(cs[k]);
    }
  }

  function Digit(): Parser<CChar, seq<CChar>> { AsciiNotCont(DigitBytes); ElemInString(DigitBytes) }
  function Digits(): Parser<CChar, seq<CChar>>
  {
    AsciiNotCont(DigitBytes);
    ElemsWhileInString(DigitBytes, 1, None)
  }
  function BinaryDigit(): Parser<CChar, seq<CChar>> { AsciiNotCont(BinaryBytes); ElemInString(BinaryBytes) }
  function HexDigit(): Parser<CChar, seq<CChar>> { AsciiNotCont(HexBytes); ElemInString(HexBytes) }

  /** `hexDigit` accepts only "0" to "7": "7" passes, while "8" and "a" fail. */
  lemma HexDigitIsOctal()
    ensures HexDigit()([55, 0], 0).Success?
    ensures HexDigit()([56, 0], 0).Failure? && HexDigit()([97, 0], 0).Failure?
  {
    HexDigitAt([55, 0], 55);
    HexDigitAt([56, 0], 56);
    HexDigitAt([97, 0], 97);
  }

  /** `hexDigit` on a one-byte C string accepts the byte exactly when it is one of "01234567". */
  lemma HexDigitAt(s: seq<CChar>, b: CChar)
    requires s == [b, 0]
    ensures HexDigit()(s, 0).Success? <==> 48 <= b <= 55
  {
    assert forall c: CChar :: c in HexBytes <==> 48 <= c <= 55;
  }

  /** The error of a `stringIn` that matches nothing. The source puts a description of the
      candidates into the message; the model keeps its fixed part. */
  const NoStringIn: ParseError := Generic("Did not match stringIn")

  /** `stringIn(xs)`, for the byte strings `xs`: the first terminating node on the walk from
      `index`, before the terminator, gives the shortest candidate that starts there. */
  function StringIn(xs: set<seq<CChar>>): (p: Parser<CChar, seq<CChar>>)
    ensures ConsumesBeforeTerminator(p)
  {
    (s: seq<CChar>, i: nat) =>
      match Tries.ShortestWord(Tries.KeyMap(xs), s, i, |s| - 1)
      case Some((o, n)) => Success(o, s, n)
      case None => Failure(NoStringIn)
  }

  /** `stringIn(xs)` succeeds with the candidate that ends at `n` exactly when no shorter
      candidate starts at `i`, all before the terminator; it fails exactly when no candidate
      starts at `i`. */
  lemma StringInCases(xs: set<seq<CChar>>, s: seq<CChar>, i: nat, o: seq<CChar>, n: nat)
    ensures StringIn(xs)(s, i) == Success(o, s, n) <==>
      i < n <= |s| - 1 && o == s[i..n] && o in xs && forall k | i < k < n :: s[i..k] !in xs
    ensures StringIn(xs)(s, i).Failure? <==> forall k | i < k <= |s| - 1 :: s[i..k] !in xs
    ensures StringIn(xs)(s, i).Failure? ==> StringIn(xs)(s, i).error == NoStringIn
  {
    Tries.ShortestKeyCases(xs, s, i, |s| - 1, o, n);
  }

  /** `stringIn(xs)`: build the trie of `xs`, each key its own payload. */
  method NewStringIn(xs: set<seq<CChar>>) returns (trie: Tries.Trie<CChar, seq<CChar>>)
    ensures trie.Valid() && fresh(trie.Repr) && trie.words == Tries.KeyMap(xs)
  {
    trie := Tries.Build(xs);
  }

  /** The closure of `stringIn(xs)`: walk the trie to the first terminating node, stopping at
      the terminator. */
  method StringInParse(trie: Tries.Trie<CChar, seq<CChar>>, ghost xs: set<seq<CChar>>, s: seq<CChar>, index: nat)
    returns (r: ParseResult<CChar, seq<CChar>>)
    requires trie.Valid() && trie.words == Tries.KeyMap(xs)
    ensures r == StringIn(xs)(s, index)
  {
    var found := trie.FirstTerminal(s, index, |s| - 1);
    match found
    case Some((o, n)) =>
      r := Success(o, s, n);
    case None =>
      r := Failure(NoStringIn);
  }

  /** `start`: zero width, only at index 0; it fails with `notTheEnd` elsewhere. */
  function Start(): (p: Parser<CChar, seq<CChar>>)
    ensures StaysBeforeTerminator(p)
    ensures forall s: seq<CChar>, i: nat :: p(s, i).Success? <==> i == 0
    ensures forall s: seq<CChar>, i: nat :: p(s, i).Success? ==> p(s, i) == Success([], s, i)
    ensures forall s: seq<CChar>, i: nat :: p(s, i).Failure? ==> p(s, i).error == NotTheEnd
  {
    (s: seq<CChar>, i: nat) => if i == 0 then Success([], s, i) else Failure(NotTheEnd)
  }

  /** `end`: zero width, only at the terminator. */
  function End(): (p: Parser<CChar, seq<CChar>>)
    ensures StaysBeforeTerminator(p) && WellBehaved(p)
    ensures forall s: seq<CChar>, i: nat :: p(s, i).Success? <==> i == |s| - 1
    ensures forall s: seq<CChar>, i: nat :: p(s, i).Success? ==> p(s, i) == Success([], s, i)
    ensures forall s: seq<CChar>, i: nat :: p(s, i).Failure? ==> p(s, i).error == NotTheEnd
  {
    (s: seq<CChar>, i: nat) => if i == |s| - 1 then Success([], s, i) else Failure(NotTheEnd)
  }
}
