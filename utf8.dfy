/** `UTF8Parser`: the leaf scanners over the UTF-8 bytes of a string (its `UTF8View`). The
    source ends at its last byte, and every output is the run of bytes consumed. */
module Utf8 {
  import opened Errors
  import opened Options
  import opened Results
  import opened Parsers
  import opened Scanning
  import opened Conjunction
  import Tries

  /** The bytes of a string, as the integers `unexpectedString` reports. */
  function Units(lit: seq<Byte>): (u: seq<int>)
    ensures |u| == |lit| && forall k | 0 <= k < |lit| :: u[k] == lit[k] as int
  {
    seq(|lit|, k requires 0 <= k < |lit| => lit[k] as int)
  }

  /** The result of `string(lit)` once its loop has stopped. */
  function StringOutcome(lit: seq<Byte>, s: seq<Byte>, r: LiteralOutcome<Byte>): ParseResult<Byte, seq<Byte>> {
    match r
    case Matched(n) => Success(lit, s, n)
    case RanOut(_) => Failure(NoMoreSource)
    case Mismatch(_, _, _) => Failure(UnexpectedString(Units(lit)))
  }

  /** `string(lit)`, for the UTF-8 bytes `lit` of the string. */
  function String(lit: seq<Byte>): (p: Parser<Byte, seq<Byte>>)
    ensures forall s: seq<Byte>, i: nat :: p(s, i).Success? ==>
      p(s, i) == Success(lit, s, i + |lit|) && (lit != [] ==> i + |lit| <= |s|)
    ensures forall s: seq<Byte>, i: nat :: p(s, i).Failure? ==> lit != [] && (p(s, i).error == NoMoreSource || p(s, i).error == UnexpectedString(Units(lit)))
  {
    (s: seq<Byte>, i: nat) => StringOutcome(lit, s, Literal(lit, s, i, |s|))
  }

  /** `string(lit)` succeeds exactly when `lit` follows `index`, and ends right after it; it
      fails with `noMoreSource` when the source ends first, and with `unexpectedString` naming
      the whole literal on the first byte that differs. */
  lemma StringCases(lit: seq<Byte>, s: seq<Byte>, i: nat, k: nat)
    ensures String(lit)(s, i).Success? <==> lit == [] || (i + |lit| <= |s| && s[i..i + |lit|] == lit)
    ensures String(lit)(s, i).Success? ==> String(lit)(s, i) == Success(lit, s, i + |lit|)
    ensures k < |lit| && Agree(lit, s, i, |s|, k) && i + k >= |s| ==>
      String(lit)(s, i) == Failure(NoMoreSource)
    ensures k < |lit| && Agree(lit, s, i, |s|, k) && i + k < |s| && s[i + k] != lit[k] ==>
      String(lit)(s, i) == Failure(UnexpectedString(Units(lit)))
  {
    AgreeIsSlice(lit, s, i, |s|);
    if k < |lit| && Agree(lit, s, i, |s|, k) && i + k < |s| && s[i + k] != lit[k] {
      LiteralCases(lit, s, i, |s|, k, lit[k], s[i + k]);
    } else {
      LiteralCases(lit, s, i, |s|, k, 0, 0);
    }
  }

  /** The closure of `string(lit)`: the literal loop, then its result. */
  method StringParse(lit: seq<Byte>, s: seq<Byte>, index: nat) returns (r: ParseResult<Byte, seq<Byte>>)
    ensures r == String(lit)(s, index)
  {
    var outcome := ScanLiteral(lit, s, index, |s|);
    r := StringOutcome(lit, s, outcome);
  }

  /** `string("abc")` on "abc" gives "abc" and ends at the end. */
  lemma StringAbc()
    ensures String([97, 98, 99])([97, 98, 99], 0) == Success([97, 98, 99], [97, 98, 99], 3)
  {
    StringCases([97, 98, 99], [97, 98, 99], 0, 0);
  }

  /** `elem(e)`: the byte `e` at `index`; `noMoreSource` at the end, `unexpectedElement`
      (naming `e`) on another byte. */
  function Elem(e: Byte): (p: Parser<Byte, Byte>)
    ensures Consumes(p)
    ensures forall s: seq<Byte>, i: nat :: p(s, i).Success? <==> i < |s| && s[i] == e
    ensures forall s: seq<Byte>, i: nat :: p(s, i).Success? ==> p(s, i) == Success(e, s, i + 1)
    ensures forall s: seq<Byte>, i: nat :: i >= |s| ==> p(s, i) == Failure(NoMoreSource)
    ensures forall s: seq<Byte>, i: nat :: i < |s| && s[i] != e ==> p(s, i) == Failure(UnexpectedElement(e as int))
  {
    (s: seq<Byte>, i: nat) =>
      if i >= |s| then Failure(NoMoreSource)
      else if s[i] == e then Success(e, s, i + 1)
      else Failure(UnexpectedElement(e as int))
  }

  /** `one`: the byte at `index`; `noMoreSource` at the end. */
  function One(): (p: Parser<Byte, Byte>)
    ensures Consumes(p)
    ensures forall s: seq<Byte>, i: nat :: p(s, i).Success? <==> i < |s|
    ensures forall s: seq<Byte>, i: nat :: i < |s| ==> p(s, i) == Success(s[i], s, i + 1)
    ensures forall s: seq<Byte>, i: nat :: p(s, i).Failure? ==> p(s, i).error == NoMoreSource
  {
    (s: seq<Byte>, i: nat) => if i < |s| then Success(s[i], s, i + 1) else Failure(NoMoreSource)
  }

  /** Repeated `one` from `i` reads every byte from `i` to the end, one by one. */
  lemma {:induction false} OneChain(s: seq<Byte>, i: nat)
    requires i <= |s|
    decreases |s| - i
    ensures Chain(One(), s, i, s[i..], |s|)
  {
    if i < |s| {
      OneChain(s, i + 1);
      assert s[i..][1..] == s[i + 1..];
    }
  }

  /** The loop of `one.rep` from the start collects every byte of the source. */
  lemma OneLoopReads(s: seq<Byte>)
    ensures RepeatLoop(One(), None, s, 0, []) == (s, |s|)
  {
    OneChain(s, 0);
    assert s[0..] == s;
    assert Chain(One(), s, 0, s, |s|);
    assert One()(s, |s|).Failure?;
    assert Stopped(One(), None, s, s, |s|) && WithinMax(None, s);
    RepeatLoopCharacterized(One(), None, s, 0, s, |s|);
  }

  /** `one.rep(1)` over a non-empty source gives back all of its bytes, in order. */
  lemma OneRepReconstructs(s: seq<Byte>)
    requires |s| >= 1
    ensures Rep(One(), 1, None)(s, 0) == Success(s, s, |s|)
  {
    OneLoopReads(s);
    assert Rep(One(), 1, None)(s, 0) == Repeat(One(), 1, None, s, 0);
  }

  /** The result of `char` once its loop found `n` continuation bytes after the lead byte. */
  function CharOutcome(s: seq<Byte>, i: nat, n: nat): ParseResult<Byte, seq<Byte>>
    requires i + 1 + n <= |s|
  {
    Success(s[i..i + 1 + n], s, i + 1 + n)
  }

  /** `char` from `i`. */
  function CharAt(s: seq<Byte>, i: nat): (r: ParseResult<Byte, seq<Byte>>)
    ensures r.Success? ==> r.input == s && i < r.next <= |s|
  {
    if i >= |s| then Failure(NoMoreSource)
    else
      RunBounds(IsContinuation, None, s, i + 1, |s|);
      CharOutcome(s, i, Run(IsContinuation, None, s, i + 1, |s|))
  }

  /** `char`: one lead byte and the continuation bytes after it. */
  function Char(): (p: Parser<Byte, seq<Byte>>)
    ensures Consumes(p)
  {
    (s: seq<Byte>, i: nat) => CharAt(s, i)
  }

  /** `char` succeeds exactly before the end; its output is the lead byte followed by the
      maximal run of continuation bytes (0x80 to 0xBF), and it fails with `noMoreSource` at
      the end. */
  lemma CharCases(s: seq<Byte>, i: nat, o: seq<Byte>, n: nat)
    ensures Char()(s, i) == Success(o, s, i + 1 + n) <==>
      i < |s| && i + 1 + n <= |s| && o == s[i..i + 1 + n] && IsRun(IsContinuation, None, s, i + 1, |s|, n)
    ensures Char()(s, i).Failure? <==> i >= |s|
    ensures Char()(s, i).Failure? ==> Char()(s, i).error == NoMoreSource
  {
    if i < |s| {
      var r := Run(IsContinuation, None, s, i + 1, |s|);
      RunCharacterized(IsContinuation, None, s, i + 1, |s|, n);
      RunBounds(IsContinuation, None, s, i + 1, |s|);
      assert Char()(s, i) == Success(s[i..i + 1 + r], s, i + 1 + r);
    }
  }

  /** The closure of `char`: the continuation loop, then its result. */
  method CharParse(s: seq<Byte>, index: nat) returns (r: ParseResult<Byte, seq<Byte>>)
    ensures r == Char()(s, index)
  {
    if index >= |s| {
      return Failure(NoMoreSource);
    }
    var n := ScanWhile(IsContinuation, None, s, index + 1, |s|);
    RunBounds(IsContinuation, None, s, index + 1, |s|);
    r := CharOutcome(s, index, n);
  }

  /** `char` over the three bytes of U+2000 (E2 80 80) takes all three. */
  lemma CharThreeBytes()
    ensures Char()([0xE2, 0x80, 0x80], 0) == Success([0xE2, 0x80, 0x80], [0xE2, 0x80, 0x80], 3)
  {
    var s: seq<Byte> := [0xE2, 0x80, 0x80];
    ContinuationRange(0x80);
    CharCases(s, 0, s, 2);
    assert s[0..3] == s;
  }

  /** `elemPred(f)`: one byte that `f` accepts; `noMoreSource` at the end and
      `unsatisfiedPredicate` on a byte `f` rejects. */
  function ElemPred(f: Byte -> bool): (p: Parser<Byte, seq<Byte>>)
    ensures Consumes(p)
    ensures forall s: seq<Byte>, i: nat :: p(s, i).Success? <==> i < |s| && f(s[i])
    ensures forall s: seq<Byte>, i: nat :: p(s, i).Success? ==> p(s, i).output == [s[i]] && p(s, i).next == i + 1
    ensures forall s: seq<Byte>, i: nat :: i >= |s| ==> p(s, i) == Failure(NoMoreSource)
    ensures forall s: seq<Byte>, i: nat :: i < |s| && !f(s[i]) ==> p(s, i) == Failure(UnsatisfiedPredicate)
  {
    (s: seq<Byte>, i: nat) =>
      if i >= |s| then Failure(NoMoreSource)
      else if f(s[i]) then Success([s[i]], s, i + 1)
      else Failure(UnsatisfiedPredicate)
  }

  /** The result of `elemWhilePred(f, min:, max:)` after its loop consumed `count` bytes. */
  function WhileOutcome(min: int, s: seq<Byte>, i: nat, count: nat): ParseResult<Byte, seq<Byte>>
    requires count == 0 || i + count <= |s|
  {
    if count >= min then Success(Span(s, i, count), s, i + count)
    else Failure(ExpectedAtLeast(min))
  }

  /** `elemWhilePred(f, min:, max:)` from `i`. */
  function ElemWhilePredAt(f: Byte -> bool, min: int, max: Option<int>, s: seq<Byte>, i: nat): (r: ParseResult<Byte, seq<Byte>>)
    ensures r.Success? ==> r.input == s && i <= r.next
    ensures r.Success? && i <= |s| ==> r.next <= |s|
  {
    RunBounds(f, max, s, i, |s|);
    WhileOutcome(min, s, i, Run(f, max, s, i, |s|))
  }

  /** `elemWhilePred(f, min:, max:)`: the run of bytes `f` accepts, capped at `max`. */
  function ElemWhilePred(f: Byte -> bool, min: int, max: Option<int>): (p: Parser<Byte, seq<Byte>>)
    ensures WellBehaved(p)
  {
    (s: seq<Byte>, i: nat) => ElemWhilePredAt(f, min, max, s, i)
  }

  /** `elemWhilePred(f, min:, max:)` succeeds with the maximal run exactly when it has at least
      `min` bytes, and otherwise fails with `expectedAtLeast(count: min)`. */
  lemma ElemWhilePredCases(f: Byte -> bool, min: int, max: Option<int>, s: seq<Byte>, i: nat, o: seq<Byte>, n: nat)
    ensures ElemWhilePred(f, min, max)(s, i) == Success(o, s, i + n) <==>
      (n == 0 || i + n <= |s|) && o == Span(s, i, n) && IsRun(f, max, s, i, |s|, n) && n >= min
    ensures ElemWhilePred(f, min, max)(s, i).Failure? <==> Run(f, max, s, i, |s|) < min
    ensures ElemWhilePred(f, min, max)(s, i).Failure? ==> ElemWhilePred(f, min, max)(s, i).error == ExpectedAtLeast(min)
  {
    RunCharacterized(f, max, s, i, |s|, n);
    RunBounds(f, max, s, i, |s|);
  }

  /** The closure of `elemWhilePred(f, min:, max:)`: the counting loop, then its result. */
  method ElemWhilePredParse(f: Byte -> bool, min: int, max: Option<int>, s: seq<Byte>, index: nat)
    returns (r: ParseResult<Byte, seq<Byte>>)
    ensures r == ElemWhilePred(f, min, max)(s, index)
  {
    var count := ScanWhile(f, max, s, index, |s|);
    RunBounds(f, max, s, index, |s|);
    r := WhileOutcome(min, s, index, count);
  }

  /** `elemIn(elems)` for a set: one byte of `elems`. */
  function ElemIn(elems: set<Byte>): (p: Parser<Byte, seq<Byte>>)
    ensures Consumes(p)
    ensures forall s: seq<Byte>, i: nat :: p(s, i).Success? <==> i < |s| && s[i] in elems
  {
    ElemPred(Member(elems))
  }

  /** `elemIn(b...)` and `elemIn([b])`: one of the listed bytes. */
  function ElemInList(elems: seq<Byte>): (p: Parser<Byte, seq<Byte>>)
    ensures forall s: seq<Byte>, i: nat :: p(s, i).Success? <==> i < |s| && s[i] in elems
  {
    ElemIn(Elements(elems))
  }

  /** `elemIn(string)`, for the string's bytes, which may not be continuation bytes. */
  function ElemInString(bytes: seq<Byte>): (p: Parser<Byte, seq<Byte>>)
    requires forall k | 0 <= k < |bytes| :: !IsContinuation(bytes[k])
    ensures forall s: seq<Byte>, i: nat :: p(s, i).Success? <==> i < |s| && s[i] in bytes
  {
    ElemInList(bytes)
  }

  /** `elemsWhileIn(elems, min:, max:)` for a set: the run of bytes of `elems`. */
  function ElemsWhileIn(elems: set<Byte>, min: int, max: Option<int>): (p: Parser<Byte, seq<Byte>>)
    ensures WellBehaved(p)
  {
    ElemWhilePred(Member(elems), min, max)
  }

  /** `elemsWhileIn([b], min:, max:)`: the run of the listed bytes. */
  function ElemsWhileInList(elems: seq<Byte>, min: int, max: Option<int>): (p: Parser<Byte, seq<Byte>>)
    ensures forall s: seq<Byte>, i: nat :: p(s, i) == ElemWhilePred(Listed(elems), min, max)(s, i)
  {
    ElementsRun(elems, max);
    ElemsWhileIn(Elements(elems), min, max)
  }

  /** `elemsWhileIn(string, min:, max:)`, for the string's bytes, which may not be continuation
      bytes. */
  function ElemsWhileInString(bytes: seq<Byte>, min: int, max: Option<int>): (p: Parser<Byte, seq<Byte>>)
    requires forall k | 0 <= k < |bytes| :: !IsContinuation(bytes[k])
    ensures forall s: seq<Byte>, i: nat :: p(s, i) == ElemWhilePred(Listed(bytes), min, max)(s, i)
  {
    ElemsWhileInList(bytes, min, max)
  }

  /** The bytes of "0123456789", "01" and "01234567". */
  const DigitBytes: seq<Byte> := [48, 49, 50, 51, 52, 53, 54, 55, 56, 57]
  const BinaryBytes: seq<Byte> := [48, 49]
  const HexBytes: seq<Byte> := [48, 49, 50, 51, 52, 53, 54, 55]

  /** ASCII bytes are never continuation bytes. */
  lemma AsciiNotContinuation(bytes: seq<Byte>)
    requires forall k | 0 <= k < |bytes| :: bytes[k] < 0x80
    ensures forall k | 0 <= k < |bytes| :: !IsContinuation(bytes[k])
  {
    forall k | 0 <= k < |bytes|
      ensures !IsContinuation(bytes[k])
    {
      ContinuationRange(bytes[k]);
    }
  }

  function Digit(): Parser<Byte, seq<Byte>>
  {
    var digits := DigitBytes;
    AsciiNotContinuation(digits);
    ElemInString(digits)
  }
  function Digits(): Parser<Byte, seq<Byte>>
  {
    AsciiNotContinuation(DigitBytes);
    ElemsWhileInString(DigitBytes, 1, None)
  }
  function BinaryDigit(): Parser<Byte, seq<Byte>> { AsciiNotContinuation(BinaryBytes); ElemInString(BinaryBytes) }
  function HexDigit(): Parser<Byte, seq<Byte>> { AsciiNotContinuation(HexBytes); ElemInString(HexBytes) }

  /** `hexDigit` accepts only "0" to "7": "7" passes, while "8" and "a" fail. */
  lemma HexDigitIsOctal()
    ensures HexDigit()([55], 0).Success?
    ensures HexDigit()([56], 0).Failure? && HexDigit()([97], 0).Failure?
  {
    HexDigitAt([55], 55);
    HexDigitAt([56], 56);
    HexDigitAt([97], 97);
  }

  /** `hexDigit` on a single byte accepts it exactly when it is one of "01234567". */
  lemma HexDigitAt(s: seq<Byte>, b: Byte)
    requires s == [b]
    ensures HexDigit()(s, 0).Success? <==> 48 <= b <= 55
  {
    assert forall c: Byte :: c in HexBytes <==> 48 <= c <= 55;
  }

  /** The bytes of "0123456789abcdefABCDEF": the hexadecimal digits, with letters in both cases. */
  const HexDigitSet: set<Byte> := {48, 49, 50, 51, 52, 53, 54, 55, 56, 57,
                                    97, 98, 99, 100, 101, 102, 65, 66, 67, 68, 69, 70}

  /** `hexDigit` as its documentation describes it: one hexadecimal digit, 0 to 15. */
  function HexDigitIntended(): (p: Parser<Byte, seq<Byte>>)
    ensures forall s: seq<Byte>, i: nat :: p(s, i).Success? <==> i < |s| && s[i] in HexDigitSet
    ensures forall s: seq<Byte>, i: nat :: p(s, i).Success? ==> p(s, i).output == [s[i]] && p(s, i).next == i + 1
    ensures forall s: seq<Byte>, i: nat :: i >= |s| ==> p(s, i) == Failure(NoMoreSource)
  {
    ElemIn(HexDigitSet)
  }

  /** The intended `hexDigit` on a single byte accepts it exactly when it is a decimal digit or
      one of the letters a to f in either case. */
  lemma HexDigitIntendedAt(s: seq<Byte>, b: Byte)
    requires s == [b]
    ensures HexDigitIntended()(s, 0).Success? <==> 48 <= b <= 57 || 97 <= b <= 102 || 65 <= b <= 70
  {
    assert forall c: Byte :: c in HexDigitSet <==> 48 <= c <= 57 || 97 <= c <= 102 || 65 <= c <= 70;
  }

  /** The error of a `stringIn` that matches nothing. The source puts a description of the
      candidates into the message; the model keeps its fixed part. */
  const NoStringIn: ParseError := Generic("Did not match stringIn")

  /** `stringIn(xs)`, for the byte strings `xs`: the first leaf on the walk from `index`
      gives the shortest candidate there that no other candidate extends. */
  function StringIn(xs: set<seq<Byte>>): (p: Parser<Byte, seq<Byte>>)
    ensures Consumes(p)
  {
    (s: seq<Byte>, i: nat) =>
      match Tries.ShortestMaximal(Tries.KeyMap(xs), s, i)
      case Some((o, n)) => Success(o, s, n)
      case None => Failure(NoStringIn)
  }

  /** `stringIn([string])`: the candidates as byte strings, duplicates merged. */
  function StringInList(xs: seq<seq<Byte>>): (p: Parser<Byte, seq<Byte>>)
    ensures forall s: seq<Byte>, i: nat :: p(s, i) == StringIn(set x | x in xs)(s, i)
  {
    StringIn(set x | x in xs)
  }

  /** `stringIn(xs)` succeeds with the candidate that ends at `n` exactly when it is a leaf
      candidate (no other candidate extends it) and no shorter leaf candidate starts at `i`; it
      fails exactly when no leaf candidate starts at `i`. */
  lemma StringInCases(xs: set<seq<Byte>>, s: seq<Byte>, i: nat, o: seq<Byte>, n: nat)
    ensures StringIn(xs)(s, i) == Success(o, s, n) <==>
      i < n <= |s| && o == s[i..n] && Tries.LeafKey(xs, o) && forall k | i < k < n :: !Tries.LeafKey(xs, s[i..k])
    ensures StringIn(xs)(s, i).Failure? <==> forall k | i < k <= |s| :: !Tries.LeafKey(xs, s[i..k])
    ensures StringIn(xs)(s, i).Failure? ==> StringIn(xs)(s, i).error == NoStringIn
  {
    Tries.ShortestLeafKeyCases(xs, s, i, o, n);
  }

  /** Unlike the other scanners' `stringIn`, a candidate that another candidate extends is never
      the answer: with "a" and "ab", the input "ab" gives "ab" and the input "a" fails. */
  lemma StringInLeafWins()
    ensures StringIn({[97], [97, 98]})([97, 98], 0) == Success([97, 98], [97, 98], 2)
    ensures StringIn({[97], [97, 98]})([97], 0).Failure?
  {
    var xs: set<seq<Byte>> := {[97], [97, 98]};
    assert [97] < [97, 98];
    assert [97, 98][0..1] == [97] && [97, 98][0..2] == [97, 98];
    StringInCases(xs, [97, 98], 0, [97, 98], 2);
    StringInCases(xs, [97], 0, [], 0);
  }

  /** `stringIn(xs)`: build the trie of `xs`, each key its own payload. */
  method NewStringIn(xs: set<seq<Byte>>) returns (trie: Tries.Trie<Byte, seq<Byte>>)
    ensures trie.Valid() && fresh(trie.Repr) && trie.words == Tries.KeyMap(xs)
  {
    trie := Tries.Build(xs);
  }

  /** The closure of `stringIn(xs)`: walk the trie to the first leaf. */
  method StringInParse(trie: Tries.Trie<Byte, seq<Byte>>, ghost xs: set<seq<Byte>>, s: seq<Byte>, index: nat)
    returns (r: ParseResult<Byte, seq<Byte>>)
    requires trie.Valid() && trie.words == Tries.KeyMap(xs)
    ensures r == StringIn(xs)(s, index)
  {
    var found := trie.FirstLeaf(s, index);
    match found
    case Some((o, n)) =>
      r := Success(o, s, n);
    case None =>
      r := Failure(NoStringIn);
  }

  /** The UTF-8 bytes of U+2000 and U+2002, and the two back to back. */
  const EnQuad: seq<Byte> := [0xE2, 0x80, 0x80]
  const EnSpace: seq<Byte> := [0xE2, 0x80, 0x82]
  const Spaces: seq<Byte> := EnQuad + EnSpace

  /** `stringIn("\u{2000}", "\u{2002}")` reads each of the two spaces from where it starts. */
  lemma SpacesStringIn()
    ensures StringIn({EnQuad, EnSpace})(Spaces, 0) == Success(EnQuad, Spaces, 3)
    ensures StringIn({EnQuad, EnSpace})(Spaces, 3) == Success(EnSpace, Spaces, 6)
    ensures StringIn({EnQuad, EnSpace})(Spaces, 6).Failure?
  {
    SpaceAt(EnQuad, 0);
    SpaceAt(EnSpace, 3);
    StringInCases({EnQuad, EnSpace}, Spaces, 6, [], 0);
  }

  /** Either space, where it starts in `Spaces`, is the leaf candidate read there. */
  lemma SpaceAt(w: seq<Byte>, i: nat)
    requires (w == EnQuad && i == 0) || (w == EnSpace && i == 3)
    ensures StringIn({EnQuad, EnSpace})(Spaces, i) == Success(w, Spaces, i + 3)
  {
    var xs := {EnQuad, EnSpace};
    assert Spaces[i..i + 3] == w;
    assert Spaces[i..i + 1] == [0xE2] && Spaces[i..i + 2] == [0xE2, 0x80];
    assert Tries.LeafKey(xs, w);
    StringInCases(xs, Spaces, i, w, i + 3);
  }

  /** `stringIn("\u{2000}", "\u{2002}").rep(1)` over the two spaces gives both, and joined they
      are the input again. */
  lemma SpacesRepReconstructs()
    ensures Rep(StringIn({EnQuad, EnSpace}), 1, None)(Spaces, 0) == Success([EnQuad, EnSpace], Spaces, 6)
    ensures EnQuad + EnSpace == Spaces
  {
    var p := StringIn({EnQuad, EnSpace});
    SpacesStringIn();
    assert [EnQuad, EnSpace][1..] == [EnSpace] && [EnSpace][1..] == [];
    assert Chain(p, Spaces, 6, [], 6);
    assert Chain(p, Spaces, 3, [EnSpace], 6);
    assert Chain(p, Spaces, 0, [EnQuad, EnSpace], 6);
    RepeatLoopCharacterized(p, None, Spaces, 0, [EnQuad, EnSpace], 6);
  }

  /** `start`: zero width, only at the start; it fails with `notTheEnd` elsewhere. */
  function Start(): (p: Parser<Byte, seq<Byte>>)
    ensures forall s: seq<Byte>, i: nat :: p(s, i).Success? <==> i == 0
    ensures forall s: seq<Byte>, i: nat :: p(s, i).Success? ==> p(s, i) == Success([], s, i)
    ensures forall s: seq<Byte>, i: nat :: p(s, i).Failure? ==> p(s, i).error == NotTheEnd
  {
    (s: seq<Byte>, i: nat) => if i == 0 then Success([], s, i) else Failure(NotTheEnd)
  }

  /** `start` away from the start reports `notTheEnd`, although `notTheStart` exists for it. */
  lemma StartReportsNotTheEnd()
    ensures Start()([97], 1) == Failure(NotTheEnd)
    ensures Start()([97], 1) != Failure(NotTheStart)
  {
  }

  /** `start` with the error its name calls for: zero width, only at the start, and failing with
      `notTheStart` everywhere else. */
  function StartIntended(): (p: Parser<Byte, seq<Byte>>)
    ensures WellBehaved(p)
    ensures forall s: seq<Byte>, i: nat :: p(s, i).Success? <==> i == 0
    ensures forall s: seq<Byte>, i: nat :: p(s, i).Success? ==> p(s, i) == Success([], s, i)
    ensures forall s: seq<Byte>, i: nat :: p(s, i).Failure? ==> p(s, i).error == NotTheStart
  {
    (s: seq<Byte>, i: nat) => if i == 0 then Success([], s, i) else Failure(NotTheStart)
  }

  /** `end`: zero width, only at the end of the source. */
  function End(): (p: Parser<Byte, seq<Byte>>)
    ensures WellBehaved(p)
    ensures forall s: seq<Byte>, i: nat :: p(s, i).Success? <==> i == |s|
    ensures forall s: seq<Byte>, i: nat :: p(s, i).Success? ==> p(s, i) == Success([], s, i)
    ensures forall s: seq<Byte>, i: nat :: p(s, i).Failure? ==> p(s, i).error == NotTheEnd
  {
    (s: seq<Byte>, i: nat) => if i == |s| then Success([], s, i) else Failure(NotTheEnd)
  }
}
