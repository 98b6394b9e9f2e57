# parser-combinator-swift, modelled in Dafny

This project models the core of parser-combinator-swift, a Swift library of parser
combinators. A `Parser` wraps a function from a source collection and a start index to a
`ParseResult`. A result is either a success (output, source, next index) or a failure (a
`ParseError`). The library has:

- combinators that build parsers from parsers: `map`, `flatMap`, `filter`, `or`, `rep`,
  `rep1sep`, the lookaheads and the sequential operators `~>`, `<~` and `~`;
- leaf parsers for four kinds of source:
  - `StringParser`, over characters;
  - `UTF16Parser`, over UTF-16 code units;
  - `UTF8Parser`, over UTF-8 bytes;
  - `UTF8CStringParser`, over a NUL-terminated `CChar` array, whose last element is the
    terminator and is never parsed;
- a `Trie` class behind the `stringIn` parsers of the three encoding views.

## How the model is laid out

| file | module | models |
|---|---|---|
| options.dfy | Options | `Optional` values |
| errors.dfy | Errors | `Errors` and `GenericParseError`, plus the token errors the leaf parsers raise |
| results.dfy | Results | `ParseResult` and its accessors |
| parsers.dfy | Parsers | `Parser`, `just`, `fail`, `map`, `flatMap`, `filter`, `lazyOf`, `memoizedLazyOf` |
| sequential.dfy | Sequential | `~>`, `<~`, `~` and the tuple-flattening `~` overloads |
| conjunction.dfy | Conjunction | `typeErased`, `or`, `optional`, `rep`, `rep1sep`, the lookaheads |
| scanning.dfy | Scanning | the two loops every leaf parser shares: matching a literal, and counting a run of elements that satisfy a predicate |
| trie.dfy | Tries | `TrieNode` and `Trie` as classes over heap nodes, and the trie walks of `stringIn` |
| strings.dfy | Strings | `StringParser` |
| utf16.dfy | Utf16 | `UTF16Parser` |
| utf8.dfy | Utf8 | `UTF8Parser` |
| cstrings.dfy | CStrings | `UTF8CStringParser` |

### Modelling choices

- **Sources and parsers.** A source is a `seq<E>` and an index is a `nat`, so a parser is a
  Dafny function value `(seq<E>, nat) -> ParseResult<E, O>`.
- **Characters and bytes.**
  - `Character` is a Dafny `char`.
  - A UTF-16 code unit is a 16-bit newtype, and a UTF-8 byte an 8-bit one.
  - `CChar` is a signed 8-bit newtype, so that the continuation bytes of a C string are
    negative, as they are in the source.
- **Well-behaved parsers.** Two predicates state the discipline of every parser:
  - `Parsers.WellBehaved`: from an index inside the source, a parser never moves backwards,
    never runs past the end and never swaps the source;
  - `Parsers.Consumes`: every success moves forward.
- **Rep.** The combinators are proved to preserve both predicates. `rep` without a maximum
  needs `Consumes` of its parser to stop: this is the one precondition the model adds.
- **Methods and specifications.** Where the source runs a loop, the model has a method with
  that loop. The method is proved equal to a specification function, and the properties
  the source promises are proved about that function:
  - `RepParse`, `ScanLiteral`, `ScanWhile` and the `...Parse` methods;
  - the trie walks `FirstTerminal` and `FirstLeaf`.
- **The trie.** `Trie.insert` is a class method that allocates nodes and mutates their
  `children`, `isTerminating` and `original` fields. Its ghost state has two parts:
  - a map `nodeAt` from each path to its node;
  - a map `words` from each inserted word to its original.
- **The trie invariant.** `Trie.Valid` ties the ghost state to the heap. Insert is proved
  to keep that invariant, to add exactly the new word, and to keep the word count equal to
  the number of words.
- **The trie walks.** The `stringIn` walks are proved equal to `ShortestWord` (UTF-16 and
  C string) and `ShortestMaximal` (UTF-8). These are reference definitions over the word
  map.

## Model

| member | source | states |
|---|---|---|
| Results.MapResult | Sources/parser-combinator-swift/Core/ParseResult.swift:12-19 | a success stays a success, with the transformed output and the same source and next index; a failure keeps its error |
| Results.FlatMapResult | Sources/parser-combinator-swift/Core/ParseResult.swift:25-32 | a success becomes whatever the continuation returns for its output, source and index; a failure is passed on unchanged |
| Results.IsSuccess | Sources/parser-combinator-swift/Core/ParseResult.swift:37-42 | true exactly for a success |
| Results.IsFailed | Sources/parser-combinator-swift/Core/ParseResult.swift:47-52 | true exactly for a failure |
| Results.Unwrap | Sources/parser-combinator-swift/Core/ParseResult.swift:58-65 | returns the output of a success; throws `unwrappedFailedResult` on a failure |
| Results.UnwrapOr | Sources/parser-combinator-swift/Core/ParseResult.swift:71-73 | the output of a success, otherwise the fallback |
| Results.Index | Sources/parser-combinator-swift/Core/ParseResult.swift:75-82 | returns the next index of a success; throws `unwrappedFailedResult` on a failure |
| Results.Error | Sources/parser-combinator-swift/Core/ParseResult.swift:88-95 | returns the error of a failure; throws `errorFromSuccessfulResult` on a success |
| Results.ClassifiersComplementary | Sources/parser-combinator-swift/Core/ParseResult.swift:37-95 | exactly one of `isSuccess` and `isFailed` holds; `unwrap` and `index` return exactly on a success, `error` exactly on a failure |
| Results.MapIsFlatMap | Sources/parser-combinator-swift/Core/ParseResult.swift:12-32 | `map` is `flatMap` with a continuation that rebuilds a success |
| Results.FlatMapRightIdentity | Sources/parser-combinator-swift/Core/ParseResult.swift:25-32 | `flatMap` with the success constructor returns the result unchanged |
| Results.MapKeepsIndexAndError | Sources/parser-combinator-swift/Core/ParseResult.swift:12-19 | `map` changes neither `index()` nor `error()` |
| Parsers.ConsumesIsWellBehaved | Sources/parser-combinator-swift/Core/Parser.swift:21-23 | a parser that always moves forward also never moves backwards or past the end |
| Parsers.Parse | Sources/parser-combinator-swift/Core/Parser.swift:21-23 | a well-behaved parser run inside the source returns the same source and an index between start and end |
| Parsers.Just | Sources/parser-combinator-swift/Core/Parser.swift:29-33 | succeeds everywhere with the value, consuming nothing |
| Parsers.Fail | Sources/parser-combinator-swift/Core/Parser.swift:39-41 | fails everywhere with the given error |
| Parsers.FailMessage | Sources/parser-combinator-swift/Core/Parser.swift:47-49 | fails everywhere with a generic error carrying the message |
| Parsers.FlatMap | Sources/parser-combinator-swift/Core/Parser.swift:55-61 | a failure of the first parser is the result unchanged; on success the parser the transform picks from the output runs on the source and next index of that success |
| Parsers.Map | Sources/parser-combinator-swift/Core/Parser.swift:67-73 | succeeds exactly when the parser does; a success keeps its source and next index with the output transformed; a failure keeps its error |
| Parsers.Filter | Sources/parser-combinator-swift/Core/Parser.swift:75-87 | a failure is returned unchanged |
| Parsers.PassWith | Sources/parser-combinator-swift/Core/Parser.swift:89-91 | behaves as `just(x)` everywhere |
| Parsers.LazyOf | Sources/parser-combinator-swift/Core/Parser.swift:93-95 | behaves as the parser the closure produces, at parse time |
| Parsers.RunProduced | Sources/parser-combinator-swift/Core/Parser.swift:93-95 | a throwing producer's error surfaces at parse time; otherwise the produced parser's result |
| Parsers.LazyOfThrowing | Sources/parser-combinator-swift/Core/Parser.swift:93-95 | when the producer throws, every parse throws its error |
| Parsers.MemoizedLazyOf | Sources/parser-combinator-swift/Core/Parser.swift:97-114 | below the memo limit, every parse sees the one parser (or error) produced up front |
| Parsers.MemoizedIsLazy | Sources/parser-combinator-swift/Core/Parser.swift:97-114 | memoisation is not observable: on both sides of the limit it behaves as `lazyOf` |
| Parsers.FlatMapLeftIdentity | Sources/parser-combinator-swift/Core/Parser.swift:29-61 | `just(v).flatMap(f)` is `f(v)` |
| Parsers.FlatMapRightIdentity | Sources/parser-combinator-swift/Core/Parser.swift:29-61 | `p.flatMap(just)` is `p` |
| Parsers.FlatMapAssociative | Sources/parser-combinator-swift/Core/Parser.swift:55-61 | `flatMap` is associative |
| Parsers.MapIsFlatMapJust | Sources/parser-combinator-swift/Core/Parser.swift:55-73 | `map(f)` is `flatMap` into `just(f(o))` |
| Parsers.MapSemantics | Sources/parser-combinator-swift/Core/Parser.swift:67-73 | on success the output is transformed and the source and next index are kept; a failure is kept |
| Parsers.MapFusion | Sources/parser-combinator-swift/Core/Parser.swift:67-73 | two maps are one map of the composed function |
| Parsers.FilterSemantics | Sources/parser-combinator-swift/Core/Parser.swift:75-87 | succeeds exactly when the parser succeeds with an output the predicate accepts, returning that same success; otherwise fails with `filtered` |
| Parsers.FilterFusion | Sources/parser-combinator-swift/Core/Parser.swift:75-87 | two filters succeed exactly where one filter on the conjunction does |
| Parsers.JustFailWellBehaved | Sources/parser-combinator-swift/Core/Parser.swift:29-41 | `just` and `fail` are well-behaved, and `fail` trivially consumes |
| Parsers.MapPreserves | Sources/parser-combinator-swift/Core/Parser.swift:67-73 | `map` keeps well-behaved and consuming parsers so |
| Parsers.FilterPreserves | Sources/parser-combinator-swift/Core/Parser.swift:75-87 | `filter` keeps well-behaved and consuming parsers so |
| Parsers.FlatMapPreserves | Sources/parser-combinator-swift/Core/Parser.swift:55-61 | `flatMap` of well-behaved parsers is well-behaved, and consumes when the first parser does |
| Parsers.ContinuationBehaves | Sources/parser-combinator-swift/Core/Parser.swift:55-61 | after a success inside the source, the continuation's result behaves from the next index and is `flatMap`'s result |
| Sequential.SeqWith | Sources/parser-combinator-swift/Core/Operators+Sequential.swift:59-65 | the failure of the left, else the failure of the right run from the left's next index, else both outputs combined, ending where the right ended |
| Sequential.SeqRight | Sources/parser-combinator-swift/Core/Operators+Sequential.swift:29-35 | `~>`: the left's failure, or exactly what the right gives from the left's next index |
| Sequential.SeqLeft | Sources/parser-combinator-swift/Core/Operators+Sequential.swift:43-51 | `<~`: succeeds exactly when both succeed in turn, with the left's output and the right's next index |
| Sequential.Seq | Sources/parser-combinator-swift/Core/Operators+Sequential.swift:59-65 | `~`: succeeds exactly when both succeed in turn, with the pair of outputs and the right's next index |
| Sequential.SeqWithIsFlattenedSeq | Sources/parser-combinator-swift/Core/Operators+Sequential.swift:73-79 | combining with a tuple-flattening function is `~` followed by flattening |
| Sequential.MapOutput | Sources/parser-combinator-swift/Core/Operators+Sequential.swift:73-79 | a success keeps its source and next index with the output replaced by its image; a failure keeps its error; success is kept exactly |
| Sequential.Seq3L | Sources/parser-combinator-swift/Core/Operators+Sequential.swift:73-79 | `(A, B) ~ C` is `~` with the output flattened to `(A, B, C)` |
| Sequential.Seq3R | Sources/parser-combinator-swift/Core/Operators+Sequential.swift:87-93 | `C ~ (A, B)` is `~` with the output flattened to `(C, A, B)` |
| Sequential.Seq4L | Sources/parser-combinator-swift/Core/Operators+Sequential.swift:101-107 | the four-tuple left overload is `~` then flattening |
| Sequential.Seq4R | Sources/parser-combinator-swift/Core/Operators+Sequential.swift:115-121 | the four-tuple right overload is `~` then flattening |
| Sequential.Seq5L | Sources/parser-combinator-swift/Core/Operators+Sequential.swift:129-135 | the five-tuple left overload is `~` then flattening |
| Sequential.Seq5R | Sources/parser-combinator-swift/Core/Operators+Sequential.swift:143-149 | the five-tuple right overload is `~` then flattening |
| Sequential.Seq6L | Sources/parser-combinator-swift/Core/Operators+Sequential.swift:157-163 | the six-tuple left overload is `~` then flattening |
| Sequential.Seq6R | Sources/parser-combinator-swift/Core/Operators+Sequential.swift:171-177 | the six-tuple right overload is `~` then flattening |
| Sequential.Seq7L | Sources/parser-combinator-swift/Core/Operators+Sequential.swift:185-191 | the seven-tuple left overload is `~` then flattening |
| Sequential.Seq7R | Sources/parser-combinator-swift/Core/Operators+Sequential.swift:199-205 | the seven-tuple right overload is `~` then flattening |
| Sequential.Seq8L | Sources/parser-combinator-swift/Core/Operators+Sequential.swift:213-219 | the eight-tuple left overload is `~` then flattening |
| Sequential.Seq8R | Sources/parser-combinator-swift/Core/Operators+Sequential.swift:227-233 | the eight-tuple right overload is `~` then flattening |
| Sequential.Seq9L | Sources/parser-combinator-swift/Core/Operators+Sequential.swift:241-247 | the nine-tuple left overload is `~` then flattening |
| Sequential.Seq9R | Sources/parser-combinator-swift/Core/Operators+Sequential.swift:255-261 | the nine-tuple right overload is `~` then flattening |
| Sequential.Seq10L | Sources/parser-combinator-swift/Core/Operators+Sequential.swift:269-275 | the ten-tuple left overload is `~` then flattening |
| Sequential.Seq10R | Sources/parser-combinator-swift/Core/Operators+Sequential.swift:283-289 | the ten-tuple right overload is `~` then flattening |
| Sequential.Seq11L | Sources/parser-combinator-swift/Core/Operators+Sequential.swift:297-303 | the eleven-tuple left overload is `~` then flattening |
| Sequential.Seq11R | Sources/parser-combinator-swift/Core/Operators+Sequential.swift:311-317 | the eleven-tuple right overload is `~` then flattening |
| Sequential.RhsUnusedOnFailure | Sources/parser-combinator-swift/Core/Operators+Sequential.swift:29-65 | when the left fails, the right operand (an autoclosure) does not affect the result |
| Sequential.SeqAssociative | Sources/parser-combinator-swift/Core/Operators+Sequential.swift:59-93 | `(p ~ q) ~ r` and `p ~ (q ~ r)` give the same flattened triple |
| Sequential.SeqPreserves | Sources/parser-combinator-swift/Core/Operators+Sequential.swift:29-65 | the three operators keep well-behaved parsers so, and consume when the left consumes |
| Conjunction.TypeErased | Sources/parser-combinator-swift/Core/Parser+Conjunction.swift:2-12 | same success or failure and next index, with the output replaced by `()` |
| Conjunction.Or | Sources/parser-combinator-swift/Core/Parser+Conjunction.swift:18-28 | the first success wins; on failure the alternative's result, from the same index, is the answer |
| Conjunction.Optional | Sources/parser-combinator-swift/Core/Parser+Conjunction.swift:14-16 | always succeeds: `Some` of the output where the parser succeeds, else `None` without consuming |
| Conjunction.PositiveLookahead | Sources/parser-combinator-swift/Core/Parser+Conjunction.swift:63-72 | succeeds without consuming exactly when the parser succeeds; otherwise `positiveLookaheadFailed` |
| Conjunction.NegativeLookahead | Sources/parser-combinator-swift/Core/Parser+Conjunction.swift:74-84 | succeeds without consuming exactly when the parser fails; otherwise `negativeLookaheadFailed` |
| Conjunction.OrAssociative | Sources/parser-combinator-swift/Core/Parser+Conjunction.swift:18-28 | `or` is associative |
| Conjunction.OrFail | Sources/parser-combinator-swift/Core/Parser+Conjunction.swift:18-28 | `fail` is a left identity of `or`; as the right operand it only replaces the error |
| Conjunction.OrFailsIffBoth | Sources/parser-combinator-swift/Core/Parser+Conjunction.swift:18-28 | `or` fails exactly when both fail, with the second error |
| Conjunction.LookaheadsOpposite | Sources/parser-combinator-swift/Core/Parser+Conjunction.swift:63-84 | the positive lookahead succeeds exactly when the negative fails; neither consumes; the positive lookahead is idempotent |
| Conjunction.ChoicePreserves | Sources/parser-combinator-swift/Core/Parser+Conjunction.swift:2-84 | `or`, `optional`, `typeErased` and both lookaheads keep well-behaved parsers so |
| Conjunction.ChoiceConsumes | Sources/parser-combinator-swift/Core/Parser+Conjunction.swift:2-28 | `or` and `typeErased` keep consuming parsers so |
| Conjunction.Rep | Sources/parser-combinator-swift/Core/Parser+Conjunction.swift:30-52 | a failure is always `expectedAtLeast(min)`; a success keeps the source and has at least `min` outputs |
| Conjunction.RepParse | Sources/parser-combinator-swift/Core/Parser+Conjunction.swift:36-50 | the loop (apply until the parser fails or `max` outputs are collected, then check `min`) computes `Repeat` |
| Conjunction.RepeatLoop | Sources/parser-combinator-swift/Core/Parser+Conjunction.swift:36-50 | the loop only appends: the outputs collected before are a prefix of the result; it collects no more than `max`; when it appends nothing the index is where it started |
| Conjunction.Repeat | Sources/parser-combinator-swift/Core/Parser+Conjunction.swift:30-52 | a success keeps the source and has at least `min` and at most `max` outputs, and with no output stays at the index; a failure is `expectedAtLeast(min)` |
| Conjunction.RepeatLoopSound | Sources/parser-combinator-swift/Core/Parser+Conjunction.swift:36-44 | the loop's outputs come from a chain of successes ending where it stopped, and it stopped because the parser failed or the maximum was reached |
| Conjunction.RepeatLoopUnique | Sources/parser-combinator-swift/Core/Parser+Conjunction.swift:36-44 | any chain of successes that stops in that way is the loop's result |
| Conjunction.RepeatLoopCharacterized | Sources/parser-combinator-swift/Core/Parser+Conjunction.swift:36-44 | the loop returns `(outs, n)` if and only if `outs` is a stopping chain of successes from the start index to `n` |
| Conjunction.RepSuccess | Sources/parser-combinator-swift/Core/Parser+Conjunction.swift:36-50 | a success holds the loop's outputs and stop index, and there are at least `min` of them |
| Conjunction.RepFailure | Sources/parser-combinator-swift/Core/Parser+Conjunction.swift:31-50 | fails exactly when fewer than `min` outputs were collected, with `expectedAtLeast(min)`; never fails when `min <= 0` |
| Conjunction.ChainBehaves | Sources/parser-combinator-swift/Core/Parser+Conjunction.swift:36-44 | a chain of a well-behaved parser stays inside the source; with a consuming parser each output costs at least one element |
| Conjunction.RepPreserves | Sources/parser-combinator-swift/Core/Parser+Conjunction.swift:30-52 | `rep` of a well-behaved parser is well-behaved, and consumes when the parser does and `min >= 1` |
| Conjunction.Rep1Sep | Sources/parser-combinator-swift/Core/Parser+Conjunction.swift:54-61 | succeeds exactly when the first item succeeds |
| Conjunction.Rep1SepSemantics | Sources/parser-combinator-swift/Core/Parser+Conjunction.swift:54-61 | the first item's failure is the result; otherwise the first output followed by the outputs of `rep(min: 0)` over separator-then-item |
| Conjunction.SeparatorConsumes | Sources/parser-combinator-swift/Core/Parser+Conjunction.swift:54-61 | a consuming separator makes separator-then-item consume, which is what the repetition in `rep1sep` needs |
| Scanning.MatchFromSound | Sources/parser-combinator-swift/UTF16Parser.swift:20-35 | the literal scan from position `k` matches, runs out or finds a mismatch exactly at the first position where the literal and the source disagree |
| Scanning.StopUnique | Sources/parser-combinator-swift/UTF16Parser.swift:20-35 | the position where the literal and the source first disagree is unique |
| Scanning.LiteralCases | Sources/parser-combinator-swift/UTF16Parser.swift:20-35 | the literal loop matches exactly when every element agrees, ending right after the literal; it runs out or reports a mismatch exactly at the first disagreeing position |
| Scanning.MatchFrom | Sources/parser-combinator-swift/UTF16Parser.swift:20-35 | matching from element `k` ends right after the literal (within `end` once an element was compared), or runs out at some element `m >= k` at or past `end`, or reports at some `m >= k` before `end` the expected and the differing element |
| Scanning.Literal | Sources/parser-combinator-swift/UTF16Parser.swift:20-35 | the whole literal matched ends right after it, within `end` when it is nonempty; running out or a mismatch happens at an element of the literal, past `end` or before it with the two differing elements |
| Scanning.AgreeIsSlice | Sources/parser-combinator-swift/UTF16Parser.swift:20-35 | agreeing element by element is the slice of the source equalling the literal, before the end bound |
| Scanning.ScanLiteral | Sources/parser-combinator-swift/UTF16Parser.swift:20-35 | the element-by-element comparison loop computes `Literal` |
| Scanning.RunFromIsRun | Sources/parser-combinator-swift/UTF16Parser.swift:128-148 | the counting recursion yields a run: all counted elements satisfy the predicate and the count stops at the end, at the maximum or at the first element that fails |
| Scanning.RunCharacterized | Sources/parser-combinator-swift/UTF16Parser.swift:128-148 | a count is such a stopping run if and only if it is `Run` |
| Scanning.RunFrom | Sources/parser-combinator-swift/UTF16Parser.swift:128-148 | the count never decreases; when the run grew it ends within `end`, its last step allowed by `max` |
| Scanning.Run | Sources/parser-combinator-swift/UTF16Parser.swift:128-148 | a nonempty run ends within `end`, its last step allowed by `max` |
| Scanning.IsRun | Sources/parser-combinator-swift/UTF16Parser.swift:128-148 | (definition, the reference for `Run`) `n` elements from the index lie before `end` and satisfy `f`, each step was allowed by `max`, and one more step is not possible |
| Scanning.RunBounds | Sources/parser-combinator-swift/UTF16Parser.swift:128-148 | the run stays within the end bound and the maximum |
| Scanning.Elements | Sources/parser-combinator-swift/UTF16Parser.swift:65-72 | the set of a sequence's elements, as the `Set(...)` conversion of the overloads builds it |
| Scanning.ElementsRun | Sources/parser-combinator-swift/UTF16Parser.swift:93-112 | counting membership in a sequence and in the set of its elements gives the same run |
| Scanning.RunExt | Sources/parser-combinator-swift/UTF16Parser.swift:128-148 | predicates that agree everywhere give the same run |
| Scanning.Span | Sources/parser-combinator-swift/UTF16Parser.swift:128-148 | the output of a run: exactly the `n` elements from `i` |
| Scanning.ScanWhile | Sources/parser-combinator-swift/UTF16Parser.swift:128-148 | the counting loop computes `Run` |
| Scanning.ContinuationRange | Sources/parser-combinator-swift/UTF8Parser.swift:126-130 | a UTF-8 continuation byte is exactly one of 0x80 to 0xBF |
| Tries.ShortestWordEnd | Sources/parser-combinator-swift/UTF16Parser.swift:160-175 | a found end gives a word of the map that starts at the index |
| Tries.ShortestWordEndIff | Sources/parser-combinator-swift/UTF16Parser.swift:160-175 | the end found is `m` if and only if the slice to `m` is a word and no shorter one is; none if and only if no slice up to the end bound is a word |
| Tries.FirstEndAt | Sources/parser-combinator-swift/UTF16Parser.swift:160-175 | the first word end is found |
| Tries.NoEndBy | Sources/parser-combinator-swift/UTF16Parser.swift:160-175 | with no word up to the end bound, nothing is found |
| Tries.ShortestWord | Sources/parser-combinator-swift/UTF16Parser.swift:160-180 | the shortest word at the index, with its original, or none exactly when no word ends there |
| Tries.ShortestMaximalEnd | Sources/parser-combinator-swift/UTF8Parser.swift:175-197 | a found end gives a word at the index that no other word extends |
| Tries.ShortestMaximal | Sources/parser-combinator-swift/UTF8Parser.swift:175-197 | the shortest word at the index that no other word extends, with its original, or none exactly when there is no such word |
| Tries.ShortestMaximalEndIff | Sources/parser-combinator-swift/UTF8Parser.swift:175-197 | the end found is `m` if and only if the slice to `m` is such a word and no shorter one is; none if and only if there is no such word |
| Tries.TrieNode.constructor | Sources/parser-combinator-swift/Core/Trie.swift:30-33 | a new node has no original, no children and is not terminating |
| Tries.TrieNode.IsLeaf | Sources/parser-combinator-swift/Core/Trie.swift:21-23 | a node is a leaf exactly when it has no children |
| Tries.TrieNode.AddNode | Sources/parser-combinator-swift/Core/Trie.swift:39-44 | an existing child is kept; otherwise exactly one fresh child is added under the value |
| Tries.Trie.constructor | Sources/parser-combinator-swift/Core/Trie.swift:63-66 | a new trie is valid, holds no words, and its count is 0 |
| Tries.Trie.Valid | Sources/parser-combinator-swift/Core/Trie.swift:15-88 | (definition, the invariant every trie member keeps) the nodes form a tree under their paths from the root; a node is terminating exactly when its path is a word, whose original it holds; `wordCount` is the number of words; every node but the root ends a word or has a child |
| Tries.Trie.Count | Sources/parser-combinator-swift/Core/Trie.swift:53-55 | the count is the number of distinct words inserted |
| Tries.Trie.IsEmpty | Sources/parser-combinator-swift/Core/Trie.swift:58-60 | empty exactly when no word has been inserted |
| Tries.Trie.Descend | Sources/parser-combinator-swift/Core/Trie.swift:73-79 | one step of the insert loop: moves to the child for the next element, making it if missing, and adds exactly that path |
| Tries.Trie.AddChild | Sources/parser-combinator-swift/Core/Trie.swift:76-78 | a missing child becomes a fresh non-terminating node on the extended path, and nothing else changes |
| Tries.Trie.MarkEnd | Sources/parser-combinator-swift/Core/Trie.swift:82-87 | a word not yet present is recorded with its original, and no node moves |
| Tries.Trie.Walk | Sources/parser-combinator-swift/Core/Trie.swift:72-80 | the insert loop ends at the node for the whole word, having added exactly its missing prefixes |
| Tries.Trie.Insert | Sources/parser-combinator-swift/Core/Trie.swift:68-88 | keeps the trie valid; an empty or already present word changes neither the words nor the count; a new word is added with its original and the count grows by one |
| Tries.Trie.PrefixClosed | Sources/parser-combinator-swift/Core/Trie.swift:72-80 | every prefix of a path in the trie is a path in the trie |
| Tries.Trie.WordBelow | Sources/parser-combinator-swift/Core/Trie.swift:68-88 | below every non-root node there is an inserted word: the trie has no dead ends |
| Tries.Trie.LeafIsMaximal | Sources/parser-combinator-swift/Core/Trie.swift:21-23 | a leaf is a word that no other word extends |
| Tries.Trie.MaximalIsLeaf | Sources/parser-combinator-swift/Core/Trie.swift:21-23 | a word that no other word extends is a leaf |
| Tries.Trie.StepDown | Sources/parser-combinator-swift/UTF16Parser.swift:160-175 | following the child for the next source element reaches the node for the longer slice |
| Tries.Trie.LeafStep | Sources/parser-combinator-swift/UTF8Parser.swift:175-197 | the walk stops at a node exactly when that node is a maximal word |
| Tries.Trie.NothingBeyond | Sources/parser-combinator-swift/UTF16Parser.swift:160-175 | once a child is missing, no longer slice is a path or a word |
| Tries.Trie.MissEnds | Sources/parser-combinator-swift/UTF16Parser.swift:160-175 | a missing child with no word so far means no word at the index at all |
| Tries.Trie.MissEndsMaximal | Sources/parser-combinator-swift/UTF8Parser.swift:175-197 | a missing child means no maximal word at the index from there on |
| Tries.Trie.FirstTerminal | Sources/parser-combinator-swift/UTF16Parser.swift:160-180 | the walk that stops at the first terminating node finds `ShortestWord` |
| Tries.Trie.FirstLeaf | Sources/parser-combinator-swift/UTF8Parser.swift:175-197 | the walk that stops at the first leaf finds `ShortestMaximal` |
| Tries.KeyMapStep | Sources/parser-combinator-swift/UTF16Parser.swift:156-157 | inserting one more candidate adds it to the word map as its own original, unless it is empty |
| Tries.KeyMap | Sources/parser-combinator-swift/UTF16Parser.swift:156-157 | (definition) the word map inserting each candidate with itself as original gives: the nonempty candidates, each mapped to itself |
| Tries.ShortestKeyCases | Sources/parser-combinator-swift/UTF16Parser.swift:154-182 | over the trie of a candidate set, the walk returns the shortest candidate at the index, or none when no candidate is there |
| Tries.LeafKeyIsMaximal | Sources/parser-combinator-swift/UTF8Parser.swift:171-197 | a word is maximal in the trie of a candidate set exactly when it is a nonempty candidate that no other candidate extends |
| Tries.ShortestLeafKeyCases | Sources/parser-combinator-swift/UTF8Parser.swift:171-197 | over the trie of a candidate set, the walk returns the shortest candidate at the index that no other candidate extends, or none |
| Tries.Build | Sources/parser-combinator-swift/UTF16Parser.swift:156-157 | inserting every candidate gives a valid trie whose words are exactly the nonempty candidates, each its own original, and whose count is their number |
| Utf16.One | Sources/parser-combinator-swift/UTF16Parser.swift:8-14 | consumes one code unit and returns it; fails with `noMoreSource` at the end |
| Utf16.StringCases | Sources/parser-combinator-swift/UTF16Parser.swift:20-35 | `string(lit)` succeeds exactly when `lit` follows the index, ending right after it; it fails with `noMoreSource` when the source ends first and with `unexpectedToken` at the first differing unit |
| Utf16.String | Sources/parser-combinator-swift/UTF16Parser.swift:20-35 | a success returns the literal itself and ends right after it, inside the source when the literal is nonempty; a failure, only for a nonempty literal, is `noMoreSource` or `unexpectedToken` |
| Utf16.StringParse | Sources/parser-combinator-swift/UTF16Parser.swift:20-35 | the comparison loop computes `string(lit)` |
| Utf16.Elem | Sources/parser-combinator-swift/UTF16Parser.swift:37-46 | succeeds exactly when the unit at the index is the expected one, and advances one; otherwise `unexpectedToken(expected, got)` |
| Utf16.Satisfy | Sources/parser-combinator-swift/UTF16Parser.swift:114-126 | succeeds exactly on a unit that satisfies the predicate, returning it alone; `noMoreSource` at the end, a generic error otherwise |
| Utf16.ElemIsSatisfyEquals | Sources/parser-combinator-swift/UTF16Parser.swift:37-126 | `elem(e)` succeeds exactly where `satisfy(== e)` does, and ends at the same index |
| Utf16.SatisfyRange | Sources/parser-combinator-swift/UTF16Parser.swift:128-148 | the parser always consumes when it succeeds |
| Utf16.SatisfyRangeAt | Sources/parser-combinator-swift/UTF16Parser.swift:128-148 | a success at an index keeps the source and consumes at least one unit, staying inside the source |
| Utf16.SatisfyRangeCases | Sources/parser-combinator-swift/UTF16Parser.swift:128-148 | succeeds exactly when the run of satisfying units is nonempty and at least `min`, returning the run; otherwise fails with a generic error |
| Utf16.SatisfyRangeNeedsOne | Sources/parser-combinator-swift/UTF16Parser.swift:138-139 | with no satisfying unit at the index it fails even when `min` is 0 |
| Utf16.SatisfyRangeParse | Sources/parser-combinator-swift/UTF16Parser.swift:128-148 | the counting loop computes `satisfy(min:max:)` |
| Utf16.CharIn | Sources/parser-combinator-swift/UTF16Parser.swift:78-80 | succeeds exactly on a unit of the set |
| Utf16.CharsIn | Sources/parser-combinator-swift/UTF16Parser.swift:110-112 | is `satisfy(min:max:)` with membership in the set |
| Utf16.HexDigitIsOctal | Sources/parser-combinator-swift/UTF16Parser.swift:195 | `hexDigit` accepts "7" but rejects "8" and "a" |
| Utf16.StringIn | Sources/parser-combinator-swift/UTF16Parser.swift:154-182 | the parser always consumes when it succeeds |
| Utf16.StringInCases | Sources/parser-combinator-swift/UTF16Parser.swift:154-182 | succeeds exactly with the shortest candidate at the index; fails exactly when no candidate is there, with the `Did not match stringIn` error |
| Utf16.StringInFirstTerminalWins | Sources/parser-combinator-swift/UTF16Parser.swift:160-180 | among "a" and "ab", on "ab" the shorter one is returned |
| Utf16.NewStringIn | Sources/parser-combinator-swift/UTF16Parser.swift:156-157 | the trie built from the candidates holds exactly the nonempty candidates |
| Utf16.StringInParse | Sources/parser-combinator-swift/UTF16Parser.swift:159-181 | the trie walk computes `stringIn` |
| Utf16.Start | Sources/parser-combinator-swift/UTF16Parser.swift:199-205 | zero width; succeeds exactly at index 0, failing with `notTheEnd` elsewhere |
| Utf16.End | Sources/parser-combinator-swift/UTF16Parser.swift:207-213 | zero width; succeeds exactly at the end of the source, failing with `notTheEnd` elsewhere |
| Utf8.Units | Sources/parser-combinator-swift/UTF8Parser.swift:10-28 | the expected bytes as the integers `unexpectedString` reports |
| Utf8.StringCases | Sources/parser-combinator-swift/UTF8Parser.swift:10-28 | `string(lit)` succeeds exactly when the bytes of `lit` follow the index, ending right after them; otherwise `noMoreSource` at the end, or `unexpectedString` at the first differing byte |
| Utf8.String | Sources/parser-combinator-swift/UTF8Parser.swift:10-28 | a success returns the literal's bytes and ends right after them, inside the source when the literal is nonempty; a failure, only for a nonempty literal, is `noMoreSource` or `unexpectedString` naming the literal |
| Utf8.StringParse | Sources/parser-combinator-swift/UTF8Parser.swift:10-28 | the comparison loop computes `string(lit)` |
| Utf8.StringAbc | Tests/parser-combinator-swiftTests/UTF8ParserSpec.swift:20-24 | `string("abc")` on "abc" succeeds with "abc" and ends at 3 |
| Utf8.Elem | Sources/parser-combinator-swift/UTF8Parser.swift:30-45 | succeeds exactly on the expected byte, advancing one; `noMoreSource` at the end, `unexpectedElement` otherwise |
| Utf8.One | Sources/parser-combinator-swift/UTF8Parser.swift:47-57 | consumes one byte and returns it; fails with `noMoreSource` at the end |
| Utf8.OneChain | Sources/parser-combinator-swift/UTF8Parser.swift:47-57 | from any index, `one` succeeds byte after byte up to the end |
| Utf8.OneLoopReads | Sources/parser-combinator-swift/Core/Parser+Conjunction.swift:36-44 | the repetition loop of `one` from the start collects the whole source |
| Utf8.OneRepReconstructs | Tests/parser-combinator-swiftTests/UTF8ParserSpec.swift:15-19 | `one.rep(1)` on a nonempty source returns exactly that source, ending at its end |
| Utf8.CharAt | Sources/parser-combinator-swift/UTF8Parser.swift:59-79 | a success keeps the source and moves forward, staying inside it |
| Utf8.Char | Sources/parser-combinator-swift/UTF8Parser.swift:59-79 | the parser always consumes when it succeeds |
| Utf8.CharCases | Sources/parser-combinator-swift/UTF8Parser.swift:59-79 | succeeds exactly inside the source, with the lead byte and the continuation bytes after it; fails with `noMoreSource` at the end |
| Utf8.CharParse | Sources/parser-combinator-swift/UTF8Parser.swift:59-79 | the loop over continuation bytes computes `char` |
| Utf8.CharThreeBytes | Sources/parser-combinator-swift/UTF8Parser.swift:59-79 | the three bytes of U+2000 are read as one character |
| Utf8.ElemPred | Sources/parser-combinator-swift/UTF8Parser.swift:81-101 | succeeds exactly on a byte that satisfies the predicate, returning it alone; `noMoreSource` at the end, `unsatisfiedPredicate` otherwise; the source's encoding failure on a byte of 0x80 or above is not modelled (see "Left out") |
| Utf8.ElemWhilePredAt | Sources/parser-combinator-swift/UTF8Parser.swift:103-124 | a success keeps the source, never moves backwards and stays inside the source |
| Utf8.ElemWhilePred | Sources/parser-combinator-swift/UTF8Parser.swift:103-124 | the parser is well-behaved |
| Utf8.ElemWhilePredCases | Sources/parser-combinator-swift/UTF8Parser.swift:103-124 | succeeds with the run of satisfying bytes exactly when it has at least `min` of them; otherwise fails with `expectedAtLeast(min)` |
| Utf8.ElemWhilePredParse | Sources/parser-combinator-swift/UTF8Parser.swift:103-124 | the counting loop computes `elemWhilePred` |
| Utf8.ElemIn | Sources/parser-combinator-swift/UTF8Parser.swift:144-146 | succeeds exactly on a byte of the set |
| Utf8.ElemInList | Sources/parser-combinator-swift/UTF8Parser.swift:140-142 | succeeds exactly on one of the listed bytes |
| Utf8.ElemInString | Sources/parser-combinator-swift/UTF8Parser.swift:126-130 | for a string without continuation bytes, succeeds exactly on one of its bytes |
| Utf8.ElemsWhileIn | Sources/parser-combinator-swift/UTF8Parser.swift:158-160 | the parser is well-behaved |
| Utf8.ElemsWhileInList | Sources/parser-combinator-swift/UTF8Parser.swift:154-156 | is `elemWhilePred` with membership in the list |
| Utf8.ElemsWhileInString | Sources/parser-combinator-swift/UTF8Parser.swift:148-152 | for a string without continuation bytes, is `elemWhilePred` with membership in its bytes |
| Utf8.HexDigitIsOctal | Sources/parser-combinator-swift/UTF8Parser.swift:224 | `hexDigit` accepts "7" but rejects "8" and "a" |
| Utf8.HexDigitAt | Sources/parser-combinator-swift/UTF8Parser.swift:224 | on a single byte, `hexDigit` succeeds exactly for "0" to "7" |
| Utf8.HexDigitIntendedAt | Sources/parser-combinator-swift/UTF8Parser.swift:223-224 | the corrected `hexDigit` succeeds on a single byte exactly for 0-9, a-f and A-F |
| Utf8.HexDigitIntended | Sources/parser-combinator-swift/UTF8Parser.swift:223-224 | the corrected `hexDigit` succeeds exactly on a byte among 0-9, a-f and A-F, returning that byte alone and advancing by one; `noMoreSource` at the end |
| Utf8.StringIn | Sources/parser-combinator-swift/UTF8Parser.swift:171-198 | the parser always consumes when it succeeds |
| Utf8.StringInList | Sources/parser-combinator-swift/UTF8Parser.swift:164 | the array overload is the set overload on the set of its elements |
| Utf8.StringInCases | Sources/parser-combinator-swift/UTF8Parser.swift:171-198 | succeeds exactly with the shortest candidate at the index that no other candidate extends; fails exactly when there is none, with the `Did not match stringIn` error |
| Utf8.StringInLeafWins | Sources/parser-combinator-swift/UTF8Parser.swift:175-197 | among "a" and "ab", on "ab" the longer one (the leaf) is returned, and on "a" nothing matches |
| Utf8.NewStringIn | Sources/parser-combinator-swift/UTF8Parser.swift:173 | the trie built from the candidates holds exactly the nonempty candidates |
| Utf8.StringInParse | Sources/parser-combinator-swift/UTF8Parser.swift:175-197 | the trie walk computes `stringIn` |
| Utf8.SpacesStringIn | Tests/parser-combinator-swiftTests/UTF8ParserSpec.swift:25-30 | `stringIn` of U+2000 and U+2002 reads each of the two in turn and fails at the end |
| Utf8.SpaceAt | Tests/parser-combinator-swiftTests/UTF8ParserSpec.swift:25-30 | each of the two spaces is read at its own offset |
| Utf8.SpacesRepReconstructs | Tests/parser-combinator-swiftTests/UTF8ParserSpec.swift:25-30 | `stringIn(...).rep(1)` splits the two spaces into the two candidate byte strings |
| Utf8.Start | Sources/parser-combinator-swift/UTF8Parser.swift:228-238 | zero width; succeeds exactly at index 0, failing with `notTheEnd` elsewhere |
| Utf8.StartReportsNotTheEnd | Sources/parser-combinator-swift/UTF8Parser.swift:228-238 | away from the start the error is `notTheEnd`, not `notTheStart` |
| Utf8.StartIntended | Sources/parser-combinator-swift/UTF8Parser.swift:228-238 | the corrected `start`: zero width, succeeds exactly at index 0, and fails with `notTheStart` elsewhere |
| Utf8.End | Sources/parser-combinator-swift/UTF8Parser.swift:240-250 | zero width; succeeds exactly at the end, failing with `notTheEnd` elsewhere |
| CStrings.BitPattern | Sources/parser-combinator-swift/UTF8CStringParser.swift:95-99 | a `CChar` reinterpreted as a byte: the same value modulo 256, unchanged when non-negative |
| CStrings.ContinuationIsNegative | Sources/parser-combinator-swift/UTF8CStringParser.swift:97 | a `CChar` whose bit pattern is a continuation byte is exactly one of -128 to -65 |
| CStrings.EndWithoutTerminator | Sources/parser-combinator-swift/UTF8CStringParser.swift:234-236 | the end index is the position of the terminator, one before the array's end |
| CStrings.ConsumesBeforeTerminatorStays | Sources/parser-combinator-swift/UTF8CStringParser.swift:234-236 | a parser that consumes and stops before the terminator also stays before it and consumes |
| CStrings.StringCases | Sources/parser-combinator-swift/UTF8CStringParser.swift:10-25 | `string(lit)` succeeds exactly when `lit` follows the index before the terminator; otherwise `noMoreSource` at the terminator or `unexpectedToken` at the first differing byte |
| CStrings.String | Sources/parser-combinator-swift/UTF8CStringParser.swift:10-25 | a success returns the literal and ends right after it, before the terminator when the literal is nonempty; a failure, only for a nonempty literal, is `noMoreSource` or `unexpectedToken` |
| CStrings.StringStaysBeforeTerminator | Sources/parser-combinator-swift/UTF8CStringParser.swift:10-25 | `string` never reads the terminator |
| CStrings.StringParse | Sources/parser-combinator-swift/UTF8CStringParser.swift:10-25 | the comparison loop computes `string(lit)` |
| CStrings.StringAbc | Tests/parser-combinator-swiftTests/UTF8CStringParserSpec.swift:20-24 | `string("abc")` on the C string "abc" succeeds with "abc" and ends at 3 |
| CStrings.Elem | Sources/parser-combinator-swift/UTF8CStringParser.swift:27-36 | succeeds exactly on the expected byte, advancing one; otherwise `unexpectedToken(expected, got)` |
| CStrings.ElemReadsTerminator | Sources/parser-combinator-swift/UTF8CStringParser.swift:27-36 | `elem(0)` at the terminator succeeds: `elem` is bounded by the array's end, not by the terminator |
| CStrings.One | Sources/parser-combinator-swift/UTF8CStringParser.swift:38-44 | consumes one byte before the terminator and returns it; fails with `noMoreSource` at the terminator |
| CStrings.OneChain | Sources/parser-combinator-swift/UTF8CStringParser.swift:38-44 | from any index, `one` succeeds byte after byte up to the terminator |
| CStrings.OneLoopDropsTerminator | Sources/parser-combinator-swift/Core/Parser+Conjunction.swift:36-44 | the repetition loop of `one` collects every byte but the terminator |
| CStrings.OneRepDropsTerminator | Tests/parser-combinator-swiftTests/UTF8CStringParserSpec.swift:15-19 | `one.rep(1)` returns the C string without its terminator, ending at the terminator |
| CStrings.CharAt | Sources/parser-combinator-swift/UTF8CStringParser.swift:46-59 | a success keeps the source, moves forward and stays before the terminator |
| CStrings.Char | Sources/parser-combinator-swift/UTF8CStringParser.swift:46-59 | the parser consumes and stays before the terminator |
| CStrings.CharCases | Sources/parser-combinator-swift/UTF8CStringParser.swift:46-59 | succeeds exactly before the terminator, with the lead byte and the continuation bytes after it; fails with `noMoreSource` at the terminator |
| CStrings.CharParse | Sources/parser-combinator-swift/UTF8CStringParser.swift:46-59 | the loop over continuation bytes computes `char` |
| CStrings.ElemPred | Sources/parser-combinator-swift/UTF8CStringParser.swift:61-74 | succeeds exactly on a byte before the terminator that satisfies the predicate; `noMoreSource` at the terminator, a generic error otherwise |
| CStrings.ElemWhilePredAt | Sources/parser-combinator-swift/UTF8CStringParser.swift:76-93 | a success keeps the source, never moves backwards and stays before the terminator |
| CStrings.ElemWhilePred | Sources/parser-combinator-swift/UTF8CStringParser.swift:76-93 | the parser is well-behaved and stays before the terminator |
| CStrings.ElemWhilePredCases | Sources/parser-combinator-swift/UTF8CStringParser.swift:76-93 | succeeds with the run of satisfying bytes before the terminator exactly when it has at least `min` of them; otherwise `expectedAtLeast(min, got)` |
| CStrings.ElemWhilePredParse | Sources/parser-combinator-swift/UTF8CStringParser.swift:76-93 | the counting loop computes `elemWhilePred` |
| CStrings.ArraySet | Sources/parser-combinator-swift/UTF8CStringParser.swift:111-117 | the set of the array's elements, without a trailing 0 |
| CStrings.CString | Sources/parser-combinator-swift/UTF8CStringParser.swift:225-232 | the bytes followed by one terminator |
| CStrings.ArraySetDropsTerminator | Sources/parser-combinator-swift/UTF8CStringParser.swift:111-117 | the set of a C string's array is the set of its bytes |
| CStrings.ElemIn | Sources/parser-combinator-swift/UTF8CStringParser.swift:119-121 | succeeds exactly on a byte of the set before the terminator |
| CStrings.ElemInList | Sources/parser-combinator-swift/UTF8CStringParser.swift:109 | succeeds exactly on one of the listed bytes before the terminator |
| CStrings.ElemInArray | Sources/parser-combinator-swift/UTF8CStringParser.swift:111-117 | succeeds exactly on a byte of the array, its trailing 0 left out, before the terminator |
| CStrings.ElemInString | Sources/parser-combinator-swift/UTF8CStringParser.swift:95-99 | for a string without continuation bytes, succeeds exactly on one of its bytes before the terminator |
| CStrings.ElemsWhileIn | Sources/parser-combinator-swift/UTF8CStringParser.swift:141-143 | the parser is well-behaved and stays before the terminator |
| CStrings.ElemsWhileInList | Sources/parser-combinator-swift/UTF8CStringParser.swift:129-131 | is `elemWhilePred` with membership in the list |
| CStrings.ElemsWhileInArray | Sources/parser-combinator-swift/UTF8CStringParser.swift:133-139 | is `elemWhilePred` with membership in the array, its trailing 0 left out |
| CStrings.ElemsWhileInString | Sources/parser-combinator-swift/UTF8CStringParser.swift:123-127 | for a string without continuation bytes, is `elemWhilePred` with membership in its bytes |
| CStrings.HexDigitIsOctal | Sources/parser-combinator-swift/UTF8CStringParser.swift:204 | `hexDigit` accepts "7" but rejects "8" and "a" |
| CStrings.HexDigitAt | Sources/parser-combinator-swift/UTF8CStringParser.swift:204 | on a one-character C string, `hexDigit` succeeds exactly for "0" to "7" |
| CStrings.StringIn | Sources/parser-combinator-swift/UTF8CStringParser.swift:149-177 | the parser consumes and stays before the terminator |
| CStrings.StringInCases | Sources/parser-combinator-swift/UTF8CStringParser.swift:149-177 | succeeds exactly with the shortest candidate at the index that ends before the terminator; fails exactly when there is none, with the `Did not match stringIn` error |
| CStrings.NewStringIn | Sources/parser-combinator-swift/UTF8CStringParser.swift:151-152 | the trie built from the candidates holds exactly the nonempty candidates |
| CStrings.StringInParse | Sources/parser-combinator-swift/UTF8CStringParser.swift:154-176 | the trie walk, bounded by the terminator, computes `stringIn` |
| CStrings.Start | Sources/parser-combinator-swift/UTF8CStringParser.swift:208-214 | zero width; succeeds exactly at index 0, failing with `notTheEnd` elsewhere |
| CStrings.End | Sources/parser-combinator-swift/UTF8CStringParser.swift:216-222 | zero width; succeeds exactly at the terminator, failing with `notTheEnd` elsewhere |
| Strings.StringCases | Sources/parser-combinator-swift/StringParser.swift:10-24 | `string(lit)` succeeds exactly when `lit` follows the index, ending right after it; otherwise `noMoreSource` at the end, or `unexpectedCharacter(expected, got)` at the first differing character |
| Strings.String | Sources/parser-combinator-swift/StringParser.swift:10-24 | a success returns the literal and ends right after it, inside the source when the literal is nonempty; a failure, only for a nonempty literal, is `noMoreSource` or `unexpectedCharacter` |
| Strings.StringParse | Sources/parser-combinator-swift/StringParser.swift:10-24 | the comparison loop computes `string(lit)` |
| Strings.StringAbc | Tests/parser-combinator-swiftTests/StringParserSpec.swift:20-24 | `string("abc")` on "abc" succeeds with "abc" and ends at 3 |
| Strings.Char | Sources/parser-combinator-swift/StringParser.swift:26-38 | succeeds exactly on the expected character, advancing one; `noMoreSource` at the end, `unexpectedCharacter(expected, got)` otherwise |
| Strings.One | Sources/parser-combinator-swift/StringParser.swift:41-47 | consumes one character and returns it; fails with `noMoreSource` at the end |
| Strings.OneChain | Sources/parser-combinator-swift/StringParser.swift:41-47 | from any index, `one` succeeds character after character up to the end |
| Strings.OneLoopReads | Sources/parser-combinator-swift/Core/Parser+Conjunction.swift:36-44 | the repetition loop of `one` from the start collects the whole string |
| Strings.OneRepReconstructs | Tests/parser-combinator-swiftTests/StringParserSpec.swift:15-19 | `one.rep(1)` on a nonempty string returns exactly that string |
| Strings.StringOfLength | Sources/parser-combinator-swift/StringParser.swift:53-61 | succeeds exactly when `n` characters remain, returning them; otherwise `noMoreSource` |
| Strings.CharPred | Sources/parser-combinator-swift/StringParser.swift:63-76 | succeeds exactly on a character that satisfies the predicate; `noMoreSource` at the end, a generic error otherwise |
| Strings.CharWhilePredAt | Sources/parser-combinator-swift/StringParser.swift:78-92 | a success keeps the source, never moves backwards and stays inside it |
| Strings.CharWhilePred | Sources/parser-combinator-swift/StringParser.swift:78-92 | the parser is well-behaved |
| Strings.CharWhilePredCases | Sources/parser-combinator-swift/StringParser.swift:78-92 | succeeds with the run of satisfying characters exactly when it has at least `min` of them; otherwise `expectedAtLeast(min, got)` |
| Strings.CharWhilePredParse | Sources/parser-combinator-swift/StringParser.swift:78-92 | the counting loop computes `charWhilePred` |
| Strings.CharIn | Sources/parser-combinator-swift/StringParser.swift:100-102 | succeeds exactly on a character of the set |
| Strings.CharInList | Sources/parser-combinator-swift/StringParser.swift:94-98 | succeeds exactly on one of the listed characters |
| Strings.CharsWhileIn | Sources/parser-combinator-swift/StringParser.swift:117-119 | the parser is well-behaved |
| Strings.CharsWhileInList | Sources/parser-combinator-swift/StringParser.swift:109-115 | is `charWhilePred` with membership in the list |
| Strings.BinaryDigit | Sources/parser-combinator-swift/StringParser.swift:178 | succeeds exactly on "0" or "1" |
| Strings.Group | Sources/parser-combinator-swift/StringParser.swift:128-135 | the candidates of one length |
| Strings.MaxLen | Sources/parser-combinator-swift/StringParser.swift:128-135 | no candidate is longer |
| Strings.GroupsFromBounds | Sources/parser-combinator-swift/StringParser.swift:128-135 | every group built from a length range is nonempty, is the group of its length, and its length lies in the range |
| Strings.GroupsFromAscending | Sources/parser-combinator-swift/StringParser.swift:128-135 | the groups' lengths strictly ascend |
| Strings.GroupsFromCovers | Sources/parser-combinator-swift/StringParser.swift:128-135 | every candidate length in the range has its group |
| Strings.GroupsShape | Sources/parser-combinator-swift/StringParser.swift:128-135 | grouping by length, sorted by length, gives nonempty groups of distinct ascending lengths covering every candidate |
| Strings.FirstGroup | Sources/parser-combinator-swift/StringParser.swift:139-145 | a found length fits inside the source |
| Strings.FirstGroupFrom | Sources/parser-combinator-swift/StringParser.swift:139-145 | the search over the groups finds the least length in the range whose slice is a candidate, or none when there is no such length |
| Strings.FirstGroupShortest | Sources/parser-combinator-swift/StringParser.swift:139-145 | over all the groups, the length found is the least length whose slice is a candidate |
| Strings.StringInSuccess | Sources/parser-combinator-swift/StringParser.swift:137-151 | succeeds with `o` ending at `n` exactly when `o` is the slice to `n`, is a candidate, and no shorter slice is one |
| Strings.StringIn | Sources/parser-combinator-swift/StringParser.swift:126-152 | (definition; its behaviour is stated by `StringInSuccess` and `StringInFailure`) the slice at the index for the first candidate length, in ascending order, whose group holds it; `NoStringIn` when there is none |
| Strings.StringInFailure | Sources/parser-combinator-swift/StringParser.swift:127-151 | fails exactly when no slice from the index is a candidate, with the `Did not match stringIn` error |
| Strings.StringInCases | Sources/parser-combinator-swift/StringParser.swift:126-152 | the success and failure characterizations together |
| Strings.StringInExamples | Sources/parser-combinator-swift/StringParser.swift:126-152 | no candidates always fails; between "ab" and "a", on "ab" the shorter one is returned |
| Strings.FirstMatch | Sources/parser-combinator-swift/StringParser.swift:139-145 | the loop over the groups finds `FirstGroup` and returns the matching substring |
| Strings.StringInParse | Sources/parser-combinator-swift/StringParser.swift:126-152 | the grouping and the loop compute `stringIn` |
| Strings.Start | Sources/parser-combinator-swift/StringParser.swift:185-191 | zero width; succeeds exactly at index 0, failing with `notTheEnd` elsewhere |
| Strings.End | Sources/parser-combinator-swift/StringParser.swift:193-199 | zero width; succeeds exactly at the end, failing with `notTheEnd` elsewhere |

## Findings

| source | as written | input that shows it | evidently intended | confidence | as-written member | corrected member |
|---|---|---|---|---|---|---|
| Sources/parser-combinator-swift/UTF8Parser.swift:224 | `hexDigit` is `elemIn("01234567")` (the same in UTF16Parser.swift:195 and UTF8CStringParser.swift:204) | the one-byte source "8", or "a": `hexDigit` fails | a hexadecimal digit, 0 to 15, as its doc comment says: 0-9, a-f, A-F | high, not executed | Utf8.HexDigitIsOctal | Utf8.HexDigitIntendedAt |
| Sources/parser-combinator-swift/UTF8Parser.swift:228-238 | `start` fails with `Errors.notTheEnd` (the same in the other three parsers) | `start` on "a" at index 1 fails with `notTheEnd` | `Errors.notTheStart`, which exists and is used nowhere else | medium, not executed | Utf8.StartReportsNotTheEnd | Utf8.StartIntended |

## Left out

- `RegexParser` and StringParser's `log`: the regular-expression parser depends on
  Foundation's `NSRegularExpression`, and `log` prints. Neither is part of this model.
- The prefix and infix operators of `Operators.swift` (`|`, `&&`, `!`) are aliases of
  `or`, `positiveLookahead` and `negativeLookahead`. The precedence groups of the
  sequential operators are syntax.
- Conversions between `String`, `Character` and the encoded views are not modelled: the
  `String` initialisers of UTF8Parser and `String(cCharArray:)`. Outputs stay as the
  element sequences they were read from. `encodingFailure` therefore never arises, and
  the model succeeds in the places where the source returns that error or traps:
- Utf8.ElemPred and Utf8.ElemIn succeed on a satisfying byte of 0x80 or above; the source
  fails there with its encoding error, since one such byte is not UTF-8
  (UTF8Parser.swift:92-95). On bytes below 0x80 the two agree.
- Utf8.ElemWhilePred succeeds on a run of bytes that is not valid UTF-8; the source fails
  there with its encoding error (UTF8Parser.swift:115-118).
- Utf8.Char succeeds on a lone continuation byte such as 0x80, or on a truncated sequence;
  the source fails there with its encoding error (UTF8Parser.swift:73-77).
- CStrings.Char returns the bytes it read; the source converts them with
  `Character(String(cCharArray:))` (UTF8CStringParser.swift:58), which traps when they do
  not form exactly one character.
- `trieStringIn` (StringParser), `dictionaryIn` (UTF8Parser, UTF8CStringParser), the
  `Trie(pairs)` initialiser and the trie's `contains` are not modelled. The `query` used by
  the UTF-8 walk is the children lookup.
- Utf8.NewStringIn builds its trie with Tries.Build, one `insert` per candidate in turn,
  in place of the `Trie(pairs)` initialiser of UTF8Parser.swift:173, whose body is not part
  of this model. Build's contract gives the word map the initialiser is taken to produce:
  each nonempty candidate maps to itself.
- `TrieNode.parentNode` and `TrieNode.value` are not modelled: no modelled operation reads
  them back.
- Swift `throws`: the transforms passed to `map`, `flatMap` and `filter` are total
  functions. `unwrap`, `index`, `error` and `memoizedLazyOf` model their thrown errors
  with a `Throws` datatype.
- `Character` is a Dafny `char`, with no grapheme clusters and no Unicode properties. So
  `ascii`, `digit`, `digits`, `hexDigit`, `whitespace` and `whitespaces` of StringParser
  (built on `isASCII`, `isNumber`, `isHexDigit` and `isWhitespace`) are not modelled.
  `binaryDigit` is.
- The `CharacterSet` overloads of StringParser's `charIn` and `charsWhileIn` are not
  modelled: `CharacterSet` is a Foundation type.
- Digit parsers: `Digit`, `Digits`, `BinaryDigit` and `HexDigit` of the encoding parsers
  are written as the source writes them, from `elemIn`/`charIn` and `elemsWhileIn`/`charsIn`.
  They carry no contract of their own beyond their constituents'.
- Strings.StringIn takes the candidates as a sequence. The `Set<String>` overload is the
  set of its elements; the result depends only on membership. The `\(xs)` description in
  the error message is not modelled: NoStringIn keeps the fixed part of the message.
- Strings.StringOfLength takes a `nat`: a negative length, which traps in Swift, is not
  modelled.
- Errors: `Errors.swift` declares `unexpectedCharacter` with one associated value, while
  the parsers pass two. The model follows the parsers. UTF16Parser's `noMoreSources` and
  `GenericErrors.unexpectedToken` are mapped to `NoMoreSource` and `UnexpectedToken`.
- Conjunction.Rep requires `max` to be given or the parser to consume. The source loops
  forever on a parser that succeeds without consuming when no maximum is set.
- Conjunction.Rep1Sep requires the separator followed by the item to consume. That is the
  termination condition of the unbounded inner `rep()` (Parser+Conjunction.swift:54-61);
  the source loops forever when the pair can succeed without consuming.
- Parsers.MemoizedLazyOf: the global memoisation counter is a parameter. Its increment
  across calls is not modelled.
- Utf16.Elem and CStrings.Elem require an index inside the array. The source subscripts
  without a bounds check and traps there.
- Concurrency and the `inout` source parameter: the source is passed by value, and no
  modelled parser changes it.
