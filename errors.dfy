/** The error values a parse can fail (or throw) with: the cases of `Errors`,
    `GenericParseError`, and the token errors the leaf scanners raise. */
module Errors {

  datatype ParseError =
    | UnwrappedFailedResult                           // unwrap()/index() on a failure
    | ErrorFromSuccessfulResult                       // error() on a success
    | FallbackFailed
    | ConjunctionOfEmptyCollection
    | ExpectedAtLeast(count: int)                     // rep, UTF8Parser.elemWhilePred
    | ExpectedAtLeastGot(min: int, got: int)          // the two-argument form of the other scanners
    | UnexpectedString(expectedUnits: seq<int>)          // UTF8Parser.string, by the expected code units
    | UnexpectedCharacter(expectedChar: char, gotChar: char)  // StringParser.string/char
    | UnexpectedElement(expectedElem: int)              // UTF8Parser.elem
    | UnexpectedToken(expectedToken: int, gotToken: int)        // UTF8CStringParser and UTF16Parser
    | UnsatisfiedPredicate
    | PositiveLookaheadFailed
    | NegativeLookaheadFailed
    | NoMoreSource
    | NotTheEnd
    | NotTheStart
    | Filtered
    | Logged
    | Generic(message: string)                        // GenericParseError
}
