/** The values the GIFT error-reporting path passes around: syntax errors with
    their positions, the parser's result pair and the document sections. Only
    the fields the error path reads or writes are modelled. */
module Types {

  datatype Option<+T> = None | Some(value: T)

  /** The two messages the error path throws with. */
  datatype Thrown = TokenIsNull | NoTokenFound

  /** What a call can do in the source: return a value, throw, or run forever. */
  datatype Outcome<+T> = Returned(value: T) | Threw(error: Thrown) | Diverges

  /** A point in a text. Lines start at 1; columns and offsets are plain
      integers because the corrections can push them below zero. */
  datatype Position = Position(line: int, column: int, offset: int)

  datatype Span = Span(start: Position, end: Position)

  /** A syntax error as the generated parser reports it: the character it did
      not expect (none at the end of the input) and where. */
  datatype SyntaxError = SyntaxError(found: Option<char>, location: Span)

  /** A parsed question. The error path never looks inside one. */
  type Question

  /** The parser's `[success, error]` pair; `None` stands for `null`. */
  datatype ParseResult = ParseResult(success: Option<Question>, errors: Option<seq<SyntaxError>>)

  /** The grammar engine: text in, result pair out. */
  type Parser = string -> ParseResult

  /** Where a section sits in the document: its first line and its text. */
  datatype SectionLocation = SectionLocation(start: int, text: string)

  datatype Section = Section(location: SectionLocation, result: ParseResult)

  /** The record the message module corrects: a section's first line and its errors. */
  datatype ErrorArr = ErrorArr(start: int, error: seq<SyntaxError>)

  /** The `{line, offset, column}` argument of `addError` and `incrementError`. */
  datatype Delta = Delta(line: int, offset: int, column: int)

  /** A result pair the coordinate corrections act on: no success, an error list. */
  predicate Failed(r: ParseResult) {
    r.success.None? && r.errors.Some?
  }
}
