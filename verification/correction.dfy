/** The two coordinate corrections of src/parser/handleErrors.ts: `correctToken`
    takes out the drift the inserted backslashes cause, `correctError` moves
    section coordinates into document coordinates, `correctMessage` runs one
    after the other. */
module Correction {
  import opened Types
  import opened Coordinates

  /** `addError`: adds `number` to both lines, both offsets and both columns. */
  function AddError(number: Delta, message: SyntaxError): (r: SyntaxError)
    ensures r.found == message.found
    ensures var s := message.location.start;
            r.location.start == Position(s.line + number.line, s.column + number.column, s.offset + number.offset)
    ensures var e := message.location.end;
            r.location.end == Position(e.line + number.line, e.column + number.column, e.offset + number.offset)
    ensures number.column == 0 ==> Shifted(message, r, number.line, number.offset)
  {
    var s, e := message.location.start, message.location.end;
    message.(location := message.location.(
      start := s.(line := s.line + number.line, offset := s.offset + number.offset, column := s.column + number.column),
      end := e.(line := e.line + number.line, offset := e.offset + number.offset, column := e.column + number.column)))
  }

  /** Adding a delta and then its negation gives the error back. */
  lemma AddErrorInverse(number: Delta, message: SyntaxError)
    ensures AddError(Delta(-number.line, -number.offset, -number.column), AddError(number, message)) == message
  {
  }

  /** `removeOffset`: subtracts `number` from both offsets and touches nothing else. */
  function RemoveOffset(number: int, message: SyntaxError): (r: SyntaxError)
    ensures Undrifted(message, r, number, 0)
  {
    var s, e := message.location.start, message.location.end;
    message.(location := message.location.(
      start := s.(offset := s.offset - number),
      end := e.(offset := e.offset - number)))
  }

  /** `removeColumn`: subtracts `number` from both columns and touches nothing else. */
  function RemoveColumn(number: int, message: SyntaxError): (r: SyntaxError)
    ensures r.found == message.found
    ensures r.location.start == message.location.start.(column := message.location.start.column - number)
    ensures r.location.end == message.location.end.(column := message.location.end.column - number)
  {
    var s, e := message.location.start, message.location.end;
    message.(location := message.location.(
      start := s.(column := s.column - number),
      end := e.(column := e.column - number)))
  }

  /** `removeColumnStart`: subtracts `number` from the start column only; the end is left as it was. */
  function RemoveColumnStart(number: int, message: SyntaxError): (r: SyntaxError)
    ensures r.found == message.found
    ensures r.location.start == message.location.start.(column := message.location.start.column - number)
    ensures r.location.end == message.location.end
  {
    var s := message.location.start;
    message.(location := message.location.(start := s.(column := s.column - number)))
  }

  /** What `correctToken`'s map callback returns for error `k`, once the
      same-line counter has seen `errors[..k + 1]`. */
  function CorrectItem(errors: seq<SyntaxError>, k: nat): (r: SyntaxError)
    requires k < |errors|
    ensures Undrifted(errors[k], r, k, RunCount(errors, k, Some(-1)))
  {
    var item, count := errors[k], RunCount(errors, k, Some(-1));
    if item.location.end.line > item.location.start.line then
      RemoveOffset(k, RemoveColumnStart(count, item))
    else
      RemoveOffset(k, RemoveColumn(count, item))
  }

  /** What `correctToken` returns. The same-line counter starts with line -1
      remembered. */
  function TokenCorrected(message: Section): (r: Section)
    ensures !Failed(message.result) ==> r == message
    ensures Failed(message.result) ==>
              && r.location == message.location
              && Failed(r.result)
              && var before, after := message.result.errors.value, r.result.errors.value;
              && |after| == |before|
              && forall k :: 0 <= k < |before| ==> Undrifted(before[k], after[k], k, RunCount(before, k, Some(-1)))
  {
    if message.result.success.Some? || message.result.errors.None? then message
    else
      var error := message.result.errors.value;
      var newError := seq(|error|, k requires 0 <= k < |error| => CorrectItem(error, k));
      message.(result := ParseResult(None, Some(newError)))
  }

  /** `correctToken`: walks the errors once, keeping the line of the previous
      error and the same-line counter in two variables as the source keeps
      them in its `iter` object. */
  method CorrectToken(message: Section) returns (r: Section)
    ensures r == TokenCorrected(message)
  {
    var prevLine := -1;
    var count := 0;
    var success, error := message.result.success, message.result.errors;
    if success.Some? || error.None? {
      return message;
    }
    var items := error.value;
    var newError: seq<SyntaxError> := [];
    for idx := 0 to |items|
      invariant |newError| == idx
      invariant forall k :: 0 <= k < idx ==> newError[k] == CorrectItem(items, k)
      invariant prevLine == if idx == 0 then -1 else StartLine(items[idx - 1])
      invariant count == if idx == 0 then 0 else RunCount(items, idx - 1, Some(-1))
    {
      var item := items[idx];
      if prevLine == item.location.start.line {
        count := count + 1;
      } else {
        count := 0;
        prevLine := item.location.start.line;
      }
      var output;
      if item.location.end.line > item.location.start.line {
        output := RemoveColumnStart(count, item);
      } else {
        output := RemoveColumn(count, item);
      }
      assert count == RunCount(items, idx, Some(-1));
      newError := newError + [RemoveOffset(idx, output)];
    }
    assert newError == TokenCorrected(message).result.errors.value;
    return message.(result := ParseResult(None, Some(newError)));
  }

  /** `correctError`: every error of a failed section moves down by
      `start - 1` lines and along by the offset shift of `text`'s line
      `start - 2`; columns stay. Any other section comes back as it was. */
  function CorrectError(text: string, message: Section, lineEnding: string): (r: Section)
    ensures !Failed(message.result) ==> r == message
    ensures Failed(message.result) ==>
              && r.location == message.location
              && Failed(r.result)
              && var before, after := message.result.errors.value, r.result.errors.value;
              && |after| == |before|
              && forall k :: 0 <= k < |before| ==>
                   Shifted(before[k], after[k], message.location.start - 1, LineShift(text, message.location.start, lineEnding))
  {
    var location := message.location;
    var offsetIndex := LineShift(text, location.start, lineEnding);
    if message.result.success.Some? || message.result.errors.None? then message
    else
      var error := message.result.errors.value;
      var newError := seq(|error|, k requires 0 <= k < |error| =>
        AddError(Delta(location.start - 1, offsetIndex, 0), error[k]));
      message.(result := ParseResult(None, Some(newError)))
  }

  /** `correctMessage`: both corrections, token drift first. Error `k` of a
      failed section ends with its found character, its lines moved by
      `start - 1`, its offsets moved by the line shift less `k`, and the
      same-line count taken from its columns. */
  function CorrectMessage(message: Section, originalText: string, lineEnding: string): (r: Section)
    ensures !Failed(message.result) ==> r == message
    ensures Failed(message.result) ==>
              && r.location == message.location
              && Failed(r.result)
              && var before, after := message.result.errors.value, r.result.errors.value;
              && |after| == |before|
              && forall k :: 0 <= k < |before| ==>
                   var b, a, count := before[k].location, after[k].location, RunCount(before, k, Some(-1));
                   var shift := LineShift(originalText, message.location.start, lineEnding);
                   && after[k].found == before[k].found
                   && a.start.line == b.start.line + message.location.start - 1
                   && a.end.line == b.end.line + message.location.start - 1
                   && a.start.offset == b.start.offset - k + shift
                   && a.end.offset == b.end.offset - k + shift
                   && a.start.column == b.start.column - count
                   && a.end.column == b.end.column - (if b.end.line > b.start.line then 0 else count)
  {
    CorrectError(originalText, TokenCorrected(message), lineEnding)
  }
}
