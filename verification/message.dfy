/** The coordinate corrections of src/message/index.ts: the field-wise
    increment and remove helpers, `correctTokenMessages` (take out the drift
    of inserted escapes), `correctTextSplitMessages` (move section coordinates
    into document coordinates) and `message`, which runs both. */
module Message {
  import opened Types
  import opened Coordinates

  /** `after` is `before` with `d.line` added to both lines, `d.offset` to
      both offsets and `d.column` to both columns; the found character stays. */
  predicate Moved(before: SyntaxError, after: SyntaxError, d: Delta) {
    var b, a := before.location, after.location;
    && after.found == before.found
    && a.start == Position(b.start.line + d.line, b.start.column + d.column, b.start.offset + d.offset)
    && a.end == Position(b.end.line + d.line, b.end.column + d.column, b.end.offset + d.offset)
  }

  /** Moving by one delta and then by another is moving by their sum. */
  lemma MovedComposes(a: SyntaxError, b: SyntaxError, c: SyntaxError, d1: Delta, d2: Delta)
    requires Moved(a, b, d1) && Moved(b, c, d2)
    ensures Moved(a, c, Delta(d1.line + d2.line, d1.offset + d2.offset, d1.column + d2.column))
  {
  }

  /** `incrementError`. */
  function IncrementError(number: Delta, message: SyntaxError): (r: SyntaxError)
    ensures Moved(message, r, number)
  {
    var s, e := message.location.start, message.location.end;
    message.(location := message.location.(
      start := s.(line := s.line + number.line, offset := s.offset + number.offset, column := s.column + number.column),
      end := e.(line := e.line + number.line, offset := e.offset + number.offset, column := e.column + number.column)))
  }

  /** `incrementColumnError`. */
  function IncrementColumnError(number: int, message: SyntaxError): (r: SyntaxError)
    ensures Moved(message, r, Delta(0, 0, number))
  {
    var s, e := message.location.start, message.location.end;
    message.(location := message.location.(start := s.(column := s.column + number), end := e.(column := e.column + number)))
  }

  /** `incrementOffsetError`. */
  function IncrementOffsetError(number: int, message: SyntaxError): (r: SyntaxError)
    ensures Moved(message, r, Delta(0, number, 0))
  {
    var s, e := message.location.start, message.location.end;
    message.(location := message.location.(start := s.(offset := s.offset + number), end := e.(offset := e.offset + number)))
  }

  /** `incrementLineError`. */
  function IncrementLineError(number: int, message: SyntaxError): (r: SyntaxError)
    ensures Moved(message, r, Delta(number, 0, 0))
  {
    var s, e := message.location.start, message.location.end;
    message.(location := message.location.(start := s.(line := s.line + number), end := e.(line := e.line + number)))
  }

  /** `removeOffsetError`. */
  function RemoveOffsetError(number: int, message: SyntaxError): (r: SyntaxError)
    ensures Moved(message, r, Delta(0, -number, 0))
  {
    var s, e := message.location.start, message.location.end;
    message.(location := message.location.(start := s.(offset := s.offset - number), end := e.(offset := e.offset - number)))
  }

  /** `removeLineError`. */
  function RemoveLineError(number: int, message: SyntaxError): (r: SyntaxError)
    ensures Moved(message, r, Delta(-number, 0, 0))
  {
    var s, e := message.location.start, message.location.end;
    message.(location := message.location.(start := s.(line := s.line - number), end := e.(line := e.line - number)))
  }

  /** `removeColumnError`. */
  function RemoveColumnError(number: int, message: SyntaxError): (r: SyntaxError)
    ensures Moved(message, r, Delta(0, 0, -number))
  {
    var s, e := message.location.start, message.location.end;
    message.(location := message.location.(start := s.(column := s.column - number), end := e.(column := e.column - number)))
  }

  /** `removeColumnStartError`: the start column only; a multi-line error
      keeps its end column. */
  function RemoveColumnStartError(number: int, message: SyntaxError): (r: SyntaxError)
    ensures r.found == message.found
    ensures r.location.start == message.location.start.(column := message.location.start.column - number)
    ensures r.location.end == message.location.end
  {
    var s := message.location.start;
    message.(location := message.location.(start := s.(column := s.column - number)))
  }

  /** `incrementError` is the three single-field increments one after another. */
  lemma IncrementDecomposes(number: Delta, message: SyntaxError)
    ensures IncrementError(number, message)
            == IncrementLineError(number.line, IncrementOffsetError(number.offset, IncrementColumnError(number.column, message)))
  {
    var c := IncrementColumnError(number.column, message);
    var o := IncrementOffsetError(number.offset, c);
    MovedComposes(message, c, o, Delta(0, 0, number.column), Delta(0, number.offset, 0));
    MovedComposes(message, o, IncrementLineError(number.line, o), Delta(0, number.offset, number.column), Delta(number.line, 0, 0));
  }

  /** Each remove helper undoes its increment helper, in either order. */
  lemma RemoveUndoesIncrement(number: int, message: SyntaxError)
    ensures RemoveLineError(number, IncrementLineError(number, message)) == message
    ensures IncrementLineError(number, RemoveLineError(number, message)) == message
    ensures RemoveOffsetError(number, IncrementOffsetError(number, message)) == message
    ensures IncrementOffsetError(number, RemoveOffsetError(number, message)) == message
    ensures RemoveColumnError(number, IncrementColumnError(number, message)) == message
    ensures IncrementColumnError(number, RemoveColumnError(number, message)) == message
  {
  }

  /** `correctTextSplitMessages`: every error moves down by `start - 1`
      lines and along by the offset shift of `text`'s line `start - 2`;
      columns stay. Unlike `correctError` it does not look at whether the
      section failed: it maps whatever error list it is given. */
  function CorrectTextSplitMessages(text: string, message: ErrorArr, lineEnding: string): (r: ErrorArr)
    ensures r.start == message.start
    ensures |r.error| == |message.error|
    ensures forall k :: 0 <= k < |message.error| ==>
              Shifted(message.error[k], r.error[k], message.start - 1, LineShift(text, message.start, lineEnding))
  {
    var offsetIndex := LineShift(text, message.start, lineEnding);
    var error := message.error;
    var corrected := seq(|error|, k requires 0 <= k < |error| =>
      IncrementError(Delta(message.start - 1, offsetIndex, 0), error[k]));
    assert forall k :: 0 <= k < |error| ==> Moved(error[k], corrected[k], Delta(message.start - 1, offsetIndex, 0));
    message.(error := corrected)
  }

  /** What `correctTokenMessages` returns. The same-line counter starts with
      no line remembered. */
  function TokenMessagesCorrected(message: ErrorArr): (r: ErrorArr)
    ensures r.start == message.start
    ensures |r.error| == |message.error|
    ensures forall k :: 0 <= k < |message.error| ==>
              Undrifted(message.error[k], r.error[k], k, RunCount(message.error, k, None))
  {
    var error := message.error;
    var corrected := seq(|error|, k requires 0 <= k < |error| => CorrectedAt(error, k));
    message.(error := corrected)
  }

  /** The map callback of `correctTokenMessages` for error `k`, once the
      counter has seen `errors[..k + 1]`. */
  function CorrectedAt(errors: seq<SyntaxError>, k: nat): (r: SyntaxError)
    requires k < |errors|
    ensures Undrifted(errors[k], r, k, RunCount(errors, k, None))
  {
    var item, count := errors[k], RunCount(errors, k, None);
    if item.location.end.line > item.location.start.line then
      RemoveOffsetError(k, RemoveColumnStartError(count, item))
    else
      RemoveOffsetError(k, RemoveColumnError(count, item))
  }

  /** The columns an error loses are the number of errors just before it
      that start on the same line. */
  lemma ColumnDropIsRun(message: ErrorArr, k: nat)
    requires k < |message.error|
    ensures var before, after := message.error, TokenMessagesCorrected(message).error;
            var drop := before[k].location.start.column - after[k].location.start.column;
            && 0 <= drop <= k
            && (forall j :: k - drop <= j <= k ==> StartLine(before[j]) == StartLine(before[k]))
            && (k - drop > 0 ==> StartLine(before[k - drop - 1]) != StartLine(before[k]))
  {
    RunCountIsRunLength(message.error, k);
  }

  /** `correctTokenMessages`: walks the errors once, keeping the line of the
      previous error (`None` for undefined) and the same-line counter in two
      variables as the source keeps them in its `iterators` object. */
  method CorrectTokenMessages(message: ErrorArr) returns (r: ErrorArr)
    ensures r == TokenMessagesCorrected(message)
  {
    var prevLine: Option<int> := None;
    var count := 0;
    var items := message.error;
    var corrected: seq<SyntaxError> := [];
    for index := 0 to |items|
      invariant |corrected| == index
      invariant forall k :: 0 <= k < index ==> corrected[k] == CorrectedAt(items, k)
      invariant prevLine == if index == 0 then None else Some(StartLine(items[index - 1]))
      invariant count == if index == 0 then 0 else RunCount(items, index - 1, None)
    {
      var item := items[index];
      if prevLine == Some(item.location.start.line) {
        count := count + 1;
      } else {
        count := 0;
        prevLine := Some(item.location.start.line);
      }
      var output;
      if item.location.end.line > item.location.start.line {
        output := RemoveColumnStartError(count, item);
      } else {
        output := RemoveColumnError(count, item);
      }
      assert count == RunCount(items, index, None);
      corrected := corrected + [RemoveOffsetError(index, output)];
    }
    assert corrected == TokenMessagesCorrected(message).error;
    return message.(error := corrected);
  }

  /** `message`: both corrections, token drift first. Error `k` ends with its
      found character, its lines moved by `start - 1`, its offsets moved by
      the line shift less `k`, and the same-line count taken from its
      columns (from the start column only for an error that spans lines). */
  function CorrectedMessages(originalText: string, message: ErrorArr, lineEnding: string): (r: ErrorArr)
    ensures r.start == message.start
    ensures |r.error| == |message.error|
    ensures forall k :: 0 <= k < |message.error| ==>
              var b, a, count := message.error[k].location, r.error[k].location, RunCount(message.error, k, None);
              var shift := LineShift(originalText, message.start, lineEnding);
              && r.error[k].found == message.error[k].found
              && a.start.line == b.start.line + message.start - 1
              && a.end.line == b.end.line + message.start - 1
              && a.start.offset == b.start.offset - k + shift
              && a.end.offset == b.end.offset - k + shift
              && a.start.column == b.start.column - count
              && a.end.column == b.end.column - (if b.end.line > b.start.line then 0 else count)
  {
    CorrectTextSplitMessages(originalText, TokenMessagesCorrected(message), lineEnding)
  }
}
