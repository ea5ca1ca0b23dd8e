/** The repository carries the coordinate corrections twice: once in
    src/parser/handleErrors.ts, on the parser's section records, and once in
    src/message/index.ts, on error records. This module relates the two
    copies: the helpers are equal, the section shift is equal, and the
    drift correction is equal unless the first error claims to start on
    line -1, the line `correctToken` remembers before it has seen any error. */
module Agreement {
  import opened Types
  import opened Coordinates
  import opened Correction
  import opened Message

  /** The single-field helpers of the two files compute the same errors. */
  lemma HelpersAgree(number: int, d: Delta, e: SyntaxError)
    ensures RemoveOffset(number, e) == RemoveOffsetError(number, e)
    ensures RemoveColumn(number, e) == RemoveColumnError(number, e)
    ensures RemoveColumnStart(number, e) == RemoveColumnStartError(number, e)
    ensures AddError(d, e) == IncrementError(d, e)
  {
  }

  /** The error record `message` corrects for a failed section. */
  function Record(s: Section): (r: ErrorArr)
    requires Failed(s.result)
    ensures r.start == s.location.start && r.error == s.result.errors.value
  {
    ErrorArr(s.location.start, s.result.errors.value)
  }

  /** On a failed section, `correctError` and `correctTextSplitMessages`
      produce the same errors. */
  lemma {:induction false} SectionShiftsAgree(text: string, s: Section, lineEnding: string)
    requires Failed(s.result)
    ensures CorrectError(text, s, lineEnding).result.errors.value == CorrectTextSplitMessages(text, Record(s), lineEnding).error
  {
    var before := s.result.errors.value;
    var a1, a2 := CorrectError(text, s, lineEnding).result.errors.value, CorrectTextSplitMessages(text, Record(s), lineEnding).error;
    forall k | 0 <= k < |before|
      ensures a1[k] == a2[k]
    {
      ShiftedIsFunctional(before[k], a1[k], a2[k], s.location.start - 1, LineShift(text, s.location.start, lineEnding));
    }
  }

  /** `correctToken` and `correctTokenMessages` produce the same errors
      unless the first error starts on line -1. */
  lemma {:induction false} DriftCorrectionsAgree(s: Section)
    requires Failed(s.result)
    requires s.result.errors.value == [] || StartLine(s.result.errors.value[0]) != -1
    ensures TokenCorrected(s).result.errors.value == TokenMessagesCorrected(Record(s)).error
  {
    var before := s.result.errors.value;
    var a1, a2 := TokenCorrected(s).result.errors.value, TokenMessagesCorrected(Record(s)).error;
    forall k | 0 <= k < |before|
      ensures a1[k] == a2[k]
    {
      RunCountIgnoresUnmatchedInitial(before, k, -1);
      UndriftedIsFunctional(before[k], a1[k], a2[k], k, RunCount(before, k, None));
    }
  }

  /** Hence `correctMessage` and `message` agree on every failed section
      whose first error does not start on line -1. */
  lemma MessagesAgree(text: string, s: Section, lineEnding: string)
    requires Failed(s.result)
    requires s.result.errors.value == [] || StartLine(s.result.errors.value[0]) != -1
    ensures CorrectMessage(s, text, lineEnding).result.errors.value == CorrectedMessages(text, Record(s), lineEnding).error
  {
    DriftCorrectionsAgree(s);
    var t := TokenCorrected(s);
    SectionShiftsAgree(text, t, lineEnding);
    assert Record(t) == TokenMessagesCorrected(Record(s));
  }

  /** A first error on line -1 is where they part: `correctToken` counts it
      as a repeat of the line it starts from and takes a column off,
      `correctTokenMessages` does not. */
  lemma DriftCorrectionsDiffer()
    ensures var e := SyntaxError(Some(':'), Span(Position(-1, 5, 5), Position(-1, 6, 6)));
            var s := Section(SectionLocation(1, "a:"), ParseResult(None, Some([e])));
            && TokenCorrected(s).result.errors.value[0].location.start.column == 4
            && TokenMessagesCorrected(Record(s)).error[0].location.start.column == 5
  {
  }
}
