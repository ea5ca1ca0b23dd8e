/** Coordinate bookkeeping shared by the two correction passes: the same-line
    run counter, the split of a text into lines and the offset shift taken
    from it, and the two relations a corrected error stands in to the error
    it came from. */
module Coordinates {
  import opened Types

  function StartLine(e: SyntaxError): int {
    e.location.start.line
  }

  /** The same-line counter both passes hold after visiting `errors[k]`,
      starting from the remembered line `initial`: it grows by one while the
      start line repeats the remembered one and drops to 0 when it changes. */
  function RunCount(errors: seq<SyntaxError>, k: nat, initial: Option<int>): nat
    requires k < |errors|
    decreases k
  {
    var previous := if k == 0 then initial else Some(StartLine(errors[k - 1]));
    if previous == Some(StartLine(errors[k])) then
      (if k == 0 then 0 else RunCount(errors, k - 1, initial)) + 1
    else
      0
  }

  /** With nothing remembered at the start, the counter is the number of
      errors just before `errors[k]` that share its start line: they all do,
      and the one before them (if any) does not. */
  lemma {:induction false} RunCountIsRunLength(errors: seq<SyntaxError>, k: nat)
    requires k < |errors|
    ensures RunCount(errors, k, None) <= k
    ensures forall j :: k - RunCount(errors, k, None) <= j <= k ==> StartLine(errors[j]) == StartLine(errors[k])
    ensures k - RunCount(errors, k, None) > 0 ==>
              StartLine(errors[k - RunCount(errors, k, None) - 1]) != StartLine(errors[k])
  {
    if k > 0 && StartLine(errors[k - 1]) == StartLine(errors[k]) {
      RunCountIsRunLength(errors, k - 1);
    }
  }

  /** A remembered start line that the first error does not have changes
      nothing: the counter resets on the first error either way. */
  lemma {:induction false} RunCountIgnoresUnmatchedInitial(errors: seq<SyntaxError>, k: nat, line: int)
    requires k < |errors|
    requires StartLine(errors[0]) != line
    ensures RunCount(errors, k, Some(line)) == RunCount(errors, k, None)
  {
    if k > 0 {
      RunCountIgnoresUnmatchedInitial(errors, k - 1, line);
    }
  }

  /** JavaScript's `text.split("\n")`. */
  function SplitLines(s: string): (lines: seq<string>)
    ensures |lines| >= 1
    ensures forall i :: 0 <= i < |lines| ==> '\n' !in lines[i]
  {
    if s == [] then [""]
    else
      var rest := SplitLines(s[1..]);
      if s[0] == '\n' then [""] + rest
      else [[s[0]] + rest[0]] + rest[1..]
  }

  /** `lines.join("\n")`. */
  function JoinLines(lines: seq<string>): string
    requires |lines| >= 1
  {
    if |lines| == 1 then lines[0] else lines[0] + "\n" + JoinLines(lines[1..])
  }

  /** Splitting on newlines loses nothing: joining the lines gives the text back. */
  lemma {:induction false} JoinSplitLines(s: string)
    ensures JoinLines(SplitLines(s)) == s
  {
    if s != [] {
      var rest := SplitLines(s[1..]);
      JoinSplitLines(s[1..]);
      if s[0] == '\n' {
        assert ([""] + rest)[1..] == rest;
      } else {
        var lines := [[s[0]] + rest[0]] + rest[1..];
        if |rest| > 1 {
          assert lines[1..] == rest[1..];
          assert JoinLines(rest) == rest[0] + "\n" + JoinLines(rest[1..]);
          assert JoinLines(lines) == [s[0]] + (rest[0] + "\n" + JoinLines(rest[1..]));
        }
        assert s == [s[0]] + s[1..];
      }
    }
  }

  /** The offset shift both passes add: the entry `start - 2` of the
      per-line character counts (line length plus line-ending length) when
      that entry exists and is non-zero, else 0. */
  function LineShift(text: string, start: int, lineEnding: string): (shift: int)
    ensures shift >= 0
    ensures 0 <= start - 2 < |SplitLines(text)| ==> shift == |SplitLines(text)[start - 2]| + |lineEnding|
    ensures !(0 <= start - 2 < |SplitLines(text)|) ==> shift == 0
  {
    var lines := SplitLines(text);
    var charPerLine := seq(|lines|, i requires 0 <= i < |lines| => |lines[i]| + |lineEnding|);
    var index := start - 2;
    if 0 <= index < |charPerLine| && charPerLine[index] != 0 then charPerLine[index] else 0
  }

  /** `after` is `before` with the drift of `index` inserted escapes taken out
      of both offsets and the same-line count `count` taken out of the
      columns: both columns for a one-line error, only the start column for
      one that spans lines. Found character and lines stay. */
  predicate Undrifted(before: SyntaxError, after: SyntaxError, index: int, count: int) {
    var b, a := before.location, after.location;
    && after.found == before.found
    && a.start.line == b.start.line
    && a.end.line == b.end.line
    && a.start.offset == b.start.offset - index
    && a.end.offset == b.end.offset - index
    && a.start.column == b.start.column - count
    && a.end.column == b.end.column - (if b.end.line > b.start.line then 0 else count)
  }

  /** `after` is `before` moved into document coordinates: `lines` added to
      both lines, `offset` to both offsets, columns and found character kept. */
  predicate Shifted(before: SyntaxError, after: SyntaxError, lines: int, offset: int) {
    var b, a := before.location, after.location;
    && after.found == before.found
    && a.start.line == b.start.line + lines
    && a.end.line == b.end.line + lines
    && a.start.column == b.start.column
    && a.end.column == b.end.column
    && a.start.offset == b.start.offset + offset
    && a.end.offset == b.end.offset + offset
  }

  /** Each relation leaves exactly one corrected error, so two passes that
      promise the same relation compute the same thing. */
  lemma UndriftedIsFunctional(before: SyntaxError, a1: SyntaxError, a2: SyntaxError, index: int, count: int)
    requires Undrifted(before, a1, index, count) && Undrifted(before, a2, index, count)
    ensures a1 == a2
  {
  }

  lemma ShiftedIsFunctional(before: SyntaxError, a1: SyntaxError, a2: SyntaxError, lines: int, offset: int)
    requires Shifted(before, a1, lines, offset) && Shifted(before, a2, lines, offset)
    ensures a1 == a2
  {
  }
}
