/** Locating the character a syntax error reports and escaping it with a
    backslash, so that a second parse reads it as text (src/parser/handleErrors.ts,
    `findToken`, `escapeToken` and `token`). */
module TokenEscape {
  import opened Types

  const SearchLimit := 1
  const Escape := '\\'
  const Newline := '\n'
  /** The characters `escapeToken` agrees to escape. */
  const Tokens: seq<char> := [':', '~', '=', '#', '{', '}', '\n']

  function Min(a: int, b: int): int { if a <= b then a else b }
  function Max(a: int, b: int): int { if a >= b then a else b }

  /** What `findToken` does. It throws on a null token and on a location
      outside the text; otherwise it looks at `text[location]` only and
      returns the location on a match. On a mismatch its loop never ends. */
  function Located(text: string, token: Option<char>, location: int): Outcome<int> {
    if token.None? then Threw(TokenIsNull)
    else if !(0 <= location < |text|) then Threw(NoTokenFound)
    else if text[location] == token.value then Returned(location)
    else Diverges
  }

  /** The search loop of `findToken`, with its limits as the source computes
      them. The two cursors are set once from `location` and never move (only
      the counter `i` does), so a pass that finds nothing is repeated forever;
      the model reports that second, identical pass as `Diverges`. */
  method FindToken(text: string, token: Option<char>, location: int) returns (r: Outcome<int>)
    ensures r == Located(text, token, location)
    ensures r.Returned? ==> r.value == location && 0 <= location < |text| && token == Some(text[location])
    ensures r.Threw? <==> token.None? || !(0 <= location < |text|)
  {
    if token.None? {
      return Threw(TokenIsNull);
    }
    var upperLimit := Min(|text|, location + SearchLimit);
    var lowerLimit := Max(0, location - SearchLimit);
    var i := 0;
    var iteratorUpper := location + i;
    var iteratorLower := location - i;
    while iteratorUpper < upperLimit && (iteratorLower > lowerLimit || iteratorLower == 0)
      invariant 0 <= i <= 1
      invariant iteratorUpper == location && iteratorLower == location
      invariant i == 1 ==> 0 <= location < |text| && text[location] != token.value
      decreases 1 - i
    {
      if i == 1 {
        // Same cursors, same guard, same two failed tests as the pass before.
        return Diverges;
      }
      // Favour the token before the location.
      if text[iteratorLower] == token.value {
        return Returned(iteratorLower);
      }
      if text[iteratorUpper] == token.value {
        return Returned(iteratorUpper);
      }
      i := i + 1;
    }
    return Threw(NoTokenFound);
  }

  /** `s` without its character at `k`. */
  function RemoveAt(s: string, k: int): string
    requires 0 <= k < |s|
  {
    s[..k] + s[k + 1..]
  }

  /** `after` is `before` with one backslash inserted somewhere. */
  ghost predicate EscapedOnce(before: string, after: string) {
    |after| == |before| + 1 &&
    exists k :: 0 <= k < |after| && after[k] == Escape && RemoveAt(after, k) == before
  }

  /** Whether the token at `location` already carries its escape: for a
      newline the character after it, for any other token the one before it. */
  predicate AlreadyEscaped(text: string, location: int)
    requires 0 <= location < |text|
  {
    if text[location] == Newline then location + 1 < |text| && text[location + 1] == Escape
    else location > 0 && text[location - 1] == Escape
  }

  /** `escapeToken`: a backslash after a newline token, before any other
      accepted token; it throws on a character outside the accepted set, on a
      location outside the text and on a token that is already escaped. */
  function EscapeToken(text: string, location: int): (r: Outcome<string>)
    ensures !r.Diverges?
    ensures r.Threw? ==> r.error == NoTokenFound
    ensures r.Returned? <==> 0 <= location < |text| && text[location] in Tokens && !AlreadyEscaped(text, location)
    ensures r.Returned? ==>
              var k := if text[location] == Newline then location + 1 else location;
              |r.value| == |text| + 1 && r.value[k] == Escape && RemoveAt(r.value, k) == text
              && r.value[..k] == text[..k] && r.value[k + 1..] == text[k..]
  {
    var tokenIsAccepted := 0 <= location < |text| && text[location] in Tokens;
    if tokenIsAccepted && text[location] == Newline then
      var escapeLocation := location + 1;
      var tokenNotEscaped := !(escapeLocation < |text| && text[escapeLocation] == Escape);
      if tokenNotEscaped then
        Returned(text[..location + 1] + [Escape] + text[location + 1..])
      else
        Threw(NoTokenFound)
    else
      var escapeLocation := if location - 1 > 0 then location - 1 else 0;
      var tokenNotEscaped := !(escapeLocation < |text| && text[escapeLocation] == Escape);
      if tokenIsAccepted && tokenNotEscaped then
        Returned(text[..location] + [Escape] + text[location..])
      else
        Threw(NoTokenFound)
  }

  /** An escaped token is not escaped again: escaping the same newline, or the
      other token where the insertion has moved it, throws. */
  lemma EscapeIsNotRepeated(text: string, location: int)
    requires EscapeToken(text, location).Returned?
    ensures var escaped := EscapeToken(text, location).value;
            if text[location] == Newline then EscapeToken(escaped, location) == Threw(NoTokenFound)
            else EscapeToken(escaped, location + 1) == Threw(NoTokenFound)
  {
    var escaped := EscapeToken(text, location).value;
    if text[location] == Newline {
      assert escaped[location] == Newline && escaped[location + 1] == Escape;
    } else {
      assert escaped[location] == Escape && escaped[location + 1] == text[location];
    }
  }

  /** `token`: locate the reported character at its reported offset, then
      escape it. What comes back is the text with one backslash more. */
  function Token(text: string, error: SyntaxError): (r: Outcome<string>)
    ensures r.Returned? ==> EscapedOnce(text, r.value)
  {
    match Located(text, error.found, error.location.start.offset)
    case Returned(location) =>
      var r := EscapeToken(text, location);
      if r.Returned? then
        var k := if text[location] == Newline then location + 1 else location;
        assert r.value[k] == Escape && RemoveAt(r.value, k) == text;
        r
      else r
    case Threw(e) => Threw(e)
    case Diverges => Diverges
  }

  /** `token` never returns when the reported character is not the one at
      the reported offset, and throws "Token is Null." on a null character. */
  lemma TokenOutcomes(text: string, error: SyntaxError)
    ensures var at := error.location.start.offset;
            Token(text, error).Diverges? <==>
              error.found.Some? && 0 <= at < |text| && text[at] != error.found.value
    ensures error.found.None? ==> Token(text, error) == Threw(TokenIsNull)
  {
  }

  /** The first recovery step on `Q1 ~ A : B` when the parser reports the
      colon at offset 7: the colon gets its backslash. */
  lemma ColonExample()
    ensures Token("Q1 ~ A : B", SyntaxError(Some(':'), Span(Position(1, 7, 7), Position(1, 8, 8))))
            == Returned("Q1 ~ A \\: B")
  {
    var text := "Q1 ~ A : B";
    assert text[7] == ':';
    assert text[6] == ' ';
    assert text[..7] + [Escape] + text[7..] == "Q1 ~ A \\: B";
  }

  /** The search does not widen: a colon one place after the reported offset
      is not found, and the loop never ends. */
  lemma NeighbourIsNotSearched()
    ensures Located("a:", Some(':'), 0) == Diverges
  {
  }
}
