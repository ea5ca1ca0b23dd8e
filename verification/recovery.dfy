/** Error recovery (src/parser/handleErrors.ts, `findErrors`,
    `handleSingleError`, `handleErrors`). The generated parser reports only
    the first syntax error of a section; recovery escapes the character that
    error points at, parses again and collects the next error, up to fifty
    times, and then corrects the coordinates of everything collected. */
module Recovery {
  import opened Types
  import opened TokenEscape
  import opened Correction

  const IterationLimit: nat := 50

  /** The state recovery ends in: every text parsed so far (the source's
      `stack`, the section text first), every error collected, and whether
      a step never returned. */
  datatype Run = Run(stack: seq<string>, errors: seq<SyntaxError>, hangs: bool)

  /** The errors a parse result adds to the collection: its list, or none. */
  function Reported(p: ParseResult): seq<SyntaxError> {
    if p.errors.Some? then p.errors.value else []
  }

  /** The errors `parse` reports on `texts[from]`, `texts[from + 1]`, ..., in order. */
  function Reports(parse: Parser, texts: seq<string>, from: nat): seq<SyntaxError>
    decreases |texts| - from
  {
    if from >= |texts| then [] else Reported(parse(texts[from])) + Reports(parse, texts, from + 1)
  }

  /** One recovery step on the last text and the last error: `token` in
      `findErrors`. Recovery is stated for any step so that its proofs do
      not unfold the escaping itself; the properties of `token` it relies on
      are the predicates `Inserts` and `HaltsWhenPointed` below. */
  type Escaper = (string, SyntaxError) -> Outcome<string>

  /** The recovery loop from a given state with `budget` iterations left.
      Each iteration escapes the token of the last error in the last text,
      parses the escaped text and appends what the parse reports. It stops on
      a clean parse, on an exhausted budget, and on anything thrown: a null
      token, a token not found or refused, or an empty error list (reading
      the last error of an empty list throws). */
  function Recover(parse: Parser, escape: Escaper, stack: seq<string>, errors: seq<SyntaxError>, budget: nat): Run
    requires |stack| > 0
    decreases budget
  {
    if budget == 0 || |errors| == 0 then Run(stack, errors, false)
    else
      match escape(stack[|stack| - 1], errors[|errors| - 1])
      case Diverges => Run(stack, errors, true)
      case Threw(_) => Run(stack, errors, false)
      case Returned(escaped) =>
        var parsed := parse(escaped);
        if parsed.errors.Some? then Recover(parse, escape, stack + [escaped], errors + parsed.errors.value, budget - 1)
        else Run(stack + [escaped], errors, false)
  }

  /** The texts recovery parses extend the stack it started from, and it
      parses at most `budget` of them. */
  lemma {:induction false} RecoverPrefix(parse: Parser, escape: Escaper, stack: seq<string>, errors: seq<SyntaxError>, budget: nat)
    requires |stack| > 0
    ensures var run := Recover(parse, escape, stack, errors, budget);
            && |stack| <= |run.stack| <= |stack| + budget
            && stack <= run.stack
    decreases budget
  {
    if budget > 0 && |errors| > 0 {
      var step := escape(stack[|stack| - 1], errors[|errors| - 1]);
      if step.Returned? {
        var parsed := parse(step.value);
        if parsed.errors.Some? {
          RecoverPrefix(parse, escape, stack + [step.value], errors + parsed.errors.value, budget - 1);
        }
      }
    }
  }

  /** Text `k + 1` of the stack is text `k` with one backslash inserted. */
  ghost predicate EscapedAt(stack: seq<string>, k: int) {
    0 <= k < |stack| - 1 && EscapedOnce(stack[k], stack[k + 1])
  }

  /** A step that, when it returns, returns its text with one backslash
      inserted. */
  ghost predicate Inserts(escape: Escaper) {
    forall text, e :: escape(text, e).Returned? ==> EscapedOnce(text, escape(text, e).value)
  }

  /** `token` is such a step. */
  lemma TokenInserts()
    ensures Inserts(Token)
  {
    forall text, e | Token(text, e).Returned?
      ensures EscapedOnce(text, Token(text, e).value)
    {
    }
  }

  /** A text pushed as the escape of the last one stays its escape in any
      longer stack. */
  lemma EscapedStep(stack: seq<string>, escaped: string, longer: seq<string>)
    requires |stack| > 0 && EscapedOnce(stack[|stack| - 1], escaped)
    requires stack + [escaped] <= longer
    ensures EscapedAt(longer, |stack| - 1)
  {
    assert longer[|stack| - 1] == stack[|stack| - 1] && longer[|stack|] == escaped;
  }

  /** With a step that inserts one backslash, each text recovery pushes is
      the one before it with a single backslash inserted. */
  lemma {:induction false} RecoverStack(parse: Parser, escape: Escaper, stack: seq<string>, errors: seq<SyntaxError>, budget: nat)
    requires |stack| > 0 && Inserts(escape)
    ensures var run := Recover(parse, escape, stack, errors, budget);
            forall k :: |stack| - 1 <= k < |run.stack| - 1 ==> EscapedAt(run.stack, k)
    decreases budget
  {
    if budget > 0 && |errors| > 0 {
      var step := escape(stack[|stack| - 1], errors[|errors| - 1]);
      if step.Returned? {
        var parsed := parse(step.value);
        var next := stack + [step.value];
        if parsed.errors.Some? {
          var more := errors + parsed.errors.value;
          RecoverStack(parse, escape, next, more, budget - 1);
          RecoverPrefix(parse, escape, next, more, budget - 1);
          EscapedStep(stack, step.value, Recover(parse, escape, next, more, budget - 1).stack);
        } else {
          EscapedStep(stack, step.value, next);
        }
      }
    }
  }

  /** Recovery never drops or reorders an error: the result is the errors it
      started with followed by what each parse of a new text reported, in the
      order of the texts. */
  lemma {:induction false} RecoverErrors(parse: Parser, escape: Escaper, stack: seq<string>, errors: seq<SyntaxError>, budget: nat)
    requires |stack| > 0
    ensures var run := Recover(parse, escape, stack, errors, budget);
            run.errors == errors + Reports(parse, run.stack, |stack|)
    decreases budget
  {
    if budget > 0 && |errors| > 0 {
      var step := escape(stack[|stack| - 1], errors[|errors| - 1]);
      if step.Returned? {
        var parsed := parse(step.value);
        var next := stack + [step.value];
        if parsed.errors.Some? {
          var more := errors + parsed.errors.value;
          RecoverErrors(parse, escape, next, more, budget - 1);
          RecoverPrefix(parse, escape, next, more, budget - 1);
          var run := Recover(parse, escape, next, more, budget - 1);
          assert run.stack[|stack|] == step.value;
          assert Reports(parse, run.stack, |stack|) == parsed.errors.value + Reports(parse, run.stack, |next|);
        } else {
          assert Reports(parse, next, |stack|) == [] + Reports(parse, next, |next|);
        }
      }
    }
  }

  /** The loop goes on while the re-parses fail: every pushed text but the
      last was reported with errors. `RecoverStopsOnlyWhen` is the converse. */
  lemma {:induction false} RecoverContinuesWhileFailing(parse: Parser, escape: Escaper, stack: seq<string>, errors: seq<SyntaxError>, budget: nat)
    requires |stack| > 0
    ensures var run := Recover(parse, escape, stack, errors, budget);
            forall k :: |stack| <= k < |run.stack| - 1 ==> parse(run.stack[k]).errors.Some?
    decreases budget
  {
    if budget > 0 && |errors| > 0 {
      var step := escape(stack[|stack| - 1], errors[|errors| - 1]);
      if step.Returned? {
        var parsed := parse(step.value);
        var next := stack + [step.value];
        if parsed.errors.Some? {
          var more := errors + parsed.errors.value;
          RecoverContinuesWhileFailing(parse, escape, next, more, budget - 1);
          RecoverPrefix(parse, escape, next, more, budget - 1);
          assert Recover(parse, escape, next, more, budget - 1).stack[|stack|] == step.value;
        }
      }
    }
  }

  /** The loop stops only for the reasons the source has: a clean re-parse,
      an exhausted budget, an empty error list, or a step that throws. It
      hangs only when the step on the last text and the last error never
      returns. */
  lemma {:induction false} RecoverStopsOnlyWhen(parse: Parser, escape: Escaper, stack: seq<string>, errors: seq<SyntaxError>, budget: nat)
    requires |stack| > 0
    ensures var run := Recover(parse, escape, stack, errors, budget);
            && |run.stack| > 0
            && (var last := run.stack[|run.stack| - 1];
                && (!run.hangs && |run.stack| - |stack| < budget && (|run.stack| == |stack| || parse(last).errors.Some?) ==>
                      |run.errors| == 0 || escape(last, run.errors[|run.errors| - 1]).Threw?)
                && (run.hangs ==> |run.errors| > 0 && escape(last, run.errors[|run.errors| - 1]).Diverges?))
    decreases budget
  {
    if budget > 0 && |errors| > 0 {
      var step := escape(stack[|stack| - 1], errors[|errors| - 1]);
      if step.Returned? {
        var parsed := parse(step.value);
        var next := stack + [step.value];
        if parsed.errors.Some? {
          var more := errors + parsed.errors.value;
          RecoverStopsOnlyWhen(parse, escape, next, more, budget - 1);
          RecoverPrefix(parse, escape, next, more, budget - 1);
        }
      }
    }
  }

  /** With a parser that always fails and a step that always returns, the
      loop runs its whole budget: it parses exactly `budget` new texts. */
  lemma {:induction false} RecoverRunsFullBudget(parse: Parser, escape: Escaper, stack: seq<string>, errors: seq<SyntaxError>, budget: nat)
    requires |stack| > 0 && |errors| > 0
    requires forall t :: parse(t).errors.Some?
    requires forall t, e :: escape(t, e).Returned?
    ensures var run := Recover(parse, escape, stack, errors, budget);
            |run.stack| == |stack| + budget && !run.hangs
    decreases budget
  {
    if budget > 0 {
      var step := escape(stack[|stack| - 1], errors[|errors| - 1]);
      var parsed := parse(step.value);
      RecoverRunsFullBudget(parse, escape, stack + [step.value], errors + parsed.errors.value, budget - 1);
    }
  }

  /** A parser that reports at least one error whenever it fails, and whose
      errors name the character that stands at their offset. */
  ghost predicate Faithful(parse: Parser) {
    forall t :: parse(t).errors.Some? ==>
      |parse(t).errors.value| > 0 &&
      forall e :: e in parse(t).errors.value ==> Points(t, e)
  }

  /** `e` names the character of `text` at its start offset, when it names
      one and the offset is inside the text. */
  predicate Points(text: string, e: SyntaxError) {
    var at := e.location.start.offset;
    e.found.Some? && 0 <= at < |text| ==> text[at] == e.found.value
  }

  /** A step that always ends on an error that points into its text. */
  ghost predicate HaltsWhenPointed(escape: Escaper) {
    forall text, e :: Points(text, e) ==> !escape(text, e).Diverges?
  }

  /** `token` is such a step: its search only fails to end on a character
      other than the one reported. */
  lemma TokenHaltsWhenPointed()
    ensures HaltsWhenPointed(Token)
  {
    forall text, e | Points(text, e)
      ensures !Token(text, e).Diverges?
    {
      TokenOutcomes(text, e);
    }
  }

  /** Behind a faithful parser, recovery with a step that halts on pointed
      errors always ends, provided the error it starts from points into the
      section text. */
  lemma {:induction false} RecoverEndsWithFaithfulParser(parse: Parser, escape: Escaper, stack: seq<string>, errors: seq<SyntaxError>, budget: nat)
    requires |stack| > 0 && Faithful(parse) && HaltsWhenPointed(escape)
    requires |errors| > 0 ==> Points(stack[|stack| - 1], errors[|errors| - 1])
    ensures !Recover(parse, escape, stack, errors, budget).hangs
    decreases budget
  {
    if budget > 0 && |errors| > 0 {
      match escape(stack[|stack| - 1], errors[|errors| - 1])
      case Diverges =>
        assert false;
      case Threw(_) =>
      case Returned(escaped) =>
        var parsed := parse(escaped);
        if parsed.errors.Some? {
          var more := parsed.errors.value;
          assert more[|more| - 1] in more;
          var all := errors + more;
          assert all[|all| - 1] == more[|more| - 1];
          RecoverEndsWithFaithfulParser(parse, escape, stack + [escaped], all, budget - 1);
        }
    }
  }

  /** What `findErrors` returns: a section without an error list comes back
      as it is; otherwise the section with no success and every error recovery
      collected, starting from the section's text and its errors. */
  function FoundErrors(parse: Parser, message: Section): (r: Outcome<Section>)
    ensures !r.Threw?
    ensures message.result.errors.None? ==> r == Returned(message)
    ensures message.result.errors.Some? && r.Returned? ==>
              && r.value.location == message.location
              && Failed(r.value.result)
              && message.result.errors.value <= r.value.result.errors.value
  {
    match message.result.errors
    case None => Returned(message)
    case Some(error) =>
      var run := Recover(parse, Token, [message.location.text], error, IterationLimit);
      RecoverErrors(parse, Token, [message.location.text], error, IterationLimit);
      if run.hangs then Diverges
      else Returned(message.(result := ParseResult(None, Some(run.errors))))
  }

  /** `findErrors` with its `while` loop: the stack of texts and the error
      list grow as in the source, and every way out of the `try` block ends
      the loop with the errors collected so far. */
  method FindErrors(parse: Parser, message: Section) returns (r: Outcome<Section>)
    ensures r == FoundErrors(parse, message)
  {
    var error := message.result.errors;
    if error.None? {
      return Returned(message);
    }
    var stack := [message.location.text];
    var errors := error.value;
    ghost var run := Recover(parse, Token, stack, errors, IterationLimit);
    var i := 0;
    while i < IterationLimit
      invariant 0 <= i <= IterationLimit
      invariant |stack| > 0
      invariant Recover(parse, Token, stack, errors, IterationLimit - i) == run
    {
      if |errors| == 0 {
        break;
      }
      // token(stack[stack.length - 1], errors[errors.length - 1])
      var text, last := stack[|stack| - 1], errors[|errors| - 1];
      var location := FindToken(text, last.found, last.location.start.offset);
      if location.Diverges? {
        assert Token(text, last).Diverges?;
        return Diverges;
      }
      if location.Threw? {
        assert Token(text, last).Threw?;
        break;
      }
      var escaped := EscapeToken(text, location.value);
      assert Token(text, last) == escaped;
      if !escaped.Returned? {
        break;
      }
      stack := stack + [escaped.value];
      var parsed := parse(escaped.value);
      if parsed.errors.Some? {
        errors := errors + parsed.errors.value;
        i := i + 1;
      } else {
        assert run == Run(stack, errors, false);
        break;
      }
    }
    assert run.errors == errors && !run.hangs;
    return Returned(message.(result := ParseResult(None, Some(errors))));
  }

  /** The recovery loop escapes, parses and appends as the run describes:
      the section text is parsed at most fifty more times, each time one
      backslash longer, and the error list only grows by what those parses
      report. */
  lemma FoundErrorsRun(parse: Parser, message: Section)
    requires message.result.errors.Some?
    ensures var run := Recover(parse, Token, [message.location.text], message.result.errors.value, IterationLimit);
            && 1 <= |run.stack| <= IterationLimit + 1
            && run.stack[0] == message.location.text
            && (forall k :: 0 <= k < |run.stack| - 1 ==> |run.stack[k + 1]| == |run.stack[k]| + 1)
            && run.errors == message.result.errors.value + Reports(parse, run.stack, 1)
            && (forall k :: 1 <= k < |run.stack| - 1 ==> parse(run.stack[k]).errors.Some?)
            && (FoundErrors(parse, message).Returned? <==> !run.hangs)
            && (!run.hangs ==> FoundErrors(parse, message).value.result.errors == Some(run.errors))
  {
    var text, error := message.location.text, message.result.errors.value;
    TokenInserts();
    RecoverPrefix(parse, Token, [text], error, IterationLimit);
    RecoverStack(parse, Token, [text], error, IterationLimit);
    RecoverErrors(parse, Token, [text], error, IterationLimit);
    RecoverContinuesWhileFailing(parse, Token, [text], error, IterationLimit);
    var run := Recover(parse, Token, [text], error, IterationLimit);
    forall k | 0 <= k < |run.stack| - 1
      ensures |run.stack[k + 1]| == |run.stack[k]| + 1
    {
      assert EscapedAt(run.stack, k);
    }
  }

  /** `findErrors` returns whenever the parser is faithful and the
      section's last error points into the section text. */
  lemma FoundErrorsEnds(parse: Parser, message: Section)
    requires Faithful(parse)
    requires message.result.errors.Some? && |message.result.errors.value| > 0 ==>
               Points(message.location.text, message.result.errors.value[|message.result.errors.value| - 1])
    ensures FoundErrors(parse, message).Returned?
  {
    if message.result.errors.Some? {
      TokenHaltsWhenPointed();
      RecoverEndsWithFaithfulParser(parse, Token, [message.location.text], message.result.errors.value, IterationLimit);
    }
  }

  /** One round on `Q1 ~ A : B` with the colon reported at offset 7: the
      escaped text `Q1 ~ A \: B` is parsed, and if that parse is clean the
      section keeps its single error. */
  lemma ColonRoundTrip(parse: Parser)
    requires parse("Q1 ~ A \\: B").errors.None?
    ensures var e := SyntaxError(Some(':'), Span(Position(1, 7, 7), Position(1, 8, 8)));
            var s := Section(SectionLocation(1, "Q1 ~ A : B"), ParseResult(None, Some([e])));
            && Recover(parse, Token, ["Q1 ~ A : B"], [e], IterationLimit).stack == ["Q1 ~ A : B", "Q1 ~ A \\: B"]
            && FoundErrors(parse, s) == Returned(s)
  {
    ColonExample();
  }

  /** `handleSingleError`: a section whose error list is absent or has other
      than exactly one entry comes back as it is; one with a single error goes
      through recovery and both corrections, and comes out with at least that
      error, whose found character is kept and whose lines move into the
      document. */
  function HandleSingleError(parse: Parser, section: Section, originalText: string, lineEnding: string): (r: Outcome<Section>)
    ensures !r.Threw?
    ensures section.result.errors.None? || |section.result.errors.value| != 1 ==> r == Returned(section)
    ensures section.result.errors.Some? && |section.result.errors.value| == 1 && r.Returned? ==>
              var e, out := section.result.errors.value[0], r.value;
              && out.location == section.location
              && Failed(out.result)
              && |out.result.errors.value| >= 1
              && out.result.errors.value[0].found == e.found
              && out.result.errors.value[0].location.start.line == e.location.start.line + section.location.start - 1
              && out.result.errors.value[0].location.end.line == e.location.end.line + section.location.start - 1
  {
    var error := section.result.errors;
    if error.None? then Returned(section)
    else if |error.value| == 1 then
      match FoundErrors(parse, section)
      case Returned(found) =>
        var corrected := CorrectMessage(found, originalText, lineEnding);
        assert found.result.errors.value[0] == error.value[0];
        Returned(corrected)
      case Threw(e) => Threw(e)
      case Diverges => Diverges
    else Returned(section)
  }

  /** JavaScript's `\s`: the whitespace and line terminator characters. */
  predicate IsSpace(c: char) {
    || c == '\t' || c == '\n' || c == '\U{B}' || c == '\U{C}' || c == '\r' || c == ' '
    || c == '\U{A0}' || c == '\U{1680}' || '\U{2000}' <= c <= '\U{200A}'
    || c == '\U{2028}' || c == '\U{2029}' || c == '\U{202F}' || c == '\U{205F}'
    || c == '\U{3000}' || c == '\U{FEFF}'
  }

  /** Whether `/^\s*$/` matches: empty, or whitespace only. */
  predicate IsBlank(text: string) {
    forall i :: 0 <= i < |text| ==> IsSpace(text[i])
  }

  /** The sections `handleErrors` hands on, in order: those whose text is not blank. */
  function Kept(sections: seq<Section>): seq<Section> {
    if sections == [] then []
    else
      var last := sections[|sections| - 1];
      Kept(sections[..|sections| - 1]) + (if IsBlank(last.location.text) then [] else [last])
  }

  /** Keeping distributes over concatenation, so the kept sections appear in
      the order of the input. */
  lemma {:induction false} KeptAppend(a: seq<Section>, b: seq<Section>)
    ensures Kept(a + b) == Kept(a) + Kept(b)
    decreases |b|
  {
    if b != [] {
      var front := b[..|b| - 1];
      assert (a + b)[..|a + b| - 1] == a + front;
      KeptAppend(a, front);
    } else {
      assert a + b == a;
    }
  }

  /** A section is kept exactly when it is in the input and not blank. */
  lemma {:induction false} KeptMembers(sections: seq<Section>, s: Section)
    ensures s in Kept(sections) <==> s in sections && !IsBlank(s.location.text)
    decreases |sections|
  {
    if sections != [] {
      var front := sections[..|sections| - 1];
      KeptMembers(front, s);
      assert sections == front + [sections[|sections| - 1]];
    }
  }

  /** What a loop that skips the blank sections and hands each other one to
      `handle` returns: the handled sections in order, or the first outcome
      that is not a returned value. */
  function HandledWith(handle: Section -> Outcome<Section>, sections: seq<Section>): Outcome<seq<Section>>
    decreases |sections|
  {
    if sections == [] then Returned([])
    else
      var last := sections[|sections| - 1];
      match HandledWith(handle, sections[..|sections| - 1])
      case Returned(done) =>
        if IsBlank(last.location.text) then Returned(done)
        else
          (match handle(last)
           case Returned(h) => Returned(done + [h])
           case Threw(e) => Threw(e)
           case Diverges => Diverges)
      case Threw(e) => Threw(e)
      case Diverges => Diverges
  }

  /** The loop hands on exactly the kept sections: with a handler that never
      throws, it diverges exactly when the handler diverges on one of them,
      and otherwise returns one handled section per kept one, in order. */
  lemma {:induction false} HandledWithKept(handle: Section -> Outcome<Section>, sections: seq<Section>)
    requires forall s :: !handle(s).Threw?
    ensures !HandledWith(handle, sections).Threw?
    ensures HandledWith(handle, sections).Diverges? <==>
              exists j :: 0 <= j < |Kept(sections)| && handle(Kept(sections)[j]).Diverges?
    ensures HandledWith(handle, sections).Returned? ==>
              var out := HandledWith(handle, sections).value;
              && |out| == |Kept(sections)|
              && forall j :: 0 <= j < |out| ==> handle(Kept(sections)[j]) == Returned(out[j])
    decreases |sections|
  {
    if sections != [] {
      var front, last := sections[..|sections| - 1], sections[|sections| - 1];
      HandledWithKept(handle, front);
      var kept := Kept(sections);
      assert kept == Kept(front) + (if IsBlank(last.location.text) then [] else [last]);
      if HandledWith(handle, front).Diverges? {
        var j :| 0 <= j < |Kept(front)| && handle(Kept(front)[j]).Diverges?;
        assert kept[j] == Kept(front)[j];
      } else if HandledWith(handle, sections).Diverges? {
        assert kept[|kept| - 1] == last;
      } else if HandledWith(handle, sections).Returned? {
        assert forall j :: 0 <= j < |Kept(front)| ==> kept[j] == Kept(front)[j];
      }
    }
  }

  /** Once the loop stops without a value, the remaining sections change nothing. */
  lemma {:induction false} HandledWithPrefix(handle: Section -> Outcome<Section>, sections: seq<Section>, n: nat)
    requires n <= |sections|
    requires !HandledWith(handle, sections[..n]).Returned?
    ensures HandledWith(handle, sections) == HandledWith(handle, sections[..n])
    decreases |sections|
  {
    if n == |sections| {
      assert sections[..n] == sections;
    } else {
      var front := sections[..|sections| - 1];
      assert front[..n] == sections[..n];
      HandledWithPrefix(handle, front, n);
    }
  }

  /** `handleSingleError` with the parser and the document fixed. */
  function Handler(parse: Parser, originalText: string, lineEnding: string): Section -> Outcome<Section> {
    s => HandleSingleError(parse, s, originalText, lineEnding)
  }

  /** `handleErrors`: its `for...of` loop skips the blank sections and pushes
      the handled form of each other one, in order. A section whose handling
      never returns stops the whole run. */
  method HandleErrors(parse: Parser, parseArray: seq<Section>, originalText: string, lineEnding: string)
    returns (out: Outcome<seq<Section>>)
    ensures out == HandledWith(Handler(parse, originalText, lineEnding), parseArray)
  {
    var result: seq<Section> := [];
    for n := 0 to |parseArray|
      invariant HandledWith(Handler(parse, originalText, lineEnding), parseArray[..n]) == Returned(result)
    {
      var item := parseArray[n];
      assert parseArray[..n + 1][..n] == parseArray[..n];
      if !IsBlank(item.location.text) {
        var handled := HandleSingleError(parse, item, originalText, lineEnding);
        if !handled.Returned? {
          assert HandledWith(Handler(parse, originalText, lineEnding), parseArray[..n + 1]) == Diverges;
          HandledWithPrefix(Handler(parse, originalText, lineEnding), parseArray, n + 1);
          return Diverges;
        }
        result := result + [handled.value];
      }
    }
    assert parseArray[..|parseArray|] == parseArray;
    return Returned(result);
  }

  /** What `handleErrors` returns: it never throws; it diverges exactly when
      `handleSingleError` diverges on a section that is not blank; otherwise
      it holds one handled section per non-blank section, in order. */
  lemma HandleErrorsKeepsOrder(parse: Parser, parseArray: seq<Section>, originalText: string, lineEnding: string)
    ensures var out := HandledWith(Handler(parse, originalText, lineEnding), parseArray);
            && !out.Threw?
            && (out.Diverges? <==>
                  exists j :: 0 <= j < |Kept(parseArray)| &&
                    HandleSingleError(parse, Kept(parseArray)[j], originalText, lineEnding).Diverges?)
            && (out.Returned? ==>
                  && |out.value| == |Kept(parseArray)|
                  && forall j :: 0 <= j < |out.value| ==>
                       HandleSingleError(parse, Kept(parseArray)[j], originalText, lineEnding) == Returned(out.value[j]))
  {
    var handle := Handler(parse, originalText, lineEnding);
    assert forall s :: handle(s) == HandleSingleError(parse, s, originalText, lineEnding);
    HandledWithKept(handle, parseArray);
  }
}
