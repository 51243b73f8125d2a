/** The translate command of `ProcessMessage`: parsing
    `Translate <text> to <language>[, <language>...]`, and translating the text
    into each requested language in turn through the translation service. */
module Translation {
  import opened Wrappers
  import opened Strings
  import opened Exceptions
  import opened Languages

  // ---------------------------------------------------------------------------
  // The translation service
  // ---------------------------------------------------------------------------

  /** What one request to the translation service comes back with. */
  datatype ServiceResponse =
    | Translated(text: string)     // a success status; the first translation's text
    | NonSuccess(status: string)   // any other status, printed by name
    | Faulted(message: string)     // the HTTP client or the JSON reader threw

  /** The service, as an oracle from (text, target code) to its response. It
      does not see the call's position, so repeating a call within one
      request repeats its response. */
  type TranslationService = (string, string) -> ServiceResponse

  /** `TranslationPlugin.TranslateTextAsync`: the translated text, or the
      exception it throws. */
  function TranslateText(service: TranslationService, text: string, code: string): Result<string, Exception>
  {
    match service(text, code)
    case Translated(t) => Success(t)
    case NonSuccess(status) => Failure(ServiceFault("Translation API call failed. Status code: " + status))
    case Faulted(m) => Failure(ServiceFault(m))
  }

  // ---------------------------------------------------------------------------
  // Parsing the command
  // ---------------------------------------------------------------------------

  const Keyword := "Translate"
  const Separator := " to "
  /** `Substring(10)`: the keyword and whatever single character follows it. */
  const SkippedPrefix := 10

  datatype Parsed =
    | TooShort                                        // `Substring(10)` throws
    | Malformed                                       // not exactly two non-empty parts
    | Request(text: string, targets: seq<string>)

  /** Lines 117-121 of the bot, applied to the trimmed input that starts with
      the keyword: drop ten characters, split on every " to " dropping empty
      pieces, demand exactly two, trim the text, split the second piece on
      commas and trim each language. */
  function ParseTranslate(input: string): (r: Parsed)
    ensures r.TooShort? <==> |input| < SkippedPrefix
    ensures r.Request? ==> IsTrimmed(r.text) && |r.targets| >= 1
    ensures r.Request? ==> forall k :: 0 <= k < |r.targets| ==> IsTrimmed(r.targets[k])
  {
    if |input| < SkippedPrefix then TooShort
    else
      var parts := RemoveEmpty(Split(input[SkippedPrefix..], Separator));
      if |parts| != 2 then Malformed
      else Request(Trim(parts[0]), TrimAll(Split(parts[1], ",")))
  }

  lemma NoOccurrence(s: string, sep: string)
    requires !Contains(s, sep)
    ensures IndexOf(s, sep, 0).None?
  {
    forall j
      ensures !OccursAt(s, sep, j)
    {
    }
  }

  /** A command with no " to " after its first ten characters is rejected. */
  lemma ParseWithoutSeparator(input: string)
    requires |input| >= SkippedPrefix && !Contains(input[SkippedPrefix..], Separator)
    ensures ParseTranslate(input) == Malformed
  {
    NoOccurrence(input[SkippedPrefix..], Separator);
  }

  /** Every " to " splits: a remainder with two of them, between non-empty
      pieces, gives three parts and is rejected, although the first piece
      would be a sensible text and the rest a sensible language list. */
  lemma ParseThreePieces(input: string, a: string, b: string, c: string)
    requires |input| >= SkippedPrefix && input[SkippedPrefix..] == a + Separator + b + Separator + c
    requires a != [] && b != [] && c != []
    requires !Contains(a + " to", Separator) && !Contains(b + " to", Separator) && !Contains(c, Separator)
    ensures ParseTranslate(input) == Malformed
  {
    assert a + Separator + b + Separator + c == a + Separator + (b + Separator + c);
    SplitLeading(a, b + Separator + c);
    SplitAtSeparator(b, c);
    assert RemoveEmpty([a, b, c]) == [a, b, c];
  }

  lemma NotContainsShort(s: string)
    requires |s| == |Separator| && s[0] != ' '
    ensures !Contains(s, Separator)
  {
    forall i | 0 <= i <= |s|
      ensures !OccursAt(s, Separator, i)
    {
      if i == 0 {
        assert s[0..4][0] != Separator[0];
      }
    }
  }

  /** "Translate a to b to c" is rejected. */
  lemma ChainedSeparatorsRejected()
    ensures ParseTranslate("Translate a to b to c") == Malformed
  {
    var input := "Translate a to b to c";
    assert input[SkippedPrefix..] == "a" + Separator + "b" + Separator + "c";
    NoOccurrence("c", Separator);
    NotContainsShort("a to");
    NotContainsShort("b to");
    assert "a" + " to" == "a to" && "b" + " to" == "b to";
    ParseThreePieces(input, "a", "b", "c");
  }

  lemma SeparatorStartsWithSpace(s: string, i: int)
    ensures OccursAt(s, Separator, i) ==> s[i] == ' '
  {
    if OccursAt(s, Separator, i) {
      assert s[i..i + 4][0] == s[i];
    }
  }

  /** " to " overlaps itself, and the split takes its leftmost occurrence:
      in "Translate x to to de" the text is "x" and the one language is
      "to de", not the text "x to" with the language "de". */
  lemma OverlappingSeparator()
    ensures ParseTranslate("Translate x to to de") == Request("x", ["to de"])
  {
    var input := "Translate x to to de";
    assert input[SkippedPrefix..] == "x" + Separator + "to de";
    NotContainsShort("x to");
    assert "x" + " to" == "x to";
    LanguageWithTo();
    ParseOneLanguage(input, "x", "to de");
  }

  /** A remainder of a trimmed text, " to " and one trimmed language with no
      comma parses into that text and language. */
  lemma ParseOneLanguage(input: string, text: string, language: string)
    requires |input| >= SkippedPrefix && input[SkippedPrefix..] == text + Separator + language
    requires text != [] && IsTrimmed(text) && !Contains(text + " to", Separator)
    requires language != [] && IsTrimmed(language) && !Contains(language, Separator)
    requires Split(language, ",") == [language]
    ensures ParseTranslate(input) == Request(text, [language])
  {
    ParseTwoPieces(input, text, language);
    TrimOfTrimmed(text);
    TrimOfTrimmed(language);
    assert TrimAll([language]) == [language];
  }

  /** "to de" holds no " to " and no comma. */
  lemma LanguageWithTo()
    ensures !Contains("to de", Separator) && Split("to de", ",") == ["to de"]
  {
    var joined := "to de";
    forall i | 0 <= i <= |joined|
      ensures !OccursAt(joined, Separator, i)
    {
      if i <= 1 {
        assert joined[i] != ' ';
        SeparatorStartsWithSpace(joined, i);
      }
    }
    forall i | 0 <= i <= |joined|
      ensures !OccursAt(joined, [','], i)
    {
      OccursAtChar(joined, ',', i);
    }
    assert [','] == ",";
    NoOccurrence(joined, ",");
  }

  /** Every language after the first, preceded by the space of ", ". */
  function Spaced(targets: seq<string>): (r: seq<string>)
    ensures |r| == |targets|
  {
    seq(|targets|, k requires 0 <= k < |targets| => " " + targets[k])
  }

  lemma JoinPrefixed(p: string, x: string, rest: seq<string>, sep: string)
    ensures Join([p + x] + rest, sep) == p + Join([x] + rest, sep)
  {
    if |rest| > 0 {
      assert ([p + x] + rest)[1..] == rest;
      assert ([x] + rest)[1..] == rest;
    }
  }

  /** Joining with ", " is joining with "," after prefixing all but the first
      language with a space. */
  lemma {:induction false} JoinCommaSpace(targets: seq<string>)
    requires |targets| >= 1
    ensures Join(targets, ", ") == Join([targets[0]] + Spaced(targets[1..]), ",")
    decreases |targets|
  {
    if |targets| > 1 {
      var tail := targets[1..];
      JoinCommaSpace(tail);
      assert tail[1..] == targets[2..];
      var spacedTail := Spaced(tail[1..]);
      assert Spaced(tail) == [" " + tail[0]] + spacedTail;
      JoinPrefixed(" ", tail[0], spacedTail, ",");
      assert ([targets[0]] + Spaced(tail))[1..] == Spaced(tail);
    }
  }

  /** A piece free of " to " (even when followed by " to") is split off the
      front of the remainder it is joined to. */
  lemma SplitLeading(text: string, rest: string)
    requires !Contains(text + " to", Separator)
    ensures Split(text + Separator + rest, Separator) == [text] + Split(rest, Separator)
  {
    var whole := text + Separator + rest;
    assert OccursAt(whole, Separator, |text|) by {
      assert whole[|text|..|text| + 4] == Separator;
    }
    forall j | 0 <= j < |text|
      ensures !OccursAt(whole, Separator, j)
    {
      OccursInPrefix(whole, Separator, |text| + 3, j);
      assert whole[..|text| + 3] == text + " to";
    }
    IndexOfFirst(whole, Separator, |text|);
    assert whole[..|text|] == text;
    assert whole[|text| + 4..] == rest;
  }

  /** Splitting `text + " to " + joined` on " to " gives the two pieces back
      when the text does not run into the separator and `joined` holds none. */
  lemma SplitAtSeparator(text: string, joined: string)
    requires !Contains(text + " to", Separator) && !Contains(joined, Separator)
    ensures Split(text + Separator + joined, Separator) == [text, joined]
  {
    SplitLeading(text, joined);
    NoOccurrence(joined, Separator);
  }


  lemma SpacedHasNoComma(targets: seq<string>)
    requires |targets| >= 1
    requires forall k :: 0 <= k < |targets| ==> ',' !in targets[k]
    ensures forall k :: 0 <= k < |targets| ==> ',' !in ([targets[0]] + Spaced(targets[1..]))[k]
  {
    var pieces := [targets[0]] + Spaced(targets[1..]);
    forall k | 1 <= k < |targets|
      ensures ',' !in pieces[k]
    {
      assert pieces[k] == " " + targets[k];
    }
  }

  lemma TrimSpaced(targets: seq<string>)
    requires |targets| >= 1
    requires forall k :: 0 <= k < |targets| ==> IsTrimmed(targets[k])
    ensures TrimAll([targets[0]] + Spaced(targets[1..])) == targets
  {
    var pieces := [targets[0]] + Spaced(targets[1..]);
    forall k | 0 <= k < |targets|
      ensures Trim(pieces[k]) == targets[k]
    {
      if k == 0 {
        TrimOfTrimmed(targets[0]);
      } else {
        assert pieces[k] == " " + targets[k] + "";
        TrimPadded(" ", targets[k], "");
      }
    }
  }

  /** The languages of a request, joined with ", ", are read back by splitting
      on commas and trimming. */
  lemma TargetsRoundTrip(targets: seq<string>)
    requires |targets| >= 1
    requires forall k :: 0 <= k < |targets| ==> IsTrimmed(targets[k]) && ',' !in targets[k]
    ensures TrimAll(Split(Join(targets, ", "), ",")) == targets
  {
    var pieces := [targets[0]] + Spaced(targets[1..]);
    JoinCommaSpace(targets);
    SpacedHasNoComma(targets);
    SplitJoin(pieces, ',');
    TrimSpaced(targets);
  }

  /** The two ways of writing the command: `Translate hello to de`, and the
      one the usage text on line 172 shows, `Translate: hello to de`. */
  datatype Form = Plain | Colon

  /** What is left of the tenth character onwards before the text: nothing
      in the plain form, the space after the colon in the colon form. */
  function Lead(form: Form): (lead: string)
    ensures AllWhiteSpace(lead)
  {
    match form
    case Plain => ""
    case Colon => " "
  }

  /** The command a user types for a request, in either form. */
  function Render(form: Form, text: string, targets: seq<string>): (command: string)
    ensures |command| >= SkippedPrefix
    ensures command[SkippedPrefix..] == Lead(form) + text + Separator + Join(targets, ", ")
    ensures StartsWithIgnoreCase(command, Keyword)
  {
    var command := Keyword + (if form == Plain then " " else ": ") + text + Separator + Join(targets, ", ");
    assert command[..9] == Keyword;
    command
  }

  /** A rendered command is already trimmed when its last language is. */
  lemma RenderTrimmed(form: Form, text: string, targets: seq<string>)
    requires |targets| >= 1 && targets[|targets| - 1] != [] && IsTrimmed(targets[|targets| - 1])
    ensures IsTrimmed(Render(form, text, targets)) && Trim(Render(form, text, targets)) == Render(form, text, targets)
  {
    var joined := Join(targets, ", ");
    JoinEndsWithLast(targets, ", ");
    var command := Render(form, text, targets);
    assert command[|command| - |joined|..] == joined;
    assert command[|command| - 1] == joined[|joined| - 1];
    assert command[0] == 'T';
    TrimOfTrimmed(command);
  }

  /** A command whose remainder is a text, " to ", and a list holding no
      " to " parses into that text and list, trimmed. */
  lemma ParseTwoPieces(input: string, text: string, joined: string)
    requires |input| >= SkippedPrefix && input[SkippedPrefix..] == text + Separator + joined
    requires text != [] && joined != []
    requires !Contains(text + " to", Separator) && !Contains(joined, Separator)
    ensures ParseTranslate(input) == Request(Trim(text), TrimAll(Split(joined, ",")))
  {
    SplitAtSeparator(text, joined);
    assert RemoveEmpty([text, joined]) == [text, joined];
  }

  /** The request a user writes in either form is read back exactly: text and
      languages survive a render-then-parse round trip, provided the text is
      trimmed and, with what precedes it in the remainder, does not run into
      the first " to ", and the languages
      are trimmed, non-empty, free of commas and of " to ". */
  lemma ParseRequest(form: Form, text: string, targets: seq<string>)
    requires text != [] && IsTrimmed(text) && !Contains(Lead(form) + text + " to", Separator)
    requires |targets| >= 1
    requires forall k :: 0 <= k < |targets| ==> targets[k] != [] && IsTrimmed(targets[k]) && ',' !in targets[k]
    requires !Contains(Join(targets, ", "), Separator)
    ensures ParseTranslate(Render(form, text, targets)) == Request(text, targets)
  {
    ParsePadded(Render(form, text, targets), Lead(form), text, targets);
  }

  /** The remainder after the skipped prefix is white space, the text, " to "
      and the languages: it parses into exactly that text and those
      languages. */
  lemma ParsePadded(input: string, lead: string, text: string, targets: seq<string>)
    requires |input| >= SkippedPrefix && input[SkippedPrefix..] == lead + text + Separator + Join(targets, ", ")
    requires AllWhiteSpace(lead) && text != [] && IsTrimmed(text) && !Contains(lead + text + " to", Separator)
    requires |targets| >= 1
    requires forall k :: 0 <= k < |targets| ==> targets[k] != [] && IsTrimmed(targets[k]) && ',' !in targets[k]
    requires !Contains(Join(targets, ", "), Separator)
    ensures ParseTranslate(input) == Request(text, targets)
  {
    var joined := Join(targets, ", ");
    assert joined != [] by {
      if |targets| > 1 {
        assert joined == targets[0] + ", " + Join(targets[1..], ", ");
      }
    }
    ParseTwoPieces(input, lead + text, joined);
    TrimPadded(lead, text, []);
    assert lead + text + [] == lead + text;
    TargetsRoundTrip(targets);
  }

  // ---------------------------------------------------------------------------
  // Translating into each requested language
  // ---------------------------------------------------------------------------

  /** One call of the translation service, as the trace records it. */
  datatype TranslateCall = TranslateCall(text: string, code: string)

  /** What the loop body works with: the table, the reverse lookup built from
      it, the service, and the trimmed text. */
  datatype Context = Context(
    table: LanguageTable,
    reverse: map<string, string>,
    service: TranslationService,
    text: string)

  /** What happens to one requested language. */
  datatype Step =
    | Unsupported                                 // neither a name nor a code
    | Done(code: string, translation: string)     // translated
    | Failed(code: string, error: Exception)      // the service threw

  function StepFor(ctx: Context, token: string): Step
  {
    match Resolve(ctx.table, ctx.reverse, token)
    case None => Unsupported
    case Some(code) =>
      match TranslateText(ctx.service, ctx.text, code)
      case Success(t) => Done(code, t)
      case Failure(e) => Failed(code, e)
  }

  /** The result line a step that did not throw adds (lines 147 and 153). */
  function LineFor(token: string, step: Step): string
    requires !step.Failed?
  {
    if step.Unsupported? then "The language '" + token + "' is not supported."
    else "Translated to " + token + ": " + step.translation
  }

  /** The service calls of the given tokens, in order: one per resolved token,
      none for an unsupported one. */
  function CallsFor(ctx: Context, tokens: seq<string>): seq<TranslateCall>
  {
    if |tokens| == 0 then []
    else
      var head := match Resolve(ctx.table, ctx.reverse, tokens[0])
        case None => []
        case Some(code) => [TranslateCall(ctx.text, code)];
      head + CallsFor(ctx, tokens[1..])
  }

  lemma CallsForCons(ctx: Context, tokens: seq<string>)
    requires |tokens| > 0
    ensures CallsFor(ctx, tokens) == CallsFor(ctx, [tokens[0]]) + CallsFor(ctx, tokens[1..])
  {
    assert [tokens[0]][1..] == [];
  }

  /** Token `k` is the first whose translation throws. */
  ghost predicate FailsFirstAt(ctx: Context, tokens: seq<string>, k: int)
  {
    && 0 <= k < |tokens|
    && StepFor(ctx, tokens[k]).Failed?
    && forall i :: 0 <= i < k ==> !StepFor(ctx, tokens[i]).Failed?
  }

  /** How the batch of lines 126-162 ends, with the calls it made. */
  datatype Batch =
    | Completed(lines: seq<string>, calls: seq<TranslateCall>)
    | Aborted(error: Exception, calls: seq<TranslateCall>)

  /** The `foreach` of lines 130-155: a line per token in request order, until
      the first exception, which abandons the remaining tokens. */
  function TranslateEach(ctx: Context, tokens: seq<string>): (b: Batch)
    decreases |tokens|
  {
    if |tokens| == 0 then Completed([], [])
    else
      var step := StepFor(ctx, tokens[0]);
      var call := CallsFor(ctx, [tokens[0]]);
      match step
      case Failed(_, e) => Aborted(e, call)
      case _ =>
        match TranslateEach(ctx, tokens[1..])
        case Completed(lines, calls) => Completed([LineFor(tokens[0], step)] + lines, call + calls)
        case Aborted(e, calls) => Aborted(e, call + calls)
  }

  /** The batch completes exactly when no token's translation throws, and
      then holds one line per token, in request order, having called the
      service once per resolved token and never for an unsupported one. */
  lemma {:induction false} TranslateEachCompletes(ctx: Context, tokens: seq<string>)
    ensures TranslateEach(ctx, tokens).Completed? <==> forall k :: 0 <= k < |tokens| ==> !StepFor(ctx, tokens[k]).Failed?
    ensures TranslateEach(ctx, tokens).Completed? ==>
      && |TranslateEach(ctx, tokens).lines| == |tokens|
      && (forall k :: 0 <= k < |tokens| ==> TranslateEach(ctx, tokens).lines[k] == LineFor(tokens[k], StepFor(ctx, tokens[k])))
      && TranslateEach(ctx, tokens).calls == CallsFor(ctx, tokens)
    decreases |tokens|
  {
    if |tokens| > 0 {
      var tail := tokens[1..];
      TranslateEachCompletes(ctx, tail);
      CallsForCons(ctx, tokens);
      assert forall k :: 1 <= k < |tokens| ==> tokens[k] == tail[k - 1];
    }
  }

  /** A batch that throws stops at the first token whose translation throws,
      reports that exception, and has called the service for the resolved
      tokens up to and including that one only. */
  lemma {:induction false} TranslateEachAborts(ctx: Context, tokens: seq<string>)
    requires TranslateEach(ctx, tokens).Aborted?
    ensures exists k ::
      && FailsFirstAt(ctx, tokens, k)
      && TranslateEach(ctx, tokens).error == StepFor(ctx, tokens[k]).error
      && TranslateEach(ctx, tokens).calls == CallsFor(ctx, tokens[..k + 1])
    decreases |tokens|
  {
    var step := StepFor(ctx, tokens[0]);
    if step.Failed? {
      assert FailsFirstAt(ctx, tokens, 0);
      assert tokens[..1] == [tokens[0]];
    } else {
      var tail := tokens[1..];
      TranslateEachAborts(ctx, tail);
      var b := TranslateEach(ctx, tail);
      var k :| FailsFirstAt(ctx, tail, k) && b.error == StepFor(ctx, tail[k]).error && b.calls == CallsFor(ctx, tail[..k + 1]);
      assert forall i :: 1 <= i < |tokens| ==> tokens[i] == tail[i - 1];
      assert FailsFirstAt(ctx, tokens, k + 1);
      var prefix := tokens[..k + 2];
      assert prefix[0] == tokens[0] && prefix[1..] == tail[..k + 1];
      CallsForCons(ctx, prefix);
    }
  }

  /** Every call the batch makes translates the request's text into the code
      some requested token resolved to. */
  lemma {:induction false} CallsResolved(ctx: Context, tokens: seq<string>)
    ensures forall c :: c in TranslateEach(ctx, tokens).calls ==>
      c.text == ctx.text && exists k :: 0 <= k < |tokens| && Resolve(ctx.table, ctx.reverse, tokens[k]) == Some(c.code)
    decreases |tokens|
  {
    if |tokens| > 0 {
      var tail := tokens[1..];
      CallsResolved(ctx, tail);
      assert forall k :: 1 <= k < |tokens| ==> tokens[k] == tail[k - 1];
      var head := CallsFor(ctx, [tokens[0]]);
      assert [tokens[0]][1..] == [];
      assert CallsFor(ctx, [tokens[0]][1..]) == [];
      match Resolve(ctx.table, ctx.reverse, tokens[0])
      case None => assert head == [];
      case Some(code) => assert head == [TranslateCall(ctx.text, code)];
    }
  }

  /** Lines 126-162 without the final join: a null table or two display names
      equal up to case throw before any language is tried. */
  function RunBatch(table: Option<LanguageTable>, service: TranslationService, text: string, tokens: seq<string>): (b: Batch)
    ensures table.None? ==> b == Aborted(ArgumentNull("source"), [])
    ensures table.Some? && !DistinctLowerNames(table.value) ==> b.Aborted? && b.calls == [] && b.error.DuplicateKey?
  {
    match table
    case None => Aborted(ArgumentNull("source"), [])
    case Some(t) =>
      ReverseSucceeds(t);
      match BuildReverse(t)
      case Failure(e) => Aborted(e, [])
      case Success(reverse) => TranslateEach(Context(t, reverse, service, text), tokens)
  }

  /** The service is only ever asked for the request's text in a canonical
      code of the table: a name resolves to its entry's code, lower-cased, and
      a code only when it is one already. */
  lemma CallsCanonical(table: Option<LanguageTable>, service: TranslationService, text: string, tokens: seq<string>)
    ensures forall c :: c in RunBatch(table, service, text, tokens).calls ==>
      table.Some? && c.text == text && IsCanonicalCode(table.value, c.code)
  {
    if table.Some? && BuildReverse(table.value).Success? {
      var ctx := Context(table.value, BuildReverse(table.value).value, service, text);
      CallsResolved(ctx, tokens);
      forall c | c in RunBatch(table, service, text, tokens).calls
        ensures IsCanonicalCode(table.value, c.code)
      {
        var k :| 0 <= k < |tokens| && Resolve(ctx.table, ctx.reverse, tokens[k]) == Some(c.code);
        ResolutionOrder(ctx.table, ctx.reverse, tokens[k]);
      }
    }
  }
}
