/** `SemanticKernelBot`: the welcome sent when members join, and
    `ProcessMessage`, which answers empty input with nothing, intercepts the
    translate and "Show languages" commands, and hands everything else to the
    planner together with the plugins imported for the turn. */
module Bot {
  import opened Wrappers
  import opened Strings
  import opened Exceptions
  import opened Channel
  import opened Languages
  import opened Translation
  import opened Plugins

  /** The bot's configuration and injected services, read-only across turns. */
  datatype BotConfig = BotConfig(
    welcomeMessage: string,
    suggestedQuestions: Option<seq<string>>,   // null when the setting is the JSON `null`
    useStepwisePlanner: bool,
    services: Services,
    supportedLanguages: Option<LanguageTable>) // null when the section is missing

  datatype Strategy = FunctionCallingStepwise | Handlebars

  /** The `MaxTokens` both planners are configured with. */
  const PlannerMaxTokens := 128000

  /** What the planner is given: the registry and the planning strategy. The
      plan it makes and the answer it returns are left to the language model. */
  datatype PlanRequest = PlanRequest(plugins: seq<Plugin>, strategy: Strategy, maxTokens: nat)

  datatype Outcome =
    | Returned(text: string)       // the string the handler returns
    | Finished                     // a handler without a result returned normally
    | Crashed(error: Exception)    // an exception escaped the handler
    | Planned(request: PlanRequest) // the handler returns the planner's answer

  /** One handled activity: the messages sent to the channel, in order, the
      calls made to the translation service, in order, and how it ended. */
  datatype Turn = Turn(sent: seq<Message>, calls: seq<TranslateCall>, outcome: Outcome)

  const InvalidRequestMessage := "Invalid translation request. Use the format: 'Translate: [text] to [language1, language2,...]'."
  const FailedTranslationMessage := "Failed to translate text. Please ensure the input format is correct."
  const NoValidLanguagesMessage := "No valid languages were specified."
  const ShowLanguagesCommand := "Show languages"
  const LanguagesDisplayed := "Displayed supported languages."

  // ---------------------------------------------------------------------------
  // Welcome
  // ---------------------------------------------------------------------------

  function ActionValues(actions: seq<CardAction>): (values: seq<string>)
  {
    seq(|actions|, i requires 0 <= i < |actions| => actions[i].value)
  }

  /** One post-back action per suggested question, carrying the question as
      its value, in order. */
  function WelcomeActions(questions: seq<string>): (actions: seq<CardAction>)
    ensures forall i :: 0 <= i < |actions| ==> actions[i].actionType == PostBack
    ensures ActionValues(actions) == questions
  {
    seq(|questions|, i requires 0 <= i < |questions| => CardAction(PostBack, questions[i]))
  }

  /** `OnMembersAddedAsync`: one message with the welcome text and one
      post-back action per suggested question, in configured order; a null
      question list throws before anything is sent. */
  function OnMembersAdded(config: BotConfig): (turn: Turn)
    ensures config.suggestedQuestions.Some? ==>
      && |turn.sent| == 1 && turn.sent[0].SuggestionMessage?
      && turn.sent[0].text == config.welcomeMessage
      && ActionValues(turn.sent[0].actions) == config.suggestedQuestions.value
      && (forall a :: a in turn.sent[0].actions ==> a.actionType == PostBack)
    ensures config.suggestedQuestions.Some? ==> turn.outcome == Finished
    ensures config.suggestedQuestions.None? ==> turn.sent == [] && turn.outcome == Crashed(ArgumentNull("source"))
    ensures turn.calls == []
  {
    match config.suggestedQuestions
    case None => Turn([], [], Crashed(ArgumentNull("source")))
    case Some(questions) => Turn([SuggestionMessage(config.welcomeMessage, WelcomeActions(questions))], [], Finished)
  }

  // ---------------------------------------------------------------------------
  // The translate command
  // ---------------------------------------------------------------------------

  /** Lines 156-162 and 169-174: the reply to a batch. */
  function BatchReply(batch: Batch): (turn: Turn)
    ensures turn.calls == batch.calls
    ensures turn.sent != [] <==> batch.Aborted?
    ensures turn.outcome.Returned?
  {
    match batch
    case Completed(lines, calls) =>
      if |lines| == 0 then Turn([], calls, Returned(NoValidLanguagesMessage))
      else Turn([], calls, Returned(Join(lines, "\n")))
    case Aborted(e, calls) =>
      Turn([TextMessage(FailedTranslationMessage)], calls, Returned("Error: " + Exceptions.Message(e)))
  }

  /** The "no valid languages" reply of line 158 is dead code: a request has
      at least one language, a completed batch has a line per language, and
      every such line starts with "T". */
  lemma NeverNoValidLanguages(table: Option<LanguageTable>, service: TranslationService, text: string, tokens: seq<string>)
    ensures |tokens| >= 1 ==> BatchReply(RunBatch(table, service, text, tokens)).outcome != Returned(NoValidLanguagesMessage)
  {
    assert NoValidLanguagesMessage[0] == 'N';
    var b := RunBatch(table, service, text, tokens);
    if |tokens| == 0 {
    } else if b.Completed? {
      var t := table.value;
      ReverseSucceeds(t);
      var ctx := Context(t, BuildReverse(t).value, service, text);
      TranslateEachCompletes(ctx, tokens);
      assert b.lines[0] == LineFor(tokens[0], StepFor(ctx, tokens[0]));
      assert b.lines[0][0] == 'T';
      assert Join(b.lines, "\n")[0] == 'T';
    } else {
      assert ("Error: " + Exceptions.Message(b.error))[0] == 'E';
    }
  }

  /** Lines 117-174, for a trimmed input that starts with the keyword and
      parses as given. */
  function TranslateCommand(table: Option<LanguageTable>, service: TranslationService, parsed: Parsed): (turn: Turn)
    ensures parsed.TooShort? ==> turn == Turn([], [], Crashed(ArgumentOutOfRange("startIndex")))
    ensures parsed.Malformed? ==> turn == Turn([TextMessage(InvalidRequestMessage)], [], Returned(""))
    ensures forall c :: c in turn.calls ==> table.Some? && IsCanonicalCode(table.value, c.code)
    ensures parsed.Request? && |parsed.targets| >= 1 ==> turn.outcome != Returned(NoValidLanguagesMessage)
    ensures !turn.outcome.Planned?
  {
    match parsed
    case TooShort => Turn([], [], Crashed(ArgumentOutOfRange("startIndex")))
    case Malformed => Turn([TextMessage(InvalidRequestMessage)], [], Returned(""))
    case Request(text, targets) =>
      CallsCanonical(table, service, text, targets);
      NeverNoValidLanguages(table, service, text, targets);
      BatchReply(RunBatch(table, service, text, targets))
  }

  // ---------------------------------------------------------------------------
  // Dispatch
  // ---------------------------------------------------------------------------

  function StrategyFor(useStepwisePlanner: bool): Strategy
  {
    if useStepwisePlanner then FunctionCallingStepwise else Handlebars
  }

  /** What the planner is given on lines 190-214: the registry, the planner
      the configuration selects, and its token limit. The human-interface
      plugin is registered exactly for the Handlebars planner. */
  function PlanFor(config: BotConfig): (request: PlanRequest)
    ensures request.plugins == SelectPlugins(config.services, config.useStepwisePlanner)
    ensures request.strategy == Handlebars <==> !config.useStepwisePlanner
    ensures DALLEPlugin in request.plugins
    ensures HumanInterfacePlugin in request.plugins <==> request.strategy == Handlebars
    ensures request.maxTokens == PlannerMaxTokens
  {
    PlanRequest(SelectPlugins(config.services, config.useStepwisePlanner), StrategyFor(config.useStepwisePlanner), PlannerMaxTokens)
  }

  /** A message that is neither empty nor one of the two commands. */
  predicate IsPlannerInput(text: Option<string>)
  {
    && text.Some? && text.value != ""
    && !StartsWithIgnoreCase(Trim(text.value), Keyword)
    && !EqualsIgnoreCase(Trim(text.value), ShowLanguagesCommand)
  }

  /** `ProcessMessage`, after the typing indicator and the upload handling:
      empty input returns "" and does nothing; otherwise the trimmed input is
      checked for the translate command, then for "Show languages", and
      anything else goes to the planner. Only the translate command calls the
      translation service, and then only with canonical codes; the planner
      always has the image plugin, and has the human-interface plugin exactly
      when it is the Handlebars planner. */
  function ProcessMessage(config: BotConfig, text: Option<string>, service: TranslationService): (turn: Turn)
    ensures text.None? || text.value == "" ==> turn == Turn([], [], Returned(""))
    ensures turn.calls != [] ==> text.Some? && StartsWithIgnoreCase(Trim(text.value), Keyword)
    ensures forall c :: c in turn.calls ==>
      config.supportedLanguages.Some? && IsCanonicalCode(config.supportedLanguages.value, c.code)
    ensures turn.outcome != Returned(NoValidLanguagesMessage)
    ensures turn.outcome.Planned? <==> IsPlannerInput(text)
    ensures turn.outcome.Planned? ==>
      turn.sent == [] && turn.calls == [] && turn.outcome.request == PlanFor(config)
  {
    if text.None? || text.value == "" then Turn([], [], Returned(""))
    else
      var input := Trim(text.value);
      if StartsWithIgnoreCase(input, Keyword) then TranslateCommand(config.supportedLanguages, service, ParseTranslate(input))
      else if EqualsIgnoreCase(input, ShowLanguagesCommand) then
        Turn([TextMessage(DisplaySupportedLanguages(config.supportedLanguages))], [], Returned(LanguagesDisplayed))
      else Turn([], [], Planned(PlanFor(config)))
  }

  /** "Show languages", in any case and with any surrounding white space,
      sends the listing (or the fallback text) and reports it: it is not
      mistaken for a translate command, and the translation service is not
      called. */
  lemma ShowLanguagesReply(config: BotConfig, text: string, service: TranslationService)
    requires EqualsIgnoreCase(Trim(text), ShowLanguagesCommand)
    ensures ProcessMessage(config, Some(text), service)
      == Turn([TextMessage(DisplaySupportedLanguages(config.supportedLanguages))], [], Returned(LanguagesDisplayed))
  {
    var input := Trim(text);
    assert |input| == |ShowLanguagesCommand|;
    assert text != "";
    LowerPrefix(input, 9);
    LowerPrefix(ShowLanguagesCommand, 9);
    assert Lower(input)[0] == 's';
    assert Lower(Keyword)[0] == 't';
    assert !StartsWithIgnoreCase(input, Keyword);
  }

  /** The reply to "Show languages" depends on the language table alone: not
      on the rest of the configuration, the translation service, or how the
      command was spelled. */
  lemma ShowLanguagesDeterministic(c1: BotConfig, c2: BotConfig, t1: string, t2: string,
                                   s1: TranslationService, s2: TranslationService)
    requires c1.supportedLanguages == c2.supportedLanguages
    requires EqualsIgnoreCase(Trim(t1), ShowLanguagesCommand) && EqualsIgnoreCase(Trim(t2), ShowLanguagesCommand)
    ensures ProcessMessage(c1, Some(t1), s1) == ProcessMessage(c2, Some(t2), s2)
  {
    ShowLanguagesReply(c1, t1, s1);
    ShowLanguagesReply(c2, t2, s2);
  }

  /** The bare keyword ("translate", "TRANSLATE", ...) reaches `Substring(10)`
      on a nine-character string, which throws out of the handler before
      anything is sent. */
  lemma BareKeywordCrashes(config: BotConfig, text: string, service: TranslationService)
    requires EqualsIgnoreCase(text, Keyword)
    ensures ProcessMessage(config, Some(text), service) == Turn([], [], Crashed(ArgumentOutOfRange("startIndex")))
  {
    assert text != "";
    assert Lower(text)[0] == 't' && Lower(text)[8] == 'e';
    assert !IsWhiteSpace(text[0]) && !IsWhiteSpace(text[8]);
    TrimOfTrimmed(text);
    assert text[..9] == text;
  }

  /** A translate command whose remainder after the first ten characters does
      not split on " to " into exactly two non-empty parts is answered with
      the usage text and returns "", calling nothing. */
  lemma MalformedRejected(config: BotConfig, text: string, service: TranslationService)
    requires StartsWithIgnoreCase(Trim(text), Keyword) && |Trim(text)| >= SkippedPrefix
    requires |RemoveEmpty(Split(Trim(text)[SkippedPrefix..], Separator))| != 2
    ensures ProcessMessage(config, Some(text), service) == Turn([TextMessage(InvalidRequestMessage)], [], Returned(""))
  {
    DispatchTranslate(config, text, service);
  }

  /** A well-formed request against a missing language table, or a table two
      of whose names differ only in case, fails as a whole before the service
      is called: the apology is sent and the exception's message returned,
      which for a duplicate names the first lower-cased name that repeats an
      earlier one. */
  lemma BadTableAborts(config: BotConfig, text: string, service: TranslationService)
    requires StartsWithIgnoreCase(Trim(text), Keyword) && ParseTranslate(Trim(text)).Request?
    requires config.supportedLanguages.None? || !DistinctLowerNames(config.supportedLanguages.value)
    ensures var turn := ProcessMessage(config, Some(text), service);
      && turn.sent == [TextMessage(FailedTranslationMessage)] && turn.calls == []
      && turn.outcome.Returned? && |turn.outcome.text| >= 7 && turn.outcome.text[..7] == "Error: "
    ensures config.supportedLanguages.None? ==>
      ProcessMessage(config, Some(text), service).outcome == Returned("Error: " + Exceptions.Message(ArgumentNull("source")))
    ensures config.supportedLanguages.Some? ==>
      var pairs := ReversePairs(config.supportedLanguages.value);
      exists j :: FirstRepeatAt(pairs, j)
        && ProcessMessage(config, Some(text), service).outcome == Returned("Error: " + Exceptions.Message(DuplicateKey(pairs[j].0)))
  {
    DispatchTranslate(config, text, service);
    var p := ParseTranslate(Trim(text));
    CommandIsReply(config.supportedLanguages, service, p.text, p.targets);
    var b := RunBatch(config.supportedLanguages, service, p.text, p.targets);
    var reply := "Error: " + Exceptions.Message(b.error);
    assert reply[..7] == "Error: ";
    if config.supportedLanguages.Some? {
      var pairs := ReversePairs(config.supportedLanguages.value);
      ReverseSucceeds(config.supportedLanguages.value);
      ToDictionaryFailure(pairs);
      var j :| FirstRepeatAt(pairs, j) && ToDictionary(pairs).error == pairs[j].0;
      assert b.error == DuplicateKey(pairs[j].0);
    }
  }

  /** The loop's context for a table whose reverse lookup could be built. */
  function ContextFor(table: LanguageTable, service: TranslationService, text: string): Context
    requires DistinctLowerNames(table)
  {
    ReverseSucceeds(table);
    Context(table, BuildReverse(table).value, service, text)
  }

  /** The reply a completed batch returns, built from each token on its own. */
  function ExpectedLines(ctx: Context, tokens: seq<string>): seq<string>
    requires forall k :: 0 <= k < |tokens| ==> !StepFor(ctx, tokens[k]).Failed?
  {
    seq(|tokens|, k requires 0 <= k < |tokens| => LineFor(tokens[k], StepFor(ctx, tokens[k])))
  }

  lemma DispatchTranslate(config: BotConfig, text: string, service: TranslationService)
    requires StartsWithIgnoreCase(Trim(text), Keyword)
    ensures ProcessMessage(config, Some(text), service) == TranslateCommand(config.supportedLanguages, service, ParseTranslate(Trim(text)))
  {
    assert text != "";
  }

  /** With a usable table the batch is the loop over the tokens. */
  lemma BatchIsLoop(table: LanguageTable, service: TranslationService, text: string, tokens: seq<string>)
    requires DistinctLowerNames(table)
    ensures RunBatch(Some(table), service, text, tokens) == TranslateEach(ContextFor(table, service, text), tokens)
  {
    ReverseSucceeds(table);
  }

  lemma LoopCompleted(ctx: Context, targets: seq<string>)
    requires |targets| >= 1
    requires forall k :: 0 <= k < |targets| ==> !StepFor(ctx, targets[k]).Failed?
    ensures TranslateEach(ctx, targets) == Completed(ExpectedLines(ctx, targets), CallsFor(ctx, targets))
  {
    TranslateEachCompletes(ctx, targets);
    var b := TranslateEach(ctx, targets);
    var expected := ExpectedLines(ctx, targets);
    forall k | 0 <= k < |targets|
      ensures b.lines[k] == expected[k]
    {
    }
  }

  /** A parsed request is answered with the reply to its batch. */
  lemma CommandIsReply(table: Option<LanguageTable>, service: TranslationService, text: string, targets: seq<string>)
    ensures TranslateCommand(table, service, Request(text, targets)) == BatchReply(RunBatch(table, service, text, targets))
  {
  }

  lemma CommandCompleted(table: LanguageTable, service: TranslationService, text: string, targets: seq<string>)
    requires DistinctLowerNames(table) && |targets| >= 1
    requires forall k :: 0 <= k < |targets| ==> !StepFor(ContextFor(table, service, text), targets[k]).Failed?
    ensures var ctx := ContextFor(table, service, text);
      TranslateCommand(Some(table), service, Request(text, targets))
        == Turn([], CallsFor(ctx, targets), Returned(Join(ExpectedLines(ctx, targets), "\n")))
  {
    var ctx := ContextFor(table, service, text);
    var expected := ExpectedLines(ctx, targets);
    var calls := CallsFor(ctx, targets);
    CommandIsReply(Some(table), service, text, targets);
    BatchIsLoop(table, service, text, targets);
    LoopCompleted(ctx, targets);
    assert RunBatch(Some(table), service, text, targets) == Completed(expected, calls);
    assert BatchReply(Completed(expected, calls)) == Turn([], calls, Returned(Join(expected, "\n")));
  }

  lemma CommandAborted(table: LanguageTable, service: TranslationService, text: string, targets: seq<string>, k: nat)
    requires DistinctLowerNames(table)
    requires FailsFirstAt(ContextFor(table, service, text), targets, k)
    ensures var ctx := ContextFor(table, service, text);
      TranslateCommand(Some(table), service, Request(text, targets))
        == Turn([TextMessage(FailedTranslationMessage)], CallsFor(ctx, targets[..k + 1]),
                Returned("Error: " + Exceptions.Message(StepFor(ctx, targets[k]).error)))
  {
    var ctx := ContextFor(table, service, text);
    TranslateEachCompletes(ctx, targets);
    var b := TranslateEach(ctx, targets);
    assert b.Aborted?;
    TranslateEachAborts(ctx, targets);
    var j :| FailsFirstAt(ctx, targets, j) && b.error == StepFor(ctx, targets[j]).error
      && b.calls == CallsFor(ctx, targets[..j + 1]);
    assert j == k;
    BatchIsLoop(table, service, text, targets);
  }

  /** A translate command that parses into a text and languages, against a
      usable table, none of whose translations throws, is answered with one
      line per language in the order given, and calls the service once per
      supported language, in that order; nothing is sent besides the
      returned text. */
  lemma TranslateReply(config: BotConfig, service: TranslationService, input: string, text: string, targets: seq<string>)
    requires StartsWithIgnoreCase(Trim(input), Keyword) && ParseTranslate(Trim(input)) == Request(text, targets)
    requires config.supportedLanguages.Some? && DistinctLowerNames(config.supportedLanguages.value)
    requires var ctx := ContextFor(config.supportedLanguages.value, service, text);
      forall k :: 0 <= k < |targets| ==> !StepFor(ctx, targets[k]).Failed?
    ensures var ctx := ContextFor(config.supportedLanguages.value, service, text);
      ProcessMessage(config, Some(input), service)
        == Turn([], CallsFor(ctx, targets), Returned(Join(ExpectedLines(ctx, targets), "\n")))
  {
    DispatchTranslate(config, input, service);
    CommandCompleted(config.supportedLanguages.value, service, text, targets);
  }

  /** A well-formed request whose translation throws for some language stops
      at the first such language: the apology is sent, that exception's
      message is returned, and the service has been called for the supported
      languages up to and including that one only. */
  lemma TranslateFailure(config: BotConfig, service: TranslationService, text: string, k: nat)
    requires StartsWithIgnoreCase(Trim(text), Keyword) && ParseTranslate(Trim(text)).Request?
    requires config.supportedLanguages.Some? && DistinctLowerNames(config.supportedLanguages.value)
    requires var p := ParseTranslate(Trim(text));
      FailsFirstAt(ContextFor(config.supportedLanguages.value, service, p.text), p.targets, k)
    ensures var p := ParseTranslate(Trim(text));
      var ctx := ContextFor(config.supportedLanguages.value, service, p.text);
      ProcessMessage(config, Some(text), service)
        == Turn([TextMessage(FailedTranslationMessage)], CallsFor(ctx, p.targets[..k + 1]),
                Returned("Error: " + Exceptions.Message(StepFor(ctx, p.targets[k]).error)))
  {
    DispatchTranslate(config, text, service);
    var p := ParseTranslate(Trim(text));
    CommandAborted(config.supportedLanguages.value, service, p.text, p.targets, k);
  }
}
