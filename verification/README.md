# Semantic Kernel bot: command handling, in Dafny

This project models the deterministic part of a Bot Framework bot built on
Semantic Kernel. The model covers:

- `SemanticKernelBot.ProcessMessage`, which does the following:
  - ignores empty input;
  - handles the `Translate <text> to <languages>` command with the configured language table and an external translation service;
  - answers `Show languages` with a listing of that table;
  - hands every other message to an LLM planner, together with the plugins registered for the turn.
- `OnMembersAddedAsync`: the welcome message and its suggested questions.
- `DisplaySupportedLanguagesAsync`.
- `DALLEPlugin.GenerateImages`: announces an image job, requests the images one at a time, and sends them back as one adaptive card.

Side effects are returned as data. A handled activity is a `Bot.Turn`, which holds:

- the messages sent to the channel, in order;
- the calls made to the translation service, in order;
- how the handler ended: the string it returned, an exception that escaped it, or the request handed to the planner.

External services are parameters:

- the translation service, `Translation.TranslationService`, is a function from (text, code) to a response;
- the image service, `Dalle.ImageService`, is a function from (request number, request) to a response.

Everything is therefore stated for every possible behaviour of those services, with one restriction for translation: the translation oracle answers the same (text, code) pair the same way every time within a request (see "## Left out").

The .NET primitives the code relies on are modelled explicitly, with the edge cases that matter here:

- `Trim` uses `Char.IsWhiteSpace`.
- `ToLower` and `OrdinalIgnoreCase` fold ASCII letters only.
- `Split` on a string separator splits left to right without overlaps; `RemoveEmptyEntries` drops the empty pieces.
- `string.Join` and `int.ToString` are modelled.
- `ToDictionary` throws on the first duplicate key, with .NET's message.
- `Substring(10)` throws on a string shorter than ten characters.
- `Enumerable.Select` over a null list throws `ArgumentNullException` for `source`.

The modules follow the program:

| module | models |
|---|---|
| `Wrappers`, `Exceptions` | `Option`/`Result`, and the exceptions that can occur with their `Message` texts |
| `Strings` | the string operations above, each with its defining property |
| `Channel` | messages, adaptive cards, suggested actions |
| `Languages` | the language table, the reverse name-to-code lookup, token resolution, the listing |
| `Translation` | the translate-command parser and the per-language loop |
| `Plugins` | the plugin registry of lines 190-195 |
| `Dalle` | `GenerateImages` |
| `Bot` | `ProcessMessage` and `OnMembersAddedAsync` |

Three behaviours of the translate command are worth knowing before reading the model:

- The command is split on every occurrence of `" to "` and must give exactly two non-empty pieces, so `Translate a to b to c` is rejected (`Translation.ChainedSeparatorsRejected`).
- Any exception in the per-language loop leaves it: the remaining languages are abandoned, a generic apology is sent, and `Error: <message>` is returned (`Bot.TranslateFailure`).
- The first ten characters of the trimmed input are dropped whatever they are, and fewer than ten throw outside the `try` (`Bot.BareKeywordCrashes`).

## Model

| member | source | states |
|---|---|---|
| Strings.Trim | src/Bots/SemanticKernelBot.cs:111 | the result has no white space at either end, and is the input with only white space removed from each end |
| Strings.TrimPadded | src/Bots/SemanticKernelBot.cs:120-121 | trimming a string padded with white space on both sides gives back the trimmed string exactly |
| Strings.Lower | src/Bots/SemanticKernelBot.cs:132 | lower-casing keeps the length, maps each upper-case ASCII letter to its lower-case letter, and keeps every other character, so no upper-case letter is left |
| Strings.EqualsIgnoreCaseCharwise | src/Bots/SemanticKernelBot.cs:177 | `EqualsIgnoreCase` holds exactly when the strings have the same length and agree character by character after lower-casing |
| Strings.StartsWithIgnoreCaseCharwise | src/Bots/SemanticKernelBot.cs:114 | `StartsWithIgnoreCase` holds exactly when the string is at least as long as the prefix and its first characters agree with the prefix's after lower-casing |
| Strings.Split | src/Bots/SemanticKernelBot.cs:117 | a split yields at least one piece, and with a non-empty separator no piece contains the separator. Each cut is at the leftmost occurrence: no piece, followed by all but the last character of the separator, contains the separator, so the self-overlapping `" to "` is cut at its first occurrence |
| Strings.JoinSplit | src/Bots/SemanticKernelBot.cs:117 | `Join` of the pieces of a `Split` with the same separator restores the input: the split loses nothing but the separators |
| Strings.SplitJoin | src/Bots/SemanticKernelBot.cs:121-162 | `Split` of a `Join` (lines 121 and 162) on a one-character separator that occurs in no part gives back the parts |
| Strings.RemoveEmpty | src/Bots/SemanticKernelBot.cs:117 | `RemoveEmptyEntries` keeps only non-empty pieces of the input, keeps every non-empty piece, never lengthens the list, and changes nothing when there is no empty piece to drop |
| Strings.NatToString | src/Plugins/DALLEPlugin.cs:38 | the decimal rendering of a count is non-empty, all digits, and has no leading zero |
| Strings.ParseNatToString | src/Plugins/DALLEPlugin.cs:74 | reading the decimal rendering of a count gives the count back |
| Languages.ToDictionarySucceeds | src/Bots/SemanticKernelBot.cs:126 | building a dictionary from pairs succeeds exactly when the keys are pairwise distinct |
| Languages.ToDictionaryContents | src/Bots/SemanticKernelBot.cs:126 | a built dictionary maps every pair's key to that pair's value and has no other keys |
| Languages.ToDictionaryFailure | src/Bots/SemanticKernelBot.cs:126 | a failed build reports the first key that repeats an earlier one |
| Languages.ReverseSucceeds | src/Bots/SemanticKernelBot.cs:126 | the reverse lookup can be built exactly when no two display names are equal up to case |
| Languages.ResolutionOrder | src/Bots/SemanticKernelBot.cs:132-143 | `Resolve`: a token naming a language (ignoring case) resolves to that entry's lower-cased code, which takes precedence; otherwise a token that is a code once lower-cased resolves to its lower-cased form; otherwise it is unresolved, which happens exactly when neither holds; a resolved code is lower case and belongs to the table |
| Languages.DisplaySupportedLanguages | src/Bots/SemanticKernelBot.cs:217-230 | the listing is never empty, and it is the fallback text exactly when the table is missing or empty |
| Languages.ListingLines | src/Bots/SemanticKernelBot.cs:226-227 | for a non-empty table whose names and codes hold no newline, the lines of the listing are the header and then one `Name (code)` line per entry, in table order |
| Translation.ParseTranslate | src/Bots/SemanticKernelBot.cs:117-121 | the command is too short exactly when it has fewer than ten characters; a parsed request has a trimmed text and at least one trimmed language |
| Translation.ParseWithoutSeparator | src/Bots/SemanticKernelBot.cs:117-118 | a command with no `" to "` after its first ten characters is malformed |
| Translation.ParseThreePieces | src/Bots/SemanticKernelBot.cs:117-118 | a remainder with two `" to "` between non-empty pieces splits into three parts and is malformed |
| Translation.ChainedSeparatorsRejected | src/Bots/SemanticKernelBot.cs:117-118 | `Translate a to b to c` is malformed |
| Translation.OverlappingSeparator | src/Bots/SemanticKernelBot.cs:117-121 | `Translate x to to de` has the text `x` and the single language `to de`, because the split takes the leftmost `" to "` |
| Translation.ParseOneLanguage | src/Bots/SemanticKernelBot.cs:117-121 | a remainder of a trimmed text, `" to "` and one trimmed, comma-free language without `" to "` parses into that text and that language |
| Translation.TargetsRoundTrip | src/Bots/SemanticKernelBot.cs:121 | a list of trimmed, comma-free languages written with `", "` is read back exactly by the comma split and trim |
| Translation.RenderTrimmed | src/Bots/SemanticKernelBot.cs:111 | a command written as `Translate <text> to …` or as `Translate: <text> to …` (the form the usage text shows), whose last language is trimmed, is left unchanged by the trim |
| Translation.ParseRequest | src/Bots/SemanticKernelBot.cs:117-121 | a command written in either form parses back into its text and languages, given a trimmed text that, with the space after a colon, does not run into the first `" to "`, and trimmed, non-empty languages free of commas and of `" to "` |
| Translation.ParsePadded | src/Bots/SemanticKernelBot.cs:117-121 | when what follows the skipped ten characters is white space, a trimmed text, `" to "` and a `", "`-joined list of trimmed, comma-free languages, with no other `" to "`, the parse gives exactly that text and those languages |
| Translation.TranslateEachCompletes | src/Bots/SemanticKernelBot.cs:130-155 | `TranslateEach`, the per-language loop, completes exactly when no language's translation throws; it then has one line per token, in request order, each the "not supported" or the "Translated to" line for that token, and has called the service once per resolved token only |
| Translation.TranslateEachAborts | src/Bots/SemanticKernelBot.cs:130-168 | a run of `TranslateEach` that throws stops at the first token whose translation throws, reports that exception, and has called the service only for the resolved tokens up to and including that one |
| Translation.CallsResolved | src/Bots/SemanticKernelBot.cs:136-152 | every service call made by the loop passes the request's text and the code that some requested token resolved to |
| Translation.RunBatch | src/Bots/SemanticKernelBot.cs:126 | a missing table throws `ArgumentNullException` before any call; two display names equal up to case throw a duplicate-key exception before any call |
| Translation.CallsCanonical | src/Bots/SemanticKernelBot.cs:126-152 | the translation service is only ever called with the request's text and a lower-case code of the table |
| Plugins.ImportAll | src/Bots/SemanticKernelBot.cs:190-195 | running guarded imports in order registers exactly the candidates whose guard holds, in import order |
| Plugins.SelectPlugins | src/Bots/SemanticKernelBot.cs:190-195 | the image plugin is always registered; the SQL, upload, HR-handbook and Bing plugins exactly when their service is configured; the human-interface plugin exactly when the stepwise planner is off; all in the fixed import order, each at most once |
| Plugins.NamesDistinct | src/Bots/SemanticKernelBot.cs:190-195 | the names registered on one turn are pairwise distinct |
| Plugins.MinimalRegistry | src/Bots/SemanticKernelBot.cs:193 | with no optional service and the stepwise planner on, the registry is the image plugin alone |
| Dalle.EffectiveCount | src/Plugins/DALLEPlugin.cs:32-35 | the effective count is the requested count when that is positive, and exactly 1 otherwise |
| Dalle.AddImages | src/Plugins/DALLEPlugin.cs:54-57 | the images of one response are appended to the card body after what is already there, one element per URL, in the order returned |
| Dalle.RequestImages | src/Plugins/DALLEPlugin.cs:43-58 | the loop stops at the first failing request, as `FirstFailure` finds it, having made every request up to and including that one; when none fails it has made exactly `count` requests and built the header followed by the images of every response in request order |
| Dalle.GenerateImages | src/Plugins/DALLEPlugin.cs:27-75 | the run is exactly the reference run `ImageRunFor`: the progress message, then either the exception of the first failing request or the card and the summary |
| Dalle.FirstFailureIsEarliest | src/Plugins/DALLEPlugin.cs:43-58 | no failure is reported exactly when every remaining request succeeds. A reported failure is a request in range that failed with the reported message, and every request before it succeeded |
| Dalle.RunAnnouncesFirst | src/Plugins/DALLEPlugin.cs:32-52 | the progress message naming the effective count and the prompt is sent first, every request asks for one 1024x1024 image of the prompt, and the run succeeds exactly when every request succeeds |
| Dalle.RunSucceeds | src/Plugins/DALLEPlugin.cs:43-74 | when every request succeeds, exactly the effective number of requests is made. The card of all returned URLs in request order is the second and last message, and the summary is returned |
| Dalle.RunFails | src/Plugins/DALLEPlugin.cs:38-52 | a failing request lets its exception escape after the progress message alone, with no card and no later request; every earlier request succeeded |
| Dalle.CardShape | src/Plugins/DALLEPlugin.cs:40-65 | the card body is the header followed by one image element per URL in order, so its length is one more than the number of URLs |
| Dalle.SummaryCount | src/Plugins/DALLEPlugin.cs:74 | the summary starts with the effective count in decimal, which reads back as that count, at least 1 |
| Bot.WelcomeActions | src/Bots/SemanticKernelBot.cs:92-97 | one post-back action per question, and the action values read back as the questions, in order |
| Bot.OnMembersAdded | src/Bots/SemanticKernelBot.cs:87-100 | with a question list, exactly one message is sent: the welcome text with post-back actions whose values are the questions, in order, and the handler then completes normally; without one, the handler throws `ArgumentNullException` for `source` before sending anything; the translation service is never called |
| Bot.PlanFor | src/Bots/SemanticKernelBot.cs:190-209 | the planner is given exactly the registry `SelectPlugins` chooses for the configured services and planner flag, so it holds the image plugin; the Handlebars planner is chosen exactly when the stepwise flag is off, and the human-interface plugin is registered exactly then; the token limit is 128000 for either planner |
| Bot.ProcessMessage | src/Bots/SemanticKernelBot.cs:102-215 | null or empty input returns "" and does nothing else; only the translate command calls the service, and only with canonical codes; "no valid languages" never occurs; the planner is used exactly when the input is neither empty nor a command, and then the handler itself sends nothing and calls no service before handing over, and the planner gets the request `PlanFor` builds from the configuration |
| Bot.TranslateCommand | src/Bots/SemanticKernelBot.cs:117-174 | a too-short command throws `ArgumentOutOfRangeException` and sends nothing; a malformed one sends the usage text and returns ""; only canonical codes are passed to the service; a request with a language never yields the "no valid languages" reply |
| Bot.BatchReply | src/Bots/SemanticKernelBot.cs:157-167 | the reply keeps the loop's calls, and sends a message exactly when the loop threw |
| Bot.NeverNoValidLanguages | src/Bots/SemanticKernelBot.cs:157-160 | the "No valid languages were specified." reply is dead code: a request with at least one language never produces it |
| Bot.ShowLanguagesReply | src/Bots/SemanticKernelBot.cs:177-180 | "Show languages" in any case and with any surrounding white space is not taken for a translate command; it sends the listing and returns the fixed acknowledgement, calling nothing |
| Bot.ShowLanguagesDeterministic | src/Bots/SemanticKernelBot.cs:177-180 | the reply to "Show languages" depends on the language table alone, not on the rest of the configuration, the service or the spelling of the command |
| Bot.BareKeywordCrashes | src/Bots/SemanticKernelBot.cs:114-117 | the bare keyword in any case passes the prefix test, then `Substring(10)` throws outside the `try`, before anything is sent |
| Bot.MalformedRejected | src/Bots/SemanticKernelBot.cs:117-174 | a translate command whose remainder does not split into exactly two non-empty parts gets the usage text and returns "", calling nothing |
| Bot.BadTableAborts | src/Bots/SemanticKernelBot.cs:123-168 | a well-formed request against a missing table, or one with two names equal up to case, sends the apology, calls nothing and returns `Error: ` followed by the exception's message: the null-argument text for a missing table, and for a case-duplicate table the duplicate-key text naming the first lower-cased name that repeats an earlier one |
| Bot.CommandCompleted | src/Bots/SemanticKernelBot.cs:130-162 | with a usable table and no throwing translation, a request with at least one language returns its lines joined with "\n" and makes the loop's calls, sending nothing |
| Bot.CommandAborted | src/Bots/SemanticKernelBot.cs:130-168 | with a usable table, a request whose first throwing translation is at position k sends the apology, returns that exception's message, and has made the calls up to and including position k |
| Bot.TranslateReply | src/Bots/SemanticKernelBot.cs:111-162 | a message that parses into a text and languages, against a usable table with no throwing translation, returns one line per language in the order given, joined with "\n"; it calls the service once per supported language, in that order, and sends nothing |
| Bot.TranslateFailure | src/Bots/SemanticKernelBot.cs:130-168 | a message whose translation throws for some language stops at the first such language: it sends the apology, returns that exception's message, and has called the service only for the supported languages up to and including that one |

## Left out

- The typing indicator and `HandleFileUploads` (lines 104-106) are not modelled: the typing activity sent on every turn is not in `Turn.sent`, and the upload handler is not part of this model.
- The planners (lines 184-187 and 197-214) and `FormatConversationHistory`. They are driven by a language model, so the planner path ends in `Bot.Planned` with the registry, the strategy and the token limit, and its answer is not modelled.
- The SQL, Upload, HR-handbook, Bing and human-interface plugins. They appear only as registry entries, and their code is not part of this model.
- The HTTP request, headers and JSON parsing of `TranslationPlugin.TranslateTextAsync`. The service is an oracle. A non-success status becomes the plugin's "Translation API call failed. Status code: …" exception, and a fault of the client becomes an exception with the client's message.
- The Azure OpenAI image client. It is an oracle that returns the absolute URLs of a request's images, or fails with a message.
- `Startup.cs`: dependency injection, credentials, storage selection and the HTTP pipeline.
- Async execution, cancellation and concurrency across conversations.
- Translation.TranslationService: the translation oracle is a function of (text, code) alone, so a repeated call in one request, as in `Translate hi to German, de` where both tokens resolve to `de`, always gets the first call's answer. A service that succeeds on the first call and fails on the repeat (for instance a throttling error) aborts the loop at the repeat; that run is not modelled.
- Strings.RemoveEmpty: the contract states which pieces are kept, not that they keep their order and multiplicity. The order matters only through `Translation.ParseTranslate`, whose lemmas use the case of no empty piece, where the result is the input.
- Strings.Lower: folds ASCII letters only. The culture-sensitive and non-ASCII mappings of `ToLower` and `OrdinalIgnoreCase` are not modelled.
- Exceptions.Message: the texts are those of current .NET, not of every runtime version, and `ServiceFault` carries whatever message the oracle gives.
- Languages.DisplaySupportedLanguages: the table is a sequence standing for the dictionary's enumeration order. Null display names in the table are not modelled.
- Dalle.GenerateImages: the count is a 32-bit `int` as in the source. URL normalisation by `Uri.AbsoluteUri` is left to the oracle.
- Bot.ProcessMessage: the text it passes to the planner is not modelled, and neither is the answer the planner returns. The messages the plugins send while the plan runs in the same turn (for instance the image plugin's progress message and card, `Dalle.GenerateImages`) are not part of `Turn.sent`, which holds only what the handler sends itself.
- Characters outside the Basic Multilingual Plane. A Dafny `char` is a Unicode scalar value, while `Substring(10)` and string lengths in .NET count UTF-16 code units. Text whose first ten characters include such a character, like `Translate😀hi to de`, is cut differently: .NET keeps the low surrogate of the emoji, the model keeps nothing of it.
