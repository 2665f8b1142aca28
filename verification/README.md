# A WeChat companion bot, modelled in Dafny

The bot answers WeChat messages in the voice of a persona. This project
models its conversation state and its decision rules:

- **The conversation store.** It keeps per-user dialogue logs, bounded first-in-first-out, and per-user remembered facts. Both are saved to two files after every change and read back when the process starts.
- **The reply pipeline.** It covers:
  - slash commands
  - fact extraction by regular expressions
  - the user turn, the request to the language model, and the assistant turn or the apology
  - the two photo-request classifiers
  - the typing delay
- **The proactive scheduler.** It covers the timer lifecycle, the once-a-minute decision of which greetings are due, and the choice of a greeting.
- **The image features.** They cover:
  - selfie mode and scene selection
  - the image prompts
  - the guards in front of every image request
  - the messages the two image paths send
- **Inbound routing.** It decides which messages are answered and by which path (group reply, scene photo, selfie or chat). It also covers the scheduler target picked up on the way, and the login and logout effects.

Everything is a pure function over immutable values. Mutations return the
next store, including the new contents of the file they rewrite. The clock,
`Math.random()`, the language model's outcome and the image service's
answer are all parameters.

Modules, one per file:

- `Wrappers`: `Option`.
- `Text`: the JavaScript string primitives used.
  - `includes`, with a positional characterisation.
  - `trim`, using the ECMAScript white-space set.
  - ASCII lower-casing, for regular expressions with the `/i` flag.
  - `join`, and decimal rendering with its read-back.
- `Keywords`: keyword alternations as word lists, first-match tables, and `Math.floor(Math.random() * n)`.
- `ChatHistory`: src/ai/chatHistory.js.
- `Extraction`: the fact patterns of src/ai/manager.js. They use a leftmost, greedy matcher for the shape `lead(cls{min,max})trail`, which all eleven patterns have.
- `Manager`: src/ai/manager.js.
- `Scheduler`: src/ai/scheduler.js.
- `Selfie`: src/ai/selfie.js.
- `Handler`: src/wechat/handler.js.

Three behaviours of the source worth naming up front:

- `stop` clears only the timers; the target contact and the bot are kept (src/ai/scheduler.js:108-112; `Scheduler.Stop`, `Handler.Logout`, `Handler.TargetSurvivesLogout`).
- The lunch reminder is hard-coded at 12:00 and has no setting (src/ai/scheduler.js:66-68; `Scheduler.Due`).
- Loading the history file takes each stored log as it is, without re-imposing the length bound (src/ai/chatHistory.js:102-113; `ChatHistory.Load`).

## Model

| member | source | states |
|---|---|---|
| Text.ContainsIff | src/ai/manager.js:50 | `includes` holds exactly when the keyword occurs at some position of the text |
| Text.ContainedCharOccurs | src/ai/manager.js:50 | every character of a keyword that `includes` finds occurs in the text, so a text lacking one of its characters does not include it |
| Text.Trim | src/ai/manager.js:68 | `trim` gives empty exactly for all-white-space text, and otherwise a text with no white space at either end |
| Text.TrimPadded | src/ai/manager.js:68 | white space added around an unpadded text is removed again by `trim` |
| Text.TrimIdempotent | src/ai/manager.js:68 | trimming twice is trimming once |
| Text.JoinContainsPart | src/ai/chatHistory.js:96-97 | every line joined into the memory prompt occurs in it |
| Text.DecimalRoundTrip | src/ai/manager.js:137 | the decimal rendering of a count reads back as the same count |
| Keywords.FirstRow | src/ai/selfie.js:63-66 | the first table row whose words the text mentions; none exactly when no row matches |
| Keywords.Classify | src/ai/selfie.js:63-66 | the value of the first matching row, or the default when no row matches |
| Keywords.MentionsAnyConcat | src/ai/manager.js:50 | a listed keyword placed anywhere in a text makes the text mention the list, in either case mode |
| Keywords.PickIndex | src/ai/scheduler.js:97 | `floor(r * n)` with r in [0, 1) is a valid index into a non-empty list |
| ChatHistory.Load | src/ai/chatHistory.js:102-126 | start-up takes each readable file's table as it is, and an empty table for a missing or unreadable file |
| ChatHistory.BoundedAppend | src/ai/chatHistory.js:33-43 | push, then drop exactly the oldest entry when the log grows past the bound; the new entry is last |
| ChatHistory.AddMessage | src/ai/chatHistory.js:28-47 | the user's log gains the turn (created if absent, FIFO-bounded), other logs and the memory are unchanged, and the history file is rewritten |
| ChatHistory.GetHistory | src/ai/chatHistory.js:50-53 | the log in order with each turn's role and content and no time; empty for an unknown user |
| ChatHistory.GetRecentSummary | src/ai/chatHistory.js:56-59 | `slice(-count)`: the last `count` turns with times for count ≥ 1; the whole log for 0; negative counts drop from the front |
| ChatHistory.ClearHistory | src/ai/chatHistory.js:62-67 | the user's log is gone, others unchanged, memory untouched; an unknown user changes nothing and writes nothing |
| ChatHistory.Lookup | src/ai/chatHistory.js:76-77 | a fact exists for a key exactly when the key is stored |
| ChatHistory.Upsert | src/ai/chatHistory.js:76-80 | an existing key takes the new fact at its own position, every key keeping its place; a new key is appended at the end; every other key keeps its fact |
| ChatHistory.GetUserMemory | src/ai/chatHistory.js:86-88 | the user's facts, empty for an unknown user |
| ChatHistory.RememberAboutUser | src/ai/chatHistory.js:72-83 | last write wins for the key; other keys, other users and all logs are unchanged; the memory file is rewritten |
| ChatHistory.GetUserMemoryPrompt | src/ai/chatHistory.js:91-98 | empty exactly when the user has no facts; otherwise starts with the header and contains each fact's `- key: value` line |
| ChatHistory.AddMessageKeepsBound | src/ai/chatHistory.js:40-43 | a log that starts within the bound stays within it |
| ChatHistory.AppendAllKeepsNewest | src/ai/chatHistory.js:40-43 | after any run of appends from a log within the bound, the log is the newest `bound` entries in order |
| ChatHistory.AddAllLog | src/ai/chatHistory.js:28-47 | repeated `addMessage` on the store acts on the log exactly as repeated bounded appends |
| ChatHistory.FifoAfterClear | src/ai/chatHistory.js:28-67 | after more than H messages into a cleared log, the log is exactly the last H of them, oldest first |
| ChatHistory.LoadedOverlongLogStaysOverlong | src/ai/chatHistory.js:102-113 | a loaded log already over the bound keeps its length on append, so the bound holds only for logs that started within it |
| ChatHistory.ClearThenGetIsEmpty | src/ai/chatHistory.js:62-67 | after clearing, the history is empty and the memory is as before |
| ChatHistory.RememberOverwrites | src/ai/chatHistory.js:72-80 | writing a key twice keeps only the second value and one entry for the key |
| ChatHistory.BoundedAppendTwice | src/ai/chatHistory.js:40-43 | two appends leave the two new entries newest, in order, once the bound allows two |
| ChatHistory.LoadIsPersisted | src/ai/chatHistory.js:102-126 | a freshly loaded store agrees with its files |
| ChatHistory.ApplyKeepsPersisted | src/ai/chatHistory.js:128-144 | each mutation leaves the files holding exactly the in-memory tables |
| ChatHistory.ApplyAllKeepsPersisted | src/ai/chatHistory.js:128-144 | any sequence of mutations keeps the files in agreement with the tables |
| ChatHistory.RestartRestores | src/ai/chatHistory.js:102-144 | restarting on the files written after any mutations restores equal tables |
| Extraction.Backtrack | src/ai/manager.js:33 | the largest count up to n after which the trailing literal follows, or none |
| Extraction.MatchAtIsGreedy | src/ai/manager.js:33 | at a start position the count found matches and no larger count does; when none is found nothing matches there |
| Extraction.SearchIsLeftmostGreedy | src/ai/manager.js:33 | the start found matches, no earlier start matches and no larger count matches there; when none is found no later start matches |
| Extraction.NoCaptureNoMatch | src/ai/manager.js:33-34 | `match` gives no capture exactly when the pattern matches nowhere |
| Extraction.CaptureIsLeftmostGreedy | src/ai/manager.js:33-35 | a capture is the group of the leftmost, greediest match |
| Extraction.FindingOf | src/ai/manager.js:33-36 | one finding, under the pattern's key, exactly when the pattern captured |
| Extraction.FindingsOf | src/ai/manager.js:32-37 | no more findings than patterns run; none when no pattern captured |
| Extraction.CapturedIndicesAscending | src/ai/manager.js:32-37 | the capturing positions are listed each once, in increasing order, and only they |
| Extraction.FindingsInTableOrder | src/ai/manager.js:32-37 | the findings are one per capturing pattern, in table order: the i-th finding is the key and capture of the i-th pattern that captured |
| Extraction.LastMatchingPattern | src/ai/manager.js:32-37 | the last pattern for a key that captured: no later pattern with that key captured, and none did when there is no such pattern |
| Extraction.LastForAppend | src/ai/manager.js:32-37 | the last finding for a key in two runs is the second run's when it has one |
| Extraction.LastPatternWins | src/ai/manager.js:32-37 | the last finding for a key is the capture of the last pattern for it that captured; there is none when no such pattern exists |
| Extraction.RememberAll | src/ai/manager.js:32-37 | storing findings in order leaves logs and other users alone, and no findings changes nothing |
| Extraction.RememberAllLookup | src/ai/manager.js:32-37 | each key ends with its last finding's trimmed value; keys without a finding keep their fact |
| Extraction.ExtractAndRemember | src/ai/manager.js:17-38 | extraction never touches logs or other users' memory |
| Extraction.ExtractionStoresLastMatch | src/ai/manager.js:17-38 | each key holds the trimmed capture of its last matching pattern, or its earlier fact |
| Extraction.NoMatchNoChange | src/ai/manager.js:32-37 | a message no pattern matches leaves the store unchanged |
| Extraction.CaptureNameExample | src/ai/manager.js:19 | "我叫小明" captures "小明" |
| Extraction.NameKeyOnlyFirstTwo | src/ai/manager.js:19-29 | only the first two patterns store a name |
| Extraction.NameExampleSecondPatternFails | src/ai/manager.js:20 | the second name pattern does not match "我叫小明" |
| Extraction.NameExampleLastPattern | src/ai/manager.js:19-20 | for "我叫小明" the first name pattern is the last one that matches |
| Extraction.ExtractNameExample | src/ai/manager.js:17-38 | "我叫小明" stores the name 小明 |
| Manager.SynonymsDisjoint | src/ai/manager.js:69-77 | no word names two commands, and every command word starts with a slash |
| Manager.ParseCommand | src/ai/manager.js:67-79 | each command exactly for its synonyms of the trimmed text; a command always starts with a slash |
| Manager.ClearWordWithoutSlashIsChat | src/ai/manager.js:67-79 | "清除记忆" without the slash is not a command |
| Manager.CommandIgnoresPadding | src/ai/manager.js:67-68 | white space around a command word does not change the command |
| Manager.HandleCommand | src/ai/manager.js:128-143 | only the clear command changes the store (it clears the sender's log); no request is made |
| Manager.StatusReportsCounts | src/ai/manager.js:133-137 | the history length reads back exactly from its field right after the header, the memory count from its own field right after the memory label, and the model name appears in the reply |
| Manager.FallbackReply | src/ai/manager.js:119-124 | the rate-limit apology exactly for status 429, the generic one otherwise |
| Manager.RecordUserTurn | src/ai/manager.js:92-96 | the memory is what extraction left, and the log gains the user turn by a bounded push |
| Manager.BuildRequest | src/ai/manager.js:98-105 | one system message (persona prompt, then memory prompt) followed by the whole log |
| Manager.Converse | src/ai/manager.js:92-124 | the request is built after the user turn; success adds the assistant turn, failure adds nothing more |
| Manager.GenerateReply | src/ai/manager.js:82-125 | a command returns before extraction and logging; any other text takes the conversation path and sends a request |
| Manager.CommandTouchesOnlyOwnLog | src/ai/manager.js:86-90 | a command sends no request, keeps the memory and every other user's log |
| Manager.RequestEndsWithUserTurn | src/ai/manager.js:95-105 | the request starts with the system message and ends with the message being answered |
| Manager.PromptSeesFreshFacts | src/ai/manager.js:92-100 | every fact extracted from the message is already in the system prompt sent with it |
| Manager.SuccessLogsBothTurns | src/ai/manager.js:95-111 | on success the log is the previous one with the user turn and then the assistant turn pushed; these are its newest two entries once the bound allows two |
| Manager.FailureStoresRecordedTurn | src/ai/manager.js:95-124 | on failure the store is the one with only the user turn recorded |
| Manager.FailureKeepsOnlyUserTurn | src/ai/manager.js:95-124 | on failure the log is the previous one with only the user turn pushed, which is its newest entry when the bound is positive |
| Manager.KeywordAnywhereIsRequest | src/ai/manager.js:41-64 | any text containing a selfie (scene) keyword is a selfie (scene) request |
| Manager.SelfieExamples | test.js:73-75 | "发张照片", "发个自拍" and "你在干嘛" are selfie requests |
| Manager.NonSelfieExamples | test.js:76-77 | "今天天气好好" and "我吃饭了" are not selfie requests |
| Manager.TypingDelay | src/ai/manager.js:9-14 | with exact addition, the delay lies between base + 500 and base + 2499 ms, base being 100 ms per character capped at 3 s |
| Manager.TypingDelayMonotone | src/ai/manager.js:9-14 | for a fixed thinking time a longer text never waits less |
| Scheduler.New | src/ai/scheduler.js:7-12 | no timers, no target, no bot |
| Scheduler.Init | src/ai/scheduler.js:15-25 | the bot is always recorded; exactly one interval is added when enabled, none when disabled |
| Scheduler.SetTargetContact | src/ai/scheduler.js:28-31 | the target is replaced unconditionally; nothing else changes |
| Scheduler.Stop | src/ai/scheduler.js:108-112 | the timer list is emptied; target and bot stay |
| Scheduler.StopIdempotent | src/ai/scheduler.js:108-112 | stopping twice is stopping once |
| Scheduler.InitThenStop | src/ai/scheduler.js:15-41 | a fresh start holds one timer when enabled and none otherwise; a stop then leaves none |
| Scheduler.ConfiguredTime | src/ai/scheduler.js:52-53 | the configured time, or the default when unset |
| Scheduler.Due | src/ai/scheduler.js:44-69 | nothing without target or bot; each greeting exactly at its time; order morning, evening, lunch with no repeats |
| Scheduler.DefaultSchedule | src/ai/scheduler.js:51-68 | with defaults: 08:00 morning, 22:30 evening, 12:00 lunch, other minutes nothing |
| Scheduler.OverlappingTimesAllFire | src/ai/scheduler.js:51-68 | both configured times at noon give three attempts, no deduplication |
| Scheduler.PoolFor | src/ai/scheduler.js:73-96 | every pool is non-empty, and an unknown kind falls back to the morning pool |
| Scheduler.PoolOfEachGreeting | src/ai/scheduler.js:72-96 | each greeting a tick sends draws from its own pool |
| Scheduler.SelectGreeting | src/ai/scheduler.js:96-97 | the chosen greeting is a message of the pool |
| Scheduler.RunTick | src/ai/scheduler.js:44-104 | one attempt per due greeting, in order, with a message from its pool, whatever earlier deliveries did |
| Scheduler.FailuresDoNotStopLaterGreetings | src/ai/scheduler.js:99-104 | with every delivery failing, a noon check with overlapping times still attempts the lunch greeting |
| Selfie.DetectMode | src/ai/selfie.js:35-42 | mirror exactly when a mirror word occurs and no direct word does |
| Selfie.DirectWordWins | src/ai/selfie.js:36-39 | a direct word anywhere, in any ASCII case, gives the direct mode |
| Selfie.InferScene | src/ai/selfie.js:45-67 | the scene of the first matching row, the home scene when none matches |
| Selfie.UpperCaseCatSelectsCatScene | src/ai/selfie.js:49-64 | "CAT" anywhere selects the cat scene: the cat row is first and case is ignored |
| Selfie.BuildPrompt | src/ai/selfie.js:70-77 | the prompt contains the inferred scene, inside the mirror template for mirror mode and the close-up one otherwise |
| Selfie.PromptMark | src/ai/selfie.js:73-76 | the character after "taking a " tells the mirror template from the close-up one |
| Selfie.PromptDeterminesMode | src/ai/selfie.js:73-76 | equal prompts were built for the same mode |
| Selfie.InferScenePrompt | src/ai/selfie.js:157-174 | the first matching row's prompt, or the home scene with the suffix; every prompt ends with the no-text, no-watermark suffix |
| Selfie.ModelName | src/ai/selfie.js:95 | the configured image model, or the default model name |
| Selfie.SelfieCall | src/ai/selfie.js:80-114 | no request exactly when the feature is off or the reference image is missing; otherwise the reference image is edited with the built prompt |
| Selfie.GenerateSelfie | src/ai/selfie.js:80-134 | an image address only when enabled with a reference image, and then the service's answer |
| Selfie.ScenePhotoCall | src/ai/selfie.js:177-202 | no request exactly when the feature is off; otherwise a text-only request without the reference image |
| Selfie.GenerateScenePhoto | src/ai/selfie.js:177-222 | an image address only when enabled, and then the service's answer |
| Handler.StripMentions | src/wechat/handler.js:102 | removing mentions never lengthens the text |
| Handler.StripMidMention | src/wechat/handler.js:102 | a mention after other text is removed with the white space after it; the text before it, which may hold other `@` mentions but not this one, is kept, and the replace carries on after it (for a name without `@`) |
| Handler.StripWithoutMention | src/wechat/handler.js:102 | a text without a mention is unchanged |
| Handler.StripLeadingMention | src/wechat/handler.js:102 | a mention goes together with the white space right after it |
| Handler.LeadingMentionStripped | src/wechat/handler.js:102 | a leading mention and the white space after it disappear |
| Handler.GroupAction | src/wechat/handler.js:96-114 | answered exactly when addressed and something is left after cleaning; the answer is keyed by "group_" + sender |
| Handler.PrivateAction | src/wechat/handler.js:124-137 | scene request first, then selfie request, otherwise chat under the sender's name |
| Handler.AdoptTarget | src/wechat/handler.js:119-122 | the sender becomes the target only when none is set and the scheduler is enabled |
| Handler.Route | src/wechat/handler.js:66-149 | filtered messages are ignored with the scheduler unchanged; group messages take the group path, private ones adopt a target and take the private path |
| Handler.RouteDecision | src/wechat/handler.js:74-134 | an answer only past the filters; non-target private messages are ignored; group messages never change the scheduler |
| Handler.PrivateMessageAnswered | src/wechat/handler.js:116-137 | every admitted private message is answered, and adopts its sender only when no target is set and the scheduler is enabled |
| Handler.GroupMessagesBypassTarget | src/wechat/handler.js:86-93 | the target-user filter never applies to group messages |
| Handler.MentionNamesAccount | src/wechat/handler.js:101 | a text mentioning the account contains the account's name |
| Handler.AddressedGroupAction | src/wechat/handler.js:101-104 | an addressed group text whose cleaned form is non-empty is answered with it |
| Handler.LeadingMentionAnswered | src/wechat/handler.js:100-104 | "@name" plus white space plus a question is answered with just the question |
| Handler.SceneBeforeSelfie | src/wechat/handler.js:124-134 | "看看你家" is both kinds of request and goes to the scene path |
| Handler.SelfieReplies | src/wechat/handler.js:152-193 | the excuse alone when disabled; otherwise the waiting note first, and an image send is attempted exactly when generation and download both succeeded |
| Handler.CaptionCategoryOf | src/wechat/handler.js:214-219 | the first category whose words occur; the default exactly when none does |
| Handler.CatCaptionFirst | src/wechat/handler.js:216 | a cat word selects the cat captions whatever else the text says |
| Handler.Captions | src/wechat/handler.js:206-212 | each family has three captions |
| Handler.ScenePhotoReplies | src/wechat/handler.js:196-241 | the excuse alone when disabled; otherwise the waiting note first, an image send is attempted exactly when generation and download both succeeded, and a successful send is captioned from the text's family |
| Handler.Login | src/wechat/handler.js:32-56 | the scheduler starts with the bot; a configured and found target user becomes the target |
| Handler.Logout | src/wechat/handler.js:59-63 | the timers are stopped; target and bot are kept |
| Handler.TargetSurvivesLogout | src/wechat/handler.js:32-63 | a target chosen at login survives logout and a later login without target |

## Left out

- File I/O. Directory creation, JSON encoding and write failures are left out. Each file is a `Document`: missing, unreadable, or a table. A failed write, which the source only logs, is not modelled.
- Text length. JavaScript strings are UTF-16. Here strings are sequences of code points, so lengths and regular-expression `.` differ for characters outside the Basic Multilingual Plane, such as emoji.
- Memory key order. A JavaScript object lists integer-like keys first. The memory is kept in insertion order, which is the order for the non-numeric keys the bot writes.
- Configured times. `HH:MM` parsing with `Number` is left out, including malformed settings that give `NaN`. Configured times are integer pairs or absent.
- The persona module is not part of this model. The system prompt, model name, time period and scene descriptions are opaque strings passed in.
- The language-model client. It is an outcome parameter (reply text or failure status). The reply is taken as the client returns it, already trimmed. Exceptions thrown by extraction or logging are not modelled.
- Network access. The image service, downloads and reference-image loading are parameters: an optional image address, an optional file path and an optional reference image. The cached reference image is not modelled.
- Sending and timing. Message sending, file boxes, `sleep`, console output and logging emit no values. The image paths return the messages they would send. Text sends are assumed not to throw; only the image send's failure is a parameter.
- Timers, clock and randomness. `setInterval` and `clearInterval` are opaque handles. The clock and `Math.random()` are parameters. One reading of the clock, `now`, stamps both the facts extraction stores and the user turn, where the source reads the clock afresh on each call (src/ai/chatHistory.js:37 and :79); no property depends on the two being equal.
- Default arguments. The constructor's bound of 30 (src/ai/chatHistory.js:13) and the summary's count of 5 (src/ai/chatHistory.js:56) are defaults; the model always takes the bound and the count as explicit arguments.
- Handler.StripMentions: takes the bot's name literally. A name containing regular-expression metacharacters would be read as a pattern by the source.
- Scheduler.PoolFor: treats every name other than `lunch` and `evening` as the morning pool. For names of `Object.prototype` members the source would pick up the inherited member instead.
- Manager.TypingDelay: binary64 rounding of `base + thinking` is not modelled; the sum is exact. At the largest `Math.random()` value, 1 − 2^−52, the thinking time is 2499.9999999999995, and for 16 or more characters the float sum rounds up to base + 2500, one more than the stated upper bound.
- Manager.Converse: the reply request is awaited in the source (src/ai/manager.js:108), and another message from the same user can be handled while it is pending; a clear command then would leave the log holding only the assistant turn. The model treats generation as if no other message for that user is handled meanwhile, so `SuccessLogsBothTurns` and the other log lemmas hold for that schedule only.
- Scheduler.RunTick: the deliveries are awaited one after another in the source. The model lists the attempts in that order without interleaving other events.
- The process bootstrap, the health endpoint, signal handlers and the QR-code scan printing are left out.
