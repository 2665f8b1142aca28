/** The reply pipeline: slash commands, fact extraction, the user turn, the
    request to the language model, and the assistant turn or the fallback
    apology. Also the two request classifiers the message router uses and
    the typing-delay estimate.

    The language model is not called here: `GenerateReply` takes the outcome
    the model would give (a reply text or a failure with its HTTP status) and
    returns, together with the reply and the next store, the request it sends. */
module Manager {
  import opened Wrappers
  import opened Text
  import opened Keywords
  import opened ChatHistory
  import Extraction

  // ---------------------------------------------------------------------
  // Commands

  datatype Command = ClearHistoryCommand | StatusCommand | HelpCommand

  const ClearSynonyms: seq<string> := ["/清除记忆", "/清空记忆", "/重置"]
  const StatusSynonyms: seq<string> := ["/状态", "/info"]
  const HelpSynonyms: seq<string> := ["/帮助", "/help"]

  /** No word is the synonym of two commands, and every synonym starts with
      a slash. */
  lemma SynonymsDisjoint(t: string)
    ensures t in ClearSynonyms ==> t !in StatusSynonyms && t !in HelpSynonyms
    ensures t in StatusSynonyms ==> t !in HelpSynonyms
    ensures t in ClearSynonyms || t in StatusSynonyms || t in HelpSynonyms ==> |t| > 1 && t[0] == '/'
  {
  }

  /** `parseCommand`: the trimmed text compared for exact equality with each
      command's synonyms. Every command starts with a slash, so a text whose
      trimmed form does not is never a command. */
  function ParseCommand(text: string): (r: Option<Command>)
    ensures r == Some(ClearHistoryCommand) <==> Trim(text) in ClearSynonyms
    ensures r == Some(StatusCommand) <==> Trim(text) in StatusSynonyms
    ensures r == Some(HelpCommand) <==> Trim(text) in HelpSynonyms
    ensures r.Some? ==> |Trim(text)| > 0 && Trim(text)[0] == '/'
  {
    var t := Trim(text);
    SynonymsDisjoint(t);
    if t in ClearSynonyms then Some(ClearHistoryCommand)
    else if t in StatusSynonyms then Some(StatusCommand)
    else if t in HelpSynonyms then Some(HelpCommand)
    else None
  }

  /** The command word without its slash is ordinary chat. */
  lemma ClearWordWithoutSlashIsChat()
    ensures ParseCommand("清除记忆") == None
  {
  }

  /** White space around a command does not matter. */
  lemma CommandIgnoresPadding(a: string, w: string, c: string)
    requires forall i :: 0 <= i < |a| ==> IsSpace(a[i])
    requires forall i :: 0 <= i < |c| ==> IsSpace(c[i])
    requires w in ClearSynonyms || w in StatusSynonyms || w in HelpSynonyms
    ensures ParseCommand(a + w + c) == ParseCommand(w)
    ensures ParseCommand(a + w + c).Some?
  {
    assert |w| > 0 && !IsSpace(w[0]) && !IsSpace(w[|w| - 1]);
    TrimPadded(a, w, c);
    TrimPadded("", w, "");
    assert "" + w + "" == w;
  }

  const ClearReply: string := "好的，我把之前的聊天记录都忘掉啦～我们重新开始吧😊"
  const HelpReply: string := "🔧 可用命令\n/清除记忆 - 清空对话历史\n/状态 - 查看当前状态\n/帮助 - 显示此帮助"
  const StatusHeader: string := "📊 当前状态\n对话记录: "

  /** What the pipeline takes from the persona module and the model client:
      the generated system prompt, the model name, and the current time
      period, all opaque strings. */
  datatype Persona = Persona(systemPrompt: string, modelName: string, timePeriod: string)

  /** The status report: history length, number of remembered keys, model
      name and time period. */
  function StatusReply(historyLength: nat, memoryCount: nat, p: Persona): string
  {
    StatusHeader + Decimal(historyLength) + "条\n记住的信息: " + Decimal(memoryCount)
      + "条\nAI模型: " + p.modelName + "\n时间段: " + p.timePeriod
  }

  /** A reply and the store after it; `request` is what was sent to the
      language model, absent when no request was made. */
  datatype Turn = Turn(reply: string, store: Store, request: Option<seq<ApiMessage>>)

  /** `handleCommand`: only the clear command changes the store. */
  function HandleCommand(s: Store, user: UserId, cmd: Command, p: Persona): (r: Turn)
    ensures r.request.None? && r.reply != ""
    ensures cmd == ClearHistoryCommand ==> r.store == ClearHistory(s, user)
    ensures cmd != ClearHistoryCommand ==> r.store == s
    ensures cmd == StatusCommand ==> r.reply == StatusReply(|GetHistory(s, user)|, |GetUserMemory(s, user)|, p)
  {
    match cmd
    case ClearHistoryCommand => Turn(ClearReply, ClearHistory(s, user), None)
    case StatusCommand =>
      Turn(StatusReply(|GetHistory(s, user)|, |GetUserMemory(s, user)|, p), s, None)
    case HelpCommand => Turn(HelpReply, s, None)
  }

  /** The status reply carries the history length and the number of memory
      keys as decimal numbers, each in its own field (the first right after
      the header, the second right after the memory label), and each reads
      back exactly. */
  lemma StatusReportsCounts(h: nat, m: nat, p: Persona)
    ensures var reply := StatusReply(h, m, p);
            var memoryField := |StatusHeader + Decimal(h) + "条\n记住的信息: "|;
            && StatusHeader + Decimal(h) <= reply
            && ParseDecimal(reply[|StatusHeader|..|StatusHeader| + |Decimal(h)|]) == h
            && ParseDecimal(reply[memoryField..memoryField + |Decimal(m)|]) == m
            && Contains(reply, Decimal(m))
            && Contains(reply, p.modelName)
  {
    ConcatFields(StatusHeader, Decimal(h), "条\n记住的信息: ", Decimal(m), "条\nAI模型: ", p.modelName,
                 "\n时间段: ", p.timePeriod);
    DecimalRoundTrip(h);
    StatusMemoryField(h, m, p);
    DecimalRoundTrip(m);
  }

  /** The memory count's digits sit right after the memory label. */
  lemma StatusMemoryField(h: nat, m: nat, p: Persona)
    ensures var memoryField := |StatusHeader + Decimal(h) + "条\n记住的信息: "|;
            StatusReply(h, m, p)[memoryField..memoryField + |Decimal(m)|] == Decimal(m)
  {
    ConcatFields(StatusHeader, Decimal(h), "条\n记住的信息: ", Decimal(m), "条\nAI模型: ", p.modelName,
                 "\n时间段: ", p.timePeriod);
  }

  // ---------------------------------------------------------------------
  // Generation

  /** What the model client returns: a reply text, or a failure carrying the
      error's `status` field when it has one. */
  datatype LlmOutcome = Ok(text: string) | Err(status: Option<int>)

  const RateLimitReply: string := "等一下嘛，我脑子转不过来了😵‍💫"
  const GenericFailureReply: string := "啊...信号不太好的样子，你再说一遍？😅"

  /** The apology for a failed generation: the rate-limit text exactly when
      the status is 429, the generic text for every other failure. */
  function FallbackReply(status: Option<int>): (r: string)
    ensures r == RateLimitReply <==> status == Some(429)
    ensures r == GenericFailureReply <==> status != Some(429)
  {
    if status == Some(429) then RateLimitReply else GenericFailureReply
  }

  /** The store once the user's turn is recorded: facts extracted first, then
      the user turn appended. */
  function RecordUserTurn(s: Store, user: UserId, input: string, now: string): (r: Store)
    ensures r.maxHistoryLength == s.maxHistoryLength
    ensures LogOf(r, user) == BoundedAppend(LogOf(s, user), Entry(User, input, now), s.maxHistoryLength)
    ensures r.userMemory == Extraction.ExtractAndRemember(s, user, input, now).userMemory
  {
    AddMessage(Extraction.ExtractAndRemember(s, user, input, now), user, User, input, now)
  }

  /** The request for the model: one system message (the persona prompt
      followed by the memory prompt), then the whole log. */
  function BuildRequest(s: Store, user: UserId, p: Persona): (r: seq<ApiMessage>)
    ensures |r| == 1 + |LogOf(s, user)|
    ensures r[0] == ApiMessage(System, p.systemPrompt + GetUserMemoryPrompt(s, user))
    ensures r[1..] == GetHistory(s, user)
  {
    [ApiMessage(System, p.systemPrompt + GetUserMemoryPrompt(s, user))] + GetHistory(s, user)
  }

  /** The non-command path of `generateReply`: facts are extracted, the user
      turn is logged, the request is built from the store as it is after
      that, and then either the model's text is logged as the assistant turn
      and returned, or no assistant turn is logged and the apology is
      returned. */
  function Converse(s: Store, user: UserId, input: string, p: Persona,
                    now: string, replyAt: string, outcome: LlmOutcome): (r: Turn)
    ensures r.request == Some(BuildRequest(RecordUserTurn(s, user, input, now), user, p))
    ensures outcome.Ok? ==>
              r.reply == outcome.text
              && r.store == AddMessage(RecordUserTurn(s, user, input, now), user, Assistant, outcome.text, replyAt)
    ensures outcome.Err? ==>
              r.reply == FallbackReply(outcome.status) && r.store == RecordUserTurn(s, user, input, now)
  {
    var recorded := RecordUserTurn(s, user, input, now);
    var request := BuildRequest(recorded, user, p);
    match outcome
    case Ok(text) => Turn(text, AddMessage(recorded, user, Assistant, text, replyAt), Some(request))
    case Err(status) => Turn(FallbackReply(status), recorded, Some(request))
  }

  /** `generateReply`: a command is answered by its handler, and nothing is
      extracted, logged or sent; any other text goes through `Converse`. */
  function GenerateReply(s: Store, user: UserId, input: string, p: Persona,
                         now: string, replyAt: string, outcome: LlmOutcome): (r: Turn)
    ensures ParseCommand(input).Some? ==> r == HandleCommand(s, user, ParseCommand(input).value, p)
    ensures ParseCommand(input).None? ==> r == Converse(s, user, input, p, now, replyAt, outcome)
    ensures r.request.Some? <==> ParseCommand(input).None?
  {
    match ParseCommand(input)
    case Some(cmd) => HandleCommand(s, user, cmd, p)
    case None => Converse(s, user, input, p, now, replyAt, outcome)
  }

  /** A command never touches the memory and leaves every log but the
      sender's (for the clear command) as it was. */
  lemma CommandTouchesOnlyOwnLog(s: Store, user: UserId, input: string, p: Persona,
                                 now: string, replyAt: string, outcome: LlmOutcome)
    requires ParseCommand(input).Some?
    ensures var r := GenerateReply(s, user, input, p, now, replyAt, outcome);
            && r.request.None?
            && r.store.userMemory == s.userMemory
            && (forall u :: u != user && u in s.histories ==> u in r.store.histories && r.store.histories[u] == s.histories[u])
            && |LogOf(r.store, user)| <= |LogOf(s, user)|
  {
  }

  /** The request ends with the message being answered and begins with the
      system prompt. */
  lemma RequestEndsWithUserTurn(s: Store, user: UserId, input: string, p: Persona,
                                now: string, replyAt: string, outcome: LlmOutcome)
    requires s.maxHistoryLength >= 1
    ensures var req := Converse(s, user, input, p, now, replyAt, outcome).request.value;
            && |req| >= 2
            && req[0].role == System
            && req[|req| - 1] == ApiMessage(User, input)
  {
    var recorded := RecordUserTurn(s, user, input, now);
    var log := LogOf(recorded, user);
    var req := BuildRequest(recorded, user, p);
    assert req == Converse(s, user, input, p, now, replyAt, outcome).request.value;
    assert req[|req| - 1] == req[1..][|log| - 1];
  }

  /** The system prompt of the request already knows the facts extracted from
      the message being answered: every remembered value appears in it. */
  lemma PromptSeesFreshFacts(s: Store, user: UserId, input: string, p: Persona,
                             now: string, replyAt: string, outcome: LlmOutcome, i: int)
    requires 0 <= i < |GetUserMemory(Extraction.ExtractAndRemember(s, user, input, now), user)|
    ensures var req := Converse(s, user, input, p, now, replyAt, outcome).request.value;
            Contains(req[0].content, GetUserMemory(Extraction.ExtractAndRemember(s, user, input, now), user)[i].fact.value)
  {
    var extracted := Extraction.ExtractAndRemember(s, user, input, now);
    var recorded := RecordUserTurn(s, user, input, now);
    assert GetUserMemory(recorded, user) == GetUserMemory(extracted, user);
    var v := GetUserMemory(extracted, user)[i].fact.value;
    var mp := GetUserMemoryPrompt(recorded, user);
    assert Contains(mp, v);
    ContainsWithin(p.systemPrompt, mp, "", v);
    assert p.systemPrompt + mp + "" == p.systemPrompt + mp;
  }

  /** On success the log gains the user turn and then the assistant turn,
      each pushed within the bound, so once the bound allows two entries they
      are the log's two newest entries, in that order. */
  lemma SuccessLogsBothTurns(s: Store, user: UserId, input: string, p: Persona,
                             now: string, replyAt: string, text: string)
    ensures LogOf(Converse(s, user, input, p, now, replyAt, Ok(text)).store, user)
              == BoundedAppend(BoundedAppend(LogOf(s, user), Entry(User, input, now), s.maxHistoryLength),
                               Entry(Assistant, text, replyAt), s.maxHistoryLength)
    ensures s.maxHistoryLength >= 2 ==>
              NewestTwo(LogOf(Converse(s, user, input, p, now, replyAt, Ok(text)).store, user),
                        Entry(User, input, now), Entry(Assistant, text, replyAt))
  {
    var recorded := RecordUserTurn(s, user, input, now);
    assert recorded.maxHistoryLength == s.maxHistoryLength;
    if s.maxHistoryLength >= 2 {
      var e1, e2 := Entry(User, input, now), Entry(Assistant, text, replyAt);
      BoundedAppendTwice(LogOf(s, user), e1, e2, s.maxHistoryLength);
    }
  }

  /** On failure the user turn stays logged and no assistant turn is added:
      the log is the previous one with only the user turn pushed, which is
      its newest entry whenever the bound is positive. */
  lemma FailureKeepsOnlyUserTurn(s: Store, user: UserId, input: string, p: Persona,
                                 now: string, replyAt: string, status: Option<int>)
    ensures LogOf(Converse(s, user, input, p, now, replyAt, Err(status)).store, user)
              == BoundedAppend(LogOf(s, user), Entry(User, input, now), s.maxHistoryLength)
    ensures s.maxHistoryLength >= 1 ==>
              Newest(LogOf(Converse(s, user, input, p, now, replyAt, Err(status)).store, user), Entry(User, input, now))
  {
    FailureStoresRecordedTurn(s, user, input, p, now, replyAt, status);
  }

  /** On failure the store is the one with the user turn recorded. */
  lemma FailureStoresRecordedTurn(s: Store, user: UserId, input: string, p: Persona,
                                  now: string, replyAt: string, status: Option<int>)
    ensures Converse(s, user, input, p, now, replyAt, Err(status)).store == RecordUserTurn(s, user, input, now)
  {
  }

  // ---------------------------------------------------------------------
  // Request classifiers

  const SelfieKeywords: seq<string> := [
    "发张照片", "发个照片", "发张自拍", "发个自拍",
    "看看你", "给我看看你", "你长什么样",
    "发张图", "发个图", "拍张照",
    "想看你", "给我发照片", "发一张",
    "你在干嘛", "你在干啥", "在干嘛呢",
    "想看看你", "让我看看"
  ]

  const SceneKeywords: seq<string> := [
    "团团", "看看猫", "猫咪照片", "猫的照片",
    "家里照片", "你的房间", "看看你家", "你房间什么样",
    "办公室照片", "工位照片", "公司什么样",
    "窗外", "看看外面", "拍个风景",
    "你做的菜", "你做的饭", "烘焙", "蛋糕照片",
    "桌面", "你的桌子"
  ]

  /** `isSelfieRequest`: the text contains one of the selfie keywords. */
  predicate IsSelfieRequest(text: string)
  {
    MentionsAny(text, SelfieKeywords, Sensitive)
  }

  /** `isScenePhotoRequest`: the text contains one of the scene keywords. */
  predicate IsScenePhotoRequest(text: string)
  {
    MentionsAny(text, SceneKeywords, Sensitive)
  }

  /** Any text containing a selfie keyword, wherever it sits, is a selfie
      request; likewise for scene keywords. */
  lemma KeywordAnywhereIsRequest(a: string, b: string, i: int, j: int)
    requires 0 <= i < |SelfieKeywords| && 0 <= j < |SceneKeywords|
    ensures IsSelfieRequest(a + SelfieKeywords[i] + b)
    ensures IsScenePhotoRequest(a + SceneKeywords[j] + b)
  {
    MentionsAnyConcat(a, SelfieKeywords, i, b, Sensitive);
    MentionsAnyConcat(a, SceneKeywords, j, b, Sensitive);
  }

  /** The texts the test script expects to be selfie requests. */
  lemma SelfieExamples()
    ensures IsSelfieRequest("发张照片")
    ensures IsSelfieRequest("发个自拍")
    ensures IsSelfieRequest("你在干嘛")
  {
    KeywordAnywhereIsRequest("", "", 0, 0);
    KeywordAnywhereIsRequest("", "", 3, 0);
    KeywordAnywhereIsRequest("", "", 13, 0);
    assert "" + SelfieKeywords[0] + "" == "发张照片";
    assert "" + SelfieKeywords[3] + "" == "发个自拍";
    assert "" + SelfieKeywords[13] + "" == "你在干嘛";
  }

  /** The texts the test script expects not to be selfie requests: neither
      contains the first character of any keyword. */
  lemma NonSelfieExamples()
    ensures !IsSelfieRequest("今天天气好好")
    ensures !IsSelfieRequest("我吃饭了")
  {
    forall i | 0 <= i < |SelfieKeywords|
      ensures !Contains("今天天气好好", SelfieKeywords[i]) && !Contains("我吃饭了", SelfieKeywords[i])
    {
      ContainedCharOccurs("今天天气好好", SelfieKeywords[i], 0);
      ContainedCharOccurs("我吃饭了", SelfieKeywords[i], 0);
    }
  }

  // ---------------------------------------------------------------------
  // Typing delay

  /** The length-dependent part of the delay: 100 ms per character, at most 3 s. */
  function BaseDelay(length: nat): nat
  {
    if length * 100 < 3000 then length * 100 else 3000
  }

  /** `simulateTypingDelay`: `floor(base + thinking)` where the thinking time
      `Math.random() * 2000 + 500` lies in [500, 2500). The result lies
      between base + 500 and base + 2499 milliseconds. */
  function TypingDelay(text: string, thinking: real): (d: int)
    requires 500.0 <= thinking < 2500.0
    ensures BaseDelay(|text|) + 500 <= d <= BaseDelay(|text|) + 2499
    ensures 500 <= d <= 5499
  {
    (BaseDelay(|text|) as real + thinking).Floor
  }

  /** For a fixed thinking time, a longer text never waits less. */
  lemma TypingDelayMonotone(a: string, b: string, thinking: real)
    requires 500.0 <= thinking < 2500.0
    requires |a| <= |b|
    ensures TypingDelay(a, thinking) <= TypingDelay(b, thinking)
  {
    assert BaseDelay(|a|) <= BaseDelay(|b|);
  }
}
