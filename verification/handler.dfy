/** Inbound message routing: which messages get an answer and by which path
    (group reply, scene photo, selfie, or ordinary chat), the scheduler
    target chosen along the way, the messages the two image paths send, and
    the login and logout effects on the scheduler.

    A message is a record of what the chat client reports about it; the
    routing decision is an `Action` value, and sending is left to the
    caller. Sleeping, file boxes and the network are not modelled. */
module Handler {
  import opened Wrappers
  import opened Text
  import opened Keywords
  import Manager
  import Scheduler

  /** What the chat client reports about an inbound message. `room` is the
      group's id for a group message; `mentionsSelf` is the client's own
      mention flag. */
  datatype Message = Message(talkerId: string, talkerName: string, msgType: int, text: string,
                             room: Option<string>, mentionsSelf: bool)

  /** The logged-in account. */
  datatype Account = Account(id: string, name: string)

  /** The message type number the client uses for text. */
  const TextMessage: int := 7

  /** What the handler does with a message. A group reply is addressed to
      the sender; `userId` is the key the conversation is stored under. */
  datatype Action =
    | Ignore
    | GroupChat(userId: string, content: string, addressee: string)
    | ScenePhoto(content: string)
    | SelfiePhoto(content: string)
    | Chat(userId: string, content: string)

  datatype Routed = Routed(action: Action, scheduler: Scheduler.Scheduler)

  // ---------------------------------------------------------------------
  // Mentions

  /** `text.replace(new RegExp('@' + name + '\\s*', 'g'), '')` for a name
      without regular-expression metacharacters: every `@name`, scanning left
      to right without overlap, is removed together with the white space
      right after it. */
  function StripMentions(text: string, name: string): (r: string)
    ensures |r| <= |text|
    decreases |text|
  {
    var tag := "@" + name;
    if |text| == 0 then ""
    else if tag <= text then StripMentions(TrimStart(text[|tag|..]), name)
    else [text[0]] + StripMentions(text[1..], name)
  }

  /** A text without any `@name` is left as it is. */
  lemma {:induction false} StripWithoutMention(text: string, name: string)
    requires !Contains(text, "@" + name)
    ensures StripMentions(text, name) == text
    decreases |text|
  {
    if |text| > 0 {
      StripWithoutMention(text[1..], name);
      assert [text[0]] + text[1..] == text;
    }
  }

  /** A leading mention and the white space after it disappear. */
  lemma LeadingMentionStripped(name: string, ws: string, b: string)
    requires forall i :: 0 <= i < |ws| ==> IsSpace(ws[i])
    requires |b| > 0 ==> !IsSpace(b[0])
    requires !Contains(b, "@" + name)
    ensures StripMentions("@" + name + ws + b, name) == b
  {
    assert "@" + name + ws + b == "@" + name + (ws + b);
    StripLeadingMention(name, ws + b);
    TrimStartPadded(ws, b);
    StripWithoutMention(b, name);
  }

  /** One step of the scan at a mention: the white space after it goes too. */
  lemma StripLeadingMention(name: string, rest: string)
    ensures StripMentions("@" + name + rest, name) == StripMentions(TrimStart(rest), name)
  {
    var tag := "@" + name;
    var t := tag + rest;
    assert tag <= t;
    assert t[|tag|..] == rest;
  }

  /** A mention after other text goes too, with the white space after it;
      the text before it is kept and the scan carries on after it. The text
      before it may hold other `@` mentions, but not this one. */
  lemma {:induction false} StripMidMention(a: string, name: string, rest: string)
    requires '@' !in name && !Contains(a, "@" + name)
    ensures StripMentions(a + ("@" + name + rest), name) == a + StripMentions(TrimStart(rest), name)
    decreases |a|
  {
    var m := "@" + name + rest;
    if |a| == 0 {
      assert a + m == m;
      StripLeadingMention(name, rest);
    } else {
      var tail := StripMentions(TrimStart(rest), name);
      HeadThenRest(a, m);
      NoMentionAtStart(a, name, m);
      assert !Contains(a[1..], "@" + name);
      StripMidMention(a[1..], name, rest);
      HeadThenRest(a, tail);
    }
  }

  /** The first character of `a` followed by the rest of `a + b`. */
  lemma HeadThenRest(a: string, b: string)
    requires |a| > 0
    ensures (a + b)[0] == a[0] && (a + b)[1..] == a[1..] + b
    ensures [a[0]] + (a[1..] + b) == a + b
  {
    assert [a[0]] + a[1..] == a;
  }

  /** Before a mention of `name`, a text that does not mention `name`
      offers no match at its first character: a match would either lie
      inside it or put the mention's `@` inside `name`. So the scan keeps
      that character and moves on. */
  lemma NoMentionAtStart(a: string, name: string, m: string)
    requires |a| > 0 && '@' !in name && !Contains(a, "@" + name)
    requires |m| > 0 && m[0] == '@'
    ensures StripMentions(a + m, name) == [a[0]] + StripMentions((a + m)[1..], name)
  {
    var tag := "@" + name;
    var t := a + m;
    assert !(tag <= a);
    if |tag| <= |a| {
      assert t[..|tag|] == a[..|tag|];
    } else {
      assert t[|a|] == '@';
      assert tag[|a|] == name[|a| - 1];
    }
    assert !(tag <= t);
  }

  // ---------------------------------------------------------------------
  // Routing

  /** The filters every message meets before it is looked at: not the
      account's own, a text message, not blank, and, with a target user
      configured, from that user unless it comes from a group. */
  predicate Admitted(m: Message, me: Account, targetUser: string)
  {
    && m.talkerId != me.id
    && m.msgType == TextMessage
    && Trim(m.text) != ""
    && !(targetUser != "" && m.talkerName != targetUser && m.room.None?)
  }

  /** The group path: answered only when the text names the account or the
      client flags a mention; the mentions are stripped and the rest
      trimmed, and nothing is sent when nothing is left. */
  function GroupAction(m: Message, me: Account): (a: Action)
    ensures a != Ignore ==>
              && (Contains(m.text, me.name) || m.mentionsSelf)
              && a == GroupChat("group_" + m.talkerName, Trim(StripMentions(m.text, me.name)), m.talkerName)
              && a.content != ""
    ensures (Contains(m.text, me.name) || m.mentionsSelf) && Trim(StripMentions(m.text, me.name)) != "" ==> a != Ignore
  {
    if Contains(m.text, me.name) || m.mentionsSelf then
      var clean := Trim(StripMentions(m.text, me.name));
      if clean != "" then GroupChat("group_" + m.talkerName, clean, m.talkerName) else Ignore
    else Ignore
  }

  /** The private path: scene requests first, then selfie requests, then
      ordinary chat under the sender's name. */
  function PrivateAction(text: string, sender: string): (a: Action)
    ensures a != Ignore
    ensures a.ScenePhoto? <==> Manager.IsScenePhotoRequest(text)
    ensures a.SelfiePhoto? <==> !Manager.IsScenePhotoRequest(text) && Manager.IsSelfieRequest(text)
    ensures a.Chat? <==> !Manager.IsScenePhotoRequest(text) && !Manager.IsSelfieRequest(text)
    ensures a.Chat? ==> a == Chat(sender, text)
  {
    if Manager.IsScenePhotoRequest(text) then ScenePhoto(text)
    else if Manager.IsSelfieRequest(text) then SelfiePhoto(text)
    else Chat(sender, text)
  }

  /** The first private sender becomes the scheduler's target, if the
      scheduler is enabled and has none. */
  function AdoptTarget(sched: Scheduler.Scheduler, sender: string): (r: Scheduler.Scheduler)
    ensures sched.target.None? && sched.enabled ==> r.target == Some(Scheduler.Contact(sender))
    ensures sched.target.Some? || !sched.enabled ==> r == sched
    ensures r.timers == sched.timers && r.bot == sched.bot && r.enabled == sched.enabled
  {
    if sched.target.None? && sched.enabled
    then Scheduler.SetTargetContact(sched, Scheduler.Contact(sender))
    else sched
  }

  /** `onMessage`: the filters, then the group path for a group message or
      the target adoption and the private path for a private one. Only a
      private message that passes the filters can change the scheduler. */
  function Route(m: Message, me: Account, targetUser: string, sched: Scheduler.Scheduler): (r: Routed)
    ensures !Admitted(m, me, targetUser) ==> r == Routed(Ignore, sched)
    ensures Admitted(m, me, targetUser) && m.room.Some? ==> r == Routed(GroupAction(m, me), sched)
    ensures Admitted(m, me, targetUser) && m.room.None? ==>
              r == Routed(PrivateAction(m.text, m.talkerName), AdoptTarget(sched, m.talkerName))
  {
    if m.talkerId == me.id then Routed(Ignore, sched)
    else if m.msgType != TextMessage then Routed(Ignore, sched)
    else if Trim(m.text) == "" then Routed(Ignore, sched)
    else if targetUser != "" && m.talkerName != targetUser && m.room.None? then Routed(Ignore, sched)
    else if m.room.Some? then Routed(GroupAction(m, me), sched)
    else Routed(PrivateAction(m.text, m.talkerName), AdoptTarget(sched, m.talkerName))
  }

  /** What `Route` promises about any message: an answer only after the
      filters, a group answer only when addressed and non-empty, and the
      scene-before-selfie order for private messages. */
  lemma RouteDecision(m: Message, me: Account, targetUser: string, sched: Scheduler.Scheduler)
    ensures var r := Route(m, me, targetUser, sched);
            && (r.action != Ignore ==> m.talkerId != me.id && m.msgType == TextMessage && Trim(m.text) != "")
            && (targetUser != "" && m.talkerName != targetUser && m.room.None? ==> r.action == Ignore)
            && (m.room.Some? ==> r.scheduler == sched)
            && (m.room.Some? && r.action != Ignore ==> (Contains(m.text, me.name) || m.mentionsSelf) && r.action.GroupChat?)
            && (m.room.None? && r.action != Ignore ==>
                  (r.action.ScenePhoto? <==> Manager.IsScenePhotoRequest(m.text)))
  {
  }

  /** Every private message that passes the filters is answered; its sender
      becomes the scheduler's target exactly when there was none and the
      scheduler is enabled, and the timers, bot and switch are untouched. */
  lemma PrivateMessageAnswered(m: Message, me: Account, targetUser: string, sched: Scheduler.Scheduler)
    requires m.talkerId != me.id && m.msgType == TextMessage && Trim(m.text) != ""
    requires targetUser == "" || m.talkerName == targetUser
    requires m.room.None?
    ensures var r := Route(m, me, targetUser, sched);
            && r.action != Ignore
            && (sched.target.None? && sched.enabled ==> r.scheduler.target == Some(Scheduler.Contact(m.talkerName)))
            && (sched.target.Some? || !sched.enabled ==> r.scheduler == sched)
            && r.scheduler.timers == sched.timers && r.scheduler.bot == sched.bot
  {
  }

  /** A group message is never ignored for coming from someone other than
      the target user. */
  lemma GroupMessagesBypassTarget(m: Message, me: Account, targetUser: string, sched: Scheduler.Scheduler)
    requires m.room.Some?
    ensures Route(m, me, targetUser, sched) == Route(m, me, "", sched)
  {
  }

  /** A group message that starts by mentioning the account, followed by
      white space and a question, is answered with the question, under the
      sender's group id. */
  lemma LeadingMentionAnswered(m: Message, me: Account, ws: string, question: string)
    requires forall i :: 0 <= i < |ws| ==> IsSpace(ws[i])
    requires |question| > 0 && !IsSpace(question[0]) && !IsSpace(question[|question| - 1])
    requires !Contains(question, "@" + me.name)
    requires m.text == "@" + me.name + ws + question
    ensures GroupAction(m, me) == GroupChat("group_" + m.talkerName, question, m.talkerName)
  {
    LeadingMentionStripped(me.name, ws, question);
    TrimUnpadded(question);
    MentionNamesAccount(m.text, me.name, ws, question);
    AddressedGroupAction(m, me, question);
  }

  /** An addressed group message whose cleaned text is `question` is
      answered with it. */
  lemma AddressedGroupAction(m: Message, me: Account, question: string)
    requires Contains(m.text, me.name)
    requires Trim(StripMentions(m.text, me.name)) == question && question != ""
    ensures GroupAction(m, me) == GroupChat("group_" + m.talkerName, question, m.talkerName)
  {
  }

  /** A text holding a mention of the account holds the account's name. */
  lemma MentionNamesAccount(t: string, name: string, ws: string, b: string)
    requires t == "@" + name + ws + b
    ensures Contains(t, name)
  {
    ContainsConcat("@", name, ws + b);
    assert "@" + name + (ws + b) == t;
  }

  /** "看看你家" holds the selfie word "看看你" but is a scene request, and
      the scene check comes first. */
  lemma SceneBeforeSelfie(text: string, sender: string)
    requires text == "看看你家"
    ensures Manager.IsSelfieRequest(text) && Manager.IsScenePhotoRequest(text)
    ensures PrivateAction(text, sender) == ScenePhoto(text)
  {
    Manager.KeywordAnywhereIsRequest("", "家", 4, 6);
    assert "" + Manager.SelfieKeywords[4] + "家" == text;
    Manager.KeywordAnywhereIsRequest("", "", 4, 6);
    assert "" + Manager.SceneKeywords[6] + "" == text;
  }

  // ---------------------------------------------------------------------
  // The image paths

  /** What the handler sends back: a text, or an image file. */
  datatype Say = Words(text: string) | Image(path: string)

  const SelfieDisabledReply: string := "嘿嘿，我现在在家穿着睡衣呢，不好意思拍啦😝"
  const SelfieWaitReply: string := "等一下哦，我拍一张给你～📸"
  const SelfieFailedReply: string := "啊...手机摄像头好像坏了😭 下次再拍给你吧"
  const SelfieSendFailedReply: string := "拍了但是发不出去...信号太差了😅"
  const SelfieCaptions: seq<string> := ["看看，好看嘛😊", "拍了好几张选的这张！", "嘿嘿，怎么样～", "给你拍的哦❤️", "凑合看吧哈哈"]

  /** `handleSelfieRequest`. `imageUrl` is what `generateSelfie` returned,
      `download` what `downloadToTemp` returned, `sendFails` whether sending
      the image file throws, and `draw` the `Math.random()` value for the
      caption. With the feature off only the excuse is sent. Otherwise the
      waiting note comes first; then the image and a caption, the camera
      excuse when no image came back, nothing more when the download
      failed, or the signal excuse when sending the image threw. */
  function SelfieReplies(enabled: bool, imageUrl: Option<string>, download: Option<string>,
                         sendFails: bool, draw: real): (r: seq<Say>)
    requires 0.0 <= draw < 1.0
    ensures !enabled ==> r == [Words(SelfieDisabledReply)]
    ensures enabled ==> |r| >= 1 && r[0] == Words(SelfieWaitReply)
    ensures (exists i :: 0 <= i < |r| && r[i].Image?) <==> enabled && imageUrl.Some? && download.Some?
    ensures enabled && imageUrl.Some? && download.Some? && !sendFails ==>
              |r| == 3 && r[1] == Image(download.value) && r[2].Words? && r[2].text in SelfieCaptions
  {
    if !enabled then [Words(SelfieDisabledReply)]
    else if imageUrl.None? then [Words(SelfieWaitReply), Words(SelfieFailedReply)]
    else if download.None? then [Words(SelfieWaitReply)]
    else if sendFails then
      var r := [Words(SelfieWaitReply), Image(download.value), Words(SelfieSendFailedReply)];
      assert r[1].Image?;
      r
    else
      var r := [Words(SelfieWaitReply), Image(download.value), Words(SelfieCaptions[PickIndex(draw, |SelfieCaptions|)])];
      assert r[1].Image?;
      r
  }

  /** The caption families of the scene photo path. */
  datatype CaptionCategory = CatCaption | RoomCaption | OfficeCaption | KitchenCaption | DefaultCaption

  /** The category tests of `handleScenePhotoRequest`, in order; these
      regular expressions have no `/i` flag. */
  const CaptionRows: seq<Row<CaptionCategory>> := [
    Row(["团团", "猫", "喵"], CatCaption),
    Row(["房间", "家", "客厅"], RoomCaption),
    Row(["办公", "工位", "公司"], OfficeCaption),
    Row(["厨房", "烘焙", "做饭", "蛋糕"], KitchenCaption)
  ]

  /** The caption family: the first category whose words the text contains,
      the default family when none does. */
  function CaptionCategoryOf(text: string): (r: CaptionCategory)
    ensures r == DefaultCaption <==> forall j :: 0 <= j < |CaptionRows| ==> !MentionsAny(text, CaptionRows[j].words, Sensitive)
    ensures r != DefaultCaption ==>
              exists j :: 0 <= j < |CaptionRows| && CaptionRows[j].value == r && MentionsAny(text, CaptionRows[j].words, Sensitive)
                && forall k :: 0 <= k < j ==> !MentionsAny(text, CaptionRows[k].words, Sensitive)
  {
    Classify(CaptionRows, text, Sensitive, DefaultCaption)
  }

  /** The cat wins over every other family. */
  lemma CatCaptionFirst(a: string, i: int, b: string)
    requires 0 <= i < |CaptionRows[0].words|
    ensures CaptionCategoryOf(a + CaptionRows[0].words[i] + b) == CatCaption
  {
    MentionsAnyConcat(a, CaptionRows[0].words, i, b, Sensitive);
    assert FirstRow(CaptionRows, a + CaptionRows[0].words[i] + b, Sensitive) == Some(0);
  }

  function Captions(c: CaptionCategory): (r: seq<string>)
    ensures |r| == 3
  {
    match c
    case CatCaption => ["看！团团今天超乖的🐱", "它又在犯困了哈哈", "这小胖子今天偷吃了我的零食😤"]
    case RoomCaption => ["我家虽然小但是很温馨吧～", "刚收拾完的！", "嘿嘿，还行吧"]
    case OfficeCaption => ["这就是我的工位啦～", "今天办公室没什么人", "我的工位最乱哈哈"]
    case KitchenCaption => ["看我今天的成果！", "虽然卖相不行但味道还行...吧", "这次没翻车！"]
    case DefaultCaption => ["给你拍了一张～", "看看！", "拍了一张哦"]
  }

  const SceneDisabledReply: string := "手机没电了拍不了😭 下次给你拍！"
  const SceneWaitReply: string := "等等哦，我拍一张📸"
  const SceneFailedReply: string := "拍了但是太模糊了...手抖了😅"
  const SceneSendFailedReply: string := "手机存储满了发不了图😅"

  /** `handleScenePhotoRequest`, with the same parameters as
      `SelfieReplies`; the caption comes from the text's caption family. */
  function ScenePhotoReplies(text: string, enabled: bool, imageUrl: Option<string>, download: Option<string>,
                             sendFails: bool, draw: real): (r: seq<Say>)
    requires 0.0 <= draw < 1.0
    ensures !enabled ==> r == [Words(SceneDisabledReply)]
    ensures enabled ==> |r| >= 1 && r[0] == Words(SceneWaitReply)
    ensures (exists i :: 0 <= i < |r| && r[i].Image?) <==> enabled && imageUrl.Some? && download.Some?
    ensures enabled && imageUrl.Some? && download.Some? && !sendFails ==>
              |r| == 3 && r[1] == Image(download.value) && r[2].Words? && r[2].text in Captions(CaptionCategoryOf(text))
  {
    if !enabled then [Words(SceneDisabledReply)]
    else if imageUrl.None? then [Words(SceneWaitReply), Words(SceneFailedReply)]
    else if download.None? then [Words(SceneWaitReply)]
    else if sendFails then
      var r := [Words(SceneWaitReply), Image(download.value), Words(SceneSendFailedReply)];
      assert r[1].Image?;
      r
    else
      var pool := Captions(CaptionCategoryOf(text));
      var r := [Words(SceneWaitReply), Image(download.value), Words(pool[PickIndex(draw, |pool|)])];
      assert r[1].Image?;
      r
  }

  // ---------------------------------------------------------------------
  // Login and logout

  /** `onLogin`: the scheduler is started with the bot; with a target user
      configured and found among the contacts (`found`), that contact
      becomes the target. */
  function Login(sched: Scheduler.Scheduler, bot: Scheduler.Bot, handle: Scheduler.Handle,
                 targetUser: string, found: Option<Scheduler.Contact>): (r: Scheduler.Scheduler)
    ensures r.bot == Some(bot) && r.enabled == sched.enabled
    ensures targetUser != "" && found.Some? ==> r.target == found
    ensures targetUser == "" || found.None? ==> r.target == sched.target
    ensures r.timers == Scheduler.Init(sched, bot, handle).timers
  {
    var started := Scheduler.Init(sched, bot, handle);
    if targetUser != "" && found.Some? then Scheduler.SetTargetContact(started, found.value) else started
  }

  /** `onLogout`: the scheduler's timers are stopped; its target and bot are
      kept. */
  function Logout(sched: Scheduler.Scheduler): (r: Scheduler.Scheduler)
    ensures r.timers == [] && r.target == sched.target && r.bot == sched.bot
  {
    Scheduler.Stop(sched)
  }

  /** A logout after a login keeps the target chosen at login, so a later
      login without a configured target greets the same contact. */
  lemma TargetSurvivesLogout(sched: Scheduler.Scheduler, bot: Scheduler.Bot, h1: Scheduler.Handle, h2: Scheduler.Handle,
                             targetUser: string, c: Scheduler.Contact)
    requires targetUser != ""
    ensures var again := Login(Logout(Login(sched, bot, h1, targetUser, Some(c))), bot, h2, "", None);
            again.target == Some(c) && |again.timers| == (if sched.enabled then 1 else 0)
  {
  }
}
