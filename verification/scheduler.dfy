/** The proactive scheduler: a timer lifecycle and a once-a-minute check that
    decides which greetings are due and picks one message from each
    greeting's pool.

    Timers are opaque handles supplied by the caller (the value `setInterval`
    would return); the clock reading and the `Math.random()` draws are
    parameters. The contact and the bot are opaque values whose only role
    here is to be present or absent. */
module Scheduler {
  import opened Wrappers
  import opened Keywords

  type Handle = nat

  /** The greeting target, known by its display name. */
  datatype Contact = Contact(name: string)

  /** The logged-in bot, known by its own user id. */
  datatype Bot = Bot(selfId: string)

  /** The scheduler's fields: the live interval handles, the target contact,
      the bot, and whether the feature is switched on. */
  datatype Scheduler = Scheduler(timers: seq<Handle>, target: Option<Contact>, bot: Option<Bot>, enabled: bool)

  // ---------------------------------------------------------------------
  // Lifecycle

  /** The constructor: no timers, no target, no bot. `enabled` is whether the
      environment switch reads exactly `true`. */
  function New(enabled: bool): (r: Scheduler)
    ensures r.timers == [] && r.target.None? && r.bot.None? && r.enabled == enabled
  {
    Scheduler([], None, None, enabled)
  }

  /** `init`: the bot is recorded in every case; a disabled scheduler starts
      no timer, an enabled one starts exactly one interval. */
  function Init(s: Scheduler, bot: Bot, handle: Handle): (r: Scheduler)
    ensures r.bot == Some(bot)
    ensures !s.enabled ==> r.timers == s.timers
    ensures s.enabled ==> r.timers == s.timers + [handle]
    ensures r.target == s.target && r.enabled == s.enabled
  {
    var withBot := s.(bot := Some(bot));
    if !s.enabled then withBot else withBot.(timers := withBot.timers + [handle])
  }

  /** `setTargetContact`: the target is replaced whatever it was. */
  function SetTargetContact(s: Scheduler, c: Contact): (r: Scheduler)
    ensures r.target == Some(c)
    ensures r.timers == s.timers && r.bot == s.bot && r.enabled == s.enabled
  {
    s.(target := Some(c))
  }

  /** `stop`: every timer is cleared and the list emptied; the target and
      the bot stay. */
  function Stop(s: Scheduler): (r: Scheduler)
    ensures r.timers == []
    ensures r.target == s.target && r.bot == s.bot && r.enabled == s.enabled
  {
    s.(timers := [])
  }

  /** Stopping twice is stopping once. */
  lemma StopIdempotent(s: Scheduler)
    ensures Stop(Stop(s)) == Stop(s)
  {
  }

  /** Starting a fresh scheduler leaves one timer exactly when it is
      enabled, and stopping it afterwards leaves none; the bot stays known. */
  lemma InitThenStop(enabled: bool, bot: Bot, handle: Handle)
    ensures |Init(New(enabled), bot, handle).timers| == (if enabled then 1 else 0)
    ensures Stop(Init(New(enabled), bot, handle)).timers == []
    ensures Stop(Init(New(enabled), bot, handle)).bot == Some(bot)
  {
  }

  // ---------------------------------------------------------------------
  // The minute check

  /** A wall-clock time of day, hours and minutes. */
  datatype Clock = Clock(hour: int, minute: int)

  const DefaultMorning: Clock := Clock(8, 0)
  const DefaultEvening: Clock := Clock(22, 30)
  /** The lunch reminder time is fixed, not configurable. */
  const LunchTime: Clock := Clock(12, 0)

  /** A configured time, or the default when the setting is absent. */
  function ConfiguredTime(setting: Option<Clock>, default: Clock): (r: Clock)
    ensures setting.Some? ==> r == setting.value
    ensures setting.None? ==> r == default
  {
    setting.GetOr(default)
  }

  datatype Greeting = Morning | Evening | Lunch

  /** The order in which each tick considers the greetings. */
  function Rank(g: Greeting): nat
  {
    match g
    case Morning => 0
    case Evening => 1
    case Lunch => 2
  }

  /** The greeting's name as `_sendGreeting` receives it. */
  function Name(g: Greeting): string
  {
    match g
    case Morning => "morning"
    case Evening => "evening"
    case Lunch => "lunch"
  }

  /** `_checkAndSend`: the greetings due at `now`, in the order they are
      attempted. Nothing is due without a target or a bot. Each greeting is
      due exactly when the clock shows its time; the three checks are
      independent, so equal times give one attempt each, in the order
      morning, evening, lunch. */
  function Due(s: Scheduler, now: Clock, morning: Option<Clock>, evening: Option<Clock>): (r: seq<Greeting>)
    ensures s.target.None? || s.bot.None? ==> r == []
    ensures s.target.Some? && s.bot.Some? ==>
              && (Morning in r <==> now == ConfiguredTime(morning, DefaultMorning))
              && (Evening in r <==> now == ConfiguredTime(evening, DefaultEvening))
              && (Lunch in r <==> now == LunchTime)
    ensures forall i, j :: 0 <= i < j < |r| ==> Rank(r[i]) < Rank(r[j])
  {
    if s.target.None? || s.bot.None? then []
    else
      (if now == ConfiguredTime(morning, DefaultMorning) then [Morning] else [])
      + (if now == ConfiguredTime(evening, DefaultEvening) then [Evening] else [])
      + (if now == LunchTime then [Lunch] else [])
  }

  /** With the default times, 12:00 brings only the lunch reminder, 08:00
      only the morning greeting and 22:30 only the evening one. */
  lemma DefaultSchedule(s: Scheduler)
    requires s.target.Some? && s.bot.Some?
    ensures Due(s, Clock(12, 0), None, None) == [Lunch]
    ensures Due(s, Clock(8, 0), None, None) == [Morning]
    ensures Due(s, Clock(22, 30), None, None) == [Evening]
    ensures Due(s, Clock(9, 0), None, None) == []
  {
  }

  /** Both configured times set to noon: three attempts, no deduplication. */
  lemma OverlappingTimesAllFire(s: Scheduler)
    requires s.target.Some? && s.bot.Some?
    ensures Due(s, LunchTime, Some(LunchTime), Some(LunchTime)) == [Morning, Evening, Lunch]
  {
  }

  // ---------------------------------------------------------------------
  // Greeting selection and delivery

  const MorningPool: seq<string> := [
    "早安呀宝～起床了没😘",
    "宝贝早上好呀～今天也要加油哦❤️",
    "起床啦起床啦！新的一天开始咯😊",
    "早～昨晚睡得好嘛？",
    "宝早安！今天天气怎么样呀"
  ]

  const LunchPool: seq<string> := [
    "宝你吃午饭了吗？别忘了吃饭哦",
    "中午了！去吃饭啦，别饿着😋",
    "吃午饭了没呀～今天吃什么好呢",
    "该吃饭啦！不许不吃哦"
  ]

  const EveningPool: seq<string> := [
    "宝贝早点休息哦，明天还要上班呢😘",
    "晚安呀～做个好梦💤",
    "该睡觉了哦，不要熬夜嘛",
    "困了困了...宝你也早点睡吧，晚安❤️",
    "晚安宝贝，想你～明天见😘"
  ]

  /** `greetings[type] || greetings.morning`: the pool for a greeting name,
      the morning pool for any other name. */
  function PoolFor(kind: string): (r: seq<string>)
    ensures |r| > 0
    ensures kind != "lunch" && kind != "evening" ==> r == MorningPool
  {
    if kind == "lunch" then LunchPool
    else if kind == "evening" then EveningPool
    else MorningPool
  }

  /** Each greeting a tick sends draws from its own pool. */
  lemma PoolOfEachGreeting()
    ensures PoolFor(Name(Morning)) == MorningPool
    ensures PoolFor(Name(Evening)) == EveningPool
    ensures PoolFor(Name(Lunch)) == LunchPool
  {
  }

  /** `messages[Math.floor(Math.random() * messages.length)]`: always one of
      the pool's messages. */
  function SelectGreeting(kind: string, draw: real): (m: string)
    requires 0.0 <= draw < 1.0
    ensures m in PoolFor(kind)
  {
    var pool := PoolFor(kind);
    pool[PickIndex(draw, |pool|)]
  }

  /** One delivery attempt and how it ended; a failure is only logged. */
  datatype Attempt = Attempt(greeting: Greeting, message: string, delivered: bool)

  /** The attempts of one minute check. The i-th due greeting uses the i-th
      random draw, and `failures` says which deliveries throw. A failed
      delivery is caught inside `_sendGreeting`, so every due greeting is
      attempted whatever happened to the ones before it. */
  function RunTick(s: Scheduler, now: Clock, morning: Option<Clock>, evening: Option<Clock>,
                   draws: seq<real>, failures: seq<bool>): (r: seq<Attempt>)
    requires |draws| >= 3 && |failures| >= 3
    requires forall i :: 0 <= i < |draws| ==> 0.0 <= draws[i] < 1.0
    ensures |r| == |Due(s, now, morning, evening)|
    ensures forall i :: 0 <= i < |r| ==>
              && r[i].greeting == Due(s, now, morning, evening)[i]
              && r[i].message in PoolFor(Name(r[i].greeting))
              && r[i].delivered == !failures[i]
  {
    var due := Due(s, now, morning, evening);
    seq(|due|, i requires 0 <= i < |due| =>
      Attempt(due[i], SelectGreeting(Name(due[i]), draws[i]), !failures[i]))
  }

  /** Even when every delivery fails, a noon check with both configured times
      at noon still attempts all three greetings. */
  lemma FailuresDoNotStopLaterGreetings(s: Scheduler, draws: seq<real>)
    requires s.target.Some? && s.bot.Some?
    requires |draws| >= 3
    requires forall i :: 0 <= i < |draws| ==> 0.0 <= draws[i] < 1.0
    ensures var r := RunTick(s, LunchTime, Some(LunchTime), Some(LunchTime), draws, [true, true, true]);
            |r| == 3 && r[2].greeting == Lunch && !r[2].delivered && r[2].message in LunchPool
  {
    OverlappingTimesAllFire(s);
  }
}
