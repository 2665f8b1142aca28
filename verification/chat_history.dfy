/** The conversation store: per-user dialogue logs bounded first-in-first-out
    at `maxHistoryLength`, per-user remembered facts with last-write-wins
    update, and the two persistence files that are rewritten in full after
    every mutation and read back when the process starts.

    The store is an immutable value; every mutation returns the next store,
    including the new contents of the affected file. */
module ChatHistory {
  import opened Wrappers
  import opened Text

  type UserId = string

  /** The author of a turn, as the language-model API names it. */
  datatype Role = System | User | Assistant

  /** A logged turn; `timestamp` is the ISO time string taken when it was added. */
  datatype Entry = Entry(role: Role, content: string, timestamp: string)

  /** A turn as sent to the language model: the log entry without its time. */
  datatype ApiMessage = ApiMessage(role: Role, content: string)

  /** A remembered fact about a user. */
  datatype Fact = Fact(value: string, updatedAt: string)

  datatype MemoryItem = MemoryItem(key: string, fact: Fact)

  ghost predicate UniqueKeys(m: seq<MemoryItem>)
  {
    forall i, j :: 0 <= i < j < |m| ==> m[i].key != m[j].key
  }

  /** A user's facts as a JavaScript object holds them: at most one fact per
      key, keys in the order they were first written. */
  type Memory = m: seq<MemoryItem> | UniqueKeys(m) witness []

  /** The content of a persistence file: absent, unreadable, or a table. */
  datatype Document<T> = Missing | Corrupt | Doc(table: T)

  type HistoryTable = map<UserId, seq<Entry>>
  type MemoryTable = map<UserId, Memory>

  /** The history file and the memory file. */
  datatype Disk = Disk(historyFile: Document<HistoryTable>, memoryFile: Document<MemoryTable>)

  datatype Store = Store(
    maxHistoryLength: nat,
    histories: HistoryTable,
    userMemory: MemoryTable,
    disk: Disk)

  /** The header line the memory prompt starts with. */
  const MemoryHeader: string := "\n## 你记住的关于对方的信息\n"

  // ---------------------------------------------------------------------
  // Loading and saving

  /** Reading one file at start-up: a readable table is taken as it is (it
      is not re-checked against the bound), a missing or unreadable file
      leaves the table empty. */
  function LoadTable<T>(d: Document<map<UserId, T>>): map<UserId, T>
  {
    match d
    case Doc(t) => t
    case _ => map[]
  }

  /** The constructor: both tables read from their files. */
  function Load(maxHistoryLength: nat, disk: Disk): (s: Store)
    ensures s.disk == disk && s.maxHistoryLength == maxHistoryLength
    ensures disk.historyFile.Doc? ==> s.histories == disk.historyFile.table
    ensures !disk.historyFile.Doc? ==> s.histories == map[]
    ensures disk.memoryFile.Doc? ==> s.userMemory == disk.memoryFile.table
    ensures !disk.memoryFile.Doc? ==> s.userMemory == map[]
  {
    Store(maxHistoryLength, LoadTable(disk.historyFile), LoadTable(disk.memoryFile), disk)
  }

  /** What a process started on the files the store has written would see. */
  function Restart(s: Store): Store
  {
    Load(s.maxHistoryLength, s.disk)
  }

  /** The files hold exactly the in-memory tables, as far as loading can tell. */
  predicate Persisted(s: Store)
  {
    LoadTable(s.disk.historyFile) == s.histories && LoadTable(s.disk.memoryFile) == s.userMemory
  }

  // ---------------------------------------------------------------------
  // Dialogue logs

  /** The log of `user`, empty when there is none. */
  function LogOf(s: Store, user: UserId): seq<Entry>
  {
    if user in s.histories then s.histories[user] else []
  }

  /** Push `e`, then drop the oldest entry if the log has grown past `bound`.
      The result is a suffix of `log + [e]`; it is one longer than `log`
      while there is room, and as long as `log` otherwise. */
  function BoundedAppend(log: seq<Entry>, e: Entry, bound: nat): (r: seq<Entry>)
    ensures |log| < bound ==> r == log + [e]
    ensures |log| >= bound ==> |r| == |log| && r == (log + [e])[1..]
    ensures |log| <= bound ==> |r| <= bound
    ensures bound > 0 ==> r[|r| - 1] == e
  {
    var pushed := log + [e];
    if |pushed| > bound then pushed[1..] else pushed
  }

  /** `e` is the newest entry of `log`. */
  predicate Newest(log: seq<Entry>, e: Entry)
  {
    |log| >= 1 && log[|log| - 1] == e
  }

  /** `e1` and then `e2` are the two newest entries of `log`. */
  predicate NewestTwo(log: seq<Entry>, e1: Entry, e2: Entry)
  {
    |log| >= 2 && log[|log| - 2] == e1 && log[|log| - 1] == e2
  }

  /** Two pushes in a row leave the two pushed entries as the newest two, in
      order, once the bound allows two entries. */
  lemma BoundedAppendTwice(log: seq<Entry>, e1: Entry, e2: Entry, bound: nat)
    requires bound >= 2
    ensures NewestTwo(BoundedAppend(BoundedAppend(log, e1, bound), e2, bound), e1, e2)
  {
    var mid := BoundedAppend(log, e1, bound);
    assert |mid| >= 1 && mid[|mid| - 1] == e1;
    var r := BoundedAppend(mid, e2, bound);
    if |mid| < bound {
      assert r == mid + [e2];
    } else {
      assert r == (mid + [e2])[1..];
      assert r[|r| - 2] == mid[|mid| - 1];
    }
  }

  /** `addMessage`: appends a turn to the user's log (creating the log),
      evicts the oldest turn when the log outgrows the bound, and rewrites
      the history file. Other users' logs and the memory are unchanged. */
  function AddMessage(s: Store, user: UserId, role: Role, content: string, now: string): (r: Store)
    ensures r.histories.Keys == s.histories.Keys + {user}
    ensures r.histories[user] == BoundedAppend(LogOf(s, user), Entry(role, content, now), s.maxHistoryLength)
    ensures forall u :: u in s.histories && u != user ==> r.histories[u] == s.histories[u]
    ensures r.userMemory == s.userMemory && r.maxHistoryLength == s.maxHistoryLength
    ensures r.disk == s.disk.(historyFile := Doc(r.histories))
  {
    var log := BoundedAppend(LogOf(s, user), Entry(role, content, now), s.maxHistoryLength);
    var hs := s.histories[user := log];
    s.(histories := hs, disk := s.disk.(historyFile := Doc(hs)))
  }

  /** `getHistory`: the user's log in order, each turn without its time;
      empty for an unknown user. */
  function GetHistory(s: Store, user: UserId): (r: seq<ApiMessage>)
    ensures |r| == |LogOf(s, user)|
    ensures forall i :: 0 <= i < |r| ==>
              r[i] == ApiMessage(LogOf(s, user)[i].role, LogOf(s, user)[i].content)
    ensures user !in s.histories ==> r == []
  {
    var log := LogOf(s, user);
    seq(|log|, i requires 0 <= i < |log| => ApiMessage(log[i].role, log[i].content))
  }

  /** `Array.prototype.slice(start)` for an integer `start`: a negative
      start counts from the end, and either kind is clamped to the array. */
  function SliceFrom<T>(xs: seq<T>, start: int): seq<T>
  {
    var from :=
      if start < 0 then (if |xs| + start < 0 then 0 else |xs| + start)
      else (if start > |xs| then |xs| else start);
    xs[from..]
  }

  /** `getRecentSummary(user, count)`, which is `log.slice(-count)`: the last
      `count` turns (all of them if there are fewer) with their times. A
      count of 0 yields the whole log, since `slice(-0)` is `slice(0)`, and a
      negative count drops that many turns from the front. */
  function GetRecentSummary(s: Store, user: UserId, count: int): (r: seq<Entry>)
    ensures count >= 1 && count <= |LogOf(s, user)| ==>
              r == LogOf(s, user)[|LogOf(s, user)| - count..]
    ensures count >= |LogOf(s, user)| ==> r == LogOf(s, user)
    ensures count == 0 ==> r == LogOf(s, user)
    ensures count < 0 && -count <= |LogOf(s, user)| ==> r == LogOf(s, user)[-count..]
    ensures count < 0 && -count > |LogOf(s, user)| ==> r == []
  {
    SliceFrom(LogOf(s, user), -count)
  }

  /** `clearHistory`: forgets the user's log and rewrites the history file;
      for a user without a log nothing changes and nothing is written. The
      memory is never touched. */
  function ClearHistory(s: Store, user: UserId): (r: Store)
    ensures user !in r.histories && GetHistory(r, user) == []
    ensures r.histories.Keys == s.histories.Keys - {user}
    ensures forall u :: u in r.histories ==> r.histories[u] == s.histories[u]
    ensures r.userMemory == s.userMemory && r.maxHistoryLength == s.maxHistoryLength
    ensures user !in s.histories ==> r == s
    ensures user in s.histories ==> r.disk == s.disk.(historyFile := Doc(r.histories))
  {
    if user in s.histories then
      var hs := s.histories - {user};
      s.(histories := hs, disk := s.disk.(historyFile := Doc(hs)))
    else
      s
  }

  // ---------------------------------------------------------------------
  // Remembered facts

  /** The position of `key` among the facts, if present. */
  function KeyIndex(m: seq<MemoryItem>, key: string): (r: Option<nat>)
    ensures r.Some? ==> r.value < |m| && m[r.value].key == key
    ensures r.Some? ==> forall j :: 0 <= j < r.value ==> m[j].key != key
    ensures r.None? <==> forall j :: 0 <= j < |m| ==> m[j].key != key
    decreases |m|
  {
    if |m| == 0 then None
    else if m[0].key == key then Some(0)
    else
      match KeyIndex(m[1..], key)
      case None => None
      case Some(i) => Some(i + 1)
  }

  /** Positions depend only on the sequence of keys. */
  lemma KeyIndexOfSameKeys(m: seq<MemoryItem>, n: seq<MemoryItem>, key: string)
    requires |m| == |n|
    requires forall j :: 0 <= j < |m| ==> m[j].key == n[j].key
    ensures KeyIndex(m, key) == KeyIndex(n, key)
  {
  }

  /** The fact stored under `key`, if any. */
  function Lookup(m: seq<MemoryItem>, key: string): (r: Option<Fact>)
    ensures r.Some? <==> exists i :: 0 <= i < |m| && m[i].key == key
    ensures r.Some? ==> exists i :: 0 <= i < |m| && m[i] == MemoryItem(key, r.value)
  {
    match KeyIndex(m, key)
    case Some(i) =>
      assert m[i] == MemoryItem(key, m[i].fact);
      Some(m[i].fact)
    case None => None
  }

  /** `memory[key] = fact` on a JavaScript object: an existing key keeps its
      position and takes the new fact, a new key is added at the end. */
  function Upsert(m: Memory, key: string, fact: Fact): (r: Memory)
    ensures Lookup(r, key) == Some(fact)
    ensures forall k :: k != key ==> Lookup(r, k) == Lookup(m, k)
    ensures Lookup(m, key).Some? ==> |r| == |m|
    ensures Lookup(m, key).Some? ==> forall j :: 0 <= j < |m| ==> r[j].key == m[j].key
    ensures Lookup(m, key).None? ==> r == m + [MemoryItem(key, fact)]
  {
    var item := MemoryItem(key, fact);
    match KeyIndex(m, key)
    case Some(i) =>
      var r := m[i := item];
      assert forall j :: 0 <= j < |m| ==> r[j].key == m[j].key;
      assert UniqueKeys(r);
      forall k | k != key
        ensures Lookup(r, k) == Lookup(m, k)
      {
        KeyIndexOfSameKeys(m, r, k);
      }
      KeyIndexOfSameKeys(m, r, key);
      assert KeyIndex(r, key) == Some(i);
      r
    case None =>
      var r := m + [item];
      assert UniqueKeys(r);
      forall k | k != key
        ensures Lookup(r, k) == Lookup(m, k)
      {
        AppendOtherKey(m, item, k);
      }
      assert r[|m|] == item;
      assert KeyIndex(r, key) == Some(|m|);
      r
  }

  /** Adding an item for another key does not move `k`. */
  lemma AppendOtherKey(m: seq<MemoryItem>, item: MemoryItem, k: string)
    requires item.key != k
    ensures KeyIndex(m + [item], k) == KeyIndex(m, k)
  {
    var r := m + [item];
    var a, b := KeyIndex(m, k), KeyIndex(r, k);
    if a.Some? {
      assert r[a.value] == m[a.value];
    }
  }

  /** `getUserMemory`: the user's facts, empty for an unknown user. */
  function GetUserMemory(s: Store, user: UserId): (r: Memory)
    ensures user in s.userMemory ==> r == s.userMemory[user]
    ensures user !in s.userMemory ==> r == []
  {
    if user in s.userMemory then s.userMemory[user] else []
  }

  /** `rememberAboutUser`: stores `value` under `key` for the user (last write
      wins), and rewrites the memory file. The user's other keys, other users'
      memories and all logs are unchanged. */
  function RememberAboutUser(s: Store, user: UserId, key: string, value: string, now: string): (r: Store)
    ensures Lookup(GetUserMemory(r, user), key) == Some(Fact(value, now))
    ensures forall k :: k != key ==> Lookup(GetUserMemory(r, user), k) == Lookup(GetUserMemory(s, user), k)
    ensures r.userMemory.Keys == s.userMemory.Keys + {user}
    ensures forall u :: u in s.userMemory && u != user ==> r.userMemory[u] == s.userMemory[u]
    ensures r.histories == s.histories && r.maxHistoryLength == s.maxHistoryLength
    ensures r.disk == s.disk.(memoryFile := Doc(r.userMemory))
  {
    var m := Upsert(GetUserMemory(s, user), key, Fact(value, now));
    var ms := s.userMemory[user := m];
    s.(userMemory := ms, disk := s.disk.(memoryFile := Doc(ms)))
  }

  /** One bullet line of the memory prompt. */
  function MemoryLine(item: MemoryItem): string
  {
    "- " + item.key + ": " + item.fact.value
  }

  function MemoryLines(m: seq<MemoryItem>): (r: seq<string>)
    ensures |r| == |m|
    ensures forall i :: 0 <= i < |m| ==> r[i] == MemoryLine(m[i])
  {
    seq(|m|, i requires 0 <= i < |m| => MemoryLine(m[i]))
  }

  /** `getUserMemoryPrompt`: the empty string when the user has no facts,
      otherwise the fixed header followed by one `- key: value` line per fact
      in key order, so that every fact's line appears in it. */
  function GetUserMemoryPrompt(s: Store, user: UserId): (r: string)
    ensures r == "" <==> |GetUserMemory(s, user)| == 0
    ensures r != "" ==> MemoryHeader <= r
    ensures forall i :: 0 <= i < |GetUserMemory(s, user)| ==> Contains(r, MemoryLine(GetUserMemory(s, user)[i]))
    ensures forall i :: 0 <= i < |GetUserMemory(s, user)| ==>
              Contains(r, GetUserMemory(s, user)[i].fact.value) && Contains(r, GetUserMemory(s, user)[i].key)
  {
    var m := GetUserMemory(s, user);
    if |m| == 0 then ""
    else
      var body := Join(MemoryLines(m), "\n");
      var r := MemoryHeader + body;
      assert forall i :: 0 <= i < |m| ==> Contains(r, MemoryLine(m[i])) && Contains(r, m[i].fact.value) && Contains(r, m[i].key) by {
        forall i | 0 <= i < |m|
          ensures Contains(r, MemoryLine(m[i])) && Contains(r, m[i].fact.value) && Contains(r, m[i].key)
        {
          LineInPrompt(m, i);
        }
      }
      r
  }

  /** A bullet line shows both the key and the value. */
  lemma LineShowsFact(item: MemoryItem)
    ensures Contains(MemoryLine(item), item.key)
    ensures Contains(MemoryLine(item), item.fact.value)
  {
    var line := MemoryLine(item);
    ContainsConcat("- ", item.key, ": " + item.fact.value);
    assert "- " + item.key + (": " + item.fact.value) == line;
    ContainsConcat("- " + item.key + ": ", item.fact.value, "");
    assert "- " + item.key + ": " + item.fact.value + "" == line;
  }

  /** Each fact's whole line, and so its key and its value, occur in the
      rendered prompt. */
  lemma LineInPrompt(m: seq<MemoryItem>, i: int)
    requires 0 <= i < |m|
    ensures Contains(MemoryHeader + Join(MemoryLines(m), "\n"), MemoryLine(m[i]))
    ensures Contains(MemoryHeader + Join(MemoryLines(m), "\n"), m[i].fact.value)
    ensures Contains(MemoryHeader + Join(MemoryLines(m), "\n"), m[i].key)
  {
    var lines := MemoryLines(m);
    var body := Join(lines, "\n");
    JoinContainsPart(lines, "\n", i);
    LineShowsFact(m[i]);
    ContainsTransitive(body, lines[i], m[i].fact.value);
    ContainsTransitive(body, lines[i], m[i].key);
    ContainsPrefixed(MemoryHeader, body, m[i].fact.value);
    ContainsPrefixed(MemoryHeader, body, m[i].key);
    ContainsPrefixed(MemoryHeader, body, lines[i]);
  }

  // ---------------------------------------------------------------------
  // Properties over several calls

  /** A log that starts within the bound stays within it. */
  lemma AddMessageKeepsBound(s: Store, user: UserId, role: Role, content: string, now: string)
    requires |LogOf(s, user)| <= s.maxHistoryLength
    ensures |LogOf(AddMessage(s, user, role, content, now), user)| <= s.maxHistoryLength
  {
  }

  /** Appending a sequence of entries one by one. */
  function AppendAll(log: seq<Entry>, es: seq<Entry>, bound: nat): seq<Entry>
    decreases |es|
  {
    if |es| == 0 then log else AppendAll(BoundedAppend(log, es[0], bound), es[1..], bound)
  }

  /** The FIFO law: appending `es` to a log within the bound leaves the last
      `bound` entries of `log + es`, in their original order. */
  lemma {:induction false} AppendAllKeepsNewest(log: seq<Entry>, es: seq<Entry>, bound: nat)
    requires |log| <= bound
    ensures var all := log + es;
            AppendAll(log, es, bound) == all[if |all| > bound then |all| - bound else 0..]
    decreases |es|
  {
    if |es| > 0 {
      var next := BoundedAppend(log, es[0], bound);
      AppendAllKeepsNewest(next, es[1..], bound);
      var all := log + es;
      var all' := next + es[1..];
      if |log| < bound {
        assert all' == all;
      } else {
        assert |log| == bound;
        assert all' == all[1..];
      }
    } else {
      assert log + es == log;
    }
  }

  /** `addMessage` called once per entry of `es`, in order. */
  function AddAll(s: Store, user: UserId, es: seq<Entry>): Store
    decreases |es|
  {
    if |es| == 0 then s
    else AddAll(AddMessage(s, user, es[0].role, es[0].content, es[0].timestamp), user, es[1..])
  }

  /** The user's log after `AddAll` is the log-level `AppendAll`. */
  lemma {:induction false} AddAllLog(s: Store, user: UserId, es: seq<Entry>)
    ensures LogOf(AddAll(s, user, es), user) == AppendAll(LogOf(s, user), es, s.maxHistoryLength)
    ensures AddAll(s, user, es).maxHistoryLength == s.maxHistoryLength
    decreases |es|
  {
    if |es| > 0 {
      var e := es[0];
      assert e == Entry(e.role, e.content, e.timestamp);
      AddAllLog(AddMessage(s, user, e.role, e.content, e.timestamp), user, es[1..]);
    }
  }

  /** After more than `H` messages from a cleared log, the log holds exactly
      the last `H` of them, oldest first. */
  lemma FifoAfterClear(s: Store, user: UserId, es: seq<Entry>)
    requires |es| > s.maxHistoryLength
    ensures var log := LogOf(AddAll(ClearHistory(s, user), user, es), user);
            |log| == s.maxHistoryLength && log == es[|es| - s.maxHistoryLength..]
  {
    var c := ClearHistory(s, user);
    var h := s.maxHistoryLength;
    assert LogOf(c, user) == [] && c.maxHistoryLength == h;
    AddAllLog(c, user, es);
    assert LogOf(AddAll(c, user, es), user) == AppendAll([], es, h);
    AppendAllKeepsNewest([], es, h);
    assert [] + es == es;
    assert AppendAll([], es, h) == es[|es| - h..];
  }

  /** The bound is not re-imposed on a log read from the history file: a
      loaded log longer than the bound keeps its length when a message is
      added, so the bound holds only for logs that started within it. */
  lemma LoadedOverlongLogStaysOverlong(s: Store, user: UserId, role: Role, content: string, now: string)
    requires |LogOf(s, user)| > s.maxHistoryLength
    ensures |LogOf(AddMessage(s, user, role, content, now), user)| == |LogOf(s, user)| > s.maxHistoryLength
  {
  }

  /** Clearing forgets the log for every prior state, including a user never seen. */
  lemma ClearThenGetIsEmpty(s: Store, user: UserId)
    ensures GetHistory(ClearHistory(s, user), user) == []
    ensures GetUserMemory(ClearHistory(s, user), user) == GetUserMemory(s, user)
  {
  }

  /** Writing a key twice keeps only the second value, and does not add a
      second entry for the key. */
  lemma RememberOverwrites(s: Store, user: UserId, key: string, v1: string, v2: string, t1: string, t2: string)
    ensures var s2 := RememberAboutUser(RememberAboutUser(s, user, key, v1, t1), user, key, v2, t2);
            Lookup(GetUserMemory(s2, user), key) == Some(Fact(v2, t2))
            && |GetUserMemory(s2, user)| == |GetUserMemory(RememberAboutUser(s, user, key, v1, t1), user)|
  {
  }

  // ---------------------------------------------------------------------
  // Persistence round trip

  /** A mutation of the store, as the reply pipeline issues them. */
  datatype Op =
    | Add(user: UserId, role: Role, content: string, now: string)
    | Clear(user: UserId)
    | Remember(user: UserId, key: string, value: string, now: string)

  function Apply(s: Store, op: Op): Store
  {
    match op
    case Add(u, role, content, now) => AddMessage(s, u, role, content, now)
    case Clear(u) => ClearHistory(s, u)
    case Remember(u, k, v, now) => RememberAboutUser(s, u, k, v, now)
  }

  function ApplyAll(s: Store, ops: seq<Op>): Store
    decreases |ops|
  {
    if |ops| == 0 then s else ApplyAll(Apply(s, ops[0]), ops[1..])
  }

  /** A freshly loaded store agrees with its files, whatever they held. */
  lemma LoadIsPersisted(maxHistoryLength: nat, disk: Disk)
    ensures Persisted(Load(maxHistoryLength, disk))
  {
  }

  /** Every single mutation leaves the files agreeing with the tables. */
  lemma ApplyKeepsPersisted(s: Store, op: Op)
    requires Persisted(s)
    ensures Persisted(Apply(s, op))
  {
  }

  /** Restart law: after any sequence of mutations from a loaded store,
      restarting the process on the written files restores equal tables. */
  lemma {:induction false} RestartRestores(maxHistoryLength: nat, disk: Disk, ops: seq<Op>)
    ensures var s := ApplyAll(Load(maxHistoryLength, disk), ops);
            Restart(s).histories == s.histories && Restart(s).userMemory == s.userMemory
  {
    LoadIsPersisted(maxHistoryLength, disk);
    ApplyAllKeepsPersisted(Load(maxHistoryLength, disk), ops);
  }

  lemma {:induction false} ApplyAllKeepsPersisted(s: Store, ops: seq<Op>)
    requires Persisted(s)
    ensures Persisted(ApplyAll(s, ops))
    ensures ApplyAll(s, ops).maxHistoryLength == s.maxHistoryLength
    decreases |ops|
  {
    if |ops| > 0 {
      ApplyKeepsPersisted(s, ops[0]);
      ApplyAllKeepsPersisted(Apply(s, ops[0]), ops[1..]);
    }
  }
}
