/** Fact extraction: the ordered list of regular expressions that pull facts
    about the user ("my name is …", "I am N years old", …) out of a message,
    and the fold that stores every match in the user's memory.

    Every pattern in the list has the shape `lead(cls{min,max})trail`: a
    literal, one greedily quantified character class captured as group 1,
    and a possibly empty literal. For that shape a JavaScript regular
    expression match is: the leftmost start position at which the pattern
    matches at all, and at that position the largest count the engine's
    backtracking can make work. `Search` computes exactly this, and
    `SearchIsLeftmostGreedy` states it against the declarative `MatchesAt`. */
module Extraction {
  import opened Wrappers
  import opened Text
  import opened ChatHistory

  /** `.` (any character but a line terminator) or `\d` (an ASCII digit). */
  datatype CharClass = AnyButLineTerminator | AsciiDigit

  predicate InClass(c: char, cls: CharClass)
  {
    match cls
    case AnyButLineTerminator => c != '\n' && c != '\r' && c != '\U{2028}' && c != '\U{2029}'
    case AsciiDigit => '0' <= c <= '9'
  }

  /** The regular expression `lead(cls{min,max})trail`, stored under `key`. */
  datatype Pattern = Pattern(lead: string, cls: CharClass, min: nat, max: nat, trail: string, key: string)

  /** The extraction table, in evaluation order. */
  const Patterns: seq<Pattern> := [
    Pattern("我叫", AnyButLineTerminator, 1, 10, "", "名字"),
    Pattern("我的名字是", AnyButLineTerminator, 1, 10, "", "名字"),
    Pattern("我", AsciiDigit, 1, 2, "岁", "年龄"),
    Pattern("我的生日是", AnyButLineTerminator, 3, 15, "", "生日"),
    Pattern("我生日", AnyButLineTerminator, 3, 15, "", "生日"),
    Pattern("我在", AnyButLineTerminator, 2, 10, "工作", "工作城市"),
    Pattern("我住在", AnyButLineTerminator, 2, 10, "", "居住地"),
    Pattern("我是做", AnyButLineTerminator, 2, 15, "的", "职业"),
    Pattern("我喜欢吃", AnyButLineTerminator, 1, 10, "", "喜欢的食物"),
    Pattern("我喜欢", AnyButLineTerminator, 1, 15, "", "喜好"),
    Pattern("我养了", AnyButLineTerminator, 1, 10, "", "宠物")
  ]

  /** The literal `lead` starts at `i`. */
  predicate LeadAt(text: string, p: Pattern, i: int)
  {
    0 <= i && i + |p.lead| <= |text| && text[i..i + |p.lead|] == p.lead
  }

  /** The `n` characters from `from` on all belong to the class. */
  ghost predicate ClassSpan(text: string, from: int, n: int, cls: CharClass)
  {
    0 <= from && 0 <= n && from + n <= |text|
    && forall k :: from <= k < from + n ==> InClass(text[k], cls)
  }

  /** The literal `trail` follows `n` characters after `start`. */
  predicate TrailAfter(text: string, start: int, p: Pattern, n: int)
  {
    0 <= start && 0 <= n && start + n + |p.trail| <= |text|
    && text[start + n..start + n + |p.trail|] == p.trail
  }

  /** `lead`, then `n` characters of the class (the capture), then `trail`,
      with the match starting at `i`. */
  ghost predicate MatchesAt(text: string, p: Pattern, i: int, n: int)
  {
    && p.min <= n <= p.max
    && LeadAt(text, p, i)
    && ClassSpan(text, i + |p.lead|, n, p.cls)
    && TrailAfter(text, i + |p.lead|, p, n)
  }

  /** How many characters from `from` on belong to the class, at most `limit`. */
  function ClassRun(text: string, from: nat, cls: CharClass, limit: nat): (n: nat)
    requires from <= |text|
    ensures n <= limit && ClassSpan(text, from, n, cls)
    ensures n < limit && from + n < |text| ==> !InClass(text[from + n], cls)
    decreases limit
  {
    if limit == 0 || from == |text| || !InClass(text[from], cls) then 0
    else 1 + ClassRun(text, from + 1, cls, limit - 1)
  }

  /** No class span reaches past the run the scan found. */
  lemma SpanWithinRun(text: string, from: nat, cls: CharClass, limit: nat, n: int)
    requires from <= |text|
    requires ClassSpan(text, from, n, cls) && n <= limit
    ensures n <= ClassRun(text, from, cls, limit)
  {
  }

  /** Backtracking over the quantifier: the largest count `m <= n` (and at
      least `min`) after which the trailing literal follows. */
  function Backtrack(text: string, start: nat, p: Pattern, n: nat): (r: Option<nat>)
    ensures r.Some? ==> p.min <= r.value <= n && TrailAfter(text, start, p, r.value)
    ensures r.Some? ==> forall m :: r.value < m <= n ==> !TrailAfter(text, start, p, m)
    ensures r.None? ==> forall m :: p.min <= m <= n ==> !TrailAfter(text, start, p, m)
    decreases n
  {
    if n < p.min then None
    else if TrailAfter(text, start, p, n) then Some(n)
    else if n == 0 then None
    else Backtrack(text, start, p, n - 1)
  }

  /** The count the pattern matches with at position `i`, if it matches there:
      the class run is scanned greedily, then the count backs off until the
      trailing literal follows. */
  function MatchAt(text: string, p: Pattern, i: nat): (r: Option<nat>)
    ensures r.Some? ==> i + |p.lead| + r.value <= |text|
  {
    if LeadAt(text, p, i) then
      var start := i + |p.lead|;
      Backtrack(text, start, p, ClassRun(text, start, p.cls, p.max))
    else
      None
  }

  /** At a given start the match found is the greediest one that works. */
  lemma MatchAtIsGreedy(text: string, p: Pattern, i: nat)
    ensures MatchAt(text, p, i).Some? ==> MatchesAt(text, p, i, MatchAt(text, p, i).value)
    ensures MatchAt(text, p, i).Some? ==> forall n :: MatchAt(text, p, i).value < n ==> !MatchesAt(text, p, i, n)
    ensures MatchAt(text, p, i).None? ==> forall n :: !MatchesAt(text, p, i, n)
  {
    if LeadAt(text, p, i) {
      var start := i + |p.lead|;
      var run := ClassRun(text, start, p.cls, p.max);
      var r := Backtrack(text, start, p, run);
      forall n | MatchesAt(text, p, i, n)
        ensures n <= run
      {
        SpanWithinRun(text, start, p.cls, p.max, n);
      }
      if r.Some? {
        assert ClassSpan(text, start, r.value, p.cls);
      }
    }
  }

  /** The leftmost position at or after `i` where the pattern matches, with
      its greedy count. */
  function Search(text: string, p: Pattern, i: nat): (r: Option<(nat, nat)>)
    ensures r.Some? ==> r.value.0 + |p.lead| + r.value.1 <= |text|
    decreases |text| + 1 - i
  {
    if i > |text| then None
    else
      match MatchAt(text, p, i)
      case Some(n) => Some((i, n))
      case None => Search(text, p, i + 1)
  }

  /** The search reports the leftmost start at or after `i` with a match, and
      there the greediest count; it reports nothing only when no start from
      `i` on matches. */
  lemma {:induction false} SearchIsLeftmostGreedy(text: string, p: Pattern, i: nat)
    ensures Search(text, p, i).Some? ==>
              var (j, n) := Search(text, p, i).value; i <= j && MatchesAt(text, p, j, n)
    ensures Search(text, p, i).Some? ==>
              forall j, n :: i <= j < Search(text, p, i).value.0 ==> !MatchesAt(text, p, j, n)
    ensures Search(text, p, i).Some? ==>
              forall n :: Search(text, p, i).value.1 < n ==> !MatchesAt(text, p, Search(text, p, i).value.0, n)
    ensures Search(text, p, i).None? ==> forall j, n :: i <= j ==> !MatchesAt(text, p, j, n)
    decreases |text| + 1 - i
  {
    if i <= |text| {
      MatchAtIsGreedy(text, p, i);
      if MatchAt(text, p, i).None? {
        var r := Search(text, p, i + 1);
        assert Search(text, p, i) == r;
        SearchIsLeftmostGreedy(text, p, i + 1);
        assert forall n :: !MatchesAt(text, p, i, n);
        if r.Some? {
          forall j, n | i <= j < r.value.0
            ensures !MatchesAt(text, p, j, n)
          {
            if j == i {
              assert !MatchesAt(text, p, i, n);
            }
          }
        } else {
          forall j, n | i <= j
            ensures !MatchesAt(text, p, j, n)
          {
            if j == i {
              assert !MatchesAt(text, p, i, n);
            }
          }
        }
      }
    } else {
      forall j, n | i <= j
        ensures !MatchesAt(text, p, j, n)
      {
        assert !LeadAt(text, p, j);
      }
    }
  }

  /** The match a regular-expression engine reports: the leftmost start,
      and there the largest count. */
  ghost predicate LeftmostGreedy(text: string, p: Pattern, i: int, n: int)
  {
    && MatchesAt(text, p, i, n)
    && (forall j, m :: 0 <= j < i ==> !MatchesAt(text, p, j, m))
    && (forall m :: n < m ==> !MatchesAt(text, p, i, m))
  }

  /** `text.match(regex)[1]`: the first capture group of the leftmost match. */
  function Capture(text: string, p: Pattern): Option<string>
  {
    match Search(text, p, 0)
    case Some((i, n)) => Some(text[i + |p.lead|..i + |p.lead| + n])
    case None => None
  }

  /** There is no capture only when the pattern matches nowhere. */
  lemma NoCaptureNoMatch(text: string, p: Pattern)
    ensures Capture(text, p).None? <==> forall i, n :: !MatchesAt(text, p, i, n)
  {
    SearchIsLeftmostGreedy(text, p, 0);
    if Search(text, p, 0).None? {
      forall i, n
        ensures !MatchesAt(text, p, i, n)
      {
        if i < 0 {
          assert !LeadAt(text, p, i);
        }
      }
    } else {
      var (i, n) := Search(text, p, 0).value;
      assert MatchesAt(text, p, i, n);
    }
  }

  /** A capture is the group of the leftmost, greediest match. */
  lemma CaptureIsLeftmostGreedy(text: string, p: Pattern)
    requires Capture(text, p).Some?
    ensures exists i, n :: LeftmostGreedy(text, p, i, n) && Capture(text, p).value == text[i + |p.lead|..i + |p.lead| + n]
  {
    var (i, n) := Search(text, p, 0).value;
    SearchFromStartIsLeftmostGreedy(text, p);
    assert Capture(text, p).value == text[i + |p.lead|..i + |p.lead| + n];
  }

  /** A search from the first position finds the leftmost, greediest match. */
  lemma SearchFromStartIsLeftmostGreedy(text: string, p: Pattern)
    requires Search(text, p, 0).Some?
    ensures LeftmostGreedy(text, p, Search(text, p, 0).value.0, Search(text, p, 0).value.1)
  {
    SearchIsLeftmostGreedy(text, p, 0);
  }

  /** A fact found in a message: the key and the captured text, untrimmed. */
  datatype Finding = Finding(key: string, value: string)

  /** Every pattern of the table run against the text, in table order. */
  function CapturesOf(pats: seq<Pattern>, text: string): (r: seq<Option<string>>)
    ensures |r| == |pats|
    ensures forall j :: 0 <= j < |pats| ==> r[j] == Capture(text, pats[j])
  {
    seq(|pats|, j requires 0 <= j < |pats| => Capture(text, pats[j]))
  }

  /** The finding of one pattern: its key and capture, if it matched. */
  function FindingOf(key: string, cap: Option<string>): (r: seq<Finding>)
    ensures |r| <= 1
    ensures r == [] <==> cap.None?
    ensures r != [] ==> r[0] == Finding(key, cap.value)
  {
    match cap
    case Some(c) => [Finding(key, c)]
    case None => []
  }

  /** The findings of the first `n` patterns, given what each of them
      captured, in table order. The recursion walks an index rather than
      slicing the table. */
  function FindingsOf(pats: seq<Pattern>, caps: seq<Option<string>>, n: nat): (r: seq<Finding>)
    requires n <= |pats| && n <= |caps|
    ensures |r| <= n
    ensures (forall j :: 0 <= j < n ==> caps[j].None?) ==> r == []
  {
    if n == 0 then []
    else FindingsOf(pats, caps, n - 1) + FindingOf(pats[n - 1].key, caps[n - 1])
  }

  /** The positions, in increasing order, of the first `n` patterns that
      captured. */
  function CapturedIndices(caps: seq<Option<string>>, n: nat): seq<nat>
    requires n <= |caps|
  {
    if n == 0 then []
    else CapturedIndices(caps, n - 1) + (if caps[n - 1].Some? then [n - 1] else [])
  }

  /** `CapturedIndices` lists every capturing position below `n`, each
      once, in increasing order, and nothing else. */
  lemma {:induction false} CapturedIndicesAscending(caps: seq<Option<string>>, n: nat)
    requires n <= |caps|
    ensures forall i :: 0 <= i < |CapturedIndices(caps, n)| ==>
              CapturedIndices(caps, n)[i] < n && caps[CapturedIndices(caps, n)[i]].Some?
    ensures forall i, k :: 0 <= i < k < |CapturedIndices(caps, n)| ==>
              CapturedIndices(caps, n)[i] < CapturedIndices(caps, n)[k]
    ensures forall j :: 0 <= j < n && caps[j].Some? ==> j in CapturedIndices(caps, n)
  {
    if n > 0 {
      var ix, earlier := CapturedIndices(caps, n), CapturedIndices(caps, n - 1);
      CapturedIndicesAscending(caps, n - 1);
      assert ix == earlier + (if caps[n - 1].Some? then [n - 1] else []);
      forall i | 0 <= i < |ix|
        ensures ix[i] < n && caps[ix[i]].Some?
      {
        if i < |earlier| { assert ix[i] == earlier[i]; }
      }
      forall i, k | 0 <= i < k < |ix|
        ensures ix[i] < ix[k]
      {
        if k < |earlier| { assert ix[i] == earlier[i] && ix[k] == earlier[k]; }
        else { assert ix[i] == earlier[i] && ix[k] == n - 1; }
      }
      forall j | 0 <= j < n && caps[j].Some?
        ensures j in ix
      {
        if j < n - 1 {
          var i :| 0 <= i < |earlier| && earlier[i] == j;
          assert ix[i] == j;
        } else {
          assert ix[|ix| - 1] == j;
        }
      }
    }
  }

  /** The findings are exactly one per capturing pattern, in table order:
      the `i`-th finding is the key and capture of the `i`-th pattern that
      captured. */
  lemma {:induction false} FindingsInTableOrder(pats: seq<Pattern>, caps: seq<Option<string>>, n: nat)
    requires n <= |pats| && n <= |caps|
    ensures |FindingsOf(pats, caps, n)| == |CapturedIndices(caps, n)|
    ensures forall i :: 0 <= i < |FindingsOf(pats, caps, n)| ==>
              var j := CapturedIndices(caps, n)[i];
              j < n && FindingsOf(pats, caps, n)[i].key == pats[j].key
              && caps[j] == Some(FindingsOf(pats, caps, n)[i].value)
  {
    if n > 0 {
      var r, ix := FindingsOf(pats, caps, n), CapturedIndices(caps, n);
      var prev, earlier := FindingsOf(pats, caps, n - 1), CapturedIndices(caps, n - 1);
      var last := FindingOf(pats[n - 1].key, caps[n - 1]);
      FindingsInTableOrder(pats, caps, n - 1);
      assert r == prev + last;
      assert ix == earlier + (if caps[n - 1].Some? then [n - 1] else []);
      forall i | 0 <= i < |r|
        ensures ix[i] < n && r[i].key == pats[ix[i]].key && caps[ix[i]] == Some(r[i].value)
      {
        if i < |prev| {
          assert r[i] == prev[i] && ix[i] == earlier[i];
        } else {
          assert r[i] == last[0] && ix[i] == n - 1;
        }
      }
    }
  }

  /** The value of the last finding for `key`. */
  function LastFor(fs: seq<Finding>, key: string): Option<string>
    decreases |fs|
  {
    if |fs| == 0 then None
    else if fs[|fs| - 1].key == key then Some(fs[|fs| - 1].value)
    else LastFor(fs[..|fs| - 1], key)
  }

  /** The index of the last of the first `n` patterns for `key` that
      captured something. */
  function LastMatchingPattern(pats: seq<Pattern>, caps: seq<Option<string>>, key: string, n: nat): (r: Option<nat>)
    requires n <= |pats| && n <= |caps|
    ensures r.Some? ==> r.value < n && pats[r.value].key == key && caps[r.value].Some?
    ensures r.Some? ==> forall j :: r.value < j < n && pats[j].key == key ==> caps[j].None?
    ensures r.None? ==> forall j :: 0 <= j < n && pats[j].key == key ==> caps[j].None?
  {
    if n == 0 then None
    else if pats[n - 1].key == key && caps[n - 1].Some? then Some(n - 1)
    else LastMatchingPattern(pats, caps, key, n - 1)
  }

  lemma {:induction false} LastForAppend(a: seq<Finding>, b: seq<Finding>, key: string)
    ensures LastFor(a + b, key) == if LastFor(b, key).Some? then LastFor(b, key) else LastFor(a, key)
    decreases |b|
  {
    if |b| == 0 {
      assert a + b == a;
    } else {
      assert (a + b)[..|a + b| - 1] == a + b[..|b| - 1];
      LastForAppend(a, b[..|b| - 1], key);
    }
  }

  /** Later patterns overwrite earlier ones: the value found for a key is the
      capture of the LAST pattern with that key that matched, and
      there is none when no pattern for the key matched. */
  lemma {:induction false} LastPatternWins(pats: seq<Pattern>, caps: seq<Option<string>>, key: string, n: nat)
    requires n <= |pats| && n <= |caps|
    ensures LastMatchingPattern(pats, caps, key, n).Some? ==>
              LastFor(FindingsOf(pats, caps, n), key)
                == Some(caps[LastMatchingPattern(pats, caps, key, n).value].value)
    ensures LastMatchingPattern(pats, caps, key, n).None? ==> LastFor(FindingsOf(pats, caps, n), key).None?
  {
    if n > 0 {
      var earlier := FindingsOf(pats, caps, n - 1);
      var last := FindingOf(pats[n - 1].key, caps[n - 1]);
      assert FindingsOf(pats, caps, n) == earlier + last;
      LastPatternWins(pats, caps, key, n - 1);
      LastForAppend(earlier, last, key);
      if last != [] {
        assert LastFor(last, key) == if pats[n - 1].key == key then Some(last[0].value) else LastFor([], key);
      }
    }
  }

  /** `extractAndRemember`: every finding, in order, is trimmed and written
      to the user's memory with `rememberAboutUser`. */
  function RememberAll(s: Store, user: UserId, fs: seq<Finding>, now: string): (r: Store)
    ensures r.histories == s.histories && r.maxHistoryLength == s.maxHistoryLength
    ensures forall u :: u in s.userMemory && u != user ==> u in r.userMemory && r.userMemory[u] == s.userMemory[u]
    ensures fs == [] ==> r == s
    ensures fs != [] ==> r.disk == s.disk.(memoryFile := Doc(r.userMemory))
    decreases |fs|
  {
    if |fs| == 0 then s
    else
      var last := fs[|fs| - 1];
      RememberAboutUser(RememberAll(s, user, fs[..|fs| - 1], now), user, last.key, Trim(last.value), now)
  }

  /** Each key ends up with the trimmed value of its last finding; keys
      without a finding keep their earlier fact. */
  lemma {:induction false} RememberAllLookup(s: Store, user: UserId, fs: seq<Finding>, now: string, k: string)
    ensures Lookup(GetUserMemory(RememberAll(s, user, fs, now), user), k) ==
              match LastFor(fs, k)
              case Some(v) => Some(Fact(Trim(v), now))
              case None => Lookup(GetUserMemory(s, user), k)
    decreases |fs|
  {
    if |fs| > 0 {
      RememberAllLookup(s, user, fs[..|fs| - 1], now, k);
    }
  }

  function ExtractAndRemember(s: Store, user: UserId, text: string, now: string): (r: Store)
    ensures r.histories == s.histories && r.maxHistoryLength == s.maxHistoryLength
    ensures forall u :: u in s.userMemory && u != user ==> u in r.userMemory && r.userMemory[u] == s.userMemory[u]
  {
    RememberAll(s, user, FindingsOf(Patterns, CapturesOf(Patterns, text), |Patterns|), now)
  }

  /** What extraction stores under each key: the trimmed capture of the last
      matching pattern for that key, or the earlier fact when none matches. */
  lemma ExtractionStoresLastMatch(s: Store, user: UserId, text: string, now: string, key: string)
    ensures var r := ExtractAndRemember(s, user, text, now);
            Lookup(GetUserMemory(r, user), key) ==
              match LastMatchingPattern(Patterns, CapturesOf(Patterns, text), key, |Patterns|)
              case Some(j) => Some(Fact(Trim(Capture(text, Patterns[j]).value), now))
              case None => Lookup(GetUserMemory(s, user), key)
  {
    var caps := CapturesOf(Patterns, text);
    LastPatternWins(Patterns, caps, key, |Patterns|);
    RememberAllLookup(s, user, FindingsOf(Patterns, caps, |Patterns|), now, key);
  }

  /** A message no pattern matches changes nothing. */
  lemma NoMatchNoChange(s: Store, user: UserId, text: string, now: string)
    requires forall j :: 0 <= j < |Patterns| ==> Capture(text, Patterns[j]).None?
    ensures ExtractAndRemember(s, user, text, now) == s
  {
    var caps := CapturesOf(Patterns, text);
    assert forall j :: 0 <= j < |Patterns| ==> caps[j].None?;
  }

  /** The first pattern captures the name in "我叫小明". */
  lemma CaptureNameExample()
    ensures Capture("我叫小明", Patterns[0]) == Some("小明")
  {
    var t, p := "我叫小明", Patterns[0];
    assert LeadAt(t, p, 0);
    assert ClassRun(t, 2, p.cls, 10) == 2 by {
      assert ClassRun(t, 4, p.cls, 8) == 0;
      assert ClassRun(t, 3, p.cls, 9) == 1;
    }
    assert Backtrack(t, 2, p, 2) == Some(2);
    assert MatchAt(t, p, 0) == Some(2);
    assert Search(t, p, 0) == Some((0, 2));
    assert t[2..4] == "小明";
  }

  /** Only the first two patterns store a name. */
  lemma NameKeyOnlyFirstTwo()
    ensures forall j :: 2 <= j < |Patterns| ==> Patterns[j].key != "名字"
  {
    forall j | 2 <= j < |Patterns|
      ensures Patterns[j].key != "名字"
    {
      assert Patterns[j].key[0] != '名' || |Patterns[j].key| != 2;
    }
  }

  lemma NameExampleSecondPatternFails()
    ensures Capture("我叫小明", Patterns[1]).None?
  {
    assert forall i, n :: !MatchesAt("我叫小明", Patterns[1], i, n);
    NoCaptureNoMatch("我叫小明", Patterns[1]);
  }

  lemma NameExampleLastPattern()
    ensures LastMatchingPattern(Patterns, CapturesOf(Patterns, "我叫小明"), "名字", |Patterns|) == Some(0)
  {
    CaptureNameExample();
    NameExampleSecondPatternFails();
    NameKeyOnlyFirstTwo();
    var caps := CapturesOf(Patterns, "我叫小明");
    assert caps[0].Some? && caps[1].None?;
    var r := LastMatchingPattern(Patterns, caps, "名字", |Patterns|);
    assert r.Some?;
    assert r.value < 2;
    assert r.value != 1;
  }

  lemma TrimNameExample()
    ensures Trim("小明") == "小明"
  {
    TrimPadded("", "小明", "");
    assert "" + "小明" + "" == "小明";
  }

  /** "我叫小明" stores the name 小明. */
  lemma ExtractNameExample(s: Store, user: UserId, t: string, now: string)
    requires t == "我叫小明"
    ensures Lookup(GetUserMemory(ExtractAndRemember(s, user, t, now), user), "名字") == Some(Fact("小明", now))
  {
    CaptureNameExample();
    NameExampleLastPattern();
    TrimNameExample();
    ExtractionStoresLastMatch(s, user, t, now, "名字");
  }
}
