/** Keyword tables as the bot uses them: "does the text mention any of these
    words" and "the first row of a table whose words the text mentions", plus
    the `Math.floor(Math.random() * n)` way of picking an element. A regular
    expression that is an alternation of literal words, `/a|b|c/`, tests true
    exactly when one of the words occurs in the text, so such a regular
    expression is modelled here by the list of its words. */
module Keywords {
  import opened Wrappers
  import opened Text

  /** How a table's words are compared: plain `includes`, or a regular
      expression with the `/i` flag. */
  datatype Case = Sensitive | Insensitive

  predicate Mentions(text: string, kw: string, c: Case)
  {
    match c
    case Sensitive => Contains(text, kw)
    case Insensitive => ContainsIgnoreCase(text, kw)
  }

  /** `keywords.some(k => text.includes(k))`, or `/k1|k2|.../.test(text)`. */
  predicate MentionsAny(text: string, kws: seq<string>, c: Case)
  {
    exists i :: 0 <= i < |kws| && Mentions(text, kws[i], c)
  }

  /** A keyword of the table, placed anywhere in a text, makes the text
      mention the table. */
  lemma MentionsAnyConcat(a: string, kws: seq<string>, i: int, b: string, c: Case)
    requires 0 <= i < |kws|
    ensures MentionsAny(a + kws[i] + b, kws, c)
  {
    match c
    case Sensitive => ContainsConcat(a, kws[i], b);
    case Insensitive => ContainsIgnoreCaseConcat(a, kws[i], b);
  }

  /** One row of a first-match table: its words and the value it selects. */
  datatype Row<T> = Row(words: seq<string>, value: T)

  /** The index of the first row whose words the text mentions, if any. */
  function FirstRow<T>(rows: seq<Row<T>>, text: string, c: Case): (r: Option<nat>)
    ensures r.Some? ==> r.value < |rows| && MentionsAny(text, rows[r.value].words, c)
    ensures r.Some? ==> forall j :: 0 <= j < r.value ==> !MentionsAny(text, rows[j].words, c)
    ensures r.None? <==> forall j :: 0 <= j < |rows| ==> !MentionsAny(text, rows[j].words, c)
    decreases |rows|
  {
    if |rows| == 0 then None
    else if MentionsAny(text, rows[0].words, c) then Some(0)
    else
      match FirstRow(rows[1..], text, c)
      case None => None
      case Some(k) => Some(k + 1)
  }

  /** The value of the first row the text mentions, or `default` when no
      row matches: the `for (const [pattern, v] of table) if (pattern.test(t))
      return v; return default;` idiom. */
  function Classify<T>(rows: seq<Row<T>>, text: string, c: Case, default: T): (r: T)
    ensures (exists j :: 0 <= j < |rows| && MentionsAny(text, rows[j].words, c)) ==>
              exists j :: 0 <= j < |rows| && r == rows[j].value && MentionsAny(text, rows[j].words, c)
                && forall k :: 0 <= k < j ==> !MentionsAny(text, rows[k].words, c)
    ensures (forall j :: 0 <= j < |rows| ==> !MentionsAny(text, rows[j].words, c)) ==> r == default
  {
    match FirstRow(rows, text, c)
    case Some(i) => rows[i].value
    case None => default
  }

  /** `Math.floor(r * n)` for `r = Math.random()` in [0, 1): an index into a
      list of `n` elements. */
  function PickIndex(r: real, n: nat): (i: int)
    requires 0.0 <= r < 1.0
    ensures n > 0 ==> 0 <= i < n
    ensures n == 0 ==> i == 0
  {
    var x := r * n as real;
    assert x <= n as real;
    assert n > 0 ==> x < n as real by {
      if n > 0 {
        assert (1.0 - r) * n as real > 0.0;
      }
    }
    x.Floor
  }
}
