/** String primitives of the JavaScript runtime that the bot relies on:
    `String.prototype.includes`, `trim`, regular-expression `/i` matching of
    literal keywords, `Array.prototype.join` and the decimal rendering of a
    non-negative integer inside a template literal. */
module Text {

  /** `text.includes(kw)`: `kw` occurs in `text` as a contiguous substring.
      The empty keyword occurs in every text. */
  predicate Contains(text: string, kw: string)
    decreases |text|
  {
    if kw <= text then true
    else if |text| == 0 then false
    else Contains(text[1..], kw)
  }

  /** `kw` occurs in `text` starting at index `i`. */
  ghost predicate OccursAt(text: string, kw: string, i: int)
  {
    0 <= i && i + |kw| <= |text| && text[i..i + |kw|] == kw
  }

  /** The scanning definition of `Contains` agrees with the positional one. */
  lemma {:induction false} ContainsIff(text: string, kw: string)
    ensures Contains(text, kw) <==> exists i :: OccursAt(text, kw, i)
    decreases |text|
  {
    if kw <= text {
      assert OccursAt(text, kw, 0);
    } else if |text| == 0 {
      assert |kw| > 0;
    } else {
      ContainsIff(text[1..], kw);
      if Contains(text, kw) {
        var j :| OccursAt(text[1..], kw, j);
        assert text[j + 1..j + 1 + |kw|] == text[1..][j..j + |kw|];
        assert OccursAt(text, kw, j + 1);
      }
      if exists i :: OccursAt(text, kw, i) {
        var i :| OccursAt(text, kw, i);
        assert |kw| <= |text| && text[..|kw|] == kw ==> kw <= text;
        assert text[1..][i - 1..i - 1 + |kw|] == text[i..i + |kw|];
        assert OccursAt(text[1..], kw, i - 1);
      }
    }
  }

  /** A keyword placed anywhere in a text is found by `Contains`. */
  lemma ContainsConcat(a: string, kw: string, b: string)
    ensures Contains(a + kw + b, kw)
  {
    var t := a + kw + b;
    assert t[|a|..|a| + |kw|] == kw;
    assert OccursAt(t, kw, |a|);
    ContainsIff(t, kw);
  }

  /** Every character of a contained keyword occurs in the text. */
  lemma ContainedCharOccurs(text: string, kw: string, k: int)
    requires 0 <= k < |kw|
    ensures Contains(text, kw) ==> kw[k] in text
  {
    ContainsIff(text, kw);
    if Contains(text, kw) {
      var i :| OccursAt(text, kw, i);
      assert text[i..i + |kw|][k] == kw[k];
      assert text[i + k] == kw[k];
    }
  }

  /** Containment survives surrounding the text with more text. */
  lemma ContainsWithin(a: string, t: string, b: string, kw: string)
    requires Contains(t, kw)
    ensures Contains(a + t + b, kw)
  {
    ContainsIff(t, kw);
    var i :| OccursAt(t, kw, i);
    var u := a + t + b;
    assert u[|a| + i..|a| + i + |kw|] == t[i..i + |kw|];
    assert OccursAt(u, kw, |a| + i);
    ContainsIff(u, kw);
  }

  /** Containment is transitive: a part of a part is a part. */
  lemma ContainsTransitive(t: string, x: string, y: string)
    requires Contains(t, x) && Contains(x, y)
    ensures Contains(t, y)
  {
    ContainsIff(t, x);
    var i :| OccursAt(t, x, i);
    ContainsIff(x, y);
    var j :| OccursAt(x, y, j);
    assert t[i..i + |x|] == x;
    forall k | 0 <= k < |y|
      ensures t[i + j + k] == y[k]
    {
      assert t[i + j + k] == t[i..i + |x|][j + k];
      assert x[j + k] == x[j..j + |y|][k];
    }
    assert t[i + j..i + j + |y|] == y;
    assert OccursAt(t, y, i + j);
    ContainsIff(t, y);
  }

  /** Containment survives prepending more text. */
  lemma ContainsPrefixed(a: string, t: string, kw: string)
    requires Contains(t, kw)
    ensures Contains(a + t, kw)
  {
    ContainsWithin(a, t, "", kw);
    assert a + t + "" == a + t;
  }

  /** Containment survives appending more text. */
  lemma ContainsExtended(t: string, b: string, kw: string)
    requires Contains(t, kw)
    ensures Contains(t + b, kw)
  {
    ContainsIff(t, kw);
    var i :| OccursAt(t, kw, i);
    var u := t + b;
    assert u[i..i + |kw|] == t[i..i + |kw|];
    assert OccursAt(u, kw, i);
    ContainsIff(u, kw);
  }

  /** A prefix stays a prefix when more text is appended. */
  lemma PrefixExtended(x: string, t: string, b: string)
    requires x <= t
    ensures x <= t + b
  {
    assert (t + b)[..|x|] == t[..|x|];
  }

  /** The field `x` sits right after `a` in any text that starts with `a + x`. */
  lemma FieldAfter(a: string, x: string, t: string)
    requires a + x <= t
    ensures t[|a|..|a| + |x|] == x
  {
    assert t[|a|..|a| + |x|] == (a + x)[|a|..];
  }

  /** In a text built as `a + x + b + y + c + z + d + w`, the fields `x`
      and `y` sit right after `a` and `a + x + b`, and `y` and `z` both
      appear. */
  lemma ConcatFields(a: string, x: string, b: string, y: string, c: string, z: string, d: string, w: string)
    ensures a + x <= a + x + b + y + c + z + d + w
    ensures (a + x + b + y + c + z + d + w)[|a|..|a| + |x|] == x
    ensures (a + x + b + y + c + z + d + w)[|a + x + b|..|a + x + b| + |y|] == y
    ensures Contains(a + x + b + y + c + z + d + w, y)
    ensures Contains(a + x + b + y + c + z + d + w, z)
  {
    var s1 := a + x;
    var s2 := s1 + b;
    var s3 := s2 + y;
    var s4 := s3 + c;
    var s5 := s4 + z;
    var s6 := s5 + d;
    var t := s6 + w;
    PrefixExtended(s1, s1, b);
    PrefixExtended(s1, s2, y);
    PrefixExtended(s1, s3, c);
    PrefixExtended(s1, s4, z);
    PrefixExtended(s1, s5, d);
    PrefixExtended(s1, s6, w);
    FieldAfter(a, x, t);
    PrefixExtended(s3, s3, c);
    PrefixExtended(s3, s4, z);
    PrefixExtended(s3, s5, d);
    PrefixExtended(s3, s6, w);
    FieldAfter(s2, y, t);
    ContainsConcat(s2, y, "");
    assert s2 + y + "" == s3;
    ContainsExtended(s3, c, y);
    ContainsExtended(s4, z, y);
    ContainsExtended(s5, d, y);
    ContainsExtended(s6, w, y);
    ContainsConcat(s4, z, "");
    assert s4 + z + "" == s5;
    ContainsExtended(s5, d, z);
    ContainsExtended(s6, w, z);
  }

  /** The characters JavaScript's `trim` and the regular-expression class `\s`
      treat as white space: the WhiteSpace and LineTerminator productions of
      ECMAScript (tab, vertical tab, form feed, space, no-break space, byte
      order mark, the Unicode space separators, LF, CR, LS and PS). */
  predicate IsSpace(c: char)
  {
    || c == '\t' || c == '\U{0B}' || c == '\U{0C}' || c == ' '
    || c == '\U{A0}' || c == '\U{FEFF}' || c == '\U{1680}'
    || ('\U{2000}' <= c <= '\U{200A}')
    || c == '\U{202F}' || c == '\U{205F}' || c == '\U{3000}'
    || c == '\n' || c == '\r' || c == '\U{2028}' || c == '\U{2029}'
  }

  /** Drops the leading white space: the result is a suffix of `s`, every
      dropped character is white space, and the result does not start with any. */
  function TrimStart(s: string): (r: string)
    ensures |r| <= |s| && r == s[|s| - |r|..]
    ensures forall i :: 0 <= i < |s| - |r| ==> IsSpace(s[i])
    ensures |r| > 0 ==> !IsSpace(r[0])
    decreases |s|
  {
    if |s| > 0 && IsSpace(s[0]) then TrimStart(s[1..]) else s
  }

  /** Drops the trailing white space: the result is a prefix of `s`, every
      dropped character is white space, and the result does not end with any. */
  function TrimEnd(s: string): (r: string)
    ensures |r| <= |s| && r == s[..|r|]
    ensures forall i :: |r| <= i < |s| ==> IsSpace(s[i])
    ensures |r| > 0 ==> !IsSpace(r[|r| - 1])
    decreases |s|
  {
    if |s| > 0 && IsSpace(s[|s| - 1]) then TrimEnd(s[..|s| - 1]) else s
  }

  /** `s.trim()`. The result is empty exactly when `s` is all white space,
      and otherwise neither starts nor ends with white space. */
  function Trim(s: string): (r: string)
    ensures |r| <= |s|
    ensures r == [] <==> forall i :: 0 <= i < |s| ==> IsSpace(s[i])
    ensures |r| > 0 ==> !IsSpace(r[0]) && !IsSpace(r[|r| - 1])
  {
    TrimEnd(TrimStart(s))
  }

  /** Leading white space is dropped entirely. */
  lemma {:induction false} TrimStartPadded(a: string, b: string)
    requires forall i :: 0 <= i < |a| ==> IsSpace(a[i])
    requires |b| > 0 ==> !IsSpace(b[0])
    ensures TrimStart(a + b) == b
    decreases |a|
  {
    if |a| > 0 {
      assert (a + b)[1..] == a[1..] + b;
      TrimStartPadded(a[1..], b);
    } else {
      assert a + b == b;
    }
  }

  /** Trailing white space is dropped entirely. */
  lemma {:induction false} TrimEndPadded(b: string, c: string)
    requires forall i :: 0 <= i < |c| ==> IsSpace(c[i])
    requires |b| > 0 ==> !IsSpace(b[|b| - 1])
    ensures TrimEnd(b + c) == b
    decreases |c|
  {
    if |c| > 0 {
      assert (b + c)[..|b + c| - 1] == b + c[..|c| - 1];
      TrimEndPadded(b, c[..|c| - 1]);
    } else {
      assert b + c == b;
    }
  }

  /** `trim` is characterised by its output: padding a text that has no
      white space at either end with white space on both sides and trimming
      gives the text back. */
  lemma TrimPadded(a: string, b: string, c: string)
    requires forall i :: 0 <= i < |a| ==> IsSpace(a[i])
    requires forall i :: 0 <= i < |c| ==> IsSpace(c[i])
    requires |b| > 0 ==> !IsSpace(b[0]) && !IsSpace(b[|b| - 1])
    ensures Trim(a + b + c) == b
  {
    if |b| > 0 {
      assert a + b + c == a + (b + c);
      TrimStartPadded(a, b + c);
      TrimEndPadded(b, c);
    } else {
      assert a + b + c == a + c;
      assert forall i :: 0 <= i < |a + c| ==> IsSpace((a + c)[i]);
    }
  }

  /** A text without white space at either end is its own trim. */
  lemma TrimUnpadded(s: string)
    requires |s| > 0 ==> !IsSpace(s[0]) && !IsSpace(s[|s| - 1])
    ensures Trim(s) == s
  {
    TrimPadded("", s, "");
    assert "" + s + "" == s;
  }

  /** Trimming twice is trimming once. */
  lemma TrimIdempotent(s: string)
    ensures Trim(Trim(s)) == Trim(s)
  {
    TrimPadded("", Trim(s), "");
    assert "" + Trim(s) + "" == Trim(s);
  }

  /** The ASCII upper-case letters mapped to lower case; every other character
      is left alone. */
  function LowerChar(c: char): char
  {
    if 'A' <= c <= 'Z' then (c as int + 32) as char else c
  }

  function Lower(s: string): (r: string)
    ensures |r| == |s|
    ensures forall i :: 0 <= i < |s| ==> r[i] == LowerChar(s[i])
  {
    seq(|s|, i requires 0 <= i < |s| => LowerChar(s[i]))
  }

  /** `/kw/i.test(text)` for a keyword without regular-expression
      metacharacters: the keyword occurs in the text ignoring ASCII case. */
  predicate ContainsIgnoreCase(text: string, kw: string)
  {
    Contains(Lower(text), Lower(kw))
  }

  /** Lower-casing a concatenation lower-cases each part. */
  lemma LowerConcat(a: string, b: string)
    ensures Lower(a + b) == Lower(a) + Lower(b)
  {
  }

  /** A keyword placed anywhere in a text, in any ASCII case, is found. */
  lemma ContainsIgnoreCaseConcat(a: string, kw: string, b: string)
    ensures ContainsIgnoreCase(a + kw + b, kw)
  {
    LowerConcat(a + kw, b);
    LowerConcat(a, kw);
    ContainsConcat(Lower(a), Lower(kw), Lower(b));
  }

  /** `parts.join(sep)`. */
  function Join(parts: seq<string>, sep: string): string
    decreases |parts|
  {
    if |parts| == 0 then ""
    else if |parts| == 1 then parts[0]
    else parts[0] + sep + Join(parts[1..], sep)
  }

  /** Every part of a join occurs in the joined text. */
  lemma {:induction false} JoinContainsPart(parts: seq<string>, sep: string, k: int)
    requires 0 <= k < |parts|
    ensures Contains(Join(parts, sep), parts[k])
    decreases |parts|
  {
    if |parts| == 1 {
      ContainsConcat("", parts[0], "");
      assert "" + parts[0] + "" == parts[0];
    } else if k == 0 {
      ContainsConcat("", parts[0], sep + Join(parts[1..], sep));
      assert "" + parts[0] + (sep + Join(parts[1..], sep)) == Join(parts, sep);
    } else {
      JoinContainsPart(parts[1..], sep, k - 1);
      ContainsWithin(parts[0] + sep, Join(parts[1..], sep), "", parts[k]);
      assert parts[0] + sep + Join(parts[1..], sep) + "" == Join(parts, sep);
    }
  }

  /** The decimal digit for `d`. */
  function DigitChar(d: nat): char
    requires d < 10
  {
    ('0' as int + d) as char
  }

  /** The value of a decimal digit character (0 for anything else). */
  function DigitValue(c: char): nat
  {
    if '0' <= c <= '9' then c as int - '0' as int else 0
  }

  /** The decimal rendering of a non-negative integer in a template literal:
      no sign, no leading zeros. */
  function Decimal(n: nat): (r: string)
    ensures |r| > 0
    ensures forall i :: 0 <= i < |r| ==> '0' <= r[i] <= '9'
    ensures n >= 10 ==> r[0] != '0'
    decreases n
  {
    if n < 10 then [DigitChar(n)] else Decimal(n / 10) + [DigitChar(n % 10)]
  }

  /** Reads a string of decimal digits back as a number. */
  function ParseDecimal(s: string): nat
    decreases |s|
  {
    if |s| == 0 then 0 else ParseDecimal(s[..|s| - 1]) * 10 + DigitValue(s[|s| - 1])
  }

  /** The decimal rendering loses nothing: reading it back gives the number. */
  lemma {:induction false} DecimalRoundTrip(n: nat)
    ensures ParseDecimal(Decimal(n)) == n
    decreases n
  {
    if n >= 10 {
      var d := Decimal(n / 10);
      var s := d + [DigitChar(n % 10)];
      assert s[..|s| - 1] == d;
      DecimalRoundTrip(n / 10);
    }
  }
}
