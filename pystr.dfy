/**
 * The Python string built-ins the normaliser relies on, written out over
 * `seq<char>`: `in`, `find`/`split`, `strip`, `lower`, `join`, `replace`
 * and `str(int)`.
 */
module PyStr {

  /** `str.isspace()` for one character: the characters Python treats as whitespace. */
  predicate IsSpace(c: char)
  {
    c == ' ' || '\t' <= c <= '\r' || '\U{1c}' <= c <= '\U{1f}' || c == '\U{85}' || c == '\U{a0}'
    || c == '\U{1680}' || '\U{2000}' <= c <= '\U{200a}' || c == '\U{2028}' || c == '\U{2029}'
    || c == '\U{202f}' || c == '\U{205f}' || c == '\U{3000}'
  }

  /** The regular-expression class `\s` (Unicode White_Space). */
  predicate IsRegexSpace(c: char)
  {
    c == ' ' || '\t' <= c <= '\r' || c == '\U{85}' || c == '\U{a0}'
    || c == '\U{1680}' || '\U{2000}' <= c <= '\U{200a}' || c == '\U{2028}' || c == '\U{2029}'
    || c == '\U{202f}' || c == '\U{205f}' || c == '\U{3000}'
  }

  /** Index of the first `c` in `s`, or `|s|` when `c` does not occur. */
  function Find(s: string, c: char): (i: nat)
    ensures i <= |s|
    ensures c !in s[..i]
    ensures i < |s| ==> s[i] == c
    ensures i == |s| <==> c !in s
  {
    if s == [] then 0
    else if s[0] == c then 0
    else
      var j := Find(s[1..], c);
      assert s[1..][..j] == s[1..j + 1];
      assert s[..j + 1] == [s[0]] + s[1..][..j];
      j + 1
  }

  /** The first `c` of `s` is at `k` exactly when `s[k]` is `c` and no `c` comes before it. */
  lemma FindIsFirst(s: string, c: char, k: nat)
    requires k < |s| && s[k] == c && c !in s[..k]
    ensures Find(s, c) == k
  {
  }

  /** `s.split(c)[0]`: the text before the first `c`, or all of `s`. */
  function SplitHead(s: string, c: char): (r: string)
    ensures r <= s && c !in r
    ensures |r| < |s| ==> s[|r|] == c
  {
    s[..Find(s, c)]
  }

  /** Every character of `w` is whitespace. */
  predicate AllSpace(w: string)
  {
    forall k | 0 <= k < |w| :: IsSpace(w[k])
  }

  /** `s.lstrip()`. */
  function LStrip(s: string): (r: string)
    ensures |r| <= |s| && r == s[|s| - |r|..]
    ensures r == [] || !IsSpace(r[0])
    ensures AllSpace(s[..|s| - |r|])
  {
    if s != [] && IsSpace(s[0]) then
      var r := LStrip(s[1..]);
      assert s[..|s| - |r|] == [s[0]] + s[1..][..|s[1..]| - |r|];
      r
    else s
  }

  /** `s.rstrip()`. */
  function RStrip(s: string): (r: string)
    ensures r <= s
    ensures r == [] || !IsSpace(r[|r| - 1])
    ensures AllSpace(s[|r|..])
  {
    if s != [] && IsSpace(s[|s| - 1]) then
      var r := RStrip(s[..|s| - 1]);
      assert s[|r|..] == s[..|s| - 1][|r|..] + [s[|s| - 1]];
      r
    else s
  }

  /** `s` is `r` followed by whitespace only. */
  predicate SpaceAfter(r: string, s: string)
  {
    r <= s && AllSpace(s[|r|..])
  }

  /**
   * `s.strip()`: the slice of `s` left when the whitespace at both ends is
   * removed; only whitespace goes, and none is left at either end.
   */
  function Strip(s: string): (r: string)
    ensures exists i | 0 <= i <= |s| :: AllSpace(s[..i]) && SpaceAfter(r, s[i..])
    ensures r == [] || (!IsSpace(r[0]) && !IsSpace(r[|r| - 1]))
  {
    StripSlice(s);
    RStrip(LStrip(s))
  }

  /** What `strip` keeps: leading whitespace goes, then trailing whitespace. */
  lemma StripSlice(s: string)
    ensures var r := RStrip(LStrip(s));
      exists i | 0 <= i <= |s| :: AllSpace(s[..i]) && SpaceAfter(r, s[i..])
  {
    var l := LStrip(s);
    SpacesAround(s, l, RStrip(l));
  }

  /** `r` is left of `s` after whitespace is removed before `l`, and after `r` within `l`. */
  lemma SpacesAround(s: string, l: string, r: string)
    requires |l| <= |s| && l == s[|s| - |l|..] && AllSpace(s[..|s| - |l|])
    requires SpaceAfter(r, l)
    ensures exists i | 0 <= i <= |s| :: AllSpace(s[..i]) && SpaceAfter(r, s[i..])
  {
    var i := |s| - |l|;
    assert s[i..] == l;
  }

  /** Stripping a string that does not start with whitespace removes only whitespace at its end. */
  lemma StripOfUnindented(s: string)
    requires s == [] || !IsSpace(s[0])
    ensures SpaceAfter(Strip(s), s)
  {
    assert LStrip(s) == s;
    var r := RStrip(s);
    assert Strip(s) == r;
  }

  /**
   * `c.lower()` for ASCII, Latin-1 and Latin Extended-A (U+0000 to U+017F):
   * the capitals map to their small letters, and U+0130 (capital I with dot
   * above) to `i` and a combining dot above.
   */
  function LowerChar(c: char): (r: string)
    ensures 1 <= |r| <= 2
    ensures |r| == 2 <==> c == '\U{130}'
  {
    if 'A' <= c <= 'Z' || ('\U{c0}' <= c <= '\U{de}' && c != '\U{d7}') then [(c as int + 32) as char]
    else if c == '\U{130}' then "i\U{307}"
    else if ('\U{100}' <= c <= '\U{12f}' || '\U{132}' <= c <= '\U{137}' || '\U{14a}' <= c <= '\U{177}')
      && c as int % 2 == 0 then [(c as int + 1) as char]
    else if ('\U{139}' <= c <= '\U{148}' || '\U{179}' <= c <= '\U{17e}') && c as int % 2 == 1 then
      [(c as int + 1) as char]
    else if c == '\U{178}' then "\U{ff}"
    else [c]
  }

  /** `s.lower()`: one character for each, except U+0130, which becomes two. */
  function Lower(s: string): (r: string)
    ensures |s| <= |r| <= 2 * |s|
    ensures '\U{130}' !in s ==> |r| == |s|
  {
    if s == [] then []
    else
      assert s == [s[0]] + s[1..];
      LowerChar(s[0]) + Lower(s[1..])
  }

  /** `lower` works piece by piece. */
  lemma {:induction false} LowerAppend(a: string, b: string)
    ensures Lower(a + b) == Lower(a) + Lower(b)
  {
    if a == [] {
      assert a + b == b;
    } else {
      assert (a + b)[0] == a[0] && (a + b)[1..] == a[1..] + b;
      LowerAppend(a[1..], b);
    }
  }

  /** A lower-cased character is left as it is by a second `lower`. */
  lemma LowerCharFixed(c: char)
    ensures Lower(LowerChar(c)) == LowerChar(c)
  {
    var r := LowerChar(c);
    if |r| == 2 {
      assert r[1..][1..] == [];
    } else {
      assert r[1..] == [];
    }
  }

  /** `s.lower().lower() == s.lower()`. */
  lemma {:induction false} LowerIdempotent(s: string)
    ensures Lower(Lower(s)) == Lower(s)
  {
    if s != [] {
      LowerIdempotent(s[1..]);
      LowerCharFixed(s[0]);
      LowerAppend(LowerChar(s[0]), Lower(s[1..]));
    }
  }

  /** `p` occurs in `s` starting at index `i`. */
  predicate OccursAt(p: string, s: string, i: nat)
  {
    i + |p| <= |s| && s[i..i + |p|] == p
  }

  /** A prefix of a suffix of `s` occurs in `s`. */
  lemma PrefixOfSuffixOccurs(r: string, l: string, s: string)
    requires |l| <= |s| && l == s[|s| - |l|..] && r <= l
    ensures OccursAt(r, s, |s| - |l|)
  {
    assert s[|s| - |l|..|s| - |l| + |r|] == l[..|r|];
  }

  /** `p in s` for strings: `p` occurs in `s` as a contiguous run. */
  predicate Occurs(p: string, s: string)
  {
    exists i | 0 <= i <= |s| :: OccursAt(p, s, i)
  }

  /** `sep.join(parts)`. */
  function Join(sep: string, parts: seq<string>): (r: string)
    ensures parts == [] ==> r == []
    ensures |parts| == 1 ==> r == parts[0]
  {
    if parts == [] then []
    else if |parts| == 1 then parts[0]
    else Join(sep, parts[..|parts| - 1]) + sep + parts[|parts| - 1]
  }

  /** `s.replace("\n", "\\n")`: every newline becomes a backslash and an `n`. */
  function EscapeNewlines(s: string): (r: string)
    ensures '\n' !in r
    ensures '\n' !in s ==> r == s
  {
    if s == [] then []
    else (if s[0] == '\n' then "\\n" else [s[0]]) + EscapeNewlines(s[1..])
  }

  /** The decimal digits of `n`, most significant first. */
  function NatToString(n: nat): (r: string)
    ensures |r| >= 1
    ensures forall k | 0 <= k < |r| :: '0' <= r[k] <= '9'
    ensures n > 0 ==> r[0] != '0'
  {
    if n < 10 then [('0' as int + n) as char]
    else NatToString(n / 10) + [('0' as int + n % 10) as char]
  }

  /** `str(n)` for a Python integer. */
  function IntToString(n: int): (r: string)
    ensures |r| >= 1
    ensures n < 0 <==> r[0] == '-'
  {
    if n < 0 then "-" + NatToString(-n) else NatToString(n)
  }

  /** Different naturals have different decimal forms. */
  lemma {:induction false} NatToStringInjective(n: nat, m: nat)
    requires NatToString(n) == NatToString(m)
    ensures n == m
    decreases n
  {
    if n >= 10 && m >= 10 {
      var a, b := NatToString(n / 10), NatToString(m / 10);
      assert NatToString(n)[..|a|] == a && NatToString(m)[..|b|] == b;
      NatToStringInjective(n / 10, m / 10);
      assert NatToString(n)[|a|] == ('0' as int + n % 10) as char;
      assert NatToString(m)[|b|] == ('0' as int + m % 10) as char;
    }
  }

  /** Different integers have different `str` forms. */
  lemma IntToStringInjective(n: int, m: int)
    requires IntToString(n) == IntToString(m)
    ensures n == m
  {
    var r := IntToString(n);
    assert n < 0 <==> m < 0;
    if n < 0 {
      var a, b := NatToString(-n), NatToString(-m);
      assert r == "-" + a && r == "-" + b;
      assert a == r[1..] == b;
      NatToStringInjective(-n, -m);
    } else {
      NatToStringInjective(n, m);
    }
  }
}
