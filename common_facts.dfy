/**
 * Properties of the normaliser in `Common`: the mismatch categories, the
 * truncations and title clean-up on the inputs the unit tests use, the
 * bracket removal, and what the two record builders produce.
 */
module CommonFacts {
  import opened Wrappers
  import opened PyStr
  import opened Models
  import opened Patterns
  import opened Sequencing
  import opened Common

  // ----- validation --------------------------------------------------------

  /** The display and raw kinds of each family raise the same mismatch, and the four families raise four different ones. */
  lemma DisplayAndRawShareCategory()
    ensures MismatchOf(MeasureCode) == MismatchOf(MeasureCodeRaw) == MeasureCodeMismatch
    ensures MismatchOf(MeasureTitle) == MismatchOf(MeasureTitleRaw) == MeasureTitleMismatch
    ensures MismatchOf(ModuleCode) == MismatchOf(ModuleCodeRaw) == ModuleCodeMismatch
    ensures MismatchOf(ModuleTitle) == MismatchOf(ModuleTitleRaw) == ModuleTitleMismatch
  {
  }

  /** The mismatch raised depends on the kind alone, never on the rejected string. */
  lemma MismatchDependsOnlyOnKind(s: string, t: string, kind: EITSType)
    requires ValidateEitsPattern(s, kind).Fail? && ValidateEitsPattern(t, kind).Fail?
    ensures ValidateEitsPattern(s, kind) == ValidateEitsPattern(t, kind)
  {
  }

  // ----- truncations -------------------------------------------------------

  /** With no space left in its result, `fix_codes` is idempotent. */
  lemma FixCodesIdempotent(code: string)
    ensures FixCodes(FixCodes(code)) == FixCodes(code)
  {
  }

  /** `fix_codes` is the text before the first space, which is exactly the token `split(" ", 1)` puts first. */
  lemma FixCodesIsFirstToken(code: string)
    ensures FixCodes(code) == SplitHead(code, ' ')
  {
    if ' ' !in code {
      assert Find(code, ' ') == |code|;
    }
  }

  /** The colon goes right after the same token that `fix_codes` keeps. */
  lemma ColonFollowsFixedCode(title: string)
    ensures var c := FixCodes(title);
      var r := AddColonBeforeFirstWhitespace(title);
      |r| >= |c| + 2 && r[..|c|] == c && r[|c|..|c| + 2] == ": "
  {
    FixCodesIsFirstToken(title);
  }

  /** `remove_whitespace_and_text_after_whitespace` keeps the first word, however much follows it. */
  lemma RemoveWhitespaceKeepsFirstWord(a: string, b: string)
    requires ' ' !in a
    ensures RemoveWhitespaceAndTextAfterWhitespace(a + " " + b) == a
  {
    var t := a + " " + b;
    assert t[..|a|] == a;
    FindIsFirst(t, ' ', |a|);
  }

  /** A string of spaces only, or the empty string, is cut to nothing. */
  lemma RemoveWhitespaceOfBlank(s: string)
    requires forall k | 0 <= k < |s| :: s[k] == ' '
    ensures RemoveWhitespaceAndTextAfterWhitespace(s) == ""
  {
    if s != [] {
      FindIsFirst(s, ' ', 0);
    }
  }

  /** `remove_tab_and_text_after_tab` keeps the text before the first tab, spaces included. */
  lemma RemoveTabKeepsFirstField(a: string, b: string)
    requires '\t' !in a
    ensures RemoveTabAndTextAfterTab(a + "\t" + b) == a
  {
    var t := a + "\t" + b;
    assert t[..|a|] == a;
    FindIsFirst(t, '\t', |a|);
  }

  /** The colon form of a title whose first space follows the word `a`: the space becomes `": "`. */
  lemma AddColonBetween(a: string, b: string)
    requires ' ' !in a
    ensures AddColonBeforeFirstWhitespace(a + " " + b) == a + ": " + b
  {
    var t := a + " " + b;
    assert t[..|a|] == a && t[|a| + 1..] == b;
    FindIsFirst(t, ' ', |a|);
  }

  /** Two titles give the same colon form when one only adds a trailing space: that space is lost. */
  lemma AddColonNotInjective(a: string)
    requires ' ' !in a
    ensures AddColonBeforeFirstWhitespace(a) == AddColonBeforeFirstWhitespace(a + " ") == a + ": "
  {
    AddColonBetween(a, "");
    assert a + " " + "" == a + " ";
    assert a + ": " + "" == a + ": ";
  }

  // ----- bracket and security-code removal ---------------------------------

  /** Prefixing one character shifts every later suffix by one. */
  lemma SuffixOfCons(c: char, r: string, i: nat)
    requires 1 <= i <= |r| + 1
    ensures ([c] + r)[i..] == r[i - 1..]
  {
  }

  /** The result of the substitution starts with `]` when its input does. */
  lemma RemoveBracketSpansKeepsCloser(s: string)
    requires s != [] && s[0] == ']'
    ensures RemoveBracketSpans(s) != [] && RemoveBracketSpans(s)[0] == ']'
  {
  }

  /** A string with no `]` has no span: the pattern needs a closing bracket. */
  lemma NoCloserNoSpan(r: string)
    requires ']' !in r
    ensures !BracketSpanAt(r)
  {
    if |r| >= 3 {
      assert ']' !in r[1..];
    }
  }

  /**
   * After the substitution no `[...]` span is left: removing a span never
   * joins the text around it into a new one.
   */
  lemma {:induction false} BracketSpansGone(s: string)
    ensures NoBracketSpan(RemoveBracketSpans(s))
    decreases |s|
  {
    if s == [] {
    } else if BracketSpanAt(s) {
      BracketSpansGone(s[Find(s[1..], ']') + 2..]);
    } else {
      var rest := RemoveBracketSpans(s[1..]);
      var r := [s[0]] + rest;
      assert RemoveBracketSpans(s) == r;
      BracketSpansGone(s[1..]);
      forall i | 0 <= i < |r|
        ensures !BracketSpanAt(r[i..])
      {
        if i >= 1 {
          SuffixOfCons(s[0], rest, i);
        } else {
          FirstKept(s, rest);
        }
      }
    }
  }

  /** The first character kept from a string that starts no span starts no span either. */
  lemma FirstKept(s: string, rest: string)
    requires s != [] && !BracketSpanAt(s) && rest == RemoveBracketSpans(s[1..])
    ensures !BracketSpanAt([s[0]] + rest)
  {
    var r := [s[0]] + rest;
    assert r[1..] == rest;
    if s[0] == '[' && |r| >= 3 {
      if |s| >= 3 && s[1] == ']' {
        RemoveBracketSpansKeepsCloser(s[1..]);
        FindIsFirst(rest, ']', 0);
      } else if |s| >= 3 {
        assert Find(s[1..], ']') >= |s| - 1;
        assert ']' !in s[1..];
        assert ']' !in rest;
      }
    }
  }

  /** A string with no span is left as it is. */
  lemma {:induction false} NoSpanUnchanged(s: string)
    requires NoBracketSpan(s)
    ensures RemoveBracketSpans(s) == s
    decreases |s|
  {
    if s != [] {
      assert s[0..] == s;
      forall i | 0 <= i < |s[1..]|
        ensures !BracketSpanAt(s[1..][i..])
      {
        assert s[1..][i..] == s[i + 1..];
      }
      NoSpanUnchanged(s[1..]);
      assert [s[0]] + s[1..] == s;
    }
  }

  /** Text before the first `[` is kept as it is, and the substitution goes on after it. */
  lemma {:induction false} BracketFreeTextKept(a: string, b: string)
    requires '[' !in a
    ensures RemoveBracketSpans(a + b) == a + RemoveBracketSpans(b)
    decreases |a|
  {
    if a == [] {
      assert a + b == b;
    } else {
      var s := a + b;
      assert s[0] == a[0] != '[';
      assert s[1..] == a[1..] + b;
      var rest := RemoveBracketSpans(b);
      assert RemoveBracketSpans(s) == [a[0]] + RemoveBracketSpans(a[1..] + b);
      BracketFreeTextKept(a[1..], b);
      ConsAppend(a, rest);
    }
  }

  lemma ConsAppend<T>(a: seq<T>, b: seq<T>)
    requires a != []
    ensures [a[0]] + (a[1..] + b) == a + b
  {
  }

  /** A span with non-empty, `]`-free contents is removed whole. */
  lemma SpanRemoved(c: string, b: string)
    requires c != [] && ']' !in c
    ensures RemoveBracketSpans("[" + c + "]" + b) == RemoveBracketSpans(b)
  {
    var s := "[" + c + "]" + b;
    assert s[1..] == c + "]" + b;
    assert s[1..][|c|] == ']' && s[1..][..|c|] == c;
    FindIsFirst(s[1..], ']', |c|);
    assert s[|c| + 2..] == b;
  }

  /**
   * The text around a span is kept in order: the first span of a title is
   * removed and the substitution carries on after it.
   */
  lemma SpanBetween(a: string, c: string, b: string)
    requires '[' !in a && c != [] && ']' !in c
    ensures RemoveBracketSpans(a + "[" + c + "]" + b) == a + RemoveBracketSpans(b)
  {
    assert a + "[" + c + "]" + b == a + ("[" + c + "]" + b);
    BracketFreeTextKept(a, "[" + c + "]" + b);
    SpanRemoved(c, b);
  }

  /** The substitution is idempotent. */
  lemma RemoveBracketSpansIdempotent(s: string)
    ensures RemoveBracketSpans(RemoveBracketSpans(s)) == RemoveBracketSpans(s)
  {
    BracketSpansGone(s);
    NoSpanUnchanged(RemoveBracketSpans(s));
  }

  /**
   * Module titles pass no security codes, and the empty string occurs in
   * every title, so the security-code match is cut whenever the pattern
   * matches at all.
   */
  lemma NoCodesDropOnPatternAlone(t: string)
    ensures DropsSecurityCodes(t, Join("-", [])) <==> SecuritySuffix(t) < |t|
  {
    assert Lower(Join("-", [])) == [];
    assert OccursAt([], Lower(t), 0);
  }

  /** A title with no `(` has no security-code match and keeps its text. */
  lemma NoParenNoSecurityCut(t: string, securityCodes: string)
    requires '(' !in t
    ensures !DropsSecurityCodes(t, securityCodes)
  {
  }

  /** Codes that do not occur in the title keep the match in place, even when the pattern matches. */
  lemma AbsentCodesKeepTitle(t: string, securityCodes: string)
    requires t == [] || (!IsSpace(t[0]) && !IsSpace(t[|t| - 1]))
    requires !Occurs(Lower(securityCodes), Lower(t))
    ensures DropSecurityCodes(t, securityCodes) == t
  {
  }

  /** `strip` leaves a string alone when neither end is whitespace. */
  lemma StripOfTrimmed(s: string)
    requires s == [] || (!IsSpace(s[0]) && !IsSpace(s[|s| - 1]))
    ensures Strip(s) == s
  {
    assert LStrip(s) == s;
  }

  /** A title with no `[` and no `(` and no whitespace at its ends comes out of the clean-up unchanged. */
  lemma CleanPlainTitle(t: string, securityCodes: string)
    requires '[' !in t && '(' !in t
    requires t == [] || (!IsSpace(t[0]) && !IsSpace(t[|t| - 1]))
    ensures RemoveStringsBetweenBracketsAndSquareBrackets(t, securityCodes) == t
  {
    StripOfTrimmed(t);
    NoParenNoSecurityCut(t, securityCodes);
  }

  // ----- titles ------------------------------------------------------------

  /**
   * `fix_titles` keeps the cleaned title when it already holds the code and
   * a colon, and otherwise puts the colon after the cleaned title's first
   * token.
   */
  lemma FixTitlesCases(title: string, code: string, securityCodes: seq<string>)
    ensures var clean := RemoveStringsBetweenBracketsAndSquareBrackets(title, Join("-", securityCodes));
      && (Occurs(code + ": ", clean) ==> FixTitles(title, code, securityCodes) == clean)
      && (!Occurs(code + ": ", clean) ==> FixTitles(title, code, securityCodes) == AddColonBeforeFirstWhitespace(clean))
  {
  }

  /** A plain two-part title without the code gets its colon in place of its first space. */
  lemma FixTitlesOfPlainTitle(a: string, b: string, code: string)
    requires a != [] && b != [] && !IsSpace(a[0]) && !IsSpace(b[|b| - 1])
    requires ' ' !in a && '[' !in a && '[' !in b && '(' !in a && '(' !in b
    requires !Occurs(code + ": ", a + " " + b)
    ensures FixTitles(a + " " + b, code, []) == a + ": " + b
  {
    var t := a + " " + b;
    assert t[0] == a[0] && t[|t| - 1] == b[|b| - 1];
    CleanPlainTitle(t, Join("-", []));
    AddColonBetween(a, b);
  }

  /** Fixing a title that already has its colon after the first word adds a second colon. */
  lemma FixTitlesRefixed(a: string, b: string, code: string)
    requires a != [] && b != [] && !IsSpace(a[0]) && !IsSpace(b[|b| - 1])
    requires ' ' !in a && '[' !in a && '[' !in b && '(' !in a && '(' !in b
    requires !Occurs(code + ": ", a + ": " + b)
    ensures FixTitles(a + ": " + b, code, []) == a + ":: " + b
  {
    ColonSplices(a, b, ':', ' ');
    FixTitlesOfPlainTitle(a + ":", b, code);
  }

  /**
   * `fix_titles` is not idempotent: a title whose first word is not the
   * code gets a second colon when it is fixed again.
   */
  lemma FixTitlesNotIdempotent(a: string, b: string, code: string)
    requires a != [] && b != [] && !IsSpace(a[0]) && !IsSpace(b[|b| - 1])
    requires ' ' !in a && '[' !in a && '[' !in b && '(' !in a && '(' !in b
    requires !Occurs(code + ": ", a + " " + b) && !Occurs(code + ": ", a + ": " + b)
    ensures FixTitles(FixTitles(a + " " + b, code, []), code, []) != FixTitles(a + " " + b, code, [])
  {
    FixTitlesOfPlainTitle(a, b, code);
    FixTitlesRefixed(a, b, code);
    assert |a + ":: " + b| != |a + ": " + b|;
  }

  lemma ColonSplices<T>(a: seq<T>, b: seq<T>, colon: T, space: T)
    ensures a + [colon, space] + b == (a + [colon]) + [space] + b
    ensures (a + [colon]) + [colon, space] + b == a + [colon, colon, space] + b
  {
  }
}
