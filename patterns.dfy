/**
 * The `EITSType` regular expressions as recognisers. Each anchored pattern
 * (`^...$`) is matched against the whole string, where Python's `$` also
 * accepts one final newline; each unanchored `ONLY_*` pattern is matched
 * against a prefix, as `re.match` does.
 */
module Patterns {
  import opened PyStr
  import opened Models

  // ----- character classes -------------------------------------------------

  /** `[A-Z]` */
  predicate IsUpper(c: char) { 'A' <= c <= 'Z' }

  /** `[0-9]`, and the ASCII part of `\d` */
  predicate IsDigit(c: char) { '0' <= c <= '9' }

  /** `[0-9E]`: a character of a code segment */
  predicate IsSegmentChar(c: char) { IsDigit(c) || c == 'E' }

  /** `[ME]`: the measure-kind letters */
  predicate IsKindChar(c: char) { c == 'M' || c == 'E' }

  /** `[CIA]`: confidentiality, integrity, availability markers */
  predicate IsCIA(c: char) { c == 'C' || c == 'I' || c == 'A' }

  /**
   * `\p{L}` restricted to the Latin script up to U+017F (ASCII, Latin-1 and
   * Latin Extended-A letters, which cover Estonian).
   */
  predicate IsLetter(c: char)
  {
    'A' <= c <= 'Z' || 'a' <= c <= 'z' || c == '\U{aa}' || c == '\U{b5}' || c == '\U{ba}'
    || ('\U{c0}' <= c <= '\U{17f}' && c != '\U{d7}' && c != '\U{f7}')
  }

  /** `[\p{L}\s\-,\(\)\d\/]`: a character of a display title's text. */
  predicate IsTitleChar(c: char)
  {
    IsLetter(c) || IsRegexSpace(c) || c == '-' || c == ',' || c == '(' || c == ')' || IsDigit(c) || c == '/'
  }

  predicate NoNewline(s: string) { '\n' !in s }

  predicate AllRegexSpace(s: string) { forall k | 0 <= k < |s| :: IsRegexSpace(s[k]) }

  /** Length of the leading run of capital letters of `s`. */
  function UpperRun(s: string): (n: nat)
    ensures n <= |s|
    ensures forall k | 0 <= k < n :: IsUpper(s[k])
    ensures n < |s| ==> !IsUpper(s[n])
  {
    if s != [] && IsUpper(s[0]) then 1 + UpperRun(s[1..]) else 0
  }

  /** Length of the leading run of `[ME]` characters of `s`. */
  function KindRun(s: string): (n: nat)
    ensures n <= |s|
    ensures forall k | 0 <= k < n :: IsKindChar(s[k])
    ensures n < |s| ==> !IsKindChar(s[n])
  {
    if s != [] && IsKindChar(s[0]) then 1 + KindRun(s[1..]) else 0
  }

  /** Length of the leading run of `[CIA]` characters of `s`. */
  function CIARun(s: string): (n: nat)
    ensures n <= |s|
    ensures forall k | 0 <= k < n :: IsCIA(s[k])
    ensures n < |s| ==> !IsCIA(s[n])
  {
    if s != [] && IsCIA(s[0]) then 1 + CIARun(s[1..]) else 0
  }

  /** Index of the first `\s` character of `s`, or `|s|`. */
  function FirstRegexSpace(s: string): (i: nat)
    ensures i <= |s|
    ensures forall k | 0 <= k < i :: !IsRegexSpace(s[k])
    ensures i < |s| ==> IsRegexSpace(s[i])
  {
    if s == [] || IsRegexSpace(s[0]) then 0 else 1 + FirstRegexSpace(s[1..])
  }

  // ----- codes -------------------------------------------------------------

  /** `\.[0-9E]{1,2}` */
  predicate Segment(s: string)
  {
    (|s| == 2 || |s| == 3) && s[0] == '.' && forall k | 1 <= k < |s| :: IsSegmentChar(s[k])
  }

  /** `(?:\.[0-9E]{1,2}){1,}` */
  predicate Segments(s: string)
    decreases |s|
  {
    Segment(s)
    || (|s| > 2 && Segment(s[..2]) && Segments(s[2..]))
    || (|s| > 3 && Segment(s[..3]) && Segments(s[3..]))
  }

  /** `(?:\.[0-9E]{1,2}){1,2}` */
  predicate OneOrTwoSegments(s: string)
  {
    Segment(s)
    || (|s| > 2 && Segment(s[..2]) && Segment(s[2..]))
    || (|s| > 3 && Segment(s[..3]) && Segment(s[3..]))
  }

  /**
   * `\.[ME]{1,2}[0-9]{1,2}` when `capped`, `\.[ME]{1,2}[0-9]{1,}` otherwise.
   * The kind letters end where the digits begin, so they are the whole
   * leading `[ME]` run after the dot.
   */
  predicate MeasureSuffix(s: string, capped: bool)
  {
    |s| >= 3 && s[0] == '.'
    && var m := KindRun(s[1..]);
       1 <= m <= 2 && 1 + m < |s| && (capped ==> |s| - 1 - m <= 2)
       && forall k | 1 + m <= k < |s| :: IsDigit(s[k])
  }

  /** `(?:\.[0-9E]{1,2}){1,}` followed by a measure suffix. */
  predicate SegmentsThenSuffix(s: string, capped: bool)
    decreases |s|
  {
    (|s| > 2 && Segment(s[..2]) && (MeasureSuffix(s[2..], capped) || SegmentsThenSuffix(s[2..], capped)))
    || (|s| > 3 && Segment(s[..3]) && (MeasureSuffix(s[3..], capped) || SegmentsThenSuffix(s[3..], capped)))
  }

  /**
   * `[A-Z]{3,}(?:\.[0-9E]{1,2}){1,}`: a module code. The letters are the
   * whole leading capital run, since every segment starts with a dot.
   */
  predicate ModuleCodeForm(s: string)
    ensures ModuleCodeForm(s) ==> |s| >= 5 && IsUpper(s[0])
  {
    var n := UpperRun(s);
    n >= 3 && Segments(s[n..])
  }

  /** `[A-Z]{3,}(?:\.[0-9E]{1,2}){1,2}`: the short module code of `ONLY_MODULE_CODE`. */
  predicate ShortModuleCodeForm(s: string)
    ensures ShortModuleCodeForm(s) ==> |s| >= 5 && IsUpper(s[0])
  {
    var n := UpperRun(s);
    n >= 3 && OneOrTwoSegments(s[n..])
  }

  /** A measure code whose number has at most two digits (`MEASURE_CODE`). */
  predicate CappedMeasureCodeForm(s: string)
    ensures CappedMeasureCodeForm(s) ==> |s| >= 6 && IsUpper(s[0])
  {
    var n := UpperRun(s);
    n >= 3 && SegmentsThenSuffix(s[n..], true)
  }

  /** A measure code with any number of digits (`MEASURE_CODE_RAW`). */
  predicate RawMeasureCodeForm(s: string)
    ensures RawMeasureCodeForm(s) ==> |s| >= 6 && IsUpper(s[0])
  {
    var n := UpperRun(s);
    n >= 3 && SegmentsThenSuffix(s[n..], false)
  }

  // ----- annotations -------------------------------------------------------

  /** `[CIA]+[-IA]*`: the markers inside a security-code parenthesis. */
  predicate SecurityMarkers(w: string)
  {
    var r := CIARun(w);
    r >= 1 && forall k | r <= k < |w| :: w[k] == '-' || w[k] == 'I' || w[k] == 'A'
  }

  /** `\((?:[CIA]+)(?:[-IA]*?)\)` */
  predicate SecurityCodeForm(z: string)
  {
    |z| >= 3 && z[0] == '(' && z[|z| - 1] == ')' && SecurityMarkers(z[1..|z| - 1])
  }

  /** `\[.+\]` */
  predicate ResponsibilityForm(z: string)
  {
    |z| >= 3 && z[0] == '[' && z[|z| - 1] == ']' && NoNewline(z[1..|z| - 1])
  }

  /** `(?:\s+ \(...\))?` */
  predicate OptionalSecurityCode(y: string)
  {
    y == [] || exists k | 1 <= k < |y| :: AllRegexSpace(y[..k]) && SecurityCodeForm(y[k..])
  }

  /** `(?:\s+ \[...\])?` */
  predicate OptionalResponsibility(y: string)
  {
    y == [] || exists k | 1 <= k < |y| :: AllRegexSpace(y[..k]) && ResponsibilityForm(y[k..])
  }

  /** `.+?` followed by the optional security code and the optional responsibility. */
  predicate RawTitleText(x: string)
  {
    exists a | 1 <= a <= |x| :: NoNewline(x[..a]) && Annotations(x[a..])
  }

  predicate Annotations(y: string)
  {
    exists b | 0 <= b <= |y| :: OptionalSecurityCode(y[..b]) && OptionalResponsibility(y[b..])
  }

  // ----- titles ------------------------------------------------------------

  /** `<code>: <text>` where `<code>` and `<text>` satisfy the two predicates; the code holds no colon. */
  predicate CodeColonText(s: string, isCode: string -> bool, isText: string -> bool)
  {
    var i := Find(s, ':');
    i + 1 < |s| && s[i + 1] == ' ' && isCode(s[..i]) && isText(s[i + 2..])
  }

  /** `[\p{L}\s\-,\(\)\d\/]+` */
  predicate DisplayText(t: string)
  {
    t != [] && forall k | 0 <= k < |t| :: IsTitleChar(t[k])
  }

  /** `.+?` before `$` */
  predicate AnyText(t: string)
  {
    t != [] && NoNewline(t)
  }

  /** `MODULE_TITLE` without its `$`. */
  predicate DisplayModuleTitleForm(s: string)
    ensures DisplayModuleTitleForm(s) ==> |s| >= 8 && IsUpper(s[0])
  { CodeColonText(s, ModuleCodeForm, DisplayText) }

  /** `MEASURE_TITLE` without its `$`. */
  predicate DisplayMeasureTitleForm(s: string)
    ensures DisplayMeasureTitleForm(s) ==> |s| >= 8 && IsUpper(s[0])
  { CodeColonText(s, RawMeasureCodeForm, DisplayText) }

  /** `MODULE_TITLE_RAW` without its `$`. */
  predicate RawModuleTitleForm(s: string)
    ensures RawModuleTitleForm(s) ==> |s| >= 8 && IsUpper(s[0])
  { CodeColonText(s, ModuleCodeForm, AnyText) }

  /**
   * `MEASURE_TITLE_RAW` without its `$`: a measure code with a one- or
   * two-digit number, whitespace, then the title text with its optional
   * annotations. The code holds no whitespace, so it ends at the first.
   */
  predicate RawMeasureTitleForm(s: string)
    ensures RawMeasureTitleForm(s) ==> |s| >= 8 && IsUpper(s[0])
  {
    var i := FirstRegexSpace(s);
    CappedMeasureCodeForm(s[..i])
    && exists j | i < j <= |s| :: AllRegexSpace(s[i..j]) && RawTitleText(s[j..])
  }

  // ----- anchoring ---------------------------------------------------------

  /** `^P$`: `P` matches all of `s`, or all of `s` but one final newline. */
  predicate WholeMatch(p: string -> bool, s: string)
  {
    p(s) || (|s| > 0 && s[|s| - 1] == '\n' && p(s[..|s| - 1]))
  }

  predicate PrefixMatchAt(p: string -> bool, s: string, k: nat)
  {
    k <= |s| && p(s[..k])
  }

  /** `re.match(P, s)` for an unanchored `P`: some prefix of `s` matches. */
  predicate PrefixMatch(p: string -> bool, s: string)
  {
    exists k | 0 <= k <= |s| :: PrefixMatchAt(p, s, k)
  }

  /** `re.match(kind.value, s)` succeeds. */
  predicate Matches(kind: EITSType, s: string)
    ensures Matches(kind, s) ==> |s| >= 3
    ensures Matches(kind, s) && kind == OnlySecurityCode ==> s[0] == '('
    ensures Matches(kind, s) && kind == OnlyResponsibility ==> s[0] == '['
    ensures Matches(kind, s) && kind !in {OnlySecurityCode, OnlyResponsibility} ==> |s| >= 5 && IsUpper(s[0])
  {
    match kind
    case OnlySecurityCode => PrefixMatch(SecurityCodeForm, s)
    case OnlyMeasureCode => PrefixMatch(CappedMeasureCodeForm, s)
    case OnlyResponsibility => PrefixMatch(ResponsibilityForm, s)
    case OnlyModuleCode => PrefixMatch(ShortModuleCodeForm, s)
    case MeasureCode => WholeMatch(CappedMeasureCodeForm, s)
    case MeasureTitle => WholeMatch(DisplayMeasureTitleForm, s)
    case ModuleCode => WholeMatch(ModuleCodeForm, s)
    case ModuleTitle => WholeMatch(DisplayModuleTitleForm, s)
    case MeasureTitleRaw => WholeMatch(RawMeasureTitleForm, s)
    case MeasureCodeRaw => WholeMatch(RawMeasureCodeForm, s)
    case ModuleTitleRaw => WholeMatch(RawModuleTitleForm, s)
    case ModuleCodeRaw => WholeMatch(ModuleCodeForm, s)
  }
}

/** Facts about the code and title grammars. */
module PatternFacts {
  import opened PyStr
  import opened Models
  import opened Patterns

  lemma {:induction false} SegmentsThenSuffixCappedIsRaw(s: string)
    requires SegmentsThenSuffix(s, true)
    ensures SegmentsThenSuffix(s, false)
    decreases |s|
  {
    if |s| > 2 && Segment(s[..2]) && (MeasureSuffix(s[2..], true) || SegmentsThenSuffix(s[2..], true)) {
      if !MeasureSuffix(s[2..], true) { SegmentsThenSuffixCappedIsRaw(s[2..]); }
    } else {
      if !MeasureSuffix(s[3..], true) { SegmentsThenSuffixCappedIsRaw(s[3..]); }
    }
  }

  /** Every string `MEASURE_CODE` accepts, `MEASURE_CODE_RAW` accepts too. */
  lemma MeasureCodeIsMeasureCodeRaw(s: string)
    requires Matches(MeasureCode, s)
    ensures Matches(MeasureCodeRaw, s)
  {
    if CappedMeasureCodeForm(s) {
      SegmentsThenSuffixCappedIsRaw(s[UpperRun(s)..]);
    } else {
      var t := s[..|s| - 1];
      SegmentsThenSuffixCappedIsRaw(t[UpperRun(t)..]);
    }
  }

  /** A capped measure suffix has a non-digit among its last three characters. */
  lemma CappedSuffixShortNumber(s: string)
    requires MeasureSuffix(s, true)
    ensures exists k | |s| - 3 <= k < |s| :: !IsDigit(s[k])
  {
    var m := KindRun(s[1..]);
    assert !IsDigit(s[1..][m - 1]);
    assert !IsDigit(s[m]);
  }

  /** So does every code tail that ends in a capped measure suffix. */
  lemma {:induction false} CappedTailShortNumber(s: string)
    requires SegmentsThenSuffix(s, true)
    ensures exists k | |s| - 3 <= k < |s| :: !IsDigit(s[k])
    decreases |s|
  {
    var n := if |s| > 2 && Segment(s[..2]) && (MeasureSuffix(s[2..], true) || SegmentsThenSuffix(s[2..], true))
      then 2 else 3;
    var rest := s[n..];
    if MeasureSuffix(rest, true) {
      CappedSuffixShortNumber(rest);
    } else {
      CappedTailShortNumber(rest);
    }
    var k :| |rest| - 3 <= k < |rest| && !IsDigit(rest[k]);
    assert s[n + k] == rest[k];
  }

  /** Segments followed by an uncapped measure suffix form a raw code tail. */
  lemma {:induction false} SegmentsThenRawSuffix(x: string, y: string)
    requires Segments(x) && MeasureSuffix(y, false)
    ensures SegmentsThenSuffix(x + y, false)
    decreases |x|
  {
    var s := x + y;
    if Segment(x) {
      assert s[..|x|] == x && s[|x|..] == y;
    } else if |x| > 2 && Segment(x[..2]) && Segments(x[2..]) {
      assert s[..2] == x[..2] && s[2..] == x[2..] + y;
      SegmentsThenRawSuffix(x[2..], y);
    } else {
      assert s[..3] == x[..3] && s[3..] == x[3..] + y;
      SegmentsThenRawSuffix(x[3..], y);
    }
  }

  /** The leading capital run of `x + y` is that of `x` when it ends inside `x`. */
  lemma {:induction false} UpperRunOfAppend(x: string, y: string)
    requires UpperRun(x) < |x|
    ensures UpperRun(x + y) == UpperRun(x)
  {
    if IsUpper(x[0]) {
      assert (x + y)[1..] == x[1..] + y;
      UpperRunOfAppend(x[1..], y);
    }
  }

  /** `.M` and digits form an uncapped measure suffix. */
  lemma DigitsMeasureSuffix(d: string)
    requires |d| >= 1 && forall k | 0 <= k < |d| :: IsDigit(d[k])
    ensures MeasureSuffix(".M" + d, false)
  {
    var y := ".M" + d;
    assert y[1..] == "M" + d && ("M" + d)[1..] == d;
    assert KindRun(d) == 0;
  }

  /** A module code followed by `.M` and digits is a raw measure code. */
  lemma LongMeasureNumberRaw(c: string, d: string)
    requires ModuleCodeForm(c)
    requires |d| >= 1 && forall k | 0 <= k < |d| :: IsDigit(d[k])
    ensures RawMeasureCodeForm(c + ".M" + d)
  {
    var y := ".M" + d;
    var s := c + y;
    var n := UpperRun(c);
    var x := c[n..];
    assert Segments(x) && |x| >= 2;
    UpperRunOfAppend(c, y);
    DigitsMeasureSuffix(d);
    SegmentsThenRawSuffix(x, y);
    assert s[n..] == x + y;
    assert SegmentsThenSuffix(s[n..], false);
    assert c + ".M" + d == s;
  }

  /** A string ending in three digits is no capped measure code. */
  lemma ThreeDigitsNotCapped(s: string)
    requires |s| >= 3 && IsDigit(s[|s| - 3]) && IsDigit(s[|s| - 2]) && IsDigit(s[|s| - 1])
    ensures !CappedMeasureCodeForm(s)
  {
    var n := UpperRun(s);
    if n >= 3 && SegmentsThenSuffix(s[n..], true) {
      CappedTailShortNumber(s[n..]);
      assert false;
    }
  }

  /**
   * The raw grammar is strictly larger: a module code followed by `.M` and
   * a measure number of three or more digits is a raw measure code and not
   * a measure code.
   */
  lemma LongMeasureNumberIsOnlyRaw(c: string, d: string)
    requires ModuleCodeForm(c)
    requires |d| >= 3 && forall k | 0 <= k < |d| :: IsDigit(d[k])
    ensures Matches(MeasureCodeRaw, c + ".M" + d)
    ensures !Matches(MeasureCode, c + ".M" + d)
  {
    var s := c + ".M" + d;
    LongMeasureNumberRaw(c, d);
    assert s[|s| - 3..] == d[|d| - 3..];
    assert IsDigit(s[|s| - 3]) && IsDigit(s[|s| - 2]) && IsDigit(s[|s| - 1]);
    ThreeDigitsNotCapped(s);
  }

  lemma {:induction false} SegmentsChars(s: string)
    requires Segments(s)
    ensures forall k | 0 <= k < |s| :: s[k] == '.' || IsSegmentChar(s[k])
    decreases |s|
  {
    if Segment(s) {
    } else if |s| > 2 && Segment(s[..2]) && Segments(s[2..]) {
      SegmentsChars(s[2..]);
      assert forall k | 2 <= k < |s| :: s[k] == s[2..][k - 2];
    } else {
      SegmentsChars(s[3..]);
      assert forall k | 3 <= k < |s| :: s[k] == s[3..][k - 3];
    }
  }

  /** A module code is made of capitals, digits and dots only. */
  lemma ModuleCodeChars(s: string)
    requires ModuleCodeForm(s)
    ensures forall k | 0 <= k < |s| :: IsUpper(s[k]) || IsDigit(s[k]) || s[k] == '.'
    ensures ' ' !in s && ':' !in s && '\n' !in s
  {
    var n := UpperRun(s);
    SegmentsChars(s[n..]);
    assert forall k | n <= k < |s| :: s[k] == s[n..][k - n];
  }

  /** `MODULE_CODE` and `MODULE_CODE_RAW` are the same expression, so they accept the same strings. */
  lemma ModuleCodeKindsAgree(s: string)
    ensures Matches(ModuleCode, s) <==> Matches(ModuleCodeRaw, s)
  {
  }

  /** A module code, `": "` and a line of text form a raw module title. */
  lemma ModuleTitleRawFromParts(c: string, t: string)
    requires ModuleCodeForm(c)
    requires t != [] && NoNewline(t)
    ensures Matches(ModuleTitleRaw, c + ": " + t)
  {
    var s := c + ": " + t;
    ModuleCodeChars(c);
    assert s[..|c|] == c;
    assert s[|c|] == ':';
    assert Find(s, ':') == |c|;
    assert s[|c| + 2..] == t;
  }

  /** A display module title with no line break is also a raw module title. */
  lemma DisplayModuleTitleIsRaw(s: string)
    requires Matches(ModuleTitle, s)
    requires NoNewline(s)
    ensures Matches(ModuleTitleRaw, s)
  {
    var i := Find(s, ':');
    if DisplayModuleTitleForm(s) {
      assert forall c | c in s[i + 2..] :: c in s;
    }
  }
}
