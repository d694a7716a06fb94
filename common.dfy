/**
 * The normaliser of `eits_python_api/common.py`: pattern validation, the
 * code and title clean-up functions, the tier and risk lookups, and the
 * builders of the JSON module record and of the tabular measure rows.
 */
module Common {
  import opened Wrappers
  import opened PyStr
  import opened Models
  import opened Patterns
  import opened Sequencing

  // ----- pattern validation ------------------------------------------------

  /**
   * `validate_eits_pattern`: passes when the string matches the kind's
   * grammar; otherwise raises the mismatch of the kind's category, or a
   * plain `ValueError` for the `ONLY_*` kinds, which have no category.
   */
  function ValidateEitsPattern(s: string, kind: EITSType): (r: Outcome<PatternMismatch>)
    ensures r.Pass? <==> Matches(kind, s)
    ensures r.Fail? ==> r.error == MismatchOf(kind)
  {
    if Matches(kind, s) then Pass else Fail(MismatchOf(kind))
  }

  /** The exception `validate_eits_pattern` raises for a kind: one per family, `ValueError` for the rest. */
  function MismatchOf(kind: EITSType): (e: PatternMismatch)
    ensures e == WrongType <==> kind in {OnlySecurityCode, OnlyMeasureCode, OnlyResponsibility, OnlyModuleCode}
  {
    match kind
    case MeasureCode | MeasureCodeRaw => MeasureCodeMismatch
    case MeasureTitle | MeasureTitleRaw => MeasureTitleMismatch
    case ModuleCode | ModuleCodeRaw => ModuleCodeMismatch
    case ModuleTitle | ModuleTitleRaw => ModuleTitleMismatch
    case _ => WrongType
  }

  /**
   * What the `try` around a code check and a title check in
   * `create_module_object` logs: nothing when both match; otherwise the
   * first mismatch, the code being checked first so that its failure skips
   * the title check.
   */
  function LoggedMismatch(code: string, codeKind: EITSType, title: string, titleKind: EITSType)
    : Option<PatternMismatch>
  {
    match ValidateEitsPattern(code, codeKind)
    case Fail(e) => Some(e)
    case Pass =>
      match ValidateEitsPattern(title, titleKind)
      case Fail(e) => Some(e)
      case Pass => None
  }

  /**
   * The `try` statement itself: the mismatch goes only to the debug log,
   * which this model leaves out, so the caller's state and result are
   * untouched whatever the grammars say.
   */
  method LogPatternMismatch(code: string, codeKind: EITSType, title: string, titleKind: EITSType)
  {
    var logged := LoggedMismatch(code, codeKind, title, titleKind);
  }

  /** Nothing is logged exactly when both strings match; otherwise the code's mismatch takes precedence. */
  lemma LoggedMismatchSpec(code: string, codeKind: EITSType, title: string, titleKind: EITSType)
    ensures var r := LoggedMismatch(code, codeKind, title, titleKind);
      && (r.None? <==> Matches(codeKind, code) && Matches(titleKind, title))
      && (!Matches(codeKind, code) ==> r == Some(ValidateEitsPattern(code, codeKind).error))
      && (Matches(codeKind, code) && !Matches(titleKind, title) ==>
        r == Some(ValidateEitsPattern(title, titleKind).error))
  {
  }

  // ----- truncations -------------------------------------------------------

  /**
   * `s.split(c)[0] if c in s else s`, the shape shared by the two truncations
   * below: the text before the first `c`, or all of `s` when it has none.
   */
  function TextBeforeFirst(s: string, c: char): (r: string)
    ensures r <= s && c !in r
    ensures c !in s ==> r == s
    ensures |r| < |s| ==> s[|r|] == c
  {
    if c in s then SplitHead(s, c) else s
  }

  /** `remove_whitespace_and_text_after_whitespace`: the text before the first space. */
  function RemoveWhitespaceAndTextAfterWhitespace(s: string): string
  {
    TextBeforeFirst(s, ' ')
  }

  /** `remove_tab_and_text_after_tab`: the text before the first tab. */
  function RemoveTabAndTextAfterTab(s: string): string
  {
    TextBeforeFirst(s, '\t')
  }

  /**
   * `fix_codes`: a code with a space is cut at its first space; any other
   * code, one with a tab included, is returned as it is.
   */
  function FixCodes(code: string): (r: string)
    ensures r <= code && ' ' !in r
    ensures ' ' !in code ==> r == code
    ensures |r| < |code| ==> code[|r|] == ' '
  {
    if ' ' in code then RemoveWhitespaceAndTextAfterWhitespace(code) else code
  }

  /**
   * `add_colon_before_first_whitespace`: `title.split(" ", 1)` rejoined as
   * `"<first>: <rest>"`, so the colon goes right after the first token.
   */
  function AddColonBeforeFirstWhitespace(title: string): (r: string)
    ensures var c := SplitHead(title, ' ');
      |r| >= |c| + 2 && r[..|c|] == c && r[|c|..|c| + 2] == ": "
    ensures ' ' in title ==>
      |r| == |title| + 1 && r[..|SplitHead(title, ' ')|] + r[|SplitHead(title, ' ')| + 1..] == title
    ensures ' ' !in title ==> r == title + ": "
  {
    var i := Find(title, ' ');
    if i == |title| then
      assert title[..i] == title;
      title + ": "
    else
      ColonInserted(title, i);
      title[..i] + ": " + title[i + 1..]
  }

  /** Replacing the space at `i` by `": "` keeps the text before it, and dropping the colon gives the title back. */
  lemma ColonInserted(title: string, i: nat)
    requires i < |title| && title[i] == ' '
    ensures var r := title[..i] + ": " + title[i + 1..];
      |r| == |title| + 1 && r[..i] == title[..i] && r[i..i + 2] == ": " && r[..i] + r[i + 1..] == title
  {
    var r := title[..i] + ": " + title[i + 1..];
    assert r[..i] == title[..i];
    assert r[i + 1..] == [' '] + title[i + 1..];
    assert title == title[..i] + [title[i]] + title[i + 1..];
  }

  // ----- bracket and security-code removal ---------------------------------

  /**
   * `\[[^]]+\]` matches at the start of `s`: an opening bracket, at least one
   * character, and a closing bracket before any other closing bracket.
   */
  predicate BracketSpanAt(s: string)
  {
    |s| >= 3 && s[0] == '[' && 1 <= Find(s[1..], ']') < |s| - 1
  }

  /** `s` holds no `[...]` span. */
  predicate NoBracketSpan(s: string)
  {
    forall i | 0 <= i < |s| :: !BracketSpanAt(s[i..])
  }

  /** `re.sub(r"\[[^]]+\]", "", s)`: the spans are removed left to right. */
  function RemoveBracketSpans(s: string): (r: string)
    ensures |r| <= |s|
    ensures forall c | c in r :: c in s
    ensures '[' !in s ==> r == s
  {
    if s == [] then []
    else if BracketSpanAt(s) then RemoveBracketSpans(s[Find(s[1..], ']') + 2..])
    else [s[0]] + RemoveBracketSpans(s[1..])
  }

  /** The title with its bracket spans removed and its ends stripped. */
  function BracketFree(title: string): string
  {
    Strip(RemoveBracketSpans(title))
  }

  /**
   * `[CIA]{1,}(?:[-IA\)]{1,})*` up to the end of the string: markers, then
   * any of `-`, `I`, `A` and `)`, so the closing parenthesis is optional.
   */
  predicate SecurityTail(x: string)
  {
    var n := CIARun(x);
    n >= 1 && forall k | n <= k < |x| :: x[k] == '-' || x[k] == 'I' || x[k] == 'A' || x[k] == ')'
  }

  /**
   * The security-code pattern of `remove_strings_between_brackets_and_square_brackets`
   * matches from index `p` to the end of `t`. (Its `$` could also stop before
   * a final newline, but the string it is applied to has been stripped.)
   */
  predicate SecuritySuffixAt(t: string, p: nat)
  {
    p < |t| && t[p] == '(' && SecurityTail(t[p + 1..])
  }

  /** Where an unanchored search for the security-code pattern first matches at or after `p`, or `|t|`. */
  function SecuritySuffixFrom(t: string, p: nat): (q: nat)
    requires p <= |t|
    ensures p <= q <= |t|
    ensures q < |t| ==> SecuritySuffixAt(t, q)
    ensures forall i | p <= i < q :: !SecuritySuffixAt(t, i)
    decreases |t| - p
  {
    if p == |t| then |t|
    else if SecuritySuffixAt(t, p) then p
    else SecuritySuffixFrom(t, p + 1)
  }

  /** The leftmost match of the security-code pattern in `t`, or `|t|`. */
  function SecuritySuffix(t: string): (q: nat)
    ensures q <= |t|
    ensures q < |t| ==> SecuritySuffixAt(t, q)
    ensures forall i | 0 <= i < q :: !SecuritySuffixAt(t, i)
  {
    SecuritySuffixFrom(t, 0)
  }

  /**
   * The condition under which the security codes are removed from the
   * cleaned title `t`: the pattern matches, and the lower-cased codes occur
   * in the lower-cased title.
   */
  predicate DropsSecurityCodes(t: string, securityCodes: string)
  {
    SecuritySuffix(t) < |t| && Occurs(Lower(securityCodes), Lower(t))
  }

  /**
   * The removal of the security-code match from an already stripped title
   * `t`, and the strip that follows it: what is left is the text before the
   * leftmost match, less the whitespace in front of the match.
   */
  function CutSecuritySuffix(t: string): (r: string)
    requires SecuritySuffix(t) < |t| && !IsSpace(t[0]) && !IsSpace(t[|t| - 1])
    ensures SpaceAfter(r, t[..SecuritySuffix(t)])
    ensures r == [] || (!IsSpace(r[0]) && !IsSpace(r[|r| - 1]))
  {
    var q := SecuritySuffix(t);
    StripOfPrefix(t, q);
    Strip(t[..q])
  }

  /** Stripping a prefix of a string that does not start with whitespace removes only whitespace at its end. */
  lemma StripOfPrefix(t: string, q: nat)
    requires q <= |t| && (t == [] || !IsSpace(t[0]))
    ensures SpaceAfter(Strip(t[..q]), t[..q])
  {
    StripOfUnindented(t[..q]);
  }

  /**
   * `remove_strings_between_brackets_and_square_brackets`: remove the `[...]`
   * spans and strip; then, when the security codes are to be dropped, cut
   * the match of the security-code pattern and strip again.
   */
  function RemoveStringsBetweenBracketsAndSquareBrackets(title: string, securityCodes: string): (r: string)
    ensures var t := BracketFree(title);
      && (!DropsSecurityCodes(t, securityCodes) ==> r == t)
      && (DropsSecurityCodes(t, securityCodes) ==> SpaceAfter(r, t[..SecuritySuffix(t)]))
    ensures r == [] || (!IsSpace(r[0]) && !IsSpace(r[|r| - 1]))
  {
    DropSecurityCodes(BracketFree(title), securityCodes)
  }

  /**
   * The second step of the clean-up, on a title `t` with no whitespace at its
   * ends: when the codes are to be dropped, the text before the leftmost
   * match less the whitespace in front of it; otherwise `t` itself.
   */
  function DropSecurityCodes(t: string, securityCodes: string): (r: string)
    requires t == [] || (!IsSpace(t[0]) && !IsSpace(t[|t| - 1]))
    ensures !DropsSecurityCodes(t, securityCodes) ==> r == t
    ensures DropsSecurityCodes(t, securityCodes) ==> SpaceAfter(r, t[..SecuritySuffix(t)])
    ensures r == [] || (!IsSpace(r[0]) && !IsSpace(r[|r| - 1]))
  {
    if DropsSecurityCodes(t, securityCodes) then CutSecuritySuffix(t) else t
  }

  /**
   * `fix_titles`: clean the title; keep it when it already holds
   * `"<code>: "`, otherwise put a colon after its first token.
   */
  function FixTitles(title: string, code: string, securityCodes: seq<string>): (r: string)
    ensures Occurs(": ", r)
  {
    var clean := RemoveStringsBetweenBracketsAndSquareBrackets(title, Join("-", securityCodes));
    if Occurs(code + ": ", clean) then
      OccursOfSuffix(code, ": ", clean);
      clean
    else
      ColonAdded(clean);
      AddColonBeforeFirstWhitespace(clean)
  }

  /** A string holding `p + q` holds `q`. */
  lemma OccursOfSuffix(p: string, q: string, s: string)
    requires Occurs(p + q, s)
    ensures Occurs(q, s)
  {
    var i :| 0 <= i <= |s| && OccursAt(p + q, s, i);
    assert s[i + |p|..i + |p| + |q|] == (p + q)[|p|..];
    assert OccursAt(q, s, i + |p|);
  }

  /** `add_colon_before_first_whitespace` always leaves a `": "` in the title. */
  lemma ColonAdded(title: string)
    ensures Occurs(": ", AddColonBeforeFirstWhitespace(title))
  {
    var r := AddColonBeforeFirstWhitespace(title);
    assert OccursAt(": ", r, |SplitHead(title, ' ')|);
  }

  // ----- lookups -----------------------------------------------------------

  /** `get_group_name`: the three tier codes have names; every other string has the empty name. */
  function GetGroupName(code: string): (r: string)
    ensures r == "P\U{f5}himeede" <==> code == "3.2"
    ensures r == "Standardmeede" <==> code == "3.3"
    ensures r == "K\U{f5}rgmeede" <==> code == "3.4"
    ensures r == "" <==> code !in {"3.2", "3.3", "3.4"}
  {
    match code
    case "3.2" => "P\U{f5}himeede"
    case "3.3" => "Standardmeede"
    case "3.4" => "K\U{f5}rgmeede"
    case _ => ""
  }

  /**
   * `get_risks`: the risk list of `code`, or `None` when the table has no
   * entry for it. Indexing a missing table (`None`) raises `TypeError`,
   * which the function does not catch.
   */
  function GetRisks(code: string, risksIn: Option<RiskTable>): (r: Result<Option<seq<string>>, PyError>)
    ensures r.Err? <==> risksIn.None?
    ensures r.Err? ==> r.error == TypeError
    ensures r.Ok? ==> (r.value.Some? <==> code in risksIn.value)
    ensures r.Ok? && r.value.Some? ==> r.value.value == risksIn.value[code]
  {
    match risksIn
    case None => Err(TypeError)
    case Some(table) => if code in table then Ok(Some(table[code])) else Ok(None)
  }

  /**
   * `remove_html_tags`: the empty string gives the empty string; any other
   * string goes to the markup parser `text`, which may reject it.
   */
  function RemoveHtmlTags(s: string, text: string -> Option<string>): (r: Result<string, PyError>)
    ensures s == [] ==> r == Ok([])
    ensures s != [] ==> (r.Ok? <==> text(s).Some?)
  {
    if s == [] then Ok([])
    else match text(s) case None => Err(ParserError) case Some(t) => Ok(t)
  }

  /** A text field of the JSON record: kept as it is in HTML mode, stripped of markup otherwise. */
  function RenderText(s: string, html: bool, text: string -> Option<string>): Result<string, PyError>
  {
    if html then Ok(s) else RemoveHtmlTags(s, text)
  }

  // ----- record builders ---------------------------------------------------

  /** Every measure of `groups` with its group, group by group, each group's measures in order. */
  function GroupedMeasures(groups: seq<MeasureGroup>): (r: seq<(MeasureGroup, MeasureDetail)>)
  {
    if groups == [] then []
    else GroupedMeasures(groups[..|groups| - 1]) + InGroup(groups[|groups| - 1])
  }

  /** The number of measures over all of `groups`. */
  function MeasureCount(groups: seq<MeasureGroup>): nat
  {
    if groups == [] then 0 else MeasureCount(groups[..|groups| - 1]) + |groups[|groups| - 1].measures|
  }

  /** The measures of one group, each paired with the group. */
  function InGroup(g: MeasureGroup): seq<(MeasureGroup, MeasureDetail)>
  {
    seq(|g.measures|, k requires 0 <= k < |g.measures| => (g, g.measures[k]))
  }

  /** One `JsonMeasure` of `create_module_object`, in the order its fields are evaluated. */
  function MeasureObject(
    item: (MeasureGroup, MeasureDetail), moduleCode: string, risks: Option<RiskTable>,
    html: bool, text: string -> Option<string>): Result<JsonMeasure, PyError>
  {
    var (group, measure) := item;
    var code := FixCodes(measure.measureCode);
    match RenderText(measure.body, html, text)
    case Err(e) => Err(e)
    case Ok(description) =>
      match GetRisks(code, risks)
      case Err(e) => Err(e)
      case Ok(measureRisks) =>
        Ok(JsonMeasure(
          code := code,
          title := FixTitles(measure.measureTitle, measure.measureCode, measure.securityCodes),
          group := GetGroupName(group.groupCode),
          description := description,
          securityCode := Join("", measure.securityCodes),
          assignees := measure.assignees,
          moduleCode := FixCodes(moduleCode),
          lifecycle := None,
          risks := measureRisks))
  }

  /** The step that builds one measure record of a given module. */
  function MeasureMaker(moduleCode: string, risks: Option<RiskTable>, html: bool, text: string -> Option<string>)
    : ((MeasureGroup, MeasureDetail)) -> Result<JsonMeasure, PyError>
  {
    item => MeasureObject(item, moduleCode, risks, html, text)
  }

  /**
   * The module-level fields of `create_module_object`, after its measures:
   * the first three description entries (an `IndexError` when one is
   * missing) and the additional information, in that order.
   */
  function ModuleFields(details: ModuleContent, measures: seq<JsonMeasure>, html: bool, text: string -> Option<string>)
    : Result<JsonModule, PyError>
  {
    var d := details.description;
    if |d| < 1 then Err(IndexError) else
    var purpose := RenderText(d[0].content, html, text);
    if purpose.Err? then Err(purpose.error) else
    if |d| < 2 then Err(IndexError) else
    var responsibility := RenderText(d[1].content, html, text);
    if responsibility.Err? then Err(responsibility.error) else
    if |d| < 3 then Err(IndexError) else
    var limits := RenderText(d[2].content, html, text);
    if limits.Err? then Err(limits.error) else
    var additionalInfo := RenderText(details.additionalInfo, html, text);
    if additionalInfo.Err? then Err(additionalInfo.error) else
    Ok(JsonModule(
      code := FixCodes(details.moduleCode),
      title := FixTitles(details.moduleTitle, details.moduleCode, []),
      purpose := purpose.value,
      responsibility := responsibility.value,
      limits := limits.value,
      measures := measures,
      risks := details.risks,
      additionalInfo := additionalInfo.value,
      group := None))
  }

  /** What `create_module_object` returns or raises. */
  function ModuleObject(details: ModuleContent, risks: Option<RiskTable>, html: bool, text: string -> Option<string>)
    : Result<JsonModule, PyError>
  {
    match Traverse(GroupedMeasures(details.measureDetails), MeasureMaker(details.moduleCode, risks, html, text))
    case Err(e) => Err(e)
    case Ok(measures) => ModuleFields(details, measures, html, text)
  }

  lemma {:induction false} GroupedMeasuresAppend(a: seq<MeasureGroup>, b: seq<MeasureGroup>)
    ensures GroupedMeasures(a + b) == GroupedMeasures(a) + GroupedMeasures(b)
  {
    if b == [] {
      AppendNil(a);
      AppendNil(GroupedMeasures(a));
    } else {
      var init, last := b[..|b| - 1], b[|b| - 1];
      GroupedMeasuresAppend(a, init);
      InitOfAppend(a, b);
      assert GroupedMeasures(a + b) == GroupedMeasures(a + init) + InGroup(last);
      AppendAssoc(GroupedMeasures(a), GroupedMeasures(init), InGroup(last));
    }
  }

  /**
   * The nested `for` loops shared by `create_module_object` and
   * `create_csv_object`: for each measure group, for each of its measures,
   * build one record with `make` and append it; an exception from `make`
   * escapes at once. `checkRaw` adds the raw-grammar checks that
   * `create_module_object` runs (and only logs) before each record.
   */
  method CollectRecords<B>(
    groups: seq<MeasureGroup>, make: ((MeasureGroup, MeasureDetail)) -> Result<B, PyError>, checkRaw: bool)
    returns (r: Result<seq<B>, PyError>)
    ensures r == Traverse(GroupedMeasures(groups), make)
  {
    var records: seq<B> := [];
    var i := 0;
    while i < |groups|
      invariant 0 <= i <= |groups|
      invariant Traverse(GroupedMeasures(groups[..i]), make) == Ok(records)
    {
      var group := groups[i];
      var done := GroupedMeasures(groups[..i]);
      var pairs := InGroup(group);
      var j := 0;
      AppendTakeNone(done, pairs);
      while j < |group.measures|
        invariant 0 <= j <= |group.measures|
        invariant Traverse(done + pairs[..j], make) == Ok(records)
      {
        var measure := group.measures[j];
        if checkRaw {
          LogPatternMismatch(measure.measureCode, MeasureCodeRaw, measure.measureTitle, MeasureTitleRaw);
        }
        var record := make((group, measure));
        assert pairs[j] == (group, measure);
        MeasureStep(done, pairs, j, make);
        if record.Err? {
          TraverseStopsAt(groups, make, i, j);
          return Err(record.error);
        }
        records := records + [record.value];
        j := j + 1;
      }
      GroupStep(groups, i, make);
      i := i + 1;
    }
    TakeAll(groups);
    r := Ok(records);
  }

  /**
   * `create_module_object`: one measure record per measure, group by group,
   * then the module's own fields; the grammar checks only log. The first
   * exception escapes.
   */
  method CreateModuleObject(details: ModuleContent, risks: Option<RiskTable>, html: bool, text: string -> Option<string>)
    returns (r: Result<JsonModule, PyError>)
    ensures r == ModuleObject(details, risks, html, text)
  {
    var measures := CollectRecords(details.measureDetails, MeasureMaker(details.moduleCode, risks, html, text), true);
    if measures.Err? {
      return Err(measures.error);
    }
    LogPatternMismatch(details.moduleCode, ModuleCodeRaw, details.moduleTitle, ModuleTitleRaw);
    r := ModuleFields(details, measures.value, html, text);
  }

  /** One more pair of a group: its step runs after those of every earlier pair. */
  lemma MeasureStep<B>(
    done: seq<(MeasureGroup, MeasureDetail)>, pairs: seq<(MeasureGroup, MeasureDetail)>, j: nat,
    make: ((MeasureGroup, MeasureDetail)) -> Result<B, PyError>)
    requires j < |pairs|
    ensures Traverse(done + pairs[..j + 1], make) ==
      match Traverse(done + pairs[..j], make)
      case Err(e) => Err(e)
      case Ok(ys) => (match make(pairs[j]) case Err(e) => Err(e) case Ok(y) => Ok(ys + [y]))
  {
    AppendTakeSnoc(done, pairs, j);
    TraverseSnoc(done + pairs[..j], pairs[j], make);
  }

  /** After a whole group, the pairs seen are those of the groups up to and including it. */
  lemma GroupStep<B>(groups: seq<MeasureGroup>, i: nat, make: ((MeasureGroup, MeasureDetail)) -> Result<B, PyError>)
    requires i < |groups|
    ensures GroupedMeasures(groups[..i + 1]) == GroupedMeasures(groups[..i]) + InGroup(groups[i])[..|groups[i].measures|]
  {
    TakeOfTake(groups, i);
    TakeAll(InGroup(groups[i]));
  }

  /** One more group adds its own pairs at the end. */
  lemma GroupedSnoc(groups: seq<MeasureGroup>, g: MeasureGroup)
    ensures GroupedMeasures(groups + [g]) == GroupedMeasures(groups) + InGroup(g)
  {
    InitOfAppend(groups, [g]);
  }

  /** The pairs of all groups split around group `i`. */
  lemma GroupedSplit(groups: seq<MeasureGroup>, i: nat)
    requires i < |groups|
    ensures GroupedMeasures(groups) ==
      GroupedMeasures(groups[..i]) + InGroup(groups[i]) + GroupedMeasures(groups[i + 1..])
  {
    var before, g, after := groups[..i], groups[i], groups[i + 1..];
    SplitAround(groups, i);
    GroupedMeasuresAppend(before + [g], after);
    GroupedSnoc(before, g);
  }

  /** A measure whose step raises decides the result of the traversal of all the groups' measures. */
  lemma TraverseStopsAt<B>(
    groups: seq<MeasureGroup>, make: ((MeasureGroup, MeasureDetail)) -> Result<B, PyError>, i: nat, j: nat)
    requires i < |groups| && j < |groups[i].measures|
    requires Traverse(GroupedMeasures(groups[..i]) + InGroup(groups[i])[..j + 1], make).Err?
    ensures Traverse(GroupedMeasures(groups), make) ==
      Traverse(GroupedMeasures(groups[..i]) + InGroup(groups[i])[..j + 1], make)
  {
    var pairs := InGroup(groups[i]);
    var before := GroupedMeasures(groups[..i]);
    var after := GroupedMeasures(groups[i + 1..]);
    GroupedSplit(groups, i);
    Regroup(before, pairs, after, j + 1);
    TraverseErrPersists(before + pairs[..j + 1], pairs[j + 1..] + after, make);
  }

  // ----- the tabular rows --------------------------------------------------

  /**
   * One `CsvMeasure` of `create_csv_object`, in the order its fields are
   * evaluated: the module's texts with their newlines escaped and their
   * markup removed, then the raw codes and titles, the tier name, the
   * measure's body, and the joined assignees and security codes.
   */
  function CsvRecord(content: ModuleContent, item: (MeasureGroup, MeasureDetail), text: string -> Option<string>)
    : Result<CsvMeasure, PyError>
  {
    var (group, measure) := item;
    var d := content.description;
    if |d| < 1 then Err(IndexError) else
    var purpose := RemoveHtmlTags(EscapeNewlines(d[0].content), text);
    if purpose.Err? then Err(purpose.error) else
    if |d| < 2 then Err(IndexError) else
    var responsibility := RemoveHtmlTags(EscapeNewlines(d[1].content), text);
    if responsibility.Err? then Err(responsibility.error) else
    if |d| < 3 then Err(IndexError) else
    var limits := RemoveHtmlTags(EscapeNewlines(d[2].content), text);
    if limits.Err? then Err(limits.error) else
    var additionalInfo := RemoveHtmlTags(EscapeNewlines(content.additionalInfo), text);
    if additionalInfo.Err? then Err(additionalInfo.error) else
    var body := RemoveHtmlTags(EscapeNewlines(measure.body), text);
    if body.Err? then Err(body.error) else
    Ok(CsvMeasure(
      catalogVersion := content.version,
      moduleValidFrom := content.validFrom,
      moduleValidTo := content.validTo,
      modulePurpose := purpose.value,
      moduleResponsibility := responsibility.value,
      moduleLimits := limits.value,
      moduleAdditionalInfo := additionalInfo.value,
      moduleCode := content.moduleCode,
      moduleTitle := content.moduleTitle,
      measureCode := measure.measureCode,
      measureTitle := measure.measureTitle,
      measureGroup := GetGroupName(group.groupCode),
      measureBody := body.value,
      measureAssignees := Join(", ", measure.assignees),
      measureSecurityCodes := Join("", measure.securityCodes)))
  }

  /** The step that builds one row of a given content. */
  function CsvMaker(content: ModuleContent, text: string -> Option<string>)
    : ((MeasureGroup, MeasureDetail)) -> Result<CsvMeasure, PyError>
  {
    item => CsvRecord(content, item, text)
  }

  /** What `create_csv_object` returns or raises. */
  function CsvObject(content: ModuleContent, text: string -> Option<string>): Result<seq<CsvMeasure>, PyError>
  {
    Traverse(GroupedMeasures(content.measureDetails), CsvMaker(content, text))
  }

  /** `create_csv_object`: one row per measure, group by group; the first exception escapes. */
  method CreateCsvObject(content: ModuleContent, text: string -> Option<string>)
    returns (r: Result<seq<CsvMeasure>, PyError>)
    ensures r == CsvObject(content, text)
  {
    r := CollectRecords(content.measureDetails, CsvMaker(content, text), false);
  }
}
