/**
 * What the two record builders of `Common` produce: one record per measure,
 * group by group and measure by measure, with the fields the normaliser
 * derives from the measure, its group and its module; and the conditions
 * under which a module is dropped because a builder raises.
 */
module BuilderFacts {
  import opened Wrappers
  import opened PyStr
  import opened Models
  import opened Sequencing
  import opened Common

  // ----- the measure pairs -------------------------------------------------

  /** There is one pair per measure. */
  lemma {:induction false} GroupedMeasuresCount(groups: seq<MeasureGroup>)
    ensures |GroupedMeasures(groups)| == MeasureCount(groups)
  {
    if groups != [] {
      GroupedMeasuresCount(groups[..|groups| - 1]);
    }
  }

  /** Measure `j` of group `i` comes after every measure of the earlier groups and after the group's earlier measures. */
  lemma GroupedMeasuresAt(groups: seq<MeasureGroup>, i: nat, j: nat)
    requires i < |groups| && j < |groups[i].measures|
    ensures MeasureCount(groups[..i]) + j < |GroupedMeasures(groups)|
    ensures GroupedMeasures(groups)[MeasureCount(groups[..i]) + j] == (groups[i], groups[i].measures[j])
  {
    GroupedSplit(groups, i);
    GroupedMeasuresCount(groups[..i]);
    var before := GroupedMeasures(groups[..i]);
    var pairs := InGroup(groups[i]);
    assert (before + pairs)[|before| + j] == pairs[j];
  }

  /** Every pair is a measure of one of the groups, paired with that group. */
  lemma {:induction false} GroupedMeasuresFrom(groups: seq<MeasureGroup>, k: nat)
    requires k < |GroupedMeasures(groups)|
    ensures exists i, j | 0 <= i < |groups| && 0 <= j < |groups[i].measures| ::
      GroupedMeasures(groups)[k] == (groups[i], groups[i].measures[j])
  {
    var init := groups[..|groups| - 1];
    var last := groups[|groups| - 1];
    var before := GroupedMeasures(init);
    if k < |before| {
      GroupedMeasuresFrom(init, k);
      var i, j :| 0 <= i < |init| && 0 <= j < |init[i].measures| && before[k] == (init[i], init[i].measures[j]);
      assert GroupedMeasures(groups)[k] == (groups[i], groups[i].measures[j]);
    } else {
      var j := k - |before|;
      assert GroupedMeasures(groups)[k] == InGroup(last)[j];
      assert GroupedMeasures(groups)[k] == (groups[|groups| - 1], groups[|groups| - 1].measures[j]);
    }
  }

  /** The loop over the groups' measures builds the record of measure `j` of group `i` at the index after every earlier measure. */
  lemma BuiltAt<B>(groups: seq<MeasureGroup>, make: ((MeasureGroup, MeasureDetail)) -> Result<B, PyError>, i: nat, j: nat)
    requires Traverse(GroupedMeasures(groups), make).Ok?
    requires i < |groups| && j < |groups[i].measures|
    ensures var ys := Traverse(GroupedMeasures(groups), make).value;
      && |ys| == MeasureCount(groups)
      && MeasureCount(groups[..i]) + j < |ys|
      && make((groups[i], groups[i].measures[j])) == Ok(ys[MeasureCount(groups[..i]) + j])
  {
    TraverseOk(GroupedMeasures(groups), make);
    GroupedMeasuresCount(groups);
    GroupedMeasuresAt(groups, i, j);
  }

  /** The first step that raises decides the traversal. */
  lemma TraverseHeadErr<A, B>(xs: seq<A>, f: A -> Result<B, PyError>)
    requires xs != [] && f(xs[0]).Err?
    ensures Traverse(xs, f) == Err(f(xs[0]).error)
  {
    assert xs == [xs[0]] + xs[1..];
    assert [xs[0]][..0] == [];
    TraverseAppend([xs[0]], xs[1..], f);
  }

  // ----- the JSON module record --------------------------------------------

  /** Every measure body renders: kept as it is in HTML mode, or accepted by the markup parser. */
  predicate BodiesRender(groups: seq<MeasureGroup>, html: bool, text: string -> Option<string>)
  {
    forall i, j | 0 <= i < |groups| && 0 <= j < |groups[i].measures| ::
      RenderText(groups[i].measures[j].body, html, text).Ok?
  }

  /** The module's purpose, responsibility, limits and additional information exist and render. */
  predicate ModuleTextsRender(details: ModuleContent, html: bool, text: string -> Option<string>)
  {
    && |details.description| >= 3
    && RenderText(details.description[0].content, html, text).Ok?
    && RenderText(details.description[1].content, html, text).Ok?
    && RenderText(details.description[2].content, html, text).Ok?
    && RenderText(details.additionalInfo, html, text).Ok?
  }

  /** One measure record is built exactly when its body renders and a risk table is present. */
  lemma MeasureObjectOk(
    item: (MeasureGroup, MeasureDetail), moduleCode: string, risks: Option<RiskTable>,
    html: bool, text: string -> Option<string>)
    ensures MeasureObject(item, moduleCode, risks, html, text).Ok? <==>
      RenderText(item.1.body, html, text).Ok? && risks.Some?
  {
  }

  /** The module-level fields are built exactly when the module's texts exist and render. */
  lemma ModuleFieldsOk(details: ModuleContent, measures: seq<JsonMeasure>, html: bool, text: string -> Option<string>)
    ensures ModuleFields(details, measures, html, text).Ok? <==> ModuleTextsRender(details, html, text)
    ensures ModuleFields(details, measures, html, text).Ok? ==>
      ModuleFields(details, measures, html, text).value.measures == measures
  {
  }

  /** The loop over the module's measures succeeds exactly when every body renders and, if there is a measure, a risk table is present. */
  lemma MeasureStepsOk(details: ModuleContent, risks: Option<RiskTable>, html: bool, text: string -> Option<string>)
    ensures Traverse(GroupedMeasures(details.measureDetails), MeasureMaker(details.moduleCode, risks, html, text)).Ok? <==>
      BodiesRender(details.measureDetails, html, text) && (MeasureCount(details.measureDetails) == 0 || risks.Some?)
  {
    var groups := details.measureDetails;
    var pairs := GroupedMeasures(groups);
    var make := MeasureMaker(details.moduleCode, risks, html, text);
    TraverseOk(pairs, make);
    GroupedMeasuresCount(groups);
    if forall k | 0 <= k < |pairs| :: make(pairs[k]).Ok? {
      forall i, j | 0 <= i < |groups| && 0 <= j < |groups[i].measures|
        ensures RenderText(groups[i].measures[j].body, html, text).Ok? && risks.Some?
      {
        GroupedMeasuresAt(groups, i, j);
        var k := MeasureCount(groups[..i]) + j;
        MeasureObjectOk(pairs[k], details.moduleCode, risks, html, text);
      }
      if MeasureCount(groups) != 0 {
        MeasureObjectOk(pairs[0], details.moduleCode, risks, html, text);
      }
    }
    if BodiesRender(groups, html, text) && (MeasureCount(groups) == 0 || risks.Some?) {
      forall k | 0 <= k < |pairs|
        ensures make(pairs[k]).Ok?
      {
        GroupedMeasuresFrom(groups, k);
        MeasureObjectOk(pairs[k], details.moduleCode, risks, html, text);
      }
    }
  }

  /**
   * `create_module_object` returns a record exactly when every measure body
   * renders, a risk table is present (unless there is no measure at all),
   * and the module's three description entries and additional information
   * exist and render.
   */
  lemma ModuleObjectOk(details: ModuleContent, risks: Option<RiskTable>, html: bool, text: string -> Option<string>)
    ensures ModuleObject(details, risks, html, text).Ok? <==>
      && BodiesRender(details.measureDetails, html, text)
      && (MeasureCount(details.measureDetails) == 0 || risks.Some?)
      && ModuleTextsRender(details, html, text)
  {
    var make := MeasureMaker(details.moduleCode, risks, html, text);
    var pairs := GroupedMeasures(details.measureDetails);
    var t := Traverse(pairs, make);
    MeasureStepsOk(details, risks, html, text);
    if t.Ok? {
      ModuleFieldsOk(details, t.value, html, text);
      assert ModuleObject(details, risks, html, text) == ModuleFields(details, t.value, html, text);
    } else {
      assert ModuleObject(details, risks, html, text) == Err(t.error);
    }
  }

  /** The JSON record of measure `measure` of group `group` in the module with code `moduleCode`. */
  predicate JsonMeasureOf(
    m: JsonMeasure, item: (MeasureGroup, MeasureDetail), moduleCode: string,
    risks: Option<RiskTable>, html: bool, text: string -> Option<string>)
  {
    var (group, measure) := item;
    && m.code == FixCodes(measure.measureCode)
    && m.title == FixTitles(measure.measureTitle, measure.measureCode, measure.securityCodes)
    && m.group == GetGroupName(group.groupCode)
    && RenderText(measure.body, html, text) == Ok(m.description)
    && m.securityCode == Join("", measure.securityCodes)
    && m.assignees == measure.assignees
    && m.moduleCode == FixCodes(moduleCode)
    && m.lifecycle == None
    && risks.Some?
    && m.risks == (if m.code in risks.value then Some(risks.value[m.code]) else None)
  }

  /** A built measure record carries the fields derived from its measure, its group and its module. */
  lemma MeasureObjectFields(
    item: (MeasureGroup, MeasureDetail), moduleCode: string, risks: Option<RiskTable>,
    html: bool, text: string -> Option<string>)
    requires MeasureObject(item, moduleCode, risks, html, text).Ok?
    ensures JsonMeasureOf(MeasureObject(item, moduleCode, risks, html, text).value, item, moduleCode, risks, html, text)
  {
  }

  /** The measure records of a returned module record are those the traversal of the pairs built. */
  lemma ModuleObjectMeasures(details: ModuleContent, risks: Option<RiskTable>, html: bool, text: string -> Option<string>)
    requires ModuleObject(details, risks, html, text).Ok?
    ensures var t := Traverse(GroupedMeasures(details.measureDetails), MeasureMaker(details.moduleCode, risks, html, text));
      t.Ok? && ModuleObject(details, risks, html, text).value.measures == t.value
  {
    var t := Traverse(GroupedMeasures(details.measureDetails), MeasureMaker(details.moduleCode, risks, html, text));
    ModuleFieldsOk(details, t.value, html, text);
  }

  /** The traversal builds the record of measure `j` of group `i` after those of every earlier measure. */
  lemma MeasureRecordAt(
    groups: seq<MeasureGroup>, moduleCode: string, risks: Option<RiskTable>, html: bool, text: string -> Option<string>,
    i: nat, j: nat)
    requires Traverse(GroupedMeasures(groups), MeasureMaker(moduleCode, risks, html, text)).Ok?
    requires i < |groups| && j < |groups[i].measures|
    ensures var ms := Traverse(GroupedMeasures(groups), MeasureMaker(moduleCode, risks, html, text)).value;
      && |ms| == MeasureCount(groups)
      && MeasureCount(groups[..i]) + j < |ms|
      && JsonMeasureOf(ms[MeasureCount(groups[..i]) + j], (groups[i], groups[i].measures[j]), moduleCode, risks, html, text)
  {
    var make := MeasureMaker(moduleCode, risks, html, text);
    var pairs := GroupedMeasures(groups);
    TraverseOk(pairs, make);
    GroupedMeasuresCount(groups);
    GroupedMeasuresAt(groups, i, j);
    var ms := Traverse(pairs, make).value;
    var k := MeasureCount(groups[..i]) + j;
    assert MeasureObject(pairs[k], moduleCode, risks, html, text) == Ok(ms[k]);
    MeasureObjectFields(pairs[k], moduleCode, risks, html, text);
  }

  /**
   * A returned module record holds one measure record per measure, and the
   * record of measure `j` of group `i` sits after those of every earlier
   * measure, with the fields derived from that measure and its group.
   */
  lemma ModuleMeasureAt(
    details: ModuleContent, risks: Option<RiskTable>, html: bool, text: string -> Option<string>, i: nat, j: nat)
    requires ModuleObject(details, risks, html, text).Ok?
    requires i < |details.measureDetails| && j < |details.measureDetails[i].measures|
    ensures var groups := details.measureDetails;
      var ms := ModuleObject(details, risks, html, text).value.measures;
      && |ms| == MeasureCount(groups)
      && MeasureCount(groups[..i]) + j < |ms|
      && JsonMeasureOf(ms[MeasureCount(groups[..i]) + j], (groups[i], groups[i].measures[j]), details.moduleCode, risks, html, text)
  {
    ModuleObjectMeasures(details, risks, html, text);
    MeasureRecordAt(details.measureDetails, details.moduleCode, risks, html, text, i, j);
  }

  /**
   * Without a risk table a module with at least one measure is dropped; in
   * HTML mode, where nothing else can fail first, with a `TypeError`.
   */
  lemma NoRiskTableDropsModule(details: ModuleContent, html: bool, text: string -> Option<string>)
    requires MeasureCount(details.measureDetails) > 0
    ensures ModuleObject(details, None, html, text).Err?
    ensures html ==> ModuleObject(details, None, html, text) == Err(TypeError)
  {
    ModuleObjectOk(details, None, html, text);
    if html {
      var pairs := GroupedMeasures(details.measureDetails);
      var make := MeasureMaker(details.moduleCode, None, html, text);
      GroupedMeasuresCount(details.measureDetails);
      TraverseHeadErr(pairs, make);
    }
  }

  /**
   * A module with fewer than three description entries is dropped; in HTML
   * mode with a risk table, where every measure record is built, with an
   * `IndexError`.
   */
  lemma ShortDescriptionDropsModule(details: ModuleContent, risks: Option<RiskTable>, html: bool, text: string -> Option<string>)
    requires |details.description| < 3
    ensures ModuleObject(details, risks, html, text).Err?
    ensures html && risks.Some? ==> ModuleObject(details, risks, html, text) == Err(IndexError)
  {
    ModuleObjectOk(details, risks, html, text);
    if html && risks.Some? {
      var make := MeasureMaker(details.moduleCode, risks, html, text);
      var pairs := GroupedMeasures(details.measureDetails);
      TraverseOk(pairs, make);
      MeasureStepsOk(details, risks, html, text);
    }
  }

  // ----- the tabular rows --------------------------------------------------

  /** A text field of a row: its newlines escaped, then its markup removed. */
  predicate RowTextRenders(s: string, text: string -> Option<string>)
  {
    RemoveHtmlTags(EscapeNewlines(s), text).Ok?
  }

  /** The module's fields that every row repeats exist and render. */
  predicate RowModuleTextsRender(content: ModuleContent, text: string -> Option<string>)
  {
    && |content.description| >= 3
    && RowTextRenders(content.description[0].content, text)
    && RowTextRenders(content.description[1].content, text)
    && RowTextRenders(content.description[2].content, text)
    && RowTextRenders(content.additionalInfo, text)
  }

  /** Every measure body renders as a row field. */
  predicate RowBodiesRender(groups: seq<MeasureGroup>, text: string -> Option<string>)
  {
    forall i, j | 0 <= i < |groups| && 0 <= j < |groups[i].measures| ::
      RowTextRenders(groups[i].measures[j].body, text)
  }

  /** One row is built exactly when the module's repeated fields and the measure's body render. */
  lemma CsvRecordOk(content: ModuleContent, item: (MeasureGroup, MeasureDetail), text: string -> Option<string>)
    ensures CsvRecord(content, item, text).Ok? <==>
      RowModuleTextsRender(content, text) && RowTextRenders(item.1.body, text)
  {
  }

  /**
   * `create_csv_object` returns its rows exactly when there is no measure
   * at all, or the module's repeated fields and every measure body render:
   * unlike the JSON record, a module without measures never fails and the
   * risk table plays no part.
   */
  lemma CsvObjectOk(content: ModuleContent, text: string -> Option<string>)
    ensures CsvObject(content, text).Ok? <==>
      MeasureCount(content.measureDetails) == 0 ||
      (RowModuleTextsRender(content, text) && RowBodiesRender(content.measureDetails, text))
  {
    var groups := content.measureDetails;
    var pairs := GroupedMeasures(groups);
    var make := CsvMaker(content, text);
    TraverseOk(pairs, make);
    GroupedMeasuresCount(groups);
    if forall k | 0 <= k < |pairs| :: make(pairs[k]).Ok? {
      forall i, j | 0 <= i < |groups| && 0 <= j < |groups[i].measures|
        ensures RowTextRenders(groups[i].measures[j].body, text)
      {
        GroupedMeasuresAt(groups, i, j);
        CsvRecordOk(content, pairs[MeasureCount(groups[..i]) + j], text);
      }
      if MeasureCount(groups) != 0 {
        CsvRecordOk(content, pairs[0], text);
      }
    }
    if MeasureCount(groups) == 0 || (RowModuleTextsRender(content, text) && RowBodiesRender(groups, text)) {
      forall k | 0 <= k < |pairs|
        ensures make(pairs[k]).Ok?
      {
        GroupedMeasuresFrom(groups, k);
        CsvRecordOk(content, pairs[k], text);
      }
    }
  }

  /** The row of measure `measure` of group `group`: codes and titles raw, the rest joined or named. */
  predicate CsvMeasureOf(row: CsvMeasure, content: ModuleContent, item: (MeasureGroup, MeasureDetail),
    text: string -> Option<string>)
  {
    var (group, measure) := item;
    && row.catalogVersion == content.version
    && row.moduleCode == content.moduleCode
    && row.moduleTitle == content.moduleTitle
    && row.measureCode == measure.measureCode
    && row.measureTitle == measure.measureTitle
    && row.measureGroup == GetGroupName(group.groupCode)
    && RemoveHtmlTags(EscapeNewlines(measure.body), text) == Ok(row.measureBody)
    && row.measureAssignees == Join(", ", measure.assignees)
    && row.measureSecurityCodes == Join("", measure.securityCodes)
  }

  /** A built row carries the fields derived from its measure, its group and its module. */
  lemma CsvRecordFields(content: ModuleContent, item: (MeasureGroup, MeasureDetail), text: string -> Option<string>)
    requires CsvRecord(content, item, text).Ok?
    ensures CsvMeasureOf(CsvRecord(content, item, text).value, content, item, text)
  {
  }

  /** The rows are one per measure, in group order then measure order. */
  lemma CsvRowAt(content: ModuleContent, text: string -> Option<string>, i: nat, j: nat)
    requires CsvObject(content, text).Ok?
    requires i < |content.measureDetails| && j < |content.measureDetails[i].measures|
    ensures var groups := content.measureDetails;
      var rows := CsvObject(content, text).value;
      && |rows| == MeasureCount(groups)
      && MeasureCount(groups[..i]) + j < |rows|
      && CsvMeasureOf(rows[MeasureCount(groups[..i]) + j], content, (groups[i], groups[i].measures[j]), text)
  {
    var groups := content.measureDetails;
    var item := (groups[i], groups[i].measures[j]);
    BuiltAt(groups, CsvMaker(content, text), i, j);
    assert CsvMaker(content, text)(item) == CsvRecord(content, item, text);
    CsvRecordFields(content, item, text);
  }

  /**
   * When both builders succeed on the same module they agree measure by
   * measure: the JSON code is the row's raw code fixed, the module codes
   * likewise, and the security codes and tier names are the same.
   */
  lemma JsonAndCsvAgree(
    details: ModuleContent, risks: Option<RiskTable>, html: bool, text: string -> Option<string>, k: nat)
    requires ModuleObject(details, risks, html, text).Ok? && CsvObject(details, text).Ok?
    requires k < MeasureCount(details.measureDetails)
    ensures var ms := ModuleObject(details, risks, html, text).value.measures;
      var rows := CsvObject(details, text).value;
      && |ms| == |rows| == MeasureCount(details.measureDetails)
      && ms[k].code == FixCodes(rows[k].measureCode)
      && ms[k].moduleCode == FixCodes(rows[k].moduleCode)
      && ms[k].securityCode == rows[k].measureSecurityCodes
      && ms[k].group == rows[k].measureGroup
  {
    var groups := details.measureDetails;
    var pairs := GroupedMeasures(groups);
    GroupedMeasuresCount(groups);
    GroupedMeasuresFrom(groups, k);
    var i, j :| 0 <= i < |groups| && 0 <= j < |groups[i].measures| && pairs[k] == (groups[i], groups[i].measures[j]);
    var jsonMake := MeasureMaker(details.moduleCode, risks, html, text);
    var csvMake := CsvMaker(details, text);
    TraverseOk(pairs, jsonMake);
    TraverseOk(pairs, csvMake);
    var ms := Traverse(pairs, jsonMake).value;
    var rows := Traverse(pairs, csvMake).value;
    ModuleFieldsOk(details, ms, html, text);
    assert MeasureObject(pairs[k], details.moduleCode, risks, html, text) == Ok(ms[k]);
    assert CsvRecord(details, pairs[k], text) == Ok(rows[k]);
    MeasureObjectFields(pairs[k], details.moduleCode, risks, html, text);
    CsvRecordFields(details, pairs[k], text);
  }
}
