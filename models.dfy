/**
 * The data-transfer shapes of the E-ITS catalog API and of the records the
 * normaliser emits. Lists that the core iterates and that may be absent in
 * the JSON (`moduleSubgroups`, `modules`, the two sides of a replacement)
 * carry their absence explicitly; the other fields are taken as present.
 */
module Models {
  import opened Wrappers

  /** A titled piece of module text: purpose, responsibility, limits, risks. */
  datatype ElementInfo = ElementInfo(title: string, content: string)

  /** One measure of a module as the API delivers it. */
  datatype MeasureDetail = MeasureDetail(
    measureId: string,
    measureTitle: string,
    body: string,
    assignees: seq<string>,
    securityCodes: seq<string>,
    measureCode: string)

  /** A tier of measures (basic, standard or high) inside a module. */
  datatype MeasureGroup = MeasureGroup(
    groupId: string,
    groupTitle: string,
    measures: seq<MeasureDetail>,
    groupCode: string)

  /** A module as listed in the catalog tree. */
  datatype Module = Module(
    moduleId: string,
    groupId: string,
    moduleTitle: string,
    link: string,
    measureDetails: seq<MeasureGroup>,
    moduleCode: string,
    description: seq<ElementInfo>)

  /** The full content of one module, fetched by its id. */
  datatype ModuleContent = ModuleContent(
    version: string,
    lang: string,
    validFrom: string,
    validTo: string,
    moduleId: string,
    moduleTitle: string,
    description: seq<ElementInfo>,
    risks: seq<ElementInfo>,
    additionalInfo: string,
    measureDetails: seq<MeasureGroup>,
    moduleCode: string)

  /** A node of the catalog tree: nested subgroups and the group's own modules. */
  datatype ModuleGroup = ModuleGroup(
    groupId: string,
    groupTitle: string,
    parentGroupId: string,
    moduleSubgroups: Subgroups,
    modules: Option<seq<Module>>,
    groupCode: string)

  /** The `moduleSubgroups` field: a list of groups, or absent (`None`). */
  datatype Subgroups = NoSubgroups | Subgroups(groups: seq<ModuleGroup>)

  /** One catalog version: its root groups in catalog order. */
  datatype Catalog = Catalog(
    version: string,
    lang: string,
    validFrom: string,
    validTo: string,
    id: string,
    moduleGroups: seq<ModuleGroup>)

  /** A replaced group: the old tree and the new tree; either may be absent. */
  datatype DiffReplaced = DiffReplaced(oldValue: Option<ModuleGroup>, newValue: Option<ModuleGroup>)

  /** The difference between two catalog versions. */
  datatype DiffCatalog = DiffCatalog(
    oldVersion: string,
    newVersion: string,
    lang: string,
    added: seq<ModuleGroup>,
    removed: seq<ModuleGroup>,
    replaced: seq<DiffReplaced>)

  /** A normalised measure of the JSON output. */
  datatype JsonMeasure = JsonMeasure(
    code: string,
    title: string,
    group: string,
    description: string,
    securityCode: string,
    assignees: seq<string>,
    moduleCode: string,
    lifecycle: Option<string>,
    risks: Option<seq<string>>)

  /** A normalised module of the JSON output. */
  datatype JsonModule = JsonModule(
    code: string,
    title: string,
    purpose: string,
    responsibility: string,
    limits: string,
    measures: seq<JsonMeasure>,
    risks: seq<ElementInfo>,
    additionalInfo: string,
    group: Option<string>)

  /** One row of the tabular output: a measure with its module's fields repeated. */
  datatype CsvMeasure = CsvMeasure(
    catalogVersion: string,
    moduleValidFrom: string,
    moduleValidTo: string,
    modulePurpose: string,
    moduleResponsibility: string,
    moduleLimits: string,
    moduleAdditionalInfo: string,
    moduleCode: string,
    moduleTitle: string,
    measureCode: string,
    measureTitle: string,
    measureGroup: string,
    measureBody: string,
    measureAssignees: string,
    measureSecurityCodes: string)

  /** A risk table: normalised measure code to its risk codes. */
  type RiskTable = map<string, seq<string>>

  /** The named grammars of code and title strings. */
  datatype EITSType =
    | OnlySecurityCode
    | OnlyMeasureCode
    | OnlyResponsibility
    | OnlyModuleCode
    | MeasureCode
    | MeasureTitle
    | ModuleCode
    | ModuleTitle
    | MeasureTitleRaw
    | MeasureCodeRaw
    | ModuleTitleRaw
    | ModuleCodeRaw

  /**
   * The exception a failed pattern check raises: one category per kind of
   * string, and the plain `ValueError` for a kind with no category.
   */
  datatype PatternMismatch =
    | MeasureCodeMismatch
    | MeasureTitleMismatch
    | ModuleCodeMismatch
    | ModuleTitleMismatch
    | WrongType

  /** The Python exceptions that escape the core's operations. */
  datatype PyError =
    | TypeError       // `None` used where a list, dict or dataclass was expected
    | IndexError      // a description with fewer than three entries
    | AttributeError  // an attribute read on `None`
    | ParserError     // the markup parser rejected a field
}
