/**
 * The catalog walks of `eits_python_api/eits.py`, as functions: flattening
 * a module group into its modules, collecting the measures of the modules
 * of the diff's added, removed and replaced groups, choosing the risk table
 * of a catalog version, fetching the content of every module, and keeping
 * the modules whose normalisation succeeds.
 */
module CatalogTree {
  import opened Wrappers
  import opened Models
  import opened Sequencing
  import opened Common

  // ----- flattening --------------------------------------------------------

  /**
   * `get_modules_recursive`: the modules of every subgroup, recursively and
   * in subgroup order, then the group's own modules. A missing subgroup
   * list (`len(None)`) or module list (`+= None`) raises `TypeError`.
   */
  function Flatten(g: ModuleGroup): (r: Result<seq<Module>, PyError>)
    ensures r.Err? ==> r.error == TypeError
    decreases g, 1
  {
    match g.moduleSubgroups
    case NoSubgroups => Err(TypeError)
    case Subgroups(subs) =>
      match FlattenAll(subs)
      case Err(e) => Err(e)
      case Ok(inner) =>
        match g.modules
        case None => Err(TypeError)
        case Some(own) => Ok(inner + own)
  }

  /** The subgroups flattened one after the other; the first exception escapes. */
  function FlattenAll(gs: seq<ModuleGroup>): (r: Result<seq<Module>, PyError>)
    ensures r.Err? ==> r.error == TypeError
    decreases gs, 0
  {
    if gs == [] then Ok([])
    else
      match FlattenAll(gs[..|gs| - 1])
      case Err(e) => Err(e)
      case Ok(before) =>
        match Flatten(gs[|gs| - 1])
        case Err(e) => Err(e)
        case Ok(last) => Ok(before + last)
  }

  /** Every list the flattening reads is present, at every depth. */
  predicate Complete(g: ModuleGroup)
    decreases g, 1
  {
    g.moduleSubgroups.Subgroups? && g.modules.Some? && AllComplete(g.moduleSubgroups.groups)
  }

  predicate AllComplete(gs: seq<ModuleGroup>)
    decreases gs, 0
  {
    forall k | 0 <= k < |gs| :: Complete(gs[k])
  }

  /** The number of modules listed in the tree, at every depth. */
  function ModuleTotal(g: ModuleGroup): nat
    decreases g, 1
  {
    (if g.moduleSubgroups.Subgroups? then ModuleTotalAll(g.moduleSubgroups.groups) else 0)
    + (if g.modules.Some? then |g.modules.value| else 0)
  }

  function ModuleTotalAll(gs: seq<ModuleGroup>): nat
    decreases gs, 0
  {
    if gs == [] then 0 else ModuleTotalAll(gs[..|gs| - 1]) + ModuleTotal(gs[|gs| - 1])
  }

  /** `m` is listed somewhere in the tree under `g`. */
  predicate InTree(m: Module, g: ModuleGroup)
    decreases g, 1
  {
    (g.modules.Some? && m in g.modules.value)
    || (g.moduleSubgroups.Subgroups? && InForest(m, g.moduleSubgroups.groups))
  }

  predicate InForest(m: Module, gs: seq<ModuleGroup>)
    decreases gs, 0
  {
    exists k | 0 <= k < |gs| :: InTree(m, gs[k])
  }

  // ----- measures of modules -----------------------------------------------

  /** Every measure of the measure groups, group by group. */
  function MeasuresOf(groups: seq<MeasureGroup>): seq<MeasureDetail>
  {
    if groups == [] then [] else MeasuresOf(groups[..|groups| - 1]) + groups[|groups| - 1].measures
  }

  /** Every measure of the modules, module by module. */
  function ModulesMeasures(modules: seq<Module>): seq<MeasureDetail>
  {
    if modules == [] then [] else ModulesMeasures(modules[..|modules| - 1]) + MeasuresOf(modules[|modules| - 1].measureDetails)
  }

  /** The measures of the flattened modules of one group. */
  function GroupMeasures(g: ModuleGroup): Result<seq<MeasureDetail>, PyError>
  {
    match Flatten(g)
    case Err(e) => Err(e)
    case Ok(modules) => Ok(ModulesMeasures(modules))
  }

  /** The body of `get_diff_added` and `get_diff_removed`: the measures of every group's modules, group by group. */
  function GroupsMeasures(gs: seq<ModuleGroup>): Result<seq<MeasureDetail>, PyError>
  {
    Gather(gs, GroupMeasures)
  }

  /** The measures of the new side of a replacement; a missing new side raises `AttributeError`. */
  function NewValueMeasures(r: DiffReplaced): Result<seq<MeasureDetail>, PyError>
  {
    match r.newValue
    case None => Err(AttributeError)
    case Some(g) => GroupMeasures(g)
  }

  /** The body of `get_diff_replaced`: the measures of the new side of every replacement, in order. */
  function ReplacedMeasures(rs: seq<DiffReplaced>): Result<seq<MeasureDetail>, PyError>
  {
    Gather(rs, NewValueMeasures)
  }

  /** `get_diff_added`: reading `added` of a missing diff raises `AttributeError`. */
  function DiffAdded(diff: Option<DiffCatalog>): Result<seq<MeasureDetail>, PyError>
  {
    match diff
    case None => Err(AttributeError)
    case Some(d) => GroupsMeasures(d.added)
  }

  /** `get_diff_removed`. */
  function DiffRemoved(diff: Option<DiffCatalog>): Result<seq<MeasureDetail>, PyError>
  {
    match diff
    case None => Err(AttributeError)
    case Some(d) => GroupsMeasures(d.removed)
  }

  /** `get_diff_replaced`. */
  function DiffReplacedMeasures(diff: Option<DiffCatalog>): Result<seq<MeasureDetail>, PyError>
  {
    match diff
    case None => Err(AttributeError)
    case Some(d) => ReplacedMeasures(d.replaced)
  }

  /** `get_diff_all`: the added, then the replaced, then the removed measures; the first exception escapes. */
  function DiffAll(diff: Option<DiffCatalog>): Result<seq<MeasureDetail>, PyError>
  {
    match DiffAdded(diff)
    case Err(e) => Err(e)
    case Ok(added) =>
      match DiffReplacedMeasures(diff)
      case Err(e) => Err(e)
      case Ok(replaced) =>
        match DiffRemoved(diff)
        case Err(e) => Err(e)
        case Ok(removed) => Ok(added + replaced + removed)
  }

  // ----- the risk table ----------------------------------------------------

  /** The `match` on the catalog version in `EITSApi.__init__`. */
  function RiskTableFor(version: int, risks2022: RiskTable, risks2023: RiskTable): (r: Option<RiskTable>)
    ensures r.Some? <==> version == 2022 || version == 2023
    ensures version == 2022 ==> r == Some(risks2022)
    ensures version == 2023 ==> r == Some(risks2023)
  {
    match version
    case 2022 => Some(risks2022)
    case 2023 => Some(risks2023)
    case _ => None
  }

  // ----- fetching and normalising every module -----------------------------

  /** The content a fetch of `url` returns; an empty response makes `ApiModuleContent(**None)` raise `TypeError`. */
  function FetchContent(fetch: string -> Option<ModuleContent>, url: string): Result<ModuleContent, PyError>
  {
    match fetch(url)
    case None => Err(TypeError)
    case Some(c) => Ok(c)
  }

  /** The request of one module's content, at the URL `itemUrl` gives for its id. */
  function FetchStep(itemUrl: string -> string, fetch: string -> Option<ModuleContent>)
    : Module -> Result<ModuleContent, PyError>
  {
    (m: Module) => FetchContent(fetch, itemUrl(m.moduleId))
  }

  /** The contents of one root group's modules, in flattening order. */
  function GroupContents(g: ModuleGroup, itemUrl: string -> string, fetch: string -> Option<ModuleContent>)
    : Result<seq<ModuleContent>, PyError>
  {
    match Flatten(g)
    case Err(e) => Err(e)
    case Ok(modules) => Traverse(modules, FetchStep(itemUrl, fetch))
  }

  function ContentsStep(itemUrl: string -> string, fetch: string -> Option<ModuleContent>)
    : ModuleGroup -> Result<seq<ModuleContent>, PyError>
  {
    (g: ModuleGroup) => GroupContents(g, itemUrl, fetch)
  }

  /**
   * `get_raw_module_content`: root group by root group, the contents of the
   * group's modules in flattening order (`gather` keeps the order in which
   * the tasks were created). A failed fetch is not caught: it aborts the
   * whole walk.
   */
  function RawModuleContent(roots: seq<ModuleGroup>, itemUrl: string -> string, fetch: string -> Option<ModuleContent>)
    : Result<seq<ModuleContent>, PyError>
  {
    Gather(roots, ContentsStep(itemUrl, fetch))
  }

  /** The loop of `get_modules_and_measures`: the results of the elements that build, in order; the others are skipped. */
  function KeepBuilt<A, B>(xs: seq<A>, build: A -> Result<B, PyError>): seq<B>
  {
    if xs == [] then []
    else
      var kept := KeepBuilt(xs[..|xs| - 1], build);
      match build(xs[|xs| - 1])
      case Err(_) => kept
      case Ok(y) => kept + [y]
  }

  /** The prefix of `i + 1` elements keeps what the prefix of `i` keeps, and element `i` if it builds. */
  lemma KeepBuiltStep<A, B>(xs: seq<A>, i: nat, build: A -> Result<B, PyError>)
    requires i < |xs|
    ensures KeepBuilt(xs[..i + 1], build) ==
      match build(xs[i])
      case Err(_) => KeepBuilt(xs[..i], build)
      case Ok(y) => KeepBuilt(xs[..i], build) + [y]
  {
    assert xs[..i + 1][..i] == xs[..i];
  }
}
