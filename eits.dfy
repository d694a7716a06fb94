/**
 * The client object of `eits_python_api/eits.py`: the catalog, the diff
 * between the previous and the current catalog version and the risk table
 * it holds, the URLs it requests, and the walks over the catalog tree that
 * build its results. Every request is a function parameter (`fetch`) from
 * the requested URL to the decoded response, `None` standing for an empty
 * one; the transport itself is not part of this model.
 */
module Eits {
  import opened Wrappers
  import opened PyStr
  import opened Models
  import opened Sequencing
  import opened Common
  import opened CatalogTree

  // ----- URLs --------------------------------------------------------------

  /** `catalog_url`: the catalog of one version. */
  function CatalogUrl(base: string, version: int): (r: string)
    ensures |r| == |base| + 15 + |IntToString(version)|
    ensures r[..|base|] == base
    ensures r[|base|..|base| + 15] == "/api/2/catalog/"
    ensures r[|base| + 15..] == IntToString(version)
  {
    base + "/api/2/catalog/" + IntToString(version)
  }

  /** `item_by_it_url`: one module's content, under the catalog of the version. */
  function ItemByIdUrl(base: string, version: int, id: string): (r: string)
    ensures |r| == |CatalogUrl(base, version)| + 1 + |id|
    ensures r[..|CatalogUrl(base, version)|] == CatalogUrl(base, version)
    ensures r[|CatalogUrl(base, version)|] == '/'
    ensures r[|CatalogUrl(base, version)| + 1..] == id
  {
    CatalogUrl(base, version) + "/" + id
  }

  /** `diff_catalog_url`: the measures changed between two versions. */
  function DiffCatalogUrl(base: string, oldVersion: string, newVersion: string): (r: string)
    ensures |r| == |base| + 30 + |oldVersion| + |newVersion|
    ensures r[..|base|] == base
    ensures r[|base|..|base| + 29] == "/api/2/catalog/measures-diff/"
    ensures r[|base| + 29..|base| + 29 + |oldVersion|] == oldVersion
    ensures r[|base| + 29 + |oldVersion|] == '/'
    ensures r[|r| - |newVersion|..] == newVersion
  {
    base + "/api/2/catalog/measures-diff/" + oldVersion + "/" + newVersion
  }

  /** The URL of a module's content, as a function of its id. */
  function ItemUrls(base: string, version: int): string -> string
  {
    (id: string) => ItemByIdUrl(base, version, id)
  }

  /** Where `url` is left by requesting `modules` in order: the last one's item URL, or `before` when there is none. */
  function LastItemUrl(base: string, version: int, modules: seq<Module>, before: string): string
  {
    if modules == [] then before else ItemByIdUrl(base, version, modules[|modules| - 1].moduleId)
  }

  // ----- the result of `get_modules_and_measures` --------------------------

  /**
   * What `get_modules_and_measures` returns: the contents of every module
   * of the catalog, then the JSON record of each that normalises. A failed
   * fetch or a malformed tree raises; a module whose normalisation raises is
   * skipped.
   */
  function ModulesAndMeasures(
    roots: seq<ModuleGroup>, base: string, version: int, risks: Option<RiskTable>, html: bool,
    fetch: string -> Option<ModuleContent>, text: string -> Option<string>)
    : Result<seq<JsonModule>, PyError>
  {
    match RawModuleContent(roots, ItemUrls(base, version), fetch)
    case Err(e) => Err(e)
    case Ok(contents) => Ok(KeepBuilt(contents, Normaliser(risks, html, text)))
  }

  /** `create_module_object` with the client's risk table and output format. */
  function Normaliser(risks: Option<RiskTable>, html: bool, text: string -> Option<string>)
    : ModuleContent -> Result<JsonModule, PyError>
  {
    (c: ModuleContent) => ModuleObject(c, risks, html, text)
  }

  /**
   * The client. `url` is the URL of the last request (`self.url`), which
   * the fetching methods overwrite before each request; `baseUrl` is the
   * service's root (`self._url`).
   */
  class EITSApi {
    var baseUrl: string
    var eitsVersion: int
    var formatAsHtml: bool
    var url: string
    var catalog: Catalog
    var diffCatalog: Option<DiffCatalog>
    var risks: Option<RiskTable>

    /**
     * `__init__` after its environment reads and its two requests: the
     * catalog of `version`, and the diff from the previous version, `None`
     * when that request raised. The risk table is chosen by the version.
     */
    constructor(
      base: string, version: int, html: bool, fetchedCatalog: Catalog, fetchedDiff: Option<DiffCatalog>,
      risks2022: RiskTable, risks2023: RiskTable)
      ensures baseUrl == base && eitsVersion == version && formatAsHtml == html
      ensures url == DiffCatalogUrl(base, IntToString(version - 1), IntToString(version))
      ensures catalog == fetchedCatalog && diffCatalog == fetchedDiff
      ensures risks == RiskTableFor(version, risks2022, risks2023)
    {
      baseUrl := base;
      eitsVersion := version;
      formatAsHtml := html;
      url := DiffCatalogUrl(base, IntToString(version - 1), IntToString(version));
      catalog := fetchedCatalog;
      diffCatalog := fetchedDiff;
      risks := RiskTableFor(version, risks2022, risks2023);
    }

    /** `get_catalog`: request the catalog of the current version and keep it; an empty response raises `TypeError`. */
    method GetCatalog(fetch: string -> Option<Catalog>) returns (r: Result<Catalog, PyError>)
      modifies this
      ensures url == CatalogUrl(baseUrl, eitsVersion)
      ensures baseUrl == old(baseUrl) && eitsVersion == old(eitsVersion) && formatAsHtml == old(formatAsHtml)
      ensures diffCatalog == old(diffCatalog) && risks == old(risks)
      ensures fetch(url).None? ==> r == Err(TypeError) && catalog == old(catalog)
      ensures fetch(url).Some? ==> r == Ok(fetch(url).value) && catalog == fetch(url).value
    {
      url := CatalogUrl(baseUrl, eitsVersion);
      match fetch(url) {
        case None => r := Err(TypeError);
        case Some(c) =>
          catalog := c;
          r := Ok(c);
      }
    }

    /** `get_diff_catalog`: request the diff between two versions and keep it; an empty response raises `TypeError`. */
    method GetDiffCatalog(oldVersion: int, newVersion: int, fetch: string -> Option<DiffCatalog>)
      returns (r: Result<DiffCatalog, PyError>)
      modifies this
      ensures url == DiffCatalogUrl(baseUrl, IntToString(oldVersion), IntToString(newVersion))
      ensures baseUrl == old(baseUrl) && eitsVersion == old(eitsVersion) && formatAsHtml == old(formatAsHtml)
      ensures catalog == old(catalog) && risks == old(risks)
      ensures fetch(url).None? ==> r == Err(TypeError) && diffCatalog == old(diffCatalog)
      ensures fetch(url).Some? ==> r == Ok(fetch(url).value) && diffCatalog == Some(fetch(url).value)
    {
      url := DiffCatalogUrl(baseUrl, IntToString(oldVersion), IntToString(newVersion));
      match fetch(url) {
        case None => r := Err(TypeError);
        case Some(d) =>
          diffCatalog := Some(d);
          r := Ok(d);
      }
    }

    /** `get_item`: request one module's content. */
    method GetItem(id: string, fetch: string -> Option<ModuleContent>) returns (r: Result<ModuleContent, PyError>)
      modifies this
      ensures url == ItemByIdUrl(baseUrl, eitsVersion, id)
      ensures baseUrl == old(baseUrl) && eitsVersion == old(eitsVersion) && formatAsHtml == old(formatAsHtml)
      ensures catalog == old(catalog) && diffCatalog == old(diffCatalog) && risks == old(risks)
      ensures r == FetchContent(fetch, ItemByIdUrl(baseUrl, eitsVersion, id))
    {
      url := ItemByIdUrl(baseUrl, eitsVersion, id);
      r := FetchContent(fetch, url);
    }

    /**
     * `get_raw_module_content` run one request at a time: root group by
     * root group, flatten the group, then request each of its modules.
     */
    method GetRawModuleContent(fetch: string -> Option<ModuleContent>) returns (r: Result<seq<ModuleContent>, PyError>)
      modifies this
      ensures baseUrl == old(baseUrl) && eitsVersion == old(eitsVersion) && formatAsHtml == old(formatAsHtml)
      ensures catalog == old(catalog) && diffCatalog == old(diffCatalog) && risks == old(risks)
      ensures r == RawModuleContent(catalog.moduleGroups, ItemUrls(baseUrl, eitsVersion), fetch)
      ensures r.Ok? ==>
        && Gather(catalog.moduleGroups, Flatten).Ok?
        && url == LastItemUrl(baseUrl, eitsVersion, Gather(catalog.moduleGroups, Flatten).value, old(url))
    {
      var roots := catalog.moduleGroups;
      var step := ContentsStep(ItemUrls(baseUrl, eitsVersion), fetch);
      var out: seq<ModuleContent> := [];
      var flat: seq<Module> := [];
      var i := 0;
      while i < |roots|
        invariant 0 <= i <= |roots|
        invariant baseUrl == old(baseUrl) && eitsVersion == old(eitsVersion) && formatAsHtml == old(formatAsHtml)
        invariant catalog == old(catalog) && diffCatalog == old(diffCatalog) && risks == old(risks)
        invariant step == ContentsStep(ItemUrls(baseUrl, eitsVersion), fetch)
        invariant Gather(roots[..i], step) == Ok(out)
        invariant Gather(roots[..i], Flatten) == Ok(flat)
        invariant url == LastItemUrl(baseUrl, eitsVersion, flat, old(url))
      {
        GatherStep(roots, i, step);
        GatherStep(roots, i, Flatten);
        var modules := GetModulesRecursive(roots[i]);
        if modules.Err? {
          GatherStop(roots, i + 1, step);
          return Err(modules.error);
        }
        var contents := FetchAll(modules.value, fetch);
        if contents.Err? {
          GatherStop(roots, i + 1, step);
          return Err(contents.error);
        }
        LastOfAppend(baseUrl, eitsVersion, flat, modules.value, old(url));
        out := out + contents.value;
        flat := flat + modules.value;
        i := i + 1;
      }
      TakeAll(roots);
      r := Ok(out);
    }

    /** The requests of one root group's modules, in order; the first failure escapes. */
    method FetchAll(modules: seq<Module>, fetch: string -> Option<ModuleContent>)
      returns (r: Result<seq<ModuleContent>, PyError>)
      modifies this
      ensures baseUrl == old(baseUrl) && eitsVersion == old(eitsVersion) && formatAsHtml == old(formatAsHtml)
      ensures catalog == old(catalog) && diffCatalog == old(diffCatalog) && risks == old(risks)
      ensures r == Traverse(modules, FetchStep(ItemUrls(baseUrl, eitsVersion), fetch))
      ensures modules == [] ==> url == old(url)
      ensures r.Ok? && modules != [] ==> url == ItemByIdUrl(baseUrl, eitsVersion, modules[|modules| - 1].moduleId)
      ensures r.Err? ==> exists j | 0 <= j < |modules| ::
        url == ItemByIdUrl(baseUrl, eitsVersion, modules[j].moduleId)
        && FetchContent(fetch, url).Err?
    {
      var fetchStep := FetchStep(ItemUrls(baseUrl, eitsVersion), fetch);
      var contents: seq<ModuleContent> := [];
      var j := 0;
      while j < |modules|
        invariant 0 <= j <= |modules|
        invariant baseUrl == old(baseUrl) && eitsVersion == old(eitsVersion) && formatAsHtml == old(formatAsHtml)
        invariant catalog == old(catalog) && diffCatalog == old(diffCatalog) && risks == old(risks)
        invariant Traverse(modules[..j], fetchStep) == Ok(contents)
        invariant j == 0 ==> url == old(url)
        invariant j > 0 ==> url == ItemByIdUrl(baseUrl, eitsVersion, modules[j - 1].moduleId)
      {
        TraverseStep(modules, j, fetchStep);
        var item := GetItem(modules[j].moduleId, fetch);
        if item.Err? {
          TraverseStop(modules, j + 1, fetchStep);
          r := Err(item.error);
          assert url == ItemByIdUrl(baseUrl, eitsVersion, modules[j].moduleId) && FetchContent(fetch, url).Err?;
          return;
        }
        contents := contents + [item.value];
        j := j + 1;
      }
      TakeAll(modules);
      r := Ok(contents);
    }

    /**
     * `get_modules_and_measures`: the contents of every module, then the
     * JSON record of each; a module whose record raises is skipped.
     */
    method GetModulesAndMeasures(fetch: string -> Option<ModuleContent>, text: string -> Option<string>)
      returns (r: Result<seq<JsonModule>, PyError>)
      modifies this
      ensures baseUrl == old(baseUrl) && eitsVersion == old(eitsVersion) && formatAsHtml == old(formatAsHtml)
      ensures catalog == old(catalog) && diffCatalog == old(diffCatalog) && risks == old(risks)
      ensures r == ModulesAndMeasures(catalog.moduleGroups, baseUrl, eitsVersion, risks, formatAsHtml, fetch, text)
      ensures r.Ok? ==>
        && Gather(catalog.moduleGroups, Flatten).Ok?
        && url == LastItemUrl(baseUrl, eitsVersion, Gather(catalog.moduleGroups, Flatten).value, old(url))
    {
      var raw := GetRawModuleContent(fetch);
      if raw.Err? {
        return Err(raw.error);
      }
      var kept := NormaliseAll(raw.value, risks, formatAsHtml, text);
      r := Ok(kept);
    }

    /** `get_modules_recursive`: the subgroups' modules, recursively and in order, then the group's own. */
    method GetModulesRecursive(group: ModuleGroup) returns (r: Result<seq<Module>, PyError>)
      ensures r == Flatten(group)
      decreases group
    {
      if group.moduleSubgroups.NoSubgroups? {
        return Err(TypeError);
      }
      var subgroups := group.moduleSubgroups.groups;
      var modules: seq<Module> := [];
      var i := 0;
      while i < |subgroups|
        invariant 0 <= i <= |subgroups|
        invariant Gather(subgroups[..i], Flatten) == Ok(modules)
      {
        var sub := GetModulesRecursive(subgroups[i]);
        GatherStep(subgroups, i, Flatten);
        if sub.Err? {
          GatherStop(subgroups, i + 1, Flatten);
          FlattenAllIsGather(subgroups);
          return Err(sub.error);
        }
        modules := modules + sub.value;
        i := i + 1;
      }
      TakeAll(subgroups);
      FlattenAllIsGather(subgroups);
      if group.modules.None? {
        return Err(TypeError);
      }
      r := Ok(modules + group.modules.value);
    }

    /** The nested loops over modules, their measure groups and the groups' measures, appending each measure. */
    method AppendModulesMeasures(out: seq<MeasureDetail>, modules: seq<Module>) returns (r: seq<MeasureDetail>)
      ensures r == out + ModulesMeasures(modules)
    {
      r := out;
      var i := 0;
      while i < |modules|
        invariant 0 <= i <= |modules|
        invariant r == out + ModulesMeasures(modules[..i])
      {
        var groups := modules[i].measureDetails;
        var before := r;
        var j := 0;
        while j < |groups|
          invariant 0 <= j <= |groups|
          invariant r == before + MeasuresOf(groups[..j])
        {
          var measures := groups[j].measures;
          var start := r;
          var k := 0;
          while k < |measures|
            invariant 0 <= k <= |measures|
            invariant r == start + measures[..k]
          {
            AppendTakeSnoc(start, measures, k);
            r := r + [measures[k]];
            k := k + 1;
          }
          TakeAll(measures);
          MeasuresOfStep(groups, j, before);
          j := j + 1;
        }
        TakeAll(groups);
        ModulesMeasuresStep(modules, i, out);
        i := i + 1;
      }
      TakeAll(modules);
    }

    /** The loop over diff groups shared by `get_diff_added` and `get_diff_removed`. */
    method CollectGroupsMeasures(gs: seq<ModuleGroup>) returns (r: Result<seq<MeasureDetail>, PyError>)
      ensures r == GroupsMeasures(gs)
    {
      var out: seq<MeasureDetail> := [];
      var i := 0;
      while i < |gs|
        invariant 0 <= i <= |gs|
        invariant Gather(gs[..i], GroupMeasures) == Ok(out)
      {
        var modules := GetModulesRecursive(gs[i]);
        GatherStep(gs, i, GroupMeasures);
        if modules.Err? {
          GatherStop(gs, i + 1, GroupMeasures);
          return Err(modules.error);
        }
        out := AppendModulesMeasures(out, modules.value);
        i := i + 1;
      }
      TakeAll(gs);
      r := Ok(out);
    }

    /** `get_diff_added`. */
    method GetDiffAdded() returns (r: Result<seq<MeasureDetail>, PyError>)
      ensures r == DiffAdded(diffCatalog)
    {
      if diffCatalog.None? {
        return Err(AttributeError);
      }
      r := CollectGroupsMeasures(diffCatalog.value.added);
    }

    /** `get_diff_removed`. */
    method GetDiffRemoved() returns (r: Result<seq<MeasureDetail>, PyError>)
      ensures r == DiffRemoved(diffCatalog)
    {
      if diffCatalog.None? {
        return Err(AttributeError);
      }
      r := CollectGroupsMeasures(diffCatalog.value.removed);
    }

    /** `get_diff_replaced`: only the new side of each replacement is walked. */
    method GetDiffReplaced() returns (r: Result<seq<MeasureDetail>, PyError>)
      ensures r == DiffReplacedMeasures(diffCatalog)
    {
      if diffCatalog.None? {
        return Err(AttributeError);
      }
      var rs := diffCatalog.value.replaced;
      var out: seq<MeasureDetail> := [];
      var i := 0;
      while i < |rs|
        invariant 0 <= i <= |rs|
        invariant Gather(rs[..i], NewValueMeasures) == Ok(out)
      {
        GatherStep(rs, i, NewValueMeasures);
        if rs[i].newValue.None? {
          GatherStop(rs, i + 1, NewValueMeasures);
          return Err(AttributeError);
        }
        var modules := GetModulesRecursive(rs[i].newValue.value);
        if modules.Err? {
          GatherStop(rs, i + 1, NewValueMeasures);
          return Err(modules.error);
        }
        out := AppendModulesMeasures(out, modules.value);
        i := i + 1;
      }
      TakeAll(rs);
      r := Ok(out);
    }

    /** `get_diff_all`: added, then replaced, then removed. */
    method GetDiffAll() returns (r: Result<seq<MeasureDetail>, PyError>)
      ensures r == DiffAll(diffCatalog)
    {
      var added := GetDiffAdded();
      if added.Err? {
        return Err(added.error);
      }
      var replaced := GetDiffReplaced();
      if replaced.Err? {
        return Err(replaced.error);
      }
      var removed := GetDiffRemoved();
      if removed.Err? {
        return Err(removed.error);
      }
      r := Ok(added.value + replaced.value + removed.value);
    }
  }

  /** The loop of `get_modules_and_measures`: build each record, keep the ones that did not raise. */
  method NormaliseAll(contents: seq<ModuleContent>, risks: Option<RiskTable>, html: bool, text: string -> Option<string>)
    returns (kept: seq<JsonModule>)
    ensures kept == KeepBuilt(contents, Normaliser(risks, html, text))
  {
    var build := Normaliser(risks, html, text);
    kept := [];
    var i := 0;
    while i < |contents|
      invariant 0 <= i <= |contents|
      invariant kept == KeepBuilt(contents[..i], build)
    {
      KeepBuiltStep(contents, i, build);
      var json := CreateModuleObject(contents[i], risks, html, text);
      assert build(contents[i]) == json;
      if json.Ok? {
        kept := kept + [json.value];
      }
      i := i + 1;
    }
    TakeAll(contents);
  }

  /** One more measure group adds its measures at the end. */
  lemma MeasuresOfStep(groups: seq<MeasureGroup>, j: nat, before: seq<MeasureDetail>)
    requires j < |groups|
    ensures before + MeasuresOf(groups[..j]) + groups[j].measures == before + MeasuresOf(groups[..j + 1])
  {
    TakeOfTake(groups, j);
    AppendAssoc(before, MeasuresOf(groups[..j]), groups[j].measures);
  }

  /** One more module adds its measures at the end. */
  lemma ModulesMeasuresStep(modules: seq<Module>, i: nat, out: seq<MeasureDetail>)
    requires i < |modules|
    ensures out + ModulesMeasures(modules[..i]) + MeasuresOf(modules[i].measureDetails)
      == out + ModulesMeasures(modules[..i + 1])
  {
    TakeOfTake(modules, i);
    AppendAssoc(out, ModulesMeasures(modules[..i]), MeasuresOf(modules[i].measureDetails));
  }

  /** The subgroup walk of `Flatten` is a `Gather` of `Flatten`. */
  /** Requesting `a` and then `b` leaves `url` where requesting `b` after `a`'s last request leaves it. */
  lemma LastOfAppend(base: string, version: int, a: seq<Module>, b: seq<Module>, before: string)
    ensures LastItemUrl(base, version, a + b, before) == LastItemUrl(base, version, b, LastItemUrl(base, version, a, before))
  {
    if b == [] {
      assert a + b == a;
    } else {
      assert (a + b)[|a + b| - 1] == b[|b| - 1];
    }
  }

  lemma {:induction false} FlattenAllIsGather(gs: seq<ModuleGroup>)
    ensures FlattenAll(gs) == Gather(gs, Flatten)
  {
    if gs != [] {
      FlattenAllIsGather(gs[..|gs| - 1]);
    }
  }
}
