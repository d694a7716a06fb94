/**
 * Properties of the client in `Eits`: the request URLs identify what they
 * ask for, and what `get_modules_and_measures` keeps.
 */
module EitsFacts {
  import opened Wrappers
  import opened PyStr
  import opened Models
  import opened Sequencing
  import opened Common
  import opened CatalogTree
  import opened BuilderFacts
  import opened CatalogFacts
  import opened Eits

  // ----- URLs --------------------------------------------------------------

  /** Two modules of the same catalog have the same content URL only if they have the same id. */
  lemma ItemUrlDeterminesId(base: string, version: int, id1: string, id2: string)
    requires ItemByIdUrl(base, version, id1) == ItemByIdUrl(base, version, id2)
    ensures id1 == id2
  {
    var n := |CatalogUrl(base, version)| + 1;
    assert id1 == ItemByIdUrl(base, version, id1)[n..];
  }

  /** Two catalog URLs over the same base ask for the same version only if they are equal. */
  lemma CatalogUrlDeterminesVersion(base: string, v1: int, v2: int)
    requires CatalogUrl(base, v1) == CatalogUrl(base, v2)
    ensures v1 == v2
  {
    IntToStringInjective(v1, v2);
  }

  /** A version string split at its first `/`. */
  lemma SplitAtSlash(o: string, n: string)
    requires '/' !in o
    ensures Find(o + "/" + n, '/') == |o|
    ensures (o + "/" + n)[..|o|] == o && (o + "/" + n)[|o| + 1..] == n
  {
    var t := o + "/" + n;
    assert t[..|o|] == o;
    assert t[|o|] == '/';
  }

  /**
   * The diff URL names both versions: for version strings without a `/`
   * (every `str` of an integer), equal URLs over the same base ask for the
   * same pair of versions.
   */
  lemma DiffUrlDeterminesVersions(base: string, o1: string, n1: string, o2: string, n2: string)
    requires '/' !in o1 && '/' !in o2
    requires DiffCatalogUrl(base, o1, n1) == DiffCatalogUrl(base, o2, n2)
    ensures o1 == o2 && n1 == n2
  {
    var p := base + "/api/2/catalog/measures-diff/";
    var t1, t2 := o1 + "/" + n1, o2 + "/" + n2;
    assert DiffCatalogUrl(base, o1, n1) == p + t1;
    assert DiffCatalogUrl(base, o2, n2) == p + t2;
    assert t1 == (p + t1)[|p|..] && t2 == (p + t2)[|p|..];
    SplitAtSlash(o1, n1);
    SplitAtSlash(o2, n2);
  }

  /** The decimal form of an integer never holds a `/`, so the client's diff URL is always split as above. */
  lemma IntToStringHasNoSlash(n: int)
    ensures '/' !in IntToString(n)
  {
    var s := IntToString(n);
    if n < 0 {
      var d := NatToString(-n);
      assert s == "-" + d;
      assert forall k | 0 <= k < |d| :: s[k + 1] == d[k];
    }
  }

  // ----- modules and measures ----------------------------------------------

  /**
   * When `get_modules_and_measures` succeeds, the catalog tree was complete
   * and it returns at most one record per module of the
   * flattened catalog, each built from the content fetched for some module.
   */
  lemma ModulesAndMeasuresFrom(
    roots: seq<ModuleGroup>, base: string, version: int, risks: Option<RiskTable>, html: bool,
    fetch: string -> Option<ModuleContent>, text: string -> Option<string>, rec: JsonModule)
    requires ModulesAndMeasures(roots, base, version, risks, html, fetch, text).Ok?
    ensures Gather(roots, Flatten).Ok?
    ensures |ModulesAndMeasures(roots, base, version, risks, html, fetch, text).value| <= |Gather(roots, Flatten).value|
    ensures rec in ModulesAndMeasures(roots, base, version, risks, html, fetch, text).value ==>
      exists k | 0 <= k < |Gather(roots, Flatten).value| ::
        && fetch(ItemByIdUrl(base, version, Gather(roots, Flatten).value[k].moduleId)).Some?
        && ModuleObject(fetch(ItemByIdUrl(base, version, Gather(roots, Flatten).value[k].moduleId)).value, risks, html, text) == Ok(rec)
  {
    var itemUrl := ItemUrls(base, version);
    var raw := RawModuleContent(roots, itemUrl, fetch);
    var build := Normaliser(risks, html, text);
    RawModuleContentOrder(roots, itemUrl, fetch);
    KeepBuiltLength(raw.value, build);
    if rec in KeepBuilt(raw.value, build) {
      KeepBuiltFrom(raw.value, build, rec);
      var k :| 0 <= k < |raw.value| && build(raw.value[k]) == Ok(rec);
      var modules := Gather(roots, Flatten).value;
      assert itemUrl(modules[k].moduleId) == ItemByIdUrl(base, version, modules[k].moduleId);
    }
  }

  /** When every module normalises, the result holds one record per fetched content, in catalog order. */
  lemma ModulesAndMeasuresAll(
    roots: seq<ModuleGroup>, base: string, version: int, risks: Option<RiskTable>, html: bool,
    fetch: string -> Option<ModuleContent>, text: string -> Option<string>)
    requires RawModuleContent(roots, ItemUrls(base, version), fetch).Ok?
    requires var contents := RawModuleContent(roots, ItemUrls(base, version), fetch).value;
      forall k | 0 <= k < |contents| :: ModuleObject(contents[k], risks, html, text).Ok?
    ensures var contents := RawModuleContent(roots, ItemUrls(base, version), fetch).value;
      var records := ModulesAndMeasures(roots, base, version, risks, html, fetch, text).value;
      |records| == |contents| &&
      forall k | 0 <= k < |contents| :: ModuleObject(contents[k], risks, html, text) == Ok(records[k])
  {
    var contents := RawModuleContent(roots, ItemUrls(base, version), fetch).value;
    var build := Normaliser(risks, html, text);
    KeepBuiltAll(contents, build);
    TraverseOk(contents, build);
  }

  /** Without a risk table, a module record survives only if its module has no measures. */
  lemma NoRiskTableRecordIsBare(details: ModuleContent, html: bool, text: string -> Option<string>)
    requires ModuleObject(details, None, html, text).Ok?
    ensures MeasureCount(details.measureDetails) == 0
    ensures ModuleObject(details, None, html, text).value.measures == []
  {
    if MeasureCount(details.measureDetails) > 0 {
      NoRiskTableDropsModule(details, html, text);
    }
    GroupedMeasuresCount(details.measureDetails);
    ModuleObjectMeasures(details, None, html, text);
  }

  /**
   * For a catalog version with no risk table (neither 2022 nor 2023), every
   * module with a measure is skipped: only records without measures are
   * returned.
   */
  lemma OtherVersionsKeepNoMeasures(
    roots: seq<ModuleGroup>, base: string, version: int, risks2022: RiskTable, risks2023: RiskTable, html: bool,
    fetch: string -> Option<ModuleContent>, text: string -> Option<string>)
    requires version != 2022 && version != 2023
    requires ModulesAndMeasures(roots, base, version, RiskTableFor(version, risks2022, risks2023), html, fetch, text).Ok?
    ensures var records := ModulesAndMeasures(roots, base, version, RiskTableFor(version, risks2022, risks2023), html, fetch, text).value;
      forall k | 0 <= k < |records| :: records[k].measures == []
  {
    var contents := RawModuleContent(roots, ItemUrls(base, version), fetch).value;
    var build := Normaliser(None, html, text);
    var records := KeepBuilt(contents, build);
    forall k | 0 <= k < |records|
      ensures records[k].measures == []
    {
      KeepBuiltFrom(contents, build, records[k]);
      var j :| 0 <= j < |contents| && build(contents[j]) == Ok(records[k]);
      NoRiskTableRecordIsBare(contents[j], html, text);
    }
  }
}
