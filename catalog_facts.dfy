/**
 * Properties of the catalog walks in `CatalogTree`: when flattening
 * succeeds and what it returns, how the diff lists are put together, what
 * fetching every module yields, and what the skip loop keeps.
 */
module CatalogFacts {
  import opened Wrappers
  import opened Models
  import opened Sequencing
  import opened Common
  import opened CatalogTree

  // ----- flattening --------------------------------------------------------

  /** Flattening succeeds exactly when every subgroup list and module list of the tree is present; otherwise it raises `TypeError`. */
  lemma {:induction false} FlattenOk(g: ModuleGroup)
    ensures Flatten(g).Ok? <==> Complete(g)
    ensures Flatten(g).Err? ==> Flatten(g).error == TypeError
    decreases g, 1
  {
    if g.moduleSubgroups.Subgroups? {
      FlattenAllOk(g.moduleSubgroups.groups);
    }
  }

  lemma {:induction false} FlattenAllOk(gs: seq<ModuleGroup>)
    ensures FlattenAll(gs).Ok? <==> AllComplete(gs)
    ensures FlattenAll(gs).Err? ==> FlattenAll(gs).error == TypeError
    decreases gs, 0
  {
    if gs != [] {
      var init := gs[..|gs| - 1];
      FlattenAllOk(init);
      FlattenOk(gs[|gs| - 1]);
      assert AllComplete(gs) <==> AllComplete(init) && Complete(gs[|gs| - 1]) by {
        assert forall k | 0 <= k < |init| :: init[k] == gs[k];
      }
    }
  }

  /** A flattened tree lists every module of the tree once per listing: its length is the tree's module total. */
  lemma {:induction false} FlattenCount(g: ModuleGroup)
    requires Flatten(g).Ok?
    ensures |Flatten(g).value| == ModuleTotal(g)
    decreases g, 1
  {
    FlattenAllCount(g.moduleSubgroups.groups);
  }

  lemma {:induction false} FlattenAllCount(gs: seq<ModuleGroup>)
    requires FlattenAll(gs).Ok?
    ensures |FlattenAll(gs).value| == ModuleTotalAll(gs)
    decreases gs, 0
  {
    if gs != [] {
      FlattenAllCount(gs[..|gs| - 1]);
      FlattenCount(gs[|gs| - 1]);
    }
  }

  /** A flattened tree holds exactly the modules listed somewhere in the tree. */
  lemma {:induction false} FlattenMembers(g: ModuleGroup, m: Module)
    requires Flatten(g).Ok?
    ensures m in Flatten(g).value <==> InTree(m, g)
    decreases g, 1
  {
    FlattenAllMembers(g.moduleSubgroups.groups, m);
  }

  lemma {:induction false} FlattenAllMembers(gs: seq<ModuleGroup>, m: Module)
    requires FlattenAll(gs).Ok?
    ensures m in FlattenAll(gs).value <==> InForest(m, gs)
    decreases gs, 0
  {
    if gs != [] {
      var init := gs[..|gs| - 1];
      var last := gs[|gs| - 1];
      FlattenAllMembers(init, m);
      FlattenMembers(last, m);
      assert InForest(m, gs) <==> InForest(m, init) || InTree(m, last) by {
        assert forall k | 0 <= k < |init| :: init[k] == gs[k];
      }
    }
  }

  // ----- the diff ----------------------------------------------------------

  /** Without a diff every diff query raises `AttributeError`. */
  lemma MissingDiffRaises()
    ensures DiffAdded(None) == DiffRemoved(None) == DiffReplacedMeasures(None) == DiffAll(None) == Err(AttributeError)
  {
  }

  /** `get_diff_all` succeeds exactly when the three queries do, and then is their concatenation in the order added, replaced, removed. */
  lemma DiffAllParts(diff: Option<DiffCatalog>)
    ensures DiffAll(diff).Ok? <==> DiffAdded(diff).Ok? && DiffReplacedMeasures(diff).Ok? && DiffRemoved(diff).Ok?
    ensures DiffAll(diff).Ok? ==>
      && DiffAll(diff).value == DiffAdded(diff).value + DiffReplacedMeasures(diff).value + DiffRemoved(diff).value
      && |DiffAll(diff).value| == |DiffAdded(diff).value| + |DiffReplacedMeasures(diff).value| + |DiffRemoved(diff).value|
  {
  }

  /** Only the new side of a replacement matters: replacements that differ only in their old sides give the same measures. */
  lemma {:induction false} ReplacedIgnoresOldValue(rs: seq<DiffReplaced>, ss: seq<DiffReplaced>)
    requires |rs| == |ss|
    requires forall k | 0 <= k < |rs| :: rs[k].newValue == ss[k].newValue
    ensures ReplacedMeasures(rs) == ReplacedMeasures(ss)
  {
    if rs != [] {
      var n := |rs| - 1;
      ReplacedIgnoresOldValue(rs[..n], ss[..n]);
      assert NewValueMeasures(rs[n]) == NewValueMeasures(ss[n]);
    }
  }

  /** The measures of a module's groups are the measures the record builders pair with those groups, in the same order. */
  lemma {:induction false} MeasuresOfIsGrouped(groups: seq<MeasureGroup>)
    ensures |MeasuresOf(groups)| == |GroupedMeasures(groups)|
    ensures forall k | 0 <= k < |MeasuresOf(groups)| :: MeasuresOf(groups)[k] == GroupedMeasures(groups)[k].1
  {
    if groups != [] {
      var init := groups[..|groups| - 1];
      var last := groups[|groups| - 1];
      MeasuresOfIsGrouped(init);
      var a: seq<MeasureDetail> := MeasuresOf(init);
      var b: seq<MeasureDetail> := last.measures;
      var p: seq<(MeasureGroup, MeasureDetail)> := GroupedMeasures(init);
      var q: seq<(MeasureGroup, MeasureDetail)> := InGroup(last);
      forall k | 0 <= k < |a + b|
        ensures (a + b)[k] == (p + q)[k].1
      {
        if k >= |a| {
          assert q[k - |a|] == (last, b[k - |a|]);
        }
      }
    }
  }

  // ----- fetching every module ---------------------------------------------

  /** A failed fetch raises `TypeError`. */
  lemma {:induction false} FetchErr(modules: seq<Module>, itemUrl: string -> string, fetch: string -> Option<ModuleContent>)
    requires Traverse(modules, FetchStep(itemUrl, fetch)).Err?
    ensures Traverse(modules, FetchStep(itemUrl, fetch)).error == TypeError
  {
    var last := modules[|modules| - 1];
    if Traverse(modules[..|modules| - 1], FetchStep(itemUrl, fetch)).Err? {
      FetchErr(modules[..|modules| - 1], itemUrl, fetch);
    } else {
      assert FetchStep(itemUrl, fetch)(last) == FetchContent(fetch, itemUrl(last.moduleId));
    }
  }

  /** A flattening that fails in some root group raises `TypeError`. */
  lemma {:induction false} GatherFlattenErr(roots: seq<ModuleGroup>)
    requires Gather(roots, Flatten).Err?
    ensures Gather(roots, Flatten).error == TypeError
  {
    var init := roots[..|roots| - 1];
    if Gather(init, Flatten).Err? {
      GatherFlattenErr(init);
    } else {
      FlattenOk(roots[|roots| - 1]);
    }
  }

  /**
   * Fetching group by group is fetching, in order, the modules of all the
   * root groups flattened one after the other.
   */
  lemma {:induction false} RawModuleContentIsFetchOfFlatten(
    roots: seq<ModuleGroup>, itemUrl: string -> string, fetch: string -> Option<ModuleContent>)
    ensures RawModuleContent(roots, itemUrl, fetch) ==
      match Gather(roots, Flatten)
      case Err(e) => Err(e)
      case Ok(modules) => Traverse(modules, FetchStep(itemUrl, fetch))
  {
    if roots != [] {
      var init := roots[..|roots| - 1];
      var last := roots[|roots| - 1];
      var step := FetchStep(itemUrl, fetch);
      RawModuleContentIsFetchOfFlatten(init, itemUrl, fetch);
      match Gather(init, Flatten) {
        case Err(e) =>
          GatherFlattenErr(init);
        case Ok(before) =>
          match Flatten(last) {
            case Err(e) =>
              FlattenOk(last);
              if Traverse(before, step).Err? {
                FetchErr(before, itemUrl, fetch);
              }
            case Ok(mine) =>
              TraverseAppend(before, mine, step);
              if Traverse(before, step).Ok? && Traverse(mine, step).Err? {
                FetchErr(mine, itemUrl, fetch);
              }
          }
      }
    }
  }

  /**
   * When every module is fetched, there is one content per module of the
   * flattened root groups, in that order, each the response to the
   * request for that module's id; and this happens exactly when the tree
   * is complete and no request fails.
   */
  lemma RawModuleContentOrder(roots: seq<ModuleGroup>, itemUrl: string -> string, fetch: string -> Option<ModuleContent>)
    ensures RawModuleContent(roots, itemUrl, fetch).Ok? <==>
      Gather(roots, Flatten).Ok? &&
      forall k | 0 <= k < |Gather(roots, Flatten).value| :: fetch(itemUrl(Gather(roots, Flatten).value[k].moduleId)).Some?
    ensures RawModuleContent(roots, itemUrl, fetch).Ok? ==>
      var modules := Gather(roots, Flatten).value;
      var contents := RawModuleContent(roots, itemUrl, fetch).value;
      |contents| == |modules| &&
      forall k | 0 <= k < |modules| :: fetch(itemUrl(modules[k].moduleId)) == Some(contents[k])
  {
    RawModuleContentIsFetchOfFlatten(roots, itemUrl, fetch);
    if Gather(roots, Flatten).Ok? {
      TraverseOk(Gather(roots, Flatten).value, FetchStep(itemUrl, fetch));
    }
  }

  // ----- the skip loop -----------------------------------------------------

  /** The loop keeps at most one result per element. */
  lemma {:induction false} KeepBuiltLength<A, B>(xs: seq<A>, build: A -> Result<B, PyError>)
    ensures |KeepBuilt(xs, build)| <= |xs|
  {
    if xs != [] {
      KeepBuiltLength(xs[..|xs| - 1], build);
    }
  }

  /** The loop over a concatenation keeps what it keeps of each part, in order. */
  lemma {:induction false} KeepBuiltAppend<A, B>(xs: seq<A>, ys: seq<A>, build: A -> Result<B, PyError>)
    ensures KeepBuilt(xs + ys, build) == KeepBuilt(xs, build) + KeepBuilt(ys, build)
  {
    if ys == [] {
      AppendNil(xs);
      AppendNil(KeepBuilt(xs, build));
    } else {
      var init := ys[..|ys| - 1];
      KeepBuiltAppend(xs, init, build);
      InitOfAppend(xs, ys);
      match build(ys[|ys| - 1]) {
        case Err(_) =>
        case Ok(y) => AppendAssoc(KeepBuilt(xs, build), KeepBuilt(init, build), [y]);
      }
    }
  }

  /** When every element builds, everything is kept: the loop then agrees with the traversal. */
  lemma {:induction false} KeepBuiltAll<A, B>(xs: seq<A>, build: A -> Result<B, PyError>)
    requires forall k | 0 <= k < |xs| :: build(xs[k]).Ok?
    ensures Traverse(xs, build).Ok? && KeepBuilt(xs, build) == Traverse(xs, build).value
  {
    if xs != [] {
      var init := xs[..|xs| - 1];
      assert forall k | 0 <= k < |init| :: init[k] == xs[k];
      KeepBuiltAll(init, build);
    }
  }

  /** When no element builds, nothing is kept. */
  lemma {:induction false} KeepBuiltNone<A, B>(xs: seq<A>, build: A -> Result<B, PyError>)
    requires forall k | 0 <= k < |xs| :: build(xs[k]).Err?
    ensures KeepBuilt(xs, build) == []
  {
    if xs != [] {
      var init := xs[..|xs| - 1];
      assert forall k | 0 <= k < |init| :: init[k] == xs[k];
      KeepBuiltNone(init, build);
    }
  }

  /** Everything kept is the result of building some element. */
  lemma {:induction false} KeepBuiltFrom<A, B>(xs: seq<A>, build: A -> Result<B, PyError>, y: B)
    requires y in KeepBuilt(xs, build)
    ensures exists k | 0 <= k < |xs| :: build(xs[k]) == Ok(y)
  {
    var init := xs[..|xs| - 1];
    if y in KeepBuilt(init, build) {
      KeepBuiltFrom(init, build, y);
      var k :| 0 <= k < |init| && build(init[k]) == Ok(y);
      assert build(xs[k]) == Ok(y);
    } else {
      assert build(xs[|xs| - 1]) == Ok(y);
    }
  }
}
