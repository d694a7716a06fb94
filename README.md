# eits-python-api in Dafny

This project models the I/O-free core of `eits-python-api`. That is the
client of the E-ITS (Estonian information security standard) catalog API.
The client does three things:

- It fetches the catalog of one version, its diff against the previous
  version, and the content of every module.
- It flattens the recursive tree of module groups.
- It normalises every module into a JSON record (`JsonModule` with its
  `JsonMeasure`s) or into flat tabular rows (`CsvMeasure`). To do so it
  cleans up codes and titles, looks up tier names and risk lists, and
  checks codes and titles against the `EITSType` grammars.

The project has the following modules:

- `Wrappers` (`wrappers.dfy`): `Option`, `Result` and `Outcome`.
- `PyStr` (`pystr.dfy`): the Python `str` operations the core uses:
  `split(c)[0]`, `strip`, `lower`, `in`, `join`, `replace("\n", "\\n")` and
  `str(int)`.
- `Models` (`models.dfy`): the pydantic DTOs as datatypes.
  - `ApiModuleGroup` is recursive.
  - The `EITSType` kinds.
  - The four mismatch exceptions plus `ValueError`, and the Python
    exceptions the core can raise (`TypeError`, `IndexError`,
    `AttributeError`, and the markup parser's error).
- `Patterns` and `PatternFacts` (`patterns.dfy`): each `EITSType` regular
  expression as a recogniser predicate, plus facts relating the grammars.
- `Sequencing` (`traverse.dfy`): `Traverse`, a loop that appends and lets
  the first exception escape, and `Gather`, a loop that extends a list the
  same way.
- `Common` (`common.dfy`): the functions of `common.py`.
  - `create_module_object` and `create_csv_object` are methods with the
    source's nested `for` loops. Each is proved equal to a specification
    function.
- `CommonFacts` and `BuilderFacts`: properties of the clean-up functions and
  of the two record builders.
- `CatalogTree` (`catalog.dfy`): the catalog walks of `eits.py` as
  functions:
  - flattening;
  - the diff queries;
  - the risk-table choice;
  - fetching every module's content;
  - the skip loop of `get_modules_and_measures`.
- `Eits` (`eits.dfy`): the class `EITSApi`.
  - Its fields are `baseUrl`, `eitsVersion`, `formatAsHtml`, `url`,
    `catalog`, `diffCatalog` and `risks`.
  - Its methods overwrite those fields and loop like the source. Each is
    proved against the `CatalogTree` functions.
- `CatalogFacts` and `EitsFacts`: the properties of the walks and of the
  client.

Every HTTP request is a function parameter `fetch` that can fail (`None`).
So is the lxml markup parser (`text`). A `None` response is a dict that
is missing, and `ApiX(**None)` then raises `TypeError`.

Where the code behaves differently from what its docstrings and names
suggest, the model follows the code:

- A failed module fetch is not caught. `asyncio.gather` runs without
  `return_exceptions`, so a failed fetch aborts the whole
  `get_raw_module_content`. It is not skipped per module.
- When the diff could not be fetched, `diff_catalog` is `None`. Every
  `get_diff_*` method then raises `AttributeError`; none of them reports the
  diff as unavailable in any other way.
- The flattening has no cycle check. A malformed tree raises `TypeError`
  only when a `moduleSubgroups` or `modules` list is missing.
- The concurrent module requests share `self.url`. In a root group with
  more than 100 modules, the requests after the 100th read the URL another
  task set, so they fetch another module's content. The model makes the
  requests one at a time (see "Left out").
- `fix_titles` is not idempotent. A title whose first word is not the code
  gets a second colon when it is fixed again (`CommonFacts.FixTitlesNotIdempotent`).

## Model

| member | source | states |
|---|---|---|
| Common.ValidateEitsPattern | eits_python_api/common.py:43-66 | passes iff the string matches the kind's grammar; on failure raises the kind's mismatch |
| Common.MismatchOf | eits_python_api/common.py:44-66 | a kind without a mismatch family (the `ONLY_*` kinds) raises the plain `ValueError`, and only those |
| CommonFacts.DisplayAndRawShareCategory | eits_python_api/common.py:45-64 | the display and raw kinds of a family raise the same exception; the four families raise four different ones |
| CommonFacts.MismatchDependsOnlyOnKind | eits_python_api/common.py:43-66 | the exception raised depends only on the kind, never on the rejected string |
| Common.LoggedMismatchSpec | eits_python_api/common.py:100-112 | nothing is logged iff code and title both match; otherwise only one mismatch is logged: the code's if the code fails, else the title's |
| Common.TextBeforeFirst | eits_python_api/common.py:349-382 | the shape of `remove_tab_and_text_after_tab` and `remove_whitespace_and_text_after_whitespace` (`RemoveTabAndTextAfterTab` and `RemoveWhitespaceAndTextAfterWhitespace`, its instances for a tab and a space): a prefix of the input without the character; the whole input when the character does not occur, and otherwise ending right before its first occurrence |
| CommonFacts.RemoveWhitespaceKeepsFirstWord | eits_python_api/common.py:379-381 | a first word followed by a space and any text is cut back to that word |
| CommonFacts.RemoveWhitespaceOfBlank | eits_python_api/common.py:379-381 | a string of spaces only is cut to the empty string |
| CommonFacts.RemoveTabKeepsFirstField | eits_python_api/common.py:361-363 | the text before the first tab is kept, spaces included |
| Common.FixCodes | eits_python_api/common.py:281-294 | a space-free prefix of the code: the code itself when it has no space, otherwise the text before its first space; tabs are not cut |
| CommonFacts.FixCodesIdempotent | eits_python_api/common.py:281-294 | fixing a fixed code changes nothing |
| CommonFacts.FixCodesIsFirstToken | eits_python_api/common.py:291-293 | the fixed code is the first token of `split(" ", 1)` |
| Common.AddColonBeforeFirstWhitespace | eits_python_api/common.py:332-346 | the first token, then `": "`, then everything after the first space; without a space the title followed by `": "` |
| Common.ColonInserted | eits_python_api/common.py:345-346 | replacing the first space by `": "` keeps the text on both sides: deleting the colon gives the title back |
| CommonFacts.AddColonBetween | eits_python_api/common.py:345-346 | `a + " " + b` becomes `a + ": " + b` when `a` has no space |
| CommonFacts.AddColonNotInjective | eits_python_api/common.py:345-346 | `a` and `a + " "` give the same colon form, so the trailing space is lost |
| CommonFacts.ColonFollowsFixedCode | eits_python_api/common.py:291-293 | the colon goes right after the token `fix_codes` keeps |
| Common.RemoveBracketSpans | eits_python_api/common.py:312 | the substitution never lengthens the title or introduces characters, and leaves a title without `[` unchanged |
| CommonFacts.BracketSpansGone | eits_python_api/common.py:312 | no `[...]` span with non-empty, `]`-free contents is left after the substitution |
| CommonFacts.NoSpanUnchanged | eits_python_api/common.py:312 | a title without such a span is left unchanged |
| CommonFacts.RemoveBracketSpansIdempotent | eits_python_api/common.py:312 | the substitution is idempotent |
| CommonFacts.BracketFreeTextKept | eits_python_api/common.py:312 | text before the first `[` is kept verbatim, and the substitution continues after it |
| CommonFacts.SpanRemoved | eits_python_api/common.py:312 | a span with non-empty, `]`-free contents is removed whole |
| CommonFacts.SpanBetween | eits_python_api/common.py:312 | `a + "[" + c + "]" + b` becomes `a` followed by the substitution of `b` when `a` has no `[` and `c` is non-empty and `]`-free, so the text around the spans is kept in order |
| Common.SecuritySuffixFrom | eits_python_api/common.py:314-317 | finds the leftmost position at or after `p` where the unanchored security-code search matches to the end of the title |
| Common.SecuritySuffix | eits_python_api/common.py:314-317 | the leftmost match of the security-code pattern, which needs no closing parenthesis, or none |
| Common.CutSecuritySuffix | eits_python_api/common.py:325-327 | the result followed by whitespace only is exactly the title before the leftmost match: the match and the whitespace in front of it are removed, nothing else; no whitespace is left at its ends |
| Common.DropSecurityCodes | eits_python_api/common.py:316-329 | when the pattern matches and the lower-cased codes occur in the lower-cased title, the title before the leftmost match less the whitespace in front of it; otherwise the title unchanged |
| Common.RemoveStringsBetweenBracketsAndSquareBrackets | eits_python_api/common.py:297-329 | the bracket-free, stripped title, cut before the leftmost security-code match and stripped again exactly when the codes are dropped; no whitespace at its ends |
| CommonFacts.NoCodesDropOnPatternAlone | eits_python_api/common.py:316-318 | with no security codes (module titles) the substring test always holds, so the match is cut whenever the pattern matches |
| CommonFacts.NoParenNoSecurityCut | eits_python_api/common.py:314-318 | a title without `(` keeps its text |
| CommonFacts.AbsentCodesKeepTitle | eits_python_api/common.py:316-319 | codes that do not occur in the title keep the match in place |
| CommonFacts.CleanPlainTitle | eits_python_api/common.py:311-329 | a title with no `[`, no `(` and no whitespace at its ends comes out of the clean-up unchanged |
| Common.FixTitles | eits_python_api/common.py:258-278 | the result always contains `": "` |
| CommonFacts.FixTitlesCases | eits_python_api/common.py:271-278 | the cleaned title when it holds `code + ": "`, otherwise the colon form of the cleaned title |
| CommonFacts.FixTitlesOfPlainTitle | eits_python_api/common.py:271-278 | a plain two-part title without the code gets its colon in place of its first space |
| CommonFacts.FixTitlesRefixed | eits_python_api/common.py:276-278 | a title that already has its colon after a first word that is not the code gets a second colon |
| CommonFacts.FixTitlesNotIdempotent | eits_python_api/common.py:258-278 | fixing a fixed title again can change it |
| Common.GetGroupName | eits_python_api/common.py:385-417 | exactly `"3.2"`, `"3.3"` and `"3.4"` map to their tier names; every other string maps to `""` |
| Common.GetRisks | eits_python_api/common.py:420-440 | the mapped list when the code is a key, `None` when it is not; a missing table raises `TypeError` |
| Patterns.Matches | eits_python_api/models.py:153-185 | `re.match` of each `EITSType` expression: a match is at least three characters long and starts with `(` for `ONLY_SECURITY_CODE`, with `[` for `ONLY_RESPONSIBILITY`, and with a capital for every code and title kind, which are at least five characters long |
| Patterns.ModuleCodeForm | eits_python_api/models.py:168 | `[A-Z]{3,}(?:\.[0-9E]{1,2}){1,}`: an accepted code is at least five characters long and starts with a capital |
| Patterns.ShortModuleCodeForm | eits_python_api/models.py:161 | the same with one or two segments, as in `ONLY_MODULE_CODE` |
| Patterns.CappedMeasureCodeForm | eits_python_api/models.py:156-159 | a measure code with a one- or two-digit number is at least six characters long and starts with a capital |
| Patterns.RawMeasureCodeForm | eits_python_api/models.py:175-177 | the same for a measure number of any length |
| Patterns.DisplayModuleTitleForm | eits_python_api/models.py:169-171 | a display module title is at least eight characters long and starts with a capital |
| Patterns.DisplayMeasureTitleForm | eits_python_api/models.py:164-167 | the same for a display measure title |
| Patterns.RawModuleTitleForm | eits_python_api/models.py:181-184 | the same for a raw module title |
| Patterns.RawMeasureTitleForm | eits_python_api/models.py:172-174 | the same for a raw measure title |
| Common.RemoveHtmlTags | eits_python_api/common.py:234-255 | the empty string gives the empty string; any other string succeeds iff the parser accepts it |
| Common.CollectRecords | eits_python_api/common.py:90-135 | the nested loops over groups and measures equal the in-order traversal of all (group, measure) pairs, the first exception escaping |
| Common.CreateModuleObject | eits_python_api/common.py:74-181 | returns or raises exactly what the specification `ModuleObject` does; the grammar checks only log |
| Common.CreateCsvObject | eits_python_api/common.py:184-231 | returns or raises exactly what the specification `CsvObject` does |
| Common.GroupedMeasuresAppend | eits_python_api/common.py:90-96 | the measure pairs of concatenated group lists are the concatenated pairs |
| BuilderFacts.GroupedMeasuresCount | eits_python_api/common.py:90-96 | there is one pair per measure |
| BuilderFacts.GroupedMeasuresAt | eits_python_api/common.py:90-96 | measure `j` of group `i` comes after every measure of the earlier groups and after the group's earlier measures |
| BuilderFacts.GroupedMeasuresFrom | eits_python_api/common.py:90-96 | every pair is a measure of some group, paired with that group |
| BuilderFacts.BuiltAt | eits_python_api/common.py:90-135 | the nested loops build the record of measure `j` of group `i` at the index after every earlier measure, one record per measure |
| BuilderFacts.MeasureObjectOk | eits_python_api/common.py:116-134 | a measure record is built iff its body renders and a risk table is present |
| BuilderFacts.ModuleFieldsOk | eits_python_api/common.py:153-180 | the module fields are built iff the three description entries exist and they and the additional information render |
| BuilderFacts.MeasureStepsOk | eits_python_api/common.py:90-135 | the measure loop succeeds iff every body renders and, when there is a measure, a risk table is present |
| BuilderFacts.ModuleObjectOk | eits_python_api/common.py:74-181 | `create_module_object` succeeds iff the bodies render, a module with a measure has a risk table, and the module texts exist and render |
| BuilderFacts.MeasureObjectFields | eits_python_api/common.py:114-134 | a built measure record has its fixed code, its title, its tier name, its joined security codes, its assignees, its fixed module code and its looked-up risks |
| BuilderFacts.ModuleObjectMeasures | eits_python_api/common.py:179 | the module record's measures are the records the measure loop built |
| BuilderFacts.MeasureRecordAt | eits_python_api/common.py:90-135 | the record of measure `j` of group `i` is built from that measure and group, at the index after every earlier measure |
| BuilderFacts.ModuleMeasureAt | eits_python_api/common.py:74-181 | in a returned module record, measure `j` of group `i` sits at that index, with the fields derived from it |
| BuilderFacts.NoRiskTableDropsModule | eits_python_api/common.py:133 | without a risk table a module with a measure fails, with `TypeError` in HTML mode |
| BuilderFacts.ShortDescriptionDropsModule | eits_python_api/common.py:158-172 | fewer than three description entries make the module fail, with `IndexError` in HTML mode with a risk table |
| BuilderFacts.CsvRecordOk | eits_python_api/common.py:202-228 | a row is built iff the module texts exist and render and the measure's body renders |
| BuilderFacts.CsvObjectOk | eits_python_api/common.py:184-231 | the rows are built iff there are no measures or every row renders; the risk table plays no part |
| BuilderFacts.CsvRecordFields | eits_python_api/common.py:202-228 | a built row carries the module's raw codes and title, the measure's raw code and title, the tier name, and the joined assignees and security codes |
| BuilderFacts.CsvRowAt | eits_python_api/common.py:197-229 | one row per measure, in group order and then measure order |
| BuilderFacts.JsonAndCsvAgree | eits_python_api/common.py:114-133 | the JSON record and the row of the same measure agree: the JSON code is the row's code fixed, the module codes likewise, and the security codes and tier names are equal |
| PatternFacts.MeasureCodeIsMeasureCodeRaw | eits_python_api/models.py:156-177 | every string `MEASURE_CODE` accepts, `MEASURE_CODE_RAW` accepts too |
| PatternFacts.LongMeasureNumberIsOnlyRaw | eits_python_api/models.py:156-177 | for every module code `c` and every run `d` of three or more digits, `c + ".M" + d` is accepted by `MEASURE_CODE_RAW` and rejected by `MEASURE_CODE` |
| PatternFacts.ModuleCodeKindsAgree | eits_python_api/models.py:168-185 | `MODULE_CODE` and `MODULE_CODE_RAW` accept the same strings; the two members have the same value, so the `Enum` makes `MODULE_CODE_RAW` an alias of `MODULE_CODE`, and the lemma holds by construction |
| PatternFacts.ModuleCodeChars | eits_python_api/models.py:168 | a module code consists of capitals, digits and dots only |
| PatternFacts.ModuleTitleRawFromParts | eits_python_api/models.py:181-184 | a module code, `": "` and a non-empty line of text form a raw module title |
| PatternFacts.DisplayModuleTitleIsRaw | eits_python_api/models.py:169-184 | a display module title without a line break is also a raw module title |
| CatalogTree.RiskTableFor | eits_python_api/eits.py:101-107 | a table exists iff the version is 2022 or 2023: `RISKS_2022` for 2022, `RISKS_2023` for 2023 |
| Eits.CatalogUrl | eits_python_api/eits.py:126-135 | the base URL, then `/api/2/catalog/`, then the decimal form of the version |
| Eits.ItemByIdUrl | eits_python_api/eits.py:137-149 | the catalog URL, then `/`, then the id |
| Eits.DiffCatalogUrl | eits_python_api/eits.py:109-124 | the base URL, then `/api/2/catalog/measures-diff/`, then the old version, `/` and the new version |
| EitsFacts.ItemUrlDeterminesId | eits_python_api/eits.py:137-149 | two ids of the same catalog share a content URL only if they are equal |
| EitsFacts.CatalogUrlDeterminesVersion | eits_python_api/eits.py:126-135 | two catalog URLs over one base are equal only for the same version |
| PyStr.IntToStringInjective | eits_python_api/eits.py:135 | different integers have different decimal forms |
| EitsFacts.DiffUrlDeterminesVersions | eits_python_api/eits.py:121-124 | equal diff URLs over one base name the same pair of versions when these have no `/` |
| EitsFacts.IntToStringHasNoSlash | eits_python_api/eits.py:95-97 | an integer's decimal form has no `/`, so this applies to the versions the client requests |
| Eits.EITSApi.constructor | eits_python_api/eits.py:25-107 | sets the version, format, base URL, catalog and diff; leaves `url` at the diff URL of the previous and current versions; chooses the risk table by version |
| Eits.EITSApi.GetCatalog | eits_python_api/eits.py:160-170 | sets `url` to the catalog URL; stores and returns the fetched catalog, or raises `TypeError` |
| Eits.EITSApi.GetDiffCatalog | eits_python_api/eits.py:172-188 | sets `url` to the diff URL; stores and returns the fetched diff, or raises `TypeError` |
| Eits.EITSApi.GetItem | eits_python_api/eits.py:190-204 | sets `url` to the item URL and returns the fetched content, or raises `TypeError` |
| Eits.EITSApi.GetModulesRecursive | eits_python_api/eits.py:275-308 | returns or raises what `Flatten` does |
| CatalogTree.Flatten | eits_python_api/eits.py:288-308 | the modules of every subgroup in order, then the group's own; the only exception it raises is `TypeError` |
| CatalogTree.FlattenAll | eits_python_api/eits.py:303-305 | the subgroups flattened one after the other; the only exception it raises is `TypeError` |
| CatalogFacts.FlattenOk | eits_python_api/eits.py:288-308 | flattening succeeds iff every subgroup list and module list of the tree is present; otherwise it raises `TypeError` |
| CatalogFacts.FlattenAllOk | eits_python_api/eits.py:303-305 | the same for a list of subgroups |
| CatalogFacts.FlattenCount | eits_python_api/eits.py:288-308 | the flattened list is as long as the tree's module total |
| CatalogFacts.FlattenAllCount | eits_python_api/eits.py:303-305 | the same for a list of subgroups |
| CatalogFacts.FlattenMembers | eits_python_api/eits.py:288-308 | a module is in the flattened list iff it is listed somewhere in the tree |
| CatalogFacts.FlattenAllMembers | eits_python_api/eits.py:303-305 | the same for a list of subgroups |
| Eits.FlattenAllIsGather | eits_python_api/eits.py:303-305 | the subgroup loop extends the list subgroup by subgroup |
| Eits.EITSApi.AppendModulesMeasures | eits_python_api/eits.py:330-335 | appends every measure of every measure group of every module, in order |
| Eits.EITSApi.CollectGroupsMeasures | eits_python_api/eits.py:325-336 | the measures of the flattened modules of every group, group by group; the first exception escapes |
| Eits.EITSApi.GetDiffAdded | eits_python_api/eits.py:310-336 | returns or raises what `DiffAdded` does: `AttributeError` without a diff |
| Eits.EITSApi.GetDiffRemoved | eits_python_api/eits.py:338-364 | returns or raises what `DiffRemoved` does |
| Eits.EITSApi.GetDiffReplaced | eits_python_api/eits.py:366-392 | returns or raises what `DiffReplacedMeasures` does: only the new sides are flattened |
| Eits.EITSApi.GetDiffAll | eits_python_api/eits.py:394-415 | returns or raises what `DiffAll` does |
| CatalogFacts.MissingDiffRaises | eits_python_api/eits.py:326 | without a diff all four queries raise `AttributeError` |
| CatalogFacts.DiffAllParts | eits_python_api/eits.py:410-415 | `get_diff_all` succeeds iff the three queries do; it is then added + replaced + removed, and its length is the sum of the three |
| CatalogFacts.ReplacedIgnoresOldValue | eits_python_api/eits.py:382-392 | replacements that differ only in their old sides give the same measures |
| CatalogFacts.MeasuresOfIsGrouped | eits_python_api/eits.py:331-332 | the diff's measure order for a module is the builders' order of measures |
| Eits.EITSApi.FetchAll | eits_python_api/eits.py:222-235 | fetches the modules in order and the first failed fetch raises; `url` is left at the last module's item URL, at the failed module's item URL on failure, and unchanged for no modules |
| Eits.EITSApi.GetRawModuleContent | eits_python_api/eits.py:206-237 | returns or raises what `RawModuleContent` does; the client's other fields are unchanged; on success `url` is the item URL of the last module over all root groups, or unchanged when there are none |
| CatalogFacts.FetchErr | eits_python_api/eits.py:201-203 | a failed module fetch raises `TypeError` |
| CatalogFacts.GatherFlattenErr | eits_python_api/eits.py:217-219 | a failed flattening of the root groups raises `TypeError` |
| CatalogFacts.RawModuleContentIsFetchOfFlatten | eits_python_api/eits.py:217-237 | fetching root group by root group equals flattening every root group and then fetching the modules in that order |
| CatalogFacts.RawModuleContentOrder | eits_python_api/eits.py:217-237 | the fetch succeeds iff the tree is complete and every request answers; then there is one content per flattened module, in order, each the response to that module's item URL (with requests made one at a time, see Left out) |
| Eits.NormaliseAll | eits_python_api/eits.py:260-269 | keeps, in order, the record of each content that normalises and skips the others |
| Eits.EITSApi.GetModulesAndMeasures | eits_python_api/eits.py:239-273 | returns or raises what `ModulesAndMeasures` does; on success `url` is left as `GetRawModuleContent` leaves it |
| CatalogTree.KeepBuiltStep | eits_python_api/eits.py:260-269 | one more content adds its record when it normalises, and nothing otherwise |
| CatalogFacts.KeepBuiltLength | eits_python_api/eits.py:260-269 | at most one record per content |
| CatalogFacts.KeepBuiltAppend | eits_python_api/eits.py:260-269 | the loop over two concatenated lists keeps what it keeps of each, in order |
| CatalogFacts.KeepBuiltAll | eits_python_api/eits.py:260-269 | when every content normalises, every record is kept, as in a plain loop |
| CatalogFacts.KeepBuiltNone | eits_python_api/eits.py:260-269 | when none normalises, nothing is kept |
| CatalogFacts.KeepBuiltFrom | eits_python_api/eits.py:260-269 | every kept record is the normalisation of some content |
| EitsFacts.ModulesAndMeasuresFrom | eits_python_api/eits.py:239-273 | a success means the tree was complete; there is at most one record per flattened module, each normalised from the content fetched for some module |
| EitsFacts.ModulesAndMeasuresAll | eits_python_api/eits.py:256-271 | when every content normalises, there is one record per module, in catalog order |
| EitsFacts.NoRiskTableRecordIsBare | eits_python_api/common.py:133 | without a risk table only a module with no measures yields a record, and that record has no measures |
| EitsFacts.OtherVersionsKeepNoMeasures | eits_python_api/eits.py:101-107 | for versions other than 2022 and 2023 every returned record has an empty measure list |
| Sequencing.TraverseOk | eits_python_api/common.py:90-135 | the appending loop succeeds iff every step does; it then yields one result per element, in order |
| Sequencing.TraverseAppend | eits_python_api/common.py:90-135 | traversing a concatenation traverses the first part, then the second |
| Sequencing.GatherAppend | eits_python_api/eits.py:217-235 | gathering a concatenation gathers the first part, then the second |
| PyStr.Strip | eits_python_api/common.py:312 | `str.strip` returns the slice of the input left after removing whitespace only, at both ends, and leaves none at either end |
| PyStr.Join | eits_python_api/common.py:129 | `str.join`: the parts separated by the separator |
| PyStr.Lower | eits_python_api/common.py:318 | `str.lower` gives one character per character, except U+0130, which becomes two |
| PyStr.LowerIdempotent | eits_python_api/common.py:318 | lower-casing twice is lower-casing once |

## Left out

- The HTTP transport of `base.py` is not part of this model: aiohttp and requests, SSL, the semaphore and the rate delay. Every request is the `fetch` parameter.
- `asyncio`: `create_task`, `gather` and `asyncio.run` are modelled only by the order of their results. The requests are made one at a time.
- Eits.EITSApi.GetRawModuleContent and CatalogFacts.RawModuleContentOrder: two assumptions of the sequential model.
  - First: the model requests each module's own URL. In the source, `get_item` sets `self.url` and `get_async` reads it only after `async with self.limit` (`base.py:60-65`). In a root group with more than 100 modules, task 101 onward wait at the semaphore after setting `self.url`. By the time they read it, it holds the URL of another task (the group's last module). So those modules get another module's content, which the model does not capture.
  - Second: `fetch` returns `None` for a failed request, so the failure is `TypeError`. In the source a timeout reaches `self.host` (`base.py:90`), which does not exist, and raises `AttributeError` instead; `CatalogFacts.FetchErr` holds only under the `fetch` abstraction.
- Eits.EITSApi.FetchAll, Eits.EITSApi.GetRawModuleContent and Eits.EITSApi.GetModulesAndMeasures: the final `url` after a failed request differs. In the source every task of a root group sets `self.url` before its first suspension, in creation order, so `url` ends at the item URL of the group's last module even when an earlier request fails. The sequential model stops at the first failed request, so its `url` ends at the failed module's item URL. On success the two agree.
- The lxml parse in `remove_html_tags` is the abstract `text` function. Only the empty-string branch is modelled exactly.
- The `isinstance` checks that raise `TypeError` for non-strings are left out: the model has typed strings.
- `None`-valued string and list fields of the DTOs are left out. Only `moduleSubgroups` and `modules` of a group, `newValue` and `oldValue` of a replacement, and the diff itself are optional, because those are the `None` paths the walks hit.
- `EITSApi.__init__` reads environment variables and `.env`, and an uncaught failure to fetch the catalog ends construction. These are left out. The constructor takes the fetched catalog, the optional diff and the two risk tables as parameters.
- The `output` setting of `__init__` is left out, as are `load_environment_variables` and `get_boolean_from_environment_string`.
- The contents of `RISKS_2022` and `RISKS_2023` are left out, because their module is not part of this model; they are parameters.
- `materials_url`, `get_measure_risks_all`, `parse_risks_html_items` and `get_risks` of `EITSApi` are left out: they are BeautifulSoup parsing over an HTTP response.
- `save_json` and `save_csv` are left out: they write files.
- Logging is left out. The grammar checks of `create_module_object` only log, so the model computes their outcome and discards it.
- The `json` flag and `model_dump()` are left out. The model returns the records themselves, which `model_dump()` turns field by field into dictionaries.
- `JsonRisk` is left out: nothing in the core builds it.
- Patterns.IsLetter: `\p{L}` is modelled by the letters of ASCII, Latin-1 and Latin Extended-A (up to U+017F), which cover Estonian. Letters of other scripts are rejected: a display module title such as `ABC.1: Ωmega` matches in the source but not in the model. Only the logged mismatch of `create_module_object` depends on it.
- Patterns.IsDigit: `\d` is modelled by `[0-9]`; the `regex` module also accepts the other Unicode decimal digits.
- PyStr.LowerChar: `str.lower` is followed on ASCII, Latin-1 and Latin Extended-A, including U+0130, which becomes `i` and U+0307. Characters above U+017F are left unchanged, whereas Python also lower-cases, for example, Greek and Cyrillic capitals.
- The literal examples of the unit tests are stated as general lemmas over parts (for example `a + " " + b`), not as individual strings.
