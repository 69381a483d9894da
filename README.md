# CMakeFiles generators: a verified model

This project models the computational core of three Python scripts of the
ga2k/CMakeFiles repository:

- `yaml2rs.py` turns YAML table schemas into C++ record-set modules. The
  model covers the following parts.
  - The table catalog built from all files (`collect_all_tables`).
  - Resolution of related columns over `many_to_one` relationships, bounded
    by the maximum join depth and guarded by a per-module cache
    (`resolve_relationship_fields`).
  - The JOIN planner with its shared alias set (`generate_nested_joins`).
  - The column lists of `selectRecords_impl` and `getRowset_impl`.
  - The small helpers: `map_yaml_type_to_cpp`, `is_required_field`,
    `get_required_fields`, `_field_order_for_insert`, `to_pascal_case` and
    `to_camel_case`.
  - The text splice that `update_cmake_modules` applies to a CMake file.
- `filter-presets.py` rewrites a CMake presets file. Conditions of hidden
  presets are pushed down to the presets that inherit them, and visible
  presets whose condition is false are dropped. Conditions are the condition
  objects of cmake-presets(7), section "Condition"; the script understands
  only `equals`, `anyOf` and `allOf`, and so does the model.
- `yaml2ui.py` generates wxWidgets UI modules. The model covers its
  self-contained validators and normalisers:
  - target selection and the page-type counter;
  - the identifier check and event-name normalisation;
  - PascalCase and camelCase conversion;
  - `UICreateFlags` lists and argument triples;
  - `functions` validation with its defaults;
  - the `noexcept` suffix;
  - the table/field pair;
  - the concrete and base control classes.

Modules, one per file:

| file | module | contents |
|---|---|---|
| strings.dfy | `Strings` | `Option`/`Result`, ASCII case mapping, `find`, `strip`, `split`, `join` |
| json.dfy | `JsonValue` | a loaded YAML/JSON value; mappings as ordered key/value lists |
| naming.dfy | `Naming` | `to_pascal_case`, `to_camel_case` (identical in both generators) |
| schema.dfy | `Schema` | typed table schema, type map, required/insert columns, catalog registration |
| resolver.dfy | `Resolver` | `resolve_relationship_fields` as a function, with its properties |
| joins.dfy | `Joins` | `generate_nested_joins` as a function, alias allocation, the select list |
| projection.dfy | `Projection` | `_collect_relationship_map`, the `getRowset_impl` projection |
| generator.dfy | `RsGenerator` | the `CppModuleGenerator` class: its fields and the loops that update them |
| cmake.dfy | `CMake` | the splice of `update_cmake_modules` |
| presets.dfy | `Presets` | `filter-presets.py` |
| ui.dfy | `Ui` | the `yaml2ui.py` helpers and the `CppGroupGenerator` state they use |

The parts of the scripts that update state in place are modelled as methods
with loops:
- the generator's catalog, cache, depth and alias set;
- the preset accumulators;
- the flag, triple and `functions` loops.

Each such method is proved equal to a function. The properties are proved as
lemmas about that function.

## Model

| member | source | states |
|---|---|---|
| RsGenerator.CppModuleGenerator.constructor | yaml2rs.py:35-50 | the catalog, file map and cache start empty and the maximum join depth is 3 |
| RsGenerator.CppModuleGenerator.SetMaxJoinDepth | yaml2rs.py:75-77 | the new depth is the argument when it is at least 1, and 1 otherwise |
| RsGenerator.CppModuleGenerator.CollectAllTables | yaml2rs.py:572-597 | after the pass, catalog and file map are the fold of all registrations of all files, in order |
| RsGenerator.CppModuleGenerator.CollectDocument | yaml2rs.py:584-597 | one file registers its tables with fields in order, skips those without and goes on; the first malformed entry ends that file |
| Schema.DocumentRegistrations | yaml2rs.py:584-594 | a file yields at most one registration per table entry |
| Schema.TestFields | yaml2rs.py:584 | `'fields' in table_def`: for a mapping, iff some key is `fields`; for a list, iff some element is the string `fields`; for a string, iff `fields` occurs in it; it raises exactly for a null, a boolean or a number; it stands alone, since the entries the catalog loop takes arrive already classified |
| Schema.RegisterKeys | yaml2rs.py:594-595 | the catalog holds exactly the earlier names plus every registered name; the same holds for the file map |
| Schema.RegisterLastWins | yaml2rs.py:594-595 | a name maps to its last definition, and to the file of that definition |
| Schema.RegisterKeepsOthers | yaml2rs.py:594-595 | a name no registration mentions keeps its earlier definition |
| Schema.RegisterAppend | yaml2rs.py:574-595 | registering two lists one after the other equals registering their concatenation |
| Schema.RegisterFiles | yaml2rs.py:574-595 | the registrations of all files equal those of the earlier files followed by those of the last file |
| Schema.RegistersCanonicalName | yaml2rs.py:587-589 | a table named `<base>_table` registers as `<base>` |
| Schema.StripTableSuffix | yaml2rs.py:587-589 | a trailing `_table` is removed; a name without it is unchanged |
| Schema.StripTableSuffixOnce | yaml2rs.py:108-110 | `<base>_table` normalises to `<base>`, and only one suffix is ever removed |
| Schema.RelName | yaml2rs.py:124 | the column prefix is the relationship's `name`, or else its `references_table` |
| Schema.FieldNames | yaml2rs.py:252 | the field names in declaration order |
| Schema.MapYamlTypeToCppRange | yaml2rs.py:36-45 | the result is a C++ column type: the table entry for a listed type, `std::string` for any other |
| Schema.FieldCppTypeRange | yaml2rs.py:131 | a field's type is a C++ column type, and a field without `type` is `std::string` |
| Schema.MapYamlTypeIgnoresCase | yaml2rs.py:679-681 | two spellings that lower-case alike map to the same type |
| Schema.MapYamlTypeUpper | yaml2rs.py:679-681 | an upper-cased type name maps like the original |
| Schema.RequiredNames | yaml2rs.py:822-826 | a name is listed iff some field of that name is a primary key, or is non-null and not auto-incremented |
| Schema.InsertNames | yaml2rs.py:979-986 | a name is listed iff some field of that name is not an auto-incremented primary key |
| Schema.GetRequiredFields | yaml2rs.py:869-875 | the loop returns the required names in declaration order |
| Schema.FieldOrderForInsert | yaml2rs.py:979-986 | the loop returns the insert columns in declaration order |
| Schema.RequiredButNotInserted | yaml2rs.py:822-826 | a required column left out of the INSERT is an auto-incremented primary key; an inserted column that is not required is a nullable or auto-incremented non-key column |
| Resolver.DirectFields | yaml2rs.py:127-133 | one column per field, in order, named `<prefix>__<field>`, typed by the type map, optional |
| RsGenerator.DirectFieldsOf | yaml2rs.py:127-133 | the loop over a referenced table's fields yields exactly its direct columns |
| RsGenerator.TypedColumnsOf | yaml2rs.py:127-133 | the loop yields, per field in order, the prefixed name, the field's type and `False` |
| RsGenerator.CppModuleGenerator.ResolveRelationshipFields | yaml2rs.py:79-152 | columns and cache after the call are those of the resolution function; nothing is resolved at or past the maximum depth |
| RsGenerator.CppModuleGenerator.ResolveEntry | yaml2rs.py:100-150 | one loop iteration updates columns and cache as the resolution function's step does |
| RsGenerator.CppModuleGenerator.ModuleRelatedFields | yaml2rs.py:449-455 | with the cache cleared first, the related columns depend only on catalog, depth and table |
| Resolver.ResolveWellFormed | yaml2rs.py:95-150 | every resolved column is optional and is named after a path: `prefix`, then one to `max_join_depth - depth` relationship names, each one a followed relationship of the table before it that has a catalog entry, then `__` and a column of the last table, whose C++ type the column carries; the cache only grows |
| Resolver.ResolveSeqWellFormed | yaml2rs.py:100-150 | the same path property, for the loop over one relationship list: each path starts with a relationship of that list |
| Resolver.ResolveOneWellFormed | yaml2rs.py:100-150 | the same path property, for one relationship entry: each path starts with that entry |
| Resolver.ResolveAgainIsEmpty | yaml2rs.py:114-116 | resolving the same relationships again with the returned cache yields no columns and leaves the cache as it is |
| Resolver.ResolveSeqSettles | yaml2rs.py:114-139 | after a pass, the returned cache settles every entry of that pass |
| Resolver.SettledContributeNothing | yaml2rs.py:114-116 | entries that the cache settles contribute nothing and leave the cache unchanged |
| Resolver.IgnoredEntryIsNeutral | yaml2rs.py:100-121 | an entry that is not `many_to_one`, has no `references_table` or names a table missing from the catalog can be removed without changing its siblings' result |
| Resolver.ResolveLeaf | yaml2rs.py:118-150 | following one entry to a table with no further relationships gives that table's direct columns |
| Resolver.SingleRelationship | yaml2rs.py:124-136 | a single relationship gives the referenced table's columns in order, named `<rel>__<col>`, typed, optional |
| Resolver.TwoLevelRelationship | yaml2rs.py:141-150 | a table related to a further table gives its own columns, then the second table's columns under `<rel>__<rel2>__` |
| Resolver.DepthOneStopsAtFirstLevel | yaml2rs.py:141-143 | with maximum depth 1, nested relationships are not followed |
| Joins.KindOf | yaml2rs.py:207-212 | the JOIN is INNER iff `join` lower-cases to `inner`, and LEFT otherwise |
| Joins.FirstFreeAuto | yaml2rs.py:174-179 | the first counter at or above the start whose `tN` is free; every counter skipped was taken |
| RsGenerator.NextAutoAlias | yaml2rs.py:174-179 | the returned alias is free, it is the first free `tN` from the counter, and the new counter is one past it |
| Joins.AutoNameInjective | yaml2rs.py:175 | different counters give different `tN` names |
| Joins.ChooseAlias | yaml2rs.py:192-201 | the alias is not taken; it is the explicit `as`, with the counter unchanged, iff that alias is given and free; otherwise it is `t<n>` for the first free `n` from the counter on, and the counter moves to `n + 1` |
| Joins.OwnColumns | yaml2rs.py:219-222 | a joined table contributes `<alias>.<col> AS <rel>__<col>` per field, in order |
| Joins.Reprefix | yaml2rs.py:233-241 | nested groups keep their alias, and each column name gains `<rel>__` |
| RsGenerator.MergeNested | yaml2rs.py:233-241 | the merge loop returns exactly the re-prefixed nested groups |
| RsGenerator.PrefixColumns | yaml2rs.py:234-240 | the inner loop re-prefixes every column of one group, in order |
| RsGenerator.CppModuleGenerator.GenerateNestedJoins | yaml2rs.py:154-243 | JOINs, column groups and the shared alias set after the call are those of the planning function |
| RsGenerator.AliasScope.constructor | yaml2rs.py:164-165 | a planning's shared alias set starts as just the base alias |
| RsGenerator.CppModuleGenerator.PlanEntry | yaml2rs.py:185-241 | one loop iteration: JOINs, groups, alias set and counter as the planning step gives them |
| Joins.PlanSeqFrom | yaml2rs.py:185-243 | the plan of the entries from `i` on is entry `i`'s plan followed by the plan of the rest |
| Joins.PlanJoinsWellPlanned | yaml2rs.py:164-201 | all allocated aliases are pairwise distinct and were free before, so none equals the base alias; every JOIN attaches to the base alias or to an earlier JOIN; every column group is read from a JOIN's alias, and the groups' keys are distinct |
| Joins.PlanSeqWellPlanned | yaml2rs.py:185-243 | the same, for the loop over one relationship list |
| Joins.PlanOneWellPlanned | yaml2rs.py:185-241 | the same, for one relationship entry |
| Joins.ExplicitAliasWhenFree | yaml2rs.py:192-215 | a joinable entry's JOIN comes first, from the base alias on its own key, table and field; it uses `as` iff `as` is given and still free, and then leaves the counter as it was; otherwise its alias is the first free `t<n>` and the counter moves past it |
| Joins.FirstAutoAliasIsT1 | yaml2rs.py:164-179 | from `our` with no explicit alias, the first JOIN's alias is `t1` |
| Joins.JoinedAtTopLevel | yaml2rs.py:185-215 | every joinable top-level entry gets a JOIN from the base alias on its own foreign key, table and referenced field |
| Joins.BaseColumns | yaml2rs.py:252 | one `our.<col> AS <col>` per base field, in order |
| Joins.Flatten | yaml2rs.py:257-260 | the flattened list holds exactly the columns of the groups |
| Joins.SelectColumnsJoined | yaml2rs.py:245-263 | the select list starts with the base fields in order, and every column reads from `our` or from an emitted JOIN's alias |
| RsGenerator.BaseColumnsOf | yaml2rs.py:252 | the base-column loop returns the base columns |
| RsGenerator.FlattenGroups | yaml2rs.py:257-260 | the flattening loop returns the groups' columns one group after another |
| RsGenerator.CppModuleGenerator.GenerateSelectColumns | yaml2rs.py:245-263 | the column list of `selectRecords_impl` is the base columns followed by the flattened JOIN groups |
| Projection.CollectRelationshipMap | yaml2rs.py:298-332 | it succeeds iff every entry is a mapping, and then gives one record per entry, in order |
| Projection.FindReplacement | yaml2rs.py:375 | the first record whose foreign key is the column and whose `replace_with` is non-empty; none iff no record qualifies |
| Projection.Qualified | yaml2rs.py:388 | each replacement column qualified by the alias, in order |
| Projection.AliasMapCovers | yaml2rs.py:350-365 | the alias map gives every record's foreign key a non-empty alias |
| Projection.MapAsWritten | yaml2rs.py:372-391 | one projected column per base field, in order |
| Projection.RowsetProjectionShape | yaml2rs.py:372-391 | as written: base-field order is kept, an unreplaced field is `our.<col> AS <col>`, and a replaced field is substituted by its record's columns under `replace_as` or the field name |
| Projection.TopEdgeFor | yaml2rs.py:214-215 | the found JOIN attaches to `our` on the record's own key, table and field; none means no JOIN does |
| Projection.MapJoined | yaml2rs.py:372-391 | one projected column per base field, in order, read through the JOIN aliases |
| RsGenerator.ProjectColumns | yaml2rs.py:372-391 | the projection loop returns the projection through the JOIN aliases |
| RsGenerator.CppModuleGenerator.GetRowsetProjection | yaml2rs.py:334-391 | `generate_get_rowset_impl` as written: the JOINs are the planner's from `our`, and the column list is the as-written projection through its own `alias_for_fk` map |
| RsGenerator.CppModuleGenerator.GetRowsetProjectionThroughJoins | yaml2rs.py:334-391 | the corrected statement: the same JOINs, and each replaced key read through the alias its own JOIN received |
| RsGenerator.NextRowsetAlias | yaml2rs.py:356-361 | `next_auto_alias`: a `t<n>` not yet used, for the first free `n` from the counter on, and returns that `n` itself rather than `n + 1` |
| RsGenerator.RowsetAliasMapOf | yaml2rs.py:350-365 | the loop that fills `alias_for_fk` yields the map of the as-written specification, starting from `{our}` and counter 1 |
| RsGenerator.ProjectColumnsAsWritten | yaml2rs.py:370-391 | the loop that fills `projected_cols` yields the as-written column list for that map |
| Projection.RowsetProjectionSound | yaml2rs.py:334-391 | the corrected projection fails iff the as-written one does; every substituted column reads from an alias that an emitted JOIN attaches to `our` on that foreign key |
| Projection.RowsetProjectionComplete | yaml2rs.py:372-391 | a field replaced by a joinable top-level entry is substituted by that entry's columns under its out name |
| Projection.RowsetAliasMismatch | yaml2rs.py:350-365 | as written, a replaced column is read from `t2`, which no JOIN defines; the only JOIN is `t1` |
| Naming.ToPascalCase | yaml2rs.py:55-70 | empty gives empty; a name without `_` keeps an upper-case first letter or has it raised otherwise; the result has no `_`, does not start lower-case, and spells the letters of the name without `_` (the word-by-word form is `Naming.Words`) |
| Naming.JoinCapitalized | yaml2rs.py:70 | the capitalized non-empty parts: same letters up to case, no `_`, not starting lower-case |
| Naming.PascalCaseIsIdempotent | yaml2ui.py:1112-1123 | converting twice gives the same as converting once |
| Naming.PascalCaseSingleWords | yaml2rs.py:55-70 | `users` becomes `Users`, and `XMLHttpRequest` stays as it is |
| Naming.TwoWords | yaml2rs.py:55-70 | `a_b` becomes `Capitalize(a) + Capitalize(b)` in PascalCase and `a + Capitalize(b)` in camelCase |
| Naming.Words | yaml2rs.py:55-70 | any words without `_` joined by `_`: PascalCase (two or more words) is the concatenation of every word capitalized, camelCase is the first word as given followed by the others capitalized |
| Naming.JoinCapitalizedEach | yaml2rs.py:69 | skipping empty parts gives the same text as capitalizing every part, in order |
| Strings.SplitJoin | yaml2rs.py:68 | splitting separator-free parts joined by the separator gives the parts back |
| Naming.ToCamelCase | yaml2rs.py:683-686 | the result starts with the first part as given and has no `_` (the word-by-word form is `Naming.Words`) |
| Naming.CamelCaseLetters | yaml2ui.py:1125-1128 | camelCase spells the letters of the name without `_`, and leaves a name without `_` unchanged |
| Naming.PascalAndCamel | yaml2rs.py:55-70 | for an underscored name with a non-empty first part, PascalCase is camelCase with that part capitalized |
| Naming.RemoveSeparator | yaml2rs.py:69-70 | removing the separator from the joined parts leaves their concatenation |
| CMake.Splice | yaml2rs.py:1049-1071 | the splice of the file text with the repository's markers and anchor; it can fail only when both markers occur |
| CMake.SpliceWith | yaml2rs.py:1060-1071 | the splice for any markers and anchor; it can fail only when both markers occur |
| CMake.SpliceWithReplaces | yaml2rs.py:1060-1064 | with BEGIN first found at `i` and END first found at `j` after it, the text from BEGIN through END is replaced by the block |
| CMake.BlockShape | yaml2rs.py:1058 | the block is BEGIN, a line break, one line per path, and END |
| CMake.SpliceWithAroundBlock | yaml2rs.py:1060-1064 | a text holding BEGIN, a part without END, and END after a prefix without BEGIN has exactly that part replaced |
| CMake.SpliceContainsBlock | yaml2rs.py:1058-1071 | after a successful splice the text contains the block |
| CMake.SpliceAroundBlock | yaml2rs.py:1060-1064 | a text that already holds the block, after a prefix without BEGIN, splices to itself |
| CMake.SpliceIdempotent | yaml2rs.py:1049-1075 | when no path contains END and no BEGIN stands without an END, splicing a second time changes nothing, so the file is not rewritten |
| Presets.EvaluateExpression | filter-presets.py:42-66 | `${hostSystemName}` gives the platform name and `$env{X}` gives `X` or `""`; other strings are returned unchanged and a non-string raises |
| Presets.EnvReferenceReadsVariable | filter-presets.py:61-63 | `$env{NAME}` reads exactly the variable NAME |
| Presets.LiteralEvaluatesToItself | filter-presets.py:65-66 | a string not starting with `$` evaluates to itself |
| Presets.CombinatorsEvaluate | filter-presets.py:82-88 | `anyOf` evaluates its entries like `any`, and `allOf` like `all` |
| Presets.ShortCircuitDecides | filter-presets.py:84-88 | the short circuit gives the deciding value iff some entry is the first one not evaluating to the skipped value |
| Presets.ShortCircuitAll | filter-presets.py:84-88 | the short circuit gives the skipped value iff every entry evaluates to it |
| Presets.AnyOfMeaning | filter-presets.py:82-84 | `anyOf` is true iff some entry is true and all before it are false, and false iff all entries are false; so an empty `anyOf` is false |
| Presets.AllOfMeaning | filter-presets.py:86-88 | `allOf` is false iff some entry is false and all before it are true, and true iff all entries are true; so an empty `allOf` is true |
| Presets.EqualsAndUnknownTypes | filter-presets.py:74-91 | `equals` compares the two evaluated sides, and a missing or unknown type is false |
| Presets.Iterate | filter-presets.py:29 | `for x in v`: a list gives its items, a string its characters, a mapping its keys; other values raise |
| Presets.InheritedNames | filter-presets.py:29 | inherited names are read by iteration, except that the documented reading takes a string as one name |
| Presets.DictKeyIff | filter-presets.py:25-30 | two hashable names find the same registry entry iff Python's `==` holds between them: equal values, or a boolean and the integer it equals |
| Presets.CollectConditions | filter-presets.py:27-31 | only conditions registered under the dict keys of listed names are gathered, and every listed registered name's condition is; it raises iff some name is unhashable; it is empty iff no listed name is registered |
| Presets.CollectConditionsAppend | filter-presets.py:27-31 | gathering over two lists in a row succeeds iff it does over each, and gives the two results concatenated: the conditions come in the order of `inherits` |
| Presets.CollectConditionsSingle | filter-presets.py:27-31 | one name raises iff it is unhashable, and otherwise gives the condition registered under its dict key (`1` finds one registered under `True`) or nothing |
| Presets.CollectInherited | filter-presets.py:27-31 | the comprehension loop returns the gathered conditions |
| Presets.MergedConditionIsConjunction | filter-presets.py:32-37 | the condition a preset receives holds iff all inherited conditions hold |
| Presets.BoolNameIsIntKey | filter-presets.py:21-31 | a hidden preset named `true` registers under the key of `1`, and a visible preset with `"inherits": [1]` receives its condition |
| Presets.Step | filter-presets.py:21-38 | a hidden preset is appended to the hidden list and, when it has a `condition`, registers that condition under the dict key of its name, so `True` and `1` are one key (raising iff the name is missing or unhashable), and otherwise leaves the registry unchanged; a visible one adds exactly one processed preset; earlier results are kept |
| Presets.VisibleStep | filter-presets.py:26-38 | a visible preset with no inherited condition is unchanged; with one it receives that condition; with several it receives their `allOf` |
| Presets.ProcessOne | filter-presets.py:21-38 | the loop body updates the three accumulators as one step does |
| Presets.ProcessPresets | filter-presets.py:13-40 | the loop returns the three accumulators of the fold over all presets, or the exception that ends it |
| Presets.ProcessKeepsHiddenInOrder | filter-presets.py:21-23 | hidden presets come back unchanged and in input order, and every visible preset gives one processed preset |
| Presets.ProcessIsPrefixStable | filter-presets.py:21-31 | later presets never change what earlier ones produced, so only hidden presets listed earlier are visible to a preset |
| Presets.InheritsStringAsDocumented | filter-presets.py:27-37 | read as documented, `"inherits": "<name>"` of a registered hidden preset gives exactly its condition |
| Presets.FilterMeaning | filter-presets.py:94-103 | the filtered list is a subsequence of the input; it holds exactly the presets whose condition is absent or true, each as many times as in the input; it raises iff some preset does |
| Presets.FilterCounts | filter-presets.py:94-103 | a kept preset occurs in the result as often as in the input, a dropped one not at all |
| Presets.FilterRaises | filter-presets.py:98-101 | filtering raises iff some preset is not a mapping or its condition raises |
| Presets.FilterSubsequence | filter-presets.py:96-103 | the filtered list keeps input order |
| Presets.FilterMembers | filter-presets.py:99-101 | a preset is kept iff its condition is absent or evaluates true (multiplicities: `Presets.FilterCounts`) |
| Presets.FilterPresetsByConditions | filter-presets.py:94-103 | the loop returns the filter's result |
| Presets.FilterDocument | filter-presets.py:114-127 | every key other than `configurePresets` keeps its value |
| Presets.DocumentLayout | filter-presets.py:118-127 | the written list is every hidden preset in input order, then exactly the filter of the processed visible presets: a subsequence of them, each passing, each as often as among them; no more presets than were read |
| Presets.InheritsStringLosesCondition | filter-presets.py:27-31 | as written, `"inherits": "base"` loses the hidden preset's condition and the preset survives; read as documented it inherits it and is dropped |
| Ui.CppGroupGenerator.constructor | yaml2ui.py:20-24 | the target starts as `groups`/`Group` and the page type at 1000 |
| Ui.TargetFor | yaml2ui.py:314-326 | group(s), page(s) and wizardpage(s) are accepted and every other name is refused; each gives its class and section |
| Ui.TargetIgnoresCase | yaml2ui.py:315 | upper-casing the target name does not change the choice |
| Ui.CppGroupGenerator.Target | yaml2ui.py:314-326 | it succeeds iff the lower-cased name is known and sets class and section; on failure the state is unchanged |
| Ui.CppGroupGenerator.AllocatePageType | yaml2ui.py:395-407 | a module gets the current page type, and the counter moves one on |
| Ui.ChooseClass | yaml2ui.py:1194-1209 | a non-blank string is taken stripped; any other value falls back |
| Ui.CppGroupGenerator.ControlClassNonBlank | yaml2ui.py:1187-1211 | with a non-blank target class both classes are non-blank, and a given non-blank `class`/`base_class` is taken stripped |
| Ui.IsIdentifierIff | yaml2ui.py:1063-1069 | an identifier is a non-empty string of letters, digits and `_` that does not start with a digit |
| Ui.AllIdentCharsIff | yaml2ui.py:1069 | the `all(...)` loop holds iff every character is alphanumeric or `_` |
| Ui.EventMappingTokens | yaml2ui.py:223-303 | every value of the alias table is a `wxEVT_` constant |
| Ui.Lookup | yaml2ui.py:1088 | a found value is the table's entry for the key; nothing found means the key is absent |
| Ui.Canonical | yaml2ui.py:1083-1085 | the canonical form starts with `EVT_` |
| Ui.ResolveAlias | yaml2ui.py:1087-1106 | the table's entry, else the entry without `COMMAND_`, else `wx` + name; always a `wxEVT_` constant |
| Ui.NormalizeEventNameIn | yaml2ui.py:1071-1110 | the result is always a `wxEVT_` constant, for any alias table of such constants |
| Ui.NormalizeEventNameInCases | yaml2ui.py:1071-1106 | non-string or blank input gives `wxEVT_TEXT`, a `wxEVT_` constant is kept stripped, anything else goes through the aliases |
| Ui.NormalizeEventName | yaml2ui.py:1071-1110 | the result starts with `wxEVT_`; blank or non-string gives `wxEVT_TEXT`; a `wxEVT_` name is kept |
| Ui.NormalizeEventNameIdempotent | yaml2ui.py:1071-1106 | a normalised name normalises to itself |
| Ui.NormalizeEventNameInIdempotent | yaml2ui.py:1071-1106 | for any alias table of event constants, a normalised name normalises to itself |
| Ui.TokenNormalizesToItself | yaml2ui.py:1078-1080 | an event constant is returned as it is |
| Ui.StripFlagPrefix | yaml2ui.py:1443-1446 | `wx::UICreateFlags::` or else `UICreateFlags::` is removed from the front |
| Ui.ListedFlags | yaml2ui.py:1452-1460 | no more flags than entries |
| Ui.ListedFlagsAllStrings | yaml2ui.py:1452-1460 | a list of non-blank strings gives exactly one flag per entry |
| Ui.ListedFlagsAppend | yaml2ui.py:1452-1460 | the flags of two lists in a row are the flags of each, concatenated: flags keep the order of the entries |
| Ui.ListedFlagsSingle | yaml2ui.py:1452-1460 | one non-blank string entry gives its stripped text without the scope prefix; any other entry gives nothing |
| Ui.ListedFlagsMembers | yaml2ui.py:1452-1460 | every flag is the flag of some entry, and every non-blank string entry's flag is in the list |
| Ui.CreateFlags | yaml2ui.py:1436-1477 | the list is never empty; the given flags come first; a group's list is exactly the given flags with `Group` appended unless already there; an empty list is `["Null"]`; nothing else is added |
| Ui.Scoped | yaml2ui.py:1479 | each flag prefixed `UICreateFlags::` |
| Ui.CollectListedFlags | yaml2ui.py:1452-1460 | the list loop returns the listed flags |
| Ui.ExtractUiCreateFlags | yaml2ui.py:1435-1481 | `is_group` holds iff it is the boolean true; the flags are the flag list, and `cflags` their `" \| "`-joined scoped form |
| Ui.ParseTriples | yaml2ui.py:1880-1909 | the `_triples` loop returns the kept groups of three |
| Ui.TriplesStripped | yaml2ui.py:1892-1908 | every kept triple has a stripped non-empty name and type |
| Ui.GoodGroupKept | yaml2ui.py:1891-1908 | a well-formed group gives its triple ahead of the later ones |
| Ui.BadGroupSkipped | yaml2ui.py:1892-1904 | a group whose name or type is not a non-blank string is skipped |
| Ui.TriplesIgnoreRemainder | yaml2ui.py:1891 | one or two entries after the last complete group change nothing |
| Ui.ParseArgsBlock | yaml2ui.py:1843-1938 | a mapping with a non-blank `arg_name` gives the stripped name and the `args_out`/`args_in` triples; anything else gives nothing |
| Ui.CheckFunctionOk | yaml2ui.py:1950-1976 | a definition is accepted iff its name is non-empty, it is a mapping, each given field has the demanded kind, and `access` is one of the three |
| Ui.CheckEachMeaning | yaml2ui.py:1949-1987 | the entries are accepted iff each is, and then come out in order under their own names; a failure is some entry's failure |
| Ui.ValidateFunctions | yaml2ui.py:1940-1947 | `None` gives no functions, and a value that is not a mapping raises |
| Ui.ValidateFunctionsOk | yaml2ui.py:1949-1989 | a mapping is accepted iff every entry is, and each comes out normalised under its own name, in order |
| Ui.CheckFunctionValue | yaml2ui.py:1978-1987 | an accepted definition is its defaults-filled form |
| Ui.CheckEachLoop | yaml2ui.py:1949-1989 | the loop returns the per-entry check's result |
| Ui.ValidateFunctionsLoop | yaml2ui.py:1940-1989 | the method returns what `_validate_functions` returns |
| Ui.GetSetDefaults | yaml2ui.py:1979-1984 | after the `setdefault` calls a key keeps its value if it had one, and otherwise takes its first default |
| Ui.WithDefaultsGet | yaml2ui.py:1974-1985 | `access` is the given one or `public`; a given key keeps its value; a missing key takes its default |
| Ui.DefaultValues | yaml2ui.py:1979-1984 | the defaults `args=''`, `return='void'`, `override=False`, `body=''`, `const=False`, `static=False` |
| Ui.NormalizedFunction | yaml2ui.py:1940-1989 | a normalised definition has a valid access, string `args`/`return`/`body`, boolean `const`/`static`, and a boolean or string `override` |
| Ui.FormatNoexcept | yaml2ui.py:1991-1996 | `" noexcept"` iff true, `" noexcept(<stripped>)"` iff a non-blank string, `""` otherwise |
| Ui.ExtractDbInfo | yaml2ui.py:1223-1241 | both initialisers are empty or both non-empty; they are non-empty iff `table` and `field` are non-blank strings, and then wrap their stripped values |
| JsonValue.Get | yaml2ui.py:1974 | `m.get(k)` finds the value of the key when present |
| JsonValue.GetSetDefault | yaml2ui.py:1979-1984 | `setdefault` leaves a present key alone, adds a missing one and touches no other key |
| JsonValue.GetPut | filter-presets.py:33-37 | reading back a key just written gives the written value |
| JsonValue.GetPutOther | filter-presets.py:127 | writing one key leaves every other key as it was |
| JsonValue.PutKeepsKeysUnique | filter-presets.py:33 | writing a key keeps the keys distinct |
| Strings.Find | yaml2rs.py:1067 | `find`: the first occurrence, or -1 iff there is none |
| Strings.ContainsIff | yaml2rs.py:1060 | `in` holds iff there is an occurrence |
| Strings.Split | yaml2rs.py:69 | `split`: the parts contain no separator, and joining them with it gives the input back |
| Strings.StripIdempotent | yaml2ui.py:1074 | stripping twice is stripping once |
| Strings.Strip | yaml2ui.py:1074 | `strip`: no longer than the input, no white space at either end, and empty iff the input is all white space |
| Strings.StripInfix | yaml2ui.py:1074 | the stripped text is a slice of the input with only white space before and after it |
| Strings.StripBounds | yaml2ui.py:1074 | the positions where the stripped text begins and ends, with only white space before the first and from the second on |

## Left out

- File and YAML/JSON input and output are not modelled. This covers
  `parse_yaml_file`, `read_json`/`save_json`, the CMake file read and write,
  `scan_and_generate`, `ensure_yaml` and the module-level argument handling
  of `filter-presets.py`. A file enters the model as its parsed `Document`,
  or as the text to splice.
- Warnings and progress messages printed to the console are not modelled.
  The results around them are. Examples:
  - the missing-table warning of the resolver;
  - the duplicate-name, unknown-type, non-identifier and `require_out`
    warnings of `_parse_args_block`;
  - the "exactly one of table and field" error of `extract_db_info`;
  - the fallback warnings of `extract_control_class` and
    `extract_uicreate_flags`.
- The C++ text the generators emit is not modelled; the column and JOIN
  lists are. This covers the `generate_module` f-strings, padded
  declarations, constructors and reads, controls and groups.
- `yaml2ui.py`'s float formatting is not modelled.
- Presets.CollectConditions, Presets.Step: loaded values have no
  floating-point case, so a JSON number such as `1.0` is not represented.
  The registry's key identity (`1.0 == 1 == True` in Python) is modelled
  only between booleans and integers. The registry keeps the normalised
  key rather than the first key object Python stores, which no caller
  reads: the returned map is unpacked at filter-presets.py:118 and not
  used again.
- The date and time stamps are not modelled.
- `evaluate_expression` reads the host. Its `platform.system()` and
  `os.getenv` are a `Host` parameter (the system name and the environment).
- `_resolve_related_fields`, `_resolve_related_fields0` and
  `_collect_join_columns` are not modelled. They read neighbouring YAML files
  from disk.
- Case mapping, `isalpha`/`isalnum` and `strip` are modelled for ASCII only.
  Python's Unicode rules are not modelled.
- Schema values have the types the generator expects. The model does not
  cover these cases:
  - a `fields` value that is not a mapping;
  - a `type` that is not a string;
  - a table definition given as a string;
  - a relationship `name` that is not a string.

  These would make the Python code raise or behave arbitrarily.
- Select and projection columns are (select expression, output name) pairs
  rather than `expr AS name` text. So the `" AS "` split of the nested merge
  is not modelled: every nested column is built with `AS`, so the branch
  without it is not reachable.
- Projection.CollectRelationshipMap: `replace_with` list items are taken as
  strings. The `str(x)` conversion of non-string items is not modelled.
- Python dicts are modelled as ordered sequences of pairs, as follows.
  - A table's `fields` and a loaded mapping keep their keys' insertion order.
  - `select_cols_by_alias` is a sequence of (alias, columns) groups.
    Joins.PlanJoinsWellPlanned proves that its keys are distinct, so the
    sequence equals the dict in insertion order.
- Python objects are modelled as values, so in-place mutation and aliasing are
  not captured. Examples:
  - mutation of the preset dicts, and of each `fdef` by `setdefault`;
  - the identity of the preset objects the output lists share.
- Ui.ResolveAlias: the final `wxEVT_TEXT` fallback of `_normalize_event_name`
  is not modelled. It cannot be reached, because `wx` followed by a name
  starting `EVT_` always starts with `wxEVT_`.
- Ui.ParseTriples: how many triples there are and their order are stated by
  Ui.GoodGroupKept, Ui.BadGroupSkipped and Ui.TriplesIgnoreRemainder, one group
  of three at a time, not as a single closed formula.
- Strings.Split: only the separator-free and round-trip properties are stated,
  not the positions of the cuts.
- `generate_nested_joins`'s `table_name` argument is not modelled, since the
  function never reads it.
- `_collect_relationship_map` on an entry that is not a mapping raises
  (`rel.get`). The model gives an error for it, and
  `RsGenerator.CppModuleGenerator.GetRowsetProjection` passes that error on.
- `collect_all_tables`: the values of a file's `tables` mapping arrive
  already classified. `Schema.TestFields` models the test
  `'fields' not in table_def` on a loaded value: a key of a mapping, an
  element of a list, a substring of a string, raising only for a null,
  boolean or number. A value without `fields` is skipped and the file goes
  on. A raise, or a table name that is not a string (`.endswith` raises),
  ends that file's registrations at that entry. A string or list that passes
  the test is registered as it is by the source; the catalog here holds only
  mapping definitions, so such an entry is not represented. An unreadable
  file contributes nothing.

## Findings

| source | as written | input that shows it | evidently intended | confidence | as-written member | corrected member |
|---|---|---|---|---|---|---|
| filter-presets.py:27-31 | `for inherited in preset.get("inherits", [])` iterates a string `inherits` character by character | a hidden preset `base` with a false condition, then a visible preset with `"inherits": "base"`: no character names a registered preset, so the condition is lost and the visible preset survives | a string `inherits` names one parent, as cmake-presets(7) allows, so the preset inherits the condition and is dropped | not executed | Presets.InheritsStringLosesCondition | Presets.InheritsStringAsDocumented |
| yaml2rs.py:350-365 | `getRowset_impl` builds its own FK→alias map over every relationship. The map starts at `t1` from `{our}`, apart from the JOIN planning | relationships `[one_to_many to orders (foreign_key id), many_to_one author (foreign_key author_id to users.id, replace_with [name])]`: the planner skips the first entry, so the only JOIN is `users t1`, but the map gives the skipped entry `t1` and `author_id` the alias `t2`, so the SELECT reads `t2.name`, an alias no JOIN defines | each replaced foreign key is read through the alias its own JOIN received | not executed | Projection.RowsetAliasMismatch | RsGenerator.CppModuleGenerator.GetRowsetProjectionThroughJoins |
