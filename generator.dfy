/** The state of the record-set generator (`CppModuleGenerator`) and the
    operations that update it or walk the catalog step by step; each is
    proved against the function that specifies it. */
module RsGenerator {
  import opened Strings
  import opened Schema
  import opened Resolver
  import opened Joins
  import opened Projection

  const DefaultMaxJoinDepth: nat := 3

  /** The alias set one JOIN planning shares across its whole recursion
      (`used_aliases`). */
  class AliasScope {
    var aliases: set<string>

    constructor(base: string)
      ensures aliases == {base}
    {
      aliases := {base};
    }
  }

  /** `next_auto_alias`: the first free `tN` from the counter on, and the
      counter just past it. */
  method NextAutoAlias(used: set<string>, counter: nat) returns (alias: string, next: nat)
    ensures alias !in used
    ensures alias == AutoName(FirstFreeAuto(used, counter)) && next == FirstFreeAuto(used, counter) + 1
  {
    var n := counter;
    alias := AutoName(n);
    while alias in used
      invariant counter <= n && alias == AutoName(n)
      invariant FirstFreeAuto(used, n) == FirstFreeAuto(used, counter)
      decreases used - Autos(n)
    {
      AutoStep(used, n);
      n := n + 1;
      alias := AutoName(n);
    }
    next := n + 1;
  }

  lemma AppendAssoc<T>(a: seq<T>, b: seq<T>, c: seq<T>)
    ensures a + (b + c) == a + b + c
  {
  }

  /** The direct columns of a referenced table, one per field in order. */
  method DirectFieldsOf(p: string, fields: seq<(string, FieldDef)>) returns (direct: seq<ResolvedField>)
    ensures direct == DirectFields(p, fields)
  {
    direct := TypedColumnsOf(p, fields, FieldCppType);
    DirectFieldsTyped(p, fields);
  }

  /** The columns of `fields` under the prefix, optional, each typed by `typeOf`. */
  function TypedColumns(p: string, fields: seq<(string, FieldDef)>, typeOf: FieldDef -> string): (r: seq<ResolvedField>)
    ensures |r| == |fields|
    ensures forall i :: 0 <= i < |fields| ==> r[i] == ResolvedField(p + "__" + fields[i].0, typeOf(fields[i].1), false)
  {
    if fields == [] then []
    else [ResolvedField(p + "__" + fields[0].0, typeOf(fields[0].1), false)] + TypedColumns(p, fields[1..], typeOf)
  }

  /** Typed by the type table, these are the direct columns. */
  lemma {:induction false} DirectFieldsTyped(p: string, fields: seq<(string, FieldDef)>)
    ensures TypedColumns(p, fields, FieldCppType) == DirectFields(p, fields)
  {
    if fields != [] {
      DirectFieldsTyped(p, fields[1..]);
    }
  }

  /** The loop over the fields of a referenced table. */
  method TypedColumnsOf(p: string, fields: seq<(string, FieldDef)>, typeOf: FieldDef -> string) returns (direct: seq<ResolvedField>)
    ensures direct == TypedColumns(p, fields, typeOf)
  {
    ghost var spec := TypedColumns(p, fields, typeOf);
    direct := [];
    var i := 0;
    while i < |fields|
      invariant 0 <= i <= |fields| && |direct| == i
      invariant forall k :: 0 <= k < i ==> direct[k] == spec[k]
    {
      direct := direct + [ResolvedField(p + "__" + fields[i].0, typeOf(fields[i].1), false)];
      i := i + 1;
    }
  }

  /** The nested column groups with the relationship's name put in front of
      each column name. */
  method MergeNested(relName: string, nested: seq<(string, seq<SelectColumn>)>) returns (merged: seq<(string, seq<SelectColumn>)>)
    ensures merged == Reprefix(relName, nested)
  {
    ghost var spec := Reprefix(relName, nested);
    merged := [];
    var i := 0;
    while i < |nested|
      invariant 0 <= i <= |nested| && merged == spec[..i]
    {
      var prefixed := PrefixColumns(relName, nested[i].1);
      assert spec[i] == (nested[i].0, prefixed);
      assert spec[..i + 1] == spec[..i] + [spec[i]];
      merged := merged + [(nested[i].0, prefixed)];
      i := i + 1;
    }
    assert spec[..i] == spec;
  }

  /** One nested group's columns with the relationship's name in front. */
  method PrefixColumns(relName: string, cols: seq<SelectColumn>) returns (prefixed: seq<SelectColumn>)
    ensures prefixed == PrefixNames(relName, cols)
  {
    ghost var spec := PrefixNames(relName, cols);
    prefixed := [];
    var k := 0;
    while k < |cols|
      invariant 0 <= k <= |cols| && |prefixed| == k
      invariant forall j :: 0 <= j < k ==> prefixed[j] == spec[j]
    {
      prefixed := prefixed + [SelectColumn(cols[k].alias, cols[k].column, relName + "__" + cols[k].name)];
      k := k + 1;
    }
  }

  /** The base fields of the select list, in order. */
  method BaseColumnsOf(base: string, names: seq<string>) returns (cols: seq<SelectColumn>)
    ensures cols == BaseColumns(base, names)
  {
    ghost var spec := BaseColumns(base, names);
    cols := [];
    var i := 0;
    while i < |names|
      invariant 0 <= i <= |names| && |cols| == i
      invariant forall k :: 0 <= k < i ==> cols[k] == spec[k]
    {
      cols := cols + [SelectColumn(base, names[i], names[i])];
      i := i + 1;
    }
  }

  /** The joined column groups of the select list, one after the other. */
  method FlattenGroups(groups: seq<(string, seq<SelectColumn>)>) returns (cols: seq<SelectColumn>)
    ensures cols == Flatten(groups)
  {
    cols := [];
    var k := 0;
    while k < |groups|
      invariant 0 <= k <= |groups|
      invariant cols + Flatten(groups[k..]) == Flatten(groups)
    {
      assert groups[k..][1..] == groups[k + 1..];
      ghost var rest := Flatten(groups[k + 1..]);
      assert cols + (groups[k].1 + rest) == (cols + groups[k].1) + rest;
      cols := cols + groups[k].1;
      k := k + 1;
    }
    assert groups[k..] == [];
    assert cols + [] == cols;
  }

  /** The projection loop: the base fields in order, each projected on its own. */
  method ProjectColumns(names: seq<string>, infos: seq<RelInfo>, edges: seq<JoinEdge>) returns (projected: seq<Projected>)
    ensures projected == MapJoined(names, infos, edges)
  {
    projected := [];
    var i := 0;
    while i < |names|
      invariant 0 <= i <= |names|
      invariant projected + MapJoined(names[i..], infos, edges) == MapJoined(names, infos, edges)
    {
      assert names[i..][1..] == names[i + 1..];
      projected := projected + [ProjectJoined(names[i], infos, edges)];
      i := i + 1;
    }
  }

  /** The `next_auto_alias` of `generate_get_rowset_impl`: the first free `tN`
      from the counter on, and that same counter (not the one past it). */
  method NextRowsetAlias(used: set<string>, counter: nat) returns (alias: string, next: nat)
    ensures alias !in used
    ensures alias == AutoName(FirstFreeAuto(used, counter)) && next == FirstFreeAuto(used, counter)
  {
    var n := counter;
    alias := AutoName(n);
    while alias in used
      invariant counter <= n && alias == AutoName(n)
      invariant FirstFreeAuto(used, n) == FirstFreeAuto(used, counter)
      decreases used - Autos(n)
    {
      AutoStep(used, n);
      n := n + 1;
      alias := AutoName(n);
    }
    next := n;
  }

  /** The loop that fills `alias_for_fk`: every record in turn, allocating
      from `{our}` and counter 1. */
  method RowsetAliasMapOf(infos: seq<RelInfo>) returns (aliases: map<Option<string>, string>)
    ensures aliases == RowsetAliasMap(infos)
  {
    var used: set<string> := {"our"};
    var n: nat := 1;
    aliases := map[];
    var i := 0;
    while i < |infos|
      invariant 0 <= i <= |infos|
      invariant AliasMapFrom(infos[i..], used, n, aliases) == RowsetAliasMap(infos)
    {
      assert infos[i..][1..] == infos[i + 1..];
      var alias := infos[i].asAlias;
      var chosen: string;
      if !Present(alias) || alias.value in used {
        chosen, n := NextRowsetAlias(used, n);
      } else {
        chosen := alias.value;
      }
      used := used + {chosen};
      aliases := aliases[infos[i].foreignKey := chosen];
      i := i + 1;
    }
  }

  /** The loop that fills `projected_cols` through the alias map. */
  method ProjectColumnsAsWritten(names: seq<string>, infos: seq<RelInfo>, aliases: map<Option<string>, string>)
    returns (projected: seq<Projected>)
    ensures projected == MapAsWritten(names, infos, aliases)
  {
    projected := [];
    var i := 0;
    while i < |names|
      invariant 0 <= i <= |names|
      invariant projected == MapAsWritten(names, infos, aliases)[..i]
    {
      projected := projected + [ProjectAsWritten(names[i], infos, aliases)];
      i := i + 1;
    }
    assert MapAsWritten(names, infos, aliases)[..i] == MapAsWritten(names, infos, aliases);
  }

  class CppModuleGenerator {
    /** Canonical table name to its definition. */
    var allTables: Catalog
    /** Canonical table name to the file it was read from. */
    var tableFiles: map<string, string>
    var maxJoinDepth: nat
    /** The chain steps already resolved since the cache was last cleared. */
    var relationshipCache: Cache

    constructor()
      ensures allTables == map[] && tableFiles == map[] && relationshipCache == map[]
      ensures maxJoinDepth == DefaultMaxJoinDepth
    {
      allTables := map[];
      tableFiles := map[];
      maxJoinDepth := DefaultMaxJoinDepth;
      relationshipCache := map[];
    }

    /** The depth is clamped to at least one. */
    method SetMaxJoinDepth(depth: int)
      modifies this`maxJoinDepth
      ensures 1 <= maxJoinDepth
      ensures depth >= 1 ==> maxJoinDepth == depth
      ensures depth < 1 ==> maxJoinDepth == 1
    {
      maxJoinDepth := if depth < 1 then 1 else depth;
    }

    /** The first pass over the YAML files: every table with fields is
        registered under its canonical name, file by file, a later
        definition overwriting an earlier one. */
    method CollectAllTables(docs: seq<(string, Document)>)
      modifies this`allTables, this`tableFiles
      ensures (allTables, tableFiles) == Register(old(allTables), old(tableFiles), Registrations(docs))
    {
      var i := 0;
      while i < |docs|
        invariant 0 <= i <= |docs|
        invariant (allTables, tableFiles) == Register(old(allTables), old(tableFiles), Registrations(docs[..i]))
      {
        assert docs[..i + 1][..i] == docs[..i];
        RegisterFiles(old(allTables), old(tableFiles), docs[..i + 1]);
        var file := docs[i].0;
        var doc := docs[i].1;
        if doc.Tables? {
          CollectDocument(file, doc.entries);
        }
        i := i + 1;
      }
      assert docs[..|docs|] == docs;
    }

    /** The tables of one file, in order, up to the first malformed entry. */
    method CollectDocument(file: string, entries: seq<(string, TableEntry)>)
      modifies this`allTables, this`tableFiles
      ensures (allTables, tableFiles) == Register(old(allTables), old(tableFiles), DocumentRegistrations(file, entries))
    {
      ghost var target := Register(allTables, tableFiles, DocumentRegistrations(file, entries));
      var j := 0;
      while j < |entries|
        invariant 0 <= j <= |entries|
        invariant Register(allTables, tableFiles, DocumentRegistrations(file, entries[j..])) == target
      {
        assert entries[j..][1..] == entries[j + 1..];
        var name := entries[j].0;
        match entries[j].1 {
          case Malformed =>
            return;
          case WithoutFields =>
          case WithFields(def) =>
            var g := Registration(StripTableSuffix(name), file, def);
            RegisterAppend(allTables, tableFiles, [g], DocumentRegistrations(file, entries[j + 1..]));
            assert [g][..0] == [];
            allTables := allTables[g.name := def];
            tableFiles := tableFiles[g.name := file];
        }
        j := j + 1;
      }
    }

    /** `resolve_relationship_fields`: the related columns, with the cache
        updated as the chain steps are resolved. */
    method ResolveRelationshipFields(rels: seq<RelEntry>, current: string, prefix: string, depth: nat)
      returns (fields: seq<ResolvedField>)
      modifies this`relationshipCache
      decreases maxJoinDepth - depth, 1
      ensures (fields, relationshipCache) == Resolve(allTables, maxJoinDepth, rels, current, prefix, depth, old(relationshipCache))
    {
      if depth >= maxJoinDepth {
        return [];
      }
      ghost var target := ResolveSeq(allTables, maxJoinDepth, rels, current, prefix, depth, relationshipCache);
      fields := [];
      var i := 0;
      while i < |rels|
        invariant 0 <= i <= |rels|
        invariant var rest := ResolveSeq(allTables, maxJoinDepth, rels[i..], current, prefix, depth, relationshipCache);
                  fields + rest.0 == target.0 && rest.1 == target.1
      {
        ghost var before := relationshipCache;
        assert rels[i..][1..] == rels[i + 1..];
        var one := ResolveEntry(rels[i], current, prefix, depth);
        ghost var rest := ResolveSeq(allTables, maxJoinDepth, rels[i + 1..], current, prefix, depth, relationshipCache);
        assert ResolveSeq(allTables, maxJoinDepth, rels[i..], current, prefix, depth, before) == (one + rest.0, rest.1);
        assert fields + (one + rest.0) == fields + one + rest.0;
        fields := fields + one;
        i := i + 1;
      }
      assert rels[|rels|..] == [];
      assert fields + [] == fields;
    }

    /** One iteration of the resolution loop. */
    method ResolveEntry(e: RelEntry, current: string, prefix: string, depth: nat) returns (fields: seq<ResolvedField>)
      requires depth < maxJoinDepth
      modifies this`relationshipCache
      decreases maxJoinDepth - depth, 0
      ensures (fields, relationshipCache) == ResolveOne(allTables, maxJoinDepth, e, current, prefix, depth, old(relationshipCache))
    {
      fields := [];
      if !Followed(e) {
        return;
      }
      var refTable := e.rel.referencesTable.value;
      var norm := StripTableSuffix(refTable);
      var key := CacheKey(current, norm, depth);
      if key in relationshipCache || norm !in allTables {
        return;
      }
      var def := allTables[norm];
      var p := Qualify(prefix, RelName(e.rel, refTable));
      var direct := DirectFieldsOf(p, def.fields);
      fields := direct;
      relationshipCache := relationshipCache[key := direct];
      if def.relationships != [] && depth + 1 < maxJoinDepth {
        var nested := ResolveRelationshipFields(def.relationships, norm, p, depth + 1);
        fields := fields + nested;
      }
    }

    /** The related columns of one module: the cache is cleared first, so
        they depend on the catalog, the depth and the table alone. */
    method ModuleRelatedFields(tableName: string, rels: seq<RelEntry>) returns (fields: seq<ResolvedField>)
      modifies this`relationshipCache
      ensures fields == Resolve(allTables, maxJoinDepth, rels, StripTableSuffix(tableName), "", 0, map[]).0
      ensures relationshipCache == Resolve(allTables, maxJoinDepth, rels, StripTableSuffix(tableName), "", 0, map[]).1
    {
      relationshipCache := map[];
      fields := ResolveRelationshipFields(rels, StripTableSuffix(tableName), "", 0);
    }

    /** `generate_nested_joins`: the JOINs and the column groups of the
        relationships, with every alias taken added to the shared scope. */
    method GenerateNestedJoins(rels: seq<RelEntry>, base: string, depth: nat, scope: AliasScope)
      returns (edges: seq<JoinEdge>, groups: seq<(string, seq<SelectColumn>)>)
      modifies scope
      decreases maxJoinDepth - depth, 1
      ensures var p := PlanJoins(allTables, maxJoinDepth, rels, base, depth, old(scope.aliases));
              edges == p.edges && groups == p.groups && scope.aliases == p.used
    {
      if depth >= maxJoinDepth {
        return [], [];
      }
      var counter: nat := |scope.aliases|;
      ghost var target := PlanSeq(allTables, maxJoinDepth, rels, base, depth, scope.aliases, counter);
      edges, groups := [], [];
      var i := 0;
      while i < |rels|
        invariant 0 <= i <= |rels|
        invariant var rest := PlanSeq(allTables, maxJoinDepth, rels[i..], base, depth, scope.aliases, counter);
                  edges + rest.edges == target.edges && groups + rest.groups == target.groups && rest.used == target.used
      {
        PlanSeqFrom(allTables, maxJoinDepth, rels, base, depth, scope.aliases, counter, i);
        var oneEdges, oneGroups;
        oneEdges, oneGroups, counter := PlanEntry(rels[i], base, depth, scope, counter);
        ghost var rest := PlanSeq(allTables, maxJoinDepth, rels[i + 1..], base, depth, scope.aliases, counter);
        AppendAssoc(edges, oneEdges, rest.edges);
        AppendAssoc(groups, oneGroups, rest.groups);
        edges := edges + oneEdges;
        groups := groups + oneGroups;
        i := i + 1;
      }
      assert rels[|rels|..] == [];
      assert edges + [] == edges && groups + [] == groups;
    }

    /** One iteration of the JOIN loop: the alias, the JOIN, and for a table
        the catalog has, its columns and its own relationships one level deeper. */
    method PlanEntry(e: RelEntry, base: string, depth: nat, scope: AliasScope, counter: nat)
      returns (edges: seq<JoinEdge>, groups: seq<(string, seq<SelectColumn>)>, next: nat)
      requires depth < maxJoinDepth
      modifies scope
      decreases maxJoinDepth - depth, 0
      ensures var r := PlanOne(allTables, maxJoinDepth, e, base, depth, old(scope.aliases), counter);
              edges == r.0.edges && groups == r.0.groups && scope.aliases == r.0.used && next == r.1
    {
      edges, groups, next := [], [], counter;
      if !Joinable(e) {
        return;
      }
      var rel := e.rel;
      var alias: string;
      if Present(rel.alias) {
        alias := rel.alias.value;
        if alias in scope.aliases {
          alias, next := NextAutoAlias(scope.aliases, next);
        }
      } else {
        alias, next := NextAutoAlias(scope.aliases, next);
      }
      scope.aliases := scope.aliases + {alias};
      var refTable := rel.referencesTable.value;
      var relName := RelName(rel, refTable);
      edges := [JoinEdge(KindOf(rel.join), refTable, alias, base, rel.foreignKey.value, rel.referencesField.value)];
      var norm := StripTableSuffix(refTable);
      if norm in allTables {
        var def := allTables[norm];
        groups := [(alias, OwnColumns(alias, relName, FieldNames(def.fields)))];
        if def.relationships != [] && depth + 1 < maxJoinDepth {
          var nestedEdges, nestedGroups := GenerateNestedJoins(def.relationships, alias, depth + 1, scope);
          var merged := MergeNested(relName, nestedGroups);
          edges := edges + nestedEdges;
          groups := groups + merged;
        }
      }
    }

    /** The column list of `selectRecords_impl`. */
    method GenerateSelectColumns(fields: seq<(string, FieldDef)>, rels: seq<RelEntry>) returns (cols: seq<SelectColumn>)
      ensures cols == SelectColumns(allTables, maxJoinDepth, fields, rels)
    {
      cols := BaseColumnsOf("our", FieldNames(fields));
      var scope := new AliasScope("our");
      var _, groups := GenerateNestedJoins(rels, "our", 0, scope);
      var joined := FlattenGroups(groups);
      cols := cols + joined;
    }

    /** `generate_get_rowset_impl` as written: the JOINs of the statement, and
        the column list read through the alias map it builds on its own. */
    method GetRowsetProjection(fields: seq<(string, FieldDef)>, rels: seq<RelEntry>)
      returns (edges: seq<JoinEdge>, r: Result<seq<Projected>>)
      ensures edges == PlanJoins(allTables, maxJoinDepth, rels, "our", 0, {"our"}).edges
      ensures r == RowsetProjectionAsWritten(FieldNames(fields), rels)
    {
      var scope := new AliasScope("our");
      var groups;
      edges, groups := GenerateNestedJoins(rels, "our", 0, scope);
      var infos := CollectRelationshipMap(rels);
      if infos.Err? {
        return edges, Err(infos.msg);
      }
      var aliases := RowsetAliasMapOf(infos.value);
      var projected := ProjectColumnsAsWritten(FieldNames(fields), infos.value, aliases);
      return edges, Ok(projected);
    }

    /** The corrected column list: each replaced foreign key read through the
        alias the statement's own JOIN gives its relationship. */
    method GetRowsetProjectionThroughJoins(fields: seq<(string, FieldDef)>, rels: seq<RelEntry>)
      returns (edges: seq<JoinEdge>, r: Result<seq<Projected>>)
      ensures edges == PlanJoins(allTables, maxJoinDepth, rels, "our", 0, {"our"}).edges
      ensures r == RowsetProjection(allTables, maxJoinDepth, FieldNames(fields), rels)
    {
      var scope := new AliasScope("our");
      var groups;
      edges, groups := GenerateNestedJoins(rels, "our", 0, scope);
      var infos := CollectRelationshipMap(rels);
      if infos.Err? {
        return edges, Err(infos.msg);
      }
      var projected := ProjectColumns(FieldNames(fields), infos.value, edges);
      return edges, Ok(projected);
    }
  }
}
