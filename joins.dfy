/** The JOIN clauses and joined select columns of a record set's SELECT,
    planned from its many-to-one relationships through the catalog up to
    the maximum join depth. Table aliases come from one set shared by all
    levels: an explicit `as` when it is still free, otherwise the first free
    `tN`. Column groups are kept in insertion order, as the generator's
    alias-to-columns dict is. */
module Joins {
  import opened Strings
  import opened Schema

  datatype JoinKind = Left | Inner

  /** `<kind> JOIN <table> <alias> ON <baseAlias>.<fk> = <alias>.<refField>` */
  datatype JoinEdge = JoinEdge(kind: JoinKind, table: string, alias: string, baseAlias: string, fk: string, refField: string)

  /** `<alias>.<column> AS <name>` */
  datatype SelectColumn = SelectColumn(alias: string, column: string, name: string)

  /** The JOIN lines, the column groups by alias, and the aliases taken so far. */
  datatype Plan = Plan(edges: seq<JoinEdge>, groups: seq<(string, seq<SelectColumn>)>, used: set<string>)

  function JoinLine(e: JoinEdge): string
  {
    (if e.kind == Inner then "INNER" else "LEFT") + " JOIN " + e.table + " " + e.alias +
    " ON " + e.baseAlias + "." + e.fk + " = " + e.alias + "." + e.refField
  }

  function RenderColumn(c: SelectColumn): string
  {
    c.alias + "." + c.column + " AS " + c.name
  }

  /** The join keyword: INNER only for a `join` that lower-cases to `inner`. */
  function KindOf(join: Option<string>): (k: JoinKind)
    ensures k == Inner <==> join.Some? && Lower(join.value) == "inner"
  {
    var j := if join.Some? then Lower(join.value) else "";
    if j == "inner" then Inner else Left
  }

  // ------------------------------------------------------------------ automatic aliases

  function AutoName(n: nat): string
  {
    "t" + NatToString(n)
  }

  lemma AutoNameInjective(a: nat, b: nat)
    requires AutoName(a) == AutoName(b)
    ensures a == b
  {
    assert AutoName(a)[1..] == NatToString(a) && AutoName(b)[1..] == NatToString(b);
    NatToStringInjective(a, b);
  }

  ghost function Autos(n: nat): set<string>
  {
    set j | 0 <= j < n :: AutoName(j)
  }

  lemma AutoStep(used: set<string>, n: nat)
    requires AutoName(n) in used
    ensures used - Autos(n + 1) < used - Autos(n)
  {
    assert AutoName(n) in Autos(n + 1);
    if AutoName(n) in Autos(n) {
      var j :| 0 <= j < n && AutoName(j) == AutoName(n);
      AutoNameInjective(j, n);
    }
  }

  /** The first counter from `n` on whose `tN` is not taken. */
  function FirstFreeAuto(used: set<string>, n: nat): (k: nat)
    ensures n <= k && AutoName(k) !in used
    ensures forall j :: n <= j < k ==> AutoName(j) in used
    decreases used - Autos(n)
  {
    if AutoName(n) !in used then n
    else
      AutoStep(used, n);
      FirstFreeAuto(used, n + 1)
  }

  // ------------------------------------------------------------------ the plan

  /** An entry that gets a JOIN: a many-to-one mapping with a foreign key,
      a referenced table and a referenced field. */
  predicate Joinable(e: RelEntry)
  {
    e.Rel? && e.rel.kind == Some("many_to_one") &&
    Present(e.rel.foreignKey) && Present(e.rel.referencesTable) && Present(e.rel.referencesField)
  }

  /** The alias of a joined relationship and the counter after it. */
  function ChooseAlias(explicit: Option<string>, used: set<string>, counter: nat): (r: (string, nat))
    ensures r.0 !in used
    ensures r.0 == (if Present(explicit) then explicit.value else "") <==> Present(explicit) && explicit.value !in used
    ensures Present(explicit) && explicit.value !in used ==> r.1 == counter
    ensures !(Present(explicit) && explicit.value !in used) ==>
              r == (AutoName(FirstFreeAuto(used, counter)), FirstFreeAuto(used, counter) + 1)
  {
    if Present(explicit) && explicit.value !in used then (explicit.value, counter)
    else
      var k := FirstFreeAuto(used, counter);
      assert AutoName(k) != [];
      (AutoName(k), k + 1)
  }

  /** The joined columns of a table: `<alias>.<col> AS <rel>__<col>` per field. */
  function OwnColumns(alias: string, relName: string, cols: seq<string>): (r: seq<SelectColumn>)
    ensures |r| == |cols|
    ensures forall i :: 0 <= i < |cols| ==> r[i] == SelectColumn(alias, cols[i], relName + "__" + cols[i])
  {
    if cols == [] then [] else [SelectColumn(alias, cols[0], relName + "__" + cols[0])] + OwnColumns(alias, relName, cols[1..])
  }

  /** Nested column names gain the relationship's name as a prefix. */
  function Reprefix(relName: string, groups: seq<(string, seq<SelectColumn>)>): (r: seq<(string, seq<SelectColumn>)>)
    ensures |r| == |groups|
    ensures forall i :: 0 <= i < |groups| ==> r[i] == (groups[i].0, PrefixNames(relName, groups[i].1))
  {
    if groups == [] then []
    else [(groups[0].0, PrefixNames(relName, groups[0].1))] + Reprefix(relName, groups[1..])
  }

  function PrefixNames(relName: string, cols: seq<SelectColumn>): (r: seq<SelectColumn>)
    ensures |r| == |cols|
    ensures forall k :: 0 <= k < |cols| ==> r[k] == SelectColumn(cols[k].alias, cols[k].column, relName + "__" + cols[k].name)
  {
    if cols == [] then [] else [SelectColumn(cols[0].alias, cols[0].column, relName + "__" + cols[0].name)] + PrefixNames(relName, cols[1..])
  }

  /** `generate_nested_joins(relationships, base_alias, depth, used_aliases)`;
      the counter starts at the number of aliases taken. */
  function PlanJoins(cat: Catalog, maxDepth: nat, rels: seq<RelEntry>, base: string, depth: nat, used: set<string>): (p: Plan)
    decreases maxDepth - depth, 2, 0
  {
    if depth >= maxDepth then Plan([], [], used)
    else PlanSeq(cat, maxDepth, rels, base, depth, used, |used|)
  }

  function PlanSeq(cat: Catalog, maxDepth: nat, rels: seq<RelEntry>, base: string, depth: nat, used: set<string>, counter: nat): (p: Plan)
    requires depth < maxDepth
    decreases maxDepth - depth, 1, |rels|
  {
    if rels == [] then Plan([], [], used)
    else
      var first := PlanOne(cat, maxDepth, rels[0], base, depth, used, counter);
      var rest := PlanSeq(cat, maxDepth, rels[1..], base, depth, first.0.used, first.1);
      Plan(first.0.edges + rest.edges, first.0.groups + rest.groups, rest.used)
  }

  /** The plan of the entries from `i` on: entry `i`, then those after it. */
  lemma PlanSeqFrom(cat: Catalog, maxDepth: nat, rels: seq<RelEntry>, base: string, depth: nat, used: set<string>, counter: nat, i: nat)
    requires depth < maxDepth && i < |rels|
    ensures var first := PlanOne(cat, maxDepth, rels[i], base, depth, used, counter);
            var rest := PlanSeq(cat, maxDepth, rels[i + 1..], base, depth, first.0.used, first.1);
            PlanSeq(cat, maxDepth, rels[i..], base, depth, used, counter)
              == Plan(first.0.edges + rest.edges, first.0.groups + rest.groups, rest.used)
  {
    assert rels[i..][0] == rels[i] && rels[i..][1..] == rels[i + 1..];
  }

  /** One loop iteration: the JOIN of a joinable entry, then, for a table the
      catalog has, its columns and the plan of its own relationships one level
      deeper with their column names prefixed by the relationship's name. */
  function PlanOne(cat: Catalog, maxDepth: nat, e: RelEntry, base: string, depth: nat, used: set<string>, counter: nat): (r: (Plan, nat))
    requires depth < maxDepth
    decreases maxDepth - depth, 0, 0
  {
    if !Joinable(e) then (Plan([], [], used), counter)
    else
      var rel := e.rel;
      var refTable := rel.referencesTable.value;
      var chosen := ChooseAlias(rel.alias, used, counter);
      var alias := chosen.0;
      var used1 := used + {alias};
      var relName := RelName(rel, refTable);
      var edge := JoinEdge(KindOf(rel.join), refTable, alias, base, rel.foreignKey.value, rel.referencesField.value);
      var norm := StripTableSuffix(refTable);
      if norm !in cat then (Plan([edge], [], used1), chosen.1)
      else
        var def := cat[norm];
        var own := (alias, OwnColumns(alias, relName, FieldNames(def.fields)));
        if def.relationships != [] && depth + 1 < maxDepth then
          var nested := PlanJoins(cat, maxDepth, def.relationships, alias, depth + 1, used1);
          (Plan([edge] + nested.edges, [own] + Reprefix(relName, nested.groups), nested.used), chosen.1)
        else (Plan([edge], [own], used1), chosen.1)
  }

  // ------------------------------------------------------------------ what every plan satisfies

  ghost function EdgeAliases(edges: seq<JoinEdge>): set<string>
  {
    set i | 0 <= i < |edges| :: edges[i].alias
  }

  /** Aliases are pairwise distinct and were free before. */
  ghost predicate FreshAliases(p: Plan, used: set<string>)
  {
    (forall i, j :: 0 <= i < j < |p.edges| ==> p.edges[i].alias != p.edges[j].alias) &&
    (forall i :: 0 <= i < |p.edges| ==> p.edges[i].alias !in used) &&
    p.used == used + EdgeAliases(p.edges)
  }

  /** Every JOIN attaches to the base alias or to the alias of an earlier JOIN. */
  ghost predicate Attached(p: Plan, base: string)
  {
    forall i :: 0 <= i < |p.edges| ==>
      p.edges[i].baseAlias == base || exists j :: 0 <= j < i && p.edges[j].alias == p.edges[i].baseAlias
  }

  /** Column groups have distinct keys, each the alias of a JOIN, and every
      column of a group is read from that alias. */
  ghost predicate GroupsJoined(p: Plan)
  {
    (forall i, j :: 0 <= i < j < |p.groups| ==> p.groups[i].0 != p.groups[j].0) &&
    (forall i :: 0 <= i < |p.groups| ==> p.groups[i].0 in EdgeAliases(p.edges)) &&
    (forall i, k :: 0 <= i < |p.groups| && 0 <= k < |p.groups[i].1| ==> p.groups[i].1[k].alias == p.groups[i].0)
  }

  ghost predicate WellPlanned(p: Plan, used: set<string>, base: string)
  {
    FreshAliases(p, used) && Attached(p, base) && GroupsJoined(p)
  }

  lemma EdgeAliasesAppend(a: seq<JoinEdge>, b: seq<JoinEdge>)
    ensures EdgeAliases(a + b) == EdgeAliases(a) + EdgeAliases(b)
  {
    forall x | x in EdgeAliases(a) + EdgeAliases(b) ensures x in EdgeAliases(a + b) {
      if x in EdgeAliases(b) {
        var i :| 0 <= i < |b| && b[i].alias == x;
        assert (a + b)[|a| + i] == b[i];
      } else {
        var i :| 0 <= i < |a| && a[i].alias == x;
        assert (a + b)[i] == a[i];
      }
    }
  }

  lemma FreshAppend(p1: Plan, p2: Plan, used: set<string>)
    requires FreshAliases(p1, used) && FreshAliases(p2, p1.used)
    ensures FreshAliases(Plan(p1.edges + p2.edges, p1.groups + p2.groups, p2.used), used)
  {
    EdgeAliasesAppend(p1.edges, p2.edges);
    var es := p1.edges + p2.edges;
    forall i, j | 0 <= i < j < |es| ensures es[i].alias != es[j].alias {
      if j >= |p1.edges| && i < |p1.edges| {
        assert es[i].alias in EdgeAliases(p1.edges);
        assert es[j] == p2.edges[j - |p1.edges|];
      } else if i >= |p1.edges| {
        assert es[i] == p2.edges[i - |p1.edges|] && es[j] == p2.edges[j - |p1.edges|];
      }
    }
    forall i | 0 <= i < |es| ensures es[i].alias !in used {
      if i >= |p1.edges| {
        assert es[i] == p2.edges[i - |p1.edges|];
      }
    }
  }

  lemma AttachedAppend(p1: Plan, p2: Plan, base: string, base2: string)
    requires Attached(p1, base) && Attached(p2, base2)
    requires base2 == base || base2 in EdgeAliases(p1.edges)
    ensures Attached(Plan(p1.edges + p2.edges, p1.groups + p2.groups, p2.used), base)
  {
    var es := p1.edges + p2.edges;
    forall i | 0 <= i < |es|
      ensures es[i].baseAlias == base || exists j :: 0 <= j < i && es[j].alias == es[i].baseAlias
    {
      if i < |p1.edges| {
        assert es[i] == p1.edges[i];
        if es[i].baseAlias != base {
          var j :| 0 <= j < i && p1.edges[j].alias == p1.edges[i].baseAlias;
          assert es[j] == p1.edges[j];
        }
      } else {
        var i2 := i - |p1.edges|;
        assert es[i] == p2.edges[i2];
        if p2.edges[i2].baseAlias == base2 {
          if base2 != base {
            var j :| 0 <= j < |p1.edges| && p1.edges[j].alias == base2;
            assert es[j] == p1.edges[j];
          }
        } else {
          var j :| 0 <= j < i2 && p2.edges[j].alias == p2.edges[i2].baseAlias;
          assert es[|p1.edges| + j] == p2.edges[j];
        }
      }
    }
  }

  lemma GroupsAppend(p1: Plan, p2: Plan, used: set<string>)
    requires GroupsJoined(p1) && GroupsJoined(p2) && FreshAliases(p1, used) && FreshAliases(p2, p1.used)
    ensures GroupsJoined(Plan(p1.edges + p2.edges, p1.groups + p2.groups, p2.used))
  {
    EdgeAliasesAppend(p1.edges, p2.edges);
    var gs := p1.groups + p2.groups;
    forall i | 0 <= i < |gs| ensures gs[i].0 in EdgeAliases(p1.edges + p2.edges) {
      if i >= |p1.groups| {
        assert gs[i] == p2.groups[i - |p1.groups|];
      }
    }
    forall i, j | 0 <= i < j < |gs| ensures gs[i].0 != gs[j].0 {
      if i < |p1.groups| && j >= |p1.groups| {
        assert gs[j] == p2.groups[j - |p1.groups|];
        var k :| 0 <= k < |p2.edges| && p2.edges[k].alias == gs[j].0;
        assert gs[j].0 !in p1.used;
      } else if i >= |p1.groups| {
        assert gs[i] == p2.groups[i - |p1.groups|] && gs[j] == p2.groups[j - |p1.groups|];
      }
    }
    forall i, k | 0 <= i < |gs| && 0 <= k < |gs[i].1| ensures gs[i].1[k].alias == gs[i].0 {
      if i >= |p1.groups| {
        assert gs[i] == p2.groups[i - |p1.groups|];
      }
    }
  }

  lemma WellPlannedAppend(p1: Plan, p2: Plan, used: set<string>, base: string, base2: string)
    requires WellPlanned(p1, used, base) && WellPlanned(p2, p1.used, base2)
    requires base2 == base || base2 in EdgeAliases(p1.edges)
    ensures WellPlanned(Plan(p1.edges + p2.edges, p1.groups + p2.groups, p2.used), used, base)
  {
    FreshAppend(p1, p2, used);
    AttachedAppend(p1, p2, base, base2);
    GroupsAppend(p1, p2, used);
  }

  lemma ReprefixKeepsGroups(p: Plan, relName: string)
    requires GroupsJoined(p)
    ensures GroupsJoined(Plan(p.edges, Reprefix(relName, p.groups), p.used))
  {
  }

  /** Every plan takes only fresh, pairwise distinct aliases, recorded in the
      returned alias set; attaches every JOIN to the base alias or to an
      earlier JOIN; and reads each column group from the alias of one of its
      JOINs, so the groups' keys are distinct. */
  lemma {:induction false} PlanJoinsWellPlanned(cat: Catalog, maxDepth: nat, rels: seq<RelEntry>, base: string, depth: nat, used: set<string>)
    ensures WellPlanned(PlanJoins(cat, maxDepth, rels, base, depth, used), used, base)
    decreases maxDepth - depth, 2, 0
  {
    if depth < maxDepth {
      PlanSeqWellPlanned(cat, maxDepth, rels, base, depth, used, |used|);
    }
  }

  lemma {:induction false} PlanSeqWellPlanned(cat: Catalog, maxDepth: nat, rels: seq<RelEntry>, base: string, depth: nat, used: set<string>, counter: nat)
    requires depth < maxDepth
    ensures WellPlanned(PlanSeq(cat, maxDepth, rels, base, depth, used, counter), used, base)
    decreases maxDepth - depth, 1, |rels|
  {
    if rels != [] {
      var first := PlanOne(cat, maxDepth, rels[0], base, depth, used, counter);
      PlanOneWellPlanned(cat, maxDepth, rels[0], base, depth, used, counter);
      PlanSeqWellPlanned(cat, maxDepth, rels[1..], base, depth, first.0.used, first.1);
      var rest := PlanSeq(cat, maxDepth, rels[1..], base, depth, first.0.used, first.1);
      WellPlannedAppend(first.0, rest, used, base, base);
    }
  }

  lemma {:induction false} PlanOneWellPlanned(cat: Catalog, maxDepth: nat, e: RelEntry, base: string, depth: nat, used: set<string>, counter: nat)
    requires depth < maxDepth
    ensures WellPlanned(PlanOne(cat, maxDepth, e, base, depth, used, counter).0, used, base)
    decreases maxDepth - depth, 0, 0
  {
    if Joinable(e) {
      var rel := e.rel;
      var refTable := rel.referencesTable.value;
      var chosen := ChooseAlias(rel.alias, used, counter);
      var alias := chosen.0;
      var used1 := used + {alias};
      var relName := RelName(rel, refTable);
      var edge := JoinEdge(KindOf(rel.join), refTable, alias, base, rel.foreignKey.value, rel.referencesField.value);
      var norm := StripTableSuffix(refTable);
      assert EdgeAliases([edge]) == {alias} by {
        assert [edge][0].alias == alias;
      }
      if norm in cat {
        var def := cat[norm];
        var own := (alias, OwnColumns(alias, relName, FieldNames(def.fields)));
        var single := Plan([edge], [own], used1);
        assert WellPlanned(single, used, base);
        if def.relationships != [] && depth + 1 < maxDepth {
          var nested := PlanJoins(cat, maxDepth, def.relationships, alias, depth + 1, used1);
          PlanJoinsWellPlanned(cat, maxDepth, def.relationships, alias, depth + 1, used1);
          var moved := Plan(nested.edges, Reprefix(relName, nested.groups), nested.used);
          ReprefixKeepsGroups(nested, relName);
          WellPlannedAppend(single, moved, used, base, alias);
        }
      }
    }
  }

  // ------------------------------------------------------------------ aliases chosen

  /** A joinable entry's JOIN comes first in its part of the plan, from the
      base alias, using its explicit `as` exactly when that alias is still free. */
  lemma ExplicitAliasWhenFree(cat: Catalog, maxDepth: nat, e: RelEntry, base: string, depth: nat, used: set<string>, counter: nat)
    requires depth < maxDepth && Joinable(e)
    ensures var p := PlanOne(cat, maxDepth, e, base, depth, used, counter).0;
            p.edges != [] &&
            p.edges[0].baseAlias == base && p.edges[0].fk == e.rel.foreignKey.value &&
            p.edges[0].table == e.rel.referencesTable.value && p.edges[0].refField == e.rel.referencesField.value &&
            (Present(e.rel.alias) && p.edges[0].alias == e.rel.alias.value <==> Present(e.rel.alias) && e.rel.alias.value !in used) &&
            p.edges[0].alias !in used
    ensures var r := PlanOne(cat, maxDepth, e, base, depth, used, counter);
            if Present(e.rel.alias) && e.rel.alias.value !in used then r.1 == counter
            else r.0.edges[0].alias == AutoName(FirstFreeAuto(used, counter)) && r.1 == FirstFreeAuto(used, counter) + 1
  {
  }

  /** Without explicit aliases, the first JOIN below the base alias is `t1`. */
  lemma FirstAutoAliasIsT1(cat: Catalog, maxDepth: nat, e: RelEntry, rest: seq<RelEntry>, base: string)
    requires 1 <= maxDepth && Joinable(e) && !Present(e.rel.alias) && base != "t1"
    ensures var p := PlanJoins(cat, maxDepth, [e] + rest, base, 0, {base});
            p.edges != [] && p.edges[0].alias == "t1"
  {
    var rels := [e] + rest;
    assert |{base}| == 1;
    assert AutoName(1) == "t1";
    assert FirstFreeAuto({base}, 1) == 1;
    assert ChooseAlias(e.rel.alias, {base}, 1).0 == "t1";
    assert rels[0] == e;
    var first := PlanOne(cat, maxDepth, e, base, 0, {base}, 1);
    assert first.0.edges[0].alias == "t1";
    var p := PlanSeq(cat, maxDepth, rels, base, 0, {base}, 1);
    var tail := PlanSeq(cat, maxDepth, rels[1..], base, 0, first.0.used, first.1);
    assert p.edges == first.0.edges + tail.edges;
  }

  /** Some JOIN attaches `rel` to `base` on its own foreign key, table and referenced field. */
  ghost predicate JoinsFrom(edges: seq<JoinEdge>, base: string, rel: Relationship)
  {
    exists k :: 0 <= k < |edges| && edges[k].baseAlias == base && Some(edges[k].fk) == rel.foreignKey &&
                Some(edges[k].table) == rel.referencesTable && Some(edges[k].refField) == rel.referencesField
  }

  /** Each joinable entry of the top level gets a JOIN from the base alias on
      its own foreign key, table and referenced field. */
  lemma {:induction false} JoinedAtTopLevel(cat: Catalog, maxDepth: nat, rels: seq<RelEntry>, base: string, depth: nat, used: set<string>, counter: nat, i: nat)
    requires depth < maxDepth && i < |rels| && Joinable(rels[i])
    ensures JoinsFrom(PlanSeq(cat, maxDepth, rels, base, depth, used, counter).edges, base, rels[i].rel)
  {
    var first := PlanOne(cat, maxDepth, rels[0], base, depth, used, counter);
    var rest := PlanSeq(cat, maxDepth, rels[1..], base, depth, first.0.used, first.1);
    var p := PlanSeq(cat, maxDepth, rels, base, depth, used, counter);
    assert p.edges == first.0.edges + rest.edges;
    if i == 0 {
      ExplicitAliasWhenFree(cat, maxDepth, rels[0], base, depth, used, counter);
      assert p.edges[0] == first.0.edges[0];
    } else {
      assert rels[1..][i - 1] == rels[i];
      JoinedAtTopLevel(cat, maxDepth, rels[1..], base, depth, first.0.used, first.1, i - 1);
      var k :| 0 <= k < |rest.edges| && rest.edges[k].baseAlias == base && Some(rest.edges[k].fk) == rels[i].rel.foreignKey &&
               Some(rest.edges[k].table) == rels[i].rel.referencesTable && Some(rest.edges[k].refField) == rels[i].rel.referencesField;
      assert p.edges[|first.0.edges| + k] == rest.edges[k];
    }
  }

  // ------------------------------------------------------------------ the select list

  function Flatten(groups: seq<(string, seq<SelectColumn>)>): (r: seq<SelectColumn>)
    ensures forall c :: c in r <==> exists i :: 0 <= i < |groups| && c in groups[i].1
  {
    if groups == [] then []
    else
      var rest := Flatten(groups[1..]);
      assert forall i :: 1 <= i < |groups| ==> groups[i] == groups[1..][i - 1];
      groups[0].1 + rest
  }

  /** `our.<col> AS <col>` per base field. */
  function BaseColumns(base: string, cols: seq<string>): (r: seq<SelectColumn>)
    ensures |r| == |cols|
    ensures forall i :: 0 <= i < |cols| ==> r[i] == SelectColumn(base, cols[i], cols[i])
  {
    if cols == [] then [] else [SelectColumn(base, cols[0], cols[0])] + BaseColumns(base, cols[1..])
  }

  /** The columns of `selectRecords_impl`: the base fields in order, then
      every joined column group in insertion order. */
  function SelectColumns(cat: Catalog, maxDepth: nat, fields: seq<(string, FieldDef)>, rels: seq<RelEntry>): seq<SelectColumn>
  {
    BaseColumns("our", FieldNames(fields)) + Flatten(PlanJoins(cat, maxDepth, rels, "our", 0, {"our"}).groups)
  }

  /** The select list starts with the base fields in declaration order, and
      every selected column reads from `our` or from the alias of one of the
      JOINs emitted with it. */
  lemma SelectColumnsJoined(cat: Catalog, maxDepth: nat, fields: seq<(string, FieldDef)>, rels: seq<RelEntry>)
    ensures var s := SelectColumns(cat, maxDepth, fields, rels);
            |fields| <= |s| && (forall i :: 0 <= i < |fields| ==> s[i] == SelectColumn("our", fields[i].0, fields[i].0))
    ensures forall c :: c in SelectColumns(cat, maxDepth, fields, rels) ==>
              c.alias == "our" || c.alias in EdgeAliases(PlanJoins(cat, maxDepth, rels, "our", 0, {"our"}).edges)
  {
    var p := PlanJoins(cat, maxDepth, rels, "our", 0, {"our"});
    PlanJoinsWellPlanned(cat, maxDepth, rels, "our", 0, {"our"});
    var base := BaseColumns("our", FieldNames(fields));
    var s := SelectColumns(cat, maxDepth, fields, rels);
    assert forall i :: 0 <= i < |fields| ==> s[i] == base[i];
    forall c | c in s ensures c.alias == "our" || c.alias in EdgeAliases(p.edges) {
      if c !in base {
        assert c in Flatten(p.groups);
        var i :| 0 <= i < |p.groups| && c in p.groups[i].1;
        var k :| 0 <= k < |p.groups[i].1| && p.groups[i].1[k] == c;
        assert p.groups[i].0 in EdgeAliases(p.edges);
        assert c.alias == p.groups[i].0;
      }
    }
  }
}
