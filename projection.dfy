/** The projection of `getRowset_impl`: the base table's columns in order,
    with a foreign key that a relationship's `replace_with` names replaced
    by the referenced column(s) of that relationship's joined table. */
module Projection {
  import opened Strings
  import opened Schema
  import opened Joins

  /** The normalized record of one relationship entry (`_collect_relationship_map`). */
  datatype RelInfo = RelInfo(
    name: Option<string>,
    kind: Option<string>,
    foreignKey: Option<string>,
    referencesTable: Option<string>,
    referencesField: Option<string>,
    replaceWith: Option<seq<string>>,
    asAlias: Option<string>,
    replaceAs: Option<string>)

  /** A list stays a list, a string becomes a one-element list, anything else is `None`. */
  function ReplaceList(rw: ReplaceWith): Option<seq<string>>
  {
    match rw
    case RwList(items) => Some(items)
    case RwString(s) => Some([s])
    case _ => None
  }

  function InfoOf(rel: Relationship): RelInfo
  {
    RelInfo(rel.name, rel.kind, rel.foreignKey, rel.referencesTable, rel.referencesField,
            ReplaceList(rel.replaceWith), rel.alias, rel.replaceAs)
  }

  /** `_collect_relationship_map`: one record per entry, in order; an entry
      that is not a mapping fails the whole call. */
  function CollectRelationshipMap(rels: seq<RelEntry>): (r: Result<seq<RelInfo>>)
    ensures r.Ok? <==> forall i :: 0 <= i < |rels| ==> rels[i].Rel?
    ensures r.Ok? ==> |r.value| == |rels| && forall i :: 0 <= i < |rels| ==> r.value[i] == InfoOf(rels[i].rel)
  {
    if rels == [] then Ok([])
    else if rels[0].NotMapping? then Err("AttributeError: relationship entry is not a mapping")
    else
      var rest := CollectRelationshipMap(rels[1..]);
      assert forall i :: 1 <= i < |rels| ==> rels[i] == rels[1..][i - 1];
      if rest.Err? then rest else Ok([InfoOf(rels[0].rel)] + rest.value)
  }

  // ------------------------------------------------------------------ the projected columns

  /** Where a projected column comes from: the base table, or the listed
      columns of a joined alias (joined by `|| ' ' ||` when there are several). */
  datatype Source = OwnColumn(col: string) | Substituted(alias: string, columns: seq<string>)

  datatype Projected = Projected(source: Source, name: string)

  function Render(p: Projected): string
  {
    var expr := match p.source
      case OwnColumn(c) => "our." + c
      case Substituted(a, cs) => Join(" || ' ' || ", Qualified(a, cs));
    expr + " AS " + p.name
  }

  function Qualified(a: string, cs: seq<string>): (r: seq<string>)
    ensures |r| == |cs| && forall i :: 0 <= i < |cs| ==> r[i] == a + "." + cs[i]
  {
    if cs == [] then [] else [a + "." + cs[0]] + Qualified(a, cs[1..])
  }

  /** A record that replaces base column `col`: its foreign key is `col`
      and its `replace_with` list is not empty. */
  predicate Replaces(info: RelInfo, col: string)
  {
    info.foreignKey == Some(col) && info.replaceWith.Some? && info.replaceWith.value != []
  }

  /** The first record replacing `col`, if any. */
  function FindReplacement(infos: seq<RelInfo>, col: string): (r: Option<(nat, RelInfo)>)
    ensures r.None? <==> forall i :: 0 <= i < |infos| ==> !Replaces(infos[i], col)
    ensures r.Some? ==> r.value.0 < |infos| && infos[r.value.0] == r.value.1 && Replaces(r.value.1, col) &&
                        forall i :: 0 <= i < r.value.0 ==> !Replaces(infos[i], col)
  {
    if infos == [] then None
    else if Replaces(infos[0], col) then Some((0, infos[0]))
    else
      var rest := FindReplacement(infos[1..], col);
      assert forall i :: 1 <= i < |infos| ==> infos[i] == infos[1..][i - 1];
      if rest.None? then None else Some((rest.value.0 + 1, rest.value.1))
  }

  /** `replace_as or col` */
  function OutName(info: RelInfo, col: string): string
  {
    if Present(info.replaceAs) then info.replaceAs.value else col
  }

  // ------------------------------------------------------------------ the alias map as written

  /** The alias map of `generate_get_rowset_impl`: a second allocation over
      EVERY record (joined or not) from `{our}` and counter 1; an explicit
      `as` is taken when free, and a later record for the same foreign key
      overwrites an earlier one. */
  function AliasMapFrom(infos: seq<RelInfo>, used: set<string>, n: nat, m: map<Option<string>, string>): (r: map<Option<string>, string>)
    decreases |infos|
  {
    if infos == [] then m
    else
      var a := infos[0].asAlias;
      var chosen: (string, nat) :=
        if !Present(a) || a.value in used then (AutoName(FirstFreeAuto(used, n)), FirstFreeAuto(used, n))
        else (a.value, n);
      AliasMapFrom(infos[1..], used + {chosen.0}, chosen.1, m[infos[0].foreignKey := chosen.0])
  }

  function RowsetAliasMap(infos: seq<RelInfo>): map<Option<string>, string>
  {
    AliasMapFrom(infos, {"our"}, 1, map[])
  }

  /** Every record's foreign key gets a non-empty alias, so the projection's
      fallback for a missing alias is never taken. */
  lemma {:induction false} AliasMapCovers(infos: seq<RelInfo>, used: set<string>, n: nat, m: map<Option<string>, string>)
    requires forall k :: k in m ==> m[k] != []
    ensures var r := AliasMapFrom(infos, used, n, m);
            (forall k :: k in r ==> r[k] != []) &&
            (forall k :: k in m ==> k in r) &&
            (forall i :: 0 <= i < |infos| ==> infos[i].foreignKey in r)
  {
    if infos != [] {
      var a := infos[0].asAlias;
      var k := FirstFreeAuto(used, n);
      assert AutoName(k) != [];
      var chosen: (string, nat) := if !Present(a) || a.value in used then (AutoName(k), k) else (a.value, n);
      var m' := m[infos[0].foreignKey := chosen.0];
      AliasMapCovers(infos[1..], used + {chosen.0}, chosen.1, m');
      assert forall i :: 1 <= i < |infos| ==> infos[i] == infos[1..][i - 1];
    }
  }

  function ProjectAsWritten(col: string, infos: seq<RelInfo>, aliases: map<Option<string>, string>): Projected
  {
    match FindReplacement(infos, col)
    case None => Projected(OwnColumn(col), col)
    case Some((_, r)) =>
      var out := OutName(r, col);
      if Some(col) !in aliases || aliases[Some(col)] == [] then Projected(OwnColumn(col), out)
      else Projected(Substituted(aliases[Some(col)], r.replaceWith.value), out)
  }

  function MapAsWritten(cols: seq<string>, infos: seq<RelInfo>, aliases: map<Option<string>, string>): (r: seq<Projected>)
    ensures |r| == |cols| && forall j :: 0 <= j < |cols| ==> r[j] == ProjectAsWritten(cols[j], infos, aliases)
  {
    if cols == [] then [] else [ProjectAsWritten(cols[0], infos, aliases)] + MapAsWritten(cols[1..], infos, aliases)
  }

  /** The projection as `generate_get_rowset_impl` computes it. */
  function RowsetProjectionAsWritten(cols: seq<string>, rels: seq<RelEntry>): Result<seq<Projected>>
  {
    var infos := CollectRelationshipMap(rels);
    if infos.Err? then Err(infos.msg)
    else Ok(MapAsWritten(cols, infos.value, RowsetAliasMap(infos.value)))
  }

  /** The projection keeps the base fields in order; a field that no record
      replaces stays `our.<col> AS <col>`, and a replaced field is always
      substituted by the replacing record's columns under its out name. */
  lemma RowsetProjectionShape(cols: seq<string>, rels: seq<RelEntry>)
    requires RowsetProjectionAsWritten(cols, rels).Ok?
    ensures var infos := CollectRelationshipMap(rels).value;
            var ps := RowsetProjectionAsWritten(cols, rels).value;
            |ps| == |cols| &&
            forall j :: 0 <= j < |cols| ==>
              (FindReplacement(infos, cols[j]).None? ==> ps[j] == Projected(OwnColumn(cols[j]), cols[j])) &&
              (FindReplacement(infos, cols[j]).Some? ==>
                 var r := FindReplacement(infos, cols[j]).value.1;
                 ps[j].source.Substituted? && ps[j].source.columns == r.replaceWith.value && ps[j].name == OutName(r, cols[j]))
  {
    var infos := CollectRelationshipMap(rels).value;
    AliasMapCovers(infos, {"our"}, 1, map[]);
    forall j | 0 <= j < |cols| && FindReplacement(infos, cols[j]).Some?
      ensures Some(cols[j]) in RowsetAliasMap(infos)
    {
      var i := FindReplacement(infos, cols[j]).value.0;
      assert infos[i].foreignKey == Some(cols[j]);
    }
  }

  // ------------------------------------------------------------------ the projection with the join aliases

  /** The first JOIN that attaches a relationship to `our` on the record's own
      foreign key, table and referenced field. */
  function TopEdgeFor(edges: seq<JoinEdge>, info: RelInfo): (r: Option<JoinEdge>)
    ensures r.Some? ==> r.value in edges && r.value.baseAlias == "our" && Some(r.value.fk) == info.foreignKey &&
                        Some(r.value.table) == info.referencesTable && Some(r.value.refField) == info.referencesField
    ensures r.None? ==> forall k :: 0 <= k < |edges| ==>
              !(edges[k].baseAlias == "our" && Some(edges[k].fk) == info.foreignKey &&
                Some(edges[k].table) == info.referencesTable && Some(edges[k].refField) == info.referencesField)
  {
    if edges == [] then None
    else
      var e := edges[0];
      if e.baseAlias == "our" && Some(e.fk) == info.foreignKey && Some(e.table) == info.referencesTable &&
         Some(e.refField) == info.referencesField
      then Some(e)
      else
        var rest := TopEdgeFor(edges[1..], info);
        assert forall k :: 1 <= k < |edges| ==> edges[k] == edges[1..][k - 1];
        rest
  }

  function ProjectJoined(col: string, infos: seq<RelInfo>, edges: seq<JoinEdge>): Projected
  {
    match FindReplacement(infos, col)
    case None => Projected(OwnColumn(col), col)
    case Some((_, r)) =>
      var out := OutName(r, col);
      match TopEdgeFor(edges, r)
      case None => Projected(OwnColumn(col), out)
      case Some(e) => Projected(Substituted(e.alias, r.replaceWith.value), out)
  }

  function MapJoined(cols: seq<string>, infos: seq<RelInfo>, edges: seq<JoinEdge>): (r: seq<Projected>)
    ensures |r| == |cols| && forall j :: 0 <= j < |cols| ==> r[j] == ProjectJoined(cols[j], infos, edges)
  {
    if cols == [] then [] else [ProjectJoined(cols[0], infos, edges)] + MapJoined(cols[1..], infos, edges)
  }

  /** The projection with each replaced field read through the alias the
      SELECT's own JOIN gives its relationship. */
  function RowsetProjection(cat: Catalog, maxDepth: nat, cols: seq<string>, rels: seq<RelEntry>): Result<seq<Projected>>
  {
    var infos := CollectRelationshipMap(rels);
    if infos.Err? then Err(infos.msg)
    else Ok(MapJoined(cols, infos.value, PlanJoins(cat, maxDepth, rels, "our", 0, {"our"}).edges))
  }

  /** `p` reads from an alias that one of `edges` attaches to `our` on foreign key `col`. */
  ghost predicate ReadsJoinedAlias(edges: seq<JoinEdge>, p: Projected, col: string)
  {
    p.source.Substituted? ==>
      exists k :: 0 <= k < |edges| && edges[k].alias == p.source.alias && edges[k].baseAlias == "our" && edges[k].fk == col
  }

  /** Every substituted column reads from an alias that one of the emitted
      JOINs attaches to `our` on exactly that foreign key, and the projection
      fails exactly when the as-written one does. */
  lemma RowsetProjectionSound(cat: Catalog, maxDepth: nat, cols: seq<string>, rels: seq<RelEntry>)
    ensures RowsetProjection(cat, maxDepth, cols, rels).Ok? <==> RowsetProjectionAsWritten(cols, rels).Ok?
    ensures RowsetProjection(cat, maxDepth, cols, rels).Ok? ==>
              var ps := RowsetProjection(cat, maxDepth, cols, rels).value;
              var edges := PlanJoins(cat, maxDepth, rels, "our", 0, {"our"}).edges;
              |ps| == |cols| &&
              forall j :: 0 <= j < |cols| ==> ReadsJoinedAlias(edges, ps[j], cols[j])
  {
    if CollectRelationshipMap(rels).Ok? {
      var infos := CollectRelationshipMap(rels).value;
      var edges := PlanJoins(cat, maxDepth, rels, "our", 0, {"our"}).edges;
      var ps := RowsetProjection(cat, maxDepth, cols, rels).value;
      forall j | 0 <= j < |cols| && ps[j].source.Substituted? ensures ReadsJoinedAlias(edges, ps[j], cols[j]) {
        assert ps[j] == ProjectJoined(cols[j], infos, edges);
        var r := FindReplacement(infos, cols[j]).value.1;
        assert Replaces(r, cols[j]);
        var e := TopEdgeFor(edges, r).value;
        assert ps[j].source.alias == e.alias;
        var k :| 0 <= k < |edges| && edges[k] == e;
        assert Some(e.fk) == Some(cols[j]);
      }
    }
  }

  /** A replaced field whose replacing entry is joined at the top level (a
      many-to-one mapping with a foreign key, table and referenced field) is
      substituted by that entry's columns under its out name. */
  lemma RowsetProjectionComplete(cat: Catalog, maxDepth: nat, cols: seq<string>, rels: seq<RelEntry>, j: nat)
    requires 1 <= maxDepth && j < |cols| && RowsetProjection(cat, maxDepth, cols, rels).Ok?
    requires var f := FindReplacement(CollectRelationshipMap(rels).value, cols[j]);
             f.Some? && Joinable(rels[f.value.0])
    ensures var f := FindReplacement(CollectRelationshipMap(rels).value, cols[j]).value;
            var p := RowsetProjection(cat, maxDepth, cols, rels).value[j];
            p.source.Substituted? && p.source.columns == f.1.replaceWith.value && p.name == OutName(f.1, cols[j])
  {
    var infos := CollectRelationshipMap(rels).value;
    var f := FindReplacement(infos, cols[j]).value;
    var i := f.0;
    assert |{"our"}| == 1;
    JoinedAtTopLevel(cat, maxDepth, rels, "our", 0, {"our"}, 1, i);
    var edges := PlanJoins(cat, maxDepth, rels, "our", 0, {"our"}).edges;
    assert infos[i] == InfoOf(rels[i].rel);
    var k :| 0 <= k < |edges| && edges[k].baseAlias == "our" && Some(edges[k].fk) == rels[i].rel.foreignKey &&
             Some(edges[k].table) == rels[i].rel.referencesTable && Some(edges[k].refField) == rels[i].rel.referencesField;
    assert TopEdgeFor(edges, f.1).Some?;
  }

  // ------------------------------------------------------------------ the two alias allocations disagree

  /** An entry the JOIN planner skips (a one-to-many listing) ahead of a
      many-to-one relationship that replaces `author_id` by the user's name. */
  const OrdersListing := Relationship(None, Some("one_to_many"), Some("id"), Some("orders"), Some("user_id"), None, None, RwAbsent, None)
  const AuthorLink := Relationship(None, Some("many_to_one"), Some("author_id"), Some("users"), Some("id"), None, None, RwList(["name"]), None)
  const MismatchRels: seq<RelEntry> := [Rel(OrdersListing), Rel(AuthorLink)]
  const UsersTable := TableDef([("id", FieldDef(Some("integer"), true, true, true)), ("name", FieldDef(Some("string"), false, true, false))], [])
  const MismatchCatalog: Catalog := map["users" := UsersTable]

  lemma MismatchJoins()
    ensures PlanJoins(MismatchCatalog, 3, MismatchRels, "our", 0, {"our"}).edges == [JoinEdge(Left, "users", "t1", "our", "author_id", "id")]
  {
    assert |{"our"}| == 1;
    assert AutoName(1) == "t1";
    assert FirstFreeAuto({"our"}, 1) == 1;
    assert Lower("") == "";
    assert StripTableSuffix("users") == "users";
    var skipped := PlanOne(MismatchCatalog, 3, Rel(OrdersListing), "our", 0, {"our"}, 1);
    assert skipped == (Plan([], [], {"our"}), 1);
    var joined := PlanOne(MismatchCatalog, 3, Rel(AuthorLink), "our", 0, {"our"}, 1);
    assert joined.0.edges == [JoinEdge(Left, "users", "t1", "our", "author_id", "id")];
    assert MismatchRels[1..] == [Rel(AuthorLink)] && [Rel(AuthorLink)][1..] == [];
    var empty := PlanSeq(MismatchCatalog, 3, [], "our", 0, joined.0.used, joined.1);
    assert empty.edges == [];
    var tail := PlanSeq(MismatchCatalog, 3, [Rel(AuthorLink)], "our", 0, {"our"}, 1);
    assert tail.edges == joined.0.edges + empty.edges;
    assert joined.0.edges + empty.edges == joined.0.edges;
  }

  lemma MismatchAliasMap()
    ensures var m := RowsetAliasMap(CollectRelationshipMap(MismatchRels).value);
            Some("author_id") in m && m[Some("author_id")] == "t2"
  {
    var infos := CollectRelationshipMap(MismatchRels).value;
    assert infos == [InfoOf(OrdersListing), InfoOf(AuthorLink)];
    assert AutoName(1) == "t1" && AutoName(2) == "t2";
    assert FirstFreeAuto({"our"}, 1) == 1;
    assert FirstFreeAuto({"our", "t1"}, 1) == 2;
    var m0: map<Option<string>, string> := map[];
    var m1 := m0[Some("id") := "t1"];
    assert infos[1..] == [InfoOf(AuthorLink)] && [InfoOf(AuthorLink)][1..] == [];
    assert !Present(infos[0].asAlias) && infos[0].foreignKey == Some("id");
    assert AliasMapFrom(infos, {"our"}, 1, m0) == AliasMapFrom(infos[1..], {"our"} + {"t1"}, 1, m1);
    assert {"our"} + {"t1"} == {"our", "t1"};
    var m2 := m1[Some("author_id") := "t2"];
    assert AliasMapFrom([InfoOf(AuthorLink)], {"our", "t1"}, 1, m1) == AliasMapFrom([], {"our", "t1"} + {"t2"}, 2, m2);
    assert m2[Some("author_id")] == "t2";
  }

  /** Rendered as written, `author_id` is read from `t2`, an alias no JOIN
      defines, while the only JOIN is `t1`; read through the JOIN aliases it
      is read from `t1`. */
  lemma RowsetAliasMismatch()
    ensures RowsetProjectionAsWritten(["author_id"], MismatchRels) == Ok([Projected(Substituted("t2", ["name"]), "author_id")])
    ensures RowsetProjection(MismatchCatalog, 3, ["author_id"], MismatchRels) == Ok([Projected(Substituted("t1", ["name"]), "author_id")])
    ensures forall e :: e in PlanJoins(MismatchCatalog, 3, MismatchRels, "our", 0, {"our"}).edges ==> e.alias != "t2"
  {
    MismatchJoins();
    MismatchAliasMap();
    var infos := CollectRelationshipMap(MismatchRels).value;
    assert infos == [InfoOf(OrdersListing), InfoOf(AuthorLink)];
    assert !Replaces(infos[0], "author_id") && Replaces(infos[1], "author_id");
    assert FindReplacement(infos, "author_id") == Some((1, InfoOf(AuthorLink)));
    var edge := JoinEdge(Left, "users", "t1", "our", "author_id", "id");
    var link := InfoOf(AuthorLink);
    assert link.replaceWith == Some(["name"]) && OutName(link, "author_id") == "author_id";
    assert TopEdgeFor([edge], link) == Some(edge);
    var aliases := RowsetAliasMap(infos);
    assert ProjectAsWritten("author_id", infos, aliases) == Projected(Substituted("t2", ["name"]), "author_id");
    assert MapAsWritten(["author_id"], infos, aliases) == [Projected(Substituted("t2", ["name"]), "author_id")];
    assert ProjectJoined("author_id", infos, [edge]) == Projected(Substituted("t1", ["name"]), "author_id");
    assert MapJoined(["author_id"], infos, [edge]) == [Projected(Substituted("t1", ["name"]), "author_id")];
  }
}
