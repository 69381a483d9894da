/** Resolution of the columns a record set gains from its many-to-one
    relationships, followed through the catalog up to the maximum join depth.
    The cycle cache is threaded through explicitly: it is the generator's
    `_relationship_cache`, and `CppModuleGenerator` in the generator module
    keeps it in a field. */
module Resolver {
  import opened Strings
  import opened Schema

  /** A resolved column: its prefixed name, its C++ type and whether it is required. */
  datatype ResolvedField = ResolvedField(name: string, cppType: string, required: bool)

  /** The cycle cache: the direct columns recorded per chain step. */
  type Cache = map<string, seq<ResolvedField>>

  /** `f"{current}->{normalized}@{depth}"` */
  function CacheKey(current: string, table: string, depth: nat): string
  {
    current + "->" + table + "@" + NatToString(depth)
  }

  /** The prefix of a relationship's columns: `f"{prefix}__{rel_name}" if prefix else rel_name`. */
  function Qualify(prefix: string, relName: string): string
  {
    if prefix == [] then relName else prefix + "__" + relName
  }

  /** A chain of relationship names applied to a prefix. */
  function QualifyAll(prefix: string, chain: seq<string>): string
    decreases chain
  {
    if chain == [] then prefix else QualifyAll(Qualify(prefix, chain[0]), chain[1..])
  }

  /** An entry the resolver follows: a many-to-one mapping with a references_table. */
  predicate Followed(e: RelEntry)
  {
    e.Rel? && e.rel.kind == Some("many_to_one") && Present(e.rel.referencesTable)
  }

  /** The direct columns of a referenced table, prefixed and optional. */
  function DirectFields(p: string, fields: seq<(string, FieldDef)>): (r: seq<ResolvedField>)
    ensures |r| == |fields|
    ensures forall i :: 0 <= i < |fields| ==> r[i] == DirectColumn(p, fields[i])
  {
    if fields == [] then []
    else [DirectColumn(p, fields[0])] + DirectFields(p, fields[1..])
  }

  /** The column of one field: its name under the prefix, its type, optional. */
  function DirectColumn(p: string, field: (string, FieldDef)): ResolvedField
  {
    ResolvedField(p + "__" + field.0, FieldCppType(field.1), false)
  }

  /** `resolve_relationship_fields(relationships, current, prefix, depth)`:
      the columns and the cache after the call. */
  function Resolve(cat: Catalog, maxDepth: nat, rels: seq<RelEntry>, current: string, prefix: string, depth: nat, cache: Cache)
    : (r: (seq<ResolvedField>, Cache))
    decreases maxDepth - depth, 2, 0
  {
    if depth >= maxDepth then ([], cache) else ResolveSeq(cat, maxDepth, rels, current, prefix, depth, cache)
  }

  /** The loop over the relationship entries, left to right. */
  function ResolveSeq(cat: Catalog, maxDepth: nat, rels: seq<RelEntry>, current: string, prefix: string, depth: nat, cache: Cache)
    : (r: (seq<ResolvedField>, Cache))
    requires depth < maxDepth
    decreases maxDepth - depth, 1, |rels|
  {
    if rels == [] then ([], cache)
    else
      var first := ResolveOne(cat, maxDepth, rels[0], current, prefix, depth, cache);
      var rest := ResolveSeq(cat, maxDepth, rels[1..], current, prefix, depth, first.1);
      (first.0 + rest.0, rest.1)
  }

  /** One loop iteration: an unfollowed entry, a cached chain step and a
      table missing from the catalog contribute nothing; otherwise the
      table's direct columns are recorded in the cache and followed by the
      columns of its own relationships one level deeper. */
  function ResolveOne(cat: Catalog, maxDepth: nat, e: RelEntry, current: string, prefix: string, depth: nat, cache: Cache)
    : (r: (seq<ResolvedField>, Cache))
    requires depth < maxDepth
    decreases maxDepth - depth, 0, 0
  {
    if !Followed(e) then ([], cache)
    else
      var refTable := e.rel.referencesTable.value;
      var norm := StripTableSuffix(refTable);
      var key := CacheKey(current, norm, depth);
      if key in cache || norm !in cat then ([], cache)
      else
        var def := cat[norm];
        var p := Qualify(prefix, RelName(e.rel, refTable));
        var direct := DirectFields(p, def.fields);
        var cache1 := cache[key := direct];
        if def.relationships != [] && depth + 1 < maxDepth then
          var nested := Resolve(cat, maxDepth, def.relationships, norm, p, depth + 1, cache1);
          (direct + nested.0, nested.1)
        else (direct, cache1)
  }

  // ------------------------------------------------------------------ what every resolved column satisfies

  /** `fields` has a column `leaf` whose C++ type is `ty`. */
  ghost predicate HasColumn(fields: seq<(string, FieldDef)>, leaf: string, ty: string)
  {
    exists k :: 0 <= k < |fields| && fields[k].0 == leaf && FieldCppType(fields[k].1) == ty
  }

  /** `chain` is a path of followed relationships from the entries `rels`:
      each step is the `name` (or `references_table`) of an entry the resolver
      follows to a table of the catalog, the next step starts from that
      table's own relationships, and the last table has a column `leaf` of
      type `ty`. */
  ghost predicate Reaches(cat: Catalog, rels: seq<RelEntry>, chain: seq<string>, leaf: string, ty: string)
    decreases |chain|
  {
    chain != [] &&
    exists e :: e in rels && Followed(e) && StripTableSuffix(e.rel.referencesTable.value) in cat &&
      RelName(e.rel, e.rel.referencesTable.value) == chain[0] &&
      (var def := cat[StripTableSuffix(e.rel.referencesTable.value)];
       if |chain| == 1 then HasColumn(def.fields, leaf, ty) else Reaches(cat, def.relationships, chain[1..], leaf, ty))
  }

  /** The column is `prefix`, then the names along a path of one to `bound`
      relationships from `rels`, then a column of the table reached, whose
      type it carries. */
  ghost predicate NamedWithin(cat: Catalog, rels: seq<RelEntry>, f: ResolvedField, prefix: string, bound: int)
  {
    exists chain: seq<string>, leaf: string ::
      1 <= |chain| <= bound && f.name == QualifyAll(prefix, chain) + "__" + leaf && Reaches(cat, rels, chain, leaf, f.cppType)
  }

  /** Optional, typed by the type table, and reached through at most `bound` relationships. */
  ghost predicate WellResolved(cat: Catalog, rels: seq<RelEntry>, fs: seq<ResolvedField>, prefix: string, bound: int)
  {
    forall i :: 0 <= i < |fs| ==> !fs[i].required && fs[i].cppType in CppTypes && NamedWithin(cat, rels, fs[i], prefix, bound)
  }

  /** The cache only grows: nothing recorded earlier is removed or changed. */
  ghost predicate Extends(before: Cache, after: Cache)
  {
    forall k :: k in before ==> k in after && after[k] == before[k]
  }

  lemma WellResolvedAppend(cat: Catalog, rels: seq<RelEntry>, a: seq<ResolvedField>, b: seq<ResolvedField>, prefix: string, bound: int)
    requires WellResolved(cat, rels, a, prefix, bound) && WellResolved(cat, rels, b, prefix, bound)
    ensures WellResolved(cat, rels, a + b, prefix, bound)
  {
    forall i | 0 <= i < |a + b|
      ensures !(a + b)[i].required && (a + b)[i].cppType in CppTypes && NamedWithin(cat, rels, (a + b)[i], prefix, bound)
    {
      if i >= |a| {
        assert (a + b)[i] == b[i - |a|];
      }
    }
  }

  /** A path from some of the entries is a path from all of them. */
  lemma WellResolvedWiden(cat: Catalog, sub: seq<RelEntry>, rels: seq<RelEntry>, fs: seq<ResolvedField>, prefix: string, bound: int)
    requires forall e :: e in sub ==> e in rels
    requires WellResolved(cat, sub, fs, prefix, bound)
    ensures WellResolved(cat, rels, fs, prefix, bound)
  {
    forall i | 0 <= i < |fs| ensures NamedWithin(cat, rels, fs[i], prefix, bound) {
      var chain: seq<string>, leaf: string :| 1 <= |chain| <= bound &&
        fs[i].name == QualifyAll(prefix, chain) + "__" + leaf && Reaches(cat, sub, chain, leaf, fs[i].cppType);
      var e :| e in sub && Followed(e) && StripTableSuffix(e.rel.referencesTable.value) in cat &&
        RelName(e.rel, e.rel.referencesTable.value) == chain[0] &&
        (var def := cat[StripTableSuffix(e.rel.referencesTable.value)];
         if |chain| == 1 then HasColumn(def.fields, leaf, fs[i].cppType) else Reaches(cat, def.relationships, chain[1..], leaf, fs[i].cppType));
      assert e in rels;
    }
  }

  /** The direct columns of a followed entry are reached through that entry alone. */
  lemma DirectWellResolved(cat: Catalog, e: RelEntry, prefix: string, bound: int)
    requires 1 <= bound && Followed(e) && StripTableSuffix(e.rel.referencesTable.value) in cat
    ensures var relName := RelName(e.rel, e.rel.referencesTable.value);
            var fields := cat[StripTableSuffix(e.rel.referencesTable.value)].fields;
            WellResolved(cat, [e], DirectFields(Qualify(prefix, relName), fields), prefix, bound)
  {
    var relName := RelName(e.rel, e.rel.referencesTable.value);
    var fields := cat[StripTableSuffix(e.rel.referencesTable.value)].fields;
    var d := DirectFields(Qualify(prefix, relName), fields);
    forall i | 0 <= i < |d| ensures NamedWithin(cat, [e], d[i], prefix, bound) {
      assert QualifyAll(prefix, [relName]) == QualifyAll(Qualify(prefix, relName), []);
      assert d[i].name == QualifyAll(prefix, [relName]) + "__" + fields[i].0;
      assert HasColumn(fields, fields[i].0, d[i].cppType);
      assert e in [e];
      assert Reaches(cat, [e], [relName], fields[i].0, d[i].cppType);
    }
  }

  /** Columns reached from the referenced table's relationships are reached
      from the entry itself through one more relationship. */
  lemma NestedWellResolved(cat: Catalog, e: RelEntry, fs: seq<ResolvedField>, prefix: string, bound: int)
    requires Followed(e) && StripTableSuffix(e.rel.referencesTable.value) in cat
    requires WellResolved(cat, cat[StripTableSuffix(e.rel.referencesTable.value)].relationships, fs,
                          Qualify(prefix, RelName(e.rel, e.rel.referencesTable.value)), bound - 1)
    ensures WellResolved(cat, [e], fs, prefix, bound)
  {
    var relName := RelName(e.rel, e.rel.referencesTable.value);
    var def := cat[StripTableSuffix(e.rel.referencesTable.value)];
    forall i | 0 <= i < |fs| ensures NamedWithin(cat, [e], fs[i], prefix, bound) {
      var chain: seq<string>, leaf: string :| 1 <= |chain| <= bound - 1 &&
        fs[i].name == QualifyAll(Qualify(prefix, relName), chain) + "__" + leaf &&
        Reaches(cat, def.relationships, chain, leaf, fs[i].cppType);
      var longer := [relName] + chain;
      assert longer[1..] == chain;
      assert QualifyAll(prefix, longer) == QualifyAll(Qualify(prefix, relName), chain);
      assert e in [e];
      assert Reaches(cat, [e], longer, leaf, fs[i].cppType);
    }
  }

  /** Every resolved column is optional, and its name is the prefix followed
      by the names along a path of at most `maxDepth - depth` relationships
      through the catalog, starting from `rels`, and then a column of the
      table that path reaches, whose type it has; the cache only grows. */
  lemma {:induction false} ResolveWellFormed(cat: Catalog, maxDepth: nat, rels: seq<RelEntry>, current: string, prefix: string, depth: nat, cache: Cache)
    ensures var r := Resolve(cat, maxDepth, rels, current, prefix, depth, cache);
            WellResolved(cat, rels, r.0, prefix, maxDepth - depth) && Extends(cache, r.1)
    decreases maxDepth - depth, 2, 0
  {
    if depth < maxDepth {
      ResolveSeqWellFormed(cat, maxDepth, rels, current, prefix, depth, cache);
    }
  }

  lemma {:induction false} ResolveSeqWellFormed(cat: Catalog, maxDepth: nat, rels: seq<RelEntry>, current: string, prefix: string, depth: nat, cache: Cache)
    requires depth < maxDepth
    ensures var r := ResolveSeq(cat, maxDepth, rels, current, prefix, depth, cache);
            WellResolved(cat, rels, r.0, prefix, maxDepth - depth) && Extends(cache, r.1)
    decreases maxDepth - depth, 1, |rels|
  {
    if rels != [] {
      var first := ResolveOne(cat, maxDepth, rels[0], current, prefix, depth, cache);
      ResolveOneWellFormed(cat, maxDepth, rels[0], current, prefix, depth, cache);
      ResolveSeqWellFormed(cat, maxDepth, rels[1..], current, prefix, depth, first.1);
      var rest := ResolveSeq(cat, maxDepth, rels[1..], current, prefix, depth, first.1);
      WellResolvedWiden(cat, [rels[0]], rels, first.0, prefix, maxDepth - depth);
      WellResolvedWiden(cat, rels[1..], rels, rest.0, prefix, maxDepth - depth);
      WellResolvedAppend(cat, rels, first.0, rest.0, prefix, maxDepth - depth);
    }
  }

  lemma {:induction false} ResolveOneWellFormed(cat: Catalog, maxDepth: nat, e: RelEntry, current: string, prefix: string, depth: nat, cache: Cache)
    requires depth < maxDepth
    ensures var r := ResolveOne(cat, maxDepth, e, current, prefix, depth, cache);
            WellResolved(cat, [e], r.0, prefix, maxDepth - depth) && Extends(cache, r.1)
    decreases maxDepth - depth, 0, 0
  {
    if Followed(e) {
      var refTable := e.rel.referencesTable.value;
      var norm := StripTableSuffix(refTable);
      var key := CacheKey(current, norm, depth);
      if key !in cache && norm in cat {
        var def := cat[norm];
        var relName := RelName(e.rel, refTable);
        var p := Qualify(prefix, relName);
        var direct := DirectFields(p, def.fields);
        var cache1 := cache[key := direct];
        DirectWellResolved(cat, e, prefix, maxDepth - depth);
        if def.relationships != [] && depth + 1 < maxDepth {
          ResolveWellFormed(cat, maxDepth, def.relationships, norm, p, depth + 1, cache1);
          var nested := Resolve(cat, maxDepth, def.relationships, norm, p, depth + 1, cache1);
          NestedWellResolved(cat, e, nested.0, prefix, maxDepth - depth);
          WellResolvedAppend(cat, [e], direct, nested.0, prefix, maxDepth - depth);
        }
      }
    }
  }

  // ------------------------------------------------------------------ the cache

  /** An entry that the cache `c` makes the resolver pass over. */
  predicate Settled(cat: Catalog, e: RelEntry, current: string, depth: nat, c: Cache)
  {
    !Followed(e) || CacheKey(current, StripTableSuffix(e.rel.referencesTable.value), depth) in c ||
    StripTableSuffix(e.rel.referencesTable.value) !in cat
  }

  lemma SettledExtends(cat: Catalog, e: RelEntry, current: string, depth: nat, c: Cache, c': Cache)
    requires Settled(cat, e, current, depth, c) && Extends(c, c')
    ensures Settled(cat, e, current, depth, c')
  {
  }

  /** After a pass, every entry of that pass is settled by the returned cache. */
  lemma {:induction false} ResolveSeqSettles(cat: Catalog, maxDepth: nat, rels: seq<RelEntry>, current: string, prefix: string, depth: nat, cache: Cache)
    requires depth < maxDepth
    ensures var r := ResolveSeq(cat, maxDepth, rels, current, prefix, depth, cache);
            forall i :: 0 <= i < |rels| ==> Settled(cat, rels[i], current, depth, r.1)
  {
    if rels != [] {
      var first := ResolveOne(cat, maxDepth, rels[0], current, prefix, depth, cache);
      var r := ResolveSeq(cat, maxDepth, rels, current, prefix, depth, cache);
      ResolveOneWellFormed(cat, maxDepth, rels[0], current, prefix, depth, cache);
      ResolveSeqWellFormed(cat, maxDepth, rels[1..], current, prefix, depth, first.1);
      ResolveSeqSettles(cat, maxDepth, rels[1..], current, prefix, depth, first.1);
      ResolveOneSettles(cat, maxDepth, rels[0], current, prefix, depth, cache);
      SettledExtends(cat, rels[0], current, depth, first.1, r.1);
      forall i | 1 <= i < |rels| ensures Settled(cat, rels[i], current, depth, r.1) {
        assert rels[i] == rels[1..][i - 1];
      }
    }
  }

  lemma ResolveOneSettles(cat: Catalog, maxDepth: nat, e: RelEntry, current: string, prefix: string, depth: nat, cache: Cache)
    requires depth < maxDepth
    ensures Settled(cat, e, current, depth, ResolveOne(cat, maxDepth, e, current, prefix, depth, cache).1)
  {
    if Followed(e) {
      var norm := StripTableSuffix(e.rel.referencesTable.value);
      var key := CacheKey(current, norm, depth);
      if key !in cache && norm in cat {
        var def := cat[norm];
        var p := Qualify(prefix, RelName(e.rel, e.rel.referencesTable.value));
        var cache1 := cache[key := DirectFields(p, def.fields)];
        if def.relationships != [] && depth + 1 < maxDepth {
          ResolveWellFormed(cat, maxDepth, def.relationships, norm, p, depth + 1, cache1);
        }
      }
    }
  }

  /** Entries the cache settles contribute nothing and leave the cache alone. */
  lemma {:induction false} SettledContributeNothing(cat: Catalog, maxDepth: nat, rels: seq<RelEntry>, current: string, prefix: string, depth: nat, c: Cache)
    requires depth < maxDepth
    requires forall i :: 0 <= i < |rels| ==> Settled(cat, rels[i], current, depth, c)
    ensures ResolveSeq(cat, maxDepth, rels, current, prefix, depth, c) == ([], c)
  {
    if rels != [] {
      assert forall i :: 1 <= i < |rels| ==> rels[1..][i - 1] == rels[i];
      assert ResolveOne(cat, maxDepth, rels[0], current, prefix, depth, c) == ([], c);
      SettledContributeNothing(cat, maxDepth, rels[1..], current, prefix, depth, c);
      var empty: seq<ResolvedField> := [];
      assert empty + empty == empty;
    }
  }

  /** Resolving the same relationships again with the returned cache yields
      nothing: a chain step already taken is never taken twice until the
      cache is cleared. */
  lemma ResolveAgainIsEmpty(cat: Catalog, maxDepth: nat, rels: seq<RelEntry>, current: string, prefix: string, depth: nat, cache: Cache)
    ensures var r := Resolve(cat, maxDepth, rels, current, prefix, depth, cache);
            Resolve(cat, maxDepth, rels, current, prefix, depth, r.1) == ([], r.1)
  {
    if depth < maxDepth {
      ResolveSeqSettles(cat, maxDepth, rels, current, prefix, depth, cache);
      var r := Resolve(cat, maxDepth, rels, current, prefix, depth, cache);
      SettledContributeNothing(cat, maxDepth, rels, current, prefix, depth, r.1);
    }
  }

  // ------------------------------------------------------------------ entries passed over

  /** An entry passed over whatever the cache holds: not a many-to-one
      mapping, without a referenced table, or naming a table the catalog
      does not have. */
  predicate Ignored(cat: Catalog, e: RelEntry)
  {
    !Followed(e) || StripTableSuffix(e.rel.referencesTable.value) !in cat
  }

  /** Such an entry can be dropped: its siblings resolve exactly as without it. */
  lemma {:induction false} IgnoredEntryIsNeutral(cat: Catalog, maxDepth: nat, pre: seq<RelEntry>, e: RelEntry, post: seq<RelEntry>,
                                                 current: string, prefix: string, depth: nat, cache: Cache)
    requires Ignored(cat, e)
    ensures Resolve(cat, maxDepth, pre + [e] + post, current, prefix, depth, cache) ==
            Resolve(cat, maxDepth, pre + post, current, prefix, depth, cache)
  {
    if depth < maxDepth {
      IgnoredSeq(cat, maxDepth, pre, e, post, current, prefix, depth, cache);
    }
  }

  lemma {:induction false} IgnoredSeq(cat: Catalog, maxDepth: nat, pre: seq<RelEntry>, e: RelEntry, post: seq<RelEntry>,
                                      current: string, prefix: string, depth: nat, cache: Cache)
    requires Ignored(cat, e) && depth < maxDepth
    ensures ResolveSeq(cat, maxDepth, pre + [e] + post, current, prefix, depth, cache) ==
            ResolveSeq(cat, maxDepth, pre + post, current, prefix, depth, cache)
  {
    if pre == [] {
      assert pre + [e] + post == [e] + post;
      assert ([e] + post)[1..] == post;
      assert pre + post == post;
      assert ResolveOne(cat, maxDepth, e, current, prefix, depth, cache) == ([], cache);
      var rest := ResolveSeq(cat, maxDepth, post, current, prefix, depth, cache);
      assert [] + rest.0 == rest.0;
    } else {
      assert (pre + [e] + post)[1..] == pre[1..] + [e] + post;
      assert (pre + post)[1..] == pre[1..] + post;
      var first := ResolveOne(cat, maxDepth, pre[0], current, prefix, depth, cache);
      IgnoredSeq(cat, maxDepth, pre[1..], e, post, current, prefix, depth, first.1);
    }
  }

  // ------------------------------------------------------------------ one relationship

  lemma ResolveSingleton(cat: Catalog, maxDepth: nat, e: RelEntry, current: string, prefix: string, depth: nat, cache: Cache)
    requires depth < maxDepth
    ensures Resolve(cat, maxDepth, [e], current, prefix, depth, cache) == ResolveOne(cat, maxDepth, e, current, prefix, depth, cache)
  {
    assert [e][1..] == [];
    var first := ResolveOne(cat, maxDepth, e, current, prefix, depth, cache);
    assert ResolveSeq(cat, maxDepth, [], current, prefix, depth, first.1) == ([], first.1);
    assert first.0 + [] == first.0;
  }

  /** Following one entry to a table without relationships of its own: that
      table's direct columns, recorded in the cache. */
  lemma ResolveLeaf(cat: Catalog, maxDepth: nat, rel: Relationship, current: string, prefix: string, depth: nat, cache: Cache)
    requires depth < maxDepth && Followed(Rel(rel))
    requires StripTableSuffix(rel.referencesTable.value) in cat
    requires CacheKey(current, StripTableSuffix(rel.referencesTable.value), depth) !in cache
    requires cat[StripTableSuffix(rel.referencesTable.value)].relationships == [] || depth + 1 >= maxDepth
    ensures Resolve(cat, maxDepth, [Rel(rel)], current, prefix, depth, cache).0 ==
              DirectFields(Qualify(prefix, RelName(rel, rel.referencesTable.value)), cat[StripTableSuffix(rel.referencesTable.value)].fields)
  {
    ResolveSingleton(cat, maxDepth, Rel(rel), current, prefix, depth, cache);
  }

  /** A single relationship to a table that has no relationships of its own
      yields that table's columns in declaration order, named
      `<rel>__<column>`, typed by the type table and optional. */
  lemma SingleRelationship(cat: Catalog, maxDepth: nat, rel: Relationship, current: string)
    requires 1 <= maxDepth && Followed(Rel(rel))
    requires StripTableSuffix(rel.referencesTable.value) in cat
    requires cat[StripTableSuffix(rel.referencesTable.value)].relationships == []
    ensures var fields := cat[StripTableSuffix(rel.referencesTable.value)].fields;
            var r := Resolve(cat, maxDepth, [Rel(rel)], current, "", 0, map[]).0;
            |r| == |fields| &&
            forall i :: 0 <= i < |fields| ==>
              r[i] == ResolvedField(RelName(rel, rel.referencesTable.value) + "__" + fields[i].0, FieldCppType(fields[i].1), false)
  {
    ResolveLeaf(cat, maxDepth, rel, current, "", 0, map[]);
  }

  /** A relationship whose table relates to one further table: the first
      table's columns, then the second table's under the doubled prefix
      `<rel>__<rel2>__<column>`, as long as the maximum depth allows two levels. */
  lemma TwoLevelRelationship(cat: Catalog, maxDepth: nat, rel: Relationship, rel2: Relationship, current: string)
    requires 2 <= maxDepth && Followed(Rel(rel)) && Followed(Rel(rel2))
    requires StripTableSuffix(rel.referencesTable.value) in cat
    requires cat[StripTableSuffix(rel.referencesTable.value)].relationships == [Rel(rel2)]
    requires StripTableSuffix(rel2.referencesTable.value) in cat
    requires cat[StripTableSuffix(rel2.referencesTable.value)].relationships == []
    requires RelName(rel, rel.referencesTable.value) != []
    ensures var t1 := cat[StripTableSuffix(rel.referencesTable.value)];
            var t2 := cat[StripTableSuffix(rel2.referencesTable.value)];
            var p := RelName(rel, rel.referencesTable.value);
            Resolve(cat, maxDepth, [Rel(rel)], current, "", 0, map[]).0 ==
              DirectFields(p, t1.fields) + DirectFields(p + "__" + RelName(rel2, rel2.referencesTable.value), t2.fields)
  {
    var norm := StripTableSuffix(rel.referencesTable.value);
    var norm2 := StripTableSuffix(rel2.referencesTable.value);
    var key1 := CacheKey(current, norm, 0);
    var key2 := CacheKey(norm, norm2, 1);
    assert key1[|key1| - 1] == '0' && key2[|key2| - 1] == '1';
    var p := RelName(rel, rel.referencesTable.value);
    var direct1 := DirectFields(p, cat[norm].fields);
    var cache1: Cache := map[key1 := direct1];
    ResolveSingleton(cat, maxDepth, Rel(rel), current, "", 0, map[]);
    ResolveLeaf(cat, maxDepth, rel2, norm, p, 1, cache1);
  }

  /** With a maximum depth of one, a relationship's own relationships are not followed. */
  lemma DepthOneStopsAtFirstLevel(cat: Catalog, rel: Relationship, current: string)
    requires Followed(Rel(rel)) && StripTableSuffix(rel.referencesTable.value) in cat
    ensures var t := cat[StripTableSuffix(rel.referencesTable.value)];
            Resolve(cat, 1, [Rel(rel)], current, "", 0, map[]).0 ==
              DirectFields(RelName(rel, rel.referencesTable.value), t.fields)
  {
    ResolveLeaf(cat, 1, rel, current, "", 0, map[]);
  }
}
