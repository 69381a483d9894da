/** The table schema the record-set generator reads from YAML: tables with
    ordered fields and relationship entries, and the catalog of all tables
    gathered from every file before any module is generated. */
module Schema {
  import opened Strings
  import opened JsonValue

  /** One entry of a table's `fields` mapping. */
  datatype FieldDef = FieldDef(fieldType: Option<string>, primaryKey: bool, notNull: bool, autoIncrement: bool)

  /** The `replace_with` value of a relationship: absent, a string, a list of
      column names, or anything else. */
  datatype ReplaceWith = RwAbsent | RwString(s: string) | RwList(items: seq<string>) | RwOther

  /** One relationship entry; a missing key is `None`. */
  datatype Relationship = Relationship(
    name: Option<string>,
    kind: Option<string>,
    foreignKey: Option<string>,
    referencesTable: Option<string>,
    referencesField: Option<string>,
    alias: Option<string>,
    join: Option<string>,
    replaceWith: ReplaceWith,
    replaceAs: Option<string>)

  /** A relationship list may hold entries that are not mappings at all. */
  datatype RelEntry = NotMapping | Rel(rel: Relationship)

  datatype TableDef = TableDef(fields: seq<(string, FieldDef)>, relationships: seq<RelEntry>)

  /** Tables by canonical name. */
  type Catalog = map<string, TableDef>

  /** Python truthiness of an optional string. */
  predicate Present(o: Option<string>) { o.Some? && o.value != [] }

  function FieldNames(fields: seq<(string, FieldDef)>): (r: seq<string>)
    ensures |r| == |fields| && forall i :: 0 <= i < |fields| ==> r[i] == fields[i].0
  {
    if fields == [] then [] else [fields[0].0] + FieldNames(fields[1..])
  }

  // ------------------------------------------------------------------ names

  const TableSuffix: string := "_table"

  /** The canonical table name: a trailing `_table` removed (`name[:-6]`). */
  function StripTableSuffix(name: string): (r: string)
    ensures EndsWith(name, TableSuffix) ==> r + TableSuffix == name
    ensures !EndsWith(name, TableSuffix) ==> r == name
  {
    if EndsWith(name, TableSuffix) then
      assert name == name[..|name| - 6] + name[|name| - 6..];
      name[..|name| - 6]
    else name
  }

  /** A name with the suffix and the same name without it share a canonical
      name; only one suffix is ever removed. */
  lemma StripTableSuffixOnce(base: string)
    ensures StripTableSuffix(base + TableSuffix) == base
    ensures !EndsWith(base, TableSuffix) ==> StripTableSuffix(base) == base
  {
    var s := base + TableSuffix;
    assert s[|s| - 6..] == TableSuffix;
    assert s[..|s| - 6] == base;
  }

  /** The name a relationship's columns are prefixed with: `rel.get('name', references_table)`. */
  function RelName(rel: Relationship, refTable: string): (r: string)
    ensures rel.name.Some? ==> r == rel.name.value
    ensures rel.name.None? ==> r == refTable
  {
    if rel.name.Some? then rel.name.value else refTable
  }

  // ------------------------------------------------------------------ types

  /** The YAML-to-C++ type table of the generator. */
  const TypeMapping: map<string, string> := map[
    "integer" := "int",
    "string" := "std::string",
    "boolean" := "boolean",
    "float" := "float",
    "double" := "double",
    "text" := "std::string",
    "datetime" := "std::tm",
    "date" := "std::tm"]

  /** The C++ types a column can be given. */
  const CppTypes: set<string> := {"int", "std::string", "boolean", "float", "double", "std::tm"}

  /** `map_yaml_type_to_cpp`: the table entry of the lower-cased type, `std::string` otherwise. */
  function MapYamlTypeToCpp(yamlType: string): string
  {
    var key := Lower(yamlType);
    if key in TypeMapping then TypeMapping[key] else "std::string"
  }

  /** The mapping gives a C++ column type, the table's entry for a listed
      type and `std::string` for any other. */
  lemma MapYamlTypeToCppRange(yamlType: string)
    ensures MapYamlTypeToCpp(yamlType) in CppTypes
    ensures Lower(yamlType) in TypeMapping ==> MapYamlTypeToCpp(yamlType) == TypeMapping[Lower(yamlType)]
    ensures Lower(yamlType) !in TypeMapping ==> MapYamlTypeToCpp(yamlType) == "std::string"
  {
  }

  /** The type a field is declared with: its `type`, `string` when it has none. */
  function FieldCppType(f: FieldDef): string
  {
    MapYamlTypeToCpp(if f.fieldType.Some? then f.fieldType.value else "string")
  }

  /** A field's type is a C++ column type; a field without one is a `std::string`. */
  lemma FieldCppTypeRange(f: FieldDef)
    ensures FieldCppType(f) in CppTypes
    ensures f.fieldType.None? ==> FieldCppType(f) == "std::string"
  {
    MapYamlTypeToCppRange(if f.fieldType.Some? then f.fieldType.value else "string");
  }

  /** The mapping ignores case: two spellings that lower-case alike map alike. */
  lemma MapYamlTypeIgnoresCase(a: string, b: string)
    requires Lower(a) == Lower(b)
    ensures MapYamlTypeToCpp(a) == MapYamlTypeToCpp(b)
  {
  }

  /** An upper-cased spelling maps to the same C++ type. */
  lemma MapYamlTypeUpper(t: string)
    ensures MapYamlTypeToCpp(Upper(t)) == MapYamlTypeToCpp(t)
  {
    LowerOfUpper(t);
  }

  // ------------------------------------------------------------------ required and insert columns

  /** `is_required_field`: a primary key, or a non-null column the database does not fill. */
  predicate IsRequiredField(f: FieldDef)
  {
    f.primaryKey || (f.notNull && !f.autoIncrement)
  }

  /** The names of the required fields, in declaration order. */
  function RequiredNames(fields: seq<(string, FieldDef)>): (r: seq<string>)
    ensures |r| <= |fields|
    ensures forall n :: n in r <==> exists i :: 0 <= i < |fields| && fields[i].0 == n && IsRequiredField(fields[i].1)
  {
    if fields == [] then []
    else
      var rest := RequiredNames(fields[1..]);
      assert forall i :: 1 <= i < |fields| ==> fields[i] == fields[1..][i - 1];
      (if IsRequiredField(fields[0].1) then [fields[0].0] else []) + rest
  }

  /** The names of the columns an INSERT lists: every field except an
      auto-incremented primary key, in declaration order. */
  function InsertNames(fields: seq<(string, FieldDef)>): (r: seq<string>)
    ensures |r| <= |fields|
    ensures forall n :: n in r <==>
              exists i :: 0 <= i < |fields| && fields[i].0 == n && !(fields[i].1.autoIncrement && fields[i].1.primaryKey)
  {
    if fields == [] then []
    else
      var rest := InsertNames(fields[1..]);
      assert forall i :: 1 <= i < |fields| ==> fields[i] == fields[1..][i - 1];
      (if fields[0].1.autoIncrement && fields[0].1.primaryKey then [] else [fields[0].0]) + rest
  }

  ghost predicate DistinctNames(fields: seq<(string, FieldDef)>)
  {
    forall i, j :: 0 <= i < j < |fields| ==> fields[i].0 != fields[j].0
  }

  /** The only required fields an INSERT leaves out are auto-incremented
      primary keys, and an inserted column that is not required is a
      non-key column that may be null or is auto-incremented. */
  lemma RequiredButNotInserted(fields: seq<(string, FieldDef)>, n: string)
    requires DistinctNames(fields)
    ensures n in RequiredNames(fields) && n !in InsertNames(fields) ==>
              exists i :: 0 <= i < |fields| && fields[i].0 == n && fields[i].1.primaryKey && fields[i].1.autoIncrement
    ensures n in InsertNames(fields) && n !in RequiredNames(fields) ==>
              exists i :: 0 <= i < |fields| && fields[i].0 == n && !fields[i].1.primaryKey &&
                          (!fields[i].1.notNull || fields[i].1.autoIncrement)
  {
  }

  /** One more field extends the required names of the prefix by at most that field. */
  lemma {:induction false} RequiredNamesSnoc(fields: seq<(string, FieldDef)>, i: nat)
    requires i < |fields|
    ensures RequiredNames(fields[..i + 1]) == RequiredNames(fields[..i]) + (if IsRequiredField(fields[i].1) then [fields[i].0] else [])
  {
    if i > 0 {
      assert fields[..i + 1][1..] == fields[1..][..i];
      assert fields[..i][1..] == fields[1..][..i - 1];
      RequiredNamesSnoc(fields[1..], i - 1);
    }
  }

  /** One more field extends the insert columns of the prefix by at most that field. */
  lemma {:induction false} InsertNamesSnoc(fields: seq<(string, FieldDef)>, i: nat)
    requires i < |fields|
    ensures InsertNames(fields[..i + 1]) == InsertNames(fields[..i]) + (if fields[i].1.autoIncrement && fields[i].1.primaryKey then [] else [fields[i].0])
  {
    if i > 0 {
      assert fields[..i + 1][1..] == fields[1..][..i];
      assert fields[..i][1..] == fields[1..][..i - 1];
      InsertNamesSnoc(fields[1..], i - 1);
    }
  }

  /** `get_required_fields` */
  method GetRequiredFields(fields: seq<(string, FieldDef)>) returns (required: seq<string>)
    ensures required == RequiredNames(fields)
  {
    required := [];
    var i := 0;
    while i < |fields|
      invariant 0 <= i <= |fields|
      invariant required == RequiredNames(fields[..i])
    {
      RequiredNamesSnoc(fields, i);
      if IsRequiredField(fields[i].1) {
        required := required + [fields[i].0];
      }
      i := i + 1;
    }
    assert fields[..i] == fields;
  }

  /** `_field_order_for_insert` */
  method FieldOrderForInsert(fields: seq<(string, FieldDef)>) returns (cols: seq<string>)
    ensures cols == InsertNames(fields)
  {
    cols := [];
    var i := 0;
    while i < |fields|
      invariant 0 <= i <= |fields|
      invariant cols == InsertNames(fields[..i])
    {
      InsertNamesSnoc(fields, i);
      if fields[i].1.autoIncrement && fields[i].1.primaryKey {
        i := i + 1;
        continue;
      }
      cols := cols + [fields[i].0];
      i := i + 1;
    }
    assert fields[..i] == fields;
  }

  // ------------------------------------------------------------------ the catalog

  /** What the first pass's test `'fields' not in table_def` makes of one
      value of a file's `tables` mapping. */
  datatype FieldsTest = NoFields | HasFields | Raises

  /** Python's `in` looks for a key of a mapping, an element of a list and a
      substring of a string, and raises for any other value. */
  function TestFields(v: Json): (r: FieldsTest)
    ensures r.Raises? <==> v.JNull? || v.JBool? || v.JInt?
    ensures v.JMap? ==> (r.HasFields? <==> exists i :: 0 <= i < |v.entries| && v.entries[i].0 == "fields")
    ensures v.JList? ==> (r.HasFields? <==> exists i :: 0 <= i < |v.items| && v.items[i] == JStr("fields"))
    ensures v.JStr? ==> (r.HasFields? <==> exists i :: OccursAt(v.s, "fields", i))
  {
    match v
    case JMap(m) => if HasKey(m, "fields") then HasFields else NoFields
    case JList(items) => if JStr("fields") in items then HasFields else NoFields
    case JStr(t) => ContainsIff(t, "fields"); if Contains(t, "fields") then HasFields else NoFields
    case _ => Raises
  }

  /** One value of a file's `tables` mapping, as the first pass sees it: a
      value the test finds no `fields` in is skipped with a warning and the
      file goes on; a mapping with `fields` is registered; a value the test
      raises for, or a table name that is not a string (`.endswith` raises),
      ends that file's registrations. */
  datatype TableEntry = WithoutFields | WithFields(def: TableDef) | Malformed

  /** What a YAML file yields: nothing readable (a parse error or a document
      that is not a mapping), no `tables` mapping, or its tables in order. */
  datatype Document = Unreadable | NoTables | Tables(entries: seq<(string, TableEntry)>)

  /** A table definition as registered: its canonical name, the file it came
      from, and the definition. */
  datatype Registration = Registration(name: string, file: string, def: TableDef)

  /** The definitions one file contributes, in order: the tables with fields
      ahead of the first malformed entry. */
  function DocumentRegistrations(file: string, entries: seq<(string, TableEntry)>): (r: seq<Registration>)
    ensures |r| <= |entries|
  {
    if entries == [] then []
    else match entries[0].1
      case Malformed => []
      case WithoutFields => DocumentRegistrations(file, entries[1..])
      case WithFields(def) =>
        [Registration(StripTableSuffix(entries[0].0), file, def)] + DocumentRegistrations(file, entries[1..])
  }

  /** The definitions all files contribute, in file order. */
  function Registrations(docs: seq<(string, Document)>): (r: seq<Registration>)
  {
    if docs == [] then []
    else
      var d := docs[|docs| - 1];
      Registrations(docs[..|docs| - 1]) + (if d.1.Tables? then DocumentRegistrations(d.0, d.1.entries) else [])
  }

  /** Applying registrations in order: a later one for the same name overwrites. */
  function Register(cat: Catalog, files: map<string, string>, regs: seq<Registration>): (r: (Catalog, map<string, string>))
  {
    if regs == [] then (cat, files)
    else
      var prev := Register(cat, files, regs[..|regs| - 1]);
      var g := regs[|regs| - 1];
      (prev.0[g.name := g.def], prev.1[g.name := g.file])
  }

  /** The catalog after registration holds the earlier tables and exactly
      the names registered. */
  lemma {:induction false} RegisterKeys(cat: Catalog, files: map<string, string>, regs: seq<Registration>)
    ensures forall k :: k in Register(cat, files, regs).0 <==> k in cat || exists i :: 0 <= i < |regs| && regs[i].name == k
    ensures forall k :: k in Register(cat, files, regs).1 <==> k in files || exists i :: 0 <= i < |regs| && regs[i].name == k
  {
    if regs != [] {
      var init := regs[..|regs| - 1];
      RegisterKeys(cat, files, init);
      assert forall i :: 0 <= i < |init| ==> init[i] == regs[i];
    }
  }

  /** Each registered name maps to its LAST definition and to the file that
      definition came from. */
  lemma {:induction false} RegisterLastWins(cat: Catalog, files: map<string, string>, regs: seq<Registration>, i: nat)
    requires i < |regs| && forall j :: i < j < |regs| ==> regs[j].name != regs[i].name
    ensures regs[i].name in Register(cat, files, regs).0 && Register(cat, files, regs).0[regs[i].name] == regs[i].def
    ensures regs[i].name in Register(cat, files, regs).1 && Register(cat, files, regs).1[regs[i].name] == regs[i].file
  {
    if i < |regs| - 1 {
      var init := regs[..|regs| - 1];
      RegisterLastWins(cat, files, init, i);
    }
  }

  /** A name no registration mentions keeps its earlier definition. */
  lemma {:induction false} RegisterKeepsOthers(cat: Catalog, files: map<string, string>, regs: seq<Registration>, k: string)
    requires k in cat && forall i :: 0 <= i < |regs| ==> regs[i].name != k
    ensures k in Register(cat, files, regs).0 && Register(cat, files, regs).0[k] == cat[k]
  {
    if regs != [] {
      var init := regs[..|regs| - 1];
      RegisterKeepsOthers(cat, files, init, k);
    }
  }

  lemma {:induction false} RegisterAppend(cat: Catalog, files: map<string, string>, a: seq<Registration>, b: seq<Registration>)
    ensures Register(cat, files, a + b) == (var m := Register(cat, files, a); Register(m.0, m.1, b))
    decreases |b|
  {
    if b == [] {
      assert a + b == a;
    } else {
      assert (a + b)[..|a + b| - 1] == a + b[..|b| - 1];
      RegisterAppend(cat, files, a, b[..|b| - 1]);
    }
  }

  /** Registering the tables of a file relies on nothing but the file's own
      entries: a file-level fold equals the flat fold of all registrations. */
  lemma {:induction false} RegisterFiles(cat: Catalog, files: map<string, string>, docs: seq<(string, Document)>)
    requires docs != []
    ensures var d := docs[|docs| - 1];
            Register(cat, files, Registrations(docs)) ==
              (var m := Register(cat, files, Registrations(docs[..|docs| - 1]));
               Register(m.0, m.1, if d.1.Tables? then DocumentRegistrations(d.0, d.1.entries) else []))
  {
    var d := docs[|docs| - 1];
    RegisterAppend(cat, files, Registrations(docs[..|docs| - 1]),
                   if d.1.Tables? then DocumentRegistrations(d.0, d.1.entries) else []);
  }

  /** A file named `users_table` registers under `users`. */
  lemma RegistersCanonicalName(file: string, base: string, def: TableDef)
    ensures DocumentRegistrations(file, [(base + TableSuffix, WithFields(def))]) == [Registration(base, file, def)]
  {
    StripTableSuffixOnce(base);
    assert [(base + TableSuffix, WithFields(def))][1..] == [];
  }
}
