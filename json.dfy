/** The loosely typed values that YAML and JSON documents load into: the shape
    `yaml.safe_load` and `json.load` hand to the generators and to the preset
    filter. Mappings keep their keys in insertion order, as Python dicts do. */
module JsonValue {
  import opened Strings

  datatype Json =
    | JNull
    | JBool(b: bool)
    | JInt(i: int)
    | JStr(s: string)
    | JList(items: seq<Json>)
    | JMap(entries: seq<(string, Json)>)

  /** Python truthiness of a loaded value. */
  predicate Truthy(v: Json)
  {
    match v
    case JNull => false
    case JBool(b) => b
    case JInt(i) => i != 0
    case JStr(s) => s != []
    case JList(items) => items != []
    case JMap(entries) => entries != []
  }

  /** `isinstance(v, str) and v.strip()` */
  predicate IsNonBlankStr(v: Json)
  {
    v.JStr? && !IsBlank(v.s)
  }

  /** Keys are distinct, as they are in every Python dict. */
  ghost predicate UniqueKeys(m: seq<(string, Json)>)
  {
    forall i, j :: 0 <= i < j < |m| ==> m[i].0 != m[j].0
  }

  /** Position of key `k` in a mapping, or -1. */
  function IndexOf(m: seq<(string, Json)>, k: string): (r: int)
    ensures -1 <= r < |m|
    ensures r >= 0 ==> m[r].0 == k
    ensures r < 0 <==> forall i :: 0 <= i < |m| ==> m[i].0 != k
    ensures r >= 0 ==> forall i :: 0 <= i < r ==> m[i].0 != k
  {
    if m == [] then -1
    else if m[0].0 == k then 0
    else
      var r := IndexOf(m[1..], k);
      if r < 0 then -1 else r + 1
  }

  /** `k in m` */
  predicate HasKey(m: seq<(string, Json)>, k: string) { IndexOf(m, k) >= 0 }

  /** `m.get(k)`, with `None` for a missing key. */
  function Get(m: seq<(string, Json)>, k: string): (r: Option<Json>)
    ensures r.Some? <==> HasKey(m, k)
    ensures r.Some? ==> r.value == m[IndexOf(m, k)].1
  {
    var i := IndexOf(m, k);
    if i < 0 then None else Some(m[i].1)
  }

  /** `m.get(k, d)` */
  function GetOr(m: seq<(string, Json)>, k: string, d: Json): (r: Json)
    ensures !HasKey(m, k) ==> r == d
    ensures HasKey(m, k) ==> r == m[IndexOf(m, k)].1
  {
    var i := IndexOf(m, k);
    if i < 0 then d else m[i].1
  }

  /** `m[k] = v`: an existing key keeps its position, a new key goes last. */
  function Put(m: seq<(string, Json)>, k: string, v: Json): (r: seq<(string, Json)>)
    ensures HasKey(m, k) ==> |r| == |m| && r[IndexOf(m, k)] == (k, v)
    ensures HasKey(m, k) ==> forall i :: 0 <= i < |m| && i != IndexOf(m, k) ==> r[i] == m[i]
    ensures !HasKey(m, k) ==> r == m + [(k, v)]
  {
    var i := IndexOf(m, k);
    if i < 0 then m + [(k, v)] else m[i := (k, v)]
  }

  /** `m.setdefault(k, v)` as far as the mapping is concerned. */
  function SetDefault(m: seq<(string, Json)>, k: string, v: Json): (r: seq<(string, Json)>)
    ensures HasKey(m, k) ==> r == m
    ensures !HasKey(m, k) ==> r == m + [(k, v)]
  {
    if HasKey(m, k) then m else m + [(k, v)]
  }

  lemma PutKeepsKeysUnique(m: seq<(string, Json)>, k: string, v: Json)
    requires UniqueKeys(m)
    ensures UniqueKeys(Put(m, k, v))
    ensures HasKey(Put(m, k, v), k) && Get(Put(m, k, v), k) == Some(v)
  {
    var r := Put(m, k, v);
    if HasKey(m, k) {
      assert IndexOf(r, k) == IndexOf(m, k);
    } else {
      assert r[|m|].0 == k;
      assert forall i :: 0 <= i < |m| ==> r[i] == m[i];
      assert IndexOf(r, k) == |m|;
    }
  }

  /** Reading back a key just written gives the written value. */
  lemma GetPut(m: seq<(string, Json)>, k: string, v: Json)
    ensures Get(Put(m, k, v), k) == Some(v)
  {
    var r := Put(m, k, v);
    if HasKey(m, k) {
      assert IndexOf(r, k) == IndexOf(m, k);
    } else {
      assert r[|m|].0 == k;
      assert forall i :: 0 <= i < |m| ==> r[i] == m[i];
      assert IndexOf(r, k) == |m|;
    }
  }

  /** Writing one key leaves every other key as it was. */
  lemma GetPutOther(m: seq<(string, Json)>, k: string, v: Json)
    ensures forall k' :: k' != k ==> Get(Put(m, k, v), k') == Get(m, k')
  {
    var r := Put(m, k, v);
    forall k' | k' != k ensures Get(r, k') == Get(m, k') {
      if HasKey(m, k) {
        assert forall i :: 0 <= i < |m| ==> r[i].0 == m[i].0;
        assert IndexOf(r, k') == IndexOf(m, k');
      } else {
        assert forall i :: 0 <= i < |m| ==> r[i] == m[i];
        if HasKey(m, k') {
          assert IndexOf(r, k') == IndexOf(m, k');
        } else {
          assert r[|m|].0 != k';
        }
      }
    }
  }

  /** `setdefault` leaves a present key alone, adds a missing one, and
      touches no other key. */
  lemma GetSetDefault(m: seq<(string, Json)>, k: string, v: Json)
    ensures Get(SetDefault(m, k, v), k) == if HasKey(m, k) then Get(m, k) else Some(v)
    ensures forall k' :: k' != k ==> Get(SetDefault(m, k, v), k') == Get(m, k')
  {
    var r := SetDefault(m, k, v);
    if !HasKey(m, k) {
      assert forall i :: 0 <= i < |m| ==> r[i] == m[i];
      assert r[|m|].0 == k;
      assert IndexOf(r, k) == |m|;
      forall k' | k' != k ensures Get(r, k') == Get(m, k') {
        if HasKey(m, k') {
          assert IndexOf(r, k') == IndexOf(m, k');
        } else {
          assert r[|m|].0 != k';
        }
      }
    }
  }

  /** Locating a key from the keys that precede it. */
  lemma IndexOfIs(m: seq<(string, Json)>, k: string, i: int)
    requires 0 <= i < |m| && m[i].0 == k
    requires forall j :: 0 <= j < i ==> m[j].0 != k
    ensures IndexOf(m, k) == i
  {
  }
}
