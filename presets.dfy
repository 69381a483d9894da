/** The configure-preset filter: conditions of hidden presets are propagated to
    the presets that inherit from them, then the visible presets whose
    condition does not hold are dropped. Conditions are the condition objects of
    CMake's presets format (cmake-presets(7), section "Condition"), of which only
    `equals`, `anyOf` and `allOf` are understood. */
module Presets {
  import opened Strings
  import opened JsonValue

  // ------------------------------------------------------------------ expressions

  /** What `evaluate_expression` reads from the machine it runs on:
      `platform.system()` and the process environment. */
  datatype Host = Host(systemName: string, env: map<string, string>)

  /** `os.getenv(name, "")` */
  function GetEnv(host: Host, name: string): string
  {
    if name in host.env then host.env[name] else ""
  }

  const HostSystemName: string := "${hostSystemName}"

  /** `evaluate_expression`: a string is a macro reference or a literal; any
      other value makes the string methods of the source raise. */
  function EvaluateExpression(e: Json, host: Host): (r: Result<string>)
    ensures !e.JStr? <==> r.Err?
    ensures e == JStr(HostSystemName) ==> r == Ok(host.systemName)
    ensures e.JStr? && e.s != HostSystemName && StartsWith(e.s, "$env{") && EndsWith(e.s, "}")
            ==> |e.s| >= 6 && r == Ok(GetEnv(host, e.s[5..|e.s| - 1]))
    ensures e.JStr? && e.s != HostSystemName && !(StartsWith(e.s, "$env{") && EndsWith(e.s, "}"))
            ==> r == Ok(e.s)
  {
    match e
    case JStr(s) =>
      if s == HostSystemName then Ok(host.systemName)
      else if StartsWith(s, "$env{") && EndsWith(s, "}") then
        assert s[4] == '{' && s[|s| - 1] == '}';
        Ok(GetEnv(host, s[5..|s| - 1]))
      else Ok(s)
    case _ => Err("AttributeError: expression is not a string")
  }

  /** Every `$env{NAME}` reference reads exactly the variable NAME. */
  lemma EnvReferenceReadsVariable(name: string, host: Host)
    ensures EvaluateExpression(JStr("$env{" + name + "}"), host) == Ok(GetEnv(host, name))
  {
    var s := "$env{" + name + "}";
    assert s[1] == 'e' != HostSystemName[1];
    assert s[..5] == "$env{";
    assert s[|s| - 1..] == "}";
    assert s[5..|s| - 1] == name;
  }

  /** A string that does not begin with `$` is a literal and evaluates to itself. */
  lemma LiteralEvaluatesToItself(s: string, host: Host)
    requires s == [] || s[0] != '$'
    ensures EvaluateExpression(JStr(s), host) == Ok(s)
  {
    assert |s| >= 5 ==> s[..5][0] == s[0];
  }

  // ------------------------------------------------------------------ conditions

  /** `evaluate_condition`. A condition must be a mapping (the source calls `get`
      on it); `anyOf` and `allOf` short-circuit like Python's `any` and `all`,
      so a malformed entry after the deciding one is never looked at. */
  function EvaluateCondition(c: Json, host: Host): (r: Result<bool>)
    decreases c, 1
  {
    match c
    case JMap(m) =>
      var t := Get(m, "type");
      if t == Some(JStr("equals")) then
        if !HasKey(m, "lhs") then Err("KeyError: lhs")
        else
          var lhs := EvaluateExpression(m[IndexOf(m, "lhs")].1, host);
          if lhs.Err? then Err(lhs.msg)
          else if !HasKey(m, "rhs") then Err("KeyError: rhs")
          else
            var rhs := EvaluateExpression(m[IndexOf(m, "rhs")].1, host);
            if rhs.Err? then Err(rhs.msg) else Ok(lhs.value == rhs.value)
      else if t == Some(JStr("anyOf")) || t == Some(JStr("allOf")) then
        if !HasKey(m, "conditions") then Err("KeyError: conditions")
        else
          var any := t == Some(JStr("anyOf"));
          (match m[IndexOf(m, "conditions")].1
           case JList(items) => ShortCircuit(items, host, !any)
           // iterating a string or a mapping yields strings, and a string is no condition
           case JStr(s) => if s == [] then Ok(!any) else Err("AttributeError: condition is not a mapping")
           case JMap(es) => if es == [] then Ok(!any) else Err("AttributeError: condition is not a mapping")
           case _ => Err("TypeError: conditions is not iterable"))
      else Ok(false)
    case _ => Err("AttributeError: condition is not a mapping")
  }

  /** `any(evaluate_condition(c) for c in items)` when `skip` is false and
      `all(...)` when `skip` is true: entries evaluating to `skip` are passed
      over, the first other outcome decides. */
  function ShortCircuit(items: seq<Json>, host: Host, skip: bool): (r: Result<bool>)
    decreases items, 0
  {
    if items == [] then Ok(skip)
    else
      var first := EvaluateCondition(items[0], host);
      if first.Err? then first
      else if first.value != skip then Ok(!skip)
      else ShortCircuit(items[1..], host, skip)
  }

  function AllOfCondition(cs: seq<Json>): Json
  {
    JMap([("type", JStr("allOf")), ("conditions", JList(cs))])
  }

  function AnyOfCondition(cs: seq<Json>): Json
  {
    JMap([("type", JStr("anyOf")), ("conditions", JList(cs))])
  }

  /** Entry `k` is the first entry not evaluating to `skip`, and it evaluates to `!skip`. */
  predicate DecidesAt(cs: seq<Json>, host: Host, k: int, skip: bool)
  {
    0 <= k < |cs| && EvaluateCondition(cs[k], host) == Ok(!skip) &&
    forall j :: 0 <= j < k ==> EvaluateCondition(cs[j], host) == Ok(skip)
  }

  /** Every entry evaluates to `v`. */
  predicate AllEvaluateTo(cs: seq<Json>, host: Host, v: bool)
  {
    forall j :: 0 <= j < |cs| ==> EvaluateCondition(cs[j], host) == Ok(v)
  }

  lemma ShiftEntries(cs: seq<Json>, host: Host, skip: bool)
    requires cs != []
    ensures forall k :: 1 <= k ==> (DecidesAt(cs, host, k, skip) <==>
                        EvaluateCondition(cs[0], host) == Ok(skip) && DecidesAt(cs[1..], host, k - 1, skip))
    ensures DecidesAt(cs, host, 0, skip) <==> EvaluateCondition(cs[0], host) == Ok(!skip)
    ensures forall v :: AllEvaluateTo(cs, host, v) <==>
                        EvaluateCondition(cs[0], host) == Ok(v) && AllEvaluateTo(cs[1..], host, v)
  {
    assert forall j :: 1 <= j < |cs| ==> cs[j] == cs[1..][j - 1];
    forall k | 1 <= k
      ensures DecidesAt(cs, host, k, skip) <==>
              EvaluateCondition(cs[0], host) == Ok(skip) && DecidesAt(cs[1..], host, k - 1, skip)
    {
      if k < |cs| {
        assert cs[k] == cs[1..][k - 1];
        assert (forall j :: 0 <= j < k ==> EvaluateCondition(cs[j], host) == Ok(skip)) <==>
               EvaluateCondition(cs[0], host) == Ok(skip) &&
               (forall j :: 0 <= j < k - 1 ==> EvaluateCondition(cs[1..][j], host) == Ok(skip));
      }
    }
  }

  lemma ShortCircuitMeaning(cs: seq<Json>, host: Host, skip: bool)
    ensures ShortCircuit(cs, host, skip) == Ok(!skip) <==> exists k :: DecidesAt(cs, host, k, skip)
    ensures ShortCircuit(cs, host, skip) == Ok(skip) <==> AllEvaluateTo(cs, host, skip)
  {
    ShortCircuitDecides(cs, host, skip);
    ShortCircuitAll(cs, host, skip);
  }

  /** The short circuit gives `!skip` exactly when some entry decides. */
  lemma {:induction false} ShortCircuitDecides(cs: seq<Json>, host: Host, skip: bool)
    ensures ShortCircuit(cs, host, skip) == Ok(!skip) <==> exists k :: DecidesAt(cs, host, k, skip)
  {
    if cs != [] {
      ShortCircuitDecides(cs[1..], host, skip);
      ShiftEntries(cs, host, skip);
      var first := EvaluateCondition(cs[0], host);
      if first == Ok(skip) {
        if ShortCircuit(cs, host, skip) == Ok(!skip) {
          var k :| DecidesAt(cs[1..], host, k, skip);
          assert DecidesAt(cs, host, (k + 1), skip);
        }
        if exists k :: DecidesAt(cs, host, k, skip) {
          var k :| DecidesAt(cs, host, k, skip);
          assert k != 0;
          assert DecidesAt(cs[1..], host, k - 1, skip);
        }
      } else if first == Ok(!skip) {
        assert DecidesAt(cs, host, 0, skip);
      } else {
        forall k ensures !DecidesAt(cs, host, k, skip) {
          if k > 0 { assert EvaluateCondition(cs[0], host) != Ok(skip); }
        }
      }
    }
  }

  /** The short circuit gives `skip` exactly when every entry evaluates to `skip`. */
  lemma {:induction false} ShortCircuitAll(cs: seq<Json>, host: Host, skip: bool)
    ensures ShortCircuit(cs, host, skip) == Ok(skip) <==> AllEvaluateTo(cs, host, skip)
  {
    if cs != [] {
      ShortCircuitAll(cs[1..], host, skip);
      ShiftEntries(cs, host, skip);
    }
  }

  /** The combinator conditions evaluate their entries with `any` and `all`. */
  lemma CombinatorsEvaluate(cs: seq<Json>, host: Host)
    ensures EvaluateCondition(AnyOfCondition(cs), host) == ShortCircuit(cs, host, false)
    ensures EvaluateCondition(AllOfCondition(cs), host) == ShortCircuit(cs, host, true)
  {
    var a := [("type", JStr("anyOf")), ("conditions", JList(cs))];
    var b := [("type", JStr("allOf")), ("conditions", JList(cs))];
    IndexOfIs(a, "type", 0);
    IndexOfIs(a, "conditions", 1);
    IndexOfIs(b, "type", 0);
    IndexOfIs(b, "conditions", 1);
  }

  /** `anyOf` holds exactly when some entry holds and every entry before it is
      false, and it is false exactly when every entry is false; otherwise the
      first entry that raises decides. */
  lemma AnyOfMeaning(cs: seq<Json>, host: Host)
    ensures EvaluateCondition(AnyOfCondition(cs), host) == Ok(true) <==>
            exists k :: DecidesAt(cs, host, k, false)
    ensures EvaluateCondition(AnyOfCondition(cs), host) == Ok(false) <==> AllEvaluateTo(cs, host, false)
  {
    CombinatorsEvaluate(cs, host);
    ShortCircuitMeaning(cs, host, false);
  }

  /** `allOf` is false exactly when some entry is false and every entry before
      it holds, and it holds exactly when every entry holds. */
  lemma AllOfMeaning(cs: seq<Json>, host: Host)
    ensures EvaluateCondition(AllOfCondition(cs), host) == Ok(false) <==>
            exists k :: DecidesAt(cs, host, k, true)
    ensures EvaluateCondition(AllOfCondition(cs), host) == Ok(true) <==> AllEvaluateTo(cs, host, true)
  {
    CombinatorsEvaluate(cs, host);
    ShortCircuitMeaning(cs, host, true);
  }

  /** `equals` compares the two evaluated sides; a type the filter does not
      understand (`not`, `const`, `inList`, ... or none at all) never holds. */
  lemma EqualsAndUnknownTypes(m: seq<(string, Json)>, l: string, rr: string, host: Host)
    ensures EvaluateCondition(JMap([("type", JStr("equals")), ("lhs", JStr(l)), ("rhs", JStr(rr))]), host)
            == Ok(EvaluateExpression(JStr(l), host).value == EvaluateExpression(JStr(rr), host).value)
    ensures !HasKey(m, "type") ==> EvaluateCondition(JMap(m), host) == Ok(false)
    ensures HasKey(m, "type") && m[IndexOf(m, "type")].1 !in {JStr("equals"), JStr("anyOf"), JStr("allOf")}
            ==> EvaluateCondition(JMap(m), host) == Ok(false)
  {
    var e := [("type", JStr("equals")), ("lhs", JStr(l)), ("rhs", JStr(rr))];
    IndexOfIs(e, "type", 0);
    IndexOfIs(e, "lhs", 1);
    IndexOfIs(e, "rhs", 2);
  }

  // ------------------------------------------------------------------ inheritance

  /** Python's `for x in v`: a list yields its items, a string its characters,
      a mapping its keys; anything else cannot be iterated. */
  function Iterate(v: Json): (r: Result<seq<Json>>)
    ensures v.JList? ==> r == Ok(v.items)
    ensures v.JStr? ==> r.Ok? && |r.value| == |v.s| &&
                        forall i :: 0 <= i < |v.s| ==> r.value[i] == JStr([v.s[i]])
    ensures v.JMap? ==> r.Ok? && |r.value| == |v.entries| &&
                        forall i :: 0 <= i < |v.entries| ==> r.value[i] == JStr(v.entries[i].0)
    ensures r.Err? <==> (v.JNull? || v.JBool? || v.JInt?)
  {
    match v
    case JList(items) => Ok(items)
    case JStr(s) => Ok(seq(|s|, i requires 0 <= i < |s| => JStr([s[i]])))
    case JMap(es) => Ok(seq(|es|, i requires 0 <= i < |es| => JStr(es[i].0)))
    case _ => Err("TypeError: not iterable")
  }

  /** Values Python can use as dict keys. */
  predicate Hashable(v: Json) { v.JNull? || v.JBool? || v.JInt? || v.JStr? }

  /** The dict key a hashable value stands for: `True == 1` and `False == 0`
      compare and hash equal, so a boolean and that integer are one key. */
  function DictKey(v: Json): Json
  {
    if v.JBool? then JInt(if v.b then 1 else 0) else v
  }

  /** Two hashable values find the same dict entry exactly when Python's `==`
      holds between them: they are equal, or one is a boolean and the other
      the integer it equals. */
  lemma DictKeyIff(a: Json, b: Json)
    requires Hashable(a) && Hashable(b)
    ensures DictKey(a) == DictKey(b) <==>
              a == b || (a.JBool? && b == JInt(if a.b then 1 else 0)) || (b.JBool? && a == JInt(if b.b then 1 else 0))
  {
  }

  /** How the `inherits` field is read. `AsWritten` is the source's iteration;
      `AsDocumented` reads a plain string as a one-element list, as the presets
      format defines it. */
  datatype InheritsReading = AsWritten | AsDocumented

  function InheritedNames(v: Json, reading: InheritsReading): (r: Result<seq<Json>>)
    ensures reading == AsDocumented && v.JStr? ==> r == Ok([v])
    ensures reading == AsWritten || !v.JStr? ==> r == Iterate(v)
  {
    if reading == AsDocumented && v.JStr? then Ok([v]) else Iterate(v)
  }

  /** `conditional_presets[n] if n in conditional_presets`, for one name. */
  function Registered(n: Json, reg: map<Json, Json>): Option<Json>
  {
    if DictKey(n) in reg then Some(reg[DictKey(n)]) else None
  }

  /** The lookup of every name, in order. */
  function RegisteredEach(names: seq<Json>, reg: map<Json, Json>): (r: seq<Option<Json>>)
    ensures |r| == |names| && forall i :: 0 <= i < |names| ==> r[i] == Registered(names[i], reg)
  {
    seq(|names|, i requires 0 <= i < |names| => Registered(names[i], reg))
  }

  /** `[conditional_presets[n] for n in names if n in conditional_presets]`,
      in `inherits` order; an unhashable name raises. */
  function CollectConditions(names: seq<Json>, reg: map<Json, Json>): (r: Result<seq<Json>>)
    ensures r.Err? <==> exists i :: 0 <= i < |names| && !Hashable(names[i])
    ensures r.Ok? ==> forall c :: c in r.value ==> exists n :: n in names && DictKey(n) in reg && reg[DictKey(n)] == c
    ensures r.Ok? ==> |r.value| <= |names|
    ensures r.Ok? ==> forall i :: 0 <= i < |names| && DictKey(names[i]) in reg ==> reg[DictKey(names[i])] in r.value
    ensures r.Ok? && r.value == [] ==> forall n :: n in names ==> DictKey(n) !in reg
    ensures (forall n :: n in names ==> Hashable(n) && DictKey(n) !in reg) ==> r == Ok([])
  {
    if forall i :: 0 <= i < |names| ==> Hashable(names[i]) then
      var os := RegisteredEach(names, reg);
      SomesMembers(os);
      assert forall c :: c in Somes(os) ==> exists n :: n in names && DictKey(n) in reg && reg[DictKey(n)] == c by {
        forall c | c in Somes(os) ensures exists n :: n in names && DictKey(n) in reg && reg[DictKey(n)] == c {
          var i :| 0 <= i < |os| && os[i] == Some(c);
          assert names[i] in names;
        }
      }
      assert Somes(os) == [] ==> forall n :: n in names ==> DictKey(n) !in reg by {
        forall n | n in names && DictKey(n) in reg ensures Somes(os) != [] {
          var i :| 0 <= i < |names| && names[i] == n;
          assert os[i].Some?;
        }
      }
      assert (forall n :: n in names ==> DictKey(n) !in reg) ==> Somes(os) == [] by {
        if Somes(os) != [] {
          assert Somes(os)[0] in Somes(os);
        }
      }
      Ok(Somes(os))
    else Err("TypeError: unhashable inherits entry")
  }

  /** The gathered conditions follow the `inherits` order: gathering from two
      lists of names one after the other is gathering from their concatenation. */
  lemma CollectConditionsAppend(xs: seq<Json>, ys: seq<Json>, reg: map<Json, Json>)
    ensures CollectConditions(xs + ys, reg).Ok? <==> CollectConditions(xs, reg).Ok? && CollectConditions(ys, reg).Ok?
    ensures CollectConditions(xs + ys, reg).Ok? ==>
              CollectConditions(xs + ys, reg).value == CollectConditions(xs, reg).value + CollectConditions(ys, reg).value
  {
    RegisteredEachAppend(xs, ys, reg);
    AllHashableAppend(xs, ys);
    SomesAppend(RegisteredEach(xs, reg), RegisteredEach(ys, reg));
  }

  lemma RegisteredEachAppend(xs: seq<Json>, ys: seq<Json>, reg: map<Json, Json>)
    ensures RegisteredEach(xs + ys, reg) == RegisteredEach(xs, reg) + RegisteredEach(ys, reg)
  {
    var zs := xs + ys;
    assert forall i :: 0 <= i < |xs| ==> zs[i] == xs[i];
    assert forall i :: 0 <= i < |ys| ==> zs[|xs| + i] == ys[i];
  }

  lemma AllHashableAppend(xs: seq<Json>, ys: seq<Json>)
    ensures (forall i :: 0 <= i < |xs + ys| ==> Hashable((xs + ys)[i])) <==>
            (forall i :: 0 <= i < |xs| ==> Hashable(xs[i])) && (forall i :: 0 <= i < |ys| ==> Hashable(ys[i]))
  {
    var zs := xs + ys;
    assert forall i :: 0 <= i < |xs| ==> zs[i] == xs[i];
    assert forall i :: 0 <= i < |ys| ==> zs[|xs| + i] == ys[i];
  }

  /** One name contributes the condition registered under its dict key (so
      `1` finds one registered under `True`), or nothing when there is none,
      and raises when it cannot be a dict key. */
  lemma CollectConditionsSingle(n: Json, reg: map<Json, Json>)
    ensures CollectConditions([n], reg).Err? <==> !Hashable(n)
    ensures Hashable(n) ==> CollectConditions([n], reg).value == if DictKey(n) in reg then [reg[DictKey(n)]] else []
  {
    assert RegisteredEach([n], reg) == [Registered(n, reg)];
    SomesSingle(Registered(n, reg));
  }

  /** The condition a visible preset receives from its inherited conditions:
      the only one as it is, several combined under `allOf`. */
  function MergedCondition(cs: seq<Json>): Json
    requires cs != []
  {
    if |cs| > 1 then AllOfCondition(cs) else cs[0]
  }

  /** A merged condition is evaluated like `allOf` over the inherited
      conditions: it holds exactly when all of them hold. */
  lemma MergedConditionIsConjunction(cs: seq<Json>, host: Host)
    requires cs != []
    ensures EvaluateCondition(MergedCondition(cs), host) == ShortCircuit(cs, host, true)
    ensures EvaluateCondition(MergedCondition(cs), host) == Ok(true) <==> AllEvaluateTo(cs, host, true)
  {
    CombinatorsEvaluate(cs, host);
    ShortCircuitMeaning(cs, host, true);
    if |cs| == 1 {
      assert cs[1..] == [];
    }
  }

  /** What `process_presets` accumulates: the hidden presets, the visible presets
      with their conditions resolved, and the conditions of hidden presets by name. */
  datatype PresetState = PresetState(hidden: seq<Json>, processed: seq<Json>, conditional: map<Json, Json>)

  predicate IsHidden(p: Json)
  {
    p.JMap? && Truthy(GetOr(p.entries, "hidden", JNull))
  }

  /** One iteration of the loop of `process_presets`. */
  function Step(st: PresetState, p: Json, reading: InheritsReading): (r: Result<PresetState>)
    ensures r.Ok? && IsHidden(p) ==> r.value.processed == st.processed && r.value.hidden == st.hidden + [p]
    ensures IsHidden(p) ==>
              (r.Err? <==> HasKey(p.entries, "condition") &&
                           (Get(p.entries, "name").None? || !Hashable(Get(p.entries, "name").value)))
    ensures r.Ok? && IsHidden(p) ==>
              r.value.conditional == if HasKey(p.entries, "condition")
                                     then st.conditional[DictKey(Get(p.entries, "name").value) := Get(p.entries, "condition").value]
                                     else st.conditional
    ensures r.Ok? && !IsHidden(p) ==> r.value.hidden == st.hidden && |r.value.processed| == |st.processed| + 1
                                      && r.value.conditional == st.conditional
    ensures r.Ok? ==> |st.processed| <= |r.value.processed| && r.value.processed[..|st.processed|] == st.processed
    ensures r.Ok? ==> |st.hidden| <= |r.value.hidden| && r.value.hidden[..|st.hidden|] == st.hidden
  {
    match p
    case JMap(m) =>
      if IsHidden(p) then
        if !HasKey(m, "condition") then Ok(st.(hidden := st.hidden + [p]))
        else
          var name := Get(m, "name");
          if name.None? then Err("KeyError: name")
          else if !Hashable(name.value) then Err("TypeError: unhashable name")
          else Ok(st.(hidden := st.hidden + [p],
                      conditional := st.conditional[DictKey(name.value) := m[IndexOf(m, "condition")].1]))
      else
        var names := InheritedNames(GetOr(m, "inherits", JList([])), reading);
        if names.Err? then Err(names.msg)
        else
          var cs := CollectConditions(names.value, st.conditional);
          if cs.Err? then Err(cs.msg)
          else
            var q := if cs.value == [] then p else JMap(Put(m, "condition", MergedCondition(cs.value)));
            Ok(st.(processed := st.processed + [q]))
    case _ => Err("AttributeError: preset is not a mapping")
  }

  /** `process_presets` over the whole list (the loop as a left fold). */
  function Process(presets: seq<Json>, reading: InheritsReading): Result<PresetState>
    decreases |presets|
  {
    if presets == [] then Ok(PresetState([], [], map[]))
    else
      var prev := Process(presets[..|presets| - 1], reading);
      if prev.Err? then prev else Step(prev.value, presets[|presets| - 1], reading)
  }

  /** The hidden presets of a list, in order. */
  function HiddenOf(presets: seq<Json>): (r: seq<Json>)
    ensures forall p :: p in r <==> p in presets && IsHidden(p)
  {
    if presets == [] then []
    else HiddenOf(presets[..|presets| - 1]) + (if IsHidden(presets[|presets| - 1]) then [presets[|presets| - 1]] else [])
  }

  /** Hidden presets come back unchanged and in input order, and there is exactly
      one processed preset per visible preset. */
  lemma {:induction false} ProcessKeepsHiddenInOrder(presets: seq<Json>, reading: InheritsReading)
    requires Process(presets, reading).Ok?
    ensures Process(presets, reading).value.hidden == HiddenOf(presets)
    ensures |Process(presets, reading).value.processed| + |HiddenOf(presets)| == |presets|
    decreases |presets|
  {
    if presets != [] {
      ProcessKeepsHiddenInOrder(presets[..|presets| - 1], reading);
    }
  }

  /** Later presets never change what earlier ones produced: a visible preset
      sees only the hidden presets listed before it. */
  lemma {:induction false} ProcessIsPrefixStable(ps: seq<Json>, qs: seq<Json>, reading: InheritsReading)
    requires Process(ps + qs, reading).Ok?
    ensures Process(ps, reading).Ok?
    ensures |Process(ps, reading).value.processed| <= |Process(ps + qs, reading).value.processed|
    ensures |Process(ps, reading).value.hidden| <= |Process(ps + qs, reading).value.hidden|
    ensures Process(ps + qs, reading).value.processed[..|Process(ps, reading).value.processed|]
            == Process(ps, reading).value.processed
    ensures Process(ps + qs, reading).value.hidden[..|Process(ps, reading).value.hidden|]
            == Process(ps, reading).value.hidden
    decreases |qs|
  {
    if qs == [] {
      assert ps + qs == ps;
    } else {
      var init := ps + qs[..|qs| - 1];
      assert (ps + qs)[..|ps + qs| - 1] == init;
      assert (ps + qs)[|ps + qs| - 1] == qs[|qs| - 1];
      var mid := Process(init, reading);
      assert mid.Ok?;
      ProcessIsPrefixStable(ps, qs[..|qs| - 1], reading);
      var a := Process(ps, reading).value;
      var b := mid.value;
      var c := Process(ps + qs, reading).value;
      assert c == Step(b, qs[|qs| - 1], reading).value;
      assert c.processed[..|b.processed|] == b.processed;
      assert c.hidden[..|b.hidden|] == b.hidden;
      assert c.processed[..|a.processed|] == c.processed[..|b.processed|][..|a.processed|];
      assert c.hidden[..|a.hidden|] == c.hidden[..|b.hidden|][..|a.hidden|];
    }
  }

  /** A visible preset inherits from named hidden presets that carry a
      condition: with exactly one it receives that condition, with several their
      conjunction, with none it is left as it was. */
  lemma VisibleStep(st: PresetState, m: seq<(string, Json)>, reading: InheritsReading, host: Host)
    requires !IsHidden(JMap(m))
    requires Step(st, JMap(m), reading).Ok?
    ensures var names := InheritedNames(GetOr(m, "inherits", JList([])), reading);
            var q := Step(st, JMap(m), reading).value.processed[|st.processed|];
            names.Ok? && CollectConditions(names.value, st.conditional).Ok? &&
            var cs := CollectConditions(names.value, st.conditional).value;
            (cs == [] ==> q == JMap(m)) &&
            (|cs| == 1 ==> q == JMap(Put(m, "condition", cs[0]))) &&
            (cs != [] ==> q.JMap? && Get(q.entries, "condition") == Some(MergedCondition(cs)) &&
                          (EvaluateCondition(MergedCondition(cs), host) == Ok(true) <==>
                           AllEvaluateTo(cs, host, true)))
  {
    var names := InheritedNames(GetOr(m, "inherits", JList([])), reading);
    var cs := CollectConditions(names.value, st.conditional).value;
    if cs != [] {
      MergedConditionIsConjunction(cs, host);
      GetPut(m, "condition", MergedCondition(cs));
    }
  }

  /** Read as documented, `"inherits": "<name>"` naming an earlier hidden
      preset with a condition gives the visible preset exactly that condition. */
  lemma InheritsStringAsDocumented(st: PresetState, m: seq<(string, Json)>, n: string)
    requires !IsHidden(JMap(m))
    requires GetOr(m, "inherits", JList([])) == JStr(n) && JStr(n) in st.conditional
    ensures Step(st, JMap(m), AsDocumented) ==
            Ok(st.(processed := st.processed + [JMap(Put(m, "condition", st.conditional[JStr(n)]))]))
  {
    var reg := st.conditional;
    assert [JStr(n)][1..] == [];
    assert CollectConditions([], reg) == Ok([]);
    assert CollectConditions([JStr(n)], reg) == Ok([reg[JStr(n)]] + CollectConditions([], reg).value);
    assert [reg[JStr(n)]] + [] == [reg[JStr(n)]];
  }

  /** The list comprehension of `process_presets` that gathers the inherited
      conditions. */
  method CollectInherited(names: seq<Json>, conditional: map<Json, Json>) returns (r: Result<seq<Json>>)
    ensures r == CollectConditions(names, conditional)
  {
    var inherited: seq<Json> := [];
    var k := 0;
    while k < |names|
      invariant 0 <= k <= |names|
      invariant forall j :: 0 <= j < k ==> Hashable(names[j])
      invariant inherited == Somes(RegisteredEach(names[..k], conditional))
    {
      var n := names[k];
      if !Hashable(n) {
        return Err("TypeError: unhashable inherits entry");
      }
      assert RegisteredEach(names[..k + 1], conditional)
             == RegisteredEach(names[..k], conditional) + [Registered(n, conditional)];
      SomesAppend(RegisteredEach(names[..k], conditional), [Registered(n, conditional)]);
      SomesSingle(Registered(n, conditional));
      var key := DictKey(n);
      if key in conditional {
        inherited := inherited + [conditional[key]];
      }
      k := k + 1;
    }
    assert names[..k] == names;
    r := Ok(inherited);
  }

  /** The body of the loop of `process_presets`, on the three accumulators. */
  method ProcessOne(st: PresetState, p: Json, reading: InheritsReading) returns (r: Result<PresetState>)
    ensures r == Step(st, p, reading)
  {
    if !p.JMap? {
      return Err("AttributeError: preset is not a mapping");
    }
    var m := p.entries;
    var hidden, processed, conditional := st.hidden, st.processed, st.conditional;
    if Truthy(GetOr(m, "hidden", JNull)) {
      hidden := hidden + [p];
      if HasKey(m, "condition") {
        var name := Get(m, "name");
        if name.None? {
          return Err("KeyError: name");
        }
        if !Hashable(name.value) {
          return Err("TypeError: unhashable name");
        }
        conditional := conditional[DictKey(name.value) := m[IndexOf(m, "condition")].1];
      }
    } else {
      var names := InheritedNames(GetOr(m, "inherits", JList([])), reading);
      if names.Err? {
        return Err(names.msg);
      }
      var collected := CollectInherited(names.value, conditional);
      if collected.Err? {
        return Err(collected.msg);
      }
      var inherited := collected.value;
      var q := p;
      if inherited != [] {
        q := JMap(Put(m, "condition", if |inherited| > 1 then AllOfCondition(inherited) else inherited[0]));
      }
      processed := processed + [q];
    }
    r := Ok(PresetState(hidden, processed, conditional));
  }

  /** The loop of `process_presets`, with its three accumulators. It returns
      what the source returns, or the exception that ends it; under
      `AsDocumented` an `inherits` string names one parent. */
  method ProcessPresets(presets: seq<Json>, reading: InheritsReading) returns (r: Result<PresetState>)
    ensures r == Process(presets, reading)
  {
    var hidden: seq<Json> := [];
    var processed: seq<Json> := [];
    var conditional: map<Json, Json> := map[];
    var i := 0;
    while i < |presets|
      invariant 0 <= i <= |presets|
      invariant Process(presets[..i], reading) == Ok(PresetState(hidden, processed, conditional))
    {
      ProcessPrefixStep(presets, i, reading);
      var next := ProcessOne(PresetState(hidden, processed, conditional), presets[i], reading);
      if next.Err? {
        PrefixErrPersists(presets, i + 1, reading);
        return next;
      }
      hidden, processed, conditional := next.value.hidden, next.value.processed, next.value.conditional;
      i := i + 1;
    }
    assert presets[..i] == presets;
    r := Ok(PresetState(hidden, processed, conditional));
  }

  /** One more preset extends the fold over the prefix by one `Step`. */
  lemma ProcessPrefixStep(presets: seq<Json>, i: nat, reading: InheritsReading)
    requires i < |presets|
    ensures Process(presets[..i + 1], reading)
         == (var prev := Process(presets[..i], reading);
             if prev.Err? then prev else Step(prev.value, presets[i], reading))
  {
    assert presets[..i + 1][..i] == presets[..i];
  }

  /** Once a prefix of the list raises, the whole list raises with the same error. */
  lemma {:induction false} PrefixErrPersists(presets: seq<Json>, i: nat, reading: InheritsReading)
    requires i <= |presets|
    requires Process(presets[..i], reading).Err?
    ensures Process(presets, reading) == Process(presets[..i], reading)
    decreases |presets| - i
  {
    if i < |presets| {
      assert presets[..i + 1][..i] == presets[..i];
      PrefixErrPersists(presets, i + 1, reading);
    } else {
      assert presets[..i] == presets;
    }
  }

  // ------------------------------------------------------------------ filtering

  /** The preset survives filtering: `condition is None or evaluate_condition(condition)`. */
  predicate Keeps(p: Json, host: Host)
  {
    p.JMap? &&
    var c := GetOr(p.entries, "condition", JNull);
    c == JNull || EvaluateCondition(c, host) == Ok(true)
  }

  /** Filtering this preset raises: it is no mapping, or its condition raises. */
  predicate Raises(p: Json, host: Host)
  {
    !p.JMap? ||
    var c := GetOr(p.entries, "condition", JNull);
    c != JNull && EvaluateCondition(c, host).Err?
  }

  /** `filter_presets_by_conditions` as a function of its input. */
  function Filter(presets: seq<Json>, host: Host): Result<seq<Json>>
    decreases |presets|
  {
    if presets == [] then Ok([])
    else
      var prev := Filter(presets[..|presets| - 1], host);
      var p := presets[|presets| - 1];
      if prev.Err? then prev
      else if Raises(p, host) then Err("condition could not be evaluated")
      else if Keeps(p, host) then Ok(prev.value + [p])
      else prev
  }

  /** `xs` is an order-preserving selection of the elements of `ys`. */
  predicate IsSubsequence<T(==)>(xs: seq<T>, ys: seq<T>)
    decreases |ys|
  {
    if xs == [] then true
    else if ys == [] then false
    else if xs[|xs| - 1] == ys[|ys| - 1] then IsSubsequence(xs[..|xs| - 1], ys[..|ys| - 1])
    else IsSubsequence(xs, ys[..|ys| - 1])
  }

  /** The filtered list is a subsequence of its input and holds exactly the
      presets whose condition is absent or holds; filtering raises exactly when
      some preset raises. */
  lemma FilterMeaning(presets: seq<Json>, host: Host)
    ensures Filter(presets, host).Err? <==> exists i :: 0 <= i < |presets| && Raises(presets[i], host)
    ensures Filter(presets, host).Ok? ==>
              IsSubsequence(Filter(presets, host).value, presets) &&
              (forall p :: p in Filter(presets, host).value <==> p in presets && Keeps(p, host)) &&
              forall p :: multiset(Filter(presets, host).value)[p] == if Keeps(p, host) then multiset(presets)[p] else 0
  {
    FilterRaises(presets, host);
    FilterSubsequence(presets, host);
    FilterMembers(presets, host);
    FilterCounts(presets, host);
  }

  /** Every kept preset is kept as often as it occurs, and no other is kept. */
  lemma {:induction false} FilterCounts(presets: seq<Json>, host: Host)
    ensures Filter(presets, host).Ok? ==>
              forall p :: multiset(Filter(presets, host).value)[p] == if Keeps(p, host) then multiset(presets)[p] else 0
    decreases |presets|
  {
    if presets != [] {
      var init := presets[..|presets| - 1];
      var last := presets[|presets| - 1];
      FilterCounts(init, host);
      assert presets == init + [last];
      assert multiset(presets) == multiset(init) + multiset{last};
      var prev := Filter(init, host);
      if prev.Ok? && Keeps(last, host) && !Raises(last, host) {
        assert multiset(prev.value + [last]) == multiset(prev.value) + multiset{last};
      }
    }
  }

  lemma {:induction false} FilterRaises(presets: seq<Json>, host: Host)
    ensures Filter(presets, host).Err? <==> exists i :: 0 <= i < |presets| && Raises(presets[i], host)
    decreases |presets|
  {
    if presets != [] {
      var init := presets[..|presets| - 1];
      FilterRaises(init, host);
      assert forall i :: 0 <= i < |init| ==> init[i] == presets[i];
    }
  }

  lemma {:induction false} FilterSubsequence(presets: seq<Json>, host: Host)
    ensures Filter(presets, host).Ok? ==> IsSubsequence(Filter(presets, host).value, presets)
    decreases |presets|
  {
    if presets != [] {
      var init := presets[..|presets| - 1];
      var last := presets[|presets| - 1];
      FilterSubsequence(init, host);
      assert presets == init + [last];
      var prev := Filter(init, host);
      if prev.Ok? {
        SubsequenceExtend(prev.value, init, last);
        assert (prev.value + [last])[..|prev.value|] == prev.value;
      }
    }
  }

  lemma {:induction false} FilterMembers(presets: seq<Json>, host: Host)
    ensures Filter(presets, host).Ok? ==>
              forall p :: p in Filter(presets, host).value <==> p in presets && Keeps(p, host)
    decreases |presets|
  {
    if presets != [] {
      var init := presets[..|presets| - 1];
      FilterMembers(init, host);
      assert presets == init + [presets[|presets| - 1]];
    }
  }

  /** A subsequence stays one when the longer sequence grows. */
  lemma {:induction false} SubsequenceExtend<T>(xs: seq<T>, ys: seq<T>, y: T)
    requires IsSubsequence(xs, ys)
    ensures IsSubsequence(xs, ys + [y])
    decreases |ys|, 1
  {
    assert (ys + [y])[..|ys|] == ys;
    if xs != [] && xs[|xs| - 1] == y {
      SubsequenceDropLast(xs, ys);
    }
  }

  lemma {:induction false} SubsequenceDropLast<T>(xs: seq<T>, ys: seq<T>)
    requires xs != [] && IsSubsequence(xs, ys)
    ensures IsSubsequence(xs[..|xs| - 1], ys)
    decreases |ys|, 0
  {
    var ys' := ys[..|ys| - 1];
    assert ys == ys' + [ys[|ys| - 1]];
    if xs[|xs| - 1] == ys[|ys| - 1] {
      SubsequenceExtend(xs[..|xs| - 1], ys', ys[|ys| - 1]);
    } else {
      SubsequenceDropLast(xs, ys');
      SubsequenceExtend(xs[..|xs| - 1], ys', ys[|ys| - 1]);
    }
  }

  /** The loop of `filter_presets_by_conditions`. */
  method FilterPresetsByConditions(presets: seq<Json>, host: Host) returns (r: Result<seq<Json>>)
    ensures r == Filter(presets, host)
  {
    var filtered: seq<Json> := [];
    var i := 0;
    while i < |presets|
      invariant 0 <= i <= |presets|
      invariant Filter(presets[..i], host) == Ok(filtered)
    {
      var p := presets[i];
      assert presets[..i + 1][..i] == presets[..i];
      if !p.JMap? {
        FilterErrPersists(presets, host, i + 1);
        return Err("condition could not be evaluated");
      }
      var c := GetOr(p.entries, "condition", JNull);
      if c != JNull {
        var holds := EvaluateCondition(c, host);
        if holds.Err? {
          FilterErrPersists(presets, host, i + 1);
          return Err("condition could not be evaluated");
        }
        if holds.value {
          filtered := filtered + [p];
        }
      } else {
        filtered := filtered + [p];
      }
      i := i + 1;
    }
    assert presets[..i] == presets;
    r := Ok(filtered);
  }

  lemma {:induction false} FilterErrPersists(presets: seq<Json>, host: Host, i: nat)
    requires i <= |presets|
    requires Filter(presets[..i], host).Err?
    ensures Filter(presets, host) == Filter(presets[..i], host)
    decreases |presets| - i
  {
    if i < |presets| {
      assert presets[..i + 1][..i] == presets[..i];
      FilterErrPersists(presets, host, i + 1);
    } else {
      assert presets[..i] == presets;
    }
  }

  // ------------------------------------------------------------------ the document

  /** The transformation `main` applies between reading and writing the file:
      the `configurePresets` list becomes the hidden presets followed by the
      visible presets that pass the filter; every other key is untouched. */
  function FilterDocument(data: Json, host: Host, reading: InheritsReading): (r: Result<Json>)
    ensures r.Ok? ==> data.JMap? && r.value.JMap?
    ensures r.Ok? ==> forall k :: k != "configurePresets" ==> Get(r.value.entries, k) == Get(data.entries, k)
  {
    match data
    case JMap(m) =>
      var presets := Iterate(GetOr(m, "configurePresets", JList([])));
      if presets.Err? then Err(presets.msg)
      else
        var st := Process(presets.value, reading);
        if st.Err? then Err(st.msg)
        else
          var kept := Filter(st.value.processed, host);
          if kept.Err? then Err(kept.msg)
          else
            var out := Put(m, "configurePresets", JList(st.value.hidden + kept.value));
            GetPutOther(m, "configurePresets", JList(st.value.hidden + kept.value));
            Ok(JMap(out))
    case _ => Err("AttributeError: document is not a mapping")
  }

  /** The written list holds every hidden preset, in input order, ahead of the
      surviving visible ones, and no more presets than were read. */
  lemma DocumentLayout(m: seq<(string, Json)>, host: Host, reading: InheritsReading)
    requires FilterDocument(JMap(m), host, reading).Ok?
    ensures var presets := Iterate(GetOr(m, "configurePresets", JList([]))).value;
            var out := Get(FilterDocument(JMap(m), host, reading).value.entries, "configurePresets");
            out.Some? && out.value.JList? && |HiddenOf(presets)| <= |out.value.items| &&
            out.value.items[..|HiddenOf(presets)|] == HiddenOf(presets) &&
            |out.value.items| <= |presets| &&
            var processed := Process(presets, reading).value.processed;
            var tail := out.value.items[|HiddenOf(presets)|..];
            Filter(processed, host).Ok? && tail == Filter(processed, host).value &&
            IsSubsequence(tail, processed) &&
            (forall p :: p in tail ==> Keeps(p, host)) &&
            forall p :: multiset(tail)[p] == if Keeps(p, host) then multiset(processed)[p] else 0
  {
    var presets := Iterate(GetOr(m, "configurePresets", JList([]))).value;
    var st := Process(presets, reading).value;
    ProcessKeepsHiddenInOrder(presets, reading);
    var kept := Filter(st.processed, host).value;
    FilterMeaning(st.processed, host);
    SubsequenceLength(kept, st.processed);
    var items := st.hidden + kept;
    GetPut(m, "configurePresets", JList(items));
    assert items[|HiddenOf(presets)|..] == kept;
  }

  lemma {:induction false} SubsequenceLength<T>(xs: seq<T>, ys: seq<T>)
    requires IsSubsequence(xs, ys)
    ensures |xs| <= |ys|
    decreases |ys|
  {
    if xs != [] {
      if xs[|xs| - 1] == ys[|ys| - 1] {
        SubsequenceLength(xs[..|xs| - 1], ys[..|ys| - 1]);
      } else {
        SubsequenceLength(xs, ys[..|ys| - 1]);
      }
    }
  }

  // ------------------------------------------------------------------ finding

  const FindingCondition: Json := JMap([("type", JStr("equals")), ("lhs", JStr("a")), ("rhs", JStr("b"))])
  const FindingBase: Json := JMap([("name", JStr("base")), ("hidden", JBool(true)), ("condition", FindingCondition)])
  const FindingDev: Json := JMap([("name", JStr("dev")), ("inherits", JStr("base"))])
  const FindingDevInheriting: Json := JMap(FindingDev.entries + [("condition", FindingCondition)])

  lemma FindingBaseRegisters(reading: InheritsReading)
    ensures Process([FindingBase], reading)
            == Ok(PresetState([FindingBase], [], map[JStr("base") := FindingCondition]))
  {
    var m := FindingBase.entries;
    IndexOfIs(m, "name", 0);
    IndexOfIs(m, "hidden", 1);
    IndexOfIs(m, "condition", 2);
    assert [FindingBase][..0] == [];
  }

  /** As written, the characters of `"base"` name no registered preset. */
  lemma FindingDevStepAsWritten()
    ensures var st := PresetState([FindingBase], [], map[JStr("base") := FindingCondition]);
            Step(st, FindingDev, AsWritten) == Ok(st.(processed := [FindingDev]))
  {
    var m := FindingDev.entries;
    var reg := map[JStr("base") := FindingCondition];
    IndexOfIs(m, "inherits", 1);
    assert !HasKey(m, "hidden") && !HasKey(m, "condition");
    var chars := Iterate(JStr("base")).value;
    assert forall n :: n in chars ==> Hashable(n) && DictKey(n) !in reg;
    assert CollectConditions(chars, reg) == Ok([]);
  }

  /** As documented, `"base"` names the registered preset. */
  lemma FindingDevStepAsDocumented()
    ensures var st := PresetState([FindingBase], [], map[JStr("base") := FindingCondition]);
            Step(st, FindingDev, AsDocumented) == Ok(st.(processed := [FindingDevInheriting]))
  {
    var m := FindingDev.entries;
    var reg := map[JStr("base") := FindingCondition];
    IndexOfIs(m, "inherits", 1);
    assert !HasKey(m, "hidden");
    CollectConditionsSingle(JStr("base"), reg);
    assert !HasKey(m, "condition");
    assert Put(m, "condition", FindingCondition) == FindingDevInheriting.entries;
  }

  /** A hidden preset named `true` registers its condition under the key that
      `1` also stands for, so a visible preset with `"inherits": [1]`
      receives that condition, as a Python dict lookup finds it. */
  lemma BoolNameIsIntKey(c: Json, reading: InheritsReading)
    ensures var base := JMap([("hidden", JBool(true)), ("name", JBool(true)), ("condition", c)]);
            var dev := JMap([("inherits", JList([JInt(1)]))]);
            var st := Step(PresetState([], [], map[]), base, reading);
            st.Ok? && st.value.conditional == map[JInt(1) := c] &&
            Step(st.value, dev, reading) == Ok(st.value.(processed := [JMap(dev.entries + [("condition", c)])]))
  {
    var bm := [("hidden", JBool(true)), ("name", JBool(true)), ("condition", c)];
    IndexOfIs(bm, "hidden", 0);
    IndexOfIs(bm, "name", 1);
    IndexOfIs(bm, "condition", 2);
    var dm := [("inherits", JList([JInt(1)]))];
    IndexOfIs(dm, "inherits", 0);
    assert !HasKey(dm, "hidden") && !HasKey(dm, "condition");
    var reg := map[JInt(1) := c];
    CollectConditionsSingle(JInt(1), reg);
  }

  /** Without a condition the visible preset survives. */
  lemma FindingFilterKeeps(host: Host)
    ensures Filter([FindingDev], host) == Ok([FindingDev])
  {
    assert !HasKey(FindingDev.entries, "condition");
    var l := [FindingDev];
    assert l[..|l| - 1] == [] && l[|l| - 1] == FindingDev;
    assert Filter(l[..|l| - 1], host) == Ok([]);
    assert GetOr(FindingDev.entries, "condition", JNull) == JNull;
    assert Keeps(FindingDev, host) && !Raises(FindingDev, host);
    assert [] + [FindingDev] == l;
  }

  /** The condition of the hidden preset is false everywhere. */
  lemma FindingConditionFalse(host: Host)
    ensures EvaluateCondition(FindingCondition, host) == Ok(false)
  {
    EqualsAndUnknownTypes([], "a", "b", host);
    LiteralEvaluatesToItself("a", host);
    LiteralEvaluatesToItself("b", host);
  }

  /** With the inherited condition, which is false, it is dropped. */
  lemma FindingFilterDrops(host: Host)
    ensures Filter([FindingDevInheriting], host) == Ok([])
  {
    IndexOfIs(FindingDevInheriting.entries, "condition", 2);
    FindingConditionFalse(host);
    assert GetOr(FindingDevInheriting.entries, "condition", JNull) == FindingCondition;
    assert !Raises(FindingDevInheriting, host) && !Keeps(FindingDevInheriting, host);
    var l := [FindingDevInheriting];
    assert l[..|l| - 1] == [] && l[|l| - 1] == FindingDevInheriting;
    assert Filter(l[..|l| - 1], host) == Ok([]);
  }

  /** With `"inherits": "base"`, the source iterates the characters of the name,
      so the condition of the hidden preset `base` is lost and the visible preset
      survives unconditionally; read as documented, it inherits the condition
      and is filtered out where the condition is false. */
  lemma InheritsStringLosesCondition(host: Host)
    ensures Process([FindingBase, FindingDev], AsWritten)
            == Ok(PresetState([FindingBase], [FindingDev], map[JStr("base") := FindingCondition]))
    ensures Process([FindingBase, FindingDev], AsDocumented)
            == Ok(PresetState([FindingBase], [FindingDevInheriting], map[JStr("base") := FindingCondition]))
    ensures Filter([FindingDev], host) == Ok([FindingDev])
    ensures Filter([FindingDevInheriting], host) == Ok([])
  {
    assert [FindingBase, FindingDev][..1] == [FindingBase];
    FindingBaseRegisters(AsWritten);
    FindingBaseRegisters(AsDocumented);
    FindingDevStepAsWritten();
    FindingDevStepAsDocumented();
    FindingFilterKeeps(host);
    FindingFilterDrops(host);
  }
}
