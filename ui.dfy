/** The self-contained validators and normalisers of the widget generator
    (`CppGroupGenerator` in yaml2ui.py), on loaded YAML values. */
module Ui {
  import opened Strings
  import opened JsonValue

  // ------------------------------------------------------------------ targets

  /** The class and the YAML section of a target name, lower-cased. */
  function TargetFor(t: string): (r: Option<(string, string)>)
    ensures r.Some? <==> t in {"groups", "group", "pages", "page", "wizardpages", "wizardpage"}
    ensures r.Some? ==> r.value in {("Group", "groups"), ("Page", "pages"), ("WizardPage", "wizardpages")}
  {
    if t == "groups" || t == "group" then Some(("Group", "groups"))
    else if t == "pages" || t == "page" then Some(("Page", "pages"))
    else if t == "wizardpages" || t == "wizardpage" then Some(("WizardPage", "wizardpages"))
    else None
  }

  /** Upper-casing the requested target does not change which one is chosen. */
  lemma TargetIgnoresCase(t: string)
    ensures TargetFor(Lower(Upper(t))) == TargetFor(Lower(t))
  {
    LowerOfUpper(t);
  }

  class CppGroupGenerator {
    var targetType: string
    var targetClass: string
    /** The page type the next generated page module declares. */
    var nextPageType: int

    constructor()
      ensures targetType == "groups" && targetClass == "Group" && nextPageType == 1000
    {
      targetType := "groups";
      targetClass := "Group";
      nextPageType := 1000;
    }

    /** `target`: choose what the generator emits; an unknown name fails and
        leaves the choice as it was. */
    method Target(targets: string) returns (r: Result<bool>)
      modifies this`targetType, this`targetClass
      ensures r.Ok? <==> TargetFor(Lower(targets)).Some?
      ensures r.Ok? ==> (targetClass, targetType) == TargetFor(Lower(targets)).value
      ensures r.Err? ==> targetClass == old(targetClass) && targetType == old(targetType)
    {
      var t := Lower(targets);
      if t == "groups" || t == "group" {
        targetClass, targetType := "Group", "groups";
      } else if t == "pages" || t == "page" {
        targetClass, targetType := "Page", "pages";
      } else if t == "wizardpages" || t == "wizardpage" {
        targetClass, targetType := "WizardPage", "wizardpages";
      } else {
        return Err("ValueError: Unknown target '" + targets + "'");
      }
      r := Ok(true);
    }

    /** The page type of one generated module; every module gets the next one. */
    method AllocatePageType() returns (pageType: int)
      modifies this`nextPageType
      ensures pageType == old(nextPageType) && nextPageType == pageType + 1
    {
      pageType := nextPageType;
      nextPageType := nextPageType + 1;
    }

    /** `extract_control_class`: the concrete class and the base class of an
        element, each falling back as the source does. */
    function ExtractControlClass(elements: seq<(string, Json)>): (r: (string, string))
      reads this
    {
      var base := ChooseClass(GetOr(elements, "base_class", JNull), targetClass);
      (ChooseClass(GetOr(elements, "class", JNull), base), base)
    }

    /** With a non-blank target class, both classes come out non-blank, and a
        given non-blank class is taken stripped. */
    lemma ControlClassNonBlank(elements: seq<(string, Json)>)
      requires !IsBlank(targetClass)
      ensures !IsBlank(ExtractControlClass(elements).0) && !IsBlank(ExtractControlClass(elements).1)
      ensures IsNonBlankStr(GetOr(elements, "base_class", JNull)) ==>
                ExtractControlClass(elements).1 == Strip(GetOr(elements, "base_class", JNull).s)
      ensures IsNonBlankStr(GetOr(elements, "class", JNull)) ==>
                ExtractControlClass(elements).0 == Strip(GetOr(elements, "class", JNull).s)
    {
      ChoiceNonBlank(GetOr(elements, "base_class", JNull), targetClass);
      ChoiceNonBlank(GetOr(elements, "class", JNull), ExtractControlClass(elements).1);
    }
  }

  /** `value or fallback`, kept when it is a non-blank string (stripped),
      otherwise the fallback. */
  function ChooseClass(given: Json, fallback: string): (r: string)
    ensures IsNonBlankStr(given) ==> r == Strip(given.s)
    ensures !IsNonBlankStr(given) && Truthy(given) ==> r == fallback
    ensures !Truthy(given) ==> r == (if IsBlank(fallback) then fallback else Strip(fallback))
  {
    var v := if Truthy(given) then given else JStr(fallback);
    if IsNonBlankStr(v) then Strip(v.s) else fallback
  }

  lemma ChoiceNonBlank(given: Json, fallback: string)
    requires !IsBlank(fallback)
    ensures !IsBlank(ChooseClass(given, fallback))
  {
    if IsNonBlankStr(given) {
      StripIdempotent(given.s);
    } else if !Truthy(given) {
      StripIdempotent(fallback);
    }
  }

  // ------------------------------------------------------------------ identifiers

  predicate IdentChar(c: char) { IsAlnum(c) || c == '_' }

  /** `all(c.isalnum() or c == "_" for c in s)` */
  function AllIdentChars(s: string): bool
  {
    s == [] || (IdentChar(s[0]) && AllIdentChars(s[1..]))
  }

  /** `_is_identifier` */
  predicate IsIdentifier(v: Json)
  {
    v.JStr? && v.s != [] && (IsAlpha(v.s[0]) || v.s[0] == '_') && AllIdentChars(v.s)
  }

  lemma {:induction false} AllIdentCharsIff(s: string)
    ensures AllIdentChars(s) <==> forall i :: 0 <= i < |s| ==> IdentChar(s[i])
  {
    if s != [] {
      AllIdentCharsIff(s[1..]);
      assert forall i :: 1 <= i < |s| ==> s[i] == s[1..][i - 1];
    }
  }

  /** An identifier is a non-empty string of letters, digits and underscores
      that does not start with a digit. */
  lemma IsIdentifierIff(v: Json)
    ensures IsIdentifier(v) <==>
              v.JStr? && v.s != [] && !IsDigit(v.s[0]) && forall i :: 0 <= i < |v.s| ==> IdentChar(v.s[i])
  {
    if v.JStr? {
      AllIdentCharsIff(v.s);
    }
  }

  // ------------------------------------------------------------------ event names

  /** Event aliases: text. */
  const TextEvents: seq<(string, string)> := [
    ("EVT_TEXT", "wxEVT_TEXT"),
    ("EVT_TEXT_ENTER", "wxEVT_TEXT_ENTER"),
    ("EVT_TEXT_MAXLEN", "wxEVT_TEXT_MAXLEN"),
    ("EVT_TEXT_URL", "wxEVT_TEXT_URL")]

  /** Event aliases: buttons / toggles / check / radio. */
  const ButtonEvents: seq<(string, string)> := [
    ("EVT_BUTTON", "wxEVT_BUTTON"),
    ("EVT_COMMAND_BUTTON_CLICKED", "wxEVT_COMMAND_BUTTON_CLICKED"),
    ("EVT_TOGGLEBUTTON", "wxEVT_TOGGLEBUTTON"),
    ("EVT_COMMAND_TOGGLEBUTTON_CLICKED", "wxEVT_TOGGLEBUTTON"),
    ("EVT_CHECKBOX", "wxEVT_CHECKBOX"),
    ("EVT_RADIOBUTTON", "wxEVT_RADIOBUTTON"),
    ("EVT_RADIOBOX", "wxEVT_RADIOBOX")]

  /** Event aliases: choice / combo. */
  const ChoiceEvents: seq<(string, string)> := [
    ("EVT_CHOICE", "wxEVT_CHOICE"),
    ("EVT_COMBOBOX", "wxEVT_COMBOBOX"),
    ("EVT_COMBOBOX_DROPDOWN", "wxEVT_COMBOBOX_DROPDOWN"),
    ("EVT_COMBOBOX_CLOSEUP", "wxEVT_COMBOBOX_CLOSEUP")]

  /** Event aliases: spin / slider / scrollbar. */
  const SpinEvents: seq<(string, string)> := [
    ("EVT_SLIDER", "wxEVT_SLIDER"),
    ("EVT_SPINCTRL", "wxEVT_SPINCTRL"),
    ("EVT_SPINCTRLDOUBLE", "wxEVT_SPINCTRLDOUBLE")]

  /** Event aliases: scrollbar (the rest of the spin / slider / scrollbar group). */
  const ScrollEvents: seq<(string, string)> := [
    ("EVT_SCROLL_TOP", "wxEVT_SCROLL_TOP"),
    ("EVT_SCROLL_BOTTOM", "wxEVT_SCROLL_BOTTOM"),
    ("EVT_SCROLL_LINEUP", "wxEVT_SCROLL_LINEUP"),
    ("EVT_SCROLL_LINEDOWN", "wxEVT_SCROLL_LINEDOWN"),
    ("EVT_SCROLL_PAGEUP", "wxEVT_SCROLL_PAGEUP"),
    ("EVT_SCROLL_PAGEDOWN", "wxEVT_SCROLL_PAGEDOWN"),
    ("EVT_SCROLL_THUMBTRACK", "wxEVT_SCROLL_THUMBTRACK"),
    ("EVT_SCROLL_THUMBRELEASE", "wxEVT_SCROLL_THUMBRELEASE"),
    ("EVT_SCROLL_CHANGED", "wxEVT_SCROLL_CHANGED")]

  /** Event aliases: date. */
  const DateEvents: seq<(string, string)> := [
    ("EVT_DATE_CHANGED", "wxEVT_DATE_CHANGED")]

  /** Event aliases: list / tree basics. */
  const ListEvents: seq<(string, string)> := [
    ("EVT_LISTBOX", "wxEVT_LISTBOX"),
    ("EVT_LISTBOX_DCLICK", "wxEVT_LISTBOX_DCLICK"),
    ("EVT_TREE_SEL_CHANGED", "wxEVT_TREE_SEL_CHANGED"),
    ("EVT_TREE_ITEM_ACTIVATED", "wxEVT_TREE_ITEM_ACTIVATED")]

  /** Event aliases: menu / toolbar. */
  const MenuEvents: seq<(string, string)> := [
    ("EVT_MENU", "wxEVT_MENU"),
    ("EVT_UPDATE_UI", "wxEVT_UPDATE_UI"),
    ("EVT_TOOL", "wxEVT_TOOL"),
    ("EVT_TOOL_RCLICKED", "wxEVT_TOOL_RCLICKED")]

  /** Event aliases: window/general. */
  const WindowEvents: seq<(string, string)> := [
    ("EVT_SIZE", "wxEVT_SIZE"),
    ("EVT_MOVE", "wxEVT_MOVE"),
    ("EVT_PAINT", "wxEVT_PAINT"),
    ("EVT_IDLE", "wxEVT_IDLE"),
    ("EVT_TIMER", "wxEVT_TIMER"),
    ("EVT_SET_FOCUS", "wxEVT_SET_FOCUS"),
    ("EVT_KILL_FOCUS", "wxEVT_KILL_FOCUS")]

  /** Event aliases: keyboard. */
  const KeyboardEvents: seq<(string, string)> := [
    ("EVT_KEY_DOWN", "wxEVT_KEY_DOWN"),
    ("EVT_KEY_UP", "wxEVT_KEY_UP"),
    ("EVT_CHAR", "wxEVT_CHAR"),
    ("EVT_CHAR_HOOK", "wxEVT_CHAR_HOOK")]

  /** Event aliases: mouse. */
  const MouseEvents: seq<(string, string)> := [
    ("EVT_LEFT_DOWN", "wxEVT_LEFT_DOWN"),
    ("EVT_LEFT_UP", "wxEVT_LEFT_UP"),
    ("EVT_LEFT_DCLICK", "wxEVT_LEFT_DCLICK"),
    ("EVT_MIDDLE_DOWN", "wxEVT_MIDDLE_DOWN"),
    ("EVT_MIDDLE_UP", "wxEVT_MIDDLE_UP"),
    ("EVT_MIDDLE_DCLICK", "wxEVT_MIDDLE_DCLICK"),
    ("EVT_RIGHT_DOWN", "wxEVT_RIGHT_DOWN"),
    ("EVT_RIGHT_UP", "wxEVT_RIGHT_UP"),
    ("EVT_RIGHT_DCLICK", "wxEVT_RIGHT_DCLICK")]

  /** Event aliases: mouse motion and wheel (the rest of the mouse group). */
  const MouseMotionEvents: seq<(string, string)> := [
    ("EVT_MOTION", "wxEVT_MOTION"),
    ("EVT_ENTER_WINDOW", "wxEVT_ENTER_WINDOW"),
    ("EVT_LEAVE_WINDOW", "wxEVT_LEAVE_WINDOW"),
    ("EVT_MOUSEWHEEL", "wxEVT_MOUSEWHEEL")]

  const EventMapping: seq<(string, string)> :=
    TextEvents + ButtonEvents + ChoiceEvents + SpinEvents + ScrollEvents + DateEvents + ListEvents + MenuEvents + WindowEvents + KeyboardEvents + MouseEvents + MouseMotionEvents

  function Lookup(table: seq<(string, string)>, key: string): (r: Option<string>)
    ensures r.Some? ==> (key, r.value) in table
    ensures r.None? ==> forall i :: 0 <= i < |table| ==> table[i].0 != key
  {
    if table == [] then None
    else if table[0].0 == key then Some(table[0].1)
    else
      var r := Lookup(table[1..], key);
      assert forall i :: 1 <= i < |table| ==> table[i] == table[1..][i - 1];
      r
  }

  /** A wxWidgets event constant as the generator emits it. */
  predicate EventToken(v: string)
  {
    StartsWith(v, "wxEVT_") && !IsSpace(v[|v| - 1])
  }

  lemma TextEventsAreTokens()
    ensures forall p :: p in TextEvents ==> EventToken(p.1)
  {
    forall i | 0 <= i < |TextEvents| ensures EventToken(TextEvents[i].1) {
    }
  }

  lemma ButtonEventsAreTokens()
    ensures forall p :: p in ButtonEvents ==> EventToken(p.1)
  {
    forall i | 0 <= i < |ButtonEvents| ensures EventToken(ButtonEvents[i].1) {
    }
  }

  lemma ChoiceEventsAreTokens()
    ensures forall p :: p in ChoiceEvents ==> EventToken(p.1)
  {
    forall i | 0 <= i < |ChoiceEvents| ensures EventToken(ChoiceEvents[i].1) {
    }
  }

  lemma SpinEventsAreTokens()
    ensures forall p :: p in SpinEvents ==> EventToken(p.1)
  {
    forall i | 0 <= i < |SpinEvents| ensures EventToken(SpinEvents[i].1) {
    }
  }

  lemma DateEventsAreTokens()
    ensures forall p :: p in DateEvents ==> EventToken(p.1)
  {
    forall i | 0 <= i < |DateEvents| ensures EventToken(DateEvents[i].1) {
    }
  }

  lemma ListEventsAreTokens()
    ensures forall p :: p in ListEvents ==> EventToken(p.1)
  {
    forall i | 0 <= i < |ListEvents| ensures EventToken(ListEvents[i].1) {
    }
  }

  lemma MenuEventsAreTokens()
    ensures forall p :: p in MenuEvents ==> EventToken(p.1)
  {
    forall i | 0 <= i < |MenuEvents| ensures EventToken(MenuEvents[i].1) {
    }
  }

  lemma WindowEventsAreTokens()
    ensures forall p :: p in WindowEvents ==> EventToken(p.1)
  {
    forall i | 0 <= i < |WindowEvents| ensures EventToken(WindowEvents[i].1) {
    }
  }

  lemma KeyboardEventsAreTokens()
    ensures forall p :: p in KeyboardEvents ==> EventToken(p.1)
  {
    forall i | 0 <= i < |KeyboardEvents| ensures EventToken(KeyboardEvents[i].1) {
    }
  }

  lemma MouseEventsAreTokens()
    ensures forall p :: p in MouseEvents ==> EventToken(p.1)
  {
    forall i | 0 <= i < |MouseEvents| ensures EventToken(MouseEvents[i].1) {
    }
  }

  lemma MouseMotionEventsAreTokens()
    ensures forall p :: p in MouseMotionEvents ==> EventToken(p.1)
  {
    forall i | 0 <= i < |MouseMotionEvents| ensures EventToken(MouseMotionEvents[i].1) {
    }
  }

  lemma ScrollEventsAreTokens()
    ensures forall p :: p in ScrollEvents ==> EventToken(p.1)
  {
    forall i | 0 <= i < |ScrollEvents| ensures EventToken(ScrollEvents[i].1) {
    }
  }

  /** Every value of the alias table is an event constant. */
  lemma EventMappingTokens()
    ensures TokenTable(EventMapping)
  {
    TextEventsAreTokens();
    ButtonEventsAreTokens();
    ChoiceEventsAreTokens();
    SpinEventsAreTokens();
    DateEventsAreTokens();
    ListEventsAreTokens();
    MenuEventsAreTokens();
    WindowEventsAreTokens();
    KeyboardEventsAreTokens();
    MouseEventsAreTokens();
    MouseMotionEventsAreTokens();
    ScrollEventsAreTokens();
  }

  /** The input upper-cased, with `-` and spaces turned into `_`, and `EVT_` in front. */
  function Canonical(s: string): (r: string)
    ensures StartsWith(r, "EVT_")
    ensures s != [] && !IsSpace(s[|s| - 1]) ==> !IsSpace(r[|r| - 1])
  {
    var up := ReplaceChar(ReplaceChar(Upper(s), '-', '_'), ' ', '_');
    if StartsWith(up, "EVT_") then up else "EVT_" + up
  }

  /** Every value of the table is an event constant. */
  predicate TokenTable(table: seq<(string, string)>)
  {
    forall p :: p in table ==> EventToken(p.1)
  }

  /** `"wx" + up` for a canonical name is an event constant. */
  lemma WxToken(up: string)
    requires StartsWith(up, "EVT_") && !IsSpace(up[|up| - 1])
    ensures EventToken("wx" + up)
  {
    assert ("wx" + up)[..6] == "wx" + up[..4];
  }

  /** The alias steps for a canonical name: the table, then the table
      without `COMMAND_`, then `wx` in front. The source's last fallback
      to `wxEVT_TEXT` is not reachable, since `wx` + `EVT_...` always starts
      with `wxEVT_`. */
  function ResolveAlias(up: string, table: seq<(string, string)>): (r: string)
    requires TokenTable(table)
    requires StartsWith(up, "EVT_") && !IsSpace(up[|up| - 1])
    ensures EventToken(r)
    ensures Lookup(table, up).Some? ==> r == Lookup(table, up).value
    ensures Lookup(table, up).None? && !Contains(up, "EVT_COMMAND_") ==> r == "wx" + up
    ensures Lookup(table, up).None? && Contains(up, "EVT_COMMAND_") ==>
              var legacy := Lookup(table, ReplaceFirst(up, "EVT_COMMAND_", "EVT_"));
              r == if legacy.Some? then legacy.value else "wx" + up
  {
    WxToken(up);
    var mapped := Lookup(table, up);
    if mapped.Some? && mapped.value != [] then mapped.value
    else if Contains(up, "EVT_COMMAND_") then
      var mapped2 := Lookup(table, ReplaceFirst(up, "EVT_COMMAND_", "EVT_"));
      if mapped2.Some? && mapped2.value != [] then mapped2.value else "wx" + up
    else "wx" + up
  }

  /** The canonical form of a non-blank input. */
  function CanonicalOf(s: string): (up: string)
    requires !IsBlank(s)
    ensures StartsWith(up, "EVT_") && !IsSpace(up[|up| - 1])
  {
    var t := Strip(s);
    assert t != [] && !IsSpace(t[|t| - 1]);
    Canonical(t)
  }

  /** `_normalize_event_name` against an alias table whose values are event
      constants; the generator's table is `EventMapping`. */
  function NormalizeEventNameIn(ev: Json, table: seq<(string, string)>): (r: string)
    requires TokenTable(table)
    ensures EventToken(r)
  {
    if !ev.JStr? || IsBlank(ev.s) then "wxEVT_TEXT"
    else if StartsWith(Strip(ev.s), "wxEVT_") then Strip(ev.s)
    else ResolveAlias(CanonicalOf(ev.s), table)
  }

  /** A blank or non-string value gives `wxEVT_TEXT`, a `wxEVT_` constant is
      kept (stripped), and anything else goes through the aliases. */
  lemma NormalizeEventNameInCases(ev: Json, table: seq<(string, string)>)
    requires TokenTable(table)
    ensures !ev.JStr? || IsBlank(ev.s) ==> NormalizeEventNameIn(ev, table) == "wxEVT_TEXT"
    ensures ev.JStr? && StartsWith(Strip(ev.s), "wxEVT_") ==> NormalizeEventNameIn(ev, table) == Strip(ev.s)
    ensures ev.JStr? && !IsBlank(ev.s) && !StartsWith(Strip(ev.s), "wxEVT_") ==>
              NormalizeEventNameIn(ev, table) == ResolveAlias(CanonicalOf(ev.s), table)
  {
    if ev.JStr? && StartsWith(Strip(ev.s), "wxEVT_") {
      assert Strip(ev.s) != [];
    }
  }

  /** A normalised name normalises to itself. */
  lemma NormalizeEventNameInIdempotent(ev: Json, table: seq<(string, string)>)
    requires TokenTable(table)
    ensures NormalizeEventNameIn(JStr(NormalizeEventNameIn(ev, table)), table) == NormalizeEventNameIn(ev, table)
  {
    TokenNormalizesToItself(NormalizeEventNameIn(ev, table), table);
  }

  /** An event constant is kept as it is. */
  lemma TokenNormalizesToItself(r: string, table: seq<(string, string)>)
    requires TokenTable(table) && EventToken(r)
    ensures NormalizeEventNameIn(JStr(r), table) == r
  {
    assert r[0] == 'w';
    StripStripped(r);
    NormalizeEventNameInCases(JStr(r), table);
  }

  /** `_normalize_event_name` with the generator's alias table. */
  function NormalizeEventName(ev: Json): (r: string)
    ensures EventToken(r)
    ensures !ev.JStr? || IsBlank(ev.s) ==> r == "wxEVT_TEXT"
    ensures ev.JStr? && StartsWith(Strip(ev.s), "wxEVT_") ==> r == Strip(ev.s)
  {
    EventMappingTokens();
    NormalizeEventNameIn(ev, EventMapping)
  }

  /** A normalised name normalises to itself. */
  lemma NormalizeEventNameIdempotent(ev: Json)
    ensures NormalizeEventName(JStr(NormalizeEventName(ev))) == NormalizeEventName(ev)
  {
    EventMappingTokens();
    NormalizeEventNameInIdempotent(ev, EventMapping);
  }

  // ------------------------------------------------------------------ create flags

  const WxFlagsPrefix: string := "wx::UICreateFlags::"
  const FlagsPrefix: string := "UICreateFlags::"

  /** A flag named with its scope loses the scope. */
  function StripFlagPrefix(f: string): (r: string)
    ensures StartsWith(f, WxFlagsPrefix) ==> r == f[|WxFlagsPrefix|..]
    ensures !StartsWith(f, WxFlagsPrefix) && StartsWith(f, FlagsPrefix) ==> r == f[|FlagsPrefix|..]
    ensures !StartsWith(f, WxFlagsPrefix) && !StartsWith(f, FlagsPrefix) ==> r == f
  {
    if StartsWith(f, WxFlagsPrefix) then f[|WxFlagsPrefix|..]
    else if StartsWith(f, FlagsPrefix) then f[|FlagsPrefix|..]
    else f
  }

  /** The flag a list entry or a single string gives, if it is a non-blank string. */
  function FlagOf(v: Json): Option<string>
  {
    if IsNonBlankStr(v) then Some(StripFlagPrefix(Strip(v.s))) else None
  }

  /** The flag of each entry, in order. */
  function EntryFlags(items: seq<Json>): (r: seq<Option<string>>)
    ensures |r| == |items| && forall i :: 0 <= i < |items| ==> r[i] == FlagOf(items[i])
  {
    seq(|items|, i requires 0 <= i < |items| => FlagOf(items[i]))
  }

  /** The flags of the non-blank string entries of a list, in order. */
  function ListedFlags(items: seq<Json>): (r: seq<string>)
    ensures |r| <= |items|
  {
    Somes(EntryFlags(items))
  }

  /** The flags keep the order of the entries: the flags of two lists one
      after the other are the flags of their concatenation. */
  lemma ListedFlagsAppend(xs: seq<Json>, ys: seq<Json>)
    ensures ListedFlags(xs + ys) == ListedFlags(xs) + ListedFlags(ys)
  {
    assert EntryFlags(xs + ys) == EntryFlags(xs) + EntryFlags(ys);
    SomesAppend(EntryFlags(xs), EntryFlags(ys));
  }

  /** Every flag comes from an entry, and every non-blank string entry gives
      its stripped flag without the scope. */
  lemma ListedFlagsMembers(items: seq<Json>)
    ensures forall f :: f in ListedFlags(items) ==> exists i :: 0 <= i < |items| && FlagOf(items[i]) == Some(f)
    ensures forall i :: 0 <= i < |items| && IsNonBlankStr(items[i]) ==> StripFlagPrefix(Strip(items[i].s)) in ListedFlags(items)
  {
    SomesMembers(EntryFlags(items));
  }

  /** A list of non-blank strings gives one flag per entry. */
  lemma ListedFlagsAllStrings(items: seq<Json>)
    requires forall i :: 0 <= i < |items| ==> IsNonBlankStr(items[i])
    ensures |ListedFlags(items)| == |items|
  {
    SomesAllPresent(EntryFlags(items));
  }

  /** One entry gives its stripped flag without the scope when it is a
      non-blank string, and nothing otherwise. */
  lemma ListedFlagsSingle(v: Json)
    ensures ListedFlags([v]) == if IsNonBlankStr(v) then [StripFlagPrefix(Strip(v.s))] else []
  {
    assert EntryFlags([v]) == [FlagOf(v)];
    SomesSingle(FlagOf(v));
  }

  /** The flags the `uicreateflags` value names: one string, a list, or nothing. */
  function GivenFlags(node: Json): seq<string>
  {
    match node
    case JStr(_) => if FlagOf(node).Some? then [FlagOf(node).value] else []
    case JList(items) => ListedFlags(items)
    case _ => []
  }

  /** The flag list: the given flags, `Group` added for a group when absent,
      and `Null` when the list would otherwise be empty. */
  function CreateFlags(node: Json, isGroup: bool): (r: seq<string>)
    ensures r != []
    ensures isGroup ==> "Group" in r
    ensures isGroup ==> r == if "Group" in GivenFlags(node) then GivenFlags(node) else GivenFlags(node) + ["Group"]
    ensures |GivenFlags(node)| <= |r| && r[..|GivenFlags(node)|] == GivenFlags(node)
    ensures GivenFlags(node) != [] && !isGroup ==> r == GivenFlags(node)
    ensures GivenFlags(node) == [] && !isGroup ==> r == ["Null"]
    ensures forall f :: f in r ==> f in GivenFlags(node) || f == "Group" || f == "Null"
  {
    var given := GivenFlags(node);
    var withGroup := if isGroup && "Group" !in given then given + ["Group"] else given;
    if withGroup == [] then ["Null"] else withGroup
  }

  /** `" | ".join(f"UICreateFlags::{f}" for f in flags)` */
  function FlagsExpression(flags: seq<string>): string
  {
    Join(" | ", Scoped(flags))
  }

  function Scoped(flags: seq<string>): (r: seq<string>)
    ensures |r| == |flags| && forall i :: 0 <= i < |flags| ==> r[i] == FlagsPrefix + flags[i]
  {
    if flags == [] then [] else [FlagsPrefix + flags[0]] + Scoped(flags[1..])
  }

  /** The loop over a `uicreateflags` list. */
  method CollectListedFlags(items: seq<Json>) returns (flags: seq<string>)
    ensures flags == ListedFlags(items)
  {
    flags := [];
    var i := 0;
    while i < |items|
      invariant 0 <= i <= |items|
      invariant flags == ListedFlags(items[..i])
    {
      assert items[..i + 1] == items[..i] + [items[i]];
      ListedFlagsAppend(items[..i], [items[i]]);
      var f := FlagOf(items[i]);
      assert EntryFlags([items[i]]) == [f];
      SomesSingle(f);
      if f.Some? {
        flags := flags + [f.value];
      }
      i := i + 1;
    }
    assert items[..i] == items;
  }

  /** `extract_uicreate_flags`: the flag list, the C++ expression and the group flag. */
  method ExtractUiCreateFlags(elements: seq<(string, Json)>) returns (flags: seq<string>, cflags: string, isGroup: bool)
    ensures isGroup <==> GetOr(elements, "is_group", JBool(false)) == JBool(true)
    ensures flags == CreateFlags(GetOr(elements, "uicreateflags", JNull), isGroup)
    ensures cflags == FlagsExpression(flags)
  {
    var node := GetOr(elements, "uicreateflags", JNull);
    flags := [];
    if node.JStr? {
      var f := FlagOf(node);
      if f.Some? {
        flags := flags + [f.value];
      }
    } else if node.JList? {
      flags := CollectListedFlags(node.items);
    }
    assert flags == GivenFlags(node);
    var g := GetOr(elements, "is_group", JBool(false));
    isGroup := if g.JBool? then g.b else false;
    if isGroup && "Group" !in flags {
      flags := flags + ["Group"];
    }
    if flags == [] {
      flags := flags + ["Null"];
    }
    cflags := FlagsExpression(flags);
  }

  // ------------------------------------------------------------------ argument triples

  datatype Triple = Triple(name: string, ty: string, value: Json)

  /** The group of three entries starting at `i`, kept when its name and
      type are non-blank strings, both stripped. */
  function TripleAt(items: seq<Json>, i: nat): Option<Triple>
    requires i + 3 <= |items|
  {
    if !IsNonBlankStr(items[i]) then None
    else if !IsNonBlankStr(items[i + 1]) then None
    else Some(Triple(Strip(items[i].s), Strip(items[i + 1].s), items[i + 2]))
  }

  /** The kept groups from group `k` on; a trailing part shorter than three is ignored. */
  function TriplesFrom(items: seq<Json>, k: nat): seq<Triple>
    decreases |items| - 3 * k
  {
    if 3 * k + 3 > |items| then []
    else
      var rest := TriplesFrom(items, k + 1);
      var t := TripleAt(items, 3 * k);
      if t.Some? then [t.value] + rest else rest
  }

  lemma UnfoldTriples(items: seq<Json>, k: nat)
    requires 3 * k + 3 <= |items|
    ensures TriplesFrom(items, k) ==
              if TripleAt(items, 3 * k).Some? then [TripleAt(items, 3 * k).value] + TriplesFrom(items, k + 1)
              else TriplesFrom(items, k + 1)
  {
  }

  /** `_triples`: a list is read in groups of three; anything else gives no triples. */
  function Triples(arr: Json): seq<Triple>
  {
    if arr.JList? then TriplesFrom(arr.items, 0) else []
  }

  /** The loop of `_triples`; each group is checked by `TripleAt`. */
  method ParseTriples(arr: Json) returns (res: seq<Triple>)
    ensures res == Triples(arr)
  {
    res := [];
    if !arr.JList? {
      return;
    }
    var items := arr.items;
    var k: nat := 0;
    while 3 * k + 3 <= |items|
      invariant res + TriplesFrom(items, k) == TriplesFrom(items, 0)
      decreases |items| - 3 * k
    {
      var t := TripleAt(items, 3 * k);
      UnfoldTriples(items, k);
      if t.Some? {
        res := res + [t.value];
      }
      k := k + 1;
    }
    assert res + [] == res;
  }

  /** A kept group has a stripped, non-empty name and type. */
  lemma TripleAtStripped(items: seq<Json>, i: nat)
    requires i + 3 <= |items|
    ensures TripleAt(items, i).Some? ==>
              var t := TripleAt(items, i).value;
              t.name != [] && Strip(t.name) == t.name && t.ty != [] && Strip(t.ty) == t.ty
  {
    if TripleAt(items, i).Some? {
      StripIdempotent(items[i].s);
      StripIdempotent(items[i + 1].s);
    }
  }

  /** Every kept triple has a stripped, non-empty name and type. */
  lemma {:induction false} TriplesStripped(items: seq<Json>, k: nat)
    ensures forall t :: t in TriplesFrom(items, k) ==>
              t.name != [] && Strip(t.name) == t.name && t.ty != [] && Strip(t.ty) == t.ty
    decreases |items| - 3 * k
  {
    if 3 * k + 3 <= |items| {
      UnfoldTriples(items, k);
      TriplesStripped(items, k + 1);
      TripleAtStripped(items, 3 * k);
    }
  }

  /** Group `g` has a non-blank name and type. */
  predicate GoodGroup(items: seq<Json>, g: nat)
  {
    3 * g + 3 <= |items| && IsNonBlankStr(items[3 * g]) && IsNonBlankStr(items[3 * g + 1])
  }

  /** The triple that group `g` gives when it is well formed. */
  function GroupTriple(items: seq<Json>, g: nat): Triple
    requires GoodGroup(items, g)
  {
    Triple(Strip(items[3 * g].s), Strip(items[3 * g + 1].s), items[3 * g + 2])
  }

  /** A well-formed group gives its triple ahead of the later ones. */
  lemma GoodGroupKept(items: seq<Json>, k: nat)
    requires GoodGroup(items, k)
    ensures TriplesFrom(items, k) == [GroupTriple(items, k)] + TriplesFrom(items, k + 1)
  {
    assert TripleAt(items, 3 * k) == Some(GroupTriple(items, k));
  }

  /** A group whose name or type is not a non-blank string is skipped. */
  lemma BadGroupSkipped(items: seq<Json>, k: nat)
    requires 3 * k + 3 <= |items| && !GoodGroup(items, k)
    ensures TriplesFrom(items, k) == TriplesFrom(items, k + 1)
  {
    assert TripleAt(items, 3 * k).None?;
  }

  /** One or two entries after the last complete group change nothing. */
  lemma {:induction false} TriplesIgnoreRemainder(items: seq<Json>, extra: seq<Json>, k: nat)
    requires |items| % 3 == 0 && |extra| < 3 && 3 * k <= |items|
    ensures TriplesFrom(items + extra, k) == TriplesFrom(items, k)
    decreases |items| - 3 * k
  {
    var all := items + extra;
    if 3 * k + 3 <= |items| {
      UnfoldTriples(items, k);
      UnfoldTriples(all, k);
      TriplesIgnoreRemainder(items, extra, k + 1);
      assert all[3 * k] == items[3 * k] && all[3 * k + 1] == items[3 * k + 1] && all[3 * k + 2] == items[3 * k + 2];
      assert TripleAt(all, 3 * k) == TripleAt(items, 3 * k);
    } else {
      assert 3 * k == |items|;
    }
  }

  /** `_parse_args_block`: the argument name and the out and in triples; a
      block that is not a mapping, or whose `arg_name` is not a non-blank
      string, gives nothing. */
  function ParseArgsBlock(node: Json): (r: (Option<string>, seq<Triple>, seq<Triple>))
    ensures r.0.Some? <==> node.JMap? && IsNonBlankStr(GetOr(node.entries, "arg_name", JNull))
    ensures r.0.None? ==> r.1 == [] && r.2 == []
    ensures r.0.Some? ==> r.0.value == Strip(GetOr(node.entries, "arg_name", JNull).s) &&
                          r.1 == Triples(GetOr(node.entries, "args_out", JNull)) &&
                          r.2 == Triples(GetOr(node.entries, "args_in", JNull))
  {
    if !node.JMap? then (None, [], [])
    else
      var argName := GetOr(node.entries, "arg_name", JNull);
      if !IsNonBlankStr(argName) then (None, [], [])
      else (Some(Strip(argName.s)), Triples(GetOr(node.entries, "args_out", JNull)),
            Triples(GetOr(node.entries, "args_in", JNull)))
  }

  // ------------------------------------------------------------------ functions

  const Accesses: seq<Json> := [JStr("public"), JStr("protected"), JStr("private")]

  /** The `setdefault` calls of `_validate_functions`, in order. */
  const FunctionDefaults: seq<(string, Json)> := [
    ("args", JStr("")), ("return", JStr("void")), ("override", JBool(false)),
    ("body", JStr("")), ("const", JBool(false)), ("static", JBool(false))]

  /** The key is present and its value is not a string. */
  predicate NotString(m: seq<(string, Json)>, k: string)
  {
    HasKey(m, k) && !Get(m, k).value.JStr?
  }

  /** The key is present and its value is not a boolean. */
  predicate NotBool(m: seq<(string, Json)>, k: string)
  {
    HasKey(m, k) && !Get(m, k).value.JBool?
  }

  /** The key is present and its value is neither a boolean nor a string. */
  predicate NotBoolOrString(m: seq<(string, Json)>, k: string)
  {
    HasKey(m, k) && !Get(m, k).value.JBool? && !Get(m, k).value.JStr?
  }

  /** The first problem of a function definition, if any, in the order the source checks. */
  function FunctionProblem(fname: string, m: seq<(string, Json)>): Option<string>
  {
    var prefix := "ValueError: functions." + fname;
    if NotString(m, "args") then Some(prefix + ".args must be a string")
    else if NotString(m, "return") then Some(prefix + ".return must be a string")
    else if NotString(m, "body") then Some(prefix + ".body must be a string")
    else if NotBool(m, "const") then Some(prefix + ".const must be a boolean")
    else if NotBool(m, "static") then Some(prefix + ".static must be a boolean")
    else if NotBoolOrString(m, "noexcept") then Some(prefix + ".noexcept must be a boolean or string")
    else if NotBoolOrString(m, "override") then Some(prefix + ".override must be a boolean or string")
    else if GetOr(m, "access", JStr("public")) !in Accesses
    then Some(prefix + ".access must be one of: public, protected, private")
    else None
  }

  /** `setdefault` for each pair in turn. */
  function SetDefaults(m: seq<(string, Json)>, ds: seq<(string, Json)>): seq<(string, Json)>
    decreases |ds|
  {
    if ds == [] then m else SetDefaults(SetDefault(m, ds[0].0, ds[0].1), ds[1..])
  }

  /** The first default given for a key. */
  function DefaultFor(ds: seq<(string, Json)>, k: string): (r: Option<Json>)
    ensures r.Some? ==> (k, r.value) in ds
    ensures r.None? <==> forall i :: 0 <= i < |ds| ==> ds[i].0 != k
  {
    if ds == [] then None
    else if ds[0].0 == k then Some(ds[0].1)
    else
      var r := DefaultFor(ds[1..], k);
      assert forall i :: 1 <= i < |ds| ==> ds[i] == ds[1..][i - 1];
      r
  }

  /** After the `setdefault` calls a key has its own value if it had one,
      and otherwise its first default. */
  lemma {:induction false} GetSetDefaults(m: seq<(string, Json)>, ds: seq<(string, Json)>, k: string)
    ensures Get(SetDefaults(m, ds), k) == if HasKey(m, k) then Get(m, k) else DefaultFor(ds, k)
    decreases |ds|
  {
    if ds != [] {
      var m1 := SetDefault(m, ds[0].0, ds[0].1);
      GetSetDefault(m, ds[0].0, ds[0].1);
      GetSetDefaults(m1, ds[1..], k);
    }
  }

  /** The defaults filled in, then the access written back. */
  function WithDefaults(m: seq<(string, Json)>): seq<(string, Json)>
  {
    Put(SetDefaults(m, FunctionDefaults), "access", GetOr(m, "access", JStr("public")))
  }

  /** One entry of the `functions` mapping, checked and normalised. */
  function CheckFunction(fname: string, fdef: Json): Result<seq<(string, Json)>>
  {
    if fname == [] then Err("ValueError: Function names must be non-empty strings")
    else if !fdef.JMap? then Err("ValueError: Function '" + fname + "' definition must be a mapping")
    else
      var problem := FunctionProblem(fname, fdef.entries);
      if problem.Some? then Err(problem.value) else Ok(WithDefaults(fdef.entries))
  }

  /** A definition is accepted exactly when its name is non-empty, it is a
      mapping, each field it gives has the kind the source demands, and its
      access is one of the three. */
  lemma CheckFunctionOk(fname: string, fdef: Json)
    ensures CheckFunction(fname, fdef).Ok? <==>
              fname != [] && fdef.JMap? &&
              !NotString(fdef.entries, "args") && !NotString(fdef.entries, "return") &&
              !NotString(fdef.entries, "body") &&
              !NotBool(fdef.entries, "const") && !NotBool(fdef.entries, "static") &&
              !NotBoolOrString(fdef.entries, "noexcept") && !NotBoolOrString(fdef.entries, "override") &&
              GetOr(fdef.entries, "access", JStr("public")) in Accesses
  {
  }

  /** Each entry of a mapping checked in order by `check`; the first
      failure fails the whole. */
  function CheckEach(entries: seq<(string, Json)>, check: (string, Json) -> Result<seq<(string, Json)>>):
    Result<seq<(string, seq<(string, Json)>)>>
  {
    if entries == [] then Ok([])
    else
      var first := check(entries[0].0, entries[0].1);
      var rest := CheckEach(entries[1..], check);
      if first.Err? then Err(first.msg)
      else if rest.Err? then rest
      else Ok([(entries[0].0, first.value)] + rest.value)
  }

  /** The entries are accepted exactly when each one is, and then each comes
      out under its own name with the value its check gives, in order; a
      failure is the failure of some entry. */
  lemma {:induction false} CheckEachMeaning(entries: seq<(string, Json)>, check: (string, Json) -> Result<seq<(string, Json)>>)
    ensures CheckEach(entries, check).Ok? <==> forall i :: 0 <= i < |entries| ==> check(entries[i].0, entries[i].1).Ok?
    ensures CheckEach(entries, check).Ok? ==>
              var out := CheckEach(entries, check).value;
              |out| == |entries| &&
              forall i :: 0 <= i < |entries| ==> out[i] == (entries[i].0, check(entries[i].0, entries[i].1).value)
    ensures CheckEach(entries, check).Err? ==>
              exists i :: 0 <= i < |entries| && check(entries[i].0, entries[i].1) == Err(CheckEach(entries, check).msg)
  {
    if entries != [] {
      CheckEachMeaning(entries[1..], check);
      assert forall i :: 1 <= i < |entries| ==> entries[i] == entries[1..][i - 1];
      var first := check(entries[0].0, entries[0].1);
      var rest := CheckEach(entries[1..], check);
      if first.Err? {
        assert check(entries[0].0, entries[0].1) == Err(CheckEach(entries, check).msg);
      } else if rest.Err? {
        var j :| 0 <= j < |entries[1..]| && check(entries[1..][j].0, entries[1..][j].1) == Err(rest.msg);
        assert check(entries[j + 1].0, entries[j + 1].1) == Err(CheckEach(entries, check).msg);
      }
    }
  }

  /** `_validate_functions`: `None` gives no functions, a mapping is checked
      entry by entry with `CheckFunction`, anything else fails. */
  function ValidateFunctions(fd: Json): (r: Result<seq<(string, seq<(string, Json)>)>>)
    ensures fd == JNull ==> r == Ok([])
    ensures !fd.JNull? && !fd.JMap? ==> r.Err?
  {
    if fd.JNull? then Ok([])
    else if fd.JMap? then CheckEach(fd.entries, CheckFunction)
    else Err("ValueError: 'functions' must be a mapping of function_name -> function_def")
  }

  /** A mapping of definitions is accepted exactly when every entry is, and
      then each definition comes out normalised under its own name, in order. */
  lemma ValidateFunctionsOk(fd: Json)
    requires fd.JMap?
    ensures ValidateFunctions(fd).Ok? <==>
              forall i :: 0 <= i < |fd.entries| ==> CheckFunction(fd.entries[i].0, fd.entries[i].1).Ok?
    ensures ValidateFunctions(fd).Ok? ==>
              var out := ValidateFunctions(fd).value;
              |out| == |fd.entries| &&
              forall i :: 0 <= i < |out| ==> out[i].0 == fd.entries[i].0 && out[i].1 == WithDefaults(fd.entries[i].1.entries)
  {
    var r := ValidateFunctions(fd);
    CheckEachMeaning(fd.entries, CheckFunction);
    if r.Ok? {
      forall i | 0 <= i < |r.value|
        ensures r.value[i].0 == fd.entries[i].0 && r.value[i].1 == WithDefaults(fd.entries[i].1.entries)
      {
        CheckFunctionValue(fd.entries[i].0, fd.entries[i].1);
      }
    }
  }

  lemma CheckFunctionValue(fname: string, fdef: Json)
    requires CheckFunction(fname, fdef).Ok?
    ensures fdef.JMap? && CheckFunction(fname, fdef).value == WithDefaults(fdef.entries)
  {
    assert fname != [] && fdef.JMap?;
    assert FunctionProblem(fname, fdef.entries).None?;
  }

  lemma UnfoldCheckEach(entries: seq<(string, Json)>, check: (string, Json) -> Result<seq<(string, Json)>>, i: nat)
    requires i < |entries|
    ensures CheckEach(entries[i..], check) ==
              var first := check(entries[i].0, entries[i].1);
              if first.Err? then Err(first.msg)
              else if CheckEach(entries[i + 1..], check).Err? then CheckEach(entries[i + 1..], check)
              else Ok([(entries[i].0, first.value)] + CheckEach(entries[i + 1..], check).value)
  {
    assert entries[i..][1..] == entries[i + 1..];
  }

  /** The entries already accepted, put in front of the outcome for the rest. */
  function Prepend(done: seq<(string, seq<(string, Json)>)>, r: Result<seq<(string, seq<(string, Json)>)>>):
    Result<seq<(string, seq<(string, Json)>)>>
  {
    if r.Err? then r else Ok(done + r.value)
  }

  lemma PrependStep(done: seq<(string, seq<(string, Json)>)>, x: (string, seq<(string, Json)>),
                    rest: Result<seq<(string, seq<(string, Json)>)>>)
    ensures Prepend(done, if rest.Err? then rest else Ok([x] + rest.value)) == Prepend(done + [x], rest)
  {
    if rest.Ok? {
      assert done + ([x] + rest.value) == (done + [x]) + rest.value;
    }
  }

  /** The loop of `_validate_functions`, for any per-entry check. */
  method CheckEachLoop(entries: seq<(string, Json)>, check: (string, Json) -> Result<seq<(string, Json)>>)
    returns (r: Result<seq<(string, seq<(string, Json)>)>>)
    ensures r == CheckEach(entries, check)
  {
    var normalized: seq<(string, seq<(string, Json)>)> := [];
    var i := 0;
    assert entries[0..] == entries;
    assert CheckEach(entries, check).Ok? ==> [] + CheckEach(entries, check).value == CheckEach(entries, check).value;
    while i < |entries|
      invariant 0 <= i <= |entries|
      invariant CheckEach(entries, check) == Prepend(normalized, CheckEach(entries[i..], check))
    {
      var checked := check(entries[i].0, entries[i].1);
      UnfoldCheckEach(entries, check, i);
      if checked.Err? {
        return Err(checked.msg);
      }
      PrependStep(normalized, (entries[i].0, checked.value), CheckEach(entries[i + 1..], check));
      normalized := normalized + [(entries[i].0, checked.value)];
      i := i + 1;
    }
    assert entries[|entries|..] == [];
    assert normalized + [] == normalized;
    return Ok(normalized);
  }

  /** `_validate_functions` as the source runs it. */
  method ValidateFunctionsLoop(fd: Json) returns (r: Result<seq<(string, seq<(string, Json)>)>>)
    ensures r == ValidateFunctions(fd)
  {
    if fd.JNull? {
      return Ok([]);
    }
    if !fd.JMap? {
      return Err("ValueError: 'functions' must be a mapping of function_name -> function_def");
    }
    r := CheckEachLoop(fd.entries, CheckFunction);
  }

  /** A key of the normalised mapping: the access is the given one or
      `public`, any other key that was given keeps its value, and a missing
      one takes its first default (if it has one). */
  lemma WithDefaultsGet(m: seq<(string, Json)>, k: string)
    ensures Get(WithDefaults(m), k) ==
              if k == "access" then Some(GetOr(m, "access", JStr("public")))
              else if HasKey(m, k) then Get(m, k)
              else DefaultFor(FunctionDefaults, k)
  {
    var d := SetDefaults(m, FunctionDefaults);
    var access := GetOr(m, "access", JStr("public"));
    GetPut(d, "access", access);
    GetPutOther(d, "access", access);
    GetSetDefaults(m, FunctionDefaults, k);
  }

  /** The default of each defaulted key. */
  lemma DefaultValues()
    ensures DefaultFor(FunctionDefaults, "args") == Some(JStr(""))
    ensures DefaultFor(FunctionDefaults, "return") == Some(JStr("void"))
    ensures DefaultFor(FunctionDefaults, "override") == Some(JBool(false))
    ensures DefaultFor(FunctionDefaults, "body") == Some(JStr(""))
    ensures DefaultFor(FunctionDefaults, "const") == Some(JBool(false))
    ensures DefaultFor(FunctionDefaults, "static") == Some(JBool(false))
  {
  }

  /** An accepted definition is normalised to `WithDefaults`, and its
      fields have the kinds the generator relies on. */
  lemma NormalizedFunction(fname: string, m: seq<(string, Json)>)
    requires CheckFunction(fname, JMap(m)).Ok?
    ensures CheckFunction(fname, JMap(m)).value == WithDefaults(m)
    ensures var n := WithDefaults(m);
            Get(n, "access").Some? && Get(n, "access").value in Accesses &&
            Get(n, "args").Some? && Get(n, "args").value.JStr? &&
            Get(n, "return").Some? && Get(n, "return").value.JStr? &&
            Get(n, "body").Some? && Get(n, "body").value.JStr? &&
            Get(n, "const").Some? && Get(n, "const").value.JBool? &&
            Get(n, "static").Some? && Get(n, "static").value.JBool? &&
            Get(n, "override").Some? && (Get(n, "override").value.JBool? || Get(n, "override").value.JStr?)
  {
    CheckFunctionOk(fname, JMap(m));
    DefaultValues();
    WithDefaultsGet(m, "access");
    WithDefaultsGet(m, "args");
    WithDefaultsGet(m, "return");
    WithDefaultsGet(m, "body");
    WithDefaultsGet(m, "const");
    WithDefaultsGet(m, "static");
    WithDefaultsGet(m, "override");
  }

  /** `_format_noexcept` */
  function FormatNoexcept(spec: Json): (r: string)
    ensures spec == JBool(true) <==> r == " noexcept"
    ensures IsNonBlankStr(spec) <==> StartsWith(r, " noexcept(")
    ensures IsNonBlankStr(spec) ==> r == " noexcept(" + Strip(spec.s) + ")"
    ensures r == [] <==> spec != JBool(true) && !IsNonBlankStr(spec)
  {
    if spec == JBool(true) then " noexcept"
    else if IsNonBlankStr(spec) then " noexcept(" + Strip(spec.s) + ")"
    else ""
  }

  // ------------------------------------------------------------------ database binding

  /** `extract_db_info`: a table and field given together as non-blank
      strings become the two C++ initialisers; otherwise both are empty. */
  function ExtractDbInfo(elements: seq<(string, Json)>): (r: (string, string))
    ensures (r.0 == []) <==> (r.1 == [])
    ensures r.0 != [] <==> IsNonBlankStr(GetOr(elements, "table", JNull)) &&
                           IsNonBlankStr(GetOr(elements, "field", JNull))
    ensures r.0 != [] ==>
              r.0 == "db::TableName {\"" + Strip(GetOr(elements, "table", JNull).s) + "\"}" &&
              r.1 == "db::FieldName {\"" + Strip(GetOr(elements, "field", JNull).s) + "\"}"
  {
    var tbl := GetOr(elements, "table", JNull);
    var fld := GetOr(elements, "field", JNull);
    if tbl.JNull? != fld.JNull? then ("", "")
    else if !tbl.JNull? && !fld.JNull? then
      if IsNonBlankStr(tbl) && IsNonBlankStr(fld) then
        ("db::TableName {\"" + Strip(tbl.s) + "\"}", "db::FieldName {\"" + Strip(fld.s) + "\"}")
      else ("", "")
    else ("", "")
  }
}
