/** The markup builders of common/ui that compute class lists, styles and ids step by step:
    buildIcon, buildPanel, buildCollapsiblePanel and buildTabs. Each builder is modelled by
    the attributes it computes (class lists, style entries, ids, the active tab); the tags
    themselves are not. */
module UiBuilders {
  import opened Wrappers
  import opened Text

  // ---------------------------------------------------------------------------------------
  // Ids

  /** The n-th id handed out by html.genId. Its real format is not part of this model;
      what matters here is that different calls give different ids. */
  function IdFor(n: nat): string {
    NatToString(n)
  }

  lemma IdForInjective(m: nat, n: nat)
    ensures IdFor(m) == IdFor(n) <==> m == n
  {
    ParseNatToString(m);
    ParseNatToString(n);
  }

  /** html.genId, as a counter of the ids handed out so far. */
  class IdSource {
    var issued: nat

    constructor (start: nat)
      ensures issued == start
    {
      issued := start;
    }

    method GenId() returns (id: string)
      modifies this
      ensures id == IdFor(old(issued)) && issued == old(issued) + 1
    {
      id := IdFor(issued);
      issued := issued + 1;
    }
  }

  /** A class attribute: the class names joined by single spaces. */
  function ClassAttr(classes: seq<string>): string {
    Join(classes, " ")
  }

  /** Class names that hold no space are read back from the attribute one by one. */
  lemma ClassAttrSplits(classes: seq<string>)
    requires |classes| >= 1
    requires forall k :: 0 <= k < |classes| ==> ' ' !in classes[k]
    ensures Split(ClassAttr(classes), ' ') == classes
  {
    SplitJoin(classes, ' ');
  }

  // ---------------------------------------------------------------------------------------
  // Styles

  /** One entry of a style object. */
  datatype StyleEntry = StyleEntry(key: string, value: string)

  /** The value a style gives key, if any. */
  function StyleValue(style: seq<StyleEntry>, key: string): Option<string> {
    if |style| == 0 then None
    else if style[0].key == key then Some(style[0].value)
    else StyleValue(style[1..], key)
  }

  /** The keys of a style. */
  function StyleKeys(style: seq<StyleEntry>): set<string> {
    if |style| == 0 then {} else {style[0].key} + StyleKeys(style[1..])
  }

  /** No key appears twice, as in a JavaScript object. */
  predicate UniqueKeys(style: seq<StyleEntry>) {
    |style| == 0 || (style[0].key !in StyleKeys(style[1..]) && UniqueKeys(style[1..]))
  }

  /** style[key] = value: an existing key keeps its place and takes the new value; a new key
      is added at the end. */
  function SetStyle(style: seq<StyleEntry>, key: string, value: string): (r: seq<StyleEntry>)
    ensures StyleValue(r, key) == Some(value)
    ensures forall k :: k != key ==> StyleValue(r, k) == StyleValue(style, k)
    ensures StyleKeys(r) == StyleKeys(style) + {key}
    ensures UniqueKeys(style) ==> UniqueKeys(r)
  {
    if |style| == 0 then [StyleEntry(key, value)]
    else if style[0].key == key then
      assert ([StyleEntry(key, value)] + style[1..])[1..] == style[1..];
      [StyleEntry(key, value)] + style[1..]
    else
      var r := [style[0]] + SetStyle(style[1..], key, value);
      assert r[1..] == SetStyle(style[1..], key, value);
      r
  }

  /** Each entry copied onto base in turn, as Object.keys(arg.style).forEach does. */
  function Overlay(base: seq<StyleEntry>, entries: seq<StyleEntry>): seq<StyleEntry>
    decreases |entries|
  {
    if |entries| == 0 then base
    else
      var last := entries[|entries| - 1];
      SetStyle(Overlay(base, entries[..|entries| - 1]), last.key, last.value)
  }

  /** The value the last entry with key gives, if any. */
  function LastValue(entries: seq<StyleEntry>, key: string): Option<string>
    decreases |entries|
  {
    if |entries| == 0 then None
    else if entries[|entries| - 1].key == key then Some(entries[|entries| - 1].value)
    else LastValue(entries[..|entries| - 1], key)
  }

  /** After an overlay a key has the value of the last entry that sets it, or else its value
      in the base; keys stay unique. */
  lemma {:induction false} OverlayValue(base: seq<StyleEntry>, entries: seq<StyleEntry>, key: string)
    ensures StyleValue(Overlay(base, entries), key) ==
            if LastValue(entries, key).Some? then LastValue(entries, key) else StyleValue(base, key)
    ensures UniqueKeys(base) ==> UniqueKeys(Overlay(base, entries))
    decreases |entries|
  {
    if |entries| > 0 {
      OverlayValue(base, entries[..|entries| - 1], key);
    }
  }

  // ---------------------------------------------------------------------------------------
  // buildIcon

  /** The size argument: absent, a number (rendered 'fa-Nx') or a name ('fa-name'). */
  datatype IconSize = NoSize | NumSize(n: int) | NameSize(size: string)

  /** The arguments of buildIcon. A rotate of 0, an empty flip or color, and a size of 0 or
      '' are falsy and so are skipped, as absent ones are. */
  datatype IconArgs = IconArgs(name: string, rotate: int, flip: string, size: IconSize,
                               classes: seq<string>, style: seq<StyleEntry>, color: string)

  /** The attributes of the icon span: its classes (joined into the class attribute) and style. */
  datatype Icon = Icon(classes: seq<string>, style: seq<StyleEntry>)

  /** The size class: none for an absent or falsy size, 'fa-' and the name for a named
      size, and 'fa-Nx' for a number N, whose digits read back as N (see NumSizeClass). */
  function SizeClass(size: IconSize): (r: seq<string>)
    ensures |r| <= 1
    ensures |r| == 1 <==> (size.NumSize? && size.n != 0) || (size.NameSize? && size.size != "")
    ensures size.NameSize? && size.size != "" ==> r == ["fa-" + size.size]
  {
    match size
    case NoSize => []
    case NumSize(n) => if n != 0 then ["fa-" + IntToString(n) + "x"] else []
    case NameSize(s) => if s != "" then ["fa-" + s] else []
  }

  /** A numeric size N gives the one class 'fa-' N 'x', whose middle reads back as N. */
  lemma NumSizeClass(n: int)
    requires n != 0
    ensures var c := SizeClass(NumSize(n))[0];
            |c| >= 5 && c[..3] == "fa-" && c[|c| - 1] == 'x' && ParseInt(c[3..|c| - 1]) == n
  {
    var d := IntToString(n);
    var c := "fa-" + d + "x";
    assert c[3..|c| - 1] == d;
    IntToStringRoundTrip(n);
  }

  /** The options' classes, in order: rotation, flip, size; each only when its option is
      truthy. */
  function OptionClasses(arg: IconArgs): (r: seq<string>)
    ensures |r| == (if arg.rotate != 0 then 1 else 0) + (if arg.flip != "" then 1 else 0) + |SizeClass(arg.size)|
    ensures arg.rotate != 0 ==> r[0] == "fa-rotate-" + IntToString(arg.rotate)
    ensures arg.flip != "" ==> r[if arg.rotate != 0 then 1 else 0] == "fa-flip-" + arg.flip
    ensures r[|r| - |SizeClass(arg.size)|..] == SizeClass(arg.size)
  {
    (if arg.rotate != 0 then ["fa-rotate-" + IntToString(arg.rotate)] else [])
    + (if arg.flip != "" then ["fa-flip-" + arg.flip] else [])
    + SizeClass(arg.size)
  }

  /** The icon's classes: 'fa', 'fa-' and the name, the options, then the extra classes. */
  function IconClasses(arg: IconArgs): (r: seq<string>)
    ensures |r| == 2 + |OptionClasses(arg)| + |arg.classes|
    ensures r[..2] == ["fa", "fa-" + arg.name]
    ensures r[2..|r| - |arg.classes|] == OptionClasses(arg)
    ensures r[|r| - |arg.classes|..] == arg.classes
  {
    ["fa", "fa-" + arg.name] + OptionClasses(arg) + arg.classes
  }

  const BaseStyle := [StyleEntry("verticalAlign", "middle")]

  /** The icon's style: vertical-align middle, overlaid by the style argument, then the color. */
  function IconStyle(arg: IconArgs): seq<StyleEntry> {
    var style := Overlay(BaseStyle, arg.style);
    if arg.color != "" then SetStyle(style, "color", arg.color) else style
  }

  /** What the style gives each key: the color wins for "color", then the last style entry
      with that key, then the vertical alignment. */
  function IconStyleValue(arg: IconArgs, key: string): Option<string> {
    if key == "color" && arg.color != "" then Some(arg.color)
    else if LastValue(arg.style, key).Some? then LastValue(arg.style, key)
    else if key == "verticalAlign" then Some("middle")
    else None
  }

  lemma IconStyleLookup(arg: IconArgs, key: string)
    ensures StyleValue(IconStyle(arg), key) == IconStyleValue(arg, key)
    ensures UniqueKeys(IconStyle(arg))
  {
    OverlayValue(BaseStyle, arg.style, key);
  }

  /** Pushing each of extra onto list in turn, as forEach with push does. */
  method PushAll(list: seq<string>, extra: seq<string>) returns (r: seq<string>)
    ensures r == list + extra
  {
    r := list;
    var i := 0;
    while i < |extra|
      invariant 0 <= i <= |extra|
      invariant r == list + extra[..i]
    {
      r := r + [extra[i]];
      assert extra[..i + 1] == extra[..i] + [extra[i]];
      i := i + 1;
    }
    assert extra[..i] == extra;
  }

  /** Copying each entry onto the style in turn. */
  method OverlayStyle(base: seq<StyleEntry>, entries: seq<StyleEntry>) returns (style: seq<StyleEntry>)
    ensures style == Overlay(base, entries)
  {
    style := base;
    var j := 0;
    while j < |entries|
      invariant 0 <= j <= |entries|
      invariant style == Overlay(base, entries[..j])
    {
      style := SetStyle(style, entries[j].key, entries[j].value);
      assert entries[..j + 1][..j] == entries[..j];
      j := j + 1;
    }
    assert entries[..j] == entries;
  }

  /** buildIcon: the classes pushed in order and the style built key by key. */
  method BuildIcon(arg: IconArgs) returns (icon: Icon)
    ensures icon.classes == IconClasses(arg)
    ensures forall key :: StyleValue(icon.style, key) == IconStyleValue(arg, key)
    ensures UniqueKeys(icon.style)
  {
    var classes := ["fa"];
    classes := classes + ["fa-" + arg.name];
    ghost var rotateFlip := (if arg.rotate != 0 then ["fa-rotate-" + IntToString(arg.rotate)] else [])
                            + (if arg.flip != "" then ["fa-flip-" + arg.flip] else []);
    if arg.rotate != 0 {
      classes := classes + ["fa-rotate-" + IntToString(arg.rotate)];
    }
    if arg.flip != "" {
      classes := classes + ["fa-flip-" + arg.flip];
    }
    assert classes == ["fa", "fa-" + arg.name] + rotateFlip;
    ghost var before := classes;
    match arg.size {
      case NoSize =>
      case NumSize(n) =>
        if n != 0 {
          classes := classes + ["fa-" + IntToString(n) + "x"];
        }
      case NameSize(s) =>
        if s != "" {
          classes := classes + ["fa-" + s];
        }
    }
    assert classes == before + SizeClass(arg.size);
    assert OptionClasses(arg) == rotateFlip + SizeClass(arg.size);
    ConcatAssoc(["fa", "fa-" + arg.name], rotateFlip, SizeClass(arg.size));
    classes := PushAll(classes, arg.classes);
    var style := OverlayStyle(BaseStyle, arg.style);
    if arg.color != "" {
      style := SetStyle(style, "color", arg.color);
    }
    icon := Icon(classes, style);
    forall key ensures StyleValue(icon.style, key) == IconStyleValue(arg, key) {
      IconStyleLookup(arg, key);
    }
    IconStyleLookup(arg, "");
  }

  // ---------------------------------------------------------------------------------------
  // buildPanel and buildCollapsiblePanel

  /** The arguments of the panel builders; empty strings and false stand for absent ones. */
  datatype PanelArgs = PanelArgs(id: string, kind: string, classes: seq<string>, hidden: bool,
                                 collapsed: bool, name: string, title: string)

  function PanelType(kind: string): string {
    if kind == "" then "primary" else kind
  }

  /** The panel's classes: 'panel', 'panel-' and the type, 'hidden' when hidden, then the
      extra classes. */
  function PanelClasses(args: PanelArgs): seq<string> {
    ["panel", "panel-" + PanelType(args.kind)] + (if args.hidden then ["hidden"] else []) + args.classes
  }

  /** The panel's first two classes are 'panel' and its type, 'primary' by default; it is
      hidden exactly when asked to be, or when an extra class says so; the extra classes come
      last, in order. */
  lemma PanelClassesHidden(args: PanelArgs)
    ensures PanelClasses(args)[..2] == ["panel", "panel-" + (if args.kind == "" then "primary" else args.kind)]
    ensures "hidden" in PanelClasses(args) <==> args.hidden || "hidden" in args.classes
    ensures PanelClasses(args)[|PanelClasses(args)| - |args.classes|..] == args.classes
  {
    var t := "panel-" + PanelType(args.kind);
    assert t[0] == 'p';
    assert "hidden"[0] == 'h';
    var cs := PanelClasses(args);
    if "hidden" in args.classes {
      var k :| 0 <= k < |args.classes| && args.classes[k] == "hidden";
      assert cs[|cs| - |args.classes| + k] == "hidden";
    }
  }

  /** The outer div of buildPanel: its class, its data-element and whether it has a heading. */
  datatype Panel = Panel(cssClass: string, dataElement: string, heading: bool)

  /** buildPanel. */
  method BuildPanel(args: PanelArgs) returns (p: Panel)
    ensures p.cssClass == ClassAttr(PanelClasses(args))
    ensures p.dataElement == args.name
    ensures p.heading <==> args.title != ""
  {
    var classes := ["panel", "panel-" + PanelType(args.kind)];
    if args.hidden {
      classes := classes + ["hidden"];
    }
    classes := classes + args.classes;
    assert classes == PanelClasses(args);
    p := Panel(ClassAttr(classes), args.name, args.title != "");
  }

  /** The collapsing body's classes: 'in' (shown) unless the panel starts collapsed. */
  function CollapseClasses(collapsed: bool): (r: seq<string>)
    ensures "in" in r <==> !collapsed
  {
    ["panel-collapse collapse"] + (if collapsed then [] else ["in"])
  }

  /** The toggle's classes: 'collapsed' exactly when the panel starts collapsed. */
  function ToggleClasses(collapsed: bool): (r: seq<string>)
    ensures "collapsed" in r <==> collapsed
  {
    if collapsed then ["collapsed"] else []
  }

  /** The attributes of a collapsible panel: the outer div, the toggle in the heading, and the
      collapsing body the toggle targets. */
  datatype CollapsiblePanel = CollapsiblePanel(id: string, cssClass: string, dataElement: string,
                                               toggleClass: string, target: string,
                                               collapseId: string, collapseClass: string)

  /** buildCollapsiblePanel: the panel id is the given one or a new id, the body always gets
      a new id, and the toggle targets the body. */
  method BuildCollapsiblePanel(args: PanelArgs, ids: IdSource) returns (p: CollapsiblePanel)
    modifies ids
    ensures ids.issued == old(ids.issued) + (if args.id == "" then 2 else 1)
    ensures p.id == (if args.id != "" then args.id else IdFor(old(ids.issued)))
    ensures p.collapseId == IdFor(ids.issued - 1) && p.target == "#" + p.collapseId
    ensures args.id == "" ==> p.id != p.collapseId
    ensures p.cssClass == ClassAttr(PanelClasses(args)) && p.dataElement == args.name
    ensures p.collapseClass == ClassAttr(CollapseClasses(args.collapsed))
    ensures p.toggleClass == ClassAttr(ToggleClasses(args.collapsed))
  {
    var panelId := args.id;
    if panelId == "" {
      panelId := ids.GenId();
    }
    var collapseId := ids.GenId();
    var collapseClasses := ["panel-collapse collapse"];
    var toggleClasses := [];
    var classes := ["panel", "panel-" + PanelType(args.kind)];
    if args.hidden {
      classes := classes + ["hidden"];
    }
    if !args.collapsed {
      collapseClasses := collapseClasses + ["in"];
    } else {
      toggleClasses := toggleClasses + ["collapsed"];
    }
    classes := classes + args.classes;
    assert classes == PanelClasses(args);
    if args.id == "" {
      IdForInjective(ids.issued - 2, ids.issued - 1);
    }
    p := CollapsiblePanel(panelId, ClassAttr(classes), args.name, ClassAttr(toggleClasses),
                          "#" + collapseId, collapseId, ClassAttr(collapseClasses));
  }

  // ---------------------------------------------------------------------------------------
  // buildTabs

  /** A tab the caller describes. */
  datatype TabSpec = TabSpec(name: string, caption: string, content: string)

  /** An entry of the tabs argument: a falsy value (dropped) or a tab. */
  datatype TabArg = Falsy | Given(spec: TabSpec)

  /** A tab with the ids buildTabs gives it. */
  datatype Tab = Tab(name: string, caption: string, content: string, panelId: string, tabId: string)

  /** The arguments of buildTabs; initialTab is Some exactly when it is a number. */
  datatype TabsArgs = TabsArgs(tabs: seq<TabArg>, initialTab: Option<int>, alignRight: bool, fade: bool)

  /** A tab header: the link to its panel and whether it is marked active. */
  datatype TabHeader = TabHeader(tabId: string, panelId: string, name: string, caption: string, active: bool)

  /** A tab panel: its id, name, class and content. */
  datatype TabPanel = TabPanel(panelId: string, name: string, cssClass: string, content: string)

  /** What buildTabs returns: the headers and panels, in display order, and the map from tab
      name to tab id; floatRight is the header style of right-aligned tabs. */
  datatype Tabs = Tabs(headers: seq<TabHeader>, panels: seq<TabPanel>, tabMap: map<string, string>, floatRight: bool)

  /** The tabs that are not falsy, in order. */
  function FilterTabs(tabs: seq<TabArg>): (r: seq<TabSpec>)
    ensures |r| <= |tabs|
    ensures forall k :: 0 <= k < |tabs| && tabs[k].Given? ==> tabs[k].spec in r
    ensures forall t :: t in r ==> Given(t) in tabs
    ensures |tabs| == 1 ==> r == (if tabs[0].Given? then [tabs[0].spec] else [])
  {
    if |tabs| == 0 then []
    else
      var rest := FilterTabs(tabs[1..]);
      assert forall k :: 1 <= k < |tabs| ==> tabs[k] == tabs[1..][k - 1];
      if tabs[0].Given? then [tabs[0].spec] + rest else rest
  }

  /** Filtering keeps the order of the tabs: the kept tabs of a concatenation are those of
      its first part followed by those of its second. */
  lemma {:induction false} FilterTabsAppend(a: seq<TabArg>, b: seq<TabArg>)
    ensures FilterTabs(a + b) == FilterTabs(a) + FilterTabs(b)
    decreases |a|
  {
    if |a| > 0 {
      assert (a + b)[1..] == a[1..] + b;
      FilterTabsAppend(a[1..], b);
      if a[0].Given? {
        ConcatAssoc([a[0].spec], FilterTabs(a[1..]), FilterTabs(b));
      }
    } else {
      assert a + b == b;
    }
  }

  /** The tabs with their ids: the k-th tab gets the (2k)-th new id for its panel and the
      next one for its header. */
  function WithIds(specs: seq<TabSpec>, start: nat): (r: seq<Tab>)
    ensures |r| == |specs|
  {
    seq(|specs|, k requires 0 <= k < |specs| =>
          Tab(specs[k].name, specs[k].caption, specs[k].content, IdFor(start + 2 * k), IdFor(start + 2 * k + 1)))
  }

  /** The ids buildTabs hands out are all different. */
  lemma WithIdsDistinct(specs: seq<TabSpec>, start: nat, i: nat, j: nat)
    requires i < |specs| && j < |specs|
    ensures WithIds(specs, start)[i].tabId == WithIds(specs, start)[j].tabId <==> i == j
    ensures WithIds(specs, start)[i].panelId == WithIds(specs, start)[j].panelId <==> i == j
    ensures WithIds(specs, start)[i].panelId != WithIds(specs, start)[j].tabId
  {
    IdForInjective(start + 2 * i + 1, start + 2 * j + 1);
    IdForInjective(start + 2 * i, start + 2 * j);
    IdForInjective(start + 2 * i, start + 2 * j + 1);
  }

  function Reversed<T>(s: seq<T>): (r: seq<T>)
    ensures |r| == |s| && forall k :: 0 <= k < |s| ==> r[k] == s[|s| - 1 - k]
  {
    seq(|s|, k requires 0 <= k < |s| => s[|s| - 1 - k])
  }

  /** Array.prototype.reverse: the array reversed in place. */
  method ReverseInPlace<T>(a: array<T>)
    modifies a
    ensures a[..] == Reversed(old(a[..]))
  {
    ghost var s := a[..];
    var i := 0;
    while i < a.Length / 2
      invariant 0 <= i <= a.Length / 2
      invariant forall k :: 0 <= k < i ==> a[k] == s[a.Length - 1 - k]
      invariant forall k :: a.Length - i <= k < a.Length ==> a[k] == s[a.Length - 1 - k]
      invariant forall k :: i <= k < a.Length - i ==> a[k] == s[k]
    {
      a[i], a[a.Length - 1 - i] := a[a.Length - 1 - i], a[i];
      i := i + 1;
    }
    assert a[..] == Reversed(s);
  }

  /** The tabs in display order: reversed when aligned right. */
  function Arranged(arg: TabsArgs, start: nat): (r: seq<Tab>)
    ensures |r| == |FilterTabs(arg.tabs)|
  {
    var tabs := WithIds(FilterTabs(arg.tabs), start);
    if arg.alignRight then Reversed(tabs) else tabs
  }

  /** The display position of the active header: initialTab, counted from the other end when
      the tabs are aligned right; none unless initialTab is a number. */
  function ActiveIndex(arg: TabsArgs, n: nat): Option<int> {
    match arg.initialTab
    case None => None
    case Some(i) => Some(if arg.alignRight then n - 1 - i else i)
  }

  function TabHeaders(tabs: seq<Tab>, active: Option<int>): (r: seq<TabHeader>)
    ensures |r| == |tabs|
  {
    seq(|tabs|, k requires 0 <= k < |tabs| =>
          TabHeader(tabs[k].tabId, tabs[k].panelId, tabs[k].name, tabs[k].caption, active == Some(k)))
  }

  /** The classes of every tab panel: 'tab-pane', and 'fade' when fading. */
  function PaneClasses(fade: bool): seq<string> {
    ["tab-pane"] + (if fade then ["fade"] else [])
  }

  function TabPanels(tabs: seq<Tab>, fade: bool): (r: seq<TabPanel>)
    ensures |r| == |tabs|
  {
    seq(|tabs|, k requires 0 <= k < |tabs| =>
          TabPanel(tabs[k].panelId, tabs[k].name,
                   ClassAttr(PaneClasses(fade)) + (if k == 0 then " active" else ""), tabs[k].content))
  }

  /** The map from tab name to tab id, built in the caller's order: a later tab with the same
      name replaces an earlier one, and unnamed tabs are skipped. */
  function NameMap(tabs: seq<Tab>): map<string, string>
    decreases |tabs|
  {
    if |tabs| == 0 then map[]
    else
      var last := tabs[|tabs| - 1];
      var m := NameMap(tabs[..|tabs| - 1]);
      if last.name != "" then m[last.name := last.tabId] else m
  }

  /** The specification of buildTabs, given the first id it will hand out. */
  function TabsOf(arg: TabsArgs, start: nat): (r: Tabs)
    ensures |r.headers| == |r.panels| == |FilterTabs(arg.tabs)|
    ensures forall k :: 0 <= k < |r.headers| ==> r.headers[k].panelId == r.panels[k].panelId
  {
    var tabs := Arranged(arg, start);
    Tabs(TabHeaders(tabs, ActiveIndex(arg, |tabs|)), TabPanels(tabs, arg.fade),
         NameMap(WithIds(FilterTabs(arg.tabs), start)), arg.alignRight)
  }

  /** Adding one tab to the name map. */
  lemma NameMapStep(tabs: seq<Tab>, k: nat)
    requires k < |tabs|
    ensures NameMap(tabs[..k + 1]) ==
            if tabs[k].name != "" then NameMap(tabs[..k])[tabs[k].name := tabs[k].tabId] else NameMap(tabs[..k])
  {
    assert tabs[..k + 1][..k] == tabs[..k];
  }

  /** The forEach of buildTabs: each tab in turn gets a new panel id and a new tab id, and a
      named tab is entered in the name map. */
  method AssignIds(specs: seq<TabSpec>, ids: IdSource) returns (a: array<Tab>, tabMap: map<string, string>)
    modifies ids
    ensures fresh(a)
    ensures a[..] == WithIds(specs, old(ids.issued))
    ensures tabMap == NameMap(a[..])
    ensures ids.issued == old(ids.issued) + 2 * |specs|
  {
    ghost var start := ids.issued;
    ghost var want := WithIds(specs, start);
    a := new Tab[|specs|];
    tabMap := map[];
    var k := 0;
    while k < |specs|
      invariant 0 <= k <= |specs|
      invariant ids.issued == start + 2 * k
      invariant a[..k] == want[..k]
      invariant tabMap == NameMap(want[..k])
    {
      var panelId := ids.GenId();
      var tabId := ids.GenId();
      a[k] := Tab(specs[k].name, specs[k].caption, specs[k].content, panelId, tabId);
      if specs[k].name != "" {
        tabMap := tabMap[specs[k].name := tabId];
      }
      NameMapStep(want, k);
      assert a[..k + 1] == a[..k] + [a[k]];
      assert want[..k + 1] == want[..k] + [want[k]];
      k := k + 1;
    }
    assert a[..] == want[..k];
    assert want[..k] == want;
  }

  /** buildTabs: the tabs that are not falsy get two new ids each, in order, and are entered
      in the name map; right-aligned tabs are then reversed in place, and the headers and the
      panels are built from the (possibly reversed) tabs. */
  method BuildTabs(arg: TabsArgs, ids: IdSource) returns (r: Tabs)
    modifies ids
    ensures r == TabsOf(arg, old(ids.issued))
    ensures ids.issued == old(ids.issued) + 2 * |FilterTabs(arg.tabs)|
  {
    var specs := FilterTabs(arg.tabs);
    ghost var start := ids.issued;
    var a, tabMap := AssignIds(specs, ids);
    var active: Option<int> := None;
    if arg.alignRight {
      ReverseInPlace(a);
      if arg.initialTab.Some? {
        active := Some(a.Length - 1 - arg.initialTab.value);
      }
    } else if arg.initialTab.Some? {
      active := Some(arg.initialTab.value);
    }
    assert a[..] == Arranged(arg, start);
    assert active == ActiveIndex(arg, a.Length);
    r := Tabs(TabHeaders(a[..], active), TabPanels(a[..], arg.fade), tabMap, arg.alignRight);
  }

  /** The header marked active is the tab that was at initialTab among the tabs kept, whether
      or not the tabs are reversed; no header is active unless initialTab is a number within
      range. */
  lemma ActiveHeaderIsInitialTab(arg: TabsArgs, start: nat, j: nat)
    requires j < |FilterTabs(arg.tabs)|
    ensures TabsOf(arg, start).headers[j].active <==>
            (arg.initialTab.Some? && 0 <= arg.initialTab.value < |FilterTabs(arg.tabs)| &&
             TabsOf(arg, start).headers[j].tabId == WithIds(FilterTabs(arg.tabs), start)[arg.initialTab.value].tabId)
  {
    var specs := FilterTabs(arg.tabs);
    var n := |specs|;
    var orig := if arg.alignRight then n - 1 - j else j;
    assert TabsOf(arg, start).headers[j].tabId == WithIds(specs, start)[orig].tabId;
    if arg.initialTab.Some? && 0 <= arg.initialTab.value < n {
      WithIdsDistinct(specs, start, orig, arg.initialTab.value);
    }
  }

  /** The first panel is always the one shown, while the active header is the initial tab:
      with a number initialTab in range, the shown panel belongs to the active header exactly
      when initialTab is the first tab displayed (the last tab kept, when aligned right). */
  lemma ShownPanelMatchesActiveHeader(arg: TabsArgs, start: nat, j: nat)
    requires j < |FilterTabs(arg.tabs)|
    requires TabsOf(arg, start).headers[j].active
    ensures TabsOf(arg, start).panels[0].cssClass == ClassAttr(PaneClasses(arg.fade)) + " active"
    ensures TabsOf(arg, start).panels[0].panelId == TabsOf(arg, start).headers[j].panelId <==>
            arg.initialTab.value == (if arg.alignRight then |FilterTabs(arg.tabs)| - 1 else 0)
  {
    var specs := FilterTabs(arg.tabs);
    var n := |specs|;
    var first := if arg.alignRight then n - 1 else 0;
    var orig := if arg.alignRight then n - 1 - j else j;
    assert TabsOf(arg, start).panels[0].panelId == WithIds(specs, start)[first].panelId;
    assert TabsOf(arg, start).headers[j].panelId == WithIds(specs, start)[orig].panelId;
    WithIdsDistinct(specs, start, first, orig);
  }

  /** Only the first panel is marked active. */
  lemma OnlyFirstPanelActive(arg: TabsArgs, start: nat, k: nat)
    requires k < |FilterTabs(arg.tabs)|
    ensures TabsOf(arg, start).panels[k].cssClass == ClassAttr(PaneClasses(arg.fade)) + (if k == 0 then " active" else "")
  {
  }

  /** The position of the last tab with the given name, if any. */
  function LastNamed(tabs: seq<Tab>, name: string): (r: Option<nat>)
    ensures r.Some? ==> r.value < |tabs| && tabs[r.value].name == name
    ensures r.Some? ==> forall j :: r.value < j < |tabs| ==> tabs[j].name != name
    ensures r.None? ==> forall j :: 0 <= j < |tabs| ==> tabs[j].name != name
    decreases |tabs|
  {
    if |tabs| == 0 then None
    else if tabs[|tabs| - 1].name == name then Some(|tabs| - 1)
    else
      var init := tabs[..|tabs| - 1];
      assert forall j :: 0 <= j < |init| ==> init[j] == tabs[j];
      LastNamed(init, name)
  }

  /** The name map holds exactly the names of the named tabs, each mapped to the id of the
      last tab with that name. */
  lemma {:induction false} NameMapLast(tabs: seq<Tab>, name: string)
    ensures name in NameMap(tabs) <==> name != "" && LastNamed(tabs, name).Some?
    ensures name in NameMap(tabs) ==> NameMap(tabs)[name] == tabs[LastNamed(tabs, name).value].tabId
    decreases |tabs|
  {
    if |tabs| > 0 {
      var init := tabs[..|tabs| - 1];
      NameMapLast(init, name);
      if LastNamed(init, name).Some? {
        assert init[LastNamed(init, name).value] == tabs[LastNamed(init, name).value];
      }
    }
  }
}
