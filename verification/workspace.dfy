/*
 * The workspace widget (`widgets/workspace.rs`): its configuration, which
 * workspaces get an indicator, the indicator row with its separators, the
 * state class and glyph of each indicator, and its tooltip.
 *
 * The `Workspace` records and the service snapshot come from the workspace
 * service (`services/workspace.rs`, not part of this model); only the
 * fields the widget reads are kept. Window counts are naturals.
 */
module Workspace {
  import opened Common
  import opened Toml
  import opened Sorting

  // -------------------------------------------------------------- config

  /** How indicators are labelled: glyphs, workspace names, or no text at
      all (the source's `LabelType::None`, styled by CSS alone). */
  datatype LabelType = Icons | Numbers | Minimal

  /** `LabelType::from_str`: case-insensitive; anything but "numbers" or
      "none" is `Icons`. */
  function LabelTypeFromStr(s: string): (r: LabelType)
    ensures r.Numbers? <==> Lower(s) == "numbers"
    ensures r.Minimal? <==> Lower(s) == "none"
    ensures r.Icons? <==> Lower(s) != "numbers" && Lower(s) != "none"
  {
    var l := Lower(s);
    if l == "numbers" then Numbers else if l == "none" then Minimal else Icons
  }

  /** The option value naming each label type. */
  function LabelTypeName(t: LabelType): string {
    match t
    case Icons => "icons"
    case Numbers => "numbers"
    case Minimal => "none"
  }

  /** Every label type reads back from its name, in any letter case. */
  lemma LabelTypeRoundTrip(t: LabelType)
    ensures LabelTypeFromStr(LabelTypeName(t)) == t
    ensures LabelTypeFromStr(Upper(LabelTypeName(t))) == t
  {
    CaseInsensitiveName(LabelTypeName(t));
  }

  /** An unrecognised value falls back to glyphs. */
  lemma UnknownLabelTypeIsIcons()
    ensures LabelTypeFromStr("unknown") == Icons
    ensures LabelTypeFromStr("ICONS") == Icons
  {
    LowerKeeps("unknown");
    LabelTypeRoundTrip(Icons);
  }

  const DEFAULT_LABEL_TYPE: LabelType := Minimal
  const DEFAULT_SEPARATOR: string := ""

  datatype WorkspaceConfig = WorkspaceConfig(labelType: LabelType, separator: string, color: Option<string>)

  /** `WorkspaceConfig::from_entry`: a non-string option is ignored and
      the default used. */
  function FromOptions(options: map<string, Value>, color: Option<string>): (c: WorkspaceConfig)
    ensures GetStr(options, "label_type").Some? ==> c.labelType == LabelTypeFromStr(GetStr(options, "label_type").value)
    ensures GetStr(options, "label_type").None? ==> c.labelType == DEFAULT_LABEL_TYPE
    ensures c.separator == GetStr(options, "separator").GetOr(DEFAULT_SEPARATOR)
    ensures c.color == color
  {
    var lt := match GetStr(options, "label_type")
      case Some(s) => LabelTypeFromStr(s)
      case None => DEFAULT_LABEL_TYPE;
    WorkspaceConfig(lt, GetStr(options, "separator").GetOr(DEFAULT_SEPARATOR), color)
  }

  /** No options: no text and no separator, as `WorkspaceConfig::default`. */
  lemma DefaultConfig()
    ensures FromOptions(map[], None) == WorkspaceConfig(Minimal, "", None)
  {
  }

  /** A "numbers" label type and a "|" separator are taken as given. */
  lemma NumbersConfig()
    ensures var c := FromOptions(map["label_type" := Str("numbers"), "separator" := Str("|")], None);
            c.labelType == Numbers && c.separator == "|"
  {
    LabelTypeRoundTrip(Numbers);
  }

  // ---------------------------------------------------------- what shows

  /** A workspace as the workspace service reports it. */
  datatype Workspace = Workspace(id: int, name: string, active: bool, occupied: bool, urgent: bool, windowCount: Option<nat>)

  /** The workspaces of one output and that output's active workspace. */
  datatype View = View(workspaces: seq<Workspace>, activeWorkspace: Option<int>)

  datatype ServiceSnapshot = ServiceSnapshot(global: View, perOutput: map<string, View>)

  /** The data an indicator row draws from: the output's own view when the
      widget sits on an output the snapshot knows, otherwise the global one. */
  function SourceView(s: ServiceSnapshot, outputId: Option<string>): (v: View)
    ensures outputId.Some? && outputId.value in s.perOutput ==> v == s.perOutput[outputId.value]
    ensures outputId.None? || outputId.value !in s.perOutput ==> v == s.global
  {
    match outputId
    case Some(o) => if o in s.perOutput then s.perOutput[o] else s.global
    case None => s.global
  }

  /** The ids that get an indicator: every occupied workspace's, and the
      active one. */
  function DisplayIds(v: View): (ids: set<int>)
    ensures forall w :: w in v.workspaces && w.occupied ==> w.id in ids
    ensures v.activeWorkspace.Some? ==> v.activeWorkspace.value in ids
    ensures forall x :: x in ids ==> (v.activeWorkspace == Some(x) || exists w :: w in v.workspaces && w.occupied && w.id == x)
  {
    var occupied := set w | w in v.workspaces && w.occupied :: w.id;
    match v.activeWorkspace
    case Some(a) => occupied + {a}
    case None => occupied
  }

  function Shown(ids: set<int>): Workspace -> bool {
    (w: Workspace) => w.id in ids
  }

  /** The workspaces that get an indicator, in the order the service lists
      them. */
  function DisplayWorkspaces(v: View): (r: seq<Workspace>)
    ensures forall i :: 0 <= i < |r| ==> r[i] in v.workspaces && r[i].id in DisplayIds(v)
  {
    Filter(v.workspaces, Shown(DisplayIds(v)))
  }

  /** No two workspaces of a view share an id. */
  predicate UniqueIds(ws: seq<Workspace>) {
    forall i, j :: 0 <= i < |ws| && 0 <= j < |ws| && ws[i].id == ws[j].id ==> i == j
  }

  /** With unique ids, a workspace is shown exactly when it is occupied or
      it is the active one. */
  lemma DisplayedIffOccupiedOrActive(v: View, w: Workspace)
    requires UniqueIds(v.workspaces) && w in v.workspaces
    ensures w in DisplayWorkspaces(v) <==> w.occupied || v.activeWorkspace == Some(w.id)
  {
    FilterComplete(v.workspaces, Shown(DisplayIds(v)));
    if w.id in DisplayIds(v) && v.activeWorkspace != Some(w.id) {
      var u :| u in v.workspaces && u.occupied && u.id == w.id;
      var i :| 0 <= i < |v.workspaces| && v.workspaces[i] == u;
      var j :| 0 <= j < |v.workspaces| && v.workspaces[j] == w;
    }
  }

  /** Indicators follow the service's order: a view split in two shows the
      first part's indicators before the second's. */
  lemma DisplayKeepsOrder(v: View, a: seq<Workspace>, b: seq<Workspace>)
    requires v.workspaces == a + b
    ensures DisplayWorkspaces(v) == Filter(a, Shown(DisplayIds(v))) + Filter(b, Shown(DisplayIds(v)))
  {
    FilterConcat(a, b, Shown(DisplayIds(v)));
  }

  /** An empty workspace that is not active gets no indicator, even on the
      output's own view. */
  lemma EmptyInactiveHidden(v: View, w: Workspace)
    requires UniqueIds(v.workspaces) && w in v.workspaces && !w.occupied && v.activeWorkspace != Some(w.id)
    ensures w !in DisplayWorkspaces(v)
  {
    DisplayedIffOccupiedOrActive(v, w);
  }

  // -------------------------------------------------------- indicator row

  /** An element of the indicator row. */
  datatype Item = Indicator(id: int, text: string) | Separator(text: string)

  const ICON_OCCUPIED: string := "●"
  const ICON_EMPTY: string := "○"
  const ICON_ACTIVE: string := "◆"

  /** The text a fresh indicator starts with. */
  function InitialText(t: LabelType, w: Workspace): string {
    match t
    case Icons => ICON_EMPTY
    case Numbers => w.name
    case Minimal => ""
  }

  /** `create_indicators`: one indicator per workspace and, when the
      separator is not empty, a separator between consecutive ones. */
  function CreateIndicators(t: LabelType, separator: string, ws: seq<Workspace>): (row: seq<Item>)
    ensures |row| == if separator == [] || ws == [] then |ws| else 2 * |ws| - 1
  {
    if ws == [] then []
    else
      var rest := CreateIndicators(t, separator, ws[1..]);
      var head := [Indicator(ws[0].id, InitialText(t, ws[0]))];
      if separator != [] && |ws| > 1 then head + [Separator(separator)] + rest else head + rest
  }

  /** Without a separator the row is the indicators alone. */
  lemma {:induction false} RowWithoutSeparators(t: LabelType, ws: seq<Workspace>)
    ensures var row := CreateIndicators(t, [], ws);
            forall i :: 0 <= i < |ws| ==> row[i] == Indicator(ws[i].id, InitialText(t, ws[i]))
  {
    if ws != [] {
      var tail := ws[1..];
      RowWithoutSeparators(t, tail);
      var rest := CreateIndicators(t, [], tail);
      var row := CreateIndicators(t, [], ws);
      forall i | 1 <= i < |ws| ensures row[i] == Indicator(ws[i].id, InitialText(t, ws[i])) {
        assert row[i] == rest[i - 1] && ws[i] == tail[i - 1];
      }
    }
  }

  /** With a separator, indicators sit at the even places and separators
      between them. */
  lemma {:induction false} RowWithSeparators(t: LabelType, separator: string, ws: seq<Workspace>)
    requires separator != []
    ensures var row := CreateIndicators(t, separator, ws);
            && (forall i :: 0 <= i < |ws| ==> row[2 * i] == Indicator(ws[i].id, InitialText(t, ws[i])))
            && (forall i :: 0 <= i < |ws| - 1 ==> row[2 * i + 1] == Separator(separator))
  {
    if |ws| > 1 {
      var tail := ws[1..];
      RowWithSeparators(t, separator, tail);
      var rest := CreateIndicators(t, separator, tail);
      var row := CreateIndicators(t, separator, ws);
      assert row == [Indicator(ws[0].id, InitialText(t, ws[0])), Separator(separator)] + rest;
      forall i | 1 <= i < |ws| ensures row[2 * i] == Indicator(ws[i].id, InitialText(t, ws[i])) {
        var j := i - 1;
        assert row[2 * i] == rest[2 * j] && ws[i] == tail[j];
      }
      forall i | 1 <= i < |ws| - 1 ensures row[2 * i + 1] == Separator(separator) {
        var j := i - 1;
        assert row[2 * i + 1] == rest[2 * j + 1];
      }
    }
  }

  /** The ids of the row's indicators, in order. */
  function IdsOf(ws: seq<Workspace>): (ids: seq<int>)
    ensures |ids| == |ws| && forall i :: 0 <= i < |ws| ==> ids[i] == ws[i].id
  {
    seq(|ws|, i requires 0 <= i < |ws| => ws[i].id)
  }

  /** What an update does to the row: nothing, clear it, or rebuild it. */
  datatype RowChange = Keep | Clear | Rebuild(row: seq<Item>)

  /** `update_indicators`' decision: with nothing to show the row is
      cleared (when it had indicators); otherwise it is rebuilt exactly
      when the ids to show differ from those shown. */
  function UpdateRow(t: LabelType, separator: string, current: seq<int>, display: seq<Workspace>): (r: (RowChange, seq<int>))
    ensures r.1 == IdsOf(display)
    ensures r.0.Rebuild? <==> display != [] && IdsOf(display) != current
    ensures r.0.Clear? <==> display == [] && current != []
    ensures r.0.Rebuild? ==> r.0.row == CreateIndicators(t, separator, display)
  {
    if display == [] then (if current != [] then Clear else Keep, [])
    else if IdsOf(display) != current then (Rebuild(CreateIndicators(t, separator, display)), IdsOf(display))
    else (Keep, current)
  }

  /** A second update with the same workspaces changes nothing. */
  lemma UpdateRowStable(t: LabelType, separator: string, current: seq<int>, display: seq<Workspace>)
    ensures UpdateRow(t, separator, UpdateRow(t, separator, current, display).1, display).0 == Keep
  {
  }

  // ----------------------------------------------------------- styling

  /** The state classes an indicator can carry. */
  datatype StateClass = ActiveClass | OccupiedClass | UrgentClass

  /** The one state class of an indicator: active over occupied over
      urgent; none for an idle workspace. */
  function StateClassOf(w: Workspace): (c: Option<StateClass>)
    ensures c == Some(ActiveClass) <==> w.active
    ensures c == Some(OccupiedClass) <==> !w.active && w.occupied
    ensures c == Some(UrgentClass) <==> !w.active && !w.occupied && w.urgent
    ensures c.None? <==> !w.active && !w.occupied && !w.urgent
  {
    if w.active then Some(ActiveClass)
    else if w.occupied then Some(OccupiedClass)
    else if w.urgent then Some(UrgentClass)
    else None
  }

  /** The text an indicator shows after an update: the state glyph, the
      name, or the empty text it was created with. */
  function LabelText(t: LabelType, w: Workspace): (s: string)
    ensures t.Icons? ==> (s == ICON_ACTIVE <==> w.active)
    ensures t.Icons? ==> (s == ICON_OCCUPIED <==> !w.active && w.occupied)
    ensures t.Icons? ==> (s == ICON_EMPTY <==> !w.active && !w.occupied)
    ensures t.Numbers? ==> s == w.name
    ensures t.Minimal? ==> s == InitialText(t, w)
  {
    match t
    case Icons => if w.active then ICON_ACTIVE else if w.occupied then ICON_OCCUPIED else ICON_EMPTY
    case Numbers => w.name
    case Minimal => ""
  }

  /** The glyph and the class always agree on active and occupied; an
      urgent idle workspace keeps the empty glyph. */
  lemma GlyphMatchesClass(w: Workspace)
    ensures LabelText(Icons, w) == ICON_ACTIVE <==> StateClassOf(w) == Some(ActiveClass)
    ensures LabelText(Icons, w) == ICON_OCCUPIED <==> StateClassOf(w) == Some(OccupiedClass)
    ensures StateClassOf(w) == Some(UrgentClass) ==> LabelText(Icons, w) == ICON_EMPTY
  {
  }

  // ------------------------------------------------------------- tooltip

  const TOOLTIP_SEPARATOR: string := " • "

  /** The first tooltip line: "Workspace N", with ": name" when the name
      is not just the number. */
  function TooltipHeader(w: Workspace): (h: string)
    ensures w.name == IntToString(w.id) ==> h == "Workspace " + IntToString(w.id)
    ensures w.name != IntToString(w.id) ==> h == "Workspace " + IntToString(w.id) + ": " + w.name
  {
    if w.name != IntToString(w.id) then "Workspace " + IntToString(w.id) + ": " + w.name
    else "Workspace " + w.name
  }

  /** "1 window", "N windows", "Has windows" or "Empty". */
  function WindowsPart(w: Workspace): string {
    match w.windowCount
    case Some(c) => NatToString(c) + (if c == 1 then " window" else " windows")
    case None => if w.occupied then "Has windows" else "Empty"
  }

  /** The tooltip's parts: header, state when active or urgent, windows. */
  function TooltipParts(w: Workspace): (ps: seq<string>)
    ensures |ps| == (if w.active || w.urgent then 3 else 2)
    ensures ps[0] == TooltipHeader(w) && ps[|ps| - 1] == WindowsPart(w)
    ensures |ps| == 3 ==> ps[1] == (if w.active then "Active" else "Urgent")
  {
    var state := if w.active then ["Active"] else if w.urgent then ["Urgent"] else [];
    [TooltipHeader(w)] + state + [WindowsPart(w)]
  }

  /** `build_tooltip`. */
  function BuildTooltip(w: Workspace): (s: string)
    ensures !w.active && !w.urgent ==> s == TooltipHeader(w) + TOOLTIP_SEPARATOR + WindowsPart(w)
    ensures w.active ==> s == TooltipHeader(w) + TOOLTIP_SEPARATOR + "Active" + TOOLTIP_SEPARATOR + WindowsPart(w)
    ensures !w.active && w.urgent ==> s == TooltipHeader(w) + TOOLTIP_SEPARATOR + "Urgent" + TOOLTIP_SEPARATOR + WindowsPart(w)
  {
    var ps := TooltipParts(w);
    if |ps| == 2 then
      assert Join(ps, TOOLTIP_SEPARATOR) == ps[0] + TOOLTIP_SEPARATOR + ps[1];
      Join(ps, TOOLTIP_SEPARATOR)
    else
      assert Join(ps[1..], TOOLTIP_SEPARATOR) == ps[1] + TOOLTIP_SEPARATOR + ps[2];
      Join(ps, TOOLTIP_SEPARATOR)
  }

  /** Whatever the name, the tooltip opens with the workspace's number. */
  lemma TooltipOpensWithNumber(w: Workspace)
    ensures StartsWith(BuildTooltip(w), "Workspace " + IntToString(w.id))
  {
    var p := "Workspace " + IntToString(w.id);
    var h := TooltipHeader(w);
    assert h[..|p|] == p by {
      if w.name != IntToString(w.id) {
        assert h == p + (": " + w.name);
      }
    }
    var t := BuildTooltip(w);
    assert t[..|h|] == h;
  }

  /** "window" is singular for exactly one window. */
  lemma SingularForOneWindow(w: Workspace)
    requires w.windowCount.Some?
    ensures WindowsPart(w) == NatToString(w.windowCount.value) + " window" <==> w.windowCount.value == 1
  {
    var n := NatToString(w.windowCount.value);
    if w.windowCount.value != 1 {
      assert WindowsPart(w) == n + " windows";
      assert |n + " windows"| != |n + " window"|;
    }
  }
}
