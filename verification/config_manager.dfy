/** Live-reload decisions of the configuration manager
    (crates/vibepanel/src/services/config_manager.rs): which message a reload
    produces, what a message does to the stored configuration, and which
    subsystems `apply_config` touches, in which order.

    This file reads a later revision of the configuration schema than
    crates/vibepanel-core/src/config.rs (icon settings, bar colours, border
    radii), so it declares its own record holding exactly the fields it reads.
    Hash maps are given in their iteration order. */
module ConfigManager {
  import opened Common
  import Config

  type Placement = Config.WidgetPlacement

  /** One `[widgets.<name>]` table as the manager sees it: the disabled flag
      and the options, each option value already rendered by `{:?}`. */
  datatype WidgetSettings = WidgetSettings(disabled: bool, options: seq<(string, string)>)

  datatype BarSettings = BarSettings(
    size: nat, screenMargin: int, spacing: int, inset: int,
    notchEnabled: bool, notchWidth: int,
    backgroundColor: string, backgroundOpacity: real, borderRadius: int)

  datatype WidgetsSettings = WidgetsSettings(
    left: seq<Placement>, center: seq<Placement>, right: seq<Placement>,
    widgetConfigs: seq<(string, WidgetSettings)>,
    backgroundColor: string, backgroundOpacity: real, borderRadius: int)

  datatype ThemeSettings = ThemeSettings(
    mode: string, accent: string,
    success: string, warning: string, urgent: string,
    fontFamily: string, iconsTheme: string, iconsWeight: int)

  datatype AdvancedSettings = AdvancedSettings(pangoFontRendering: bool, compositor: string)

  datatype ManagedConfig = ManagedConfig(
    bar: BarSettings, widgets: WidgetsSettings, theme: ThemeSettings, advanced: AdvancedSettings)

  // ------------------------------------------------------------ messages

  datatype ConfigMessage = Reloaded(config: ManagedConfig) | Error(message: string) | StyleCssChanged

  /** `reload_and_send`: load the file, then validate it. Loading and
      validation are the caller's (they live in the core crate); the message
      sent is Reloaded only for a configuration that passed both. */
  function ReloadAndSend(loaded: Result<ManagedConfig, string>, validate: ManagedConfig -> Result<(), string>): (m: ConfigMessage)
    ensures m.Reloaded? <==> loaded.Ok? && validate(loaded.value).Ok?
    ensures m.Reloaded? ==> m.config == loaded.value
    ensures loaded.Err? ==> m == Error("Failed to reload config: " + loaded.error)
    ensures loaded.Ok? && validate(loaded.value).Err? ==>
              m == Error("Config validation failed: " + validate(loaded.value).error)
    ensures !m.StyleCssChanged?
  {
    match loaded
    case Err(e) => Error("Failed to reload config: " + e)
    case Ok(c) =>
      match validate(c)
      case Err(e) => Error("Config validation failed: " + e)
      case Ok(_) => Reloaded(c)
  }

  /** The subsystem calls the manager makes, in order. */
  datatype Effect =
    | ReconfigureIcons(iconsTheme: string, iconsWeight: int)
    | UpdateThemeStyles
    | LoadCss
    | StoreConfig
    | RebuildBars
    | ReloadUserCss
    | LogError(message: string)

  // ----------------------------------------------------- change detection

  /** Every field a theme update depends on. */
  datatype ThemeView = ThemeView(
    mode: string, accent: string,
    barBackground: string, barOpacity: real,
    widgetBackground: string, widgetOpacity: real,
    success: string, warning: string, urgent: string, fontFamily: string,
    barRadius: int, widgetRadius: int, barSize: nat, pangoFontRendering: bool)

  function ThemeOf(c: ManagedConfig): ThemeView {
    ThemeView(c.theme.mode, c.theme.accent,
              c.bar.backgroundColor, c.bar.backgroundOpacity,
              c.widgets.backgroundColor, c.widgets.backgroundOpacity,
              c.theme.success, c.theme.warning, c.theme.urgent, c.theme.fontFamily,
              c.bar.borderRadius, c.widgets.borderRadius, c.bar.size, c.advanced.pangoFontRendering)
  }

  /** `config_theme_changed`: a chain of field comparisons, which is the
      same as comparing the theme-relevant projection as a whole. */
  function ConfigThemeChanged(prev: ManagedConfig, next: ManagedConfig): (changed: bool)
    ensures changed <==> ThemeOf(prev) != ThemeOf(next)
  {
    || prev.theme.mode != next.theme.mode
    || prev.theme.accent != next.theme.accent
    || prev.bar.backgroundColor != next.bar.backgroundColor
    || prev.bar.backgroundOpacity != next.bar.backgroundOpacity
    || prev.widgets.backgroundColor != next.widgets.backgroundColor
    || prev.widgets.backgroundOpacity != next.widgets.backgroundOpacity
    || prev.theme.success != next.theme.success
    || prev.theme.warning != next.theme.warning
    || prev.theme.urgent != next.theme.urgent
    || prev.theme.fontFamily != next.theme.fontFamily
    || prev.bar.borderRadius != next.bar.borderRadius
    || prev.widgets.borderRadius != next.widgets.borderRadius
    || prev.bar.size != next.bar.size
    || prev.advanced.pangoFontRendering != next.advanced.pangoFontRendering
  }

  /** An unchanged configuration never triggers a theme update, while a new
      mode, accent or bar opacity always does; layout-only edits do not. */
  lemma ThemeChangeExamples(c: ManagedConfig, mode: string, accent: string, opacity: real, spacing: int)
    ensures !ConfigThemeChanged(c, c)
    ensures mode != c.theme.mode ==> ConfigThemeChanged(c, c.(theme := c.theme.(mode := mode)))
    ensures accent != c.theme.accent ==> ConfigThemeChanged(c, c.(theme := c.theme.(accent := accent)))
    ensures opacity != c.bar.backgroundOpacity ==>
              ConfigThemeChanged(c, c.(bar := c.bar.(backgroundOpacity := opacity)))
    ensures !ConfigThemeChanged(c, c.(bar := c.bar.(spacing := spacing)))
  {
  }

  // --------------------------------------------------- widget summaries

  function BoolText(b: bool): string { if b then "true" else "false" }

  /** `{:?}` of an option map: `{"key": value, ...}` in iteration order.
      Escaping inside keys is not modelled. */
  function OptionsDebug(options: seq<(string, string)>): string {
    "{" + Join(OptionItems(options), ", ") + "}"
  }

  function OptionItems(options: seq<(string, string)>): (items: seq<string>)
    ensures |items| == |options|
  {
    if options == [] then []
    else ["\"" + options[0].0 + "\": " + options[0].1] + OptionItems(options[1..])
  }

  /** `format_item`: one line per placement. */
  function FormatItem(side: string, p: Placement): string {
    match p
    case Single(name) => side + ":" + name
    case Group(group) => side + ":group:[" + Join(group, ", ") + "]"
  }

  function FormatSection(side: string, ps: seq<Placement>): (lines: seq<string>)
    ensures |lines| == |ps|
    ensures forall i :: 0 <= i < |ps| ==> lines[i] == FormatItem(side, ps[i])
  {
    if ps == [] then [] else [FormatItem(side, ps[0])] + FormatSection(side, ps[1..])
  }

  function ConfigEntry(entry: (string, WidgetSettings)): string {
    "config:" + entry.0 + ":disabled=" + BoolText(entry.1.disabled) + "," + OptionsDebug(entry.1.options)
  }

  function ConfigEntries(entries: seq<(string, WidgetSettings)>): (lines: seq<string>)
    ensures |lines| == |entries|
    ensures forall i :: 0 <= i < |entries| ==> lines[i] == ConfigEntry(entries[i])
  {
    if entries == [] then [] else [ConfigEntry(entries[0])] + ConfigEntries(entries[1..])
  }

  function PlacementLines(w: WidgetsSettings): seq<string> {
    FormatSection("left", w.left) + FormatSection("center", w.center) + FormatSection("right", w.right)
  }

  /** `widget_names`: left, then center, then right placements, then one
      line per widget table in the map's iteration order. */
  function WidgetNames(c: ManagedConfig): (names: seq<string>)
    ensures var w := c.widgets;
            |names| == |w.left| + |w.center| + |w.right| + |w.widgetConfigs|
    ensures forall i :: 0 <= i < |c.widgets.left| ==> names[i] == FormatItem("left", c.widgets.left[i])
    ensures forall i :: 0 <= i < |c.widgets.center| ==>
              names[|c.widgets.left| + i] == FormatItem("center", c.widgets.center[i])
    ensures forall i :: 0 <= i < |c.widgets.right| ==>
              names[|c.widgets.left| + |c.widgets.center| + i] == FormatItem("right", c.widgets.right[i])
    ensures var k := |c.widgets.left| + |c.widgets.center| + |c.widgets.right|;
            forall i :: 0 <= i < |c.widgets.widgetConfigs| ==> names[k + i] == ConfigEntry(c.widgets.widgetConfigs[i])
  {
    PlacementLines(c.widgets) + ConfigEntries(c.widgets.widgetConfigs)
  }

  lemma JoinTwo(a: string, b: string, sep: string)
    ensures Join([a, b], sep) == a + sep + b
  {
    assert [a, b][1..] == [b];
  }

  /** A single widget is listed as "side:name" and a group of two as
      "side:group:[a, b]". */
  lemma FormatItemShapes(side: string, n: string, a: string, b: string)
    ensures FormatItem(side, Config.Single(n)) == side + ":" + n
    ensures FormatItem(side, Config.Group([a, b])) == side + ":group:[" + a + ", " + b + "]"
  {
    JoinTwo(a, b, ", ");
  }

  lemma WidgetNamesOfOnes(c: ManagedConfig)
    requires |c.widgets.left| == 1 && |c.widgets.center| == 1 && |c.widgets.right| == 1
    ensures WidgetNames(c)[0] == FormatItem("left", c.widgets.left[0])
    ensures WidgetNames(c)[1] == FormatItem("center", c.widgets.center[0])
    ensures WidgetNames(c)[2] == FormatItem("right", c.widgets.right[0])
  {
  }

  /** The unit test's shape: a single widget on the left, a group of two in
      the center and a single widget on the right are listed in that order,
      as "left:<name>", "center:group:[<a>, <b>]" and "right:<name>". */
  lemma WidgetNamesExamples(c: ManagedConfig, l: string, a: string, b: string, r: string)
    requires c.widgets.left == [Config.Single(l)]
    requires c.widgets.center == [Config.Group([a, b])]
    requires c.widgets.right == [Config.Single(r)]
    ensures WidgetNames(c)[0] == "left" + ":" + l
    ensures WidgetNames(c)[1] == "center" + ":group:[" + a + ", " + b + "]"
    ensures WidgetNames(c)[2] == "right" + ":" + r
  {
    WidgetNamesOfOnes(c);
    FormatItemShapes("left", l, a, b);
    FormatItemShapes("center", l, a, b);
    FormatItemShapes("right", r, a, b);
  }

  /** The fields whose change forces a bar rebuild, as written: the widget
      summary is compared as a list. */
  datatype StructureView = StructureView(
    size: nat, screenMargin: int, spacing: int, inset: int,
    notchEnabled: bool, notchWidth: int, widgets: seq<string>, compositor: string)

  function StructureOf(c: ManagedConfig): StructureView {
    StructureView(c.bar.size, c.bar.screenMargin, c.bar.spacing, c.bar.inset,
                  c.bar.notchEnabled, c.bar.notchWidth, WidgetNames(c), c.advanced.compositor)
  }

  /** `config_structure_changed`, as written: early returns over the bar
      geometry, then the `widget_names` lists, then the compositor. */
  function ConfigStructureChanged(prev: ManagedConfig, next: ManagedConfig): (changed: bool)
    ensures changed <==> StructureOf(prev) != StructureOf(next)
  {
    if prev.bar.size != next.bar.size then true
    else if prev.bar.screenMargin != next.bar.screenMargin then true
    else if prev.bar.spacing != next.bar.spacing then true
    else if prev.bar.inset != next.bar.inset then true
    else if prev.bar.notchEnabled != next.bar.notchEnabled then true
    else if prev.bar.notchWidth != next.bar.notchWidth then true
    else if WidgetNames(prev) != WidgetNames(next) then true
    else if prev.advanced.compositor != next.advanced.compositor then true
    else false
  }

  /** A config is never structurally different from itself; a new bar size
      or a different list of single widgets on the left forces a rebuild. */
  lemma StructureChangeExamples(c: ManagedConfig, size: nat, left: seq<string>)
    ensures !ConfigStructureChanged(c, c)
    ensures size != c.bar.size ==> ConfigStructureChanged(c, c.(bar := c.bar.(size := size)))
    ensures AllSingles(c.widgets.left) && left != SingleNames(c.widgets.left) ==>
              ConfigStructureChanged(c, c.(widgets := c.widgets.(left := Singles(left))))
  {
    var c' := c.(widgets := c.widgets.(left := Singles(left)));
    if AllSingles(c.widgets.left) && left != SingleNames(c.widgets.left) {
      SinglesRoundTrip(c.widgets.left);
      SingleLinesInjective(c.widgets.left, c'.widgets.left);
      LeftLinesFromNames(c, c');
    }
  }

  /** Equal summaries of two configurations differing only on the left side
      have equal left lines. */
  lemma LeftLinesFromNames(c: ManagedConfig, c': ManagedConfig)
    requires c'.widgets == c.widgets.(left := c'.widgets.left)
    ensures WidgetNames(c) == WidgetNames(c') ==>
              FormatSection("left", c.widgets.left) == FormatSection("left", c'.widgets.left)
  {
    if WidgetNames(c) == WidgetNames(c') {
      var n := |c.widgets.left|;
      assert |c'.widgets.left| == n;
      forall i | 0 <= i < n
        ensures FormatSection("left", c.widgets.left)[i] == FormatSection("left", c'.widgets.left)[i]
      {
        assert WidgetNames(c)[i] == WidgetNames(c')[i];
      }
    }
  }

  predicate AllSingles(ps: seq<Placement>) {
    forall i :: 0 <= i < |ps| ==> ps[i].Single?
  }

  function Singles(names: seq<string>): (ps: seq<Placement>)
    ensures |ps| == |names| && AllSingles(ps)
    ensures forall i :: 0 <= i < |names| ==> ps[i] == Config.Single(names[i])
  {
    if names == [] then [] else [Config.Single(names[0])] + Singles(names[1..])
  }

  function SingleNames(ps: seq<Placement>): (names: seq<string>)
    requires AllSingles(ps)
    ensures |names| == |ps|
    ensures forall i :: 0 <= i < |ps| ==> names[i] == ps[i].name
  {
    if ps == [] then [] else [ps[0].name] + SingleNames(ps[1..])
  }

  lemma SinglesRoundTrip(ps: seq<Placement>)
    requires AllSingles(ps)
    ensures Singles(SingleNames(ps)) == ps
  {
  }

  /** Two single-widget sections with the same lines name the same widgets. */
  lemma SingleLinesInjective(xs: seq<Placement>, ys: seq<Placement>)
    requires AllSingles(xs) && AllSingles(ys)
    ensures FormatSection("left", xs) == FormatSection("left", ys) ==> xs == ys
  {
    if FormatSection("left", xs) == FormatSection("left", ys) {
      forall i | 0 <= i < |xs|
        ensures xs[i] == ys[i]
      {
        SingleLine("left", xs[i]);
        SingleLine("left", ys[i]);
        PrefixCancel("left" + ":", xs[i].name, ys[i].name);
      }
    }
  }

  lemma SingleLine(side: string, p: Placement)
    requires p.Single?
    ensures FormatItem(side, p) == (side + ":") + p.name
  {
  }

  lemma PrefixCancel(pre: string, x: string, y: string)
    requires pre + x == pre + y
    ensures x == y
  {
    assert x == (pre + x)[|pre|..];
  }

  /** A widget's line in the summary determines its name when names
      contain no ':'. */
  lemma ConfigEntriesDiffer(a: (string, WidgetSettings), b: (string, WidgetSettings))
    requires ':' !in a.0 && ':' !in b.0 && a.0 != b.0
    ensures ConfigEntry(a) != ConfigEntry(b)
  {
    var ra := ":disabled=" + BoolText(a.1.disabled) + "," + OptionsDebug(a.1.options);
    var rb := ":disabled=" + BoolText(b.1.disabled) + "," + OptionsDebug(b.1.options);
    assert ConfigEntry(a) == "config:" + a.0 + ra;
    assert ConfigEntry(b) == "config:" + b.0 + rb;
    NameBeforeColon("config:", a.0, b.0, ra, rb);
  }

  /** `pre + x + rx` determines `x` when `x` holds no ':' and `rx` starts
      with one. */
  lemma NameBeforeColon(pre: string, x: string, y: string, rx: string, ry: string)
    requires ':' !in x && ':' !in y && x != y
    requires rx != [] && rx[0] == ':' && ry != [] && ry[0] == ':'
    ensures pre + x + rx != pre + y + ry
  {
    var u, v := pre + x + rx, pre + y + ry;
    var k := |pre|;
    if |x| == |y| {
      var i :| 0 <= i < |x| && x[i] != y[i];
      assert u[k + i] == x[i] && v[k + i] == y[i];
    } else if |x| < |y| {
      assert u[k + |x|] == ':';
      assert v[k + |x|] == y[|x|];
      assert y[|x|] in y;
    } else {
      assert v[k + |y|] == ':';
      assert u[k + |y|] == x[|y|];
      assert x[|y|] in x;
    }
  }

  /** Two widget tables listed in the other order give a different summary,
      so the configuration reads as structurally changed although nothing
      changed: the hash map the reloaded file is parsed into is seeded
      afresh and its iteration order is unrelated to the stored copy's. */
  lemma ReorderedTablesForceRebuild(c: ManagedConfig, a: (string, WidgetSettings), b: (string, WidgetSettings))
    requires c.widgets.widgetConfigs == [a, b]
    requires ':' !in a.0 && ':' !in b.0 && a.0 != b.0
    ensures ConfigStructureChanged(c, c.(widgets := c.widgets.(widgetConfigs := [b, a])))
  {
    var c' := c.(widgets := c.widgets.(widgetConfigs := [b, a]));
    var k := |c.widgets.left| + |c.widgets.center| + |c.widgets.right|;
    ConfigEntriesDiffer(a, b);
    assert WidgetNames(c)[k] == ConfigEntry(a);
    assert WidgetNames(c')[k] == ConfigEntry(b);
  }

  // -------------------------------------- order-independent structure test

  /** A map built from pairs with distinct keys. */
  function ToMap<V>(pairs: seq<(string, V)>): map<string, V> {
    if pairs == [] then map[] else ToMap(pairs[1..])[pairs[0].0 := pairs[0].1]
  }

  /** The map's keys are exactly the keys of the pairs. */
  lemma {:induction false} ToMapKeys<V>(pairs: seq<(string, V)>)
    ensures forall i :: 0 <= i < |pairs| ==> pairs[i].0 in ToMap(pairs)
    ensures forall k :: k in ToMap(pairs) ==> exists i :: 0 <= i < |pairs| && pairs[i].0 == k
  {
    if pairs != [] {
      ToMapKeys(pairs[1..]);
      forall k | k in ToMap(pairs) ensures exists i :: 0 <= i < |pairs| && pairs[i].0 == k {
        if k != pairs[0].0 {
          var i :| 0 <= i < |pairs[1..]| && pairs[1..][i].0 == k;
          assert pairs[i + 1].0 == k;
        }
      }
    }
  }

  function TableMap(entries: seq<(string, WidgetSettings)>): map<string, (bool, map<string, string>)> {
    ToMap(TableItems(entries))
  }

  function TableItems(entries: seq<(string, WidgetSettings)>): (items: seq<(string, (bool, map<string, string>))>)
    ensures |items| == |entries|
    ensures forall i :: 0 <= i < |entries| ==>
              items[i] == (entries[i].0, (entries[i].1.disabled, ToMap(entries[i].1.options)))
  {
    if entries == [] then []
    else [(entries[0].0, (entries[0].1.disabled, ToMap(entries[0].1.options)))] + TableItems(entries[1..])
  }

  lemma ToMapCons<V>(x: (string, V), rest: seq<(string, V)>)
    ensures ToMap([x] + rest) == ToMap(rest)[x.0 := x.1]
  {
    assert ([x] + rest)[1..] == rest;
  }

  lemma UpdatesCommute<V>(m: map<string, V>, a: (string, V), b: (string, V))
    requires a.0 != b.0
    ensures m[b.0 := b.1][a.0 := a.1] == m[a.0 := a.1][b.0 := b.1]
  {
  }

  /** Swapping two neighbours with different keys does not change the map. */
  lemma {:induction false} ToMapSwap<V>(p: seq<(string, V)>, a: (string, V), b: (string, V), s: seq<(string, V)>)
    requires a.0 != b.0
    ensures ToMap(p + [a, b] + s) == ToMap(p + [b, a] + s)
  {
    if p == [] {
      assert p + [a, b] + s == [a] + ([b] + s);
      assert p + [b, a] + s == [b] + ([a] + s);
      ToMapCons(a, [b] + s);
      ToMapCons(b, s);
      ToMapCons(b, [a] + s);
      ToMapCons(a, s);
      UpdatesCommute(ToMap(s), a, b);
    } else {
      ToMapSwap(p[1..], a, b, s);
      assert p + [a, b] + s == [p[0]] + (p[1..] + [a, b] + s);
      assert p + [b, a] + s == [p[0]] + (p[1..] + [b, a] + s);
      ToMapCons(p[0], p[1..] + [a, b] + s);
      ToMapCons(p[0], p[1..] + [b, a] + s);
    }
  }

  datatype StableView = StableView(
    size: nat, screenMargin: int, spacing: int, inset: int,
    notchEnabled: bool, notchWidth: int,
    placements: seq<string>, tables: map<string, (bool, map<string, string>)>, compositor: string)

  function StableOf(c: ManagedConfig): StableView {
    StableView(c.bar.size, c.bar.screenMargin, c.bar.spacing, c.bar.inset,
               c.bar.notchEnabled, c.bar.notchWidth,
               PlacementLines(c.widgets), TableMap(c.widgets.widgetConfigs), c.advanced.compositor)
  }

  /** The structure test the manager evidently intends: widget tables are
      compared as maps, so iteration order cannot force a rebuild. */
  function StructureChanged(prev: ManagedConfig, next: ManagedConfig): (changed: bool)
    ensures changed <==> StableOf(prev) != StableOf(next)
    ensures prev.bar.size != next.bar.size ==> changed
    ensures PlacementLines(prev.widgets) != PlacementLines(next.widgets) ==> changed
  {
    StableOf(prev) != StableOf(next)
  }

  /** The intended test ignores the order of widget tables (here, two
      neighbours exchanged), and it agrees with the written one whenever the
      tables are listed in the same order. */
  lemma StructureChangedIgnoresOrder(c: ManagedConfig, p: seq<(string, WidgetSettings)>,
                                     a: (string, WidgetSettings), b: (string, WidgetSettings),
                                     s: seq<(string, WidgetSettings)>)
    requires c.widgets.widgetConfigs == p + [a, b] + s
    requires a.0 != b.0
    ensures !StructureChanged(c, c.(widgets := c.widgets.(widgetConfigs := p + [b, a] + s)))
  {
    var ia := (a.0, (a.1.disabled, ToMap(a.1.options)));
    var ib := (b.0, (b.1.disabled, ToMap(b.1.options)));
    TableItemsConcat(p, [a, b], s);
    TableItemsConcat(p, [b, a], s);
    assert TableItems([a, b]) == [ia, ib];
    assert TableItems([b, a]) == [ib, ia];
    ToMapSwap(TableItems(p), ia, ib, TableItems(s));
  }

  lemma TableItemsConcat(x: seq<(string, WidgetSettings)>, y: seq<(string, WidgetSettings)>, z: seq<(string, WidgetSettings)>)
    ensures TableItems(x + y + z) == TableItems(x) + TableItems(y) + TableItems(z)
  {
    var l, r := TableItems(x + y + z), TableItems(x) + TableItems(y) + TableItems(z);
    forall i | 0 <= i < |l|
      ensures l[i] == r[i]
    {
      if i < |x| {
        assert (x + y + z)[i] == x[i];
      } else if i < |x| + |y| {
        assert (x + y + z)[i] == y[i - |x|];
      } else {
        assert (x + y + z)[i] == z[i - |x| - |y|];
      }
    }
  }

  lemma StructureTestsAgree(prev: ManagedConfig, next: ManagedConfig)
    requires prev.widgets.widgetConfigs == next.widgets.widgetConfigs
    ensures StructureChanged(prev, next) == ConfigStructureChanged(prev, next)
  {
    var e := ConfigEntries(prev.widgets.widgetConfigs);
    if PlacementLines(prev.widgets) != PlacementLines(next.widgets) {
      var po, pn := PlacementLines(prev.widgets), PlacementLines(next.widgets);
      assert WidgetNames(prev) == po + e && WidgetNames(next) == pn + e;
      assert po == (po + e)[..|po|] && pn == (pn + e)[..|pn|];
    }
  }

  // ------------------------------------------------------------ applying

  datatype Manager = Manager(config: ManagedConfig)

  /** `apply_config`: icons when their theme or weight changed, theme
      styles (then CSS) when the theme changed, the new configuration is
      stored, and only then, on a structural change as `config_structure_changed`
      reports it, CSS is reloaded and the bars are rebuilt (when a display
      exists). */
  function ApplyConfig(prev: ManagedConfig, next: ManagedConfig, hasDisplay: bool): (effects: seq<Effect>)
    ensures ReconfigureIcons(next.theme.iconsTheme, next.theme.iconsWeight) in effects <==>
              prev.theme.iconsTheme != next.theme.iconsTheme || prev.theme.iconsWeight != next.theme.iconsWeight
    ensures UpdateThemeStyles in effects <==> ConfigThemeChanged(prev, next)
    ensures RebuildBars in effects <==> ConfigStructureChanged(prev, next) && hasDisplay
    ensures multiset(effects)[StoreConfig] == 1
    ensures forall i :: 0 <= i < |effects| && effects[i] == RebuildBars ==> StoreConfig in effects[..i]
    ensures forall i :: 0 <= i < |effects| && effects[i] == UpdateThemeStyles ==> StoreConfig in effects[i + 1..]
  {
    ApplyWith(prev, next, ConfigStructureChanged(prev, next), hasDisplay)
  }

  /** `apply_config` with the order-independent structure test: a reload
      that only reorders widget tables rebuilds nothing. */
  function ApplyConfigStable(prev: ManagedConfig, next: ManagedConfig, hasDisplay: bool): (effects: seq<Effect>)
    ensures UpdateThemeStyles in effects <==> ConfigThemeChanged(prev, next)
    ensures RebuildBars in effects <==> StructureChanged(prev, next) && hasDisplay
    ensures multiset(effects)[StoreConfig] == 1
  {
    ApplyWith(prev, next, StructureChanged(prev, next), hasDisplay)
  }

  /** The fan-out for a given verdict of the structure test. */
  function ApplyWith(prev: ManagedConfig, next: ManagedConfig, structural: bool, hasDisplay: bool): (effects: seq<Effect>)
    ensures ReconfigureIcons(next.theme.iconsTheme, next.theme.iconsWeight) in effects <==>
              prev.theme.iconsTheme != next.theme.iconsTheme || prev.theme.iconsWeight != next.theme.iconsWeight
    ensures UpdateThemeStyles in effects <==> ConfigThemeChanged(prev, next)
    ensures RebuildBars in effects <==> structural && hasDisplay
    ensures multiset(effects)[StoreConfig] == 1
    ensures forall i :: 0 <= i < |effects| && effects[i] == RebuildBars ==> StoreConfig in effects[..i]
    ensures forall i :: 0 <= i < |effects| && effects[i] == UpdateThemeStyles ==> StoreConfig in effects[i + 1..]
  {
    var before, after := BeforeStore(prev, next), AfterStore(structural, hasDisplay);
    StoreSplit(before, after);
    before + [StoreConfig] + after
  }

  lemma StoreSplit(before: seq<Effect>, after: seq<Effect>)
    requires StoreConfig !in before && StoreConfig !in after
    requires RebuildBars !in before && UpdateThemeStyles !in after
    ensures var effects := before + [StoreConfig] + after;
            && (forall e :: e in effects <==> e in before || e == StoreConfig || e in after)
            && multiset(effects)[StoreConfig] == 1
            && (forall i :: 0 <= i < |effects| && effects[i] == RebuildBars ==> StoreConfig in effects[..i])
            && (forall i :: 0 <= i < |effects| && effects[i] == UpdateThemeStyles ==> StoreConfig in effects[i + 1..])
  {
    var effects := before + [StoreConfig] + after;
    assert effects[|before|] == StoreConfig;
    assert multiset(effects)[StoreConfig] == multiset(before)[StoreConfig] + 1 + multiset(after)[StoreConfig];
    forall i | 0 <= i < |effects| && effects[i] == RebuildBars
      ensures StoreConfig in effects[..i]
    {
      assert effects[..i][|before|] == StoreConfig;
    }
    forall i | 0 <= i < |effects| && effects[i] == UpdateThemeStyles
      ensures StoreConfig in effects[i + 1..]
    {
      assert effects[i + 1..][|before| - i - 1] == StoreConfig;
    }
  }

  /** Icon and theme updates, made before the new configuration is stored. */
  function BeforeStore(prev: ManagedConfig, next: ManagedConfig): (effects: seq<Effect>)
    ensures ReconfigureIcons(next.theme.iconsTheme, next.theme.iconsWeight) in effects <==>
              prev.theme.iconsTheme != next.theme.iconsTheme || prev.theme.iconsWeight != next.theme.iconsWeight
    ensures UpdateThemeStyles in effects <==> ConfigThemeChanged(prev, next)
    ensures StoreConfig !in effects && RebuildBars !in effects
  {
    var icons := if prev.theme.iconsTheme != next.theme.iconsTheme || prev.theme.iconsWeight != next.theme.iconsWeight
                 then [ReconfigureIcons(next.theme.iconsTheme, next.theme.iconsWeight)] else [];
    var theme := if ConfigThemeChanged(prev, next) then [UpdateThemeStyles, LoadCss] else [];
    icons + theme
  }

  /** The structural rebuild, made after the new configuration is stored:
      CSS first, then the bars when a display exists. */
  function AfterStore(structural: bool, hasDisplay: bool): (effects: seq<Effect>)
    ensures RebuildBars in effects <==> structural && hasDisplay
    ensures LoadCss in effects <==> structural
    ensures StoreConfig !in effects && UpdateThemeStyles !in effects
    ensures forall e :: e in effects ==> !e.ReconfigureIcons?
  {
    if structural then [LoadCss] + (if hasDisplay then [RebuildBars] else []) else []
  }

  /** A reload that only lists two widget tables the other way round
      rebuilds the bars as written, and does not with the stable test. */
  lemma ReorderRebuilds(c: ManagedConfig, a: (string, WidgetSettings), b: (string, WidgetSettings))
    requires c.widgets.widgetConfigs == [a, b]
    requires ':' !in a.0 && ':' !in b.0 && a.0 != b.0
    ensures var c' := c.(widgets := c.widgets.(widgetConfigs := [b, a]));
            RebuildBars in ApplyConfig(c, c', true) && RebuildBars !in ApplyConfigStable(c, c', true)
  {
    var c' := c.(widgets := c.widgets.(widgetConfigs := [b, a]));
    ReorderedTablesForceRebuild(c, a, b);
    SwapTwoStable(c, a, b);
    RebuildFollowsVerdict(c, c', true);
  }

  lemma SwapTwoStable(c: ManagedConfig, a: (string, WidgetSettings), b: (string, WidgetSettings))
    requires c.widgets.widgetConfigs == [a, b] && a.0 != b.0
    ensures !StructureChanged(c, c.(widgets := c.widgets.(widgetConfigs := [b, a])))
  {
    assert c.widgets.widgetConfigs == [] + [a, b] + [];
    assert [b, a] == [] + [b, a] + [];
    StructureChangedIgnoresOrder(c, [], a, b, []);
  }

  /** Both fan-outs rebuild exactly when their structure test fires. */
  lemma RebuildFollowsVerdict(prev: ManagedConfig, next: ManagedConfig, hasDisplay: bool)
    ensures RebuildBars in ApplyConfig(prev, next, hasDisplay) <==> ConfigStructureChanged(prev, next) && hasDisplay
    ensures RebuildBars in ApplyConfigStable(prev, next, hasDisplay) <==> StructureChanged(prev, next) && hasDisplay
  {
  }

  /** Editing only the widget layout never counts as a theme change. */
  lemma WidgetsOnlyChangeNoTheme(c: ManagedConfig, left: seq<Placement>, center: seq<Placement>,
                                 right: seq<Placement>, tables: seq<(string, WidgetSettings)>)
    ensures !ConfigThemeChanged(c, c.(widgets := c.widgets.(left := left, center := center, right := right,
                                                              widgetConfigs := tables)))
  {
  }

  /** Editing only the theme table (colours, fonts, icons) never counts as
      a structural change, so it never rebuilds the bars. */
  lemma ThemeOnlyChangeNoStructure(c: ManagedConfig, t: ThemeSettings, hasDisplay: bool)
    ensures !ConfigStructureChanged(c, c.(theme := t))
    ensures RebuildBars !in ApplyConfig(c, c.(theme := t), hasDisplay)
  {
    assert WidgetNames(c.(theme := t)) == WidgetNames(c);
  }

  /** `handle_config_message`: a reloaded configuration replaces the stored
      one and fans out; an error is logged and the last good configuration
      stays; a changed style sheet only reloads the user CSS. */
  function HandleConfigMessage(m: Manager, msg: ConfigMessage, hasDisplay: bool): (r: (Manager, seq<Effect>))
    ensures msg.Reloaded? ==> r.0.config == msg.config && StoreConfig in r.1
    ensures !msg.Reloaded? ==> r.0 == m && StoreConfig !in r.1 && RebuildBars !in r.1
    ensures msg.StyleCssChanged? ==> r.1 == [ReloadUserCss]
  {
    match msg
    case Reloaded(c) => (Manager(c), ApplyConfig(m.config, c, hasDisplay))
    case Error(e) => (m, [LogError("Config reload error: " + e)])
    case StyleCssChanged => (m, [ReloadUserCss])
  }

  /** A file change, end to end: the stored configuration becomes the file's
      contents exactly when they load and validate, and otherwise stays. */
  lemma ReloadKeepsLastGood(m: Manager, loaded: Result<ManagedConfig, string>,
                            validate: ManagedConfig -> Result<(), string>, hasDisplay: bool)
    ensures var r := HandleConfigMessage(m, ReloadAndSend(loaded, validate), hasDisplay);
            (loaded.Ok? && validate(loaded.value).Ok? ==> r.0.config == loaded.value)
            && (!(loaded.Ok? && validate(loaded.value).Ok?) ==> r.0 == m)
  {
  }

  /** Re-applying the stored configuration does nothing but store it. */
  lemma ApplySameIsQuiet(c: ManagedConfig, hasDisplay: bool)
    ensures ApplyConfig(c, c, hasDisplay) == [StoreConfig]
  {
  }
}
