/** Configuration checks, default merging, widget placement resolution and
    config-file discovery (crates/vibepanel-core/src/config.rs). The
    configuration arrives as already-deserialized records holding the fields
    these operations read. */
module Config {
  import opened Common
  import opened Toml
  import Spacer

  // ------------------------------------------------------------- deep merge

  /** `deep_merge_toml`: keys of either table survive; where both sides hold
      a table the two merge recursively, otherwise the overlay value wins. */
  function DeepMerge(base: map<string, Value>, overlay: map<string, Value>): (r: map<string, Value>)
    ensures r.Keys == base.Keys + overlay.Keys
    ensures forall k :: k in base && k !in overlay ==> r[k] == base[k]
    ensures forall k :: k in overlay && !(k in base && base[k].Table? && overlay[k].Table?) ==> r[k] == overlay[k]
    ensures forall k :: k in overlay && k in base && base[k].Table? && overlay[k].Table? ==>
      r[k].Table? && r[k].entries.Keys == base[k].entries.Keys + overlay[k].entries.Keys
    decreases Table(overlay)
  {
    map k | k in base.Keys + overlay.Keys ::
      if k in overlay then
        if k in base && base[k].Table? && overlay[k].Table? then
          Table(DeepMerge(base[k].entries, overlay[k].entries))
        else overlay[k]
      else base[k]
  }

  /** The value at a dotted key path, if every step is a table. */
  function At(m: map<string, Value>, path: seq<string>): Option<Value>
    decreases |path|
  {
    if path == [] then Some(Table(m))
    else if path[0] !in m then None
    else if |path| == 1 then Some(m[path[0]])
    else if m[path[0]].Table? then At(m[path[0]].entries, path[1..])
    else None
  }

  /** The overlay holds nothing at `path` nor a non-table on the way to it. */
  predicate Untouched(overlay: map<string, Value>, path: seq<string>)
    decreases |path|
  {
    path != [] &&
    (path[0] !in overlay ||
     (|path| > 1 && overlay[path[0]].Table? && Untouched(overlay[path[0]].entries, path[1..])))
  }

  /** Every scalar or array the overlay sets, at any depth, is in the merge. */
  lemma {:induction false} OverlayLeafWins(base: map<string, Value>, overlay: map<string, Value>, path: seq<string>)
    requires At(overlay, path).Some? && !At(overlay, path).value.Table?
    ensures At(DeepMerge(base, overlay), path) == At(overlay, path)
    decreases |path|
  {
    var k := path[0];
    if |path| > 1 {
      if k in base && base[k].Table? {
        OverlayLeafWins(base[k].entries, overlay[k].entries, path[1..]);
      }
    }
  }

  /** Every base value the overlay does not reach is kept. */
  lemma {:induction false} BaseValueKept(base: map<string, Value>, overlay: map<string, Value>, path: seq<string>)
    requires At(base, path).Some? && Untouched(overlay, path)
    ensures At(DeepMerge(base, overlay), path) == At(base, path)
    decreases |path|
  {
    var k := path[0];
    if k in overlay {
      BaseValueKept(base[k].entries, overlay[k].entries, path[1..]);
    }
  }

  /** Merging a table with itself changes nothing. */
  lemma {:induction false} DeepMergeIdempotent(m: map<string, Value>)
    ensures DeepMerge(m, m) == m
    decreases Table(m)
  {
    var r := DeepMerge(m, m);
    forall k | k in m
      ensures r[k] == m[k]
    {
      if m[k].Table? {
        DeepMergeIdempotent(m[k].entries);
      }
    }
  }

  // ------------------------------------------------------------ the schema

  /** A float setting: its value, and the text Rust's `Display` prints for it. */
  datatype FloatSetting = FloatSetting(value: real, shown: string)

  datatype BarConfig = BarConfig(size: nat, notchEnabled: bool, notchWidth: nat)

  datatype WidgetPlacement = Single(name: string) | Group(group: seq<string>)

  datatype WidgetOptions = WidgetOptions(disabled: bool, color: Option<string>, options: map<string, Value>)

  datatype WidgetsConfig = WidgetsConfig(
    left: seq<WidgetPlacement>, center: seq<WidgetPlacement>, right: seq<WidgetPlacement>,
    widgetConfigs: map<string, WidgetOptions>)

  datatype ThemeConfig = ThemeConfig(mode: string, accent: string, barOpacity: FloatSetting, widgetOpacity: FloatSetting)

  datatype OsdConfig = OsdConfig(enabled: bool, position: string, timeoutMs: nat)

  datatype Config = Config(
    bar: BarConfig, widgets: WidgetsConfig, backend: string, theme: ThemeConfig, osd: OsdConfig)

  datatype ConfigError =
    | ConfigNotFound(path: string)
    | ParseError(message: string)
    | IoError(message: string)
    | ConfigValidation(errors: seq<string>)

  // ------------------------------------------------------------- validation

  const VALID_BACKENDS: seq<string> := ["auto", "mango", "hyprland", "niri"]
  const VALID_THEME_MODES: seq<string> := ["auto", "dark", "light", "gtk"]
  const VALID_OSD_POSITIONS: seq<string> := ["bottom", "left", "right", "top"]

  /** `accent.starts_with('#')` and, after dropping every leading '#', 3 or 6
      ASCII hex digits. (The byte length the source tests equals the
      character count whenever every character is a hex digit.) */
  predicate IsHexAccent(accent: string) {
    && StartsWith(accent, "#")
    && var hex := TrimStartBy(accent, IsHash);
       && (|hex| == 3 || |hex| == 6)
       && forall i :: 0 <= i < |hex| ==> IsAsciiHexDigit(hex[i])
  }

  predicate AccentAccepted(accent: string) {
    accent == "gtk" || accent == "none" || IsHexAccent(accent)
  }

  /** One validation rule each; the order is the order the checks run in. */
  datatype Rule = BackendRule | ModeRule | AccentRule | PositionRule | BarSizeRule
                | TimeoutRule | BarOpacityRule | WidgetOpacityRule | NotchCenterRule

  const RULES: seq<Rule> := [BackendRule, ModeRule, AccentRule, PositionRule, BarSizeRule,
                             TimeoutRule, BarOpacityRule, WidgetOpacityRule, NotchCenterRule]

  predicate InUnitRange(x: real) { 0.0 <= x <= 1.0 }

  predicate Violated(c: Config, rule: Rule) {
    match rule
    case BackendRule => c.backend !in VALID_BACKENDS
    case ModeRule => c.theme.mode !in VALID_THEME_MODES
    case AccentRule => !AccentAccepted(c.theme.accent)
    case PositionRule => c.osd.position !in VALID_OSD_POSITIONS
    case BarSizeRule => c.bar.size == 0
    case TimeoutRule => c.osd.timeoutMs == 0
    case BarOpacityRule => !InUnitRange(c.theme.barOpacity.value)
    case WidgetOpacityRule => !InUnitRange(c.theme.widgetOpacity.value)
    case NotchCenterRule => c.bar.notchEnabled && c.widgets.center != []
  }

  /** The configuration key a rule is about; every message starts with it. */
  function Field(rule: Rule): string {
    match rule
    case BackendRule => "workspace.backend"
    case ModeRule => "theme.mode"
    case AccentRule => "theme.accent"
    case PositionRule => "osd.position"
    case BarSizeRule => "bar.size"
    case TimeoutRule => "osd.timeout_ms"
    case BarOpacityRule => "theme.bar_opacity"
    case WidgetOpacityRule => "theme.widget_opacity"
    case NotchCenterRule => "widgets.center"
  }

  function Detail(c: Config, rule: Rule): string {
    match rule
    case BackendRule => "invalid value '" + c.backend + "', expected one of: " + Join(VALID_BACKENDS, ", ")
    case ModeRule => "invalid value '" + c.theme.mode + "', expected one of: " + Join(VALID_THEME_MODES, ", ")
    case AccentRule => "invalid value '" + c.theme.accent + "', expected 'gtk', 'none', or a hex color like '#3584e4'"
    case PositionRule => "invalid value '" + c.osd.position + "', expected one of: " + Join(VALID_OSD_POSITIONS, ", ")
    case BarSizeRule => "must be greater than 0"
    case TimeoutRule => "must be greater than 0"
    case BarOpacityRule => "invalid value '" + c.theme.barOpacity.shown + "', must be between 0.0 and 1.0"
    case WidgetOpacityRule => "invalid value '" + c.theme.widgetOpacity.shown + "', must be between 0.0 and 1.0"
    case NotchCenterRule =>
      "cannot be used when notch_enabled=true; use spacer widget in left/right sections to place widgets near the notch"
  }

  function Message(c: Config, rule: Rule): (m: string)
    ensures StartsWith(m, Field(rule) + ": ")
  {
    var prefix := Field(rule) + ": ";
    var m := prefix + Detail(c, rule);
    assert m[..|prefix|] == prefix;
    m
  }

  function Report(c: Config): Rule -> Option<string> {
    rule => if Violated(c, rule) then Some(Message(c, rule)) else None
  }

  /** The messages of the rules in `rules` that `c` violates, in order. */
  function Collect(c: Config, rules: seq<Rule>): (errs: seq<string>)
    ensures |errs| <= |rules|
    ensures forall i :: 0 <= i < |rules| && Violated(c, rules[i]) ==> Message(c, rules[i]) in errs
    ensures forall e :: e in errs ==> exists i :: 0 <= i < |rules| && Violated(c, rules[i]) && e == Message(c, rules[i])
  {
    FilterMapLength(rules, Report(c));
    FilterMapSound(rules, Report(c));
    FilterMapComplete(rules, Report(c));
    FilterMap(rules, Report(c))
  }

  lemma EveryRuleListed(rule: Rule)
    ensures rule in RULES
  {
  }

  /** Checking every rule reports exactly the violated ones. */
  lemma CollectAllRules(c: Config)
    ensures forall rule :: Violated(c, rule) ==> Message(c, rule) in Collect(c, RULES)
    ensures forall e :: e in Collect(c, RULES) ==> exists rule :: Violated(c, rule) && e == Message(c, rule)
  {
    forall rule | Violated(c, rule)
      ensures Message(c, rule) in Collect(c, RULES)
    {
      EveryRuleListed(rule);
      var i :| 0 <= i < |RULES| && RULES[i] == rule;
    }
  }

  /** `Config::validate`: every rule is checked, and the result is Ok exactly
      when none is violated; otherwise all messages are reported together. */
  function Validate(c: Config): (r: Result<(), ConfigError>)
    ensures r.Ok? <==> forall rule :: !Violated(c, rule)
    ensures r.Err? ==> r.error.ConfigValidation?
    ensures r.Err? ==> forall rule :: Violated(c, rule) ==> Message(c, rule) in r.error.errors
    ensures r.Err? ==> forall e :: e in r.error.errors ==> exists rule :: Violated(c, rule) && e == Message(c, rule)
  {
    CollectAllRules(c);
    var errs := Collect(c, RULES);
    if errs == [] then Ok(())
    else
      assert errs[0] in errs;
      Err(ConfigValidation(errs))
  }

  /** Both allow-list rules and a bad size together yield three reports. */
  lemma SeveralErrorsReportedTogether(c: Config)
    requires c.backend == "sway" && c.theme.mode == "neon" && c.bar.size == 0
    ensures Validate(c).Err?
    ensures Message(c, BackendRule) in Validate(c).error.errors
    ensures Message(c, ModeRule) in Validate(c).error.errors
    ensures Message(c, BarSizeRule) in Validate(c).error.errors
  {
    assert Violated(c, BackendRule);
    assert Violated(c, ModeRule);
    assert Violated(c, BarSizeRule);
  }

  /** The hex accent rule accepts one or more leading '#' before 3 or 6 hex
      digits, and rejects a hex string without any '#'. */
  lemma HexAccentShape(hashes: nat, hex: string)
    requires |hex| == 3 || |hex| == 6
    requires forall i :: 0 <= i < |hex| ==> IsAsciiHexDigit(hex[i])
    ensures hashes >= 1 ==> AccentAccepted(Repeat('#', hashes) + hex)
    ensures hashes == 0 ==> !AccentAccepted(hex)
  {
    if hashes >= 1 {
      HashedHexIsAccent(hashes, hex);
    } else {
      BareHexRejected(hex);
    }
  }

  lemma BareHexRejected(hex: string)
    requires |hex| == 3 || |hex| == 6
    requires forall i :: 0 <= i < |hex| ==> IsAsciiHexDigit(hex[i])
    ensures !AccentAccepted(hex)
  {
    HexHasNoHash(hex);
    assert !StartsWith(hex, "#") by {
      assert hex[0] != '#';
    }
  }

  lemma HashedHexIsAccent(hashes: nat, hex: string)
    requires hashes >= 1 && (|hex| == 3 || |hex| == 6)
    requires forall i :: 0 <= i < |hex| ==> IsAsciiHexDigit(hex[i])
    ensures IsHexAccent(Repeat('#', hashes) + hex)
  {
    assert !IsAsciiHexDigit('#');
    TrimHashes(hashes, hex);
    assert (Repeat('#', hashes) + hex)[..1] == "#";
  }

  function Repeat(c: char, n: nat): (s: string)
    ensures |s| == n && forall i :: 0 <= i < n ==> s[i] == c
  {
    if n == 0 then [] else [c] + Repeat(c, n - 1)
  }

  lemma HexHasNoHash(hex: string)
    requires forall i :: 0 <= i < |hex| ==> IsAsciiHexDigit(hex[i])
    ensures hex != "gtk" && hex != "none"
    ensures hex == [] || hex[0] != '#'
  {
    if |hex| >= 3 {
      assert !IsAsciiHexDigit('g') && !IsAsciiHexDigit('n');
      assert hex[0] != 'g' && hex[0] != 'n';
    }
  }

  lemma TrimHashes(n: nat, hex: string)
    requires hex == [] || hex[0] != '#'
    ensures TrimStartBy(Repeat('#', n) + hex, IsHash) == hex
  {
    if hex == [] {
      assert Repeat('#', n) + hex == Repeat('#', n);
    } else {
      TrimStartPastBy(Repeat('#', n), hex, IsHash);
    }
  }

  // ------------------------------------------------------- widget placement

  /** `parse_inline_arg`: split at the first ':'; an empty suffix is no argument. */
  function ParseInlineArg(name: string): (r: (string, Option<string>))
    ensures ':' !in r.0
    ensures ':' !in name ==> r == (name, None)
    ensures ':' in name ==>
      && |r.0| < |name| && name[..|r.0|] == r.0 && name[|r.0|] == ':'
      && (r.1.None? <==> |r.0| + 1 == |name|)
      && (r.1.Some? ==> r.1.value == name[|r.0| + 1..])
  {
    match FindChar(name, ':')
    case None => (name, None)
    case Some(pos) =>
      var arg := name[pos + 1..];
      (name[..pos], if arg == [] then None else Some(arg))
  }

  /** Writing a base name and a non-empty argument as "base:arg" parses back. */
  lemma InlineArgRoundTrip(base: string, arg: string)
    requires ':' !in base && arg != []
    ensures ParseInlineArg(base + ":" + arg) == (base, Some(arg))
  {
    var name := base + ":" + arg;
    assert name[|base|] == ':';
    var r := ParseInlineArg(name);
    assert r.0 == base;
    assert name[|base| + 1..] == arg;
  }

  predicate IsDisabled(w: WidgetsConfig, name: string) {
    name in w.widgetConfigs && w.widgetConfigs[name].disabled
  }

  function ConfiguredOptions(w: WidgetsConfig, name: string): map<string, Value> {
    if name in w.widgetConfigs then w.widgetConfigs[name].options else map[]
  }

  function ConfiguredColor(w: WidgetsConfig, name: string): Option<string> {
    if name in w.widgetConfigs then w.widgetConfigs[name].color else None
  }

  /** A resolved widget: its base name, options and colour override. */
  datatype WidgetEntry = WidgetEntry(name: string, options: map<string, Value>, color: Option<string>)

  datatype WidgetOrGroup = SingleEntry(entry: WidgetEntry) | GroupEntries(group: seq<WidgetEntry>)

  /** The width a "spacer:N" name injects: N when it parses as a positive `i64`. */
  function InlineWidth(base: string, arg: Option<string>): (w: Option<int>)
    ensures w.Some? ==> base == "spacer" && arg.Some? && w.value > 0 && ParseI64(arg.value) == Some(w.value)
    ensures base == "spacer" && arg.Some? && ParseI64(arg.value).Some? && ParseI64(arg.value).value > 0 ==> w.Some?
  {
    if base == "spacer" && arg.Some? then
      match ParseI64(arg.value)
      case Some(n) => if n > 0 then Some(n) else None
      case None => None
    else None
  }

  /** `resolve_widget`: None for a disabled widget; otherwise its configured
      options and colour, with an inline spacer width overriding any
      configured width. */
  function ResolveWidget(w: WidgetsConfig, name: string): (r: Option<WidgetEntry>)
    ensures var (base, arg) := ParseInlineArg(name);
      && (r.None? <==> IsDisabled(w, base))
      && (r.Some? ==> r.value.name == base && r.value.color == ConfiguredColor(w, base))
      && (r.Some? && InlineWidth(base, arg).Some? ==>
            r.value.options == ConfiguredOptions(w, base)["width" := Int(InlineWidth(base, arg).value)])
      && (r.Some? && InlineWidth(base, arg).None? ==> r.value.options == ConfiguredOptions(w, base))
  {
    var (base, arg) := ParseInlineArg(name);
    if IsDisabled(w, base) then None
    else
      var options := ConfiguredOptions(w, base);
      var options := match InlineWidth(base, arg)
        case Some(n) => options["width" := Int(n)]
        case None => options;
      Some(WidgetEntry(base, options, ConfiguredColor(w, base)))
  }

  /** "spacer:N" for a positive N gives the spacer a fixed width of N. */
  lemma SpacerInlineWidth(w: WidgetsConfig, n: nat)
    requires 0 < n <= I64_MAX && !IsDisabled(w, "spacer")
    ensures var r := ResolveWidget(w, "spacer:" + NatToString(n));
            r.Some? && r.value.name == "spacer" && "width" in r.value.options && r.value.options["width"] == Int(n)
            && Spacer.SpacerWidth(r.value.options) == (if n <= U32_MAX then Some(n) else None)
  {
    var digits := NatToString(n);
    InlineArgRoundTrip("spacer", digits);
    assert "spacer:" + digits == "spacer" + ":" + digits;
    ParseI64OfNat(n);
  }

  function Resolver(w: WidgetsConfig): string -> Option<WidgetEntry> {
    name => ResolveWidget(w, name)
  }

  /** `filter_map(resolve_widget)` over a list of names: exactly the
      entries of the enabled names. */
  function ResolveAll(w: WidgetsConfig, names: seq<string>): (r: seq<WidgetEntry>)
    ensures |r| <= |names|
    ensures r == [] <==> forall i :: 0 <= i < |names| ==> ResolveWidget(w, names[i]).None?
    ensures forall e :: e in r ==> exists i :: 0 <= i < |names| && ResolveWidget(w, names[i]) == Some(e)
    ensures forall i :: 0 <= i < |names| && ResolveWidget(w, names[i]).Some? ==> ResolveWidget(w, names[i]).value in r
  {
    FilterMapLength(names, Resolver(w));
    FilterMapSound(names, Resolver(w));
    FilterMapComplete(names, Resolver(w));
    var r := FilterMap(names, Resolver(w));
    assert r != [] ==> r[0] in r;
    r
  }

  /** Resolution keeps the order of the names: resolving a concatenation
      concatenates the resolutions, and a single name yields its entry
      when enabled and nothing when disabled. */
  lemma ResolveAllOrder(w: WidgetsConfig, a: seq<string>, b: seq<string>, name: string)
    ensures ResolveAll(w, a + b) == ResolveAll(w, a) + ResolveAll(w, b)
    ensures ResolveAll(w, [name]) == if IsDisabled(w, ParseInlineArg(name).0) then [] else [ResolveWidget(w, name).value]
  {
    FilterMapAppend(a, b, Resolver(w));
    assert [name][1..] == [];
  }

  /** `resolve_placement`: a single widget resolves as above; a group keeps
      its enabled members and is dropped when none survives. */
  function ResolvePlacement(w: WidgetsConfig, p: WidgetPlacement): (r: Option<WidgetOrGroup>)
    ensures p.Single? ==> (r.None? <==> ResolveWidget(w, p.name).None?)
    ensures p.Single? && r.Some? ==> r.value == SingleEntry(ResolveWidget(w, p.name).value)
    ensures p.Group? ==> (r.None? <==> forall i :: 0 <= i < |p.group| ==> ResolveWidget(w, p.group[i]).None?)
    ensures p.Group? && r.Some? ==> r.value.GroupEntries? && 0 < |r.value.group| <= |p.group|
    ensures p.Group? && r.Some? ==> forall e :: e in r.value.group ==>
      exists i :: 0 <= i < |p.group| && ResolveWidget(w, p.group[i]) == Some(e)
  {
    match p
    case Single(name) =>
      (match ResolveWidget(w, name)
       case Some(e) => Some(SingleEntry(e))
       case None => None)
    case Group(names) =>
      var resolved := ResolveAll(w, names);
      if resolved == [] then None else Some(GroupEntries(resolved))
  }

  function PlacementResolver(w: WidgetsConfig): WidgetPlacement -> Option<WidgetOrGroup> {
    p => ResolvePlacement(w, p)
  }

  /** `resolve_section`: the placements that survive resolution, in order;
      a single widget survives when enabled, a group when one of its
      members does. */
  function ResolveSection(w: WidgetsConfig, placements: seq<WidgetPlacement>): (r: seq<WidgetOrGroup>)
    ensures |r| <= |placements|
    ensures r == [] <==> forall i :: 0 <= i < |placements| ==> ResolvePlacement(w, placements[i]).None?
    ensures forall g :: g in r ==> exists i :: 0 <= i < |placements| && ResolvePlacement(w, placements[i]) == Some(g)
    ensures forall i :: 0 <= i < |placements| && ResolvePlacement(w, placements[i]).Some? ==>
              ResolvePlacement(w, placements[i]).value in r
  {
    FilterMapLength(placements, PlacementResolver(w));
    FilterMapSound(placements, PlacementResolver(w));
    FilterMapComplete(placements, PlacementResolver(w));
    var r := FilterMap(placements, PlacementResolver(w));
    assert r != [] ==> r[0] in r;
    r
  }

  /** Sections keep placement order, and a group all of whose members are
      disabled leaves no trace. */
  lemma ResolveSectionOrder(w: WidgetsConfig, a: seq<WidgetPlacement>, b: seq<WidgetPlacement>, p: WidgetPlacement)
    ensures ResolveSection(w, a + b) == ResolveSection(w, a) + ResolveSection(w, b)
    ensures p.Group? && (forall i :: 0 <= i < |p.group| ==> IsDisabled(w, ParseInlineArg(p.group[i]).0)) ==>
              ResolveSection(w, [p]) == []
    ensures ResolvePlacement(w, p).Some? ==> ResolveSection(w, [p]) == [ResolvePlacement(w, p).value]
  {
    FilterMapAppend(a, b, PlacementResolver(w));
    assert [p][1..] == [];
  }

  /** `WidgetPlacement::widget_names`. */
  function WidgetNames(p: WidgetPlacement): (names: seq<string>)
    ensures p.Single? ==> names == [p.name]
    ensures p.Group? ==> names == p.group
  {
    match p
    case Single(n) => [n]
    case Group(g) => g
  }

  /** `WidgetPlacement::widget_count`. */
  function WidgetCount(p: WidgetPlacement): (n: nat)
    ensures n == |WidgetNames(p)|
  {
    match p
    case Single(_) => 1
    case Group(g) => |g|
  }

  // ------------------------------------------------------------- expanders

  /** `is_flexible_spacer`, as written: an enabled "spacer" with no inline
      argument and no `width` key in its options. */
  predicate IsFlexibleSpacer(w: WidgetsConfig, name: string) {
    var (base, arg) := ParseInlineArg(name);
    && base == "spacer"
    && !IsDisabled(w, base)
    && arg.None?
    && !("spacer" in w.widgetConfigs && "width" in w.widgetConfigs["spacer"].options)
  }

  /** `section_has_expander`, as written. */
  function SectionHasExpander(w: WidgetsConfig, section: seq<WidgetPlacement>): (b: bool)
    ensures b <==> exists i, j :: 0 <= i < |section| && 0 <= j < |WidgetNames(section[i])|
                                 && IsFlexibleSpacer(w, WidgetNames(section[i])[j])
  {
    if section == [] then false
    else
      var rest := SectionHasExpander(w, section[1..]);
      assert forall i :: 1 <= i < |section| ==> section[i] == section[1..][i - 1];
      (exists j :: 0 <= j < |WidgetNames(section[0])| && IsFlexibleSpacer(w, WidgetNames(section[0])[j])) || rest
  }

  /** What the bar actually builds for a name: a spacer whose configuration
      (after resolution) carries no usable width expands. */
  predicate ResolvesToFlexibleSpacer(w: WidgetsConfig, name: string) {
    var r := ResolveWidget(w, name);
    r.Some? && r.value.name == "spacer" && Spacer.SpacerWidth(r.value.options).None?
  }

  /** Every name `is_flexible_spacer` accepts really builds an expanding spacer. */
  lemma FlexibleSpacerExpands(w: WidgetsConfig, name: string)
    requires IsFlexibleSpacer(w, name)
    ensures ResolvesToFlexibleSpacer(w, name)
  {
  }

  /** ... but not conversely: an inline argument that is not a positive
      integer is warned about and ignored, so the spacer it builds expands,
      yet `is_flexible_spacer` reports it as fixed. */
  lemma IgnoredInlineWidthMisclassified(arg: string)
    requires arg != [] && InlineWidth("spacer", Some(arg)).None?
    ensures var w := WidgetsConfig([], [], [], map[]);
            ResolvesToFlexibleSpacer(w, "spacer:" + arg) && !IsFlexibleSpacer(w, "spacer:" + arg)
  {
    InlineArgRoundTrip("spacer", arg);
    assert "spacer" + ":" + arg == "spacer:" + arg;
  }

  /** The concrete instance: "spacer:abc". */
  lemma InvalidInlineWidthMisclassified()
    ensures var w := WidgetsConfig([], [], [], map[]);
            ResolvesToFlexibleSpacer(w, "spacer:abc") && !IsFlexibleSpacer(w, "spacer:abc")
  {
    assert "abc"[0] == 'a' && !IsAsciiDigit('a');
    assert !AllDigits("abc");
    assert InlineWidth("spacer", Some("abc")).None?;
    IgnoredInlineWidthMisclassified("abc");
    assert "spacer:" + "abc" == "spacer:abc";
  }

  /** Corrected expander test: a placed name counts exactly when the spacer it
      resolves to will expand. */
  function SectionHasFlexibleSpacer(w: WidgetsConfig, section: seq<WidgetPlacement>): (b: bool)
    ensures b <==> exists i, j :: 0 <= i < |section| && 0 <= j < |WidgetNames(section[i])|
                                 && ResolvesToFlexibleSpacer(w, WidgetNames(section[i])[j])
  {
    if section == [] then false
    else
      var rest := SectionHasFlexibleSpacer(w, section[1..]);
      assert forall i :: 1 <= i < |section| ==> section[i] == section[1..][i - 1];
      (exists j :: 0 <= j < |WidgetNames(section[0])| && ResolvesToFlexibleSpacer(w, WidgetNames(section[0])[j])) || rest
  }

  /** The corrected test agrees with the original on every section the
      original accepts, and additionally on spacers whose width was ignored. */
  lemma ExpanderTestsAgree(w: WidgetsConfig, section: seq<WidgetPlacement>)
    ensures SectionHasExpander(w, section) ==> SectionHasFlexibleSpacer(w, section)
  {
    if SectionHasExpander(w, section) {
      var i, j :| 0 <= i < |section| && 0 <= j < |WidgetNames(section[i])|
                  && IsFlexibleSpacer(w, WidgetNames(section[i])[j]);
      FlexibleSpacerExpands(w, WidgetNames(section[i])[j]);
    }
  }

  // ----------------------------------------------------- warnings and notch

  /** `all_referenced_widgets`: every name as written in any section. */
  function AllReferencedWidgets(w: WidgetsConfig): (s: set<string>)
    ensures forall p, n :: p in w.left + w.center + w.right && n in WidgetNames(p) ==> n in s
    ensures forall n :: n in s ==> exists p :: p in w.left + w.center + w.right && n in WidgetNames(p)
  {
    set p, n | p in w.left + w.center + w.right && n in WidgetNames(p) :: n
  }

  /** `unreferenced_configs`: configured widgets no section mentions by that
      exact name (reported in map iteration order; modelled as a set). */
  function UnreferencedConfigs(w: WidgetsConfig): (s: set<string>)
    ensures s <= w.widgetConfigs.Keys
    ensures forall n :: n in w.widgetConfigs && n !in AllReferencedWidgets(w) ==> n in s
    ensures forall p, n :: p in w.left + w.center + w.right && n in WidgetNames(p) ==> n !in s
  {
    set n | n in w.widgetConfigs.Keys && n !in AllReferencedWidgets(w)
  }

  /** A center section holding a spacer (with or without inline argument)
      triggers the "spacer has no effect in center" warning. */
  predicate CenterSpacerWarning(w: WidgetsConfig) {
    exists i, j :: 0 <= i < |w.center| && 0 <= j < |WidgetNames(w.center[i])|
                   && ParseInlineArg(WidgetNames(w.center[i])[j]).0 == "spacer"
  }

  const DEFAULT_NOTCH_WIDTH: nat := 200

  /** `effective_notch_width`: the configured width, or the default for 0. */
  function EffectiveNotchWidth(bar: BarConfig): (n: nat)
    ensures n > 0
    ensures bar.notchWidth > 0 ==> n == bar.notchWidth
    ensures bar.notchWidth == 0 ==> n == DEFAULT_NOTCH_WIDTH
  {
    if bar.notchWidth > 0 then bar.notchWidth else DEFAULT_NOTCH_WIDTH
  }

  // -------------------------------------------------------- file discovery

  /** What loading a path yields: the file is absent, or it loads, or it
      exists and fails (read, parse or deserialization error). */
  datatype Probe = Absent | Loads(config: Config) | Fails(error: ConfigError)

  datatype Candidate = Candidate(path: string, probe: Probe)

  datatype ConfigLoadResult = ConfigLoadResult(config: Config, source: Option<string>, usedDefaults: bool)

  /** `Config::load`: a missing file is `ConfigNotFound`. */
  function Load(c: Candidate): (r: Result<Config, ConfigError>)
    ensures c.probe.Absent? ==> r == Err(ConfigNotFound(c.path))
    ensures c.probe.Loads? ==> r == Ok(c.probe.config)
    ensures c.probe.Fails? ==> r == Err(c.probe.error)
  {
    match c.probe
    case Absent => Err(ConfigNotFound(c.path))
    case Loads(cfg) => Ok(cfg)
    case Fails(e) => Err(e)
  }

  /** `PathBuf::join` with a relative path. */
  function PathJoin(base: string, rel: string): string {
    if base == [] || EndsWith(base, "/") then base + rel else base + "/" + rel
  }

  /** `config_search_paths`: XDG config home, then ~/.config, then the working directory. */
  function SearchPaths(xdgConfigHome: Option<string>, home: Option<string>): (paths: seq<string>)
    ensures 1 <= |paths| <= 3 && paths[|paths| - 1] == "config.toml"
    ensures |paths| == 1 + (if xdgConfigHome.Some? then 1 else 0) + (if home.Some? then 1 else 0)
    ensures xdgConfigHome.Some? ==> paths[0] == PathJoin(xdgConfigHome.value, "vibepanel/config.toml")
    ensures home.Some? ==> paths[|paths| - 2] == PathJoin(home.value, ".config/vibepanel/config.toml")
  {
    (if xdgConfigHome.Some? then [PathJoin(xdgConfigHome.value, "vibepanel/config.toml")] else [])
    + (if home.Some? then [PathJoin(home.value, ".config/vibepanel/config.toml")] else [])
    + ["config.toml"]
  }

  /** `chain[i]` is the first candidate that loads. */
  predicate FirstLoadable(chain: seq<Candidate>, i: int) {
    0 <= i < |chain| && chain[i].probe.Loads? && forall j :: 0 <= j < i ==> !chain[j].probe.Loads?
  }

  /** `chain[i]` is the first candidate that exists, and it fails to load. */
  predicate FirstExistingFails(chain: seq<Candidate>, i: int) {
    0 <= i < |chain| && chain[i].probe.Fails? && forall j :: 0 <= j < i ==> chain[j].probe.Absent?
  }

  datatype SearchOutcome = Found(path: string, config: Config) | FirstError(error: ConfigError) | NoneExist

  /** The loop over the search chain: the first loadable file wins, even after
      an earlier file failed; otherwise the first failure is kept. */
  function Search(chain: seq<Candidate>): (r: SearchOutcome)
    ensures r.Found? <==> exists i :: 0 <= i < |chain| && chain[i].probe.Loads?
    ensures r.Found? ==> exists i :: FirstLoadable(chain, i) && r.path == chain[i].path && r.config == chain[i].probe.config
    ensures r.NoneExist? <==> forall i :: 0 <= i < |chain| ==> chain[i].probe.Absent?
    ensures r.FirstError? ==> exists i :: FirstExistingFails(chain, i) && r.error == chain[i].probe.error
  {
    SearchFindsLoadable(chain);
    SearchNoneExist(chain);
    SearchKeepsFirstError(chain);
    SearchChain(chain)
  }

  function SearchChain(chain: seq<Candidate>): SearchOutcome {
    if chain == [] then NoneExist
    else
      match chain[0].probe
      case Loads(cfg) => Found(chain[0].path, cfg)
      case Absent => SearchChain(chain[1..])
      case Fails(e) =>
        var rest := SearchChain(chain[1..]);
        if rest.Found? then rest else FirstError(e)
  }

  lemma {:induction false} SearchFindsLoadable(chain: seq<Candidate>)
    ensures SearchChain(chain).Found? <==> exists i :: 0 <= i < |chain| && chain[i].probe.Loads?
    ensures SearchChain(chain).Found? ==>
              exists i :: FirstLoadable(chain, i) && SearchChain(chain).path == chain[i].path
                          && SearchChain(chain).config == chain[i].probe.config
  {
    if chain != [] && !chain[0].probe.Loads? {
      var rest := SearchChain(chain[1..]);
      SearchFindsLoadable(chain[1..]);
      if rest.Found? {
        var k :| FirstLoadable(chain[1..], k) && rest.path == chain[1..][k].path && rest.config == chain[1..][k].probe.config;
        assert FirstLoadable(chain, k + 1);
      } else {
        forall i | 0 <= i < |chain| ensures !chain[i].probe.Loads? {
          if i > 0 { assert chain[i] == chain[1..][i - 1]; }
        }
      }
    }
  }

  lemma {:induction false} SearchNoneExist(chain: seq<Candidate>)
    ensures SearchChain(chain).NoneExist? <==> forall i :: 0 <= i < |chain| ==> chain[i].probe.Absent?
  {
    if chain != [] {
      SearchNoneExist(chain[1..]);
      if chain[0].probe.Absent? {
        forall i | 1 <= i < |chain| ensures chain[i] == chain[1..][i - 1] { }
      }
    }
  }

  lemma {:induction false} SearchKeepsFirstError(chain: seq<Candidate>)
    ensures SearchChain(chain).FirstError? ==>
              exists i :: FirstExistingFails(chain, i) && SearchChain(chain).error == chain[i].probe.error
  {
    if chain != [] && chain[0].probe.Absent? {
      var rest := SearchChain(chain[1..]);
      SearchKeepsFirstError(chain[1..]);
      if rest.FirstError? {
        var k :| FirstExistingFails(chain[1..], k) && rest.error == chain[1..][k].probe.error;
        assert FirstExistingFails(chain, k + 1);
      }
    } else if chain != [] && chain[0].probe.Fails? {
      assert SearchChain(chain).FirstError? ==> FirstExistingFails(chain, 0);
    }
  }

  /** `find_and_load`. `explicit` is the path given on the command line with
      what loading it yields; `builtIn` is the outcome of parsing the
      embedded default configuration. */
  function FindAndLoad(explicit: Option<Candidate>, chain: seq<Candidate>,
                       builtIn: Result<Config, ConfigError>): (r: Result<ConfigLoadResult, ConfigError>)
    // an explicit path never falls back
    ensures explicit.Some? ==> match Load(explicit.value)
      case Ok(cfg) => r == Ok(ConfigLoadResult(cfg, Some(explicit.value.path), false))
      case Err(e) => r == Err(e)
    // otherwise the first existing, loadable file wins
    ensures explicit.None? && r.Ok? && !r.value.usedDefaults ==>
      (exists i :: FirstLoadable(chain, i) && chain[i].probe == Loads(r.value.config) && r.value.source == Some(chain[i].path))
    ensures explicit.None? && (exists i :: 0 <= i < |chain| && chain[i].probe.Loads?) ==>
      r.Ok? && !r.value.usedDefaults
    // files exist but none loads: the first error, never the defaults
    ensures (explicit.None? && (forall i :: 0 <= i < |chain| ==> !chain[i].probe.Loads?)
             && (exists i :: 0 <= i < |chain| && chain[i].probe.Fails?)) ==>
      (r.Err? && exists i :: FirstExistingFails(chain, i) && chain[i].probe == Fails(r.error))
    // defaults only when no file exists
    ensures explicit.None? && r.Ok? && r.value.usedDefaults ==>
      (forall i :: 0 <= i < |chain| ==> chain[i].probe.Absent?) && r.value.source.None?
    ensures explicit.None? && (forall i :: 0 <= i < |chain| ==> chain[i].probe.Absent?) ==>
      match builtIn
      case Ok(cfg) => r == Ok(ConfigLoadResult(cfg, None, true))
      case Err(e) => r == Err(e)
  {
    match explicit
    case Some(cand) =>
      (match Load(cand)
       case Ok(cfg) => Ok(ConfigLoadResult(cfg, Some(cand.path), false))
       case Err(e) => Err(e))
    case None =>
      match Search(chain)
      case Found(path, cfg) => Ok(ConfigLoadResult(cfg, Some(path), false))
      case FirstError(e) => Err(e)
      case NoneExist =>
        match builtIn
        case Ok(cfg) => Ok(ConfigLoadResult(cfg, None, true))
        case Err(e) => Err(e)
  }

  /** `load_with_defaults`: the user table is merged over the embedded
      defaults before deserialization, so user keys win and default keys the
      user omits survive. `deserialize` stands for the serde step. */
  function LoadWithDefaults(defaults: map<string, Value>, user: Result<map<string, Value>, ConfigError>,
                            deserialize: map<string, Value> -> Result<Config, ConfigError>): (r: Result<Config, ConfigError>)
    ensures user.Err? ==> r == Err(user.error)
    ensures user.Ok? ==> r == deserialize(DeepMerge(defaults, user.value))
  {
    match user
    case Err(e) => Err(e)
    case Ok(table) => deserialize(DeepMerge(defaults, table))
  }
}
