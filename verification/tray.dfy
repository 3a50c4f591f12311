/*
 * The system tray widget (`widgets/tray.rs`): which item buttons the bar
 * shows and in what order, the bounded pixmap texture cache, the ARGB to
 * RGBA pixel conversion, and the context menu with its submenu stack.
 *
 * The StatusNotifier service is not part of this model: its sorted item
 * list, its menu replies and its `has_children` flag are inputs. GTK
 * widgets are reduced to the identifiers of the buttons that exist, and a
 * texture to a plain number.
 */
module Tray {
  import opened Common
  import opened Toml

  const DEFAULT_MAX_ICONS: nat := 12
  const PIXMAP_CACHE_LIMIT: nat := 50
  const GRAYSCALE_TOLERANCE: nat := 15

  // ---------------------------------------------------------------- config

  datatype TrayConfig = TrayConfig(maxIcons: nat, pixmapIconSize: int)

  /** `TrayConfig::from_entry`: an integer `max_icons` is cast to `usize`
      (a negative one wraps to a huge limit), an integer
      `pixmap_icon_size` to `i32`; otherwise the defaults, the icon size
      coming from the theme. */
  function FromOptions(options: map<string, Value>, themeIconSize: int): (c: TrayConfig)
    ensures GetInt(options, "max_icons").None? ==> c.maxIcons == DEFAULT_MAX_ICONS
    ensures GetInt(options, "max_icons").Some? ==> c.maxIcons == WrapUsize(GetInt(options, "max_icons").value)
    ensures GetInt(options, "pixmap_icon_size").None? ==> c.pixmapIconSize == themeIconSize
    ensures GetInt(options, "pixmap_icon_size").Some? ==>
              c.pixmapIconSize == WrapI32(GetInt(options, "pixmap_icon_size").value)
  {
    TrayConfig(
      match GetInt(options, "max_icons") case Some(v) => WrapUsize(v) case None => DEFAULT_MAX_ICONS,
      match GetInt(options, "pixmap_icon_size") case Some(v) => WrapI32(v) case None => themeIconSize)
  }

  /** A negative `max_icons` does not hide the tray: it lifts the limit. */
  lemma NegativeMaxIconsLiftsLimit(options: map<string, Value>)
    requires GetInt(options, "max_icons").Some?
    requires I64_MIN <= GetInt(options, "max_icons").value < 0
    ensures FromOptions(options, 0).maxIcons >= 0x8000_0000_0000_0000
  {
  }

  // ------------------------------------------------------------ menu model

  /** A menu entry as the service reports it. */
  datatype MenuEntry = MenuEntry(
    menuId: int,
    text: string,
    enabled: bool,
    isSeparator: bool,
    toggleType: Option<string>,
    toggleState: Option<int>,
    hasChildren: bool,
    children: seq<MenuEntry>)

  /** The open context menu: the item it belongs to and the stack of
      levels, root first. */
  datatype Menu = Menu(identifier: string, stack: seq<seq<MenuEntry>>)

  /** The widget state: the item buttons that exist, their order in the
      container, the open menu, the texture cache and whether the widget is
      visible. */
  datatype TrayState = TrayState(
    buttons: set<string>,
    order: seq<string>,
    menu: Option<Menu>,
    cache: map<string, nat>,
    visible: bool)

  const INITIAL := TrayState({}, [], None, map[], false)

  // ------------------------------------------------------------ sync items

  function Take<T>(xs: seq<T>, n: nat): (r: seq<T>)
    ensures |r| == Min(|xs|, n)
    ensures r == xs[..|r|]
  {
    if n >= |xs| then xs else xs[..n]
  }

  /** `rebuild_icon_order`: re-append the buttons only when the order
      changed. The flag says whether the container was rebuilt. */
  function RebuildIconOrder(current: seq<string>, order: seq<string>): (r: (seq<string>, bool))
    ensures r.0 == order
    ensures r.1 <==> current != order
  {
    (order, current != order)
  }

  /** `sync_items`: keep the first `maxIcons` items of the service's
      sorted list. Buttons of other items go, closing the menu parented to
      one; missing buttons are created; the order follows the list; the
      widget shows when any button is left. The flag says whether the
      container order was rebuilt. */
  function SyncItems(st: TrayState, items: seq<string>, maxIcons: nat): (r: (TrayState, bool))
    ensures var desired := Take(items, maxIcons);
            && r.0.buttons == (set id | id in desired)
            && r.0.order == desired
            && (r.1 <==> st.order != desired)
    ensures |r.0.order| <= maxIcons && r.0.order == items[..|r.0.order|]
    ensures r.0.visible <==> items != [] && maxIcons > 0
    ensures st.menu.Some? && st.menu.value.identifier in st.buttons ==>
              (r.0.menu.Some? <==> st.menu.value.identifier in Take(items, maxIcons))
    ensures r.0.menu.Some? ==> r.0.menu == st.menu
    ensures r.0.cache == st.cache
  {
    var desired := Take(items, maxIcons);
    var keep := set id | id in desired;
    var menu := match st.menu
      case Some(m) => if m.identifier in st.buttons && m.identifier !in keep then None else st.menu
      case None => None;
    var (order, rebuilt) := RebuildIconOrder(st.order, desired);
    assert items != [] && maxIcons > 0 ==> desired[0] in keep;
    (st.(buttons := keep, order := order, menu := menu, visible := keep != {}), rebuilt)
  }

  /** A second sync with the same items changes nothing and does not
      rebuild the container, so animated icons do not disturb an open
      menu. */
  lemma SyncIdempotent(st: TrayState, items: seq<string>, maxIcons: nat)
    ensures var (s1, _) := SyncItems(st, items, maxIcons);
            SyncItems(s1, items, maxIcons) == (s1, false)
  {
  }

  // ---------------------------------------------------------- pixmap cache

  /** The cache key: "{width}x{height}:{hash}". */
  function CacheKey(width: int, height: int, hashKey: string): string {
    IntToString(width) + "x" + IntToString(height) + ":" + hashKey
  }

  /** `get_cached_texture`: a hit returns the cached texture; a miss builds
      one (`texture_from_pixmap`, here the `made` input, absent for an
      empty pixmap) and stores it, first emptying a cache that reached the
      limit. */
  function GetCachedTexture(cache: map<string, nat>, key: string, made: Option<nat>): (r: (Option<nat>, map<string, nat>))
    ensures key in cache ==> r == (Some(cache[key]), cache)
    ensures key !in cache && made.None? ==> r == (None, cache)
    ensures key !in cache && made.Some? ==> r.0 == made && key in r.1 && r.1[key] == made.value
    ensures key !in cache && made.Some? && |cache| < PIXMAP_CACHE_LIMIT ==> r.1 == cache[key := made.value]
    ensures key !in cache && made.Some? && |cache| >= PIXMAP_CACHE_LIMIT ==> r.1 == map[key := made.value]
  {
    if key in cache then (Some(cache[key]), cache)
    else match made
      case None => (None, cache)
      case Some(t) =>
        var base := if |cache| >= PIXMAP_CACHE_LIMIT then map[] else cache;
        (Some(t), base[key := t])
  }

  /** `texture_from_pixmap` only builds a texture for positive sizes. */
  predicate MakesTexture(width: int, height: int) { width > 0 && height > 0 }

  /** The cache never holds more than the limit. */
  lemma CacheBounded(cache: map<string, nat>, key: string, made: Option<nat>)
    requires |cache| <= PIXMAP_CACHE_LIMIT
    ensures |GetCachedTexture(cache, key, made).1| <= PIXMAP_CACHE_LIMIT
  {
    if key !in cache && made.Some? && |cache| < PIXMAP_CACHE_LIMIT {
      assert cache[key := made.value].Keys == cache.Keys + {key};
    }
  }

  /** What was just stored is found again. */
  lemma CacheHitAfterStore(cache: map<string, nat>, key: string, t: nat)
    ensures var c1 := GetCachedTexture(cache, key, Some(t)).1;
            GetCachedTexture(c1, key, None) == (Some(c1[key]), c1)
  {
  }

  // ---------------------------------------------------------------- pixels

  type Byte = b: int | 0 <= b < 256

  /** Where output byte `k` of `argb_to_rgba` comes from: each pixel's
      alpha moves from the front to the back. */
  function ArgbSource(k: nat): nat {
    if k % 4 == 3 then k - 3 else k + 1
  }

  /** `argb_to_rgba`: whole pixels only; a trailing partial pixel is
      dropped. */
  function ArgbToRgba(data: seq<Byte>): (r: seq<Byte>)
    ensures |r| == |data| / 4 * 4
    decreases |data|
  {
    if |data| < 4 then [] else [data[1], data[2], data[3], data[0]] + ArgbToRgba(data[4..])
  }

  /** Each output byte is the input byte `ArgbSource` names. */
  lemma {:induction false} ArgbToRgbaBytes(data: seq<Byte>)
    ensures forall k :: 0 <= k < |ArgbToRgba(data)| ==>
              ArgbSource(k) < |data| && ArgbToRgba(data)[k] == data[ArgbSource(k)]
    decreases |data|
  {
    if |data| >= 4 {
      ArgbToRgbaBytes(data[4..]);
      var r := ArgbToRgba(data);
      var rest := ArgbToRgba(data[4..]);
      forall k | 0 <= k < |r| ensures ArgbSource(k) < |data| && r[k] == data[ArgbSource(k)] {
        if k >= 4 {
          assert r[k] == rest[k - 4];
          assert ArgbSource(k) == ArgbSource(k - 4) + 4;
        }
      }
    }
  }

  /** The opposite reordering, alpha back to the front. */
  function RgbaToArgb(data: seq<Byte>): (r: seq<Byte>)
    decreases |data|
  {
    if |data| < 4 then [] else [data[3], data[0], data[1], data[2]] + RgbaToArgb(data[4..])
  }

  /** Converting back recovers the whole pixels of the original. */
  lemma {:induction false} ArgbRoundTrip(data: seq<Byte>)
    ensures RgbaToArgb(ArgbToRgba(data)) == data[..|data| / 4 * 4]
    decreases |data|
  {
    if |data| >= 4 {
      ArgbRoundTrip(data[4..]);
      var r := ArgbToRgba(data);
      assert r[4..] == ArgbToRgba(data[4..]);
      assert data[..|data| / 4 * 4] == data[..4] + data[4..][..|data[4..]| / 4 * 4];
    }
  }

  function AbsDiff(a: int, b: int): nat {
    if a >= b then a - b else b - a
  }

  /** `is_grayscale_pixel`: every pair of channels within the tolerance. */
  predicate IsGrayscalePixel(r: Byte, g: Byte, b: Byte) {
    AbsDiff(r, g) <= GRAYSCALE_TOLERANCE && AbsDiff(g, b) <= GRAYSCALE_TOLERANCE
    && AbsDiff(r, b) <= GRAYSCALE_TOLERANCE
  }

  /** Grayscale means the channels span at most the tolerance. */
  lemma GrayscaleIffNarrowSpread(r: Byte, g: Byte, b: Byte)
    ensures IsGrayscalePixel(r, g, b) <==> Max(r, Max(g, b)) - Min(r, Min(g, b)) <= GRAYSCALE_TOLERANCE
  {
  }

  /** The gray `adjust_grayscale_icon` aims for: the theme's gray blended
      15% toward mid-gray, in 16-bit integer arithmetic. */
  function TargetGray(baseGray: Byte): (t: Byte)
    ensures Min(baseGray, 128) <= t <= Max(baseGray, 128)
  {
    (baseGray * 85 + 128 * 15) / 100
  }

  // ----------------------------------------------------------- menu labels

  predicate Toggled(e: MenuEntry) {
    e.toggleType.Some? && e.toggleState == Some(1)
  }

  /** The mark of a toggled entry: a dot for radio items, a check mark
      otherwise. */
  function ToggleMark(e: MenuEntry): string {
    if e.toggleType == Some("radio") then "●" else "✔"
  }

  /** The part before the entry's own text: the mark of a toggled entry,
      followed by a space when there is text. */
  function MarkPrefix(e: MenuEntry): string {
    if !Toggled(e) then "" else if e.text == [] then ToggleMark(e) else ToggleMark(e) + " "
  }

  /** The label `render_menu_level` puts on an entry's button: the mark
      before a toggled entry, an arrow after one with a submenu, separated
      from any text by a space. */
  function EntryLabel(e: MenuEntry): (t: string)
    ensures |t| >= |MarkPrefix(e)| + |e.text|
    ensures t[..|MarkPrefix(e)|] == MarkPrefix(e)
    ensures t[|MarkPrefix(e)|..|MarkPrefix(e)| + |e.text|] == e.text
    ensures !e.hasChildren ==> |t| == |MarkPrefix(e)| + |e.text|
    ensures e.hasChildren ==> |t| == |MarkPrefix(e)| + |e.text| + (if |MarkPrefix(e)| + |e.text| > 0 then 2 else 1)
    ensures e.hasChildren ==> t[|t| - 1] == '▶'
    ensures e.hasChildren && |MarkPrefix(e)| + |e.text| > 0 ==> t[|t| - 2] == ' '
  {
    var marked := MarkPrefix(e) + e.text;
    assert marked[..|MarkPrefix(e)|] == MarkPrefix(e);
    assert marked[|MarkPrefix(e)|..] == e.text;
    if !e.hasChildren then marked
    else if marked == [] then "▶"
    else
      var t := marked + " ▶";
      assert t[..|marked|] == marked;
      t
  }

  /** A toggled entry starts with its mark: a dot for radio items. */
  lemma ToggledShowsMark(e: MenuEntry)
    requires Toggled(e)
    ensures EntryLabel(e)[0] == (if e.toggleType == Some("radio") then '●' else '✔')
  {
    var t := EntryLabel(e);
    assert t[..|MarkPrefix(e)|] == MarkPrefix(e);
    assert t[0] == MarkPrefix(e)[0];
  }

  /** What a menu level shows: a back button below the root, then a
      placeholder for an empty level, otherwise one row per entry. */
  datatype Row = Separator | Button(caption: string, sensitive: bool, submenu: bool) | EmptyNote

  function RowOf(e: MenuEntry): Row {
    if e.isSeparator then Separator else Button(EntryLabel(e), e.enabled, e.hasChildren)
  }

  /** `render_menu_level`: (back button shown, rows). */
  function RenderLevel(m: Menu): (r: (bool, seq<Row>))
    ensures r.0 <==> |m.stack| > 1
    ensures (m.stack == [] || m.stack[|m.stack| - 1] == []) ==> r.1 == [EmptyNote]
    ensures m.stack != [] && m.stack[|m.stack| - 1] != [] ==>
              |r.1| == |m.stack[|m.stack| - 1]|
              && forall i :: 0 <= i < |r.1| ==> r.1[i] == RowOf(m.stack[|m.stack| - 1][i])
  {
    var entries := if m.stack == [] then [] else m.stack[|m.stack| - 1];
    (|m.stack| > 1,
     if entries == [] then [EmptyNote] else seq(|entries|, i requires 0 <= i < |entries| => RowOf(entries[i])))
  }

  // -------------------------------------------------------- menu navigation

  /** `on_menu_back`: pop a level, never the root. */
  function Back(m: Menu): (r: Menu)
    ensures |m.stack| <= 1 ==> r == m
    ensures |m.stack| > 1 ==> r == m.(stack := m.stack[..|m.stack| - 1])
    ensures |m.stack| >= 1 ==> |r.stack| >= 1
  {
    if |m.stack| <= 1 then m else m.(stack := m.stack[..|m.stack| - 1])
  }

  /** A menu event for the service: the item, the entry's id and the
      event name. */
  datatype MenuEvent = MenuEvent(identifier: string, menuId: int, name: string)

  /** `on_menu_entry_clicked`: an entry with a submenu opens it as a new
      level; any other entry is reported as clicked and the menu closes. */
  function EntryClicked(m: Menu, e: MenuEntry): (r: (Option<Menu>, Option<MenuEvent>))
    ensures e.hasChildren ==> r == (Some(m.(stack := m.stack + [e.children])), None)
    ensures !e.hasChildren ==> r == (None, Some(MenuEvent(m.identifier, e.menuId, "clicked")))
  {
    if e.hasChildren then (Some(m.(stack := m.stack + [e.children])), None)
    else (None, Some(MenuEvent(m.identifier, e.menuId, "clicked")))
  }

  /** Opening a submenu and going back returns to the same level. */
  lemma BackUndoesSubmenu(m: Menu, e: MenuEntry)
    requires e.hasChildren && |m.stack| >= 1
    ensures Back(EntryClicked(m, e).0.value) == m
  {
    var m1 := EntryClicked(m, e).0.value;
    assert m1.stack[..|m1.stack| - 1] == m.stack;
  }

  /** Going back from any depth reaches the root and stays there. */
  lemma {:induction false} BackReachesRoot(m: Menu, n: nat)
    requires |m.stack| >= 1 && n >= |m.stack| - 1
    ensures BackN(m, n).stack == m.stack[..1]
    decreases n
  {
    if n > 0 {
      if |m.stack| > 1 {
        var b := Back(m);
        assert b.stack[..1] == m.stack[..1];
        BackReachesRoot(b, n - 1);
      } else {
        BackReachesRoot(Back(m), n - 1);
      }
    }
  }

  function BackN(m: Menu, n: nat): Menu
    decreases n
  {
    if n == 0 then m else BackN(Back(m), n - 1)
  }

  // ----------------------------------------------------- buttons and menus

  /** What a click on an item button asks of the service. */
  datatype ClickAction = Activate(identifier: string) | RequestMenu(identifier: string) | CloseMenu

  /** `on_button_clicked` and `toggle_menu`: an item that is a menu toggles
      its menu (closing any other one, then asking for entries); any other
      item is activated. */
  function ButtonClicked(st: TrayState, identifier: string, itemIsMenu: bool): (r: (TrayState, ClickAction))
    ensures !itemIsMenu ==> r == (st, Activate(identifier))
    ensures itemIsMenu ==> r.0.menu.None? && r.0 == st.(menu := None)
    ensures itemIsMenu ==> (r.1 == CloseMenu <==> st.menu.Some? && st.menu.value.identifier == identifier)
    ensures itemIsMenu && r.1 != CloseMenu ==> r.1 == RequestMenu(identifier)
  {
    if !itemIsMenu then (st, Activate(identifier))
    else if st.menu.Some? && st.menu.value.identifier == identifier then (st.(menu := None), CloseMenu)
    else (st.(menu := None), RequestMenu(identifier))
  }

  /** The `get_menu` reply: no menu for an empty reply or a button that is
      gone, and none over another item's menu opened meanwhile; otherwise
      the menu opens at its root level. */
  function MenuFetched(st: TrayState, identifier: string, entries: seq<MenuEntry>, parentRealized: bool): (r: TrayState)
    ensures entries == [] || !parentRealized ==> r == st
    ensures st.menu.Some? && st.menu.value.identifier != identifier ==> r == st
    ensures entries != [] && parentRealized && (st.menu.None? || st.menu.value.identifier == identifier) ==>
              r == st.(menu := Some(Menu(identifier, [entries])))
  {
    if entries == [] || !parentRealized then st
    else if st.menu.Some? && st.menu.value.identifier != identifier then st
    else st.(menu := Some(Menu(identifier, [entries])))
  }

  /** Clicking a menu item opens its menu at the root, without a back
      button, and clicking it again closes it. */
  lemma ClickTogglesMenu(st: TrayState, identifier: string, entries: seq<MenuEntry>)
    requires entries != []
    ensures var (s1, a1) := ButtonClicked(st, identifier, true);
            var s2 := MenuFetched(s1, identifier, entries, true);
            var (s3, a3) := ButtonClicked(s2, identifier, true);
            && (a1 == CloseMenu || a1 == RequestMenu(identifier))
            && (a1 == RequestMenu(identifier) ==> s2.menu == Some(Menu(identifier, [entries])) && !RenderLevel(s2.menu.value).0)
            && (a1 == RequestMenu(identifier) ==> a3 == CloseMenu && s3.menu.None?)
  {
  }

  /** The popover's `closed` signal. */
  function MenuClosed(st: TrayState): (r: TrayState)
    ensures r.menu.None? && r == st.(menu := None)
  {
    st.(menu := None)
  }
}
