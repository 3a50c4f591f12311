/** Popover placement arithmetic (crates/vibepanel/src/widgets/layer_shell_popover.rs). */
module LayerShellPopover {
  import opened Common

  const POPOVER_MIN_EDGE_MARGIN: int := 4

  /** The panel settings these formulas read. The bar's background opacity
      only matters through whether it is above zero. */
  datatype BarGeometry = BarGeometry(
    barSize: nat, barPadding: nat, screenMargin: nat, popoverOffset: nat,
    backgroundVisible: bool)

  /** Vertical gap between the bar and a popover: the configured offset,
      reduced by the bar padding when the bar background is drawn. Both
      `u32` settings are cast with `as i32` and subtracted in `i32`, so a
      setting above `i32::MAX` wraps. */
  function PopoverTopMargin(g: BarGeometry): (m: int)
    ensures IsI32(m)
    ensures g.backgroundVisible ==> m == WrapI32(g.popoverOffset - g.barPadding)
    ensures !g.backgroundVisible ==> m == WrapI32(g.popoverOffset)
    ensures g.popoverOffset <= I32_MAX && g.barPadding <= I32_MAX ==>
              m == (if g.backgroundVisible then g.popoverOffset - g.barPadding else g.popoverOffset)
  {
    var offset := WrapI32(g.popoverOffset);
    var padding := WrapI32(g.barPadding);
    if g.backgroundVisible then
      WrapI32Congruent(offset - padding, g.popoverOffset - g.barPadding);
      WrapI32(offset - padding)
    else offset
  }

  /** The reserved height before any cast: the bar size plus the screen
      margin on both sides, plus the padding on both sides when the
      background is drawn. */
  function ExactExclusiveZone(g: BarGeometry): nat {
    g.barSize + 2 * g.screenMargin + (if g.backgroundVisible then 2 * g.barPadding else 0)
  }

  /** Height the bar reserves, computed in `i32` from the three `u32`
      settings cast with `as i32`; every cast, product and sum wraps. It is
      the exact height whenever that fits an `i32`, and then never less than
      the bar size. */
  function BarExclusiveZone(g: BarGeometry): (z: int)
    ensures IsI32(z)
    ensures z == WrapI32(ExactExclusiveZone(g))
    ensures ExactExclusiveZone(g) <= I32_MAX ==> z == ExactExclusiveZone(g) && z >= g.barSize
  {
    var size := WrapI32(g.barSize);
    var twicePadding := WrapI32(2 * WrapI32(g.barPadding));
    var twiceMargin := WrapI32(2 * WrapI32(g.screenMargin));
    WrapI32Twice(g.barPadding);
    WrapI32Twice(g.screenMargin);
    WrapI32Sum(g.barSize, 2 * g.barPadding);
    WrapI32Sum(g.barSize, 2 * g.screenMargin);
    WrapI32Sum(g.barSize + 2 * g.barPadding, 2 * g.screenMargin);
    if g.backgroundVisible then WrapI32(WrapI32(size + twicePadding) + twiceMargin)
    else WrapI32(size + twiceMargin)
  }

  /** A bar size of 2^31 passes the configuration check (it is positive) but
      its `as i32` cast is `i32::MIN`, so the reserved height is negative; a
      popover offset of 2^31 likewise gives a negative top margin. */
  lemma HugeSettingsWrapNegative()
    ensures BarExclusiveZone(BarGeometry(0x8000_0000, 0, 0, 0, false)) == I32_MIN
    ensures PopoverTopMargin(BarGeometry(30, 0, 0, 0x8000_0000, false)) == I32_MIN
  {
  }

  /** Right margin that centers a popover of `windowWidth` on `anchorX`,
      kept at least `minEdge` away from both screen edges when it fits.
      The centering difference and `windowWidth + minEdge` are plain `i32`
      operations (wrapping, as in a release build); only the final
      subtraction saturates. */
  function PopoverRightMargin(anchorX: int, monitorWidth: int, windowWidth: int, minEdge: int): (m: int)
    requires IsI32(anchorX) && IsI32(monitorWidth) && IsI32(windowWidth) && IsI32(minEdge)
    ensures I32_MIN <= m <= I32_MAX
    ensures var maxMargin := SaturateI32(monitorWidth - WrapI32(windowWidth + minEdge));
            var wanted := WrapI32(monitorWidth - anchorX - TruncDiv(windowWidth, 2));
            && (maxMargin >= minEdge ==> m == Clamp(wanted, minEdge, maxMargin))
            && (maxMargin < minEdge ==> m == minEdge)
  {
    var rightMargin := WrapI32(monitorWidth - anchorX - TruncDiv(windowWidth, 2));
    var maxMargin := SaturateI32(monitorWidth - WrapI32(windowWidth + minEdge));
    if maxMargin >= minEdge then Clamp(rightMargin, minEdge, maxMargin)
    else Max(minEdge, maxMargin)
  }

  /** With on-screen-sized values (no `i32` overflow anywhere) the margin is
      the centering margin clamped into `[minEdge, monitorWidth - windowWidth
      - minEdge]` when that interval is non-empty, and `minEdge` when the
      window is too wide. */
  lemma RightMarginIsClampedCenter(anchorX: int, monitorWidth: int, windowWidth: int, minEdge: int)
    requires IsI32(anchorX) && IsI32(monitorWidth) && IsI32(windowWidth) && IsI32(minEdge)
    requires IsI32(windowWidth + minEdge)
    requires IsI32(monitorWidth - (windowWidth + minEdge))
    requires IsI32(monitorWidth - anchorX - TruncDiv(windowWidth, 2))
    ensures var hi := monitorWidth - windowWidth - minEdge;
            var m := PopoverRightMargin(anchorX, monitorWidth, windowWidth, minEdge);
            && (minEdge <= hi ==> m == Clamp(monitorWidth - anchorX - TruncDiv(windowWidth, 2), minEdge, hi))
            && (hi < minEdge ==> m == minEdge)
  {
  }

  /** A popover placed with a valid right margin lies entirely on screen,
      `minEdge` pixels clear of both edges. */
  lemma PopoverStaysOnScreen(anchorX: int, monitorWidth: int, windowWidth: int, minEdge: int)
    requires IsI32(anchorX) && IsI32(monitorWidth) && IsI32(windowWidth) && IsI32(minEdge)
    requires IsI32(windowWidth + minEdge)
    requires SaturateI32(monitorWidth - (windowWidth + minEdge)) >= minEdge
    ensures var m := PopoverRightMargin(anchorX, monitorWidth, windowWidth, minEdge);
            var leftEdge := monitorWidth - m - windowWidth;
            leftEdge >= minEdge && m >= minEdge
  {
  }

  /** A window far wider than the monitor: `monitorWidth - (windowWidth +
      minEdge)` saturates instead of overflowing, and the margin falls back
      to `minEdge`. */
  lemma HugeWindowFallsBack()
    ensures PopoverRightMargin(0, I32_MIN + 10, I32_MAX - 4, POPOVER_MIN_EDGE_MARGIN) == POPOVER_MIN_EDGE_MARGIN
  {
  }

  datatype KeyboardMode = OnDemand | Exclusive

  /** Hyprland breaks with exclusive keyboard grabs, so it gets on-demand focus. */
  function PopoverKeyboardMode(backendName: string): (k: KeyboardMode)
    ensures k == OnDemand <==> backendName == "Hyprland"
  {
    if backendName == "Hyprland" then OnDemand else Exclusive
  }
}

/** Smart popover alignment and widget naming (crates/vibepanel/src/widgets/base.rs). */
module BaseWidget {
  import opened Common

  const EDGE_MARGIN: int := 8

  datatype Align = Start | Center | End

  /** Horizontal extent of a popover centered on the widget. All four
      inputs are `i32`; the centre and both edges are wrapping `i32` sums,
      so each edge is its exact value cast to `i32`, and the exact value
      itself whenever that fits. */
  function PopoverEdges(widgetX: int, widgetWidth: int, popoverWidth: int): (e: (int, int))
    requires IsI32(widgetX) && IsI32(widgetWidth) && IsI32(popoverWidth)
    ensures IsI32(e.0) && IsI32(e.1)
    ensures e.0 == WrapI32(widgetX + TruncDiv(widgetWidth, 2) - TruncDiv(popoverWidth, 2))
    ensures e.1 == WrapI32(widgetX + TruncDiv(widgetWidth, 2) + TruncDiv(popoverWidth, 2))
    ensures var left := widgetX + TruncDiv(widgetWidth, 2) - TruncDiv(popoverWidth, 2);
            var right := widgetX + TruncDiv(widgetWidth, 2) + TruncDiv(popoverWidth, 2);
            && (IsI32(left) ==> e.0 == left)
            && (IsI32(right) ==> e.1 == right)
            && (IsI32(left) && IsI32(right) && popoverWidth >= 0 ==> e.0 <= e.1)
  {
    var exactCenter := widgetX + TruncDiv(widgetWidth, 2);
    var half := TruncDiv(popoverWidth, 2);
    WrapI32Difference(exactCenter, half);
    WrapI32Sum(exactCenter, half);
    assert IsI32(half) && (popoverWidth >= 0 ==> half >= 0);
    (WrapI32(WrapI32(exactCenter) - half), WrapI32(WrapI32(exactCenter) + half))
  }

  /** Center the popover when it fits; otherwise align it with the screen edge
      it would cross, the left edge taking precedence. The right limit
      `monitor_width - EDGE_MARGIN` is an `i32` difference too. */
  function SmartAlignment(widgetX: int, widgetWidth: int, popoverWidth: int, monitorWidth: int): (a: Align)
    requires IsI32(widgetX) && IsI32(widgetWidth) && IsI32(popoverWidth) && IsI32(monitorWidth)
    ensures var e := PopoverEdges(widgetX, widgetWidth, popoverWidth);
            var limit := WrapI32(monitorWidth - EDGE_MARGIN);
            && (a == Start <==> e.0 < EDGE_MARGIN)
            && (a == End <==> e.0 >= EDGE_MARGIN && e.1 > limit)
            && (a == Center <==> e.0 >= EDGE_MARGIN && e.1 <= limit)
  {
    var e := PopoverEdges(widgetX, widgetWidth, popoverWidth);
    if e.0 < EDGE_MARGIN then Start
    else if e.1 > WrapI32(monitorWidth - EDGE_MARGIN) then End
    else Center
  }

  /** With on-screen values (the exact edges and the right limit all fit an
      `i32`), the popover is centred exactly when both of its exact edges
      stay `EDGE_MARGIN` clear of the screen edges. */
  lemma CenteredExactlyWhenItFits(widgetX: int, widgetWidth: int, popoverWidth: int, monitorWidth: int)
    requires IsI32(widgetX) && IsI32(widgetWidth) && IsI32(popoverWidth) && IsI32(monitorWidth)
    requires IsI32(widgetX + TruncDiv(widgetWidth, 2) - TruncDiv(popoverWidth, 2))
    requires IsI32(widgetX + TruncDiv(widgetWidth, 2) + TruncDiv(popoverWidth, 2))
    requires monitorWidth >= 0
    ensures var left := widgetX + TruncDiv(widgetWidth, 2) - TruncDiv(popoverWidth, 2);
            var right := widgetX + TruncDiv(widgetWidth, 2) + TruncDiv(popoverWidth, 2);
            var a := SmartAlignment(widgetX, widgetWidth, popoverWidth, monitorWidth);
            && (a == Start <==> left < EDGE_MARGIN)
            && (a == Center <==> EDGE_MARGIN <= left && right <= monitorWidth - EDGE_MARGIN)
  {
  }

  /** A widget reported at the far right of the `i32` range: its centre
      wraps to a large negative value, so the popover is start-aligned. */
  lemma WrappedCenterAlignsStart()
    ensures SmartAlignment(I32_MAX, 2, 0, 1920) == Start
  {
  }

  /** The widget's name is the first extra CSS class it was created with. */
  function WidgetName(extraClasses: seq<string>): (name: string)
    ensures extraClasses == [] ==> name == ""
    ensures extraClasses != [] ==> name == extraClasses[0]
  {
    if extraClasses == [] then "" else extraClasses[0]
  }
}

/** The single active popover across bar widgets (crates/vibepanel/src/popover_tracker.rs).
    A popover is represented by a bare handle and its visibility at the
    time it is dismissed. */
module PopoverTracker {
  import opened Common

  datatype PopoverRef = PopoverRef(handle: nat, visible: bool)

  datatype Entry = Entry(id: nat, popover: PopoverRef)

  datatype Tracker = Tracker(active: Option<Entry>, nextId: nat)

  /** A fresh tracker: nothing active, ids start at 1. */
  const Initial: Tracker := Tracker(None, 1)

  /** Ids handed out so far are all below `nextId`, which is at least 1. */
  predicate Valid(t: Tracker) {
    t.nextId >= 1 && (t.active.Some? ==> 1 <= t.active.value.id < t.nextId)
  }

  /** Outcome of a step: the new tracker and the popovers whose `dismiss` ran. */
  datatype Step = Step(tracker: Tracker, dismissed: seq<PopoverRef>)

  /** Forgets the active popover, dismissing it only if it is visible. */
  function DismissActive(t: Tracker): (s: Step)
    ensures s.tracker.active.None?
    ensures s.tracker.nextId == t.nextId
    ensures t.active.Some? && t.active.value.popover.visible ==> s.dismissed == [t.active.value.popover]
    ensures t.active.None? || !t.active.value.popover.visible ==> s.dismissed == []
  {
    var dismissed := if t.active.Some? && t.active.value.popover.visible then [t.active.value.popover] else [];
    Step(t.(active := None), dismissed)
  }

  /** Registers `p` as active after dismissing the previous one, returning its new id. */
  function SetActive(t: Tracker, p: PopoverRef): (r: (Step, nat))
    requires Valid(t)
    ensures Valid(r.0.tracker)
    ensures r.1 == t.nextId && r.0.tracker.nextId == r.1 + 1
    ensures r.0.tracker.active == Some(Entry(r.1, p))
    ensures r.0.dismissed == DismissActive(t).dismissed
    ensures t.active.Some? ==> r.1 > t.active.value.id
  {
    var d := DismissActive(t);
    var id := d.tracker.nextId;
    (Step(Tracker(Some(Entry(id, p)), id + 1), d.dismissed), id)
  }

  /** Unregisters the active popover only if `id` is its id. */
  function ClearIfActive(t: Tracker, id: nat): (t': Tracker)
    ensures t'.nextId == t.nextId
    ensures t.active.Some? && t.active.value.id == id ==> t'.active.None?
    ensures !(t.active.Some? && t.active.value.id == id) ==> t' == t
  {
    if t.active.Some? && t.active.value.id == id then t.(active := None) else t
  }

  /** The first popover registered on a fresh tracker gets id 1, and every
      later registration gets a strictly larger id. */
  lemma IdsIncrease(t: Tracker, p: PopoverRef, q: PopoverRef)
    requires Valid(t)
    ensures Initial.nextId == 1 && SetActive(Initial, p).1 == 1
    ensures var (s1, id1) := SetActive(t, p);
            var (s2, id2) := SetActive(s1.tracker, q);
            id1 < id2
  {
  }

  /** A stale id (one that is no longer active) can never clear a newer popover. */
  lemma StaleIdCannotClear(t: Tracker, p: PopoverRef, q: PopoverRef)
    requires Valid(t)
    ensures var (s1, id1) := SetActive(t, p);
            var (s2, id2) := SetActive(s1.tracker, q);
            ClearIfActive(s2.tracker, id1) == s2.tracker
  {
  }
}
