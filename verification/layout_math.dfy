/** Horizontal allocation of the bar's left, center and right sections
    (crates/vibepanel/src/layout_math.rs). All quantities are pixel counts;
    Rust's `i32` is modelled by unbounded integers. */
module LayoutMath {
  import opened Common

  /** Size request of one section. */
  datatype SectionSizes = SectionSizes(min: int, natural: int)

  datatype CenterPriorityAllocation = CenterPriorityAllocation(
    leftX: int, leftWidth: int,
    centerX: int, centerWidth: int,
    rightX: int, rightWidth: int)

  datatype LinearAllocation = LinearAllocation(
    leftX: int, leftWidth: int,
    rightX: int, rightWidth: int)

  /** Width given to a widget offered `available` pixels: its natural size
      if that fits, shrinking toward `minSize` but never past the space that
      exists, and never negative. */
  function ClampWidth(available: int, minSize: int, natSize: int): (r: int)
    ensures available <= 0 ==> r == 0
    ensures available > 0 ==> 0 <= r <= available
    ensures available > 0 && 0 <= natSize && minSize <= natSize <= available ==> r == natSize
    ensures available > 0 && natSize > available ==> r == available
  {
    if available <= 0 then 0
    else
      var target := Min(natSize, available);
      var target := if target < minSize then Min(minSize, available) else target;
      Max(target, 0)
  }

  /** Closed form of `ClampWidth`: clamp the natural size from below by the
      minimum, from above by the space available, then floor at zero. */
  lemma ClampWidthClosedForm(available: int, minSize: int, natSize: int)
    requires available > 0
    ensures ClampWidth(available, minSize, natSize) == Max(0, Min(Max(natSize, minSize), available))
  {
  }

  /** Width of a side section that does not expand: its clamped natural size
      within its budget; an expanding side takes the whole budget. */
  function SideWidth(section: Option<SectionSizes>, expand: bool, budget: int): (w: int)
    ensures section.None? ==> w == 0
    ensures section.Some? && expand ==> w == budget
    ensures section.Some? && !expand ==> w == ClampWidth(budget, section.value.min, section.value.natural)
  {
    match section
    case None => 0
    case Some(s) => if expand then budget else ClampWidth(budget, s.min, s.natural)
  }

  /** Center-priority layout: the center section sits on the true horizontal
      center of the interior, the side sections share what remains. */
  function ComputeCenterPriorityAllocation(
    interior: int, spacing: int,
    left: Option<SectionSizes>, leftExpand: bool,
    center: SectionSizes,
    right: Option<SectionSizes>, rightExpand: bool): (a: CenterPriorityAllocation)
    ensures a.centerWidth == ClampWidth(interior, center.min, center.natural)
    ensures a.centerX == Max(TruncDiv(interior - a.centerWidth, 2), 0)
    ensures a.leftX == 0
    ensures a.rightX + a.rightWidth == interior
    // the center is centered: its two margins differ by at most one pixel
    ensures interior >= 0 ==>
      var rest := interior - a.centerX - a.centerWidth;
      0 <= a.centerX <= rest <= a.centerX + 1
    // absent sides get nothing
    ensures left.None? ==> a.leftWidth == 0
    ensures right.None? ==> a.rightWidth == 0
    // side widths stay inside their budgets
    ensures left.Some? ==> 0 <= a.leftWidth <= Max(a.centerX - spacing, 0)
    ensures right.Some? ==> 0 <= a.rightWidth <= Max(interior - a.centerX - a.centerWidth - spacing, 0)
    ensures left.Some? && leftExpand ==> a.leftWidth == Max(a.centerX - spacing, 0)
    ensures right.Some? && rightExpand ==> a.rightWidth == Max(interior - a.centerX - a.centerWidth - spacing, 0)
    // with a non-negative gap the sections never overlap the center
    ensures spacing >= 0 && a.leftWidth > 0 ==> a.leftX + a.leftWidth + spacing <= a.centerX
    ensures spacing >= 0 && a.rightWidth > 0 ==> a.centerX + a.centerWidth + spacing <= a.rightX
  {
    var centerWidth := ClampWidth(interior, center.min, center.natural);
    var centerStart := Max(TruncDiv(interior - centerWidth, 2), 0);
    var centerEnd := centerStart + centerWidth;
    var gapLeft := if left.Some? then spacing else 0;
    var gapRight := if right.Some? then spacing else 0;
    var leftBudget := Max(centerStart - gapLeft, 0);
    var rightBudget := Max(interior - centerEnd - gapRight, 0);
    var leftWidth := SideWidth(left, leftExpand, leftBudget);
    var rightWidth := SideWidth(right, rightExpand, rightBudget);
    CenterPriorityAllocation(0, leftWidth, centerStart, centerWidth, interior - rightWidth, rightWidth)
  }

  /** Linear layout (no center section): left is anchored at the start,
      right at the end, and right wins when space runs short. */
  function ComputeLinearAllocation(
    interior: int, spacing: int,
    left: Option<SectionSizes>, right: Option<SectionSizes>): (a: LinearAllocation)
    ensures a.leftX == 0
    ensures a.rightX + a.rightWidth == interior
    ensures left.None? ==> a.leftWidth == 0
    ensures right.None? ==> a.rightWidth == 0
    ensures left.Some? && right.None? ==> a.leftWidth == ClampWidth(interior, left.value.min, left.value.natural)
    ensures left.None? && right.Some? ==> a.rightWidth == ClampWidth(interior, right.value.min, right.value.natural)
    ensures left.Some? && right.Some? ==>
      var available := Max(interior - spacing, 0);
      var ln := left.value.natural;
      var rn := right.value.natural;
      && (ln + rn <= available ==> a.leftWidth == ln && a.rightWidth == rn)
      && (ln + rn > available ==>
            a.rightWidth == Min(rn, available) && a.leftWidth == Max(available - a.rightWidth, 0))
      && (ln >= 0 && rn >= 0 ==> 0 <= a.leftWidth && 0 <= a.rightWidth && a.leftWidth + a.rightWidth <= available)
  {
    var widths :=
      if left.Some? && right.Some? then
        var available := Max(interior - spacing, 0);
        var ln := left.value.natural;
        var rn := right.value.natural;
        if ln + rn <= available then (ln, rn)
        else
          var rw := Min(rn, available);
          (Max(available - rw, 0), rw)
      else if left.Some? then (ClampWidth(interior, left.value.min, left.value.natural), 0)
      else if right.Some? then (0, ClampWidth(interior, right.value.min, right.value.natural))
      else (0, 0);
    LinearAllocation(0, widths.0, interior - widths.1, widths.1)
  }

  /** The unit tests' constrained scenario: 200 px interior, 8 px gap,
      center 100 px, sides wanting 80 px get their 42 px budgets. */
  lemma CenterPriorityConstrainedExample()
    ensures var a := ComputeCenterPriorityAllocation(200, 8, Some(SectionSizes(30, 80)), false,
                                                   SectionSizes(50, 100), Some(SectionSizes(30, 80)), false);
            a.centerX == 50 && a.centerWidth == 100 && a.leftWidth == 42 && a.rightWidth == 42
  {
  }
}
