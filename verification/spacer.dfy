/** The spacer widget's configuration and sizing choice
    (crates/vibepanel/src/widgets/spacer.rs). */
module Spacer {
  import opened Common
  import opened Toml

  /** `u32::try_from(n).ok()`. */
  function ToU32(n: int): (r: Option<nat>)
    ensures r.Some? <==> 0 <= n <= U32_MAX
    ensures r.Some? ==> r.value == n
  {
    if 0 <= n <= U32_MAX then Some(n) else None
  }

  /** `SpacerConfig::from_entry`: the `width` option when it is an integer
      that fits a `u32`; anything else leaves the spacer flexible. Unknown
      options are only warned about. */
  function SpacerWidth(options: map<string, Value>): (w: Option<nat>)
    ensures w.Some? <==> "width" in options && options["width"].Int? && 0 <= options["width"].i <= U32_MAX
    ensures w.Some? ==> w.value == options["width"].i
  {
    match GetInt(options, "width")
    case None => None
    case Some(n) => ToU32(n)
  }

  /** Size request of the spacer box: a fixed width without horizontal
      expansion, or width 0 with expansion. The width is an `i32` because
      the fixed `u32` width is cast with `as i32` before it is requested. */
  datatype Sizing = Sizing(minWidth: int, hexpand: bool)

  function SpacerSizing(width: Option<nat>): (s: Sizing)
    requires width.Some? ==> width.value <= U32_MAX
    ensures s.hexpand <==> width.None?
    ensures I32_MIN <= s.minWidth <= I32_MAX
    ensures width.Some? && width.value <= I32_MAX ==> s.minWidth == width.value
    ensures width.Some? && width.value > I32_MAX ==> s.minWidth == width.value - 0x1_0000_0000
    ensures width.None? ==> s.minWidth == 0
  {
    match width
    case Some(w) => Sizing(WrapI32(w), false)
    case None => Sizing(0, true)
  }

  /** A configured width above `i32::MAX` is accepted as a `u32` but wraps to
      a negative size request, which GTK reads as "no request". */
  lemma HugeWidthWrapsNegative(options: map<string, Value>)
    requires options == map["width" := Int(0x8000_0000)]
    ensures SpacerWidth(options) == Some(0x8000_0000)
    ensures SpacerSizing(SpacerWidth(options)).minWidth == I32_MIN
  {
  }

  /** Options other than `width` never change the configured width. */
  lemma UnknownOptionsIgnored(options: map<string, Value>, key: string, v: Value)
    requires key != "width"
    ensures SpacerWidth(options[key := v]) == SpacerWidth(options)
  {
    assert GetInt(options[key := v], "width") == GetInt(options, "width");
  }
}
