/*
 * The battery bar widget (`widgets/battery.rs`): the icon, label, CSS state
 * classes and tooltip it shows for a battery snapshot.
 *
 * The UPower service is not part of this model. A known percentage enters
 * already rounded; `RoundedPctValue` models how `rounded_pct_value` gets it
 * from UPower's `f64`, taken as a real (NaN and infinities have no real
 * counterpart).
 */
module BatteryWidget {
  import opened Common

  /** UPower's `Charging` and `Fully charged` state codes. */
  const STATE_CHARGING: nat := 1
  const STATE_FULLY_CHARGED: nat := 4

  /** The seven charge levels of `battery_icon_name`, lowest first. */
  datatype Level = Critical | LowLevel | MediumLow | Medium | MediumHigh | HighLevel | Full

  function LevelRank(l: Level): nat {
    match l
    case Critical => 0
    case LowLevel => 1
    case MediumLow => 2
    case Medium => 3
    case MediumHigh => 4
    case HighLevel => 5
    case Full => 6
  }

  /** The level for a rounded percentage: thresholds 95, 80, 60, 40, 25
      and 10. */
  function LevelOf(percent: nat): (l: Level)
    ensures l == Full <==> percent >= 95
    ensures l == HighLevel <==> 80 <= percent < 95
    ensures l == MediumHigh <==> 60 <= percent < 80
    ensures l == Medium <==> 40 <= percent < 60
    ensures l == MediumLow <==> 25 <= percent < 40
    ensures l == LowLevel <==> 10 <= percent < 25
    ensures l == Critical <==> percent < 10
  {
    if percent >= 95 then Full
    else if percent >= 80 then HighLevel
    else if percent >= 60 then MediumHigh
    else if percent >= 40 then Medium
    else if percent >= 25 then MediumLow
    else if percent >= 10 then LowLevel
    else Critical
  }

  /** More charge never shows a lower level. */
  lemma LevelMonotone(a: nat, b: nat)
    requires a <= b
    ensures LevelRank(LevelOf(a)) <= LevelRank(LevelOf(b))
  {
  }

  function LevelWord(l: Level): string {
    match l
    case Critical => "critical"
    case LowLevel => "low"
    case MediumLow => "medium-low"
    case Medium => "medium"
    case MediumHigh => "medium-high"
    case HighLevel => "high"
    case Full => "full"
  }

  /** Different levels have different names, so the icon tells the level. */
  lemma LevelWordInjective(a: Level, b: Level)
    requires LevelWord(a) == LevelWord(b)
    ensures a == b
  {
  }

  /** `battery_icon_name`: "battery-" and the level, with "-charging"
      appended while charging. */
  function BatteryIconName(percent: nat, charging: bool): (icon: string)
    ensures icon == "battery-" + LevelWord(LevelOf(percent)) + (if charging then "-charging" else "")
  {
    if charging then "battery-" + LevelWord(LevelOf(percent)) + "-charging"
    else "battery-" + LevelWord(LevelOf(percent))
  }

  /** The charging variant is the plain name plus the suffix, and the
      suffix appears only while charging. */
  lemma ChargingSuffix(percent: nat, charging: bool)
    ensures BatteryIconName(percent, true) == BatteryIconName(percent, false) + "-charging"
    ensures EndsWith(BatteryIconName(percent, charging), "-charging") <==> charging
  {
    var w := LevelWord(LevelOf(percent));
    LevelWordLast(LevelOf(percent));
    var plain := "battery-" + w;
    if !charging {
      var icon := BatteryIconName(percent, false);
      assert icon == plain;
      assert icon[|icon| - 1] == w[|w| - 1];
      if |icon| >= 9 {
        assert icon[|icon| - 9..][8] == icon[|icon| - 1];
      }
    } else {
      var icon := BatteryIconName(percent, true);
      assert icon == plain + "-charging";
      assert icon[|icon| - 9..] == "-charging";
    }
  }

  lemma LevelWordLast(l: Level)
    ensures LevelWord(l) != [] && LevelWord(l)[|LevelWord(l)| - 1] != 'g'
  {
  }

  /** `readable_pct`: the number followed by a percent sign. */
  function ReadablePct(percent: nat): (t: string)
    ensures |t| >= 2 && t[|t| - 1] == '%'
    ensures AllDigits(t[..|t| - 1])
    ensures DigitsValue(t[..|t| - 1]) == percent
  {
    var digits := NatToString(percent);
    DigitsOfNat(percent);
    assert (digits + "%")[..|digits|] == digits;
    digits + "%"
  }

  /** `f64::clamp(0.0, 100.0)`. */
  function ClampPct(percent: real): (c: real)
    ensures 0.0 <= c <= 100.0
    ensures 0.0 <= percent <= 100.0 ==> c == percent
  {
    if percent < 0.0 then 0.0 else if percent > 100.0 then 100.0 else percent
  }

  /** `rounded_pct_value`: the clamped percentage rounded to the nearest
      integer by `f64::round`, which sends an exact half up (away from zero). */
  function RoundedPctValue(percent: real): (r: nat)
    ensures r <= 100
    ensures r as real - 0.5 <= ClampPct(percent) < r as real + 0.5
  {
    (ClampPct(percent) + 0.5).Floor
  }

  /** The integer within half a unit of a value, ties going up, is unique:
      `RoundedPctValue` is the only function with its contract. */
  lemma RoundedPctValueUnique(percent: real, r: int)
    requires r as real - 0.5 <= ClampPct(percent) < r as real + 0.5
    ensures r == RoundedPctValue(percent)
  {
  }

  /** Different percentages read differently. */
  lemma ReadablePctInjective(a: nat, b: nat)
    requires ReadablePct(a) == ReadablePct(b)
    ensures a == b
  {
  }

  /** What `update_widgets_from_state_impl` leaves on screen. `icon` and
      `text` are `None` when hidden. */
  datatype View = View(
    unavailableClass: bool,
    chargingClass: bool,
    lowClass: bool,
    icon: Option<string>,
    text: Option<string>,
    tooltip: string)

  /** Charging and fully charged both count as plugged in. */
  predicate PluggedIn(state: Option<nat>) {
    state == Some(STATE_CHARGING) || state == Some(STATE_FULLY_CHARGED)
  }

  function StateWord(s: nat): string {
    if s == STATE_CHARGING then "Charging" else if s == STATE_FULLY_CHARGED then "Full" else "Discharging"
  }

  /** The tooltip: the percentage and, when known, a coarse state line. */
  function Tooltip(percent: Option<nat>, state: Option<nat>): (t: string)
    ensures percent.None? ==> t == "Battery: unknown"
    ensures percent.Some? && state.None? ==> t == "Battery: " + ReadablePct(percent.value)
    ensures percent.Some? && state.Some? ==>
              t == "Battery: " + ReadablePct(percent.value) + "\nState: " + StateWord(state.value)
  {
    match (percent, state)
    case (None, _) => "Battery: unknown"
    case (Some(p), Some(s)) => "Battery: " + ReadablePct(p) + "\nState: " + StateWord(s)
    case (Some(p), None) => "Battery: " + ReadablePct(p)
  }

  /** `update_widgets_from_state_impl` on a rounded percentage. */
  function Render(showPercentage: bool, showIcon: bool, available: bool,
                  percent: Option<nat>, state: Option<nat>): (v: View)
    ensures v.unavailableClass <==> !available
    ensures v.icon.Some? <==> showIcon
    ensures v.text.Some? <==> showPercentage
    // No service: a missing battery, a question mark, no state colour.
    ensures !available ==> !v.chargingClass && !v.lowClass && v.tooltip == "Battery: Service unavailable"
    ensures !available || percent.None? ==> (v.icon.Some? ==> v.icon.value == "battery-missing")
    ensures !available || percent.None? ==> (v.text.Some? ==> v.text.value == "?")
    // Plugged in takes the charging colour, which wins over low.
    ensures available ==> (v.chargingClass <==> PluggedIn(state))
    ensures available ==> (v.lowClass <==> !PluggedIn(state) && percent.Some? && percent.value <= 20)
    ensures !(v.chargingClass && v.lowClass)
    ensures available && percent.Some? && v.icon.Some? ==> v.icon.value == BatteryIconName(percent.value, PluggedIn(state))
    ensures available && percent.Some? && v.text.Some? ==> v.text.value == ReadablePct(percent.value)
    ensures available ==> v.tooltip == Tooltip(percent, state)
  {
    if !available then
      View(true, false, false,
           if showIcon then Some("battery-missing") else None,
           if showPercentage then Some("?") else None,
           "Battery: Service unavailable")
    else
      var plugged := PluggedIn(state);
      var low := percent.Some? && percent.value <= 20;
      View(false, plugged, !plugged && low,
           if !showIcon then None
           else if percent.Some? then Some(BatteryIconName(percent.value, plugged))
           else Some("battery-missing"),
           if !showPercentage then None
           else if percent.Some? then Some(ReadablePct(percent.value))
           else Some("?"),
           Tooltip(percent, state))
  }

  /** An unknown percentage looks like a missing service in the bar: the
      same icon and label, only the tooltip differs. */
  lemma UnknownLooksUnavailable(showPercentage: bool, showIcon: bool, state: Option<nat>)
    ensures var a := Render(showPercentage, showIcon, true, None, state);
            var u := Render(showPercentage, showIcon, false, None, state);
            a.icon == u.icon && a.text == u.text && a.tooltip != u.tooltip
  {
    var a := Render(showPercentage, showIcon, true, None, state);
    assert a.tooltip == "Battery: unknown";
    assert a.tooltip[9] == 'u' && "Battery: Service unavailable"[9] == 'S';
  }

  /** The charging colour and the charging icon go together. */
  lemma ChargingColourMatchesIcon(showPercentage: bool, percent: nat, state: Option<nat>)
    ensures var v := Render(showPercentage, true, true, Some(percent), state);
            v.chargingClass <==> EndsWith(v.icon.value, "-charging")
  {
    ChargingSuffix(percent, PluggedIn(state));
  }
}
