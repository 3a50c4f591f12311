/*
 * The updates widget (`widgets/updates.rs`): its configuration and how a
 * snapshot of the update service is shown. The icon choice and tooltip
 * come from `widgets/updates_common.rs`, which is not part of this model.
 */
module Updates {
  import opened Common
  import opened Toml

  const DEFAULT_CHECK_INTERVAL: nat := 3600
  const U64_MODULUS: int := 0x1_0000_0000_0000_0000

  /** Rust's `v as u64` on an `i64`: a negative value wraps around. */
  function WrapU64(v: int): (r: nat)
    ensures r < U64_MODULUS
    ensures (v - r) % U64_MODULUS == 0
    ensures 0 <= v < U64_MODULUS ==> r == v
  {
    v % U64_MODULUS
  }

  /** `check_interval` in seconds and the terminal to run the upgrade in. */
  datatype UpdatesConfig = UpdatesConfig(checkInterval: nat, terminal: Option<string>)

  /** `UpdatesConfig::from_entry`. */
  function FromOptions(options: map<string, Value>): (c: UpdatesConfig)
    ensures GetInt(options, "check_interval").None? ==> c.checkInterval == DEFAULT_CHECK_INTERVAL
    ensures GetInt(options, "check_interval").Some? ==> c.checkInterval == WrapU64(GetInt(options, "check_interval").value)
    ensures c.terminal == GetStr(options, "terminal")
  {
    var interval := match GetInt(options, "check_interval")
      case Some(v) => WrapU64(v)
      case None => DEFAULT_CHECK_INTERVAL;
    UpdatesConfig(interval, GetStr(options, "terminal"))
  }

  /** Defaults, and custom values kept as given. */
  lemma ConfigExamples()
    ensures FromOptions(map[]) == UpdatesConfig(3600, None)
    ensures FromOptions(map["check_interval" := Int(1800), "terminal" := Str("ghostty")]) == UpdatesConfig(1800, Some("ghostty"))
  {
  }

  /** A negative interval wraps to a huge one rather than failing. */
  lemma NegativeIntervalWraps()
    ensures FromOptions(map["check_interval" := Int(-1)]).checkInterval == U64_MODULUS - 1
  {
  }

  /** What the update service reports. */
  datatype Snapshot = Snapshot(available: bool, updateCount: nat, error: Option<string>, checking: bool)

  /** What the widget shows. */
  datatype View = View(visible: bool, errorClass: bool, checkingClass: bool, text: string)

  /** `update_widget_from_snapshot`. A hidden widget keeps its classes and
      label; a shown one gets the error class before the checking class and
      "!" or the count as its label. */
  function Update(v: View, s: Snapshot): (r: View)
    ensures r.visible <==> s.available && (s.updateCount > 0 || s.error.Some?)
    ensures !r.visible ==> r == v.(visible := false)
    ensures r.visible ==> (r.errorClass <==> s.error.Some?)
    ensures r.visible ==> (r.checkingClass <==> s.error.None? && s.checking)
    ensures r.visible && s.error.Some? ==> r.text == "!"
    ensures r.visible && s.error.None? ==> AllDigits(r.text) && DigitsValue(r.text) == s.updateCount
  {
    if !s.available then v.(visible := false)
    else if !(s.updateCount > 0 || s.error.Some?) then v.(visible := false)
    else if s.error.Some? then View(true, true, false, "!")
    else
      DigitsOfNat(s.updateCount);
      View(true, false, s.checking, NatToString(s.updateCount))
  }

  /** The two classes are never both on. */
  lemma ClassesExclusive(v: View, s: Snapshot)
    requires !(v.errorClass && v.checkingClass)
    ensures var r := Update(v, s); !(r.errorClass && r.checkingClass)
  {
  }

  /** The shown label never reads as a number while an error is present,
      and always does otherwise. */
  lemma LabelDistinguishesError(v: View, s: Snapshot)
    requires Update(v, s).visible
    ensures AllDigits(Update(v, s).text) <==> s.error.None?
  {
    if s.error.Some? {
      assert Update(v, s).text[0] == '!';
    }
  }
}
