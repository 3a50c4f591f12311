/*
 * The CPU widget (`widgets/cpu.rs`): its configuration and which of its
 * parts an update shows. The usage percentage is a float formatted by
 * Rust; here it is the text the update is given.
 */
module Cpu {
  import opened Common
  import opened Toml

  const DEFAULT_SHOW_ICON: bool := true
  const DEFAULT_SHOW_PERCENTAGE: bool := true

  datatype CpuConfig = CpuConfig(showIcon: bool, showPercentage: bool)

  const DEFAULT_CONFIG: CpuConfig := CpuConfig(DEFAULT_SHOW_ICON, DEFAULT_SHOW_PERCENTAGE)

  /** `CpuConfig::from_entry`: each option must be a boolean to count. */
  function FromOptions(options: map<string, Value>): (c: CpuConfig)
    ensures c.showIcon == GetBool(options, "show_icon").GetOr(DEFAULT_SHOW_ICON)
    ensures c.showPercentage == GetBool(options, "show_percentage").GetOr(DEFAULT_SHOW_PERCENTAGE)
  {
    CpuConfig(GetBool(options, "show_icon").GetOr(DEFAULT_SHOW_ICON),
              GetBool(options, "show_percentage").GetOr(DEFAULT_SHOW_PERCENTAGE))
  }

  /** Defaults, honoured booleans, and a non-boolean falling back. */
  lemma ConfigExamples(s: string)
    ensures FromOptions(map[]) == DEFAULT_CONFIG && DEFAULT_CONFIG.showIcon && DEFAULT_CONFIG.showPercentage
    ensures FromOptions(map["show_icon" := Bool(false), "show_percentage" := Bool(true)]) == CpuConfig(false, true)
    ensures FromOptions(map["show_percentage" := Str(s)]).showPercentage
  {
  }

  /** What the widget shows: icon and label visibility, label text and
      tooltip. */
  datatype View = View(iconVisible: bool, labelVisible: bool, text: string, tooltip: string)

  const UNAVAILABLE_TOOLTIP: string := "CPU: Service unavailable"

  /** `update_cpu_widget`. With the service unavailable only the parts that
      are enabled are touched (icon shown, label "?"); otherwise the icon
      and label follow the configuration. */
  function Update(c: CpuConfig, v: View, available: bool, usageText: string, tooltip: string): (r: View)
    ensures available ==> r.iconVisible == c.showIcon && r.labelVisible == c.showPercentage
    ensures available && c.showPercentage ==> r.text == usageText
    ensures !available ==> r.tooltip == UNAVAILABLE_TOOLTIP
    ensures !available && c.showIcon ==> r.iconVisible
    ensures !available && !c.showIcon ==> r.iconVisible == v.iconVisible
    ensures !available && c.showPercentage ==> r.labelVisible && r.text == "?"
    ensures !c.showPercentage ==> r.text == v.text
    ensures !available && !c.showPercentage ==> r.labelVisible == v.labelVisible
  {
    if !available then
      View(if c.showIcon then true else v.iconVisible,
           if c.showPercentage then true else v.labelVisible,
           if c.showPercentage then "?" else v.text,
           UNAVAILABLE_TOOLTIP)
    else
      View(c.showIcon, c.showPercentage, if c.showPercentage then usageText else v.text, tooltip)
  }

  /** Updates in the order the service publishes them: availability, the
      formatted usage and the tooltip. */
  datatype Sample = Sample(available: bool, usageText: string, tooltip: string)

  function Run(c: CpuConfig, v: View, samples: seq<Sample>): View
    decreases |samples|
  {
    if samples == [] then v
    else Run(c, Update(c, v, samples[0].available, samples[0].usageText, samples[0].tooltip), samples[1..])
  }

  /** With `show_percentage = false` the label, once hidden, stays hidden
      whatever the service reports, and an available sample hides it. */
  lemma {:induction false} PercentageOffKeepsLabelHidden(c: CpuConfig, v: View, samples: seq<Sample>)
    requires !c.showPercentage
    requires !v.labelVisible || (|samples| > 0 && samples[0].available)
    ensures |samples| > 0 ==> !Run(c, v, samples).labelVisible
    decreases |samples|
  {
    if |samples| > 0 {
      var v1 := Update(c, v, samples[0].available, samples[0].usageText, samples[0].tooltip);
      assert !v1.labelVisible;
      if |samples| > 1 {
        PercentageOffKeepsLabelHidden(c, v1, samples[1..]);
      }
    }
  }
}
