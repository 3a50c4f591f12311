/*
 * The clock widget (`widgets/clock.rs`): its configuration and when its
 * label is refreshed. The strftime rendering itself is chrono's and is not
 * modelled; the format string is carried as given.
 */
module Clock {
  import opened Common
  import opened Toml

  const DEFAULT_FORMAT: string := "%a %d %H:%M"
  const DEFAULT_SHOW_WEEK_NUMBERS: bool := true

  datatype ClockConfig = ClockConfig(format: string, showWeekNumbers: bool)

  const DEFAULT_CONFIG: ClockConfig := ClockConfig(DEFAULT_FORMAT, DEFAULT_SHOW_WEEK_NUMBERS)

  /** `ClockConfig::from_entry`: a string format is used as given, anything
      else falls back to the default; week numbers are on unless a boolean
      says otherwise. */
  function FromOptions(options: map<string, Value>): (c: ClockConfig)
    ensures (exists f :: Get(options, "format") == Some(Str(f))) ==> c.format == Get(options, "format").value.s
    ensures !(exists f :: Get(options, "format") == Some(Str(f))) ==> c.format == DEFAULT_FORMAT
    ensures Get(options, "show_week_numbers").Some? && Get(options, "show_week_numbers").value.Bool? ==>
              c.showWeekNumbers == Get(options, "show_week_numbers").value.b
    ensures !(Get(options, "show_week_numbers").Some? && Get(options, "show_week_numbers").value.Bool?) ==> c.showWeekNumbers
  {
    ClockConfig(GetStr(options, "format").GetOr(DEFAULT_FORMAT),
                GetBool(options, "show_week_numbers").GetOr(DEFAULT_SHOW_WEEK_NUMBERS))
  }

  /** No options give `ClockConfig::default()`; a custom format is kept and
      an integer format is ignored. */
  lemma ConfigExamples(f: string, n: int)
    ensures FromOptions(map[]) == DEFAULT_CONFIG
    ensures FromOptions(map["format" := Str(f)]).format == f
    ensures FromOptions(map["format" := Int(n)]).format == DEFAULT_FORMAT
  {
  }

  /** Seconds until the first tick: the rest of the current minute, so the
      first refresh lands on the next minute boundary. `second` is chrono's
      `second()`, always below 60. */
  function FirstTickDelay(second: nat): (d: nat)
    requires second < 60
    ensures 1 <= d <= 60
    ensures (second + d) % 60 == 0
  {
    60 - second
  }

  /** Seconds from now to the `k`-th tick: the first one, then one every
      60 seconds. */
  function TickOffset(second: nat, k: nat): (t: nat)
    requires second < 60
  {
    FirstTickDelay(second) + 60 * k
  }

  /** Every tick, not only the first, falls on a minute boundary, and
      consecutive ticks are a minute apart. */
  lemma {:induction false} TicksOnMinuteBoundaries(second: nat, k: nat)
    requires second < 60
    ensures (second + TickOffset(second, k)) % 60 == 0
    ensures TickOffset(second, k + 1) == TickOffset(second, k) + 60
  {
    var d := FirstTickDelay(second);
    assert second + d == 60;
    assert second + TickOffset(second, k) == 60 * (k + 1);
  }
}
