/*
 * The memory widget's configuration (`widgets/memory.rs`). Rendering the
 * figures involves floating point and is not modelled.
 */
module Memory {
  import opened Common
  import opened Toml

  const DEFAULT_SHOW_ICON: bool := true

  /** How the usage is shown: "76%", "8.2G" or "8.2/16G". */
  datatype MemoryFormat = Percentage | Absolute | Both

  /** `MemoryFormat::default()`. */
  const DEFAULT_FORMAT: MemoryFormat := Percentage

  /** `MemoryFormat::from_str`: case-insensitive; anything but "absolute"
      or "both" is a percentage. */
  function FormatFromStr(s: string): (f: MemoryFormat)
    ensures f.Absolute? <==> Lower(s) == "absolute"
    ensures f.Both? <==> Lower(s) == "both"
    ensures f.Percentage? <==> Lower(s) != "absolute" && Lower(s) != "both"
  {
    var l := Lower(s);
    if l == "absolute" then Absolute else if l == "both" then Both else Percentage
  }

  function FormatName(f: MemoryFormat): string {
    match f
    case Percentage => "percentage"
    case Absolute => "absolute"
    case Both => "both"
  }

  /** Every format reads back from its name, whatever the letter case. */
  lemma FormatRoundTrip(f: MemoryFormat)
    ensures FormatFromStr(FormatName(f)) == f
    ensures FormatFromStr(Upper(FormatName(f))) == f
  {
    CaseInsensitiveName(FormatName(f));
  }

  datatype MemoryConfig = MemoryConfig(showIcon: bool, format: MemoryFormat)

  const DEFAULT_CONFIG: MemoryConfig := MemoryConfig(DEFAULT_SHOW_ICON, DEFAULT_FORMAT)

  /** `MemoryConfig::from_entry`: values of the wrong type are ignored. */
  function FromOptions(options: map<string, Value>): (c: MemoryConfig)
    ensures c.showIcon == GetBool(options, "show_icon").GetOr(DEFAULT_SHOW_ICON)
    ensures GetStr(options, "format").Some? ==> c.format == FormatFromStr(GetStr(options, "format").value)
    ensures GetStr(options, "format").None? ==> c.format == Percentage
  {
    var format := match GetStr(options, "format")
      case Some(s) => FormatFromStr(s)
      case None => DEFAULT_FORMAT;
    MemoryConfig(GetBool(options, "show_icon").GetOr(DEFAULT_SHOW_ICON), format)
  }

  /** Defaults, custom values and a non-string format. */
  lemma ConfigExamples(n: int)
    ensures FromOptions(map[]) == DEFAULT_CONFIG && DEFAULT_CONFIG.showIcon && DEFAULT_CONFIG.format == Percentage
    ensures FromOptions(map["show_icon" := Bool(false), "format" := Str("absolute")]) == MemoryConfig(false, Absolute)
    ensures FromOptions(map["format" := Int(n)]).format == Percentage
  {
    FormatRoundTrip(Absolute);
  }
}
