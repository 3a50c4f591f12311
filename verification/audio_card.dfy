/*
 * The audio card of Quick Settings (`widgets/quick_settings/audio_card.rs`):
 * the volume icon, the controls' state for an audio snapshot, and the
 * output-device list whose rows pick the default sink. The microphone card
 * reuses the level scale and the device list (see `MicCard`).
 *
 * The audio service itself (PulseAudio) is not part of this model; its
 * snapshot fields are parameters.
 */
module AudioCard {
  import opened Common
  import opened Sorting

  /** The four icon levels both audio cards use. */
  datatype Level = MutedLevel | Low | Medium | High

  /** The level of `volume_icon_name`/`mic_icon_name`: muted, or 66, 33
      and 1 as thresholds; zero volume reads as muted. */
  function VolumeLevel(volume: nat, muted: bool): (l: Level)
    ensures l == MutedLevel <==> muted || volume == 0
    ensures !muted ==> (l == High <==> volume >= 66)
    ensures !muted ==> (l == Medium <==> 33 <= volume < 66)
    ensures !muted ==> (l == Low <==> 1 <= volume < 33)
  {
    if muted then MutedLevel
    else if volume >= 66 then High
    else if volume >= 33 then Medium
    else if volume >= 1 then Low
    else MutedLevel
  }

  function LevelRank(l: Level): nat {
    match l
    case MutedLevel => 0
    case Low => 1
    case Medium => 2
    case High => 3
  }

  /** Unmuted, a louder volume never shows a lower level. */
  lemma LevelMonotone(a: nat, b: nat)
    requires a <= b
    ensures LevelRank(VolumeLevel(a, false)) <= LevelRank(VolumeLevel(b, false))
  {
  }

  function LevelWord(l: Level): string {
    match l
    case MutedLevel => "muted"
    case Low => "low"
    case Medium => "medium"
    case High => "high"
  }

  /** `volume_icon_name`. */
  function VolumeIconName(volume: nat, muted: bool): (icon: string)
    ensures icon == "audio-volume-" + LevelWord(VolumeLevel(volume, muted)) + "-symbolic"
    ensures muted ==> icon == "audio-volume-muted-symbolic"
  {
    "audio-volume-" + LevelWord(VolumeLevel(volume, muted)) + "-symbolic"
  }

  // ---------------------------------------------------------- controls

  /** What `on_audio_changed` sets on the card's controls. */
  datatype Controls = Controls(
    sliderValue: nat,
    sensitive: bool,     // slider and mute button
    rowDisabled: bool,
    hintVisible: bool,
    level: Level,
    mutedClass: bool)

  /** The controls for a backend availability, a control availability, a
      volume and a mute state. */
  function ControlsFor(available: bool, controlAvailable: bool, volume: nat, muted: bool): (c: Controls)
    ensures c.sensitive <==> available && controlAvailable
    ensures c.rowDisabled <==> !c.sensitive
    ensures c.hintVisible <==> available && !controlAvailable
    ensures c.sliderValue == volume && c.level == VolumeLevel(volume, muted) && c.mutedClass == muted
  {
    var controlOk := available && controlAvailable;
    Controls(volume, controlOk, !controlOk, available && !controlAvailable, VolumeLevel(volume, muted), muted)
  }

  /** The hint explains disabled controls: it shows only when they are
      disabled, and then the backend is there. */
  lemma HintOnlyWhenDisabled(available: bool, controlAvailable: bool, volume: nat, muted: bool)
    ensures var c := ControlsFor(available, controlAvailable, volume, muted);
            c.hintVisible ==> !c.sensitive && c.rowDisabled
  {
  }

  // ------------------------------------------------------- device list

  /** A sink or source as the audio snapshot lists it. */
  datatype Device = Device(name: string, description: string, isDefault: bool, portAvailable: Option<bool>)

  /** Only an explicitly unplugged port hides a device; no jack detection
      (`None`) keeps it. */
  predicate Selectable(d: Device) { d.portAvailable != Some(false) }

  /** A row: the description and whether it carries the check mark. */
  datatype Row = Row(description: string, checked: bool)

  datatype DeviceList = Placeholder(text: string) | Rows(rows: seq<Row>)

  function RowOf(d: Device): Row { Row(d.description, d.isDefault) }

  /** The rows of the selectable devices, in order, or a placeholder when
      there are no devices or none is selectable. */
  function PopulateDevices(devices: seq<Device>, noneText: string, noneSelectableText: string): (l: DeviceList)
    ensures devices == [] ==> l == Placeholder(noneText)
    ensures devices != [] && Count(devices, Selectable) == 0 ==> l == Placeholder(noneSelectableText)
    ensures l.Rows? ==> |l.rows| == Count(devices, Selectable) > 0
    ensures l.Rows? ==> forall i :: 0 <= i < |l.rows| ==> l.rows[i] == RowOf(Filter(devices, Selectable)[i])
  {
    if devices == [] then Placeholder(noneText)
    else if Count(devices, Selectable) == 0 then Placeholder(noneSelectableText)
    else
      var shown := Filter(devices, Selectable);
      Rows(seq(|shown|, i requires 0 <= i < |shown| => RowOf(shown[i])))
  }

  /** `populate_audio_sink_list`. */
  function PopulateSinks(available: bool, sinks: seq<Device>): (l: DeviceList)
    ensures !available ==> l == Placeholder("Audio unavailable")
    ensures available ==> l == PopulateDevices(sinks, "No audio devices", "No audio devices available")
  {
    if !available then Placeholder("Audio unavailable")
    else PopulateDevices(sinks, "No audio devices", "No audio devices available")
  }

  /** `on_audio_sink_row_activated` and its microphone twin: the row index
      counts selectable devices only; the result names the device made
      default. */
  function RowActivated(devices: seq<Device>, index: int): (r: Option<string>)
    ensures r.Some? <==> 0 <= index < Count(devices, Selectable)
    ensures r.Some? ==> exists d :: d in devices && Selectable(d) && d.name == r.value
  {
    var shown := Filter(devices, Selectable);
    if index < 0 || index >= |shown| then None
    else Some(shown[index].name)
  }

  /** Clicking a row selects the device the row shows: its description
      is on the row, and it is a selectable device of the list. */
  lemma ClickSelectsShownDevice(devices: seq<Device>, noneText: string, noneSelectableText: string, i: nat)
    requires var l := PopulateDevices(devices, noneText, noneSelectableText);
             l.Rows? && i < |l.rows|
    ensures var d := Filter(devices, Selectable)[i];
            && PopulateDevices(devices, noneText, noneSelectableText).rows[i].description == d.description
            && RowActivated(devices, i) == Some(d.name)
            && d in devices && Selectable(d)
  {
  }

  /** Every selectable device gets a row. */
  lemma EverySelectableShown(devices: seq<Device>, j: nat)
    requires j < |devices| && Selectable(devices[j])
    ensures devices[j] in Filter(devices, Selectable)
  {
    FilterComplete(devices, Selectable);
  }
}
