/*
 * The microphone card of Quick Settings (`widgets/quick_settings/mic_card.rs`):
 * the same controls as the audio card, read from the microphone fields of
 * the audio snapshot, and the input-device list.
 */
module MicCard {
  import opened Common
  import opened Sorting
  import opened AudioCard

  /** `mic_icon_name`: the audio card's level scale under the microphone
      icon names. */
  function MicIconName(volume: nat, muted: bool): (icon: string)
    ensures icon == "microphone-sensitivity-" + LevelWord(VolumeLevel(volume, muted)) + "-symbolic"
    ensures muted ==> icon == "microphone-sensitivity-muted-symbolic"
  {
    "microphone-sensitivity-" + LevelWord(VolumeLevel(volume, muted)) + "-symbolic"
  }

  /** The microphone and output icons always show the same level for the
      same volume and mute state. */
  lemma MicAndVolumeIconsAgree(volume: nat, muted: bool)
    ensures MicIconName(volume, muted)[|"microphone-sensitivity-"|..] == VolumeIconName(volume, muted)[|"audio-volume-"|..]
  {
    var w := LevelWord(VolumeLevel(volume, muted)) + "-symbolic";
    assert MicIconName(volume, muted) == "microphone-sensitivity-" + w;
    assert VolumeIconName(volume, muted) == "audio-volume-" + w;
  }

  /** `on_mic_changed`: a missing microphone volume reads as zero and a
      missing mute state as unmuted. */
  function MicControls(available: bool, micControlAvailable: bool, micVolume: Option<nat>, micMuted: Option<bool>): (c: Controls)
    ensures c.sensitive <==> available && micControlAvailable
    ensures c.hintVisible <==> available && !micControlAvailable
    ensures c.sliderValue == (if micVolume.Some? then micVolume.value else 0)
    ensures c.mutedClass <==> micMuted == Some(true)
    ensures micVolume.None? || micMuted == Some(true) ==> c.level == MutedLevel
  {
    ControlsFor(available, micControlAvailable, micVolume.GetOr(0), micMuted.GetOr(false))
  }

  /** `populate_mic_source_list`: unlike the output list, no
      availability placeholder. */
  function PopulateSources(sources: seq<Device>): (l: DeviceList)
    ensures sources == [] ==> l == Placeholder("No input devices")
    ensures sources != [] && Count(sources, Selectable) == 0 ==> l == Placeholder("No input devices available")
    ensures l.Rows? ==> |l.rows| == Count(sources, Selectable)
  {
    PopulateDevices(sources, "No input devices", "No input devices available")
  }
}
