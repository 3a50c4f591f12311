/*
 * The on-screen display (`widgets/osd.rs`): the overlay that shows an icon
 * and a slider when brightness or volume changes, and hides itself after a
 * timeout.
 *
 * The brightness and audio services and the IPC listener are not part of
 * this model: their snapshots and messages are the events below, with the
 * services' readiness and settle state as fields. The glib timer is the
 * `hideArmed` flag; `HideTimerFired` is its expiry.
 */
module Osd {
  import opened Common

  // ------------------------------------------------------------- position

  const DEFAULT_POSITION: string := "bottom"

  predicate ValidPosition(p: string) {
    p == "bottom" || p == "left" || p == "right" || p == "top"
  }

  /** `normalize_position`: an unknown position falls back to the bottom. */
  function NormalizePosition(position: string): (p: string)
    ensures ValidPosition(p)
    ensures ValidPosition(position) ==> p == position
    ensures !ValidPosition(position) ==> p == DEFAULT_POSITION
  {
    if ValidPosition(position) then position else DEFAULT_POSITION
  }

  /** Normalising twice changes nothing. */
  lemma NormalizeIdempotent(position: string)
    ensures NormalizePosition(NormalizePosition(position)) == NormalizePosition(position)
  {
  }

  datatype Edge = Top | Bottom | Left | Right

  /** `apply_position`: the one anchored edge and its margin; the layout is
      vertical on the left and right edges. */
  function Placement(position: string): (r: (Edge, nat, bool))
    requires ValidPosition(position)
    ensures r.2 <==> r.0 == Left || r.0 == Right
    ensures r.0 == Top || r.0 == Bottom ==> r.1 == 48
    ensures r.0 == Left || r.0 == Right ==> r.1 == 24
    ensures (r.0 == Top <==> position == "top") && (r.0 == Bottom <==> position == "bottom")
    ensures (r.0 == Left <==> position == "left") && (r.0 == Right <==> position == "right")
  {
    match position
    case "bottom" => (Bottom, 48, false)
    case "top" => (Top, 48, false)
    case "left" => (Left, 24, true)
    case _ => (Right, 24, true)
  }

  // ---------------------------------------------------------------- icons

  /** `show_brightness`'s icon: off at zero, then thresholds 33 and 67. */
  function BrightnessIcon(value: nat): (icon: string)
    ensures value == 0 ==> icon == "display-brightness-off-symbolic"
    ensures 0 < value < 33 ==> icon == "display-brightness-low-symbolic"
    ensures 33 <= value < 67 ==> icon == "display-brightness-medium-symbolic"
    ensures value >= 67 ==> icon == "display-brightness-high-symbolic"
  {
    if value == 0 then "display-brightness-off-symbolic"
    else if value < 33 then "display-brightness-low-symbolic"
    else if value < 67 then "display-brightness-medium-symbolic"
    else "display-brightness-high-symbolic"
  }

  const MUTED_ICON: string := "audio-volume-muted-symbolic"

  /** `show_volume`'s icon: muted when muted or silent, then thresholds 33
      and 67. */
  function VolumeIcon(volume: nat, muted: bool): (icon: string)
    ensures icon == MUTED_ICON <==> muted || volume == 0
    ensures !muted && 0 < volume < 33 ==> icon == "audio-volume-low-symbolic"
    ensures !muted && 33 <= volume < 67 ==> icon == "audio-volume-medium-symbolic"
    ensures !muted && volume >= 67 ==> icon == "audio-volume-high-symbolic"
  {
    if muted || volume == 0 then MUTED_ICON
    else if volume < 33 then "audio-volume-low-symbolic"
    else if volume < 67 then "audio-volume-medium-symbolic"
    else "audio-volume-high-symbolic"
  }

  // ---------------------------------------------------------------- state

  /** What the widget shows: the icon and slider, or the unavailable
      message. */
  datatype Content = Normal(icon: string, value: nat) | Unavailable(icon: string, message: string)

  datatype Overlay = Overlay(
    timeoutMs: nat,
    visible: bool,
    content: Content,
    hideArmed: bool,
    brightnessBaselineSeen: bool,
    lastBrightness: nat,
    audioBaselineSeen: bool,
    lastVolume: nat,
    lastMuted: bool)

  /** A fresh overlay: hidden, no baselines. */
  function NewOverlay(timeoutMs: nat): Overlay {
    Overlay(timeoutMs, false, Normal("audio-volume-medium-symbolic", 0), false, false, 0, false, 0, false)
  }

  /** `reset_hide_timer`: a zero timeout never arms one; otherwise the old
      timer is replaced by a new one. */
  function ResetHideTimer(o: Overlay): (r: Overlay)
    ensures r.hideArmed <==> o.timeoutMs != 0 || o.hideArmed
    ensures r == o.(hideArmed := r.hideArmed)
  {
    if o.timeoutMs == 0 then o else o.(hideArmed := true)
  }

  /** `show_value`: the slider clamps to 0..100. */
  function ShowValue(o: Overlay, icon: string, value: nat): (r: Overlay)
    ensures r.visible && r.content == Normal(icon, Min(value, 100))
    ensures r.content.value <= 100
    ensures r.hideArmed <==> o.timeoutMs != 0 || o.hideArmed
  {
    ResetHideTimer(o.(visible := true, content := Normal(icon, Min(value, 100))))
  }

  /** `show_brightness`: the icon is chosen from the unclamped value. */
  function ShowBrightness(o: Overlay, value: nat): (r: Overlay)
    ensures r.visible && r.content == Normal(BrightnessIcon(value), Min(value, 100))
  {
    ShowValue(o, BrightnessIcon(value), value)
  }

  /** `show_volume`: overdrive above 100 keeps its icon but the slider
      stops at 100. */
  function ShowVolume(o: Overlay, volume: nat, muted: bool): (r: Overlay)
    ensures r.content == Normal(VolumeIcon(volume, muted), Min(volume, 100))
  {
    ShowValue(o, VolumeIcon(volume, muted), Min(volume, 100))
  }

  function ShowVolumeUnavailable(o: Overlay): (r: Overlay)
    ensures r.visible && r.content == Unavailable(MUTED_ICON, "Play audio to enable")
  {
    ResetHideTimer(o.(visible := true, content := Unavailable(MUTED_ICON, "Play audio to enable")))
  }

  // --------------------------------------------------------------- events

  datatype Event =
    | BrightnessChanged(available: bool, percent: nat, serviceReady: bool)
    | AudioChanged(available: bool, volume: nat, muted: bool, controlAvailable: bool,
                   inInitialSettle: bool, serviceReady: bool)
    | IpcVolume(percent: nat, muted: bool, audioAvailable: bool, audioControlAvailable: bool)
    | IpcVolumeUnavailable
    | IpcBrightness(percent: nat)
    | HideTimerFired

  /** `on_brightness_changed`: an unavailable or unready service resets the
      baseline, the first ready value becomes it, and afterwards only a
      change shows. */
  function OnBrightnessChanged(o: Overlay, available: bool, percent: nat, serviceReady: bool): (r: Overlay)
    ensures var v := Min(percent, 100);
            r.visible != o.visible || r.content != o.content ==>
              available && serviceReady && o.brightnessBaselineSeen && o.lastBrightness != v
    ensures var v := Min(percent, 100);
            available && serviceReady && o.brightnessBaselineSeen && o.lastBrightness != v ==>
              r == ShowBrightness(o.(lastBrightness := v), v)
    ensures r.brightnessBaselineSeen <==> available && serviceReady
    ensures available ==> r.lastBrightness == Min(percent, 100)
  {
    if !available then o.(brightnessBaselineSeen := false)
    else
      var value := Min(percent, 100);
      if !serviceReady then o.(brightnessBaselineSeen := false, lastBrightness := value)
      else if !o.brightnessBaselineSeen then o.(brightnessBaselineSeen := true, lastBrightness := value)
      else if o.lastBrightness == value then o
      else ShowBrightness(o.(lastBrightness := value), value)
  }

  /** `on_audio_changed`: the settle period and an unready service only
      record the baseline; afterwards a change of volume or mute shows, as
      the unavailable message when the sink takes no volume changes. */
  function OnAudioChanged(o: Overlay, available: bool, volume: nat, muted: bool, controlAvailable: bool,
                          inInitialSettle: bool, serviceReady: bool): (r: Overlay)
    ensures var shows := available && !inInitialSettle && serviceReady && o.audioBaselineSeen
                         && (o.lastVolume != volume || o.lastMuted != muted);
            && (shows && controlAvailable ==> r == ShowVolume(o.(lastVolume := volume, lastMuted := muted), volume, muted))
            && (shows && !controlAvailable ==> r == ShowVolumeUnavailable(o.(lastVolume := volume, lastMuted := muted)))
            && (!shows ==> r.visible == o.visible && r.content == o.content && r.hideArmed == o.hideArmed)
    ensures r.audioBaselineSeen <==> available
    ensures available ==> r.lastVolume == volume && r.lastMuted == muted
  {
    if !available then o.(audioBaselineSeen := false)
    else if inInitialSettle || !serviceReady || !o.audioBaselineSeen then
      o.(audioBaselineSeen := true, lastVolume := volume, lastMuted := muted)
    else if o.lastVolume == volume && o.lastMuted == muted then o
    else
      var o1 := o.(lastVolume := volume, lastMuted := muted);
      if !controlAvailable then ShowVolumeUnavailable(o1) else ShowVolume(o1, volume, muted)
  }

  /** One event. IPC requests always show; a volume request shows the
      unavailable message when audio is up but takes no volume changes. */
  function Step(o: Overlay, e: Event): (r: Overlay)
    ensures r.timeoutMs == o.timeoutMs
    ensures e.IpcVolumeUnavailable? || e.IpcBrightness? || e.IpcVolume? ==> r.visible
    ensures e.HideTimerFired? && o.hideArmed ==> !r.visible && !r.hideArmed
    ensures e.HideTimerFired? && !o.hideArmed ==> r == o
  {
    match e
    case BrightnessChanged(available, percent, ready) => OnBrightnessChanged(o, available, percent, ready)
    case AudioChanged(available, volume, muted, control, settle, ready) =>
      OnAudioChanged(o, available, volume, muted, control, settle, ready)
    case IpcVolume(percent, muted, audioAvailable, control) =>
      if audioAvailable && !control then ShowVolumeUnavailable(o) else ShowVolume(o, percent, muted)
    case IpcVolumeUnavailable => ShowVolumeUnavailable(o)
    case IpcBrightness(percent) => ShowBrightness(o, percent)
    case HideTimerFired => if o.hideArmed then o.(visible := false, hideArmed := false) else o
  }

  function Run(o: Overlay, es: seq<Event>): Overlay
    decreases |es|
  {
    if es == [] then o else Run(Step(o, es[0]), es[1..])
  }

  /** The displayed state the overlay keeps: the slider never leaves
      0..100, and with a zero timeout no hide timer is ever armed. */
  predicate Good(o: Overlay) {
    && (o.content.Normal? ==> o.content.value <= 100)
    && (o.timeoutMs == 0 ==> !o.hideArmed)
  }

  lemma StepGood(o: Overlay, e: Event)
    requires Good(o)
    ensures Good(Step(o, e))
  {
  }

  lemma {:induction false} RunGood(o: Overlay, es: seq<Event>)
    requires Good(o)
    ensures Good(Run(o, es))
    decreases |es|
  {
    if es != [] {
      StepGood(o, es[0]);
      RunGood(Step(o, es[0]), es[1..]);
    }
  }

  /** A zero timeout means the overlay never hides itself: once shown it
      stays visible whatever follows. */
  lemma {:induction false} ZeroTimeoutNeverHides(o: Overlay, es: seq<Event>)
    requires Good(o) && o.timeoutMs == 0 && o.visible
    ensures Run(o, es).visible
    decreases |es|
  {
    if es != [] {
      StepGood(o, es[0]);
      assert Step(o, es[0]).visible;
      ZeroTimeoutNeverHides(Step(o, es[0]), es[1..]);
    }
  }

  /** With a timeout, the timer's expiry hides whatever was shown. */
  lemma TimeoutHides(o: Overlay, e: Event)
    requires o.timeoutMs != 0 && (e.IpcVolumeUnavailable? || e.IpcBrightness? || e.IpcVolume?)
    ensures Step(o, e).hideArmed && !Run(o, [e, HideTimerFired]).visible
  {
    var o1 := Step(o, e);
    var o2 := Step(o1, HideTimerFired);
    assert o1.hideArmed && !o2.visible;
    assert [e, HideTimerFired][1..] == [HideTimerFired];
    assert Run(o, [e, HideTimerFired]) == Run(o1, [HideTimerFired]);
    assert Run(o1, [HideTimerFired]) == Run(o2, []);
  }

  /** The brightness handshake: after the service becomes ready, its first
      value is swallowed as the baseline, and a repeated value never shows
      again. */
  lemma BrightnessBaselineSwallowed(o: Overlay, p: nat, q: nat)
    requires !o.brightnessBaselineSeen
    ensures var o1 := OnBrightnessChanged(o, true, p, true);
            o1.visible == o.visible && o1.content == o.content && o1.brightnessBaselineSeen
    ensures var o1 := OnBrightnessChanged(o, true, p, true);
            var o2 := OnBrightnessChanged(o1, true, q, true);
            o2.content != o1.content || o2.visible != o1.visible ==> Min(q, 100) != Min(p, 100)
  {
  }
}
