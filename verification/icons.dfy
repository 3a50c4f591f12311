/** Icon naming and the icon service's backend choice
    (crates/vibepanel/src/services/icons.rs): logical icon names map to
    Material Symbols ligatures or to ordered lists of freedesktop icon names,
    resolved against whatever the current icon theme provides. The icon
    theme is an input: a predicate telling which names it has. */
module Icons {
  import opened Common

  /** The Material Symbols table of `material_symbol_name`: the ligature
      for a known logical name. */
  function MaterialGlyph(name: string): Option<string> {
    match name
    case "battery-full" => Some("battery_full")
    case "battery-high" => Some("battery_6_bar")
    case "battery-medium-high" => Some("battery_5_bar")
    case "battery-medium" => Some("battery_4_bar")
    case "battery-medium-low" => Some("battery_3_bar")
    case "battery-low" => Some("battery_2_bar")
    case "battery-critical" => Some("battery_1_bar")
    case "battery-missing" => Some("battery_unknown")
    case "battery-full-charging" => Some("battery_charging_full")
    case "battery-high-charging" => Some("battery_charging_90")
    case "battery-medium-high-charging" => Some("battery_charging_80")
    case "battery-medium-charging" => Some("battery_charging_60")
    case "battery-medium-low-charging" => Some("battery_charging_50")
    case "battery-low-charging" => Some("battery_charging_30")
    case "battery-critical-charging" => Some("battery_charging_20")
    case "notifications" => Some("notifications")
    case "notifications-disabled" => Some("notifications_off")
    case "notifications-active" => Some("notifications_active")
    case "display-brightness-off-symbolic" => Some("brightness_empty")
    case "display-brightness-low-symbolic" => Some("brightness_empty")
    case "display-brightness-medium-symbolic" => Some("brightness_medium")
    case "display-brightness-high-symbolic" => Some("brightness_high")
    case "display-brightness-symbolic" => Some("brightness_medium")
    case "audio-volume-muted-symbolic" => Some("volume_off")
    case "audio-volume-low-symbolic" => Some("volume_down")
    case "audio-volume-medium-symbolic" => Some("volume_down")
    case "audio-volume-high-symbolic" => Some("volume_up")
    case "audio-volume-muted" => Some("volume_off")
    case "audio-volume-low" => Some("volume_down")
    case "audio-volume-medium" => Some("volume_down")
    case "audio-volume-high" => Some("volume_up")
    case "microphone-sensitivity-muted-symbolic" => Some("mic_off")
    case "microphone-sensitivity-low-symbolic" => Some("mic")
    case "microphone-sensitivity-medium-symbolic" => Some("mic")
    case "microphone-sensitivity-high-symbolic" => Some("mic")
    case "audio-input-microphone-symbolic" => Some("mic")
    case "audio-input-microphone-muted-symbolic" => Some("mic_off")
    case "object-select-symbolic" => Some("check")
    case "radio-symbolic" => Some("radio_button_unchecked")
    case "radio-checked-symbolic" => Some("radio_button_checked")
    case "network-wireless-signal-excellent-symbolic" => Some("wifi")
    case "network-wireless-signal-good-symbolic" => Some("wifi")
    case "network-wireless-signal-ok-symbolic" => Some("wifi_2_bar")
    case "network-wireless-signal-weak-symbolic" => Some("wifi_1_bar")
    case "network-wireless-signal-none-symbolic" => Some("wifi_1_bar")
    case "network-wireless-offline-symbolic" => Some("wifi_off")
    case "network-wired" => Some("lan")
    case "network-wired-symbolic" => Some("lan")
    case "network-offline-symbolic" => Some("settings_ethernet")
    case "wifi-off" => Some("wifi_off")
    case "wifi" => Some("wifi")
    case "bluetooth-symbolic" => Some("bluetooth")
    case "bluetooth-active-symbolic" => Some("bluetooth_connected")
    case "bluetooth-disabled-symbolic" => Some("bluetooth_disabled")
    case "audio-headphones" => Some("headphones")
    case "audio-headphones-symbolic" => Some("headphones")
    case "audio-headset" => Some("headset_mic")
    case "audio-headset-symbolic" => Some("headset_mic")
    case "audio-card" => Some("speaker")
    case "audio-card-symbolic" => Some("speaker")
    case "audio-speakers" => Some("speaker")
    case "audio-speakers-symbolic" => Some("speaker")
    case "input-keyboard" => Some("keyboard")
    case "input-keyboard-symbolic" => Some("keyboard")
    case "input-mouse" => Some("mouse")
    case "input-mouse-symbolic" => Some("mouse")
    case "input-gaming" => Some("sports_esports")
    case "input-gaming-symbolic" => Some("sports_esports")
    case "phone" => Some("smartphone")
    case "phone-symbolic" => Some("smartphone")
    case "computer" => Some("computer")
    case "computer-symbolic" => Some("computer")
    case "network-vpn" => Some("vpn_key")
    case "network-vpn-symbolic" => Some("vpn_key")
    case "network-vpn-acquiring-symbolic" => Some("vpn_key")
    case "network-vpn-connected-symbolic" => Some("vpn_lock")
    case "network-vpn-disconnected-symbolic" => Some("vpn_key_off")
    case "night-light-symbolic" => Some("coffee")
    case "preferences-system-time-symbolic" => Some("coffee")
    case "pan-down-symbolic" => Some("keyboard_arrow_down")
    case "pan-up-symbolic" => Some("keyboard_arrow_up")
    case "pan-left-symbolic" => Some("keyboard_arrow_left")
    case "pan-right-symbolic" => Some("keyboard_arrow_right")
    case "open-menu-symbolic" => Some("more_vert")
    case "view-more-symbolic" => Some("more_horiz")
    case "window-close-symbolic" => Some("close")
    case "user-trash-symbolic" => Some("delete")
    case "software-update-available" => Some("download")
    case "software-update-urgent" => Some("download")
    case "system-shutdown-symbolic" => Some("power_settings_new")
    case "system-reboot-symbolic" => Some("restart_alt")
    case "system-suspend-symbolic" => Some("bedtime")
    case "system-lock-screen-symbolic" => Some("lock")
    case "system-log-out-symbolic" => Some("logout")
    case "media-playback-start" => Some("play_arrow")
    case "media-playback-pause" => Some("pause")
    case "media-playback-stop" => Some("stop")
    case "media-skip-backward" => Some("skip_previous")
    case "media-skip-forward" => Some("skip_next")
    case "media-seek-backward" => Some("fast_rewind")
    case "media-seek-forward" => Some("fast_forward")
    case "media-playlist-repeat" => Some("repeat")
    case "media-playlist-shuffle" => Some("shuffle")
    case "media-playback-start-symbolic" => Some("play_arrow")
    case "media-playback-pause-symbolic" => Some("pause")
    case "media-playback-stop-symbolic" => Some("stop")
    case "media-skip-backward-symbolic" => Some("skip_previous")
    case "media-skip-forward-symbolic" => Some("skip_next")
    case "media-seek-backward-symbolic" => Some("fast_rewind")
    case "media-seek-forward-symbolic" => Some("fast_forward")
    case "media-playlist-repeat-symbolic" => Some("repeat")
    case "media-playlist-shuffle-symbolic" => Some("shuffle")
    case "window-new-symbolic" => Some("open_in_new")
    case "view-fullscreen-symbolic" => Some("fullscreen")
    case "process-working-symbolic" => Some("progress_activity")
    case _ => None
  }

  /** The table of `gtk_icon_candidates`: for a known logical name, its
      freedesktop names best first, stored as head and tail. */
  function GtkTable(name: string): Option<(string, seq<string>)> {
    match name
    case "battery-full" => Some(("battery-level-100-symbolic", ["battery-full-symbolic", "battery-good-symbolic", "battery-symbolic"]))
    case "battery-high" => Some(("battery-level-80-symbolic", ["battery-good-symbolic", "battery-full-symbolic", "battery-symbolic"]))
    case "battery-medium-high" => Some(("battery-level-60-symbolic", ["battery-good-symbolic", "battery-symbolic"]))
    case "battery-medium" => Some(("battery-level-50-symbolic", ["battery-good-symbolic", "battery-symbolic"]))
    case "battery-medium-low" => Some(("battery-level-30-symbolic", ["battery-caution-symbolic", "battery-low-symbolic", "battery-symbolic"]))
    case "battery-low" => Some(("battery-level-20-symbolic", ["battery-low-symbolic", "battery-caution-symbolic", "battery-symbolic"]))
    case "battery-critical" => Some(("battery-level-10-symbolic", ["battery-caution-symbolic", "battery-empty-symbolic", "battery-low-symbolic", "battery-symbolic"]))
    case "battery-missing" => Some(("battery-missing-symbolic", ["battery-empty-symbolic", "battery-caution-symbolic", "battery-symbolic"]))
    case "battery-full-charging" => Some(("battery-level-100-charged-symbolic", ["battery-full-charging-symbolic", "battery-good-charging-symbolic", "battery-full-symbolic", "battery-symbolic"]))
    case "battery-high-charging" => Some(("battery-level-80-charging-symbolic", ["battery-good-charging-symbolic", "battery-full-charging-symbolic", "battery-good-symbolic", "battery-symbolic"]))
    case "battery-medium-high-charging" => Some(("battery-level-60-charging-symbolic", ["battery-good-charging-symbolic", "battery-good-symbolic", "battery-symbolic"]))
    case "battery-medium-charging" => Some(("battery-level-50-charging-symbolic", ["battery-good-charging-symbolic", "battery-good-symbolic", "battery-symbolic"]))
    case "battery-medium-low-charging" => Some(("battery-level-30-charging-symbolic", ["battery-low-charging-symbolic", "battery-caution-symbolic", "battery-symbolic"]))
    case "battery-low-charging" => Some(("battery-level-20-charging-symbolic", ["battery-low-charging-symbolic", "battery-caution-charging-symbolic", "battery-low-symbolic", "battery-symbolic"]))
    case "battery-critical-charging" => Some(("battery-level-10-charging-symbolic", ["battery-caution-charging-symbolic", "battery-empty-charging-symbolic", "battery-caution-symbolic", "battery-symbolic"]))
    case "notifications" => Some(("preferences-system-notifications-symbolic", ["notification-symbolic", "bell-symbolic"]))
    case "notifications-disabled" => Some(("notifications-disabled-symbolic", ["notification-disabled-symbolic", "preferences-system-notifications-symbolic"]))
    case "notifications-active" => Some(("preferences-system-notifications-symbolic", ["notification-symbolic", "bell-symbolic"]))
    case "display-brightness-off-symbolic" => Some(("display-brightness-off-symbolic", ["display-brightness-symbolic", "brightness-display-symbolic"]))
    case "display-brightness-low-symbolic" => Some(("display-brightness-low-symbolic", ["display-brightness-symbolic", "brightness-display-symbolic"]))
    case "display-brightness-medium-symbolic" => Some(("display-brightness-medium-symbolic", ["display-brightness-symbolic", "brightness-display-symbolic"]))
    case "display-brightness-high-symbolic" => Some(("display-brightness-high-symbolic", ["display-brightness-symbolic", "brightness-display-symbolic"]))
    case "display-brightness-symbolic" => Some(("display-brightness-symbolic", ["display-brightness-medium-symbolic", "brightness-display-symbolic"]))
    case "audio-volume-muted-symbolic" => Some(("audio-volume-muted-symbolic", ["audio-volume-muted", "audio-volume-low-symbolic"]))
    case "audio-volume-low-symbolic" => Some(("audio-volume-low-symbolic", ["audio-volume-low", "audio-volume-medium-symbolic"]))
    case "audio-volume-medium-symbolic" => Some(("audio-volume-medium-symbolic", ["audio-volume-medium", "audio-volume-high-symbolic"]))
    case "audio-volume-high-symbolic" => Some(("audio-volume-high-symbolic", ["audio-volume-high", "audio-volume-medium-symbolic"]))
    case "audio-volume-muted" => Some(("audio-volume-muted", ["audio-volume-muted-symbolic"]))
    case "audio-volume-low" => Some(("audio-volume-low", ["audio-volume-low-symbolic"]))
    case "audio-volume-medium" => Some(("audio-volume-medium", ["audio-volume-medium-symbolic"]))
    case "audio-volume-high" => Some(("audio-volume-high", ["audio-volume-high-symbolic"]))
    case "microphone-sensitivity-muted-symbolic" => Some(("microphone-sensitivity-muted-symbolic", ["audio-input-microphone-muted-symbolic", "microphone-disabled-symbolic"]))
    case "microphone-sensitivity-low-symbolic" => Some(("microphone-sensitivity-low-symbolic", ["audio-input-microphone-symbolic", "microphone-symbolic"]))
    case "microphone-sensitivity-medium-symbolic" => Some(("microphone-sensitivity-medium-symbolic", ["audio-input-microphone-symbolic", "microphone-symbolic"]))
    case "microphone-sensitivity-high-symbolic" => Some(("microphone-sensitivity-high-symbolic", ["audio-input-microphone-symbolic", "microphone-symbolic"]))
    case "audio-input-microphone-symbolic" => Some(("audio-input-microphone-symbolic", ["microphone-sensitivity-high-symbolic", "microphone-symbolic"]))
    case "audio-input-microphone-muted-symbolic" => Some(("audio-input-microphone-muted-symbolic", ["microphone-sensitivity-muted-symbolic", "microphone-disabled-symbolic"]))
    case "object-select-symbolic" => Some(("object-select-symbolic", ["emblem-ok-symbolic", "emblem-default-symbolic"]))
    case "radio-symbolic" => Some(("radio-symbolic", ["radio-mixed-symbolic"]))
    case "radio-checked-symbolic" => Some(("radio-checked-symbolic", ["radio-symbolic"]))
    case "network-wireless-signal-excellent-symbolic" => Some(("network-wireless-signal-excellent-symbolic", ["network-wireless-connected-symbolic", "network-wireless-symbolic"]))
    case "network-wireless-signal-good-symbolic" => Some(("network-wireless-signal-good-symbolic", ["network-wireless-signal-excellent-symbolic", "network-wireless-symbolic"]))
    case "network-wireless-signal-ok-symbolic" => Some(("network-wireless-signal-ok-symbolic", ["network-wireless-signal-good-symbolic", "network-wireless-symbolic"]))
    case "network-wireless-signal-weak-symbolic" => Some(("network-wireless-signal-weak-symbolic", ["network-wireless-signal-ok-symbolic", "network-wireless-symbolic"]))
    case "network-wireless-signal-none-symbolic" => Some(("network-wireless-signal-none-symbolic", ["network-wireless-signal-weak-symbolic", "network-wireless-symbolic"]))
    case "network-wireless-offline-symbolic" => Some(("network-wireless-offline-symbolic", ["network-wireless-disabled-symbolic", "network-wireless-signal-none-symbolic", "network-wireless-symbolic"]))
    case "network-offline-symbolic" => Some(("network-offline-symbolic", ["network-error-symbolic", "network-wired-offline-symbolic", "network-wired-symbolic"]))
    case "wifi-off" => Some(("network-wireless-offline-symbolic", ["network-wireless-signal-none-symbolic", "network-wireless-symbolic"]))
    case "bluetooth-symbolic" => Some(("bluetooth-symbolic", ["bluetooth-active-symbolic", "bluetooth"]))
    case "bluetooth-active-symbolic" => Some(("bluetooth-active-symbolic", ["bluetooth-symbolic", "bluetooth"]))
    case "bluetooth-disabled-symbolic" => Some(("bluetooth-disabled-symbolic", ["bluetooth-symbolic", "bluetooth"]))
    case "audio-headphones" => Some(("audio-headphones-symbolic", ["audio-headphones", "audio-headset-symbolic"]))
    case "audio-headphones-symbolic" => Some(("audio-headphones-symbolic", ["audio-headphones", "audio-headset-symbolic"]))
    case "audio-headset" => Some(("audio-headset-symbolic", ["audio-headset", "audio-headphones-symbolic"]))
    case "audio-headset-symbolic" => Some(("audio-headset-symbolic", ["audio-headset", "audio-headphones-symbolic"]))
    case "audio-card" => Some(("audio-card-symbolic", ["audio-card", "audio-speakers-symbolic"]))
    case "audio-card-symbolic" => Some(("audio-card-symbolic", ["audio-card", "audio-speakers-symbolic"]))
    case "audio-speakers" => Some(("audio-speakers-symbolic", ["audio-speakers", "audio-card-symbolic"]))
    case "audio-speakers-symbolic" => Some(("audio-speakers-symbolic", ["audio-speakers", "audio-card-symbolic"]))
    case "input-keyboard" => Some(("input-keyboard-symbolic", ["input-keyboard"]))
    case "input-keyboard-symbolic" => Some(("input-keyboard-symbolic", ["input-keyboard"]))
    case "input-mouse" => Some(("input-mouse-symbolic", ["input-mouse"]))
    case "input-mouse-symbolic" => Some(("input-mouse-symbolic", ["input-mouse"]))
    case "input-gaming" => Some(("input-gaming-symbolic", ["input-gaming"]))
    case "input-gaming-symbolic" => Some(("input-gaming-symbolic", ["input-gaming"]))
    case "phone" => Some(("phone-symbolic", ["phone", "smartphone-symbolic"]))
    case "phone-symbolic" => Some(("phone-symbolic", ["phone", "smartphone-symbolic"]))
    case "computer" => Some(("computer-symbolic", ["computer"]))
    case "computer-symbolic" => Some(("computer-symbolic", ["computer"]))
    case "network-vpn" => Some(("network-vpn-symbolic", ["network-vpn"]))
    case "network-vpn-symbolic" => Some(("network-vpn-symbolic", ["network-vpn"]))
    case "network-vpn-acquiring-symbolic" => Some(("network-vpn-acquiring-symbolic", ["network-vpn-symbolic", "network-vpn"]))
    case "network-vpn-connected-symbolic" => Some(("network-vpn-symbolic", ["network-vpn"]))
    case "network-vpn-disconnected-symbolic" => Some(("network-vpn-disconnected-symbolic", ["network-vpn-no-route-symbolic", "network-vpn-symbolic", "network-vpn"]))
    case "night-light-symbolic" => Some(("night-light-symbolic", ["preferences-system-time-symbolic", "alarm-symbolic"]))
    case "preferences-system-time-symbolic" => Some(("preferences-system-time-symbolic", ["night-light-symbolic", "alarm-symbolic"]))
    case "software-update-available" => Some(("software-update-available-symbolic", ["software-update-available", "system-software-update-symbolic", "software-update-urgent-symbolic"]))
    case "software-update-urgent" => Some(("software-update-urgent-symbolic", ["software-update-urgent", "software-update-available-symbolic", "system-software-update-symbolic"]))
    case "system-shutdown-symbolic" => Some(("system-shutdown-symbolic", ["system-shutdown", "gnome-shutdown"]))
    case "system-reboot-symbolic" => Some(("system-reboot-symbolic", ["system-reboot", "view-refresh-symbolic"]))
    case "system-suspend-symbolic" => Some(("system-suspend-symbolic", ["system-suspend", "weather-clear-night-symbolic"]))
    case "system-lock-screen-symbolic" => Some(("system-lock-screen-symbolic", ["system-lock-screen", "changes-prevent-symbolic"]))
    case "system-log-out-symbolic" => Some(("system-log-out-symbolic", ["system-log-out", "application-exit-symbolic"]))
    case "media-playback-start" => Some(("media-playback-start-symbolic", ["media-playback-start"]))
    case "media-playback-pause" => Some(("media-playback-pause-symbolic", ["media-playback-pause"]))
    case "media-playback-stop" => Some(("media-playback-stop-symbolic", ["media-playback-stop"]))
    case "media-skip-backward" => Some(("media-skip-backward-symbolic", ["media-skip-backward"]))
    case "media-skip-forward" => Some(("media-skip-forward-symbolic", ["media-skip-forward"]))
    case "media-seek-backward" => Some(("media-seek-backward-symbolic", ["media-seek-backward"]))
    case "media-seek-forward" => Some(("media-seek-forward-symbolic", ["media-seek-forward"]))
    case "media-playlist-repeat" => Some(("media-playlist-repeat-symbolic", ["media-playlist-repeat"]))
    case "media-playlist-shuffle" => Some(("media-playlist-shuffle-symbolic", ["media-playlist-shuffle"]))
    case "media-playback-start-symbolic" => Some(("media-playback-start-symbolic", ["media-playback-start"]))
    case "media-playback-pause-symbolic" => Some(("media-playback-pause-symbolic", ["media-playback-pause"]))
    case "media-playback-stop-symbolic" => Some(("media-playback-stop-symbolic", ["media-playback-stop"]))
    case "media-skip-backward-symbolic" => Some(("media-skip-backward-symbolic", ["media-skip-backward"]))
    case "media-skip-forward-symbolic" => Some(("media-skip-forward-symbolic", ["media-skip-forward"]))
    case "media-seek-backward-symbolic" => Some(("media-seek-backward-symbolic", ["media-seek-backward"]))
    case "media-seek-forward-symbolic" => Some(("media-seek-forward-symbolic", ["media-seek-forward"]))
    case "media-playlist-repeat-symbolic" => Some(("media-playlist-repeat-symbolic", ["media-playlist-repeat"]))
    case "media-playlist-shuffle-symbolic" => Some(("media-playlist-shuffle-symbolic", ["media-playlist-shuffle"]))
    case "window-new-symbolic" => Some(("window-new-symbolic", ["window-new", "view-fullscreen-symbolic"]))
    case "view-fullscreen-symbolic" => Some(("view-fullscreen-symbolic", ["view-fullscreen"]))
    case "process-working-symbolic" => Some(("process-working-symbolic", ["view-refresh-symbolic", "emblem-synchronizing-symbolic"]))
    case _ => None
  }

  /** `material_symbol_name`: table entries map to their glyph, anything
      else (for instance a ligature name used directly) passes through. */
  function MaterialSymbolName(name: string): (glyph: string)
    ensures MaterialGlyph(name).Some? ==> glyph == MaterialGlyph(name).value
    ensures MaterialGlyph(name).None? ==> glyph == name
  {
    MaterialGlyph(name).GetOr(name)
  }

  /** `gtk_icon_candidates`: the candidates for a known name, in priority
      order; the empty list for an unknown one. */
  function GtkIconCandidates(name: string): (candidates: seq<string>)
    ensures candidates == [] <==> GtkTable(name).None?
    ensures GtkTable(name).Some? ==> candidates == [GtkTable(name).value.0] + GtkTable(name).value.1
  {
    match GtkTable(name)
    case Some((first, rest)) => [first] + rest
    case None => []
  }

  /** The battery names lead with the Adwaita level icons. */
  lemma BatteryCandidatesLeadWithLevels()
    ensures GtkIconCandidates("battery-full")[0] == "battery-level-100-symbolic"
    ensures GtkIconCandidates("battery-high")[0] == "battery-level-80-symbolic"
    ensures GtkIconCandidates("battery-medium-high")[0] == "battery-level-60-symbolic"
    ensures GtkIconCandidates("battery-medium")[0] == "battery-level-50-symbolic"
    ensures GtkIconCandidates("battery-medium-low")[0] == "battery-level-30-symbolic"
    ensures GtkIconCandidates("battery-low")[0] == "battery-level-20-symbolic"
    ensures GtkIconCandidates("battery-critical")[0] == "battery-level-10-symbolic"
    ensures GtkIconCandidates("battery-missing")[0] == "battery-missing-symbolic"
  {
  }

  lemma ChargingCandidatesLeadWithLevels()
    ensures GtkIconCandidates("battery-full-charging")[0] == "battery-level-100-charged-symbolic"
    ensures GtkIconCandidates("battery-medium-charging")[0] == "battery-level-50-charging-symbolic"
    ensures GtkIconCandidates("battery-critical-charging")[0] == "battery-level-10-charging-symbolic"
  {
  }

  lemma MaterialBatteryGlyphs()
    ensures MaterialSymbolName("battery-full") == "battery_full"
    ensures MaterialSymbolName("battery-critical") == "battery_1_bar"
    ensures MaterialSymbolName("battery-missing") == "battery_unknown"
    ensures MaterialSymbolName("battery-critical-charging") == "battery_charging_20"
  {
  }

  // ---------------------------------------------------------- resolution

  /** Position of the first candidate the theme has, or the list's length
      when it has none. */
  function FirstAvailable(candidates: seq<string>, hasIcon: string -> bool): (i: nat)
    ensures i <= |candidates|
    ensures forall j :: 0 <= j < i ==> !hasIcon(candidates[j])
    ensures i < |candidates| ==> hasIcon(candidates[i])
  {
    if candidates == [] || hasIcon(candidates[0]) then 0
    else 1 + FirstAvailable(candidates[1..], hasIcon)
  }

  /** `resolve_gtk_icon`: the first candidate the theme has, otherwise
      "image-missing". */
  function ResolveGtkIcon(candidates: seq<string>, hasIcon: string -> bool): (r: string)
    ensures var i := FirstAvailable(candidates, hasIcon);
            r == if i < |candidates| then candidates[i] else "image-missing"
    ensures r == "image-missing" || hasIcon(r)
  {
    if candidates == [] then "image-missing"
    else if hasIcon(candidates[0]) then candidates[0]
    else ResolveGtkIcon(candidates[1..], hasIcon)
  }

  /** `resolve_gtk_icon_single`: the name itself, then its "-symbolic"
      form unless it already has that suffix, then "image-missing". */
  function ResolveGtkIconSingle(name: string, hasIcon: string -> bool): (r: string)
    ensures hasIcon(name) ==> r == name
    ensures !hasIcon(name) && !EndsWith(name, "-symbolic") && hasIcon(name + "-symbolic") ==> r == name + "-symbolic"
    ensures !hasIcon(name) && (EndsWith(name, "-symbolic") || !hasIcon(name + "-symbolic")) ==> r == "image-missing"
  {
    if hasIcon(name) then name
    else if !EndsWith(name, "-symbolic") && hasIcon(name + "-symbolic") then name + "-symbolic"
    else "image-missing"
  }

  /** `gtk_icon_name`: without an icon theme the logical name is shown as
      is; with one, known names go through their candidates and unknown
      names are tried directly. */
  function GtkIconName(logical: string, theme: Option<string -> bool>): (r: string)
    ensures theme.None? ==> r == logical
    ensures theme.Some? && GtkTable(logical).Some? ==> r == ResolveGtkIcon(GtkIconCandidates(logical), theme.value)
    ensures theme.Some? && GtkTable(logical).None? ==> r == ResolveGtkIconSingle(logical, theme.value)
  {
    match theme
    case None => logical
    case Some(hasIcon) =>
      var candidates := GtkIconCandidates(logical);
      if candidates != [] then ResolveGtkIcon(candidates, hasIcon) else ResolveGtkIconSingle(logical, hasIcon)
  }

  /** With a theme, the name shown is always one the theme has, or
      "image-missing". */
  lemma ResolvedNameExists(logical: string, hasIcon: string -> bool)
    ensures var r := GtkIconName(logical, Some(hasIcon));
            r == "image-missing" || hasIcon(r)
  {
  }

  /** Characters `normalize_app_id` strips after trimming. */
  predicate IsAppIdJunk(c: char) { c == '@' || c == ':' || c == ' ' }

  /** `normalize_app_id`: trim white space, then drop leading '@', ':' and
      ' ' characters. */
  function NormalizeAppId(appId: string): (r: string)
    ensures EndsWith(Trim(appId), r)
    ensures r == [] || (!IsAppIdJunk(r[0]) && !IsWhitespace(r[|r| - 1]))
    ensures forall i :: 0 <= i < |Trim(appId)| - |r| ==> IsAppIdJunk(Trim(appId)[i])
  {
    var t := Trim(appId);
    var r := TrimStartBy(t, IsAppIdJunk);
    assert r == [] || r[|r| - 1] == t[|t| - 1];
    r
  }

  // ------------------------------------------------------------ service

  /** Rust's `eq_ignore_ascii_case`. */
  predicate EqIgnoreAsciiCase(a: string, b: string) {
    |a| == |b| && forall i :: 0 <= i < |a| ==> ToAsciiLower(a[i]) == ToAsciiLower(b[i])
  }

  /** `is_material_theme`: the trimmed name is "material" in any ASCII case. */
  function IsMaterialTheme(theme: string): (b: bool)
    ensures b <==> Lower(Trim(theme)) == "material"
  {
    LowerMatch(Trim(theme), "material");
    EqIgnoreAsciiCase(Trim(theme), "material")
  }

  /** Against a lower-case word, comparing without case is comparing the
      lower-cased text. */
  lemma LowerMatch(a: string, b: string)
    requires forall i :: 0 <= i < |b| ==> ToAsciiLower(b[i]) == b[i]
    ensures EqIgnoreAsciiCase(a, b) <==> Lower(a) == b
  {
    if EqIgnoreAsciiCase(a, b) {
      assert forall i :: 0 <= i < |a| ==> Lower(a)[i] == b[i];
    }
  }

  datatype BackendKind = Material | Gtk | Text

  /** The service's state: configured theme and weight, whether the
      Material style sheet was loaded and made the font ready, and whether a
      display (hence a GTK icon theme) exists. */
  datatype IconsService = IconsService(
    theme: string, weight: int, materialReady: bool, cssLoaded: bool, hasIconTheme: bool)

  function UsesMaterial(s: IconsService): bool { IsMaterialTheme(s.theme) }

  /** `current_backend_kind`. */
  function CurrentBackendKind(s: IconsService): (k: BackendKind)
    ensures k == Material <==> UsesMaterial(s) && s.materialReady
    ensures k == Gtk <==> !(UsesMaterial(s) && s.materialReady) && s.hasIconTheme
    ensures k == Text <==> !(UsesMaterial(s) && s.materialReady) && !s.hasIconTheme
  {
    if UsesMaterial(s) && s.materialReady then Material
    else if s.hasIconTheme then Gtk
    else Text
  }

  /** `ensure_material_css`: runs once until the loaded flag is reset; the
      font becomes ready only when a display exists. */
  function EnsureMaterialCss(s: IconsService, hasDisplay: bool): (t: IconsService)
    ensures t.cssLoaded
    ensures t.theme == s.theme && t.weight == s.weight && t.hasIconTheme == s.hasIconTheme
    ensures s.cssLoaded ==> t == s
    ensures !s.cssLoaded ==> t.materialReady == (s.materialReady || hasDisplay)
  {
    if s.cssLoaded then s
    else s.(cssLoaded := true, materialReady := s.materialReady || hasDisplay)
  }

  /** `IconsService::new`: the icon theme exists iff a display does; a
      Material theme loads its style sheet at once. */
  function NewService(theme: string, weight: int, hasDisplay: bool): (s: IconsService)
    ensures s.theme == theme && s.weight == weight && s.hasIconTheme == hasDisplay
    ensures s.materialReady <==> IsMaterialTheme(theme) && hasDisplay
  {
    var s := IconsService(theme, weight, false, false, hasDisplay);
    if IsMaterialTheme(theme) then EnsureMaterialCss(s, hasDisplay) else s
  }

  /** `reconfigure`: nothing happens when theme and weight are unchanged;
      otherwise both are stored, and the Material style sheet is reloaded
      when switching to Material or changing the weight under Material. */
  function Reconfigure(s: IconsService, theme: string, weight: int, hasDisplay: bool): (t: IconsService)
    ensures s.theme == theme && s.weight == weight ==> t == s
    ensures t.theme == theme && t.weight == weight && t.hasIconTheme == s.hasIconTheme
    ensures (s.theme != theme || s.weight != weight) && IsMaterialTheme(theme)
              && (!IsMaterialTheme(s.theme) || s.weight != weight) ==>
              t.cssLoaded && t.materialReady == (s.materialReady || hasDisplay)
    ensures !IsMaterialTheme(theme) ==> t.materialReady == s.materialReady && t.cssLoaded == s.cssLoaded
  {
    if s.theme == theme && s.weight == weight then s
    else
      var u := s.(theme := theme, weight := weight);
      var switching := IsMaterialTheme(theme) && !IsMaterialTheme(s.theme);
      if IsMaterialTheme(theme) && (switching || s.weight != weight)
      then EnsureMaterialCss(u.(cssLoaded := false), hasDisplay)
      else u
  }

  /** Reconfiguring twice with the same values is the same as once. */
  lemma ReconfigureIdempotent(s: IconsService, theme: string, weight: int, hasDisplay: bool)
    ensures var t := Reconfigure(s, theme, weight, hasDisplay);
            Reconfigure(t, theme, weight, hasDisplay) == t
  {
  }

  /** Switching to Material with a display gives the Material backend;
      switching away from it, the GTK backend when an icon theme exists and
      text otherwise (the unit test's service has no icon theme). */
  lemma BackendAfterReconfigure(s: IconsService, theme: string, weight: int, hasDisplay: bool)
    ensures IsMaterialTheme(theme) && !IsMaterialTheme(s.theme) && hasDisplay ==>
              CurrentBackendKind(Reconfigure(s, theme, weight, hasDisplay)) == Material
    ensures !IsMaterialTheme(theme) ==>
              CurrentBackendKind(Reconfigure(s, theme, weight, hasDisplay)) == (if s.hasIconTheme then Gtk else Text)
  {
  }

  /** `apply_icon`: what an icon shows for a logical name under each
      backend. */
  function DisplayedIcon(kind: BackendKind, logical: string, theme: Option<string -> bool>): (shown: string)
    ensures kind == Material ==> shown == MaterialSymbolName(logical)
    ensures kind == Gtk ==> shown == GtkIconName(logical, theme)
    ensures kind == Text ==> shown == logical
  {
    match kind
    case Material => MaterialSymbolName(logical)
    case Gtk => GtkIconName(logical, theme)
    case Text => logical
  }
}
