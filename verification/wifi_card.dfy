/*
 * The Wi-Fi card of Quick Settings (`widgets/quick_settings/wifi_card.rs`):
 * icon choice, the card subtitle, the per-network badges, and how the
 * inline password prompt reacts to the service's connection results.
 *
 * The card reads its own revision of the network snapshot, which also
 * knows about wired connections and the presence of a Wi-Fi device; only
 * those fields are modelled. Widgets become the values they display.
 */
module WifiCard {
  import opened Common
  import opened UiHelpers

  const WIRED_ICON: string := "network-wired-symbolic"
  const OFFLINE_ICON: string := "network-wireless-offline-symbolic"
  const EXCELLENT_ICON: string := "network-wireless-signal-excellent-symbolic"
  const GOOD_ICON: string := "network-wireless-signal-good-symbolic"
  const OK_ICON: string := "network-wireless-signal-ok-symbolic"
  const WEAK_ICON: string := "network-wireless-signal-weak-symbolic"
  const NONE_ICON: string := "network-wireless-signal-none-symbolic"

  /** `wifi_icon_name`: a wired connection wins, a machine without Wi-Fi
      shows the wired icon, and otherwise the icon says whether Wi-Fi is
      on and connected. */
  function WifiIconName(connected: bool, wifiEnabled: bool, wiredConnected: bool, hasWifiDevice: bool): (icon: string)
    ensures wiredConnected || !hasWifiDevice ==> icon == WIRED_ICON
    ensures !wiredConnected && hasWifiDevice ==> (icon == EXCELLENT_ICON <==> wifiEnabled && connected)
    ensures !wiredConnected && hasWifiDevice && !(wifiEnabled && connected) ==> icon == OFFLINE_ICON
  {
    if wiredConnected then WIRED_ICON
    else if !hasWifiDevice then WIRED_ICON
    else if !wifiEnabled then OFFLINE_ICON
    else if connected then EXCELLENT_ICON
    else OFFLINE_ICON
  }

  /** The number of signal bars an icon shows. */
  function Bars(icon: string): int {
    if icon == EXCELLENT_ICON then 4 else if icon == GOOD_ICON then 3 else if icon == OK_ICON then 2
    else if icon == WEAK_ICON then 1 else 0
  }

  /** `wifi_strength_icon`: thresholds 70, 60, 40 and 20. */
  function WifiStrengthIcon(level: int): (icon: string)
    ensures icon == EXCELLENT_ICON <==> level >= 70
    ensures icon == GOOD_ICON <==> 60 <= level < 70
    ensures icon == OK_ICON <==> 40 <= level < 60
    ensures icon == WEAK_ICON <==> 20 <= level < 40
    ensures icon == NONE_ICON <==> level < 20
  {
    if level >= 70 then EXCELLENT_ICON
    else if level >= 60 then GOOD_ICON
    else if level >= 40 then OK_ICON
    else if level >= 20 then WEAK_ICON
    else NONE_ICON
  }

  /** A stronger signal never shows fewer bars. */
  lemma StrengthIconMonotone(a: int, b: int)
    requires a <= b
    ensures Bars(WifiStrengthIcon(a)) <= Bars(WifiStrengthIcon(b))
  {
  }

  /** The fields of the card's snapshot that the subtitle reads. */
  datatype CardSnapshot = CardSnapshot(
    wifiEnabled: Option<bool>,
    wiredConnected: bool,
    hasWifiDevice: bool,
    ssid: Option<string>,
    connectingSsid: Option<string>,
    failedSsid: Option<string>)

  /** `get_network_subtitle_text`. */
  function SubtitleText(s: CardSnapshot): (t: string)
    ensures s.wiredConnected && s.connectingSsid.Some? ==> t == "Ethernet" + BULLET + "Connecting to " + s.connectingSsid.value
    ensures s.wiredConnected && s.connectingSsid.None? && s.ssid.Some? ==> t == "Ethernet" + BULLET + s.ssid.value
    ensures s.wiredConnected && s.connectingSsid.None? && s.ssid.None? ==> t == "Ethernet"
    ensures !s.wiredConnected && s.connectingSsid.Some? ==> t == "Connecting to " + s.connectingSsid.value
    ensures !s.wiredConnected && s.connectingSsid.None? && s.ssid.Some? ==> t == s.ssid.value
    ensures !s.wiredConnected && s.connectingSsid.None? && s.ssid.None? ==>
              t == (if s.hasWifiDevice && !s.wifiEnabled.GetOr(false) then "Off" else "Disconnected")
  {
    var wifiEnabled := s.wifiEnabled.GetOr(false);
    if s.wiredConnected then
      if s.connectingSsid.Some? then "Ethernet" + BULLET + "Connecting to " + s.connectingSsid.value
      else if s.ssid.Some? then "Ethernet" + BULLET + s.ssid.value
      else "Ethernet"
    else if s.connectingSsid.Some? then "Connecting to " + s.connectingSsid.value
    else if s.ssid.Some? then s.ssid.value
    else if !s.hasWifiDevice then "Disconnected"
    else if wifiEnabled then "Disconnected"
    else "Off"
  }

  /** `is_network_subtitle_active`. */
  predicate SubtitleActive(s: CardSnapshot) {
    (s.wiredConnected || s.ssid.Some?) && s.connectingSsid.None?
  }

  /** The subtitle is styled active exactly when it names a settled
      connection: "Ethernet…" or a bare SSID, never "Connecting…", "Off"
      or "Disconnected". */
  lemma ActiveSubtitleNamesConnection(s: CardSnapshot)
    ensures SubtitleActive(s) ==> s.wiredConnected || SubtitleText(s) == s.ssid.value
    ensures s.connectingSsid.Some? ==> !SubtitleActive(s)
    ensures !SubtitleActive(s) && s.connectingSsid.None? ==> SubtitleText(s) in {"Off", "Disconnected"}
  {
  }

  /** The badges of one network row: "Connecting..." while connecting to
      it, "Secured" unless it is open, "Saved" when known but not while
      connecting, and always the strength. */
  function RowBadges(ssid: string, security: string, known: bool, strength: int, connectingSsid: Option<string>): (parts: seq<string>)
    ensures |parts| >= 1 && parts[|parts| - 1] == IntToString(strength) + "%"
    ensures "Connecting..." in parts <==> connectingSsid == Some(ssid)
    ensures "Secured" in parts <==> security != "open"
    ensures "Saved" in parts <==> known && connectingSsid != Some(ssid)
  {
    var isConnecting := connectingSsid == Some(ssid);
    var pct := IntToString(strength) + "%";
    PercentIsNoBadge(strength);
    (if isConnecting then ["Connecting..."] else [])
    + (if security != "open" then ["Secured"] else [])
    + (if known && !isConnecting then ["Saved"] else [])
    + [pct]
  }

  lemma PercentIsNoBadge(strength: int)
    ensures IntToString(strength) + "%" != "Connecting..."
    ensures IntToString(strength) + "%" != "Secured"
    ensures IntToString(strength) + "%" != "Saved"
  {
    var t := IntToString(strength) + "%";
    assert t[|t| - 1] == '%';
  }

  // ------------------------------------------------------ password prompt

  /** What the card does with a new snapshot while or before prompting. */
  datatype PromptAction =
    | ShowWrongPassword   // re-enable the form, say "Wrong password", clear the failure
    | HidePrompt          // the target connected
    | OpenPromptWithError(ssid: string)
    | ClearFailure        // the failure arrived while the window is closed
    | NoPromptChange

  /** The prompt's state: the SSID whose password is asked for. */
  datatype Prompt = Prompt(target: Option<string>)

  /** `show_password_dialog_with_error`'s target: the trimmed SSID, and no
      change at all for a blank one. */
  function OpenPrompt(p: Prompt, ssid: string): (r: Prompt)
    ensures Trim(ssid) == [] ==> r == p
    ensures Trim(ssid) != [] ==> r.target == Some(Trim(ssid))
  {
    if Trim(ssid) == [] then p else Prompt(Some(Trim(ssid)))
  }

  /** The password-prompt part of `on_network_changed`. The returned flag
      says whether the service is asked to clear its failed state. */
  function OnNetworkChanged(p: Prompt, s: CardSnapshot, windowMapped: bool): (r: (Prompt, PromptAction, bool))
    ensures p.target.Some? && s.failedSsid == p.target ==> r == (p, ShowWrongPassword, true)
    ensures p.target.Some? && s.failedSsid.Some? && s.failedSsid != p.target ==> r == (p, NoPromptChange, false)
    ensures p.target.Some? && s.failedSsid.None? && s.ssid == p.target && s.connectingSsid.None? ==>
              r == (Prompt(None), HidePrompt, false)
    ensures p.target.Some? && s.failedSsid.None? && (s.ssid != p.target || s.connectingSsid.Some?) ==>
              r == (p, NoPromptChange, false)
    ensures p.target.None? && s.failedSsid.Some? && windowMapped ==>
              r == (OpenPrompt(p, s.failedSsid.value), OpenPromptWithError(s.failedSsid.value), false)
    ensures p.target.None? && s.failedSsid.Some? && !windowMapped ==> r == (p, ClearFailure, true)
    ensures p.target.None? && s.failedSsid.None? ==> r == (p, NoPromptChange, false)
  {
    match p.target
    case Some(target) =>
      if s.failedSsid.Some? then
        if s.failedSsid.value == target then (p, ShowWrongPassword, true) else (p, NoPromptChange, false)
      else if s.ssid == Some(target) && s.connectingSsid.None? then (Prompt(None), HidePrompt, false)
      else (p, NoPromptChange, false)
    case None =>
      if s.failedSsid.Some? then
        if windowMapped then (OpenPrompt(p, s.failedSsid.value), OpenPromptWithError(s.failedSsid.value), false)
        else (p, ClearFailure, true)
      else (p, NoPromptChange, false)
  }

  /** A failure that opens the prompt targets that SSID, and the next
      snapshot failing the same SSID reports the wrong password instead of
      opening the prompt again. */
  lemma FailureOpensThenReports(s: CardSnapshot, ssid: string)
    requires Trim(ssid) == ssid && ssid != []
    requires s.failedSsid == Some(ssid)
    ensures var (p, a, _) := OnNetworkChanged(Prompt(None), s, true);
            && p.target == Some(ssid) && a == OpenPromptWithError(ssid)
            && OnNetworkChanged(p, s, true) == (p, ShowWrongPassword, true)
  {
  }
}
