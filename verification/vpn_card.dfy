/*
 * The VPN card of Quick Settings (`widgets/quick_settings/vpn_card.rs`):
 * what the card shows for a VPN snapshot, and the bookkeeping that lets
 * an external password dialog take the keyboard while a connection the
 * user started is pending, and gives it back once that connection settles.
 *
 * The window reference is reduced to whether a Quick Settings window is
 * open; releasing and restoring the keyboard grab are returned flags.
 */
module VpnCard {
  import opened Common
  import opened Sorting
  import opened UiHelpers
  import opened Vpn

  const VPN_ICON: string := "network-vpn"

  /** The process-wide keyboard bookkeeping (`VpnKeyboardState`). */
  datatype KeyboardState = KeyboardState(
    pendingConnects: set<string>,
    pendingDisconnects: set<string>,
    keyboardReleased: bool,
    windowOpen: bool)

  const INITIAL_KEYBOARD := KeyboardState({}, {}, false, false)

  /** `begin_connect`: remember the UUID and, when a window is open,
      release its keyboard grab. The flag says whether it was released. */
  function BeginConnect(k: KeyboardState, uuid: string): (r: (KeyboardState, bool))
    ensures r.0.pendingConnects == k.pendingConnects + {uuid}
    ensures r.0.pendingDisconnects == k.pendingDisconnects && r.0.windowOpen == k.windowOpen
    ensures r.1 <==> k.windowOpen
    ensures r.0.keyboardReleased <==> k.keyboardReleased || k.windowOpen
  {
    var k1 := k.(pendingConnects := k.pendingConnects + {uuid});
    if k.windowOpen then (k1.(keyboardReleased := true), true) else (k1, false)
  }

  /** `begin_disconnect`. */
  function BeginDisconnect(k: KeyboardState, uuid: string): (r: KeyboardState)
    ensures r.pendingDisconnects == k.pendingDisconnects + {uuid}
    ensures r.pendingConnects == k.pendingConnects && r.keyboardReleased == k.keyboardReleased
  {
    k.(pendingDisconnects := k.pendingDisconnects + {uuid})
  }

  /** `restore_if_released`: the flag says whether an open window got its
      keyboard mode back. */
  function RestoreIfReleased(k: KeyboardState): (r: (KeyboardState, bool))
    ensures !r.0.keyboardReleased
    ensures r.1 <==> k.keyboardReleased && k.windowOpen
    ensures r.0.pendingConnects == k.pendingConnects && r.0.pendingDisconnects == k.pendingDisconnects
  {
    if k.keyboardReleased then (k.(keyboardReleased := false), k.windowOpen) else (k, false)
  }

  /** `clear`, run when the panel closes. */
  function Clear(k: KeyboardState): (r: (KeyboardState, bool))
    ensures r.0 == INITIAL_KEYBOARD
    ensures r.1 <==> k.keyboardReleased && k.windowOpen
  {
    var (k1, restored) := RestoreIfReleased(k);
    (k1.(pendingConnects := {}, pendingDisconnects := {}, windowOpen := false), restored)
  }

  /** The state of the first connection with this UUID, the one
      `iter().find` reaches. */
  function StateOf(snap: VpnSnapshot, uuid: string): Option<VpnState> {
    match FirstWhere(snap.connections, HasUuid(uuid))
    case None => None
    case Some(i) => Some(snap.connections[i].state)
  }

  /** The state found is that of the first connection with the UUID, and
      none is found only when no connection has it. */
  lemma StateOfFirst(snap: VpnSnapshot, uuid: string)
    ensures StateOf(snap, uuid).None? <==> forall i :: 0 <= i < |snap.connections| ==> snap.connections[i].uuid != uuid
    ensures forall i :: 0 <= i < |snap.connections| && snap.connections[i].uuid == uuid &&
                        (forall k :: 0 <= k < i ==> snap.connections[k].uuid != uuid) ==>
              StateOf(snap, uuid) == Some(snap.connections[i].state)
  {
    var r := FirstWhere(snap.connections, HasUuid(uuid));
    assert r.Some? ==> HasUuid(uuid)(snap.connections[r.value]);
  }

  /** A pending connect settles once its connection is activated,
      deactivated, unknown or gone. */
  predicate ConnectSettled(snap: VpnSnapshot, uuid: string) {
    match StateOf(snap, uuid)
    case None => true
    case Some(s) => s != Activating && s != Deactivating
  }

  /** A pending disconnect settles once its connection is deactivated,
      unknown or gone. */
  predicate DisconnectSettled(snap: VpnSnapshot, uuid: string) {
    match StateOf(snap, uuid)
    case None => true
    case Some(s) => s == Deactivated || s == Unknown
  }

  /** `check_pending`: drop the settled entries. Connects are only looked at
      while the keyboard is released. The flags say whether an action
      completed (a connect activated, a disconnect finished) and whether
      the keyboard should be restored (some connect settled). */
  function CheckPending(k: KeyboardState, snap: VpnSnapshot): (r: (KeyboardState, bool, bool))
    ensures r.0.keyboardReleased == k.keyboardReleased && r.0.windowOpen == k.windowOpen
    ensures r.0.pendingDisconnects == set u | u in k.pendingDisconnects && !DisconnectSettled(snap, u)
    ensures k.keyboardReleased ==> r.0.pendingConnects == set u | u in k.pendingConnects && !ConnectSettled(snap, u)
    ensures !k.keyboardReleased ==> r.0.pendingConnects == k.pendingConnects
    ensures r.2 <==> k.keyboardReleased && exists u :: u in k.pendingConnects && ConnectSettled(snap, u)
    ensures r.1 <==> (k.keyboardReleased && exists u :: u in k.pendingConnects && StateOf(snap, u) == Some(Activated))
                     || exists u :: u in k.pendingDisconnects && DisconnectSettled(snap, u)
  {
    if k.pendingConnects == {} && k.pendingDisconnects == {} then (k, false, false)
    else
      var connects :=
        if k.keyboardReleased then set u | u in k.pendingConnects && !ConnectSettled(snap, u) else k.pendingConnects;
      var disconnects := set u | u in k.pendingDisconnects && !DisconnectSettled(snap, u);
      var activated := k.keyboardReleased && exists u :: u in k.pendingConnects && StateOf(snap, u) == Some(Activated);
      var restore := k.keyboardReleased && exists u :: u in k.pendingConnects && ConnectSettled(snap, u);
      var finished := exists u :: u in k.pendingDisconnects && DisconnectSettled(snap, u);
      (k.(pendingConnects := connects, pendingDisconnects := disconnects), activated || finished, restore)
  }

  /** The password-dialog round trip: a connect started from an open panel
      releases the keyboard, and the snapshot in which that connection is
      activated completes the action, clears it and asks for the keyboard
      back. */
  lemma ConnectReleasesThenRestores(k: KeyboardState, uuid: string, snap: VpnSnapshot)
    requires k.windowOpen && k.pendingConnects == {}
    requires StateOf(snap, uuid) == Some(Activated)
    ensures var (k1, released) := BeginConnect(k, uuid);
            var (k2, completed, restore) := CheckPending(k1, snap);
            && released && completed && restore && k2.pendingConnects == {}
            && RestoreIfReleased(k2) == (k2.(keyboardReleased := false), true)
  {
    var (k1, _) := BeginConnect(k, uuid);
    assert k1.pendingConnects == {uuid};
    var k2 := CheckPending(k1, snap).0;
    assert uuid !in k2.pendingConnects;
  }

  /** A connection still activating keeps its entry and the keyboard. */
  lemma ActivatingKeepsWaiting(k: KeyboardState, snap: VpnSnapshot, uuid: string)
    requires k.keyboardReleased && uuid in k.pendingConnects
    requires StateOf(snap, uuid) == Some(Activating)
    ensures uuid in CheckPending(k, snap).0.pendingConnects
  {
  }

  // ------------------------------------------------------------- display

  /** The card subtitle of `on_vpn_changed`. */
  function CardSubtitle(snap: VpnSnapshot): (t: string)
    ensures !snap.available ==> t == "Unavailable"
    ensures snap.available && !snap.isReady ==> t == "VPN"
    ensures snap.available && snap.isReady && snap.connections == [] ==> t == "No connections"
    ensures snap.available && snap.isReady && snap.connections != [] ==>
              t == (if Primary(snap).value.active then Primary(snap).value.name else "Disconnected")
  {
    if !snap.available then "Unavailable"
    else if !snap.isReady then "VPN"
    else match Primary(snap)
      case Some(p) => if p.active then p.name else "Disconnected"
      case None => "No connections"
  }

  /** The card toggle: on when the primary connection is active, usable
      when the service is available and knows a connection. */
  function Toggle(snap: VpnSnapshot): (r: (bool, bool))
    ensures r.0 <==> exists i :: 0 <= i < |snap.connections| && snap.connections[i].active
    ensures r.1 <==> snap.available && snap.connections != []
  {
    var primary := Primary(snap);
    (primary.Some? && primary.value.active, snap.available && snap.connections != [])
  }

  /** The muted extras of a row: autoconnect, then the VPN flavour. */
  function ExtraParts(c: VpnConnection): (parts: seq<string>)
    ensures "Autoconnect" in parts <==> c.autoconnect
    ensures "WireGuard" in parts <==> c.vpnType == "wireguard"
    ensures "OpenVPN" in parts <==> c.vpnType == "vpn"
    ensures |parts| <= 2
  {
    (if c.autoconnect then ["Autoconnect"] else [])
    + (if c.vpnType == "wireguard" then ["WireGuard"] else if c.vpnType == "vpn" then ["OpenVPN"] else [])
  }

  /** A row subtitle: an accent "Active" for an active connection, a plain
      "Inactive" line otherwise, each followed by the extras. */
  datatype RowSubtitle = Accent(labels: AccentSubtitle) | Plain(text: string)

  function RowSubtitleOf(c: VpnConnection): (s: RowSubtitle)
    ensures s.Accent? <==> c.active
    ensures s.Accent? ==> s.labels == BuildAccentSubtitle("Active", ExtraParts(c))
    ensures s.Plain? ==> s.text == Join(["Inactive"] + ExtraParts(c), BULLET)
  {
    if c.active then Accent(BuildAccentSubtitle("Active", ExtraParts(c)))
    else Plain(Join(["Inactive"] + ExtraParts(c), BULLET))
  }

  /** Text as read on screen. */
  function Text(s: RowSubtitle): string {
    match s
    case Accent(labels) => labels.accent + labels.rest.GetOr("")
    case Plain(text) => text
  }

  lemma JoinCons(w: string, xs: seq<string>, sep: string)
    ensures Join([w] + xs, sep) == if xs == [] then w else w + sep + Join(xs, sep)
  {
    if xs != [] {
      assert ([w] + xs)[1..] == xs;
    }
  }

  /** Both row styles read the same way: the state word, then the extras,
      separated by bullets. */
  lemma RowSubtitleReads(c: VpnConnection)
    ensures Text(RowSubtitleOf(c)) == Join([if c.active then "Active" else "Inactive"] + ExtraParts(c), BULLET)
  {
    if c.active {
      AccentReads("Active", ExtraParts(c));
    }
  }

  lemma AccentReads(w: string, xs: seq<string>)
    ensures Text(Accent(BuildAccentSubtitle(w, xs))) == Join([w] + xs, BULLET)
  {
    JoinCons(w, xs, BULLET);
    if xs != [] {
      var j := Join(xs, BULLET);
      assert BuildAccentSubtitle(w, xs).rest == Some(BULLET + j);
      assert w + (BULLET + j) == w + BULLET + j;
    }
  }

  /** The list placeholder, when the list shows one. */
  function Placeholder(snap: VpnSnapshot): (r: Option<string>)
    ensures !snap.isReady ==> r == Some("Loading VPN state...")
    ensures snap.isReady ==> (r.Some? <==> snap.connections == [])
    ensures snap.isReady && r.Some? ==> r.value == "No VPN connections"
  {
    if !snap.isReady then Some("Loading VPN state...")
    else if snap.connections == [] then Some("No VPN connections")
    else None
  }
}
