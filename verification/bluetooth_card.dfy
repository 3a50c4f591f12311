/*
 * The Bluetooth card of Quick Settings
 * (`widgets/quick_settings/bluetooth_card.rs`): the card icon, subtitle and
 * toggle for a Bluetooth snapshot, and what each device row shows and does.
 */
module BluetoothCard {
  import opened Common
  import opened Sorting
  import opened UiHelpers
  import opened Bluetooth

  const BT_DISABLED_ICON: string := "bluetooth-disabled-symbolic"
  const BT_ACTIVE_ICON: string := "bluetooth-active-symbolic"
  const BT_ICON: string := "bluetooth-symbolic"

  /** `bt_icon_name`. */
  function BtIconName(powered: bool, connectedDevices: nat): (icon: string)
    ensures icon == BT_DISABLED_ICON <==> !powered
    ensures icon == BT_ACTIVE_ICON <==> powered && connectedDevices > 0
    ensures icon == BT_ICON <==> powered && connectedDevices == 0
  {
    if !powered then BT_DISABLED_ICON else if connectedDevices > 0 then BT_ACTIVE_ICON else BT_ICON
  }

  /** The card subtitle of `on_bluetooth_changed`. A single connected device
      is named, the first connected one in the list. */
  function CardSubtitle(snap: Snapshot): (t: string)
    ensures !snap.hasAdapter ==> t == "Unavailable"
    ensures snap.hasAdapter && !snap.isReady ==> t == "Bluetooth"
    ensures snap.hasAdapter && snap.isReady && snap.connectedDevices > 1 ==>
              t == NatToString(snap.connectedDevices) + " connected"
    ensures snap.hasAdapter && snap.isReady && snap.connectedDevices == 0 ==>
              t == (if snap.powered then "Enabled" else "Disabled")
    ensures snap.hasAdapter && snap.isReady && snap.connectedDevices == 1 ==>
              match FirstWhere(snap.devices, IsConnected)
              case Some(i) => t == snap.devices[i].name
              case None => t == "Bluetooth"
  {
    if !snap.hasAdapter then "Unavailable"
    else if !snap.isReady then "Bluetooth"
    else if snap.connectedDevices > 0 then
      if snap.connectedDevices == 1 then
        match FirstWhere(snap.devices, IsConnected)
        case Some(i) => snap.devices[i].name
        case None => "Bluetooth"
      else NatToString(snap.connectedDevices) + " connected"
    else if snap.powered then "Enabled"
    else "Disabled"
  }

  /** With one device connected, the subtitle names the head of the list
      the service published. */
  lemma SingleConnectedNamesHead(svc: Service, adapter: Option<Adapter>,
                                 reply: Option<seq<(string, seq<(string, seq<(string, PropValue)>)>)>>)
    requires var snap := DevicesFetched(svc, adapter, reply).svc.snap;
             snap.connectedDevices == 1 && adapter.Some?
    ensures var snap := DevicesFetched(svc, adapter, reply).svc.snap;
            CardSubtitle(snap) == snap.devices[0].name
  {
    var snap := DevicesFetched(svc, adapter, reply).svc.snap;
    ConnectedFirst(svc, adapter, reply);
    assert snap.devices[0].connected;
  }

  /** The card toggle: (on, usable). */
  function Toggle(snap: Snapshot): (r: (bool, bool))
    ensures r.0 ==> r.1
    ensures r.0 <==> snap.powered && snap.hasAdapter
    ensures r.1 <==> snap.hasAdapter
  {
    (snap.powered && snap.hasAdapter, snap.hasAdapter)
  }

  /** The scan button: (visible, usable, spinning). */
  function ScanButton(snap: Snapshot): (r: (bool, bool, bool))
    ensures r.0 <==> snap.powered
    ensures r.1 <==> snap.hasAdapter && !snap.scanning
    ensures r.2 <==> snap.scanning
    ensures r.1 ==> !r.2
  {
    (snap.powered, snap.hasAdapter && !snap.scanning, snap.scanning)
  }

  /** The button is usable exactly when pressing it would start a scan. */
  lemma ScanButtonMatchesService(snap: Snapshot)
    ensures ScanButton(snap).1 <==> StartsScan(snap.hasAdapter, snap)
  {
  }

  /** The list placeholder, when the list shows one instead of rows. */
  function Placeholder(snap: Snapshot): (r: Option<string>)
    ensures !snap.hasAdapter ==> r == Some("Bluetooth unavailable")
    ensures snap.hasAdapter && !snap.powered ==> r == Some("Bluetooth is disabled")
    ensures snap.hasAdapter && snap.powered && !snap.isReady ==> r == Some("Scanning for devices...")
    ensures snap.hasAdapter && snap.powered && snap.isReady ==> (r.None? <==> snap.devices != [])
    ensures snap.hasAdapter && snap.powered && snap.isReady && r.Some? ==> r.value == "No Bluetooth devices"
  {
    if !snap.hasAdapter then Some("Bluetooth unavailable")
    else if !snap.powered then Some("Bluetooth is disabled")
    else if !snap.isReady then Some("Scanning for devices...")
    else if snap.devices == [] then Some("No Bluetooth devices")
    else None
  }

  /** A row title: the name, else the address, else "Unknown device". */
  function RowTitle(d: Device): (t: string)
    ensures t != []
    ensures d.name != [] ==> t == d.name
    ensures d.name == [] ==> t == (if d.address != [] then d.address else "Unknown device")
  {
    if d.name != [] then d.name else if d.address != [] then d.address else "Unknown device"
  }

  /** Devices the service parsed always have a name, so their row title is
      that name. */
  lemma ParsedRowTitle(path: string, props: seq<(string, PropValue)>)
    ensures RowTitle(ParseDeviceProperties(path, props)) == ParseDeviceProperties(path, props).name
  {
  }

  /** The row icon: the device's own, else the connection icon. */
  function RowIcon(d: Device): (icon: string)
    ensures d.icon.Some? ==> icon == d.icon.value
    ensures d.icon.None? ==> icon == (if d.connected then BT_ACTIVE_ICON else BT_ICON)
  {
    d.icon.GetOr(if d.connected then BT_ACTIVE_ICON else BT_ICON)
  }

  datatype RowSubtitle = Accent(labels: AccentSubtitle) | Plain(text: string) | NoSubtitle

  /** The row subtitle: connected devices get an accent word and "Paired"
      as extra, otherwise "Paired", "Saved" or nothing. */
  function RowSubtitleOf(d: Device): (s: RowSubtitle)
    ensures s.Accent? <==> d.connected
    ensures s.Accent? ==> s.labels.accent == "Connected" && (s.labels.rest.Some? <==> d.paired)
    ensures !d.connected && d.paired ==> s == Plain("Paired")
    ensures !d.connected && !d.paired && d.trusted ==> s == Plain("Saved")
    ensures s == NoSubtitle <==> !d.connected && !d.paired && !d.trusted
  {
    if d.connected then Accent(BuildAccentSubtitle("Connected", if d.paired then ["Paired"] else []))
    else if d.paired then Plain("Paired")
    else if d.trusted then Plain("Saved")
    else NoSubtitle
  }

  datatype DeviceAction = Connect | Disconnect | Pair | Forget

  /** Activating a row: disconnect a connected device, connect a known one,
      nothing for an unknown one (its "Pair" button does that). */
  function RowActivate(d: Device): (a: Option<DeviceAction>)
    ensures d.connected ==> a == Some(Disconnect)
    ensures !d.connected && (d.paired || d.trusted) ==> a == Some(Connect)
    ensures !d.connected && !d.paired && !d.trusted ==> a.None?
  {
    if d.connected then Some(Disconnect) else if d.paired || d.trusted then Some(Connect) else None
  }

  /** The row's trailing widget: a "Pair" label for an unknown device, else
      a menu of actions. */
  function RowActions(d: Device): (actions: seq<DeviceAction>)
    ensures !d.paired && !d.trusted ==> actions == [Pair]
    ensures d.paired || d.trusted ==> |actions| == 2 && actions[1] == Forget
    ensures d.paired || d.trusted ==> actions[0] == (if d.connected then Disconnect else Connect)
  {
    if !d.paired && !d.trusted then [Pair]
    else [if d.connected then Disconnect else Connect, Forget]
  }

  /** Activating a known device's row does what the first menu entry does. */
  lemma ActivateIsFirstMenuEntry(d: Device)
    requires d.paired || d.trusted
    ensures RowActivate(d) == Some(RowActions(d)[0])
  {
  }
}
