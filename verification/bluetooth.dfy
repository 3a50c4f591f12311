/*
 * The Bluetooth service (`services/bluetooth.rs`): BlueZ's managed objects
 * turned into a device list ordered connected, paired, trusted, readable
 * name before address-like name, then by name; plus the debounce and the
 * availability transitions around it.
 *
 * D-Bus proxies and their cached properties are parameters: an adapter is
 * present or not and reports `Powered`/`Discovering`; the managed-object
 * reply is a list of entries or an error.
 */
module Bluetooth {
  import opened Common
  import opened Sorting

  const DEVICE_IFACE: string := "org.bluez.Device1"

  datatype Device = Device(
    path: string, name: string, address: string, connected: bool, paired: bool, trusted: bool,
    icon: Option<string>)

  datatype Snapshot = Snapshot(
    hasAdapter: bool,
    powered: bool,
    connectedDevices: nat,
    devices: seq<Device>,
    scanning: bool,
    isReady: bool)

  /** `BluetoothSnapshot::empty`. */
  const EMPTY := Snapshot(false, false, 0, [], false, false)

  /** `is_mac_like_name`: 17 bytes long with a `-` or `:` as third
      character, the shape of an address BlueZ falls back to. */
  predicate IsMacLikeName(name: string) {
    ByteLen(name) == 17 && |name| > 2 && (name[2] == '-' || name[2] == ':')
  }

  /** Any 17-character ASCII string with a separator third is address-like,
      whatever the other characters are. */
  lemma MacLikeShape(name: string)
    requires |name| == 17 && (name[2] == ':' || name[2] == '-')
    requires AllAscii(name)
    ensures IsMacLikeName(name)
  {
    AsciiByteLen(name);
  }

  /** An address-like name has between 5 and 17 characters: the length is
      counted in UTF-8 bytes. */
  lemma MacLikeLength(name: string)
    requires IsMacLikeName(name)
    ensures 5 <= |name| <= 17
  {
    ByteLenBounds(name);
  }

  // ------------------------------------------------------------- parsing

  /** A property value as BlueZ sends it. */
  datatype PropValue = Str(s: string) | Bool(b: bool) | OtherValue

  /** One property of `parse_device_properties`: known keys of the wrong
      type reset to their defaults, unknown keys are ignored. */
  function ApplyProp(d: Device, key: string, v: PropValue): (r: Device)
    ensures r.path == d.path
  {
    match key
    case "Address" => d.(address := if v.Str? then v.s else "")
    case "Name" => d.(name := if v.Str? then v.s else "")
    case "Connected" => d.(connected := v.Bool? && v.b)
    case "Paired" => d.(paired := v.Bool? && v.b)
    case "Trusted" => d.(trusted := v.Bool? && v.b)
    case "Icon" => d.(icon := if v.Str? then Some(v.s) else None)
    case _ => d
  }

  function ApplyProps(d: Device, props: seq<(string, PropValue)>): Device
    decreases |props|
  {
    if props == [] then d else ApplyProps(ApplyProp(d, props[0].0, props[0].1), props[1..])
  }

  /** `parse_device_properties`: the properties in order, then an empty
      name replaced by the address, or by "Unknown" without one. */
  function ParseDeviceProperties(path: string, props: seq<(string, PropValue)>): (d: Device)
    ensures d.path == path && d.name != []
    ensures var raw := ApplyProps(Device(path, "", "", false, false, false, None), props);
            && d == raw.(name := d.name)
            && (raw.name != [] ==> d.name == raw.name)
            && (raw.name == [] ==> d.name == (if raw.address == [] then "Unknown" else raw.address))
  {
    var raw := ApplyProps(Device(path, "", "", false, false, false, None), props);
    ApplyPropsPath(Device(path, "", "", false, false, false, None), props);
    if raw.name != [] then raw
    else raw.(name := if raw.address == [] then "Unknown" else raw.address)
  }

  lemma {:induction false} ApplyPropsPath(d: Device, props: seq<(string, PropValue)>)
    ensures ApplyProps(d, props).path == d.path
    decreases |props|
  {
    if props != [] {
      ApplyPropsPath(ApplyProp(d, props[0].0, props[0].1), props[1..]);
    }
  }

  /** A device that does not announce a name is listed under its address. */
  lemma NamelessDeviceShowsAddress(path: string, addr: string)
    requires addr != []
    ensures ParseDeviceProperties(path, [("Address", Str(addr)), ("Connected", Bool(true))]) ==
            Device(path, addr, addr, true, false, false, None)
  {
    var props := [("Address", Str(addr)), ("Connected", Bool(true))];
    var d0 := Device(path, "", "", false, false, false, None);
    var d1 := ApplyProp(d0, "Address", Str(addr));
    assert d1 == d0.(address := addr);
    var d2 := ApplyProp(d1, "Connected", Bool(true));
    assert d2 == d1.(connected := true);
    assert props[1..][1..] == [];
    assert ApplyProps(d2, []) == d2;
    assert ApplyProps(d1, props[1..]) == d2;
    assert ApplyProps(d0, props) == d2;
  }

  /** `parse_object_entry`: only `/org/bluez/hci…/dev_…` objects, and of
      those the first `Device1` interface. */
  function ParseObjectEntry(path: string, ifaces: seq<(string, seq<(string, PropValue)>)>): (r: Option<Device>)
    ensures r.Some? ==> StartsWith(path, "/org/bluez/hci") && Contains(path, "/dev_")
    ensures r.Some? <==> StartsWith(path, "/org/bluez/hci") && Contains(path, "/dev_")
                         && exists j :: 0 <= j < |ifaces| && ifaces[j].0 == DEVICE_IFACE
    ensures r.Some? ==> r.value.path == path
  {
    if !StartsWith(path, "/org/bluez/hci") || !Contains(path, "/dev_") then None
    else match FirstWhere(ifaces, IsDeviceIface)
      case None => None
      case Some(j) => Some(ParseDeviceProperties(path, ifaces[j].1))
  }

  predicate IsDeviceIface(e: (string, seq<(string, PropValue)>)) { e.0 == DEVICE_IFACE }

  // ------------------------------------------------------------ ordering

  /** The sort key of `parse_managed_objects`, compared field by field:
      connected, paired, trusted, readable name, then the lower-cased name. */
  predicate DeviceLe(a: Device, b: Device) {
    if a.connected != b.connected then a.connected
    else if a.paired != b.paired then a.paired
    else if a.trusted != b.trusted then a.trusted
    else if IsMacLikeName(a.name) != IsMacLikeName(b.name) then !IsMacLikeName(a.name)
    else StrLe(Lower(a.name), Lower(b.name))
  }

  lemma DeviceLeTotal()
    ensures Total(DeviceLe)
  {
    forall a: Device, b: Device ensures DeviceLe(a, b) || DeviceLe(b, a) {
      StrLeTotal(Lower(a.name), Lower(b.name));
    }
  }

  /** The rank the boolean parts of the key give. */
  function Rank(d: Device): int {
    (if d.connected then 0 else 8) + (if d.paired then 0 else 4) + (if d.trusted then 0 else 2)
    + (if IsMacLikeName(d.name) then 1 else 0)
  }

  lemma RankRespected()
    ensures forall a: Device, b: Device :: DeviceLe(a, b) ==> Rank(a) <= Rank(b)
  {
  }

  function SortDevices(ds: seq<Device>): (r: seq<Device>)
    ensures multiset(r) == multiset(ds) && |r| == |ds|
    ensures Sorted(r, DeviceLe)
  {
    DeviceLeTotal();
    SortBy(ds, DeviceLe)
  }

  /** `parse_managed_objects`: the device entries, parsed and sorted. */
  function ParseManagedObjects(entries: seq<(string, seq<(string, seq<(string, PropValue)>)>)>): (r: seq<Device>)
    ensures Sorted(r, DeviceLe)
    ensures |r| <= |entries|
  {
    FilterMapLength(entries, ParseEntry);
    SortDevices(FilterMap(entries, ParseEntry))
  }

  function ParseEntry(e: (string, seq<(string, seq<(string, PropValue)>)>)): Option<Device> {
    ParseObjectEntry(e.0, e.1)
  }

  predicate IsConnected(d: Device) { d.connected }

  /** Along a sorted list the boolean parts of the key never get better:
      a connected device is never behind a disconnected one, a paired one
      never behind an unpaired one with the same connection, and a
      readable name never behind an address-like one otherwise equal. */
  lemma RankNonDecreasing(r: seq<Device>, i: nat, j: nat)
    requires Sorted(r, DeviceLe) && i <= j < |r|
    ensures Rank(r[i]) <= Rank(r[j])
  {
    RankRespected();
    SortedKeyMonotone(r, DeviceLe, Rank, i, j);
  }

  // ------------------------------------------------------------- service

  /** The adapter's cached properties, when there is an adapter. */
  datatype Adapter = Adapter(powered: Option<bool>, discovering: Option<bool>)

  datatype Service = Service(snap: Snapshot, debouncePending: bool)

  datatype Step = Step(svc: Service, notified: bool)

  /** `update_state` without a bus connection. */
  function UpdateWithoutConnection(svc: Service): (s: Step)
    ensures s.svc.snap == EMPTY && s.notified && s.svc.debouncePending == svc.debouncePending
  {
    Step(svc.(snap := EMPTY), true)
  }

  /** `update_state` before the object manager exists: adapter facts only;
      the device list and its count stay. */
  function UpdateWithoutObjectManager(svc: Service, adapter: Option<Adapter>): (s: Step)
    ensures s.notified && s.svc.snap.isReady
    ensures s.svc.snap.hasAdapter <==> adapter.Some?
    ensures s.svc.snap.powered <==> adapter.Some? && adapter.value.powered == Some(true)
    ensures s.svc.snap.scanning <==> adapter.Some? && adapter.value.discovering == Some(true)
    ensures s.svc.snap.devices == svc.snap.devices && s.svc.snap.connectedDevices == svc.snap.connectedDevices
  {
    var powered := adapter.Some? && adapter.value.powered.GetOr(false);
    var discovering := adapter.Some? && adapter.value.discovering.GetOr(false);
    Step(svc.(snap := svc.snap.(hasAdapter := adapter.Some?, powered := powered, scanning := discovering,
                                isReady := true)), true)
  }

  /** The `GetManagedObjects` reply handler: the parsed device list (empty
      on an error) and its connected count. */
  function DevicesFetched(svc: Service, adapter: Option<Adapter>,
                          reply: Option<seq<(string, seq<(string, seq<(string, PropValue)>)>)>>): (s: Step)
    ensures s.notified && s.svc.snap.isReady
    ensures reply.None? ==> s.svc.snap.devices == [] && s.svc.snap.connectedDevices == 0
    ensures reply.Some? ==> s.svc.snap.devices == ParseManagedObjects(reply.value)
    ensures s.svc.snap.connectedDevices == Count(s.svc.snap.devices, IsConnected)
    ensures s.svc.snap.hasAdapter <==> adapter.Some?
    ensures s.svc.snap.powered <==> adapter.Some? && adapter.value.powered == Some(true)
    ensures s.svc.snap.scanning <==> adapter.Some? && adapter.value.discovering == Some(true)
  {
    var devices := if reply.Some? then ParseManagedObjects(reply.value) else [];
    var powered := adapter.Some? && adapter.value.powered.GetOr(false);
    var discovering := adapter.Some? && adapter.value.discovering.GetOr(false);
    Step(svc.(snap := Snapshot(adapter.Some?, powered, Count(devices, IsConnected), devices, discovering, true)),
         true)
  }

  /** The connected devices head the published list, exactly
      `connectedDevices` of them. */
  lemma ConnectedFirst(svc: Service, adapter: Option<Adapter>,
                       reply: Option<seq<(string, seq<(string, seq<(string, PropValue)>)>)>>)
    ensures var snap := DevicesFetched(svc, adapter, reply).svc.snap;
            forall i :: 0 <= i < |snap.devices| ==> (snap.devices[i].connected <==> i < snap.connectedDevices)
  {
    var snap := DevicesFetched(svc, adapter, reply).svc.snap;
    var r := snap.devices;
    forall i, j | 0 <= i <= j < |r| && IsConnected(r[j]) ensures IsConnected(r[i]) {
      RankNonDecreasing(r, i, j);
    }
    PrefixCount(r, IsConnected);
  }

  /** `update_state_debounced`: schedules an update unless one is pending.
      The flag says whether a timer was started. */
  function RequestUpdate(svc: Service): (r: (Service, bool))
    ensures r.1 <==> !svc.debouncePending
    ensures r.0 == svc.(debouncePending := true)
  {
    if svc.debouncePending then (svc, false) else (svc.(debouncePending := true), true)
  }

  /** The debounce timer firing: the next change may schedule again. */
  function DebounceFired(svc: Service): (r: Service)
    ensures !r.debouncePending && r.snap == svc.snap
  {
    svc.(debouncePending := false)
  }

  /** A burst of property changes starts one timer. */
  lemma BurstStartsOneTimer(svc: Service, n: nat)
    ensures !RequestUpdate(RequestUpdate(svc).0).1
    ensures RequestUpdate(DebounceFired(RequestUpdate(svc).0)).1
  {
  }

  /** `set_unavailable`: anything but the pristine empty state is reset and
      announced. */
  function SetUnavailable(svc: Service): (s: Step)
    ensures !svc.snap.hasAdapter && !svc.snap.isReady ==> s == Step(svc, false)
    ensures svc.snap.hasAdapter || svc.snap.isReady ==> s.svc.snap == EMPTY && s.notified
  {
    if !svc.snap.hasAdapter && !svc.snap.isReady then Step(svc, false)
    else Step(svc.(snap := EMPTY), true)
  }

  lemma SetUnavailableIdempotent(svc: Service)
    ensures var s := SetUnavailable(svc).svc;
            SetUnavailable(s) == Step(s, false)
  {
  }

  /** `get_device_proxy`: the first device whose path or address is the
      argument, when there is a bus connection. */
  function FindDevice(snap: Snapshot, connected: bool, pathOrAddress: string): (r: Option<string>)
    ensures r.Some? <==> connected && exists i :: 0 <= i < |snap.devices| && Matches(snap.devices[i], pathOrAddress)
    ensures r.Some? ==> exists i :: 0 <= i < |snap.devices| && Matches(snap.devices[i], pathOrAddress)
                                    && r.value == snap.devices[i].path
  {
    if !connected then None
    else match FirstWhere(snap.devices, d => Matches(d, pathOrAddress))
      case None => None
      case Some(i) => Some(snap.devices[i].path)
  }

  predicate Matches(d: Device, pathOrAddress: string) { d.path == pathOrAddress || d.address == pathOrAddress }

  /** A device can be addressed by its path and by its address. */
  lemma FindByPathOrAddress(snap: Snapshot, i: nat)
    requires i < |snap.devices|
    ensures FindDevice(snap, true, snap.devices[i].path).Some?
    ensures FindDevice(snap, true, snap.devices[i].address).Some?
  {
    assert Matches(snap.devices[i], snap.devices[i].path);
    assert Matches(snap.devices[i], snap.devices[i].address);
  }

  /** `scan_for_devices` starts discovery (and its stop timer) only with
      an adapter and when not already scanning. */
  predicate StartsScan(hasAdapter: bool, snap: Snapshot) { hasAdapter && !snap.scanning }
}
