/*
 * The VPN service (`services/vpn.rs`): NetworkManager's VPN connections
 * turned into a snapshot whose connection list is ordered active first,
 * then the last used connection, then by name, and whose primary
 * connection is what the Quick Settings card shows.
 *
 * D-Bus calls, signal subscriptions and the persisted state file are
 * outside the model; the facts they deliver are parameters and the
 * "persist now" decision is a returned flag.
 */
module Vpn {
  import opened Common
  import opened Sorting

  /** NetworkManager's active-connection states. */
  datatype VpnState = Unknown | Activating | Activated | Deactivating | Deactivated

  /** The numeric code NetworkManager uses for each state. */
  function Code(s: VpnState): nat {
    match s
    case Unknown => 0
    case Activating => 1
    case Activated => 2
    case Deactivating => 3
    case Deactivated => 4
  }

  /** `VpnState::from(u32)`: 1 to 4 name their states, anything else is
      unknown. */
  function FromU32(v: int): (s: VpnState)
    ensures 1 <= v <= 4 ==> Code(s) == v
    ensures !(1 <= v <= 4) ==> s == Unknown
  {
    match v
    case 1 => Activating
    case 2 => Activated
    case 3 => Deactivating
    case 4 => Deactivated
    case _ => Unknown
  }

  /** Decoding a state's own code gives the state back. */
  lemma FromU32Code(s: VpnState)
    ensures FromU32(Code(s)) == s
  {
  }

  datatype VpnConnection = VpnConnection(
    uuid: string, name: string, active: bool, state: VpnState, autoconnect: bool, vpnType: string)

  datatype VpnSnapshot = VpnSnapshot(
    available: bool,
    connections: seq<VpnConnection>,
    anyActive: bool,
    activeCount: nat,
    isReady: bool,
    preferredUuid: Option<string>)

  /** `VpnSnapshot::unknown`. */
  const UNKNOWN_SNAPSHOT := VpnSnapshot(false, [], false, 0, false, None)

  const VPN_TYPES: seq<string> := ["wireguard", "vpn"]

  predicate IsActive(c: VpnConnection) { c.active }

  function HasUuid(uuid: string): VpnConnection -> bool { (c: VpnConnection) => c.uuid == uuid }

  /** `primary()`: the first active connection, else the first with the
      preferred UUID, else the first connection. */
  function Primary(snap: VpnSnapshot): (r: Option<VpnConnection>)
    ensures r.None? <==> snap.connections == []
    ensures r.Some? ==> r.value in snap.connections
    ensures (exists i :: 0 <= i < |snap.connections| && snap.connections[i].active) ==>
              r.Some? && r.value.active
    ensures (forall i :: 0 <= i < |snap.connections| ==> !snap.connections[i].active) &&
            snap.preferredUuid.Some? &&
            (exists i :: 0 <= i < |snap.connections| && snap.connections[i].uuid == snap.preferredUuid.value) ==>
              r.Some? && r.value.uuid == snap.preferredUuid.value
  {
    var cs := snap.connections;
    match FirstWhere(cs, IsActive)
    case Some(i) => Some(cs[i])
    case None =>
      var byUuid := if snap.preferredUuid.Some? then FirstWhere(cs, HasUuid(snap.preferredUuid.value)) else None;
      if byUuid.Some? then Some(cs[byUuid.value])
      else if cs == [] then None
      else Some(cs[0])
  }

  /** One connection's settings as `fetch_vpn_connections_sync` reads them
      (`None` for a missing key), combined with the active-connection map. */
  function ConnectionFromSettings(connType: Option<string>, uuid: Option<string>, id: Option<string>,
                                  autoconnect: Option<bool>, activeStates: map<string, VpnState>): (r: Option<VpnConnection>)
    ensures r.Some? <==> connType.Some? && connType.value in VPN_TYPES && uuid.Some?
    ensures r.Some? ==> r.value.uuid == uuid.value && r.value.vpnType == connType.value
    ensures r.Some? ==> r.value.name == id.GetOr("") && r.value.autoconnect == autoconnect.GetOr(false)
    ensures r.Some? ==> (r.value.active <==> uuid.value in activeStates)
    ensures r.Some? ==> r.value.state == (if uuid.value in activeStates then activeStates[uuid.value] else Unknown)
  {
    if connType.None? || connType.value !in VPN_TYPES || uuid.None? then None
    else
      var u := uuid.value;
      var active := u in activeStates;
      Some(VpnConnection(u, id.GetOr(""), active, if active then activeStates[u] else Unknown,
                         autoconnect.GetOr(false), connType.value))
  }

  // ------------------------------------------------------------ ordering

  /** The comparator of `apply_update`: active first, then the preferred
      UUID, then names compared lower-cased. */
  predicate VpnLe(pref: Option<string>, a: VpnConnection, b: VpnConnection) {
    if a.active != b.active then a.active
    else if pref.Some? && (a.uuid == pref.value) != (b.uuid == pref.value) then a.uuid == pref.value
    else StrLe(Lower(a.name), Lower(b.name))
  }

  function Comparator(pref: Option<string>): (VpnConnection, VpnConnection) -> bool {
    (a, b) => VpnLe(pref, a, b)
  }

  lemma ComparatorTotal(pref: Option<string>)
    ensures Total(Comparator(pref))
  {
    forall a: VpnConnection, b: VpnConnection ensures Comparator(pref)(a, b) || Comparator(pref)(b, a) {
      StrLeTotal(Lower(a.name), Lower(b.name));
    }
  }

  /** The rank the first two rules of the comparator give. */
  function Rank(pref: Option<string>, c: VpnConnection): int {
    (if c.active then 0 else 2) + (if pref.Some? && c.uuid == pref.value then 0 else 1)
  }

  lemma RankRespected(pref: Option<string>)
    ensures forall a: VpnConnection, b: VpnConnection :: Comparator(pref)(a, b) ==> Rank(pref, a) <= Rank(pref, b)
  {
  }

  function SortConnections(pref: Option<string>, cs: seq<VpnConnection>): (r: seq<VpnConnection>)
    ensures multiset(r) == multiset(cs) && |r| == |cs|
    ensures Sorted(r, Comparator(pref))
  {
    ComparatorTotal(pref);
    SortBy(cs, Comparator(pref))
  }

  // ------------------------------------------------------------- service

  datatype Service = Service(snap: VpnSnapshot, refreshPending: bool, lastUsedUuid: Option<string>)

  /** What a reducer hands back: the new state, whether subscribers are
      notified, and whether the last used UUID is written to disk. */
  datatype Step = Step(svc: Service, notified: bool, saved: bool)

  /** The remembered UUID after a refresh: the first active connection's,
      or the previous one when nothing is active. */
  function LastUsedAfter(lastUsed: Option<string>, cs: seq<VpnConnection>): Option<string> {
    match FirstWhere(cs, IsActive)
    case Some(i) => Some(cs[i].uuid)
    case None => lastUsed
  }

  /** `apply_update(ConnectionsRefreshed)`. */
  function ConnectionsRefreshed(svc: Service, cs: seq<VpnConnection>): (s: Step)
    ensures var snap := s.svc.snap;
            && snap.available && snap.isReady && !s.svc.refreshPending && s.notified
            && multiset(snap.connections) == multiset(cs)
            && snap.activeCount == Count(cs, IsActive)
            && (snap.anyActive <==> exists i :: 0 <= i < |cs| && cs[i].active)
            && snap.preferredUuid == s.svc.lastUsedUuid
            && Sorted(snap.connections, Comparator(snap.preferredUuid))
    ensures (forall i :: 0 <= i < |cs| ==> !cs[i].active) ==> s.svc.lastUsedUuid == svc.lastUsedUuid && !s.saved
    ensures forall i :: 0 <= i < |cs| && cs[i].active && (forall k :: 0 <= k < i ==> !cs[k].active) ==>
              s.svc.lastUsedUuid == Some(cs[i].uuid) && (s.saved <==> svc.lastUsedUuid != Some(cs[i].uuid))
  {
    var activeCount := Count(cs, IsActive);
    CountZero(cs, IsActive);
    var lastUsed := LastUsedAfter(svc.lastUsedUuid, cs);
    var sorted := SortConnections(lastUsed, cs);
    var snap := VpnSnapshot(true, sorted, activeCount > 0, activeCount, true, lastUsed);
    Step(Service(snap, false, lastUsed), true, lastUsed != svc.lastUsedUuid)
  }

  /** In a published list the active connections form a prefix exactly as
      long as the active count. */
  lemma ActiveFirst(svc: Service, cs: seq<VpnConnection>)
    ensures var snap := ConnectionsRefreshed(svc, cs).svc.snap;
            forall i :: 0 <= i < |snap.connections| ==> (snap.connections[i].active <==> i < snap.activeCount)
  {
    var snap := ConnectionsRefreshed(svc, cs).svc.snap;
    var r, pref := snap.connections, snap.preferredUuid;
    RankRespected(pref);
    forall i, j | 0 <= i <= j < |r| && IsActive(r[j]) ensures IsActive(r[i]) {
      SortedKeyMonotone(r, Comparator(pref), (c: VpnConnection) => Rank(pref, c), i, j);
    }
    PrefixCount(r, IsActive);
    CountPerm(r, cs, IsActive);
  }

  /** After a refresh the card's primary connection is the head of the
      list: the sort already put the active, else the preferred,
      connection first. */
  lemma PrimaryIsHead(svc: Service, cs: seq<VpnConnection>)
    requires cs != []
    ensures var snap := ConnectionsRefreshed(svc, cs).svc.snap;
            Primary(snap) == Some(snap.connections[0])
  {
    var snap := ConnectionsRefreshed(svc, cs).svc.snap;
    var r, pref := snap.connections, snap.preferredUuid;
    RankRespected(pref);
    var key := (c: VpnConnection) => Rank(pref, c);
    match FirstWhere(r, IsActive)
    case Some(i) =>
      SortedKeyMonotone(r, Comparator(pref), key, 0, i);
    case None =>
      if pref.Some? {
        match FirstWhere(r, HasUuid(pref.value))
        case Some(j) =>
          SortedKeyMonotone(r, Comparator(pref), key, 0, j);
        case None =>
      }
  }

  /** `queue_refresh`: a refresh is scheduled unless one is pending. */
  function QueueRefresh(svc: Service): (r: (Service, bool))
    ensures r.1 <==> !svc.refreshPending
    ensures r.0.refreshPending && r.0.snap == svc.snap && r.0.lastUsedUuid == svc.lastUsedUuid
  {
    if svc.refreshPending then (svc, false) else (svc.(refreshPending := true), true)
  }

  /** A burst of change signals schedules one refresh, and the refresh's
      result lets the next signal schedule again. */
  lemma SignalsCoalesce(svc: Service, cs: seq<VpnConnection>)
    ensures var (s1, first) := QueueRefresh(svc);
            var (s2, second) := QueueRefresh(s1);
            !second && QueueRefresh(ConnectionsRefreshed(s2, cs).svc).1
  {
  }

  /** `set_unavailable`: an available service drops to the unknown snapshot
      but keeps the preferred UUID; an unavailable one is left alone. */
  function SetUnavailable(svc: Service): (s: Step)
    ensures !svc.snap.available ==> s == Step(svc, false, false)
    ensures svc.snap.available ==>
              s.notified && s.svc.snap == UNKNOWN_SNAPSHOT.(preferredUuid := svc.lastUsedUuid)
    ensures s.svc.lastUsedUuid == svc.lastUsedUuid && !s.saved
  {
    if !svc.snap.available then Step(svc, false, false)
    else Step(svc.(snap := UNKNOWN_SNAPSHOT.(preferredUuid := svc.lastUsedUuid)), true, false)
  }

  lemma SetUnavailableIdempotent(svc: Service)
    ensures var s := SetUnavailable(svc).svc;
            SetUnavailable(s) == Step(s, false, false)
  {
  }
}
