/*
 * The Wi-Fi service (`services/network.rs`): how a scan result becomes a
 * network entry, the de-duplication and ordering of the network list, and
 * the state transitions the service applies on the main loop.
 *
 * D-Bus proxies, `nmcli` child processes and threads are left out: their
 * results arrive here as the update values they send. The callback list is
 * reduced to a flag saying whether listeners were notified.
 */
module Network {
  import opened Common
  import opened Sorting

  datatype WifiNetwork = WifiNetwork(ssid: string, strength: int, security: string, active: bool, known: bool)

  datatype Snapshot = Snapshot(
    available: bool,
    wifiEnabled: Option<bool>,
    connected: bool,
    ssid: Option<string>,
    strength: int,
    scanning: bool,
    isReady: bool,
    networks: seq<WifiNetwork>,
    connectingSsid: Option<string>,
    failedSsid: Option<string>)

  /** `NetworkSnapshot::unknown`. */
  const UnknownSnapshot := Snapshot(false, None, false, None, 0, false, false, [], None, None)

  // ----------------------------------------------------- scan results

  /** `get_network_details_sync`: an access point is secured when any of
      its three flag words is non-zero. */
  function Security(flags: nat, wpaFlags: nat, rsnFlags: nat): (s: string)
    ensures s == "secured" <==> flags != 0 || wpaFlags != 0 || rsnFlags != 0
    ensures s == "open" <==> flags == 0 && wpaFlags == 0 && rsnFlags == 0
  {
    if flags != 0 || wpaFlags != 0 || rsnFlags != 0 then "secured" else "open"
  }

  /** The entry for one access point: a missing SSID becomes "", it is
      active when it is the active access point, and known when a saved
      connection carries its SSID or it is active. */
  function NetworkDetails(path: string, ssid: Option<string>, strength: int, flags: nat, wpaFlags: nat,
                          rsnFlags: nat, activePath: Option<string>, knownSsids: set<string>): (n: WifiNetwork)
    ensures n.ssid == ssid.GetOr("")
    ensures n.active <==> activePath == Some(path)
    ensures n.known <==> n.ssid in knownSsids || activePath == Some(path)
    ensures n.security == Security(flags, wpaFlags, rsnFlags) && n.strength == strength
  {
    var ssidStr := ssid.GetOr("");
    var isActive := activePath.Some? && activePath.value == path;
    WifiNetwork(ssidStr, strength, Security(flags, wpaFlags, rsnFlags), isActive, ssidStr in knownSsids || isActive)
  }

  // ------------------------------------------------------ de-duplication

  /** Networks are merged by SSID and security. */
  function Key(n: WifiNetwork): (string, string) { (n.ssid, n.security) }

  /** Folding a duplicate into the entry already kept. */
  function Combine(a: WifiNetwork, n: WifiNetwork): WifiNetwork {
    a.(active := a.active || n.active, strength := Max(a.strength, n.strength), known := a.known || n.known)
  }

  /** One step of the merge map: the entry with `n`'s key absorbs `n`, or
      `n` is added after the existing entries. */
  function MergeInto(acc: seq<WifiNetwork>, n: WifiNetwork): seq<WifiNetwork> {
    if acc == [] then [n]
    else if Key(acc[0]) == Key(n) then [Combine(acc[0], n)] + acc[1..]
    else [acc[0]] + MergeInto(acc[1..], n)
  }

  /** `dedupe_networks`, with the merged entries in order of first
      appearance. */
  function Dedupe(nets: seq<WifiNetwork>): seq<WifiNetwork> {
    if nets == [] then [] else MergeInto(Dedupe(nets[..|nets| - 1]), nets[|nets| - 1])
  }

  predicate UniqueKeys(nets: seq<WifiNetwork>) {
    forall i, j :: 0 <= i < j < |nets| ==> Key(nets[i]) != Key(nets[j])
  }

  predicate HasKey(nets: seq<WifiNetwork>, k: (string, string)) {
    exists i :: 0 <= i < |nets| && Key(nets[i]) == k
  }

  /** What the merged entry for a key promises about all networks with that
      key: it is active or known when any of them is, and its strength is
      the largest of theirs. */
  predicate Summarises(e: WifiNetwork, nets: seq<WifiNetwork>) {
    && (e.active <==> exists i :: 0 <= i < |nets| && Key(nets[i]) == Key(e) && nets[i].active)
    && (e.known <==> exists i :: 0 <= i < |nets| && Key(nets[i]) == Key(e) && nets[i].known)
    && (forall i :: 0 <= i < |nets| && Key(nets[i]) == Key(e) ==> nets[i].strength <= e.strength)
    && (exists i :: 0 <= i < |nets| && Key(nets[i]) == Key(e) && nets[i].strength == e.strength)
  }

  /** The first entry with key `k`. */
  function Lookup(acc: seq<WifiNetwork>, k: (string, string)): (r: Option<WifiNetwork>)
    ensures r.Some? ==> Key(r.value) == k && r.value in acc
    ensures r.Some? <==> HasKey(acc, k)
  {
    if acc == [] then None
    else if Key(acc[0]) == k then Some(acc[0])
    else
      var r := Lookup(acc[1..], k);
      assert HasKey(acc, k) ==> HasKey(acc[1..], k) by {
        if HasKey(acc, k) {
          var i :| 0 <= i < |acc| && Key(acc[i]) == k;
          assert acc[1..][i - 1] == acc[i];
        }
      }
      r
  }

  function Absorb(prev: Option<WifiNetwork>, n: WifiNetwork): WifiNetwork {
    match prev
    case None => n
    case Some(a) => Combine(a, n)
  }

  lemma {:induction false} MergeLookup(acc: seq<WifiNetwork>, n: WifiNetwork, k: (string, string))
    ensures Lookup(MergeInto(acc, n), k) == if k == Key(n) then Some(Absorb(Lookup(acc, k), n)) else Lookup(acc, k)
  {
    if acc != [] && Key(acc[0]) != Key(n) {
      MergeLookup(acc[1..], n, k);
    }
  }

  lemma {:induction false} MergeKeys(acc: seq<WifiNetwork>, n: WifiNetwork)
    ensures forall e :: e in MergeInto(acc, n) ==> Key(e) == Key(n) || HasKey(acc, Key(e))
  {
    if acc != [] && Key(acc[0]) != Key(n) {
      MergeKeys(acc[1..], n);
      forall e | e in MergeInto(acc[1..], n) && HasKey(acc[1..], Key(e)) ensures HasKey(acc, Key(e)) {
        var i :| 0 <= i < |acc[1..]| && Key(acc[1..][i]) == Key(e);
        assert acc[i + 1] == acc[1..][i];
      }
    }
  }

  lemma {:induction false} MergeUnique(acc: seq<WifiNetwork>, n: WifiNetwork)
    requires UniqueKeys(acc)
    ensures UniqueKeys(MergeInto(acc, n))
  {
    if acc != [] {
      if Key(acc[0]) == Key(n) {
        var r := [Combine(acc[0], n)] + acc[1..];
        forall i, j | 0 <= i < j < |r| ensures Key(r[i]) != Key(r[j]) {
          assert Key(r[i]) == Key(acc[i]) && r[j] == acc[j];
        }
      } else {
        MergeUnique(acc[1..], n);
        MergeKeys(acc[1..], n);
        var rest := MergeInto(acc[1..], n);
        forall j | 0 <= j < |rest| ensures Key(rest[j]) != Key(acc[0]) {
          assert rest[j] in rest;
          if HasKey(acc[1..], Key(rest[j])) {
            var i :| 0 <= i < |acc[1..]| && Key(acc[1..][i]) == Key(rest[j]);
            assert acc[i + 1] == acc[1..][i];
          }
        }
      }
    }
  }

  lemma {:induction false} DedupeUnique(nets: seq<WifiNetwork>)
    ensures UniqueKeys(Dedupe(nets))
  {
    if nets != [] {
      DedupeUnique(nets[..|nets| - 1]);
      MergeUnique(Dedupe(nets[..|nets| - 1]), nets[|nets| - 1]);
    }
  }

  /** With unique keys an entry is what looking up its key finds. */
  lemma {:induction false} LookupFindsMember(acc: seq<WifiNetwork>, e: WifiNetwork)
    requires UniqueKeys(acc) && e in acc
    ensures Lookup(acc, Key(e)) == Some(e)
  {
    if acc[0] != e {
      assert Key(acc[0]) != Key(e) by {
        var j :| 0 <= j < |acc| && acc[j] == e;
      }
      assert UniqueKeys(acc[1..]) by {
        forall i, j | 0 <= i < j < |acc[1..]| ensures Key(acc[1..][i]) != Key(acc[1..][j]) {
          assert acc[1..][i] == acc[i + 1] && acc[1..][j] == acc[j + 1];
        }
      }
      LookupFindsMember(acc[1..], e);
    }
  }

  lemma SummarisesNew(init: seq<WifiNetwork>, last: WifiNetwork)
    requires !HasKey(init, Key(last))
    ensures Summarises(last, init + [last])
  {
    var nets := init + [last];
    assert nets[|init|] == last;
    assert forall i :: 0 <= i < |init| ==> nets[i] == init[i];
  }

  lemma SummarisesAbsorbed(a: WifiNetwork, init: seq<WifiNetwork>, last: WifiNetwork)
    requires Key(a) == Key(last) && Summarises(a, init)
    ensures Summarises(Combine(a, last), init + [last])
  {
    var nets := init + [last];
    var e := Combine(a, last);
    assert nets[|init|] == last;
    assert forall i :: 0 <= i < |init| ==> nets[i] == init[i];
    var w :| 0 <= w < |init| && Key(init[w]) == Key(a) && init[w].strength == a.strength;
    if a.strength >= last.strength {
      assert nets[w] == init[w];
    }
  }

  lemma SummarisesOther(e: WifiNetwork, init: seq<WifiNetwork>, last: WifiNetwork)
    requires Key(e) != Key(last) && Summarises(e, init)
    ensures Summarises(e, init + [last])
  {
    var nets := init + [last];
    assert nets[|init|] == last;
    assert forall i :: 0 <= i < |init| ==> nets[i] == init[i];
    var w :| 0 <= w < |init| && Key(init[w]) == Key(e) && init[w].strength == e.strength;
    assert nets[w] == init[w];
  }

  lemma HasKeySnoc(init: seq<WifiNetwork>, last: WifiNetwork, k: (string, string))
    ensures HasKey(init + [last], k) <==> HasKey(init, k) || Key(last) == k
  {
    var nets := init + [last];
    assert nets[|init|] == last;
    if HasKey(init, k) {
      var i :| 0 <= i < |init| && Key(init[i]) == k;
      assert nets[i] == init[i];
    }
    if HasKey(nets, k) {
      var i :| 0 <= i < |nets| && Key(nets[i]) == k;
      if i < |init| {
        assert nets[i] == init[i];
      }
    }
  }

  /** The merged entry for each key, stated key by key. */
  lemma {:induction false} DedupeLookup(nets: seq<WifiNetwork>, k: (string, string))
    ensures Lookup(Dedupe(nets), k).Some? <==> HasKey(nets, k)
    ensures Lookup(Dedupe(nets), k).Some? ==> Summarises(Lookup(Dedupe(nets), k).value, nets)
  {
    if nets != [] {
      var init, last := nets[..|nets| - 1], nets[|nets| - 1];
      assert nets == init + [last];
      DedupeLookup(init, k);
      MergeLookup(Dedupe(init), last, k);
      HasKeySnoc(init, last, k);
      var prev := Lookup(Dedupe(init), k);
      if k == Key(last) {
        if prev.Some? {
          SummarisesAbsorbed(prev.value, init, last);
        } else {
          SummarisesNew(init, last);
        }
      } else if prev.Some? {
        SummarisesOther(prev.value, init, last);
      }
    }
  }

  /** `dedupe_networks`: one entry per (SSID, security) key present in the
      scan, each summarising every scanned network with its key. */
  lemma DedupeSpec(nets: seq<WifiNetwork>)
    ensures UniqueKeys(Dedupe(nets))
    ensures forall e :: e in Dedupe(nets) ==> Summarises(e, nets)
    ensures forall i :: 0 <= i < |nets| ==> HasKey(Dedupe(nets), Key(nets[i]))
  {
    DedupeUnique(nets);
    forall e | e in Dedupe(nets) ensures Summarises(e, nets) {
      LookupFindsMember(Dedupe(nets), e);
      DedupeLookup(nets, Key(e));
    }
    forall i | 0 <= i < |nets| ensures HasKey(Dedupe(nets), Key(nets[i])) {
      DedupeLookup(nets, Key(nets[i]));
    }
  }

  /** A scan without duplicates comes through with the same networks. */
  lemma DedupeKeepsDistinct(nets: seq<WifiNetwork>, i: nat)
    requires UniqueKeys(nets) && i < |nets|
    ensures nets[i] in Dedupe(nets)
  {
    DedupeSpec(nets);
    DedupeLookup(nets, Key(nets[i]));
    var e := Lookup(Dedupe(nets), Key(nets[i])).value;
    forall j | 0 <= j < |nets| && Key(nets[j]) == Key(nets[i]) ensures j == i {
    }
    assert e == nets[i];
  }

  // ------------------------------------------------------------- ordering

  /** Active networks first, then known ones, then the rest. */
  function Group(n: WifiNetwork): int { if n.active then 0 else if n.known then 1 else 2 }

  /** The comparator of `sort_networks`: group, then strength descending,
      then SSID ascending. */
  predicate NetworkLe(a: WifiNetwork, b: WifiNetwork) {
    Group(a) < Group(b)
    || (Group(a) == Group(b) && (a.strength > b.strength || (a.strength == b.strength && StrLe(a.ssid, b.ssid))))
  }

  lemma NetworkLeTotal()
    ensures Total(NetworkLe)
  {
    forall a: WifiNetwork, b: WifiNetwork ensures NetworkLe(a, b) || NetworkLe(b, a) {
      StrLeTotal(a.ssid, b.ssid);
    }
  }

  /** `sort_networks`: the same networks, every active one before every
      known one before the rest, stronger first within a group. */
  function SortNetworks(nets: seq<WifiNetwork>): (r: seq<WifiNetwork>)
    ensures multiset(r) == multiset(nets)
    ensures Sorted(r, NetworkLe)
  {
    NetworkLeTotal();
    SortBy(nets, NetworkLe)
  }

  /** In a sorted list, groups never go back: every active network comes
      before every known one, which come before the rest. */
  lemma GroupsInOrder(r: seq<WifiNetwork>, i: nat, j: nat)
    requires Sorted(r, NetworkLe) && i <= j < |r|
    ensures Group(r[i]) <= Group(r[j])
  {
    SortedKeyMonotone(r, NetworkLe, Group, i, j);
  }

  /** Within a group a sorted list runs from strongest to weakest. */
  lemma {:induction false} StrongerFirst(r: seq<WifiNetwork>, i: nat, j: nat)
    requires Sorted(r, NetworkLe) && i <= j < |r|
    requires Group(r[i]) == Group(r[j])
    ensures r[i].strength >= r[j].strength
    decreases j - i
  {
    if i < j {
      GroupsInOrder(r, i, i + 1);
      GroupsInOrder(r, i + 1, j);
      StrongerFirst(r, i + 1, j);
      assert NetworkLe(r[i], r[i + 1]);
    }
  }

  /** The list a refresh publishes. */
  function RefreshedList(scan: seq<WifiNetwork>): seq<WifiNetwork> {
    SortNetworks(Dedupe(scan))
  }

  // ---------------------------------------------------------- the service

  datatype Service = Service(
    snap: Snapshot,
    scanInProgress: bool,
    lastScan: Option<int>,
    connectingSsid: Option<string>,
    failedSsid: Option<string>,
    knownCacheValid: bool,
    hasWifiDevice: bool)

  /** A transition's result: the new state and whether listeners heard of it. */
  datatype Step = Step(svc: Service, notified: bool, refreshRequested: bool)

  /** `ApDetails`: connected to `ssid`; listeners notified and a list
      refresh requested. */
  function ApDetails(svc: Service, ssid: Option<string>, strength: int): (s: Step)
    ensures s.svc.snap.connected && s.svc.snap.ssid == ssid && s.svc.snap.strength == strength
    ensures s.notified && s.refreshRequested
    ensures s.svc.snap.networks == svc.snap.networks && s.svc.scanInProgress == svc.scanInProgress
  {
    Step(svc.(snap := svc.snap.(connected := true, ssid := ssid, strength := strength)), true, true)
  }

  predicate Disconnected(snap: Snapshot) { !snap.connected && snap.ssid.None? && snap.strength == 0 }

  /** `set_disconnected`: clears the connection, notifying only when that
      changes anything. */
  function SetDisconnected(svc: Service): (s: Step)
    ensures Disconnected(s.svc.snap)
    ensures s.notified <==> !Disconnected(svc.snap)
    ensures !s.notified ==> s.svc == svc
    ensures s.svc.snap.networks == svc.snap.networks && !s.refreshRequested
  {
    if Disconnected(svc.snap) then Step(svc, false, false)
    else Step(svc.(snap := svc.snap.(connected := false, ssid := None, strength := 0)), true, false)
  }

  /** Whether a refresh carries fresh scan results: a LastScan value that
      is new, or newer than the one recorded. */
  predicate FreshResults(lastScan: Option<int>, prev: Option<int>) {
    lastScan.Some? && (prev.None? || lastScan.value > prev.value)
  }

  /** `NetworksRefreshed`: the list replaces the old one, the service is
      ready, and a pending scan ends when the refresh has no LastScan value
      or a fresh one. */
  function NetworksRefreshed(svc: Service, networks: seq<WifiNetwork>, lastScan: Option<int>): (s: Step)
    ensures s.svc.snap.networks == networks && s.svc.snap.isReady && s.notified
    ensures s.svc.lastScan == if lastScan.Some? then lastScan else svc.lastScan
    ensures !svc.scanInProgress ==> !s.svc.scanInProgress
    ensures svc.scanInProgress ==> (s.svc.scanInProgress <==> lastScan.Some? && !FreshResults(lastScan, svc.lastScan))
    ensures s.svc.snap.scanning == s.svc.scanInProgress
    ensures s.svc.snap.connectingSsid == svc.connectingSsid && s.svc.snap.failedSsid == svc.failedSsid
  {
    var scanning := svc.scanInProgress && !(lastScan.None? || FreshResults(lastScan, svc.lastScan));
    var snap := svc.snap.(networks := networks, isReady := true, scanning := scanning,
                          connectingSsid := svc.connectingSsid, failedSsid := svc.failedSsid);
    Step(svc.(snap := snap, scanInProgress := scanning, lastScan := if lastScan.Some? then lastScan else svc.lastScan),
         true, false)
  }

  /** `ConnectionAttemptFinished`: the attempt is over; a failure records
      the SSID for the password prompt and invalidates the saved-network
      cache, a success clears any earlier failure. */
  function ConnectionAttemptFinished(svc: Service, ssid: string, success: bool): (s: Step)
    ensures s.svc.connectingSsid.None? && s.svc.snap.connectingSsid.None?
    ensures s.svc.failedSsid == (if success then None else Some(ssid)) && s.svc.snap.failedSsid == s.svc.failedSsid
    ensures !success ==> !s.svc.knownCacheValid
    ensures success ==> s.svc.knownCacheValid == svc.knownCacheValid
    ensures s.notified && s.refreshRequested
  {
    var failed := if success then None else Some(ssid);
    var svc' := svc.(connectingSsid := None, failedSsid := failed,
                     knownCacheValid := success && svc.knownCacheValid);
    Step(svc'.(snap := svc.snap.(connectingSsid := None, failedSsid := failed)), true, true)
  }

  /** `update_nm_flags`: a changed `WirelessEnabled` is recorded; when Wi-Fi
      went off the connection is cleared and no network stays active. */
  function UpdateNmFlags(svc: Service, wifiEnabled: Option<bool>): (s: Step)
    ensures s.notified <==> wifiEnabled != svc.snap.wifiEnabled
    ensures !s.notified ==> s.svc == svc
    ensures s.svc.snap.wifiEnabled == wifiEnabled
    ensures s.notified && wifiEnabled == Some(false) ==>
              Disconnected(s.svc.snap)
              && |s.svc.snap.networks| == |svc.snap.networks|
              && forall i :: 0 <= i < |svc.snap.networks| ==>
                   s.svc.snap.networks[i] == svc.snap.networks[i].(active := false)
    ensures s.notified && wifiEnabled != Some(false) ==> s.svc.snap == svc.snap.(wifiEnabled := wifiEnabled)
  {
    if svc.snap.wifiEnabled == wifiEnabled then Step(svc, false, false)
    else if wifiEnabled == Some(false) then
      var nets := seq(|svc.snap.networks|, i requires 0 <= i < |svc.snap.networks| => svc.snap.networks[i].(active := false));
      Step(svc.(snap := svc.snap.(wifiEnabled := wifiEnabled, connected := false, ssid := None, strength := 0,
                                  networks := nets)), true, false)
    else Step(svc.(snap := svc.snap.(wifiEnabled := wifiEnabled)), true, false)
  }

  /** `scan_networks`: nothing while a scan runs or without a Wi-Fi
      device; otherwise the scan starts and listeners see it. */
  function ScanNetworks(svc: Service): (s: Step)
    ensures svc.scanInProgress || !svc.hasWifiDevice ==> s == Step(svc, false, false)
    ensures !svc.scanInProgress && svc.hasWifiDevice ==>
              s.svc.scanInProgress && s.svc.snap.scanning && s.notified
              && s.svc == svc.(scanInProgress := true, snap := svc.snap.(scanning := true))
  {
    if svc.scanInProgress || !svc.hasWifiDevice then Step(svc, false, false)
    else Step(svc.(scanInProgress := true, snap := svc.snap.(scanning := true)), true, false)
  }

  /** `clear_failed_state`. */
  function ClearFailedState(svc: Service): (s: Step)
    ensures s.svc.failedSsid.None? && s.svc.snap.failedSsid.None? && s.notified
    ensures s.svc.connectingSsid == svc.connectingSsid
  {
    Step(svc.(failedSsid := None, snap := svc.snap.(failedSsid := None)), true, false)
  }

  /** `connect_to_ssid`: the trimmed SSID, ignored when empty; otherwise
      it is being connected to and an earlier failure is forgotten. */
  function ConnectToSsid(svc: Service, ssid: string): (s: Step)
    ensures Trim(ssid) == [] ==> s == Step(svc, false, false)
    ensures Trim(ssid) != [] ==>
              && s.svc.connectingSsid == Some(Trim(ssid)) && s.svc.snap.connectingSsid == Some(Trim(ssid))
              && s.svc.failedSsid.None? && s.svc.snap.failedSsid.None? && s.notified
  {
    var t := Trim(ssid);
    if t == [] then Step(svc, false, false)
    else Step(svc.(failedSsid := None, connectingSsid := Some(t),
                   snap := svc.snap.(failedSsid := None, connectingSsid := Some(t))), true, false)
  }

  // --------------------------------------------------------- sequences

  /** A started scan ends with the first refresh that brings newer scan
      results. */
  lemma ScanEndsOnFreshResults(svc: Service, networks: seq<WifiNetwork>, stamp: int)
    requires !svc.scanInProgress && svc.hasWifiDevice
    requires svc.lastScan.None? || stamp > svc.lastScan.value
    ensures ScanNetworks(svc).svc.scanInProgress
    ensures !NetworksRefreshed(ScanNetworks(svc).svc, networks, Some(stamp)).svc.snap.scanning
  {
  }

  /** A refresh with an unchanged LastScan leaves a running scan running. */
  lemma StaleResultsKeepScanning(svc: Service, networks: seq<WifiNetwork>)
    requires svc.scanInProgress && svc.lastScan.Some?
    ensures NetworksRefreshed(svc, networks, svc.lastScan).svc.snap.scanning
  {
  }

  /** A failed connection leaves the SSID for the password prompt, and a
      new attempt at it clears that again. */
  lemma FailureThenRetry(svc: Service, ssid: string)
    requires Trim(ssid) != []
    ensures var failed := ConnectionAttemptFinished(ConnectToSsid(svc, ssid).svc, Trim(ssid), false).svc;
            && failed.failedSsid == Some(Trim(ssid)) && failed.connectingSsid.None?
            && ConnectToSsid(failed, ssid).svc.failedSsid.None?
  {
  }

  /** Disconnecting twice notifies at most once. */
  lemma SetDisconnectedIdempotent(svc: Service)
    ensures SetDisconnected(SetDisconnected(svc).svc) == Step(SetDisconnected(svc).svc, false, false)
  {
  }
}
