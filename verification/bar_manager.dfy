/*
 * The bar manager (`services/bar_manager.rs`): one bar per monitor, keyed
 * by the monitor's connector name, kept in step with the connected
 * monitors and the `bar.outputs` allow-list, and the wait for monitors that
 * GDK reports before they are fully set up.
 *
 * GTK is not modelled: a monitor is the record of what the manager reads
 * from it, a bar is the monitor index and configuration it was built with,
 * and the signal handlers of the readiness wait become a sequence of
 * notifications.
 */
module BarManager {
  import opened Common

  /** What the manager reads from a GDK monitor: its connector name, its
      width and its identity (the object's address). */
  datatype Monitor = Monitor(connector: Option<string>, width: int, ident: nat)

  /** The part of the configuration the manager consults: the allow-list of
      outputs (empty means every monitor). `generation` stands for the rest
      of the configuration a bar is built from. */
  datatype BarConfig = BarConfig(outputs: seq<string>, generation: nat)

  /** A bar window and the configuration it was built with. */
  datatype Bar = Bar(monitorIndex: nat, config: BarConfig)

  /** The manager: whether `init` has handed it the application, and the
      bars by monitor key. */
  datatype Manager = Manager(appReady: bool, bars: map<string, Bar>)

  const UNKNOWN_PREFIX: string := "unknown-"

  /** `monitor_key`: the connector name, else "unknown-N" for the monitor's
      index N. */
  function MonitorKey(m: Monitor, index: nat): (k: string)
    ensures m.connector.Some? ==> k == m.connector.value
    ensures m.connector.None? ==> StartsWith(k, UNKNOWN_PREFIX) && AllDigits(k[|UNKNOWN_PREFIX|..])
                                  && DigitsValue(k[|UNKNOWN_PREFIX|..]) == index
  {
    match m.connector
    case Some(c) => c
    case None =>
      var k := UNKNOWN_PREFIX + NatToString(index);
      DigitsOfNat(index);
      assert k[|UNKNOWN_PREFIX|..] == NatToString(index);
      k
  }

  /** Monitors without a connector at different positions get different
      keys. */
  lemma UnknownKeysDistinct(m: Monitor, n: Monitor, i: nat, j: nat)
    requires m.connector.None? && n.connector.None? && i != j
    ensures MonitorKey(m, i) != MonitorKey(n, j)
  {
  }

  /** Whether the allow-list lets a monitor key have a bar. */
  predicate Allowed(cfg: BarConfig, key: string) {
    |cfg.outputs| == 0 || key in cfg.outputs
  }

  // -------------------------------------------------------- create, remove

  /** `create_bar_for_monitor`: no key before `init`; an existing bar is
      left alone and its key returned; otherwise a new bar is built. */
  function CreateBarForMonitor(mgr: Manager, m: Monitor, index: nat, cfg: BarConfig): (r: (Manager, Option<string>))
    ensures !mgr.appReady ==> r == (mgr, None)
    ensures mgr.appReady ==> r.1 == Some(MonitorKey(m, index))
    ensures mgr.appReady && MonitorKey(m, index) in mgr.bars ==> r.0 == mgr
    ensures mgr.appReady && MonitorKey(m, index) !in mgr.bars ==>
              r.0.bars == mgr.bars[MonitorKey(m, index) := Bar(index, cfg)]
    ensures r.0.appReady == mgr.appReady
  {
    if !mgr.appReady then (mgr, None)
    else
      var key := MonitorKey(m, index);
      if key in mgr.bars then (mgr, Some(key))
      else (mgr.(bars := mgr.bars[key := Bar(index, cfg)]), Some(key))
  }

  /** Creating twice for the same monitor builds one bar. */
  lemma CreateTwiceIsOnce(mgr: Manager, m: Monitor, index: nat, cfg: BarConfig, cfg2: BarConfig)
    ensures var once := CreateBarForMonitor(mgr, m, index, cfg).0;
            CreateBarForMonitor(once, m, index, cfg2).0 == once
  {
  }

  /** `remove_bar`: drops the key's bar, if there is one. */
  function RemoveBar(mgr: Manager, key: string): (r: Manager)
    ensures r.bars.Keys == mgr.bars.Keys - {key}
    ensures forall k :: k in r.bars ==> r.bars[k] == mgr.bars[k]
    ensures key !in mgr.bars ==> r == mgr
    ensures r.appReady == mgr.appReady
  {
    if key in mgr.bars then mgr.(bars := mgr.bars - {key}) else mgr
  }

  // ------------------------------------------------------------------ sync

  /** The keys of the listed monitors the allow-list lets through; a
      `None` entry is a list item that is not a monitor. */
  function SeenKeys(ms: seq<Option<Monitor>>, cfg: BarConfig): (seen: set<string>)
    ensures forall i :: 0 <= i < |ms| && ms[i].Some? && Allowed(cfg, MonitorKey(ms[i].value, i)) ==> MonitorKey(ms[i].value, i) in seen
    ensures forall k :: k in seen ==> Allowed(cfg, k)
  {
    set i, m | 0 <= i < |ms| && m == ms[i] && m.Some? && Allowed(cfg, MonitorKey(m.value, i)) :: MonitorKey(m.value, i)
  }

  /** The creation loop of `sync_monitors` over the first `n` items. */
  function CreateLoop(mgr: Manager, ms: seq<Option<Monitor>>, cfg: BarConfig, n: nat): (r: Manager)
    requires n <= |ms|
    ensures r.appReady == mgr.appReady
    ensures mgr.bars.Keys <= r.bars.Keys
    ensures forall k :: k in mgr.bars ==> r.bars[k] == mgr.bars[k]
  {
    if n == 0 then mgr
    else
      var r0 := CreateLoop(mgr, ms, cfg, n - 1);
      var i := n - 1;
      match ms[i]
      case None => r0
      case Some(m) =>
        if Allowed(cfg, MonitorKey(m, i)) && MonitorKey(m, i) !in r0.bars
        then CreateBarForMonitor(r0, m, i, cfg).0 else r0
  }

  /** After the creation loop (with the application ready) every monitor
      the allow-list lets through has a bar, and every new bar is one of
      those monitors', built from the given configuration. */
  lemma {:induction false} CreateLoopSpec(mgr: Manager, ms: seq<Option<Monitor>>, cfg: BarConfig, n: nat)
    requires n <= |ms| && mgr.appReady
    ensures var r := CreateLoop(mgr, ms, cfg, n);
            && (forall i :: 0 <= i < n && ms[i].Some? && Allowed(cfg, MonitorKey(ms[i].value, i)) ==> MonitorKey(ms[i].value, i) in r.bars)
            && (forall k :: k in r.bars && k !in mgr.bars ==> k in SeenKeys(ms, cfg) && r.bars[k].config == cfg)
  {
    if n > 0 {
      CreateLoopSpec(mgr, ms, cfg, n - 1);
    }
  }

  /** Without the application no bar can be built. */
  lemma {:induction false} CreateLoopNeedsApp(mgr: Manager, ms: seq<Option<Monitor>>, cfg: BarConfig, n: nat)
    requires n <= |ms| && !mgr.appReady
    ensures CreateLoop(mgr, ms, cfg, n) == mgr
  {
    if n > 0 {
      CreateLoopNeedsApp(mgr, ms, cfg, n - 1);
    }
  }

  lemma CreateLoopFacts(mgr: Manager, ms: seq<Option<Monitor>>, cfg: BarConfig)
    ensures var r := CreateLoop(mgr, ms, cfg, |ms|);
            && (mgr.appReady ==> forall i :: 0 <= i < |ms| && ms[i].Some? && Allowed(cfg, MonitorKey(ms[i].value, i)) ==> MonitorKey(ms[i].value, i) in r.bars)
            && (mgr.appReady ==> forall k :: k in r.bars && k !in mgr.bars ==> k in SeenKeys(ms, cfg) && r.bars[k].config == cfg)
            && (!mgr.appReady ==> r == mgr)
  {
    if mgr.appReady { CreateLoopSpec(mgr, ms, cfg, |ms|); } else { CreateLoopNeedsApp(mgr, ms, cfg, |ms|); }
  }

  /** `sync_monitors`: build the missing bars, then drop every bar whose key
      was not seen. */
  function SyncMonitors(mgr: Manager, ms: seq<Option<Monitor>>, cfg: BarConfig): (r: Manager)
    ensures r.appReady == mgr.appReady
    ensures mgr.appReady ==> r.bars.Keys == SeenKeys(ms, cfg)
    ensures !mgr.appReady ==> r.bars.Keys == mgr.bars.Keys * SeenKeys(ms, cfg)
    ensures forall k :: k in r.bars && k in mgr.bars ==> r.bars[k] == mgr.bars[k]
    ensures forall k :: k in r.bars && k !in mgr.bars ==> r.bars[k].config == cfg
  {
    var created := CreateLoop(mgr, ms, cfg, |ms|);
    var seen := SeenKeys(ms, cfg);
    CreateLoopFacts(mgr, ms, cfg);
    mgr.(bars := map k | k in created.bars && k in seen :: created.bars[k])
  }

  /** With an empty allow-list every monitor gets a bar. */
  lemma EmptyAllowListMeansAll(mgr: Manager, ms: seq<Option<Monitor>>, cfg: BarConfig, i: nat)
    requires mgr.appReady && |cfg.outputs| == 0 && i < |ms| && ms[i].Some?
    ensures MonitorKey(ms[i].value, i) in SyncMonitors(mgr, ms, cfg).bars
  {
  }

  /** A second sync with the same monitors and configuration changes
      nothing. */
  lemma SyncIdempotent(mgr: Manager, ms: seq<Option<Monitor>>, cfg: BarConfig)
    requires mgr.appReady
    ensures var once := SyncMonitors(mgr, ms, cfg);
            SyncMonitors(once, ms, cfg) == once
  {
    var once := SyncMonitors(mgr, ms, cfg);
    var twice := SyncMonitors(once, ms, cfg);
    assert twice.bars.Keys == once.bars.Keys;
  }

  /** `reconfigure_all`: every bar is removed, then the monitors are synced
      again, so every bar is rebuilt from the new configuration. */
  function ReconfigureAll(mgr: Manager, ms: seq<Option<Monitor>>, cfg: BarConfig): (r: Manager)
    ensures r == SyncMonitors(mgr.(bars := map[]), ms, cfg)
    ensures forall k :: k in r.bars ==> r.bars[k].config == cfg
    ensures mgr.appReady ==> r.bars.Keys == SeenKeys(ms, cfg)
  {
    var cleared := RemoveAll(mgr, mgr.bars.Keys);
    SyncMonitors(cleared, ms, cfg)
  }

  /** Removing the bars of a set of keys one by one. */
  function RemoveAll(mgr: Manager, keys: set<string>): (r: Manager)
    requires keys == mgr.bars.Keys
    ensures r == mgr.(bars := map[])
    decreases |keys|
  {
    if keys == {} then mgr.(bars := map[])
    else
      var k :| k in keys;
      var next := RemoveBar(mgr, k);
      RemoveAll(next, keys - {k})
  }

  /** A plain sync keeps a bar built from an older configuration when its
      monitor is still there; only reconfiguring rebuilds it. */
  lemma SyncKeepsOldBars(mgr: Manager, ms: seq<Option<Monitor>>, cfg: BarConfig, k: string)
    requires mgr.appReady && k in mgr.bars && k in SeenKeys(ms, cfg)
    ensures SyncMonitors(mgr, ms, cfg).bars[k] == mgr.bars[k]
    ensures ReconfigureAll(mgr, ms, cfg).bars[k].config == cfg
  {
  }

  // -------------------------------------------------------------- readiness

  /** `monitor_is_ready`: a connector name and a positive width. */
  predicate Ready(m: Monitor) { m.connector.Some? && m.width > 0 }

  /** The wait for monitors to become ready: the identities still pending
      and how often the sync has run. */
  datatype Wait = Wait(pending: set<nat>, syncs: nat)

  /** The wait's invariant: the sync has run once exactly when nothing is
      pending any more, and never more than once. */
  predicate WaitInvariant(w: Wait) {
    w.syncs == if w.pending == {} then 1 else 0
  }

  /** `sync_monitors_when_ready` at the start: the listed monitors that are
      not ready are pending; with none, the sync runs at once. */
  function StartWait(ms: seq<Option<Monitor>>): (w: Wait)
    ensures forall i :: 0 <= i < |ms| && ms[i].Some? && !Ready(ms[i].value) ==> ms[i].value.ident in w.pending
    ensures forall x :: x in w.pending ==> exists i :: 0 <= i < |ms| && ms[i].Some? && !Ready(ms[i].value) && ms[i].value.ident == x
    ensures WaitInvariant(w)
  {
    var pending := set i | 0 <= i < |ms| && ms[i].Some? && !Ready(ms[i].value) :: ms[i].value.ident;
    Wait(pending, if pending == {} then 1 else 0)
  }

  /** The `check_ready` closure on a connector or geometry notification: a
      now-ready monitor leaves the pending set, and the one removal that
      empties it runs the sync. */
  function CheckReady(w: Wait, m: Monitor): (r: Wait)
    requires WaitInvariant(w)
    ensures WaitInvariant(r)
    ensures Ready(m) ==> r.pending == w.pending - {m.ident}
    ensures !Ready(m) ==> r == w
    ensures r.syncs == w.syncs + (if Ready(m) && w.pending == {m.ident} then 1 else 0)
  {
    if Ready(m) && m.ident in w.pending then
      var pending := w.pending - {m.ident};
      Wait(pending, if pending == {} then w.syncs + 1 else w.syncs)
    else w
  }

  /** A repeated notification for the same monitor changes nothing more. */
  lemma CheckReadyIdempotent(w: Wait, m: Monitor)
    requires WaitInvariant(w)
    ensures CheckReady(CheckReady(w, m), m) == CheckReady(w, m)
  {
  }

  /** Notifications in the order the signals fire. */
  function Notify(w: Wait, events: seq<Monitor>): (r: Wait)
    requires WaitInvariant(w)
    ensures WaitInvariant(r)
    decreases |events|
  {
    if events == [] then w else Notify(CheckReady(w, events[0]), events[1..])
  }

  /** Whatever the notifications, the sync runs at most once, and it has
      run exactly when every pending monitor has reported ready. */
  lemma SyncRunsOnce(ms: seq<Option<Monitor>>, events: seq<Monitor>)
    ensures var r := Notify(StartWait(ms), events);
            r.syncs <= 1 && (r.syncs == 1 <==> r.pending == {})
  {
  }

  /** Every pending monitor reporting ready empties the set. */
  lemma {:induction false} AllReadyEmpties(w: Wait, events: seq<Monitor>)
    requires WaitInvariant(w)
    requires forall i :: 0 <= i < |events| ==> Ready(events[i])
    requires forall x :: x in w.pending ==> exists i :: 0 <= i < |events| && events[i].ident == x
    ensures Notify(w, events).pending == {}
    decreases |events|
  {
    if events != [] {
      var w1 := CheckReady(w, events[0]);
      forall x | x in w1.pending ensures exists i :: 0 <= i < |events[1..]| && events[1..][i].ident == x {
        var i :| 0 <= i < |events| && events[i].ident == x;
        assert i != 0;
        assert events[1..][i - 1] == events[i];
      }
      AllReadyEmpties(w1, events[1..]);
    }
  }
}
