/*
 * The Hyprland backend's reducers (`services/compositor/hyprland.rs`): the
 * event-line dispatch, the active-workspace update, the occupied/window
 * count refresh and the focused-monitor tracking.
 *
 * Hyprland's sockets are not modelled: the JSON replies a handler would
 * query (`monitors`, `workspaces`, `activewindow`, `clients`) are given as
 * a `Replies` value, `None` standing for a failed query.
 */
module Hyprland {
  import opened Common
  import opened Compositor
  import opened Sorting

  /** Hyprland exposes workspaces 1 to 10. */
  const DEFAULT_WORKSPACE_COUNT: nat := 10

  /** An entry of the `monitors` reply. */
  datatype Monitor = Monitor(name: Option<string>, activeWorkspace: Option<int>, focused: bool)

  /** An entry of the `workspaces` reply. */
  datatype HyprWorkspace = HyprWorkspace(id: Option<int>, windows: Option<int>, monitor: Option<string>)

  /** The `activewindow` reply; a missing title or class reads as "". */
  datatype ActiveWindow = ActiveWindow(title: string, appClass: string, workspaceId: Option<int>, monitor: Option<string>)

  /** An entry of the `clients` reply; a missing address reads as "". */
  datatype Client = Client(address: string, workspaceId: Option<int>)

  datatype Replies = Replies(
    monitors: Option<seq<Monitor>>,
    workspaces: Option<seq<HyprWorkspace>>,
    activeWindow: Option<ActiveWindow>,
    clients: Option<seq<Client>>)

  /** The backend's state: the snapshot, the focused window, the fixed
      workspace list, each monitor's active workspace and the focused
      monitor. */
  datatype Hypr = Hypr(
    snapshot: WorkspaceSnapshot,
    focused: Option<WindowInfo>,
    workspaces: seq<WorkspaceMeta>,
    monitorWs: map<string, int>,
    focusedMon: Option<string>)

  /** The workspace list `new` builds: 1 to 10, named by number, on no
      output. */
  function DefaultWorkspaces(): (r: seq<WorkspaceMeta>)
    ensures |r| == DEFAULT_WORKSPACE_COUNT
    ensures forall i :: 0 <= i < |r| ==> r[i].id == i + 1 && r[i].output.None?
  {
    seq(DEFAULT_WORKSPACE_COUNT, (i: int) => WorkspaceMeta(i + 1, IntToString(i + 1), None))
  }

  /** Every default workspace is named by its number. */
  lemma DefaultNamesAreIds(i: nat)
    requires i < DEFAULT_WORKSPACE_COUNT
    ensures AllDigits(DefaultWorkspaces()[i].name) && DigitsValue(DefaultWorkspaces()[i].name) == DefaultWorkspaces()[i].id
  {
    DigitsOfNat(i + 1);
  }

  function NewBackend(): (h: Hypr)
    ensures h.snapshot == DefaultSnapshot() && h.focused.None? && h.focusedMon.None?
    ensures h.workspaces == DefaultWorkspaces()
  {
    Hypr(DefaultSnapshot(), None, DefaultWorkspaces(), map[], None)
  }

  /** `list_workspaces`: the list never changes after `new`. */
  function ListWorkspaces(h: Hypr): seq<WorkspaceMeta> {
    h.workspaces
  }

  // --------------------------------------------------------------- monitors

  /** A monitor that names itself and its active workspace. */
  predicate Usable(m: Monitor) { m.name.Some? && m.activeWorkspace.Some? }

  /** The loop of `fetch_monitors`: each usable monitor records its active
      workspace (`as i32`); the last focused one is the focused monitor. */
  function ScanMonitors(ms: seq<Monitor>): (r: (map<string, int>, Option<string>))
    ensures r.1.Some? ==> r.1.value in r.0
    ensures forall n :: n in r.0 <==> exists i :: 0 <= i < |ms| && Usable(ms[i]) && ms[i].name.value == n
  {
    if ms == [] then (map[], None)
    else
      var init := ms[..|ms| - 1];
      var last := ms[|ms| - 1];
      var (m, f) := ScanMonitors(init);
      assert forall i :: 0 <= i < |init| ==> init[i] == ms[i];
      if Usable(last) then
        (m[last.name.value := WrapI32(last.activeWorkspace.value)], if last.focused then last.name else f)
      else (m, f)
  }

  /** `fetch_monitors`: a failed query leaves the monitor state alone. */
  function FetchMonitors(h: Hypr, monitors: Option<seq<Monitor>>): (r: Hypr)
    ensures r.snapshot == h.snapshot && r.focused == h.focused && r.workspaces == h.workspaces
    ensures r.focusedMon.Some? && r.focusedMon != h.focusedMon ==> r.focusedMon.value in r.monitorWs
    ensures monitors.None? ==> r == h
  {
    match monitors
    case None => h
    case Some(ms) =>
      var (m, f) := ScanMonitors(ms);
      h.(monitorWs := m, focusedMon := f)
  }

  // ------------------------------------------------------------- workspaces

  /** A workspace entry the refresh counts: it has an id and a window count,
      and the id is positive. */
  predicate Counts(e: HyprWorkspace) { e.id.Some? && e.windows.Some? && e.id.value > 0 }

  function KeyOf(e: HyprWorkspace): int requires Counts(e) { WrapI32(e.id.value) }
  function WindowsOf(e: HyprWorkspace): nat requires Counts(e) { WrapU32(e.windows.value) }

  /** The snapshot the refresh loop starts from: occupied, counts and
      outputs cleared, then an output state per known monitor holding its
      active workspace. Active and urgent stay. */
  function ResetForRefresh(snap: WorkspaceSnapshot, monitorWs: map<string, int>): (r: WorkspaceSnapshot)
    ensures r.occupied == {} && |r.windowCounts| == 0 && r.active == snap.active && r.urgent == snap.urgent
    ensures r.perOutput.Keys == monitorWs.Keys
    ensures forall m :: m in monitorWs ==> r.perOutput[m] == PerOutputState({monitorWs[m]}, {}, map[])
  {
    snap.(occupied := {}, windowCounts := map[],
          perOutput := map m | m in monitorWs :: PerOutputState({monitorWs[m]}, {}, map[]))
  }

  /** One iteration of the workspace loop. */
  function AddWorkspace(snap: WorkspaceSnapshot, e: HyprWorkspace): WorkspaceSnapshot {
    if !Counts(e) then snap
    else
      var id := KeyOf(e);
      var w := WindowsOf(e);
      var occ := if w > 0 then snap.occupied + {id} else snap.occupied;
      var po := match e.monitor
                case None => snap.perOutput
                case Some(mn) =>
                  var p := if mn in snap.perOutput then snap.perOutput[mn] else DefaultPerOutput();
                  snap.perOutput[mn := p.(windowCounts := p.windowCounts[id := w],
                                          occupied := if w > 0 then p.occupied + {id} else p.occupied)];
      snap.(windowCounts := snap.windowCounts[id := w], occupied := occ, perOutput := po)
  }

  function ScanWorkspaces(snap: WorkspaceSnapshot, es: seq<HyprWorkspace>): WorkspaceSnapshot {
    if es == [] then snap else AddWorkspace(ScanWorkspaces(snap, es[..|es| - 1]), es[|es| - 1])
  }

  /** No two counted entries share a key, as Hyprland's workspace ids are
      unique. */
  predicate DistinctKeys(es: seq<HyprWorkspace>) {
    forall i, j :: 0 <= i < j < |es| && Counts(es[i]) && Counts(es[j]) ==> KeyOf(es[i]) != KeyOf(es[j])
  }

  /** After the loop, counted ids are exactly the counted entries' keys and
      every occupied workspace has a count. */
  lemma {:induction false} ScanCounted(snap: WorkspaceSnapshot, monitorWs: map<string, int>, es: seq<HyprWorkspace>, x: int)
    ensures var r := ScanWorkspaces(ResetForRefresh(snap, monitorWs), es);
            && (x in r.windowCounts <==> exists i :: 0 <= i < |es| && Counts(es[i]) && KeyOf(es[i]) == x)
            && (x in r.occupied ==> x in r.windowCounts)
            && (x in r.windowCounts && r.windowCounts[x] > 0 ==> x in r.occupied)
            && r.active == snap.active && r.urgent == snap.urgent
  {
    if es != [] {
      var init := es[..|es| - 1];
      ScanCounted(snap, monitorWs, init, x);
      assert forall i :: 0 <= i < |init| ==> init[i] == es[i];
    }
  }

  /** With unique ids a workspace is occupied exactly when its window count
      is positive. */
  lemma {:induction false} OccupiedIffWindows(snap: WorkspaceSnapshot, monitorWs: map<string, int>, es: seq<HyprWorkspace>, x: int)
    requires DistinctKeys(es)
    ensures var r := ScanWorkspaces(ResetForRefresh(snap, monitorWs), es);
            x in r.occupied <==> x in r.windowCounts && r.windowCounts[x] > 0
  {
    if es != [] {
      var init := es[..|es| - 1];
      var last := es[|es| - 1];
      assert DistinctKeys(init) by {
        forall i, j | 0 <= i < j < |init| && Counts(init[i]) && Counts(init[j]) ensures KeyOf(init[i]) != KeyOf(init[j]) {
          assert init[i] == es[i] && init[j] == es[j];
        }
      }
      OccupiedIffWindows(snap, monitorWs, init, x);
      ScanCounted(snap, monitorWs, init, x);
      if Counts(last) && KeyOf(last) == x {
        forall i | 0 <= i < |init| && Counts(init[i]) ensures KeyOf(init[i]) != x {
          assert init[i] == es[i];
        }
      }
    }
  }

  /** `refresh_occupied`: monitors first, then the workspace counts. The
      active workspace becomes the focused monitor's, and stays as it was
      when that lookup fails. Reports whether occupied or active changed. */
  function RefreshOccupied(h: Hypr, replies: Replies): (r: (Hypr, bool))
    ensures r.0.focused == h.focused && r.0.workspaces == h.workspaces
    ensures replies.workspaces.None? ==> !r.1 && r.0 == FetchMonitors(h, replies.monitors)
    ensures replies.workspaces.Some? ==>
              var h1 := FetchMonitors(h, replies.monitors);
              && (r.1 <==> r.0.snapshot.occupied != h.snapshot.occupied || r.0.snapshot.active != h.snapshot.active)
              && (h1.focusedMon.Some? && h1.focusedMon.value in h1.monitorWs ==>
                    r.0.snapshot.active == {h1.monitorWs[h1.focusedMon.value]})
              && (!(h1.focusedMon.Some? && h1.focusedMon.value in h1.monitorWs) ==>
                    r.0.snapshot.active == h.snapshot.active)
              && r.0.snapshot.urgent == h.snapshot.urgent
  {
    var h1 := FetchMonitors(h, replies.monitors);
    match replies.workspaces
    case None => (h1, false)
    case Some(es) =>
      var previous := h1.snapshot.active;
      var oldOccupied := h1.snapshot.occupied;
      var snap := ScanWorkspaces(ResetForRefresh(h1.snapshot, h1.monitorWs), es);
      ScanCounted(h1.snapshot, h1.monitorWs, es, 0);
      var active := if h1.focusedMon.Some? && h1.focusedMon.value in h1.monitorWs then {h1.monitorWs[h1.focusedMon.value]}
                    else if snap.active == {} then previous
                    else snap.active;
      var snap1 := snap.(active := active);
      (h1.(snapshot := snap1), snap1.occupied != oldOccupied || active != previous)
  }

  /** The initial fetch (`fetch_initial_state`), as written: the focused
      monitor's workspace is ADDED to the active set, never replacing it. */
  function FetchInitialState(h: Hypr, replies: Replies): (r: Hypr)
    ensures r.workspaces == h.workspaces
    ensures replies.workspaces.Some? ==>
              var h1 := FetchMonitors(h, replies.monitors);
              && (h1.focusedMon.Some? && h1.focusedMon.value in h1.monitorWs ==>
                    r.snapshot.active == h.snapshot.active + {h1.monitorWs[h1.focusedMon.value]})
  {
    var h1 := FetchMonitors(h, replies.monitors);
    var h2 := (match replies.workspaces
              case None => h1
              case Some(es) =>
                var snap := ScanWorkspaces(ResetForRefresh(h1.snapshot, h1.monitorWs), es);
                ScanCounted(h1.snapshot, h1.monitorWs, es, 0);
                var active := if h1.focusedMon.Some? && h1.focusedMon.value in h1.monitorWs
                              then snap.active + {h1.monitorWs[h1.focusedMon.value]} else snap.active;
                h1.(snapshot := snap.(active := active)));
    RefreshActiveWindow(h2, replies.activeWindow).0
  }

  /** The initial fetch as evidently intended when it is reused for a named
      workspace: the focused monitor's workspace REPLACES the active set, as
      `refresh_occupied` does. */
  function FetchInitialStateIntended(h: Hypr, replies: Replies): (r: Hypr)
    ensures r.workspaces == h.workspaces
    ensures replies.workspaces.Some? ==>
              var h1 := FetchMonitors(h, replies.monitors);
              && (h1.focusedMon.Some? && h1.focusedMon.value in h1.monitorWs ==>
                    r.snapshot.active == {h1.monitorWs[h1.focusedMon.value]})
  {
    var h1 := FetchMonitors(h, replies.monitors);
    var h2 := (match replies.workspaces
              case None => h1
              case Some(es) =>
                var snap := ScanWorkspaces(ResetForRefresh(h1.snapshot, h1.monitorWs), es);
                ScanCounted(h1.snapshot, h1.monitorWs, es, 0);
                var active := if h1.focusedMon.Some? && h1.focusedMon.value in h1.monitorWs
                              then {h1.monitorWs[h1.focusedMon.value]} else snap.active;
                h1.(snapshot := snap.(active := active)));
    RefreshActiveWindow(h2, replies.activeWindow).0
  }

  /** A monitor reply naming one focused monitor on workspace `b`. */
  function FocusedOn(mon: string, b: int): Replies
    requires IsI32(b)
  {
    Replies(Some([Monitor(Some(mon), Some(b), true)]), Some([]), None, None)
  }

  /** As written, a refetch after switching from workspace `a` to `b`
      leaves both active, so the bar highlights two workspaces. */
  lemma RefetchKeepsOldActive(h: Hypr, mon: string, a: int, b: int)
    requires h.snapshot.active == {a} && a != b && IsI32(b)
    ensures FetchInitialState(h, FocusedOn(mon, b)).snapshot.active == {a, b}
  {
    var ms := [Monitor(Some(mon), Some(b), true)];
    assert ms[..0] == [];
    assert ScanMonitors(ms) == (map[mon := b], Some(mon));
  }

  /** Corrected, the refetch leaves only `b` active, as the refresh does. */
  lemma RefetchIntendedReplacesActive(h: Hypr, mon: string, a: int, b: int)
    requires h.snapshot.active == {a} && a != b && IsI32(b)
    ensures FetchInitialStateIntended(h, FocusedOn(mon, b)).snapshot.active == {b}
    ensures FetchInitialStateIntended(h, FocusedOn(mon, b)).snapshot.active
            == RefreshOccupied(h, FocusedOn(mon, b)).0.snapshot.active
  {
    var ms := [Monitor(Some(mon), Some(b), true)];
    assert ms[..0] == [];
    assert ScanMonitors(ms) == (map[mon := b], Some(mon));
  }

  // ---------------------------------------------------------- active state

  /** A set is `{x}` exactly when it holds `x` and nothing else. */
  lemma SingletonIff(s: set<int>, x: int)
    ensures s == {x} <==> x in s && |s| == 1
  {
    if x in s && |s| == 1 {
      var rest := s - {x};
      assert |rest| == 0;
      assert s == rest + {x};
    }
  }

  /** `update_active_workspace`: a change exactly when the active set was
      not already `{ws}`; afterwards it is, and the focused monitor (when
      known) records `ws` as its active workspace. */
  function UpdateActiveWorkspace(h: Hypr, ws: int): (r: (Hypr, bool))
    ensures r.1 <==> h.snapshot.active != {ws}
    ensures r.0.snapshot.active == {ws}
    ensures r.0.snapshot.occupied == h.snapshot.occupied && r.0.snapshot.urgent == h.snapshot.urgent
    ensures r.1 && h.focusedMon.Some? ==>
              var m := h.focusedMon.value;
              && r.0.monitorWs == h.monitorWs[m := ws]
              && m in r.0.snapshot.perOutput && r.0.snapshot.perOutput[m].active == {ws}
    ensures !r.1 || h.focusedMon.None? ==> r.0.monitorWs == h.monitorWs && r.0.snapshot.perOutput == h.snapshot.perOutput
  {
    var old_ := h.snapshot.active;
    SingletonIff(old_, ws);
    var changed := ws !in old_ || |old_| != 1;
    if !changed then (h, false)
    else
      var snap := h.snapshot.(active := {ws});
      match h.focusedMon
      case None => (h.(snapshot := snap), true)
      case Some(m) =>
        var p := if m in snap.perOutput then snap.perOutput[m] else DefaultPerOutput();
        (h.(snapshot := snap.(perOutput := snap.perOutput[m := p.(active := {ws})]),
            monitorWs := h.monitorWs[m := ws]), true)
  }

  /** Switching to the workspace already active alone is no change. */
  lemma UpdateActiveIdempotent(h: Hypr, ws: int)
    ensures !UpdateActiveWorkspace(UpdateActiveWorkspace(h, ws).0, ws).1
  {
  }

  /** `refresh_active_window`: the reply becomes the focused window; the
      change is reported exactly when it differs from the current one. */
  function RefreshActiveWindow(h: Hypr, reply: Option<ActiveWindow>): (r: (Hypr, bool))
    ensures reply.None? ==> r == (h, false)
    ensures reply.Some? ==>
              var w := reply.value;
              var info := WindowInfo(w.title, w.appClass, if w.workspaceId.Some? then Some(WrapI32(w.workspaceId.value)) else None, w.monitor);
              && r.0.focused == Some(info)
              && (r.1 <==> h.focused != Some(info))
    ensures r.0 == h.(focused := r.0.focused)
  {
    match reply
    case None => (h, false)
    case Some(w) =>
      var info := WindowInfo(w.title, w.appClass, if w.workspaceId.Some? then Some(WrapI32(w.workspaceId.value)) else None, w.monitor);
      if h.focused != Some(info) then (h.(focused := Some(info)), true) else (h, false)
  }

  // ---------------------------------------------------------------- events

  /** The first position of ">>" in the line (`split_once(">>")`). */
  function FindArrow(s: string): (r: Option<nat>)
    ensures r.Some? ==> r.value + 2 <= |s| && s[r.value] == '>' && s[r.value + 1] == '>'
    ensures r.Some? ==> forall j :: 0 <= j < r.value ==> !(s[j] == '>' && s[j + 1] == '>')
    ensures r.None? ==> forall j :: 0 <= j < |s| - 1 ==> !(s[j] == '>' && s[j + 1] == '>')
  {
    if |s| < 2 then None
    else if s[0] == '>' && s[1] == '>' then Some(0)
    else match FindArrow(s[1..])
      case None => None
      case Some(i) => Some(i + 1)
  }

  /** An event name without '>' is split off exactly where it ends. */
  lemma {:induction false} ArrowAfterName(ev: string, data: string)
    requires '>' !in ev
    ensures FindArrow(ev + ">>" + data) == Some(|ev|)
  {
    if ev != [] {
      assert (ev + ">>" + data)[1..] == ev[1..] + ">>" + data;
      ArrowAfterName(ev[1..], data);
    }
  }

  /** The part of `data` before the first comma (`split(',').next()`). */
  function FirstField(data: string): (f: string)
    ensures ',' !in f && |f| <= |data| && f == data[..|f|]
  {
    match FindChar(data, ',')
    case Some(i) => data[..i]
    case None => data
  }

  /** The window an "urgent" event names, by its address with or without
      the "0x" prefix. */
  predicate Addressed(c: Client, data: string) {
    c.address == data || c.address == "0x" + data
  }

  /** The "urgent" handler: the first client whose address is `data`,
      with or without "0x", marks its positive workspace urgent. */
  function Urgent(h: Hypr, data: string, clients: Option<seq<Client>>): (r: (Hypr, bool))
    ensures r.0.snapshot.(urgent := h.snapshot.urgent) == h.snapshot
    ensures r.0 == h.(snapshot := r.0.snapshot)
    ensures r.1 ==> clients.Some? && exists c :: c in clients.value && Addressed(c, data) && c.workspaceId.Some? && c.workspaceId.value > 0
                                       && r.0.snapshot.urgent == h.snapshot.urgent + {WrapI32(c.workspaceId.value)}
    ensures clients.Some? && (forall c :: c in clients.value ==> !Addressed(c, data)) ==> !r.1
    ensures !r.1 ==> r.0 == h
  {
    match clients
    case None => (h, false)
    case Some(cs) =>
      match FirstWhere(cs, (c: Client) => Addressed(c, data))
      case None => (h, false)
      case Some(i) =>
        var ws := cs[i].workspaceId;
        if ws.Some? && ws.value > 0 then
          (h.(snapshot := h.snapshot.(urgent := h.snapshot.urgent + {WrapI32(ws.value)})), true)
        else (h, false)
  }

  /** The "focusedmon" handler: the monitor before the comma becomes the
      focused one and, when its workspace is known, the only active one. */
  function FocusedMon(h: Hypr, data: string): (r: (Hypr, bool))
    ensures ',' !in data ==> r == (h, false)
    ensures ',' in data ==>
              var mon := FirstField(data);
              && r.0.focusedMon == Some(mon)
              && (mon in h.monitorWs ==> r.0.snapshot.active == {h.monitorWs[mon]})
              && (mon !in h.monitorWs ==> r.0.snapshot == h.snapshot)
              && (r.1 <==> mon in h.monitorWs && h.snapshot.active != {h.monitorWs[mon]})
              && (r.1 && mon in h.snapshot.perOutput ==> mon in r.0.snapshot.perOutput && r.0.snapshot.perOutput[mon].active == {h.monitorWs[mon]})
  {
    match FindChar(data, ',')
    case None => (h, false)
    case Some(i) =>
      var mon := data[..i];
      var h1 := h.(focusedMon := Some(mon));
      if mon !in h.monitorWs then (h1, false)
      else
        var ws := h.monitorWs[mon];
        var a := h.snapshot.active;
        SingletonIff(a, ws);
        if ws !in a || |a| != 1 then
          var po := if mon in h.snapshot.perOutput
                    then h.snapshot.perOutput[mon := h.snapshot.perOutput[mon].(active := {ws})]
                    else h.snapshot.perOutput;
          (h1.(snapshot := h.snapshot.(active := {ws}, perOutput := po)), true)
        else (h1, false)
  }

  /** The new state and `handle_event`'s (workspace changed, window changed)
      pair. */
  datatype Outcome = Outcome(state: Hypr, workspaceChanged: bool, windowChanged: bool)

  /** The events that re-read occupied state. */
  predicate RefreshEvent(ev: string) {
    ev == "createworkspace" || ev == "destroyworkspace" || ev == "closewindow" || ev == "movewindow"
    || ev == "openwindow" || ev == "moveworkspace" || ev == "moveworkspacev2"
  }

  /** The event names `handle_event` acts on. */
  predicate KnownEvent(ev: string) {
    ev == "workspace" || ev == "workspacev2" || RefreshEvent(ev) || ev == "urgent"
    || ev == "activewindow" || ev == "activewindowv2" || ev == "focusedmon"
  }

  /** `handle_event` on one line of Hyprland's event socket: a line without
      ">>" or with an event name it does not know changes nothing, only the
      active-window events report a window change, and they never report a
      workspace change. */
  function HandleEvent(h: Hypr, line: string, replies: Replies): (r: Outcome)
    ensures FindArrow(line).None? ==> r == Outcome(h, false, false)
    ensures FindArrow(line).Some? && !KnownEvent(line[..FindArrow(line).value]) ==> r == Outcome(h, false, false)
    ensures r.windowChanged ==> !r.workspaceChanged && FindArrow(line).Some?
                                && line[..FindArrow(line).value] in ["activewindow", "activewindowv2"]
  {
    match FindArrow(line)
    case None => Outcome(h, false, false)
    case Some(k) =>
      var ev := line[..k];
      var data := line[k + 2..];
      if ev == "workspace" then
        match ParseI32(data)
        case Some(ws) => var (h1, c) := UpdateActiveWorkspace(h, ws); Outcome(h1, c, false)
        case None => Outcome(FetchInitialState(h, replies), true, false)
      else if ev == "workspacev2" then
        match ParseI32(FirstField(data))
        case Some(ws) => var (h1, c) := UpdateActiveWorkspace(h, ws); Outcome(h1, c, false)
        case None => Outcome(h, false, false)
      else if RefreshEvent(ev) then
        var (h1, c) := RefreshOccupied(h, replies); Outcome(h1, c, false)
      else if ev == "urgent" then
        var (h1, c) := Urgent(h, data, replies.clients); Outcome(h1, c, false)
      else if ev == "activewindow" || ev == "activewindowv2" then
        var (h1, c) := RefreshActiveWindow(h, replies.activeWindow); Outcome(h1, false, c)
      else if ev == "focusedmon" then
        var (h1, c) := FocusedMon(h, data); Outcome(h1, c, false)
      else Outcome(h, false, false)
  }

  /** Only the first client with the address counts: when it sits on no
      real workspace, a later client with the same address is ignored. */
  lemma UrgentFirstMatchOnly(h: Hypr, data: string, first: Client, rest: seq<Client>)
    requires Addressed(first, data) && (first.workspaceId.None? || first.workspaceId.value <= 0)
    ensures Urgent(h, data, Some([first] + rest)) == (h, false)
  {
    var cs := [first] + rest;
    assert cs[0] == first;
  }

  /** "workspacev2>>ID,NAME" switches to ID, whatever the name. */
  lemma Workspacev2UsesId(h: Hypr, id: string, name: string, replies: Replies)
    requires ParseI32(id).Some? && ',' !in id
    ensures var r := HandleEvent(h, "workspacev2" + ">>" + id + "," + name, replies);
            var u := UpdateActiveWorkspace(h, ParseI32(id).value);
            r == Outcome(u.0, u.1, false)
  {
    var line := "workspacev2" + ">>" + id + "," + name;
    assert '>' !in "workspacev2";
    assert line == "workspacev2" + ">>" + (id + "," + name);
    ArrowAfterName("workspacev2", id + "," + name);
    assert line[..11] == "workspacev2";
    var data := id + "," + name;
    assert line[13..] == data;
    var i := FindChar(data, ',').value;
    assert data[|id|] == ',';
    assert i == |id|;
    assert FirstField(data) == id;
  }

  /** "workspace>>NAME" with a non-numeric payload refetches everything
      and always reports a workspace change. */
  lemma NamedWorkspaceRefetches(h: Hypr, name: string, replies: Replies)
    requires ParseI32(name).None?
    ensures HandleEvent(h, "workspace" + ">>" + name, replies) == Outcome(FetchInitialState(h, replies), true, false)
  {
    assert '>' !in "workspace";
    ArrowAfterName("workspace", name);
    var line := "workspace" + ">>" + name;
    assert line[..9] == "workspace";
    assert line[11..] == name;
  }
}
