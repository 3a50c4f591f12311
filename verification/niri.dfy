/*
 * The Niri backend's reducers (`services/compositor/niri.rs`): how a
 * workspace list, the window cache and Niri's events turn into the
 * workspace snapshot, the focused window and the per-output windows.
 *
 * The socket, JSON decoding and threads are not modelled: an event arrives
 * as a decoded `NiriEvent`, and a missing boolean reads as false as the
 * source's `unwrap_or(false)` does. Rust's `HashMap`s iterate in an
 * unspecified order; the window cache is a sequence in its iteration order
 * and `outputOrder` records the order `id_to_output` is searched in.
 */
module Niri {
  import opened Common
  import opened Compositor
  import opened Sorting

  /** An entry of Niri's workspace list, as `process_workspaces` reads it. */
  datatype WorkspaceEntry = WorkspaceEntry(
    id: Option<nat>,
    idx: Option<int>,
    name: Option<string>,
    output: Option<string>,
    isFocused: bool,
    isActive: bool,
    isUrgent: bool)

  /** A cached window (`WindowData`). */
  datatype WindowData = WindowData(id: nat, title: string, appId: string, workspaceId: Option<nat>, isFocused: bool)

  /** An entry of Niri's window list; a missing title or app id is "". */
  datatype WindowEntry = WindowEntry(id: Option<nat>, title: string, appId: string, workspaceId: Option<nat>, isFocused: bool)

  /** `SharedState`. `idToIdx` maps Niri's workspace ids to the index shown. */
  datatype Shared = Shared(
    snapshot: WorkspaceSnapshot,
    focused: Option<WindowInfo>,
    workspaces: seq<WorkspaceMeta>,
    idToIdx: map<nat, int>,
    idToOutput: map<nat, string>,
    outputOrder: seq<nat>,
    windows: seq<WindowData>,
    perOutputWindow: map<string, WindowInfo>)

  /** `SharedState::default()`. */
  function Initial(): (s: Shared)
    ensures s.snapshot == DefaultSnapshot() && s.focused.None? && s.workspaces == [] && s.windows == []
  {
    Shared(DefaultSnapshot(), None, [], map[], map[], [], [], map[])
  }

  // ------------------------------------------------------------ workspaces

  /** The index an entry is shown under: `idx`, 1 when missing, as `i32`. */
  function IdxOf(e: WorkspaceEntry): int {
    WrapI32(e.idx.GetOr(1))
  }

  /** The listed workspace of an entry with an id; the name defaults to the
      index. */
  function EntryMeta(e: WorkspaceEntry): Option<WorkspaceMeta> {
    if e.id.None? then None
    else Some(WorkspaceMeta(IdxOf(e), e.name.GetOr(IntToString(IdxOf(e))), e.output))
  }

  /** What `process_workspaces` clears before its loop; windows, focus and
      per-output windows stay. */
  function Cleared(s: Shared): (c: Shared)
    ensures c.snapshot == DefaultSnapshot() && c.workspaces == [] && c.idToIdx == map[] && c.idToOutput == map[]
    ensures c.windows == s.windows && c.focused == s.focused && c.perOutputWindow == s.perOutputWindow
  {
    s.(snapshot := DefaultSnapshot(), workspaces := [], idToIdx := map[], idToOutput := map[], outputOrder := [])
  }

  /** The per-output part of one loop iteration: `entry(..).or_default()`,
      occupied with count 0, active when `is_active`. */
  function AddToOutput(po: map<string, PerOutputState>, out: string, idx: int, active: bool): (r: map<string, PerOutputState>)
    ensures r.Keys == po.Keys + {out}
    ensures forall o :: o in po && o != out ==> r[o] == po[o]
  {
    var p := if out in po then po[out] else DefaultPerOutput();
    po[out := PerOutputState(if active then p.active + {idx} else p.active, p.occupied + {idx}, p.windowCounts[idx := 0])]
  }

  /** One iteration of the loop of `process_workspaces`; an entry without
      an id is skipped. */
  function AddWorkspace(s: Shared, e: WorkspaceEntry): Shared {
    match e.id
    case None => s
    case Some(wsId) =>
      var idx := IdxOf(e);
      var snap := s.snapshot;
      s.(snapshot := WorkspaceSnapshot(
            if e.isFocused then snap.active + {idx} else snap.active,
            snap.occupied + {idx},
            if e.isUrgent then snap.urgent + {idx} else snap.urgent,
            snap.windowCounts[idx := 0],
            if e.output.Some? then AddToOutput(snap.perOutput, e.output.value, idx, e.isActive) else snap.perOutput),
         idToIdx := s.idToIdx[wsId := idx],
         idToOutput := if e.output.Some? then s.idToOutput[wsId := e.output.value] else s.idToOutput,
         outputOrder := if e.output.Some? then s.outputOrder + [wsId] else s.outputOrder,
         workspaces := s.workspaces + [WorkspaceMeta(idx, e.name.GetOr(IntToString(idx)), e.output)])
  }

  /** The loop of `process_workspaces` over the entries in order. */
  function Scan(s: Shared, es: seq<WorkspaceEntry>): Shared
  {
    if es == [] then s else AddWorkspace(Scan(s, es[..|es| - 1]), es[|es| - 1])
  }

  /** Which entries feed which set of the snapshot. */
  datatype Kind = AnyEntry | Focused | Urgent | OnOutput(o: string) | ActiveOn(o: string)

  predicate Holds(k: Kind, e: WorkspaceEntry) {
    e.id.Some? &&
    match k
    case AnyEntry => true
    case Focused => e.isFocused
    case Urgent => e.isUrgent
    case OnOutput(o) => e.output == Some(o)
    case ActiveOn(o) => e.output == Some(o) && e.isActive
  }

  /** Some entry of kind `k` is shown under index `x`. */
  predicate Marked(es: seq<WorkspaceEntry>, k: Kind, x: int) {
    exists i :: 0 <= i < |es| && Holds(k, es[i]) && IdxOf(es[i]) == x
  }

  lemma MarkedSnoc(es: seq<WorkspaceEntry>, k: Kind, x: int)
    requires es != []
    ensures Marked(es, k, x) <==> Marked(es[..|es| - 1], k, x) || (Holds(k, es[|es| - 1]) && IdxOf(es[|es| - 1]) == x)
  {
    var init := es[..|es| - 1];
    if Marked(es, k, x) && !(Holds(k, es[|es| - 1]) && IdxOf(es[|es| - 1]) == x) {
      var i :| 0 <= i < |es| && Holds(k, es[i]) && IdxOf(es[i]) == x;
      assert init[i] == es[i];
    }
    if Marked(init, k, x) {
      var i :| 0 <= i < |init| && Holds(k, init[i]) && IdxOf(init[i]) == x;
      assert es[i] == init[i];
    }
  }

  /** After the loop: occupied and counted are exactly the listed
      workspaces, every count is 0, active comes from `is_focused` and
      urgent from `is_urgent`. */
  lemma {:induction false} ScanSets(s: Shared, es: seq<WorkspaceEntry>, x: int)
    ensures var r := Scan(Cleared(s), es).snapshot;
            && (x in r.occupied <==> Marked(es, AnyEntry, x))
            && (x in r.windowCounts <==> Marked(es, AnyEntry, x))
            && (x in r.windowCounts ==> r.windowCounts[x] == 0)
            && (x in r.active <==> Marked(es, Focused, x))
            && (x in r.urgent <==> Marked(es, Urgent, x))
  {
    if es != [] {
      ScanSets(s, es[..|es| - 1], x);
      MarkedSnoc(es, AnyEntry, x);
      MarkedSnoc(es, Focused, x);
      MarkedSnoc(es, Urgent, x);
    }
  }

  /** After the loop: an output has a state exactly when some listed
      workspace is on it; it is occupied by the workspaces on it and active
      on those Niri reports `is_active`. */
  lemma {:induction false} ScanOutputs(s: Shared, es: seq<WorkspaceEntry>, o: string, x: int)
    ensures var r := Scan(Cleared(s), es).snapshot;
            && (o in r.perOutput <==> HasOutput(es, o))
            && (o in r.perOutput ==> (x in r.perOutput[o].occupied <==> Marked(es, OnOutput(o), x)))
            && (o in r.perOutput ==> (x in r.perOutput[o].active <==> Marked(es, ActiveOn(o), x)))
  {
    if es != [] {
      var init := es[..|es| - 1];
      ScanOutputs(s, init, o, x);
      MarkedSnoc(es, OnOutput(o), x);
      MarkedSnoc(es, ActiveOn(o), x);
      OnOutputSnoc(es, o);
    }
  }

  /** Some listed workspace is on output `o`. */
  predicate HasOutput(es: seq<WorkspaceEntry>, o: string) {
    exists i :: 0 <= i < |es| && Holds(OnOutput(o), es[i])
  }

  lemma OnOutputSnoc(es: seq<WorkspaceEntry>, o: string)
    requires es != []
    ensures HasOutput(es, o) <==> HasOutput(es[..|es| - 1], o) || Holds(OnOutput(o), es[|es| - 1])
  {
    var init := es[..|es| - 1];
    if HasOutput(es, o) {
      var i :| 0 <= i < |es| && Holds(OnOutput(o), es[i]);
      if i < |init| {
        assert init[i] == es[i];
      }
    }
    if HasOutput(init, o) {
      var i :| 0 <= i < |init| && Holds(OnOutput(o), init[i]);
      assert es[i] == init[i];
    }
  }

  /** After the loop the workspace list holds the listed entries in input
      order. */
  lemma {:induction false} ScanList(s: Shared, es: seq<WorkspaceEntry>)
    ensures Scan(Cleared(s), es).workspaces == FilterMap(es, EntryMeta)
  {
    if es != [] {
      var init := es[..|es| - 1];
      ScanList(s, init);
      assert es == init + [es[|es| - 1]];
      FilterMapAppend(init, [es[|es| - 1]], EntryMeta);
    }
  }

  /** Every Niri id the loop records maps to an occupied, counted index,
      so counting windows never adds a workspace. */
  predicate IdsCounted(s: Shared) {
    forall k :: k in s.idToIdx ==> s.idToIdx[k] in s.snapshot.occupied && s.idToIdx[k] in s.snapshot.windowCounts
  }

  lemma {:induction false} ScanIdsCounted(s: Shared, es: seq<WorkspaceEntry>)
    ensures IdsCounted(Scan(Cleared(s), es))
  {
    if es != [] {
      ScanIdsCounted(s, es[..|es| - 1]);
    }
  }

  /** The comparator of the sort in `process_workspaces`: workspaces with an
      output first, by output name then index; those without by index. */
  predicate MetaLe(a: WorkspaceMeta, b: WorkspaceMeta) {
    match (a.output, b.output)
    case (Some(oa), Some(ob)) => (StrLe(oa, ob) && oa != ob) || (oa == ob && a.id <= b.id)
    case (Some(_), None) => true
    case (None, Some(_)) => false
    case (None, None) => a.id <= b.id
  }

  lemma MetaLeTotal()
    ensures Total(MetaLe)
  {
    forall a: WorkspaceMeta, b: WorkspaceMeta ensures MetaLe(a, b) || MetaLe(b, a) {
      if a.output.Some? && b.output.Some? {
        StrLeTotal(a.output.value, b.output.value);
      }
    }
  }

  function SortWorkspaces(ws: seq<WorkspaceMeta>): (r: seq<WorkspaceMeta>)
    ensures multiset(r) == multiset(ws)
    ensures Sorted(r, MetaLe)
  {
    MetaLeTotal();
    SortBy(ws, MetaLe)
  }

  function OutputRank(m: WorkspaceMeta): int { if m.output.Some? then 0 else 1 }

  /** In the sorted list no workspace without an output comes before one
      with an output. */
  lemma OutputsFirst(r: seq<WorkspaceMeta>, i: nat, j: nat)
    requires Sorted(r, MetaLe) && i <= j < |r|
    ensures r[j].output.Some? ==> r[i].output.Some?
  {
    SortedKeyMonotone(r, MetaLe, OutputRank, i, j);
  }

  // ---------------------------------------------------------- window counts

  /** The window is on a workspace Niri listed, and (when `out` is given)
      that workspace is on that output. */
  predicate Counted(w: WindowData, idToIdx: map<nat, int>, idToOutput: map<nat, string>, out: Option<string>) {
    w.workspaceId.Some? && w.workspaceId.value in idToIdx
    && (out.Some? ==> w.workspaceId.value in idToOutput && idToOutput[w.workspaceId.value] == out.value)
  }

  /** The loop of `update_window_counts` over the cache, for the global
      counts (`out` = None) or one output's. */
  function Tally(counts: map<int, nat>, ws: seq<WindowData>, idToIdx: map<nat, int>,
                 idToOutput: map<nat, string>, out: Option<string>): map<int, nat>
    decreases |ws|
  {
    if ws == [] then counts
    else if Counted(ws[0], idToIdx, idToOutput, out) then
      var idx := idToIdx[ws[0].workspaceId.value];
      Tally(counts[idx := (if idx in counts then counts[idx] else 0) + 1], ws[1..], idToIdx, idToOutput, out)
    else Tally(counts, ws[1..], idToIdx, idToOutput, out)
  }

  /** How many of the windows count towards index `x`. */
  function WindowsOn(ws: seq<WindowData>, idToIdx: map<nat, int>, idToOutput: map<nat, string>,
                     out: Option<string>, x: int): nat
  {
    if ws == [] then 0
    else (if Counted(ws[0], idToIdx, idToOutput, out) && idToIdx[ws[0].workspaceId.value] == x then 1 else 0)
         + WindowsOn(ws[1..], idToIdx, idToOutput, out, x)
  }

  /** Tallying adds one per counted window to the starting count and
      creates an entry only for an index some window counts towards. */
  lemma {:induction false} TallySpec(counts: map<int, nat>, ws: seq<WindowData>, idToIdx: map<nat, int>,
                                     idToOutput: map<nat, string>, out: Option<string>, x: int)
    ensures var r := Tally(counts, ws, idToIdx, idToOutput, out);
            && (x in r <==> x in counts || WindowsOn(ws, idToIdx, idToOutput, out, x) > 0)
            && (x in r ==> r[x] == (if x in counts then counts[x] else 0) + WindowsOn(ws, idToIdx, idToOutput, out, x))
    decreases |ws|
  {
    if ws != [] {
      if Counted(ws[0], idToIdx, idToOutput, out) {
        var idx := idToIdx[ws[0].workspaceId.value];
        TallySpec(counts[idx := (if idx in counts then counts[idx] else 0) + 1], ws[1..], idToIdx, idToOutput, out, x);
      } else {
        TallySpec(counts, ws[1..], idToIdx, idToOutput, out, x);
      }
    }
  }

  /** Every count reset to 0, keys kept. */
  function Zeroed(counts: map<int, nat>): (r: map<int, nat>)
    ensures r.Keys == counts.Keys && forall k :: k in r ==> r[k] == 0
  {
    map k | k in counts :: 0
  }

  /** `update_window_counts`: reset, then count every cached window on a
      known workspace, globally and on the output its workspace is on. */
  function UpdateWindowCounts(s: Shared): (r: Shared)
    ensures r.snapshot.perOutput.Keys == s.snapshot.perOutput.Keys
    ensures r.snapshot.active == s.snapshot.active && r.snapshot.occupied == s.snapshot.occupied
    ensures r.snapshot.urgent == s.snapshot.urgent
    ensures r.(snapshot := s.snapshot) == s
  {
    var snap := s.snapshot;
    var po := map o | o in snap.perOutput ::
                snap.perOutput[o].(windowCounts := Tally(Zeroed(snap.perOutput[o].windowCounts), s.windows, s.idToIdx, s.idToOutput, Some(o)));
    s.(snapshot := snap.(windowCounts := Tally(Zeroed(snap.windowCounts), s.windows, s.idToIdx, s.idToOutput, None),
                         perOutput := po))
  }

  /** Every count equals the number of cached windows on a workspace shown
      under that index; an index no window is on keeps an entry only if it
      had one, with count 0. */
  lemma CountsAreWindowCounts(s: Shared, x: int)
    ensures var r := UpdateWindowCounts(s).snapshot;
            && (x in r.windowCounts <==> x in s.snapshot.windowCounts || WindowsOn(s.windows, s.idToIdx, s.idToOutput, None, x) > 0)
            && (x in r.windowCounts ==> r.windowCounts[x] == WindowsOn(s.windows, s.idToIdx, s.idToOutput, None, x))
  {
    TallySpec(Zeroed(s.snapshot.windowCounts), s.windows, s.idToIdx, s.idToOutput, None, x);
  }

  /** The same per output, counting only windows whose workspace is on it. */
  lemma OutputCountsAreWindowCounts(s: Shared, o: string, x: int)
    requires o in s.snapshot.perOutput
    ensures var r := UpdateWindowCounts(s).snapshot.perOutput[o];
            x in r.windowCounts ==> r.windowCounts[x] == WindowsOn(s.windows, s.idToIdx, s.idToOutput, Some(o), x)
    ensures x in s.snapshot.perOutput[o].windowCounts ==> x in UpdateWindowCounts(s).snapshot.perOutput[o].windowCounts
  {
    TallySpec(Zeroed(s.snapshot.perOutput[o].windowCounts), s.windows, s.idToIdx, s.idToOutput, Some(o), x);
  }

  /** A window counted towards index `x` lands on an index the loop
      recorded. */
  lemma {:induction false} CountedOnKnown(s: Shared, ws: seq<WindowData>, x: int)
    requires IdsCounted(s)
    requires WindowsOn(ws, s.idToIdx, s.idToOutput, None, x) > 0
    ensures x in s.snapshot.windowCounts
  {
    if !(Counted(ws[0], s.idToIdx, s.idToOutput, None) && s.idToIdx[ws[0].workspaceId.value] == x) {
      CountedOnKnown(s, ws[1..], x);
    }
  }

  /** `process_workspaces`: the scan, the sort, then `update_window_counts`. */
  function ProcessWorkspaces(s: Shared, es: seq<WorkspaceEntry>): Shared {
    var c := Scan(Cleared(s), es);
    UpdateWindowCounts(c.(workspaces := SortWorkspaces(c.workspaces)))
  }

  /** After a workspace list: the occupied, active and urgent sets are the
      listed, `is_focused` and `is_urgent` workspaces; every occupied
      workspace is counted and the count is its number of windows; the
      workspace list is the listed entries, sorted. */
  lemma ProcessWorkspacesSpec(s: Shared, es: seq<WorkspaceEntry>, x: int)
    ensures var r := ProcessWorkspaces(s, es);
            && (x in r.snapshot.occupied <==> Marked(es, AnyEntry, x))
            && (x in r.snapshot.active <==> Marked(es, Focused, x))
            && (x in r.snapshot.urgent <==> Marked(es, Urgent, x))
            && (x in r.snapshot.windowCounts <==> x in r.snapshot.occupied)
            && (x in r.snapshot.windowCounts ==> r.snapshot.windowCounts[x] == WindowsOn(s.windows, r.idToIdx, r.idToOutput, None, x))
            && multiset(r.workspaces) == multiset(FilterMap(es, EntryMeta))
            && Sorted(r.workspaces, MetaLe)
  {
    var c := Scan(Cleared(s), es);
    var c1 := c.(workspaces := SortWorkspaces(c.workspaces));
    var r := UpdateWindowCounts(c1);
    assert ProcessWorkspaces(s, es) == r;
    ScanSets(s, es, x);
    ScanList(s, es);
    ScanIdsCounted(s, es);
    ScanKeepsWindows(Cleared(s), es);
    assert IdsCounted(c1);
    CountsAreWindowCounts(c1, x);
    if WindowsOn(s.windows, c1.idToIdx, c1.idToOutput, None, x) > 0 {
      CountedOnKnown(c1, s.windows, x);
    }
  }

  lemma {:induction false} ScanKeepsWindows(s: Shared, es: seq<WorkspaceEntry>)
    ensures Scan(s, es).windows == s.windows
  {
    if es != [] {
      ScanKeepsWindows(s, es[..|es| - 1]);
    }
  }

  /** Per output after a workspace list: an output has a state exactly when
      a listed workspace is on it, with the workspaces on it occupied and
      those Niri reports `is_active` active. */
  lemma ProcessWorkspacesOutputs(s: Shared, es: seq<WorkspaceEntry>, o: string, x: int)
    ensures var r := ProcessWorkspaces(s, es).snapshot;
            && (o in r.perOutput <==> HasOutput(es, o))
            && (o in r.perOutput ==> (x in r.perOutput[o].occupied <==> Marked(es, OnOutput(o), x)))
            && (o in r.perOutput ==> (x in r.perOutput[o].active <==> Marked(es, ActiveOn(o), x)))
  {
    ScanOutputs(s, es, o, x);
  }

  // ----------------------------------------------------------------- focus

  /** The record published for a cached window. */
  function InfoOf(s: Shared, w: WindowData): (i: WindowInfo)
    ensures i.title == w.title && i.appId == w.appId
  {
    var ws := w.workspaceId;
    WindowInfo(w.title, w.appId,
               if ws.Some? && ws.value in s.idToIdx then Some(s.idToIdx[ws.value]) else None,
               if ws.Some? && ws.value in s.idToOutput then Some(s.idToOutput[ws.value]) else None)
  }

  predicate IsFocusedWindow(w: WindowData) { w.isFocused }

  /** `update_focused_window_from_cache`: the first focused window in the
      cache, or none. */
  function RefreshFocused(s: Shared): (r: Shared)
    ensures r.(focused := s.focused) == s
    ensures r.focused.Some? <==> exists i :: 0 <= i < |s.windows| && s.windows[i].isFocused
    ensures r.focused.Some? ==> exists i :: 0 <= i < |s.windows| && s.windows[i].isFocused && r.focused.value == InfoOf(s, s.windows[i])
  {
    match FirstWhere(s.windows, IsFocusedWindow)
    case Some(i) => s.(focused := Some(InfoOf(s, s.windows[i])))
    case None => s.(focused := None)
  }

  // ----------------------------------------------------- per-output windows

  /** The window shown for a workspace: the first focused window on it,
      else the first window on it. */
  function BestIndex(ws: seq<WindowData>, wsId: nat): (r: Option<nat>)
    ensures r.Some? ==> r.value < |ws| && ws[r.value].workspaceId == Some(wsId)
    ensures r.None? <==> forall k :: 0 <= k < |ws| ==> ws[k].workspaceId != Some(wsId)
    ensures r.Some? && ws[r.value].isFocused ==>
              forall k :: 0 <= k < r.value ==> !(ws[k].workspaceId == Some(wsId) && ws[k].isFocused)
    ensures r.Some? && !ws[r.value].isFocused ==>
              && (forall k :: 0 <= k < |ws| && ws[k].workspaceId == Some(wsId) ==> !ws[k].isFocused)
              && (forall k :: 0 <= k < r.value ==> ws[k].workspaceId != Some(wsId))
  {
    if ws == [] then None
    else
      var rest := BestIndex(ws[1..], wsId);
      var here := ws[0].workspaceId == Some(wsId);
      if here && ws[0].isFocused then Some(0)
      else if rest.Some? && ws[1..][rest.value].isFocused then Some(rest.value + 1)
      else if here then Some(0)
      else if rest.Some? then Some(rest.value + 1)
      else None
  }

  /** The Niri id of the workspace active on `out`, searched in
      `id_to_output`'s order. */
  function ActiveWorkspaceOf(s: Shared, out: string, p: PerOutputState): (r: Option<nat>)
    ensures r.Some? ==> r.value in s.idToOutput && s.idToOutput[r.value] == out
                        && r.value in s.idToIdx && s.idToIdx[r.value] in p.active
  {
    match FirstWhere(s.outputOrder, (k: nat) => k in s.idToOutput && s.idToOutput[k] == out && k in s.idToIdx && s.idToIdx[k] in p.active)
    case Some(i) => Some(s.outputOrder[i])
    case None => None
  }

  /** The window record for one output: the best window on its active
      workspace, or the empty record naming the output. */
  function OutputWindow(s: Shared, out: string, p: PerOutputState): (w: WindowInfo)
    ensures w.output == Some(out)
    ensures ActiveWorkspaceOf(s, out, p).None? ==> IsEmpty(w)
    ensures ActiveWorkspaceOf(s, out, p).Some? ==>
              var a := ActiveWorkspaceOf(s, out, p).value;
              match BestIndex(s.windows, a)
              case None => w == EmptyWindow(Some(out))
              case Some(i) => w.title == s.windows[i].title && w.appId == s.windows[i].appId
                              && w.workspaceId == Some(s.idToIdx[a])
  {
    match ActiveWorkspaceOf(s, out, p)
    case None => EmptyWindow(Some(out))
    case Some(a) =>
      match BestIndex(s.windows, a)
      case None => EmptyWindow(Some(out))
      case Some(i) => WindowInfo(s.windows[i].title, s.windows[i].appId, Some(s.idToIdx[a]), Some(out))
  }

  /** `update_per_output_windows`: a fresh record for every output with a
      state; records of other outputs stay. */
  function PerOutputWindows(s: Shared): (r: Shared)
    ensures r.(perOutputWindow := s.perOutputWindow) == s
    ensures r.perOutputWindow.Keys == s.perOutputWindow.Keys + s.snapshot.perOutput.Keys
    ensures forall o :: o in s.snapshot.perOutput ==> r.perOutputWindow[o] == OutputWindow(s, o, s.snapshot.perOutput[o])
    ensures forall o :: o in s.perOutputWindow && o !in s.snapshot.perOutput ==> r.perOutputWindow[o] == s.perOutputWindow[o]
  {
    s.(perOutputWindow := s.perOutputWindow + map o | o in s.snapshot.perOutput :: OutputWindow(s, o, s.snapshot.perOutput[o]))
  }

  // ---------------------------------------------------------- window cache

  /** `HashMap::insert` on the cache: the window replaces any with the same
      id. Where the new entry lands in the iteration order is unspecified;
      here it goes last. */
  function Upsert(ws: seq<WindowData>, d: WindowData): (r: seq<WindowData>)
    ensures d in r
    ensures forall w :: w in r ==> w == d || (w in ws && w.id != d.id)
    ensures forall w :: w in ws && w.id != d.id ==> w in r
  {
    Without(ws, d.id) + [d]
  }

  predicate UniqueIds(ws: seq<WindowData>) {
    forall i, j :: 0 <= i < j < |ws| ==> ws[i].id != ws[j].id
  }

  lemma UpsertUnique(ws: seq<WindowData>, d: WindowData)
    requires UniqueIds(ws)
    ensures UniqueIds(Upsert(ws, d))
  {
    var rest := Without(ws, d.id);
    WithoutUnique(ws, d.id);
    var r := rest + [d];
    forall i, j | 0 <= i < j < |r| ensures r[i].id != r[j].id {
      if j < |rest| {
        assert r[i] == rest[i] && r[j] == rest[j];
      }
    }
  }

  function ToData(e: WindowEntry): Option<WindowData> {
    if e.id.None? then None else Some(WindowData(e.id.value, e.title, e.appId, e.workspaceId, e.isFocused))
  }

  /** The cache `process_windows` builds: cleared, then every entry with an
      id inserted in order. */
  function LoadWindows(es: seq<WindowEntry>): seq<WindowData> {
    if es == [] then []
    else
      var init := LoadWindows(es[..|es| - 1]);
      match ToData(es[|es| - 1])
      case Some(d) => Upsert(init, d)
      case None => init
  }

  /** The cache a window list builds never holds two windows with one id. */
  lemma {:induction false} LoadWindowsUnique(es: seq<WindowEntry>)
    ensures UniqueIds(LoadWindows(es))
  {
    if es != [] {
      LoadWindowsUnique(es[..|es| - 1]);
      match ToData(es[|es| - 1])
      case Some(d) => UpsertUnique(LoadWindows(es[..|es| - 1]), d);
      case None =>
    }
  }

  /** The windows after everything that follows a change to the cache:
      counts, focus and per-output windows recomputed. */
  function AfterWindows(s: Shared): Shared {
    PerOutputWindows(RefreshFocused(UpdateWindowCounts(s)))
  }

  // ----------------------------------------------------------------- events

  /** A decoded Niri event; a missing payload field is `None`. */
  datatype NiriEvent =
    | WorkspacesChanged(workspaces: Option<seq<WorkspaceEntry>>)
    | WorkspaceActivated(wsId: Option<nat>, focused: bool)
    | WorkspaceUrgencyChanged(urgentId: Option<nat>, urgent: bool)
    | WindowsChanged(windows: Option<seq<WindowEntry>>)
    | WindowOpenedOrChanged(window: Option<WindowEntry>)
    | WindowClosed(closedId: Option<nat>)
    | WindowFocusChanged(focusId: Option<nat>)
    | WorkspaceActiveWindowChanged(activeWs: Option<nat>, activeWindow: Option<nat>)
    | OtherEvent

  /** The new state and `handle_event`'s (workspace changed, window
      changed) pair. */
  datatype Outcome = Outcome(state: Shared, workspaceChanged: bool, windowChanged: bool)

  /** WorkspaceActivated: a focused activation makes the workspace the only
      active one unless it already was active; its output's active set
      likewise. */
  function Activated(s: Shared, wsId: Option<nat>, focused: bool): (r: Outcome)
    ensures wsId.None? || wsId.value !in s.idToIdx ==> r == Outcome(s, false, false)
    ensures wsId.Some? && wsId.value in s.idToIdx ==>
              var idx := s.idToIdx[wsId.value];
              && r.windowChanged
              && (focused && idx !in s.snapshot.active ==> r.state.snapshot.active == {idx})
              && (!(focused && idx !in s.snapshot.active) ==> r.state.snapshot.active == s.snapshot.active)
              && (r.workspaceChanged <==> r.state.snapshot.active != s.snapshot.active
                                          || r.state.snapshot.perOutput != s.snapshot.perOutput)
  {
    if wsId.None? || wsId.value !in s.idToIdx then Outcome(s, false, false)
    else
      var idx := s.idToIdx[wsId.value];
      var snap := s.snapshot;
      var globalChange := focused && idx !in snap.active;
      var snap1 := if globalChange then snap.(active := {idx}) else snap;
      var out := wsId.value in s.idToOutput;
      var outChange := out && s.idToOutput[wsId.value] in snap1.perOutput
                       && idx !in snap1.perOutput[s.idToOutput[wsId.value]].active;
      var snap2 := if outChange then
                     var o := s.idToOutput[wsId.value];
                     snap1.(perOutput := snap1.perOutput[o := snap1.perOutput[o].(active := {idx})])
                   else snap1;
      assert outChange ==> snap2.perOutput[s.idToOutput[wsId.value]].active != snap1.perOutput[s.idToOutput[wsId.value]].active;
      Outcome(PerOutputWindows(s.(snapshot := snap2)), globalChange || outChange, true)
  }

  /** WorkspaceUrgencyChanged: the workspace joins or leaves the urgent
      set; the change is reported exactly when the set changed. */
  function UrgencyChanged(s: Shared, wsId: Option<nat>, urgent: bool): (r: Outcome)
    ensures !r.windowChanged
    ensures r.state.(snapshot := s.snapshot) == s
    ensures r.state.snapshot.(urgent := s.snapshot.urgent) == s.snapshot
    ensures r.workspaceChanged <==> r.state.snapshot.urgent != s.snapshot.urgent
    ensures wsId.Some? && wsId.value in s.idToIdx ==>
              r.state.snapshot.urgent == if urgent then s.snapshot.urgent + {s.idToIdx[wsId.value]}
                                         else s.snapshot.urgent - {s.idToIdx[wsId.value]}
    ensures wsId.None? || wsId.value !in s.idToIdx ==> r.state == s
  {
    if wsId.None? || wsId.value !in s.idToIdx then Outcome(s, false, false)
    else
      var idx := s.idToIdx[wsId.value];
      var u := s.snapshot.urgent;
      if urgent then
        assert idx !in u ==> idx in u + {idx} - u;
        Outcome(s.(snapshot := s.snapshot.(urgent := u + {idx})), idx !in u, false)
      else
        assert idx in u ==> idx in u - (u - {idx});
        Outcome(s.(snapshot := s.snapshot.(urgent := u - {idx})), idx in u, false)
  }

  /** WindowFocusChanged: exactly the window with the given id is marked
      focused, none when the id is missing. */
  function FocusChanged(s: Shared, id: Option<nat>): (r: Outcome)
    ensures |r.state.windows| == |s.windows|
    ensures forall i :: 0 <= i < |s.windows| ==>
              r.state.windows[i] == s.windows[i].(isFocused := id == Some(s.windows[i].id))
    ensures r.windowChanged && !r.workspaceChanged
  {
    var ws := seq(|s.windows|, i requires 0 <= i < |s.windows| => s.windows[i].(isFocused := id == Some(s.windows[i].id)));
    Outcome(PerOutputWindows(RefreshFocused(s.(windows := ws))), false, true)
  }

  /** After a focus change the focused window is the one with that id, and
      there is none when no cached window has it. */
  lemma FocusChangedSpec(s: Shared, id: Option<nat>)
    ensures var r := FocusChanged(s, id).state;
            && (forall i :: 0 <= i < |r.windows| ==> (r.windows[i].isFocused <==> Some(r.windows[i].id) == id))
            && (r.focused.Some? <==> exists i :: 0 <= i < |s.windows| && Some(s.windows[i].id) == id)
            && (r.focused.Some? ==> exists i :: 0 <= i < |s.windows| && Some(s.windows[i].id) == id
                                                && r.focused.value.title == s.windows[i].title
                                                && r.focused.value.appId == s.windows[i].appId)
  {
    var r := FocusChanged(s, id).state;
    var s1 := s.(windows := r.windows);
    assert r == PerOutputWindows(RefreshFocused(s1));
    assert r.focused == RefreshFocused(s1).focused;
    FocusedWindowHasId(s, id, r.windows);
  }

  lemma FocusedWindowHasId(s: Shared, id: Option<nat>, ws: seq<WindowData>)
    requires |ws| == |s.windows|
    requires forall i :: 0 <= i < |s.windows| ==> ws[i] == s.windows[i].(isFocused := id == Some(s.windows[i].id))
    ensures (exists i :: 0 <= i < |ws| && ws[i].isFocused) <==> exists i :: 0 <= i < |s.windows| && Some(s.windows[i].id) == id
    ensures forall i :: 0 <= i < |ws| && ws[i].isFocused ==> Some(s.windows[i].id) == id && ws[i].title == s.windows[i].title && ws[i].appId == s.windows[i].appId
  {
    if exists i :: 0 <= i < |s.windows| && Some(s.windows[i].id) == id {
      var i :| 0 <= i < |s.windows| && Some(s.windows[i].id) == id;
      assert ws[i].isFocused;
    }
  }

  /** `HashMap::remove` on the cache: every window but the one with `id`,
      in order. */
  function Without(ws: seq<WindowData>, id: nat): (r: seq<WindowData>)
    ensures forall i :: 0 <= i < |r| ==> r[i].id != id && r[i] in ws
    ensures forall i :: 0 <= i < |ws| && ws[i].id != id ==> ws[i] in r
  {
    var keep := (w: WindowData) => w.id != id;
    FilterComplete(ws, keep);
    Filter(ws, keep)
  }

  /** Removing keeps the surviving windows in cache order. */
  lemma {:induction false} WithoutUnique(ws: seq<WindowData>, id: nat)
    requires UniqueIds(ws)
    ensures UniqueIds(Without(ws, id))
  {
    var keep := (w: WindowData) => w.id != id;
    FilterUnique(ws, keep);
  }

  lemma {:induction false} FilterUnique(ws: seq<WindowData>, p: WindowData -> bool)
    requires UniqueIds(ws)
    ensures UniqueIds(Filter(ws, p))
  {
    if ws != [] {
      FilterUnique(ws[1..], p);
      var rest := Filter(ws[1..], p);
      if p(ws[0]) {
        var r := Filter(ws, p);
        assert r == [ws[0]] + rest;
        forall j | 0 < j < |r| ensures r[0].id != r[j].id {
          assert rest[j - 1] in ws[1..];
          var k :| 0 <= k < |ws[1..]| && ws[1..][k] == rest[j - 1];
          assert ws[k + 1] == r[j];
        }
      }
    }
  }

  /** WindowClosed: the window leaves the cache, then counts, focus and
      per-output windows are recomputed; both changes are reported. */
  function Closed(s: Shared, id: Option<nat>): (r: Outcome)
    ensures id.None? ==> r == Outcome(s, false, false)
    ensures id.Some? ==> r.workspaceChanged && r.windowChanged
    ensures id.Some? ==> r.state.windows == Without(s.windows, id.value)
    ensures id.Some? ==> r.state == AfterWindows(s.(windows := r.state.windows))
  {
    if id.None? then Outcome(s, false, false)
    else Outcome(AfterWindows(s.(windows := Without(s.windows, id.value))), true, true)
  }

  /** After a close no window with that id is cached, every other window
      is, and the focused window is one of those left. */
  lemma ClosedSpec(s: Shared, id: nat)
    ensures var r := Closed(s, Some(id)).state;
            && (forall i :: 0 <= i < |r.windows| ==> r.windows[i].id != id)
            && (forall i :: 0 <= i < |s.windows| && s.windows[i].id != id ==> s.windows[i] in r.windows)
            && (r.focused.Some? ==> exists i :: 0 <= i < |r.windows| && r.windows[i].isFocused
                                               && r.focused.value.title == r.windows[i].title)
  {
  }

  /** WindowOpenedOrChanged: the window is inserted into the cache and the
      counts recomputed (focus only when it is focused); its workspace
      becomes occupied. */
  function Opened(s: Shared, window: Option<WindowEntry>): (r: Outcome)
    ensures window.None? ==> r == Outcome(s, false, false)
    ensures window.Some? ==> r.windowChanged
    ensures window.Some? && window.value.id.Some? ==> ToData(window.value).value in r.state.windows
    ensures window.Some? ==>
              var w := window.value;
              && (w.workspaceId.Some? && w.workspaceId.value in s.idToIdx ==>
                    r.state.snapshot.occupied == s.snapshot.occupied + {s.idToIdx[w.workspaceId.value]})
              && (r.workspaceChanged <==> r.state.snapshot.occupied != s.snapshot.occupied)
  {
    match window
    case None => Outcome(s, false, false)
    case Some(w) =>
      var s1 := StoreWindow(s, w);
      var occ := s1.snapshot.occupied;
      var known := w.workspaceId.Some? && w.workspaceId.value in s1.idToIdx;
      var s2 := if known then s1.(snapshot := s1.snapshot.(occupied := occ + {s1.idToIdx[w.workspaceId.value]})) else s1;
      var grew := known && s1.idToIdx[w.workspaceId.value] !in occ;
      assert grew ==> s1.idToIdx[w.workspaceId.value] in s2.snapshot.occupied - occ;
      Outcome(PerOutputWindows(s2), grew, true)
  }

  /** `update_single_window`: an entry without an id changes nothing;
      otherwise it is stored, the counts recomputed, and the focused window
      refreshed when the entry is focused. */
  function StoreWindow(s: Shared, w: WindowEntry): (r: Shared)
    ensures r.idToIdx == s.idToIdx && r.snapshot.occupied == s.snapshot.occupied
    ensures w.id.Some? ==> ToData(w).value in r.windows
    ensures w.id.None? ==> r == s
  {
    match ToData(w)
    case None => s
    case Some(d) =>
      var c := UpdateWindowCounts(s.(windows := Upsert(s.windows, d)));
      if d.isFocused then RefreshFocused(c) else c
  }

  /** WorkspaceActiveWindowChanged: the output of the workspace gets the
      named window, or the empty record when the window is not cached. */
  function ActiveWindowChanged(s: Shared, wsId: Option<nat>, winId: Option<nat>): (r: Outcome)
    ensures wsId.None? || wsId.value !in s.idToOutput ==> r == Outcome(s, false, false)
    ensures wsId.Some? && wsId.value in s.idToOutput ==>
              var out := s.idToOutput[wsId.value];
              && r.windowChanged && !r.workspaceChanged
              && r.state == s.(perOutputWindow := r.state.perOutputWindow)
              && r.state.perOutputWindow.Keys == s.perOutputWindow.Keys + {out}
              && r.state.perOutputWindow[out].output == Some(out)
              && (forall o :: o in s.perOutputWindow && o != out ==> r.state.perOutputWindow[o] == s.perOutputWindow[o])
  {
    if wsId.None? || wsId.value !in s.idToOutput then Outcome(s, false, false)
    else
      var out := s.idToOutput[wsId.value];
      var idx := if wsId.value in s.idToIdx then Some(s.idToIdx[wsId.value]) else None;
      var found := if winId.Some? then FirstWhere(s.windows, (w: WindowData) => w.id == winId.value) else None;
      var info := match found
                  case Some(i) => WindowInfo(s.windows[i].title, s.windows[i].appId, idx, Some(out))
                  case None => EmptyWindow(Some(out));
      Outcome(s.(perOutputWindow := s.perOutputWindow[out := info]), false, true)
  }

  /** `handle_event`: which of the two changes each event reports. A
      workspace list is always a workspace change and never a window
      change, a window list or focus change the reverse, a close with an
      id both, an urgency change never a window change, and a payload that
      is missing its list or id nothing at all. */
  function HandleEvent(s: Shared, ev: NiriEvent): (r: Outcome)
    ensures ev.OtherEvent? ==> r == Outcome(s, false, false)
    ensures ev.WorkspacesChanged? ==> (r.workspaceChanged <==> ev.workspaces.Some?) && !r.windowChanged
    ensures ev.WorkspacesChanged? && ev.workspaces.None? ==> r.state == s
    ensures ev.WindowsChanged? ==> (r.windowChanged <==> ev.windows.Some?) && !r.workspaceChanged
    ensures ev.WindowsChanged? && ev.windows.None? ==> r.state == s
    ensures ev.WindowClosed? ==> (r.windowChanged <==> ev.closedId.Some?) && (r.workspaceChanged <==> ev.closedId.Some?)
    ensures ev.WindowFocusChanged? ==> r.windowChanged && !r.workspaceChanged
    ensures ev.WorkspaceUrgencyChanged? ==> !r.windowChanged
    ensures ev.WorkspaceActivated? && ev.wsId.None? ==> r == Outcome(s, false, false)
  {
    match ev
    case WorkspacesChanged(ws) =>
      if ws.Some? then Outcome(ProcessWorkspaces(s, ws.value), true, false) else Outcome(s, false, false)
    case WorkspaceActivated(id, f) => Activated(s, id, f)
    case WorkspaceUrgencyChanged(id, u) => UrgencyChanged(s, id, u)
    case WindowsChanged(ws) =>
      if ws.Some? then Outcome(AfterWindows(s.(windows := LoadWindows(ws.value))), false, true) else Outcome(s, false, false)
    case WindowOpenedOrChanged(w) => Opened(s, w)
    case WindowClosed(id) => Closed(s, id)
    case WindowFocusChanged(id) => FocusChanged(s, id)
    case WorkspaceActiveWindowChanged(ws, w) => ActiveWindowChanged(s, ws, w)
    case OtherEvent => Outcome(s, false, false)
  }

  /** Reporting an urgency twice changes nothing the second time. */
  lemma UrgencyIdempotent(s: Shared, id: Option<nat>, urgent: bool)
    ensures var r := UrgencyChanged(s, id, urgent).state;
            !UrgencyChanged(r, id, urgent).workspaceChanged
  {
  }

  // ------------------------------------------------------------ workspaces

  /** `list_workspaces`: the known list, or workspaces 1 to 10 named by
      their number while Niri has listed none. */
  function ListWorkspaces(s: Shared): (r: seq<WorkspaceMeta>)
    ensures s.workspaces != [] ==> r == s.workspaces
    ensures s.workspaces == [] ==> |r| == 10
    ensures s.workspaces == [] ==> forall i :: 0 <= i < 10 ==> r[i].id == i + 1 && r[i].output.None?
  {
    if s.workspaces != [] then s.workspaces
    else seq(10, i requires 0 <= i < 10 => WorkspaceMeta(i + 1, IntToString(i + 1), None))
  }

  /** Every default workspace's name reads back as its number. */
  lemma DefaultNamesAreIds(s: Shared, i: nat)
    requires s.workspaces == [] && i < 10
    ensures var m := ListWorkspaces(s)[i];
            AllDigits(m.name) && DigitsValue(m.name) == m.id
  {
    DigitsOfNat(i + 1);
  }
}
