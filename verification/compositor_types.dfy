/*
 * The data the compositor backends publish (`services/compositor/types.rs`):
 * workspace metadata, the workspace snapshot with its per-output part, and
 * the focused-window record.
 *
 * Rust's `HashSet<i32>` and `HashMap<i32, u32>` become Dafny sets and maps;
 * window counts are naturals (a count never gets near `u32::MAX`).
 */
module Compositor {
  import opened Common

  /** A workspace the compositor knows about: its id, display name and,
      for per-monitor compositors, the output it lives on. */
  datatype WorkspaceMeta = WorkspaceMeta(id: int, name: string, output: Option<string>)

  /** The state of one output. The active set may hold several workspaces
      (compositors that show several tags at once). */
  datatype PerOutputState = PerOutputState(active: set<int>, occupied: set<int>, windowCounts: map<int, nat>)

  datatype WorkspaceSnapshot = WorkspaceSnapshot(
    active: set<int>,
    occupied: set<int>,
    urgent: set<int>,
    windowCounts: map<int, nat>,
    perOutput: map<string, PerOutputState>)

  /** The focused window; the default record (everything empty) stands for
      "no window". */
  datatype WindowInfo = WindowInfo(title: string, appId: string, workspaceId: Option<int>, output: Option<string>)

  /** `PerOutputState::default()`. */
  function DefaultPerOutput(): (p: PerOutputState)
    ensures p.active == {} && p.occupied == {} && |p.windowCounts| == 0
  {
    PerOutputState({}, {}, map[])
  }

  /** `WorkspaceSnapshot::default()`: no active, occupied or urgent
      workspace, no counts and no output. */
  function DefaultSnapshot(): (s: WorkspaceSnapshot)
    ensures s.active == {} && s.occupied == {} && s.urgent == {}
    ensures |s.windowCounts| == 0 && |s.perOutput| == 0
  {
    WorkspaceSnapshot({}, {}, {}, map[], map[])
  }

  /** `WindowInfo::default()`, kept for a given output. */
  function EmptyWindow(output: Option<string>): (w: WindowInfo)
    ensures IsEmpty(w) && w.workspaceId.None? && w.output == output
  {
    WindowInfo("", "", None, output)
  }

  /** `is_empty`: neither a title nor an application id. */
  predicate IsEmpty(w: WindowInfo) {
    w.title == [] && w.appId == []
  }

  /** A title or an application id alone makes a window non-empty. */
  lemma NonEmptyWithEitherField(t: string, a: string, ws: Option<int>, o: Option<string>)
    requires t != [] || a != []
    ensures !IsEmpty(WindowInfo(t, a, ws, o))
  {
  }

  /** Marking a workspace active adds it to the others already active. */
  function MarkActive(p: PerOutputState, id: int): (r: PerOutputState)
    ensures r.active == p.active + {id}
    ensures r.occupied == p.occupied && r.windowCounts == p.windowCounts
  {
    p.(active := p.active + {id})
  }

  /** Marking workspaces active one after another, as a multi-tag
      compositor reports them. */
  function MarkAllActive(p: PerOutputState, ids: seq<int>): PerOutputState
    decreases |ids|
  {
    if ids == [] then p else MarkAllActive(MarkActive(p, ids[0]), ids[1..])
  }

  /** An output can show several workspaces at once: marking any list of
      workspaces active keeps every one of them, in whatever order they
      come, and touches nothing but the active set. */
  lemma {:induction false} SeveralActive(p: PerOutputState, ids: seq<int>)
    ensures MarkAllActive(p, ids).active == p.active + (set i | i in ids)
    ensures MarkAllActive(p, ids).occupied == p.occupied
    ensures MarkAllActive(p, ids).windowCounts == p.windowCounts
    decreases |ids|
  {
    if ids != [] {
      SeveralActive(MarkActive(p, ids[0]), ids[1..]);
      assert (set i | i in ids) == {ids[0]} + (set i | i in ids[1..]);
    }
  }
}
