/*
 * The MPRIS media service (`services/media.rs`): player ids and names,
 * playback status, duration formatting, track-change detection, the choice
 * of the active player among all connected players, and the snapshot the
 * widgets read.
 *
 * The players map is a sequence in the map's iteration order; "the first
 * player that ..." means the first in that order. D-Bus calls, position
 * polling and the IPC state file are left out.
 */
module MediaService {
  import opened Common

  const MPRIS_PREFIX: string := "org.mpris.MediaPlayer2."
  const MICROSECONDS_PER_SECOND: nat := 1_000_000
  const SECONDS_PER_MINUTE: nat := 60
  const SECONDS_PER_HOUR: nat := 3600

  // ------------------------------------------------------------- helpers

  /** `player_id_from_bus_name`: the MPRIS prefix removed and the rest cut
      at its first '.'; any other name is kept whole. */
  function PlayerIdFromBusName(bus: string): (id: string)
    ensures !StartsWith(bus, MPRIS_PREFIX) ==> id == bus
    ensures StartsWith(bus, MPRIS_PREFIX) ==> '.' !in id && StartsWith(bus[|MPRIS_PREFIX|..], id)
  {
    if StartsWith(bus, MPRIS_PREFIX) then
      var rest := bus[|MPRIS_PREFIX|..];
      match FindChar(rest, '.')
      case None => rest
      case Some(k) => rest[..k]
    else bus
  }

  /** The id of a player's own bus name is the part the player put after
      the prefix, whatever instance suffix follows it. */
  lemma PlayerIdOfBusName(id: string, suffix: string)
    requires '.' !in id
    requires suffix == [] || suffix[0] == '.'
    ensures PlayerIdFromBusName(MPRIS_PREFIX + id + suffix) == id
  {
    var bus := MPRIS_PREFIX + id + suffix;
    assert bus[..|MPRIS_PREFIX|] == MPRIS_PREFIX;
    assert bus[|MPRIS_PREFIX|..] == id + suffix;
    FindCharAfter(id, suffix);
  }

  lemma FindCharAfter(id: string, suffix: string)
    requires '.' !in id
    requires suffix == [] || suffix[0] == '.'
    ensures FindChar(id + suffix, '.') == if suffix == [] then None else Some(|id|)
  {
    if id == [] {
      assert id + suffix == suffix;
    } else {
      assert (id + suffix)[1..] == id[1..] + suffix;
      FindCharAfter(id[1..], suffix);
    }
  }

  // ------------------------------------------------------ playback status

  datatype PlaybackStatus = Playing | Paused | Stopped

  /** `PlaybackStatus::from_str`: anything but "Playing" and "Paused" is
      Stopped. */
  function ParseStatus(s: string): (st: PlaybackStatus)
    ensures st == Playing <==> s == "Playing"
    ensures st == Paused <==> s == "Paused"
  {
    if s == "Playing" then Playing else if s == "Paused" then Paused else Stopped
  }

  function StatusName(st: PlaybackStatus): (s: string)
  {
    match st
    case Playing => "Playing"
    case Paused => "Paused"
    case Stopped => "Stopped"
  }

  /** The names of the three states read back as the same states. */
  lemma StatusNameRoundTrip(st: PlaybackStatus)
    ensures ParseStatus(StatusName(st)) == st
  {
  }

  // ------------------------------------------------------------ duration

  /** `{:02}`: at least two digits. */
  function Pad2(n: nat): (s: string)
    ensures |s| >= 2 && AllDigits(s)
    ensures n < 100 ==> |s| == 2
  {
    assert 10 <= n < 100 ==> NatToString(n) == NatToString(n / 10) + [DigitChar(n % 10)];
    if n < 10 then "0" + NatToString(n) else NatToString(n)
  }

  lemma Pad2Value(n: nat)
    ensures DigitsValue(Pad2(n)) == n
  {
    DigitsOfNat(n);
    if n < 10 {
      var s := Pad2(n);
      assert s[..|s| - 1] == "0";
      assert DigitsValue("0") == 0 by {
        assert "0"[..0] == [];
      }
    }
  }

  /** Hours, minutes and seconds of a non-negative duration. */
  function DurationParts(us: nat): (r: (nat, nat, nat))
    ensures r.1 < 60 && r.2 < 60
    ensures r.0 * SECONDS_PER_HOUR + r.1 * SECONDS_PER_MINUTE + r.2 == us / MICROSECONDS_PER_SECOND
  {
    var total := us / MICROSECONDS_PER_SECOND;
    (total / SECONDS_PER_HOUR, (total % SECONDS_PER_HOUR) / SECONDS_PER_MINUTE, total % SECONDS_PER_MINUTE)
  }

  /** `format_duration`: "0:00" for a negative length, "M:SS" under an
      hour, "H:MM:SS" from an hour on. */
  function FormatDuration(us: int): (s: string)
    ensures us < 0 ==> s == "0:00"
  {
    if us < 0 then "0:00"
    else
      var (h, m, sec) := DurationParts(us);
      if h > 0 then NatToString(h) + ":" + Pad2(m) + ":" + Pad2(sec)
      else NatToString(m) + ":" + Pad2(sec)
  }

  /** Under an hour the text has exactly one ':' followed by two digits,
      and the two fields read back as minutes and seconds of the input. */
  lemma FormatDurationShort(us: nat)
    requires us < SECONDS_PER_HOUR * MICROSECONDS_PER_SECOND
    ensures var s := FormatDuration(us);
            var c := |s| - 3;
            0 <= c && s[c] == ':' && AllDigits(s[..c]) && AllDigits(s[c + 1..])
            && DigitsValue(s[..c]) * SECONDS_PER_MINUTE + DigitsValue(s[c + 1..]) == us / MICROSECONDS_PER_SECOND
  {
    var (h, m, sec) := DurationParts(us);
    assert h == 0;
    var s := FormatDuration(us);
    var ms := NatToString(m);
    assert s == ms + ":" + Pad2(sec);
    assert s[..|ms|] == ms;
    assert s[|ms| + 1..] == Pad2(sec);
    DigitsOfNat(m);
    Pad2Value(sec);
  }

  // -------------------------------------------------------------- players

  datatype Metadata = Metadata(
    title: Option<string>, artist: Option<string>, album: Option<string>,
    artUrl: Option<string>, url: Option<string>, length: Option<int>, trackId: Option<string>)

  const NO_METADATA: Metadata := Metadata(None, None, None, None, None, None, None)

  datatype Player = Player(
    busName: string, playerId: string, playerName: string,
    status: PlaybackStatus, metadata: Metadata, position: int,
    canPlay: bool, canPause: bool, canGoNext: bool, canGoPrevious: bool, canSeek: bool, canControl: bool,
    generation: nat)

  /** The cached properties of a player's proxy, each possibly missing or
      of the wrong type (None). */
  datatype CachedProps = CachedProps(
    status: Option<string>, metadata: Option<Metadata>,
    canPlay: Option<bool>, canPause: Option<bool>, canGoNext: Option<bool>,
    canGoPrevious: Option<bool>, canSeek: Option<bool>, canControl: Option<bool>)

  /** A new player as `add_player` creates it before reading its proxy. */
  function NewPlayer(bus: string): (p: Player)
    ensures p.busName == bus && p.playerId == PlayerIdFromBusName(bus)
    ensures p.playerName == CapitalizeFirst(p.playerId)
    ensures p.status == Stopped && p.metadata == NO_METADATA && p.position == 0 && p.generation == 0
  {
    var id := PlayerIdFromBusName(bus);
    Player(bus, id, CapitalizeFirst(id), Stopped, NO_METADATA, 0, false, false, false, false, false, true, 0)
  }

  /** A new track: the track id differs, or both titles are known and
      differ. */
  predicate TrackChanged(prev: Metadata, next: Metadata) {
    prev.trackId != next.trackId || (prev.title.Some? && next.title.Some? && prev.title != next.title)
  }

  /** `update_player_from_proxy`: missing flags are false except
      CanControl, which defaults to true; a track change resets the position
      and moves the generation on. */
  function UpdateFromProxy(p: Player, props: CachedProps): (r: (Player, bool))
    ensures r.1 <==> TrackChanged(p.metadata, r.0.metadata)
    ensures r.0.status == (if props.status.Some? then ParseStatus(props.status.value) else Stopped)
    ensures r.0.metadata == props.metadata.GetOr(NO_METADATA)
    ensures r.0.canControl == props.canControl.GetOr(true) && r.0.canPlay == props.canPlay.GetOr(false)
    ensures r.1 ==> r.0.position == 0 && r.0.generation == p.generation + 1
    ensures !r.1 ==> r.0.position == p.position && r.0.generation == p.generation
    ensures r.0.busName == p.busName && r.0.playerId == p.playerId && r.0.playerName == p.playerName
  {
    var metadata := props.metadata.GetOr(NO_METADATA);
    var q := p.(
      status := if props.status.Some? then ParseStatus(props.status.value) else Stopped,
      metadata := metadata,
      canPlay := props.canPlay.GetOr(false), canPause := props.canPause.GetOr(false),
      canGoNext := props.canGoNext.GetOr(false), canGoPrevious := props.canGoPrevious.GetOr(false),
      canSeek := props.canSeek.GetOr(false), canControl := props.canControl.GetOr(true));
    if TrackChanged(p.metadata, metadata) then (q.(position := 0, generation := p.generation + 1), true)
    else (q, false)
  }

  /** Reading the same properties twice finds no new track the second
      time. */
  lemma UpdateTwiceNoChange(p: Player, props: CachedProps)
    ensures !UpdateFromProxy(UpdateFromProxy(p, props).0, props).1
  {
  }

  // -------------------------------------------------------------- service

  datatype State = State(
    players: seq<Player>, active: Option<string>, manual: Option<string>, lastPlaying: Option<string>)

  predicate UniqueBuses(players: seq<Player>) {
    forall i, j :: 0 <= i < j < |players| ==> players[i].busName != players[j].busName
  }

  predicate HasBus(players: seq<Player>, bus: string) {
    exists i :: 0 <= i < |players| && players[i].busName == bus
  }

  function Find(players: seq<Player>, bus: string): (r: Option<Player>)
    ensures r.Some? <==> HasBus(players, bus)
    ensures r.Some? ==> r.value in players && r.value.busName == bus
  {
    if players == [] then None
    else if players[0].busName == bus then Some(players[0])
    else
      var r := Find(players[1..], bus);
      assert HasBus(players, bus) <==> HasBus(players[1..], bus) by {
        if HasBus(players, bus) {
          var i :| 0 <= i < |players| && players[i].busName == bus;
          assert players[1..][i - 1] == players[i];
        }
        if HasBus(players[1..], bus) {
          var i :| 0 <= i < |players[1..]| && players[1..][i].busName == bus;
          assert players[i + 1] == players[1..][i];
        }
      }
      r
  }

  predicate PausedWithTitle(p: Player) { p.status == Paused && p.metadata.title.Some? }

  /** The first player satisfying `wanted`, by bus name. */
  function FirstWhere(players: seq<Player>, wanted: Player -> bool): (r: Option<string>)
    ensures r.Some? ==> exists i :: 0 <= i < |players| && players[i].busName == r.value && wanted(players[i])
    ensures r.None? <==> forall i :: 0 <= i < |players| ==> !wanted(players[i])
  {
    if players == [] then None
    else if wanted(players[0]) then Some(players[0].busName)
    else
      var r := FirstWhere(players[1..], wanted);
      assert forall i :: 1 <= i < |players| ==> players[i] == players[1..][i - 1];
      r
  }

  function IsPlaying(p: Player): bool { p.status == Playing }
  function IsPausedWithTitle(p: Player): bool { PausedWithTitle(p) }

  /** `name` names a connected player that satisfies `wanted`. */
  predicate NamedAnd(players: seq<Player>, name: Option<string>, wanted: Player -> bool) {
    name.Some? && Find(players, name.value).Some? && wanted(Find(players, name.value).value)
  }

  predicate NonePlaying(players: seq<Player>) {
    forall i :: 0 <= i < |players| ==> !IsPlaying(players[i])
  }

  /** `select_best_player_auto`: the active player it leaves behind, tier by
      tier — the last playing player if it still plays, any playing player,
      the last playing player if paused with a title, the current one if
      paused with a title, any paused player with a title, the current one
      if still connected, and finally the first player. */
  function SelectAuto(players: seq<Player>, lastPlaying: Option<string>, current: Option<string>): (r: Option<string>)
    ensures r.Some? ==> HasBus(players, r.value)
    ensures r.None? <==> players == []
    ensures NamedAnd(players, lastPlaying, IsPlaying) ==> r == lastPlaying
    ensures !NonePlaying(players) ==>
              exists i :: 0 <= i < |players| && players[i].busName == r.value && IsPlaying(players[i])
    ensures NonePlaying(players) && NamedAnd(players, lastPlaying, IsPausedWithTitle) ==> r == lastPlaying
    ensures (NonePlaying(players) && !NamedAnd(players, lastPlaying, IsPausedWithTitle)
             && NamedAnd(players, current, IsPausedWithTitle)) ==> r == current
    ensures (NonePlaying(players) && !NamedAnd(players, lastPlaying, IsPausedWithTitle)
             && !NamedAnd(players, current, IsPausedWithTitle)
             && (exists i :: 0 <= i < |players| && IsPausedWithTitle(players[i]))) ==>
              exists i :: 0 <= i < |players| && players[i].busName == r.value && IsPausedWithTitle(players[i])
    ensures (NonePlaying(players) && (forall i :: 0 <= i < |players| ==> !IsPausedWithTitle(players[i]))
             && current.Some? && HasBus(players, current.value)) ==> r == current
    ensures (NonePlaying(players) && (forall i :: 0 <= i < |players| ==> !IsPausedWithTitle(players[i]))
             && (current.None? || !HasBus(players, current.value)) && players != []) ==> r == Some(players[0].busName)
  {
    var last := if lastPlaying.Some? then Find(players, lastPlaying.value) else None;
    var cur := if current.Some? then Find(players, current.value) else None;
    if last.Some? && last.value.status == Playing then lastPlaying
    else if FirstWhere(players, IsPlaying).Some? then FirstWhere(players, IsPlaying)
    else if last.Some? && PausedWithTitle(last.value) then lastPlaying
    else if cur.Some? && PausedWithTitle(cur.value) then current
    else if FirstWhere(players, IsPausedWithTitle).Some? then FirstWhere(players, IsPausedWithTitle)
    else if cur.Some? then current
    else if players == [] then None
    else Some(players[0].busName)
  }

  /** With nothing playing, a paused player that has a title is preferred
      to every other player. */
  lemma PausedWithTitlePreferred(players: seq<Player>, lastPlaying: Option<string>, current: Option<string>, k: nat)
    requires k < |players| && PausedWithTitle(players[k])
    requires forall i :: 0 <= i < |players| ==> !IsPlaying(players[i])
    ensures SelectAuto(players, lastPlaying, current).Some?
    ensures exists i :: 0 <= i < |players| && players[i].busName == SelectAuto(players, lastPlaying, current).value
                        && PausedWithTitle(players[i])
  {
    var r := SelectAuto(players, lastPlaying, current);
    var last := if lastPlaying.Some? then Find(players, lastPlaying.value) else None;
    var cur := if current.Some? then Find(players, current.value) else None;
    assert IsPausedWithTitle(players[k]);
    assert FirstWhere(players, IsPlaying).None?;
    if last.Some? && PausedWithTitle(last.value) {
      assert last.value in players;
      assert r == lastPlaying;
      var i :| 0 <= i < |players| && players[i] == last.value;
    } else if cur.Some? && PausedWithTitle(cur.value) {
      assert cur.value in players;
      assert r == current;
      var i :| 0 <= i < |players| && players[i] == cur.value;
    } else {
      assert r == FirstWhere(players, IsPausedWithTitle);
    }
  }

  /** `update_active_player`: a manual choice stands while its player
      exists, and is dropped (back to automatic) when it does not. */
  function UpdateActive(st: State): (r: State)
    ensures r.players == st.players && r.lastPlaying == st.lastPlaying
    ensures st.manual.Some? && HasBus(st.players, st.manual.value) ==> r.manual == st.manual && r.active == st.manual
    ensures st.manual.Some? && !HasBus(st.players, st.manual.value) ==> r.manual.None?
    ensures st.manual.None? ==> r.manual.None?
    ensures r.manual.None? ==> r.active == SelectAuto(st.players, st.lastPlaying, st.active)
  {
    if st.manual.Some? && HasBus(st.players, st.manual.value) then st.(active := st.manual)
    else st.(manual := None, active := SelectAuto(st.players, st.lastPlaying, st.active))
  }

  /** The active player always names a connected player, and there is one
      whenever any player is connected. */
  lemma ActiveIsConnected(st: State)
    ensures UpdateActive(st).active.Some? ==> HasBus(st.players, UpdateActive(st).active.value)
    ensures UpdateActive(st).active.None? <==> st.players == []
  {
    if st.manual.Some? && HasBus(st.players, st.manual.value) {
      var i :| 0 <= i < |st.players| && st.players[i].busName == st.manual.value;
    }
  }

  /** `set_active_player`: unknown names are refused; otherwise the manual
      choice is recorded and listeners hear about it (the bool). */
  function SetActivePlayer(st: State, bus: string): (r: (State, bool))
    ensures !HasBus(st.players, bus) ==> r == (st, false)
    ensures HasBus(st.players, bus) ==> r.1 && r.0.active == Some(bus) && r.0.manual == Some(bus)
  {
    if !HasBus(st.players, bus) then (st, false)
    else (UpdateActive(st.(manual := Some(bus))), true)
  }

  /** `set_auto_selection`. */
  function SetAutoSelection(st: State): (r: (State, bool))
    ensures r.1 && r.0.manual.None?
    ensures r.0.active == SelectAuto(st.players, st.lastPlaying, st.active)
  {
    (UpdateActive(st.(manual := None)), true)
  }

  /** Removing a bus name from the players. */
  function RemoveBus(players: seq<Player>, bus: string): (r: seq<Player>)
    ensures forall p :: p in r <==> p in players && p.busName != bus
    ensures forall i :: 0 <= i < |r| ==> r[i].busName != bus
    ensures UniqueBuses(players) ==> UniqueBuses(r)
    ensures |r| <= |players|
  {
    if players == [] then []
    else
      var rest := RemoveBus(players[1..], bus);
      assert forall p :: p in players <==> p == players[0] || p in players[1..];
      if players[0].busName == bus then rest
      else
        assert UniqueBuses(players) ==> forall i :: 0 <= i < |rest| ==> rest[i].busName != players[0].busName by {
          if UniqueBuses(players) {
            forall i | 0 <= i < |rest| ensures rest[i].busName != players[0].busName {
              assert rest[i] in players[1..];
              var j :| 0 <= j < |players[1..]| && players[1..][j] == rest[i];
              assert players[j + 1] == rest[i];
            }
          }
        }
        [players[0]] + rest
  }

  /** `remove_player`: a manual choice of the removed player is dropped. */
  function RemovePlayer(st: State, bus: string): (r: (State, bool))
    ensures !HasBus(st.players, bus) ==> r == (st, false)
    ensures HasBus(st.players, bus) ==> r.1 && !HasBus(r.0.players, bus)
    ensures HasBus(st.players, bus) && st.manual == Some(bus) ==> r.0.manual.None?
    ensures HasBus(st.players, bus) && st.manual.Some? && st.manual != Some(bus) ==> r.0.manual.None? || r.0.manual == st.manual
  {
    if !HasBus(st.players, bus) then (st, false)
    else
      var players := RemoveBus(st.players, bus);
      var manual := if st.manual == Some(bus) then None else st.manual;
      (UpdateActive(st.(players := players, manual := manual)), true)
  }

  /** The players with `p` in place of the one on its bus, or added at the
      end. */
  function InsertPlayer(players: seq<Player>, p: Player): (r: seq<Player>)
    ensures HasBus(r, p.busName)
    ensures forall q :: q in r <==> q == p || (q in players && q.busName != p.busName)
  {
    var rest := RemoveBus(players, p.busName);
    assert (rest + [p])[|rest|] == p;
    rest + [p]
  }

  /** The proxy callback of `add_player`, once the proxy exists: the
      player is built, read, stored and the selection reconsidered. */
  function AddPlayer(st: State, bus: string, props: CachedProps): (r: (State, bool))
    ensures HasBus(st.players, bus) ==> r == (st, false)
    ensures !HasBus(st.players, bus) ==> r.1 && HasBus(r.0.players, bus)
  {
    if HasBus(st.players, bus) then (st, false)
    else
      var p := UpdateFromProxy(NewPlayer(bus), props).0;
      (UpdateActive(st.(players := InsertPlayer(st.players, p))), true)
  }

  /** The `PropertiesChanged` handler: the player is re-read; a player that
      starts playing becomes `last_playing`; in automatic mode it also
      becomes active, and a player that stops or pauses makes the service
      choose again. A signal for a player that is gone does nothing, as the
      handler's weak reference no longer upgrades. */
  function OnPropertiesChanged(st: State, bus: string, props: CachedProps): (r: State)
    ensures !HasBus(st.players, bus) ==> r == st
    ensures HasBus(st.players, bus) ==> HasBus(r.players, bus) && r.manual == st.manual
    ensures (HasBus(st.players, bus) && Find(r.players, bus).value.status == Playing &&
             Find(st.players, bus).value.status != Playing) ==> r.lastPlaying == Some(bus)
    ensures (HasBus(st.players, bus) && st.manual.None? && Find(r.players, bus).value.status == Playing &&
             Find(st.players, bus).value.status != Playing) ==> r.active == Some(bus)
    ensures st.manual.Some? ==> r.active == st.active
  {
    if !HasBus(st.players, bus) then st
    else
      var prev := Find(st.players, bus).value;
      var p := UpdateFromProxy(prev, props).0;
      var players := InsertPlayer(st.players, p);
      assert Find(players, bus).value == p by {
        assert p in players;
      }
      var statusChanged := prev.status != p.status;
      var last := if p.status == Playing && prev.status != Playing then Some(bus) else st.lastPlaying;
      var s1 := st.(players := players, lastPlaying := last);
      if st.manual.None? && statusChanged then
        if p.status == Playing then s1.(active := Some(bus)) else UpdateActive(s1)
      else s1
  }

  /** While a manual choice's player exists, no property change moves the
      active player away from it. */
  lemma ManualChoiceHonoured(st: State, chosen: string, bus: string, props: CachedProps)
    requires HasBus(st.players, chosen)
    ensures var s1 := SetActivePlayer(st, chosen).0;
            OnPropertiesChanged(s1, bus, props).active == Some(chosen)
  {
  }

  // ------------------------------------------------------------- snapshot

  datatype Snapshot = Snapshot(
    available: bool, playerName: Option<string>, playerId: Option<string>,
    status: PlaybackStatus, metadata: Metadata, position: int,
    canPlay: bool, canPause: bool, canGoNext: bool, canGoPrevious: bool, canSeek: bool)

  const EMPTY_SNAPSHOT: Snapshot := Snapshot(false, None, None, Stopped, NO_METADATA, 0, false, false, false, false, false)

  /** `build_snapshot`: the active player's state, or the empty snapshot
      that still says whether any player is connected. */
  function BuildSnapshot(st: State): (s: Snapshot)
    ensures st.active.None? || !HasBus(st.players, st.active.value) ==>
              s == EMPTY_SNAPSHOT.(available := st.players != [])
    ensures st.active.Some? && HasBus(st.players, st.active.value) ==>
              s.available && s.playerName == Some(Find(st.players, st.active.value).value.playerName)
              && s.status == Find(st.players, st.active.value).value.status
  {
    var p := if st.active.Some? then Find(st.players, st.active.value) else None;
    match p
    case None => EMPTY_SNAPSHOT.(available := st.players != [])
    case Some(q) =>
      Snapshot(true, Some(q.playerName), Some(q.playerId), q.status, q.metadata, q.position,
               q.canPlay, q.canPause, q.canGoNext, q.canGoPrevious, q.canSeek)
  }

  /** After the service has chosen, the snapshot is available exactly when
      some player is connected. */
  lemma SnapshotAvailable(st: State)
    ensures BuildSnapshot(UpdateActive(st)).available <==> st.players != []
  {
    ActiveIsConnected(st);
  }
}
