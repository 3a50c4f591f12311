/** The notification daemon's store (crates/vibepanel/src/services/notification.rs):
    restoring persisted history, assigning ids to incoming notifications,
    the cap of 100 stored notifications, closing, muting and invoking
    actions, and the snapshot written to disk.

    The store is a hash map from id to notification; it is given here as
    the sequence of its entries in iteration order, with distinct ids.
    Each operation returns the new service state together with the side
    effects it performs, in order: saving the state, notifying listeners,
    and the two D-Bus signals. Timestamps are seconds since the epoch; only
    their order matters, so they are integers here. */
module NotificationService {
  import opened Common

  const U32_LIMIT: nat := 0x1_0000_0000
  const MAX_NOTIFICATIONS: nat := 100
  const CLOSE_REASON_DISMISSED: nat := 2
  const CLOSE_REASON_CLOSED: nat := 3
  const URGENCY_LOW: nat := 0
  const URGENCY_NORMAL: nat := 1
  const URGENCY_CRITICAL: nat := 2

  datatype Notification = Notification(
    id: nat, appName: string, appIcon: string, summary: string, body: string,
    actions: seq<(string, string)>, urgency: nat, timestamp: int, expireTimeout: int,
    desktopEntry: Option<string>, imagePath: Option<string>)

  datatype Service = Service(
    notes: seq<Notification>, nextId: nat, muted: bool,
    backendAvailable: bool, ready: bool, restoredIds: set<nat>)

  datatype Effect = Save | NotifyListeners | Closed(id: nat, reason: nat) | ActionInvoked(id: nat, key: string)

  predicate UniqueIds(notes: seq<Notification>) {
    forall i, j :: 0 <= i < j < |notes| ==> notes[i].id != notes[j].id
  }

  function Ids(notes: seq<Notification>): set<nat> {
    set n | n in notes :: n.id
  }

  function Lookup(notes: seq<Notification>, id: nat): (r: Option<Notification>)
    ensures r.None? <==> id !in Ids(notes)
    ensures r.Some? ==> r.value in notes && r.value.id == id
  {
    if notes == [] then None
    else if notes[0].id == id then Some(notes[0])
    else
      var r := Lookup(notes[1..], id);
      assert Ids(notes) == {notes[0].id} + Ids(notes[1..]);
      r
  }

  // ------------------------------------------------------------- the map

  /** `HashMap::insert`: a notification with a known id replaces the entry
      in place, a new id is added. */
  function Upsert(notes: seq<Notification>, n: Notification): (r: seq<Notification>)
    ensures n in r
    ensures Ids(r) == Ids(notes) + {n.id}
    ensures UniqueIds(notes) ==> UniqueIds(r)
    ensures |r| == if n.id in Ids(notes) then |notes| else |notes| + 1
  {
    PutIds(notes, n);
    PutUnique(notes, n);
    PutLength(notes, n);
    Put(notes, n)
  }

  function Put(notes: seq<Notification>, n: Notification): seq<Notification> {
    if notes == [] then [n]
    else if notes[0].id == n.id then [n] + notes[1..]
    else [notes[0]] + Put(notes[1..], n)
  }

  lemma {:induction false} PutIds(notes: seq<Notification>, n: Notification)
    ensures n in Put(notes, n) && Ids(Put(notes, n)) == Ids(notes) + {n.id}
  {
    if notes == [] {
      ConsIds(n, []);
      assert [n] + [] == [n];
    } else {
      ConsIds(notes[0], notes[1..]);
      assert [notes[0]] + notes[1..] == notes;
      if notes[0].id == n.id {
        ConsIds(n, notes[1..]);
      } else {
        PutIds(notes[1..], n);
        ConsIds(notes[0], Put(notes[1..], n));
      }
    }
  }

  lemma {:induction false} PutUnique(notes: seq<Notification>, n: Notification)
    ensures UniqueIds(notes) ==> UniqueIds(Put(notes, n))
  {
    if notes != [] && UniqueIds(notes) {
      assert [notes[0]] + notes[1..] == notes;
      ConsUnique(notes[0], notes[1..]);
      if notes[0].id == n.id {
        ConsUnique(n, notes[1..]);
      } else {
        PutUnique(notes[1..], n);
        PutIds(notes[1..], n);
        ConsUnique(notes[0], Put(notes[1..], n));
      }
    }
  }

  lemma {:induction false} PutLength(notes: seq<Notification>, n: Notification)
    ensures |Put(notes, n)| == if n.id in Ids(notes) then |notes| else |notes| + 1
  {
    if notes != [] {
      assert [notes[0]] + notes[1..] == notes;
      ConsIds(notes[0], notes[1..]);
      if notes[0].id != n.id {
        PutLength(notes[1..], n);
      }
    }
  }

  /** With distinct ids, the map after an insert holds the new entry and
      exactly the old entries under other ids. */
  lemma {:induction false} UpsertMembers(notes: seq<Notification>, n: Notification)
    requires UniqueIds(notes)
    ensures forall m :: m in Upsert(notes, n) <==> m == n || (m in notes && m.id != n.id)
  {
    if notes != [] {
      ConsUnique(notes[0], notes[1..]);
      assert notes == [notes[0]] + notes[1..];
      if notes[0].id != n.id {
        UpsertMembers(notes[1..], n);
      }
    }
  }

  lemma ConsIds(x: Notification, t: seq<Notification>)
    ensures Ids([x] + t) == {x.id} + Ids(t)
  {
    assert forall m :: m in [x] + t <==> m == x || m in t;
  }

  /** Putting an entry with a fresh id in front keeps the ids distinct;
      with a repeated id it does not. */
  lemma ConsUnique(x: Notification, t: seq<Notification>)
    ensures UniqueIds([x] + t) <==> UniqueIds(t) && x.id !in Ids(t)
  {
    var s := [x] + t;
    assert s[1..] == t;
    if UniqueIds(s) {
      forall m | m in t ensures m.id != x.id {
        var k :| 0 <= k < |t| && t[k] == m;
        assert s[0] == x && s[k + 1] == m;
      }
    }
    if UniqueIds(t) && x.id !in Ids(t) {
      forall i, j | 0 <= i < j < |s| ensures s[i].id != s[j].id {
        if i == 0 {
          assert s[0] == x && s[j] == t[j - 1];
          assert s[j] in t;
        } else {
          assert s[i] == t[i - 1] && s[j] == t[j - 1];
        }
      }
    }
  }

  /** `HashMap::remove`. */
  function RemoveId(notes: seq<Notification>, id: nat): (r: seq<Notification>)
    ensures Ids(r) == Ids(notes) - {id} || !UniqueIds(notes)
    ensures forall m :: m in r <==> m in notes && m.id != id
    ensures UniqueIds(notes) ==> UniqueIds(r)
    ensures |r| <= |notes|
  {
    DropMembers(notes, id);
    DropUnique(notes, id);
    var r := Drop(notes, id);
    assert Ids(r) == Ids(notes) - {id};
    r
  }

  function Drop(notes: seq<Notification>, id: nat): (r: seq<Notification>)
    ensures |r| <= |notes|
  {
    if notes == [] then []
    else if notes[0].id == id then Drop(notes[1..], id)
    else [notes[0]] + Drop(notes[1..], id)
  }

  lemma {:induction false} DropMembers(notes: seq<Notification>, id: nat)
    ensures forall m :: m in Drop(notes, id) <==> m in notes && m.id != id
  {
    if notes != [] {
      DropMembers(notes[1..], id);
      assert forall m :: m in notes <==> m == notes[0] || m in notes[1..];
    }
  }

  lemma {:induction false} DropUnique(notes: seq<Notification>, id: nat)
    ensures UniqueIds(notes) ==> UniqueIds(Drop(notes, id))
  {
    if notes != [] && UniqueIds(notes) {
      assert [notes[0]] + notes[1..] == notes;
      ConsUnique(notes[0], notes[1..]);
      DropUnique(notes[1..], id);
      if notes[0].id != id {
        DropMembers(notes[1..], id);
        assert Ids(Drop(notes[1..], id)) <= Ids(notes[1..]);
        ConsUnique(notes[0], Drop(notes[1..], id));
      }
    }
  }

  // ------------------------------------------------------------- restore

  datatype Persisted = Persisted(history: seq<Notification>, nextId: nat, muted: bool)

  function MaxId(notes: seq<Notification>): (m: nat)
    ensures forall n :: n in notes ==> n.id <= m
    ensures notes == [] ==> m == 0
    ensures notes != [] ==> m in Ids(notes)
  {
    if notes == [] then 0
    else
      var rest := MaxId(notes[1..]);
      assert Ids(notes) == {notes[0].id} + Ids(notes[1..]);
      Max(notes[0].id, rest)
  }

  /** Inserting the persisted history entry by entry. */
  function InsertAll(notes: seq<Notification>, history: seq<Notification>): (r: seq<Notification>)
    ensures Ids(r) == Ids(notes) + Ids(history)
    ensures UniqueIds(notes) ==> UniqueIds(r)
    decreases |history|
  {
    if history == [] then notes
    else
      assert Ids(history) == {history[0].id} + Ids(history[1..]);
      InsertAll(Upsert(notes, history[0]), history[1..])
  }

  /** Inserting the history into an empty map gives distinct ids, exactly
      the history's, none above the largest. */
  lemma RestoredIds(history: seq<Notification>)
    ensures UniqueIds(InsertAll([], history)) && Ids(InsertAll([], history)) == Ids(history)
    ensures forall n :: n in InsertAll([], history) ==> n.id <= MaxId(history)
  {
    var notes := InsertAll([], history);
    assert Ids([]) == {};
    forall n | n in notes ensures n.id <= MaxId(history) {
      assert n.id in Ids(history);
    }
  }

  /** `NotificationService::new`: the history goes into the map (a later
      entry with the same id wins), every restored id is recorded, and the
      counter moves past the largest restored id. `max_id + 1` is a u32
      addition, which wraps in a release build. */
  function Restore(p: Persisted): (s: Service)
    ensures UniqueIds(s.notes)
    ensures Ids(s.notes) == s.restoredIds == Ids(p.history)
    ensures s.muted == p.muted && !s.backendAvailable && !s.ready
    ensures s.nextId >= p.nextId
    ensures MaxId(p.history) + 1 < U32_LIMIT ==> forall n :: n in s.notes ==> n.id < s.nextId
  {
    RestoredIds(p.history);
    var notes := InsertAll([], p.history);
    Service(notes, CounterAfter(p.nextId, MaxId(p.history)), p.muted, false, false, Ids(p.history))
  }

  /** `next_id.max(max_id + 1)` with the u32 addition wrapping: past the
      largest restored id unless that id is `u32::MAX`. */
  function CounterAfter(nextId: nat, maxId: nat): (r: nat)
    ensures r >= nextId
    ensures maxId + 1 < U32_LIMIT ==> r > maxId
    ensures maxId + 1 == U32_LIMIT ==> r == nextId
  {
    Max(nextId, (maxId + 1) % U32_LIMIT)
  }

  // -------------------------------------------------------------- notify

  /** A hint value as D-Bus delivers it, after unwrapping a variant. */
  datatype HintValue = U8(b: nat) | I32(i: int) | U32(u: nat) | Str(s: string) | OtherValue

  /** The urgency hint: a byte is taken as it is, a 32-bit integer is
      clamped to 0..2; the last usable entry wins, and without one the
      urgency is normal. */
  function Urgency(hints: seq<(string, HintValue)>): (u: nat)
    ensures (forall k :: 0 <= k < |hints| ==> hints[k].0 != "urgency") ==> u == URGENCY_NORMAL
    ensures (forall k :: 0 <= k < |hints| ==> !hints[k].1.U8?) ==> u <= URGENCY_CRITICAL
  {
    if hints == [] then URGENCY_NORMAL
    else
      var prev := Urgency(hints[..|hints| - 1]);
      var (key, value) := hints[|hints| - 1];
      if key != "urgency" then prev
      else match value
        case U8(b) => b
        case I32(i) => Clamp(i, 0, 2)
        case U32(v) => Clamp(v, 0, 2)
        case _ => prev
  }

  /** A string hint (`desktop-entry`, `image-path`): the last non-empty
      string value under `key`. */
  function StringHint(hints: seq<(string, HintValue)>, key: string): (r: Option<string>)
    ensures r.Some? ==> r.value != [] && exists k :: 0 <= k < |hints| && hints[k] == (key, Str(r.value))
    ensures r.None? ==> forall k :: 0 <= k < |hints| && hints[k].0 == key && hints[k].1.Str? ==> hints[k].1.s == []
  {
    if hints == [] then None
    else
      var prev := StringHint(hints[..|hints| - 1], key);
      var (k, value) := hints[|hints| - 1];
      if k == key && value.Str? && value.s != [] then Some(value.s) else prev
  }

  /** The flat action list `[id, label, id, label, ...]` as pairs; a
      trailing unpaired entry is dropped. */
  function PairActions(raw: seq<string>): (r: seq<(string, string)>)
    ensures |r| == |raw| / 2
    ensures forall k :: 0 <= k < |r| ==> r[k] == (raw[2 * k], raw[2 * k + 1])
    decreases |raw|
  {
    if |raw| < 2 then [] else [(raw[0], raw[1])] + PairActions(raw[2..])
  }

  function FlattenActions(pairs: seq<(string, string)>): (r: seq<string>)
    ensures |r| == 2 * |pairs|
  {
    if pairs == [] then [] else [pairs[0].0, pairs[0].1] + FlattenActions(pairs[1..])
  }

  /** Pairing drops nothing but a trailing unpaired entry. */
  lemma {:induction false} PairActionsRoundTrip(raw: seq<string>)
    ensures FlattenActions(PairActions(raw)) == raw[..|raw| / 2 * 2]
    decreases |raw|
  {
    if |raw| >= 2 {
      PairActionsRoundTrip(raw[2..]);
      assert PairActions(raw) == [(raw[0], raw[1])] + PairActions(raw[2..]);
      assert ([(raw[0], raw[1])] + PairActions(raw[2..]))[1..] == PairActions(raw[2..]);
      assert raw[..|raw| / 2 * 2] == [raw[0], raw[1]] + raw[2..][..|raw[2..]| / 2 * 2];
    }
  }

  /** `replaces_id` is reused only when that notification exists;
      otherwise the counter supplies the id and advances, wrapping and
      skipping 0. */
  function AssignId(s: Service, replacesId: nat): (r: (nat, nat))
    requires s.nextId < U32_LIMIT
    ensures replacesId != 0 && replacesId in Ids(s.notes) ==> r == (replacesId, s.nextId)
    ensures !(replacesId != 0 && replacesId in Ids(s.notes)) ==>
              r.0 == s.nextId && r.1 == (if s.nextId + 1 == U32_LIMIT then 1 else s.nextId + 1)
    ensures 0 < r.1 < U32_LIMIT || r.1 == s.nextId
  {
    if replacesId != 0 && Lookup(s.notes, replacesId).Some? then (replacesId, s.nextId)
    else
      var next := (s.nextId + 1) % U32_LIMIT;
      (s.nextId, if next == 0 then 1 else next)
  }

  /** One `Notify` call, its arguments already decoded. */
  datatype Request = Request(
    appName: string, replacesId: nat, appIcon: string, summary: string, body: string,
    actions: seq<string>, hints: seq<(string, HintValue)>, expireTimeout: int)

  // -------------------------------------------------------------- eviction

  /** Position of the first notification with the smallest timestamp: the
      head of a stable ascending sort of the entries. */
  function OldestIndex(notes: seq<Notification>): (i: nat)
    requires notes != []
    ensures i < |notes|
    ensures forall k :: 0 <= k < |notes| ==> notes[i].timestamp <= notes[k].timestamp
    ensures forall k :: 0 <= k < i ==> notes[k].timestamp > notes[i].timestamp
  {
    if |notes| == 1 then 0
    else
      var j := OldestIndex(notes[1..]);
      if notes[0].timestamp <= notes[j + 1].timestamp then 0 else j + 1
  }

  function RemoveAt(notes: seq<Notification>, i: nat): (r: seq<Notification>)
    requires i < |notes|
    ensures |r| == |notes| - 1
    ensures multiset(r) + multiset{notes[i]} == multiset(notes)
  {
    assert notes == notes[..i] + [notes[i]] + notes[i + 1..];
    notes[..i] + notes[i + 1..]
  }

  /** The `k` oldest entries, removed in the order a stable sort by
      timestamp lists them, and the entries that stay. */
  function Evict(notes: seq<Notification>, k: nat): (r: (seq<Notification>, seq<Notification>))
    ensures |r.1| == Min(k, |notes|) && |r.0| + |r.1| == |notes|
    ensures multiset(r.0) + multiset(r.1) == multiset(notes)
    decreases k
  {
    if k == 0 || notes == [] then (notes, [])
    else
      var i := OldestIndex(notes);
      var (kept, evicted) := Evict(RemoveAt(notes, i), k - 1);
      (kept, [notes[i]] + evicted)
  }

  /** No evicted notification is newer than one that stays. */
  lemma {:induction false} EvictOldestFirst(notes: seq<Notification>, k: nat)
    ensures forall x, y :: x in Evict(notes, k).1 && y in Evict(notes, k).0 ==> x.timestamp <= y.timestamp
    decreases k
  {
    if k > 0 && notes != [] {
      var i := OldestIndex(notes);
      var rest := RemoveAt(notes, i);
      EvictOldestFirst(rest, k - 1);
      var (kept, evicted) := Evict(rest, k - 1);
      assert Evict(notes, k) == (kept, [notes[i]] + evicted);
      forall y | y in kept ensures notes[i].timestamp <= y.timestamp {
        assert y in multiset(kept);
        assert y in multiset(notes);
        var j :| 0 <= j < |notes| && notes[j] == y;
      }
    }
  }

  /** `enforce_notification_limit`. */
  function EnforceLimit(notes: seq<Notification>): (r: seq<Notification>)
    ensures |r| == Min(|notes|, MAX_NOTIFICATIONS)
    ensures multiset(r) <= multiset(notes)
  {
    if |notes| <= MAX_NOTIFICATIONS then notes else Evict(notes, |notes| - MAX_NOTIFICATIONS).0
  }

  /** What the limit removes is never newer than what it keeps. */
  lemma EnforceLimitKeepsNewest(notes: seq<Notification>)
    ensures forall x, y :: x in multiset(notes) - multiset(EnforceLimit(notes)) && y in EnforceLimit(notes)
              ==> x.timestamp <= y.timestamp
  {
    if |notes| > MAX_NOTIFICATIONS {
      var (kept, evicted) := Evict(notes, |notes| - MAX_NOTIFICATIONS);
      EvictOldestFirst(notes, |notes| - MAX_NOTIFICATIONS);
      assert multiset(notes) - multiset(kept) == multiset(evicted);
    }
  }

  /** A notification strictly newer than every other one is never evicted. */
  lemma NewestNeverEvicted(notes: seq<Notification>, n: Notification)
    requires n in notes
    requires forall m :: m in notes && m != n ==> m.timestamp < n.timestamp
    ensures n in EnforceLimit(notes)
  {
    if |notes| > MAX_NOTIFICATIONS {
      var k := |notes| - MAX_NOTIFICATIONS;
      var (kept, evicted) := Evict(notes, k);
      EvictOldestFirst(notes, k);
      NewestKept(notes, kept, evicted, n);
    }
  }

  lemma NewestKept(notes: seq<Notification>, kept: seq<Notification>, evicted: seq<Notification>, n: Notification)
    requires multiset(kept) + multiset(evicted) == multiset(notes) && kept != []
    requires forall x, y :: x in evicted && y in kept ==> x.timestamp <= y.timestamp
    requires n in notes
    requires forall m :: m in notes && m != n ==> m.timestamp < n.timestamp
    ensures n in kept
  {
    var y := kept[0];
    assert y in multiset(kept);
    assert y in multiset(notes);
    assert n in multiset(notes);
    assert n in multiset(kept) || n in multiset(evicted);
    assert n in evicted ==> n.timestamp <= y.timestamp;
    assert y != n ==> y.timestamp < n.timestamp;
  }

  /** `handle_notify`: the id, the stored record, the cap, one save and one
      notification of listeners. `now` is the clock reading. */
  function HandleNotify(s: Service, req: Request, now: int): (r: (Service, seq<Effect>, nat))
    requires s.nextId < U32_LIMIT
    ensures r.1 == [Save, NotifyListeners]
    ensures |r.0.notes| <= MAX_NOTIFICATIONS
    ensures r.2 == AssignId(s, req.replacesId).0 && r.0.nextId == AssignId(s, req.replacesId).1
    ensures r.0.muted == s.muted && r.0.restoredIds == s.restoredIds
    ensures UniqueIds(s.notes) ==> UniqueIds(r.0.notes)
    ensures multiset(r.0.notes) <= multiset(Upsert(s.notes, Record(req, r.2, now)))
  {
    var (id, nextId) := AssignId(s, req.replacesId);
    var n := Record(req, id, now);
    var notes := Upsert(s.notes, n);
    var kept := EnforceLimit(notes);
    UniqueSubset(notes, kept);
    (s.(notes := kept, nextId := nextId), [Save, NotifyListeners], id)
  }

  /** The stored record of a request: an empty application name becomes
      "Unknown", actions are paired, hints are read. */
  function Record(req: Request, id: nat, now: int): (n: Notification)
    ensures n.id == id && n.timestamp == now
    ensures n.appName == (if req.appName == [] then "Unknown" else req.appName)
    ensures n.summary == req.summary && n.body == req.body && n.appIcon == req.appIcon
    ensures n.expireTimeout == req.expireTimeout
  {
    Notification(
      id, if req.appName == [] then "Unknown" else req.appName, req.appIcon, req.summary, req.body,
      PairActions(req.actions), Urgency(req.hints), now, req.expireTimeout,
      StringHint(req.hints, "desktop-entry"), StringHint(req.hints, "image-path"))
  }

  /** Keeping some of the entries keeps the ids distinct. */
  lemma UniqueSubset(a: seq<Notification>, b: seq<Notification>)
    ensures UniqueIds(a) && multiset(b) <= multiset(a) ==> UniqueIds(b)
  {
    if UniqueIds(a) && multiset(b) <= multiset(a) {
      forall i, j | 0 <= i < j < |b| ensures b[i].id != b[j].id {
        RepeatCounted(b, i, j);
        assert b[i] in multiset(a) && b[j] in multiset(a);
        var p :| 0 <= p < |a| && a[p] == b[i];
        SingleOccurrence(a, p);
        DistinctEntriesDistinctIds(a, b[i], b[j]);
      }
    }
  }

  lemma RepeatCounted(b: seq<Notification>, i: nat, j: nat)
    requires i < j < |b|
    ensures b[i] == b[j] ==> multiset(b)[b[i]] >= 2
  {
    assert b == b[..i] + [b[i]] + b[i + 1..j] + [b[j]] + b[j + 1..];
  }

  lemma DistinctEntriesDistinctIds(a: seq<Notification>, x: Notification, y: Notification)
    requires UniqueIds(a) && x in a && y in a
    ensures x != y ==> x.id != y.id
  {
    var p :| 0 <= p < |a| && a[p] == x;
    var q :| 0 <= q < |a| && a[q] == y;
    if p < q {
    } else if q < p {
    }
  }

  /** With distinct ids an entry occurs once. */
  lemma {:induction false} SingleOccurrence(a: seq<Notification>, p: nat)
    requires UniqueIds(a) && p < |a|
    ensures multiset(a)[a[p]] == 1
  {
    assert a == a[..p] + [a[p]] + a[p + 1..];
    assert a[p] !in a[..p] && a[p] !in a[p + 1..] by {
      forall k | 0 <= k < |a| && k != p ensures a[k] != a[p] {
        assert a[k].id != a[p].id;
      }
    }
    assert multiset(a) == multiset(a[..p]) + multiset{a[p]} + multiset(a[p + 1..]);
  }

  /** A notification newer than everything stored survives the cap and
      can be looked up under the id it was given. */
  lemma NotifyStores(s: Service, req: Request, now: int)
    requires s.nextId < U32_LIMIT && UniqueIds(s.notes)
    requires forall m :: m in s.notes ==> m.timestamp < now
    ensures Lookup(HandleNotify(s, req, now).0.notes, HandleNotify(s, req, now).2)
              == Some(Record(req, HandleNotify(s, req, now).2, now))
  {
    var (s', _, id) := HandleNotify(s, req, now);
    var n := Record(req, id, now);
    NewestInserted(s.notes, n);
    assert s'.notes == EnforceLimit(Upsert(s.notes, n));
    FoundById(s'.notes, n);
  }

  /** The newest entry survives the insert and the cap. */
  lemma NewestInserted(notes: seq<Notification>, n: Notification)
    requires UniqueIds(notes)
    requires forall m :: m in notes ==> m.timestamp < n.timestamp
    ensures n in EnforceLimit(Upsert(notes, n))
  {
    UpsertMembers(notes, n);
    NewestNeverEvicted(Upsert(notes, n), n);
  }

  /** With distinct ids, an entry is what its id looks up. */
  lemma FoundById(notes: seq<Notification>, n: Notification)
    requires UniqueIds(notes) && n in notes
    ensures Lookup(notes, n.id) == Some(n)
  {
    assert n.id in Ids(notes);
    DistinctEntriesDistinctIds(notes, Lookup(notes, n.id).value, n);
  }

  // ----------------------------------------------------------- closing

  /** `close_internal`. */
  function CloseInternal(s: Service, id: nat, reason: nat): (r: (Service, seq<Effect>))
    ensures id !in Ids(s.notes) ==> r == (s, [])
    ensures id in Ids(s.notes) ==> r.1 == [Closed(id, reason), Save, NotifyListeners]
    ensures forall m :: m in r.0.notes <==> m in s.notes && m.id != id
    ensures r.0 == s.(notes := r.0.notes)
  {
    if Lookup(s.notes, id).None? then (s, [])
    else (s.(notes := RemoveId(s.notes, id)), [Closed(id, reason), Save, NotifyListeners])
  }

  function ClosedSignals(notes: seq<Notification>): (r: seq<Effect>)
    ensures |r| == |notes|
    ensures forall k :: 0 <= k < |r| ==> r[k] == Closed(notes[k].id, CLOSE_REASON_DISMISSED)
  {
    if notes == [] then [] else [Closed(notes[0].id, CLOSE_REASON_DISMISSED)] + ClosedSignals(notes[1..])
  }

  /** `close_all`: one closed signal per notification, then a single save
      and notification; nothing at all for an empty store. */
  function CloseAll(s: Service): (r: (Service, seq<Effect>))
    ensures r.0 == s.(notes := [])
    ensures s.notes == [] ==> r.1 == []
    ensures |r.1| == if s.notes == [] then 0 else |s.notes| + 2
    ensures multiset(r.1)[Save] == (if s.notes == [] then 0 else 1)
    ensures multiset(r.1)[NotifyListeners] == (if s.notes == [] then 0 else 1)
    ensures s.notes != [] ==> r.1[..|s.notes|] == ClosedSignals(s.notes)
  {
    if s.notes == [] then (s, [])
    else
      var signals := ClosedSignals(s.notes);
      assert Save !in signals && NotifyListeners !in signals;
      (s.(notes := []), signals + [Save, NotifyListeners])
  }

  /** Closing one notification at a time saves once per notification;
      `close_all` saves once in total. */
  lemma {:induction false} CloseEachSavesPerNotification(s: Service)
    requires UniqueIds(s.notes)
    ensures multiset(CloseEach(s).1)[Save] == |s.notes|
    decreases |s.notes|
  {
    if s.notes != [] {
      var (s1, e1) := CloseInternal(s, s.notes[0].id, CLOSE_REASON_DISMISSED);
      assert s.notes[0].id in Ids(s.notes);
      assert s1.notes == RemoveId(s.notes, s.notes[0].id);
      RemoveHead(s.notes);
      CloseEachSavesPerNotification(s1);
    }
  }

  lemma RemoveHead(notes: seq<Notification>)
    requires notes != [] && UniqueIds(notes)
    ensures RemoveId(notes, notes[0].id) == notes[1..]
  {
    assert [notes[0]] + notes[1..] == notes;
    ConsUnique(notes[0], notes[1..]);
    DropAbsent(notes[1..], notes[0].id);
  }

  lemma {:induction false} DropAbsent(notes: seq<Notification>, id: nat)
    requires id !in Ids(notes)
    ensures Drop(notes, id) == notes
  {
    if notes != [] {
      assert notes[0] in notes;
      assert Ids(notes[1..]) <= Ids(notes);
      DropAbsent(notes[1..], id);
    }
  }

  /** Closing the notifications one by one, for comparison with
      `close_all`. */
  function CloseEach(s: Service): (r: (Service, seq<Effect>))
    requires UniqueIds(s.notes)
    ensures r.0.notes == []
    decreases |s.notes|
  {
    if s.notes == [] then (s, [])
    else
      var (s1, e1) := CloseInternal(s, s.notes[0].id, CLOSE_REASON_DISMISSED);
      assert s.notes[0].id in Ids(s.notes);
      assert s1.notes == RemoveId(s.notes, s.notes[0].id);
      RemoveHead(s.notes);
      var (s2, e2) := CloseEach(s1);
      (s2, e1 + e2)
  }

  // --------------------------------------------------- mute and actions

  /** `set_muted`: saving and notifying happen only on a real change. */
  function SetMuted(s: Service, muted: bool): (r: (Service, seq<Effect>))
    ensures r.0 == s.(muted := muted)
    ensures r.1 == if s.muted == muted then [] else [Save, NotifyListeners]
  {
    if s.muted != muted then (s.(muted := muted), [Save, NotifyListeners]) else (s, [])
  }

  function ToggleMuted(s: Service): (r: (Service, seq<Effect>))
    ensures r.0.muted == !s.muted && r.1 == [Save, NotifyListeners]
  {
    SetMuted(s, !s.muted)
  }

  /** Toggling twice restores the muted flag. */
  lemma ToggleTwice(s: Service)
    ensures ToggleMuted(ToggleMuted(s).0).0 == s
  {
  }

  /** `invoke_action`: unknown ids are ignored; otherwise the action is
      signalled and the notification closed. */
  function InvokeAction(s: Service, id: nat, key: string): (r: (Service, seq<Effect>))
    ensures id !in Ids(s.notes) ==> r == (s, [])
    ensures id in Ids(s.notes) ==>
              r.1 == [ActionInvoked(id, key), Closed(id, CLOSE_REASON_CLOSED), Save, NotifyListeners]
              && id !in Ids(r.0.notes)
  {
    if Lookup(s.notes, id).None? then (s, [])
    else
      var (s', effects) := CloseInternal(s, id, CLOSE_REASON_CLOSED);
      (s', [ActionInvoked(id, key)] + effects)
  }

  // ------------------------------------------------------- bus ownership

  /** `set_ready`: listeners hear about readiness once. */
  function SetReady(s: Service): (r: (Service, seq<Effect>))
    ensures r.0 == s.(ready := true)
    ensures r.1 == if s.ready then [] else [NotifyListeners]
  {
    if s.ready then (s, []) else (s.(ready := true), [NotifyListeners])
  }

  /** `on_name_acquired`: the panel is the notification daemon. */
  function OnNameAcquired(s: Service): (r: (Service, seq<Effect>))
    ensures r.0 == s.(backendAvailable := true, ready := true)
    ensures r.1 == (if s.ready then [] else [NotifyListeners]) + [NotifyListeners]
  {
    var (s1, e1) := SetReady(s.(backendAvailable := true));
    (s1, e1 + [NotifyListeners])
  }

  /** `on_name_lost`: another daemon owns the name, or this one lost it. */
  function OnNameLost(s: Service): (r: (Service, seq<Effect>))
    ensures r.0 == s.(backendAvailable := false, ready := true)
    ensures r.1 == (if s.ready then [] else [NotifyListeners]) + [NotifyListeners]
  {
    var (s1, e1) := SetReady(s.(backendAvailable := false));
    (s1, e1 + [NotifyListeners])
  }

  // ------------------------------------------------------------ saving

  /** Inserts `n` into a list ordered newest first, after every entry at
      least as new (the stable descending sort). */
  function InsertNewestFirst(n: Notification, sorted: seq<Notification>): (r: seq<Notification>)
    requires NewestFirst(sorted)
    ensures NewestFirst(r)
    ensures multiset(r) == multiset(sorted) + multiset{n}
    ensures |r| == |sorted| + 1
    ensures r == [] || r[0] == n || (sorted != [] && r[0] == sorted[0])
  {
    if sorted == [] || sorted[0].timestamp < n.timestamp then [n] + sorted
    else
      var tail := InsertNewestFirst(n, sorted[1..]);
      assert sorted == [sorted[0]] + sorted[1..];
      [sorted[0]] + tail
  }

  predicate NewestFirst(notes: seq<Notification>) {
    forall i, j :: 0 <= i < j < |notes| ==> notes[i].timestamp >= notes[j].timestamp
  }

  /** The history is sorted by timestamp, most recent first. */
  function SortNewestFirst(notes: seq<Notification>): (r: seq<Notification>)
    ensures NewestFirst(r)
    ensures multiset(r) == multiset(notes)
  {
    if notes == [] then []
    else
      assert notes == notes[..|notes| - 1] + [notes[|notes| - 1]];
      InsertNewestFirst(notes[|notes| - 1], SortNewestFirst(notes[..|notes| - 1]))
  }

  /** `save_state`: what is written to disk. */
  function SaveState(s: Service): (p: Persisted)
    ensures NewestFirst(p.history)
    ensures multiset(p.history) == multiset(s.notes)
    ensures p.nextId == s.nextId && p.muted == s.muted
  {
    Persisted(SortNewestFirst(s.notes), s.nextId, s.muted)
  }

  /** Restoring what was saved gives back the same notifications, the same
      counter and the same muted flag, and marks every notification as
      restored. */
  lemma RestoreSaved(s: Service)
    requires UniqueIds(s.notes)
    requires 0 < s.nextId < U32_LIMIT && forall m :: m in s.notes ==> m.id < s.nextId
    ensures Restore(SaveState(s)).notes == SaveState(s).history
    ensures multiset(Restore(SaveState(s)).notes) == multiset(s.notes)
    ensures Restore(SaveState(s)).nextId == s.nextId
    ensures Restore(SaveState(s)).muted == s.muted
    ensures Restore(SaveState(s)).restoredIds == Ids(s.notes)
  {
    var p := SaveState(s);
    UniqueSubset(s.notes, p.history);
    SameEntries(p.history, s.notes);
    RestoreDistinct(p);
    RestoreKeepsCounter(p);
  }

  /** A history with distinct ids is restored entry for entry. */
  lemma RestoreDistinct(p: Persisted)
    requires UniqueIds(p.history)
    ensures Restore(p).notes == p.history
  {
    assert [] + p.history == p.history;
    InsertAllDistinct([], p.history);
  }

  /** A counter above every restored id is kept as it is. */
  lemma RestoreKeepsCounter(p: Persisted)
    requires 0 < p.nextId < U32_LIMIT && forall m :: m in p.history ==> m.id < p.nextId
    ensures Restore(p).nextId == p.nextId
  {
    if p.history != [] {
      var top := MaxId(p.history);
      assert top in Ids(p.history);
      assert top < p.nextId;
    }
  }

  lemma SameEntries(a: seq<Notification>, b: seq<Notification>)
    requires multiset(a) == multiset(b)
    ensures forall m :: m in a <==> m in b
    ensures Ids(a) == Ids(b)
  {
    forall m ensures m in a <==> m in b {
      assert m in a <==> m in multiset(a);
      assert m in b <==> m in multiset(b);
    }
  }

  /** Inserting entries with distinct new ids appends them in order. */
  lemma {:induction false} InsertAllDistinct(notes: seq<Notification>, history: seq<Notification>)
    requires UniqueIds(notes + history)
    ensures InsertAll(notes, history) == notes + history
    decreases |history|
  {
    if history != [] {
      var n := history[0];
      assert n.id !in Ids(notes) by {
        forall k | 0 <= k < |notes| ensures notes[k].id != n.id {
          assert (notes + history)[k] == notes[k];
          assert (notes + history)[|notes|] == n;
        }
      }
      AppendFresh(notes, n);
      assert notes + history == (notes + [n]) + history[1..];
      InsertAllDistinct(notes + [n], history[1..]);
    }
  }

  lemma {:induction false} AppendFresh(notes: seq<Notification>, n: Notification)
    requires n.id !in Ids(notes)
    ensures Upsert(notes, n) == notes + [n]
  {
    if notes != [] {
      assert Ids(notes) == {notes[0].id} + Ids(notes[1..]);
      AppendFresh(notes[1..], n);
      assert notes == [notes[0]] + notes[1..];
    }
  }
}
