/*
 * Toast popups (`widgets/notification_toast.rs`): where each toast sits in
 * the stack, how long it stays, and the bookkeeping of the manager that
 * keeps the toasts in arrival order.
 *
 * The manager's map from id to toast window is modelled as a map from id
 * to the stack index the toast was last placed at; the window itself,
 * its animation and its timer are left out.
 */
module NotificationToast {
  import opened Common
  import opened NotificationCommon
  import opened NotificationService

  // ---------------------------------------------------------- placement

  /** `calculate_margin`: the top margin of the toast at `index`. */
  function Margin(index: nat): (m: int)
    ensures m >= TOAST_MARGIN_TOP
  {
    TOAST_MARGIN_TOP + index * (TOAST_ESTIMATED_HEIGHT + TOAST_GAP)
  }

  /** The first toast sits at the top margin, and a toast lower in the
      stack starts at least one toast height plus one gap below every toast
      above it, so estimated toasts never overlap. */
  lemma StackDoesNotOverlap(i: nat, j: nat)
    requires i < j
    ensures Margin(0) == TOAST_MARGIN_TOP
    ensures Margin(i) + TOAST_ESTIMATED_HEIGHT + TOAST_GAP <= Margin(j)
  {
    assert Margin(j) - Margin(i) == (j - i) * (TOAST_ESTIMATED_HEIGHT + TOAST_GAP);
  }

  /** The timeout chosen in `NotificationToast::new`, in milliseconds;
      0 means the toast stays until dismissed. */
  function TimeoutMs(n: Notification): (t: nat)
    ensures t == 0 <==> n.urgency == URGENCY_CRITICAL
    ensures n.urgency != URGENCY_CRITICAL && n.expireTimeout > 0 ==> t == n.expireTimeout
    ensures n.urgency != URGENCY_CRITICAL && n.expireTimeout <= 0 ==> t == TOAST_TIMEOUT_MS
  {
    if n.urgency == URGENCY_CRITICAL then TOAST_TIMEOUT_CRITICAL_MS
    else if n.expireTimeout > 0 then n.expireTimeout
    else TOAST_TIMEOUT_MS
  }

  // ------------------------------------------------------------ manager

  /** The toasts on screen (id to stack index) and their arrival order. */
  datatype Manager = Manager(toasts: map<nat, nat>, order: seq<nat>)

  /** What the manager tells the outside world: a toast was presented at a
      stack index, or `on_toast_removed` fired. */
  datatype ToastEvent = Presented(id: nat, index: nat) | Removed

  predicate Distinct(xs: seq<nat>) {
    forall i, j :: 0 <= i < j < |xs| ==> xs[i] != xs[j]
  }

  /** Every toast is in the order exactly once, and stands at its
      position in the order. */
  ghost predicate Valid(m: Manager) {
    && Distinct(m.order)
    && (forall id :: id in m.toasts <==> id in m.order)
    && (forall k :: 0 <= k < |m.order| ==> m.order[k] in m.toasts && m.toasts[m.order[k]] == k)
  }

  function EmptyManager(): (m: Manager)
    ensures Valid(m) && m.order == []
  {
    Manager(map[], [])
  }

  /** `Vec::retain(|&x| x != id)`. */
  function Without(xs: seq<nat>, id: nat): (r: seq<nat>)
    ensures forall x :: x in r <==> x in xs && x != id
    ensures Distinct(xs) ==> Distinct(r)
    ensures id !in xs ==> r == xs
    ensures |r| <= |xs|
  {
    if xs == [] then []
    else
      var rest := Without(xs[1..], id);
      assert forall x :: x in xs <==> x == xs[0] || x in xs[1..];
      ConsDistinct(xs[0], xs[1..]);
      assert xs == [xs[0]] + xs[1..];
      if xs[0] == id then rest
      else
        ConsDistinct(xs[0], rest);
        [xs[0]] + rest
  }

  lemma ConsDistinct(x: nat, t: seq<nat>)
    ensures Distinct([x] + t) <==> Distinct(t) && x !in t
  {
    var s := [x] + t;
    assert s[0] == x && s[1..] == t;
    if Distinct(s) {
      forall i, j | 0 <= i < j < |t| ensures t[i] != t[j] {
        assert s[i + 1] == t[i] && s[j + 1] == t[j];
      }
      forall k | 0 <= k < |t| ensures t[k] != x {
        assert s[k + 1] == t[k];
      }
    }
    if Distinct(t) && x !in t {
      forall i, j | 0 <= i < j < |s| ensures s[i] != s[j] {
        assert s[j] == t[j - 1];
        if i > 0 {
          assert s[i] == t[i - 1];
        }
      }
    }
  }

  /** `reposition_toasts`: every toast in the order is moved to its index,
      from position `from` on. */
  function Reposition(toasts: map<nat, nat>, order: seq<nat>, from: nat): (r: map<nat, nat>)
    requires from <= |order| && Distinct(order)
    ensures r.Keys == toasts.Keys
    ensures forall k :: from <= k < |order| && order[k] in toasts ==> r[order[k]] == k
    ensures forall id :: id in toasts && id !in order[from..] ==> r[id] == toasts[id]
    decreases |order| - from
  {
    if from == |order| then toasts
    else
      var id := order[from];
      var next := if id in toasts then toasts[id := from] else toasts;
      var r := Reposition(next, order, from + 1);
      assert forall x :: x in order[from..] <==> x == id || x in order[from + 1..];
      r
  }

  /** `remove_toast`: drops the toast, keeps the others in order, moves
      them up, and tells the widget to recount its badge. */
  function RemoveToast(m: Manager, id: nat): (r: (Manager, seq<ToastEvent>))
    requires Valid(m)
    ensures r.1 == [Removed]
    ensures r.0.order == Without(m.order, id)
    ensures Valid(r.0)
    ensures forall x :: x in r.0.toasts <==> x in m.toasts && x != id
  {
    var order := Without(m.order, id);
    var toasts := Reposition(m.toasts - {id}, order, 0);
    (Manager(toasts, order), [Removed])
  }

  /** `show`: a toast already on screen for the id is removed first; the
      new one goes to the bottom of the stack. */
  function Show(m: Manager, n: Notification): (r: (Manager, seq<ToastEvent>))
    requires Valid(m)
    ensures Valid(r.0)
    ensures r.0.order == Without(m.order, n.id) + [n.id]
    ensures r.0.toasts[n.id] == |r.0.order| - 1
    ensures r.1 == (if n.id in m.toasts then [Removed] else []) + [Presented(n.id, |r.0.order| - 1)]
  {
    var (m1, removed) := if n.id in m.toasts then RemoveToast(m, n.id) else (m, []);
    assert m1.order == Without(m.order, n.id);
    AppendValid(m1, n.id);
    (Append(m1, n.id), removed + [Presented(n.id, |m1.order|)])
  }

  /** A toast for a new id at the bottom of the stack. */
  function Append(m: Manager, id: nat): Manager {
    Manager(m.toasts[id := |m.order|], m.order + [id])
  }

  lemma AppendValid(m: Manager, id: nat)
    requires Valid(m) && id !in m.order
    ensures Valid(Append(m, id))
  {
    var a := Append(m, id);
    ConsDistinctLast(m.order, id);
    forall k | 0 <= k < |a.order| ensures a.order[k] in a.toasts && a.toasts[a.order[k]] == k {
      if k < |m.order| {
        assert a.order[k] == m.order[k];
      }
    }
  }

  lemma ConsDistinctLast(xs: seq<nat>, x: nat)
    requires Distinct(xs) && x !in xs
    ensures Distinct(xs + [x])
  {
    var s := xs + [x];
    forall i, j | 0 <= i < j < |s| ensures s[i] != s[j] {
      assert s[i] == xs[i];
      if j < |xs| {
        assert s[j] == xs[j];
      }
    }
  }

  /** `active_ids`: the toasts on screen are the ones the order lists. */
  function ActiveIds(m: Manager): (ids: set<nat>)
    requires Valid(m)
    ensures forall id :: id in ids <==> id in m.order
  {
    m.toasts.Keys
  }

  /** Moving toasts to the indexes they already stand at changes nothing. */
  lemma RepositionValid(m: Manager)
    requires Valid(m)
    ensures Reposition(m.toasts, m.order, 0) == m.toasts
  {
    var r := Reposition(m.toasts, m.order, 0);
    forall id | id in m.toasts ensures r[id] == m.toasts[id] {
      var k :| 0 <= k < |m.order| && m.order[k] == id;
    }
  }

  /** Showing a toast and then removing it leaves the manager as removing
      it directly would. */
  lemma ShowThenRemove(m: Manager, n: Notification)
    requires Valid(m)
    ensures RemoveToast(Show(m, n).0, n.id).0 == RemoveToast(m, n.id).0
  {
    var m1 := RemoveToast(m, n.id).0;
    if n.id !in m.toasts {
      RemoveAbsentToast(m, n.id);
    }
    assert Show(m, n).0 == Append(m1, n.id);
    RemoveAppended(m1, n.id);
  }

  /** Removing an id that has no toast moves nothing. */
  lemma RemoveAbsentToast(m: Manager, id: nat)
    requires Valid(m) && id !in m.toasts
    ensures RemoveToast(m, id).0 == m
  {
    assert id !in m.order;
    RepositionValid(m);
    assert m.toasts - {id} == m.toasts;
  }

  lemma RemoveAppended(m: Manager, id: nat)
    requires Valid(m) && id !in m.toasts && Valid(Append(m, id))
    ensures RemoveToast(Append(m, id), id).0 == m
  {
    var a := Append(m, id);
    WithoutLast(m.order, id);
    assert Without(a.order, id) == m.order;
    assert a.toasts - {id} == m.toasts;
    RepositionValid(m);
  }

  lemma {:induction false} WithoutLast(xs: seq<nat>, id: nat)
    requires id !in xs
    ensures Without(xs + [id], id) == xs
  {
    if xs != [] {
      WithoutLast(xs[1..], id);
      assert (xs + [id])[1..] == xs[1..] + [id];
      assert xs == [xs[0]] + xs[1..];
    }
  }

  /** Removing a toast keeps the others in their relative order: a toast
      above another before the removal is still above it after. */
  lemma {:induction false} RemoveKeepsRelativeOrder(xs: seq<nat>, id: nat, i: nat, j: nat)
    requires i < j < |xs| && xs[i] != id && xs[j] != id
    ensures exists p, q :: 0 <= p < q < |Without(xs, id)| && Without(xs, id)[p] == xs[i] && Without(xs, id)[q] == xs[j]
  {
    var rest := Without(xs[1..], id);
    if i == 0 {
      assert xs[j] == xs[1..][j - 1];
      assert xs[j] in rest;
      var q :| 0 <= q < |rest| && rest[q] == xs[j];
      assert Without(xs, id) == [xs[0]] + rest;
      assert Without(xs, id)[0] == xs[0] && Without(xs, id)[q + 1] == xs[j];
    } else {
      RemoveKeepsRelativeOrder(xs[1..], id, i - 1, j - 1);
      var p, q :| 0 <= p < q < |rest| && rest[p] == xs[1..][i - 1] && rest[q] == xs[1..][j - 1];
      if xs[0] == id {
        assert Without(xs, id) == rest;
      } else {
        assert Without(xs, id) == [xs[0]] + rest;
        assert Without(xs, id)[p + 1] == rest[p] && Without(xs, id)[q + 1] == rest[q];
      }
    }
  }
}
