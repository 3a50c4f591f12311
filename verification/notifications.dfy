/*
 * The notification bell in the bar (`widgets/notifications.rs`): the
 * unread count behind the badge dot, the choice of which notifications get
 * a toast, and the icon and tooltip that summarise the store.
 *
 * Timestamps are the service's integer model of its `f64` seconds.
 */
module NotificationsWidget {
  import opened Common
  import opened NotificationService

  /** What the widget remembers between service updates: the ids it has
      already seen (toasted or not) and when the popover was last opened
      (0 until it is opened for the first time). */
  datatype Widget = Widget(known: set<nat>, lastSeen: int)

  /** `bind_service`: restored notifications count as already known. */
  function Bind(s: Service): (w: Widget)
    ensures w.known == s.restoredIds && w.lastSeen == 0
  {
    Widget(s.restoredIds, 0)
  }

  /** `mark_as_seen`, called when the popover opens; `now` is the clock. */
  function MarkAsSeen(w: Widget, now: int): (r: Widget)
    ensures r.known == w.known && r.lastSeen == now
  {
    w.(lastSeen := now)
  }

  // --------------------------------------------------------------- unread

  /** A notification is unread unless it is showing as a toast; before the
      popover was ever opened every other notification is unread, after
      that only those delivered since. */
  predicate CountsAsUnread(n: Notification, toastIds: set<nat>, lastSeen: int) {
    n.id !in toastIds && (lastSeen <= 0 || n.timestamp > lastSeen)
  }

  function Unread(notes: seq<Notification>, toastIds: set<nat>, lastSeen: int): (r: seq<Notification>)
    ensures forall n :: n in r <==> n in notes && CountsAsUnread(n, toastIds, lastSeen)
    ensures |r| <= |notes|
  {
    if notes == [] then []
    else
      var rest := Unread(notes[1..], toastIds, lastSeen);
      assert forall n :: n in notes <==> n == notes[0] || n in notes[1..];
      if CountsAsUnread(notes[0], toastIds, lastSeen) then [notes[0]] + rest else rest
  }

  /** `calculate_unread_count`. */
  function UnreadCount(s: Service, toastIds: set<nat>, lastSeen: int): (r: nat)
    ensures r <= |s.notes|
    ensures r == 0 <==> !s.backendAvailable || forall n :: n in s.notes ==> !CountsAsUnread(n, toastIds, lastSeen)
  {
    if !s.backendAvailable then 0
    else
      var u := Unread(s.notes, toastIds, lastSeen);
      assert u != [] ==> u[0] in u;
      |u|
  }

  /** Before the popover is first opened, with no toast on screen, every
      notification is unread. */
  lemma {:induction false} FirstRunAllUnread(notes: seq<Notification>, lastSeen: int)
    requires lastSeen <= 0
    ensures Unread(notes, {}, lastSeen) == notes
  {
    if notes != [] {
      FirstRunAllUnread(notes[1..], lastSeen);
      assert notes == [notes[0]] + notes[1..];
    }
  }

  /** Opening the popover later never increases the count. */
  lemma {:induction false} LaterSeenFewerUnread(notes: seq<Notification>, toastIds: set<nat>, a: int, b: int)
    requires 0 < a <= b
    ensures |Unread(notes, toastIds, b)| <= |Unread(notes, toastIds, a)|
  {
    if notes != [] {
      LaterSeenFewerUnread(notes[1..], toastIds, a, b);
    }
  }

  /** Once the popover has been opened after every delivery, nothing is
      unread. */
  lemma SeenClearsBadge(s: Service, toastIds: set<nat>, now: int)
    requires 0 < now && forall n :: n in s.notes ==> n.timestamp <= now
    ensures UnreadCount(s, toastIds, now) == 0
  {
  }

  // --------------------------------------------------------------- toasts

  /** `show_new_toasts`: returns the new known set and the ids that get a
      toast. `canShow` says whether the toast manager and the application
      exist. While muted, or when no toast can be shown, the known set
      still moves on so that unmuting does not replay old notifications. */
  function ShowNewToasts(w: Widget, s: Service, canShow: bool): (r: (Widget, set<nat>))
    ensures !s.backendAvailable ==> r == (w, {})
    ensures s.backendAvailable ==> r.0 == w.(known := Ids(s.notes))
    ensures forall id :: id in r.1 <==> s.backendAvailable && !s.muted && canShow && id in Ids(s.notes) && id !in w.known
  {
    if !s.backendAvailable then (w, {})
    else if s.muted then (w.(known := Ids(s.notes)), {})
    else
      var current := Ids(s.notes);
      (w.(known := current), if canShow then current - w.known else {})
  }

  /** The same store shown twice toasts nothing the second time. */
  lemma ShowTwiceQuiet(w: Widget, s: Service, canShow: bool, canShowAgain: bool)
    requires s.backendAvailable
    ensures ShowNewToasts(ShowNewToasts(w, s, canShow).0, s, canShowAgain).1 == {}
  {
  }

  /** What arrived while muted is not toasted after unmuting. */
  lemma MutedNotReplayed(w: Widget, s: Service, canShow: bool)
    requires s.backendAvailable && s.muted
    ensures ShowNewToasts(ShowNewToasts(w, s, canShow).0, s.(muted := false), canShow).1 == {}
  {
  }

  /** Notifications restored from disk never pop up as toasts. */
  lemma RestoredNeverToast(p: Persisted, canShow: bool)
    ensures ShowNewToasts(Bind(Restore(p)), Restore(p).(backendAvailable := true), canShow).1 == {}
  {
  }

  /** A notification with a fresh id, delivered after everything stored,
      gets a toast when the widget had seen the store before it. */
  lemma FreshNotificationToasts(s: Service, req: Request, now: int, w: Widget)
    requires s.nextId < U32_LIMIT && UniqueIds(s.notes)
    requires forall m :: m in s.notes ==> m.timestamp < now && m.id < s.nextId
    requires !(req.replacesId != 0 && req.replacesId in Ids(s.notes))
    requires s.backendAvailable && !s.muted && w.known == Ids(s.notes)
    ensures HandleNotify(s, req, now).2 in ShowNewToasts(w, HandleNotify(s, req, now).0, true).1
  {
    var (s', _, id) := HandleNotify(s, req, now);
    NotifyStores(s, req, now);
    assert id == s.nextId;
    assert id !in Ids(s.notes);
  }

  // ----------------------------------------------------------------- view

  /** What `on_service_update` puts on screen. `icon` is None when the
      icon is left as it was. */
  datatype View = View(dot: bool, critical: bool, unavailable: bool, icon: Option<string>, tooltip: string)

  const UNAVAILABLE_TOOLTIP: string := "Notification daemon unavailable (another daemon is running)"

  predicate HasCritical(notes: seq<Notification>) {
    exists n :: n in notes && n.urgency == URGENCY_CRITICAL
  }

  /** The tooltip for an available daemon. */
  function CountTooltip(unread: nat, count: nat): (t: string)
  {
    if count == 0 then "No notifications"
    else if unread == 1 then "1 new notification (" + NatToString(count) + " total)"
    else if unread > 0 then NatToString(unread) + " new notifications (" + NatToString(count) + " total)"
    else if count == 1 then "1 notification"
    else NatToString(count) + " notifications"
  }

  /** `on_service_update`: toasts first, then the badge, which does not
      count the toasts just shown. */
  function OnServiceUpdate(w: Widget, s: Service, toastIds: set<nat>, canShow: bool): (r: (Widget, set<nat>, View))
    ensures (r.0, r.1) == ShowNewToasts(w, s, canShow)
    ensures r.2.dot <==> UnreadCount(s, toastIds + r.1, w.lastSeen) > 0
    ensures r.2.critical <==> HasCritical(s.notes)
    ensures r.2.unavailable <==> !s.backendAvailable
    ensures r.2.unavailable ==> r.2.icon.None? && r.2.tooltip == UNAVAILABLE_TOOLTIP
    ensures !r.2.unavailable ==> r.2.icon == Some(if s.muted then "notifications-disabled" else "notifications")
  {
    var (w', shown) := ShowNewToasts(w, s, canShow);
    var unread := UnreadCount(s, toastIds + shown, w.lastSeen);
    var view :=
      if !s.backendAvailable then View(unread > 0, HasCritical(s.notes), true, None, UNAVAILABLE_TOOLTIP)
      else View(unread > 0, HasCritical(s.notes), false,
                Some(if s.muted then "notifications-disabled" else "notifications"),
                CountTooltip(unread, |s.notes|));
    (w', shown, view)
  }

  /** A notification that has just been toasted does not light the badge. */
  lemma ToastedNotUnread(w: Widget, s: Service, toastIds: set<nat>, canShow: bool, n: Notification)
    requires n in s.notes && n.id in OnServiceUpdate(w, s, toastIds, canShow).1
    ensures !CountsAsUnread(n, toastIds + OnServiceUpdate(w, s, toastIds, canShow).1, w.lastSeen)
  {
  }

  /** The tooltip names the unread count, the total, or says the list is
      empty. */
  lemma TooltipCases(unread: nat, count: nat)
    requires unread <= count
    ensures count == 0 ==> CountTooltip(unread, count) == "No notifications"
    ensures unread > 1 ==>
              CountTooltip(unread, count) == NatToString(unread) + " new notifications (" + NatToString(count) + " total)"
    ensures unread == 0 && count > 1 ==> CountTooltip(unread, count) == NatToString(count) + " notifications"
  {
  }
}
