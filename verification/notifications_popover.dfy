/*
 * The notification centre popover (`widgets/notifications_popover.rs`):
 * which rows it lists and in which order, the scroll height, and the
 * decisions taken for each row (urgency class, expandable body, primary
 * action, the action row).
 */
module NotificationsPopover {
  import opened Common
  import opened NotificationCommon
  import opened NotificationService

  const LIST_PADDING_TOP: int := 8
  const ROW_PADDING_AND_MARGIN: int := 16
  const ROW_SLOP: int := 4
  const BASE_SLOP: int := 8

  const OTHER_DAEMON_MESSAGE: string :=
    "Another notification daemon is running.\nDisable it to use this notification center."
  const NO_NOTIFICATIONS_MESSAGE: string := "No notifications"

  // ---------------------------------------------------------------- list

  /** The list: an empty-state message or the rows in display order. */
  datatype Content = EmptyState(message: string) | Rows(rows: seq<Notification>)

  /** `populate_notification_list`. */
  function PopulateList(s: Service): (c: Content)
    ensures !s.backendAvailable ==> c == EmptyState(OTHER_DAEMON_MESSAGE)
    ensures s.backendAvailable && s.notes == [] ==> c == EmptyState(NO_NOTIFICATIONS_MESSAGE)
    ensures s.backendAvailable && s.notes != [] ==> c.Rows?
    ensures c.Rows? ==> NewestFirst(c.rows) && multiset(c.rows) == multiset(s.notes)
  {
    if !s.backendAvailable then EmptyState(OTHER_DAEMON_MESSAGE)
    else if s.notes == [] then EmptyState(NO_NOTIFICATIONS_MESSAGE)
    else Rows(SortNewestFirst(s.notes))
  }

  /** The first row is the most recent notification in the store. */
  lemma FirstRowNewest(s: Service, n: Notification)
    requires PopulateList(s).Rows? && n in s.notes
    ensures PopulateList(s).rows != []
    ensures n.timestamp <= PopulateList(s).rows[0].timestamp
  {
    var rows := PopulateList(s).rows;
    assert n in multiset(s.notes);
    assert n in multiset(rows);
    var k :| 0 <= k < |rows| && rows[k] == n;
  }

  /** The number of children of the list box. */
  function ChildCount(c: Content): (n: nat)
    ensures n >= 1 || (c.Rows? && c.rows == [])
  {
    match c
    case EmptyState(_) => 1
    case Rows(rows) => |rows|
  }

  /** The scroll window's minimum content height: the measured height plus
      the CSS padding the measurement leaves out, capped at three rows. */
  function ContentHeight(natural: int, children: nat): (h: int)
    ensures h <= POPOVER_MAX_VISIBLE_ROWS * POPOVER_ROW_HEIGHT
    ensures h == POPOVER_MAX_VISIBLE_ROWS * POPOVER_ROW_HEIGHT
            || h == natural + LIST_PADDING_TOP + BASE_SLOP + children * (ROW_PADDING_AND_MARGIN + ROW_SLOP)
  {
    Min(natural + (LIST_PADDING_TOP + BASE_SLOP + children * (ROW_PADDING_AND_MARGIN + ROW_SLOP)),
        POPOVER_MAX_VISIBLE_ROWS * POPOVER_ROW_HEIGHT)
  }

  /** More rows never make the popover shorter, and below the cap each row
      adds its padding and slop. */
  lemma ContentHeightGrows(natural: int, a: nat, b: nat)
    requires a <= b
    ensures ContentHeight(natural, a) <= ContentHeight(natural, b)
    ensures ContentHeight(natural, b) < POPOVER_MAX_VISIBLE_ROWS * POPOVER_ROW_HEIGHT ==>
              ContentHeight(natural, b) - ContentHeight(natural, a) == (b - a) * (ROW_PADDING_AND_MARGIN + ROW_SLOP)
  {
  }

  // ----------------------------------------------------------------- row

  /** The urgency CSS class of a row. */
  function UrgencyClass(n: Notification): (c: Option<string>)
    ensures c == Some("notification-critical") <==> n.urgency == URGENCY_CRITICAL
    ensures c == Some("notification-low") <==> n.urgency == URGENCY_LOW
    ensures c.None? <==> n.urgency != URGENCY_CRITICAL && n.urgency != URGENCY_LOW
  {
    if n.urgency == URGENCY_CRITICAL then Some("notification-critical")
    else if n.urgency == URGENCY_LOW then Some("notification-low")
    else None
  }

  /** The body as a row shows it: sanitised by `sanitize_body_markup` as
      written, newlines turned into spaces, trimmed. */
  function CleanBody(body: string): string {
    Trim(ReplaceChar(SanitizeBodyMarkupAsWritten(body), '\n', ' '))
  }

  /** The body label: none for an empty body, otherwise the cleaned markup
      and whether it gets the "Show more" toggle, which it does when the
      cleaned text has more than `BODY_TRUNCATE_THRESHOLD` characters. */
  function BodyLabel(n: Notification): (r: Option<(string, bool)>)
    ensures r.None? <==> n.body == []
    ensures r.Some? ==> r.value.0 == CleanBody(n.body) && (r.value.1 <==> |r.value.0| > BODY_TRUNCATE_THRESHOLD)
  {
    if n.body == [] then None
    else
      var clean := CleanBody(n.body);
      Some((clean, |clean| > BODY_TRUNCATE_THRESHOLD))
  }

  lemma ReplaceAbsent(s: string, c: char, d: char)
    requires c !in s
    ensures ReplaceChar(s, c, d) == s
  {
  }

  /** A plain one-line body is shown as it is: it is expandable exactly
      when it is longer than the threshold. */
  lemma PlainBodyExpandsWhenLong(n: Notification)
    requires n.body != [] && NoMarkup(n.body) && '\n' !in n.body
    requires !IsWhitespace(n.body[0]) && !IsWhitespace(n.body[|n.body| - 1])
    ensures BodyLabel(n) == Some((n.body, |n.body| > BODY_TRUNCATE_THRESHOLD))
  {
    PlainBodyUnchanged(AsWritten, n.body);
    assert SanitizeBodyMarkupAsWritten(n.body) == n.body;
    ReplaceAbsent(n.body, '\n', ' ');
    assert TrimStartBy(n.body, IsWhitespace) == n.body;
    assert TrimEndBy(n.body, IsWhitespace) == n.body;
  }

  // -------------------------------------------------------------- actions

  predicate IsDefault(action: (string, string)) { action.0 == "default" }

  /** An action labelled "Open" that is not the default one. */
  predicate IsOpen(action: (string, string)) { !IsDefault(action) && action.1 == "Open" }

  /** The position of the first "Open" action. */
  function FirstOpen(actions: seq<(string, string)>): (r: Option<nat>)
    ensures r.Some? ==> r.value < |actions| && IsOpen(actions[r.value])
    ensures r.Some? ==> forall j :: 0 <= j < r.value ==> !IsOpen(actions[j])
    ensures r.None? ==> forall j :: 0 <= j < |actions| ==> !IsOpen(actions[j])
  {
    if actions == [] then None
    else if IsOpen(actions[0]) then Some(0)
    else match FirstOpen(actions[1..])
      case None => None
      case Some(k) => Some(k + 1)
  }

  /** The primary action: "default" when the notification has one, else
      the first action labelled "Open". */
  function PrimaryAction(actions: seq<(string, string)>): (r: Option<string>)
    ensures (exists k :: 0 <= k < |actions| && IsDefault(actions[k])) ==> r == Some("default")
    ensures (forall k :: 0 <= k < |actions| ==> !IsDefault(actions[k])) ==>
              (r.None? <==> forall k :: 0 <= k < |actions| ==> actions[k].1 != "Open")
  {
    if exists k :: 0 <= k < |actions| && IsDefault(actions[k]) then Some("default")
    else match FirstOpen(actions)
      case None => None
      case Some(k) => Some(actions[k].0)
  }

  /** The loop of `build_notification_row` that picks the primary action,
      as written, agrees with `PrimaryAction`. */
  method ChoosePrimaryAction(actions: seq<(string, string)>) returns (primary: Option<string>)
    ensures primary == PrimaryAction(actions)
  {
    var defaultAction: Option<string> := None;
    var openAction: Option<string> := None;
    var i := 0;
    while i < |actions|
      invariant 0 <= i <= |actions|
      invariant defaultAction.Some? <==> exists k :: 0 <= k < i && IsDefault(actions[k])
      invariant defaultAction.Some? ==> defaultAction == Some("default")
      invariant openAction == (match FirstOpen(actions[..i]) case None => None case Some(k) => Some(actions[k].0))
    {
      FirstOpenExtend(actions, i);
      var (id, caption) := actions[i];
      if id == "default" {
        defaultAction := Some(id);
      } else if caption == "Open" && openAction.None? {
        openAction := Some(id);
      }
      i := i + 1;
    }
    assert actions[..|actions|] == actions;
    primary := if defaultAction.Some? then defaultAction else openAction;
  }

  /** Looking one action further finds the same first "Open" action, or
      the new one when there was none. */
  lemma FirstOpenExtend(actions: seq<(string, string)>, i: nat)
    requires i < |actions|
    ensures FirstOpen(actions[..i + 1]) ==
              (if FirstOpen(actions[..i]).Some? then FirstOpen(actions[..i])
               else if IsOpen(actions[i]) then Some(i) else None)
  {
    var a := actions[..i];
    var b := actions[..i + 1];
    assert forall j :: 0 <= j < i ==> b[j] == a[j];
    match FirstOpen(a) {
      case Some(k) =>
        FirstOpenUnique(b, k);
      case None =>
        if IsOpen(actions[i]) {
          FirstOpenUnique(b, i);
        } else {
          FirstOpenNone(b);
        }
    }
  }

  lemma FirstOpenUnique(actions: seq<(string, string)>, k: nat)
    requires k < |actions| && IsOpen(actions[k])
    requires forall j :: 0 <= j < k ==> !IsOpen(actions[j])
    ensures FirstOpen(actions) == Some(k)
  {
    match FirstOpen(actions) {
      case None =>
      case Some(m) =>
    }
  }

  lemma FirstOpenNone(actions: seq<(string, string)>)
    requires forall j :: 0 <= j < |actions| ==> !IsOpen(actions[j])
    ensures FirstOpen(actions) == None
  {
  }

  /** The action buttons on the right: every action but "default", in
      order. */
  function NonDefaultActions(actions: seq<(string, string)>): (r: seq<(string, string)>)
    ensures forall a :: a in r <==> a in actions && !IsDefault(a)
    ensures |r| <= |actions|
  {
    if actions == [] then []
    else
      var rest := NonDefaultActions(actions[1..]);
      assert forall a :: a in actions <==> a == actions[0] || a in actions[1..];
      if IsDefault(actions[0]) then rest else [actions[0]] + rest
  }

  /** The action row exists when there is an expand toggle, a primary
      action or any other action; the spacer appears when the toggle shares
      the row with actions, and without a toggle the row is right-aligned. */
  datatype ActionsRow = NoActionsRow | ActionsRow(expand: bool, spacer: bool, alignEnd: bool, primary: Option<string>, others: seq<(string, string)>)

  function BuildActionsRow(n: Notification): (r: ActionsRow)
    ensures r.NoActionsRow? <==>
              NonDefaultActions(n.actions) == [] && PrimaryAction(n.actions).None?
              && !(BodyLabel(n).Some? && BodyLabel(n).value.1)
    ensures r.ActionsRow? ==> r.spacer == (r.expand && (r.others != [] || r.primary.Some?))
    ensures r.ActionsRow? ==> r.alignEnd == !r.expand
    ensures r.ActionsRow? ==> r.others == NonDefaultActions(n.actions) && r.primary == PrimaryAction(n.actions)
  {
    var others := NonDefaultActions(n.actions);
    var primary := PrimaryAction(n.actions);
    var expand := BodyLabel(n).Some? && BodyLabel(n).value.1;
    if others == [] && !expand && primary.None? then NoActionsRow
    else ActionsRow(expand, expand && (others != [] || primary.Some?), !expand, primary, others)
  }

  /** A notification whose only action is "default" still shows the row,
      with the primary button invoking "default". */
  lemma DefaultOnlyShowsPrimary(n: Notification, caption: string)
    requires n.actions == [("default", caption)]
    ensures BuildActionsRow(n).ActionsRow?
    ensures BuildActionsRow(n).primary == Some("default") && BuildActionsRow(n).others == []
  {
    assert IsDefault(n.actions[0]);
  }
}
