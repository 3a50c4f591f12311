/** Quick Settings card helpers (crates/vibepanel/src/widgets/quick_settings/ui_helpers.rs):
    the accordion that keeps at most one card of a row expanded, and the small
    class/label conventions the cards share. Widgets are reduced to the state
    these helpers read and write. */
module UiHelpers {
  import opened Common

  const ICON_ACTIVE: string := "qs-icon-active"
  const PRIMARY: string := "vp-primary"
  const EXPANDED: string := "expanded"
  const BULLET: string := " \U{2022} "

  /** Classes on an icon after `set_icon_active`: exactly one of the active
      class and the primary colour class, everything else untouched. */
  function SetIconActive(classes: set<string>, active: bool): (r: set<string>)
    ensures active ==> ICON_ACTIVE in r && PRIMARY !in r
    ensures !active ==> PRIMARY in r && ICON_ACTIVE !in r
    ensures r - {ICON_ACTIVE, PRIMARY} == classes - {ICON_ACTIVE, PRIMARY}
  {
    if active then classes + {ICON_ACTIVE} - {PRIMARY} else classes - {ICON_ACTIVE} + {PRIMARY}
  }

  /** Labels of an accent subtitle: the accent word, and, only when there are
      extra parts, a muted label " • a • b". */
  datatype AccentSubtitle = AccentSubtitle(accent: string, rest: Option<string>)

  function BuildAccentSubtitle(accentWord: string, extraParts: seq<string>): (s: AccentSubtitle)
    ensures s.accent == accentWord
    ensures s.rest.None? <==> extraParts == []
    ensures |extraParts| == 1 ==> s.rest == Some(BULLET + extraParts[0])
    ensures |extraParts| > 1 ==> s.rest == Some(BULLET + extraParts[0] + BULLET + Join(extraParts[1..], BULLET))
  {
    if extraParts == [] then AccentSubtitle(accentWord, None)
    else
      var joined := Join(extraParts, BULLET);
      assert |extraParts| > 1 ==> BULLET + joined == BULLET + extraParts[0] + BULLET + Join(extraParts[1..], BULLET);
      AccentSubtitle(accentWord, Some(BULLET + joined))
  }

  /** A revealer: identity, whether its child is shown, and its animation length. */
  datatype Revealer = Revealer(id: nat, revealed: bool, duration: nat)

  /** Collapses without animation: the returned duration is the one the
      collapse ran with (zero), if a collapse happened at all. */
  function CollapseRevealerInstant(r: Revealer): (res: (Revealer, Option<nat>))
    ensures !r.revealed ==> res == (r, None)
    ensures r.revealed ==> res.0 == r.(revealed := false) && res.1 == Some(0)
    ensures res.0.duration == r.duration && res.0.id == r.id && !res.0.revealed
  {
    if r.revealed then (r.(revealed := false), Some(0)) else (r, None)
  }

  /** An expandable card: its revealer (if built) and whether its arrow carries the expanded class. */
  datatype Card = Card(revealer: Option<Revealer>, arrowExpanded: bool)

  predicate IsRevealed(c: Card) { c.revealer.Some? && c.revealer.value.revealed }

  function CollapseCard(c: Card, exceptId: nat): (r: Card)
    ensures c.revealer.None? || c.revealer.value.id == exceptId || !c.revealer.value.revealed ==> r == c
    ensures c.revealer.Some? && c.revealer.value.id != exceptId ==> !IsRevealed(r)
  {
    match c.revealer
    case None => c
    case Some(rv) =>
      if rv.id == exceptId || !rv.revealed then c
      else Card(Some(CollapseRevealerInstant(rv).0), false)
  }

  /** Collapses every revealed card of the row except the one owning `exceptId`. */
  function CollapseOthers(row: seq<Card>, exceptId: nat): (r: seq<Card>)
    ensures |r| == |row|
    ensures forall i :: 0 <= i < |row| ==> r[i] == CollapseCard(row[i], exceptId)
  {
    if row == [] then [] else [CollapseCard(row[0], exceptId)] + CollapseOthers(row[1..], exceptId)
  }

  /** Revealer identities are distinct within a row. */
  predicate DistinctRevealers(row: seq<Card>) {
    forall i, j :: 0 <= i < |row| && 0 <= j < |row| && i != j && row[i].revealer.Some? && row[j].revealer.Some?
      ==> row[i].revealer.value.id != row[j].revealer.value.id
  }

  predicate AtMostOneRevealed(row: seq<Card>) {
    forall i, j :: 0 <= i < |row| && 0 <= j < |row| && IsRevealed(row[i]) && IsRevealed(row[j]) ==> i == j
  }

  /** Result of clicking a card's expander: the new row and the flag passed
      to the card's toggle callback (None when the card has no revealer). */
  datatype Click = Click(row: seq<Card>, toggled: Option<bool>)

  function ClickExpander(row: seq<Card>, k: nat): (c: Click)
    requires k < |row|
    ensures |c.row| == |row|
    ensures row[k].revealer.None? ==> c == Click(row, None)
    ensures row[k].revealer.Some? ==>
      var expanding := !row[k].revealer.value.revealed;
      && c.toggled == Some(expanding)
      && IsRevealed(c.row[k]) == expanding
      && c.row[k].arrowExpanded == expanding
    ensures row[k].revealer.Some? && row[k].revealer.value.revealed ==>
      forall i :: 0 <= i < |row| && i != k ==> c.row[i] == row[i]
    ensures row[k].revealer.Some? && !row[k].revealer.value.revealed ==>
      forall i :: 0 <= i < |row| && i != k ==> c.row[i] == CollapseCard(row[i], row[k].revealer.value.id)
  {
    match row[k].revealer
    case None => Click(row, None)
    case Some(rv) =>
      var expanding := !rv.revealed;
      var collapsed := if expanding then CollapseOthers(row, rv.id) else row;
      Click(collapsed[k := Card(Some(rv.(revealed := expanding)), expanding)], Some(expanding))
  }

  /** The accordion's promise: expanding a card leaves it the only revealed
      card of its row, and collapsing never adds a revealed card. */
  lemma {:induction false} ClickKeepsAtMostOne(row: seq<Card>, k: nat)
    requires k < |row| && DistinctRevealers(row)
    requires AtMostOneRevealed(row)
    ensures AtMostOneRevealed(ClickExpander(row, k).row)
    ensures row[k].revealer.Some? && !row[k].revealer.value.revealed ==>
      forall i :: 0 <= i < |row| && IsRevealed(ClickExpander(row, k).row[i]) ==> i == k
  {
    var c := ClickExpander(row, k);
    if row[k].revealer.Some? {
      var rv := row[k].revealer.value;
      if !rv.revealed {
        var collapsed := CollapseOthers(row, rv.id);
        forall i | 0 <= i < |row| && i != k
          ensures !IsRevealed(c.row[i])
        {
          assert c.row[i] == CollapseCard(row[i], rv.id);
          if row[i].revealer.Some? {
            assert row[i].revealer.value.id != rv.id;
          }
        }
      } else {
        forall i | 0 <= i < |row| && i != k
          ensures IsRevealed(c.row[i]) ==> IsRevealed(row[i])
        {
        }
      }
    }
  }
}
