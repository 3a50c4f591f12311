/*
 * The battery popover (`widgets/battery_popover.rs`): the texts of its
 * information section and the power-profile buttons.
 *
 * The UPower and power-profiles services are not part of this model; their
 * snapshot fields are parameters. Times are UPower's signed seconds.
 */
module BatteryPopover {
  import opened Common
  import opened BatteryWidget

  // ------------------------------------------------------------ time text

  /** `format_time`: hours and minutes, or minutes alone under an hour;
      leftover seconds are dropped. */
  function FormatTime(seconds: int): (t: string)
    ensures t == "Unknown" <==> seconds <= 0
    ensures seconds > 0 ==> |t| >= 2 && t[|t| - 1] == 'm'
  {
    if seconds <= 0 then "Unknown"
    else
      var hours := seconds / 3600;
      var minutes := (seconds % 3600) / 60;
      var t := if hours > 0 then NatToString(hours) + "h " + NatToString(minutes) + "m"
               else NatToString(minutes) + "m";
      assert t[|t| - 1] == 'm' && "Unknown"[6] == 'n';
      t
  }

  /** A duration given as hours, minutes and seconds reads back as those
      hours and minutes. */
  lemma FormatTimeReads(h: nat, m: nat, s: nat)
    requires m < 60 && s < 60 && h * 3600 + m * 60 + s > 0
    ensures FormatTime(h * 3600 + m * 60 + s) ==
              if h > 0 then NatToString(h) + "h " + NatToString(m) + "m" else NatToString(m) + "m"
  {
    var total := h * 3600 + m * 60 + s;
    assert m * 60 + s < 3600;
    assert total / 3600 == h && total % 3600 == m * 60 + s;
    assert (m * 60 + s) / 60 == m;
  }

  /** `state_text`: UPower's six state codes, anything else unknown. */
  function StateText(state: Option<nat>): (t: string)
    ensures state == Some(1) ==> t == "Charging"
    ensures state == Some(2) ==> t == "Discharging"
    ensures state == Some(3) ==> t == "Empty"
    ensures state == Some(4) ==> t == "Full"
    ensures state == Some(5) ==> t == "Pending charge"
    ensures state == Some(6) ==> t == "Pending discharge"
    ensures t == "Unknown" <==> state.None? || state.value == 0 || state.value > 6
  {
    match state
    case Some(1) => "Charging"
    case Some(2) => "Discharging"
    case Some(3) => "Empty"
    case Some(4) => "Full"
    case Some(5) => "Pending charge"
    case Some(6) => "Pending discharge"
    case _ => "Unknown"
  }

  /** The bar tooltip's coarse state word is the popover's for charging,
      discharging and full. */
  lemma TooltipStateAgrees(s: nat)
    requires s == 1 || s == 2 || s == 4
    ensures StateWord(s) == StateText(Some(s))
  {
  }

  /** The time line: time to full while charging, time to empty while
      discharging, nothing for any other state. */
  function TimeLabel(state: Option<nat>, timeToFull: Option<int>, timeToEmpty: Option<int>): (t: string)
    ensures state == Some(STATE_CHARGING) ==>
              t == "Time until full: " + (if timeToFull.Some? then FormatTime(timeToFull.value) else "Unknown")
    ensures state == Some(2) ==>
              t == "Time remaining: " + (if timeToEmpty.Some? then FormatTime(timeToEmpty.value) else "Unknown")
    ensures state != Some(STATE_CHARGING) && state != Some(2) ==> t == "Time: Unknown"
  {
    match state
    case Some(s) =>
      if s == STATE_CHARGING then
        "Time until full: " + (match timeToFull case Some(ttf) => FormatTime(ttf) case None => "Unknown")
      else if s == 2 then
        "Time remaining: " + (match timeToEmpty case Some(tte) => FormatTime(tte) case None => "Unknown")
      else "Time: Unknown"
    case None => "Time: Unknown"
  }

  /** The time line gives a time exactly when the state has one and UPower
      reported a positive number of seconds for it. */
  lemma TimeLabelKnown(state: Option<nat>, timeToFull: Option<int>, timeToEmpty: Option<int>)
    ensures var t := TimeLabel(state, timeToFull, timeToEmpty);
            t[|t| - 1] == 'm' <==>
              || (state == Some(STATE_CHARGING) && timeToFull.Some? && timeToFull.value > 0)
              || (state == Some(2) && timeToEmpty.Some? && timeToEmpty.value > 0)
  {
  }

  /** `x` lies exactly halfway between two integers. */
  predicate IsHalfway(x: real) {
    x - x.Floor as real == 0.5
  }

  /** The integer `format!("{:.0}", x)` prints for a non-negative `x`: the
      nearest one, an exact half going to the even neighbour. */
  function FormatRounded(x: real): (n: nat)
    requires x >= 0.0
    ensures n as real - 0.5 <= x <= n as real + 0.5
    ensures IsHalfway(x) ==> n % 2 == 0
  {
    var f: int := x.Floor;
    var frac := x - f as real;
    if frac < 0.5 then f
    else if frac > 0.5 then f + 1
    else if f % 2 == 0 then f
    else f + 1
  }

  /** The percentage line: UPower's percentage clamped to 0..100 and printed
      with no decimals, or "Unknown". */
  function PercentLabel(percent: Option<real>): (t: string)
    ensures percent.None? ==> t == "Unknown"
    ensures percent.Some? ==> |t| >= 2 && t[|t| - 1] == '%' && AllDigits(t[..|t| - 1])
    ensures percent.Some? ==>
              var c := ClampPct(percent.value);
              var n := DigitsValue(t[..|t| - 1]);
              && n <= 100
              && n as real - 0.5 <= c <= n as real + 0.5
              && (IsHalfway(c) ==> n % 2 == 0)
  {
    match percent
    case Some(p) => ReadablePct(FormatRounded(ClampPct(p)))
    case None => "Unknown"
  }

  /** Away from exact halves, the popover's percentage reads as the bar's:
      both pick the nearest integer. */
  lemma PercentMatchesBar(p: real)
    requires !IsHalfway(ClampPct(p))
    ensures PercentLabel(Some(p)) == ReadablePct(RoundedPctValue(p))
  {
    var c := ClampPct(p);
    var f: int := c.Floor;
    if c - f as real < 0.5 {
      assert RoundedPctValue(p) == f;
    } else {
      assert RoundedPctValue(p) == f + 1;
    }
  }

  /** At an exact half the two labels disagree exactly when the integer
      below it is even: the bar rounds up, the popover to the even
      neighbour. */
  lemma PercentAtHalves(p: real)
    requires IsHalfway(ClampPct(p))
    ensures var f := ClampPct(p).Floor;
            (PercentLabel(Some(p)) == ReadablePct(RoundedPctValue(p))) <==> f % 2 == 1
  {
    var c := ClampPct(p);
    var f: nat := c.Floor;
    assert RoundedPctValue(p) == f + 1;
    if f % 2 == 0 {
      var popover, bar := ReadablePct(f), ReadablePct(f + 1);
      assert PercentLabel(Some(p)) == popover;
      assert DigitsValue(popover[..|popover| - 1]) != DigitsValue(bar[..|bar| - 1]);
    }
  }

  /** A battery at 42.5%: the bar shows "43%", the popover "42%". */
  lemma HalfPercentDisagrees()
    ensures ReadablePct(RoundedPctValue(42.5)) == "43%"
    ensures PercentLabel(Some(42.5)) == "42%"
  {
    assert RoundedPctValue(42.5) == 43;
    assert FormatRounded(42.5) == 42;
    assert NatToString(43) == NatToString(4) + [DigitChar(3)] == "43";
    assert NatToString(42) == NatToString(4) + [DigitChar(2)] == "42";
  }

  // ---------------------------------------------------------- title case

  function NonEmpty(w: string): Option<string> {
    if w == [] then None else Some(w)
  }

  /** `split_whitespace`: the maximal runs without whitespace. */
  function Words(s: string): (ws: seq<string>) {
    FilterMap(SplitBy(s, IsWhitespace), NonEmpty)
  }

  function CapitalizeAll(ws: seq<string>): (r: seq<string>)
    ensures |r| == |ws|
    ensures forall i :: 0 <= i < |ws| ==> r[i] == CapitalizeFirst(ws[i])
  {
    seq(|ws|, i requires 0 <= i < |ws| => CapitalizeFirst(ws[i]))
  }

  /** `title_case`: every word capitalised, joined by single spaces. */
  function TitleCase(s: string): string {
    Join(CapitalizeAll(Words(s)), " ")
  }

  predicate IsWord(w: string) {
    w != [] && forall k :: 0 <= k < |w| ==> !IsWhitespace(w[k])
  }

  lemma WordsOfWord(w: string)
    requires IsWord(w)
    ensures Words(w) == [w]
  {
    SplitNone(w, IsWhitespace);
    assert SplitBy(w, IsWhitespace) == [w];
    assert [w][1..] == [];
    assert FilterMap([w][1..], NonEmpty) == [];
  }

  lemma {:induction false} WordsPrepend(a: string, rest: string)
    requires IsWord(a)
    ensures Words(a + " " + rest) == [a] + Words(rest)
  {
    SplitAt(a, ' ', rest, IsWhitespace);
    assert a + " " + rest == a + [' '] + rest;
    FilterMapAppend(SplitBy(a, IsWhitespace), SplitBy(rest, IsWhitespace), NonEmpty);
    WordsOfWord(a);
  }

  /** A single word is capitalised. */
  lemma TitleCaseWord(w: string)
    requires IsWord(w)
    ensures TitleCase(w) == CapitalizeFirst(w)
  {
    WordsOfWord(w);
  }

  /** Space-separated words each get capitalised and keep their order. */
  lemma TitleCaseTwoWords(a: string, b: string)
    requires IsWord(a) && IsWord(b)
    ensures TitleCase(a + " " + b) == CapitalizeFirst(a) + " " + CapitalizeFirst(b)
  {
    WordsPrepend(a, b);
    WordsOfWord(b);
    assert Words(a + " " + b) == [a, b];
    assert CapitalizeAll([a, b])[1..] == [CapitalizeFirst(b)];
  }

  /** Surrounding whitespace never shows: a leading space changes nothing. */
  lemma TitleCaseIgnoresLeadingSpace(s: string)
    ensures TitleCase(" " + s) == TitleCase(s)
  {
    var t := " " + s;
    assert t[0] == ' ' && t[1..] == s;
    var pieces := SplitBy(t, IsWhitespace);
    assert pieces == [[]] + SplitBy(s, IsWhitespace);
    assert pieces[0] == [] && pieces[1..] == SplitBy(s, IsWhitespace);
    assert Words(t) == Words(s);
  }

  // ------------------------------------------------------- profile buttons

  /** A profile button: its label, the profile it sets and whether it has
      the accent style (otherwise the card style). */
  datatype ProfileButton = ProfileButton(text: string, profile: string, accent: bool)

  /** The label of a profile: dashes become spaces, then title case. */
  function ProfileLabel(profile: string): string {
    TitleCase(ReplaceChar(profile, '-', ' '))
  }

  /** "power-saver" style names read as two capitalised words. */
  lemma DashedProfileLabel(a: string, b: string)
    requires IsWord(a) && IsWord(b) && '-' !in a && '-' !in b
    ensures ProfileLabel(a + "-" + b) == CapitalizeFirst(a) + " " + CapitalizeFirst(b)
  {
    var r := ReplaceChar(a + "-" + b, '-', ' ');
    assert r == a + " " + b by {
      forall i | 0 <= i < |r| ensures r[i] == (a + " " + b)[i] {
        if i < |a| {
          assert (a + "-" + b)[i] == a[i];
        } else if i > |a| {
          assert (a + "-" + b)[i] == b[i - |a| - 1];
        }
      }
    }
    TitleCaseTwoWords(a, b);
  }

  datatype ProfileSection = NoProfiles | Buttons(buttons: seq<ProfileButton>)

  /** `build_profile_section`: a placeholder without profiles, otherwise
      one button per profile in order, the current one accented. */
  function BuildProfileSection(profiles: seq<string>, current: Option<string>): (r: ProfileSection)
    ensures r.NoProfiles? <==> profiles == []
    ensures r.Buttons? ==> |r.buttons| == |profiles|
    ensures r.Buttons? ==> forall i :: 0 <= i < |profiles| ==>
              && r.buttons[i].profile == profiles[i]
              && r.buttons[i].text == ProfileLabel(profiles[i])
              && (r.buttons[i].accent <==> current == Some(profiles[i]))
  {
    if profiles == [] then NoProfiles
    else Buttons(seq(|profiles|, i requires 0 <= i < |profiles| =>
                       ProfileButton(ProfileLabel(profiles[i]), profiles[i], current == Some(profiles[i]))))
  }

  /** `refresh_profile_buttons`: re-style the buttons for a new current
      profile; labels and profiles stay. */
  function RefreshProfileButtons(buttons: seq<ProfileButton>, current: Option<string>): (r: seq<ProfileButton>)
    ensures |r| == |buttons|
    ensures forall i :: 0 <= i < |buttons| ==>
              r[i].text == buttons[i].text && r[i].profile == buttons[i].profile
    ensures forall i :: 0 <= i < |buttons| ==> (r[i].accent <==> current == Some(buttons[i].profile))
  {
    seq(|buttons|, i requires 0 <= i < |buttons| => buttons[i].(accent := current == Some(buttons[i].profile)))
  }

  /** Refreshing the buttons for a new profile gives what a rebuild for it
      would. */
  lemma RefreshMatchesRebuild(profiles: seq<string>, before: Option<string>, after: Option<string>)
    requires profiles != []
    ensures RefreshProfileButtons(BuildProfileSection(profiles, before).buttons, after)
            == BuildProfileSection(profiles, after).buttons
  {
  }

  /** With distinct profiles, exactly the current one is accented, and
      none when the current profile is not offered. */
  lemma OneAccent(profiles: seq<string>, current: Option<string>, i: nat, j: nat)
    requires profiles != [] && i < |profiles| && j < |profiles|
    requires forall a, b :: 0 <= a < b < |profiles| ==> profiles[a] != profiles[b]
    ensures var bs := BuildProfileSection(profiles, current).buttons;
            bs[i].accent && bs[j].accent ==> i == j
    ensures current.Some? && current.value !in profiles ==>
              !BuildProfileSection(profiles, current).buttons[i].accent
  {
  }
}
