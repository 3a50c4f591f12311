/*
 * The clock's calendar popover (`widgets/calendar_popover.rs`): the month
 * it shows, the previous/next navigation, the header text and when the
 * `show-today` class is on.
 *
 * Dates are chrono's `NaiveDate` reduced to year, month and day; GTK's
 * calendar widget is the 0-based month it is given.
 */
module Calendar {
  import opened Common

  /** chrono's representable years (`NaiveDate::MIN`/`MAX`). */
  const MIN_YEAR: int := -262143
  const MAX_YEAR: int := 262142

  datatype Date = Date(year: int, month: nat, day: nat)

  predicate ValidMonth(m: nat) { 1 <= m <= 12 }

  /** `NaiveDate::from_ymd_opt(year, month, 1)`: the first of the month,
      when the year is representable and the month exists. */
  function FirstOfMonth(year: int, month: nat): (r: Option<Date>)
    ensures r.Some? <==> MIN_YEAR <= year <= MAX_YEAR && ValidMonth(month)
    ensures r.Some? ==> r.value == Date(year, month, 1)
  {
    if MIN_YEAR <= year <= MAX_YEAR && ValidMonth(month) then Some(Date(year, month, 1)) else None
  }

  /** The month a "previous" click shows: January wraps to December of
      the year before. */
  function PrevMonth(d: Date): (r: (int, nat))
    requires ValidMonth(d.month)
    ensures ValidMonth(r.1)
    ensures d.month == 1 ==> r == (d.year - 1, 12)
    ensures d.month > 1 ==> r == (d.year, d.month - 1)
    ensures r.0 * 12 + r.1 == d.year * 12 + d.month - 1
  {
    if d.month == 1 then (d.year - 1, 12) else (d.year, d.month - 1)
  }

  /** The month a "next" click shows: December wraps to January of the
      year after. */
  function NextMonth(d: Date): (r: (int, nat))
    requires ValidMonth(d.month)
    ensures ValidMonth(r.1)
    ensures d.month == 12 ==> r == (d.year + 1, 1)
    ensures d.month < 12 ==> r == (d.year, d.month + 1)
    ensures r.0 * 12 + r.1 == d.year * 12 + d.month + 1
  {
    if d.month == 12 then (d.year + 1, 1) else (d.year, d.month + 1)
  }

  /** The previous button: the first of the previous month, or no change
      when chrono cannot represent it. */
  function Prev(d: Date): (r: Date)
    requires ValidMonth(d.month)
    ensures ValidMonth(r.month)
    ensures FirstOfMonth(PrevMonth(d).0, PrevMonth(d).1).Some? ==> r == Date(PrevMonth(d).0, PrevMonth(d).1, 1)
    ensures FirstOfMonth(PrevMonth(d).0, PrevMonth(d).1).None? ==> r == d
  {
    var (y, m) := PrevMonth(d);
    match FirstOfMonth(y, m)
    case Some(nd) => nd
    case None => d
  }

  /** The next button. */
  function Next(d: Date): (r: Date)
    requires ValidMonth(d.month)
    ensures ValidMonth(r.month)
    ensures FirstOfMonth(NextMonth(d).0, NextMonth(d).1).Some? ==> r == Date(NextMonth(d).0, NextMonth(d).1, 1)
    ensures FirstOfMonth(NextMonth(d).0, NextMonth(d).1).None? ==> r == d
  {
    var (y, m) := NextMonth(d);
    match FirstOfMonth(y, m)
    case Some(nd) => nd
    case None => d
  }

  /** Going back a month and forward again lands on the first of the
      starting month. */
  lemma NextUndoesPrev(d: Date)
    requires ValidMonth(d.month) && MIN_YEAR < d.year <= MAX_YEAR
    ensures Next(Prev(d)) == Date(d.year, d.month, 1)
  {
  }

  lemma PrevUndoesNext(d: Date)
    requires ValidMonth(d.month) && MIN_YEAR <= d.year < MAX_YEAR
    ensures Prev(Next(d)) == Date(d.year, d.month, 1)
  {
  }

  /** The 0-based month GTK's calendar is given. */
  function Month0(d: Date): (m: nat)
    requires ValidMonth(d.month)
    ensures m < 12 && m + 1 == d.month
  {
    d.month - 1
  }

  /** `connect_day_selected`: GTK's year and 0-based month back to the first
      of that month. */
  function DaySelected(d: Date, gtkYear: int, gtkMonth0: int): (r: Date)
    ensures 0 <= gtkMonth0 < 12 && MIN_YEAR <= gtkYear <= MAX_YEAR ==> r == Date(gtkYear, (gtkMonth0 + 1) as nat, 1)
    ensures !(0 <= gtkMonth0 < 12 && MIN_YEAR <= gtkYear <= MAX_YEAR) ==> r == d
  {
    if gtkMonth0 < 0 then d
    else match FirstOfMonth(gtkYear, (gtkMonth0 + 1) as nat)
      case Some(nd) => nd
      case None => d
  }

  /** Handing a month to GTK and reading it back gives the same month. */
  lemma GtkMonthRoundTrip(d: Date)
    requires ValidMonth(d.month) && MIN_YEAR <= d.year <= MAX_YEAR
    ensures DaySelected(d, d.year, Month0(d)) == Date(d.year, d.month, 1)
  {
  }

  /** `show-today`: on exactly when the shown month is today's. */
  predicate ShowToday(today: Date, shown: Date) {
    shown.month == today.month && shown.year == today.year
  }

  /** Navigating away always drops the class and navigating back restores
      it. */
  lemma ShowTodayFollowsNavigation(today: Date)
    requires ValidMonth(today.month) && MIN_YEAR <= today.year < MAX_YEAR
    ensures !ShowToday(today, Next(today))
    ensures ShowToday(today, Prev(Next(today)))
  {
    PrevUndoesNext(today);
  }

  // --------------------------------------------------------------- header

  /** chrono's English month names (`%B`). */
  function MonthName(m: nat): string
    requires ValidMonth(m)
  {
    match m
    case 1 => "January"
    case 2 => "February"
    case 3 => "March"
    case 4 => "April"
    case 5 => "May"
    case 6 => "June"
    case 7 => "July"
    case 8 => "August"
    case 9 => "September"
    case 10 => "October"
    case 11 => "November"
    case 12 => "December"
  }

  /** chrono's `%Y`: at least four digits, with a sign outside
      0000..9999. */
  function YearText(year: int): (t: string)
    ensures 0 <= year <= 9999 ==> |t| == 4 && AllDigits(t) && DigitsValue(t) == year
    ensures year > 9999 ==> t == "+" + NatToString(year)
    ensures year < 0 ==> |t| >= 5 && t[0] == '-'
    ensures year < 0 ==> AllDigits(t[1..]) && DigitsValue(t[1..]) == -year
  {
    if year < 0 then "-" + PadDigits(-year, 4)
    else if year > 9999 then "+" + NatToString(year)
    else ShortDigits(year); PadDigits(year, 4)
  }

  /** The digits of `n`, zero-padded on the left to `width`. */
  function PadDigits(n: nat, width: nat): (t: string)
    ensures AllDigits(t) && DigitsValue(t) == n
    ensures |t| == Max(width, |NatToString(n)|)
  {
    var digits := NatToString(n);
    DigitsOfNat(n);
    var k := if width > |digits| then width - |digits| else 0;
    ZerosValue(k, digits);
    Zeros(k) + digits
  }

  /** Numbers below 10000 have at most four digits. */
  lemma {:induction false} ShortDigits(n: nat)
    requires n <= 9999
    ensures |NatToString(n)| <= 4
    ensures n <= 999 ==> |NatToString(n)| <= 3
    ensures n <= 99 ==> |NatToString(n)| <= 2
    decreases n
  {
    if n >= 10 {
      ShortDigits(n / 10);
      assert NatToString(n) == NatToString(n / 10) + [DigitChar(n % 10)];
    }
  }

  function Zeros(k: nat): (z: string)
    ensures |z| == k && forall i :: 0 <= i < k ==> z[i] == '0'
  {
    if k == 0 then [] else "0" + Zeros(k - 1)
  }

  /** Leading zeros do not change a number's value. */
  lemma {:induction false} ZerosValue(k: nat, digits: string)
    requires AllDigits(digits)
    ensures AllDigits(Zeros(k) + digits)
    ensures DigitsValue(Zeros(k) + digits) == DigitsValue(digits)
    decreases |digits|
  {
    var t := Zeros(k) + digits;
    if digits == [] {
      ZerosOnly(k);
      assert t == Zeros(k);
    } else {
      var init := digits[..|digits| - 1];
      ZerosValue(k, init);
      assert t[..|t| - 1] == Zeros(k) + init;
      assert t[|t| - 1] == digits[|digits| - 1];
    }
  }

  lemma {:induction false} ZerosOnly(k: nat)
    ensures AllDigits(Zeros(k)) && DigitsValue(Zeros(k)) == 0
  {
    if k > 0 {
      ZerosOnly(k - 1);
      var z := Zeros(k);
      var init := z[..k - 1];
      assert forall i :: 0 <= i < k - 1 ==> init[i] == Zeros(k - 1)[i];
      assert init == Zeros(k - 1);
    }
  }

  /** The header: the month's English name and the year (`%B %Y`). */
  function Header(d: Date): (t: string)
    requires ValidMonth(d.month)
    ensures var name := MonthName(d.month);
      |t| > |name| + 1 && t[..|name|] == name && t[|name|] == ' '
    ensures var n := |MonthName(d.month)|;
      0 <= d.year <= 9999 ==> |t| == n + 5 && AllDigits(t[n + 1..]) && DigitsValue(t[n + 1..]) == d.year
  {
    MonthName(d.month) + " " + YearText(d.year)
  }

  predicate IsAsciiLetter(c: char) { 'A' <= c <= 'Z' || 'a' <= c <= 'z' }

  predicate AllLetters(s: string) {
    forall k :: 0 <= k < |s| ==> IsAsciiLetter(s[k])
  }

  /** Month names are made of letters only. */
  lemma MonthNameLetters(m: nat)
    requires ValidMonth(m)
    ensures AllLetters(MonthName(m))
  {
  }

  /** Length, first and third letter: enough to tell the month names
      apart. */
  function NameKey(name: string): (int, char, char)
    requires |name| >= 3
  {
    (|name|, name[0], name[2])
  }

  /** No two months share a name: already their keys differ. */
  lemma MonthNamesDistinct(m: nat, n: nat)
    requires ValidMonth(m) && ValidMonth(n)
    ensures |MonthName(m)| >= 3 && |MonthName(n)| >= 3
    ensures NameKey(MonthName(m)) == NameKey(MonthName(n)) ==> m == n
  {
  }

  lemma SameNameSameMonth(m: nat, n: nat)
    requires ValidMonth(m) && ValidMonth(n)
    requires MonthName(m) == MonthName(n)
    ensures m == n
  {
    MonthNamesDistinct(m, n);
  }

  /** Where the shorter word ends the longer one would hold a space. */
  lemma SpaceAt(na: string, ya: string, nb: string, yb: string)
    requires na + " " + ya == nb + " " + yb
    requires |na| < |nb|
    ensures nb[|na|] == ' '
  {
    var t := na + " " + ya;
    assert t[|na|] == ' ';
    assert t[|na|] == nb[|na|];
  }

  /** A letters-only word followed by a space is recovered from the text
      it starts. */
  lemma {:induction false} WordBeforeSpace(na: string, ya: string, nb: string, yb: string)
    requires AllLetters(na) && AllLetters(nb)
    requires na + " " + ya == nb + " " + yb
    ensures na == nb && ya == yb
  {
    var t := na + " " + ya;
    if |na| < |nb| {
      SpaceAt(na, ya, nb, yb);
      assert false;
    } else if |nb| < |na| {
      SpaceAt(nb, yb, na, ya);
      assert false;
    }
    assert na == t[..|na|] == nb;
    assert ya == t[|na| + 1..] == yb;
  }

  /** The first character of the year text gives its sign class. */
  lemma YearTextSign(y: int)
    ensures |YearText(y)| > 0
    ensures y < 0 <==> YearText(y)[0] == '-'
    ensures y > 9999 <==> YearText(y)[0] == '+'
  {
    var t := YearText(y);
    if 0 <= y <= 9999 {
      assert IsAsciiDigit(t[0]);
    }
  }

  /** The year text determines the year: its first character tells the
      sign class apart and the digits give the magnitude. */
  lemma YearTextInjective(a: int, b: int)
    requires YearText(a) == YearText(b)
    ensures a == b
  {
    YearTextSign(a);
    YearTextSign(b);
    var t := YearText(a);
    if a < 0 {
      assert DigitsValue(t[1..]) == -a == -b;
    } else if a > 9999 {
      DigitsOfNat(a);
      DigitsOfNat(b);
      assert t[1..] == NatToString(a);
      assert YearText(b)[1..] == NatToString(b);
    } else {
      assert DigitsValue(t) == a == b;
    }
  }

  /** Equal headers have equal month names and equal year texts. */
  lemma HeaderParts(a: Date, b: Date)
    requires ValidMonth(a.month) && ValidMonth(b.month)
    requires Header(a) == Header(b)
    ensures MonthName(a.month) == MonthName(b.month)
    ensures YearText(a.year) == YearText(b.year)
  {
    var na, nb := MonthName(a.month), MonthName(b.month);
    assert Header(a) == na + " " + YearText(a.year);
    assert Header(b) == nb + " " + YearText(b.year);
    MonthNameLetters(a.month);
    MonthNameLetters(b.month);
    WordBeforeSpace(na, YearText(a.year), nb, YearText(b.year));
  }

  /** The header tells months apart: two dates with the same header are in
      the same month of the same year. */
  lemma HeaderInjective(a: Date, b: Date)
    requires ValidMonth(a.month) && ValidMonth(b.month)
    requires Header(a) == Header(b)
    ensures a.month == b.month && a.year == b.year
  {
    HeaderParts(a, b);
    SameNameSameMonth(a.month, b.month);
    YearTextInjective(a.year, b.year);
  }

  /** A step that lands on another month shows another header. */
  lemma NextChangesHeader(d: Date)
    requires ValidMonth(d.month) && MIN_YEAR <= d.year < MAX_YEAR
    ensures Header(Next(d)) != Header(d)
  {
    if Header(Next(d)) == Header(d) {
      HeaderInjective(Next(d), d);
    }
  }
}
