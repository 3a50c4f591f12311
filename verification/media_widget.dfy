/*
 * The media widget (`widgets/media.rs`): its options, the template
 * language (`{art}`, `{artist} - {title}`, ...), the split of a template
 * into runs of text between widgets, the rendering of text runs with the
 * rule that a separator only shows between two values, and the tooltip.
 *
 * GTK widgets, album art, the marquee and the pop-out window are left out.
 */
module MediaWidget {
  import opened Common
  import opened Toml
  import opened MediaService

  // -------------------------------------------------------------- options

  const DEFAULT_TEMPLATE: string := "{art}{artist} - {title}{controls}"
  const DEFAULT_MAX_CHARS: nat := 20
  const NO_MEDIA_TOOLTIP: string := "No media playing"

  datatype MediaConfig = MediaConfig(template: string, emptyText: string, maxChars: nat, popoutOpacity: real)

  /** A float option, accepting an integer as well. */
  function AsFloat(v: Value): (r: Option<real>)
    ensures v.Float? ==> r == Some(v.f)
    ensures v.Int? ==> r == Some(v.i as real)
    ensures !v.Float? && !v.Int? ==> r.None?
  {
    match v
    case Float(f) => Some(f)
    case Int(i) => Some(i as real)
    case _ => None
  }

  /** `MediaConfig::from_entry`. */
  function FromOptions(options: map<string, Value>): (c: MediaConfig)
    ensures c.template == GetStr(options, "template").GetOr(DEFAULT_TEMPLATE)
    ensures c.emptyText == GetStr(options, "empty_text").GetOr("")
    ensures GetInt(options, "max_chars").None? ==> c.maxChars == DEFAULT_MAX_CHARS
    ensures GetInt(options, "max_chars").Some? ==> c.maxChars == Max(GetInt(options, "max_chars").value, 0)
    ensures 0.0 <= c.popoutOpacity <= 1.0
  {
    var opacity :=
      if "popout_opacity" in options && AsFloat(options["popout_opacity"]).Some? then
        var f := AsFloat(options["popout_opacity"]).value;
        if f < 0.0 then 0.0 else if f > 1.0 then 1.0 else f
      else 1.0;
    MediaConfig(
      GetStr(options, "template").GetOr(DEFAULT_TEMPLATE),
      GetStr(options, "empty_text").GetOr(""),
      match GetInt(options, "max_chars") case Some(v) => Max(v, 0) case None => DEFAULT_MAX_CHARS,
      opacity)
  }

  /** Without options the widget shows art, artist, title and controls,
      is hidden when there is nothing to play, and allows 20 characters. */
  lemma DefaultConfig()
    ensures FromOptions(map[]) == MediaConfig(DEFAULT_TEMPLATE, "", DEFAULT_MAX_CHARS, 1.0)
  {
  }

  // ------------------------------------------------------------- template

  datatype WidgetToken = Art | PlayerIcon | Icon | Controls
  datatype TextToken = Title | Artist | Album
  datatype Element = WidgetEl(w: WidgetToken) | TextEl(t: TextToken) | Literal(s: string)

  function WidgetName(w: WidgetToken): string {
    match w
    case Art => "art"
    case PlayerIcon => "player_icon"
    case Icon => "icon"
    case Controls => "controls"
  }

  function TextName(t: TextToken): string {
    match t
    case Title => "title"
    case Artist => "artist"
    case Album => "album"
  }

  /** `WidgetToken::parse`. */
  function ParseWidgetToken(s: string): (r: Option<WidgetToken>)
    ensures r.Some? ==> WidgetName(r.value) == s
    ensures r.None? ==> forall w: WidgetToken :: WidgetName(w) != s
  {
    if s == "art" then Some(Art)
    else if s == "player_icon" then Some(PlayerIcon)
    else if s == "icon" then Some(Icon)
    else if s == "controls" then Some(Controls)
    else None
  }

  function ParseTextToken(s: string): (r: Option<TextToken>)
    ensures r.Some? ==> TextName(r.value) == s
    ensures r.None? ==> forall t: TextToken :: TextName(t) != s
  {
    if s == "title" then Some(Title)
    else if s == "artist" then Some(Artist)
    else if s == "album" then Some(Album)
    else None
  }

  /** The element a closed `{token}` becomes: an unknown token stays in
      the text, braces and all. */
  function Classify(token: string): (e: Element)
    ensures e.Literal? ==> e.s == "{" + token + "}"
  {
    match ParseWidgetToken(token)
    case Some(w) => WidgetEl(w)
    case None =>
      match ParseTextToken(token)
      case Some(t) => TextEl(t)
      case None => Literal("{" + token + "}")
  }

  /** The pending literal, pushed only when non-empty. */
  function Flush(lit: string): (r: seq<Element>)
    ensures lit == [] ==> r == []
    ensures lit != [] ==> r == [Literal(lit)]
  {
    if lit == [] then [] else [Literal(lit)]
  }

  /** `parse_template`, with `lit` the literal collected so far. A '{'
      without a closing '}' and everything after it are literal text. */
  function ParseFrom(t: string, lit: string): (els: seq<Element>)
    decreases |t|
  {
    if t == [] then Flush(lit)
    else if t[0] != '{' then ParseFrom(t[1..], lit + [t[0]])
    else
      match FindChar(t[1..], '}')
      case None => Flush(lit + t)
      case Some(k) => Flush(lit) + [Classify(t[1..k + 1])] + ParseFrom(t[k + 2..], [])
  }

  function ParseTemplate(t: string): (els: seq<Element>)
  {
    ParseFrom(t, [])
  }

  /** The template text an element was parsed from. */
  function Source(e: Element): (s: string)
  {
    match e
    case WidgetEl(w) => "{" + WidgetName(w) + "}"
    case TextEl(t) => "{" + TextName(t) + "}"
    case Literal(s) => s
  }

  function Sources(els: seq<Element>): (s: string)
  {
    if els == [] then [] else Source(els[0]) + Sources(els[1..])
  }

  lemma {:induction false} SourcesAppend(a: seq<Element>, b: seq<Element>)
    ensures Sources(a + b) == Sources(a) + Sources(b)
  {
    if a == [] {
      assert a + b == b;
    } else {
      assert (a + b)[0] == a[0] && (a + b)[1..] == a[1..] + b;
      SourcesAppend(a[1..], b);
    }
  }

  lemma FlushSource(lit: string)
    ensures Sources(Flush(lit)) == lit
  {
  }

  lemma ClassifySource(token: string)
    ensures Source(Classify(token)) == "{" + token + "}"
  {
  }

  /** Text without a '{' joins the pending literal. */
  lemma {:induction false} ParsePlain(plain: string, rest: string, lit: string)
    requires '{' !in plain
    ensures ParseFrom(plain + rest, lit) == ParseFrom(rest, lit + plain)
    decreases |plain|
  {
    if plain != [] {
      assert (plain + rest)[0] == plain[0] && (plain + rest)[1..] == plain[1..] + rest;
      ParsePlain(plain[1..], rest, lit + [plain[0]]);
      assert lit + [plain[0]] + plain[1..] == lit + plain;
    } else {
      assert plain + rest == rest && lit + plain == lit;
    }
  }

  /** A closed `{token}` ends the pending literal and becomes one element. */
  lemma ParseToken(token: string, rest: string, lit: string)
    requires '}' !in token
    ensures ParseFrom("{" + token + "}" + rest, lit) == Flush(lit) + [Classify(token)] + ParseFrom(rest, [])
  {
    var t := "{" + token + "}" + rest;
    assert t[1..] == token + "}" + rest;
    FindCharAt(token, rest);
    assert t[1..|token| + 1] == token;
    assert t[|token| + 2..] == rest;
  }

  lemma FindCharAt(token: string, rest: string)
    requires '}' !in token
    ensures FindChar(token + "}" + rest, '}') == Some(|token|)
  {
    var u := token + "}" + rest;
    assert u[|token|] == '}';
    assert u[..|token|] == token;
  }

  /** A template that starts with a closed brace pair splits around it. */
  lemma SplitAtToken(t: string, k: nat)
    requires t != [] && t[0] == '{' && FindChar(t[1..], '}') == Some(k)
    ensures '}' !in t[1..k + 1]
    ensures t == "{" + t[1..k + 1] + "}" + t[k + 2..]
  {
    assert t[1..][..k] == t[1..k + 1];
    assert t[k + 1] == '}';
    assert t == [t[0]] + t[1..k + 1] + [t[k + 1]] + t[k + 2..];
  }

  lemma TokenRoundTrip(token: string, rest: string, lit: string)
    requires '}' !in token && Sources(ParseFrom(rest, [])) == rest
    ensures Sources(ParseFrom("{" + token + "}" + rest, lit)) == lit + ("{" + token + "}" + rest)
  {
    var e := Classify(token);
    ParseToken(token, rest, lit);
    SourcesAppend(Flush(lit), [e]);
    SourcesAppend(Flush(lit) + [e], ParseFrom(rest, []));
    FlushSource(lit);
    ClassifySource(token);
    assert Sources([e]) == Source(e);
  }

  /** Parsing loses nothing: the elements spell out the template again. */
  lemma {:induction false} ParseRoundTrip(t: string, lit: string)
    ensures Sources(ParseFrom(t, lit)) == lit + t
    decreases |t|
  {
    if t == [] {
      FlushSource(lit);
    } else if t[0] != '{' {
      ParseRoundTrip(t[1..], lit + [t[0]]);
      assert lit + [t[0]] + t[1..] == lit + t;
    } else if FindChar(t[1..], '}').None? {
      FlushSource(lit + t);
    } else {
      var k := FindChar(t[1..], '}').value;
      SplitAtToken(t, k);
      ParseRoundTrip(t[k + 2..], []);
      TokenRoundTrip(t[1..k + 1], t[k + 2..], lit);
    }
  }

  /** The parser never emits an empty literal. */
  lemma {:induction false} NoEmptyLiterals(t: string, lit: string)
    ensures forall i :: 0 <= i < |ParseFrom(t, lit)| && ParseFrom(t, lit)[i].Literal? ==> ParseFrom(t, lit)[i].s != []
    decreases |t|
  {
    if t == [] {
    } else if t[0] != '{' {
      NoEmptyLiterals(t[1..], lit + [t[0]]);
    } else {
      match FindChar(t[1..], '}')
      case None =>
      case Some(k) =>
        NoEmptyLiterals(t[k + 2..], []);
    }
  }

  /** Every token name, between braces, parses to its own element. */
  lemma ClassifyNames(w: WidgetToken, t: TextToken)
    ensures Classify(WidgetName(w)) == WidgetEl(w)
    ensures Classify(TextName(t)) == TextEl(t)
  {
    assert ParseWidgetToken(TextName(t)).None?;
  }

  lemma TextNameBraceFree(t: TextToken)
    ensures '}' !in TextName(t)
  {
    match t
    case Title =>
    case Artist =>
    case Album =>
  }

  /** `{a}sep{b}`, a separator between two text tokens as in the default
      template's `{artist} - {title}`, parses to the two tokens around a
      literal. */
  lemma SeparatedTokens(a: TextToken, sep: string, b: TextToken)
    requires sep != [] && '{' !in sep
    ensures ParseTemplate("{" + TextName(a) + "}" + sep + "{" + TextName(b) + "}")
         == [TextEl(a), Literal(sep), TextEl(b)]
  {
    ClassifyNames(Art, a);
    TextNameBraceFree(a);
    var na, nb := TextName(a), TextName(b);
    var ta := "{" + na + "}";
    var tb := "{" + nb + "}";
    var tail := sep + tb;
    SeparatorThenToken(sep, b);
    ParseToken(na, tail, []);
    Assoc(ta, sep, tb);
    Assoc(ta + sep, "{" + nb, "}");
    Assoc(ta + sep, "{", nb);
  }

  lemma SeparatorThenToken(sep: string, b: TextToken)
    requires sep != [] && '{' !in sep
    ensures ParseFrom(sep + ("{" + TextName(b) + "}"), []) == [Literal(sep), TextEl(b)]
  {
    ClassifyNames(Art, b);
    TextNameBraceFree(b);
    var tb := "{" + TextName(b) + "}";
    ParseToken(TextName(b), [], sep);
    assert tb + [] == tb;
    ParsePlain(sep, tb, []);
    assert [] + sep == sep;
  }

  // ------------------------------------------------------------ text runs

  predicate HasText(e: Element) { e.TextEl? || e.Literal? }

  /** `start..end` in the element list. */
  datatype Run = Run(start: nat, end: nat)

  /** `runs` are exactly the maximal stretches of text elements, in order:
      each is non-empty and all text, widgets bound it on both sides, and
      every text element lies in one of them. */
  predicate TextRuns(els: seq<Element>, runs: seq<Run>) {
    RunsBounded(els, runs) && RunsCoverText(els, runs)
  }

  /** The runs are ordered, separated, hold text only, and are bounded by
      widgets or the ends of the list. */
  predicate RunsBounded(els: seq<Element>, runs: seq<Run>) {
    && (forall i :: 0 <= i < |runs| ==> runs[i].start < runs[i].end <= |els|)
    && (forall i :: 0 <= i < |runs| - 1 ==> runs[i].end < runs[i + 1].start)
    && (forall i, k :: 0 <= i < |runs| && runs[i].start <= k < runs[i].end ==> HasText(els[k]))
    && (forall i :: 0 <= i < |runs| ==> runs[i].start == 0 || !HasText(els[runs[i].start - 1]))
    && (forall i :: 0 <= i < |runs| ==> runs[i].end == |els| || !HasText(els[runs[i].end]))
  }

  /** Every text element is in some run. */
  predicate RunsCoverText(els: seq<Element>, runs: seq<Run>) {
    forall k :: 0 <= k < |els| && HasText(els[k]) ==> Covered(runs, k)
  }

  predicate Covered(runs: seq<Run>, k: nat) {
    exists i :: 0 <= i < |runs| && runs[i].start <= k < runs[i].end
  }

  /** Appending a run keeps what was covered and covers the run. */
  lemma CoveredAppend(runs: seq<Run>, r: Run, k: nat)
    requires Covered(runs, k) || r.start <= k < r.end
    ensures Covered(runs + [r], k)
  {
    if Covered(runs, k) {
      var i :| 0 <= i < |runs| && runs[i].start <= k < runs[i].end;
      assert (runs + [r])[i] == runs[i];
    } else {
      assert (runs + [r])[|runs|] == r;
    }
  }

  /** The state of the scan after the first `idx` elements: `runs` are
      the closed runs, `current` the start of an open one. */
  predicate Scanned(els: seq<Element>, runs: seq<Run>, current: Option<nat>, idx: nat) {
    idx <= |els| && ClosedRuns(els, runs, idx) && OpenRun(els, runs, current, idx) && ScannedCovered(els, runs, current, idx)
  }

  /** The closed runs lie before `idx`, in order, hold text only, and
      widgets bound them. */
  predicate ClosedRuns(els: seq<Element>, runs: seq<Run>, idx: nat)
    requires idx <= |els|
  {
    && (forall i :: 0 <= i < |runs| ==> runs[i].start < runs[i].end < idx)
    && (forall i :: 0 <= i < |runs| - 1 ==> runs[i].end < runs[i + 1].start)
    && (forall i, k :: 0 <= i < |runs| && runs[i].start <= k < runs[i].end ==> HasText(els[k]))
    && (forall i :: 0 <= i < |runs| ==> runs[i].start == 0 || !HasText(els[runs[i].start - 1]))
    && (forall i :: 0 <= i < |runs| ==> !HasText(els[runs[i].end]))
  }

  /** The open run, if any, follows the closed ones and holds text up to
      `idx`; without one, the element before `idx` is a widget. */
  predicate OpenRun(els: seq<Element>, runs: seq<Run>, current: Option<nat>, idx: nat)
    requires idx <= |els|
  {
    && (current.Some? ==> current.value < idx && (current.value == 0 || !HasText(els[current.value - 1])))
    && (current.Some? ==> forall k :: current.value <= k < idx ==> HasText(els[k]))
    && (current.Some? && runs != [] ==> runs[|runs| - 1].end < current.value)
    && (current.None? ==> idx == 0 || !HasText(els[idx - 1]))
  }

  /** Every text element before `idx` is in a closed run or the open one. */
  predicate ScannedCovered(els: seq<Element>, runs: seq<Run>, current: Option<nat>, idx: nat)
    requires idx <= |els|
  {
    forall k :: 0 <= k < idx && HasText(els[k]) ==> Covered(runs, k) || (current.Some? && current.value <= k)
  }

  /** A text element opens a run or extends the open one. */
  lemma ScanText(els: seq<Element>, runs: seq<Run>, current: Option<nat>, idx: nat)
    requires idx < |els| && HasText(els[idx]) && Scanned(els, runs, current, idx)
    ensures Scanned(els, runs, if current.None? then Some(idx) else current, idx + 1)
  {
  }

  /** A widget with no open run changes nothing but the position. */
  lemma ScanWidgetIdle(els: seq<Element>, runs: seq<Run>, idx: nat)
    requires idx < |els| && !HasText(els[idx]) && Scanned(els, runs, None, idx)
    ensures Scanned(els, runs, None, idx + 1)
  {
  }

  /** A widget closes the open run. */
  lemma ScanWidgetClose(els: seq<Element>, runs: seq<Run>, start: nat, idx: nat)
    requires idx < |els| && !HasText(els[idx]) && Scanned(els, runs, Some(start), idx)
    ensures Scanned(els, runs + [Run(start, idx)], None, idx + 1)
  {
    CloseKeepsShape(els, runs, start, idx);
    CloseCovers(els, runs, start, idx);
  }

  lemma CloseKeepsShape(els: seq<Element>, runs: seq<Run>, start: nat, idx: nat)
    requires idx < |els| && !HasText(els[idx]) && Scanned(els, runs, Some(start), idx)
    ensures ClosedRuns(els, runs + [Run(start, idx)], idx + 1)
  {
    var runs' := runs + [Run(start, idx)];
    assert forall i :: 0 <= i < |runs| ==> runs'[i] == runs[i];
  }

  lemma CloseCovers(els: seq<Element>, runs: seq<Run>, start: nat, idx: nat)
    requires idx < |els| && !HasText(els[idx]) && Scanned(els, runs, Some(start), idx)
    ensures ScannedCovered(els, runs + [Run(start, idx)], None, idx + 1)
  {
    var r := Run(start, idx);
    forall k | 0 <= k < idx + 1 && HasText(els[k]) ensures Covered(runs + [r], k) {
      CoveredAppend(runs, r, k);
    }
  }

  /** At the end the open run is closed at the end of the list. */
  lemma ScanEnd(els: seq<Element>, runs: seq<Run>, current: Option<nat>)
    requires Scanned(els, runs, current, |els|)
    ensures current.None? ==> TextRuns(els, runs)
    ensures current.Some? ==> TextRuns(els, runs + [Run(current.value, |els|)])
  {
    if current.Some? {
      CloseLastRun(els, runs, current.value);
    }
  }

  lemma CloseLastRun(els: seq<Element>, runs: seq<Run>, start: nat)
    requires Scanned(els, runs, Some(start), |els|)
    ensures TextRuns(els, runs + [Run(start, |els|)])
  {
    CloseLastBounded(els, runs, start);
    CloseLastCovers(els, runs, start);
  }

  lemma CloseLastBounded(els: seq<Element>, runs: seq<Run>, start: nat)
    requires Scanned(els, runs, Some(start), |els|)
    ensures RunsBounded(els, runs + [Run(start, |els|)])
  {
    var runs' := runs + [Run(start, |els|)];
    assert forall i :: 0 <= i < |runs| ==> runs'[i] == runs[i];
  }

  lemma CloseLastCovers(els: seq<Element>, runs: seq<Run>, start: nat)
    requires Scanned(els, runs, Some(start), |els|)
    ensures RunsCoverText(els, runs + [Run(start, |els|)])
  {
    forall k | 0 <= k < |els| && HasText(els[k]) ensures Covered(runs + [Run(start, |els|)], k) {
      CoveredAppend(runs, Run(start, |els|), k);
    }
  }

  /** The runs the scan produces from `idx` on, with an open run starting
      at `current`. */
  function RunsFrom(els: seq<Element>, idx: nat, current: Option<nat>): seq<Run>
    requires idx <= |els|
    decreases |els| - idx
  {
    if idx == |els| then (if current.Some? then [Run(current.value, |els|)] else [])
    else if HasText(els[idx]) then RunsFrom(els, idx + 1, if current.None? then Some(idx) else current)
    else if current.Some? then [Run(current.value, idx)] + RunsFrom(els, idx + 1, None)
    else RunsFrom(els, idx + 1, None)
  }

  /** Finishing a scan from any consistent state yields the text runs. */
  lemma {:induction false} RunsFromCorrect(els: seq<Element>, runs: seq<Run>, current: Option<nat>, idx: nat, all: seq<Run>)
    requires Scanned(els, runs, current, idx) && all == runs + RunsFrom(els, idx, current)
    ensures TextRuns(els, all)
    decreases |els| - idx, 1
  {
    if idx == |els| {
      ScanEnd(els, runs, current);
      if current.Some? {
        assert all == runs + [Run(current.value, |els|)];
      } else {
        assert all == runs;
      }
    } else if HasText(els[idx]) {
      RunsAfterText(els, runs, current, idx, all);
    } else {
      RunsAfterWidget(els, runs, current, idx, all);
    }
  }

  lemma {:induction false} RunsAfterText(els: seq<Element>, runs: seq<Run>, current: Option<nat>, idx: nat, all: seq<Run>)
    requires idx < |els| && HasText(els[idx])
    requires Scanned(els, runs, current, idx) && all == runs + RunsFrom(els, idx, current)
    ensures TextRuns(els, all)
    decreases |els| - idx, 0
  {
    var next := if current.None? then Some(idx) else current;
    ScanText(els, runs, current, idx);
    RunsFromCorrect(els, runs, next, idx + 1, all);
  }

  lemma {:induction false} RunsAfterWidget(els: seq<Element>, runs: seq<Run>, current: Option<nat>, idx: nat, all: seq<Run>)
    requires idx < |els| && !HasText(els[idx])
    requires Scanned(els, runs, current, idx) && all == runs + RunsFrom(els, idx, current)
    ensures TextRuns(els, all)
    decreases |els| - idx, 0
  {
    if current.Some? {
      ScanWidgetClose(els, runs, current.value, idx);
      var r := Run(current.value, idx);
      var rest := RunsFrom(els, idx + 1, None);
      assert runs + ([r] + rest) == runs + [r] + rest;
      RunsFromCorrect(els, runs + [r], None, idx + 1, all);
    } else {
      ScanWidgetIdle(els, runs, idx);
      RunsFromCorrect(els, runs, None, idx + 1, all);
    }
  }

  /** `compute_text_runs`. */
  method ComputeTextRuns(els: seq<Element>) returns (runs: seq<Run>)
    ensures TextRuns(els, runs)
  {
    runs := [];
    var current: Option<nat> := None;
    var idx := 0;
    while idx < |els|
      invariant idx <= |els|
      invariant runs + RunsFrom(els, idx, current) == RunsFrom(els, 0, None)
    {
      if HasText(els[idx]) {
        if current.None? {
          current := Some(idx);
        }
      } else if current.Some? {
        runs := runs + [Run(current.value, idx)];
        current := None;
      }
      idx := idx + 1;
    }
    if current.Some? {
      runs := runs + [Run(current.value, |els|)];
    }
    assert runs == [] + RunsFrom(els, 0, None);
    RunsFromCorrect(els, [], None, 0, runs);
  }

  // ------------------------------------------------------------ rendering

  /** `TextToken::value`. */
  function TokenValue(t: TextToken, snap: Snapshot): (v: string)
  {
    match t
    case Title => snap.metadata.title.GetOr("")
    case Artist => snap.metadata.artist.GetOr("")
    case Album => snap.metadata.album.GetOr("")
  }

  /** What an element contributes before the separator rule: nothing for a
      widget or an empty value. */
  function Resolve(e: Element, snap: Snapshot): (r: Option<string>)
    ensures r.Some? ==> r.value != [] || e.Literal?
    ensures e.WidgetEl? ==> r.None?
  {
    match e
    case WidgetEl(_) => None
    case TextEl(t) => if TokenValue(t, snap) == [] then None else Some(TokenValue(t, snap))
    case Literal(s) => Some(s)
  }

  predicate IsAsciiPunctuation(c: char) {
    ('!' <= c <= '/') || (':' <= c <= '@') || ('[' <= c <= '`') || ('{' <= c <= '~')
  }

  /** `is_literal_str`: whitespace, ASCII punctuation and the dashes and
      bullet that commonly separate artist and title. */
  predicate IsLiteralStr(s: string) {
    forall i :: 0 <= i < |s| ==> IsLiteralChar(s[i])
  }

  predicate IsLiteralChar(c: char) {
    IsWhitespace(c) || IsAsciiPunctuation(c) || c == '\U{2013}' || c == '\U{2014}' || c == '\U{2012}' || c == '\U{2022}'
  }

  /** Whether the separator search looks through this element. As written,
      it looks through any resolved value that reads as punctuation, text
      token values included; the corrected rule looks through literal
      separators only. */
  predicate SeeThrough(e: Element, r: Option<string>, asWritten: bool) {
    if asWritten then r.Some? && IsLiteralStr(r.value)
    else e.Literal? && IsLiteralStr(e.s)
  }

  /** The nearest element before `i` that the search does not look
      through has content. */
  function ContentBefore(els: seq<Element>, res: seq<Option<string>>, i: nat, asWritten: bool): bool
    requires |res| == |els| && i <= |els|
  {
    if i == 0 then false
    else if SeeThrough(els[i - 1], res[i - 1], asWritten) then ContentBefore(els, res, i - 1, asWritten)
    else res[i - 1].Some?
  }

  /** The nearest element from `j` on that the search does not look
      through has content. */
  function ContentFrom(els: seq<Element>, res: seq<Option<string>>, j: nat, asWritten: bool): bool
    requires |res| == |els|
    decreases |els| - j
  {
    if j >= |els| then false
    else if SeeThrough(els[j], res[j], asWritten) then ContentFrom(els, res, j + 1, asWritten)
    else res[j].Some?
  }

  function Piece(els: seq<Element>, res: seq<Option<string>>, i: nat, asWritten: bool): string
    requires |res| == |els| && i < |els|
  {
    match els[i]
    case WidgetEl(_) => []
    case TextEl(_) => res[i].GetOr([])
    case Literal(s) =>
      if ContentBefore(els, res, i, asWritten) && ContentFrom(els, res, i + 1, asWritten) then s else []
  }

  function Emit(els: seq<Element>, res: seq<Option<string>>, i: nat, asWritten: bool): string
    requires |res| == |els|
    decreases |els| - i
  {
    if i >= |els| then [] else Piece(els, res, i, asWritten) + Emit(els, res, i + 1, asWritten)
  }

  function Resolved(els: seq<Element>, snap: Snapshot): (res: seq<Option<string>>)
    ensures |res| == |els| && forall i :: 0 <= i < |els| ==> res[i] == Resolve(els[i], snap)
  {
    seq(|els|, i requires 0 <= i < |els| => Resolve(els[i], snap))
  }

  function RenderWith(els: seq<Element>, snap: Snapshot, asWritten: bool): (s: string)
  {
    Trim(Emit(els, Resolved(els, snap), 0, asWritten))
  }

  /** `render_text_from_elements` as written. */
  function RenderTextAsWritten(els: seq<Element>, snap: Snapshot): (s: string)
    ensures |s| <= |Emit(els, Resolved(els, snap), 0, true)|
  {
    RenderWith(els, snap, true)
  }

  /** `render_text_from_elements` with the corrected separator rule: a
      separator shows when the nearest value on each side is present. */
  function RenderText(els: seq<Element>, snap: Snapshot): (s: string)
    ensures |s| <= |Emit(els, Resolved(els, snap), 0, false)|
  {
    RenderWith(els, snap, false)
  }

  /** The separator rule stated directly: some element before `i` has
      content, is not looked through, and everything between it and `i` is
      looked through. */
  predicate PresentBefore(els: seq<Element>, res: seq<Option<string>>, i: nat, asWritten: bool)
    requires |res| == |els| && i <= |els|
  {
    exists j :: 0 <= j < i && !SeeThrough(els[j], res[j], asWritten) && res[j].Some?
      && forall k :: j < k < i ==> SeeThrough(els[k], res[k], asWritten)
  }

  /** The same from `j0` onwards. */
  predicate PresentFrom(els: seq<Element>, res: seq<Option<string>>, j0: nat, asWritten: bool)
    requires |res| == |els|
  {
    exists j :: j0 <= j < |els| && !SeeThrough(els[j], res[j], asWritten) && res[j].Some?
      && forall k :: j0 <= k < j ==> SeeThrough(els[k], res[k], asWritten)
  }

  /** The backward search finds content exactly when the nearest element
      it does not look through is present. */
  lemma {:induction false} ContentBeforeRule(els: seq<Element>, res: seq<Option<string>>, i: nat, asWritten: bool)
    requires |res| == |els| && i <= |els|
    ensures ContentBefore(els, res, i, asWritten) <==> PresentBefore(els, res, i, asWritten)
  {
    if i > 0 {
      if SeeThrough(els[i - 1], res[i - 1], asWritten) {
        ContentBeforeRule(els, res, i - 1, asWritten);
        if PresentBefore(els, res, i, asWritten) {
          var j :| 0 <= j < i && !SeeThrough(els[j], res[j], asWritten) && res[j].Some?
            && forall k :: j < k < i ==> SeeThrough(els[k], res[k], asWritten);
          assert j < i - 1;
        }
      } else if res[i - 1].Some? {
        assert !SeeThrough(els[i - 1], res[i - 1], asWritten);
      } else {
        forall j | 0 <= j < i - 1 ensures SeeThrough(els[j], res[j], asWritten) || !(forall k :: j < k < i ==> SeeThrough(els[k], res[k], asWritten)) {
          assert !SeeThrough(els[i - 1], res[i - 1], asWritten);
        }
      }
    }
  }

  /** The forward search finds content exactly when the nearest element it
      does not look through is present. */
  lemma {:induction false} ContentFromRule(els: seq<Element>, res: seq<Option<string>>, j0: nat, asWritten: bool)
    requires |res| == |els|
    ensures ContentFrom(els, res, j0, asWritten) <==> PresentFrom(els, res, j0, asWritten)
    decreases |els| - j0
  {
    if j0 < |els| {
      if SeeThrough(els[j0], res[j0], asWritten) {
        ContentFromRule(els, res, j0 + 1, asWritten);
        if PresentFrom(els, res, j0, asWritten) {
          var j :| j0 <= j < |els| && !SeeThrough(els[j], res[j], asWritten) && res[j].Some?
            && forall k :: j0 <= k < j ==> SeeThrough(els[k], res[k], asWritten);
          assert j > j0;
        }
      } else if res[j0].Some? {
        assert !SeeThrough(els[j0], res[j0], asWritten);
      } else {
        forall j | j0 < j < |els| ensures SeeThrough(els[j], res[j], asWritten) || !(forall k :: j0 <= k < j ==> SeeThrough(els[k], res[k], asWritten)) {
          assert !SeeThrough(els[j0], res[j0], asWritten);
        }
      }
    }
  }

  /** The rendering rule, element by element, under either separator rule:
      the text is the trimmed concatenation of the pieces; a widget adds
      nothing; a text token adds its value, so an empty value adds nothing;
      a literal adds its text exactly when the nearest element on each side
      that the search does not look through is present. */
  lemma RenderRule(els: seq<Element>, snap: Snapshot, asWritten: bool, i: nat)
    requires i < |els|
    ensures RenderWith(els, snap, asWritten) == Trim(Emit(els, Resolved(els, snap), 0, asWritten))
    ensures Emit(els, Resolved(els, snap), i, asWritten)
         == Piece(els, Resolved(els, snap), i, asWritten) + Emit(els, Resolved(els, snap), i + 1, asWritten)
    ensures els[i].WidgetEl? ==> Piece(els, Resolved(els, snap), i, asWritten) == []
    ensures els[i].TextEl? ==> Piece(els, Resolved(els, snap), i, asWritten) == TokenValue(els[i].t, snap)
    ensures els[i].Literal? ==>
      Piece(els, Resolved(els, snap), i, asWritten)
        == if PresentBefore(els, Resolved(els, snap), i, asWritten) && PresentFrom(els, Resolved(els, snap), i + 1, asWritten)
           then els[i].s else []
  {
    var res := Resolved(els, snap);
    ContentBeforeRule(els, res, i, asWritten);
    ContentFromRule(els, res, i + 1, asWritten);
  }

  /** Widgets never contribute text. */
  lemma {:induction false} WidgetsAddNoText(els: seq<Element>, snap: Snapshot, asWritten: bool)
    requires forall i :: 0 <= i < |els| ==> els[i].WidgetEl?
    ensures RenderWith(els, snap, asWritten) == []
  {
    WidgetsEmitNothing(els, Resolved(els, snap), 0, asWritten);
  }

  lemma {:induction false} WidgetsEmitNothing(els: seq<Element>, res: seq<Option<string>>, i: nat, asWritten: bool)
    requires |res| == |els| && forall k :: 0 <= k < |els| ==> els[k].WidgetEl?
    ensures Emit(els, res, i, asWritten) == []
    decreases |els| - i
  {
    if i < |els| {
      WidgetsEmitNothing(els, res, i + 1, asWritten);
    }
  }

  /** The text of a three-element template, piece by piece. */
  lemma EmitThree(els: seq<Element>, res: seq<Option<string>>, asWritten: bool)
    requires |els| == 3 && |res| == 3
    ensures Emit(els, res, 0, asWritten)
         == Piece(els, res, 0, asWritten) + Piece(els, res, 1, asWritten) + Piece(els, res, 2, asWritten)
  {
    var p0, p1, p2 := Piece(els, res, 0, asWritten), Piece(els, res, 1, asWritten), Piece(els, res, 2, asWritten);
    assert Emit(els, res, 3, asWritten) == [];
    assert Emit(els, res, 2, asWritten) == p2;
    assert Emit(els, res, 1, asWritten) == p1 + p2;
    assert Emit(els, res, 0, asWritten) == p0 + (p1 + p2);
  }

  /** A separator between two present values shows, whatever the values
      look like. */
  lemma SeparatorBetweenValues(a: TextToken, sep: string, b: TextToken, snap: Snapshot)
    requires TokenValue(a, snap) != [] && TokenValue(b, snap) != []
    ensures RenderText([TextEl(a), Literal(sep), TextEl(b)], snap)
         == Trim(TokenValue(a, snap) + sep + TokenValue(b, snap))
  {
    var els := [TextEl(a), Literal(sep), TextEl(b)];
    var res := Resolved(els, snap);
    assert res[0] == Some(TokenValue(a, snap)) && res[2] == Some(TokenValue(b, snap));
    assert ContentBefore(els, res, 1, false);
    assert ContentFrom(els, res, 2, false);
    assert Piece(els, res, 0, false) == TokenValue(a, snap);
    assert Piece(els, res, 1, false) == sep;
    assert Piece(els, res, 2, false) == TokenValue(b, snap);
    EmitThree(els, res, false);
    assert Emit(els, res, 0, false) == TokenValue(a, snap) + sep + TokenValue(b, snap);
  }

  /** From template to text: `{a}sep{b}` with both values present shows
      both values around the separator. */
  lemma TemplateShowsSeparator(a: TextToken, sep: string, b: TextToken, snap: Snapshot)
    requires sep != [] && '{' !in sep
    requires TokenValue(a, snap) != [] && TokenValue(b, snap) != []
    ensures RenderText(ParseTemplate("{" + TextName(a) + "}" + sep + "{" + TextName(b) + "}"), snap)
         == Trim(TokenValue(a, snap) + sep + TokenValue(b, snap))
  {
    SeparatedTokens(a, sep, b);
    SeparatorBetweenValues(a, sep, b, snap);
  }

  /** A missing value takes its separator with it. */
  lemma SeparatorDroppedWithMissingValue(a: TextToken, sep: string, b: TextToken, snap: Snapshot)
    requires TokenValue(a, snap) == [] || TokenValue(b, snap) == []
    ensures RenderText([TextEl(a), Literal(sep), TextEl(b)], snap)
         == Trim(TokenValue(a, snap) + TokenValue(b, snap))
  {
    var els := [TextEl(a), Literal(sep), TextEl(b)];
    var res := Resolved(els, snap);
    assert res[0] == Resolve(TextEl(a), snap) && res[2] == Resolve(TextEl(b), snap);
    if TokenValue(a, snap) == [] {
      assert !ContentBefore(els, res, 1, false);
    } else {
      assert !ContentFrom(els, res, 2, false);
    }
    assert Piece(els, res, 1, false) == [];
    assert Piece(els, res, 0, false) == TokenValue(a, snap);
    assert Piece(els, res, 2, false) == TokenValue(b, snap);
    EmitThree(els, res, false);
    assert Emit(els, res, 0, false) == TokenValue(a, snap) + TokenValue(b, snap);
  }

  /** As written, a present value made of punctuation (an artist called
      "!!!") is looked through like a separator, so the separator after it
      disappears although both values are present. */
  lemma PunctuationValueLosesSeparator(a: TextToken, sep: string, b: TextToken, snap: Snapshot)
    requires TokenValue(a, snap) != [] && IsLiteralStr(TokenValue(a, snap))
    requires TokenValue(b, snap) != []
    ensures RenderTextAsWritten([TextEl(a), Literal(sep), TextEl(b)], snap)
         == Trim(TokenValue(a, snap) + TokenValue(b, snap))
  {
    var els := [TextEl(a), Literal(sep), TextEl(b)];
    var res := Resolved(els, snap);
    assert res[0] == Some(TokenValue(a, snap)) && res[2] == Some(TokenValue(b, snap));
    assert SeeThrough(els[0], res[0], true);
    assert !ContentBefore(els, res, 1, true);
    assert Piece(els, res, 0, true) == TokenValue(a, snap);
    assert Piece(els, res, 1, true) == [];
    assert Piece(els, res, 2, true) == TokenValue(b, snap);
    EmitThree(els, res, true);
    assert Emit(els, res, 0, true) == TokenValue(a, snap) + TokenValue(b, snap);
  }

  /** Both rules agree when no value reads as punctuation. */
  lemma {:induction false} RulesAgreeOnWordValues(els: seq<Element>, snap: Snapshot)
    requires forall i :: 0 <= i < |els| && els[i].TextEl? ==> !IsLiteralStr(TokenValue(els[i].t, snap))
    ensures RenderTextAsWritten(els, snap) == RenderText(els, snap)
  {
    var res := Resolved(els, snap);
    forall k | 0 <= k < |els| ensures SeeThrough(els[k], res[k], true) == SeeThrough(els[k], res[k], false) {
    }
    EmitAgrees(els, res, 0);
  }

  lemma {:induction false} EmitAgrees(els: seq<Element>, res: seq<Option<string>>, i: nat)
    requires |res| == |els|
    requires forall k :: 0 <= k < |els| ==> SeeThrough(els[k], res[k], true) == SeeThrough(els[k], res[k], false)
    ensures Emit(els, res, i, true) == Emit(els, res, i, false)
    decreases |els| - i
  {
    if i < |els| {
      EmitAgrees(els, res, i + 1);
      if els[i].Literal? {
        BeforeAgrees(els, res, i);
        FromAgrees(els, res, i + 1);
      }
    }
  }

  lemma {:induction false} BeforeAgrees(els: seq<Element>, res: seq<Option<string>>, i: nat)
    requires |res| == |els| && i <= |els|
    requires forall k :: 0 <= k < |els| ==> SeeThrough(els[k], res[k], true) == SeeThrough(els[k], res[k], false)
    ensures ContentBefore(els, res, i, true) == ContentBefore(els, res, i, false)
  {
    if i > 0 {
      BeforeAgrees(els, res, i - 1);
    }
  }

  lemma {:induction false} FromAgrees(els: seq<Element>, res: seq<Option<string>>, j: nat)
    requires |res| == |els|
    requires forall k :: 0 <= k < |els| ==> SeeThrough(els[k], res[k], true) == SeeThrough(els[k], res[k], false)
    ensures ContentFrom(els, res, j, true) == ContentFrom(els, res, j, false)
    decreases |els| - j
  {
    if j < |els| {
      FromAgrees(els, res, j + 1);
    }
  }

  // ------------------------------------------------------------- display

  /** The part of `update_widgets_from_snapshot` that decides whether
      there is anything to show: no player, or a stopped player without a
      title. */
  predicate ShouldHide(snap: Snapshot) {
    var hasMetadata := snap.metadata.title.Some? && Trim(snap.metadata.title.value) != [];
    !snap.available || (snap.status == Stopped && !hasMetadata)
  }

  /** What the bar shows: left alone while the pop-out is open, hidden
      without an empty text, the empty text in the first label otherwise;
      `Playing` when there is something to show. */
  datatype Display = Unchanged | Hidden | Placeholder(text: string, tooltip: string) | Showing

  function DisplayFor(snap: Snapshot, emptyText: string, popoutOpen: bool): (d: Display)
    ensures d == Showing <==> !ShouldHide(snap)
    ensures ShouldHide(snap) && !popoutOpen && emptyText == [] ==> d == Hidden
    ensures d.Placeholder? ==> d.text == emptyText && emptyText != [] && d.tooltip == NO_MEDIA_TOOLTIP
    ensures d == Unchanged ==> popoutOpen
  {
    if !ShouldHide(snap) then Showing
    else if popoutOpen then Unchanged
    else if emptyText == [] then Hidden
    else Placeholder(emptyText, NO_MEDIA_TOOLTIP)
  }

  /** A paused or playing player is shown even without a title; a
      stopped one only with a title that is not blank. */
  lemma HideCases(snap: Snapshot)
    requires snap.available
    ensures snap.status != Stopped ==> !ShouldHide(snap)
    ensures snap.status == Stopped && snap.metadata.title.None? ==> ShouldHide(snap)
  {
  }

  /** The tooltip lines: player, title, artist, album when known, then the
      status. */
  function TooltipLines(snap: Snapshot): (lines: seq<string>)
    ensures |lines| >= 1 && lines[|lines| - 1] == "Status: " + StatusName(snap.status)
    ensures snap.playerName.Some? ==> lines[0] == "Player: " + snap.playerName.value
    ensures snap.metadata.title.Some? ==> "Title: " + snap.metadata.title.value in lines
    ensures snap.metadata.artist.Some? ==> "Artist: " + snap.metadata.artist.value in lines
    ensures snap.metadata.album.Some? ==> "Album: " + snap.metadata.album.value in lines
  {
    var player := if snap.playerName.Some? then ["Player: " + snap.playerName.value] else [];
    var title := if snap.metadata.title.Some? then ["Title: " + snap.metadata.title.value] else [];
    var artist := if snap.metadata.artist.Some? then ["Artist: " + snap.metadata.artist.value] else [];
    var album := if snap.metadata.album.Some? then ["Album: " + snap.metadata.album.value] else [];
    player + title + artist + album + ["Status: " + StatusName(snap.status)]
  }

  /** `build_tooltip`. */
  function BuildTooltip(snap: Snapshot): (t: string)
    ensures !snap.available ==> t == NO_MEDIA_TOOLTIP
    ensures snap.available ==> EndsWith(t, "Status: " + StatusName(snap.status))
    ensures snap.available && snap.playerName.Some? ==> StartsWith(t, "Player: " + snap.playerName.value)
  {
    if !snap.available then NO_MEDIA_TOOLTIP
    else
      var lines := TooltipLines(snap);
      JoinEnds(lines, "\n");
      Join(lines, "\n")
  }

  /** A joined list starts with its first part and ends with its last. */
  lemma {:induction false} JoinEnds(parts: seq<string>, sep: string)
    requires parts != []
    ensures StartsWith(Join(parts, sep), parts[0])
    ensures EndsWith(Join(parts, sep), parts[|parts| - 1])
  {
    var j := Join(parts, sep);
    if |parts| > 1 {
      JoinEnds(parts[1..], sep);
      var rest := Join(parts[1..], sep);
      assert j == parts[0] + sep + rest;
      assert j[..|parts[0]|] == parts[0];
      assert j[|j| - |rest|..] == rest;
      var last := parts[|parts| - 1];
      assert rest[|rest| - |last|..] == last;
      assert j[|j| - |last|..] == rest[|rest| - |last|..];
    }
  }
}
