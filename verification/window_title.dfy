/*
 * The window title widget (`widgets/window_title.rs`): its configuration,
 * the cleaning of a window title against the application's name, the
 * friendly application name derived from an app id, and the text the label
 * finally shows.
 *
 * Rust's `to_lowercase`, `to_uppercase` and `char::to_uppercase` are
 * modelled on ASCII letters only; every other character is left as it is.
 */
module WindowTitle {
  import opened Common
  import opened Toml

  // -------------------------------------------------------------- config

  const DEFAULT_EMPTY_TEXT: string := "—"
  /** "{display}". */
  const DEFAULT_TEMPLATE: string := Placeholder("display")
  const DEFAULT_SHOW_APP_FALLBACK: bool := true
  const DEFAULT_MAX_CHARS: int := 0
  const DEFAULT_SHOW_ICON: bool := true
  const DEFAULT_UPPERCASE: bool := false

  /** `WindowTitleConfig`. `maxChars` is an `i32`; 0 means unlimited. */
  datatype WindowTitleConfig = WindowTitleConfig(
    emptyText: string,
    template: string,
    showAppFallback: bool,
    maxChars: int,
    showIcon: bool,
    uppercase: bool)

  const DEFAULT_CONFIG: WindowTitleConfig := WindowTitleConfig(
    DEFAULT_EMPTY_TEXT, DEFAULT_TEMPLATE, DEFAULT_SHOW_APP_FALLBACK,
    DEFAULT_MAX_CHARS, DEFAULT_SHOW_ICON, DEFAULT_UPPERCASE)

  /** `WindowTitleConfig::from_entry`: every option falls back to its
      default when missing or of the wrong type; `max_chars` is cast to
      `i32` by keeping its low 32 bits. */
  function FromOptions(options: map<string, Value>): (c: WindowTitleConfig)
    ensures c.emptyText == GetStr(options, "empty_text").GetOr(DEFAULT_EMPTY_TEXT)
    ensures c.template == GetStr(options, "template").GetOr(DEFAULT_TEMPLATE)
    ensures c.showAppFallback == GetBool(options, "show_app_fallback").GetOr(DEFAULT_SHOW_APP_FALLBACK)
    ensures c.showIcon == GetBool(options, "show_icon").GetOr(DEFAULT_SHOW_ICON)
    ensures c.uppercase == GetBool(options, "uppercase").GetOr(DEFAULT_UPPERCASE)
    ensures GetInt(options, "max_chars").None? ==> c.maxChars == DEFAULT_MAX_CHARS
    ensures GetInt(options, "max_chars").Some? ==> c.maxChars == WrapI32(GetInt(options, "max_chars").value)
    ensures I32_MIN <= c.maxChars <= I32_MAX
  {
    var maxChars := match GetInt(options, "max_chars")
      case Some(v) => WrapI32(v)
      case None => DEFAULT_MAX_CHARS;
    WindowTitleConfig(
      GetStr(options, "empty_text").GetOr(DEFAULT_EMPTY_TEXT),
      GetStr(options, "template").GetOr(DEFAULT_TEMPLATE),
      GetBool(options, "show_app_fallback").GetOr(DEFAULT_SHOW_APP_FALLBACK),
      maxChars,
      GetBool(options, "show_icon").GetOr(DEFAULT_SHOW_ICON),
      GetBool(options, "uppercase").GetOr(DEFAULT_UPPERCASE))
  }

  /** An entry without options gives `WindowTitleConfig::default()`. */
  lemma DefaultConfig()
    ensures FromOptions(map[]) == DEFAULT_CONFIG
    ensures DEFAULT_CONFIG.showAppFallback && DEFAULT_CONFIG.showIcon && !DEFAULT_CONFIG.uppercase
  {
  }

  /** The label's width is capped only by a positive `max_chars`. */
  function WidthLimit(c: WindowTitleConfig): (r: Option<int>)
    ensures r.Some? <==> c.maxChars > 0
    ensures r.Some? ==> r.value == c.maxChars
  {
    if c.maxChars > 0 then Some(c.maxChars) else None
  }

  // ----------------------------------------------------------- titlecase

  /** `titlecase`: the first character upper-cased, the rest untouched. */
  function Titlecase(s: string): (r: string)
    ensures |r| == |s|
    ensures s != [] ==> r[1..] == s[1..] && r[0] == ToAsciiUpper(s[0])
  {
    CapitalizeFirst(s)
  }

  /** Title-casing twice changes nothing more, and upper-casing the first
      letter does not change what the word lower-cases to. */
  lemma TitlecaseStable(s: string)
    ensures Titlecase(Titlecase(s)) == Titlecase(s)
    ensures Lower(Titlecase(s)) == Lower(s)
  {
    var t := Titlecase(s);
    if s != [] {
      assert Titlecase(t)[0] == t[0];
      assert Titlecase(t) == t;
      assert Lower(t)[0] == Lower(s)[0];
      assert forall i :: 1 <= i < |s| ==> Lower(t)[i] == Lower(s)[i];
    }
  }

  // --------------------------------------------------------- clean_title

  /** The title delimiters: hyphen, en dash, em dash, pipe, bullet and
      middle dot. */
  predicate IsDelimiter(c: char) {
    c == '-' || c == '–' || c == '—' || c == '|' || c == '•' || c == '·'
  }

  /** The characters `normalize` strips after trimming. */
  predicate IsLeadJunk(c: char) {
    c == '@' || c == ':' || c == ' '
  }

  /** The characters `tokenize` splits on. */
  predicate IsTokenSeparator(c: char) {
    c == '_' || c == '-' || c == '.' || c == ' '
  }

  /** The separator the kept segments are joined with: " — ". */
  const SEGMENT_SEPARATOR: string := " — "

  /** `normalize`: trimmed, lower-cased, leading '@', ':' and ' ' dropped. */
  function Normalize(v: string): (r: string)
    ensures v == [] ==> r == []
    ensures |r| <= |v|
  {
    TrimStartBy(Lower(Trim(v)), IsLeadJunk)
  }

  /** `tokenize`: the non-empty pieces between token separators. */
  function Tokens(n: string): (r: set<string>)
    ensures forall t :: t in r ==> t != [] && t in SplitBy(n, IsTokenSeparator)
  {
    set t | t in SplitBy(n, IsTokenSeparator) && t != []
  }

  /** The friendly name's token set, empty when the name normalizes to "". */
  function FriendlyTokens(friendlyNorm: string): set<string> {
    if friendlyNorm == [] then {} else Tokens(friendlyNorm)
  }

  /** `matches_friendly`: a normalized segment belongs to the application
      when it equals the normalized friendly name, or when one token set
      contains the other. */
  predicate MatchesApp(seg: string, friendlyNorm: string, friendlyTokens: set<string>) {
    if seg == [] then false
    else if friendlyNorm != [] && seg == friendlyNorm then true
    else if friendlyTokens == {} then false
    else
      var segTokens := Tokens(seg);
      segTokens != {} && (segTokens <= friendlyTokens || friendlyTokens <= segTokens)
  }

  /** The test `clean_title` applies to each normalized segment, for the
      application named `friendly`. */
  function AppMatcher(friendly: string): string -> bool {
    var fnorm := Normalize(friendly);
    var ftokens := FriendlyTokens(fnorm);
    n => MatchesApp(n, fnorm, ftokens)
  }

  /** The application's own name always matches, once it normalizes to
      something. */
  lemma NameMatchesItself(friendly: string)
    requires Normalize(friendly) != []
    ensures AppMatcher(friendly)(Normalize(friendly))
  {
  }

  /** A segment as `clean_title` can keep it: non-empty, trimmed and free
      of delimiters. */
  predicate Segment(s: string) {
    && s != [] && !IsWhitespace(s[0]) && !IsWhitespace(s[|s| - 1])
    && forall k :: 0 <= k < |s| ==> !IsDelimiter(s[k])
  }

  function Trims(pieces: seq<string>): (r: seq<string>)
    ensures |r| == |pieces| && forall i :: 0 <= i < |pieces| ==> r[i] == Trim(pieces[i])
  {
    if pieces == [] then [] else [Trim(pieces[0])] + Trims(pieces[1..])
  }

  predicate Subsequence(a: seq<string>, b: seq<string>)
    decreases |b|
  {
    a == [] || (b != [] && ((a[0] == b[0] && Subsequence(a[1..], b[1..])) || Subsequence(a, b[1..])))
  }

  /** A segment survives when it is non-empty, normalizes to something
      not seen yet, and does not match the application. */
  predicate Survives(seg: string, norm: string -> string, isApp: string -> bool, seen: set<string>) {
    seg != [] && norm(seg) != [] && norm(seg) !in seen && !isApp(norm(seg))
  }

  /** The loop of `clean_title` over the trimmed pieces of the title:
      `seen` holds the normalized forms of the segments kept so far. */
  function CleanFrom(segs: seq<string>, norm: string -> string, isApp: string -> bool, seen: set<string>): (r: seq<string>)
    ensures |r| <= |segs|
    ensures forall i :: 0 <= i < |r| ==> r[i] in segs
  {
    if segs == [] then []
    else
      var seg := segs[0];
      assert forall t :: t in segs[1..] ==> t in segs;
      if Survives(seg, norm, isApp, seen) then [seg] + CleanFrom(segs[1..], norm, isApp, seen + {norm(seg)})
      else CleanFrom(segs[1..], norm, isApp, seen)
  }

  /** Every kept segment normalizes to something new that is not the
      application. */
  lemma {:induction false} CleanFromKept(segs: seq<string>, norm: string -> string, isApp: string -> bool, seen: set<string>)
    ensures forall i :: 0 <= i < |CleanFrom(segs, norm, isApp, seen)| ==>
              Survives(CleanFrom(segs, norm, isApp, seen)[i], norm, isApp, seen)
  {
    if segs != [] {
      var seg := segs[0];
      if Survives(seg, norm, isApp, seen) {
        var n := norm(seg);
        CleanFromKept(segs[1..], norm, isApp, seen + {n});
        var rest := CleanFrom(segs[1..], norm, isApp, seen + {n});
        assert CleanFrom(segs, norm, isApp, seen) == [seg] + rest;
        forall i | 1 <= i < |rest| + 1 ensures Survives(([seg] + rest)[i], norm, isApp, seen) {
          assert ([seg] + rest)[i] == rest[i - 1];
        }
      } else {
        CleanFromKept(segs[1..], norm, isApp, seen);
      }
    }
  }

  predicate DistinctNorms(r: seq<string>, norm: string -> string) {
    forall i, j :: 0 <= i < j < |r| ==> norm(r[i]) != norm(r[j])
  }

  /** No two kept segments normalize alike. */
  lemma {:induction false} CleanFromDistinct(segs: seq<string>, norm: string -> string, isApp: string -> bool, seen: set<string>)
    ensures DistinctNorms(CleanFrom(segs, norm, isApp, seen), norm)
  {
    if segs != [] {
      var seg := segs[0];
      if Survives(seg, norm, isApp, seen) {
        var n := norm(seg);
        CleanFromDistinct(segs[1..], norm, isApp, seen + {n});
        CleanFromKept(segs[1..], norm, isApp, seen + {n});
        var rest := CleanFrom(segs[1..], norm, isApp, seen + {n});
        var r := [seg] + rest;
        forall i, j | 0 <= i < j < |r| ensures norm(r[i]) != norm(r[j]) {
          assert r[j] == rest[j - 1];
          if i > 0 {
            assert r[i] == rest[i - 1];
          } else {
            assert Survives(rest[j - 1], norm, isApp, seen + {n});
          }
        }
      } else {
        CleanFromDistinct(segs[1..], norm, isApp, seen);
      }
    }
  }

  /** Some segment of `r` normalizes to `x`. */
  predicate Represented(r: seq<string>, norm: string -> string, x: string) {
    exists i :: 0 <= i < |r| && norm(r[i]) == x
  }

  /** Only repeats are lost: a dropped segment that normalizes to something
      and is not the application repeats an earlier kept one (or `seen`). */
  lemma {:induction false} CleanFromComplete(segs: seq<string>, norm: string -> string, isApp: string -> bool, seen: set<string>, k: nat)
    requires k < |segs| && segs[k] != [] && norm(segs[k]) != [] && !isApp(norm(segs[k]))
    ensures norm(segs[k]) in seen || Represented(CleanFrom(segs, norm, isApp, seen), norm, norm(segs[k]))
  {
    var x := norm(segs[k]);
    var r := CleanFrom(segs, norm, isApp, seen);
    if Survives(segs[0], norm, isApp, seen) {
      var n := norm(segs[0]);
      var rest := CleanFrom(segs[1..], norm, isApp, seen + {n});
      assert r == [segs[0]] + rest;
      if x == n {
        assert norm(r[0]) == x;
      } else {
        assert segs[1..][k - 1] == segs[k];
        CleanFromComplete(segs[1..], norm, isApp, seen + {n}, k - 1);
        if x !in seen {
          var i :| 0 <= i < |rest| && norm(rest[i]) == x;
          assert norm(r[i + 1]) == x;
        }
      }
    } else if k > 0 {
      assert segs[1..][k - 1] == segs[k];
      CleanFromComplete(segs[1..], norm, isApp, seen, k - 1);
      assert r == CleanFrom(segs[1..], norm, isApp, seen);
    }
  }

  /** The kept segments keep their title order. */
  lemma {:induction false} CleanFromInOrder(segs: seq<string>, norm: string -> string, isApp: string -> bool, seen: set<string>)
    ensures Subsequence(CleanFrom(segs, norm, isApp, seen), segs)
  {
    if segs != [] {
      var seg := segs[0];
      if Survives(seg, norm, isApp, seen) {
        CleanFromInOrder(segs[1..], norm, isApp, seen + {norm(seg)});
        var r := CleanFrom(segs, norm, isApp, seen);
        assert r[0] == segs[0] && r[1..] == CleanFrom(segs[1..], norm, isApp, seen + {norm(seg)});
      } else {
        CleanFromInOrder(segs[1..], norm, isApp, seen);
        var r := CleanFrom(segs, norm, isApp, seen);
        assert r == CleanFrom(segs[1..], norm, isApp, seen);
      }
    }
  }

  /** The segments `clean_title` keeps, in title order. */
  function CleanSegments(title: string, friendly: string): (r: seq<string>)
    ensures forall i :: 0 <= i < |r| ==> r[i] in Trims(SplitBy(title, IsDelimiter))
  {
    CleanFrom(Trims(SplitBy(title, IsDelimiter)), Normalize, AppMatcher(friendly), {})
  }

  /** Every segment `clean_title` keeps is trimmed and free of delimiters. */
  lemma CleanSegmentsAreSegments(title: string, friendly: string)
    ensures forall i :: 0 <= i < |CleanSegments(title, friendly)| ==> Segment(CleanSegments(title, friendly)[i])
  {
    var pieces := SplitBy(title, IsDelimiter);
    var r := CleanSegments(title, friendly);
    CleanSegmentsSurvive(title, friendly);
    SplitByClean(title, IsDelimiter);
    forall i | 0 <= i < |r| ensures Segment(r[i]) {
      KeptIsSegment(pieces, r[i]);
    }
  }

  /** Every kept segment normalizes to something that is not the
      application. */
  lemma CleanSegmentsSurvive(title: string, friendly: string)
    ensures forall i :: 0 <= i < |CleanSegments(title, friendly)| ==>
              Survives(CleanSegments(title, friendly)[i], Normalize, AppMatcher(friendly), {})
  {
    CleanFromKept(Trims(SplitBy(title, IsDelimiter)), Normalize, AppMatcher(friendly), {});
  }

  /** No two kept segments normalize alike. */
  lemma CleanSegmentsDistinct(title: string, friendly: string)
    ensures DistinctNorms(CleanSegments(title, friendly), Normalize)
  {
    CleanFromDistinct(Trims(SplitBy(title, IsDelimiter)), Normalize, AppMatcher(friendly), {});
  }

  /** The kept segments appear in title order. */
  lemma CleanSegmentsInOrder(title: string, friendly: string)
    ensures Subsequence(CleanSegments(title, friendly), Trims(SplitBy(title, IsDelimiter)))
  {
    CleanFromInOrder(Trims(SplitBy(title, IsDelimiter)), Normalize, AppMatcher(friendly), {});
  }

  /** Every non-blank trimmed segment that is not the application is kept
      or repeats a kept one. */
  lemma CleanSegmentsComplete(title: string, friendly: string, k: nat)
    requires k < |Trims(SplitBy(title, IsDelimiter))|
    requires Survives(Trims(SplitBy(title, IsDelimiter))[k], Normalize, AppMatcher(friendly), {})
    ensures Represented(CleanSegments(title, friendly), Normalize, Normalize(Trims(SplitBy(title, IsDelimiter))[k]))
  {
    CleanFromComplete(Trims(SplitBy(title, IsDelimiter)), Normalize, AppMatcher(friendly), {}, k);
  }

  /** A non-blank trimmed piece free of delimiters is a segment. */
  lemma TrimmedSegment(p: string)
    requires Trim(p) != []
    requires forall j :: 0 <= j < |p| ==> !IsDelimiter(p[j])
    ensures Segment(Trim(p))
  {
    TrimKeepsAbsence(p, IsDelimiter);
  }

  /** A non-empty trimmed piece of a delimiter split is a segment. */
  lemma KeptIsSegment(pieces: seq<string>, s: string)
    requires s in Trims(pieces) && s != []
    requires forall i, j :: 0 <= i < |pieces| && 0 <= j < |pieces[i]| ==> !IsDelimiter(pieces[i][j])
    ensures Segment(s)
  {
    var j :| 0 <= j < |pieces| && s == Trim(pieces[j]);
    TrimmedSegment(pieces[j]);
  }

  /** `clean_title`: drops the segments that repeat the application name
      or an earlier segment, and joins the rest with " — ". */
  function CleanTitle(title: string, friendly: string): (r: string)
    ensures title == [] ==> r == []
    ensures r == Join(CleanSegments(title, friendly), SEGMENT_SEPARATOR)
  {
    if title == [] then [] else Join(CleanSegments(title, friendly), SEGMENT_SEPARATOR)
  }

  /** Segments joined with " — " split and trim back to themselves. */
  lemma {:induction false} SplitJoined(segs: seq<string>, pre: string)
    requires segs != [] && forall i :: 0 <= i < |segs| ==> Segment(segs[i])
    requires pre == [] || pre == " "
    ensures Trims(SplitBy(pre + Join(segs, SEGMENT_SEPARATOR), IsDelimiter)) == segs
  {
    if |segs| == 1 {
      SplitJoinedOne(segs[0], pre);
      assert segs == [segs[0]];
    } else {
      SplitJoined(segs[1..], " ");
      SplitJoinedCons(segs[0], segs[1..], pre);
      assert segs == [segs[0]] + segs[1..];
    }
  }

  lemma SplitJoinedOne(s0: string, pre: string)
    requires Segment(s0) && (pre == [] || pre == " ")
    ensures Trims(SplitBy(pre + Join([s0], SEGMENT_SEPARATOR), IsDelimiter)) == [s0]
  {
    assert AllWhitespace(pre) && AllWhitespace([]);
    assert pre + Join([s0], SEGMENT_SEPARATOR) == pre + s0 + [];
    SplitNone(pre + s0, IsDelimiter);
    TrimAround(pre, s0, []);
  }

  lemma SeparatorShape(pre: string, s0: string, j: string)
    ensures pre + (s0 + SEGMENT_SEPARATOR + j) == (pre + s0 + " ") + ['—'] + (" " + j)
  {
    assert SEGMENT_SEPARATOR == " " + ['—'] + " ";
  }

  /** A segment padded with spaces is still one piece. */
  lemma PaddedSegmentWhole(pre: string, s0: string)
    requires Segment(s0) && (pre == [] || pre == " ")
    ensures SplitBy(pre + s0 + " ", IsDelimiter) == [pre + s0 + " "]
  {
    var x := pre + s0 + " ";
    forall k | 0 <= k < |x| ensures !IsDelimiter(x[k]) {
      if k < |pre| {
        assert x[k] == ' ';
      } else if k < |pre| + |s0| {
        assert x[k] == s0[k - |pre|];
      } else {
        assert x[k] == ' ';
      }
    }
    SplitNone(x, IsDelimiter);
  }

  lemma SplitJoinedCons(s0: string, tail: seq<string>, pre: string)
    requires Segment(s0) && tail != [] && (pre == [] || pre == " ")
    requires Trims(SplitBy(" " + Join(tail, SEGMENT_SEPARATOR), IsDelimiter)) == tail
    ensures Trims(SplitBy(pre + Join([s0] + tail, SEGMENT_SEPARATOR), IsDelimiter)) == [s0] + tail
  {
    var x := pre + s0 + " ";
    var y := " " + Join(tail, SEGMENT_SEPARATOR);
    var j := Join(tail, SEGMENT_SEPARATOR);
    assert Join([s0] + tail, SEGMENT_SEPARATOR) == s0 + SEGMENT_SEPARATOR + j by {
      assert ([s0] + tail)[0] == s0 && ([s0] + tail)[1..] == tail;
    }
    SeparatorShape(pre, s0, j);
    assert SplitBy(x + ['—'] + y, IsDelimiter) == [x] + SplitBy(y, IsDelimiter) by {
      SplitAt(x, '—', y, IsDelimiter);
      PaddedSegmentWhole(pre, s0);
    }
    assert Trim(x) == s0 by {
      assert AllWhitespace(pre) && AllWhitespace(" ");
      TrimAround(pre, s0, " ");
    }
    var rest := SplitBy(y, IsDelimiter);
    assert ([x] + rest)[0] == x && ([x] + rest)[1..] == rest;
  }

  /** Segments that all survive the filter come through unchanged. */
  lemma {:induction false} CleanFromKeepsAll(segs: seq<string>, norm: string -> string, isApp: string -> bool, seen: set<string>)
    requires forall i :: 0 <= i < |segs| ==> Survives(segs[i], norm, isApp, seen)
    requires DistinctNorms(segs, norm)
    ensures CleanFrom(segs, norm, isApp, seen) == segs
  {
    if segs != [] {
      var n := norm(segs[0]);
      var tail := segs[1..];
      forall i | 0 <= i < |tail| ensures Survives(tail[i], norm, isApp, seen + {n}) {
        assert tail[i] == segs[i + 1];
      }
      assert DistinctNorms(tail, norm) by {
        forall i, j | 0 <= i < j < |tail| ensures norm(tail[i]) != norm(tail[j]) {
          assert tail[i] == segs[i + 1] && tail[j] == segs[j + 1];
        }
      }
      CleanFromKeepsAll(tail, norm, isApp, seen + {n});
      assert segs == [segs[0]] + tail;
    }
  }

  /** Joining segments that `clean_title` would all keep and cleaning the
      result gives the joined string back. */
  lemma CleanJoinRoundTrip(segs: seq<string>, friendly: string)
    requires forall i :: 0 <= i < |segs| ==> Segment(segs[i])
    requires forall i :: 0 <= i < |segs| ==> Survives(segs[i], Normalize, AppMatcher(friendly), {})
    requires DistinctNorms(segs, Normalize)
    ensures CleanSegments(Join(segs, SEGMENT_SEPARATOR), friendly) == segs
    ensures CleanTitle(Join(segs, SEGMENT_SEPARATOR), friendly) == Join(segs, SEGMENT_SEPARATOR)
  {
    if segs == [] {
      assert Trims(SplitBy([], IsDelimiter)) == [[]];
    } else {
      SplitJoined(segs, []);
      assert [] + Join(segs, SEGMENT_SEPARATOR) == Join(segs, SEGMENT_SEPARATOR);
      CleanFromKeepsAll(segs, Normalize, AppMatcher(friendly), {});
    }
  }

  /** Cleaning a cleaned title changes nothing. */
  lemma CleanTitleIdempotent(title: string, friendly: string)
    ensures CleanTitle(CleanTitle(title, friendly), friendly) == CleanTitle(title, friendly)
  {
    CleanSegmentsAreSegments(title, friendly);
    CleanSegmentsSurvive(title, friendly);
    CleanSegmentsDistinct(title, friendly);
    CleanJoinRoundTrip(CleanSegments(title, friendly), friendly);
  }

  /** "Firefox — Some Page" for the application Firefox keeps only
      "Some Page": the segment spelling the application is dropped. */
  lemma AppSegmentDropped(app: string, page: string)
    requires Segment(app) && Segment(page)
    requires Normalize(app) != []
    requires Survives(page, Normalize, AppMatcher(app), {})
    ensures CleanTitle(app + SEGMENT_SEPARATOR + page, app) == page
  {
    TwoSegmentsSplit(app, page);
    NameMatchesItself(app);
    DropFirstKeepSecond(app, page, Normalize, AppMatcher(app));
  }

  /** Two segments joined with " — " split back into the two. */
  lemma TwoSegmentsSplit(a: string, b: string)
    requires Segment(a) && Segment(b)
    ensures Trims(SplitBy(a + SEGMENT_SEPARATOR + b, IsDelimiter)) == [a, b]
  {
    var segs := [a, b];
    assert Join(segs, SEGMENT_SEPARATOR) == a + SEGMENT_SEPARATOR + b;
    SplitJoined(segs, []);
    assert [] + Join(segs, SEGMENT_SEPARATOR) == Join(segs, SEGMENT_SEPARATOR);
  }

  /** The filter drops a first segment that does not survive and keeps a
      second one that does. */
  lemma DropFirstKeepSecond(a: string, b: string, norm: string -> string, isApp: string -> bool)
    requires a != [] && norm(a) != [] && isApp(norm(a))
    requires Survives(b, norm, isApp, {})
    ensures CleanFrom([a, b], norm, isApp, {}) == [b]
  {
    assert [a, b][1..] == [b];
  }

  // --------------------------------------------------- friendly_app_name

  const STOP_WORDS: seq<string> := ["desktop", "client", "app", "bin"]

  /** The app id with surrounding whitespace and leading '@', ':' and ' '
      removed. */
  function AppBase(appId: string): (r: string)
    ensures r == [] || !IsLeadJunk(r[0])
  {
    TrimStartBy(Trim(appId), IsLeadJunk)
  }

  /** A piece of the base worth naming the application by. */
  predicate Meaningful(t: string) {
    t != [] && Lower(t) !in STOP_WORDS
  }

  /** The strings of `xs` that `keep` accepts, in order. */
  function Filter(xs: seq<string>, keep: string -> bool): seq<string> {
    if xs == [] then []
    else if keep(xs[0]) then [xs[0]] + Filter(xs[1..], keep)
    else Filter(xs[1..], keep)
  }

  /** The filter keeps only accepted strings of its input. */
  lemma {:induction false} FilterSound(xs: seq<string>, keep: string -> bool)
    ensures forall i :: 0 <= i < |Filter(xs, keep)| ==> keep(Filter(xs, keep)[i]) && Filter(xs, keep)[i] in xs
  {
    if xs != [] {
      FilterSound(xs[1..], keep);
      var rest := Filter(xs[1..], keep);
      forall i | 0 <= i < |rest| ensures rest[i] in xs {
        assert rest[i] in xs[1..];
      }
    }
  }

  /** The filter keeps every accepted string of its input. */
  lemma {:induction false} FilterComplete(xs: seq<string>, keep: string -> bool)
    ensures forall t :: t in xs && keep(t) ==> t in Filter(xs, keep)
  {
    if xs != [] {
      FilterComplete(xs[1..], keep);
      assert forall t :: t in xs ==> t == xs[0] || t in xs[1..];
    }
  }

  lemma Assoc3(x: seq<string>, y: seq<string>, z: seq<string>)
    ensures x + (y + z) == x + y + z
  {
  }

  lemma {:induction false} FilterAppend(a: seq<string>, b: seq<string>, keep: string -> bool)
    ensures Filter(a + b, keep) == Filter(a, keep) + Filter(b, keep)
  {
    if a == [] {
      assert a + b == b;
    } else {
      assert (a + b)[0] == a[0] && (a + b)[1..] == a[1..] + b;
      FilterAppend(a[1..], b, keep);
      Assoc3(a[..1], Filter(a[1..], keep), Filter(b, keep));
    }
  }

  /** The pieces of the base that are neither empty nor stop words, in order. */
  function AppTokens(pieces: seq<string>): seq<string> {
    Filter(pieces, Meaningful)
  }

  /** The tokens are exactly the meaningful pieces: nothing else is kept
      and nothing meaningful is lost. */
  lemma AppTokensSpec(pieces: seq<string>)
    ensures forall i :: 0 <= i < |AppTokens(pieces)| ==>
              AppTokens(pieces)[i] != [] && Lower(AppTokens(pieces)[i]) !in STOP_WORDS && AppTokens(pieces)[i] in pieces
    ensures forall t :: t in pieces && t != [] && Lower(t) !in STOP_WORDS ==> t in AppTokens(pieces)
  {
    FilterSound(pieces, Meaningful);
    FilterComplete(pieces, Meaningful);
  }

  /** Title-casing a meaningful token free of separators keeps it so. */
  lemma TitlecasedToken(t: string)
    requires Meaningful(t) && forall k :: 0 <= k < |t| ==> !IsTokenSeparator(t[k])
    ensures Meaningful(Titlecase(t))
    ensures forall k :: 0 <= k < |Titlecase(t)| ==> !IsTokenSeparator(Titlecase(t)[k])
  {
    TitlecaseStable(t);
    forall k | 1 <= k < |t| ensures Titlecase(t)[k] == t[k] {
      assert Titlecase(t)[k] == Titlecase(t)[1..][k - 1];
    }
  }

  /** Every string the filter keeps from separator-free pieces is kept by
      the filter and free of separators. */
  lemma FilterKeepsClean(pieces: seq<string>, keep: string -> bool, p: char -> bool, i: nat)
    requires forall m, j :: 0 <= m < |pieces| && 0 <= j < |pieces[m]| ==> !p(pieces[m][j])
    requires i < |Filter(pieces, keep)|
    ensures var t := Filter(pieces, keep)[i]; keep(t) && forall k :: 0 <= k < |t| ==> !p(t[k])
  {
    FilterSound(pieces, keep);
    var t := Filter(pieces, keep)[i];
    var m :| 0 <= m < |pieces| && pieces[m] == t;
  }

  /** The friendly name `friendly_app_name` derives from an app id: ""
      for an empty base, else the last meaningful token title-cased, else
      the whole base title-cased. */
  function DeriveAppName(appId: string): (r: string)
    ensures appId == [] ==> r == []
    ensures r == [] <==> AppBase(appId) == []
    ensures AppBase(appId) != [] && AppTokens(SplitBy(AppBase(appId), IsTokenSeparator)) == [] ==>
              r == Titlecase(AppBase(appId))
    ensures AppTokens(SplitBy(AppBase(appId), IsTokenSeparator)) != [] ==>
              Meaningful(r) && forall k :: 0 <= k < |r| ==> !IsTokenSeparator(r[k])
  {
    NameFromBase(AppBase(appId))
  }

  /** The name derived from a base that is already trimmed. */
  function NameFromBase(base: string): (r: string)
    ensures r == [] <==> base == []
    ensures base != [] && AppTokens(SplitBy(base, IsTokenSeparator)) == [] ==> r == Titlecase(base)
    ensures AppTokens(SplitBy(base, IsTokenSeparator)) != [] ==>
              Meaningful(r) && forall k :: 0 <= k < |r| ==> !IsTokenSeparator(r[k])
  {
    if base == [] then
      NoTokensOfEmpty();
      []
    else
      LastTokenNamed(base);
      NameFromTokens(base, AppTokens(SplitBy(base, IsTokenSeparator)))
  }

  lemma NoTokensOfEmpty()
    ensures AppTokens(SplitBy([], IsTokenSeparator)) == []
  {
    assert SplitBy([], IsTokenSeparator) == [[]] && !Meaningful([]);
    assert Filter([[]], Meaningful) == Filter([[]][1..], Meaningful);
  }

  /** The last meaningful token names the application sensibly. */
  lemma LastTokenNamed(base: string)
    ensures var tokens := AppTokens(SplitBy(base, IsTokenSeparator));
            var r := NameFromTokens(base, tokens);
            tokens != [] ==> Meaningful(r) && forall k :: 0 <= k < |r| ==> !IsTokenSeparator(r[k])
  {
    var tokens := AppTokens(SplitBy(base, IsTokenSeparator));
    if tokens != [] {
      SplitByClean(base, IsTokenSeparator);
      FilterKeepsClean(SplitBy(base, IsTokenSeparator), Meaningful, IsTokenSeparator, |tokens| - 1);
      TitlecasedToken(tokens[|tokens| - 1]);
    }
  }

  /** The last meaningful token title-cased, or the whole base when there
      is none. */
  function NameFromTokens(base: string, tokens: seq<string>): string {
    if tokens == [] then Titlecase(base) else Titlecase(tokens[|tokens| - 1])
  }

  /** An id that is already trimmed and starts with no '@', ':' or ' '. */
  predicate CleanId(a: string) {
    a != [] && !IsWhitespace(a[0]) && !IsWhitespace(a[|a| - 1]) && !IsLeadJunk(a[0])
  }

  /** A clean id is its own base. */
  lemma AppBaseOfClean(a: string)
    requires CleanId(a)
    ensures AppBase(a) == a
    ensures DeriveAppName(a) == NameFromBase(a)
  {
    TrimAround([], a, []);
    assert [] + a + [] == a;
  }

  /** A clean id followed by a separator and a clean word is clean. */
  lemma SuffixedClean(a: string, sep: char, w: string)
    requires CleanId(a) && w != [] && !IsWhitespace(w[|w| - 1])
    ensures CleanId(a + [sep] + w)
  {
    var d := a + [sep] + w;
    assert d[0] == a[0] && d[|d| - 1] == w[|w| - 1];
  }

  /** A trailing stop word after a separator does not change the name. */
  lemma StopSuffixIgnored(a: string, sep: char, w: string)
    requires CleanId(a) && AppTokens(SplitBy(a, IsTokenSeparator)) != []
    requires IsTokenSeparator(sep) && w != [] && !IsWhitespace(w[|w| - 1]) && !Meaningful(w)
    requires forall k :: 0 <= k < |w| ==> !IsTokenSeparator(w[k])
    ensures DeriveAppName(a + [sep] + w) == DeriveAppName(a)
  {
    var d := a + [sep] + w;
    FilterDropsSuffix(a, sep, w, IsTokenSeparator, Meaningful);
    SuffixedClean(a, sep, w);
    SameTokensSameName(d, a);
    AppBaseOfClean(d);
    AppBaseOfClean(a);
  }

  /** Two bases with the same meaningful tokens, at least one, name the
      application alike. */
  lemma SameTokensSameName(x: string, y: string)
    requires x != [] && y != []
    requires AppTokens(SplitBy(x, IsTokenSeparator)) == AppTokens(SplitBy(y, IsTokenSeparator)) != []
    ensures NameFromBase(x) == NameFromBase(y)
  {
  }

  /** Filtering the pieces of `a + [d] + w` split at `d` gives those of
      `a` when `w` is one piece that the filter drops. */
  lemma FilterDropsSuffix(a: string, d: char, w: string, p: char -> bool, keep: string -> bool)
    requires p(d) && !keep(w)
    requires forall k :: 0 <= k < |w| ==> !p(w[k])
    ensures Filter(SplitBy(a + [d] + w, p), keep) == Filter(SplitBy(a, p), keep)
  {
    var pa := SplitBy(a, p);
    SplitAt(a, d, w, p);
    SplitNone(w, p);
    FilterAppend(pa, [w], keep);
    assert Filter([w], keep) == [];
    assert Filter(pa, keep) + [] == Filter(pa, keep);
  }

  /** A trailing ".desktop" is a stop word and does not change the name. */
  lemma DesktopSuffixIgnored(a: string)
    requires CleanId(a) && AppTokens(SplitBy(a, IsTokenSeparator)) != []
    ensures DeriveAppName(a + ['.'] + "desktop") == DeriveAppName(a)
  {
    DesktopStopWord();
    StopSuffixIgnored(a, '.', "desktop");
  }

  /** "desktop" is one stop word, and '.' separates tokens. */
  lemma DesktopStopWord()
    ensures IsTokenSeparator('.') && !Meaningful("desktop") && !IsWhitespace('p')
    ensures forall k :: 0 <= k < |"desktop"| ==> !IsTokenSeparator("desktop"[k])
  {
    assert Lower("desktop") == "desktop";
  }

  /** Every cached name is the derived one. */
  ghost predicate CacheSound(cache: map<string, string>) {
    forall k :: k in cache ==> cache[k] == DeriveAppName(k)
  }

  /** `friendly_app_name` with its per-id cache: an empty id bypasses the
      cache; a cached id is answered from the cache; otherwise the name is
      derived and stored. */
  function FriendlyAppName(cache: map<string, string>, appId: string): (r: (string, map<string, string>))
    ensures appId == [] ==> r == ([], cache)
    ensures appId != [] ==> appId in r.1 && r.1[appId] == r.0
    ensures forall k :: k in cache ==> k in r.1 && r.1[k] == cache[k]
    ensures forall k :: k in r.1 ==> k in cache || k == appId
  {
    if appId == [] then ([], cache)
    else if appId in cache then (cache[appId], cache)
    else
      var name := DeriveAppName(appId);
      (name, cache[appId := name])
  }

  /** A cache that holds only derived names answers with the derived name
      and stays that way. */
  lemma FriendlyAppNameSound(cache: map<string, string>, appId: string)
    ensures CacheSound(cache) ==> FriendlyAppName(cache, appId).0 == DeriveAppName(appId)
    ensures CacheSound(cache) ==> CacheSound(FriendlyAppName(cache, appId).1)
  {
  }

  /** Asking twice answers the same and leaves the cache as the first
      answer left it. */
  lemma FriendlyAppNameMemoized(cache: map<string, string>, appId: string)
    ensures FriendlyAppName(FriendlyAppName(cache, appId).1, appId) == FriendlyAppName(cache, appId)
  {
  }

  // --------------------------------------------------------- render_title

  /** `WindowTitleSnapshot`: the focused window, and the output it is on
      when the compositor reports one. */
  datatype Snapshot = Snapshot(title: string, appId: string, output: Option<string>)

  /** The `display` placeholder: the cleaned title, prefixed by the
      application's name when the fallback is on and the title does not
      already start with it, or the name alone when nothing is left. */
  function DisplayText(content: string, friendly: string, fallback: bool): (d: string)
    ensures !fallback ==> d == content
    ensures fallback && content == [] ==> d == friendly
    ensures fallback ==> StartsWith(d, friendly)
    ensures fallback && StartsWith(content, friendly) && content != [] ==> d == content
    ensures fallback && content != [] && !StartsWith(content, friendly) ==> d == friendly + SEGMENT_SEPARATOR + content
    ensures d == [] ==> content == []
  {
    if content == [] && fallback then friendly
    else if fallback && friendly != [] && !StartsWith(content, friendly) then friendly + SEGMENT_SEPARATOR + content
    else content
  }

  /** `str::replace`: every non-overlapping occurrence, left to right. */
  function Replace(s: string, pat: string, val: string): (r: string)
    requires pat != []
    ensures !Contains(s, pat) ==> r == s
    ensures s == pat ==> r == val
    decreases |s|
  {
    if s == [] then []
    else if StartsWith(s, pat) then
      assert s == pat ==> s[|pat|..] == [];
      val + Replace(s[|pat|..], pat, val)
    else [s[0]] + Replace(s[1..], pat, val)
  }

  /** A placeholder starts with '{', so a string without one contains none. */
  lemma {:induction false} NoBraceNoPlaceholder(s: string, pat: string)
    requires pat != [] && pat[0] == '{' && '{' !in s
    ensures !Contains(s, pat)
    decreases |s|
  {
    if s != [] {
      assert s[0] != '{';
      assert !StartsWith(s, pat);
      NoBraceNoPlaceholder(s[1..], pat);
    }
  }

  function Placeholder(key: string): string { "{" + key + "}" }

  /** A placeholder name holds no braces. */
  predicate NoBraces(k: string) { '{' !in k && '}' !in k }

  /** The placeholder names in the order `render_title` replaces them. */
  const PLACEHOLDER_KEYS: seq<string> := ["title", "app_id", "appid", "app", "friendly_app", "content", "display"]

  /** The values for `PLACEHOLDER_KEYS`, in the same order. */
  function PlaceholderValues(title: string, appId: string, friendly: string, content: string, display: string): (v: seq<string>)
    ensures |v| == |PLACEHOLDER_KEYS|
  {
    [title, appId, appId, friendly, friendly, content, display]
  }

  /** One `replace` per placeholder, each on the result of the previous. */
  function Substitute(s: string, keys: seq<string>, vals: seq<string>): string
    requires |keys| == |vals|
    decreases |keys|
  {
    if keys == [] then s
    else Substitute(Replace(s, Placeholder(keys[0]), vals[0]), keys[1..], vals[1..])
  }

  /** The template after substitution, before trimming. */
  function TemplateText(c: WindowTitleConfig, friendly: string, snap: Snapshot): string {
    var title := Trim(snap.title);
    var content := CleanTitle(title, friendly);
    var display := DisplayText(content, friendly, c.showAppFallback);
    Substitute(c.template, PLACEHOLDER_KEYS, PlaceholderValues(title, snap.appId, friendly, content, display))
  }

  /** `render_title`: the template expanded for the snapshot, then the
      fallbacks of `FinishLabel`. */
  function RenderTitle(c: WindowTitleConfig, friendly: string, snap: Snapshot): string {
    FinishLabel(c, friendly, snap.title, TemplateText(c, friendly, snap))
  }

  /** The end of `render_title`: the trimmed expansion when it is not
      blank; otherwise the application's name (when the fallback is on and
      the name is known), the trimmed title, or the empty text; upper-cased
      last. */
  function FinishLabel(c: WindowTitleConfig, friendly: string, title: string, expanded: string): (r: string)
    ensures !c.uppercase && Trim(expanded) != [] ==> r == Trim(expanded)
    ensures !c.uppercase && Trim(expanded) == [] ==>
              r == (if c.showAppFallback && friendly != [] then friendly
                    else if Trim(title) != [] then Trim(title)
                    else c.emptyText)
    ensures r == [] ==> c.emptyText == []
  {
    var result := Trim(expanded);
    var text :=
      if result != [] then result
      else if c.showAppFallback && friendly != [] then friendly
      else if Trim(title) != [] then Trim(title)
      else c.emptyText;
    if c.uppercase then Upper(text) else text
  }

  /** The uppercase option applies after every other rule. */
  lemma UppercaseAppliesLast(c: WindowTitleConfig, friendly: string, title: string, expanded: string)
    requires c.uppercase
    ensures FinishLabel(c, friendly, title, expanded) == Upper(FinishLabel(c.(uppercase := false), friendly, title, expanded))
  {
  }

  /** Two different placeholder names never contain one another. */
  lemma PlaceholderDistinct(a: string, b: string)
    requires a != b && NoBraces(a) && '}' !in b
    ensures !Contains(Placeholder(a), Placeholder(b))
  {
    var s := Placeholder(a);
    var p := Placeholder(b);
    if |b| < |a| {
      assert s[|b| + 1] == a[|b|] != p[|b| + 1];
    } else if |b| == |a| {
      var k :| 0 <= k < |a| && a[k] != b[k];
      assert s[k + 1] == a[k] && p[k + 1] == b[k];
    }
    assert !StartsWith(s, p);
    assert s[1..] == a + "}";
    NoBraceNoPlaceholder(a + "}", p);
  }

  /** A placeholder that does not name `key` is left alone by its replace. */
  lemma ReplaceOtherPlaceholder(a: string, key: string, v: string)
    requires a != key && NoBraces(a) && '}' !in key
    ensures Replace(Placeholder(a), Placeholder(key), v) == Placeholder(a)
  {
    PlaceholderDistinct(a, key);
  }

  /** Text without '{' holds no placeholder, so substitution keeps it. */
  lemma {:induction false} SubstituteNoBrace(s: string, keys: seq<string>, vals: seq<string>)
    requires |keys| == |vals| && '{' !in s
    ensures Substitute(s, keys, vals) == s
    decreases |keys|
  {
    if keys != [] {
      NoBraceNoPlaceholder(s, Placeholder(keys[0]));
      SubstituteNoBrace(s, keys[1..], vals[1..]);
    }
  }

  /** The placeholder `{a}` becomes the value of the first key naming `a`;
      that value is then left alone when it is the last one or holds no
      '{'. */
  lemma {:induction false} FirstMatchShowsValue(a: string, keys: seq<string>, vals: seq<string>, j: nat)
    requires |keys| == |vals| && j < |keys| && keys[j] == a && NoBraces(a)
    requires forall i :: 0 <= i < j ==> keys[i] != a && '}' !in keys[i]
    requires j == |keys| - 1 || '{' !in vals[j]
    ensures Substitute(Placeholder(a), keys, vals) == vals[j]
    decreases j
  {
    if j == 0 {
      var r := Replace(Placeholder(a), Placeholder(a), vals[0]);
      assert r == vals[0];
      if |keys| == 1 {
        assert Substitute(r, keys[1..], vals[1..]) == r;
      } else {
        SubstituteNoBrace(r, keys[1..], vals[1..]);
      }
    } else {
      ReplaceOtherPlaceholder(a, keys[0], vals[0]);
      FirstMatchShowsValue(a, keys[1..], vals[1..], j - 1);
    }
  }

  /** The placeholder names are brace-free and pairwise different. */
  lemma PlaceholderKeysDistinct()
    ensures forall i :: 0 <= i < |PLACEHOLDER_KEYS| ==> NoBraces(PLACEHOLDER_KEYS[i])
    ensures forall i, j :: 0 <= i < j < |PLACEHOLDER_KEYS| ==> PLACEHOLDER_KEYS[i] != PLACEHOLDER_KEYS[j]
  {
  }

  /** With the default template the label shows the display text. */
  lemma DefaultTemplateShowsDisplay(friendly: string, snap: Snapshot)
    ensures TemplateText(DEFAULT_CONFIG, friendly, snap)
         == DisplayText(CleanTitle(Trim(snap.title), friendly), friendly, true)
  {
    var title := Trim(snap.title);
    var content := CleanTitle(title, friendly);
    var display := DisplayText(content, friendly, true);
    PlaceholderKeysDistinct();
    assert PLACEHOLDER_KEYS[6] == "display";
    FirstMatchShowsValue(PLACEHOLDER_KEYS[6], PLACEHOLDER_KEYS,
                         PlaceholderValues(title, snap.appId, friendly, content, display), 6);
  }

  /** Values are substituted one after the other, so a window title that
      itself spells a later placeholder is expanded again: with the
      template "{title}" a window titled "{app}" shows the application's
      name. */
  lemma TitlePlaceholderExpanded(c: WindowTitleConfig, friendly: string, snap: Snapshot)
    requires c.template == Placeholder(PLACEHOLDER_KEYS[0]) && snap.title == Placeholder(PLACEHOLDER_KEYS[3])
    requires '{' !in friendly
    ensures TemplateText(c, friendly, snap) == friendly
  {
    var t := snap.title;
    PlaceholderTrimmed(PLACEHOLDER_KEYS[3]);
    var content := CleanTitle(t, friendly);
    var display := DisplayText(content, friendly, c.showAppFallback);
    var vals := PlaceholderValues(t, snap.appId, friendly, content, display);
    SubstituteOwnPlaceholder(PLACEHOLDER_KEYS, vals);
    AppPlaceholderAfterTitle(vals);
  }

  /** Past the title, "{app}" becomes the application's name and stays so
      when that name holds no '{'. */
  lemma AppPlaceholderAfterTitle(vals: seq<string>)
    requires |vals| == |PLACEHOLDER_KEYS| && '{' !in vals[3]
    ensures Substitute(Placeholder(PLACEHOLDER_KEYS[3]), PLACEHOLDER_KEYS[1..], vals[1..]) == vals[3]
  {
    PlaceholderKeysDistinct();
    FirstMatchShowsValue(PLACEHOLDER_KEYS[3], PLACEHOLDER_KEYS[1..], vals[1..], 2);
  }

  /** A placeholder has no surrounding whitespace. */
  lemma PlaceholderTrimmed(k: string)
    ensures Trim(Placeholder(k)) == Placeholder(k)
  {
    var t := Placeholder(k);
    assert t[0] == '{' && t[|t| - 1] == '}';
    TrimAround([], t, []);
    assert [] + t + [] == t;
  }

  /** The first key's own placeholder is replaced by the first value
      before the remaining keys are substituted. */
  lemma SubstituteOwnPlaceholder(keys: seq<string>, vals: seq<string>)
    requires |keys| == |vals| && keys != []
    ensures Substitute(Placeholder(keys[0]), keys, vals) == Substitute(vals[0], keys[1..], vals[1..])
  {
  }

  // ------------------------------------------------------------- updates

  /** The output filter of `WindowTitleWidget::new`: a widget bound to an
      output ignores windows reported on another output. */
  predicate ShouldUpdate(target: Option<string>, snap: Snapshot) {
    target.None? || snap.output.None? || snap.output.value == target.value
  }

  /** The label and name cache after one service update. */
  function OnSnapshot(c: WindowTitleConfig, shown: string, cache: map<string, string>,
                      target: Option<string>, snap: Snapshot): (r: (string, map<string, string>))
    ensures !ShouldUpdate(target, snap) ==> r == (shown, cache)
    ensures ShouldUpdate(target, snap) && CacheSound(cache) ==>
              r.0 == RenderTitle(c, DeriveAppName(snap.appId), snap) && CacheSound(r.1)
    ensures (exists o :: target == Some(o) && snap.output.Some? && snap.output.value != o) ==> r.0 == shown
  {
    if !ShouldUpdate(target, snap) then (shown, cache)
    else
      FriendlyAppNameSound(cache, snap.appId);
      var (friendly, cache') := FriendlyAppName(cache, snap.appId);
      (RenderTitle(c, friendly, snap), cache')
  }
}
