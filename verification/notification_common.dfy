/** Notification body sanitising and the constants shared by the toast and
    popover widgets (crates/vibepanel/src/widgets/notification_common.rs).

    `sanitize_body_markup` turns arbitrary notification text into Pango
    markup: known entities are kept, stray '&', '<' and '>' are escaped, the
    tags b, i, u and a pass (lower-cased), br becomes a space, img vanishes,
    and the emitted tags are kept balanced with a stack. The model produces
    the output as a list of pieces (text, opening tag, closing tag) whose
    concatenation is the string the source builds.

    Two variants of the loop are modelled. `AsWritten` is the source: the
    attributes of `<a ...>` are copied verbatim, and after a tag or entity
    the loop skips as many characters as the tag has UTF-8 bytes.
    `Intended` escapes the attributes like body text and skips exactly the
    tag's characters; the rest of the model uses it. */
module NotificationCommon {
  import opened Common

  const TOAST_TIMEOUT_MS: nat := 5000
  const TOAST_TIMEOUT_CRITICAL_MS: nat := 0
  const TOAST_ESTIMATED_HEIGHT: nat := 85
  const TOAST_GAP: nat := 4
  const TOAST_MARGIN_TOP: nat := 10
  const TOAST_MARGIN_RIGHT: nat := 10
  const POPOVER_WIDTH: nat := 400
  const POPOVER_ROW_HEIGHT: nat := 100
  const POPOVER_MAX_VISIBLE_ROWS: nat := 3
  const BODY_TRUNCATE_THRESHOLD: nat := 80

  // ------------------------------------------------------------ entities

  predicate AllHexDigits(s: string) {
    forall i :: 0 <= i < |s| ==> IsAsciiHexDigit(s[i])
  }

  /** The entity names the sanitiser keeps: the five XML ones, decimal
      `#digits` and hexadecimal `#xhex` character references. */
  predicate ValidEntityName(name: string) {
    || name == "amp" || name == "lt" || name == "gt" || name == "quot" || name == "apos"
    || (|name| > 1 && name[0] == '#'
        && (AllDigits(name[1..]) || (|name| > 2 && name[1] == 'x' && AllHexDigits(name[2..]))))
  }

  /** `e` is the entity `&name;` for a valid name of at most nine chars. */
  predicate IsEntity(e: string, name: string) {
    && e == "&" + name + ";"
    && ';' !in name
    && |name| <= 9
    && ValidEntityName(name)
  }

  /** `try_parse_entity`: '&', a valid name, and the first ';' of the text
      at most 10 characters in. A valid name is ASCII, so the source's byte
      offsets are character offsets here. */
  function ParseEntity(s: string): (r: Option<string>)
    ensures r.Some? ==> exists name :: IsEntity(r.value, name) && StartsWith(s, r.value)
  {
    if s == [] || s[0] != '&' then None
    else match FindChar(s, ';')
      case None => None
      case Some(end) =>
        if end > 10 then None
        else
          var name := s[1..end];
          if ValidEntityName(name) then
            assert IsEntity(s[..end + 1], name);
            Some(s[..end + 1])
          else None
  }

  /** The converse: text that starts with a valid entity yields exactly it,
      whatever follows. */
  lemma EntityRecognised(name: string, rest: string)
    requires ';' !in name && |name| <= 9 && ValidEntityName(name)
    ensures ParseEntity("&" + name + ";" + rest) == Some("&" + name + ";")
  {
    var s := "&" + name + ";" + rest;
    assert s[1..|name| + 1] == name;
    assert s[..|name| + 2] == "&" + name + ";";
    assert s[|name| + 1] == ';';
    assert ';' !in s[..|name| + 1] by {
      assert s[..|name| + 1] == "&" + name;
    }
  }

  /** Entity names consist of letters, digits and '#'. */
  lemma EntityNameChars(name: string)
    requires ValidEntityName(name)
    ensures '&' !in name && '<' !in name && '>' !in name && '/' !in name
  {
    if name[0] == '#' && |name| > 1 {
      forall i | 0 <= i < |name|
        ensures name[i] != '&' && name[i] != '<' && name[i] != '>' && name[i] != '/'
      {
        if i > 0 {
          if AllDigits(name[1..]) {
            assert IsAsciiDigit(name[1..][i - 1]);
          } else if i > 1 {
            assert IsAsciiHexDigit(name[2..][i - 2]);
          }
        }
      }
    }
  }

  /** A recognised entity stays recognised whatever text follows it. */
  lemma EntityExtends(x: string, y: string)
    requires ParseEntity(x).Some?
    ensures ParseEntity(x + y) == ParseEntity(x)
  {
    var i := FindChar(x, ';').value;
    var s := x + y;
    assert s[i] == ';';
    assert s[..i] == x[..i];
    assert s[1..i] == x[1..i];
    assert s[..i + 1] == x[..i + 1];
  }

  // ------------------------------------------------------------ escaping

  /** Every '&' of `t` begins an entity the sanitiser recognises. */
  predicate AmpSafe(t: string) {
    forall i :: 0 <= i < |t| && t[i] == '&' ==> ParseEntity(t[i..]).Some?
  }

  /** Text that Pango reads as characters only. */
  predicate TextSafe(t: string) { '<' !in t && '>' !in t && AmpSafe(t) }

  lemma AmpSafeConcat(a: string, b: string)
    requires AmpSafe(a) && AmpSafe(b)
    ensures AmpSafe(a + b)
  {
    forall i | 0 <= i < |a + b| && (a + b)[i] == '&'
      ensures ParseEntity((a + b)[i..]).Some?
    {
      if i < |a| {
        assert (a + b)[i..] == a[i..] + b;
        EntityExtends(a[i..], b);
      } else {
        assert (a + b)[i..] == b[i - |a|..];
      }
    }
  }

  lemma TextSafeConcat(a: string, b: string)
    requires TextSafe(a) && TextSafe(b)
    ensures TextSafe(a + b)
  {
    AmpSafeConcat(a, b);
  }

  /** Entities the parser returns are safe text on their own. */
  lemma EntitySafe(s: string)
    requires ParseEntity(s).Some?
    ensures TextSafe(ParseEntity(s).value)
  {
    var e := ParseEntity(s).value;
    var name :| IsEntity(e, name) && StartsWith(s, e);
    EntityNameChars(name);
    EntityRecognised(name, "");
    assert e + "" == e;
    assert e[0..] == e;
  }

  /** `&name;` for a valid name is safe text. */
  lemma NamedEntitySafe(name: string)
    requires ';' !in name && |name| <= 9 && ValidEntityName(name)
    ensures TextSafe("&" + name + ";")
  {
    EntityRecognised(name, "");
    assert "&" + name + ";" + "" == "&" + name + ";";
    EntitySafe("&" + name + ";");
  }

  /** The escapes the sanitiser writes for stray markup characters. */
  lemma EscapesSafe()
    ensures TextSafe("&amp;") && TextSafe("&lt;") && TextSafe("&gt;")
  {
    AmpEscapeSafe();
    LtEscapeSafe();
    GtEscapeSafe();
  }

  lemma AmpEscapeSafe() ensures TextSafe("&amp;") {
    NamedEntitySafe("amp");
    assert "&" + "amp" + ";" == "&amp;";
  }

  lemma LtEscapeSafe() ensures TextSafe("&lt;") {
    NamedEntitySafe("lt");
    assert "&" + "lt" + ";" == "&lt;";
  }

  lemma GtEscapeSafe() ensures TextSafe("&gt;") {
    NamedEntitySafe("gt");
    assert "&" + "gt" + ";" == "&gt;";
  }

  predicate IsMarkupChar(c: char) { c == '&' || c == '<' || c == '>' }

  /** The replacement the sanitiser writes for the character at the head of
      `s` when it is not the start of a tag, and the characters consumed:
      a known entity is kept, a stray '&', '<' or '>' is escaped, anything
      else is copied. */
  function EscapeHead(s: string): (r: (string, nat))
    requires s != []
    ensures 1 <= r.1 <= |s|
    ensures TextSafe(r.0)
    ensures !IsMarkupChar(s[0]) ==> r == ([s[0]], 1)
  {
    EscapesSafe();
    if s[0] == '&' then
      match ParseEntity(s)
      case Some(e) => EntitySafe(s); (e, |e|)
      case None => ("&amp;", 1)
    else if s[0] == '<' then ("&lt;", 1)
    else if s[0] == '>' then ("&gt;", 1)
    else ([s[0]], 1)
  }

  predicate NoMarkup(s: string) { forall i :: 0 <= i < |s| ==> !IsMarkupChar(s[i]) }

  /** Attribute text escaped the way body text is. */
  function EscapeText(s: string): (r: string)
    ensures TextSafe(r)
    ensures NoMarkup(s) ==> r == s
    decreases |s|
  {
    if s == [] then []
    else
      var (head, n) := EscapeHead(s);
      var r := head + EscapeText(s[n..]);
      TextSafeConcat(head, EscapeText(s[n..]));
      assert NoMarkup(s) ==> NoMarkup(s[1..]) && s == [s[0]] + s[1..];
      r
  }

  // ---------------------------------------------------------------- tags

  datatype Balance = Open(tag: string) | Close(tag: string) | NoBalance

  /** Which loop: the source's, or the one with the two defects repaired. */
  datatype Variant = AsWritten | Intended

  /** Length of the leading run of ASCII letters. */
  function AlphaPrefix(s: string): (n: nat)
    ensures n <= |s|
    ensures forall i :: 0 <= i < n ==> IsAsciiAlpha(s[i])
    ensures n < |s| ==> !IsAsciiAlpha(s[n])
  {
    if s == [] || !IsAsciiAlpha(s[0]) then 0 else 1 + AlphaPrefix(s[1..])
  }

  /** The tags whose opening and closing forms pass through. */
  predicate Paired(tag: string) { tag == "b" || tag == "i" || tag == "u" || tag == "a" }

  /** A tag as scanned: closing or not, the lower-cased name, whatever
      follows the name, and the characters the tag spans. */
  datatype TagScan = TagScan(closing: bool, name: string, attrs: string, len: nat)

  /** The text between '<' and '>': an optional '/', white space trimmed,
      then a name made of letters and whatever follows it. */
  predicate IsClosing(content: string) { |content| > 0 && content[0] == '/' }

  /** What a tag holds after its optional `/`, trimmed. */
  function TagBody(content: string): string
  {
    if IsClosing(content) then Trim(content[1..]) else Trim(content)
  }

  function ScanContent(content: string): (bool, string, string)
  {
    var rest := TagBody(content);
    var nameEnd := AlphaPrefix(rest);
    (IsClosing(content), Lower(rest[..nameEnd]), rest[nameEnd..])
  }

  /** The scanning half of `try_parse_tag`: everything up to the first
      '>'. */
  function ScanTag(s: string): (r: Option<TagScan>)
    ensures r.None? <==> s == [] || s[0] != '<' || '>' !in s
    ensures r.Some? ==> 1 <= r.value.len <= |s| && s[r.value.len - 1] == '>' && '>' !in s[..r.value.len - 1]
  {
    if s == [] || s[0] != '<' then None
    else match FindChar(s, '>')
      case None => None
      case Some(end) =>
        var (closing, name, attrs) := ScanContent(s[1..end]);
        Some(TagScan(closing, name, attrs, end + 1))
  }

  /** The tag names `try_parse_tag` accepts. */
  predicate KnownTag(name: string) { Paired(name) || name == "br" || name == "img" }

  /** What a parsed tag may write: the allowed tags in lower case, `<a`
      with whatever follows, a space for br, nothing for img. */
  predicate TagShape(out: string, balance: Balance) {
    match balance
    case Open(t) =>
      Paired(t) && (t != "a" ==> out == "<" + t + ">")
      && (t == "a" ==> |out| >= 3 && out[..2] == "<a" && out[|out| - 1] == '>')
    case Close(t) => Paired(t) && out == "</" + t + ">"
    case NoBalance => out == " " || out == ""
  }

  /** The deciding half of `try_parse_tag`: b, i and u pass lower-cased;
      `</a>` closes; `<a` keeps what follows its name (verbatim as written,
      escaped in the repaired variant); br becomes a space; img vanishes;
      any other name is not a tag. */
  function ClassifyTag(v: Variant, t: TagScan): (r: Option<(string, Balance)>)
    ensures r.Some? <==> KnownTag(t.name)
    ensures r.Some? ==> TagShape(r.value.0, r.value.1)
    ensures r.Some? && Paired(t.name) ==> r.value.1 == if t.closing then Close(t.name) else Open(t.name)
    ensures r.Some? && r.value.1 == Open("a") && v.AsWritten? ==> r.value.0 == "<a" + t.attrs + ">"
    ensures r.Some? && r.value.1 == Open("a") && v.Intended? ==> TextSafe(r.value.0[2..|r.value.0| - 1])
  {
    if t.name == "b" || t.name == "i" || t.name == "u" then
      Some((if t.closing then "</" + t.name + ">" else "<" + t.name + ">",
            if t.closing then Close(t.name) else Open(t.name)))
    else if t.name == "a" then
      if t.closing then Some(("</a>", Close("a")))
      else
        var attrs := if v.AsWritten? then t.attrs else EscapeText(t.attrs);
        var out := "<a" + attrs + ">";
        assert out[2..|out| - 1] == attrs;
        Some((out, Open("a")))
    else if t.name == "br" then Some((" ", NoBalance))
    else if t.name == "img" then Some(("", NoBalance))
    else None
  }

  /** `try_parse_tag`: the replacement text, the number of characters the
      tag spans and the tag's effect on the stack. */
  function ParseTag(v: Variant, s: string): (r: Option<(string, nat, Balance)>)
    ensures r.Some? <==> ScanTag(s).Some? && KnownTag(ScanTag(s).value.name)
    ensures r.Some? ==> r.value.1 == ScanTag(s).value.len && TagShape(r.value.0, r.value.2)
    ensures r.Some? && Paired(ScanTag(s).value.name) ==>
      r.value.2 == if ScanTag(s).value.closing then Close(ScanTag(s).value.name) else Open(ScanTag(s).value.name)
    ensures r.Some? && r.value.2 == Open("a") && v.AsWritten? ==> r.value.0 == "<a" + ScanTag(s).value.attrs + ">"
    ensures r.Some? && r.value.2 == Open("a") && v.Intended? ==> TextSafe(r.value.0[2..|r.value.0| - 1])
  {
    match ScanTag(s)
    case None => None
    case Some(t) =>
      match ClassifyTag(v, t)
      case None => None
      case Some((out, balance)) => Some((out, t.len, balance))
  }

  // ------------------------------------------------------------ sanitiser

  datatype Piece = Text(text: string) | OpenTag(name: string, text: string) | CloseTag(name: string, text: string)

  function Render(pieces: seq<Piece>): (s: string)
  {
    if pieces == [] then [] else pieces[0].text + Render(pieces[1..])
  }

  lemma {:induction false} RenderConcat(a: seq<Piece>, b: seq<Piece>)
    ensures Render(a + b) == Render(a) + Render(b)
  {
    if a == [] {
      assert a + b == b;
    } else {
      assert (a + b)[1..] == a[1..] + b;
      RenderConcat(a[1..], b);
      var x, y, z := a[0].text, Render(a[1..]), Render(b);
      assert Render(a + b) == x + (y + z);
      assert x + (y + z) == (x + y) + z;
    }
  }

  function CloseTagFor(tag: string): Piece { CloseTag(tag, "</" + tag + ">") }

  /** Closing tags for `stack[from..]`, innermost first. */
  function CloseFrom(stack: seq<string>, from: nat): (pieces: seq<Piece>)
    requires from <= |stack|
    ensures |pieces| == |stack| - from
    ensures forall k :: 0 <= k < |pieces| ==> pieces[k] == CloseTagFor(stack[|stack| - 1 - k])
    decreases |stack| - from
  {
    if from == |stack| then [] else [CloseTagFor(stack[|stack| - 1])] + CloseFrom(stack[..|stack| - 1], from)
  }

  /** Index of the last occurrence (`rposition`). */
  function LastIndexOf(stack: seq<string>, tag: string): (r: Option<nat>)
    ensures r.None? <==> tag !in stack
    ensures r.Some? ==> r.value < |stack| && stack[r.value] == tag && tag !in stack[r.value + 1..]
  {
    if stack == [] then None
    else if stack[|stack| - 1] == tag then Some(|stack| - 1)
    else
      var r := LastIndexOf(stack[..|stack| - 1], tag);
      assert r.Some? ==> stack[r.value + 1..] == stack[..|stack| - 1][r.value + 1..] + [stack[|stack| - 1]];
      r
  }

  /** A closing tag against the stack: the top closes directly; a tag open
      deeper first closes everything above it; a tag not open is dropped. */
  function CloseAgainst(stack: seq<string>, tag: string, text: string): (r: (seq<Piece>, seq<string>))
    ensures tag !in stack ==> r == ([], stack)
    ensures tag in stack ==> exists pos :: 0 <= pos < |stack| && stack[pos] == tag && tag !in stack[pos + 1..] && r.1 == stack[..pos]
  {
    match LastIndexOf(stack, tag)
    case None => ([], stack)
    case Some(pos) => (CloseFrom(stack, pos + 1) + [CloseTag(tag, text)], stack[..pos])
  }

  /** A non-ASCII character makes the byte length exceed the length in
      characters. */
  lemma {:induction false} ByteLenNonAscii(s: string, i: nat)
    requires i < |s| && s[i] as int >= 0x80
    ensures ByteLen(s) > |s|
  {
    if i > 0 {
      ByteLenNonAscii(s[1..], i - 1);
    }
  }

  /** Characters the loop moves past after a tag of `n` characters at the
      head of `s`: the source skips the tag's byte length in characters. */
  function Skip(v: Variant, s: string, n: nat): (k: nat)
    requires 1 <= n <= |s|
    ensures n <= k
  {
    if v.AsWritten? then ByteLen(s[..n]) else n
  }

  /** The rest of the text after skipping `k` characters; the char cursor
      simply ends when `k` runs past the end. */
  function Drop(s: string, k: nat): (r: string)
    ensures |r| == if k <= |s| then |s| - k else 0
  {
    if k <= |s| then s[k..] else []
  }

  /** The pieces a parsed tag writes and the stack after it. */
  function TagStep(stack: seq<string>, out: string, balance: Balance): (r: (seq<Piece>, seq<string>))
  {
    match balance
    case Open(tag) => ([OpenTag(tag, out)], stack + [tag])
    case Close(tag) => CloseAgainst(stack, tag, out)
    case NoBalance => ([Text(out)], stack)
  }

  /** One iteration of the sanitiser's loop on non-empty text: the pieces
      written, the text left and the new stack of open tags. */
  function Step(v: Variant, s: string, stack: seq<string>): (r: (seq<Piece>, string, seq<string>))
    requires s != []
    ensures |r.1| < |s|
  {
    match ParseTag(v, s)
    case Some((out, len, balance)) =>
      var (pieces, stack') := TagStep(stack, out, balance);
      (pieces, Drop(s, Skip(v, s, len)), stack')
    case None =>
      var (out, len) := EscapeHead(s);
      ([Text(out)], s[len..], stack)
  }

  /** The sanitiser's loop over the remaining text with the stack of open
      tags, followed by closing whatever is still open. */
  function Pieces(v: Variant, s: string, stack: seq<string>): (pieces: seq<Piece>)
    decreases |s|
  {
    if s == [] then CloseFrom(stack, 0)
    else
      var (out, rest, stack') := Step(v, s, stack);
      out + Pieces(v, rest, stack')
  }

  /** `sanitize_body_markup`. */
  function SanitizeBodyMarkupAsWritten(body: string): string {
    Render(Pieces(AsWritten, body, []))
  }

  /** The sanitiser with the two defects repaired. */
  function SanitizeBodyMarkup(body: string): string {
    Render(Pieces(Intended, body, []))
  }

  // ------------------------------------------------------------ balance

  /** Replays the tag pieces against a stack: an opening tag pushes, a
      closing tag must close the innermost open one. */
  function Replay(stack: seq<string>, pieces: seq<Piece>): (r: Option<seq<string>>)
    decreases |pieces|
  {
    if pieces == [] then Some(stack)
    else match pieces[0]
      case Text(_) => Replay(stack, pieces[1..])
      case OpenTag(name, _) => Replay(stack + [name], pieces[1..])
      case CloseTag(name, _) =>
        if stack != [] && stack[|stack| - 1] == name then Replay(stack[..|stack| - 1], pieces[1..]) else None
  }

  lemma {:induction false} ReplayConcat(stack: seq<string>, a: seq<Piece>, b: seq<Piece>)
    ensures Replay(stack, a + b) == match Replay(stack, a) case None => None case Some(st) => Replay(st, b)
    decreases |a|
  {
    if a == [] {
      assert a + b == b;
    } else {
      assert (a + b)[0] == a[0];
      assert (a + b)[1..] == a[1..] + b;
      match a[0]
      case Text(_) => ReplayConcat(stack, a[1..], b);
      case OpenTag(name, _) => ReplayConcat(stack + [name], a[1..], b);
      case CloseTag(name, _) =>
        if stack != [] && stack[|stack| - 1] == name {
          ReplayConcat(stack[..|stack| - 1], a[1..], b);
        }
    }
  }

  /** Closing `stack[from..]` innermost first pops exactly those tags. */
  lemma {:induction false} ReplayCloseFrom(stack: seq<string>, from: nat)
    requires from <= |stack|
    ensures Replay(stack, CloseFrom(stack, from)) == Some(stack[..from])
    decreases |stack| - from
  {
    if from < |stack| {
      var top := stack[..|stack| - 1];
      assert CloseFrom(stack, from) == [CloseTagFor(stack[|stack| - 1])] + CloseFrom(top, from);
      ReplayCloseFrom(top, from);
      assert top[..from] == stack[..from];
    } else {
      assert stack[..from] == stack;
    }
  }

  /** A tag's pieces take the stack to the new stack exactly. */
  lemma TagStepBalanced(stack: seq<string>, out: string, balance: Balance)
    ensures Replay(stack, TagStep(stack, out, balance).0) == Some(TagStep(stack, out, balance).1)
  {
    if balance.Close? {
      var tag := balance.tag;
      match LastIndexOf(stack, tag)
      case None =>
      case Some(pos) =>
        var closes := CloseFrom(stack, pos + 1);
        ReplayCloseFrom(stack, pos + 1);
        ReplayConcat(stack, closes, [CloseTag(tag, out)]);
        assert stack[..pos + 1][..pos] == stack[..pos];
    }
  }

  lemma StepBalanced(v: Variant, s: string, stack: seq<string>)
    requires s != []
    ensures Replay(stack, Step(v, s, stack).0) == Some(Step(v, s, stack).2)
  {
    match ParseTag(v, s)
    case Some((out, len, balance)) => TagStepBalanced(stack, out, balance);
    case None =>
  }

  /** The emitted tags are balanced in both variants: every closing tag
      closes the innermost open one, and everything opened (or already
      open) ends up closed. */
  lemma {:induction false} PiecesBalanced(v: Variant, s: string, stack: seq<string>)
    ensures Replay(stack, Pieces(v, s, stack)) == Some([])
    decreases |s|
  {
    if s == [] {
      ReplayCloseFrom(stack, 0);
    } else {
      var (out, rest, stack') := Step(v, s, stack);
      StepBalanced(v, s, stack);
      PiecesBalanced(v, rest, stack');
      ReplayConcat(stack, out, Pieces(v, rest, stack'));
    }
  }

  lemma SanitizedBalanced(v: Variant, body: string)
    ensures Replay([], Pieces(v, body, [])) == Some([])
  {
    PiecesBalanced(v, body, []);
  }

  // ------------------------------------------------------------ safety

  /** A piece Pango reads as intended: text without markup characters
      except entities, or one of the allowed tags with safe attributes. */
  predicate PieceSafe(p: Piece) {
    match p
    case Text(t) => TextSafe(t)
    case OpenTag(n, t) =>
      Paired(n)
      && (t == "<" + n + ">"
          || (n == "a" && |t| >= 3 && t[..2] == "<a" && t[|t| - 1] == '>' && TextSafe(t[2..|t| - 1])))
    case CloseTag(n, t) => Paired(n) && t == "</" + n + ">"
  }

  predicate AllSafe(pieces: seq<Piece>) { forall p :: p in pieces ==> PieceSafe(p) }

  predicate AllPaired(stack: seq<string>) { forall t :: t in stack ==> Paired(t) }

  lemma CloseFromSafe(stack: seq<string>, from: nat)
    requires from <= |stack| && AllPaired(stack)
    ensures AllSafe(CloseFrom(stack, from))
  {
    var ps := CloseFrom(stack, from);
    forall p | p in ps ensures PieceSafe(p) {
      var k :| 0 <= k < |ps| && ps[k] == p;
      assert stack[|stack| - 1 - k] in stack;
    }
  }

  /** The piece a tag would write is safe. */
  predicate TagPieceSafe(out: string, balance: Balance) {
    match balance
    case Open(t) => PieceSafe(OpenTag(t, out))
    case Close(t) => PieceSafe(CloseTag(t, out))
    case NoBalance => TextSafe(out)
  }

  lemma TagStepSafe(stack: seq<string>, out: string, balance: Balance)
    requires AllPaired(stack) && TagPieceSafe(out, balance)
    ensures AllSafe(TagStep(stack, out, balance).0) && AllPaired(TagStep(stack, out, balance).1)
  {
    if balance.Close? {
      match LastIndexOf(stack, balance.tag)
      case None =>
      case Some(pos) =>
        assert forall t :: t in stack[..pos] ==> t in stack;
        CloseFromSafe(stack, pos + 1);
    }
  }

  /** The repaired parser only writes safe tags. */
  lemma ParsedTagSafe(s: string)
    requires ParseTag(Intended, s).Some?
    ensures TagPieceSafe(ParseTag(Intended, s).value.0, ParseTag(Intended, s).value.2)
  {
    var (out, _, balance) := ParseTag(Intended, s).value;
    if balance.NoBalance? {
      assert TextSafe(" ") && TextSafe("");
    }
  }

  /** One iteration of the repaired loop writes safe pieces and keeps only
      allowed tags on the stack. */
  lemma StepSafe(s: string, stack: seq<string>)
    requires s != [] && AllPaired(stack)
    ensures AllSafe(Step(Intended, s, stack).0) && AllPaired(Step(Intended, s, stack).2)
  {
    match ParseTag(Intended, s)
    case Some((out, len, balance)) =>
      ParsedTagSafe(s);
      TagStepSafe(stack, out, balance);
    case None =>
  }

  /** In the repaired sanitiser every piece is safe, given a stack of
      allowed tags (the initial empty stack is one). */
  lemma {:induction false} IntendedPiecesSafe(s: string, stack: seq<string>)
    requires AllPaired(stack)
    ensures AllSafe(Pieces(Intended, s, stack))
    decreases |s|
  {
    if s == [] {
      CloseFromSafe(stack, 0);
    } else {
      var (out, rest, stack') := Step(Intended, s, stack);
      StepSafe(s, stack);
      IntendedPiecesSafe(rest, stack');
    }
  }

  /** A safe piece's own text has only entity ampersands. */
  lemma PieceAmpSafe(p: Piece)
    requires PieceSafe(p)
    ensures AmpSafe(p.text)
  {
    var t := p.text;
    match p
    case Text(_) =>
    case CloseTag(n, _) =>
      assert forall i :: 0 <= i < |t| ==> t[i] != '&';
    case OpenTag(n, _) =>
      if t == "<" + n + ">" {
        assert forall i :: 0 <= i < |t| ==> t[i] != '&';
      } else {
        var a := t[2..|t| - 1];
        assert t == "<a" + a + ">";
        assert AmpSafe("<a") && AmpSafe(">");
        AmpSafeConcat("<a", a);
        AmpSafeConcat("<a" + a, ">");
      }
  }

  /** Every '&' of the rendered pieces begins an entity. */
  lemma {:induction false} RenderAmpSafe(pieces: seq<Piece>)
    requires AllSafe(pieces)
    ensures AmpSafe(Render(pieces))
  {
    if pieces != [] {
      assert pieces[0] in pieces;
      assert AllSafe(pieces[1..]) by {
        forall p | p in pieces[1..] ensures PieceSafe(p) { assert p in pieces; }
      }
      RenderAmpSafe(pieces[1..]);
      PieceAmpSafe(pieces[0]);
      AmpSafeConcat(pieces[0].text, Render(pieces[1..]));
    }
  }

  /** The repaired output is valid markup as far as entities go: every '&'
      of it begins an entity Pango accepts. */
  lemma SanitizeBodyMarkupAmpSafe(body: string)
    ensures AmpSafe(SanitizeBodyMarkup(body))
  {
    IntendedPiecesSafe(body, []);
    RenderAmpSafe(Pieces(Intended, body, []));
  }

  // ------------------------------------------------------------ plain text

  /** Text without '&', '<' or '>' passes through, followed by the closing
      tags of whatever was open. */
  lemma {:induction false} PlainTextKept(v: Variant, s: string, stack: seq<string>)
    requires NoMarkup(s)
    ensures Render(Pieces(v, s, stack)) == s + Render(CloseFrom(stack, 0))
    decreases |s|
  {
    if s != [] {
      var head, tail := [Text([s[0]])], Pieces(v, s[1..], stack);
      var closing := Render(CloseFrom(stack, 0));
      PlainStep(v, s, stack);
      assert Pieces(v, s, stack) == head + tail;
      assert NoMarkup(s[1..]);
      PlainTextKept(v, s[1..], stack);
      RenderConcat(head, tail);
      assert Render(head) == [s[0]];
      Regroup([s[0]], s[1..], closing);
      assert [s[0]] + s[1..] == s;
    }
  }

  /** A character that is not markup is copied by one step of the loop. */
  lemma PlainStep(v: Variant, s: string, stack: seq<string>)
    requires s != [] && !IsMarkupChar(s[0])
    ensures Step(v, s, stack) == ([Text([s[0]])], s[1..], stack)
  {
    assert ParseTag(v, s).None?;
  }

  /** Both variants leave a body without markup characters unchanged. */
  lemma PlainBodyUnchanged(v: Variant, body: string)
    requires NoMarkup(body)
    ensures Render(Pieces(v, body, [])) == body
  {
    PlainTextKept(v, body, []);
  }

  // ------------------------------------------------------------ defects

  /** A closing tag that is not open writes nothing and keeps the stack. */
  lemma StrayCloseDropped(v: Variant, s: string, stack: seq<string>)
    requires s != [] && ParseTag(v, s).Some?
    requires ParseTag(v, s).value.2.Close? && ParseTag(v, s).value.2.tag !in stack
    ensures Step(v, s, stack).0 == [] && Step(v, s, stack).2 == stack
  {
  }

  /** As written, the loop resumes past the end of a tag whose text holds a
      non-ASCII character: the byte length it skips exceeds the tag's
      length in characters. */
  lemma AsWrittenSkipsPastTag(s: string, n: nat, i: nat)
    requires 1 <= n <= |s| && i < n && s[i] as int >= 0x80
    ensures Skip(AsWritten, s, n) > n
  {
    ByteLenNonAscii(s[..n], i);
  }

  /** Repaired, the loop resumes right after the tag's '>'. */
  lemma IntendedResumesAfterTag(s: string, stack: seq<string>)
    requires s != [] && ParseTag(Intended, s).Some?
    ensures Step(Intended, s, stack).1 == s[ParseTag(Intended, s).value.1..]
    ensures s[ParseTag(Intended, s).value.1 - 1] == '>'
  {
  }

  /** The first occurrence found by its defining properties. */
  lemma FindCharAt(s: string, c: char, i: nat)
    requires i < |s| && s[i] == c && c !in s[..i]
    ensures FindChar(s, c) == Some(i)
  {
  }

  lemma {:induction false} AlphaPrefixOf(name: string, attrs: string)
    requires forall i :: 0 <= i < |name| ==> IsAsciiAlpha(name[i])
    requires attrs == [] || !IsAsciiAlpha(attrs[0])
    ensures AlphaPrefix(name + attrs) == |name|
    decreases |name|
  {
    if name == [] {
      assert name + attrs == attrs;
    } else {
      assert (name + attrs)[1..] == name[1..] + attrs;
      AlphaPrefixOf(name[1..], attrs);
    }
  }

  lemma TrimUnchanged(s: string)
    requires s != [] && !IsWhitespace(s[0]) && !IsWhitespace(s[|s| - 1])
    ensures Trim(s) == s
  {
    assert TrimStartBy(s, IsWhitespace) == s;
  }

  /** A tag closed by the first '>' is scanned from the text between the
      brackets, whatever follows it. */
  lemma ScanTagAt(content: string, rest: string)
    requires '>' !in content
    ensures ScanTag("<" + content + ">" + rest)
      == Some(TagScan(IsClosing(content), ScanContent(content).1, ScanContent(content).2, |content| + 2))
  {
    var s := "<" + content + ">" + rest;
    var n := |content| + 1;
    assert s[..n] == "<" + content;
    assert s[n] == '>';
    FindCharAt(s, '>', n);
    assert s[1..n] == content;
  }

  lemma ScanOpeningContent(name: string, attrs: string)
    requires name != [] && forall i :: 0 <= i < |name| ==> IsAsciiAlpha(name[i])
    requires attrs == [] || !IsAsciiAlpha(attrs[0])
    requires !IsWhitespace((name + attrs)[|name + attrs| - 1])
    ensures ScanContent(name + attrs) == (false, Lower(name), attrs)
  {
    var content := name + attrs;
    assert content[0] == name[0];
    TrimUnchanged(content);
    AlphaPrefixOf(name, attrs);
    assert content[..|name|] == name && content[|name|..] == attrs;
  }

  /** How an opening tag `<name attrs>` is scanned, whatever follows it. */
  lemma ScanOpeningTag(name: string, attrs: string, rest: string)
    requires name != [] && forall i :: 0 <= i < |name| ==> IsAsciiAlpha(name[i])
    requires attrs == [] || !IsAsciiAlpha(attrs[0])
    requires '>' !in attrs
    requires attrs == [] || !IsWhitespace(attrs[|attrs| - 1])
    ensures ScanTag("<" + (name + attrs) + ">" + rest)
      == Some(TagScan(false, Lower(name), attrs, |name| + |attrs| + 2))
  {
    var content := name + attrs;
    assert '>' !in content by {
      forall i | 0 <= i < |content| ensures content[i] != '>' {
        if i >= |name| {
          assert content[i] == attrs[i - |name|];
        }
      }
    }
    assert content[|content| - 1] == if attrs == [] then name[|name| - 1] else attrs[|attrs| - 1];
    ScanOpeningContent(name, attrs);
    assert content[0] == name[0];
    assert !IsClosing(content);
    ScanTagAt(content, rest);
    var t := ScanTag("<" + content + ">" + rest);
    assert t.Some?;
    assert t.value.closing == false;
    assert t.value.name == Lower(name);
    assert t.value.attrs == attrs;
    assert t.value.len == |name| + |attrs| + 2;
    assert t.value == TagScan(false, Lower(name), attrs, |name| + |attrs| + 2);
    assert "<" + content + ">" + rest == "<" + (name + attrs) + ">" + rest;
  }

  lemma LowerPaired(name: string)
    requires Paired(name)
    ensures Lower(name) == name
  {
  }

  /** An opening `<b>`, `<i>` or `<u>` with any attributes parses to the
      bare tag in both variants. */
  lemma ParseOpeningTag(v: Variant, name: string, attrs: string, rest: string)
    requires Paired(name) && name != "a"
    requires attrs == [] || !IsAsciiAlpha(attrs[0])
    requires '>' !in attrs
    requires attrs == [] || !IsWhitespace(attrs[|attrs| - 1])
    ensures ParseTag(v, "<" + (name + attrs) + ">" + rest)
      == Some(("<" + name + ">", |name| + |attrs| + 2, Open(name)))
  {
    var s := "<" + (name + attrs) + ">" + rest;
    var t := TagScan(false, name, attrs, |name| + |attrs| + 2);
    ScanOpeningTag(name, attrs, rest);
    LowerPaired(name);
    assert ScanTag(s) == Some(t);
    ParsePairedOpen(v, s, t);
  }

  lemma ParsePairedOpen(v: Variant, s: string, t: TagScan)
    requires ScanTag(s) == Some(t) && !t.closing && Paired(t.name) && t.name != "a"
    ensures ParseTag(v, s) == Some(("<" + t.name + ">", t.len, Open(t.name)))
  {
    var r := ParseTag(v, s);
    assert r.value.2 == Open(t.name);
    assert r.value.0 == "<" + t.name + ">";
  }

  lemma CloseOne(name: string)
    ensures Render(CloseFrom([name], 0)) == "</" + name + ">"
  {
    assert CloseFrom([name], 0) == [CloseTagFor(name)];
    assert Render([CloseTagFor(name)]) == CloseTagFor(name).text + Render([]);
  }

  /** As written, an opening tag spanning a non-ASCII character makes the
      loop skip past the one character after it, which is lost. */
  lemma OpenTagThenCharAsWritten(s: string, name: string, n: nat, i: nat)
    requires ParseTag(AsWritten, s) == Some(("<" + name + ">", n, Open(name)))
    requires |s| == n + 1 && i < n && s[i] as int >= 0x80
    ensures SanitizeBodyMarkupAsWritten(s) == "<" + name + ">" + ("</" + name + ">")
  {
    RenderOpenStep(AsWritten, s, []);
    AsWrittenSkipsPastTag(s, n, i);
    assert Drop(s, Skip(AsWritten, s, n)) == [];
    assert [] + [name] == [name];
    CloseOne(name);
    assert Render(Pieces(AsWritten, [], [name])) == "</" + name + ">";
  }

  /** Repaired, plain text after an opening tag is kept. */
  lemma OpenTagThenTextIntended(s: string, name: string, n: nat)
    requires ParseTag(Intended, s) == Some(("<" + name + ">", n, Open(name)))
    requires n <= |s| && NoMarkup(s[n..])
    ensures SanitizeBodyMarkup(s) == "<" + name + ">" + s[n..] + ("</" + name + ">")
  {
    var text, close := s[n..], "</" + name + ">";
    RenderOpenStep(Intended, s, []);
    assert Drop(s, Skip(Intended, s, n)) == text;
    assert [] + [name] == [name];
    PlainTextKept(Intended, text, [name]);
    CloseOne(name);
    assert Render(Pieces(Intended, text, [name])) == text + close;
    Regroup("<" + name + ">", text, close);
  }

  lemma Regroup(a: string, b: string, c: string)
    ensures a + (b + c) == a + b + c
  {
  }

  /** An ampersand that does not begin an entity still does not once a
      '>' and any text follow it. */
  lemma EntityBlockedByGt(u: string, rest: string)
    requires ParseEntity(u).None?
    ensures ParseEntity(u + ">" + rest).None?
  {
    var s := u + ">" + rest;
    if u != [] && u[0] == '&' {
      match FindChar(s, ';')
      case None =>
      case Some(end) =>
        if end < |u| {
          assert s[..end] == u[..end];
          assert ';' !in u[..end];
          FindCharAt(u, ';', end);
          assert s[1..end] == u[1..end];
        } else if end <= 10 {
          var name := s[1..end];
          assert name[|u| - 1] == '>';
          if ValidEntityName(name) {
            EntityNameChars(name);
          }
        }
    }
  }

  /** An opening tag at the head of the text is written first, and the
      loop goes on after it with the tag open. */
  lemma RenderOpenStep(v: Variant, s: string, stack: seq<string>)
    requires s != [] && ParseTag(v, s).Some? && ParseTag(v, s).value.2.Open?
    ensures Render(Pieces(v, s, stack))
      == ParseTag(v, s).value.0
         + Render(Pieces(v, Drop(s, Skip(v, s, ParseTag(v, s).value.1)), stack + [ParseTag(v, s).value.2.tag]))
  {
    var (out, len, balance) := ParseTag(v, s).value;
    var step := Step(v, s, stack);
    assert step.0 == [OpenTag(balance.tag, out)];
    var tail := Pieces(v, step.1, step.2);
    assert Pieces(v, s, stack) == step.0 + tail;
    RenderConcat(step.0, tail);
    assert Render(step.0) == out;
  }

  lemma RenderStartsWithOpen(v: Variant, s: string)
    requires s != [] && ParseTag(v, s).Some? && ParseTag(v, s).value.2.Open?
    ensures StartsWith(Render(Pieces(v, s, [])), ParseTag(v, s).value.0)
  {
    RenderOpenStep(v, s, []);
  }

  /** As written, an ampersand in the attributes of `<a ...>` that does not
      begin an entity reaches the output bare, so the result is not valid
      markup, whatever follows the tag. */
  lemma AnchorAttributesUnescaped(s: string, k: nat)
    requires ScanTag(s).Some? && !ScanTag(s).value.closing && ScanTag(s).value.name == "a"
    requires k < |ScanTag(s).value.attrs| && ScanTag(s).value.attrs[k] == '&'
    requires ParseEntity(ScanTag(s).value.attrs[k..]).None?
    ensures !AmpSafe(SanitizeBodyMarkupAsWritten(s))
  {
    var attrs := ScanTag(s).value.attrs;
    var out := "<a" + attrs + ">";
    assert ParseTag(AsWritten, s).value.0 == out;
    RenderStartsWithOpen(AsWritten, s);
    var r := SanitizeBodyMarkupAsWritten(s);
    AmpAt(r, out, attrs, k);
  }

  lemma AmpAt(r: string, out: string, attrs: string, k: nat)
    requires out == "<a" + attrs + ">" && StartsWith(r, out)
    requires k < |attrs| && attrs[k] == '&' && ParseEntity(attrs[k..]).None?
    ensures !AmpSafe(r)
  {
    var after := r[|out|..];
    assert r == out + after;
    assert r[2 + k..] == attrs[k..] + ">" + after;
    EntityBlockedByGt(attrs[k..], after);
    assert r[2 + k] == '&';
  }

  /** `<a attrs>` whose attributes hold an ampersand that begins no entity
      (as in `<a href=x&y>`) comes out as invalid markup, whatever follows. */
  lemma AnchorAttributeAsWritten(attrs: string, k: nat, rest: string)
    requires attrs == [] || !IsAsciiAlpha(attrs[0])
    requires '>' !in attrs
    requires attrs == [] || !IsWhitespace(attrs[|attrs| - 1])
    requires k < |attrs| && attrs[k] == '&' && ParseEntity(attrs[k..]).None?
    ensures !AmpSafe(SanitizeBodyMarkupAsWritten("<" + ("a" + attrs) + ">" + rest))
  {
    ScanOpeningTag("a", attrs, rest);
    LowerPaired("a");
    AnchorAttributesUnescaped("<" + ("a" + attrs) + ">" + rest, k);
  }
}
