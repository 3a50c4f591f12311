/** Shared vocabulary of the model: optional values, integer helpers that
    follow Rust semantics, and the string operations the panel performs on
    `&str` (trimming, ASCII case mapping, prefix tests, decimal formatting and
    parsing). Strings are sequences of Unicode scalar values. */
module Common {

  datatype Option<+T> = None | Some(value: T) {
    function GetOr(default: T): T {
      match this
      case Some(v) => v
      case None => default
    }
  }

  datatype Result<+T, +E> = Ok(value: T) | Err(error: E)

  function Min(a: int, b: int): int { if a <= b then a else b }
  function Max(a: int, b: int): int { if a >= b then a else b }

  /** Rust `i32::clamp(lo, hi)`, which the source only calls with lo <= hi. */
  function Clamp(x: int, lo: int, hi: int): (r: int)
    requires lo <= hi
    ensures lo <= r <= hi
    ensures lo <= x <= hi ==> r == x
    ensures x < lo ==> r == lo
    ensures x > hi ==> r == hi
  {
    if x < lo then lo else if x > hi then hi else x
  }

  /** Integer division rounding toward zero, as Rust's `/` on signed integers. */
  function TruncDiv(a: int, b: int): (q: int)
    requires b > 0
    ensures a >= 0 ==> q == a / b
    ensures a < 0 ==> q == -((-a) / b)
  {
    if a >= 0 then a / b else -((-a) / b)
  }

  // ---------------------------------------------------------------- characters

  predicate IsAsciiDigit(c: char) { '0' <= c <= '9' }

  predicate IsAsciiHexDigit(c: char) {
    IsAsciiDigit(c) || 'a' <= c <= 'f' || 'A' <= c <= 'F'
  }

  predicate IsAsciiUpper(c: char) { 'A' <= c <= 'Z' }
  predicate IsAsciiLower(c: char) { 'a' <= c <= 'z' }
  predicate IsAsciiAlpha(c: char) { IsAsciiUpper(c) || IsAsciiLower(c) }
  predicate IsAsciiAlphanumeric(c: char) { IsAsciiAlpha(c) || IsAsciiDigit(c) }

  /** Unicode White_Space, the set Rust's `char::is_whitespace` and `str::trim` use. */
  predicate IsHash(c: char) { c == '#' }

  predicate IsWhitespace(c: char) {
    || ('\U{0009}' <= c <= '\U{000D}') || c == ' ' || c == '\U{0085}' || c == '\U{00A0}'
    || c == '\U{1680}' || ('\U{2000}' <= c <= '\U{200A}') || c == '\U{2028}' || c == '\U{2029}'
    || c == '\U{202F}' || c == '\U{205F}' || c == '\U{3000}'
  }

  function ToAsciiLower(c: char): (r: char)
    ensures IsAsciiUpper(c) ==> IsAsciiLower(r)
    ensures !IsAsciiUpper(c) ==> r == c
  {
    if IsAsciiUpper(c) then (c as int + 32) as char else c
  }

  function ToAsciiUpper(c: char): (r: char)
    ensures IsAsciiLower(c) ==> IsAsciiUpper(r)
    ensures !IsAsciiLower(c) ==> r == c
  {
    if IsAsciiLower(c) then (c as int - 32) as char else c
  }

  /** Value of an ASCII hex digit. */
  function HexValue(c: char): (v: nat)
    requires IsAsciiHexDigit(c)
    ensures v < 16
  {
    if IsAsciiDigit(c) then c as int - '0' as int
    else if 'a' <= c <= 'f' then c as int - 'a' as int + 10
    else c as int - 'A' as int + 10
  }

  /** Lower-case hex digit of a value below 16. */
  function HexDigit(v: nat): (c: char)
    requires v < 16
    ensures IsAsciiHexDigit(c) && !IsAsciiUpper(c)
    ensures HexValue(c) == v
  {
    if v < 10 then ('0' as int + v) as char else ('a' as int + v - 10) as char
  }

  // ------------------------------------------------------------------- strings

  function Lower(s: string): (r: string)
    ensures |r| == |s|
    ensures forall i :: 0 <= i < |s| ==> r[i] == ToAsciiLower(s[i])
  {
    if s == [] then [] else [ToAsciiLower(s[0])] + Lower(s[1..])
  }

  function Upper(s: string): (r: string)
    ensures |r| == |s|
    ensures forall i :: 0 <= i < |s| ==> r[i] == ToAsciiUpper(s[i])
  {
    if s == [] then [] else [ToAsciiUpper(s[0])] + Upper(s[1..])
  }

  /** Lower-casing leaves a string without ASCII capitals as it is. */
  lemma LowerKeeps(s: string)
    requires forall i :: 0 <= i < |s| ==> !IsAsciiUpper(s[i])
    ensures Lower(s) == s
  {
  }

  /** A name without ASCII capitals is matched case-insensitively by
      itself and by its upper-cased form. */
  lemma CaseInsensitiveName(n: string)
    requires forall i :: 0 <= i < |n| ==> !IsAsciiUpper(n[i])
    ensures Lower(n) == n && Lower(Upper(n)) == n
  {
    LowerKeeps(n);
    LowerOfUpper(n);
  }

  /** Case-insensitive comparison ignores a prior upper-casing. */
  lemma LowerOfUpper(s: string)
    ensures Lower(Upper(s)) == Lower(s)
  {
    forall i | 0 <= i < |s| ensures Lower(Upper(s))[i] == Lower(s)[i] {
      var c := s[i];
      if IsAsciiLower(c) {
        assert ToAsciiLower(ToAsciiUpper(c)) == c;
      }
    }
  }

  predicate StartsWith(s: string, prefix: string) {
    |prefix| <= |s| && s[..|prefix|] == prefix
  }

  predicate EndsWith(s: string, suffix: string) {
    |suffix| <= |s| && s[|s| - |suffix|..] == suffix
  }

  /** `s.contains(needle)` for a string needle. */
  predicate Contains(s: string, needle: string)
    decreases |s|
  {
    StartsWith(s, needle) || (s != [] && Contains(s[1..], needle))
  }

  /** Index of the first occurrence of `c`, as `str::find(char)`. */
  function FindChar(s: string, c: char): (r: Option<nat>)
    ensures r.None? <==> c !in s
    ensures r.Some? ==> r.value < |s| && s[r.value] == c && c !in s[..r.value]
  {
    if s == [] then None
    else if s[0] == c then Some(0)
    else match FindChar(s[1..], c)
      case None => None
      case Some(i) => assert s[1..][..i] == s[1..i + 1]; Some(i + 1)
  }

  /** Drops every leading character satisfying `p` (`trim_start_matches`). */
  function TrimStartBy(s: string, p: char -> bool): (r: string)
    ensures |r| <= |s| && r == s[|s| - |r|..]
    ensures r == [] || !p(r[0])
    ensures forall i :: 0 <= i < |s| - |r| ==> p(s[i])
  {
    if s != [] && p(s[0]) then
      var r := TrimStartBy(s[1..], p);
      assert s[1..][|s| - 1 - |r|..] == s[|s| - |r|..];
      r
    else s
  }

  /** Drops every trailing character satisfying `p` (`trim_end_matches`). */
  function TrimEndBy(s: string, p: char -> bool): (r: string)
    ensures |r| <= |s| && r == s[..|r|]
    ensures r == [] || !p(r[|r| - 1])
    ensures forall i :: |r| <= i < |s| ==> p(s[i])
  {
    if s != [] && p(s[|s| - 1]) then
      var r := TrimEndBy(s[..|s| - 1], p);
      assert s[..|s| - 1][..|r|] == s[..|r|];
      r
    else s
  }

  function Trim(s: string): (r: string)
    ensures r == [] || (!IsWhitespace(r[0]) && !IsWhitespace(r[|r| - 1]))
    ensures |r| <= |s|
  {
    TrimEndBy(TrimStartBy(s, IsWhitespace), IsWhitespace)
  }

  /** `str::replace(c, d)` for single characters. */
  function ReplaceChar(s: string, c: char, d: char): (r: string)
    ensures |r| == |s|
    ensures forall i :: 0 <= i < |s| ==> r[i] == (if s[i] == c then d else s[i])
  {
    if s == [] then [] else [if s[0] == c then d else s[0]] + ReplaceChar(s[1..], c, d)
  }

  /** Upper-cases the first character (`capitalize_first` and the word step
      of `title_case`); ASCII upper-casing stands in for Unicode. */
  function CapitalizeFirst(s: string): (r: string)
    ensures |r| == |s|
    ensures s != [] ==> r[0] == ToAsciiUpper(s[0]) && r[1..] == s[1..]
  {
    if s == [] then [] else [ToAsciiUpper(s[0])] + s[1..]
  }

  function Join(parts: seq<string>, sep: string): (r: string)
    ensures |parts| == 1 ==> r == parts[0]
    ensures parts == [] ==> r == []
  {
    if parts == [] then []
    else if |parts| == 1 then parts[0]
    else parts[0] + sep + Join(parts[1..], sep)
  }

  /** `filter_map`: the present results of `f`, in input order. */
  function FilterMap<A, B>(xs: seq<A>, f: A -> Option<B>): seq<B> {
    if xs == [] then []
    else (if f(xs[0]).Some? then [f(xs[0]).value] else []) + FilterMap(xs[1..], f)
  }

  lemma {:induction false} FilterMapLength<A, B>(xs: seq<A>, f: A -> Option<B>)
    ensures |FilterMap(xs, f)| <= |xs|
  {
    if xs != [] {
      FilterMapLength(xs[1..], f);
    }
  }

  /** Every result comes from some input. */
  lemma {:induction false} FilterMapSound<A, B>(xs: seq<A>, f: A -> Option<B>)
    ensures forall e :: e in FilterMap(xs, f) ==> exists i :: 0 <= i < |xs| && f(xs[i]) == Some(e)
  {
    if xs != [] {
      FilterMapSound(xs[1..], f);
      forall e | e in FilterMap(xs, f) ensures exists i :: 0 <= i < |xs| && f(xs[i]) == Some(e) {
        if e !in FilterMap(xs[1..], f) {
          assert f(xs[0]) == Some(e);
        } else {
          var j :| 0 <= j < |xs[1..]| && f(xs[1..][j]) == Some(e);
          assert xs[1..][j] == xs[j + 1];
        }
      }
    }
  }

  /** Every present result is kept. */
  lemma {:induction false} FilterMapComplete<A, B>(xs: seq<A>, f: A -> Option<B>)
    ensures forall i :: 0 <= i < |xs| && f(xs[i]).Some? ==> f(xs[i]).value in FilterMap(xs, f)
  {
    if xs != [] {
      FilterMapComplete(xs[1..], f);
      forall i | 0 <= i < |xs| && f(xs[i]).Some? ensures f(xs[i]).value in FilterMap(xs, f) {
        if i > 0 {
          assert xs[i] == xs[1..][i - 1];
        }
      }
    }
  }

  /** Filtering distributes over concatenation, so the input order is kept. */
  lemma {:induction false} FilterMapAppend<A, B>(xs: seq<A>, ys: seq<A>, f: A -> Option<B>)
    ensures FilterMap(xs + ys, f) == FilterMap(xs, f) + FilterMap(ys, f)
  {
    if xs == [] {
      assert xs + ys == ys;
    } else {
      assert (xs + ys)[0] == xs[0] && (xs + ys)[1..] == xs[1..] + ys;
      FilterMapAppend(xs[1..], ys, f);
      var h := if f(xs[0]).Some? then [f(xs[0]).value] else [];
      assert h + (FilterMap(xs[1..], f) + FilterMap(ys, f)) == h + FilterMap(xs[1..], f) + FilterMap(ys, f);
    }
  }

  /** Splits on every character satisfying `p` (`str::split` with a
      character predicate): one more piece than there are separators. */
  function SplitBy(s: string, p: char -> bool): (r: seq<string>)
    ensures |r| >= 1
  {
    if s == [] then [[]]
    else
      var rest := SplitBy(s[1..], p);
      if p(s[0]) then [[]] + rest else [[s[0]] + rest[0]] + rest[1..]
  }

  /** The pieces never contain a separator. */
  lemma {:induction false} SplitByClean(s: string, p: char -> bool)
    ensures forall i, j :: 0 <= i < |SplitBy(s, p)| && 0 <= j < |SplitBy(s, p)[i]| ==> !p(SplitBy(s, p)[i][j])
  {
    if s != [] {
      SplitByClean(s[1..], p);
      var rest := SplitBy(s[1..], p);
      if !p(s[0]) {
        var r := SplitBy(s, p);
        forall i, j | 0 <= i < |r| && 0 <= j < |r[i]| ensures !p(r[i][j]) {
          if i == 0 {
            if j > 0 {
              assert r[0][j] == rest[0][j - 1];
            }
          } else {
            assert r[i] == rest[i];
          }
        }
      }
    }
  }

  lemma Assoc(x: string, y: string, z: string)
    ensures x + (y + z) == x + y + z
  {
  }

  /** Gluing a character onto the first piece commutes with appending
      further pieces. */
  lemma GlueFirst(c: char, a: seq<string>, b: seq<string>)
    requires |a| >= 1
    ensures [[c] + a[0]] + a[1..] + b == [[c] + (a + b)[0]] + (a + b)[1..]
  {
    assert (a + b)[0] == a[0];
    assert (a + b)[1..] == a[1..] + b;
  }

  /** Splitting at a separator character splits the two sides apart. */
  lemma {:induction false} SplitAt(x: string, d: char, y: string, p: char -> bool)
    requires p(d)
    ensures SplitBy(x + [d] + y, p) == SplitBy(x, p) + SplitBy(y, p)
  {
    var s := x + [d] + y;
    if x == [] {
      assert s[1..] == y;
    } else {
      assert s[1..] == x[1..] + [d] + y;
      SplitAt(x[1..], d, y, p);
      if !p(x[0]) {
        GlueFirst(x[0], SplitBy(x[1..], p), SplitBy(y, p));
      }
    }
  }

  /** A string without separator characters is a single piece. */
  lemma {:induction false} SplitNone(x: string, p: char -> bool)
    requires forall k :: 0 <= k < |x| ==> !p(x[k])
    ensures SplitBy(x, p) == [x]
  {
    if x != [] {
      SplitNone(x[1..], p);
      assert x == [x[0]] + x[1..];
    }
  }

  /** A property every character of `s` lacks, `Trim(s)` lacks too. */
  lemma TrimKeepsAbsence(s: string, q: char -> bool)
    requires forall j :: 0 <= j < |s| ==> !q(s[j])
    ensures forall k :: 0 <= k < |Trim(s)| ==> !q(Trim(s)[k])
  {
    var t := TrimStartBy(s, IsWhitespace);
    forall k | 0 <= k < |Trim(s)| ensures !q(Trim(s)[k]) {
      assert Trim(s)[k] == t[k] == s[|s| - |t| + k];
    }
  }

  predicate AllWhitespace(s: string) {
    forall k :: 0 <= k < |s| ==> IsWhitespace(s[k])
  }

  /** Trimming from the front stops at the first character `p` rejects. */
  lemma {:induction false} TrimStartPastBy(pre: string, rest: string, p: char -> bool)
    requires forall k :: 0 <= k < |pre| ==> p(pre[k])
    requires rest != [] && !p(rest[0])
    ensures TrimStartBy(pre + rest, p) == rest
  {
    if pre == [] {
      assert pre + rest == rest;
    } else {
      assert (pre + rest)[1..] == pre[1..] + rest;
      TrimStartPastBy(pre[1..], rest, p);
    }
  }

  /** Trimming from the back stops at the last character `p` rejects. */
  lemma {:induction false} TrimEndPastBy(rest: string, post: string, p: char -> bool)
    requires forall k :: 0 <= k < |post| ==> p(post[k])
    requires rest != [] && !p(rest[|rest| - 1])
    ensures TrimEndBy(rest + post, p) == rest
  {
    if post == [] {
      assert rest + post == rest;
    } else {
      var q := post[..|post| - 1];
      assert (rest + post)[..|rest + post| - 1] == rest + q;
      TrimEndPastBy(rest, q, p);
    }
  }

  lemma TrimStartPast(pre: string, rest: string)
    requires AllWhitespace(pre) && rest != [] && !IsWhitespace(rest[0])
    ensures TrimStartBy(pre + rest, IsWhitespace) == rest
  {
    TrimStartPastBy(pre, rest, IsWhitespace);
  }

  lemma TrimEndPast(rest: string, post: string)
    requires AllWhitespace(post) && rest != [] && !IsWhitespace(rest[|rest| - 1])
    ensures TrimEndBy(rest + post, IsWhitespace) == rest
  {
    TrimEndPastBy(rest, post, IsWhitespace);
  }

  /** Trimming strips exactly the whitespace wrapped around a string whose
      ends are not whitespace. */
  lemma TrimAround(pre: string, s: string, post: string)
    requires AllWhitespace(pre) && AllWhitespace(post)
    requires s != [] && !IsWhitespace(s[0]) && !IsWhitespace(s[|s| - 1])
    ensures Trim(pre + s + post) == s
  {
    assert pre + s + post == pre + (s + post);
    TrimStartPast(pre, s + post);
    TrimEndPast(s, post);
  }

  // ------------------------------------------------------ decimal conversion

  function DigitChar(d: nat): (c: char)
    requires d < 10
    ensures IsAsciiDigit(c)
  {
    ('0' as int + d) as char
  }

  /** Decimal digits of a natural number, without leading zeros. */
  function NatToString(n: nat): (s: string)
    ensures |s| >= 1
    ensures forall i :: 0 <= i < |s| ==> IsAsciiDigit(s[i])
    ensures n >= 10 ==> s[0] != '0'
    decreases n
  {
    if n < 10 then [DigitChar(n)] else NatToString(n / 10) + [DigitChar(n % 10)]
  }

  /** `format!("{}", n)` for a signed integer. */
  function IntToString(n: int): (s: string)
    ensures n < 0 ==> |s| > 1 && s[0] == '-'
    ensures n >= 0 ==> s == NatToString(n)
  {
    if n < 0 then "-" + NatToString(-n) else NatToString(n)
  }

  /** Value of an all-digit string. */
  function DigitsValue(s: string): (v: nat)
    requires forall i :: 0 <= i < |s| ==> IsAsciiDigit(s[i])
  {
    if s == [] then 0
    else
      var last := s[|s| - 1];
      assert IsAsciiDigit(last);
      DigitsValue(s[..|s| - 1]) * 10 + (last as int - '0' as int)
  }

  predicate AllDigits(s: string) {
    forall i :: 0 <= i < |s| ==> IsAsciiDigit(s[i])
  }

  lemma {:induction false} DigitsOfNat(n: nat)
    ensures DigitsValue(NatToString(n)) == n
    decreases n
  {
    if n >= 10 {
      DigitsOfNat(n / 10);
      var s := NatToString(n);
      assert s[..|s| - 1] == NatToString(n / 10);
    }
  }

  /** Bytes in the UTF-8 encoding of a scalar value. */
  function Utf8Width(c: char): (n: nat)
    ensures 1 <= n <= 4
    ensures n == 1 <==> c as int < 0x80
  {
    if c as int < 0x80 then 1 else if c as int < 0x800 then 2 else if c as int < 0x10000 then 3 else 4
  }

  /** `str::len`: the UTF-8 byte length. */
  function ByteLen(s: string): (n: nat)
    ensures n >= |s|
  {
    if s == [] then 0 else Utf8Width(s[0]) + ByteLen(s[1..])
  }

  predicate IsAscii(c: char) { c as int < 0x80 }

  predicate AllAscii(s: string) { forall i :: 0 <= i < |s| ==> IsAscii(s[i]) }

  /** An ASCII string has one byte per character. */
  lemma {:induction false} AsciiByteLen(s: string)
    requires AllAscii(s)
    ensures ByteLen(s) == |s|
  {
    if s != [] {
      assert AllAscii(s[1..]) by {
        forall i | 0 <= i < |s[1..]| ensures IsAscii(s[1..][i]) { assert s[1..][i] == s[i + 1]; }
      }
      AsciiByteLen(s[1..]);
    }
  }

  /** A character takes at most four bytes. */
  lemma {:induction false} ByteLenBounds(s: string)
    ensures |s| <= ByteLen(s) <= 4 * |s|
  {
    if s != [] {
      ByteLenBounds(s[1..]);
    }
  }

  const I64_MIN: int := -0x8000_0000_0000_0000
  const I64_MAX: int := 0x7FFF_FFFF_FFFF_FFFF
  const U32_MAX: int := 0xFFFF_FFFF
  const I32_MIN: int := -0x8000_0000
  const I32_MAX: int := 0x7FFF_FFFF

  /** Rust's `v as i32` on an `i64`: keeps the low 32 bits. */
  function WrapI32(v: int): (r: int)
    ensures I32_MIN <= r <= I32_MAX
    ensures (v - r) % 0x1_0000_0000 == 0
    ensures I32_MIN <= v <= I32_MAX ==> r == v
  {
    (v - I32_MIN) % 0x1_0000_0000 + I32_MIN
  }

  /** Values that agree modulo 2^32 keep the same low 32 bits: this is what
      lets a chain of wrapping `i32` steps be read as one wrap of the exact
      result. */
  lemma WrapI32Congruent(x: int, y: int)
    requires (x - y) % 0x1_0000_0000 == 0
    ensures WrapI32(x) == WrapI32(y)
  {
    var k := (x - y) / 0x1_0000_0000;
    assert x - I32_MIN == (y - I32_MIN) + k * 0x1_0000_0000;
    var q := (y - I32_MIN) / 0x1_0000_0000;
    var r := (y - I32_MIN) % 0x1_0000_0000;
    assert x - I32_MIN == (q + k) * 0x1_0000_0000 + r;
  }

  /** Wrapping `i32` addition of two cast values is the cast of the exact sum. */
  lemma WrapI32Sum(a: int, b: int)
    ensures WrapI32(WrapI32(a) + WrapI32(b)) == WrapI32(a + b)
  {
    var ka := (a - WrapI32(a)) / 0x1_0000_0000;
    var kb := (b - WrapI32(b)) / 0x1_0000_0000;
    assert (a + b) - (WrapI32(a) + WrapI32(b)) == (ka + kb) * 0x1_0000_0000;
    WrapI32Congruent(WrapI32(a) + WrapI32(b), a + b);
  }

  /** Wrapping `2 * x` on a cast value is the cast of the exact product. */
  lemma WrapI32Twice(a: int)
    ensures WrapI32(2 * WrapI32(a)) == WrapI32(2 * a)
  {
    var k := (a - WrapI32(a)) / 0x1_0000_0000;
    assert 2 * a - 2 * WrapI32(a) == (2 * k) * 0x1_0000_0000;
    WrapI32Congruent(2 * WrapI32(a), 2 * a);
  }

  /** Wrapping `i32` subtraction of two cast values is the cast of the exact difference. */
  lemma WrapI32Difference(a: int, b: int)
    ensures WrapI32(WrapI32(a) - WrapI32(b)) == WrapI32(a - b)
  {
    var ka := (a - WrapI32(a)) / 0x1_0000_0000;
    var kb := (b - WrapI32(b)) / 0x1_0000_0000;
    assert (a - b) - (WrapI32(a) - WrapI32(b)) == (ka - kb) * 0x1_0000_0000;
    WrapI32Congruent(WrapI32(a) - WrapI32(b), a - b);
  }

  /** Rust's `v as usize` on an `i64` (64-bit targets): a negative value
      wraps to a huge count. */
  function WrapUsize(v: int): (r: nat)
    ensures r < 0x1_0000_0000_0000_0000
    ensures v >= 0 && v < 0x1_0000_0000_0000_0000 ==> r == v
    ensures v < 0 && v >= I64_MIN ==> r == v + 0x1_0000_0000_0000_0000
  {
    v % 0x1_0000_0000_0000_0000
  }

  /** Rust's `v as u32` on an `i64`: keeps the low 32 bits. */
  function WrapU32(v: int): (r: nat)
    ensures r <= U32_MAX
    ensures (v - r) % 0x1_0000_0000 == 0
    ensures 0 <= v <= U32_MAX ==> r == v
  {
    v % 0x1_0000_0000
  }

  /** `str::parse::<i32>()`: a 64-bit parse that must also fit 32 bits. */
  function ParseI32(s: string): (r: Option<int>)
    ensures r.Some? ==> IsI32(r.value)
    ensures r.Some? <==> ParseI64(s).Some? && IsI32(ParseI64(s).value)
  {
    match ParseI64(s)
    case Some(v) => if IsI32(v) then Some(v) else None
    case None => None
  }

  /** `x` fits an `i32`. */
  predicate IsI32(x: int) { I32_MIN <= x <= I32_MAX }

  /** The `i32` result of an exact sum or difference under Rust's
      `saturating_*`: out-of-range values stick to the nearest bound. */
  function SaturateI32(v: int): (r: int)
    ensures I32_MIN <= r <= I32_MAX
    ensures I32_MIN <= v <= I32_MAX ==> r == v
    ensures v > I32_MAX ==> r == I32_MAX
    ensures v < I32_MIN ==> r == I32_MIN
  {
    if v > I32_MAX then I32_MAX else if v < I32_MIN then I32_MIN else v
  }

  /** Rust's `str::parse::<i64>()`: an optional sign, at least one ASCII
      digit, nothing else, and a value inside the 64-bit range. */
  function ParseI64(s: string): (r: Option<int>)
    ensures r.Some? ==> I64_MIN <= r.value <= I64_MAX
    ensures r.Some? ==> s != [] && (AllDigits(s) || AllDigits(s[1..]))
  {
    if s == [] then None
    else if s[0] == '-' || s[0] == '+' then
      var body := s[1..];
      if body == [] || !AllDigits(body) then None
      else
        var mag: int := DigitsValue(body);
        var v: int := if s[0] == '-' then 0 - mag else mag;
        if I64_MIN <= v <= I64_MAX then Some(v) else None
    else if !AllDigits(s) then None
    else if DigitsValue(s) <= I64_MAX then Some(DigitsValue(s)) else None
  }

  lemma ParseI64OfNat(n: nat)
    requires n <= I64_MAX
    ensures ParseI64(NatToString(n)) == Some(n)
  {
    DigitsOfNat(n);
  }
}
