/**
 * The PHP built-ins the extension relies on, written out on strings:
 * truthiness of strings, `trim`, `str_replace`, `explode` at the first
 * separator, `implode`, `basename`, the comma split of `preg_split` with
 * PREG_SPLIT_NO_EMPTY, the integer cast of a string, decimal
 * rendering of integers, UTF-8 byte length and `urlencode`.
 */
module Php {
  import opened Wrappers

  /** How a PHP request ends abnormally: an uncaught exception, or `exit(...)`. */
  datatype Failure = Exception(message: string) | Exit(message: string)

  /** `empty($s)` on a string: only "" and "0" are falsy. */
  predicate EmptyString(s: string) {
    s == "" || s == "0"
  }

  /** A string value that may be null (None) is truthy: set, and neither "" nor "0". */
  predicate Truthy(v: Option<string>) {
    v.Some? && !EmptyString(v.value)
  }

  /** What `trim()` strips by default: space, \t, \n, \r, \0 and \x0B. */
  predicate IsTrimSpace(c: char) {
    c == ' ' || c == '\t' || c == '\n' || c == '\r' || c as int == 0 || c as int == 11
  }

  /** What PCRE's `\s` matches (no /u flag), and what a numeric string may start with. */
  predicate IsRegexSpace(c: char) {
    c == ' ' || c == '\t' || c == '\n' || c == '\r' || c as int == 11 || c as int == 12
  }

  predicate IsDigit(c: char) {
    '0' <= c <= '9'
  }

  predicate AllDigits(s: string) {
    forall i :: 0 <= i < |s| ==> IsDigit(s[i])
  }

  /** `ltrim` with the given character class: the longest suffix not starting with one of them. */
  function TrimLeft(s: string, ws: char -> bool): (r: string)
    ensures |r| <= |s| && r == s[|s| - |r|..]
  {
    if s == [] || !ws(s[0]) then s else TrimLeft(s[1..], ws)
  }

  /** What `ltrim` removes is all whitespace, and what it keeps does not start with any. */
  lemma {:induction false} TrimLeftSpec(s: string, ws: char -> bool)
    ensures var r := TrimLeft(s, ws);
      && (r == [] || !ws(r[0]))
      && forall i :: 0 <= i < |s| - |r| ==> ws(s[i])
  {
    if s != [] && ws(s[0]) {
      var t := s[1..];
      TrimLeftSpec(t, ws);
      assert TrimLeft(s, ws) == TrimLeft(t, ws);
      forall i | 1 <= i < |s| - |TrimLeft(t, ws)|
        ensures ws(s[i])
      {
        assert s[i] == t[i - 1];
      }
    }
  }

  /** `rtrim` with the given character class: the longest prefix not ending with one of them. */
  function TrimRight(s: string, ws: char -> bool): (r: string)
    ensures |r| <= |s| && r == s[..|r|]
  {
    if s == [] || !ws(s[|s| - 1]) then s else TrimRight(s[..|s| - 1], ws)
  }

  /** What `rtrim` removes is all whitespace, and what it keeps does not end with any. */
  lemma {:induction false} TrimRightSpec(s: string, ws: char -> bool)
    ensures var r := TrimRight(s, ws);
      && (r == [] || !ws(r[|r| - 1]))
      && forall i :: |r| <= i < |s| ==> ws(s[i])
  {
    if s != [] && ws(s[|s| - 1]) {
      TrimRightSpec(s[..|s| - 1], ws);
    }
  }

  /** `trim($s)` with the default character list. */
  function Trim(s: string): (r: string)
    ensures |r| <= |s|
  {
    TrimRight(TrimLeft(s, IsTrimSpace), IsTrimSpace)
  }

  /** `trim` leaves a string that neither starts nor ends with whitespace. */
  lemma TrimSpec(s: string)
    ensures Trim(s) == [] || (!IsTrimSpace(Trim(s)[0]) && !IsTrimSpace(Trim(s)[|Trim(s)| - 1]))
  {
    var l := TrimLeft(s, IsTrimSpace);
    TrimLeftSpec(s, IsTrimSpace);
    TrimRightSpec(l, IsTrimSpace);
  }

  /** A string that neither starts nor ends with whitespace is its own `trim`. */
  lemma TrimUnchanged(s: string)
    requires s == [] || (!IsTrimSpace(s[0]) && !IsTrimSpace(s[|s| - 1]))
    ensures Trim(s) == s
  {
    assert TrimLeft(s, IsTrimSpace) == s;
  }

  /** `str_replace($from, $to, $s)` for single characters. */
  function ReplaceChar(s: string, from: char, to: char): (r: string)
    ensures |r| == |s|
    ensures from != to ==> from !in r
    ensures forall i :: 0 <= i < |s| && s[i] != from ==> r[i] == s[i]
  {
    seq(|s|, i requires 0 <= i < |s| => if s[i] == from then to else s[i])
  }

  /** `str_replace($pattern, $replacement, $s)`: every occurrence, left to right, without overlap. */
  function ReplaceAll(s: string, pattern: string, replacement: string): (r: string)
    ensures pattern == [] ==> r == s
    decreases |s|
  {
    if pattern == [] || |s| < |pattern| then s
    else if s[..|pattern|] == pattern then replacement + ReplaceAll(s[|pattern|..], pattern, replacement)
    else [s[0]] + ReplaceAll(s[1..], pattern, replacement)
  }

  /** `explode($c, $s, 2)` when `$c` occurs: the text before the first `$c` and the text after it. */
  function SplitAtFirst(s: string, c: char): (r: (string, string))
    requires c in s
    ensures |r.0| + 1 + |r.1| == |s|
  {
    if s[0] == c then ([], s[1..])
    else
      var t := SplitAtFirst(s[1..], c);
      ([s[0]] + t.0, t.1)
  }

  /** The two halves and the separator make up `s`, and the first half holds no `c`. */
  lemma {:induction false} SplitAtFirstSpec(s: string, c: char)
    requires c in s
    ensures s == SplitAtFirst(s, c).0 + [c] + SplitAtFirst(s, c).1
    ensures c !in SplitAtFirst(s, c).0
    decreases |s|
  {
    if s[0] != c {
      SplitAtFirstSpec(s[1..], c);
      assert s == [s[0]] + s[1..];
    }
  }

  /** Splitting `k + [c] + v` at its first `c` gives back `k` and `v` when `c` is not in `k`. */
  lemma SplitAtFirstOf(k: string, c: char, v: string)
    requires c !in k
    ensures SplitAtFirst(k + [c] + v, c) == (k, v)
  {
    var s := k + [c] + v;
    var r := SplitAtFirst(s, c);
    SplitAtFirstSpec(s, c);
    assert s[|k|] == c && s[|r.0|] == c;
    assert forall i :: 0 <= i < |k| ==> s[i] == k[i];
    assert forall i :: 0 <= i < |r.0| ==> s[i] == r.0[i];
    assert |r.0| == |k|;
    assert r.0 == s[..|k|] == k;
    assert r.1 == s[|k| + 1..] == v;
  }

  /** Every piece between occurrences of `c` (what `explode($c, $s)` returns). */
  function Split(s: string, c: char): (r: seq<string>)
    ensures |r| >= 1
    ensures forall i :: 0 <= i < |r| ==> c !in r[i]
    ensures Join([c], r) == s
    decreases |s|
  {
    if c !in s then [s]
    else
      var t := SplitAtFirst(s, c);
      SplitAtFirstSpec(s, c);
      [t.0] + Split(t.1, c)
  }

  /** `implode($sep, $xs)`. */
  function Join(sep: string, xs: seq<string>): string {
    if xs == [] then ""
    else if |xs| == 1 then xs[0]
    else xs[0] + sep + Join(sep, xs[1..])
  }

  /** A non-empty sequence is its front followed by its last element. */
  lemma Snoc<T>(xs: seq<T>)
    requires xs != []
    ensures xs[..|xs| - 1] + [xs[|xs| - 1]] == xs
  {
  }

  /** The elements of `xs` that satisfy `keep`, in order (`array_filter`). */
  function Filter<T(!new)>(xs: seq<T>, keep: T -> bool): (r: seq<T>)
    ensures |r| <= |xs|
    ensures forall i :: 0 <= i < |r| ==> keep(r[i]) && r[i] in xs
  {
    if xs == [] then []
    else (if keep(xs[0]) then [xs[0]] else []) + Filter(xs[1..], keep)
  }

  /** `Filter` keeps exactly the elements that satisfy `keep`. */
  lemma {:induction false} FilterMembers<T(!new)>(xs: seq<T>, keep: T -> bool, x: T)
    ensures x in Filter(xs, keep) <==> x in xs && keep(x)
  {
    if xs != [] {
      FilterMembers(xs[1..], keep, x);
      assert x in xs <==> x == xs[0] || x in xs[1..];
    }
  }

  lemma {:induction false} FilterAppend<T(!new)>(xs: seq<T>, ys: seq<T>, keep: T -> bool)
    ensures Filter(xs + ys, keep) == Filter(xs, keep) + Filter(ys, keep)
  {
    if xs == [] {
      assert xs + ys == ys;
    } else {
      assert (xs + ys)[1..] == xs[1..] + ys;
      FilterAppend(xs[1..], ys, keep);
    }
  }

  /** The part of `path` after its last `/` once trailing slashes are removed (`basename`). */
  function Basename(path: string): (r: string)
    ensures '/' !in r
  {
    AfterLast(TrimRight(path, c => c == '/'), '/')
  }

  function AfterLast(s: string, c: char): (r: string)
    ensures c !in r
    ensures |r| <= |s| && r == s[|s| - |r|..]
    decreases |s|
  {
    if c !in s then s
    else
      SplitAtFirstSpec(s, c);
      AfterLast(SplitAtFirst(s, c).1, c)
  }

  // `preg_split('/\s*,\s*/', $s, -1, PREG_SPLIT_NO_EMPTY)`: the pieces between commas,
  // with the whitespace next to each comma removed, empty pieces dropped.
  function SplitCommaList(s: string): (r: seq<string>)
    ensures forall i :: 0 <= i < |r| ==> r[i] != "" && ',' !in r[i]
  {
    Filter(CommaPieces(Split(s, ',')), (p: string) => p != "")
  }

  // The separator `\s*,\s*` eats the whitespace before and after each comma, and no other.
  function CommaPieces(raw: seq<string>): (r: seq<string>)
    requires forall i :: 0 <= i < |raw| ==> ',' !in raw[i]
    ensures |r| == |raw|
    ensures forall i :: 0 <= i < |r| ==> ',' !in r[i]
  {
    seq(|raw|, i requires 0 <= i < |raw| =>
      var p := if i > 0 then TrimLeft(raw[i], IsRegexSpace) else raw[i];
      if i < |raw| - 1 then TrimRight(p, IsRegexSpace) else p)
  }

  function DigitValue(c: char): nat
    requires IsDigit(c)
  {
    c as int - '0' as int
  }

  function DigitChar(d: nat): (c: char)
    requires d < 10
    ensures IsDigit(c) && DigitValue(c) == d
  {
    "0123456789"[d]
  }

  /** The number a string of decimal digits denotes. */
  function DigitsValue(s: string): nat
    requires AllDigits(s)
  {
    if s == [] then 0 else DigitsValue(s[..|s| - 1]) * 10 + DigitValue(s[|s| - 1])
  }

  /** The decimal rendering of a natural number, as PHP's string conversion of an int. */
  function NatToString(n: nat): (r: string)
    ensures |r| > 0 && AllDigits(r)
  {
    if n < 10 then [DigitChar(n)] else NatToString(n / 10) + [DigitChar(n % 10)]
  }

  lemma {:induction false} NatToStringRoundTrip(n: nat)
    ensures DigitsValue(NatToString(n)) == n
  {
    if n >= 10 {
      var s := NatToString(n);
      assert s[..|s| - 1] == NatToString(n / 10);
      NatToStringRoundTrip(n / 10);
    }
  }

  /** Distinct numbers render differently. */
  lemma NatToStringInjective(a: nat, b: nat)
    requires NatToString(a) == NatToString(b)
    ensures a == b
  {
    NatToStringRoundTrip(a);
    NatToStringRoundTrip(b);
  }

  /** The longest prefix of `s` made of digits. */
  function DigitPrefix(s: string): (r: string)
    ensures AllDigits(r) && |r| <= |s| && r == s[..|r|]
    ensures |r| < |s| ==> !IsDigit(s[|r|])
  {
    if s == [] || !IsDigit(s[0]) then [] else [s[0]] + DigitPrefix(s[1..])
  }

  /** The range of PHP's 64-bit `int`. */
  const IntMax: int := 0x7FFF_FFFF_FFFF_FFFF
  const IntMin: int := -0x8000_0000_0000_0000

  /** A value brought into the `int` range by capping it at the nearer end, as `(int)` of a numeric string does. */
  function Saturate(v: int): (r: int)
    ensures IntMin <= r <= IntMax
    ensures IntMin <= v <= IntMax ==> r == v
    ensures v > IntMax ==> r == IntMax
    ensures v < IntMin ==> r == IntMin
    ensures r == 0 <==> v == 0
  {
    if v > IntMax then IntMax else if v < IntMin then IntMin else v
  }

  /**
   * `(int)$s`: optional leading whitespace, an optional sign, then the leading digits,
   * capped to the 64-bit range; a string without leading digits gives 0.
   */
  function IntVal(s: string): int {
    Saturate(SignedPrefixValue(TrimLeft(s, IsRegexSpace)))
  }

  /** `(int)` of a value that may be null: null is 0, a string is read by `IntVal`. */
  function IntOf(v: Option<string>): int {
    if v.Some? then IntVal(v.value) else 0
  }

  /** `(int)` once the leading whitespace is gone: an optional sign, then the leading digits. */
  function SignedPrefixValue(t: string): int {
    if t != [] && (t[0] == '-' || t[0] == '+') then
      var v := DigitsValue(DigitPrefix(t[1..]));
      if t[0] == '-' then -(v as int) else v
    else DigitsValue(DigitPrefix(t))
  }

  /** The UTF-8 encoding of one character as byte values. */
  function Utf8Bytes(c: char): (r: seq<nat>)
    ensures 1 <= |r| <= 4
    ensures |r| == 1 <==> c as int < 128
    ensures |r| == 1 ==> r[0] == c as int
    ensures forall i :: 1 <= i < |r| ==> 128 <= r[i] < 192
  {
    var n := c as int;
    if n < 0x80 then [n]
    else if n < 0x800 then [0xC0 + n / 0x40, 0x80 + n % 0x40]
    else if n < 0x10000 then [0xE0 + n / 0x1000, 0x80 + n / 0x40 % 0x40, 0x80 + n % 0x40]
    else [0xF0 + n / 0x40000, 0x80 + n / 0x1000 % 0x40, 0x80 + n / 0x40 % 0x40, 0x80 + n % 0x40]
  }

  /** `strlen($s)`: the number of bytes of the UTF-8 encoding of `s`. */
  function ByteLength(s: string): (r: nat)
    ensures |s| <= r <= 4 * |s|
    ensures (forall i :: 0 <= i < |s| ==> s[i] as int < 128) ==> r == |s|
  {
    if s == [] then 0 else |Utf8Bytes(s[0])| + ByteLength(s[1..])
  }

  /** The characters `urlencode` can produce. */
  predicate UrlSafeChar(c: char) {
    ('a' <= c <= 'z') || ('A' <= c <= 'Z') || IsDigit(c) || c == '-' || c == '_' || c == '.' || c == '+' || c == '%'
  }

  predicate Unreserved(b: nat) {
    ('a' as int <= b <= 'z' as int) || ('A' as int <= b <= 'Z' as int) || ('0' as int <= b <= '9' as int)
    || b == '-' as int || b == '_' as int || b == '.' as int
  }

  function HexDigit(d: nat): (c: char)
    requires d < 16
    ensures UrlSafeChar(c)
  {
    "0123456789ABCDEF"[d]
  }

  /** One byte as `urlencode` writes it: kept, `+` for a space, or `%XX`. */
  function UrlEncodeByte(b: nat): (r: string)
    ensures forall i :: 0 <= i < |r| ==> UrlSafeChar(r[i])
  {
    if Unreserved(b) then [b as char]
    else if b == 32 then "+"
    else ['%', HexDigit(b / 16 % 16), HexDigit(b % 16)]
  }

  function UrlEncodeBytes(bs: seq<nat>): (r: string)
    ensures forall i :: 0 <= i < |r| ==> UrlSafeChar(r[i])
  {
    if bs == [] then "" else UrlEncodeByte(bs[0]) + UrlEncodeBytes(bs[1..])
  }

  /**
   * `urlencode($s)` over the UTF-8 bytes of `s`. Its output never holds `:`, `@` or `/`,
   * so an encoded credential cannot change the structure of a DSN.
   */
  function UrlEncode(s: string): (r: string)
    ensures forall i :: 0 <= i < |r| ==> UrlSafeChar(r[i])
    ensures ':' !in r && '@' !in r && '/' !in r
  {
    if s == [] then "" else UrlEncodeBytes(Utf8Bytes(s[0])) + UrlEncode(s[1..])
  }

  /** `strtolower` on ASCII letters. */
  function Lower(s: string): (r: string)
    ensures |r| == |s|
    ensures forall i :: 0 <= i < |r| ==> !('A' <= r[i] <= 'Z')
  {
    seq(|s|, i requires 0 <= i < |s| => if 'A' <= s[i] <= 'Z' then (s[i] as int + 32) as char else s[i])
  }
}
