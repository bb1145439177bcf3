/** Character classes and the JavaScript string operations the resume code
    relies on: `trim`, `toLowerCase`, `includes`, `substring(0, n)`, and the
    decimal rendering of a number inside a template literal. */
module Text {

  /** White space as JavaScript's `String.prototype.trim` and the regex class
      `\s` see it: the ECMAScript WhiteSpace and LineTerminator characters. */
  predicate IsSpace(c: char) {
    c == ' ' || c == '\t' || c == '\n' || c == '\r' || c == '\U{000B}' || c == '\U{000C}'
    || c == '\U{00A0}' || c == '\U{1680}' || ('\U{2000}' <= c <= '\U{200A}')
    || c == '\U{2028}' || c == '\U{2029}' || c == '\U{202F}' || c == '\U{205F}'
    || c == '\U{3000}' || c == '\U{FEFF}'
  }

  /** The regex class `\d`. */
  predicate IsDigit(c: char) {
    '0' <= c <= '9'
  }

  predicate IsUpper(c: char) {
    'A' <= c <= 'Z'
  }

  predicate IsLower(c: char) {
    'a' <= c <= 'z'
  }

  /** The regex class `[a-zA-Z]`. */
  predicate IsLetter(c: char) {
    IsUpper(c) || IsLower(c)
  }

  predicate AllSpace(s: string) {
    forall i :: 0 <= i < |s| ==> IsSpace(s[i])
  }

  /** Lower-cases an ASCII capital letter and leaves every other character alone. */
  function LowerChar(c: char): (r: char)
    ensures IsUpper(c) ==> IsLower(r) && r as int == c as int + 32
    ensures !IsUpper(c) ==> r == c
    ensures !IsUpper(r)
  {
    if IsUpper(c) then (c as int + 32) as char else c
  }

  /** `toLowerCase()` restricted to ASCII letters. */
  function Lower(s: string): (r: string)
    ensures |r| == |s|
    ensures forall i :: 0 <= i < |s| ==> r[i] == LowerChar(s[i])
  {
    seq(|s|, i requires 0 <= i < |s| => LowerChar(s[i]))
  }

  /** `pat` occurs in `s` starting at index `i`. */
  predicate OccursAt(s: string, pat: string, i: nat) {
    i + |pat| <= |s| && s[i..i + |pat|] == pat
  }

  /** `s.includes(pat)`, searching from index `from` on. */
  function IncludesFrom(s: string, pat: string, from: nat): (b: bool)
    ensures b <==> exists i :: from <= i <= |s| && OccursAt(s, pat, i)
    decreases |s| + 1 - from
  {
    if from + |pat| > |s| then false
    else if s[from..from + |pat|] == pat then assert OccursAt(s, pat, from); true
    else IncludesFrom(s, pat, from + 1)
  }

  /** `s.includes(pat)`. */
  function Includes(s: string, pat: string): (b: bool)
    ensures b <==> exists i :: 0 <= i <= |s| && OccursAt(s, pat, i)
  {
    IncludesFrom(s, pat, 0)
  }

  /** `s.toLowerCase().includes(pat.toLowerCase())`. */
  function IncludesIgnoringCase(s: string, pat: string): (b: bool)
    ensures b <==> exists i :: 0 <= i <= |s| && OccursAt(Lower(s), Lower(pat), i)
  {
    Includes(Lower(s), Lower(pat))
  }

  /** The callback `k => text.toLowerCase().includes(k.toLowerCase())`. */
  function MentionedIn(text: string): string -> bool {
    k => IncludesIgnoringCase(text, k)
  }

  /** `t` is a contiguous piece of `s`. */
  ghost predicate IsSliceOf(t: string, s: string) {
    exists i, j :: 0 <= i <= j <= |s| && s[i..j] == t
  }

  /** A piece of a piece of `s` is a piece of `s`. */
  lemma SliceOfSlice(u: string, t: string, s: string)
    requires IsSliceOf(u, t) && IsSliceOf(t, s)
    ensures IsSliceOf(u, s)
  {
    var i, j :| 0 <= i <= j <= |s| && s[i..j] == t;
    var a, b :| 0 <= a <= b <= |t| && t[a..b] == u;
    assert |t| == j - i;
    forall k | 0 <= k < b - a ensures u[k] == s[i + a + k] {
      assert u[k] == t[a + k];
    }
    assert u == s[i + a..i + b];
  }

  /** A character missing from `s` is missing from every piece of it. */
  lemma SliceAvoids(t: string, s: string, c: char)
    requires IsSliceOf(t, s) && c !in s
    ensures c !in t
  {
  }

  lemma SliceAt(s: string, i: nat, j: nat)
    requires i <= j <= |s|
    ensures IsSliceOf(s[i..j], s)
  {
  }

  /** The number of white-space characters `s` starts with. */
  function LeadingSpaces(s: string): (n: nat)
    ensures n <= |s| && AllSpace(s[..n])
    ensures n < |s| ==> !IsSpace(s[n])
    decreases |s|
  {
    if s == [] || !IsSpace(s[0]) then 0 else 1 + LeadingSpaces(s[1..])
  }

  /** The number of white-space characters `s` ends with. */
  function TrailingSpaces(s: string): (n: nat)
    ensures n <= |s| && AllSpace(s[|s| - n..])
    ensures n < |s| ==> !IsSpace(s[|s| - n - 1])
    decreases |s|
  {
    if s == [] || !IsSpace(s[|s| - 1]) then 0 else 1 + TrailingSpaces(s[..|s| - 1])
  }

  /** `s.trim()`: `s` without its leading and trailing white space. */
  function Trim(s: string): (r: string)
    ensures |r| <= |s|
    ensures r == [] || (!IsSpace(r[0]) && !IsSpace(r[|r| - 1]))
    ensures exists i :: 0 <= i <= |s| - |r| && s[i..i + |r|] == r
                        && AllSpace(s[..i]) && AllSpace(s[i + |r|..])
  {
    var lead := LeadingSpaces(s);
    if lead == |s| then
      assert s[..0] == [] && s[0..0] == [] && s[0..] == s;
      []
    else
      var rest := s[lead..];
      var trail := TrailingSpaces(rest);
      assert trail < |rest|;
      var r := rest[..|rest| - trail];
      assert s[lead + |r|..] == rest[|rest| - trail..];
      assert s[lead..lead + |r|] == r && AllSpace(s[..lead]) && AllSpace(s[lead + |r|..]);
      assert r[0] == s[lead];
      r
  }

  lemma TrimSlice(s: string)
    ensures IsSliceOf(Trim(s), s)
  {
    var r := Trim(s);
    var i :| 0 <= i <= |s| - |r| && s[i..i + |r|] == r
             && AllSpace(s[..i]) && AllSpace(s[i + |r|..]);
    assert IsSliceOf(r, s);
  }

  /** Trimming twice is trimming once. */
  lemma TrimIdempotent(s: string)
    ensures Trim(Trim(s)) == Trim(s)
  {
    var r := Trim(s);
    var r2 := Trim(r);
    var i :| 0 <= i <= |r| - |r2| && r[i..i + |r2|] == r2
             && AllSpace(r[..i]) && AllSpace(r[i + |r2|..]);
    assert r != [] ==> i == 0 && |r2| == |r|;
  }

  /** `Math.min(a, b)`. */
  function Min(a: int, b: int): int {
    if a <= b then a else b
  }

  /** `s.substring(0, n)`, and `a.slice(0, n)` on arrays, for a non-negative `n`. */
  function Prefix<T>(s: seq<T>, n: nat): (r: seq<T>)
    ensures |r| <= n && |r| <= |s|
    ensures |s| <= n ==> r == s
    ensures |s| > n ==> |r| == n
    ensures r == s[..|r|]
  {
    if |s| <= n then s else s[..n]
  }

  lemma PrefixSlice(s: string, n: nat)
    ensures IsSliceOf(Prefix(s, n), s)
  {
    assert s[0..|Prefix(s, n)|] == Prefix(s, n);
  }

  function DigitChar(d: nat): (c: char)
    requires d < 10
    ensures IsDigit(c)
  {
    ('0' as int + d) as char
  }

  function DigitValue(c: char): (d: nat)
    requires IsDigit(c)
    ensures d < 10
  {
    (c as int - '0' as int) as nat
  }

  /** The number a string of decimal digits denotes. */
  function DecimalValue(s: string): nat
    requires forall i :: 0 <= i < |s| ==> IsDigit(s[i])
    decreases |s|
  {
    if s == [] then 0
    else 10 * DecimalValue(s[..|s| - 1]) + DigitValue(s[|s| - 1])
  }

  /** A number rendered in decimal, as `${n}` does for a non-negative integer:
      the digits have no leading zero and read back as `n`. */
  function NatToString(n: nat): (r: string)
    ensures |r| >= 1 && (forall i :: 0 <= i < |r| ==> IsDigit(r[i]))
    ensures |r| > 1 ==> r[0] != '0'
    ensures DecimalValue(r) == n
    decreases n
  {
    if n < 10 then [DigitChar(n)]
    else
      var r := NatToString(n / 10) + [DigitChar(n % 10)];
      assert r[..|r| - 1] == NatToString(n / 10);
      r
  }
}
