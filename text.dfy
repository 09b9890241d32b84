/**
 * The handful of Python `str` operations the scraper relies on, written out
 * over `seq<char>`: substring search, `startswith`/`endswith`, single-character
 * `split`, `replace`, `strip`, ASCII `lower` and slicing `s[:n]`.
 */
module Text {

  /** `c.isspace()` in Python: the ASCII whitespace and separator controls and the Unicode spaces. */
  predicate IsSpace(c: char) {
    || c == ' ' || c == '\t' || c == '\n' || c == '\r' || c == '\U{000B}' || c == '\U{000C}'
    || ('\U{001C}' <= c <= '\U{001F}')
    || c == '\U{0085}' || c == '\U{00A0}' || c == '\U{1680}'
    || ('\U{2000}' <= c <= '\U{200A}')
    || c == '\U{2028}' || c == '\U{2029}' || c == '\U{202F}' || c == '\U{205F}' || c == '\U{3000}'
  }

  predicate IsDigit(c: char) { '0' <= c <= '9' }

  predicate IsAsciiLetter(c: char) { 'a' <= c <= 'z' || 'A' <= c <= 'Z' }

  /** `s.startswith(p)` */
  predicate StartsWith(s: string, p: string) {
    |p| <= |s| && s[..|p|] == p
  }

  /** `s.endswith(p)` */
  predicate EndsWith(s: string, p: string) {
    |p| <= |s| && s[|s| - |p|..] == p
  }

  /** `sub` occurs in `s` starting at index `i`. */
  predicate OccursAt(s: string, sub: string, i: int) {
    0 <= i && i + |sub| <= |s| && s[i..i + |sub|] == sub
  }

  /** `sub in s` */
  predicate Contains(s: string, sub: string) {
    exists i :: 0 <= i <= |s| && OccursAt(s, sub, i)
  }

  /** The index of the first occurrence of `sub` in `s`, as `s.find(sub)` without the -1. */
  function Find(s: string, sub: string): (r: Option<nat>)
    ensures r.Some? ==> OccursAt(s, sub, r.value)
    ensures r.Some? ==> forall j :: 0 <= j < r.value ==> !OccursAt(s, sub, j)
    ensures r.None? <==> !Contains(s, sub)
  {
    FindFrom(s, sub, 0)
  }

  function FindFrom(s: string, sub: string, i: nat): (r: Option<nat>)
    requires i <= |s|
    decreases |s| - i
    ensures r.Some? ==> i <= r.value && OccursAt(s, sub, r.value)
    ensures r.Some? ==> forall j :: i <= j < r.value ==> !OccursAt(s, sub, j)
    ensures r.None? <==> forall j :: i <= j ==> !OccursAt(s, sub, j)
  {
    if i + |sub| > |s| then None
    else if s[i..i + |sub|] == sub then assert OccursAt(s, sub, i); Some(i)
    else FindFrom(s, sub, i + 1)
  }

  datatype Option<T> = None | Some(value: T)

  /** `s.lower()` restricted to ASCII letters. */
  function Lower(s: string): (r: string)
    ensures |r| == |s|
    ensures forall i :: 0 <= i < |s| ==> r[i] == LowerChar(s[i])
    ensures (forall i :: 0 <= i < |s| ==> !('A' <= s[i] <= 'Z')) ==> r == s
  {
    if s == [] then [] else [LowerChar(s[0])] + Lower(s[1..])
  }

  function LowerChar(c: char): char {
    if 'A' <= c <= 'Z' then (c as int + 32) as char else c
  }

  /** `s.replace(a, b)` for single characters. */
  function ReplaceChar(s: string, a: char, b: char): (r: string)
    ensures |r| == |s|
    ensures forall i :: 0 <= i < |s| ==> r[i] == (if s[i] == a then b else s[i])
  {
    if s == [] then [] else [if s[0] == a then b else s[0]] + ReplaceChar(s[1..], a, b)
  }

  /** A character that does not occur in `s` does not occur in its stripped form either. */
  lemma StripAddsNothing(s: string, c: char)
    requires c !in s
    ensures c !in Strip(s)
  {
  }

  /** Replacing `a` by a character `b` that `s` lacks, and then `b` by `a`, gives `s` back. */
  lemma ReplaceCharRoundTrip(s: string, a: char, b: char)
    requires b !in s
    ensures ReplaceChar(ReplaceChar(s, a, b), b, a) == s
  {
    var r := ReplaceChar(ReplaceChar(s, a, b), b, a);
    forall i | 0 <= i < |s| ensures r[i] == s[i] {
      assert s[i] != b;
    }
  }

  /** `s.replace(p, "")`: every occurrence of `p`, scanned left to right without overlap, is removed. */
  function RemoveAll(s: string, p: string): (r: string)
    requires p != []
    ensures |r| <= |s|
    ensures forall i :: 0 <= i < |r| ==> r[i] in s
    ensures (exists j :: 0 <= j < |p| && p[j] !in s) ==> r == s
  {
    if s == [] then []
    else if StartsWith(s, p) then RemoveAll(s[|p|..], p)
    else [s[0]] + RemoveAll(s[1..], p)
  }

  /** The characters of `s` that satisfy `keep`, in order (`re.sub("[^...]", "", s)`). */
  function FilterChars(s: string, keep: char -> bool): (r: string)
    ensures |r| <= |s|
    ensures forall i :: 0 <= i < |r| ==> keep(r[i]) && r[i] in s
    ensures (forall i :: 0 <= i < |s| ==> keep(s[i])) ==> r == s
  {
    if s == [] then [] else (if keep(s[0]) then [s[0]] else []) + FilterChars(s[1..], keep)
  }

  /** `s.lstrip()` */
  function StripLeft(s: string): (r: string)
    ensures |r| <= |s| && r == s[|s| - |r|..]
    ensures r != [] ==> !IsSpace(r[0])
    ensures forall i :: 0 <= i < |s| - |r| ==> IsSpace(s[i])
  {
    if s != [] && IsSpace(s[0]) then StripLeft(s[1..]) else s
  }

  /** `s.rstrip()` */
  function StripRight(s: string): (r: string)
    ensures |r| <= |s| && r == s[..|r|]
    ensures r != [] ==> !IsSpace(r[|r| - 1])
    ensures forall i :: |r| <= i < |s| ==> IsSpace(s[i])
  {
    if s != [] && IsSpace(s[|s| - 1]) then StripRight(s[..|s| - 1]) else s
  }

  /** `s.strip()`: the result has no whitespace at either end and is a slice of `s`. */
  function Strip(s: string): (r: string)
    ensures r != [] ==> !IsSpace(r[0]) && !IsSpace(r[|r| - 1])
    ensures Contains(s, r)
    ensures forall i :: 0 <= i < |r| ==> r[i] in s
  {
    var l := StripLeft(s);
    var r := StripRight(l);
    assert r == s[|s| - |l|..][..|r|] == s[|s| - |l|..|s| - |l| + |r|];
    assert OccursAt(s, r, |s| - |l|);
    if r != [] then (assert r[0] == l[0]; r) else r
  }

  /**
   * `strip` removes whitespace and nothing else: the result is the slice of
   * `s` between its leading and its trailing whitespace.
   */
  lemma StripRemovesOnlyWhitespace(s: string)
    ensures exists a :: TrimmedAt(s, Strip(s), a)
  {
    var l := StripLeft(s);
    var a := |s| - |l|;
    var r := StripRight(l);
    assert Strip(s) == r;
    assert r == s[a..a + |r|];
    forall i | a + |r| <= i < |s| ensures IsSpace(s[i]) {
      assert s[i] == l[i - a];
    }
    assert TrimmedAt(s, r, a);
  }

  /** `r` is `s` from `a` on, with only whitespace before `a` and after `r`. */
  predicate TrimmedAt(s: string, r: string, a: int) {
    && 0 <= a && a + |r| <= |s| && r == s[a..a + |r|]
    && (forall i :: 0 <= i < a ==> IsSpace(s[i]))
    && (forall i :: a + |r| <= i < |s| ==> IsSpace(s[i]))
  }

  /** The text before the first `c`, that is `s.split(c)[0]`. */
  function TakeUntil(s: string, c: char): (r: string)
    ensures |r| <= |s| && r == s[..|r|]
    ensures c !in r
    ensures |r| < |s| ==> s[|r|] == c
  {
    if s == [] || s[0] == c then [] else [s[0]] + TakeUntil(s[1..], c)
  }

  /** `c.join(pieces)` */
  function Join(pieces: seq<string>, c: char): string
    requires pieces != []
    decreases |pieces|
  {
    if |pieces| == 1 then pieces[0] else pieces[0] + [c] + Join(pieces[1..], c)
  }

  /**
   * `s.split(c)`: the pieces between consecutive occurrences of `c`. No piece
   * holds a `c`, and joining the pieces with `c` gives `s` back.
   */
  function Split(s: string, c: char): (r: seq<string>)
    ensures |r| >= 1
    ensures r[0] == TakeUntil(s, c)
    ensures forall k :: 0 <= k < |r| ==> c !in r[k]
    ensures Join(r, c) == s
    decreases |s|
  {
    var head := TakeUntil(s, c);
    if |head| == |s| then [s]
    else
      var rest := Split(s[|head| + 1..], c);
      assert ([head] + rest)[1..] == rest;
      assert s == head + [c] + s[|head| + 1..];
      [head] + rest
  }

  /** The text before the first `c` of `a + b` lies in `a` when `a` has a `c`, and runs on into `b` otherwise. */
  lemma {:induction false} TakeUntilAppend(a: string, b: string, c: char)
    ensures c in a ==> TakeUntil(a + b, c) == TakeUntil(a, c)
    ensures c !in a ==> TakeUntil(a + b, c) == a + TakeUntil(b, c)
  {
    if a == [] {
      assert a + b == b;
    } else {
      assert (a + b)[0] == a[0] && (a + b)[1..] == a[1..] + b;
      if a[0] != c {
        TakeUntilAppend(a[1..], b, c);
      }
    }
  }

  /** `s.split(c)[1]`: when `s` has a `c`, the second piece is the text between the first `c` and the next. */
  lemma SplitSecond(s: string, c: char)
    requires c in s
    ensures |Split(s, c)| >= 2
    ensures Split(s, c)[1] == TakeUntil(s[|TakeUntil(s, c)| + 1..], c)
  {
    assert TakeUntil(s, c) != s;
  }

  /** `s[:n]` */
  function Truncate(s: string, n: nat): (r: string)
    ensures |r| <= n && |r| <= |s| && r == s[..|r|]
    ensures |s| <= n ==> r == s
    ensures |s| > n ==> |r| == n
  {
    if |s| <= n then s else s[..n]
  }

  /** `str(n)`: the decimal digits of `n`, without leading zeros. */
  function NatToString(n: nat): (r: string)
    ensures r != [] && forall i :: 0 <= i < |r| ==> IsDigit(r[i])
    ensures n > 0 ==> r[0] != '0'
  {
    if n < 10 then [Digit(n)] else NatToString(n / 10) + [Digit(n % 10)]
  }

  function Digit(d: nat): (c: char)
    requires d < 10
    ensures IsDigit(c)
  {
    ('0' as int + d) as char
  }

  /** `a < b` on Python strings: lexicographic order by code point. */
  predicate Less(a: string, b: string)
    decreases |a|
  {
    if a == [] then b != []
    else if b == [] then false
    else if a[0] != b[0] then a[0] < b[0]
    else Less(a[1..], b[1..])
  }

  lemma {:induction false} LessIrreflexive(a: string)
    ensures !Less(a, a)
    decreases |a|
  {
    if a != [] { LessIrreflexive(a[1..]); }
  }

  lemma {:induction false} LessTransitive(a: string, b: string, c: string)
    requires Less(a, b) && Less(b, c)
    ensures Less(a, c)
    decreases |a|
  {
    if a != [] && b != [] && c != [] && a[0] == b[0] && b[0] == c[0] {
      LessTransitive(a[1..], b[1..], c[1..]);
    }
  }

  lemma {:induction false} LessTotal(a: string, b: string)
    requires a != b
    ensures Less(a, b) || Less(b, a)
    decreases |a|
  {
    if a != [] && b != [] && a[0] == b[0] {
      assert a == [a[0]] + a[1..] && b == [b[0]] + b[1..];
      LessTotal(a[1..], b[1..]);
    }
  }
}
