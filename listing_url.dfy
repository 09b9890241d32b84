/**
 * The two parsers of a listing reference (a map-place URL):
 * `extract_name_from_url` (the display-name segment after "/place/") and
 * `extract_lat_lng_from_url` (the first "!3d<lat>!4d<lng>" pair).
 */
module ListingUrl {
  import opened Text
  import Email

  const PlaceMarker: string := "/place/"

  // ---------------- percent-decoding ----------------

  predicate IsHexDigit(c: char) {
    '0' <= c <= '9' || 'a' <= c <= 'f' || 'A' <= c <= 'F'
  }

  function HexValue(c: char): (v: nat)
    requires IsHexDigit(c)
    ensures v < 16
  {
    if '0' <= c <= '9' then c as int - '0' as int
    else if 'a' <= c <= 'f' then c as int - 'a' as int + 10
    else c as int - 'A' as int + 10
  }

  function HexDigit(v: nat): (c: char)
    requires v < 16
    ensures IsHexDigit(c) && HexValue(c) == v
  {
    if v < 10 then ('0' as int + v) as char else ('A' as int + v - 10) as char
  }

  /**
   * `unquote`: every "%XX" with two hexadecimal digits becomes the character
   * with code XX; a '%' not followed by two hexadecimal digits stays as it is.
   */
  function Unquote(s: string): (r: string)
    ensures |r| <= |s|
    ensures '%' !in s ==> r == s
  {
    if s == [] then []
    else if |s| >= 3 && s[0] == '%' && IsHexDigit(s[1]) && IsHexDigit(s[2]) then
      [(16 * HexValue(s[1]) + HexValue(s[2])) as char] + Unquote(s[3..])
    else [s[0]] + Unquote(s[1..])
  }

  /** Percent-encoding of every character, the inverse direction of `Unquote` for 8-bit text. */
  function Quote(s: string): (r: string)
    requires forall i :: 0 <= i < |s| ==> s[i] as int < 256
    ensures |r| == 3 * |s|
  {
    if s == [] then []
    else ['%', HexDigit(s[0] as int / 16), HexDigit(s[0] as int % 16)] + Quote(s[1..])
  }

  lemma {:induction false} UnquoteQuote(s: string)
    requires forall i :: 0 <= i < |s| ==> s[i] as int < 256
    ensures Unquote(Quote(s)) == s
  {
    if s != [] {
      var q := Quote(s);
      assert q[3..] == Quote(s[1..]);
      UnquoteQuote(s[1..]);
      assert (16 * HexValue(q[1]) + HexValue(q[2])) == s[0] as int;
    }
  }

  // ---------------- the display name ----------------

  /** The text between the first "/place/" and the next '/' (`url.split("/place/")[1].split("/")[0]`). */
  function PlaceSegment(url: string): (seg: Option<string>)
    ensures seg.None? <==> !Contains(url, PlaceMarker)
    ensures seg.Some? ==> '/' !in seg.value
    ensures seg.Some? ==> exists i :: FirstPlaceAt(url, i) && SegmentAt(url, i + |PlaceMarker|, seg.value)
  {
    match Find(url, PlaceMarker)
    case None => None
    case Some(i) =>
      var seg := TakeUntil(url[i + |PlaceMarker|..], '/');
      assert FirstPlaceAt(url, i);
      Some(seg)
  }

  /** "/place/" occurs at `i` and nowhere before. */
  predicate FirstPlaceAt(url: string, i: int) {
    OccursAt(url, PlaceMarker, i) && forall j :: 0 <= j < i ==> !OccursAt(url, PlaceMarker, j)
  }

  /** `seg` starts at `k` and runs up to the next '/' or the end of `url`. */
  predicate SegmentAt(url: string, k: int, seg: string) {
    OccursAt(url, seg, k) && '/' !in seg && (k + |seg| == |url| || url[k + |seg|] == '/')
  }

  /**
   * `extract_name_from_url`: decode the segment, then turn '+' into a space,
   * then strip; "NA" when the reference has no "/place/".
   */
  function ExtractName(url: string): (name: string)
    ensures !Contains(url, PlaceMarker) ==> name == Email.NA
    ensures Contains(url, PlaceMarker) ==>
      name == Strip(ReplaceChar(Unquote(PlaceSegment(url).value), '+', ' '))
  {
    match PlaceSegment(url)
    case None => Email.NA
    case Some(seg) => Strip(ReplaceChar(Unquote(seg), '+', ' '))
  }

  /**
   * Decoding happens before '+' becomes a space, so no '+' survives, not even
   * one written as "%2B"; and the name never starts or ends with whitespace.
   */
  lemma NameHasNoPlusAndIsStripped(url: string)
    ensures '+' !in ExtractName(url)
    ensures var n := ExtractName(url); n != [] ==> !IsSpace(n[0]) && !IsSpace(n[|n| - 1])
  {
    if Contains(url, PlaceMarker) {
      var replaced := ReplaceChar(Unquote(PlaceSegment(url).value), '+', ' ');
      assert '+' !in replaced by {
        forall j | 0 <= j < |replaced| ensures replaced[j] != '+' { }
      }
      StripAddsNothing(replaced, '+');
    }
  }

  /** A segment made of plain characters (no escapes, no '+', no surrounding blanks) is the name itself. */
  lemma PlainSegmentIsName(url: string, seg: string)
    requires PlaceSegment(url) == Some(seg)
    requires '%' !in seg && '+' !in seg
    requires seg != [] ==> !IsSpace(seg[0]) && !IsSpace(seg[|seg| - 1])
    ensures ExtractName(url) == seg
  {
    assert ReplaceChar(seg, '+', ' ') == seg;
  }

  // ---------------- the coordinates ----------------

  /** The length of the optional leading '-' of `t`. */
  function SignLength(t: string): (n: nat)
    ensures n <= 1
  {
    if t != [] && t[0] == '-' then 1 else 0
  }

  /** `t` is `-?\d+\.\d+` with its '.' at `p`: digits on both sides of it, after the optional sign. */
  predicate DotAt(t: string, p: int) {
    && SignLength(t) < p < |t| - 1 && t[p] == '.'
    && (forall x :: SignLength(t) <= x < p ==> IsDigit(t[x]))
    && (forall x :: p < x < |t| ==> IsDigit(t[x]))
  }

  /** Text of the shape `-?\d+\.\d+`. */
  ghost predicate IsCoordinate(t: string) {
    exists p :: DotAt(t, p)
  }

  /** The end of the run of digits starting at `i`. */
  function DigitRunEnd(s: string, i: nat): (e: nat)
    requires i <= |s|
    ensures i <= e <= |s|
    ensures forall k :: i <= k < e ==> IsDigit(s[k])
    ensures e == |s| || !IsDigit(s[e])
    decreases |s| - i
  {
    if i < |s| && IsDigit(s[i]) then DigitRunEnd(s, i + 1) else i
  }

  /** The index just after an optional leading '-' at `i`. */
  function AfterSign(s: string, i: nat): (j: nat)
    requires i <= |s|
    ensures j <= |s|
  {
    if i < |s| && s[i] == '-' then i + 1 else i
  }

  /**
   * Where the sub-pattern `-?\d+\.\d+` ends when matched at `i`. Both digit
   * runs are maximal: the first is followed by '.', and the greedy second one
   * takes every digit there is.
   */
  function NumberEnd(s: string, i: nat): (e: Option<nat>)
    requires i <= |s|
    ensures e.Some? ==> i < e.value <= |s|
    ensures e.Some? ==> e.value == |s| || !IsDigit(s[e.value])
  {
    var j := AfterSign(s, i);
    var k := DigitRunEnd(s, j);
    if k == j || k == |s| || s[k] != '.' then None
    else
      var m := DigitRunEnd(s, k + 1);
      if m == k + 1 then None else Some(m)
  }

  /** What `NumberEnd` accepts is a coordinate. */
  lemma NumberEndSound(s: string, i: nat)
    requires i <= |s| && NumberEnd(s, i).Some?
    ensures IsCoordinate(s[i..NumberEnd(s, i).value])
  {
    var j := AfterSign(s, i);
    var k := DigitRunEnd(s, j);
    var m := DigitRunEnd(s, k + 1);
    NumberShape(s, i, j, k, m);
  }

  lemma NumberShape(s: string, i: nat, j: nat, k: nat, m: nat)
    requires i <= j <= k < m <= |s| && j == AfterSign(s, i)
    requires j < k && s[k] == '.' && k + 1 < m
    requires forall x :: j <= x < k ==> IsDigit(s[x])
    requires forall x :: k + 1 <= x < m ==> IsDigit(s[x])
    ensures IsCoordinate(s[i..m])
  {
    var t := s[i..m];
    assert SignLength(t) == j - i;
    assert DotAt(t, k - i);
  }

  /** "!3d<lat>!4d<lng>" occurs at `i`. */
  predicate PairAt(s: string, i: int, lat: string, lng: string) {
    && OccursAt(s, "!3d", i)
    && OccursAt(s, lat, i + 3)
    && OccursAt(s, "!4d", i + 3 + |lat|)
    && OccursAt(s, lng, i + 6 + |lat|)
  }

  /** The two captures of `!3d(-?\d+\.\d+)!4d(-?\d+\.\d+)` matched at `i`, if it matches there. */
  function MatchAt(s: string, i: nat): (m: Option<(string, string)>)
    requires i <= |s|
    ensures m.Some? ==> PairAt(s, i, m.value.0, m.value.1)
  {
    if !OccursAt(s, "!3d", i) then None
    else match NumberEnd(s, i + 3)
      case None => None
      case Some(j) =>
        if !OccursAt(s, "!4d", j) then None
        else match NumberEnd(s, j + 3)
          case None => None
          case Some(k) =>
            var lat, lng := s[i + 3..j], s[j + 3..k];
            assert OccursAt(s, lat, i + 3) && OccursAt(s, lng, j + 3);
            Some((lat, lng))
  }

  /** Both captures of a match are coordinates. */
  lemma MatchAtSound(s: string, i: nat)
    requires i <= |s| && MatchAt(s, i).Some?
    ensures IsCoordinate(MatchAt(s, i).value.0) && IsCoordinate(MatchAt(s, i).value.1)
  {
    NumberEndSound(s, i + 3);
    NumberEndSound(s, NumberEnd(s, i + 3).value + 3);
  }

  /** `re.search`: the leftmost position from `i` on where the pattern matches. */
  function SearchFrom(s: string, i: nat): (m: Option<(string, string)>)
    requires i <= |s|
    ensures m.Some? ==> exists p :: i <= p <= |s| && MatchAt(s, p) == m
    ensures m.None? ==> forall p :: i <= p <= |s| ==> MatchAt(s, p).None?
    decreases |s| - i
  {
    var here := MatchAt(s, i);
    if here.Some? then here
    else if i == |s| then None
    else SearchFrom(s, i + 1)
  }

  /** `extract_lat_lng_from_url`: the captures of the first match, else ("NA", "NA"). */
  function ExtractLatLng(url: string): (ll: (string, string))
    ensures ll == (Email.NA, Email.NA) || (IsCoordinate(ll.0) && IsCoordinate(ll.1))
    ensures ll != (Email.NA, Email.NA) ==> exists i :: 0 <= i <= |url| && PairAt(url, i, ll.0, ll.1)
  {
    match SearchFrom(url, 0)
    case None => (Email.NA, Email.NA)
    case Some(m) =>
      assert IsCoordinate(m.0) && IsCoordinate(m.1) by {
        var p :| 0 <= p <= |url| && MatchAt(url, p) == Some(m);
        MatchAtSound(url, p);
      }
      m
  }

  /** Where the sign, the digits and the '.' of a coordinate lie once it occurs at `i`. */
  lemma CoordinateLayout(s: string, i: nat, t: string) returns (j: nat, dot: nat)
    requires OccursAt(s, t, i) && IsCoordinate(t)
    ensures j == AfterSign(s, i) && j < dot && dot + 1 < i + |t| && s[dot] == '.'
    ensures forall x :: j <= x < dot ==> IsDigit(s[x])
    ensures forall x :: dot + 1 <= x < i + |t| ==> IsDigit(s[x])
  {
    var p :| DotAt(t, p);
    assert s[i] == t[0];
    j := i + SignLength(t);
    dot := i + p;
    assert forall x :: i <= x < i + |t| ==> s[x] == t[x - i];
  }

  /** `NumberEnd` finds every coordinate that the text holds at `i`, and extends it over trailing digits. */
  lemma NumberEndFinds(s: string, i: nat, t: string)
    requires OccursAt(s, t, i) && IsCoordinate(t)
    ensures NumberEnd(s, i).Some? && NumberEnd(s, i).value >= i + |t|
  {
    var j, dot := CoordinateLayout(s, i, t);
    DigitRunStops(s, j, dot);
    DigitRunCovers(s, dot + 1, i + |t|);
  }

  lemma {:induction false} DigitRunStops(s: string, j: nat, e: nat)
    requires j <= e < |s| && !IsDigit(s[e])
    requires forall x :: j <= x < e ==> IsDigit(s[x])
    ensures DigitRunEnd(s, j) == e
    decreases e - j
  {
    if j < e { DigitRunStops(s, j + 1, e); }
  }

  lemma {:induction false} DigitRunCovers(s: string, j: nat, e: nat)
    requires j <= e <= |s|
    requires forall x :: j <= x < e ==> IsDigit(s[x])
    ensures DigitRunEnd(s, j) >= e
    decreases e - j
  {
    if j < e { DigitRunCovers(s, j + 1, e); }
  }

  /** A coordinate that is not followed by another digit is matched exactly, no more and no less. */
  lemma NumberEndExact(s: string, i: nat, t: string)
    requires OccursAt(s, t, i) && IsCoordinate(t)
    requires i + |t| == |s| || !IsDigit(s[i + |t|])
    ensures NumberEnd(s, i) == Some(i + |t|)
  {
    var j, dot := CoordinateLayout(s, i, t);
    DigitRunStops(s, j, dot);
    DigitRunCovers(s, dot + 1, i + |t|);
    if i + |t| < |s| { DigitRunStops(s, dot + 1, i + |t|); }
  }

  /**
   * Every reference that holds a well-formed "!3d<lat>!4d<lng>" pair yields
   * coordinates, never the ("NA", "NA") pair.
   */
  lemma PairIsFound(url: string, i: nat, lat: string, lng: string)
    requires PairAt(url, i, lat, lng)
    requires IsCoordinate(lat) && IsCoordinate(lng)
    ensures ExtractLatLng(url) != (Email.NA, Email.NA)
  {
    var j := i + 3 + |lat|;
    MarkerNotDigit(url, j);
    NumberEndExact(url, i + 3, lat);
    NumberEndFinds(url, j + 3, lng);
    MatchAtFromEnds(url, i, j, NumberEnd(url, j + 3).value);
    NotNAWhenFound(url, i);
  }

  lemma MarkerNotDigit(url: string, j: int)
    requires OccursAt(url, "!4d", j)
    ensures !IsDigit(url[j])
  {
    assert url[j] == url[j..j + 3][0];
  }

  /** `MatchAt` read off from where its two numbers end. */
  lemma MatchAtFromEnds(s: string, i: nat, j: nat, k: nat)
    requires i <= |s| && OccursAt(s, "!3d", i) && i + 3 <= |s| && NumberEnd(s, i + 3) == Some(j)
    requires OccursAt(s, "!4d", j) && j + 3 <= |s| && NumberEnd(s, j + 3) == Some(k)
    ensures MatchAt(s, i) == Some((s[i + 3..j], s[j + 3..k]))
  {
  }

  /**
   * The first pair wins: when "!3d<lat>!4d<lng>" is the leftmost match and
   * `lng` is not followed by a further digit, the captures are exactly `lat`
   * and `lng`.
   */
  lemma FirstPairWins(url: string, i: nat, lat: string, lng: string)
    requires PairAt(url, i, lat, lng) && IsCoordinate(lat) && IsCoordinate(lng)
    requires i + 6 + |lat| + |lng| == |url| || !IsDigit(url[i + 6 + |lat| + |lng|])
    requires forall p :: 0 <= p < i ==> MatchAt(url, p).None?
    ensures ExtractLatLng(url) == (lat, lng)
  {
    PairMatched(url, i, lat, lng);
    SearchSkips(url, 0, i);
    assert SearchFrom(url, i) == Some((lat, lng));
  }

  /** A well-formed pair that is not followed by a digit is what `MatchAt` captures where it starts. */
  lemma PairMatched(url: string, i: nat, lat: string, lng: string)
    requires PairAt(url, i, lat, lng) && IsCoordinate(lat) && IsCoordinate(lng)
    requires i + 6 + |lat| + |lng| == |url| || !IsDigit(url[i + 6 + |lat| + |lng|])
    ensures i <= |url| && MatchAt(url, i) == Some((lat, lng))
  {
    LatitudeEnds(url, i, lat, lng);
    assert OccursAt(url, lng, i + 6 + |lat|);
    NumberEndExact(url, i + 6 + |lat|, lng);
    MatchIsPair(url, i, lat, lng);
  }

  lemma LatitudeEnds(url: string, i: nat, lat: string, lng: string)
    requires PairAt(url, i, lat, lng) && IsCoordinate(lat)
    ensures NumberEnd(url, i + 3) == Some(i + 3 + |lat|)
  {
    MarkerNotDigit(url, i + 3 + |lat|);
    NumberEndExact(url, i + 3, lat);
  }

  /** A pair whose two numbers end where the captures end is exactly what `MatchAt` captures there. */
  lemma MatchIsPair(url: string, i: nat, lat: string, lng: string)
    requires PairAt(url, i, lat, lng)
    requires NumberEnd(url, i + 3) == Some(i + 3 + |lat|)
    requires NumberEnd(url, i + 6 + |lat|) == Some(i + 6 + |lat| + |lng|)
    ensures i <= |url| && MatchAt(url, i) == Some((lat, lng))
  {
    var j := i + 3 + |lat|;
    var k := j + 3 + |lng|;
    assert url[i + 3..j] == lat;
    assert url[j + 3..k] == lng;
    MatchAtFromEnds(url, i, j, k);
  }

  lemma {:induction false} SearchSkips(url: string, from: nat, i: nat)
    requires from <= i <= |url|
    requires forall p :: from <= p < i ==> MatchAt(url, p).None?
    ensures SearchFrom(url, from) == SearchFrom(url, i)
    decreases i - from
  {
    if from < i {
      assert MatchAt(url, from).None?;
      assert from < |url|;
      assert SearchFrom(url, from) == SearchFrom(url, from + 1);
      SearchSkips(url, from + 1, i);
    }
  }

  /**
   * `re.search` returns the captures at the leftmost matching position: when
   * the pattern matches at `p` and nowhere from `i` up to `p`, the search from
   * `i` yields exactly the match at `p`.
   */
  lemma SearchFindsLeftmost(s: string, i: nat, p: nat)
    requires i <= p <= |s| && MatchAt(s, p).Some?
    requires forall q :: i <= q < p ==> MatchAt(s, q).None?
    ensures SearchFrom(s, i) == MatchAt(s, p)
  {
    SearchSkips(s, i, p);
  }

  lemma NotNAWhenFound(url: string, i: nat)
    requires i <= |url| && MatchAt(url, i).Some?
    ensures ExtractLatLng(url) != (Email.NA, Email.NA)
  {
    var m := SearchFrom(url, 0);
    assert m.Some?;
    var p :| 0 <= p <= |url| && MatchAt(url, p) == m;
    MatchAtSound(url, p);
    NotCoordinateNA();
    assert m.value.0 != Email.NA;
    assert ExtractLatLng(url) == m.value;
  }

  lemma NotCoordinateNA()
    ensures !IsCoordinate("NA")
  {
    assert SignLength("NA") == 0;
  }
}
