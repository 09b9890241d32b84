/**
 * The Field Extractor's decisions for one listing page (`scrape_business_details`
 * and its helpers): the address fallback over the main panel's lines, the first
 * phone-pattern match, and the assembly of the eight-field record.
 * What the page shows (element texts, attribute values) and what the website
 * fetch produced are inputs; the browser calls themselves are not modelled.
 */
module Fields {
  import opened Text
  import Email
  import ListingUrl

  // ---------------- the address fallback ----------------

  /** The street-type tokens, matched as substrings: "St" also matches inside "State". */
  const StreetTokens: seq<string> := ["Street", "St", "Ave", "Road", "Rd", "Blvd", "Drive"]

  /** A panel line that the fallback accepts: it has a comma and one of the street tokens. */
  predicate IsAddressLine(line: string) {
    Contains(line, ",") && HasStreetToken(line)
  }

  /** `any(x in line for x in StreetTokens)` */
  predicate HasStreetToken(line: string) {
    exists k :: 0 <= k < |StreetTokens| && Contains(line, StreetTokens[k])
  }

  /** The index of the first accepted line, if any. */
  function FirstAddressLine(lines: seq<string>, from: nat): (k: Option<nat>)
    requires from <= |lines|
    ensures k.Some? ==> from <= k.value < |lines| && IsAddressLine(lines[k.value])
    ensures k.Some? ==> forall j :: from <= j < k.value ==> !IsAddressLine(lines[j])
    ensures k.None? ==> forall j :: from <= j < |lines| ==> !IsAddressLine(lines[j])
    decreases |lines| - from
  {
    if from == |lines| then None
    else if IsAddressLine(lines[from]) then Some(from)
    else FirstAddressLine(lines, from + 1)
  }

  /**
   * `extract_address_fallback`: no main panel gives the sentinel; otherwise the
   * first line (of the panel text split on '\n') with a comma and a street
   * token, stripped, or the sentinel when no line qualifies.
   */
  function AddressFallback(panel: Option<string>): (address: string)
    ensures panel.None? ==> address == Email.NA
    ensures address == Email.NA || (panel.Some? && FromAddressLine(panel.value, address))
  {
    match panel
    case None => Email.NA
    case Some(text) =>
      var lines := Split(text, '\n');
      match FirstAddressLine(lines, 0)
      case None => Email.NA
      case Some(k) =>
        assert IsAddressLine(lines[k]);
        Strip(lines[k])
  }

  /** `address` is one line of the panel text that qualifies as an address, stripped. */
  predicate FromAddressLine(text: string, address: string) {
    exists k :: 0 <= k < |Split(text, '\n')| && IsAddressLine(Split(text, '\n')[k]) && address == Strip(Split(text, '\n')[k])
  }

  /** With no qualifying line in the panel, the fallback gives the sentinel. */
  lemma NoAddressLineGivesNA(text: string)
    requires forall j :: 0 <= j < |Split(text, '\n')| ==> !IsAddressLine(Split(text, '\n')[j])
    ensures AddressFallback(Some(text)) == Email.NA
  {
  }

  /** The fallback returns the first qualifying line of the panel, stripped. */
  lemma FirstAddressLineWins(text: string, k: nat)
    requires k < |Split(text, '\n')| && IsAddressLine(Split(text, '\n')[k])
    requires forall j :: 0 <= j < k ==> !IsAddressLine(Split(text, '\n')[j])
    ensures AddressFallback(Some(text)) == Strip(Split(text, '\n')[k])
  {
    FirstAddressLineIs(Split(text, '\n'), k);
  }

  lemma FirstAddressLineIs(lines: seq<string>, k: nat)
    requires k < |lines| && IsAddressLine(lines[k])
    requires forall j :: 0 <= j < k ==> !IsAddressLine(lines[j])
    ensures FirstAddressLine(lines, 0) == Some(k)
  {
  }

  /** The token test is a plain substring test: a line naming a "State" qualifies through "St". */
  lemma StMatchesInsideWords()
    ensures IsAddressLine("Salt Lake City, State 84101")
  {
    assert OccursAt("Salt Lake City, State 84101", ",", 14);
    assert OccursAt("Salt Lake City, State 84101", StreetTokens[1], 16);
  }

  // ---------------- the phone pattern `\+?\d[\d\s().-]{8,}\d` ----------------

  /** The class `[\d\s().-]`. */
  predicate PhoneClass(c: char) {
    IsDigit(c) || IsSpace(c) || c == '(' || c == ')' || c == '.' || c == '-'
  }

  /** Text of the shape `\+?\d[\d\s().-]{8,}\d`, the leading '+' being optional. */
  predicate PhoneShaped(t: string) {
    if t != [] && t[0] == '+' then PhoneDigits(t[1..]) else PhoneDigits(t)
  }

  /** Text of the shape `\d[\d\s().-]{8,}\d`. */
  predicate PhoneDigits(b: string) {
    && |b| >= 10
    && IsDigit(b[0]) && IsDigit(b[|b| - 1])
    && forall k :: 0 < k < |b| - 1 ==> PhoneClass(b[k])
  }

  /** The end of the run of class characters starting at `p`. */
  function ClassRunEnd(s: string, p: nat): (e: nat)
    requires p <= |s|
    ensures p <= e <= |s|
    ensures forall k :: p <= k < e ==> PhoneClass(s[k])
    ensures e == |s| || !PhoneClass(s[e])
    decreases |s| - p
  {
    if p < |s| && PhoneClass(s[p]) then ClassRunEnd(s, p + 1) else p
  }

  /** The greatest index in `[lo, hi)` holding a digit, if any. */
  function LastDigitIn(s: string, lo: nat, hi: nat): (q: Option<nat>)
    requires hi <= |s|
    ensures q.Some? ==> lo <= q.value < hi && IsDigit(s[q.value])
    ensures q.Some? ==> forall k :: q.value < k < hi ==> !IsDigit(s[k])
    ensures q.None? ==> forall k :: lo <= k < hi ==> !IsDigit(s[k])
    decreases hi
  {
    if hi <= lo then None
    else if IsDigit(s[hi - 1]) then Some(hi - 1)
    else LastDigitIn(s, lo, hi - 1)
  }

  /** Where the optional '+' at `i` ends. */
  function AfterPlus(s: string, i: nat): (d: nat)
    requires i < |s|
    ensures d == i || (d == i + 1 && s[i] == '+')
  {
    if s[i] == '+' then i + 1 else i
  }

  /**
   * The end of the pattern's match at `i`, if it matches there. The class run
   * is greedy and gives back characters until a digit follows, so the match
   * ends just after the last digit that leaves at least eight class
   * characters before it.
   */
  function PhoneAt(s: string, i: nat): (e: Option<nat>)
    requires i < |s|
    ensures e.Some? ==> i < e.value <= |s|
  {
    var d := AfterPlus(s, i);
    if d >= |s| || !IsDigit(s[d]) then None
    else
      var run := ClassRunEnd(s, d + 1);
      match LastDigitIn(s, d + 9, run)
      case None => None
      case Some(q) => Some(q + 1)
  }

  /** The digits-and-separators part `\d[\d\s().-]{8,}\d` occupies `[d, j)`. */
  predicate PhoneSpan(s: string, d: nat, j: nat) {
    && d + 10 <= j <= |s|
    && IsDigit(s[d]) && IsDigit(s[j - 1])
    && forall k :: d < k < j - 1 ==> PhoneClass(s[k])
  }

  /** The slice `s[i..j]` has the phone shape exactly when its part after the optional '+' is a span. */
  lemma ShapedIsSpan(s: string, i: nat, j: nat)
    requires i < j <= |s|
    ensures PhoneShaped(s[i..j]) <==> PhoneSpan(s, AfterPlus(s, i), j)
  {
    var d := AfterPlus(s, i);
    var t := s[i..j];
    var b := s[d..j];
    if d == i + 1 {
      assert t[0] == '+' && t[1..] == b;
    } else {
      assert t == b;
    }
    assert forall k :: 0 <= k < |b| ==> b[k] == s[d + k];
    if PhoneSpan(s, d, j) {
      forall k | 0 < k < |b| - 1 ensures PhoneClass(b[k]) {
        assert b[k] == s[d + k];
      }
    }
    if PhoneDigits(b) {
      forall k | d < k < j - 1 ensures PhoneClass(s[k]) {
        assert s[k] == b[k - d];
      }
    }
  }

  /** A match at `i` has the phone shape. */
  lemma PhoneAtSound(s: string, i: nat)
    requires i < |s| && PhoneAt(s, i).Some?
    ensures PhoneShaped(s[i..PhoneAt(s, i).value])
  {
    var d := AfterPlus(s, i);
    var q := LastDigitIn(s, d + 9, ClassRunEnd(s, d + 1)).value;
    assert PhoneSpan(s, d, q + 1);
    ShapedIsSpan(s, i, q + 1);
  }

  /** Every phone-shaped text starting at `i` is covered by the match at `i`. */
  lemma PhoneAtComplete(s: string, i: nat, j: nat)
    requires i < j <= |s| && PhoneShaped(s[i..j])
    ensures PhoneAt(s, i).Some? && j <= PhoneAt(s, i).value
  {
    ShapedIsSpan(s, i, j);
    var d := AfterPlus(s, i);
    var run := ClassRunEnd(s, d + 1);
    ClassRunReaches(s, d, j, run);
    var q := LastDigitIn(s, d + 9, run);
    assert q.Some? && j - 1 <= q.value;
  }

  /** A class run that starts inside a span reaches the span's end. */
  lemma ClassRunReaches(s: string, d: nat, j: nat, run: nat)
    requires PhoneSpan(s, d, j) && run == ClassRunEnd(s, d + 1)
    ensures j <= run
  {
  }

  /** The match at `i` is the longest phone-shaped text starting at `i`. */
  lemma PhoneAtLongest(s: string, i: nat, j: nat)
    requires i < |s| && PhoneAt(s, i).Some? && PhoneAt(s, i).value < j <= |s|
    ensures !PhoneShaped(s[i..j])
  {
    ShapedIsSpan(s, i, j);
    if PhoneSpan(s, AfterPlus(s, i), j) {
      ClassRunReaches(s, AfterPlus(s, i), j, ClassRunEnd(s, AfterPlus(s, i) + 1));
    }
  }

  /** `re.findall(PHONE_REGEX, text)[0]`: the leftmost match, searching from `i`. */
  function FirstPhoneFrom(s: string, i: nat): (m: Option<(nat, nat)>)
    requires i <= |s|
    ensures m.Some? ==> i <= m.value.0 < |s| && PhoneAt(s, m.value.0) == Some(m.value.1)
    ensures m.Some? ==> forall p :: i <= p < m.value.0 ==> PhoneAt(s, p).None?
    ensures m.None? ==> forall p :: i <= p < |s| ==> PhoneAt(s, p).None?
    decreases |s| - i
  {
    if i == |s| then None
    else match PhoneAt(s, i)
      case Some(e) => Some((i, e))
      case None => FirstPhoneFrom(s, i + 1)
  }

  /** The phone field read from the phone control's text: its first pattern match, or the sentinel. */
  function PickPhone(text: string): (phone: string)
    ensures phone == Email.NA || (PhoneShaped(phone) && |phone| >= 10 && Contains(text, phone))
  {
    match FirstPhoneFrom(text, 0)
    case None => Email.NA
    case Some((i, e)) =>
      PhoneAtSound(text, i);
      assert OccursAt(text, text[i..e], i);
      text[i..e]
  }

  /**
   * The phone read from a control's text is the sentinel exactly when no
   * phone-shaped text occurs in it; otherwise it is the phone-shaped text that
   * starts leftmost and, from there, reaches furthest. In particular it has at
   * least ten characters and ends in a digit.
   */
  lemma PickPhoneIsLeftmostLongest(text: string)
    ensures PickPhone(text) == Email.NA <==> forall i, j :: 0 <= i < j <= |text| ==> !PhoneShaped(text[i..j])
    ensures PickPhone(text) != Email.NA ==> exists i, e :: (0 <= i < e <= |text|
      && PickPhone(text) == text[i..e] && PhoneShaped(text[i..e])
      && (forall p, j :: 0 <= p < i && p < j <= |text| ==> !PhoneShaped(text[p..j]))
      && (forall j :: e < j <= |text| ==> !PhoneShaped(text[i..j])))
  {
    match FirstPhoneFrom(text, 0)
    case None =>
      forall i, j | 0 <= i < j <= |text| ensures !PhoneShaped(text[i..j]) {
        if PhoneShaped(text[i..j]) { PhoneAtComplete(text, i, j); }
      }
    case Some((i, e)) =>
      PhoneAtSound(text, i);
      assert |text[i..e]| >= 10;
      forall p, j | 0 <= p < i && p < j <= |text| ensures !PhoneShaped(text[p..j]) {
        if PhoneShaped(text[p..j]) { PhoneAtComplete(text, p, j); }
      }
      forall j | e < j <= |text| ensures !PhoneShaped(text[i..j]) {
        PhoneAtLongest(text, i, j);
      }
  }

  // ---------------- the record ----------------

  /**
   * What the listing page shows once the navigation has been attempted. Each
   * element is `None` when the page does not have it; otherwise it carries the
   * element's inner text (or, for the website link, its `href`).
   */
  datatype PageView = PageView(
    loaded: bool,                // `safe_goto` succeeded
    heading: Option<string>,     // the `h1` element's text
    addressButton: Option<string>,
    mainPanel: Option<string>,   // the `div[role='main']` text
    phoneButton: Option<string>,
    websiteLink: Option<string>)

  /** The eight fields of a business record, in the column order of the export. */
  datatype Record = Record(
    name: string, address: string, phone: string, website: string,
    email: string, url: string, lat: string, lng: string)

  /** The column headers of every exported sheet, in record order. */
  const Columns: seq<string> := ["Name", "Address", "Phone", "Website", "Email", "Google Maps URL", "Latitude", "Longitude"]

  /** The record as the row the export writes: one cell per column. */
  function Row(r: Record): (row: seq<string>)
    ensures |row| == |Columns|
    ensures row[5] == r.url
  {
    [r.name, r.address, r.phone, r.website, r.email, r.url, r.lat, r.lng]
  }

  /** The address: the address control's text stripped; the panel fallback only when that is the sentinel. */
  function PickAddress(button: Option<string>, panel: Option<string>): (address: string)
    ensures button.Some? && Strip(button.value) != Email.NA ==> address == Strip(button.value)
    ensures address == Email.NA || (button.Some? && address == Strip(button.value))
      || (panel.Some? && FromAddressLine(panel.value, address))
  {
    var explicit := if button.Some? then Strip(button.value) else Email.NA;
    if explicit == Email.NA then AddressFallback(panel) else explicit
  }

  /**
   * `scrape_business_details`: `None` when the navigation fails, otherwise the
   * record with name, address, phone, website, email, the listing reference
   * itself and its coordinates. `fetch` is what fetching the website produced;
   * it is consulted only when there is a website.
   */
  function ScrapeBusinessDetails(url: string, page: PageView, fetch: Email.FetchOutcome): (r: Option<Record>)
    ensures r.None? <==> !page.loaded
  {
    if !page.loaded then None
    else
      var name := if page.heading.Some? then page.heading.value else ListingUrl.ExtractName(url);
      var address := PickAddress(page.addressButton, page.mainPanel);
      var phone := if page.phoneButton.Some? then PickPhone(page.phoneButton.value) else Email.NA;
      var website := if page.websiteLink.Some? then page.websiteLink.value else Email.NA;
      var email := if website != Email.NA then Email.ExtractEmail(fetch) else Email.NA;
      var (lat, lng) := ListingUrl.ExtractLatLng(url);
      Some(Record(name, address, phone, website, email, url, lat, lng))
  }

  /** The name is the heading, or else a name read from the listing reference, with no '+' and no edge blanks. */
  lemma RecordName(url: string, page: PageView, fetch: Email.FetchOutcome)
    requires page.loaded
    ensures var r := ScrapeBusinessDetails(url, page, fetch).value;
      && (page.heading.Some? ==> r.name == page.heading.value)
      && (page.heading.None? ==> '+' !in r.name && (r.name != [] ==> !IsSpace(r.name[0]) && !IsSpace(r.name[|r.name| - 1])))
  {
    ListingUrl.NameHasNoPlusAndIsStripped(url);
  }

  /** The address is the sentinel, the stripped address control, or a stripped address line of the panel. */
  lemma RecordAddress(url: string, page: PageView, fetch: Email.FetchOutcome)
    requires page.loaded
    ensures var r := ScrapeBusinessDetails(url, page, fetch).value;
      || r.address == Email.NA
      || (page.addressButton.Some? && r.address == Strip(page.addressButton.value))
      || (page.mainPanel.Some? && FromAddressLine(page.mainPanel.value, r.address))
  {
  }

  /** The phone is the sentinel or a phone-shaped text of at least ten characters found in the phone control. */
  lemma RecordPhone(url: string, page: PageView, fetch: Email.FetchOutcome)
    requires page.loaded
    ensures var r := ScrapeBusinessDetails(url, page, fetch).value;
      || r.phone == Email.NA
      || (page.phoneButton.Some? && PhoneShaped(r.phone) && |r.phone| >= 10 && Contains(page.phoneButton.value, r.phone))
  {
  }

  /**
   * The website is the link when there is one; the email is the sentinel, or
   * the first `mailto:` capture or first email match of a successful fetch,
   * and only when there is a website.
   */
  lemma RecordContact(url: string, page: PageView, fetch: Email.FetchOutcome)
    requires page.loaded
    ensures var r := ScrapeBusinessDetails(url, page, fetch).value;
      && (page.websiteLink.Some? ==> r.website == page.websiteLink.value)
      && (page.websiteLink.None? ==> r.website == Email.NA)
      && (r.email == Email.NA
          || (r.website != Email.NA && fetch.Response? && fetch.status == 200
              && ((fetch.mailtos != [] && r.email == fetch.mailtos[0])
                  || (fetch.mailtos == [] && fetch.emails != [] && r.email == fetch.emails[0]))))
  {
  }

  /** The reference is kept, and the coordinates are the sentinels or a pair that occurs in it. */
  lemma RecordLocation(url: string, page: PageView, fetch: Email.FetchOutcome)
    requires page.loaded
    ensures var r := ScrapeBusinessDetails(url, page, fetch).value;
      && r.url == url
      && ((r.lat, r.lng) == (Email.NA, Email.NA)
          || (ListingUrl.IsCoordinate(r.lat) && ListingUrl.IsCoordinate(r.lng)
              && exists i :: 0 <= i <= |url| && ListingUrl.PairAt(url, i, r.lat, r.lng)))
  {
  }

  /** Without a website the fetch result is never looked at: the email is the sentinel whatever it was. */
  lemma NoWebsiteNoEmail(url: string, page: PageView, f1: Email.FetchOutcome, f2: Email.FetchOutcome)
    requires page.loaded && (page.websiteLink.None? || page.websiteLink.value == Email.NA)
    ensures ScrapeBusinessDetails(url, page, f1) == ScrapeBusinessDetails(url, page, f2)
    ensures ScrapeBusinessDetails(url, page, f1).value.email == Email.NA
  {
  }

  /** The panel is consulted only when the explicit address is missing or reads as the sentinel. */
  lemma FallbackOnlyWhenNA(text: string, p1: Option<string>, p2: Option<string>)
    requires Strip(text) != Email.NA
    ensures PickAddress(Some(text), p1) == PickAddress(Some(text), p2) == Strip(text)
  {
  }

  /** Without an address control, the address is exactly the panel fallback. */
  lemma MissingAddressFallsBack(panel: Option<string>)
    ensures PickAddress(None, panel) == AddressFallback(panel)
  {
  }
}
