/**
 * The Email Resolver's decision logic (`extract_email_fast`): given what the
 * fetch of a business website produced, pick one address or the "NA" sentinel.
 * The two regular-expression scans of the page are inputs: `mailtos` is what
 * the `mailto:` pattern captured and `emails` what the email pattern matched,
 * both in page order.
 */
module Email {
  import opened Text

  /** The sentinel the scraper writes for every unknown field. */
  const NA: string := "NA"

  /** Placeholder addresses that mark a page as a template rather than a real contact. */
  const DummyEmails: set<string> := {
    "user@domain.com", "hi@mystore.com", "your@email.com",
    "example@example.com", "info@mysite.com", "info@example.com",
    "hello@locmaps.com", "filler@godaddy.com", "contact@mysite.com",
    "name@example.com", "impallari@gmail.com", "someone@example.com",
    "info@indiantypefoundry.com", "team@latofonts.com",
    "hello@usmapsz.xyz", "support@glossgenius.com",
    "icon@2x.webp", "email@email.com"
  }

  /** What the bounded-time GET of the website produced. */
  datatype FetchOutcome =
    | Failed  // timeout, connection error, or any exception while fetching or reading the body
    | Response(status: int, mailtos: seq<string>, emails: seq<string>)

  /** The characters `[\w@.+-]` that normalisation keeps. */
  predicate KeptInCleaned(c: char) {
    IsAsciiLetter(c) || IsDigit(c) || c == '_' || c == '@' || c == '.' || c == '+' || c == '-'
  }

  /** Text that normalisation leaves as it is: only `[\w@.+-]` characters, none of them upper-case. */
  predicate IsClean(e: string) {
    forall i :: 0 <= i < |e| ==> KeptInCleaned(e[i]) && !('A' <= e[i] <= 'Z')
  }

  /**
   * `clean_email`: lower-case, drop every "mailto:", drop characters outside
   * `[\w@.+-]`. The result is clean, and clean text is its own normal form.
   */
  function Clean(e: string): (r: string)
    ensures |r| <= |e|
    ensures IsClean(r)
    ensures IsClean(e) ==> r == e
  {
    CleanTextKept(e);
    LoweredHasNoUpper(e);
    FilterChars(RemoveAll(Lower(e), "mailto:"), KeptInCleaned)
  }

  /** No character left after lower-casing and removing "mailto:" is an upper-case letter. */
  lemma LoweredHasNoUpper(e: string)
    ensures forall c :: c in RemoveAll(Lower(e), "mailto:") ==> !('A' <= c <= 'Z')
  {
    var lowered := Lower(e);
    forall c | c in lowered
      ensures !('A' <= c <= 'Z')
    {
      var j :| 0 <= j < |lowered| && lowered[j] == c;
    }
  }

  /** Clean text survives lower-casing and the removal of "mailto:", which holds a ':' it lacks. */
  lemma CleanTextKept(e: string)
    ensures IsClean(e) ==> RemoveAll(Lower(e), "mailto:") == e
  {
    if IsClean(e) {
      assert Lower(e) == e;
      assert "mailto:"[6] !in e;
    }
  }

  /** Some candidate, once normalised, is a known placeholder address. */
  predicate AnyDummy(emails: seq<string>) {
    exists k :: 0 <= k < |emails| && Clean(emails[k]) in DummyEmails
  }

  /** `em.endswith((".png", ".jpg", ".jpeg", ".svg"))` */
  predicate HasImageExtension(em: string) {
    EndsWith(em, ".png") || EndsWith(em, ".jpg") || EndsWith(em, ".jpeg") || EndsWith(em, ".svg")
  }

  function DigitCount(s: string): (n: nat)
    ensures n <= |s|
    ensures n == 0 <== forall i :: 0 <= i < |s| ==> !IsDigit(s[i])
  {
    if s == [] then 0 else (if IsDigit(s[0]) then 1 else 0) + DigitCount(s[1..])
  }

  /**
   * `digit_ratio > 0.5` for a non-empty local part: the share of digits is
   * strictly more than one half, written without division.
   */
  predicate MostlyDigits(local: string) {
    2 * DigitCount(local) > |local|
  }

  /** The text before the first '@' (`em.split("@")[0]`). */
  function LocalPart(em: string): string {
    TakeUntil(em, '@')
  }

  /** The heuristics applied to the first pattern match once no placeholder was seen. */
  predicate PassesShapeChecks(first: string) {
    var em := Lower(first);
    && !HasImageExtension(em)
    && |LocalPart(em)| > 0   // an empty local part raises ZeroDivisionError, caught as "NA"
    && !MostlyDigits(LocalPart(em))
  }

  /**
   * `extract_email_fast` after the fetch. The result is always the sentinel,
   * the first `mailto:` capture or the first pattern match: never any other text.
   */
  function ExtractEmail(fetch: FetchOutcome): (r: string)
    ensures r == NA
         || (fetch.Response? && fetch.status == 200 && fetch.mailtos != [] && r == fetch.mailtos[0])
         || (fetch.Response? && fetch.status == 200 && fetch.mailtos == [] && fetch.emails != [] && r == fetch.emails[0])
  {
    match fetch
    case Failed => NA
    case Response(status, mailtos, emails) =>
      if status != 200 then NA
      else if mailtos != [] then mailtos[0]
      else if emails == [] then NA
      else if AnyDummy(emails) then NA
      else if !PassesShapeChecks(emails[0]) then NA
      else emails[0]
  }

  /** A pattern match: both regular expressions only ever yield text containing '@'. */
  predicate LooksLikeAddress(s: string) {
    '@' in s
  }

  /** The outcome the regular expressions can produce: every capture and match has an '@'. */
  predicate WellFormedScan(fetch: FetchOutcome) {
    fetch.Response? ==>
      && (forall k :: 0 <= k < |fetch.mailtos| ==> LooksLikeAddress(fetch.mailtos[k]))
      && (forall k :: 0 <= k < |fetch.emails| ==> LooksLikeAddress(fetch.emails[k]))
  }

  /** Any status other than 200, or a failed fetch, yields the sentinel. */
  lemma NonSuccessIsNA(fetch: FetchOutcome)
    requires fetch.Failed? || fetch.status != 200
    ensures ExtractEmail(fetch) == NA
  {
  }

  /** The first `mailto:` capture is returned unfiltered: no placeholder, extension or digit test. */
  lemma MailtoWins(status: int, mailtos: seq<string>, emails: seq<string>)
    requires status == 200 && mailtos != []
    ensures ExtractEmail(Response(status, mailtos, emails)) == mailtos[0]
  {
  }

  /** One placeholder anywhere among the candidates rejects the whole page, even a real first match. */
  lemma DummyAnywhereRejects(emails: seq<string>, k: nat)
    requires k < |emails| && Clean(emails[k]) in DummyEmails
    ensures ExtractEmail(Response(200, [], emails)) == NA
  {
  }

  /** Every placeholder address is already in normal form. */
  lemma PlaceholdersAreClean()
    ensures forall d :: d in DummyEmails ==> IsClean(d)
  {
    PlaceholdersCleanPart1();
    PlaceholdersCleanPart2();
    PlaceholdersCleanPart3();
    PlaceholdersCleanPart4();
    PlaceholdersCleanPart5();
    PlaceholdersCleanPart6();
  }

  lemma PlaceholdersCleanPart1()
    ensures IsClean("user@domain.com") && IsClean("hi@mystore.com") && IsClean("your@email.com")
  {
  }

  lemma PlaceholdersCleanPart2()
    ensures IsClean("example@example.com") && IsClean("info@mysite.com") && IsClean("info@example.com")
  {
  }

  lemma PlaceholdersCleanPart3()
    ensures IsClean("hello@locmaps.com") && IsClean("filler@godaddy.com") && IsClean("contact@mysite.com")
  {
  }

  lemma PlaceholdersCleanPart4()
    ensures IsClean("name@example.com") && IsClean("impallari@gmail.com") && IsClean("someone@example.com")
  {
  }

  lemma PlaceholdersCleanPart5()
    ensures IsClean("info@indiantypefoundry.com") && IsClean("team@latofonts.com") && IsClean("hello@usmapsz.xyz")
  {
  }

  lemma PlaceholdersCleanPart6()
    ensures IsClean("support@glossgenius.com") && IsClean("icon@2x.webp") && IsClean("email@email.com")
  {
  }

  /**
   * A page listing any placeholder address, in any mix of letter case,
   * yields the sentinel when it has no `mailto:` capture.
   */
  lemma PlaceholderInAnyCaseRejected(emails: seq<string>, k: nat, d: string)
    requires k < |emails| && d in DummyEmails
    requires |emails[k]| == |d| && forall i :: 0 <= i < |d| ==> LowerChar(emails[k][i]) == d[i]
    ensures ExtractEmail(Response(200, [], emails)) == NA
  {
    PlaceholdersAreClean();
    assert Clean(d) == d;
    CleanIgnoresCase(emails[k], d);
    DummyAnywhereRejects(emails, k);
  }

  /** Normalisation ignores letter case, so two spellings of a placeholder are rejected alike. */
  lemma {:induction false} CleanIgnoresCase(a: string, b: string)
    requires |a| == |b|
    requires forall i :: 0 <= i < |a| ==> LowerChar(a[i]) == LowerChar(b[i])
    ensures Clean(a) == Clean(b)
  {
    assert Lower(a) == Lower(b);
  }

  /**
   * Without `mailto:` captures, the first match is returned exactly when there
   * is one, no candidate is a placeholder and the first match passes the
   * extension and digit-share checks; otherwise the result is the sentinel.
   */
  lemma FirstMatchAcceptedIff(emails: seq<string>)
    requires forall k :: 0 <= k < |emails| ==> LooksLikeAddress(emails[k])
    ensures var r := ExtractEmail(Response(200, [], emails));
      && (r != NA <==> emails != [] && !AnyDummy(emails) && PassesShapeChecks(emails[0]))
      && (r != NA ==> r == emails[0])
  {
    if emails != [] {
      assert '@' in emails[0];
      assert '@' !in NA;
    }
  }

  /** The result is the sentinel or an address-shaped string: never empty text or arbitrary HTML. */
  lemma ResultIsNAOrAddress(fetch: FetchOutcome)
    requires WellFormedScan(fetch)
    ensures var r := ExtractEmail(fetch); r == NA || LooksLikeAddress(r)
  {
  }

  /** The digit-share threshold is strict: exactly half digits passes, one more digit than that fails. */
  lemma DigitShareBoundary()
    ensures !MostlyDigits("a1b2c3d4")
    ensures MostlyDigits("a1b2c3d45")
  {
  }
}
