/**
 * The City Crawler (`scrape_city`) and what the orchestrator of main.py does
 * with its results: the search reference built from the city and state, the
 * de-duplicated set of listing references, the filter that keeps only the
 * listings that produced a record, and the `city_results` filter that drops
 * cities without any record.
 */
module Crawl {
  import opened Text
  import opened Dicts
  import Fields

  const BaseUrl: string := "https://www.google.com/maps/search/"

  /** The two files differ in one character of the query: ",USA" (main.py) and ", USA" (main_final.py). */
  datatype Variant = First | Final

  function CountrySuffix(v: Variant): string {
    if v == First then ",USA" else ", USA"
  }

  /** `build_search_terms`: the single query of a city. */
  function BuildSearchTerms(city: string, stateName: string): (terms: seq<string>)
    ensures |terms| == 1
    ensures StartsWith(terms[0], "Hair Salon in ") && OccursAt(terms[0], city, 14)
    ensures EndsWith(terms[0], ", " + stateName) && |terms[0]| == 14 + |city| + 2 + |stateName|
  {
    var q := "Hair Salon in " + city + ", " + stateName;
    assert q[14..14 + |city|] == city;
    [q]
  }

  /** Two cities of a state never share a query: the query names its city. */
  lemma SearchTermsNameTheCity(city: string, other: string, stateName: string)
    requires city != other
    ensures BuildSearchTerms(city, stateName) != BuildSearchTerms(other, stateName)
  {
    var q, r := BuildSearchTerms(city, stateName)[0], BuildSearchTerms(other, stateName)[0];
    if |city| != |other| {
      assert |q| != |r|;
    } else {
      assert q[14..14 + |city|] == city && r[14..14 + |city|] == other;
    }
  }

  /** The search reference: the query with its country suffix, every space turned into '+'. */
  function SearchUrl(city: string, stateName: string, v: Variant): (url: string)
    ensures StartsWith(url, BaseUrl)
    ensures ' ' !in url
  {
    BaseUrlHasNoSpace();
    var encoded := ReplaceChar("Hair Salon in " + city + ", " + stateName + CountrySuffix(v), ' ', '+');
    assert (BaseUrl + encoded)[..|BaseUrl|] == BaseUrl;
    BaseUrl + encoded
  }

  lemma BaseUrlHasNoSpace()
    ensures ' ' !in BaseUrl
  {
  }

  /** The inline query of `scrape_city` is the one `build_search_terms` produces, with the country appended. */
  lemma SearchUrlUsesSearchTerm(city: string, stateName: string, v: Variant)
    ensures SearchUrl(city, stateName, v) == BaseUrl + ReplaceChar(BuildSearchTerms(city, stateName)[0] + CountrySuffix(v), ' ', '+')
  {
  }

  /** Turning '+' back into spaces recovers the query whenever the city and state have no '+' of their own. */
  lemma SearchUrlRoundTrip(city: string, stateName: string, v: Variant)
    requires '+' !in city && '+' !in stateName
    ensures ReplaceChar(SearchUrl(city, stateName, v)[|BaseUrl|..], '+', ' ')
         == BuildSearchTerms(city, stateName)[0] + CountrySuffix(v)
  {
    var query := BuildSearchTerms(city, stateName)[0] + CountrySuffix(v);
    assert SearchUrl(city, stateName, v)[|BaseUrl|..] == ReplaceChar(query, ' ', '+');
    assert '+' !in "Hair Salon in " && '+' !in ", " && '+' !in CountrySuffix(v);
    assert '+' !in query;
    ReplaceCharRoundTrip(query, ' ', '+');
  }

  /** The two variants never build the same reference. */
  lemma VariantsDiffer(city: string, stateName: string)
    ensures SearchUrl(city, stateName, First) != SearchUrl(city, stateName, Final)
  {
    assert |SearchUrl(city, stateName, First)| + 1 == |SearchUrl(city, stateName, Final)|;
  }

  // ---------------- one city ----------------

  /** The references collected from the listing links: those whose `href` is present and non-empty. */
  function LinkSet(hrefs: seq<Option<string>>): (links: set<string>)
    ensures forall u :: u in links <==> exists k :: 0 <= k < |hrefs| && hrefs[k] == Some(u) && u != []
  {
    if hrefs == [] then {}
    else
      var rest := LinkSet(hrefs[1..]);
      assert forall k :: 1 <= k < |hrefs| ==> hrefs[k] == hrefs[1..][k - 1];
      if hrefs[0].Some? && hrefs[0].value != [] then {hrefs[0].value} + rest else rest
  }

  /** The records of the listings visited in `order` that produced one, in visiting order. */
  function Collect(order: seq<string>, details: string -> Option<Fields.Record>): (results: seq<Fields.Record>)
    ensures |results| <= |order|
    ensures forall r :: r in results <==> exists k :: 0 <= k < |order| && details(order[k]) == Some(r)
  {
    if order == [] then []
    else
      var rest := Collect(order[1..], details);
      assert forall k :: 1 <= k < |order| ==> order[k] == order[1..][k - 1];
      (if details(order[0]).Some? then [details(order[0]).value] else []) + rest
  }

  /**
   * `scrape_city` once the search page has been scrolled: collect the
   * references of the listing links into a set, scrape each reference once in
   * the set's iteration order, and keep the records of those that produced
   * one. `details` stands for `scrape_business_details` on a reference
   * (`None` when it failed). `visited` is the order in which the set was
   * iterated. When loading the search page fails (`loaded` false), the city
   * is reported with no records, as main_final.py does.
   */
  method ScrapeCity(city: string, loaded: bool, hrefs: seq<Option<string>>, details: string -> Option<Fields.Record>)
    returns (name: string, results: seq<Fields.Record>, ghost visited: seq<string>)
    ensures name == city
    ensures !loaded ==> results == []
    ensures loaded ==> Distinct(visited) && (forall u :: u in visited <==> u in LinkSet(hrefs))
    ensures loaded ==> results == Collect(visited, details)
  {
    if !loaded {
      return city, [], [];
    }
    var allLinks: set<string> := {};
    for k := 0 to |hrefs|
      invariant allLinks == LinkSet(hrefs[..k])
    {
      assert hrefs[..k + 1] == hrefs[..k] + [hrefs[k]];
      LinkSetAppend(hrefs[..k], hrefs[k]);
      if hrefs[k].Some? && hrefs[k].value != [] {
        allLinks := allLinks + {hrefs[k].value};
      }
    }
    assert hrefs[..|hrefs|] == hrefs;
    results := [];
    visited := [];
    var remaining := allLinks;
    while remaining != {}
      invariant remaining <= allLinks
      invariant Distinct(visited)
      invariant forall u :: u in visited <==> u in allLinks && u !in remaining
      invariant results == Collect(visited, details)
      decreases |remaining|
    {
      var url :| url in remaining;
      var data := details(url);
      CollectAppend(visited, url, details);
      if data.Some? {
        results := results + [data.value];
      }
      visited := visited + [url];
      remaining := remaining - {url};
    }
    name := city;
  }

  lemma LinkSetAppend(hrefs: seq<Option<string>>, h: Option<string>)
    ensures LinkSet(hrefs + [h]) == LinkSet(hrefs) + (if h.Some? && h.value != [] then {h.value} else {})
  {
    var all := hrefs + [h];
    assert forall k :: 0 <= k < |hrefs| ==> all[k] == hrefs[k];
    assert all[|hrefs|] == h;
  }

  lemma {:induction false} CollectAppend(order: seq<string>, u: string, details: string -> Option<Fields.Record>)
    ensures Collect(order + [u], details)
         == Collect(order, details) + (if details(u).Some? then [details(u).value] else [])
  {
    if order != [] {
      assert (order + [u])[1..] == order[1..] + [u];
      CollectAppend(order[1..], u, details);
    }
  }

  /**
   * Every reference is scraped exactly once, so a city yields at most one
   * record per distinct reference, and every record comes from one of the
   * collected references.
   */
  lemma OneRecordPerReference(visited: seq<string>, hrefs: seq<Option<string>>, details: string -> Option<Fields.Record>)
    requires Distinct(visited) && (forall u :: u in visited <==> u in LinkSet(hrefs))
    ensures |Collect(visited, details)| <= |LinkSet(hrefs)|
    ensures forall r :: r in Collect(visited, details) <==> exists u :: u in LinkSet(hrefs) && details(u) == Some(r)
  {
    DistinctCard(visited, LinkSet(hrefs));
    forall r | (exists u :: u in LinkSet(hrefs) && details(u) == Some(r))
      ensures r in Collect(visited, details)
    {
      var u :| u in LinkSet(hrefs) && details(u) == Some(r);
      var k :| 0 <= k < |visited| && visited[k] == u;
    }
  }

  /** A sequence of distinct elements is as long as the set of its elements. */
  lemma {:induction false} DistinctCard(s: seq<string>, e: set<string>)
    requires Distinct(s) && (forall u :: u in s <==> u in e)
    ensures |s| == |e|
  {
    if s != [] {
      var rest := e - {s[0]};
      assert forall u :: u in s[1..] <==> u in rest by {
        forall u ensures u in s[1..] <==> u in rest {
          if u in s[1..] {
            var k :| 1 <= k < |s| && s[k] == u;
          }
          if u in rest {
            var k :| 0 <= k < |s| && s[k] == u;
            assert k != 0;
            assert s[1..][k - 1] == u;
          }
        }
      }
      DistinctCard(s[1..], rest);
    } else {
      assert forall u :: u !in e;
      assert e == {};
    }
  }

  // ---------------- the `city_results` filter of main.py ----------------

  /**
   * `{city: data for city, data in results if data}`: the cities in the order
   * their first non-empty result arrived, each mapped to its last non-empty
   * result list.
   */
  function CityResults(results: seq<(string, seq<Fields.Record>)>): (d: Dict<seq<Fields.Record>>)
    ensures d.Valid()
    ensures forall c :: c in d.values ==> d.values[c] != []
    ensures forall c :: c in d.values <==> exists k :: 0 <= k < |results| && results[k].0 == c && results[k].1 != []
    decreases |results|
  {
    if results == [] then Empty()
    else
      var last := results[|results| - 1];
      var before := CityResults(results[..|results| - 1]);
      assert forall k :: 0 <= k < |results| - 1 ==> results[..|results| - 1][k] == results[k];
      if last.1 == [] then before else Put(before, last.0, last.1)
  }

  /** A city's entry is the result list of its last non-empty report. */
  lemma {:induction false} CityResultsKeepsLast(results: seq<(string, seq<Fields.Record>)>, k: nat)
    requires k < |results| && results[k].1 != []
    requires forall j :: k < j < |results| && results[j].0 == results[k].0 ==> results[j].1 == []
    ensures CityResults(results).values[results[k].0] == results[k].1
    decreases |results|
  {
    if k < |results| - 1 {
      var init := results[..|results| - 1];
      assert init[k] == results[k];
      CityResultsKeepsLast(init, k);
    }
  }

  /** Later results only append cities: the keys of a prefix of the results are a prefix of the keys. */
  lemma {:induction false} CityResultsKeysGrow(results: seq<(string, seq<Fields.Record>)>, n: nat)
    requires n <= |results|
    ensures CityResults(results[..n]).keys <= CityResults(results).keys
    decreases |results|
  {
    if n < |results| {
      var init := results[..|results| - 1];
      assert init[..n] == results[..n];
      CityResultsKeysGrow(init, n);
    } else {
      assert results[..n] == results;
    }
  }

  /**
   * A city enters the dict at its first non-empty result, right after the
   * cities whose first non-empty result came earlier.
   */
  lemma CityResultsFirstArrival(results: seq<(string, seq<Fields.Record>)>, k: nat)
    requires k < |results| && results[k].1 != []
    requires forall j :: 0 <= j < k && results[j].0 == results[k].0 ==> results[j].1 == []
    ensures CityResults(results[..k]).keys + [results[k].0] <= CityResults(results).keys
  {
    var before := results[..k];
    var upto := results[..k + 1];
    assert upto[..k] == before;
    assert upto[k] == results[k];
    forall j | 0 <= j < k
      ensures !(before[j].0 == results[k].0 && before[j].1 != [])
    {
      assert before[j] == results[j];
    }
    assert results[k].0 !in CityResults(before).values;
    assert CityResults(upto).keys == CityResults(before).keys + [results[k].0];
    CityResultsKeysGrow(results, k + 1);
  }
}
