/**
 * The three browser-driven adapters of backend/scraping/playwright_scraper.py
 * and their dispatch. The browser is abstracted away: `browser(url)` is what
 * the results page at `url` yields once the adapter has navigated there and
 * waited for the results selector: either the wait timed out, or the list of
 * job cards, each holding what its four selectors found (the text of the
 * title, company and snippet elements, `None` when the element is missing,
 * and the `href` of the link element, `None` when the link element is
 * missing or has no `href` attribute).
 */
module PlaywrightScraper {
  import opened Text
  import opened Records

  datatype Site = Indeed | LinkedIn | Glassdoor

  /** One job card as its selectors see it. */
  datatype Card = Card(
    title: Option<string>,
    company: Option<string>,
    description: Option<string>,
    href: Option<string>)

  /** The outcome of navigating to a search page and waiting for results. */
  datatype Page = TimedOut | Loaded(cards: seq<Card>)

  /** What an adapter hands back: the listings, or the Playwright timeout
      escaping to the caller (only the Indeed adapter lets it escape). */
  datatype ScrapeResult = Scraped(jobs: seq<Listing>) | TimeoutError

  const IndeedBase: string := "https://www.indeed.com"
  const GlassdoorBase: string := "https://www.glassdoor.com"

  /** The origin that relative links are resolved against; LinkedIn links are
      never rewritten. */
  function SiteBase(site: Site): (base: Option<string>)
    ensures base.Some? ==> StartsWith(base.value, "http")
    ensures base.None? <==> site == LinkedIn
  {
    match site
    case Indeed => Some(IndeedBase)
    case LinkedIn => None
    case Glassdoor => Some(GlassdoorBase)
  }

  /** How a search term is put into the URL: Indeed replaces each space by
      `+`, the other two sites by `%20`. */
  function EncodeSegment(site: Site, s: string): (e: string)
    ensures ' ' !in e
    ensures ' ' !in s ==> e == s
  {
    if site == Indeed then ReplaceChar(s, ' ', "+") else ReplaceChar(s, ' ', "%20")
  }

  /** The encoding is undone by the matching decoding whenever the term does
      not already contain the character the encoding introduces. */
  lemma EncodeSegmentRoundTrip(site: Site, s: string)
    ensures site == Indeed && '+' !in s ==> ReplaceChar(EncodeSegment(site, s), '+', " ") == s
    ensures site != Indeed && '%' !in s ==> DecodePercent20(EncodeSegment(site, s)) == s
  {
    if site == Indeed && '+' !in s {
      ReplaceCharRoundTrip(s, ' ', '+');
    }
    if site != Indeed && '%' !in s {
      Percent20RoundTrip(s);
    }
  }

  function QueryPrefix(site: Site): string {
    match site
    case Indeed => "https://www.indeed.com/jobs?q="
    case LinkedIn => "https://www.linkedin.com/jobs/search/?keywords="
    case Glassdoor => "https://www.glassdoor.com/Job/jobs.htm?sc.keyword="
  }

  /** The location parameter; it always starts a new `&`-separated parameter. */
  function LocationInfix(site: Site): (infix: string)
    ensures |infix| > 0 && infix[0] == '&'
  {
    match site
    case Indeed => "&l="
    case LinkedIn => "&location="
    case Glassdoor => "&locT=C&locId=&locKeyword="
  }

  /** The search page each adapter navigates to: the site's fixed prefix,
      the encoded query, the site's location parameter and the encoded
      location. Nothing but spaces is escaped. */
  function SearchUrl(site: Site, query: string, location: string): (url: string)
  {
    QueryPrefix(site) + EncodeSegment(site, query) + LocationInfix(site) + EncodeSegment(site, location)
  }

  /** The encoded query sits right after the site's fixed prefix. */
  lemma SearchUrlCarriesQuery(site: Site, query: string, location: string)
    ensures OccursAt(SearchUrl(site, query, location), EncodeSegment(site, query), |QueryPrefix(site)|)
  {
    SecondOfFour(QueryPrefix(site), EncodeSegment(site, query), LocationInfix(site), EncodeSegment(site, location));
  }

  /** The encoding introduces no `&`. */
  lemma EncodeSegmentAddsNoAmpersand(site: Site, s: string)
    requires '&' !in s
    ensures '&' !in EncodeSegment(site, s)
  {
    assert '&' !in "+" && '&' !in "%20";
  }

  /** A term the encoding can be undone on: it holds no `+` for Indeed and
      no `%` for the other sites. */
  predicate Decodable(site: Site, s: string) {
    if site == Indeed then '+' !in s else '%' !in s
  }

  /** Two decodable terms with the same encoding are the same term. */
  lemma EncodeSegmentInjective(site: Site, s1: string, s2: string)
    requires Decodable(site, s1) && Decodable(site, s2)
    requires EncodeSegment(site, s1) == EncodeSegment(site, s2)
    ensures s1 == s2
  {
    EncodeSegmentRoundTrip(site, s1);
    EncodeSegmentRoundTrip(site, s2);
  }

  /** The URL determines the query and the location, provided the queries
      hold no `&` (the first `&` after the prefix then starts the location
      parameter) and all terms are decodable. */
  lemma SearchUrlDeterminesTerms(site: Site, q1: string, l1: string, q2: string, l2: string)
    requires SearchUrl(site, q1, l1) == SearchUrl(site, q2, l2)
    requires '&' !in q1 && '&' !in q2
    requires Decodable(site, q1) && Decodable(site, l1) && Decodable(site, q2) && Decodable(site, l2)
    ensures q1 == q2 && l1 == l2
  {
    var p, infix := QueryPrefix(site), LocationInfix(site);
    var e1, f1 := EncodeSegment(site, q1), EncodeSegment(site, l1);
    var e2, f2 := EncodeSegment(site, q2), EncodeSegment(site, l2);
    RegroupFour(p, e1, infix, f1);
    RegroupFour(p, e2, infix, f2);
    PrefixCancel(p, e1 + (infix + f1), e2 + (infix + f2));
    EncodeSegmentAddsNoAmpersand(site, q1);
    EncodeSegmentAddsNoAmpersand(site, q2);
    SplitAtFirst(e1, infix + f1, e2, infix + f2, '&');
    PrefixCancel(infix, f1, f2);
    EncodeSegmentInjective(site, q1, q2);
    EncodeSegmentInjective(site, l1, l2);
  }

  /** Two searches reach the same page when their encoded terms, joined
      by the location parameter, spell the same text. */
  lemma SameJoinedTermsSameUrl(site: Site, q1: string, l1: string, q2: string, l2: string)
    requires var infix := LocationInfix(site);
             EncodeSegment(site, q1) + (infix + EncodeSegment(site, l1)) ==
               EncodeSegment(site, q2) + (infix + EncodeSegment(site, l2))
    ensures SearchUrl(site, q1, l1) == SearchUrl(site, q2, l2)
  {
    var p, infix := QueryPrefix(site), LocationInfix(site);
    RegroupFour(p, EncodeSegment(site, q1), infix, EncodeSegment(site, l1));
    RegroupFour(p, EncodeSegment(site, q2), infix, EncodeSegment(site, l2));
  }

  /** An `&` in the query is not escaped, so part of the query can pass for
      the location: these two searches reach the same Indeed page. */
  lemma AmpersandInQueryIsAmbiguous()
    ensures SearchUrl(Indeed, "a&l=b", "c") == SearchUrl(Indeed, "a", "b&l=c")
  {
    assert ' ' !in "a&l=b" && ' ' !in "c" && ' ' !in "a" && ' ' !in "b&l=c";
    assert "a&l=b" + ("&l=" + "c") == "a" + ("&l=" + "b&l=c");
    SameJoinedTermsSameUrl(Indeed, "a&l=b", "c", "a", "b&l=c");
  }

  /** `el.inner_text().strip() if el else None`. */
  function CardText(text: Option<string>): (r: Option<string>)
    ensures r.None? <==> text.None?
    ensures r.Some? ==> Stripped(r.value)
  {
    match text
    case None => None
    case Some(t) => Some(Strip(t))
  }

  /** `el.inner_text().strip().replace('\n', ' ') if el else None`: the
      stripped text with every line break turned into a space. */
  function CardDescription(text: Option<string>): (r: Option<string>)
    ensures r.None? <==> text.None?
    ensures r.Some? ==> '\n' !in r.value && Stripped(r.value) && |r.value| == |Strip(text.value)|
  {
    match text
    case None => None
    case Some(t) =>
      var s := Strip(t);
      ReplaceKeepsStripped(s, '\n', ' ');
      Some(ReplaceChar(s, '\n', " "))
  }

  /** The link fix-up `if url and not url.startswith('http'): url = base + url`
      (no fix-up at all when there is no base). */
  function ResolveHref(href: Option<string>, base: Option<string>): (url: Option<string>)
    ensures base.None? || href.None? || href == Some("") ==> url == href
    ensures href.Some? && StartsWith(href.value, "http") ==> url == href
    ensures base.Some? && href.Some? && href.value != "" && !StartsWith(href.value, "http") ==>
              url == Some(base.value + href.value)
  {
    if base.Some? && href.Some? && href.value != "" && !StartsWith(href.value, "http")
    then Some(base.value + href.value)
    else href
  }

  /** With an absolute base, every non-empty resolved link is absolute, and
      resolving twice is resolving once. */
  lemma ResolveHrefAbsolute(href: Option<string>, base: Option<string>)
    requires base.Some? && StartsWith(base.value, "http")
    ensures var url := ResolveHref(href, base);
            (url.Some? && url.value != "" ==> StartsWith(url.value, "http"))
            && ResolveHref(url, base) == url
  {
    var url := ResolveHref(href, base);
    if url != href {
      assert (base.value + href.value)[..4] == base.value[..4];
    }
  }

  /** The record built from one card. */
  function CardListing(card: Card, base: Option<string>): Listing {
    Listing(CardText(card.title), CardText(card.company), CardDescription(card.description),
            ResolveHref(card.href, base))
  }

  /** The normal form every scraped record is in: title, company and
      description carry no outer whitespace and the description no line
      break. */
  predicate Normalized(job: Listing) {
    && (job.title.Some? ==> Stripped(job.title.value))
    && (job.company.Some? ==> Stripped(job.company.value))
    && (job.description.Some? ==> Stripped(job.description.value) && '\n' !in job.description.value)
  }

  /** A missing element gives an absent field, never a placeholder; a present
      one gives a normalised field. The link is absent when the link element
      is missing or has no `href` attribute. */
  lemma CardListingFields(card: Card, base: Option<string>)
    ensures var job := CardListing(card, base);
            && Normalized(job)
            && (job.title.None? <==> card.title.None?)
            && (job.company.None? <==> card.company.None?)
            && (job.description.None? <==> card.description.None?)
            && (job.url.None? <==> card.href.None?)
            && (card.title.Some? ==> job.title.value == Strip(card.title.value))
            && (card.company.Some? ==> job.company.value == Strip(card.company.value))
            && (card.description.Some? ==>
                  |job.description.value| == |Strip(card.description.value)|
                  && forall i :: 0 <= i < |job.description.value| ==>
                       job.description.value[i] ==
                         (if Strip(card.description.value)[i] == '\n' then ' ' else Strip(card.description.value)[i]))
  {
  }

  /** `[record(card) for card in job_cards[:max_results]]`. */
  function CardListings(cards: seq<Card>, maxResults: nat, base: Option<string>): seq<Listing> {
    MapPrefix(cards, maxResults, (c: Card) => CardListing(c, base))
  }

  /** What each adapter returns for the page it reached. */
  function SiteScrape(site: Site, page: Page, maxResults: nat): (r: ScrapeResult)
    ensures r.TimeoutError? <==> page.TimedOut? && site == Indeed
    ensures page.TimedOut? && site != Indeed ==> r == Scraped([])
    ensures r.Scraped? ==> |r.jobs| <= maxResults
    ensures page.Loaded? ==> r.Scraped? && |r.jobs| == Min(maxResults, |page.cards|)
    ensures page.Loaded? ==> forall i :: 0 <= i < |r.jobs| ==>
              r.jobs[i] == CardListing(page.cards[i], SiteBase(site))
  {
    match page
    case TimedOut => if site == Indeed then TimeoutError else Scraped([])
    case Loaded(cards) => Scraped(CardListings(cards, maxResults, SiteBase(site)))
  }

  /** Every scraped record is normalised; LinkedIn records carry the card's
      link as it is; Indeed and Glassdoor records carry an absolute link
      whenever they carry a non-empty one. */
  lemma ScrapedListingsNormalized(site: Site, page: Page, maxResults: nat)
    requires page.Loaded?
    ensures var r := SiteScrape(site, page, maxResults);
            forall i :: 0 <= i < |r.jobs| ==>
              && Normalized(r.jobs[i])
              && (site == LinkedIn ==> r.jobs[i].url == page.cards[i].href)
              && (site != LinkedIn && r.jobs[i].url.Some? && r.jobs[i].url.value != "" ==>
                    StartsWith(r.jobs[i].url.value, "http"))
  {
    var r := SiteScrape(site, page, maxResults);
    forall i | 0 <= i < |r.jobs|
      ensures Normalized(r.jobs[i])
      ensures site != LinkedIn && r.jobs[i].url.Some? && r.jobs[i].url.value != "" ==>
                StartsWith(r.jobs[i].url.value, "http")
    {
      CardListingFields(page.cards[i], SiteBase(site));
      if site != LinkedIn {
        ResolveHrefAbsolute(page.cards[i].href, SiteBase(site));
      }
    }
  }

  /** Cards past the cap are never looked at. */
  lemma CardsPastCapIgnored(site: Site, cards: seq<Card>, extra: seq<Card>, maxResults: nat)
    requires |cards| >= maxResults
    ensures SiteScrape(site, Loaded(cards + extra), maxResults) == SiteScrape(site, Loaded(cards), maxResults)
  {
    MapPrefixIgnoresTail(cards, extra, maxResults, (c: Card) => CardListing(c, SiteBase(site)));
  }

  /** The body of each adapter's loop: read the card's four elements and
      fix up its link. */
  method CardRecord(card: Card, base: Option<string>) returns (job: Listing)
    ensures job == CardListing(card, base)
  {
    var title := CardText(card.title);
    var company := CardText(card.company);
    var description := CardDescription(card.description);
    var url := card.href;
    if base.Some? && url.Some? && url.value != "" && !StartsWith(url.value, "http") {
      url := Some(base.value + url.value);
    }
    job := Listing(title, company, description, url);
  }

  /** The loop shared by the three adapters: one record per card, for the
      first `maxResults` cards, in card order. */
  method CollectCards(cards: seq<Card>, maxResults: nat, base: Option<string>) returns (jobs: seq<Listing>)
    ensures jobs == CardListings(cards, maxResults, base)
  {
    var taken := cards[..Min(maxResults, |cards|)];
    jobs := [];
    for i := 0 to |taken|
      invariant |jobs| == i
      invariant forall k :: 0 <= k < i ==> jobs[k] == CardListing(cards[k], base)
    {
      var job := CardRecord(taken[i], base);
      jobs := jobs + [job];
    }
    MapPrefixUnique(cards, maxResults, (c: Card) => CardListing(c, base), jobs);
  }

  /** `scrape_indeed_jobs`: no handler around the wait, so a timeout escapes. */
  method ScrapeIndeed(query: string, location: string, maxResults: nat, browser: string -> Page)
    returns (result: ScrapeResult)
    ensures result == SiteScrape(Indeed, browser(SearchUrl(Indeed, query, location)), maxResults)
  {
    var page := browser(SearchUrl(Indeed, query, location));
    if page.TimedOut? {
      return TimeoutError;
    }
    var jobs := CollectCards(page.cards, maxResults, Some(IndeedBase));
    return Scraped(jobs);
  }

  /** `scrape_linkedin_jobs`: a timeout gives no listings; links are kept as
      they are. */
  method ScrapeLinkedIn(query: string, location: string, maxResults: nat, browser: string -> Page)
    returns (result: ScrapeResult)
    ensures result == SiteScrape(LinkedIn, browser(SearchUrl(LinkedIn, query, location)), maxResults)
  {
    var page := browser(SearchUrl(LinkedIn, query, location));
    if page.TimedOut? {
      return Scraped([]);
    }
    var jobs := CollectCards(page.cards, maxResults, None);
    return Scraped(jobs);
  }

  /** `scrape_glassdoor_jobs`: a timeout gives no listings. */
  method ScrapeGlassdoor(query: string, location: string, maxResults: nat, browser: string -> Page)
    returns (result: ScrapeResult)
    ensures result == SiteScrape(Glassdoor, browser(SearchUrl(Glassdoor, query, location)), maxResults)
  {
    var page := browser(SearchUrl(Glassdoor, query, location));
    if page.TimedOut? {
      return Scraped([]);
    }
    var jobs := CollectCards(page.cards, maxResults, Some(GlassdoorBase));
    return Scraped(jobs);
  }

  /** `scrape_jobs_with_playwright`: each known source is sent to its own
      adapter; any other source yields no listings. */
  method ScrapeJobsWithPlaywright(query: string, location: string, maxResults: nat, source: string,
                                  browser: string -> Page)
    returns (result: ScrapeResult)
    ensures source == "indeed" ==>
              result == SiteScrape(Indeed, browser(SearchUrl(Indeed, query, location)), maxResults)
    ensures source == "linkedin" ==>
              result == SiteScrape(LinkedIn, browser(SearchUrl(LinkedIn, query, location)), maxResults)
    ensures source == "glassdoor" ==>
              result == SiteScrape(Glassdoor, browser(SearchUrl(Glassdoor, query, location)), maxResults)
    ensures source != "indeed" && source != "linkedin" && source != "glassdoor" ==> result == Scraped([])
    ensures result.Scraped? ==> |result.jobs| <= maxResults
    ensures result.TimeoutError? ==> source == "indeed"
  {
    if source == "indeed" {
      result := ScrapeIndeed(query, location, maxResults, browser);
    } else if source == "linkedin" {
      result := ScrapeLinkedIn(query, location, maxResults, browser);
    } else if source == "glassdoor" {
      result := ScrapeGlassdoor(query, location, maxResults, browser);
    } else {
      result := Scraped([]);
    }
  }
}
