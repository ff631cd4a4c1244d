# job_applier ingestion and role filter, in Dafny

This project models the ingestion layer of job_applier: the part that
turns job-board search results into normalised job records and keeps only
the target internship roles. It covers three pieces.

- **Site scrapers** (`PlaywrightScraper`): the Indeed, LinkedIn and
  Glassdoor adapters, and the dispatch that picks one by source name. Each
  adapter builds a search URL and reaches the results page. It keeps at most
  `max_results` job cards. For each card it strips the title, company and
  snippet text and flattens line breaks in the snippet. Relative links are
  made absolute for Indeed and Glassdoor.
- **API adapters** (`ApiFetcher`): the SerpAPI (Google Jobs) and JSearch
  (RapidAPI) adapters, and their dispatch. Each sends one request. It reads
  the result list from a status-200 response only, caps it at `max_results`,
  and maps the API's field names onto the common record. The link falls back
  to a second field when the first is missing or empty.
- **Role filter** (`Extractor`): a title is a target internship role when
  it is present and non-empty and its lower-cased form contains one of eight
  fixed phrases. The filter keeps the records whose title passes, in order.

Supporting modules:

- `Text` holds the string operations these rest on, modelled on ASCII:
  `lower`, `strip`, single-character `replace`, `startswith`, substring `in`,
  and the decoding that undoes the `%20` space encoding.
- `Records` holds the common record (`Listing`, four optional fields) and the
  "first n, mapped" operation that every adapter's loop performs.
- `ExtractorExamples` works the role filter out on concrete titles.

The outside world is a parameter:

- The browser is `browser: string -> Page`. It gives, for a URL, either a
  timeout of the results wait, or the cards with what their selectors found.
- HTTP is `http: Request -> Response`.
- The API keys, which the source reads from the environment, are
  arguments.

Each adapter method is proved to return exactly what a specification
function says for the page or response its own URL or request yields.
The properties of the source's behaviour are proved about those functions.

Four behaviours of the code worth noting:

- The code has no loose "mentions intern and a role category" rule. It
  matches fixed phrases only. As a result "Software Engineering Intern",
  "Marketing Intern" and "Data Science Intern" are all rejected (proved in
  `ExtractorExamples.LooseMatchesAreDropped`).
- The code has no invalid-source error. An unknown source yields an empty
  list in both dispatchers.
- The Indeed adapter does not catch the results-wait timeout, so the timeout
  reaches the caller (`TimeoutError`). LinkedIn and Glassdoor catch it and
  return no listings.
- The search URLs escape spaces only. An `&` in the query starts a new URL
  parameter, so part of the query can pass for the location
  (`PlaywrightScraper.AmpersandInQueryIsAmbiguous`). Without `&` in the query,
  and without `+` (Indeed) or `%` (the other sites) in either term, the URL
  determines both terms (`PlaywrightScraper.SearchUrlDeterminesTerms`).

## Model

| member | source | states |
|---|---|---|
| Text.LowerChar | backend/nlp/extractor.py:34 | an upper-case ASCII letter becomes its lower-case letter, every other character is kept, and no result is upper case |
| Text.Lower | backend/nlp/extractor.py:34 | `str.lower` on ASCII, character by character; see Text.LowerOfSameIgnoringCase and Text.LowerIdempotent for what it guarantees |
| Text.LowerOfSameIgnoringCase | backend/nlp/extractor.py:34 | strings that differ only in letter case lower-case to the same string |
| Text.LowerIdempotent | backend/nlp/extractor.py:34 | lower-casing twice is lower-casing once, and a string differs from its lower-cased form only in case |
| Text.IsSpace | backend/scraping/playwright_scraper.py:17 | the whitespace `strip()` removes, on ASCII: tab, line feed, vertical tab, form feed, carriage return, 0x1C-0x1F and space; see Text.StripRemovesOnlyOuterSpace |
| Text.TrimStart | backend/scraping/playwright_scraper.py:17 | the result is a suffix of the input, what was removed is all whitespace, and the result does not start with whitespace |
| Text.TrimEnd | backend/scraping/playwright_scraper.py:17 | the result is a prefix of the input, what was removed is all whitespace, and the result does not end with whitespace |
| Text.Strip | backend/scraping/playwright_scraper.py:17-19 | the result has no leading or trailing whitespace, and an already stripped string is unchanged (so stripping is idempotent) |
| Text.StripRemovesOnlyOuterSpace | backend/scraping/playwright_scraper.py:17-19 | the stripped text is a contiguous slice of the input with only whitespace before and after it |
| Text.ReplaceChar | backend/scraping/playwright_scraper.py:19 | no replaced character remains unless the replacement has it; an input without it is unchanged; every output character comes from the input or the replacement; a one-character replacement keeps the length and changes exactly the matching positions |
| Text.ReplaceCharRoundTrip | backend/scraping/playwright_scraper.py:7 | replacing c by a character d absent from the input is undone by replacing d by c |
| Text.ReplaceKeepsStripped | backend/scraping/playwright_scraper.py:19 | turning a whitespace character into another character keeps a stripped string stripped |
| Text.StartsWith | backend/scraping/playwright_scraper.py:21 | `s.startswith(prefix)`: the prefix is no longer than s and equals its first characters; see PlaywrightScraper.ResolveHrefAbsolute |
| Text.Contains | backend/nlp/extractor.py:35 | `sub in s` holds exactly when sub occurs in s at some offset |
| Text.ContainsTransitive | backend/nlp/extractor.py:35 | a string containing mid, which contains sub, contains sub |
| Text.AbsentCharExcludes | backend/nlp/extractor.py:35 | a string lacking one character of sub does not contain sub |
| Text.AbsentPairExcludes | backend/nlp/extractor.py:35 | a string in which two adjacent characters of sub never appear side by side does not contain sub |
| Text.Percent20RoundTrip | backend/scraping/playwright_scraper.py:32 | for a term without '%', decoding `%20` undoes encoding its spaces as `%20` |
| Records.MapPrefix | backend/scraping/playwright_scraper.py:12 | the result has min(n, length) elements, at most n, and element i is f of input element i (the first n kept, in order) |
| Records.MapPrefixIgnoresTail | backend/scraping/api_fetcher.py:26 | input elements past the cap do not affect the result |
| Records.SubsequenceBounds | backend/nlp/extractor.py:41 | a subsequence is no longer than its source and holds only its elements |
| Extractor.AnyKeywordIn | backend/nlp/extractor.py:35 | true exactly when some phrase of the list occurs in the text |
| Extractor.IsTargetRole | backend/nlp/extractor.py:31-35 | a title matches exactly when it is present, non-empty and its lower-cased form contains one of the phrases; an absent or empty title never matches |
| Extractor.CaseInsensitive | backend/nlp/extractor.py:34 | titles that differ only in letter case classify the same |
| Extractor.LowerTitleClassifiesSame | backend/nlp/extractor.py:34 | lower-casing a title before classifying it changes nothing |
| Extractor.TargetKeywordsMentionIntern | backend/nlp/extractor.py:20-29 | every one of the eight fixed phrases contains "intern" |
| Extractor.TargetInternshipKeywords | backend/nlp/extractor.py:20-29 | the eight fixed phrases, all lower case; see Extractor.TargetKeywordsMentionIntern and the ExtractorExamples rows |
| Extractor.KeywordMentionsIntern | backend/nlp/extractor.py:20-29 | each single phrase of the list contains "intern" |
| Extractor.MatchMentionsCommonPart | backend/nlp/extractor.py:35 | if every phrase contains sub, every matching title's lower-cased form contains sub |
| Extractor.TargetRoleMentionsIntern | backend/nlp/extractor.py:20-35 | with the fixed phrases, every matching title mentions "intern" |
| Extractor.FilterTargetRoles | backend/nlp/extractor.py:37-41 | the output is no longer than the input, and every kept listing is from the input and has a matching title |
| Extractor.FilterMembership | backend/nlp/extractor.py:41 | a listing is in the output exactly when it is in the input and its title matches |
| Extractor.FilterIsSubsequence | backend/nlp/extractor.py:41 | the output is the input with some listings deleted, order kept |
| Extractor.FilterAppend | backend/nlp/extractor.py:41 | filtering a concatenation is concatenating the filtered parts |
| Extractor.FilterKeepsAllPassing | backend/nlp/extractor.py:41 | when every title matches, the input is returned whole |
| Extractor.FilterIdempotent | backend/nlp/extractor.py:41 | filtering twice is filtering once |
| Extractor.FilterDropsAllFailing | backend/nlp/extractor.py:41 | when no title matches, the output is empty |
| ExtractorExamples.SoftwareEngineeringInternIsNotTarget | backend/nlp/extractor.py:20-35 | "Software Engineering Intern" is not a target role |
| ExtractorExamples.MarketingInternIsNotTarget | backend/nlp/extractor.py:20-35 | "Marketing Intern" is not a target role |
| ExtractorExamples.DataScienceInternIsNotTarget | backend/nlp/extractor.py:20-35 | "Data Science Intern" is not a target role |
| ExtractorExamples.LooseMatchesAreDropped | backend/nlp/extractor.py:37-41 | filtering the three loosely matching titles above leaves nothing |
| ExtractorExamples.SoftwareEngineerInternIsTarget | backend/nlp/extractor.py:20-35 | "Software Engineer Intern" is a target role |
| ExtractorExamples.RemoteMlInternIsTarget | backend/nlp/extractor.py:20-35 | "Remote ML Intern" is a target role |
| ExtractorExamples.ExactPhrasesAreKept | backend/nlp/extractor.py:37-41 | of Software Engineer, Marketing and Remote ML interns, the filter keeps the first and the last, in order |
| PlaywrightScraper.SiteBase | backend/scraping/playwright_scraper.py:21-22 | only LinkedIn has no base for relative links, and every base is an http URL |
| PlaywrightScraper.EncodeSegment | backend/scraping/playwright_scraper.py:7 | an encoded search term holds no space, and a term without spaces is unchanged |
| PlaywrightScraper.EncodeSegmentRoundTrip | backend/scraping/playwright_scraper.py:7 | Indeed's `+` encoding is undone by turning `+` back into spaces for a term without `+`; the `%20` encoding of the other sites is undone by decoding for a term without `%` |
| PlaywrightScraper.LocationInfix | backend/scraping/playwright_scraper.py:7-58 | each site's location parameter (`&l=`, `&location=`, `&locT=C&locId=&locKeyword=`) starts with `&` |
| PlaywrightScraper.SearchUrl | backend/scraping/playwright_scraper.py:7-58 | the URL each adapter opens; see PlaywrightScraper.SearchUrlCarriesQuery, PlaywrightScraper.SearchUrlDeterminesTerms and PlaywrightScraper.AmpersandInQueryIsAmbiguous |
| PlaywrightScraper.SearchUrlCarriesQuery | backend/scraping/playwright_scraper.py:7-58 | the encoded query sits right after the site's fixed URL prefix |
| PlaywrightScraper.EncodeSegmentAddsNoAmpersand | backend/scraping/playwright_scraper.py:7 | replacing spaces by `+` or `%20` introduces no `&` |
| PlaywrightScraper.EncodeSegmentInjective | backend/scraping/playwright_scraper.py:7 | two terms without `+` (Indeed) or without `%` (the other sites) that encode alike are equal |
| PlaywrightScraper.SearchUrlDeterminesTerms | backend/scraping/playwright_scraper.py:7-58 | two searches that reach the same URL have the same query and location, provided neither query holds `&` and no term holds the site's escape character |
| PlaywrightScraper.SameJoinedTermsSameUrl | backend/scraping/playwright_scraper.py:7-58 | searches whose encoded query, location parameter and encoded location spell the same text reach the same URL |
| PlaywrightScraper.AmpersandInQueryIsAmbiguous | backend/scraping/playwright_scraper.py:7 | the Indeed search for query "a&l=b" in "c" reaches the same URL as the search for "a" in "b&l=c", since `&` is not escaped |
| PlaywrightScraper.CardText | backend/scraping/playwright_scraper.py:17-18 | a missing element gives an absent field, a present one gives stripped text |
| PlaywrightScraper.CardDescription | backend/scraping/playwright_scraper.py:19 | a missing element gives an absent field; a present one gives stripped text without line breaks, as long as the stripped text |
| PlaywrightScraper.ResolveHref | backend/scraping/playwright_scraper.py:21-22 | with no base, no link or an empty link, the link is kept; a link starting with "http" is kept; any other link gets the base prepended |
| PlaywrightScraper.ResolveHrefAbsolute | backend/scraping/playwright_scraper.py:21-22 | with an http base, every non-empty resolved link starts with "http", and resolving again changes nothing |
| PlaywrightScraper.CardListing | backend/scraping/playwright_scraper.py:13-28 | the record built from one card; see PlaywrightScraper.CardListingFields |
| PlaywrightScraper.CardListingFields | backend/scraping/playwright_scraper.py:13-28 | title, company and description are absent exactly when their element is missing, and the link is absent when the link element is missing or has no `href` attribute; title and company are the stripped text; the description is the stripped text with line breaks turned into spaces; the record is normalised |
| PlaywrightScraper.CardListings | backend/scraping/playwright_scraper.py:12 | one record per card for the first max_results cards; see PlaywrightScraper.SiteScrape and PlaywrightScraper.CardsPastCapIgnored |
| PlaywrightScraper.SiteScrape | backend/scraping/playwright_scraper.py:6-83 | a timeout is passed on by Indeed only and gives no listings elsewhere; a loaded page gives min(cap, cards) records, record i built from card i with the site's base |
| PlaywrightScraper.ScrapedListingsNormalized | backend/scraping/playwright_scraper.py:12-28 | every scraped record is normalised; LinkedIn records keep the card's link as it is; on Indeed and Glassdoor a present, non-empty link starts with "http" (a missing link stays absent and an empty one stays empty) |
| PlaywrightScraper.CardsPastCapIgnored | backend/scraping/playwright_scraper.py:12 | cards past the cap do not affect the result |
| PlaywrightScraper.CardRecord | backend/scraping/playwright_scraper.py:13-22 | the loop body builds exactly the record the card specification gives for the card |
| PlaywrightScraper.CollectCards | backend/scraping/playwright_scraper.py:11-29 | the loop yields one record per card for the first max_results cards, in card order |
| PlaywrightScraper.ScrapeIndeed | backend/scraping/playwright_scraper.py:6-29 | the result is what the Indeed specification gives for the page at the Indeed search URL, including the escaping timeout |
| PlaywrightScraper.ScrapeLinkedIn | backend/scraping/playwright_scraper.py:31-55 | the result is what the LinkedIn specification gives for the page at the LinkedIn search URL |
| PlaywrightScraper.ScrapeGlassdoor | backend/scraping/playwright_scraper.py:57-83 | the result is what the Glassdoor specification gives for the page at the Glassdoor search URL |
| PlaywrightScraper.ScrapeJobsWithPlaywright | backend/scraping/playwright_scraper.py:85-108 | each known source gets its own adapter's result and any other source gets no listings; never more than max_results records; only Indeed can end in a timeout |
| ApiFetcher.Get | backend/scraping/api_fetcher.py:28-31 | a field is present exactly when the key is in the object, with its value |
| ApiFetcher.Truthy | backend/scraping/api_fetcher.py:31 | Python truthiness of an optional string, as `or` tests it here and at line 57: present and non-empty; see ApiFetcher.Or |
| ApiFetcher.Or | backend/scraping/api_fetcher.py:31 | Python's `or`: the first value when it is truthy, otherwise the second, and the result is truthy exactly when one of the two is |
| ApiFetcher.Results | backend/scraping/api_fetcher.py:23-25 | `data.get(key, [])` read only from a status-200 response (also lines 49-51); see ApiFetcher.SerpApiJobs and ApiFetcher.JSearchJobs |
| ApiFetcher.SerpApiRequest | backend/scraping/api_fetcher.py:14-21 | the SerpAPI request; see ApiFetcher.SerpApiRequestCarriesSearch |
| ApiFetcher.SerpApiRequestCarriesSearch | backend/scraping/api_fetcher.py:14-21 | the request carries the query and the location as given, and the API key exactly when there is one |
| ApiFetcher.SerpApiListing | backend/scraping/api_fetcher.py:27-32 | one result as a record; see ApiFetcher.SerpApiListingFields |
| ApiFetcher.SerpApiListingFields | backend/scraping/api_fetcher.py:27-32 | title, company and description are copied from their fields, absent when missing; the link is `via`, or `job_id` when `via` is missing or empty, and absent only when neither is available |
| ApiFetcher.SerpApiJobs | backend/scraping/api_fetcher.py:22-33 | a non-200 response or a missing result list gives no records; otherwise min(cap, results) records, record i mapped from result i |
| ApiFetcher.FetchFromSerpApi | backend/scraping/api_fetcher.py:13-33 | the loop returns what the SerpAPI specification gives for the response to its own request |
| ApiFetcher.JSearchQuery | backend/scraping/api_fetcher.py:43 | the combined query starts with the search query and ends with the location, with exactly " in " between them |
| ApiFetcher.JSearchQueryDetermined | backend/scraping/api_fetcher.py:43 | given the query's length, the combined query determines both the query and the location |
| ApiFetcher.JSearchRequest | backend/scraping/api_fetcher.py:37-46 | the JSearch request; see ApiFetcher.JSearchRequestCarriesSearch |
| ApiFetcher.JSearchRequestCarriesSearch | backend/scraping/api_fetcher.py:37-46 | the request goes to the JSearch endpoint with the combined query, page 1 of 1, the key in `X-RapidAPI-Key` and the host in `X-RapidAPI-Host` |
| ApiFetcher.JSearchListing | backend/scraping/api_fetcher.py:53-58 | one result as a record; see ApiFetcher.JSearchListingFields |
| ApiFetcher.JSearchListingFields | backend/scraping/api_fetcher.py:53-58 | fields are copied from `job_title`, `employer_name` and `job_description`; the link is `job_apply_link`, or `job_google_link` when that is missing or empty |
| ApiFetcher.JSearchJobs | backend/scraping/api_fetcher.py:48-59 | a non-200 response or a missing `data` list gives no records; otherwise min(cap, results) records, record i mapped from result i |
| ApiFetcher.FetchFromJSearch | backend/scraping/api_fetcher.py:36-59 | the loop returns what the JSearch specification gives for the response to its own request |
| ApiFetcher.ResultsPastCapIgnored | backend/scraping/api_fetcher.py:26 | once a successful response holds max_results results, more results change neither adapter's output |
| ApiFetcher.ApiJobs | backend/scraping/api_fetcher.py:72-77 | "serpapi" and "jsearch" get their adapter's records, every other source gets none, and never more than max_results |
| ApiFetcher.FetchJobsFromApi | backend/scraping/api_fetcher.py:61-77 | the dispatch returns exactly what the dispatch specification gives |

## Left out

- Playwright session handling (launching Chromium, opening a page, closing the browser) is not modelled; the browser is a function from URL to page.
- The CSS selectors and the 10-second wait are not modelled; a card records what its selectors found, and a wait either times out or yields the cards.
- A failure of `page.goto` itself is not modelled; only the results wait can time out.
- HTTP transport and the exceptions `requests.get` can raise are not modelled, nor loading the keys with dotenv, the hard-coded fallback JSearch key, or a failing `response.json()`. The response is a status code and a decoded body, and the keys are arguments.
- JSON values that are `null` or not strings are treated as absent fields.
- A status-200 JSON body that is not an object (a top-level array or string, on which `data.get` at api_fetcher.py:25 and 51 raises, and the error escapes both fetchers and `fetch_jobs_from_api`) is not modelled; the body is taken to be an object.
- A JSON body whose result key holds something other than a list of objects is not modelled: a value that is not a list (e.g. `"jobs_results": null`, on which the slice at api_fetcher.py:26 raises) or list items that are not objects.
- `extract_job_fields` (spaCy and regular expressions), COMMON_SKILLS, the SQLAlchemy models and the Flask routes are not part of this model.
- Text.Lower: only ASCII letters are lower-cased, not the full Unicode mapping of Python's `str.lower`.
- Text.Strip: only ASCII whitespace is stripped, not Unicode whitespace such as U+00A0.
- Negative `max_results` (a Python slice from the end) is not modelled; the cap is a natural number.
- Default argument values (`max_results=10`, `source='indeed'`, `source='serpapi'`) are not modelled; every argument is explicit.
- PlaywrightScraper.SearchUrlCarriesQuery does not state that the whole URL is free of spaces; only EncodeSegment states that each encoded term is.
