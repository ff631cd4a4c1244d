/**
 * The two JSON API adapters of backend/scraping/api_fetcher.py and their
 * dispatch. The HTTP exchange is abstracted away: `http(request)` is the
 * response the endpoint gives, its status code and its decoded JSON body.
 * The body is taken to be a JSON object, seen as a map from top-level key to
 * the list of job objects under it. A job object is a map from field name
 * to string value; a field that is missing (or not a string) is absent from
 * the map. The API keys, which the
 * source reads from the environment, are parameters.
 */
module ApiFetcher {
  import opened Records

  type Record = map<string, string>

  datatype Request = Request(endpoint: string, headers: map<string, string>, params: map<string, string>)

  datatype Response = Response(status: int, body: map<string, seq<Record>>)

  /** `job.get(key)`. */
  function Get(job: Record, key: string): (v: Option<string>)
    ensures v.Some? <==> key in job
    ensures v.Some? ==> v.value == job[key]
  {
    if key in job then Some(job[key]) else None
  }

  /** Python truthiness of an optional string: present and non-empty. */
  predicate Truthy(v: Option<string>) {
    v.Some? && v.value != ""
  }

  /** Python's `a or b`: `a` when it is truthy, otherwise `b`. */
  function Or(a: Option<string>, b: Option<string>): (r: Option<string>)
    ensures Truthy(r) <==> Truthy(a) || Truthy(b)
    ensures Truthy(a) ==> r == a
    ensures !Truthy(a) ==> r == b
  {
    if Truthy(a) then a else b
  }

  /** `data.get(key, [])` on a response with status 200; nothing at all is
      read from a response with any other status. */
  function Results(response: Response, key: string): seq<Record> {
    if response.status == 200 && key in response.body then response.body[key] else []
  }

  // ---------------------------------------------------------------- SerpAPI

  const SerpApiEndpoint: string := "https://serpapi.com/search.json"

  /** The Google Jobs query. A missing key is a `None` parameter, which the
      HTTP client leaves out of the query string. */
  function SerpApiRequest(query: string, location: string, apiKey: Option<string>): Request {
    var params := map["engine" := "google_jobs", "q" := query, "location" := location];
    Request(SerpApiEndpoint, map[],
            if apiKey.Some? then params["api_key" := apiKey.value] else params)
  }

  /** The request carries the search terms as given and the key exactly when
      there is one. */
  lemma SerpApiRequestCarriesSearch(query: string, location: string, apiKey: Option<string>)
    ensures var req := SerpApiRequest(query, location, apiKey);
            && "q" in req.params && req.params["q"] == query
            && "location" in req.params && req.params["location"] == location
            && ("api_key" in req.params <==> apiKey.Some?)
            && (apiKey.Some? ==> req.params["api_key"] == apiKey.value)
  {
    assert "api_key" != "q" && "api_key" != "location" && "api_key" != "engine";
    assert "q" != "location" && "q" != "engine";
  }

  /** One Google Jobs result as a record: the link is `via`, or `job_id` when
      `via` is missing or empty. */
  function SerpApiListing(job: Record): Listing {
    Listing(Get(job, "title"), Get(job, "company_name"), Get(job, "description"),
            Or(Get(job, "via"), Get(job, "job_id")))
  }

  /** Title, company and description are copied from `title`,
      `company_name` and `description`, absent when the field is missing.
      The link falls back to `job_id` exactly when `via` is missing or
      empty, and is absent only when neither field is there to fall back
      on. */
  lemma SerpApiListingFields(job: Record)
    ensures var l := SerpApiListing(job);
            && (l.title.Some? <==> "title" in job) && ("title" in job ==> l.title.value == job["title"])
            && (l.company.Some? <==> "company_name" in job)
            && ("company_name" in job ==> l.company.value == job["company_name"])
            && (l.description.Some? <==> "description" in job)
            && ("description" in job ==> l.description.value == job["description"])
    ensures var url := SerpApiListing(job).url;
            && ("via" in job && job["via"] != "" ==> url == Some(job["via"]))
            && ("via" !in job || job["via"] == "" ==> url == Get(job, "job_id"))
            && (url.None? <==> ("via" !in job || job["via"] == "") && "job_id" !in job)
  {
  }

  /** What the SerpAPI adapter returns for a response. */
  function SerpApiJobs(response: Response, maxResults: nat): (jobs: seq<Listing>)
    ensures response.status != 200 ==> jobs == []
    ensures "jobs_results" !in response.body ==> jobs == []
    ensures |jobs| <= maxResults
    ensures |jobs| == Min(maxResults, |Results(response, "jobs_results")|)
    ensures forall i :: 0 <= i < |jobs| ==> jobs[i] == SerpApiListing(Results(response, "jobs_results")[i])
  {
    MapPrefix(Results(response, "jobs_results"), maxResults, SerpApiListing)
  }

  /** `fetch_jobs_from_serpapi`. */
  method FetchFromSerpApi(query: string, location: string, maxResults: nat, apiKey: Option<string>,
                          http: Request -> Response)
    returns (jobs: seq<Listing>)
    ensures jobs == SerpApiJobs(http(SerpApiRequest(query, location, apiKey)), maxResults)
  {
    var response := http(SerpApiRequest(query, location, apiKey));
    jobs := [];
    if response.status == 200 {
      var results := if "jobs_results" in response.body then response.body["jobs_results"] else [];
      var taken := results[..Min(maxResults, |results|)];
      for i := 0 to |taken|
        invariant |jobs| == i
        invariant forall k :: 0 <= k < i ==> jobs[k] == SerpApiListing(taken[k])
      {
        var job := taken[i];
        jobs := jobs + [Listing(Get(job, "title"), Get(job, "company_name"), Get(job, "description"),
                                Or(Get(job, "via"), Get(job, "job_id")))];
      }
    }
  }

  // ---------------------------------------------------------------- JSearch

  const JSearchEndpoint: string := "https://jsearch.p.rapidapi.com/search"
  const JSearchHost: string := "jsearch.p.rapidapi.com"

  /** `f"{search_query} in {location}"`. */
  function JSearchQuery(query: string, location: string): (s: string)
    ensures |s| == |query| + 4 + |location|
    ensures s[..|query|] == query && s[|query|..|query| + 4] == " in " && s[|query| + 4..] == location
  {
    var s := query + " in " + location;
    assert s[..|query|] == query;
    assert s[|query|..|query| + 4] == " in ";
    assert s[|query| + 4..] == location;
    s
  }

  /** The search query and the location are recovered from the combined
      query, given the length of either. */
  lemma JSearchQueryDetermined(q1: string, l1: string, q2: string, l2: string)
    requires JSearchQuery(q1, l1) == JSearchQuery(q2, l2) && |q1| == |q2|
    ensures q1 == q2 && l1 == l2
  {
    var s := JSearchQuery(q1, l1);
    assert q1 == s[..|q1|] && q2 == s[..|q2|];
    assert l1 == s[|q1| + 4..] && l2 == s[|q2| + 4..];
  }

  /** The RapidAPI query: one page, keyed by the RapidAPI headers. */
  function JSearchRequest(query: string, location: string, apiKey: string): Request {
    Request(JSearchEndpoint,
            map["X-RapidAPI-Key" := apiKey, "X-RapidAPI-Host" := JSearchHost],
            map["query" := JSearchQuery(query, location), "page" := "1", "num_pages" := "1"])
  }

  /** The request goes to the JSearch endpoint with the combined query, the
      first page only, and the key and host in the RapidAPI headers. */
  lemma JSearchRequestCarriesSearch(query: string, location: string, apiKey: string)
    ensures var req := JSearchRequest(query, location, apiKey);
            && req.endpoint == JSearchEndpoint
            && "query" in req.params && req.params["query"] == JSearchQuery(query, location)
            && "page" in req.params && req.params["page"] == "1"
            && "num_pages" in req.params && req.params["num_pages"] == "1"
            && "X-RapidAPI-Key" in req.headers && req.headers["X-RapidAPI-Key"] == apiKey
            && "X-RapidAPI-Host" in req.headers && req.headers["X-RapidAPI-Host"] == JSearchHost
  {
    assert "query" != "page" && "query" != "num_pages" && "page" != "num_pages";
    assert "X-RapidAPI-Key" != "X-RapidAPI-Host";
  }

  /** One JSearch result as a record: the link is `job_apply_link`, or
      `job_google_link` when that is missing or empty. */
  function JSearchListing(job: Record): Listing {
    Listing(Get(job, "job_title"), Get(job, "employer_name"), Get(job, "job_description"),
            Or(Get(job, "job_apply_link"), Get(job, "job_google_link")))
  }

  /** The same rules as for SerpAPI, on the JSearch field names: `job_title`,
      `employer_name`, `job_description`, and the link `job_apply_link` with
      `job_google_link` as its fallback. */
  lemma JSearchListingFields(job: Record)
    ensures var l := JSearchListing(job);
            && (l.title.Some? <==> "job_title" in job) && ("job_title" in job ==> l.title.value == job["job_title"])
            && (l.company.Some? <==> "employer_name" in job)
            && ("employer_name" in job ==> l.company.value == job["employer_name"])
            && (l.description.Some? <==> "job_description" in job)
            && ("job_description" in job ==> l.description.value == job["job_description"])
    ensures var url := JSearchListing(job).url;
            && ("job_apply_link" in job && job["job_apply_link"] != "" ==> url == Some(job["job_apply_link"]))
            && ("job_apply_link" !in job || job["job_apply_link"] == "" ==> url == Get(job, "job_google_link"))
            && (url.None? <==> ("job_apply_link" !in job || job["job_apply_link"] == "")
                               && "job_google_link" !in job)
  {
  }

  /** What the JSearch adapter returns for a response. */
  function JSearchJobs(response: Response, maxResults: nat): (jobs: seq<Listing>)
    ensures response.status != 200 ==> jobs == []
    ensures "data" !in response.body ==> jobs == []
    ensures |jobs| <= maxResults
    ensures |jobs| == Min(maxResults, |Results(response, "data")|)
    ensures forall i :: 0 <= i < |jobs| ==> jobs[i] == JSearchListing(Results(response, "data")[i])
  {
    MapPrefix(Results(response, "data"), maxResults, JSearchListing)
  }

  /** `fetch_jobs_from_jsearch`. */
  method FetchFromJSearch(query: string, location: string, maxResults: nat, apiKey: string,
                          http: Request -> Response)
    returns (jobs: seq<Listing>)
    ensures jobs == JSearchJobs(http(JSearchRequest(query, location, apiKey)), maxResults)
  {
    var response := http(JSearchRequest(query, location, apiKey));
    jobs := [];
    if response.status == 200 {
      var results := if "data" in response.body then response.body["data"] else [];
      var taken := results[..Min(maxResults, |results|)];
      for i := 0 to |taken|
        invariant |jobs| == i
        invariant forall k :: 0 <= k < i ==> jobs[k] == JSearchListing(taken[k])
      {
        var job := taken[i];
        jobs := jobs + [Listing(Get(job, "job_title"), Get(job, "employer_name"), Get(job, "job_description"),
                                Or(Get(job, "job_apply_link"), Get(job, "job_google_link")))];
      }
    }
  }

  // --------------------------------------------------------------- dispatch

  /** `fetch_jobs_from_api`: "serpapi" and "jsearch" go to their adapter;
      any other source yields no listings. */
  function ApiJobs(source: string, query: string, location: string, maxResults: nat,
                   serpApiKey: Option<string>, jsearchKey: string, http: Request -> Response): (jobs: seq<Listing>)
    ensures source == "serpapi" ==> jobs == SerpApiJobs(http(SerpApiRequest(query, location, serpApiKey)), maxResults)
    ensures source == "jsearch" ==> jobs == JSearchJobs(http(JSearchRequest(query, location, jsearchKey)), maxResults)
    ensures source != "serpapi" && source != "jsearch" ==> jobs == []
    ensures |jobs| <= maxResults
  {
    if source == "serpapi" then SerpApiJobs(http(SerpApiRequest(query, location, serpApiKey)), maxResults)
    else if source == "jsearch" then JSearchJobs(http(JSearchRequest(query, location, jsearchKey)), maxResults)
    else []
  }

  /** Results past the cap never reach the output: once a successful
      response holds at least `maxResults` results, appending more changes
      nothing. */
  lemma ResultsPastCapIgnored(body: map<string, seq<Record>>, extra: seq<Record>, maxResults: nat)
    ensures "jobs_results" in body && |body["jobs_results"]| >= maxResults ==>
              SerpApiJobs(Response(200, body["jobs_results" := body["jobs_results"] + extra]), maxResults)
              == SerpApiJobs(Response(200, body), maxResults)
    ensures "data" in body && |body["data"]| >= maxResults ==>
              JSearchJobs(Response(200, body["data" := body["data"] + extra]), maxResults)
              == JSearchJobs(Response(200, body), maxResults)
  {
    if "jobs_results" in body && |body["jobs_results"]| >= maxResults {
      MapPrefixIgnoresTail(body["jobs_results"], extra, maxResults, SerpApiListing);
    }
    if "data" in body && |body["data"]| >= maxResults {
      MapPrefixIgnoresTail(body["data"], extra, maxResults, JSearchListing);
    }
  }

  /** `fetch_jobs_from_api` as the source runs it. */
  method FetchJobsFromApi(query: string, location: string, maxResults: nat, source: string,
                          serpApiKey: Option<string>, jsearchKey: string, http: Request -> Response)
    returns (jobs: seq<Listing>)
    ensures jobs == ApiJobs(source, query, location, maxResults, serpApiKey, jsearchKey, http)
  {
    if source == "serpapi" {
      jobs := FetchFromSerpApi(query, location, maxResults, serpApiKey, http);
    } else if source == "jsearch" {
      jobs := FetchFromJSearch(query, location, maxResults, jsearchKey, http);
    } else {
      jobs := [];
    }
  }
}
