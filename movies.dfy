/** `fetchMovieById`: the memoized single-movie lookup against the movie
    metadata service. The wrapped function issues one GET of
    BASE_URL + "/movie/" + id with the API key as a query parameter and settles
    with the response body as it is. The HTTP client is a parameter. */
module Movies {
  import opened Decimal
  import opened Key
  import opened Memoize

  const BaseUrl: string := "https://api.themoviedb.org/3"
  const MoviePath: string := BaseUrl + "/movie/"

  /** The GET `axios.get(url, { params: { api_key } })`. */
  datatype Request = Request(url: string, apiKey: string)

  /** What the template literal writes for the first argument: its number,
      or "undefined" when the call passed no argument. Further arguments are
      ignored by the lookup, though they are part of the cache key. */
  function IdText(args: seq<int>): (text: string) {
    if |args| == 0 then "undefined" else IntToString(args[0])
  }

  /** The request URL of a lookup: the movie path, followed by text that
      reads back as exactly the requested id, and as no id at all when the
      call passed none. */
  function MovieUrl(args: seq<int>): (url: string)
    ensures |url| > |MoviePath| && url[..|MoviePath|] == MoviePath
    ensures ParseInt(url[|MoviePath|..]) == if |args| == 0 then None else Some(args[0])
  {
    var url := MoviePath + IdText(args);
    assert url[|MoviePath|..] == IdText(args);
    if |args| > 0 then
      ParseIntToString(args[0]);
      url
    else
      assert !IsDigit(IdText(args)[0]);
      url
  }

  /** The one GET a lookup issues: it carries the API key, and its URL is
      the movie path followed by the requested id. */
  function RequestOf(args: seq<int>, apiKey: string): (req: Request)
    ensures req.apiKey == apiKey
    ensures |req.url| > |MoviePath| && req.url[..|MoviePath|] == MoviePath
    ensures ParseInt(req.url[|MoviePath|..]) == if |args| == 0 then None else Some(args[0])
  {
    Request(MovieUrl(args), apiKey)
  }

  /** Lookups of different ids request different URLs. */
  lemma MovieUrlInjective(a: int, b: int)
    ensures MovieUrl([a]) == MovieUrl([b]) <==> a == b
  {
    var ua, ub := MovieUrl([a]), MovieUrl([b]);
    if ua == ub {
      assert ParseInt(ua[|MoviePath|..]) == ParseInt(ub[|MoviePath|..]);
    }
  }

  /** The URL the lookup of movie 123 requests. */
  lemma MovieUrl123()
    ensures MovieUrl([123]) == "https://api.themoviedb.org/3/movie/123"
  {
    assert IdText([123]) == "123" by {
      assert NatToString(1) == "1";
      assert NatToString(12) == "12";
    }
  }

  /** The function `fetchMovieById` wraps: it settles exactly as the GET of
      the movie URL with the API key does, with the response body unchanged. */
  function FetchMovie<V>(get: Request -> Outcome<V>, apiKey: string): (fetch: seq<int> -> Outcome<V>)
    ensures forall args :: fetch(args) == get(RequestOf(args, apiKey))
  {
    args => get(RequestOf(args, apiKey))
  }

  /** The requests an invocation log of the wrapped function issued. */
  ghost function Requests(log: seq<seq<int>>, apiKey: string): (rs: seq<Request>)
    ensures |rs| == |log|
  {
    seq(|log|, i requires 0 <= i < |log| => RequestOf(log[i], apiKey))
  }

  /** A lookup of movie 123 with a client whose GET resolves with `movieData`
      for the request of movie 123 with the API key, and rejects any other
      request: the lookup settles with `movieData` as it is, and exactly one
      GET was issued, for that request. */
  method LookupMovie123<V>(movieData: V, apiKey: string)
    returns (result: Outcome<V>, ghost requests: seq<Request>)
    ensures result == Resolved(movieData)
    ensures requests == [Request("https://api.themoviedb.org/3/movie/123", apiKey)]
  {
    MovieUrl123();
    var expected := Request("https://api.themoviedb.org/3/movie/123", apiKey);
    var get := (r: Request) => if r == expected then Resolved(movieData) else Rejected("unexpected request");
    var fetchMovieById := new Memoized(FetchMovie(get, apiKey));
    result := fetchMovieById.Call([123]);
    requests := Requests(fetchMovieById.log, apiKey);
  }

  /** Looking the same movie up twice through one `fetchMovieById`: both
      lookups settle as the GET does; a resolved first lookup answers the
      second from the cache, a rejected one is retried with a second GET. */
  method RepeatedLookup<V>(get: Request -> Outcome<V>, apiKey: string, id: int)
    returns (first: Outcome<V>, second: Outcome<V>, ghost requests: seq<Request>)
    ensures first == second == get(RequestOf([id], apiKey))
    ensures first.Resolved? ==> requests == [RequestOf([id], apiKey)]
    ensures first.Rejected? ==> requests == [RequestOf([id], apiKey), RequestOf([id], apiKey)]
  {
    var fetchMovieById := new Memoized(FetchMovie(get, apiKey));
    first := fetchMovieById.Call([id]);
    second := fetchMovieById.Call([id]);
    requests := Requests(fetchMovieById.log, apiKey);
  }
}
