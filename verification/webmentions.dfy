/** Incremental retrieval from the webmention service, merged into a cache. */
module Webmentions {
  import opened Records

  /** The page size requested (`per-page`); a page this long is taken as not the last. */
  const PerPage := 1000

  /** The default freshness window, in seconds. */
  const DefaultCacheTime := 3600

  /** The outcome of one page request: an ok status with its decoded children,
      a non-ok HTTP status, or a request or JSON decoding that rejects
      (a network error, a body that is not JSON). */
  datatype Response = Ok(children: seq<Mention>) | NotOk | Failed

  /** One page request: the `since` cursor (absent: no `since` parameter) and the 0-based page. */
  datatype Request = Request(since: Option<int>, page: nat)

  /** The service: for each `since` cursor, the pages it serves in order. Every
      page past the end answers with no children, so every feed is finite. */
  type Server = Option<int> -> seq<Response>

  function ResponseAt(pages: seq<Response>, page: nat): Response {
    if page < |pages| then pages[page] else Ok([])
  }

  predicate IsFullPage(response: Response) {
    response.Ok? && |response.children| == PerPage
  }

  /** The children of an ok page; nothing for a failed one. */
  function ChildrenOf(response: Response): seq<Mention> {
    if response.Ok? then response.children else []
  }

  /** The children of `count` consecutive pages starting at `page`, in page order. */
  function Concatenated(pages: seq<Response>, page: nat, count: nat): seq<Mention>
    decreases count
  {
    if count == 0 then [] else ChildrenOf(ResponseAt(pages, page)) + Concatenated(pages, page + 1, count - 1)
  }

  /** `fetchWebmentions(since, page)`: a non-ok status resolves to null; a
      rejected request or decoding rejects; a full page is followed by the
      later pages' result. Spreading a null from a later page throws, so any
      failure after the first page rejects. */
  function FetchWebmentions(server: Server, since: Option<int>, page: nat): Settled<Option<seq<Mention>>>
    decreases |server(since)| - page
  {
    match ResponseAt(server(since), page)
    case NotOk => Resolved(None)
    case Failed => Rejected
    case Ok(children) =>
      if |children| == PerPage then
        match FetchWebmentions(server, since, page + 1)
        case Resolved(Some(older)) => Resolved(Some(children + older))
        case _ => Rejected
      else
        Resolved(Some(children))
  }

  /** The requests `fetchWebmentions(since, page)` issues, in order: consecutive
      pages with the same cursor, up to and including the first page that is
      not full; never more than the feed has pages, plus one. */
  function Requests(server: Server, since: Option<int>, page: nat): (r: seq<Request>)
    decreases |server(since)| - page
    ensures |r| >= 1
    ensures forall i :: 0 <= i < |r| ==> r[i] == Request(since, page + i)
    ensures forall i :: page <= i < page + |r| - 1 ==> IsFullPage(ResponseAt(server(since), i))
    ensures !IsFullPage(ResponseAt(server(since), page + |r| - 1))
    ensures page <= |server(since)| ==> |r| <= |server(since)| - page + 1
  {
    if IsFullPage(ResponseAt(server(since), page)) then
      [Request(since, page)] + Requests(server, since, page + 1)
    else
      [Request(since, page)]
  }

  /** How a fetch ends: null exactly when the first page has a non-ok status;
      a list exactly when every requested page answered ok, and then it is
      their children concatenated in page order; otherwise a rejection, which
      a rejected request on the first page already causes. No partial list. */
  lemma {:induction false} FetchOutcome(server: Server, since: Option<int>, page: nat)
    decreases |server(since)| - page
    ensures FetchWebmentions(server, since, page) == Resolved(None) <==> ResponseAt(server(since), page).NotOk?
    ensures FetchWebmentions(server, since, page).Resolved? && FetchWebmentions(server, since, page).value.Some?
        <==> forall i :: page <= i < page + |Requests(server, since, page)| ==> ResponseAt(server(since), i).Ok?
    ensures FetchWebmentions(server, since, page).Resolved? && FetchWebmentions(server, since, page).value.Some? ==>
        FetchWebmentions(server, since, page).value.value == Concatenated(server(since), page, |Requests(server, since, page)|)
    ensures ResponseAt(server(since), page).Failed? ==> FetchWebmentions(server, since, page) == Rejected
  {
    var pages := server(since);
    var response := ResponseAt(pages, page);
    if IsFullPage(response) {
      FetchOutcome(server, since, page + 1);
      var rest := Requests(server, since, page + 1);
      assert |Requests(server, since, page)| == |rest| + 1;
      if !(forall i :: page + 1 <= i < page + 1 + |rest| ==> ResponseAt(pages, i).Ok?) {
        var i :| page + 1 <= i < page + 1 + |rest| && !ResponseAt(pages, i).Ok?;
        assert page <= i < page + |Requests(server, since, page)|;
      }
    }
  }

  /** k full pages followed by an ok short page: the result is those k + 1
      pages' children in order, from exactly k + 1 requests. */
  lemma {:induction false} FullPagesThenShort(server: Server, since: Option<int>, page: nat, k: nat)
    requires forall i :: page <= i < page + k ==> IsFullPage(ResponseAt(server(since), i))
    requires ResponseAt(server(since), page + k).Ok? && !IsFullPage(ResponseAt(server(since), page + k))
    ensures |Requests(server, since, page)| == k + 1
    ensures FetchWebmentions(server, since, page) == Resolved(Some(Concatenated(server(since), page, k + 1)))
    decreases k
  {
    if k > 0 {
      FullPagesThenShort(server, since, page + 1, k - 1);
      assert IsFullPage(ResponseAt(server(since), page));
    } else {
      assert Concatenated(server(since), page, 1) == ResponseAt(server(since), page).children;
    }
  }

  /** The cache document. */
  datatype CacheState = CacheState(lastFetched: Option<int>, children: seq<Mention>)

  /** The freshness test of `get`: never fetched, or at least `cacheTime`
      seconds since the last fetch (times in milliseconds). */
  predicate NeedsFetch(lastFetched: Option<int>, now: int, cacheTime: int) {
    lastFetched.None? || now - lastFetched.value >= cacheTime * 1000
  }

  /** The state written after a successful fetch: fetched records first, then
      the cached ones, with no de-duplication. */
  function Merged(feed: seq<Mention>, cache: CacheState, stampedAt: int): (next: CacheState)
    ensures next.lastFetched == Some(stampedAt)
    ensures |next.children| == |feed| + |cache.children|
    ensures next.children[..|feed|] == feed && next.children[|feed|..] == cache.children
  {
    CacheState(Some(stampedAt), feed + cache.children)
  }

  class Webmentions {
    /** The freshness window, in seconds. */
    const cacheTime: int
    /** The contents of `webmentions.json`; None while no such file exists. */
    var cacheFile: Option<CacheState>

    constructor (cacheTime: int := DefaultCacheTime, cacheFile: Option<CacheState> := None)
      ensures this.cacheTime == cacheTime && this.cacheFile == cacheFile
    {
      this.cacheTime := cacheTime;
      this.cacheFile := cacheFile;
    }

    /** `readFromCache`: the file's contents, or an empty never-fetched state. */
    function ReadFromCache(): (cache: CacheState)
      reads this
      ensures cacheFile.Some? ==> cache == cacheFile.value
      ensures cacheFile.None? ==> cache.lastFetched.None? && cache.children == []
    {
      if cacheFile.Some? then cacheFile.value else CacheState(None, [])
    }

    /** `writeToCache`: the file is created if need be and overwritten. */
    method WriteToCache(data: CacheState)
      modifies this
      ensures cacheFile == Some(data)
    {
      cacheFile := Some(data);
    }

    /** `get`. `now` is the clock read for the freshness test and `stampedAt`
        the one read for the new `lastFetched`; `requests` are the page
        requests issued. A fresh cache is served without any request; a stale
        one is refreshed from its own cursor, and on success the merged state
        is written and returned; when the first page has a non-ok status the
        stale cache is served unchanged; when a later page fails, or any
        request or decoding rejects, the call rejects and nothing is written. */
    method Get(now: int, stampedAt: int, server: Server) returns (result: Settled<seq<Mention>>, requests: seq<Request>)
      modifies this
      ensures var cache := old(ReadFromCache());
        if !NeedsFetch(cache.lastFetched, now, cacheTime) then
          requests == [] && result == Resolved(cache.children) && cacheFile == old(cacheFile)
        else
          requests == Requests(server, cache.lastFetched, 0) &&
          match FetchWebmentions(server, cache.lastFetched, 0)
          case Resolved(Some(feed)) =>
            cacheFile == Some(Merged(feed, cache, stampedAt)) && result == Resolved(feed + cache.children)
          case Resolved(None) =>
            cacheFile == old(cacheFile) && result == Resolved(cache.children)
          case Rejected =>
            cacheFile == old(cacheFile) && result == Rejected
    {
      var cache := ReadFromCache();
      requests := [];
      if NeedsFetch(cache.lastFetched, now, cacheTime) {
        requests := Requests(server, cache.lastFetched, 0);
        var feed := FetchWebmentions(server, cache.lastFetched, 0);
        match feed {
          case Rejected =>
            result := Rejected;
            return;
          case Resolved(Some(fetched)) =>
            var webmentions := Merged(fetched, cache, stampedAt);
            WriteToCache(webmentions);
            result := Resolved(webmentions.children);
            return;
          case Resolved(None) =>
        }
      }
      result := Resolved(cache.children);
    }
  }
}
