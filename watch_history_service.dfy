/**
 * The watch-history client: the API base URL, the Authorization header, the
 * URLs of its three calls, and how each call turns the server's answer into
 * its own result.
 */
module WatchHistoryService {
  import opened Wrappers
  import opened Text
  import opened Uri

  /** The base URL when the environment sets none. */
  const DefaultApiBase: string := "http://localhost:5000/api"

  /** `process.env.NEXT_PUBLIC_API_URL || default`: an empty setting counts as none. */
  function ApiBaseUrl(env: Option<string>): (base: string)
    ensures env.Some? && env.value != "" ==> base == env.value
    ensures env.None? || env.value == "" ==> base == DefaultApiBase
  {
    if env.Some? && env.value != "" then env.value else DefaultApiBase
  }

  const BearerPrefix: string := "Bearer "

  /** The Authorization header: the bearer token when there is one, else empty. */
  function AuthHeader(token: Option<string>): (header: string)
    ensures header == "" <==> token.None? || token.value == ""
    ensures header != "" ==> BearerPrefix <= header && header[|BearerPrefix|..] == token.value
  {
    if token.Some? && token.value != "" then BearerPrefix + token.value else ""
  }

  datatype ContentType = Movie | Comic

  function ContentTypeName(t: ContentType): string
  {
    match t
    case Movie => "movie"
    case Comic => "comic"
  }

  /** A watch-history entry, the fields the client reads. */
  datatype WatchHistory = WatchHistory(
    id: string,
    contentType: ContentType,
    contentId: string,
    contentTitle: string,
    contentThumb: string,
    lastWatchedAt: string)

  /** The body of a create-or-update call. */
  datatype CreateWatchHistoryDto = CreateWatchHistoryDto(
    contentType: ContentType,
    contentId: string,
    contentTitle: string,
    contentThumb: Option<string>,
    chapterId: Option<string>,
    chapterName: Option<string>)

  const DefaultHistoryPage: int := 1
  const DefaultHistoryLimit: int := 20

  /** The query pairs `getWatchHistory` sends: `contentType` only when given, then `page`, then `limit`. */
  function HistoryParams(contentType: Option<ContentType>, page: int, limit: int): (ps: seq<(string, string)>)
    ensures contentType.Some? ==> ps == [("contentType", ContentTypeName(contentType.value)),
                                        ("page", IntToString(page)), ("limit", IntToString(limit))]
    ensures contentType.None? ==> ps == [("page", IntToString(page)), ("limit", IntToString(limit))]
  {
    (if contentType.Some? then [("contentType", ContentTypeName(contentType.value))] else [])
      + [("page", IntToString(page)), ("limit", IntToString(limit))]
  }

  /** The list call's URL reads back as exactly those pairs. */
  lemma HistoryQueryReadsBack(contentType: Option<ContentType>, page: int, limit: int)
    ensures ParseQuery(Serialize(HistoryParams(contentType, page, limit))) == Some(HistoryParams(contentType, page, limit))
    ensures |HistoryParams(contentType, page, limit)| == if contentType.Some? then 3 else 2
  {
    QueryRoundTrip(HistoryParams(contentType, page, limit));
  }

  /**
   * `getWatchHistory`: the query is built by appending to a fresh
   * `URLSearchParams`; a missing page is 1 and a missing limit 20.
   */
  method GetWatchHistoryUrl(base: string, contentType: Option<ContentType>, page: Option<int>, limit: Option<int>)
    returns (url: string)
    ensures url == base + "/watch-history?" + Serialize(HistoryParams(contentType, page.GetOr(DefaultHistoryPage), limit.GetOr(DefaultHistoryLimit)))
  {
    var p := page.GetOr(DefaultHistoryPage);
    var l := limit.GetOr(DefaultHistoryLimit);
    var params := new SearchParams();
    if contentType.Some? {
      params.Append("contentType", ContentTypeName(contentType.value));
    }
    ghost var first := params.pairs;
    assert first == HistoryParams(contentType, p, l)[..|first|];
    params.Append("page", IntToString(p));
    params.Append("limit", IntToString(l));
    assert params.pairs == first + [("page", IntToString(p)), ("limit", IntToString(l))];
    assert params.pairs == HistoryParams(contentType, p, l);
    var query := params.ToString();
    url := base + "/watch-history?" + query;
  }

  /** A failed HTTP call; `status` is the response status when a response arrived. */
  datatype HttpError = HttpError(status: Option<int>)

  datatype Outcome<T> = Ok(body: T) | Failed(error: HttpError)

  /** What an async client call does with the server's answer: return a value or throw. */
  datatype Settled<T> = Returned(value: T) | Thrown(error: HttpError)

  /** `getWatchHistoryByContentId`'s request: a GET of the entry under the collection URL. */
  function ByContentIdRequest(base: string, token: Option<string>, contentId: string): (req: HttpRequest)
    ensures req.httpMethod == Get && req.body == None
    ensures base + "/watch-history/" <= req.url
    ensures req.url[|base + "/watch-history/"|..] == contentId
    ensures req.authorization == AuthHeader(token)
  {
    HttpRequest(Get, base + "/watch-history/" + contentId, AuthHeader(token), None)
  }

  /** Under one base URL, different content ids ask for different entries. */
  lemma ByContentIdRequestInjective(base: string, token: Option<string>, id1: string, id2: string)
    requires ByContentIdRequest(base, token, id1).url == ByContentIdRequest(base, token, id2).url
    ensures id1 == id2
  {
    var u1, u2 := ByContentIdRequest(base, token, id1).url, ByContentIdRequest(base, token, id2).url;
    assert id1 == u1[|base + "/watch-history/"|..];
    assert id2 == u2[|base + "/watch-history/"|..];
  }

  /** `getWatchHistoryByContentId`: null exactly for a 404, every other failure rethrown unchanged. */
  function ByContentIdResult(outcome: Outcome<WatchHistory>): (r: Settled<Option<WatchHistory>>)
    ensures r == Returned(None) <==> outcome.Failed? && outcome.error.status == Some(404)
    ensures outcome.Ok? ==> r == Returned(Some(outcome.body))
    ensures r.Thrown? <==> outcome.Failed? && outcome.error.status != Some(404)
    ensures r.Thrown? ==> r.error == outcome.error
  {
    match outcome
    case Ok(entry) => Returned(Some(entry))
    case Failed(error) => if error.status == Some(404) then Returned(None) else Thrown(error)
  }

  datatype HttpMethod = Get | Post

  datatype HttpRequest = HttpRequest(httpMethod: HttpMethod, url: string, authorization: string, body: Option<CreateWatchHistoryDto>)

  /** `createOrUpdate`: a POST of the entry to the collection URL. */
  function CreateOrUpdateRequest(base: string, token: Option<string>, dto: CreateWatchHistoryDto): (req: HttpRequest)
    ensures req.httpMethod == Post && req.body == Some(dto)
    ensures req.url == base + "/watch-history"
    ensures req.authorization == AuthHeader(token)
  {
    HttpRequest(Post, base + "/watch-history", AuthHeader(token), Some(dto))
  }

  /** ... and its result is the response body, as sent; a failure propagates. */
  function CreateOrUpdateResult(outcome: Outcome<WatchHistory>): (r: Settled<WatchHistory>)
    ensures outcome.Ok? <==> r.Returned?
    ensures outcome.Ok? ==> r.value == outcome.body
    ensures outcome.Failed? ==> r.error == outcome.error
  {
    match outcome
    case Ok(entry) => Returned(entry)
    case Failed(error) => Thrown(error)
  }

  /** The list call's response body. */
  datatype WatchHistoryResponse = WatchHistoryResponse(items: seq<WatchHistory>, totalItems: int, totalPages: int, currentPage: int)
}
