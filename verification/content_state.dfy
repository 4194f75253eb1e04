/** The content-state read handler: it normalises a request (drops the
    refresh flag, fills missing content ids from the course's leaf nodes,
    deletes an empty id list) and posts it to the course service. */
module ContentState {
  import opened Wrappers

  /** The request as the caller hands it over. Fields the handler never
      inspects (user, batch, ...) travel untouched in `otherFields`. */
  datatype GetContentStateRequest = GetContentStateRequest(
    courseId: string,
    contentIds: Option<seq<string>>,
    returnRefreshedContentStates: Option<bool>,
    otherFields: map<string, string>)

  datatype HttpRequestType = Get | Post

  datatype RequestBody = RequestBody(request: GetContentStateRequest)

  /** The request handed to the API service. */
  datatype ApiRequest = ApiRequest(
    requestType: HttpRequestType,
    path: string,
    withBearerToken: bool,
    withUserToken: bool,
    body: RequestBody)

  const GetContentStateEndpoint: string := "/content/state/read"

  /** The response body, passed back to the caller as it came. */
  type ResponseBody = string

  /** What the API service answers: a status code and a body. */
  datatype Response = Response(responseCode: int, body: ResponseBody)

  /** Content lookup by id: fails, or yields the content's `leafNodes`
      (`None` when its content data has none). */
  type LeafNodeLookup = string -> Result<Option<seq<string>>>

  /** The API service: a request either fails or yields a response. */
  type ApiFetch = ApiRequest -> Result<Response>

  /** Keeps only the body of a successful response; a failure passes
      through. */
  function ResponseBodyOf(fetched: Result<Response>): (r: Result<ResponseBody>)
    ensures r.Success? <==> fetched.Success?
    ensures r.Success? ==> r.value == fetched.value.body
    ensures r.Failure? ==> r.error == fetched.error
  {
    match fetched
    case Success(response) => Success(response.body)
    case Failure(e) => Failure(e)
  }

  /** The handler's observable outcome: the content ids it looked up, the
      request it sent (if it got that far), and what the caller receives. */
  datatype HandleOutcome = HandleOutcome(
    lookups: seq<string>,
    sent: Option<ApiRequest>,
    result: Result<ResponseBody>)

  /** The condition under which `handle` fills the ids from the course:
      the list is missing or has length zero. */
  predicate NeedsLeafNodes(req: GetContentStateRequest) {
    req.contentIds.None? || |req.contentIds.value| == 0
  }

  /** What the body may carry: no refresh flag and no empty id list. */
  predicate Normalised(req: GetContentStateRequest) {
    && req.returnRefreshedContentStates.None?
    && (req.contentIds.None? || |req.contentIds.value| > 0)
  }

  /** `fetchFromApi`'s request: an empty id list is deleted, then the body
      is posted to the state-read endpoint with both tokens. */
  function BuildApiRequest(req: GetContentStateRequest, apiPath: string): (r: ApiRequest)
    ensures r.requestType == Post
    ensures r.path == apiPath + GetContentStateEndpoint
    ensures r.withBearerToken && r.withUserToken
    ensures r.body.request.contentIds.None? || |r.body.request.contentIds.value| > 0
    ensures r.body.request.contentIds.Some? ==> r.body.request.contentIds == req.contentIds
    ensures req.contentIds.Some? && |req.contentIds.value| > 0 ==> r.body.request == req
    ensures r.body.request.(contentIds := req.contentIds) == req
  {
    var request :=
      if req.contentIds.Some? && |req.contentIds.value| == 0 then req.(contentIds := None) else req;
    ApiRequest(Post, apiPath + GetContentStateEndpoint, true, true, RequestBody(request))
  }

  /** `fetchFromApi`: the built request is sent and the response's body is
      passed back unchanged; a failed fetch fails the call with its error. */
  function FetchFromApi(req: GetContentStateRequest, apiPath: string, fetch: ApiFetch): (r: HandleOutcome)
    ensures r.lookups == []
    ensures r.sent == Some(BuildApiRequest(req, apiPath))
    ensures fetch(r.sent.value).Success? ==> r.result == Success(fetch(r.sent.value).value.body)
    ensures fetch(r.sent.value).Failure? ==> r.result == Failure(fetch(r.sent.value).error)
  {
    var apiRequest := BuildApiRequest(req, apiPath);
    HandleOutcome([], Some(apiRequest), ResponseBodyOf(fetch(apiRequest)))
  }

  /** `handle`: the refresh flag is deleted; a missing or empty id list is
      replaced by the course's leaf nodes (or [] when it has none) before
      the request is sent; a non-empty list is sent as given, without any
      lookup. */
  function Handle(req: GetContentStateRequest, apiPath: string, lookup: LeafNodeLookup, fetch: ApiFetch): (r: HandleOutcome)
    ensures r.sent.Some? ==> Normalised(r.sent.value.body.request)
    ensures r.sent.Some? ==> r.sent.value.requestType == Post && r.sent.value.path == apiPath + GetContentStateEndpoint
    ensures r.sent.Some? ==> r.sent.value.withBearerToken && r.sent.value.withUserToken
    ensures r.sent.Some? && fetch(r.sent.value).Success? ==> r.result == Success(fetch(r.sent.value).value.body)
    ensures r.sent.Some? && fetch(r.sent.value).Failure? ==> r.result == Failure(fetch(r.sent.value).error)
    ensures r.sent.Some? ==> r.sent.value.body.request.courseId == req.courseId
    ensures r.sent.Some? ==> r.sent.value.body.request.otherFields == req.otherFields
    ensures !NeedsLeafNodes(req) ==> r.lookups == [] && r.sent.Some?
    ensures !NeedsLeafNodes(req) ==> r.sent.value.body.request.contentIds == req.contentIds
    ensures NeedsLeafNodes(req) ==> r.lookups == [req.courseId]
    ensures NeedsLeafNodes(req) ==> (r.sent.None? <==> lookup(req.courseId).Failure?)
    ensures NeedsLeafNodes(req) && lookup(req.courseId).Failure? ==> r.result == Failure(lookup(req.courseId).error)
    ensures NeedsLeafNodes(req) && lookup(req.courseId).Success? ==>
      var leaves := lookup(req.courseId).value.GetOr([]);
      r.sent.value.body.request.contentIds == if |leaves| > 0 then Some(leaves) else None
  {
    var stripped := req.(returnRefreshedContentStates := None);
    if NeedsLeafNodes(stripped) then
      match lookup(stripped.courseId)
      case Failure(e) => HandleOutcome([stripped.courseId], None, Failure(e))
      case Success(leafNodes) =>
        var filled := stripped.(contentIds := Some(leafNodes.GetOr([])));
        FetchFromApi(filled, apiPath, fetch).(lookups := [stripped.courseId])
    else
      FetchFromApi(stripped, apiPath, fetch)
  }

  /** Handling the request that was sent sends it again unchanged: the
      normalisation is idempotent. */
  lemma NormalisationIdempotent(req: GetContentStateRequest, apiPath: string, lookup: LeafNodeLookup, fetch: ApiFetch)
    requires Handle(req, apiPath, lookup, fetch).sent.Some?
    ensures var sent := Handle(req, apiPath, lookup, fetch).sent.value;
      Handle(sent.body.request, apiPath, lookup, fetch).sent == Some(sent)
  {
  }

  /** When ids are supplied, the content lookup cannot influence anything. */
  lemma SuppliedIdsIgnoreLookup(req: GetContentStateRequest, apiPath: string, lookup: LeafNodeLookup, other: LeafNodeLookup, fetch: ApiFetch)
    requires !NeedsLeafNodes(req)
    ensures Handle(req, apiPath, lookup, fetch) == Handle(req, apiPath, other, fetch)
  {
  }
}
