/**
 * The remote notes backend (notes_frontend/src/services/notes/api.service.ts):
 * the choice of base URL, the requests it sends, how a reply becomes a
 * result or an error, and the reachability probe that decides whether the
 * backend is used at all. The network itself is represented by the replies
 * handed in.
 */
module ApiService {
  import opened Types

  /** A configuration value carries something only when it is a non-empty string. */
  predicate IsSet(value: Option<string>) {
    value.Some? && value.value != []
  }

  /**
   * `getApiBase`: `VITE_API_BASE` if it is set, else `VITE_BACKEND_URL` if
   * that is set, else nothing. A chosen base is never empty.
   */
  function GetApiBase(apiBase: Option<string>, backendUrl: Option<string>): (r: Option<string>)
    ensures r.Some? <==> IsSet(apiBase) || IsSet(backendUrl)
    ensures r.Some? ==> r.value != []
    ensures IsSet(apiBase) ==> r == apiBase
    ensures !IsSet(apiBase) && IsSet(backendUrl) ==> r == backendUrl
  {
    var base := if IsSet(apiBase) then apiBase else if IsSet(backendUrl) then backendUrl else None;
    if base.Some? && |base.value| > 0 then base else None
  }

  /** Every character of `s` is a slash. */
  predicate AllSlashes(s: string) {
    forall k :: 0 <= k < |s| ==> s[k] == '/'
  }

  /**
   * `replace(/\/+$/, "")`: the longest trailing run of slashes removed. The
   * result does not end with a slash, and `s` is the result followed by
   * slashes only.
   */
  function StripTrailingSlashes(s: string): (r: string)
    ensures r == [] || r[|r| - 1] != '/'
    ensures |r| <= |s| && s[..|r|] == r && AllSlashes(s[|r|..])
    decreases |s|
  {
    if |s| > 0 && s[|s| - 1] == '/' then StripTrailingSlashes(s[..|s| - 1]) else s
  }

  /** A string that does not end with a slash, followed by slashes, strips back to it. */
  lemma {:induction false} StripUnique(r: string, slashes: string)
    requires r == [] || r[|r| - 1] != '/'
    requires AllSlashes(slashes)
    ensures StripTrailingSlashes(r + slashes) == r
    decreases |slashes|
  {
    if slashes == [] {
      assert r + slashes == r;
    } else {
      var n := |r + slashes|;
      assert (r + slashes)[n - 1] == '/';
      assert (r + slashes)[..n - 1] == r + slashes[..|slashes| - 1];
      StripUnique(r, slashes[..|slashes| - 1]);
    }
  }

  /** Normalising a base twice gives what normalising once gives. */
  lemma StripIdempotent(s: string)
    ensures StripTrailingSlashes(StripTrailingSlashes(s)) == StripTrailingSlashes(s)
  {
    var r := StripTrailingSlashes(s);
    assert r + [] == r;
    StripUnique(r, []);
  }

  /** Extra trailing slashes on a configured base make no difference. */
  lemma StripIgnoresExtraSlashes(s: string, slashes: string)
    requires AllSlashes(slashes)
    ensures StripTrailingSlashes(s + slashes) == StripTrailingSlashes(s)
  {
    var r := StripTrailingSlashes(s);
    var tail := s[|r|..];
    assert s == r + tail;
    assert AllSlashes(tail + slashes) by {
      forall k | 0 <= k < |tail + slashes| ensures (tail + slashes)[k] == '/' {
        if k < |tail| { assert (tail + slashes)[k] == tail[k]; }
        else { assert (tail + slashes)[k] == slashes[k - |tail|]; }
      }
    }
    assert s + slashes == r + (tail + slashes);
    StripUnique(r, tail + slashes);
  }

  /** The HTTP methods the backend uses. */
  datatype HttpMethod = GET | POST | PUT | DELETE

  /** A request body, kept as the value `JSON.stringify` serialises. */
  datatype Body = NoBody | CreateBody(note: NoteInput) | PatchBody(patch: NotePatch)

  /** Request headers by name. */
  type Headers = map<string, string>

  /** The header every request is meant to carry. */
  const JsonHeaders: Headers := map["Content-Type" := "application/json"]

  /**
   * The `init` argument of `fetchJson`. A field that is `None` is absent
   * from the object; `NoInit` stands for leaving `init` out.
   */
  datatype Init = Init(verb: Option<HttpMethod>, body: Body, headers: Option<Headers>)

  const NoInit := Init(None, NoBody, None)

  /** What `fetch` is asked to send. */
  datatype Request = Request(url: string, verb: HttpMethod, body: Body, headers: Headers)

  /**
   * The request `fetchJson` sends AS WRITTEN: `{headers: {json, ...init.headers}, ...init}`.
   * The later `...init` puts the caller's own `headers` back over the merged
   * object, so caller headers replace the JSON default outright.
   */
  function SourceRequest(url: string, init: Init): (req: Request)
    ensures req.url == url && req.body == init.body
    ensures req.verb == init.verb.OrElse(GET)
    ensures init.headers.None? ==> req.headers == JsonHeaders
    ensures init.headers.Some? ==> req.headers == init.headers.value
  {
    var merged := JsonHeaders + init.headers.OrElse(map[]);
    Request(url, init.verb.OrElse(GET), init.body, init.headers.OrElse(merged))
  }

  /** The headers passed by a caller that sets its own header `X-Trace`. */
  const TracedInit := Init(Some(GET), NoBody, Some(map["X-Trace" := "1"]))

  /** As written, a caller that adds a header loses the JSON content type. */
  lemma SourceRequestDropsJsonHeader(url: string)
    ensures "Content-Type" !in SourceRequest(url, TracedInit).headers
  {
  }

  /**
   * The request `fetchJson` evidently means to send: the JSON default
   * merged with, and overridden by, the caller's headers.
   */
  function MergedRequest(url: string, init: Init): (req: Request)
    ensures req.url == url && req.body == init.body
    ensures req.verb == init.verb.OrElse(GET)
    ensures forall name :: name in init.headers.OrElse(map[]) ==>
      name in req.headers && req.headers[name] == init.headers.value[name]
    ensures "Content-Type" !in init.headers.OrElse(map[]) ==>
      "Content-Type" in req.headers && req.headers["Content-Type"] == "application/json"
    ensures forall name :: name in req.headers ==> name == "Content-Type" || name in init.headers.OrElse(map[])
  {
    Request(url, init.verb.OrElse(GET), init.body, JsonHeaders + init.headers.OrElse(map[]))
  }

  /** Both readings agree whenever the caller passes no headers, as every call below does. */
  lemma RequestsAgreeWithoutHeaders(url: string, init: Init)
    requires init.headers.None?
    ensures MergedRequest(url, init) == SourceRequest(url, init)
    ensures MergedRequest(url, init).headers == JsonHeaders
  {
    assert JsonHeaders + map[] == JsonHeaders;
  }

  /** What the network gives back for a request. */
  datatype Reply<T> =
    | NetworkError                                          // `fetch` rejects
    | Response(status: nat, text: Option<string>, json: Option<T>)
      // `text` is `None` when reading the body fails; `json` is `None` when the body is not JSON

  /** Why a call throws. */
  datatype Failure = Unreachable | RequestFailed(message: string) | InvalidJson

  /** `res.ok`: a 2xx status, that is, one printed as three digits starting with 2. */
  predicate IsOk(status: nat)
    ensures IsOk(status) <==> |Decimal(status)| == 3 && Decimal(status)[0] == '2'
  {
    DecimalLength(status);
    200 <= status <= 299
  }

  /** How many digits `Decimal` prints, and the leading one of a three-digit number. */
  lemma {:induction false} DecimalLength(n: nat)
    ensures n < 100 ==> |Decimal(n)| < 3
    ensures 100 <= n < 1000 ==> |Decimal(n)| == 3 && Decimal(n)[0] == '0' + (n / 100) as char
    ensures 1000 <= n ==> |Decimal(n)| > 3
    decreases n
  {
    if n >= 10 {
      DecimalLength(n / 10);
    }
  }

  /** The decimal digits of `n`, as a template literal prints a status. */
  function Decimal(n: nat): (s: string)
    ensures s != [] && forall k :: 0 <= k < |s| ==> '0' <= s[k] <= '9'
    ensures s[0] == '0' ==> s == "0"
    decreases n
  {
    var last := ['0' + (n % 10) as char];
    if n < 10 then last else Decimal(n / 10) + last
  }

  /** The number a string of decimal digits denotes. */
  function DecimalValue(s: string): nat
    requires forall k :: 0 <= k < |s| ==> '0' <= s[k] <= '9'
    decreases |s|
  {
    if s == [] then 0 else 10 * DecimalValue(s[..|s| - 1]) + (s[|s| - 1] - '0') as nat
  }

  /** The printed status reads back as the status. */
  lemma {:induction false} DecimalRoundTrip(n: nat)
    ensures DecimalValue(Decimal(n)) == n
    decreases n
  {
    if n >= 10 {
      DecimalRoundTrip(n / 10);
      var s := Decimal(n);
      assert s[..|s| - 1] == Decimal(n / 10);
    }
  }

  const RequestFailedPrefix := "Request failed: "

  /**
   * The message of the error a failed response throws: the body text when
   * it could be read and is non-empty, else "Request failed: " and the status.
   */
  function FailureMessage(status: nat, text: Option<string>): (m: string)
    ensures m != []
    ensures IsSet(text) ==> m == text.value
    ensures !IsSet(text) ==> m == RequestFailedPrefix + Decimal(status)
  {
    var body := text.OrElse("");
    if body != [] then body else RequestFailedPrefix + Decimal(status)
  }

  /** With no usable body, the status can be read back from the message. */
  lemma FailureMessageCarriesStatus(status: nat, text: Option<string>)
    requires !IsSet(text)
    ensures var m := FailureMessage(status, text);
      && m[..|RequestFailedPrefix|] == RequestFailedPrefix
      && DecimalValue(m[|RequestFailedPrefix|..]) == status
  {
    var m := FailureMessage(status, text);
    assert m[|RequestFailedPrefix|..] == Decimal(status);
    DecimalRoundTrip(status);
  }

  /**
   * What `fetchJson` resolves to for a reply: the parsed body of a 2xx
   * response, else the error it throws.
   */
  function FetchJson<T>(reply: Reply<T>): (r: Result<T, Failure>)
    ensures reply.NetworkError? ==> r == Err(Unreachable)
    ensures reply.Response? && !IsOk(reply.status) ==> r == Err(RequestFailed(FailureMessage(reply.status, reply.text)))
    ensures r.Ok? <==> reply.Response? && IsOk(reply.status) && reply.json.Some?
    ensures r.Ok? ==> r.value == reply.json.value
  {
    match reply
    case NetworkError => Err(Unreachable)
    case Response(status, text, json) =>
      if !IsOk(status) then Err(RequestFailed(FailureMessage(status, text)))
      else if json.None? then Err(InvalidJson)
      else Ok(json.value)
  }

  /** The collection URL under a base. */
  function NotesUrl(base: string): string {
    base + "/notes"
  }

  /** The URL of one note: the collection URL, a slash and the encoded id. */
  function NoteUrl(base: string, id: string, encode: string -> string): (url: string)
    ensures url == NotesUrl(base) + "/" + encode(id)
  {
    base + "/notes/" + encode(id)
  }

  /** Whatever slashes end the configured base, the URLs are the same. */
  lemma UrlsIgnoreTrailingSlashes(raw: string, slashes: string, id: string, encode: string -> string)
    requires AllSlashes(slashes)
    ensures NotesUrl(StripTrailingSlashes(raw + slashes)) == NotesUrl(StripTrailingSlashes(raw))
    ensures NoteUrl(StripTrailingSlashes(raw + slashes), id, encode) == NoteUrl(StripTrailingSlashes(raw), id, encode)
  {
    StripIgnoresExtraSlashes(raw, slashes);
  }

  /** `ApiNotesService`: a remote backend bound to one normalised base URL. */
  class ApiNotesService {
    const base: string

    constructor (baseUrl: string)
      ensures base == StripTrailingSlashes(baseUrl)
    {
      base := StripTrailingSlashes(baseUrl);
    }

    /** `list`: GET the collection. */
    function ListRequest(): (req: Request)
      ensures req == Request(base + "/notes", GET, NoBody, JsonHeaders)
    {
      RequestsAgreeWithoutHeaders(NotesUrl(base), NoInit);
      MergedRequest(NotesUrl(base), NoInit)
    }

    /** `create`: POST the title and content to the collection. */
    function CreateRequest(note: NoteInput): (req: Request)
      ensures req == Request(base + "/notes", POST, CreateBody(note), JsonHeaders)
    {
      var init := Init(Some(POST), CreateBody(note), None);
      RequestsAgreeWithoutHeaders(NotesUrl(base), init);
      MergedRequest(NotesUrl(base), init)
    }

    /** `update`: PUT the patch to the note's URL. */
    function UpdateRequest(id: string, patch: NotePatch, encode: string -> string): (req: Request)
      ensures req == Request(base + "/notes/" + encode(id), PUT, PatchBody(patch), JsonHeaders)
    {
      var init := Init(Some(PUT), PatchBody(patch), None);
      RequestsAgreeWithoutHeaders(NoteUrl(base, id, encode), init);
      MergedRequest(NoteUrl(base, id, encode), init)
    }

    /** `remove`: DELETE the note's URL. */
    function RemoveRequest(id: string, encode: string -> string): (req: Request)
      ensures req == Request(base + "/notes/" + encode(id), DELETE, NoBody, JsonHeaders)
    {
      var init := Init(Some(DELETE), NoBody, None);
      RequestsAgreeWithoutHeaders(NoteUrl(base, id, encode), init);
      MergedRequest(NoteUrl(base, id, encode), init)
    }

    /** What `remove` resolves to: nothing, or the error `fetchJson` throws. */
    function RemoveOutcome<T>(reply: Reply<T>): (r: Result<(), Failure>)
      ensures r.Ok? <==> FetchJson(reply).Ok?
      ensures r.Err? ==> r.error == FetchJson(reply).error
    {
      match FetchJson(reply)
      case Ok(_) => Ok(())
      case Err(e) => Err(e)
    }

    /**
     * `createIfReachable`: with a configured base, probe `/health` (its
     * outcome is ignored) and then `/notes`; the backend is returned only
     * when the `/notes` probe resolves.
     */
    static method CreateIfReachable<H, J>(apiBase: Option<string>, backendUrl: Option<string>,
                                          health: Reply<H>, notes: Reply<J>)
      returns (svc: ApiNotesService?)
      ensures svc == null <==> ReachableBase(apiBase, backendUrl, notes).None?
      ensures svc != null ==> fresh(svc) && svc.base == StripTrailingSlashes(ReachableBase(apiBase, backendUrl, notes).value)
    {
      var base := GetApiBase(apiBase, backendUrl);
      if base.None? {
        return null;
      }
      var healthOutcome := FetchJson(health);
      var notesOutcome := FetchJson(notes);
      if notesOutcome.Err? {
        return null;
      }
      svc := new ApiNotesService(base.value);
    }
  }

  /**
   * The decision `createIfReachable` takes: the configured base when there
   * is one and the `/notes` probe resolves, else nothing. The `/health`
   * probe takes no part in it.
   */
  function ReachableBase<J>(apiBase: Option<string>, backendUrl: Option<string>, notes: Reply<J>): (r: Option<string>)
    ensures r.Some? <==> GetApiBase(apiBase, backendUrl).Some? && FetchJson(notes).Ok?
    ensures r.Some? ==> r == GetApiBase(apiBase, backendUrl)
  {
    var base := GetApiBase(apiBase, backendUrl);
    if base.None? then None
    else if FetchJson(notes).Err? then None
    else base
  }

  /** The probes `createIfReachable` sends: none without a base, else `/health` then `/notes`. */
  function ProbeRequests(apiBase: Option<string>, backendUrl: Option<string>): (probes: seq<Request>)
    ensures GetApiBase(apiBase, backendUrl).None? <==> probes == []
    ensures probes != [] ==>
      var b := StripTrailingSlashes(GetApiBase(apiBase, backendUrl).value);
      probes == [Request(b + "/health", GET, NoBody, JsonHeaders), Request(NotesUrl(b), GET, NoBody, JsonHeaders)]
  {
    var base := GetApiBase(apiBase, backendUrl);
    if base.None? then []
    else
      var normalised := StripTrailingSlashes(base.value);
      var probe := Init(Some(GET), NoBody, None);
      RequestsAgreeWithoutHeaders(normalised + "/health", probe);
      RequestsAgreeWithoutHeaders(NotesUrl(normalised), probe);
      [MergedRequest(normalised + "/health", probe), MergedRequest(NotesUrl(normalised), probe)]
  }

  /** The `/notes` probe is exactly the request the chosen backend's `list` sends. */
  lemma NotesProbeIsListRequest(apiBase: Option<string>, backendUrl: Option<string>, svc: ApiNotesService)
    requires GetApiBase(apiBase, backendUrl).Some?
    requires svc.base == StripTrailingSlashes(GetApiBase(apiBase, backendUrl).value)
    ensures ProbeRequests(apiBase, backendUrl)[1] == svc.ListRequest()
  {
    RequestsAgreeWithoutHeaders(NotesUrl(svc.base), Init(Some(GET), NoBody, None));
  }
}
