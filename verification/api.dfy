/** The client's fetch wrapper (ui/src/api.ts): how an HTTP response becomes a value or a
    thrown error. */
module Api {
  import opened Common
  import opened Strings

  /** Every request path is prefixed with this. */
  const ApiBaseUrl := "/api"

  /** What `fetchAPI` hands to `fetch`: the prefixed URL and the caller's options. */
  datatype Request<I> = Request(url: string, init: I)

  /** The request for an API path: the caller's options pass through untouched. */
  function ApiRequest<I>(url: string, init: I): (r: Request<I>)
    ensures r.init == init
    ensures StartsWith(r.url, ApiBaseUrl) && r.url[|ApiBaseUrl|..] == url
  {
    Request(ApiBaseUrl + url, init)
  }

  /** The JavaScript error classes a call can reject with. */
  datatype ErrorKind = PlainError | TypeError | SyntaxError

  /** A JavaScript `Error` object. */
  datatype JsError = JsError(kind: ErrorKind, message: string)

  /** The `message` property of a parsed error body: absent, null, or a string. */
  datatype MessageField = Absent | NullMessage | Message(text: string)

  /** A response body as `res.json()` sees it: not JSON, the JSON `null`, or some other JSON
      value, with what reading `.message` on it gives. */
  datatype Body<T> = Unparsable(parseError: string) | JsonNull | Json(value: T, message: MessageField)

  /** The parts of a `Response` the wrapper reads. */
  datatype HttpResponse<T> = HttpResponse(ok: bool, statusText: string, body: Body<T>)

  /** What `fetch` itself produces: a network failure or a response. */
  datatype Transport<T> = NetworkFailure(message: string) | Received(response: HttpResponse<T>)

  /** How the returned promise settles; a resolved JSON `null` is `None`. */
  datatype Settled<T> = Resolved(value: Option<T>) | Rejected(error: JsError)

  /** The message V8 puts in the TypeError thrown by reading a property of `null`. */
  const NullReadMessage := "Cannot read properties of null (reading 'message')"

  /** `fetchAPI` as written. On a non-ok response an unparsable body becomes `null` through
      the `.catch`, and `data.message` then throws a TypeError before the status text fallback
      is reached; the same happens for a body that is the JSON `null`. */
  function FetchApiAsWritten<T>(t: Transport<T>): (s: Settled<T>)
    ensures t.NetworkFailure? ==> s == Rejected(JsError(TypeError, t.message))
    ensures t.Received? && !t.response.ok && (t.response.body.Unparsable? || t.response.body.JsonNull?) ==>
      s == Rejected(JsError(TypeError, NullReadMessage))
    ensures t.Received? && !t.response.ok && t.response.body.Json? ==>
      s == Rejected(JsError(PlainError, ErrorMessage(t.response)))
    ensures t.Received? && t.response.ok ==>
      match t.response.body
      case Unparsable(e) => s == Rejected(JsError(SyntaxError, e))
      case JsonNull => s == Resolved(None)
      case Json(v, _) => s == Resolved(Some(v))
  {
    match t
    case NetworkFailure(m) => Rejected(JsError(TypeError, m))
    case Received(res) =>
      if !res.ok then
        match res.body
        case Unparsable(_) => Rejected(JsError(TypeError, NullReadMessage))
        case JsonNull => Rejected(JsError(TypeError, NullReadMessage))
        case Json(_, Message(m)) => Rejected(JsError(PlainError, m))
        case Json(_, _) => Rejected(JsError(PlainError, res.statusText))
      else
        match res.body
        case Unparsable(e) => Rejected(JsError(SyntaxError, e))
        case JsonNull => Resolved(None)
        case Json(v, _) => Resolved(Some(v))
  }

  /** A 502 whose body is an HTML error page rejects with the TypeError, not with
      "Bad Gateway". */
  lemma AsWrittenLosesStatusText()
    ensures
      var t: Transport<int> := Received(HttpResponse(false, "Bad Gateway", Unparsable("Unexpected token '<'")));
      FetchApiAsWritten(t) == Rejected(JsError(TypeError, NullReadMessage))
      && FetchApiAsWritten(t).error.message != "Bad Gateway"
  {
  }

  /** The message a failed response should carry: the body's `message` when it has one, the
      status text otherwise. */
  function ErrorMessage<T>(res: HttpResponse<T>): string {
    match res.body
    case Json(_, Message(m)) => m
    case _ => res.statusText
  }

  /** `fetchAPI` with the evident intent of the fallback (`data?.message ?? res.statusText`):
      an error body that cannot be read degrades to the status text. */
  function FetchApi<T>(t: Transport<T>): (s: Settled<T>)
    ensures t.NetworkFailure? ==> s == Rejected(JsError(TypeError, t.message))
    ensures t.Received? && !t.response.ok ==> s == Rejected(JsError(PlainError, ErrorMessage(t.response)))
    ensures t.Received? && t.response.ok ==>
      match t.response.body
      case Unparsable(e) => s == Rejected(JsError(SyntaxError, e))
      case JsonNull => s == Resolved(None)
      case Json(v, _) => s == Resolved(Some(v))
  {
    match t
    case NetworkFailure(m) => Rejected(JsError(TypeError, m))
    case Received(res) =>
      if !res.ok then Rejected(JsError(PlainError, ErrorMessage(res)))
      else
        match res.body
        case Unparsable(e) => Rejected(JsError(SyntaxError, e))
        case JsonNull => Resolved(None)
        case Json(v, _) => Resolved(Some(v))
  }

  /** The two agree on every transport outcome except a failed response whose body is not a
      JSON value with properties. */
  lemma FetchApiAgreesWithAsWritten<T>(t: Transport<T>)
    ensures FetchApi(t) == FetchApiAsWritten(t) <==>
      !(t.Received? && !t.response.ok && (t.response.body.Unparsable? || t.response.body.JsonNull?))
  {
  }

  /** A failed response always rejects with a plain Error whose message is the body's message
      or the status text; it never escapes as a TypeError. */
  lemma FailedResponseMessage<T>(res: HttpResponse<T>)
    requires !res.ok
    ensures var s := FetchApi(Received(res));
      && s.Rejected? && s.error.kind == PlainError
      && (res.body.Json? && res.body.message.Message? ==> s.error.message == res.body.message.text)
      && (!(res.body.Json? && res.body.message.Message?) ==> s.error.message == res.statusText)
  {
  }
}
