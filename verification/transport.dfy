/** The shared request helper: which vendor endpoint a request addresses,
    and how one HTTP exchange becomes either decoded data or an error. */
module Transport {
  import opened Wrappers
  import opened PyJson
  import opened Orders

  datatype Method = GET | POST

  /** The vendor operation a request addresses; URLs are not modelled. */
  datatype Endpoint =
    | SmsManGetNumber
    | SmsManGetSms
    | SmsManSetStatus
    | FiveSimBuyHosting(country: string, product: string)
    | FiveSimCheck(orderId: string)
    | FiveSimFinish(orderId: string)
    | VakGetNumber
    | VakGetSmsCode
    | VakSetStatus
  {
    function Vendor(): ProviderType {
      match this
      case SmsManGetNumber | SmsManGetSms | SmsManSetStatus => SmsMan
      case FiveSimBuyHosting(_, _) | FiveSimCheck(_) | FiveSimFinish(_) => FiveSim
      case VakGetNumber | VakGetSmsCode | VakSetStatus => VakSms
    }
  }

  /** A request: method, endpoint and query parameters in the order written. */
  datatype Request = Request(verb: Method, endpoint: Endpoint, params: seq<(string, Json)>)

  /** `q` sends `value`, and only `value`, for the query parameter `key`. */
  predicate Sends(q: Request, key: string, value: Json) {
    && (key, value) in q.params
    && forall k :: 0 <= k < |q.params| && q.params[k].0 == key ==> q.params[k].1 == value
  }

  /** What the HTTP layer delivers for one request: a reply (status code,
      Content-Type header, "" when absent, and body text) or a failure the
      HTTP library raises as a client error, such as a refused connection. */
  datatype Exchange =
    | Reply(status: int, contentType: string, text: string)
    | NetworkFailure(description: string)

  /** The header declares a JSON body. */
  predicate DeclaresJson(contentType: string) {
    Occurs("application/json", contentType)
  }

  /** The wrapper returned for a body that is not JSON. */
  function TextResponse(text: string): Json {
    JObject([("text_response", JStr(text))])
  }

  /** Normalisation of one exchange.  `parse` is the JSON decoder, None where
      it raises.  Error statuses and network failures become APIRequestError;
      a body declared JSON is decoded (a decoding failure escapes as
      JSONDecodeError); any other body is decoded if it can be and otherwise
      wrapped as `{"text_response": text}`. */
  function MakeRequest(ex: Exchange, parse: string -> Option<Json>): (r: Result<Json, SmsError>)
    ensures r.Err? && r.error.ApiRequestError? <==> ex.NetworkFailure? || ex.status >= 400
    ensures ex.Reply? && ex.status >= 400 ==> r == Err(ApiRequestError(HttpStatus(ex.status, ex.text)))
    ensures r.Err? && !r.error.ApiRequestError? <==>
      ex.Reply? && ex.status < 400 && DeclaresJson(ex.contentType) && parse(ex.text).None?
    ensures r.Err? ==> r.error.ApiRequestError? || r.error == RuntimeFault(JsonDecodeError)
    ensures r.Ok? ==> r.value == parse(ex.text).GetOr(TextResponse(ex.text))
    ensures r.Ok? && parse(ex.text).None? ==> !DeclaresJson(ex.contentType)
  {
    match ex
    case NetworkFailure(description) => Err(ApiRequestError(NetworkError(description)))
    case Reply(status, contentType, text) =>
      if status >= 400 then Err(ApiRequestError(HttpStatus(status, text)))
      else if DeclaresJson(contentType) then
        (match parse(text)
         case Some(v) => Ok(v)
         case None => Err(RuntimeFault(JsonDecodeError)))
      else Ok(parse(text).GetOr(TextResponse(text)))
  }

  /** An error status raises whatever the header and body are. */
  lemma ErrorStatusAlwaysRaises(status: int, contentType: string, text: string, parse: string -> Option<Json>)
    requires status >= 400
    ensures MakeRequest(Reply(status, contentType, text), parse).Err?
    ensures MakeRequest(Reply(status, contentType, text), parse).error.ApiRequestError?
  {
  }

  /** A reply not declared JSON never raises: an undecodable body comes back
      wrapped, and its text can be read out of the wrapper. */
  lemma TextBodyNeverRaises(status: int, contentType: string, text: string, parse: string -> Option<Json>)
    requires status < 400 && !DeclaresJson(contentType)
    ensures MakeRequest(Reply(status, contentType, text), parse).Ok?
    ensures parse(text).None? ==>
      Subscript(MakeRequest(Reply(status, contentType, text), parse).value, "text_response") == Ok(JStr(text))
  {
  }
}
