/**
 * The HTTP surface shared by the two edge functions, with the Deno runtime,
 * `fetch` and the JSON codec abstracted: a request arrives with its body
 * already decoded (or its decoding error), the AI gateway's reply is an
 * input, and every response is a status with a body.
 */
module EdgeHttp {
  import opened Wrappers

  /** A JSON value as `JSON.parse` yields it (numbers kept as integers). */
  datatype Json =
    | JNull
    | JBool(b: bool)
    | JNumber(n: int)
    | JString(s: string)
    | JArray(items: seq<Json>)
    | JObject(fields: map<string, Json>)

  /** JavaScript truthiness of a JSON value: arrays and objects are truthy even when empty. */
  predicate Truthy(j: Json) {
    match j
    case JNull => false
    case JBool(b) => b
    case JNumber(n) => n != 0
    case JString(s) => s != ""
    case JArray(_) => true
    case JObject(_) => true
  }

  /** `!!j[key]`: the property is present and truthy (`undefined` is falsy). */
  predicate PropertyTruthy(j: Json, key: string) {
    j.JObject? && key in j.fields && Truthy(j.fields[key])
  }

  /** A string that may be `undefined`, tested for truthiness: present and non-empty. */
  predicate Present(s: Option<string>) {
    s.Some? && s.value != ""
  }

  /** The outcome of a decoding step that may throw, such as `req.json()` or `JSON.parse`. */
  datatype Decoded<T> = Decoded(value: T) | DecodeError(message: string)

  /** An incoming request: its HTTP method (`verb`) and its JSON body, decoded into the fields the handler reads. */
  datatype Request<B> = Request(verb: string, body: Decoded<B>)

  /** The environment a handler reads: `LOVABLE_API_KEY`, if set. */
  datatype Env = Env(apiKey: Option<string>)

  /** The two-message chat request sent to the AI gateway. */
  datatype GatewayCall = GatewayCall(apiKey: string, model: string, systemPrompt: string, userPrompt: string)

  const GATEWAY_MODEL := "google/gemini-2.5-flash"

  /**
   * What `fetch` to the gateway gives back: a thrown error, or a status and
   * the decoded `choices[0].message.content` (None when absent).
   */
  datatype GatewayReply =
    | FetchFailed(message: string)
    | HttpReply(status: int, content: Decoded<Option<string>>)

  /** `response.ok`. */
  predicate IsOk(status: int) {
    200 <= status <= 299
  }

  datatype Body =
    | NoBody                        // `new Response(null, ...)`
    | ErrorBody(error: string)      // `{ error }`
    | ResultBody(value: Json)       // a parsed verdict, re-serialised verbatim
    | PolicyBody(policy: string)    // `{ policy }`

  /** A response; every response of both functions also carries the CORS headers. */
  datatype Response = Response(status: int, body: Body)

  /** The answer to a CORS pre-flight: no body and the default status. */
  const PREFLIGHT_RESPONSE := Response(200, NoBody)

  /** What the catch-all handler answers for any thrown error. */
  function InternalError(message: string): Response {
    Response(500, ErrorBody(message))
  }

  const RATE_LIMIT_MESSAGE := "Rate limit exceeded. Please try again in a moment."
  const CREDITS_MESSAGE := "AI usage limit reached. Please add credits to continue."
}
