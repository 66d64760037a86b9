/**
 * The analyze-compliance edge function as a pure decision function: from the
 * request, the environment, the gateway's reply and the JSON parser to the
 * response.
 */
module AnalyzeCompliance {
  import opened Wrappers
  import opened Strings
  import opened EdgeHttp

  const SOC2_CONTROLS: seq<string> := [
    "Access Control",
    "Data Encryption",
    "Incident Response",
    "Logging and Monitoring",
    "Employee Security Training"
  ]

  const MIN_DOCUMENT_LENGTH := 50
  const MAX_FORWARDED_LENGTH := 30000

  const VALIDATION_MESSAGE := "Document text is required and must be at least 50 characters."
  const MISSING_KEY_MESSAGE := "LOVABLE_API_KEY is not configured"
  const GATEWAY_FAILURE_MESSAGE := "Failed to analyze document with AI"
  const NO_RESPONSE_MESSAGE := "No response from AI model"
  const INVALID_FORMAT_MESSAGE := "Invalid response format from AI"
  const INVALID_STRUCTURE_MESSAGE := "Invalid response structure from AI"

  const SYSTEM_PROMPT_INTRO := "You are a SOC2 compliance expert. Analyze the provided policy document and evaluate its coverage of the following SOC2 security controls:"
  const SYSTEM_PROMPT_RULES :=
    "For each control, determine if the document adequately addresses it. A control is \"covered\" if the document contains specific policies, procedures, or requirements that address that control area. A control is \"missing\" if there is no mention or insufficient coverage.\n\n"
    + "You must respond with a valid JSON object in this exact format:\n{\n  \"covered\": [\"list of covered control names\"],\n  \"missing\": [\"list of missing control names\"],\n  \"reasoning\": {\n    \"Control Name\": \"Brief explanation of why it's covered or missing\"\n  }\n}\n\n"
    + "Be strict in your assessment. Only mark a control as covered if there is clear, specific policy language addressing it."
  const USER_PROMPT_LEAD := "Please analyze the following policy document for SOC2 compliance:\n\n"

  /** The body fields the handler reads: `documentText`, when it is a string. */
  datatype AnalyzeBody = AnalyzeBody(documentText: Option<string>)

  /** The lines "1. name", "2. name", ... for `controls`, in order. */
  function NumberedLines(controls: seq<string>, from: nat): (lines: seq<string>)
    ensures |lines| == |controls|
    decreases |controls|
  {
    if |controls| == 0 then []
    else [NatToString(from) + ". " + controls[0]] + NumberedLines(controls[1..], from + 1)
  }

  /** The numbered control list in the system prompt: `controls.map((c, i) => \`${i + 1}. ${c}\`).join('\n')`. */
  function ControlListing(controls: seq<string>): (listing: string)
    ensures listing == "" <==> |controls| == 0
    ensures |controls| > 0 ==> var first := "1. " + controls[0];
      |first| <= |listing| && listing[..|first|] == first
  {
    var lines := NumberedLines(controls, 1);
    JoinEnds(lines, "\n");
    if |controls| == 0 then Join(lines, "\n")
    else
      NumberedLineAt(controls, 1, 0);
      assert NatToString(1) == "1";
      Join(lines, "\n")
  }

  /** Line `i` of the listing names control `i` under the number `i + 1`. */
  lemma {:induction false} NumberedLineAt(controls: seq<string>, from: nat, i: nat)
    requires i < |controls|
    ensures NumberedLines(controls, from)[i] == NatToString(from + i) + ". " + controls[i]
    decreases i
  {
    if i > 0 {
      NumberedLineAt(controls[1..], from + 1, i - 1);
    }
  }

  /** The system prompt: the introduction, a blank line, the numbered controls, a blank line and the rules. */
  function SystemPrompt(): string {
    SYSTEM_PROMPT_INTRO + "\n\n" + ControlListing(SOC2_CONTROLS) + "\n\n" + SYSTEM_PROMPT_RULES
  }

  /** The user message: the lead-in followed by the first `min(|text|, 30000)` characters of the document. */
  function UserPrompt(documentText: string): (prompt: string)
    ensures |USER_PROMPT_LEAD| <= |prompt| <= |USER_PROMPT_LEAD| + MAX_FORWARDED_LENGTH
    ensures prompt[..|USER_PROMPT_LEAD|] == USER_PROMPT_LEAD
    ensures prompt[|USER_PROMPT_LEAD|..] <= documentText
    ensures |documentText| <= MAX_FORWARDED_LENGTH ==> prompt[|USER_PROMPT_LEAD|..] == documentText
  {
    var forwarded := Prefix(documentText, MAX_FORWARDED_LENGTH);
    assert (USER_PROMPT_LEAD + forwarded)[|USER_PROMPT_LEAD|..] == forwarded;
    USER_PROMPT_LEAD + forwarded
  }

  /** The handler up to the gateway call: answer at once, or send this call. */
  datatype Stage = Respond(response: Response) | Forward(call: GatewayCall)

  /** Document text that passes validation: present and at least 50 characters. */
  predicate ValidDocument(documentText: Option<string>) {
    Present(documentText) && |documentText.value| >= MIN_DOCUMENT_LENGTH
  }

  /** The call is sent exactly for a non-pre-flight request whose body decodes to a valid document, with a key set. */
  function Prepare(request: Request<AnalyzeBody>, env: Env): (stage: Stage)
    ensures stage.Forward? <==>
      request.verb != "OPTIONS" && request.body.Decoded? &&
      ValidDocument(request.body.value.documentText) && Present(env.apiKey)
    ensures stage.Respond? ==> stage.response.status in {200, 400, 500}
    ensures stage.Respond? ==> (stage.response.body.NoBody? <==> request.verb == "OPTIONS")
  {
    if request.verb == "OPTIONS" then Respond(PREFLIGHT_RESPONSE)
    else match request.body
      case DecodeError(message) => Respond(InternalError(message))
      case Decoded(body) =>
        if !ValidDocument(body.documentText) then Respond(Response(400, ErrorBody(VALIDATION_MESSAGE)))
        else if !Present(env.apiKey) then Respond(InternalError(MISSING_KEY_MESSAGE))
        else Forward(GatewayCall(env.apiKey.value, GATEWAY_MODEL, SystemPrompt(), UserPrompt(body.documentText.value)))
  }

  /** The indices of the first `{` and the last `}` when the latter follows the former. */
  function FirstIndexOf(s: string, c: char): (r: Option<nat>)
    ensures r.Some? ==> r.value < |s| && s[r.value] == c
    ensures r.Some? ==> forall k :: 0 <= k < r.value ==> s[k] != c
    ensures r.None? <==> c !in s
    decreases |s|
  {
    if |s| == 0 then None
    else if s[0] == c then Some(0)
    else match FirstIndexOf(s[1..], c)
      case None => None
      case Some(i) => Some(i + 1)
  }

  function LastIndexOf(s: string, c: char): (r: Option<nat>)
    ensures r.Some? ==> r.value < |s| && s[r.value] == c
    ensures r.Some? ==> forall k :: r.value < k < |s| ==> s[k] != c
    ensures r.None? <==> c !in s
    decreases |s|
  {
    if |s| == 0 then None
    else if s[|s| - 1] == c then Some(|s| - 1)
    else match LastIndexOf(s[..|s| - 1], c)
      case None => None
      case Some(i) => Some(i)
  }

  /**
   * `content.match(/\{[\s\S]*\}/)`: the greedy match runs from the first `{`
   * to the last `}`; there is a match iff some `}` follows some `{`.
   */
  function ExtractJsonObject(content: string): (r: Option<string>)
    ensures r.Some? ==> exists start :: (
      && 0 <= start && start + |r.value| <= |content|
      && content[start..start + |r.value|] == r.value
      && '{' !in content[..start] && '}' !in content[start + |r.value|..])
    ensures r.Some? ==> |r.value| >= 2 && r.value[0] == '{' && r.value[|r.value| - 1] == '}'
    ensures r.None? <==> forall i, j :: 0 <= i < j < |content| && content[i] == '{' ==> content[j] != '}'
  {
    var first := FirstIndexOf(content, '{');
    var last := LastIndexOf(content, '}');
    if first.Some? && last.Some? && first.value < last.value then
      var m := content[first.value..last.value + 1];
      assert content[first.value..first.value + |m|] == m;
      var head, tail := content[..first.value], content[last.value + 1..];
      assert '{' !in head by {
        forall k | 0 <= k < |head| ensures head[k] != '{' {
          assert head[k] == content[k];
        }
      }
      assert '}' !in tail by {
        forall k | 0 <= k < |tail| ensures tail[k] != '}' {
          assert tail[k] == content[last.value + 1 + k];
        }
      }
      Some(m)
    else
      assert forall i, j :: 0 <= i < j < |content| && content[i] == '{' ==> content[j] != '}' by {
        forall i, j | 0 <= i < j < |content| && content[i] == '{' ensures content[j] != '}' {
          assert content[i] in content;
          if last.Some? {
            assert last.value < j;
          } else {
            assert content[j] in content;
          }
        }
      }
      None
  }

  /** The parsed reply carries truthy `covered`, `missing` and `reasoning`; nothing else is checked. */
  predicate HasRequiredKeys(j: Json) {
    PropertyTruthy(j, "covered") && PropertyTruthy(j, "missing") && PropertyTruthy(j, "reasoning")
  }

  /** A gateway failure status: 429 and 402 pass through, anything else is a generic 500. */
  function GatewayFailure(status: int): Response {
    if status == 429 then Response(429, ErrorBody(RATE_LIMIT_MESSAGE))
    else if status == 402 then Response(402, ErrorBody(CREDITS_MESSAGE))
    else InternalError(GATEWAY_FAILURE_MESSAGE)
  }

  /** The handler after the gateway call, with `JSON.parse` given as `parse`. */
  function Complete(reply: GatewayReply, parse: string -> Decoded<Json>): (r: Response)
    ensures r.status in {200, 402, 429, 500}
    ensures r.status == 200 <==> r.body.ResultBody?
    ensures r.status != 200 ==> r.body.ErrorBody?
  {
    match reply
    case FetchFailed(message) => InternalError(message)
    case HttpReply(status, content) =>
      if !IsOk(status) then GatewayFailure(status)
      else match content
        case DecodeError(message) => InternalError(message)
        case Decoded(text) =>
          if !Present(text) then InternalError(NO_RESPONSE_MESSAGE)
          else match ExtractJsonObject(text.value)
            case None => InternalError(INVALID_FORMAT_MESSAGE)
            case Some(candidate) =>
              match parse(candidate)
              case DecodeError(message) => InternalError(message)
              case Decoded(result) =>
                if !HasRequiredKeys(result) then InternalError(INVALID_STRUCTURE_MESSAGE)
                else Response(200, ResultBody(result))
  }

  /** The whole handler. */
  function Handle(request: Request<AnalyzeBody>, env: Env, reply: GatewayReply, parse: string -> Decoded<Json>): (r: Response)
    ensures request.verb == "OPTIONS" ==> r == PREFLIGHT_RESPONSE
    ensures r.body.NoBody? <==> request.verb == "OPTIONS"
  {
    match Prepare(request, env)
    case Respond(response) => response
    case Forward(_) => Complete(reply, parse)
  }

  /** A pre-flight request gets an empty 200 whatever else holds. */
  lemma PreflightIsEmpty(body: Decoded<AnalyzeBody>, env: Env, reply: GatewayReply, parse: string -> Decoded<Json>)
    ensures Handle(Request("OPTIONS", body), env, reply, parse) == PREFLIGHT_RESPONSE
  {
  }

  /**
   * A 400 comes from validation alone: it is answered exactly when the
   * document text is missing, empty or shorter than 50 characters; 50 passes.
   */
  lemma ValidationIsTheOnly400(request: Request<AnalyzeBody>, env: Env, reply: GatewayReply, parse: string -> Decoded<Json>)
    ensures Handle(request, env, reply, parse).status == 400 <==>
      request.verb != "OPTIONS" && request.body.Decoded? && !ValidDocument(request.body.value.documentText)
    ensures Handle(request, env, reply, parse).status == 400 ==>
      Handle(request, env, reply, parse).body == ErrorBody(VALIDATION_MESSAGE)
  {
  }

  /** Every response has one of five statuses. */
  lemma StatusCodes(request: Request<AnalyzeBody>, env: Env, reply: GatewayReply, parse: string -> Decoded<Json>)
    ensures Handle(request, env, reply, parse).status in {200, 400, 402, 429, 500}
  {
  }

  /**
   * Every error thrown before or around the call reaches the catch block and
   * is answered 500 with its own message: a body that does not decode, and a
   * failed fetch.
   */
  lemma ThrownErrorsAre500(verb: string, message: string, env: Env, reply: GatewayReply, parse: string -> Decoded<Json>)
    ensures verb != "OPTIONS" ==>
      Handle(Request(verb, DecodeError(message)), env, reply, parse) == Response(500, ErrorBody(message))
    ensures Complete(FetchFailed(message), parse) == Response(500, ErrorBody(message))
  {
  }

  /**
   * After an OK reply, each failed step throws and is answered 500: a reply
   * body that does not decode (with its message), no content, a candidate
   * that does not parse (with the parser's message), or a parsed object
   * missing one of the three keys.
   */
  lemma ReplyFailuresAre500(status: int, message: string, text: Option<string>, parse: string -> Decoded<Json>)
    requires IsOk(status)
    ensures Complete(HttpReply(status, DecodeError(message)), parse) == Response(500, ErrorBody(message))
    ensures !Present(text) ==>
      Complete(HttpReply(status, Decoded(text)), parse) == Response(500, ErrorBody(NO_RESPONSE_MESSAGE))
    ensures Present(text) && ExtractJsonObject(text.value).Some? ==>
      var parsed := parse(ExtractJsonObject(text.value).value);
      var r := Complete(HttpReply(status, Decoded(text)), parse);
      (parsed.DecodeError? ==> r == Response(500, ErrorBody(parsed.message))) &&
      (parsed.Decoded? && !HasRequiredKeys(parsed.value) ==> r == Response(500, ErrorBody(INVALID_STRUCTURE_MESSAGE)))
  {
  }

  /** A valid document without an API key is a 500 naming the missing key; nothing is sent. */
  lemma MissingKeyIs500(text: string, env: Env)
    requires |text| >= MIN_DOCUMENT_LENGTH && !Present(env.apiKey)
    ensures Prepare(Request("POST", Decoded(AnalyzeBody(Some(text)))), env) ==
      Respond(Response(500, ErrorBody(MISSING_KEY_MESSAGE)))
  {
  }

  /**
   * When the call is sent, it carries the key, the system prompt with the
   * numbered control list, and at most the first 30,000 characters of the document.
   */
  lemma ForwardedCall(request: Request<AnalyzeBody>, env: Env)
    requires Prepare(request, env).Forward?
    ensures var call := Prepare(request, env).call;
      var text := request.body.value.documentText.value;
      && call.apiKey == env.apiKey.value
      && call.systemPrompt == SYSTEM_PROMPT_INTRO + "\n\n" + ControlListing(SOC2_CONTROLS)
           + "\n\n" + SYSTEM_PROMPT_RULES
      && call.userPrompt == USER_PROMPT_LEAD + text[..if |text| < MAX_FORWARDED_LENGTH then |text| else MAX_FORWARDED_LENGTH]
      && |text| >= MIN_DOCUMENT_LENGTH
  {
  }

  /** A failing gateway status: 429 and 402 pass through, every other one becomes 500. */
  lemma GatewayStatusMapping(status: int, content: Decoded<Option<string>>, parse: string -> Decoded<Json>)
    requires !IsOk(status)
    ensures Complete(HttpReply(status, content), parse).status ==
      if status == 429 then 429 else if status == 402 then 402 else 500
  {
  }

  /**
   * A 200 after the call happens exactly when the reply is OK, has content
   * with a brace-delimited candidate that parses, and the parsed object has
   * the three keys; the body is then the parsed object verbatim.
   */
  lemma SuccessIsVerbatim(reply: GatewayReply, parse: string -> Decoded<Json>)
    ensures Complete(reply, parse).status == 200 <==>
      && reply.HttpReply? && IsOk(reply.status)
      && reply.content.Decoded? && Present(reply.content.value)
      && ExtractJsonObject(reply.content.value.value).Some?
      && parse(ExtractJsonObject(reply.content.value.value).value).Decoded?
      && HasRequiredKeys(parse(ExtractJsonObject(reply.content.value.value).value).value)
    ensures Complete(reply, parse).status == 200 ==>
      Complete(reply, parse).body == ResultBody(parse(ExtractJsonObject(reply.content.value.value).value).value)
  {
  }

  /** A reply with no `}` after its first `{` is answered 500 "Invalid response format from AI". */
  lemma NoBracePairIsInvalidFormat(status: int, text: string, parse: string -> Decoded<Json>)
    requires IsOk(status) && text != ""
    requires forall i, j :: 0 <= i < j < |text| && text[i] == '{' ==> text[j] != '}'
    ensures Complete(HttpReply(status, Decoded(Some(text))), parse) == InternalError(INVALID_FORMAT_MESSAGE)
  {
  }

  /** The first occurrence of `c` is at `k` when `c` occurs at `k` and nowhere before. */
  lemma FirstIndexOfAt(s: string, c: char, k: nat)
    requires k < |s| && s[k] == c
    requires forall i :: 0 <= i < k ==> s[i] != c
    ensures FirstIndexOf(s, c) == Some(k)
  {
    assert s[k] in s;
  }

  lemma LastIndexOfAt(s: string, c: char, k: nat)
    requires k < |s| && s[k] == c
    requires forall i :: k < i < |s| ==> s[i] != c
    ensures LastIndexOf(s, c) == Some(k)
  {
    assert s[k] in s;
  }

  /**
   * The greedy match spans from the first `{` to the last `}`: text with no
   * `{` before and no `}` after a brace-delimited stretch yields that whole
   * stretch, so a brace-delimited aside before the payload is swallowed
   * into the candidate along with the text between them.
   */
  lemma {:induction false} GreedyMatchSpans(before: string, inner: string, after: string)
    requires '{' !in before && '}' !in after
    ensures ExtractJsonObject(before + "{" + inner + "}" + after) == Some("{" + inner + "}")
  {
    var s := before + "{" + inner + "}" + after;
    var open, close := |before|, |before| + 1 + |inner|;
    assert s[open] == '{' && s[close] == '}';
    forall i | 0 <= i < open ensures s[i] != '{' {
      assert s[i] == before[i];
    }
    forall i | close < i < |s| ensures s[i] != '}' {
      assert s[i] == after[i - close - 1];
    }
    FirstIndexOfAt(s, '{', open);
    LastIndexOfAt(s, '}', close);
    assert s[open..close + 1] == "{" + inner + "}";
  }

  /**
   * The handler does not check that `covered` and `missing` partition the
   * controls: a verdict naming one control in both lists, and omitting the
   * rest, is returned with 200.
   */
  lemma NoPartitionCheck()
    ensures var verdict := JObject(map[
        "covered" := JArray([JString("Access Control")]),
        "missing" := JArray([JString("Access Control")]),
        "reasoning" := JObject(map[])]);
      Complete(HttpReply(200, Decoded(Some("{}"))), _ => Decoded(verdict)) == Response(200, ResultBody(verdict))
  {
    GreedyMatchSpans("", "", "");
    assert "" + "{" + "" + "}" + "" == "{}";
  }
}
