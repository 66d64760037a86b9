/**
 * The generate-policy edge function as a pure decision function: from the
 * request, the environment and the gateway's reply to the response.
 */
module GeneratePolicy {
  import opened Wrappers
  import opened Strings
  import opened EdgeHttp

  const MAX_CONTEXT_LENGTH := 5000

  const CONTROL_REQUIRED_MESSAGE := "Control name is required."
  const MISSING_KEY_MESSAGE := "LOVABLE_API_KEY is not configured"
  const GATEWAY_FAILURE_MESSAGE := "Failed to generate policy with AI"
  const NO_RESPONSE_MESSAGE := "No response from AI model"

  const SYSTEM_PROMPT :=
    "You are a SOC2 compliance expert and technical writer. Generate a comprehensive, enterprise-grade security policy for the specified control area.\n\n"
    + "The policy should:\n1. Be professional and suitable for a corporate environment\n2. Follow SOC2 Type II requirements\n"
    + "3. Include clear sections: Purpose, Scope, Policy Statement, Procedures, Responsibilities, and Compliance\n"
    + "4. Be specific and actionable, not vague\n5. Reference industry standards where appropriate (NIST, ISO 27001, etc.)\n"
    + "6. Be ready for immediate adoption by an organization\n\n"
    + "Format the policy in a clean, readable structure with clear headings and bullet points where appropriate."

  /** The opening shared by both user-prompt templates, up to the quoted control name. */
  const PROMPT_LEAD := "Generate a comprehensive SOC2-compliant policy for "
  /** What follows the quoted control name in both templates. */
  const PROMPT_AFTER_CONTROL := ". \n         \n"
  const CONTEXT_INTRO := "Here is the organization's existing policy document for context (use this to match their tone and terminology):\n"
  const CONTEXT_CLOSING := "\n\nCreate a policy that would complement their existing documentation."
  const GENERIC_CLOSING := "Create a professional, enterprise-grade policy that an organization could adopt immediately."

  /** The body fields the handler reads. */
  datatype GenerateBody = GenerateBody(control: Option<string>, documentText: Option<string>)

  function QuotedControl(control: string): string {
    PROMPT_LEAD + "\"" + control + "\"" + PROMPT_AFTER_CONTROL
  }

  /**
   * The user prompt: the context template when document text is present, the
   * generic one otherwise.
   */
  function UserPrompt(control: string, documentText: Option<string>): string {
    if Present(documentText) then
      QuotedControl(control) + CONTEXT_INTRO + Prefix(documentText.value, MAX_CONTEXT_LENGTH) + CONTEXT_CLOSING
    else
      QuotedControl(control) + GENERIC_CLOSING
  }

  /** Both templates name the control in double quotes, right after the common lead. */
  lemma PromptQuotesControl(control: string, documentText: Option<string>)
    ensures var p := UserPrompt(control, documentText);
      |PROMPT_LEAD| + |control| + 2 <= |p| &&
      p[..|PROMPT_LEAD|] == PROMPT_LEAD &&
      p[|PROMPT_LEAD|..|PROMPT_LEAD| + |control| + 2] == "\"" + control + "\""
  {
    var p := UserPrompt(control, documentText);
    var q := QuotedControl(control);
    var quoted := "\"" + control + "\"";
    assert q == PROMPT_LEAD + quoted + PROMPT_AFTER_CONTROL;
    assert p[..|q|] == q;
    assert q[|PROMPT_LEAD|..|PROMPT_LEAD| + |quoted|] == quoted;
  }

  /**
   * With document text, the prompt embeds exactly its first `min(|text|, 5000)`
   * characters between the context introduction and the closing.
   */
  lemma ContextPromptEmbedsPrefix(control: string, text: string)
    requires text != ""
    ensures var p := UserPrompt(control, Some(text));
      var start := |QuotedControl(control)| + |CONTEXT_INTRO|;
      var n := if |text| < MAX_CONTEXT_LENGTH then |text| else MAX_CONTEXT_LENGTH;
      |p| == start + n + |CONTEXT_CLOSING| && p[start..start + n] == text[..n]
  {
    var q := QuotedControl(control);
    var doc := Prefix(text, MAX_CONTEXT_LENGTH);
    var p := q + CONTEXT_INTRO + doc + CONTEXT_CLOSING;
    assert p[|q| + |CONTEXT_INTRO|..|q| + |CONTEXT_INTRO| + |doc|] == doc;
  }

  /**
   * Without document text the generic template is used: the prompt depends on
   * the control alone, so no document text can appear in it.
   */
  lemma GenericPromptIgnoresDocument(control: string, d1: Option<string>, d2: Option<string>)
    requires !Present(d1) && !Present(d2)
    ensures UserPrompt(control, d1) == UserPrompt(control, d2)
    ensures |UserPrompt(control, d1)| == |PROMPT_LEAD| + |control| + 2 + |PROMPT_AFTER_CONTROL| + |GENERIC_CLOSING|
  {
  }

  datatype Stage = Respond(response: Response) | Forward(call: GatewayCall)

  /** The call is sent exactly for a non-pre-flight request whose body decodes with a control, with a key set. */
  function Prepare(request: Request<GenerateBody>, env: Env): (stage: Stage)
    ensures stage.Forward? <==>
      request.verb != "OPTIONS" && request.body.Decoded? &&
      Present(request.body.value.control) && Present(env.apiKey)
    ensures stage.Respond? ==> stage.response.status in {200, 400, 500}
    ensures stage.Respond? ==> (stage.response.body.NoBody? <==> request.verb == "OPTIONS")
  {
    if request.verb == "OPTIONS" then Respond(PREFLIGHT_RESPONSE)
    else match request.body
      case DecodeError(message) => Respond(InternalError(message))
      case Decoded(body) =>
        if !Present(body.control) then Respond(Response(400, ErrorBody(CONTROL_REQUIRED_MESSAGE)))
        else if !Present(env.apiKey) then Respond(InternalError(MISSING_KEY_MESSAGE))
        else Forward(GatewayCall(env.apiKey.value, GATEWAY_MODEL, SYSTEM_PROMPT, UserPrompt(body.control.value, body.documentText)))
  }

  function GatewayFailure(status: int): Response {
    if status == 429 then Response(429, ErrorBody(RATE_LIMIT_MESSAGE))
    else if status == 402 then Response(402, ErrorBody(CREDITS_MESSAGE))
    else InternalError(GATEWAY_FAILURE_MESSAGE)
  }

  function Complete(reply: GatewayReply): (r: Response)
    ensures r.status in {200, 402, 429, 500}
    ensures r.status == 200 <==> r.body.PolicyBody?
    ensures r.status != 200 ==> r.body.ErrorBody?
  {
    match reply
    case FetchFailed(message) => InternalError(message)
    case HttpReply(status, content) =>
      if !IsOk(status) then GatewayFailure(status)
      else match content
        case DecodeError(message) => InternalError(message)
        case Decoded(policy) =>
          if !Present(policy) then InternalError(NO_RESPONSE_MESSAGE)
          else Response(200, PolicyBody(policy.value))
  }

  function Handle(request: Request<GenerateBody>, env: Env, reply: GatewayReply): (r: Response)
    ensures request.verb == "OPTIONS" ==> r == PREFLIGHT_RESPONSE
    ensures r.body.NoBody? <==> request.verb == "OPTIONS"
  {
    match Prepare(request, env)
    case Respond(response) => response
    case Forward(_) => Complete(reply)
  }

  lemma PreflightIsEmpty(body: Decoded<GenerateBody>, env: Env, reply: GatewayReply)
    ensures Handle(Request("OPTIONS", body), env, reply) == PREFLIGHT_RESPONSE
  {
  }

  /** A 400 is answered exactly when the control is missing or empty. */
  lemma ControlRequired(request: Request<GenerateBody>, env: Env, reply: GatewayReply)
    ensures Handle(request, env, reply).status == 400 <==>
      request.verb != "OPTIONS" && request.body.Decoded? && !Present(request.body.value.control)
    ensures Handle(request, env, reply).status == 400 ==>
      Handle(request, env, reply).body == ErrorBody(CONTROL_REQUIRED_MESSAGE)
  {
  }

  /**
   * Every thrown error is answered 500 with its own message: a body that
   * does not decode, a failed fetch, and a reply body that does not decode.
   */
  lemma ThrownErrorsAre500(verb: string, message: string, env: Env, reply: GatewayReply, status: int)
    ensures verb != "OPTIONS" ==>
      Handle(Request(verb, DecodeError(message)), env, reply) == Response(500, ErrorBody(message))
    ensures Complete(FetchFailed(message)) == Response(500, ErrorBody(message))
    ensures IsOk(status) ==> Complete(HttpReply(status, DecodeError(message))) == Response(500, ErrorBody(message))
  {
  }

  /** A control without an API key is a 500 naming the missing key; nothing is sent. */
  lemma MissingKeyIs500(control: string, documentText: Option<string>, env: Env)
    requires control != "" && !Present(env.apiKey)
    ensures Prepare(Request("POST", Decoded(GenerateBody(Some(control), documentText))), env) ==
      Respond(Response(500, ErrorBody(MISSING_KEY_MESSAGE)))
  {
  }

  lemma StatusCodes(request: Request<GenerateBody>, env: Env, reply: GatewayReply)
    ensures Handle(request, env, reply).status in {200, 400, 402, 429, 500}
  {
  }

  lemma GatewayStatusMapping(status: int, content: Decoded<Option<string>>)
    requires !IsOk(status)
    ensures Complete(HttpReply(status, content)).status ==
      if status == 429 then 429 else if status == 402 then 402 else 500
  {
  }

  /**
   * A 200 after the call happens exactly when the reply is OK and its content
   * is present and non-empty; the policy is that content verbatim. Missing or
   * empty content is 500 "No response from AI model".
   */
  lemma SuccessIsVerbatim(reply: GatewayReply)
    ensures Complete(reply).status == 200 <==>
      reply.HttpReply? && IsOk(reply.status) && reply.content.Decoded? && Present(reply.content.value)
    ensures Complete(reply).status == 200 ==> Complete(reply).body == PolicyBody(reply.content.value.value)
    ensures reply.HttpReply? && IsOk(reply.status) && reply.content.Decoded? && !Present(reply.content.value) ==>
      Complete(reply) == InternalError(NO_RESPONSE_MESSAGE)
  {
  }
}
