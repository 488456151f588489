/** The Gemini-only LLM adapter: reading required settings from the
    environment, validating provider and model, building the
    `generateContent` request, and extracting the answer text from the
    response. The HTTP exchange itself is a parameter. */
module Adapter {
  import opened Results
  import opened Text

  const MAX_OUTPUT_TOKENS: nat := 1000000
  const GEMINI_1_5_PRO := "gemini-1.5-pro"
  const GEMINI_2_5_PRO := "gemini-2.5-pro"
  const SUPPORTED_MODELS: seq<string> := [GEMINI_1_5_PRO, GEMINI_2_5_PRO]

  const PROVIDER_VAR := "LLM_PROVIDER"
  const MODEL_VAR := "LLM_MODEL"
  const API_KEY_VAR := "GEMINI_STUDIO_API_KEY"

  const ENDPOINT_BASE := "https://generativelanguage.googleapis.com/v1beta/models/"
  const ENDPOINT_METHOD := ":generateContent?key="

  /** The process environment: variable name to value. */
  type Env = map<string, string>

  datatype ConfigError =
    | MissingVariable(name: string)
    | UnsupportedProvider(provider: string)
    | UnsupportedModel(model: string)

  datatype LlmError = Config(config: ConfigError) | Transport(reason: string)

  const MISSING_PREFIX := "Missing required environment variable: "
  const PROVIDER_PREFIX := "Unsupported LLM_PROVIDER='"
  const PROVIDER_SUFFIX := "'. Only 'gemini' is allowed in braintransplant-ai."
  const MODEL_PREFIX := "Unsupported LLM_MODEL='"
  const MODEL_SUFFIX := "'. Supported models: " + Join(SUPPORTED_MODELS, ", ")

  /** The text of the exception `call_llm` raises for an error: each
      configuration message names the variable or the offending value,
      and a transport error passes its own text through. */
  function ErrorMessage(e: LlmError): (r: string)
    ensures e.Transport? ==> r == e.reason
    ensures e.Config? && e.config.MissingVariable? ==>
      && |r| == |MISSING_PREFIX| + |e.config.name|
      && r[..|MISSING_PREFIX|] == MISSING_PREFIX
      && r[|MISSING_PREFIX|..] == e.config.name
    ensures e.Config? && e.config.UnsupportedProvider? ==>
      && |r| == |PROVIDER_PREFIX| + |e.config.provider| + |PROVIDER_SUFFIX|
      && r[..|PROVIDER_PREFIX|] == PROVIDER_PREFIX
      && r[|PROVIDER_PREFIX|..|PROVIDER_PREFIX| + |e.config.provider|] == e.config.provider
      && r[|r| - |PROVIDER_SUFFIX|..] == PROVIDER_SUFFIX
    ensures e.Config? && e.config.UnsupportedModel? ==>
      && |r| == |MODEL_PREFIX| + |e.config.model| + |MODEL_SUFFIX|
      && r[..|MODEL_PREFIX|] == MODEL_PREFIX
      && r[|MODEL_PREFIX|..|MODEL_PREFIX| + |e.config.model|] == e.config.model
      && r[|r| - |MODEL_SUFFIX|..] == MODEL_SUFFIX
  {
    match e
    case Config(MissingVariable(name)) => MISSING_PREFIX + name
    case Config(UnsupportedProvider(p)) => PROVIDER_PREFIX + p + PROVIDER_SUFFIX
    case Config(UnsupportedModel(m)) => MODEL_PREFIX + m + MODEL_SUFFIX
    case Transport(reason) => reason
  }

  /** The message shown for a configuration error identifies it: two
      configuration errors with the same text are the same error. */
  lemma ConfigMessageIdentifies(e1: ConfigError, e2: ConfigError)
    requires ErrorMessage(Config(e1)) == ErrorMessage(Config(e2))
    ensures e1 == e2
  {
    var m1, m2 := ErrorMessage(Config(e1)), ErrorMessage(Config(e2));
    assert m1[0] == m2[0];
    assert m1[16] == m2[16];
  }

  // ---- response tree: absent JSON keys are `None` ----

  datatype Part = Part(text: Option<string>)
  datatype Content = Content(parts: Option<seq<Part>>)
  datatype Candidate = Candidate(content: Option<Content>)
  datatype GenerateResponse = GenerateResponse(candidates: Option<seq<Candidate>>)

  // ---- request ----

  datatype TextPart = TextPart(text: string)
  datatype Message = Message(role: string, parts: seq<TextPart>)
  datatype GenerationConfig = GenerationConfig(temperature: int, maxOutputTokens: nat)
  datatype Payload = Payload(systemInstruction: Message, contents: seq<Message>, generationConfig: GenerationConfig)
  datatype Request = Request(url: string, payload: Payload)

  /** The validated settings a request is built from. */
  datatype Settings = Settings(modelId: string, apiKey: string)

  /** What the network does with a request: a decoded 2xx body, or any
      failure (connection error, timeout, non-2xx status). */
  datatype HttpReply = Replied(body: GenerateResponse) | HttpFailed(reason: string)

  /** `_req`: a required environment variable, which must be set and
      non-empty. */
  function Require(env: Env, name: string): (r: Result<string, ConfigError>)
    ensures r.Success? <==> name in env && env[name] != ""
    ensures r.Success? ==> r.value == env[name]
    ensures r.Failure? ==> r.error == MissingVariable(name)
  {
    if name in env && env[name] != "" then Success(env[name])
    else Failure(MissingVariable(name))
  }

  // ---- _extract_text ----

  /** `p.get("text", "")`. */
  function PartText(p: Part): string {
    match p.text
    case Some(t) => t
    case None => ""
  }

  /** The parts of the first candidate; [] when there is no candidate or
      it has no content or parts. */
  function FirstParts(resp: GenerateResponse): seq<Part> {
    match resp.candidates
    case Some(cs) =>
      if |cs| == 0 then []
      else
        (match cs[0].content
         case Some(Content(Some(ps))) => ps
         case _ => [])
    case None => []
  }

  /** The texts of the parts whose text is non-empty, in order. */
  function NonEmptyTexts(parts: seq<Part>): (r: seq<string>)
    ensures forall j :: 0 <= j < |r| ==> r[j] != ""
    ensures |r| <= |parts|
  {
    if |parts| == 0 then []
    else (if PartText(parts[0]) != "" then [PartText(parts[0])] else []) + NonEmptyTexts(parts[1..])
  }

  /** `_extract_text`. */
  function ExtractText(resp: GenerateResponse): (r: string)
    ensures (resp.candidates.None? || resp.candidates.value == []) ==> r == ""
    ensures Trimmed(r)
    ensures IsStripOf(r, Join(NonEmptyTexts(FirstParts(resp)), "\n"))
  {
    if resp.candidates.None? || resp.candidates.value == [] then
      assert StrippedAt("", "", 0);
      ""
    else Strip(Join(NonEmptyTexts(FirstParts(resp)), "\n"))
  }

  /** Only the first candidate is read: candidates after it never change
      the answer. */
  lemma OnlyFirstCandidate(c: Candidate, rest1: seq<Candidate>, rest2: seq<Candidate>)
    ensures ExtractText(GenerateResponse(Some([c] + rest1))) == ExtractText(GenerateResponse(Some([c] + rest2)))
  {
  }

  /** Parts with missing or empty text never change the answer. */
  lemma {:induction false} EmptyPartsIgnored(before: seq<Part>, p: Part, after: seq<Part>)
    requires PartText(p) == ""
    ensures NonEmptyTexts(before + [p] + after) == NonEmptyTexts(before + after)
  {
    if |before| == 0 {
      assert before + [p] + after == [p] + after;
      assert ([p] + after)[1..] == after;
      assert before + after == after;
    } else {
      assert (before + [p] + after)[1..] == before[1..] + [p] + after;
      assert (before + after)[1..] == before[1..] + after;
      EmptyPartsIgnored(before[1..], p, after);
    }
  }

  /** A part with non-empty text keeps its text, in its place, among the
      texts that are joined. */
  lemma {:induction false} NonEmptyPartKept(before: seq<Part>, p: Part, after: seq<Part>)
    requires PartText(p) != ""
    ensures NonEmptyTexts(before + [p] + after) == NonEmptyTexts(before) + [PartText(p)] + NonEmptyTexts(after)
  {
    if |before| == 0 {
      assert before + [p] + after == [p] + after;
      assert ([p] + after)[1..] == after;
    } else {
      assert (before + [p] + after)[1..] == before[1..] + [p] + after;
      NonEmptyPartKept(before[1..], p, after);
    }
  }

  // ---- call_llm: validation ----

  /** The provider check passes: set, non-empty, and "gemini" once
      stripped and lower-cased. */
  predicate ProviderAccepted(env: Env) {
    PROVIDER_VAR in env && env[PROVIDER_VAR] != "" && ToLower(Strip(env[PROVIDER_VAR])) == "gemini"
  }

  /** The model check passes: set, non-empty, and a supported id once
      stripped. */
  predicate ModelAccepted(env: Env) {
    MODEL_VAR in env && env[MODEL_VAR] != "" && Strip(env[MODEL_VAR]) in SUPPORTED_MODELS
  }

  predicate KeyPresent(env: Env) {
    API_KEY_VAR in env && env[API_KEY_VAR] != ""
  }

  /** The configuration checks of `call_llm`, in source order: provider,
      then model, then API key; the first failing check decides the error. */
  function Validate(env: Env): (r: Result<Settings, ConfigError>)
    ensures r.Success? <==> ProviderAccepted(env) && ModelAccepted(env) && KeyPresent(env)
    ensures r.Success? ==>
      && r.value.modelId == Strip(env[MODEL_VAR])
      && r.value.modelId in SUPPORTED_MODELS
      && r.value.apiKey == env[API_KEY_VAR]
    ensures PROVIDER_VAR !in env || env[PROVIDER_VAR] == "" ==>
      r == Failure(MissingVariable(PROVIDER_VAR))
    ensures PROVIDER_VAR in env && env[PROVIDER_VAR] != "" && !ProviderAccepted(env) ==>
      r == Failure(UnsupportedProvider(ToLower(Strip(env[PROVIDER_VAR]))))
    ensures ProviderAccepted(env) && (MODEL_VAR !in env || env[MODEL_VAR] == "") ==>
      r == Failure(MissingVariable(MODEL_VAR))
    ensures ProviderAccepted(env) && MODEL_VAR in env && env[MODEL_VAR] != "" && !ModelAccepted(env) ==>
      r == Failure(UnsupportedModel(Strip(env[MODEL_VAR])))
    ensures ProviderAccepted(env) && ModelAccepted(env) && !KeyPresent(env) ==>
      r == Failure(MissingVariable(API_KEY_VAR))
  {
    var rawProvider :- Require(env, PROVIDER_VAR);
    var provider := ToLower(Strip(rawProvider));
    if provider != "gemini" then Failure(UnsupportedProvider(provider))
    else
      var rawModel :- Require(env, MODEL_VAR);
      var modelId := Strip(rawModel);
      if modelId !in SUPPORTED_MODELS then Failure(UnsupportedModel(modelId))
      else
        var apiKey :- Require(env, API_KEY_VAR);
        Success(Settings(modelId, apiKey))
  }

  /** The two environments give variable `v` the same value, or both
      leave it unset. */
  predicate AgreeOn(env1: Env, env2: Env, v: string) {
    (v in env1 <==> v in env2) && (v in env1 ==> env1[v] == env2[v])
  }

  /** Validation reads nothing but the three variables it names. */
  lemma ValidateReadsOnlyItsVariables(env1: Env, env2: Env)
    requires AgreeOn(env1, env2, PROVIDER_VAR)
    requires AgreeOn(env1, env2, MODEL_VAR)
    requires AgreeOn(env1, env2, API_KEY_VAR)
    ensures Validate(env1) == Validate(env2)
  {
  }

  // ---- call_llm: request ----

  /** The `generateContent` URL for a model and key. */
  function Endpoint(modelId: string, apiKey: string): string {
    ENDPOINT_BASE + modelId + ENDPOINT_METHOD + apiKey
  }

  /** The request `call_llm` posts for validated settings. */
  function BuildRequest(settings: Settings, systemPrompt: string, userQuery: string): (r: Request)
    ensures r.payload.generationConfig.temperature == 0
    ensures r.payload.generationConfig.maxOutputTokens == MAX_OUTPUT_TOKENS
    ensures r.payload.systemInstruction == Message("system", [TextPart(systemPrompt)])
    ensures r.payload.contents == [Message("user", [TextPart(userQuery)])]
  {
    Request(
      Endpoint(settings.modelId, settings.apiKey),
      Payload(
        Message("system", [TextPart(systemPrompt)]),
        [Message("user", [TextPart(userQuery)])],
        GenerationConfig(0, MAX_OUTPUT_TOKENS)))
  }

  /** Position of the first ':' in `s`, if there is one. */
  function ColonAt(s: string): (r: Option<nat>)
    ensures r.Some? ==> r.value < |s| && s[r.value] == ':' && ':' !in s[..r.value]
    ensures r.None? ==> ':' !in s
  {
    if |s| == 0 then None
    else if s[0] == ':' then Some(0)
    else match ColonAt(s[1..])
      case None => None
      case Some(k) =>
        assert s[..k + 1] == [s[0]] + s[1..][..k];
        Some(k + 1)
  }

  /** Reads the model id and the key back out of a request URL. */
  function SplitEndpoint(url: string): Option<(string, string)> {
    if |url| < |ENDPOINT_BASE| || url[..|ENDPOINT_BASE|] != ENDPOINT_BASE then None
    else
      var rest := url[|ENDPOINT_BASE|..];
      match ColonAt(rest)
      case None => None
      case Some(i) =>
        var tail := rest[i..];
        if |tail| < |ENDPOINT_METHOD| || tail[..|ENDPOINT_METHOD|] != ENDPOINT_METHOD then None
        else Some((rest[..i], tail[|ENDPOINT_METHOD|..]))
  }

  lemma {:induction false} ColonAfter(m: string, t: string)
    requires ':' !in m
    requires |t| > 0 && t[0] == ':'
    ensures ColonAt(m + t) == Some(|m|)
  {
    if |m| > 0 {
      assert (m + t)[1..] == m[1..] + t;
      ColonAfter(m[1..], t);
    } else {
      assert m + t == t;
    }
  }

  /** The URL embeds exactly the model id and the key, for any model id
      without a ':' (every supported id) and any key. */
  lemma EndpointRoundTrip(modelId: string, apiKey: string)
    requires ':' !in modelId
    ensures SplitEndpoint(Endpoint(modelId, apiKey)) == Some((modelId, apiKey))
  {
    var url := Endpoint(modelId, apiKey);
    assert url[..|ENDPOINT_BASE|] == ENDPOINT_BASE;
    var rest := url[|ENDPOINT_BASE|..];
    assert rest == modelId + (ENDPOINT_METHOD + apiKey);
    ColonAfter(modelId, ENDPOINT_METHOD + apiKey);
    assert rest[..|modelId|] == modelId;
    var tail := rest[|modelId|..];
    assert tail == ENDPOINT_METHOD + apiKey;
    assert tail[..|ENDPOINT_METHOD|] == ENDPOINT_METHOD;
    assert tail[|ENDPOINT_METHOD|..] == apiKey;
  }

  lemma SupportedModelsHaveNoColon(m: string)
    requires m in SUPPORTED_MODELS
    ensures ':' !in m
  {
  }

  /** `call_llm`: validate the configuration, post one request with the
      caller's timeout, and extract the answer; `post` stands for the HTTP
      exchange. */
  function CallLlm(env: Env, systemPrompt: string, userQuery: string, timeoutS: nat,
                   post: (Request, nat) -> HttpReply): (r: Result<string, LlmError>)
    ensures Validate(env).Failure? ==> r == Failure(Config(Validate(env).error))
    ensures Validate(env).Success? ==>
      var reply := post(BuildRequest(Validate(env).value, systemPrompt, userQuery), timeoutS);
      && (r.Success? <==> reply.Replied?)
      && (r.Success? ==> r.value == ExtractText(reply.body))
      && (r.Failure? ==> r.error == Transport(reply.reason))
    ensures r.Success? ==> Trimmed(r.value)
  {
    match Validate(env)
    case Failure(e) => Failure(Config(e))
    case Success(settings) =>
      match post(BuildRequest(settings, systemPrompt, userQuery), timeoutS)
      case HttpFailed(reason) => Failure(Transport(reason))
      case Replied(body) => Success(ExtractText(body))
  }

  /** A configuration error is raised before anything is sent: the result
      does not depend on the network at all. */
  lemma ConfigErrorSendsNothing(env: Env, systemPrompt: string, userQuery: string, timeoutS: nat,
                                post1: (Request, nat) -> HttpReply, post2: (Request, nat) -> HttpReply)
    requires Validate(env).Failure?
    ensures CallLlm(env, systemPrompt, userQuery, timeoutS, post1) == CallLlm(env, systemPrompt, userQuery, timeoutS, post2)
  {
  }

  /** With a valid configuration, the one request sent goes to the
      validated model with the validated key, at temperature 0 and the
      fixed output limit. */
  lemma RequestSent(env: Env, systemPrompt: string, userQuery: string)
    requires Validate(env).Success?
    ensures var req := BuildRequest(Validate(env).value, systemPrompt, userQuery);
      && SplitEndpoint(req.url) == Some((Strip(env[MODEL_VAR]), env[API_KEY_VAR]))
      && req.payload.generationConfig == GenerationConfig(0, MAX_OUTPUT_TOKENS)
  {
    var s := Validate(env).value;
    SupportedModelsHaveNoColon(s.modelId);
    EndpointRoundTrip(s.modelId, s.apiKey);
  }
}
