/**
 * The `POST` handler of app/api/generate/route.ts: the ordered checks on
 * the request that decide its error answers, and the fall-backs that shape
 * the successful answer from the compiler's output. The environment
 * variables are inputs (set or not, and the model name); the request body
 * is the JSON value it parses to.
 */
module GenerateRoute {
  import opened Wrappers
  import opened Text
  import VibePrompt

  /** A parsed JSON value. Numbers are not needed and carry no payload. */
  datatype Json =
    | JNull
    | JBool(b: bool)
    | JNumber
    | JString(s: string)
    | JArray(items: seq<Json>)
    | JObject(fields: map<string, Json>)

  /** `body[key]`: a member of an object; `undefined` on any other value. */
  function Member(body: Json, key: string): (v: Option<Json>)
    requires !body.JNull?
    ensures v.Some? <==> body.JObject? && key in body.fields
  {
    if body.JObject? && key in body.fields then Some(body.fields[key]) else None
  }

  /** What the handler answers. */
  datatype Response =
    /** `NextResponse.json({ error }, { status })`. */
    | Failure(status: nat, error: string)
    /** A `TypeError` escapes the handler; the framework answers for it. */
    | Thrown
    /** The checks pass: the agents to read, whether to read them, the trimmed input and the mode. */
    | Accepted(scope: string, selectedAgents: seq<Json>, loadAgents: bool, userInput: string,
               mode: VibePrompt.OutputMode)

  const StaticHostingError: string :=
    "GitHub Pages는 정적 호스팅이라 /api/generate가 동작하지 않습니다. 로컬(dev) 또는 서버 배포(Vercel 등)에서 사용하세요."
  const InvalidJson: string := "Invalid JSON body."
  const BadScope: string := "selectedScope must be 'project' or 'agent'."
  const BadMode: string := "outputMode must be 'prompt' or 'prompt+md'."
  const MissingInput: string := "userInput is required."
  const MissingAgents: string := "When selectedScope is 'agent', selectedAgents is required."
  const MissingApiKey: string := "OPENAI_API_KEY가 설정되어 있지 않습니다. env.example을 참고해 환경변수를 설정하세요."

  /** `Array.isArray(body.selectedAgents) ? body.selectedAgents : []`. */
  function SelectedAgents(body: Json): (agents: seq<Json>)
    requires !body.JNull?
  {
    match Member(body, "selectedAgents")
    case Some(JArray(items)) => items
    case _ => []
  }

  /** `(body.userInput ?? "").trim()`: `None` where `trim` is not a function of the value. */
  function UserInput(body: Json): (r: Option<string>)
    requires !body.JNull?
    ensures r.Some? ==> IsTrimmed(r.value)
  {
    match Member(body, "userInput")
    case None => Some("")
    case Some(JNull) => Some("")
    case Some(JString(s)) => Some(Trim(s))
    case Some(_) => None
  }

  /** `"project"` or `"agent"`, compared strictly. */
  function Scope(body: Json): (r: Option<string>)
    requires !body.JNull?
    ensures r.Some? ==> r.value == "project" || r.value == "agent"
  {
    match Member(body, "selectedScope")
    case Some(JString(s)) => if s == "project" || s == "agent" then Some(s) else None
    case _ => None
  }

  /** `"prompt"` or `"prompt+md"`, compared strictly. */
  function Mode(body: Json): Option<VibePrompt.OutputMode>
    requires !body.JNull?
  {
    match Member(body, "outputMode")
    case Some(JString(s)) =>
      if s == "prompt" then Some(VibePrompt.Prompt) else if s == "prompt+md" then Some(VibePrompt.PromptMd) else None
    case _ => None
  }

  /** The four checks in order: the message of the first that fails, `None` when all pass. */
  function FirstFailure(body: Json): (m: Option<string>)
    requires !body.JNull? && UserInput(body).Some?
  {
    if Scope(body).None? then Some(BadScope)
    else if Mode(body).None? then Some(BadMode)
    else if UserInput(body).value == "" then Some(MissingInput)
    else if Scope(body).value == "agent" && SelectedAgents(body) == [] then Some(MissingAgents)
    else None
  }

  /**
   * `POST(req)` up to the call of the compiler: the static-hosting check,
   * the body parse (`None` when the text is not JSON), then the body.
   */
  function Handle(basePathSet: bool, body: Option<Json>, apiKeySet: bool): (r: Response)
  {
    if basePathSet then Failure(501, StaticHostingError)
    else if body.None? then Failure(400, InvalidJson)
    else HandleBody(body.value, apiKeySet)
  }

  /** A parsed body: the reads of the four fields, then the checks in order, then the API key. */
  function HandleBody(body: Json, apiKeySet: bool): (r: Response)
  {
    if body.JNull? then Thrown
    else if UserInput(body).None? then Thrown
    else if FirstFailure(body).Some? then Failure(400, FirstFailure(body).value)
    else if !apiKeySet then Failure(500, MissingApiKey)
    else
      var agents := SelectedAgents(body);
      Accepted(Scope(body).value, agents, Scope(body).value == "agent" || |agents| > 0,
               UserInput(body).value, Mode(body).value)
  }

  /** The body a client sends: an object with the four fields. */
  function Request(scope: Json, agents: Option<Json>, userInput: Json, mode: Json): Json {
    var m := map["selectedScope" := scope, "userInput" := userInput, "outputMode" := mode];
    JObject(if agents.Some? then m["selectedAgents" := agents.value] else m)
  }

  /** The fields of a request read back as sent. */
  lemma RequestMembers(scope: Json, agents: Option<Json>, userInput: Json, mode: Json)
    ensures Member(Request(scope, agents, userInput, mode), "selectedScope") == Some(scope)
    ensures Member(Request(scope, agents, userInput, mode), "userInput") == Some(userInput)
    ensures Member(Request(scope, agents, userInput, mode), "outputMode") == Some(mode)
    ensures Member(Request(scope, agents, userInput, mode), "selectedAgents") == agents
  {
    assert "selectedAgents" != "selectedScope" by { assert "selectedAgents"[9] != "selectedScope"[9]; }
    assert "selectedAgents" != "userInput" by { assert "selectedAgents"[0] != "userInput"[0]; }
    assert "selectedAgents" != "outputMode" by { assert "selectedAgents"[0] != "outputMode"[0]; }
  }

  /**
   * The checks run in a fixed order and the first failure decides the
   * answer: a bad scope wins over a bad mode, which wins over an empty
   * input, which wins over a missing agent list.
   */
  lemma ChecksInOrder(body: Json)
    requires !body.JNull? && UserInput(body).Some?
    ensures Scope(body).None? ==> Handle(false, Some(body), true) == Failure(400, BadScope)
    ensures Scope(body).Some? && Mode(body).None? ==> Handle(false, Some(body), true) == Failure(400, BadMode)
    ensures Scope(body).Some? && Mode(body).Some? && UserInput(body).value == ""
      ==> Handle(false, Some(body), true) == Failure(400, MissingInput)
    ensures Scope(body).Some? && Mode(body).Some? && UserInput(body).value != ""
            && Scope(body).value == "agent" && SelectedAgents(body) == []
      ==> Handle(false, Some(body), true) == Failure(400, MissingAgents)
    ensures Handle(false, Some(body), true).Accepted?
      <==> Scope(body).Some? && Mode(body).Some? && UserInput(body).value != ""
           && (Scope(body).value == "agent" ==> SelectedAgents(body) != [])
  {
  }

  /** `trim` runs first: input that is only whitespace reads as empty. */
  lemma BlankInputIsEmpty(body: Json, input: string)
    requires !body.JNull? && Member(body, "userInput") == Some(JString(input))
    ensures UserInput(body) == Some(Trim(input))
    ensures UserInput(body).value == "" <==> IsBlank(input)
  {
    TrimEmpty(input);
  }

  /** An empty input is rejected once scope and mode pass. */
  lemma EmptyInputRejected(body: Json)
    requires !body.JNull? && Scope(body).Some? && Mode(body).Some?
    requires UserInput(body) == Some("")
    ensures Handle(false, Some(body), true) == Failure(400, MissingInput)
  {
    assert FirstFailure(body) == Some(MissingInput);
  }

  /** The answer depends on the body only through the four fields it reads. */
  lemma SameFieldsSameAnswer(b1: Json, b2: Json, basePathSet: bool, apiKeySet: bool)
    requires !b1.JNull? && !b2.JNull?
    requires Member(b1, "selectedScope") == Member(b2, "selectedScope")
    requires Member(b1, "userInput") == Member(b2, "userInput")
    requires Member(b1, "outputMode") == Member(b2, "outputMode")
    requires SelectedAgents(b1) == SelectedAgents(b2)
    ensures Handle(basePathSet, Some(b1), apiKeySet) == Handle(basePathSet, Some(b2), apiKeySet)
  {
    assert UserInput(b1) == UserInput(b2);
    assert Scope(b1) == Scope(b2);
    assert Mode(b1) == Mode(b2);
  }

  /** A `selectedAgents` that is not an array counts as a missing list. */
  lemma NonArrayAgentsAreEmpty(scope: Json, agents: Json, input: Json, mode: Json)
    requires !agents.JArray?
    ensures Handle(false, Some(Request(scope, Some(agents), input, mode)), true)
         == Handle(false, Some(Request(scope, None, input, mode)), true)
  {
    var withAgents := Request(scope, Some(agents), input, mode);
    var without := Request(scope, None, input, mode);
    RequestMembers(scope, Some(agents), input, mode);
    RequestMembers(scope, None, input, mode);
    assert SelectedAgents(withAgents) == SelectedAgents(without) == [];
    SameFieldsSameAnswer(withAgents, without, false, true);
  }

  /**
   * Scope `"agent"` without an array of agents is rejected, once the mode
   * and the input pass.
   */
  lemma MissingAgentListRejected(body: Json)
    requires !body.JNull? && Scope(body) == Some("agent") && Mode(body).Some?
    requires UserInput(body).Some? && UserInput(body).value != ""
    requires Member(body, "selectedAgents").None? || !Member(body, "selectedAgents").value.JArray?
    ensures Handle(false, Some(body), true) == Failure(400, MissingAgents)
  {
    assert SelectedAgents(body) == [];
    assert FirstFailure(body) == Some(MissingAgents);
  }

  /**
   * The agents are read exactly when the scope is `"agent"` or the list is
   * not empty; since scope `"agent"` needs a list, that is exactly when the
   * list is not empty.
   */
  lemma AgentsLoadedWhenListed(basePathSet: bool, body: Option<Json>, apiKeySet: bool)
    requires Handle(basePathSet, body, apiKeySet).Accepted?
    ensures Handle(basePathSet, body, apiKeySet).loadAgents
        <==> Handle(basePathSet, body, apiKeySet).scope == "agent" || Handle(basePathSet, body, apiKeySet).selectedAgents != []
    ensures Handle(basePathSet, body, apiKeySet).loadAgents <==> Handle(basePathSet, body, apiKeySet).selectedAgents != []
    ensures Handle(basePathSet, body, apiKeySet).userInput != ""
  {
  }

  /** Static hosting is refused before anything else, even a body that is not JSON. */
  lemma StaticHostingFirst(body: Option<Json>, apiKeySet: bool)
    ensures Handle(true, body, apiKeySet) == Failure(501, StaticHostingError)
  {
  }

  /** An input of another type than a string, `null` or missing throws, before any check can answer. */
  lemma NonStringInputThrows(scope: Json, agents: Option<Json>, input: Json, mode: Json)
    requires !input.JString? && !input.JNull?
    ensures Handle(false, Some(Request(scope, agents, input, mode)), true) == Thrown
    ensures Handle(false, Some(Request(scope, agents, input, mode)), false) == Thrown
  {
    RequestMembers(scope, agents, input, mode);
  }

  // ---------------------------------------------------------------------
  // The successful answer

  /** `prompt || basePrompt`. */
  function GeneratedPrompt(prompt: string, basePrompt: string): (r: string)
    ensures prompt != "" ==> r == prompt
    ensures prompt == "" ==> r == basePrompt
  {
    if prompt != "" then prompt else basePrompt
  }

  /** `outputMode === "prompt+md" ? doc ?? "" : undefined`, `None` standing for `undefined`. */
  function GeneratedDoc(mode: VibePrompt.OutputMode, doc: Option<string>): (r: Option<string>)
  {
    if mode == VibePrompt.PromptMd then Some(if doc.Some? then doc.value else "") else None
  }

  /** `process.env.OPENAI_MODEL ?? "gpt-4o-mini"`: an empty setting is kept. */
  function ModelName(setting: Option<string>): (r: string)
  {
    if setting.Some? then setting.value else "gpt-4o-mini"
  }

  /** The answer body: `generatedPrompt`, `generatedDoc` and `meta.model`. */
  datatype Answer = Answer(generatedPrompt: string, generatedDoc: Option<string>, model: string)

  /** The answer built from the compiler's output text and the base prompt it was given. */
  function Respond(outputText: string, basePrompt: string, mode: VibePrompt.OutputMode, modelSetting: Option<string>)
    : (a: Answer)
  {
    var split := VibePrompt.SplitCompilerOutput(outputText);
    Answer(GeneratedPrompt(split.prompt, basePrompt), GeneratedDoc(mode, split.doc), ModelName(modelSetting))
  }

  /**
   * The answer never has an empty prompt when the base prompt is not empty,
   * carries a document exactly in `"prompt+md"` mode, and names the model.
   */
  lemma AnswerShape(outputText: string, basePrompt: string, mode: VibePrompt.OutputMode, modelSetting: Option<string>)
    ensures basePrompt != "" ==> Respond(outputText, basePrompt, mode, modelSetting).generatedPrompt != ""
    ensures Respond(outputText, basePrompt, mode, modelSetting).generatedDoc.Some? <==> mode == VibePrompt.PromptMd
    ensures modelSetting.Some? ==> Respond(outputText, basePrompt, mode, modelSetting).model == modelSetting.value
    ensures modelSetting.None? ==> Respond(outputText, basePrompt, mode, modelSetting).model == "gpt-4o-mini"
  {
  }

  /**
   * A well-formed two-marker answer passes through: its prompt becomes
   * `generatedPrompt`, and its document is `generatedDoc` in `"prompt+md"`
   * mode.
   */
  lemma MarkedAnswerResponds(p: string, d: string, basePrompt: string, modelSetting: Option<string>)
    requires IsTrimmed(p) && IsTrimmed(d) && p != [] && d != []
    requires VibePrompt.MarkerFree(p) && NoCR(p) && NoCR(d)
    ensures Respond(VibePrompt.MarkedAnswer(p, d), basePrompt, VibePrompt.PromptMd, modelSetting).generatedPrompt == p
    ensures Respond(VibePrompt.MarkedAnswer(p, d), basePrompt, VibePrompt.PromptMd, modelSetting).generatedDoc == Some(d)
    ensures Respond(VibePrompt.MarkedAnswer(p, d), basePrompt, VibePrompt.Prompt, modelSetting).generatedDoc == None
  {
    VibePrompt.SplitRoundTrip(p, d);
  }

  /** An answer without the prompt marker is taken whole, normalised; a blank one falls back to the base prompt. */
  lemma UnmarkedAnswerResponds(outputText: string, basePrompt: string, mode: VibePrompt.OutputMode,
                               modelSetting: Option<string>)
    requires !Contains(VibePrompt.NormalizeNewlines(outputText), VibePrompt.PromptMarker)
    ensures Respond(outputText, basePrompt, mode, modelSetting).generatedPrompt
         == GeneratedPrompt(VibePrompt.NormalizeNewlines(outputText), basePrompt)
    ensures mode == VibePrompt.PromptMd ==> Respond(outputText, basePrompt, mode, modelSetting).generatedDoc == Some("")
  {
  }
}
