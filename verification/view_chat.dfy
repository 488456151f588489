/** One pass of the chat page as a state transition over the session
    state. Retrieval, generation and persistence are the parameters
    `retrieve`, `generate` and `save`; the fresh session id that `uuid4`
    would produce is the parameter `freshId`. Rendering is left out. */
module ViewChat {
  import opened Results
  import opened Text
  import opened Ordering
  import Adapter

  const SYSTEM_PROMPT :=
    "You are a helpful assistant named 'BC2 AI Assistant'. Based ONLY on the provided context snippets, "
    + "answer the user's question concisely. Your answer must be grounded in the facts from the context. "
    + "If the context does not contain the answer, state that you do not have enough information from the provided documents."

  /** Seconds the generation call may take. */
  const LLM_TIMEOUT_S: nat := 60

  const SOURCES_HEADER := "\n\n**Sources:**\n"
  const RETRIEVAL_ERROR := "Error retrieving documents: "
  const GENERATION_ERROR := "Error communicating with the language model: "

  /** One past turn as kept in the session history. */
  datatype Exchange = Exchange(user: string, assistant: string)

  /** The two session-state keys the page uses; `None` is an absent key. */
  datatype Session = Session(history: Option<seq<Exchange>>, sessionId: Option<string>)

  /** What `get_grounded_context` hands back, or the error it raised. */
  datatype Retrieval = Retrieved(context: string, citations: seq<string>) | RetrievalFailed(reason: string)

  /** What `call_llm` hands back, or the error it raised. */
  datatype Generation = Generated(answer: string) | GenerationFailed(reason: string)

  /** The row `save_chat_turn` is asked to insert. */
  datatype ChatRow = ChatRow(sessionId: string, userQuery: string, retrievedContext: string, modelResponse: string)

  /** How a pass ends: no question asked, one of the two error messages
      shown, or an answer shown (with whether it was saved). */
  datatype Outcome =
    | NoQuestion
    | RetrievalError(message: string)
    | GenerationError(message: string)
    | Answered(shown: string, saved: bool)

  datatype TurnResult = TurnResult(state: Session, outcome: Outcome)

  /** Session initialisation: each key is set only when absent. */
  function InitSession(s: Session, freshId: string): (r: Session)
    ensures r.history.Some? && r.sessionId.Some?
    ensures s.history.Some? ==> r.history == s.history
    ensures s.sessionId.Some? ==> r.sessionId == s.sessionId
    ensures s.history.None? ==> r.history == Some([])
    ensures s.sessionId.None? ==> r.sessionId == Some(freshId)
  {
    Session(
      if s.history.None? then Some([]) else s.history,
      if s.sessionId.None? then Some(freshId) else s.sessionId)
  }

  /** Initialising an initialised session changes nothing, whatever id
      would be generated the second time. */
  lemma InitIdempotent(s: Session, id1: string, id2: string)
    ensures InitSession(InitSession(s, id1), id2) == InitSession(s, id1)
  {
  }

  /** The user message sent to the model. */
  function Prompt(context: string, question: string): (r: string)
    ensures |r| == 9 + |context| + 17 + |question|
    ensures r[..9] == "CONTEXT:\n"
    ensures r[9..9 + |context|] == context
    ensures r[9 + |context|..|r| - |question|] == "\n\nUSER QUESTION:\n"
    ensures r[|r| - |question|..] == question
  {
    "CONTEXT:\n" + context + "\n\nUSER QUESTION:\n" + question
  }

  /** Given the question's length, the prompt determines both the context
      and the question it was built from. */
  lemma PromptDeterminesParts(c1: string, q1: string, c2: string, q2: string)
    requires Prompt(c1, q1) == Prompt(c2, q2)
    requires |q1| == |q2|
    ensures c1 == c2 && q1 == q2
  {
  }

  /** One "- c" line per citation. */
  function Bullets(cs: seq<string>): (r: seq<string>)
    ensures |r| == |cs|
  {
    seq(|cs|, k requires 0 <= k < |cs| => "- " + cs[k])
  }

  /** The answer as shown: unchanged without citations, otherwise followed
      by the sources header and the citations as bullet lines in sorted
      order. */
  function WithSources(answer: string, citations: seq<string>): (r: string)
    ensures |r| >= |answer| && r[..|answer|] == answer
    ensures r == answer <==> |citations| == 0
  {
    if |citations| == 0 then answer
    else answer + SOURCES_HEADER + Join(Bullets(Sort(citations)), "\n")
  }

  /** The sources block lists the citations in the one sorted order: any
      sorted rearrangement of the citations gives the same text. */
  lemma SourcesListSorted(answer: string, citations: seq<string>, listed: seq<string>)
    requires |citations| > 0
    requires Sorted(listed) && multiset(listed) == multiset(citations)
    ensures WithSources(answer, citations) == answer + SOURCES_HEADER + Join(Bullets(listed), "\n")
  {
    SortedUnique(Sort(citations), listed);
  }

  /** The shown answer does not depend on the order of the citations. */
  lemma SourcesIgnoreOrder(answer: string, c1: seq<string>, c2: seq<string>)
    requires multiset(c1) == multiset(c2)
    ensures WithSources(answer, c1) == WithSources(answer, c2)
  {
    SortIgnoresOrder(c1, c2);
    assert |c1| == |multiset(c1)| == |multiset(c2)| == |c2|;
  }

  /** In particular any two listings of the same citation set, as
      `list(set)` may produce, are shown identically. */
  lemma SourcesOfSetListing(answer: string, l1: seq<string>, l2: seq<string>)
    requires Distinct(l1) && Distinct(l2)
    requires forall x :: x in l1 <==> x in l2
    ensures WithSources(answer, l1) == WithSources(answer, l2)
  {
    DistinctSameMembers(l1, l2);
    SourcesIgnoreOrder(answer, l1, l2);
  }

  /** One pass of `view_chat`: initialise the session, stop on empty
      input, retrieve, generate, show the answer with its sources, append
      the exchange to the history and make one best-effort save. */
  function ChatTurn(s: Session, freshId: string, input: Option<string>,
                    retrieve: string -> Retrieval,
                    generate: (string, string, nat) -> Generation,
                    save: ChatRow -> bool): (r: TurnResult)
    ensures r.state.sessionId == InitSession(s, freshId).sessionId
    ensures (input.None? || input.value == "") ==> r == TurnResult(InitSession(s, freshId), NoQuestion)
    ensures !r.outcome.Answered? ==> r.state == InitSession(s, freshId)
    ensures r.outcome.NoQuestion? <==> input.None? || input.value == ""
    ensures r.outcome.RetrievalError? <==>
      input.Some? && input.value != "" && retrieve(input.value).RetrievalFailed?
    ensures r.outcome.RetrievalError? ==>
      r.outcome.message == RETRIEVAL_ERROR + retrieve(input.value).reason
    ensures r.outcome.GenerationError? <==>
      && input.Some? && input.value != ""
      && retrieve(input.value).Retrieved?
      && generate(SYSTEM_PROMPT, Prompt(retrieve(input.value).context, input.value), LLM_TIMEOUT_S).GenerationFailed?
    ensures r.outcome.GenerationError? ==>
      r.outcome.message ==
        GENERATION_ERROR + generate(SYSTEM_PROMPT, Prompt(retrieve(input.value).context, input.value), LLM_TIMEOUT_S).reason
    ensures r.outcome.Answered? <==>
      && input.Some? && input.value != ""
      && retrieve(input.value).Retrieved?
      && generate(SYSTEM_PROMPT, Prompt(retrieve(input.value).context, input.value), LLM_TIMEOUT_S).Generated?
    ensures r.outcome.Answered? ==>
      var q := input.value;
      var got := retrieve(q);
      var answer := generate(SYSTEM_PROMPT, Prompt(got.context, q), LLM_TIMEOUT_S).answer;
      var s0 := InitSession(s, freshId);
      && r.outcome.shown == WithSources(answer, got.citations)
      && r.state.history == Some(s0.history.value + [Exchange(q, r.outcome.shown)])
      && r.outcome.saved == save(ChatRow(s0.sessionId.value, q, got.context, r.outcome.shown))
  {
    var s0 := InitSession(s, freshId);
    match input
    case None => TurnResult(s0, NoQuestion)
    case Some(q) =>
      if q == "" then TurnResult(s0, NoQuestion)
      else
        match retrieve(q)
        case RetrievalFailed(e) => TurnResult(s0, RetrievalError(RETRIEVAL_ERROR + e))
        case Retrieved(context, citations) =>
          match generate(SYSTEM_PROMPT, Prompt(context, q), LLM_TIMEOUT_S)
          case GenerationFailed(e) => TurnResult(s0, GenerationError(GENERATION_ERROR + e))
          case Generated(answer) =>
            var shown := WithSources(answer, citations);
            var s1 := s0.(history := Some(s0.history.value + [Exchange(q, shown)]));
            var saved := save(ChatRow(s0.sessionId.value, q, context, shown));
            TurnResult(s1, Answered(shown, saved))
  }

  /** Whether the save succeeds has no effect on the session state: the
      exchange is appended before the save is attempted and stays there. */
  lemma SaveOutcomeIrrelevant(s: Session, freshId: string, input: Option<string>,
                              retrieve: string -> Retrieval,
                              generate: (string, string, nat) -> Generation,
                              save1: ChatRow -> bool, save2: ChatRow -> bool)
    ensures ChatTurn(s, freshId, input, retrieve, generate, save1).state
         == ChatTurn(s, freshId, input, retrieve, generate, save2).state
  {
  }

  /** A pass appends at most one exchange and never rewrites earlier ones. */
  lemma HistoryOnlyGrows(s: Session, freshId: string, input: Option<string>,
                         retrieve: string -> Retrieval,
                         generate: (string, string, nat) -> Generation,
                         save: ChatRow -> bool)
    ensures var before := InitSession(s, freshId).history.value;
      var after := ChatTurn(s, freshId, input, retrieve, generate, save).state.history.value;
      after == before || (|after| == |before| + 1 && after[..|before|] == before)
  {
  }

  /** The session id is fixed by the first pass: later passes keep it,
      whatever fresh id they would have generated. */
  lemma SessionIdStable(s: Session, id1: string, id2: string,
                        in1: Option<string>, in2: Option<string>,
                        retrieve: string -> Retrieval,
                        generate: (string, string, nat) -> Generation,
                        save: ChatRow -> bool)
    ensures var first := ChatTurn(s, id1, in1, retrieve, generate, save);
      var second := ChatTurn(first.state, id2, in2, retrieve, generate, save);
      second.state.sessionId == first.state.sessionId == InitSession(s, id1).sessionId
  {
  }

  /** `call_llm` in the role of the generation step: any error it raises
      becomes a failed generation carrying the exception's text. */
  function GenerateWith(env: Adapter.Env, post: (Adapter.Request, nat) -> Adapter.HttpReply): (g: (string, string, nat) -> Generation)
    ensures forall sp, q, t :: g(sp, q, t).Generated? <==> Adapter.CallLlm(env, sp, q, t, post).Success?
    ensures forall sp, q, t :: g(sp, q, t).Generated? ==> g(sp, q, t).answer == Adapter.CallLlm(env, sp, q, t, post).value
    ensures forall sp, q, t :: g(sp, q, t).GenerationFailed? ==>
      g(sp, q, t).reason == Adapter.ErrorMessage(Adapter.CallLlm(env, sp, q, t, post).error)
  {
    (system: string, prompt: string, timeoutS: nat) =>
      match Adapter.CallLlm(env, system, prompt, timeoutS, post)
      case Success(answer) => Generated(answer)
      case Failure(e) => GenerationFailed(Adapter.ErrorMessage(e))
  }

  /** With a rejected configuration no pass ever shows an answer or
      touches the history, whatever retrieval and the network do. */
  lemma BadConfigNeverAnswers(s: Session, freshId: string, input: Option<string>,
                              retrieve: string -> Retrieval,
                              env: Adapter.Env, post: (Adapter.Request, nat) -> Adapter.HttpReply,
                              save: ChatRow -> bool)
    requires Adapter.Validate(env).Failure?
    ensures var r := ChatTurn(s, freshId, input, retrieve, GenerateWith(env, post), save);
      && !r.outcome.Answered?
      && r.state == InitSession(s, freshId)
      && (input.Some? && input.value != "" && retrieve(input.value).Retrieved? ==>
            r.outcome == GenerationError(GENERATION_ERROR + Adapter.ErrorMessage(Adapter.Config(Adapter.Validate(env).error))))
  {
  }
}
