/**
 * The chat endpoint: the student's message is stored in its session, the
 * hint state is derived from the session's earlier answers, the hint
 * controller decides, and either the fixed refusal or the assistant's
 * answer is stored and returned. Retrieval and both models are function
 * parameters.
 */
module Chat {
  import opened Wrappers
  import opened Seqs
  import opened Models
  import opened Store
  import opened Courses
  import opened Llm

  /** The reply stored and returned when the controller refuses a question as out of scope. */
  const RefusalMessage: string :=
    "I don't have enough information" + " in the course materials to answer that question. \n\n"
    + "Here's what you can do:\n"
    + "- Try rephrasing your question\n"
    + "- Ask about a specific topic from your lectures or readings\n"
    + "- Check if this topic is covered in your syllabus\n\n"
    + "I can only help with questions that relate to the uploaded course materials."

  // ---------------------------------------------------------------------------
  // Hint state
  // ---------------------------------------------------------------------------

  /** Whether a message is an answer in the session. */
  function AnswerOf(sessionId: Id): ChatMessage -> bool {
    (m: ChatMessage) => m.sessionId == sessionId && m.role == Speaker.Assistant
  }

  /** Whether a message is an answer in the session that carries a hint level. */
  predicate LeveledAnswer(m: ChatMessage, sessionId: Id) {
    AnswerOf(sessionId)(m) && m.hintLevel.Some?
  }

  /** The largest element. */
  function MaxOf(s: seq<int>): (r: int)
    requires s != []
    ensures r in s
    ensures forall k :: 0 <= k < |s| ==> s[k] <= r
    decreases |s|
  {
    if |s| == 1 then s[0]
    else
      var m := MaxOf(s[..|s| - 1]);
      assert forall k :: 0 <= k < |s| - 1 ==> s[..|s| - 1][k] == s[k];
      if s[|s| - 1] > m then s[|s| - 1] else m
  }

  /** The hint state of a session, message by message (specified by `HintStateSpec` and `HintStateByLevels`). */
  function HintStateOf(messages: seq<ChatMessage>, sessionId: Id): HintState
    decreases |messages|
  {
    if messages == [] then HintState(0, 0)
    else Step(HintStateOf(messages[..|messages| - 1], sessionId), messages[|messages| - 1], sessionId)
  }

  /** The hint state after one more message: an answer with a level raises the maximum and the count. */
  function Step(s: HintState, m: ChatMessage, sessionId: Id): HintState {
    if LeveledAnswer(m, sessionId) then
      var level := m.hintLevel.value;
      HintState(if s.numberOfHintsGiven == 0 then level else Max(s.hintLevelUsed, level), s.numberOfHintsGiven + 1)
    else s
  }

  /** The hint state of a list of levels: its maximum (0 for none) and its length. */
  function OfLevels(levels: seq<int>): HintState {
    if levels == [] then HintState(0, 0) else HintState(MaxOf(levels), |levels|)
  }

  /** `Step` extends the list of levels by the message's level, if it is an answer with one. */
  lemma StepOfLevels(levels: seq<int>, m: ChatMessage, sessionId: Id)
    ensures Step(OfLevels(levels), m, sessionId) == OfLevels(levels + (if LeveledAnswer(m, sessionId) then [m.hintLevel.value] else []))
  {
    if LeveledAnswer(m, sessionId) {
      if levels != [] {
        MaxOfSnoc(levels, m.hintLevel.value);
      } else {
        assert levels + [m.hintLevel.value] == [m.hintLevel.value];
      }
    } else {
      assert levels + [] == levels;
    }
  }

  /**
   * The hint state holds the highest hint level among the session's answers
   * (0 when none has one), and no hint is counted exactly when no answer has
   * a level.
   */
  lemma {:induction false} HintStateSpec(messages: seq<ChatMessage>, sessionId: Id)
    ensures var r := HintStateOf(messages, sessionId);
      && (r.numberOfHintsGiven == 0 <==> forall k :: 0 <= k < |messages| ==> !LeveledAnswer(messages[k], sessionId))
      && (r.numberOfHintsGiven == 0 ==> r.hintLevelUsed == 0)
      && (forall k :: 0 <= k < |messages| && LeveledAnswer(messages[k], sessionId) ==> messages[k].hintLevel.value <= r.hintLevelUsed)
      && (r.numberOfHintsGiven > 0 ==>
           exists k :: 0 <= k < |messages| && LeveledAnswer(messages[k], sessionId) && messages[k].hintLevel == Some(r.hintLevelUsed))
    decreases |messages|
  {
    if messages != [] {
      var init := messages[..|messages| - 1];
      var last := |messages| - 1;
      HintStateSpec(init, sessionId);
      assert forall k :: 0 <= k < |init| ==> init[k] == messages[k];
      var s := HintStateOf(init, sessionId);
      if LeveledAnswer(messages[last], sessionId) && s.numberOfHintsGiven > 0 {
        var j :| 0 <= j < |init| && LeveledAnswer(init[j], sessionId) && init[j].hintLevel == Some(s.hintLevelUsed);
        assert messages[j] == init[j];
      } else if !LeveledAnswer(messages[last], sessionId) && s.numberOfHintsGiven > 0 {
        var j :| 0 <= j < |init| && LeveledAnswer(init[j], sessionId) && init[j].hintLevel == Some(s.hintLevelUsed);
        assert messages[j] == init[j];
      }
    }
  }

  /**
   * The hint state is what the source computes from the list of levels:
   * their maximum (0 for none) and their number.
   */
  lemma {:induction false} HintStateByLevels(messages: seq<ChatMessage>, sessionId: Id)
    ensures HintStateOf(messages, sessionId) == OfLevels(HintLevels(Filter(messages, AnswerOf(sessionId))))
    decreases |messages|
  {
    if messages != [] {
      var init := messages[..|messages| - 1];
      var m := messages[|messages| - 1];
      HintStateByLevels(init, sessionId);
      var answers := Filter(init, AnswerOf(sessionId));
      FilterInit(messages, AnswerOf(sessionId));
      LevelsSnoc(answers, m, sessionId);
      StepOfLevels(HintLevels(answers), m, sessionId);
    }
  }

  /** Appending a message extends the levels of the session's answers by its level, if it is an answer with one. */
  lemma LevelsSnoc(answers: seq<ChatMessage>, m: ChatMessage, sessionId: Id)
    ensures var extended := answers + (if AnswerOf(sessionId)(m) then [m] else []);
      HintLevels(extended) == HintLevels(answers) + (if LeveledAnswer(m, sessionId) then [m.hintLevel.value] else [])
  {
    if AnswerOf(sessionId)(m) {
      assert (answers + [m])[..|answers|] == answers;
    } else {
      assert answers + [] == answers;
    }
  }

  /** The largest element of a sequence with one more element. */
  lemma MaxOfSnoc(s: seq<int>, x: int)
    requires s != []
    ensures MaxOf(s + [x]) == Max(MaxOf(s), x)
  {
    assert (s + [x])[..|s|] == s;
  }

  /** The student's own messages do not count: storing one first leaves the hint state alone. */
  lemma HintStateIgnoresQuestions(messages: seq<ChatMessage>, sessionId: Id, m: ChatMessage)
    requires m.role == Speaker.User
    ensures HintStateOf(messages + [m], sessionId) == HintStateOf(messages, sessionId)
  {
    assert (messages + [m])[..|messages|] == messages;
  }

  /** Storing an answer with a level counts one more hint and raises the level used to at least it. */
  lemma HintStateAfterAnswer(messages: seq<ChatMessage>, sessionId: Id, m: ChatMessage)
    requires AnswerOf(sessionId)(m) && m.hintLevel.Some?
    ensures HintStateOf(messages + [m], sessionId).numberOfHintsGiven == HintStateOf(messages, sessionId).numberOfHintsGiven + 1
    ensures HintStateOf(messages + [m], sessionId).hintLevelUsed ==
      if HintStateOf(messages, sessionId).numberOfHintsGiven == 0 then m.hintLevel.value
      else Max(HintStateOf(messages, sessionId).hintLevelUsed, m.hintLevel.value)
  {
    assert (messages + [m])[..|messages|] == messages;
  }

  /** A request for a further hint counts one more hint, but only once a hint has been given. */
  function Bumped(state: HintState, requestHintIncrease: bool): (r: HintState)
    ensures r.hintLevelUsed == state.hintLevelUsed
    ensures r.numberOfHintsGiven > state.numberOfHintsGiven <==> requestHintIncrease && state.numberOfHintsGiven > 0
    ensures state.numberOfHintsGiven <= r.numberOfHintsGiven <= state.numberOfHintsGiven + 1
  {
    if requestHintIncrease && state.numberOfHintsGiven > 0 then state.(numberOfHintsGiven := state.numberOfHintsGiven + 1)
    else state
  }

  // ---------------------------------------------------------------------------
  // chat
  // ---------------------------------------------------------------------------

  /** The stored row of the student's message. */
  function Question(id: Id, request: ChatRequest): ChatMessage {
    ChatMessage(id, request.sessionId, Speaker.User, request.message, None, id, None)
  }

  /** The stored row of an answer. */
  function Answered(id: Id, sessionId: Id, content: string, level: int): ChatMessage {
    ChatMessage(id, sessionId, Speaker.Assistant, content, Some(level), id, None)
  }

  /** What the controller is asked: the message, the guardrails, the (possibly bumped) hint state and the excerpt count. */
  function ControllerInput(messages: seq<ChatMessage>, guardrails: Guardrails, request: ChatRequest, excerpts: seq<Excerpt>): HintControllerInput {
    HintControllerInput(request.message, guardrails,
      Bumped(HintStateOf(messages, request.sessionId), request.requestHintIncrease), |excerpts|)
  }

  /** Stores the student's message under a fresh id. */
  method StoreQuestion(db: Database, request: ChatRequest) returns (m: ChatMessage)
    modifies db
    ensures m == Question(old(db.next), request)
    ensures db.State() == old(db.State()).(messages := old(db.messages) + [m], next := old(db.next) + 1)
  {
    m := Question(db.next, request);
    db.messages, db.next := db.messages + [m], db.next + 1;
  }

  /** Stores an answer under a fresh id. */
  method StoreAnswer(db: Database, sessionId: Id, content: string, level: int) returns (m: ChatMessage)
    modifies db
    ensures m == Answered(old(db.next), sessionId, content, level)
    ensures db.State() == old(db.State()).(messages := old(db.messages) + [m], next := old(db.next) + 1)
  {
    m := Answered(db.next, sessionId, content, level);
    db.messages, db.next := db.messages + [m], db.next + 1;
  }

  /** An appended message keeps the tables consistent when its id and time are fresh. */
  lemma AddMessageConsistent(t: Tables, m: ChatMessage)
    requires Consistent(t)
    requires m.id == t.next && m.createdAt == t.next
    ensures Consistent(t.(messages := t.messages + [m], next := t.next + 1))
  {
    BelowSnoc(t.messages, MessageId, t.next + 1, m);
    BelowSnoc(t.messages, MessageStamp, t.next + 1, m);
    IncreasingSnoc(t.messages, MessageTime, m);
  }

  /** Two appended messages keep the tables consistent when their ids and times are fresh. */
  lemma AddMessagesConsistent(t: Tables, m: ChatMessage, m': ChatMessage)
    requires Consistent(t)
    requires m.id == t.next && m.createdAt == t.next
    requires m'.id == t.next + 1 && m'.createdAt == t.next + 1
    ensures Consistent(t.(messages := t.messages + [m] + [m'], next := t.next + 2))
  {
    AddMessageConsistent(t, m);
    AddMessageConsistent(t.(messages := t.messages + [m], next := t.next + 1), m');
  }

  /**
   * `chat`: 404 for an unknown session, before anything is stored.
   * Otherwise the student's message is stored, the controller decides on
   * the session's hint state and the retrieved excerpts, and on
   * `refuse_out_of_scope` the refusal is stored and returned at hint level
   * 0 with no sources; on any other action the assistant's answer is stored
   * and returned with the controller's level and action and the excerpts'
   * sources. A decision the output's validators reject is a 500, with the
   * student's message already stored.
   */
  method Chat(db: Database, request: ChatRequest, retrieve: (Id, string) -> seq<Excerpt>,
              decide: HintControllerInput -> RawDecision, reply: AssistantInput -> string)
    returns (r: Result<ChatResponse, Status>)
    requires db.Valid()
    modifies db
    ensures db.Valid()
    ensures SessionById(old(db.sessions), request.sessionId).None? ==>
      r == Failure(Status(404, "Session not found")) && db.State() == old(db.State())
    ensures SessionById(old(db.sessions), request.sessionId).Some? ==>
      Conversed(old(db.State()), SessionById(old(db.sessions), request.sessionId).value, request, retrieve, decide, reply, r, db.State())
  {
    var found := SessionById(db.sessions, request.sessionId);
    if found.None? {
      return Failure(Status(404, "Session not found"));
    }
    r := Converse(db, found.value, request, retrieve, decide, reply);
  }

  /**
   * What `chat` does in a session that exists: from tables `t` it returns
   * `r` and leaves tables `t'`. The student's message is stored; a decision
   * the validators reject is a 500; otherwise the answer for the decision
   * is stored too and its response returned.
   */
  ghost predicate Conversed(t: Tables, session: Session, request: ChatRequest, retrieve: (Id, string) -> seq<Excerpt>,
                            decide: HintControllerInput -> RawDecision, reply: AssistantInput -> string,
                            r: Result<ChatResponse, Status>, t': Tables)
  {
    var guardrails := GetGuardrails(t.guardrails, session.courseId);
    var excerpts := retrieve(session.courseId, request.message);
    var stored := t.messages + [Question(t.next, request)];
    match RunHintController(decide, ControllerInput(stored, guardrails, request, excerpts))
    case Failure(e) =>
      r == Failure(Status(500, e)) && t' == t.(messages := stored, next := t.next + 1)
    case Success(out) =>
      var answer := AnswerFor(t.next + 1, request, guardrails, excerpts, out, reply);
      && r == Success(ResponseFor(answer, excerpts, out))
      && t' == t.(messages := stored + [answer], next := t.next + 2)
  }

  /**
   * The part of `chat` after the session is found. Retrieval and the
   * controller are functions of their arguments, so they are evaluated
   * before the student's message is written; the hint state they see is
   * still that of the messages with the question stored.
   */
  method Converse(db: Database, session: Session, request: ChatRequest, retrieve: (Id, string) -> seq<Excerpt>,
                  decide: HintControllerInput -> RawDecision, reply: AssistantInput -> string)
    returns (r: Result<ChatResponse, Status>)
    requires db.Valid()
    modifies db
    ensures db.Valid()
    ensures Conversed(old(db.State()), session, request, retrieve, decide, reply, r, db.State())
  {
    var guardrails := GetGuardrails(db.guardrails, session.courseId);
    ghost var before := db.State();
    var excerpts := retrieve(session.courseId, request.message);
    var decision := RunHintController(decide, ControllerInput(db.messages + [Question(db.next, request)], guardrails, request, excerpts));
    var question := StoreQuestion(db, request);
    assert db.messages == before.messages + [Question(before.next, request)];
    if decision.Failure? {
      AddMessageConsistent(before, question);
      return Failure(Status(500, decision.error));
    }
    var answer, response := Respond(db, request, guardrails, excerpts, decision.value, reply);
    AddMessagesConsistent(before, question, answer);
    assert db.State() == before.(messages := before.messages + [question] + [answer], next := before.next + 2);
    r := Success(response);
  }

  /** The answer stored under `id` for the controller's decision: the refusal at level 0, or the assistant's reply at the decided level. */
  function AnswerFor(id: Id, request: ChatRequest, guardrails: Guardrails, excerpts: seq<Excerpt>,
                     out: HintControllerOutput, reply: AssistantInput -> string): ChatMessage
  {
    if out.action == RefuseOutOfScope then Answered(id, request.sessionId, RefusalMessage, 0)
    else Answered(id, request.sessionId,
      reply(AssistantInput(request.message, out.hintLevel, guardrails, out.notesForAssistant, ExcerptsSection(excerpts))),
      out.hintLevel)
  }

  /** The response for a stored answer: the answer with its sources (none for a refusal), its level and the action. */
  function ResponseFor(answer: ChatMessage, excerpts: seq<Excerpt>, out: HintControllerOutput): ChatResponse
    requires answer.hintLevel.Some?
  {
    var sources := if out.action == RefuseOutOfScope then [] else Sources(excerpts);
    ChatResponse(answer.(sources := Some(sources)), answer.hintLevel.value, out.action)
  }

  /** A refusal stores and returns the fixed message at hint level 0, with an empty source list. */
  lemma RefusalResponse(id: Id, request: ChatRequest, guardrails: Guardrails, excerpts: seq<Excerpt>,
                        out: HintControllerOutput, reply: AssistantInput -> string)
    requires out.action == RefuseOutOfScope
    ensures var answer := AnswerFor(id, request, guardrails, excerpts, out, reply);
      && answer.role == Speaker.Assistant && answer.content == RefusalMessage && answer.hintLevel == Some(0)
      && ResponseFor(answer, excerpts, out) == ChatResponse(answer.(sources := Some([])), 0, RefuseOutOfScope)
  {
  }

  /**
   * Any other action stores the assistant's reply at the controller's level;
   * the response carries that level, the action, and one source per excerpt.
   */
  lemma AnswerResponse(id: Id, request: ChatRequest, guardrails: Guardrails, excerpts: seq<Excerpt>,
                       out: HintControllerOutput, reply: AssistantInput -> string)
    requires out.action != RefuseOutOfScope
    ensures var answer := AnswerFor(id, request, guardrails, excerpts, out, reply);
      && answer.role == Speaker.Assistant && answer.sessionId == request.sessionId
      && answer.hintLevel == Some(out.hintLevel as int)
      && var response := ResponseFor(answer, excerpts, out);
      && response.hintLevel == out.hintLevel && response.action == out.action
      && response.message.sources.Some? && |response.message.sources.value| == |excerpts|
  {
  }

  /** The answering half of `chat`: the answer for the decision is stored and its response returned. */
  method Respond(db: Database, request: ChatRequest, guardrails: Guardrails, excerpts: seq<Excerpt>,
                 out: HintControllerOutput, reply: AssistantInput -> string)
    returns (answer: ChatMessage, r: ChatResponse)
    modifies db
    ensures answer == AnswerFor(old(db.next), request, guardrails, excerpts, out, reply)
    ensures r == ResponseFor(answer, excerpts, out)
    ensures db.State() == old(db.State()).(messages := old(db.messages) + [answer], next := old(db.next) + 1)
  {
    if out.action == RefuseOutOfScope {
      answer := StoreAnswer(db, request.sessionId, RefusalMessage, 0);
      return answer, ChatResponse(answer.(sources := Some([])), 0, RefuseOutOfScope);
    }
    var content, sources := RunStudentAssistant(reply, request.message, excerpts, guardrails, out.hintLevel, out.notesForAssistant);
    answer := StoreAnswer(db, request.sessionId, content, out.hintLevel);
    r := ChatResponse(answer.(sources := Some(sources)), out.hintLevel, out.action);
  }

  /** The hint state the controller sees is that of the session's earlier answers, bumped on request. */
  lemma ControllerSeesEarlierAnswers(messages: seq<ChatMessage>, guardrails: Guardrails, request: ChatRequest, excerpts: seq<Excerpt>, id: Id)
    ensures ControllerInput(messages + [Question(id, request)], guardrails, request, excerpts).hintState
      == Bumped(HintStateOf(messages, request.sessionId), request.requestHintIncrease)
  {
    HintStateIgnoresQuestions(messages, request.sessionId, Question(id, request));
  }

  /** Whatever the controller replies, the level it hands to the assistant is within the course's maximum. */
  lemma AnswerLevelBounded(decide: HintControllerInput -> RawDecision, input: HintControllerInput)
    requires RunHintController(decide, input).Success?
    ensures 0 <= RunHintController(decide, input).value.hintLevel <= input.guardrails.maxHintLevel
  {
  }
}
