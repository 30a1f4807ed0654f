/**
 * The records exchanged by the backend and stored in its tables: courses,
 * guardrails and their partial updates, sessions, chat messages and requests,
 * excerpts and sources, hint state and the hint controller's decision.
 * Range constraints of the source's field validators become subset types.
 */
module Models {
  import opened Wrappers

  /** Row identifiers (the source's UUIDs); the store hands out fresh ones. */
  type Id = nat

  /** A hint level: an integer from 0 to 3. */
  type HintLevel = x: int | 0 <= x <= 3

  /** The error of an endpoint: an HTTP status code and its detail text. */
  datatype Status = Status(code: int, detail: string)

  /** A user's role. */
  datatype Role = Student | Teacher

  /** The wire name of a role. */
  function RoleName(r: Role): string {
    match r
    case Student => "student"
    case Teacher => "teacher"
  }

  /** Reads a role from its wire name; any other text is no role. */
  function ParseRole(s: string): (r: Option<Role>)
    ensures r.Some? ==> RoleName(r.value) == s
  {
    if s == "student" then Some(Student) else if s == "teacher" then Some(Teacher) else None
  }

  /** Role names round-trip through `ParseRole`. */
  lemma ParseRoleName(r: Role)
    ensures ParseRole(RoleName(r)) == Some(r)
  {
  }

  datatype Course = Course(id: Id, name: string, classCode: string, createdAt: nat)

  datatype CourseLevel = Elementary | Middle | High | University
  datatype AssessmentMode = Homework | Quiz | Exam | Practice | Unknown

  /** A course's guardrail configuration. */
  datatype Guardrails = Guardrails(
    allowFinalAnswer: bool,
    allowCode: bool,
    maxHintLevel: HintLevel,
    courseLevel: CourseLevel,
    assessmentMode: AssessmentMode)

  /** The field defaults of `Guardrails`. */
  const DefaultGuardrails: Guardrails := Guardrails(false, false, 2, University, Homework)

  /** A course without a configuration gives no final answers and no code, hints up to level 2, at university level, for homework. */
  lemma GuardrailDefaults()
    ensures !DefaultGuardrails.allowFinalAnswer && !DefaultGuardrails.allowCode
    ensures DefaultGuardrails.maxHintLevel == 2
    ensures DefaultGuardrails.courseLevel == University && DefaultGuardrails.assessmentMode == Homework
  {
  }

  /** A partial guardrail update: an absent (or null) field leaves the current value alone. */
  datatype GuardrailsUpdate = GuardrailsUpdate(
    allowFinalAnswer: Option<bool>,
    allowCode: Option<bool>,
    maxHintLevel: Option<HintLevel>,
    courseLevel: Option<CourseLevel>,
    assessmentMode: Option<AssessmentMode>)

  /** The field defaults of `GuardrailsUpdate`: nothing set. */
  const EmptyUpdate: GuardrailsUpdate := GuardrailsUpdate(None, None, None, None, None)

  /** `current` with every field that `update` sets (to a non-null value) replaced. */
  function Merge(current: Guardrails, update: GuardrailsUpdate): Guardrails {
    Guardrails(
      update.allowFinalAnswer.GetOr(current.allowFinalAnswer),
      update.allowCode.GetOr(current.allowCode),
      update.maxHintLevel.GetOr(current.maxHintLevel),
      update.courseLevel.GetOr(current.courseLevel),
      update.assessmentMode.GetOr(current.assessmentMode))
  }

  /** Each field of a merge is the update's value when set and the current value otherwise. */
  lemma MergeFields(current: Guardrails, update: GuardrailsUpdate)
    ensures var r := Merge(current, update);
      && (update.allowFinalAnswer.Some? ==> r.allowFinalAnswer == update.allowFinalAnswer.value)
      && (update.allowFinalAnswer.None? ==> r.allowFinalAnswer == current.allowFinalAnswer)
      && (update.allowCode.Some? ==> r.allowCode == update.allowCode.value)
      && (update.allowCode.None? ==> r.allowCode == current.allowCode)
      && (update.maxHintLevel.Some? ==> r.maxHintLevel == update.maxHintLevel.value)
      && (update.maxHintLevel.None? ==> r.maxHintLevel == current.maxHintLevel)
      && (update.courseLevel.Some? ==> r.courseLevel == update.courseLevel.value)
      && (update.courseLevel.None? ==> r.courseLevel == current.courseLevel)
      && (update.assessmentMode.Some? ==> r.assessmentMode == update.assessmentMode.value)
      && (update.assessmentMode.None? ==> r.assessmentMode == current.assessmentMode)
  {
  }

  /** Applying the same update twice is the same as applying it once. */
  lemma MergeIdempotent(current: Guardrails, update: GuardrailsUpdate)
    ensures Merge(Merge(current, update), update) == Merge(current, update)
  {
  }

  /** An update that sets nothing changes nothing. */
  lemma MergeEmpty(current: Guardrails)
    ensures Merge(current, EmptyUpdate) == current
  {
  }

  /** The number of fields of `Guardrails` (and of `GuardrailsUpdate`), in declaration order. */
  const FieldCount: nat := 5

  /** `update` with the fields from position `n` on left unset. */
  function Upto(update: GuardrailsUpdate, n: nat): GuardrailsUpdate {
    GuardrailsUpdate(
      if n > 0 then update.allowFinalAnswer else None,
      if n > 1 then update.allowCode else None,
      if n > 2 then update.maxHintLevel else None,
      if n > 3 then update.courseLevel else None,
      if n > 4 then update.assessmentMode else None)
  }

  /** `if value is not None: updated[key] = value` for the field at position `i`. */
  function SetField(g: Guardrails, update: GuardrailsUpdate, i: nat): Guardrails
    requires i < FieldCount
  {
    if i == 0 then g.(allowFinalAnswer := update.allowFinalAnswer.GetOr(g.allowFinalAnswer))
    else if i == 1 then g.(allowCode := update.allowCode.GetOr(g.allowCode))
    else if i == 2 then g.(maxHintLevel := update.maxHintLevel.GetOr(g.maxHintLevel))
    else if i == 3 then g.(courseLevel := update.courseLevel.GetOr(g.courseLevel))
    else g.(assessmentMode := update.assessmentMode.GetOr(g.assessmentMode))
  }

  /** Setting one more field extends the merge of the fields before it. */
  lemma UptoStep(current: Guardrails, update: GuardrailsUpdate, i: nat)
    requires i < FieldCount
    ensures Merge(current, Upto(update, i + 1)) == SetField(Merge(current, Upto(update, i)), update, i)
  {
  }

  /** Nothing before the first field; everything up to the last. */
  lemma UptoEnds(update: GuardrailsUpdate)
    ensures Upto(update, 0) == EmptyUpdate
    ensures Upto(update, FieldCount) == update
  {
  }

  datatype Session = Session(id: Id, courseId: Id, studentId: string, createdAt: nat)

  datatype Source = Source(filename: string, chunkIndex: int)

  /** Who wrote a chat message. */
  datatype Speaker = User | Assistant

  /** A chat message; stored rows carry no sources, responses may. */
  datatype ChatMessage = ChatMessage(
    id: Id,
    sessionId: Id,
    role: Speaker,
    content: string,
    hintLevel: Option<int>,
    createdAt: nat,
    sources: Option<seq<Source>>)

  /** The non-null hint levels of the messages, in order. */
  function HintLevels(ms: seq<ChatMessage>): (r: seq<int>)
    ensures |r| <= |ms|
    ensures forall k :: 0 <= k < |r| ==> exists j :: 0 <= j < |ms| && ms[j].hintLevel == Some(r[k])
    ensures forall j :: 0 <= j < |ms| && ms[j].hintLevel.Some? ==> ms[j].hintLevel.value in r
    decreases |ms|
  {
    if ms == [] then []
    else
      var rest := HintLevels(ms[..|ms| - 1]);
      var last := ms[|ms| - 1];
      assert forall j :: 0 <= j < |ms| - 1 ==> ms[..|ms| - 1][j] == ms[j];
      if last.hintLevel.Some? then rest + [last.hintLevel.value] else rest
  }

  /** A chat request; `requestHintIncrease` defaults to false when the client leaves it out. */
  datatype ChatRequest = ChatRequest(sessionId: Id, message: string, requestHintIncrease: bool)

  /** The hint controller's possible decisions. */
  datatype Action = Answer | AnswerWithIntegrityRefusal | RefuseOutOfScope

  /** The wire name of an action. */
  function ActionName(a: Action): string {
    match a
    case Answer => "answer"
    case AnswerWithIntegrityRefusal => "answer_with_integrity_refusal"
    case RefuseOutOfScope => "refuse_out_of_scope"
  }

  /** Reads an action from its wire name; any other text is rejected by the output's validator. */
  function ParseAction(s: string): (r: Option<Action>)
    ensures r.Some? ==> ActionName(r.value) == s
  {
    if s == "answer" then Some(Answer)
    else if s == "answer_with_integrity_refusal" then Some(AnswerWithIntegrityRefusal)
    else if s == "refuse_out_of_scope" then Some(RefuseOutOfScope)
    else None
  }

  /** Action names round-trip through `ParseAction`. */
  lemma ParseActionName(a: Action)
    ensures ParseAction(ActionName(a)) == Some(a)
  {
  }

  datatype ChatResponse = ChatResponse(message: ChatMessage, hintLevel: int, action: Action)

  /** A retrieved course excerpt (its similarity score is not modelled). */
  datatype Excerpt = Excerpt(filename: string, chunkIndex: int, content: string)

  datatype UploadResponse = UploadResponse(success: bool, filename: string, chunksCreated: nat)

  /** What the session has used so far; the source's defaults are both 0. */
  datatype HintState = HintState(hintLevelUsed: int, numberOfHintsGiven: nat)

  const InitialHintState: HintState := HintState(0, 0)

  datatype HintControllerInput = HintControllerInput(
    studentMessage: string,
    guardrails: Guardrails,
    hintState: HintState,
    excerptHitCount: nat)

  /** The controller's validated decision: its hint level is always within 0..3. */
  datatype HintControllerOutput = HintControllerOutput(action: Action, hintLevel: HintLevel, notesForAssistant: string)
}
