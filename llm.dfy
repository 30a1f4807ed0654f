/**
 * The deterministic parts of the two model calls: the hint controller's
 * raw JSON decision is clamped to the course's maximum hint level and
 * given defaults, and the student assistant's prompt gets a numbered
 * block per excerpt, while its sources are the excerpts, in order. The
 * models themselves are function parameters.
 */
module Llm {
  import opened Wrappers
  import opened Seqs
  import opened Text
  import opened Models

  // ---------------------------------------------------------------------------
  // run_hint_controller
  // ---------------------------------------------------------------------------

  /** The fields of the controller's JSON reply; an absent key is `None`. */
  datatype RawDecision = RawDecision(hintLevel: Option<int>, action: Option<string>, notes: Option<string>)

  function Min(a: int, b: int): (r: int)
    ensures r <= a && r <= b && (r == a || r == b)
  {
    if a <= b then a else b
  }

  function Max(a: int, b: int): (r: int)
    ensures r >= a && r >= b && (r == a || r == b)
  {
    if a >= b then a else b
  }

  /**
   * The post-processing of `run_hint_controller`: the hint level (0 when
   * absent) clamped to the maximum, the action defaulting to "answer" and
   * the notes to "". The output's validators then reject a negative level
   * or an action that is not one of the three names.
   */
  function ClampDecision(raw: RawDecision, guardrails: Guardrails): (r: Result<HintControllerOutput, string>)
    ensures r.Success? ==> r.value.hintLevel == Min(raw.hintLevel.GetOr(0), guardrails.maxHintLevel)
    ensures r.Success? ==> r.value.hintLevel <= guardrails.maxHintLevel
    ensures r.Success? ==> ActionName(r.value.action) == raw.action.GetOr("answer")
    ensures r.Success? ==> r.value.notesForAssistant == raw.notes.GetOr("")
    ensures r.Failure? <==> raw.hintLevel.GetOr(0) < 0 || ParseAction(raw.action.GetOr("answer")).None?
  {
    var level := Min(raw.hintLevel.GetOr(0), guardrails.maxHintLevel);
    match ParseAction(raw.action.GetOr("answer"))
    case None => Failure("action is not one of the allowed values")
    case Some(action) =>
      if level < 0 then Failure("hint_level must be at least 0")
      else Success(HintControllerOutput(action, level, raw.notes.GetOr("")))
  }

  /** An empty reply is the default decision: answer at hint level 0 with no notes. */
  lemma EmptyDecision(guardrails: Guardrails)
    ensures ClampDecision(RawDecision(None, None, None), guardrails) == Success(HintControllerOutput(Answer, 0, ""))
  {
  }

  /** A level within the maximum is kept as it is. */
  lemma ClampKeeps(raw: RawDecision, guardrails: Guardrails, level: int)
    requires raw.hintLevel == Some(level) && 0 <= level <= guardrails.maxHintLevel
    requires ParseAction(raw.action.GetOr("answer")).Some?
    ensures ClampDecision(raw, guardrails).Success? && ClampDecision(raw, guardrails).value.hintLevel == level as HintLevel
  {
  }

  /** `run_hint_controller`: the model's decision on the input, post-processed. */
  function RunHintController(decide: HintControllerInput -> RawDecision, input: HintControllerInput): (r: Result<HintControllerOutput, string>)
    ensures r.Success? ==> r.value.hintLevel <= input.guardrails.maxHintLevel
    ensures r == ClampDecision(decide(input), input.guardrails)
  {
    ClampDecision(decide(input), input.guardrails)
  }

  // ---------------------------------------------------------------------------
  // run_student_assistant
  // ---------------------------------------------------------------------------

  /** The prompt block of the excerpt at position `i`, numbered from 1. */
  function ExcerptBlock(i: nat, e: Excerpt): (r: string)
    ensures r != [] && r[0] == '\n'
  {
    "\n--- Excerpt " + NatToString(i + 1) + " ---\nFilename: " + e.filename
      + "\nChunk ID: " + IntToString(e.chunkIndex)
      + "\nContent:\n" + e.content + "\n---\n"
  }

  /** The blocks of all excerpts, in order. */
  function ExcerptBlocks(excerpts: seq<Excerpt>): string
    decreases |excerpts|
  {
    if excerpts == [] then ""
    else ExcerptBlocks(excerpts[..|excerpts| - 1]) + ExcerptBlock(|excerpts| - 1, excerpts[|excerpts| - 1])
  }

  /** The excerpt text is built block by block, numbering each excerpt by its position. */
  method ExcerptsText(excerpts: seq<Excerpt>) returns (text: string)
    ensures text == ExcerptBlocks(excerpts)
  {
    text := "";
    for i := 0 to |excerpts|
      invariant text == ExcerptBlocks(excerpts[..i])
    {
      assert excerpts[..i + 1][..i] == excerpts[..i];
      text := text + ExcerptBlock(i, excerpts[i]);
    }
    assert excerpts[..|excerpts|] == excerpts;
  }

  /** The block of the excerpt at position `i` follows those of the excerpts before it. */
  lemma BlocksInOrder(excerpts: seq<Excerpt>, i: nat)
    requires i < |excerpts|
    ensures ExcerptBlocks(excerpts[..i + 1]) == ExcerptBlocks(excerpts[..i]) + ExcerptBlock(i, excerpts[i])
  {
    assert excerpts[..i + 1][..i] == excerpts[..i];
  }

  /** The blocks of a prefix of the excerpts start the blocks of all of them. */
  lemma {:induction false} BlocksPrefix(excerpts: seq<Excerpt>, i: nat)
    requires i <= |excerpts|
    ensures ExcerptBlocks(excerpts[..i]) <= ExcerptBlocks(excerpts)
    decreases |excerpts| - i
  {
    if i < |excerpts| {
      BlocksPrefix(excerpts, i + 1);
      BlocksInOrder(excerpts, i);
    } else {
      assert excerpts[..i] == excerpts;
    }
  }

  /** Excerpt text starts with a line break (so it is never the fixed note). */
  lemma {:induction false} BlocksStart(excerpts: seq<Excerpt>)
    requires excerpts != []
    ensures ExcerptBlocks(excerpts)[0] == '\n'
    decreases |excerpts|
  {
    var init := excerpts[..|excerpts| - 1];
    if init != [] {
      BlocksStart(init);
    }
  }

  /** There is excerpt text exactly when there are excerpts. */
  lemma BlocksEmpty(excerpts: seq<Excerpt>)
    ensures ExcerptBlocks(excerpts) == "" <==> excerpts == []
  {
  }

  /** The EXCERPTS section of the prompt: the blocks, or the fixed note when there are none. */
  function ExcerptsSection(excerpts: seq<Excerpt>): (r: string)
    ensures excerpts == [] <==> r == "No excerpts available."
  {
    var text := ExcerptBlocks(excerpts);
    BlocksEmpty(excerpts);
    if excerpts != [] then
      BlocksStart(excerpts);
      text
    else "No excerpts available."
  }

  function SourceOf(e: Excerpt): Source { Source(e.filename, e.chunkIndex) }

  /** The sources returned with an answer: one per excerpt, in order, with its filename and chunk index. */
  function Sources(excerpts: seq<Excerpt>): (r: seq<Source>)
    ensures |r| == |excerpts|
    ensures forall k :: 0 <= k < |r| ==> r[k].filename == excerpts[k].filename && r[k].chunkIndex == excerpts[k].chunkIndex
  {
    Map(excerpts, SourceOf)
  }

  /** What the student assistant is given: the fields of its user prompt. */
  datatype AssistantInput = AssistantInput(
    studentMessage: string,
    hintLevel: int,
    guardrails: Guardrails,
    controllerNotes: string,
    excerpts: string)

  /**
   * `run_student_assistant`: the model's reply to a prompt holding the
   * excerpt section, and the excerpts' sources.
   */
  method RunStudentAssistant(reply: AssistantInput -> string, studentMessage: string, excerpts: seq<Excerpt>,
                             guardrails: Guardrails, hintLevel: int, controllerNotes: string)
    returns (content: string, sources: seq<Source>)
    ensures content == reply(AssistantInput(studentMessage, hintLevel, guardrails, controllerNotes, ExcerptsSection(excerpts)))
    ensures sources == Sources(excerpts)
  {
    var text := ExcerptsText(excerpts);
    var section := if text != "" then text else "No excerpts available.";
    BlocksEmpty(excerpts);
    content := reply(AssistantInput(studentMessage, hintLevel, guardrails, controllerNotes, section));
    sources := Sources(excerpts);
  }
}
