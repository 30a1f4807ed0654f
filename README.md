# TAI: a verified model of the course teaching assistant

TAI is a course teaching assistant. Teachers create courses with a class
code, upload course materials and set per-course guardrails. Students join
a course by its code and chat with an assistant that answers from the
uploaded materials and gives graded hints (levels 0 to 3). A FastAPI
backend keeps the data in Supabase tables. A Next.js client keeps a small
identity in the browser's `localStorage` and renders the chat.

This project models the deterministic core of both halves in Dafny and
proves properties of that model:

- **`Chunking`** (`chunking.dfy`): the text chunker `chunk_text`, a greedy
  packer over a token budget.
  - It normalises lines and splits the text into paragraphs.
  - It packs paragraphs up to the target size.
  - A paragraph larger than 1.5 times the target is broken into sentences,
    and the last two pending items carry over between chunks.
  - The chunker is a `method` with the source's loops. It is proved equal
    to a fold function, and the properties are proved about that fold.
- **`Store`** (`store.dfy`): the Supabase tables as a `class Database`,
  with one `seq` field per table, a `map` for guardrail rows and one for
  the storage bucket, plus an id counter. `Consistent` states the
  invariants every endpoint keeps:
  - class codes are unique and upper-cased;
  - device ids are unique;
  - every stored id and time stamp lies below the id counter, so the ids `NewId` hands out are new;
  - messages and files are stored in `created_at` order.
- **`Courses`, `Users`, `Chat`, `Upload`**: the router endpoints as
  methods over the database.
  - The checks of each endpoint and its error statuses are modelled as a
    `Result`.
  - Each endpoint's effect is stated as a function of the old tables, and
    lemmas prove what the source promises about it.
- **`Llm`**: the post-processing of the two model calls. The hint
  controller's decision is clamped and given defaults; the excerpt text is
  built block by block; the answer's sources come from the excerpts.
- **`Models`**: the records, with the field validators' ranges as subset
  types. `HintLevel` holds 0 to 3 and is used for `max_hint_level` and the
  controller's `hint_level`.
- **`Browser`**: the identity store in `frontend/lib/utils.ts`, as a
  `class LocalStorage` over a `map` of keys.
- **`Bubble`**: how `MessageBubble` shows a message.
  - It splits the content on `**bold**` and `` `code` `` spans.
  - It renders each piece by its ends.
  - It flags refusals and decides when the hint level and the sources are
    shown.
- **`ChatWindow`**: the draft and the hint requests of the chat window, the
  button rules of `HintControls` and its level dots.
- **`Pages`**: the role selection at "/" and the teacher's and the
  student's home pages. Each is a class over its React state, with the
  redirects, the input guards, code normalisation and the course list
  de-duplicated by id.

Some calls go to code this model cannot see: the language models,
retrieval, embeddings, token counting, PDF extraction, UTF-8 decoding, the
clock and the random number generator. Each is a parameter of function
type. Backend calls made by the pages are parameters too; a result of
`None` stands for a request that failed.

Shared helpers:
- `Wrappers` holds `Option` and `Result`.
- `Seqs` holds filters, maps and distinct elements.
- `Text` models Python's and JavaScript's `strip`/`trim`, `split`, `join`
  and ASCII case mapping.

## Model

| member | source | states |
|---|---|---|
| Chunking.SentencePieces | backend/app/services/chunking.py:114 | the shape of the pieces between `(?<=[.!?])\s+` matches: at least one, none holding a break, all but the last ending in '.', '!' or '?' |
| Chunking.SentencePiecesWeave | backend/app/services/chunking.py:114 | the split cuts only at whitespace: the pieces with the removed runs put back between them give the text, in order |
| Chunking.SentencePiecesHead | backend/app/services/chunking.py:114 | the first piece is the text from where the split resumes |
| Chunking.SentenceRuns | backend/app/services/chunking.py:114 | each removed run is non-empty whitespace right after a piece ending in '.', '!' or '?', and it is removed whole: the next piece does not start with whitespace |
| Chunking.SplitIntoSentences | backend/app/services/chunking.py:109-115 | every sentence is non-empty and stripped, holds no mark followed by whitespace, and all but the last end in '.', '!' or '?' |
| Chunking.SentencesKeepText | backend/app/services/chunking.py:109-115 | the sentences put together hold exactly the text's non-whitespace characters, in order |
| Chunking.NonSpaceStrip | backend/app/services/chunking.py:115 | stripping a piece removes only whitespace |
| Chunking.NonSpaceWeave | backend/app/services/chunking.py:114 | putting the whitespace runs back between the pieces adds no other character |
| Chunking.NonSpaceStripNonBlank | backend/app/services/chunking.py:115 | stripping the pieces and dropping the blank ones removes only whitespace |
| Chunking.SentencesOfVisible | backend/app/services/chunking.py:109-115 | a text with a non-whitespace character yields at least one sentence |
| Chunking.CleanPiecesNoBreak | backend/app/services/chunking.py:115 | stripping the pieces and dropping blank ones keeps every piece free of breaks |
| Chunking.CleanPiecesTerminal | backend/app/services/chunking.py:115 | stripping and dropping blank pieces keeps every piece but the last ending a sentence |
| Chunking.Paragraphs | backend/app/services/chunking.py:54-58 | each paragraph of the normalised text is non-empty and stripped |
| Chunking.NormalizeLines | backend/app/services/chunking.py:54-55 | the text stripped, then each of its lines stripped and the lines re-joined with "\n"; `NormalizeBlank` proves it keeps blankness |
| Chunking.NormalizeBlank | backend/app/services/chunking.py:54-55 | normalising the lines gives "" for a blank text and a non-blank text otherwise |
| Chunking.ParagraphsIff | backend/app/services/chunking.py:54-58 | there are no paragraphs exactly when the text is blank |
| Chunking.ChunkerSplitsVisibly | backend/app/services/chunking.py:76 | the sentence splitter turns a non-blank paragraph into non-blank sentences |
| Chunking.Flush | backend/app/services/chunking.py:70-73 | a flush empties the pending list and appends its items joined by "\n\n" as one chunk, or changes nothing when nothing is pending |
| Chunking.Chunked | backend/app/services/chunking.py:40-106 | every chunk is non-empty and has no leading or trailing whitespace |
| Chunking.Overlap | backend/app/services/chunking.py:83 | the last two pending items joined by " ", or "" with fewer than two; `OverlapVisible` proves it non-blank for non-blank items |
| Chunking.AddSentence | backend/app/services/chunking.py:77-88 | one sentence: a chunk joined by " " is closed and the overlap carried when it would not fit, else the sentence is appended; `AddSentenceTracked` and `SentenceOverlap` state it |
| Chunking.AddParagraph | backend/app/services/chunking.py:64-97 | one paragraph: flushed and cut into sentences when large, else appended after a flush when it would not fit; `AddParagraphTracked`, `GreedyStep` and `LargeParagraphFlushesFirst` state it |
| Chunking.Finish | backend/app/services/chunking.py:99-104 | the last flush, then the chunks stripped and the blank ones dropped; `FinishPending` and `JoinedGroupsKept` state it |
| Chunking.OverlapVisible | backend/app/services/chunking.py:83-84 | with two or more non-blank pending items the overlap is non-blank, so it is carried |
| Chunking.AddSentenceTracked | backend/app/services/chunking.py:78-88 | after a sentence, `current_tokens` is still the token total of the pending items and all of them are non-blank |
| Chunking.AddSentencesTracked | backend/app/services/chunking.py:77-88 | the sentence loop keeps the token total tracked |
| Chunking.AddParagraphTracked | backend/app/services/chunking.py:64-97 | one paragraph, large or not, keeps the token total tracked |
| Chunking.LargeParagraphTracked | backend/app/services/chunking.py:68-88 | the flush and the sentence loop of a large paragraph keep the token total tracked |
| Chunking.AddParagraphsTracked | backend/app/services/chunking.py:64-97 | the paragraph loop keeps the token total tracked |
| Chunking.AddParagraphPending | backend/app/services/chunking.py:87-96 | after a non-blank paragraph something is pending |
| Chunking.FinishPending | backend/app/services/chunking.py:100-104 | pending non-blank items survive the final flush and filter as a chunk |
| Chunking.ChunkedEmptyIff | backend/app/services/chunking.py:54-104 | the chunk list is empty exactly when the text is empty or whitespace only |
| Chunking.AddSentencesLast | backend/app/services/chunking.py:87 | the last sentence added is the last pending item |
| Chunking.GreedySnoc | backend/app/services/chunking.py:91-97 | starting a new group with a paragraph that did not fit the previous one keeps the grouping greedy |
| Chunking.GreedyGrowLast | backend/app/services/chunking.py:91-97 | growing the last group while it stays within the target keeps the grouping greedy |
| Chunking.GreedyClose | backend/app/services/chunking.py:91-94 | a paragraph that would push the pending total past the target closes the pending group first |
| Chunking.GreedyGrow | backend/app/services/chunking.py:96-97 | a paragraph that fits, or meets an empty pending list, joins the pending group |
| Chunking.GreedyStep | backend/app/services/chunking.py:89-97 | before a non-large paragraph is appended, either nothing is pending or the total stays within the target; otherwise the pending chunk is flushed first |
| Chunking.GreedyPrefix | backend/app/services/chunking.py:64-97 | packing paragraphs none of which is large is a greedy grouping of them, in order |
| Chunking.JoinedGroupsKept | backend/app/services/chunking.py:104 | groups of stripped non-empty paragraphs joined by "\n\n" pass the final filter unchanged |
| Chunking.GreedyChunks | backend/app/services/chunking.py:64-104 | packing such paragraphs makes greedy groups whose items are exactly the paragraphs, in order, and the chunks are the groups joined by "\n\n" |
| Chunking.NoLargeParagraphs | backend/app/services/chunking.py:64-101 | when no paragraph exceeds 1.5 times the target, every paragraph lands in exactly one chunk, in input order, and the chunks are greedy groups joined by "\n\n" |
| Chunking.AddSentencesExtends | backend/app/services/chunking.py:77-88 | the sentence loop only appends chunks |
| Chunking.SentencesAfterFlush | backend/app/services/chunking.py:69-88 | sentences added after a flush keep the earlier chunks and the flushed one |
| Chunking.LargeParagraphFlushesFirst | backend/app/services/chunking.py:68-77 | a large paragraph first emits the pending items as their own chunk, keeps the earlier chunks, and ends with its last sentence pending |
| Chunking.SentenceOverlap | backend/app/services/chunking.py:80-88 | a sentence that does not fit closes the pending items as a chunk joined by " "; the next chunk starts with the last two of them joined by " " when there were two, else empty, then the sentence |
| Chunking.PackSentences | backend/app/services/chunking.py:77-88 | the sentence loop over the running state computes the sentence fold |
| Chunking.PackParagraph | backend/app/services/chunking.py:64-97 | one iteration of the paragraph loop computes the paragraph step |
| Chunking.PackParagraphs | backend/app/services/chunking.py:60-98 | the paragraph loop from the empty state computes the paragraph fold |
| Chunking.ChunkText | backend/app/services/chunking.py:40-106 | the chunks are the chunking of the text; every chunk is non-empty and stripped, and there is none exactly when the text is blank |
| Courses.CreateCourse | backend/app/routers/courses.py:9-36 | 400 "Class code already exists" with no change when a course holds the upper-cased code; otherwise the course is appended with the upper-cased code and a guardrails row holding the defaults, and nothing else changes; the tables stay consistent |
| Courses.AddCourseConsistent | backend/app/routers/courses.py:15-34 | storing a course with a fresh id and an upper-cased code no course holds keeps codes unique and upper-cased, and all other invariants |
| Courses.UniqueCodesSnoc | backend/app/routers/courses.py:15-23 | a course whose code no stored course holds keeps the class codes unique |
| Courses.UpperCodesSnoc | backend/app/routers/courses.py:22 | an upper-cased code keeps every stored code upper-cased |
| Courses.CreatedCodeTaken | backend/app/routers/courses.py:15-17 | once created, the same code in any letter case is found, so a second create with it is refused |
| Courses.NewCourseGuardrails | backend/app/routers/courses.py:31-34 | a newly created course reads back the default guardrails |
| Courses.MissingGuardrails | backend/app/routers/courses.py:69-71 | a course with no guardrails row reads the defaults, whatever other courses hold |
| Courses.GetGuardrails | backend/app/routers/courses.py:64-73 | `get_guardrails`: the course's stored row, or the defaults when there is none; `NewCourseGuardrails`, `MissingGuardrails` and `UpdateThenGet` state it |
| Courses.MergeLoop | backend/app/routers/courses.py:85-88 | the loop over the update's fields assigns exactly the set, non-null fields, giving the merge of the update into the current guardrails |
| Courses.UpdateGuardrails | backend/app/routers/courses.py:76-96 | the current guardrails (or the defaults) merged with the update are stored as the course's row and returned; no other table changes |
| Courses.UpdateThenGet | backend/app/routers/courses.py:91-96 | after the upsert, reading the course's guardrails gives the merged value that was returned |
| Courses.UpdateIdempotent | backend/app/routers/courses.py:82-96 | applying the same update twice stores and returns the same guardrails as applying it once |
| Courses.GetSessionMessages | backend/app/routers/courses.py:115-124 | exactly the session's messages: each result is a stored message of the session, and every such message is in the result (`[]` when there is none) |
| Courses.SessionMessagesAscending | backend/app/routers/courses.py:120-122 | with messages stored in `created_at` order, the session's messages come out ascending by `created_at` |
| Courses.GetCourseFiles | backend/app/routers/courses.py:143-152 | exactly the course's files |
| Courses.CourseFilesDescending | backend/app/routers/courses.py:148-150 | with files stored in `created_at` order, the course's files come out descending by `created_at` |
| Courses.FileOfCourse | backend/app/routers/courses.py:161-163 | the file found has the id and belongs to the course; none is found exactly when no stored file has both |
| Courses.RemoveFileChunks | backend/app/routers/courses.py:171 | the chunks left are exactly those of other files |
| Courses.RemoveFile | backend/app/routers/courses.py:174 | the file records left are exactly the other files |
| Courses.DeleteCourseFile | backend/app/routers/courses.py:155-182 | 404 "File not found" with no change unless the file belongs to the course; otherwise its chunks and its record are removed, other files and chunks are kept, the storage object goes only when the storage call succeeds, and the deleted filename is returned |
| Courses.RemoveFileConsistent | backend/app/routers/courses.py:170-180 | removing a file's chunks and record, whatever happens to storage, keeps the tables consistent |
| Courses.Question | backend/app/routers/courses.py:256 | a quoted question is the first at most 100 characters of the message |
| Courses.ActivityItemOf | backend/app/routers/courses.py:242-257 | a session without messages gets no item; an item carries the session and student ids, the number of the session's messages, the `created_at` of its newest message, exactly the set of its non-null hint levels without repetition, and the first 100 characters of its three newest user messages, newest first |
| Courses.DistinctLevels | backend/app/routers/courses.py:253-256 | `list(set(...))` of the non-null levels holds exactly the levels used |
| Courses.ActivityItems | backend/app/routers/courses.py:241-257 | every item is well formed for one of the sessions, and there are no more items than sessions |
| Courses.ActivityItemsExact | backend/app/routers/courses.py:241-257 | one item for each session that has messages and for no other, in session order: item k is that of the k-th such session |
| Courses.CollectItems | backend/app/routers/courses.py:241-257 | the loop over the listed sessions appends exactly their items, in session order |
| Courses.GetCourseActivity | backend/app/routers/courses.py:206-265 | the summary is that of the course's sessions and their messages, newest first |
| Courses.ActivityWithoutSessions | backend/app/routers/courses.py:216-223 | a course without sessions has all counts 0 and no items |
| Courses.ActivityBounds | backend/app/routers/courses.py:225-262 | `total_sessions` is the number of sessions, `total_messages` the number of their messages, `unique_students` the size of the set of their student ids; at most 10 items, each for one of the course's first ten sessions |
| Courses.Activity | backend/app/routers/courses.py:206-265 | `get_course_activity` on the tables: all zero without sessions, else the counts, the hint total and the items of the first ten sessions; `ActivityBounds` and `ActivityWithoutSessions` state it |
| Users.SetRole | backend/app/routers/users.py:47-49 | every row with the id gets the role; ids, device ids, display names and timestamps stay |
| Users.SetRoleKeepsDevices | backend/app/routers/users.py:46-50 | changing a role keeps device ids unique and each device finds the same row |
| Users.AddUserConsistent | backend/app/routers/users.py:53-58 | a user for a device no stored user has, with a fresh id, keeps at most one user per device and all other invariants |
| Users.SetRoleConsistent | backend/app/routers/users.py:46-50 | changing a role keeps the tables consistent |
| Users.CreateOrGetUser | backend/app/routers/users.py:33-63 | an existing device's user is returned with the requested role, its stored role updated when it differed and nothing inserted; a new device gets exactly one new user; afterwards the device finds the returned user |
| Users.NewUserFound | backend/app/routers/users.py:53-63 | a user appended for a new device is the one that device then finds |
| Users.GetUser | backend/app/routers/users.py:66-75 | the user with the id, or 404 "User not found" exactly when there is none |
| Users.UserCourseIds | backend/app/routers/users.py:84-91 | an id is listed exactly when the user holds a membership of that course |
| Users.GetUserCourses | backend/app/routers/users.py:78-98 | exactly the stored courses whose id is among the user's memberships, and `[]` when the user has none |
| Users.JoinCourse | backend/app/routers/users.py:101-139 | 404 "Course not found" when no course holds the upper-cased code, then 404 "User not found"; otherwise the course is returned and a membership with the user's role is added unless one exists; only memberships change |
| Users.JoinedIsMember | backend/app/routers/users.py:132-137 | an added membership makes its user a member and keeps every earlier membership |
| Users.WithoutMembership | backend/app/routers/users.py:147-149 | the pair's membership is gone and every other (user, course) pair is a member exactly as before |
| Users.LeaveCourse | backend/app/routers/users.py:142-151 | only the (user, course) memberships are removed, nothing else changes, and it succeeds even when there was none |
| Users.LeaveAfterJoin | backend/app/routers/users.py:132-149 | leaving a course just joined ends the membership, and joining again restores it |
| Chat.HintStateOf | backend/app/routers/chat.py:58-68 | the hint state of a session's stored messages; `HintStateByLevels` proves it is `max` (or 0) and `len` of the session's non-null assistant levels, and `HintStateSpec` states each field |
| Chat.MaxOf | backend/app/routers/chat.py:66 | `max` of a non-empty list is an element of it and no element exceeds it |
| Chat.StepOfLevels | backend/app/routers/chat.py:62-68 | one more message extends the list of levels by its level exactly when it is an answer in the session with a level |
| Chat.HintStateSpec | backend/app/routers/chat.py:58-68 | `hint_level_used` is the highest level among the session's answers with a level (0 when there is none), and `number_of_hints_given` is 0 exactly when no answer has a level |
| Chat.HintStateByLevels | backend/app/routers/chat.py:58-68 | the message-by-message hint state equals `max` (or 0) and `len` of the levels of the session's assistant messages that are not null |
| Chat.HintStateIgnoresQuestions | backend/app/routers/chat.py:48-60 | the student's message stored first does not change the hint state, since only assistant rows are selected |
| Chat.HintStateAfterAnswer | backend/app/routers/chat.py:58-68 | an answer stored with a level counts one more hint and raises the level used to at least its level |
| Chat.Bumped | backend/app/routers/chat.py:71-72 | a hint-increase request adds one to the hint count exactly when a hint was already given; the level used never changes |
| Chat.ControllerInput | backend/app/routers/chat.py:75-80 | the `HintControllerInput`: the student's message, the course guardrails, the hint state bumped on request and the excerpt count; `ControllerSeesEarlierAnswers` proves its hint state is that of the earlier answers |
| Chat.StoreQuestion | backend/app/routers/chat.py:48-52 | the student's message is appended as a user row of the session under a fresh id; nothing else changes |
| Chat.StoreAnswer | backend/app/routers/chat.py:87-123 | an assistant row with the content and level is appended under a fresh id; nothing else changes |
| Chat.AddMessageConsistent | backend/app/routers/chat.py:48-52 | one appended message with a fresh id and time keeps the tables consistent |
| Chat.AddMessagesConsistent | backend/app/routers/chat.py:48-123 | the question and the answer appended in turn keep the tables consistent |
| Chat.Chat | backend/app/routers/chat.py:24-137 | 404 "Session not found" with no change for an unknown session; otherwise the question is stored, the course's guardrails (or the defaults) and the excerpts go to the controller, and a refusal or the assistant's answer is stored and returned; a rejected decision is a 500 with the question stored |
| Chat.Converse | backend/app/routers/chat.py:37-137 | for a found session: the question is stored, then either a 500 or the answer for the decision stored and its response returned; the tables stay consistent |
| Chat.Conversed | backend/app/routers/chat.py:48-137 | the tables and result of one turn: the question is stored; a rejected controller reply is a 500 with nothing more written; otherwise `AnswerFor` is stored under the next id and `ResponseFor` returned; `Converse` and `Chat` are proved to reach it |
| Chat.AnswerFor | backend/app/routers/chat.py:85-123 | the stored assistant row: the refusal text at level 0 for `refuse_out_of_scope`, otherwise the assistant's reply at the controller's level; `RefusalResponse` and `AnswerResponse` state both cases |
| Chat.ResponseFor | backend/app/routers/chat.py:94-137 | the `ChatResponse`: the stored row with no sources for a refusal and the excerpts' sources otherwise, its level and the action; `RefusalResponse` and `AnswerResponse` state both cases |
| Chat.RefusalResponse | backend/app/routers/chat.py:85-106 | a refusal stores the fixed message at hint level 0 and returns it with an empty source list, level 0 and `refuse_out_of_scope` |
| Chat.AnswerResponse | backend/app/routers/chat.py:108-137 | any other action stores an assistant row at the controller's level and returns that level, the action and one source per excerpt |
| Chat.Respond | backend/app/routers/chat.py:84-137 | exactly one assistant row, the answer for the decision, is appended and its response returned |
| Chat.ControllerSeesEarlierAnswers | backend/app/routers/chat.py:48-80 | the hint state handed to the controller is that of the session's earlier answers, bumped on request, although the question was stored before |
| Chat.AnswerLevelBounded | backend/app/routers/chat.py:82-113 | whatever the controller replies, the level handed to the assistant lies between 0 and the course's `max_hint_level` |
| Llm.ClampDecision | backend/app/services/llm.py:38-45 | the level is `min` of the reply's level (0 when absent) and `max_hint_level`, the action defaults to "answer" and the notes to ""; the output's validators reject the decision exactly when that level is negative or the action is not one of the three names |
| Llm.EmptyDecision | backend/app/services/llm.py:39-45 | a reply with none of the keys is the decision to answer at level 0 with no notes |
| Llm.ClampKeeps | backend/app/services/llm.py:39 | a level between 0 and the maximum is kept unchanged |
| Llm.RunHintController | backend/app/services/llm.py:11-45 | the controller's output is the model's reply on the input, post-processed, and its level never exceeds the course's maximum |
| Llm.ExcerptBlock | backend/app/services/llm.py:65-72 | an excerpt's block is non-empty and starts with a line break |
| Llm.ExcerptBlocks | backend/app/services/llm.py:63-73 | the numbered blocks of the excerpts, in order; `BlocksInOrder`, `BlocksPrefix` and `ExcerptsText` state it |
| Llm.ExcerptsText | backend/app/services/llm.py:63-72 | the loop builds the blocks of all excerpts, in order, numbered from 1 |
| Llm.BlocksInOrder | backend/app/services/llm.py:64-65 | the block of excerpt `i` comes right after the blocks of the excerpts before it |
| Llm.BlocksPrefix | backend/app/services/llm.py:64-65 | the blocks of the first `i` excerpts start the whole excerpt text |
| Llm.BlocksStart | backend/app/services/llm.py:65 | non-empty excerpt text starts with a line break |
| Llm.BlocksEmpty | backend/app/services/llm.py:63-72 | the excerpt text is empty exactly when there are no excerpts |
| Llm.ExcerptsSection | backend/app/services/llm.py:82-83 | the EXCERPTS section is "No excerpts available." exactly when there are no excerpts |
| Llm.Sources | backend/app/services/llm.py:96-100 | one source per excerpt, in order, with its filename and chunk index |
| Llm.RunStudentAssistant | backend/app/services/llm.py:48-102 | the content is the model's reply to the prompt holding the excerpt section, and the sources are those of the excerpts |
| Models.ParseRole | backend/app/routers/users.py:13 | only the texts "student" and "teacher" are roles, and a role read back names that text |
| Models.ParseRoleName | backend/app/routers/users.py:20 | every role's name reads back as that role |
| Models.GuardrailDefaults | backend/app/models.py:22-28 | the `Guardrails` defaults (`DefaultGuardrails`): no final answers, no code, a maximum hint level of 2, university level, homework mode |
| Models.MergeFields | backend/app/routers/courses.py:85-88 | each merged field is the update's value when it is set and not null, and the current value otherwise |
| Models.Merge | backend/app/routers/courses.py:85-88 | the current guardrails with each set, non-null field of the update replacing its value; `MergeFields`, `MergeIdempotent` and `MergeEmpty` state it |
| Models.MergeIdempotent | backend/app/routers/courses.py:85-88 | merging the same update twice gives the same guardrails as merging it once |
| Models.MergeEmpty | backend/app/models.py:31-36 | an update whose fields all keep their `None` defaults changes nothing |
| Models.UptoStep | backend/app/routers/courses.py:86-88 | handling one more field of the update extends the merge of the fields before it |
| Models.UptoEnds | backend/app/routers/courses.py:86 | before the first field nothing is merged, after the last the whole update is |
| Models.HintLevels | backend/app/routers/chat.py:63 | the non-null levels of the messages: each comes from a message, and every message's non-null level is among them |
| Models.ParseAction | backend/app/models.py:132 | only the three action names are actions, and an action read back names that text |
| Models.ParseActionName | backend/app/models.py:132 | every action's name reads back as that action |
| Upload.StoredName | backend/app/routers/upload.py:27 | the name is never empty; it is "unnamed_file" exactly when the filename is missing, empty or itself "unnamed_file" |
| Upload.KindOf | backend/app/routers/upload.py:30-36 | ".pdf" is a PDF and ".txt" or ".md" plain text, judged on the lower-cased name; `KindIgnoresCase` and `UnnamedUnsupported` state it |
| Upload.LowerUpper | backend/app/routers/upload.py:30-32 | lower-casing gives the same text whatever case the letters had |
| Upload.KindIgnoresCase | backend/app/routers/upload.py:30-35 | the file type does not depend on the case of the filename |
| Upload.UnnamedUnsupported | backend/app/routers/upload.py:27-35 | an upload without a filename is always refused as an unsupported type |
| Upload.TextOf | backend/app/routers/upload.py:30-33 | a PDF's text comes from the PDF extractor and a `.txt` or `.md` file's from decoding its bytes; `UploadRejected` states that a blank result is refused |
| Upload.StoragePath | backend/app/routers/upload.py:41 | the bucket path `<course id>/<filename>`; `UploadAccepted` proves the bytes are stored there |
| Upload.ChunkRows | backend/app/routers/upload.py:80-90 | one row per chunk with an embedding (`zip` stops at the shorter list): row i holds chunk i, embedding i, chunk index i, the course and the file |
| Upload.UploadFile | backend/app/routers/upload.py:12-99 | the result and the new tables are those of `upload_file` on the old tables, and the tables stay consistent |
| Upload.Uploaded | backend/app/routers/upload.py:20-99 | `upload_file` on the tables: 404, the two 400s in the source's order, else the accepted upload; `UploadRejected`, `UploadAccepted` and `UploadConsistent` state it |
| Upload.Accepted | backend/app/routers/upload.py:40-99 | an accepted upload: the bytes under `StoragePath`, one file record and its chunk rows under fresh ids, and the chunk count returned; `UploadAccepted`, `NewFileRows` and `UploadedChunks` state its properties |
| Upload.StoreUpload | backend/app/routers/upload.py:40-99 | the bytes are stored, the file record and its chunk rows are appended under fresh ids, and the response counts the chunks |
| Upload.AddUploadConsistent | backend/app/routers/upload.py:59-93 | a file record and chunk rows with fresh ids keep the tables consistent |
| Upload.BelowAppend | backend/app/routers/upload.py:93 | rows with fresh keys appended after the stored ones keep every key below the new bound |
| Upload.UploadRejected | backend/app/routers/upload.py:20-38 | a rejected upload writes nothing; 404 "Course not found" exactly without the course, then 400 for an unsupported type, then 400 for a blank text |
| Upload.UploadAccepted | backend/app/routers/upload.py:40-99 | an accepted upload reports the number of chunks, at least one; it stores the bytes under `<course id>/<filename>`, appends one file record and keeps all earlier chunk rows; no other table changes |
| Upload.NewFileRows | backend/app/routers/upload.py:84-93 | after the batch insert, the rows of the new file are exactly the appended ones |
| Upload.UploadedChunks | backend/app/routers/upload.py:69-93 | the chunk rows of the new file are exactly the new rows, numbered from 0 in chunk order with the chunks' text and embeddings |
| Upload.UploadConsistent | backend/app/routers/upload.py:40-99 | an accepted upload keeps the tables consistent |
| Text.Strip | backend/app/services/chunking.py:55 | the result is empty exactly when the text is blank, otherwise it starts and ends with a non-whitespace character, and non-whitespace ends of the text survive |
| Text.StripSlice | backend/app/services/chunking.py:55 | the stripped text is a slice of the text with only whitespace around it |
| Text.StripStripped | backend/app/services/chunking.py:104 | a text that already starts and ends with non-whitespace is left alone |
| Text.Split | backend/app/services/chunking.py:58 | the pieces of a split joined with the separator give the text back, and no piece holds the separator |
| Text.JoinStripped | backend/app/services/chunking.py:100-104 | a join of stripped non-empty parts is itself stripped and non-empty |
| Text.Upper | backend/app/routers/courses.py:15-22 | every letter is upper-cased and the length is kept |
| Text.UpperIdempotent | backend/app/routers/courses.py:15-22 | upper-casing an upper-cased code changes nothing |
| Store.CourseByCode | backend/app/routers/courses.py:15 | the course found holds the code; none is found exactly when no course holds it |
| Store.CourseById | backend/app/routers/upload.py:21 | the course found has the id; none is found exactly when no course has it |
| Store.UserByDevice | backend/app/routers/users.py:39-41 | the index found is of a user with the device id; none is found exactly when no user has it |
| Store.UserById | backend/app/routers/users.py:70 | the user found has the id; none is found exactly when no user has it |
| Store.SessionById | backend/app/routers/chat.py:30-35 | the session found has the id; none is found exactly when no session has it |
| Store.Database.constructor | backend/app/db.py:1-19 | a new database has every table empty and is consistent |
| Store.Database.NewId | backend/app/routers/courses.py:19-23 | a fresh id is the next unused one, and only the counter moves |
| Browser.Substring | frontend/lib/utils.ts:9 | `substring` gives the slice when the bounds are in order and within the text, and never more than the text |
| Browser.GenerateDeviceId | frontend/lib/utils.ts:8-10 | a generated device id starts with "device_" |
| Browser.DeviceIdOf | frontend/lib/utils.ts:15-20 | a stored non-empty device id is returned, else the generated one |
| Browser.WithDeviceId | frontend/lib/utils.ts:15-19 | after the read the device key holds the returned id, and every other key is unchanged |
| Browser.DeviceIdStable | frontend/lib/utils.ts:12-21 | once a device id is stored, later reads return it and store nothing |
| Browser.RoleOf | frontend/lib/utils.ts:35-37 | a role is read exactly when the stored text is "student" or "teacher", and it names that text |
| Browser.RoleRoundTrip | frontend/lib/utils.ts:33-43 | a role that is set is read back |
| Browser.UserIdRoundTrip | frontend/lib/utils.ts:23-31 | a user id that is set is read back |
| Browser.ClearKeepsDevice | frontend/lib/utils.ts:45-49 | clearing forgets the user id and role and keeps every other key, the device id included |
| Browser.LocalStorage.constructor | frontend/lib/utils.ts:13 | the store starts with the given items, with or without a window |
| Browser.LocalStorage.GetStoredDeviceId | frontend/lib/utils.ts:12-21 | "" and no change without a window; otherwise the stored or generated id, and the generated one is stored only when none was |
| Browser.LocalStorage.GetStoredUserId | frontend/lib/utils.ts:23-26 | null without a window, otherwise the stored user id or null |
| Browser.LocalStorage.SetStoredUserId | frontend/lib/utils.ts:28-31 | the user id key is set, or nothing happens without a window |
| Browser.LocalStorage.GetStoredRole | frontend/lib/utils.ts:33-38 | null without a window, otherwise the stored role if it is a valid one |
| Browser.LocalStorage.SetStoredRole | frontend/lib/utils.ts:40-43 | the role key is set to the role's name, or nothing happens without a window |
| Browser.LocalStorage.ClearStoredUser | frontend/lib/utils.ts:45-49 | the user id and role keys are removed, or nothing happens without a window |
| Browser.LocalStorage.GetStoredStudentId | frontend/lib/utils.ts:56-58 | the legacy read behaves as the device id read |
| Browser.GenerateStudentId | frontend/lib/utils.ts:52-54 | the legacy generator gives a device id |
| Bubble.RefusalMessageIsRefusal | frontend/components/MessageBubble.tsx:13 | the backend's refusal message holds the phrase the bubble flags refusals by |
| Bubble.NextIndex | frontend/components/MessageBubble.tsx:88 | the position found is at or after the start, and holds the character unless it is the end |
| Bubble.NextIndexSkips | frontend/components/MessageBubble.tsx:88 | no position before the one found holds the character, so a `[^*]+` or `` [^`]+ `` run ends there |
| Bubble.BoldAt | frontend/components/MessageBubble.tsx:88 | a `\*\*[^*]+\*\*` match is at least 5 characters long and lies within the text |
| Bubble.CodeAt | frontend/components/MessageBubble.tsx:88 | a `` `[^`]+` `` match is at least 3 characters long and lies within the text |
| Bubble.MatchAt | frontend/components/MessageBubble.tsx:88 | a match of either alternative is non-empty and lies within the text |
| Bubble.SplitAtMatch | frontend/components/MessageBubble.tsx:88 | at a match, the split emits the text before it and the captured match, then goes on after it |
| Bubble.SplitPastNoMatch | frontend/components/MessageBubble.tsx:88 | without a match at a position, the split moves on by one character |
| Bubble.SplitFromConcat | frontend/components/MessageBubble.tsx:88 | the pieces from a position put together are the rest of the text |
| Bubble.ConcatTwo | frontend/components/MessageBubble.tsx:88 | two leading pieces put together precede the rest |
| Bubble.SlicesGlue | frontend/components/MessageBubble.tsx:88 | the text before a match, the match and the text after it make up the text |
| Bubble.PiecesConcat | frontend/components/MessageBubble.tsx:88 | the split loses and adds nothing: the pieces put together are the content |
| Bubble.MatchIsSpan | frontend/components/MessageBubble.tsx:88 | every captured match is a bold span or a code span |
| Bubble.SplitFromAlternates | frontend/components/MessageBubble.tsx:88 | the split's pieces alternate between plain text and captured spans, plain first and last |
| Bubble.AlternatesIndex | frontend/components/MessageBubble.tsx:88 | an alternating list has odd length and a span at every odd position |
| Bubble.PiecesAlternate | frontend/components/MessageBubble.tsx:88 | the content splits into an odd number of pieces, with a bold or code span at every odd position |
| Bubble.SpanMatches | frontend/components/MessageBubble.tsx:88 | a bold or code span anywhere in the text is a match of the pattern where it starts |
| Bubble.NextIndexAt | frontend/components/MessageBubble.tsx:88 | the scan for a delimiter stops at its first occurrence |
| Bubble.NoMatchSpanFree | frontend/components/MessageBubble.tsx:88 | a stretch the split steps past without a match holds no span |
| Bubble.SplitFromSpanFree | frontend/components/MessageBubble.tsx:88 | from any point of the scan, the plain pieces it yields hold no span |
| Bubble.PiecesSpanFree | frontend/components/MessageBubble.tsx:88 | the split finds every span: no plain piece (even position) holds a bold or code span |
| Bubble.SplitFrom | frontend/components/MessageBubble.tsx:88 | `split` with a capturing pattern, from one position: the text before each match, the match, and the text after the last; `SplitFromConcat`, `SplitFromAlternates` and `SplitFromSpanFree` state it |
| Bubble.Pieces | frontend/components/MessageBubble.tsx:88 | the pieces of the content; `PiecesConcat`, `PiecesAlternate` and `PiecesSpanFree` state it |
| Bubble.Trim | frontend/components/MessageBubble.tsx:92-100 | `slice(k, -k)` drops `k` characters at each end, or gives "" when they overlap |
| Bubble.FormatMessageContent | frontend/components/MessageBubble.tsx:86-106 | one rendered element per piece of the split, element k being piece k rendered |
| Bubble.FormattedSpans | frontend/components/MessageBubble.tsx:86-106 | every captured span is shown as strong text or as code, and putting its delimiters back gives the span |
| Bubble.Render | frontend/components/MessageBubble.tsx:90-104 | a piece with "**" at both ends is strong text, else one with a backtick at both ends is code, else plain; `RenderBold`, `RenderCode` and `RenderByEnds` state it |
| Bubble.RenderBold | frontend/components/MessageBubble.tsx:91-93 | a bold span renders as strong text without stars, and putting the stars back gives the span |
| Bubble.RenderCode | frontend/components/MessageBubble.tsx:94-102 | a code span renders as code without backticks, and putting them back gives the span |
| Bubble.RenderByEnds | frontend/components/MessageBubble.tsx:91-104 | only the ends are inspected: a lone backtick renders as empty code, "**" and "***" as empty bold; other text is plain |
| Bubble.SourceLines | frontend/components/MessageBubble.tsx:63-78 | an assistant message with sources lists one "filename (chunk n)" line per source, in order; otherwise none |
| Bubble.IsRefusal | frontend/components/MessageBubble.tsx:13 | a message is a refusal when its content contains "I don't have enough information"; `RefusalMessageIsRefusal` and `RefusalShown` state it |
| Bubble.ShowsHintLevel | frontend/components/MessageBubble.tsx:54 | the hint level is shown for a non-user message that has one; `RefusalShown` states it |
| Bubble.ShowsSources | frontend/components/MessageBubble.tsx:63 | sources are listed for a non-user message with at least one; `SourceLines` states it |
| Bubble.RefusalShown | frontend/components/MessageBubble.tsx:13-63 | a backend refusal is flagged as one, shows hint level 0 and lists no sources |
| ChatWindow.Prefix | frontend/components/ChatWindow.tsx:52-56 | every hint question starts with "Can you " and ends with a space |
| ChatWindow.Submitted | frontend/components/ChatWindow.tsx:43-49 | nothing is sent exactly when the draft is blank or a send is in flight; otherwise the trimmed draft is sent without the hint-increase flag |
| ChatWindow.HintRequested | frontend/components/ChatWindow.tsx:51-66 | nothing is sent exactly when the draft is blank and there is no history; a draft is sent trimmed after the prefix, else the prefix and the "still working" note; the flag is set for "more" |
| ChatWindow.PrefixDecodes | frontend/components/ChatWindow.tsx:52-56 | the prefixes tell the requests apart: a sent text determines the request and the text after its prefix |
| ChatWindow.HintRequestShape | frontend/components/ChatWindow.tsx:58-65 | a sent hint request starts with its prefix, is never blank, and carries the flag exactly for "more" |
| ChatWindow.PropsFor | frontend/components/ChatWindow.tsx:119-124 | the controls are disabled exactly while sending, have history exactly when there are messages, and get the current level |
| ChatWindow.Emits | frontend/components/HintControls.tsx:26-50 | "Explain Concept" emits "concept", "Give Hint" "hint", "Another Hint" "more" |
| ChatWindow.EmitsDistinct | frontend/components/HintControls.tsx:22-56 | no two buttons emit the same request |
| ChatWindow.Dots | frontend/components/HintControls.tsx:62-70 | four dots for levels 0 to 3, a dot lit exactly when its level is at most the current one |
| ChatWindow.Disabled | frontend/components/HintControls.tsx:27-51 | "Explain Concept" and "Give Hint" are off while disabled; "Another Hint" also without history or from level 3; `AnotherHintSends` and `ChatWindow.Window.Click` state it |
| ChatWindow.DotsCount | frontend/components/HintControls.tsx:62-70 | at level 0 to 3 exactly level + 1 dots are lit, the first always |
| ChatWindow.AnotherHintSends | frontend/components/HintControls.tsx:50-51 | an enabled "Another Hint" button means no send in flight, some history and a level below 3, and its click always sends with the flag set |
| ChatWindow.Window.constructor | frontend/components/ChatWindow.tsx:27 | the draft starts empty |
| ChatWindow.Window.SetInput | frontend/components/ChatWindow.tsx:131 | typing replaces the draft |
| ChatWindow.Window.HandleSubmit | frontend/components/ChatWindow.tsx:43-49 | the message sent is the submission of the old draft, and the draft is cleared exactly when something is sent |
| ChatWindow.Window.HandleHintRequest | frontend/components/ChatWindow.tsx:51-66 | the message sent is the hint request on the old draft; a non-blank draft is cleared, a blank one kept |
| ChatWindow.Window.Click | frontend/components/HintControls.tsx:22-56 | a disabled button sends nothing and keeps the draft; an enabled one makes its hint request |
| Pages.HomeOf | frontend/app/page.tsx:23-39 | a role's home is "/teacher" or "/student", "/" followed by the role's name, never "/" itself |
| Pages.LandingMount | frontend/app/page.tsx:17-27 | "/" redirects exactly when a role and a non-empty user id are stored, and then to the role's home |
| Pages.GuardTarget | frontend/app/teacher/page.tsx:26-41 | a home page sends the user to "/" without a role or user id, to the other role's home for the other role, and stays exactly for its own role with a user id |
| Pages.RedirectsSettle | frontend/app/student/page.tsx:23-38 | no home page redirects to itself, a home "/" sends a user to lets that user stay, and a page that sends the user to "/" is not sent back |
| Pages.NormalizeCode | frontend/app/teacher/page.tsx:64 | a code as sent is no longer than typed and already upper-case |
| Pages.AddCourse | frontend/app/teacher/page.tsx:98-101 | after a join the course's id is listed; a listed id leaves the list alone, else the course is appended |
| Pages.AddCourseUnique | frontend/app/student/page.tsx:61-64 | joins keep the listed ids unique |
| Pages.AddCourseIdempotent | frontend/app/student/page.tsx:61-64 | joining the same course twice lists it once |
| Pages.AddCourseKeeps | frontend/app/teacher/page.tsx:98-101 | every course listed before a join stays listed, in place |
| Pages.SelectionLeadsHome | frontend/app/page.tsx:36-39 | after a successful role selection "/" sends the user to the role's home, and that home stays and loads |
| Pages.SwitchedRoleLeaves | frontend/app/teacher/page.tsx:119-122 | after Switch Role both home pages send the user to "/" and "/" stays |
| Pages.RoleSelectPage.constructor | frontend/app/page.tsx:11-13 | the page starts loading with no role selected |
| Pages.RoleSelectPage.Mount | frontend/app/page.tsx:17-27 | a stored role and user id open the role's home; otherwise loading ends and the page stays |
| Pages.RoleSelectPage.HandleRoleSelect | frontend/app/page.tsx:29-44 | the device id is read (and stored if new) and the user requested with it; on success the user id and role are stored and the home opened, on failure the selection is reset |
| Pages.RoleSelectPage.ClickCard | frontend/app/page.tsx:85-124 | a click while a selection is pending changes nothing; otherwise it acts as `handleRoleSelect`: the device id is read or stored, and on success the user id and role are stored, the role kept selected and its home opened, on failure the selection reset; loading is untouched |
| Pages.TeacherHomePage.constructor | frontend/app/teacher/page.tsx:15-22 | no courses, loading, no form shown and all drafts empty |
| Pages.TeacherHomePage.Mount | frontend/app/teacher/page.tsx:26-41 | the guard's redirect, or else the user's courses loaded and loading ended; the form flags and drafts stay |
| Pages.TeacherHomePage.LoadCourses | frontend/app/teacher/page.tsx:43-52 | the fetched list replaces the courses, a failure keeps them, and loading ends either way; the form flags and drafts stay |
| Pages.TeacherHomePage.HandleCreateCourse | frontend/app/teacher/page.tsx:54-86 | with a name, a code and a user id, the course created from the trimmed name and normalised code is appended and the form reset exactly when both the create and the join succeed; otherwise the list and drafts stay |
| Pages.TeacherHomePage.HandleJoinCourse | frontend/app/teacher/page.tsx:88-117 | with a code and a user id, a successful join of the normalised code adds the course unless listed and resets the form; otherwise nothing but the busy flag changes |
| Pages.TeacherHomePage.SwitchRole | frontend/app/teacher/page.tsx:119-122 | the stored user id and role are cleared and "/" opened; the courses, loading and busy flags, form flags and drafts stay |
| Pages.StudentHomePage.constructor | frontend/app/student/page.tsx:15-19 | no courses, loading, no form shown and an empty code |
| Pages.StudentHomePage.Mount | frontend/app/student/page.tsx:23-38 | the guard's redirect, or else the user's courses loaded and loading ended; the class code draft and the join form flag stay |
| Pages.StudentHomePage.LoadCourses | frontend/app/student/page.tsx:40-49 | the fetched list replaces the courses, a failure keeps them, and loading ends either way; the class code draft and the join form flag stay |
| Pages.StudentHomePage.HandleJoinCourse | frontend/app/student/page.tsx:51-80 | with a code and a user id, a successful join of the normalised code adds the course unless listed and resets the form; otherwise nothing but the busy flag changes |
| Pages.StudentHomePage.SwitchRole | frontend/app/student/page.tsx:82-85 | the stored user id and role are cleared and "/" opened; the courses, loading and joining flags, class code draft and join form flag stay |

## Left out

- Network and database I/O, the Supabase client and server setup are not modelled: `backend/app/db.py`, `backend/app/config.py`, `backend/app/main.py` and CORS. Each endpoint runs atomically on an in-memory `Database`.
- Concurrency is not modelled. The check-then-insert races in `create_course` and `create_or_get_user` cannot happen in an atomic handler.
- Errors of the Supabase calls themselves are not modelled: `500 "Failed to create course"`, `"Failed to create file record"` and `"Failed to upload file to storage"`. Inserts always succeed.
- The storage `upload` that falls back to `update` is one write of the bucket map. Deleting from storage is a boolean parameter of `DeleteCourseFile`, because its failure is ignored.
- Row ids and `created_at` values come from one counter. They are `nat`s, not UUIDs and timestamps, so "ordered by `created_at`" means insertion order. The storage path uses the decimal text of the course id.
- `update_guardrails` does not check that the course exists. A row for an unknown course id is stored as the source does.
- Unset fields and fields set to null in `GuardrailsUpdate` are both `None`, because both have the same effect on the merge.
- `get_course_activity` does not model `avg_hints_per_session`: it is a float division with `round`. The model keeps its numerator `hintTotal`; the denominator is `totalSessions`.
- Courses.GetCourseActivity: the sessions query has no `order`. The model takes the first ten sessions in insertion order.
- Courses.GetCourseActivity: the order of `hint_levels_used` comes from a Python `set`. The model keeps first occurrences in message order and proves only which levels occur, once each, not their order.
- The `in_` query's row order before sorting is not modelled. Messages are filtered in stored order and then reversed.
- Chunking: `chunk_overlap` from the settings is read but never used by `chunk_text`, so it is not a parameter. `chunk_size` is the constant 400.
- Chunking: token counting (tiktoken) is a parameter `count`. PDF extraction (`extract_text`, `extract_pdf_text`) and UTF-8 decoding are parameters of `Upload.Services`. Decoding errors are not modelled.
- Text: whitespace is the ASCII set (space, tab, line feed, carriage return, vertical tab, form feed). Case mapping is ASCII only. Python's `str.strip` and JavaScript's `trim` also strip other Unicode spaces.
- Chat.Converse: retrieval and the hint controller are evaluated before the student's message is stored. Retrieval reads the chunks table through the `match_chunks` call (backend/app/services/retrieval.py:20), but the chat writes no chunk row, so it sees the same rows in either order; the hint controller reads no table. The result and the stored rows are therefore those of the source's order.
- Chat.Converse: the hint state they see is still computed from the messages that include the stored question.
- Upload.UploadFile: chunking and embedding are computed before the file record is written, for the same reason.
- Upload.UploadFile: the source's `400 "No chunks generated from file"` cannot happen. A non-blank text always has a chunk (`Chunking.ChunkedEmptyIff`), and the model asserts this instead of returning the error.
- Llm: the language-model calls and the prompt texts are not modelled. The controller's JSON reply is an arbitrary `RawDecision`, with absent keys as `None`.
- Llm: a JSON value of the wrong type is not modelled. The escalation and integrity rules in the prompts are instructions to a model and are not enforced.
- Llm.ClampDecision: the output's validators reject a negative level or an unknown action. In the source this raises an exception, which the model represents as a 500 from `chat`.
- Retrieval (`retrieve_chunks`) and embeddings are function parameters. The excerpt similarity score is not kept.
- `frontend/lib/api.ts` is not part of this model. The pages' backend calls are parameters returning `Option`.
- Browser: `Date.now` and `Math.random().toString(36)` are the parameters `now` and `random36` of `GenerateDeviceId`.
- Rendering is not modelled: JSX, CSS classes, toasts, auto-scroll and focus effects, the typing indicator and `frontend/app/layout.tsx`.
- ChatWindow.Window.HandleSubmit: `onSendMessage` is called without the flag. The model sends `requestHintIncrease` as false, the backend default.
- Pages.RoleSelectPage.HandleRoleSelect: a failed selection may still have stored a new device id, because `getStoredDeviceId` runs before the failing request. The model states exactly that, so it is weaker than "a failed selection writes nothing".
- Pages.TeacherHomePage.HandleCreateCourse: `isCreating` is true while a request is in flight. Each handler is atomic, so the model records only its final value, false.
- Pages.TeacherHomePage.HandleJoinCourse and Pages.StudentHomePage.HandleJoinCourse: the same holds for `isCreating` and `isJoining`.
- The pages' `onChange` setters for their form fields and their `setShowCreateForm` and `setShowJoinForm` toggles are not modelled. The toggles and the course-name setter assign the field as given. The three class-code setters upper-case the text as the user types (frontend/app/teacher/page.tsx:191 and 226, frontend/app/student/page.tsx:141). The model keeps each code draft as typed, because the handlers trim and upper-case the code again before sending it (`Pages.NormalizeCode`), so the request is the same.
- `get_course`, `get_course_by_code`, the session creation endpoint and the routers outside the files named above are not part of this model.
