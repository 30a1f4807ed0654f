/**
 * The course endpoints: creating a course with its default guardrails,
 * reading and partially updating guardrails, listing a session's messages
 * and a course's files, deleting a file with its chunks, and the per-course
 * activity summary teachers see.
 */
module Courses {
  import opened Wrappers
  import opened Seqs
  import opened Text
  import opened Models
  import opened Store

  // ---------------------------------------------------------------------------
  // create_course
  // ---------------------------------------------------------------------------

  /**
   * `create_course`: refused with 400 when a course already holds the
   * upper-cased code; otherwise the course is stored with that code and
   * gets a guardrails row holding the defaults. Class codes stay unique.
   */
  method CreateCourse(db: Database, name: string, classCode: string) returns (r: Result<Course, Status>)
    requires db.Valid()
    modifies db
    ensures db.Valid()
    ensures CourseByCode(old(db.courses), Upper(classCode)).Some? ==>
      r == Failure(Status(400, "Class code already exists")) && db.State() == old(db.State())
    ensures CourseByCode(old(db.courses), Upper(classCode)).None? ==>
      && r == Success(Course(old(db.next), name, Upper(classCode), old(db.next)))
      && db.State() == old(db.State()).(
        courses := old(db.courses) + [r.value],
        guardrails := old(db.guardrails)[old(db.next) := DefaultGuardrails],
        next := old(db.next) + 1)
  {
    var code := Upper(classCode);
    if CourseByCode(db.courses, code).Some? {
      return Failure(Status(400, "Class code already exists"));
    }
    var t := db.State();
    var id := db.NewId();
    var course := Course(id, name, code, id);
    UpperIdempotent(classCode);
    AddCourseConsistent(t, course);
    db.courses := db.courses + [course];
    db.guardrails := db.guardrails[id := DefaultGuardrails];
    r := Success(course);
  }

  /** Storing a course with a fresh id and an upper-cased code no course holds keeps the tables consistent. */
  lemma AddCourseConsistent(t: Tables, c: Course)
    requires Consistent(t)
    requires c.id == t.next && Upper(c.classCode) == c.classCode
    requires CourseByCode(t.courses, c.classCode).None?
    ensures Consistent(t.(courses := t.courses + [c], guardrails := t.guardrails[c.id := DefaultGuardrails], next := t.next + 1))
  {
    UniqueCodesSnoc(t.courses, c);
    UpperCodesSnoc(t.courses, c);
    BelowSnoc(t.courses, CourseId, t.next + 1, c);
  }

  /** A course whose code no stored course holds keeps the codes unique. */
  lemma UniqueCodesSnoc(courses: seq<Course>, c: Course)
    requires UniqueCodes(courses)
    requires CourseByCode(courses, c.classCode).None?
    ensures UniqueCodes(courses + [c])
  {
    var cs := courses + [c];
    forall i, j | 0 <= i < j < |cs| ensures cs[i].classCode != cs[j].classCode {
      assert cs[i] == courses[i];
      if j < |courses| { assert cs[j] == courses[j]; }
    }
  }

  /** An upper-cased code keeps every code upper-cased. */
  lemma UpperCodesSnoc(courses: seq<Course>, c: Course)
    requires UpperCodes(courses)
    requires Upper(c.classCode) == c.classCode
    ensures UpperCodes(courses + [c])
  {
    var cs := courses + [c];
    forall i | 0 <= i < |cs| ensures Upper(cs[i].classCode) == cs[i].classCode {
      if i < |courses| { assert cs[i] == courses[i]; }
    }
  }

  /** Codes are compared upper-cased, so a second course with the same code in any case is refused. */
  lemma CreatedCodeTaken(courses: seq<Course>, c: Course, classCode: string)
    requires Upper(classCode) == c.classCode
    ensures CourseByCode(courses + [c], Upper(classCode)).Some?
  {
    assert (courses + [c])[|courses|] == c;
  }

  // ---------------------------------------------------------------------------
  // Guardrails
  // ---------------------------------------------------------------------------

  /** `get_guardrails`: the course's guardrails row, or the defaults when it has none. */
  function GetGuardrails(rows: map<Id, Guardrails>, courseId: Id): Guardrails {
    if courseId in rows then rows[courseId] else DefaultGuardrails
  }

  /** A course created by `create_course` reads back the default guardrails. */
  lemma NewCourseGuardrails(rows: map<Id, Guardrails>, courseId: Id)
    ensures GetGuardrails(rows[courseId := DefaultGuardrails], courseId) == DefaultGuardrails
  {
  }

  /** A course with no guardrails row reads the defaults, whatever other courses hold. */
  lemma MissingGuardrails(rows: map<Id, Guardrails>, courseId: Id, other: Id, g: Guardrails)
    requires courseId !in rows && other != courseId
    ensures GetGuardrails(rows[other := g], courseId) == DefaultGuardrails
  {
  }

  /**
   * The merge loop of `update_guardrails`: every field the update sets to a
   * non-null value is assigned, one field after another; the result is the
   * update merged into `current`.
   */
  method MergeLoop(current: Guardrails, update: GuardrailsUpdate) returns (updated: Guardrails)
    ensures updated == Merge(current, update)
  {
    updated := current;
    UptoEnds(update);
    MergeEmpty(current);
    for i := 0 to FieldCount
      invariant updated == Merge(current, Upto(update, i))
    {
      UptoStep(current, update, i);
      updated := SetField(updated, update, i);
    }
  }

  /**
   * `update_guardrails`: the current guardrails (or the defaults) merged with
   * the update, upserted as the course's row and returned.
   */
  method UpdateGuardrails(db: Database, courseId: Id, update: GuardrailsUpdate) returns (r: Guardrails)
    requires db.Valid()
    modifies db
    ensures db.Valid()
    ensures r == Merge(GetGuardrails(old(db.guardrails), courseId), update)
    ensures db.State() == old(db.State()).(guardrails := old(db.guardrails)[courseId := r])
  {
    var current := GetGuardrails(db.guardrails, courseId);
    r := MergeLoop(current, update);
    db.guardrails := db.guardrails[courseId := r];
  }

  /** The guardrails a course reads after an update are the merge the update returned. */
  lemma UpdateThenGet(rows: map<Id, Guardrails>, courseId: Id, update: GuardrailsUpdate)
    ensures var merged := Merge(GetGuardrails(rows, courseId), update);
      GetGuardrails(rows[courseId := merged], courseId) == merged
  {
  }

  /** Applying the same update twice stores and returns the same guardrails as applying it once. */
  lemma UpdateIdempotent(rows: map<Id, Guardrails>, courseId: Id, update: GuardrailsUpdate)
    ensures var once := Merge(GetGuardrails(rows, courseId), update);
      var rows' := rows[courseId := once];
      && Merge(GetGuardrails(rows', courseId), update) == once
      && rows'[courseId := once] == rows'
  {
    MergeIdempotent(GetGuardrails(rows, courseId), update);
  }

  // ---------------------------------------------------------------------------
  // Listings
  // ---------------------------------------------------------------------------

  function OfSession(sessionId: Id): ChatMessage -> bool {
    (m: ChatMessage) => m.sessionId == sessionId
  }

  /** `get_session_messages`: the session's messages, oldest first (`[]` when there are none). */
  function GetSessionMessages(messages: seq<ChatMessage>, sessionId: Id): (r: seq<ChatMessage>)
    ensures forall k :: 0 <= k < |r| ==> r[k] in messages && r[k].sessionId == sessionId
    ensures forall k :: 0 <= k < |messages| && messages[k].sessionId == sessionId ==> messages[k] in r
  {
    Filter(messages, OfSession(sessionId))
  }

  /** Stored in `created_at` order, a session's messages come out ascending, as `order("created_at")` asks. */
  lemma SessionMessagesAscending(messages: seq<ChatMessage>, sessionId: Id)
    requires Increasing(messages, MessageTime)
    ensures Increasing(GetSessionMessages(messages, sessionId), MessageTime)
  {
    FilterIncreasing(messages, OfSession(sessionId), MessageTime);
  }

  function OfCourse(courseId: Id): CourseFile -> bool {
    (f: CourseFile) => f.courseId == courseId
  }

  /** `get_course_files`: the course's files, newest first. */
  function GetCourseFiles(files: seq<CourseFile>, courseId: Id): (r: seq<CourseFile>)
    ensures forall k :: 0 <= k < |r| ==> r[k] in files && r[k].courseId == courseId
    ensures forall k :: 0 <= k < |files| && files[k].courseId == courseId ==> files[k] in r
  {
    Reverse(Filter(files, OfCourse(courseId)))
  }

  /** Stored in `created_at` order, a course's files come out descending, as `order("created_at", desc=True)` asks. */
  lemma CourseFilesDescending(files: seq<CourseFile>, courseId: Id)
    requires Increasing(files, FileTime)
    ensures Decreasing(GetCourseFiles(files, courseId), FileTime)
  {
    var mine := Filter(files, OfCourse(courseId));
    FilterIncreasing(files, OfCourse(courseId), FileTime);
    ReverseDecreasing(mine, FileTime);
  }

  // ---------------------------------------------------------------------------
  // delete_course_file
  // ---------------------------------------------------------------------------

  datatype Deleted = Deleted(success: bool, deletedFile: string)

  /** The file with the id, provided it belongs to the course. */
  function FileOfCourse(files: seq<CourseFile>, courseId: Id, fileId: Id): (r: Option<CourseFile>)
    ensures r.Some? ==> r.value in files && r.value.id == fileId && r.value.courseId == courseId
    ensures r.None? ==> forall k :: 0 <= k < |files| ==> !(files[k].id == fileId && files[k].courseId == courseId)
  {
    FirstWhere(files, (f: CourseFile) => f.id == fileId && f.courseId == courseId)
  }

  function NotFile(fileId: Id): CourseFile -> bool {
    (f: CourseFile) => f.id != fileId
  }

  function NotOfFile(fileId: Id): ChunkRow -> bool {
    (c: ChunkRow) => c.fileId != fileId
  }

  /** The chunks left once a file's chunks are deleted: exactly the other files' chunks, in order. */
  function RemoveFileChunks(chunks: seq<ChunkRow>, fileId: Id): (r: seq<ChunkRow>)
    ensures forall k :: 0 <= k < |r| ==> r[k] in chunks && r[k].fileId != fileId
    ensures forall k :: 0 <= k < |chunks| && chunks[k].fileId != fileId ==> chunks[k] in r
  {
    Filter(chunks, NotOfFile(fileId))
  }

  /** The file records left once one is deleted: exactly the others, in order. */
  function RemoveFile(files: seq<CourseFile>, fileId: Id): (r: seq<CourseFile>)
    ensures forall k :: 0 <= k < |r| ==> r[k] in files && r[k].id != fileId
    ensures forall k :: 0 <= k < |files| && files[k].id != fileId ==> files[k] in r
  {
    Filter(files, NotFile(fileId))
  }

  /**
   * `delete_course_file`: 404 unless the file belongs to the course; otherwise
   * its chunks, then its record, then its stored object are deleted.
   * `storageRemoves` says whether the storage call succeeds: a failure is
   * ignored and the object stays.
   */
  method DeleteCourseFile(db: Database, courseId: Id, fileId: Id, storageRemoves: bool) returns (r: Result<Deleted, Status>)
    requires db.Valid()
    modifies db
    ensures db.Valid()
    ensures FileOfCourse(old(db.files), courseId, fileId).None? ==>
      r == Failure(Status(404, "File not found")) && db.State() == old(db.State())
    ensures FileOfCourse(old(db.files), courseId, fileId).Some? ==>
      var file := FileOfCourse(old(db.files), courseId, fileId).value;
      && r == Success(Deleted(true, file.filename))
      && db.State() == old(db.State()).(
        chunks := RemoveFileChunks(old(db.chunks), fileId),
        files := RemoveFile(old(db.files), fileId),
        storage := if storageRemoves then old(db.storage) - {file.storagePath} else old(db.storage))
  {
    var found := FileOfCourse(db.files, courseId, fileId);
    if found.None? {
      return Failure(Status(404, "File not found"));
    }
    var file := found.value;
    var storage := if storageRemoves then db.storage - {file.storagePath} else db.storage;
    ghost var after := db.State().(chunks := RemoveFileChunks(db.chunks, fileId), files := RemoveFile(db.files, fileId), storage := storage);
    RemoveFileConsistent(db.State(), fileId, storage);
    db.chunks, db.files, db.storage := RemoveFileChunks(db.chunks, fileId), RemoveFile(db.files, fileId), storage;
    assert db.State() == after;
    r := Success(Deleted(true, file.filename));
  }

  /** Deleting a file's chunks and record, whatever happens to storage, keeps the tables consistent. */
  lemma RemoveFileConsistent(t: Tables, fileId: Id, storage: map<string, seq<Byte>>)
    requires Consistent(t)
    ensures Consistent(t.(chunks := RemoveFileChunks(t.chunks, fileId), files := RemoveFile(t.files, fileId), storage := storage))
  {
    BelowFilter(t.chunks, NotOfFile(fileId), ChunkId, t.next);
    BelowFilter(t.chunks, NotOfFile(fileId), ChunkFile, t.next);
    BelowFilter(t.files, NotFile(fileId), FileId, t.next);
    BelowFilter(t.files, NotFile(fileId), FileStamp, t.next);
    FilterIncreasing(t.files, NotFile(fileId), FileTime);
  }

  // ---------------------------------------------------------------------------
  // get_course_activity
  // ---------------------------------------------------------------------------

  /** One session's activity: its messages, the latest time, distinct hint levels and up to three questions. */
  datatype ActivityItem = ActivityItem(
    sessionId: Id,
    studentId: string,
    messageCount: nat,
    lastMessageAt: nat,
    hintLevelsUsed: seq<int>,
    recentQuestions: seq<string>)

  /**
   * The activity summary. The source reports the average number of hints
   * per session as a rounded float; here its numerator `hintTotal` is kept,
   * and its denominator is `totalSessions`.
   */
  datatype CourseActivity = CourseActivity(
    totalSessions: nat,
    totalMessages: nat,
    uniqueStudents: nat,
    hintTotal: int,
    recentActivity: seq<ActivityItem>)

  /** How many sessions the summary lists. */
  const RecentSessions: nat := 10
  /** How many questions an item quotes. */
  const QuestionCount: nat := 3
  /** How many characters of a question are quoted. */
  const QuestionLength: nat := 100

  function InCourse(courseId: Id): Session -> bool {
    (s: Session) => s.courseId == courseId
  }

  function InSessions(ids: seq<Id>): ChatMessage -> bool {
    (m: ChatMessage) => m.sessionId in ids
  }

  function FromUser(m: ChatMessage): bool { m.role == Speaker.User }

  function StudentOf(s: Session): string { s.studentId }

  function HintOrZero(m: ChatMessage): int { m.hintLevel.GetOr(0) }

  /** A quoted question: the first 100 characters (Python's `content[:100]`). */
  function Question(m: ChatMessage): (q: string)
    ensures |q| <= QuestionLength && |q| <= |m.content|
    ensures q == m.content[..|q|]
    ensures |m.content| <= QuestionLength ==> q == m.content
  {
    Take(m.content, QuestionLength)
  }

  /** The non-null hint levels of some messages, as a set. */
  function LevelSet(ms: seq<ChatMessage>): set<int> {
    set j | 0 <= j < |ms| && ms[j].hintLevel.Some? :: ms[j].hintLevel.value
  }

  /** `list(set(...))` of the non-null levels holds exactly the levels used. */
  lemma DistinctLevels(ms: seq<ChatMessage>)
    ensures Elems(Distinct(HintLevels(ms))) == LevelSet(ms)
  {
    var d := Distinct(HintLevels(ms));
    forall v | v in LevelSet(ms) ensures v in Elems(d) {
      var j :| 0 <= j < |ms| && ms[j].hintLevel.Some? && ms[j].hintLevel.value == v;
      var i :| 0 <= i < |HintLevels(ms)| && HintLevels(ms)[i] == v;
    }
    forall v | v in Elems(d) ensures v in LevelSet(ms) {
      var i :| 0 <= i < |HintLevels(ms)| && HintLevels(ms)[i] == v;
      var j :| 0 <= j < |ms| && ms[j].hintLevel == Some(v);
    }
  }

  /**
   * The item for one session, from the course's messages newest first; none
   * when the session has no message. It counts the session's messages,
   * dates the newest one, lists the levels used without repetition and
   * quotes the session's first three questions in that order.
   */
  function ActivityItemOf(session: Session, recent: seq<ChatMessage>): (r: Option<ActivityItem>)
    ensures r.None? <==> forall k :: 0 <= k < |recent| ==> recent[k].sessionId != session.id
    ensures r.Some? ==> var item := r.value;
      && item.sessionId == session.id && item.studentId == session.studentId
      && item.messageCount > 0
      && NoDuplicates(item.hintLevelsUsed)
      && |item.recentQuestions| <= QuestionCount
      && (forall k :: 0 <= k < |item.recentQuestions| ==> |item.recentQuestions[k]| <= QuestionLength)
    ensures r.Some? ==> var item := r.value;
      var ms := Filter(recent, OfSession(session.id));
      var asked := Filter(ms, FromUser);
      && item.messageCount == |ms|
      && FirstIndex(recent, OfSession(session.id)).Some?
      && item.lastMessageAt == recent[FirstIndex(recent, OfSession(session.id)).value].createdAt
      && Elems(item.hintLevelsUsed) == LevelSet(ms)
      && |item.recentQuestions| == (if |asked| < QuestionCount then |asked| else QuestionCount)
      && (forall k :: 0 <= k < |item.recentQuestions| ==> item.recentQuestions[k] == Question(asked[k]))
  {
    var ms := Filter(recent, OfSession(session.id));
    if ms == [] then None
    else
      FilterHead(recent, OfSession(session.id));
      DistinctLevels(ms);
      var questions := Map(Take(Filter(ms, FromUser), QuestionCount), Question);
      Some(ActivityItem(session.id, session.studentId, |ms|, ms[0].createdAt, Distinct(HintLevels(ms)), questions))
  }

  /** One item is well formed for a list of sessions. */
  predicate ItemOf(sessions: seq<Session>, item: ActivityItem) {
    && (exists j :: 0 <= j < |sessions| && sessions[j].id == item.sessionId)
    && item.messageCount > 0
    && |item.recentQuestions| <= QuestionCount
    && (forall k :: 0 <= k < |item.recentQuestions| ==> |item.recentQuestions[k]| <= QuestionLength)
    && NoDuplicates(item.hintLevelsUsed)
  }

  /** A session has an item exactly when some message belongs to it. */
  function WithMessages(recent: seq<ChatMessage>): Session -> bool {
    (s: Session) => exists k :: 0 <= k < |recent| && recent[k].sessionId == s.id
  }

  /** The items of the sessions that have messages, in session order. */
  function ActivityItems(sessions: seq<Session>, recent: seq<ChatMessage>): (r: seq<ActivityItem>)
    ensures |r| <= |sessions|
    ensures forall k :: 0 <= k < |r| ==> ItemOf(sessions, r[k])
    decreases |sessions|
  {
    if sessions == [] then []
    else
      var init := sessions[..|sessions| - 1];
      var last := sessions[|sessions| - 1];
      var rest := ActivityItems(init, recent);
      assert forall k :: 0 <= k < |rest| ==> ItemOf(sessions, rest[k]) by {
        forall k | 0 <= k < |rest| ensures ItemOf(sessions, rest[k]) {
          assert ItemOf(init, rest[k]);
          var j :| 0 <= j < |init| && init[j].id == rest[k].sessionId;
          assert sessions[j] == init[j];
        }
      }
      match ActivityItemOf(last, recent)
      case None => rest
      case Some(item) => rest + [item]
  }

  /** A session gets an item exactly when some message belongs to it. */
  lemma ItemIffMessages(session: Session, recent: seq<ChatMessage>)
    ensures ActivityItemOf(session, recent).Some? <==> WithMessages(recent)(session)
  {
  }

  /** Item k is that of the k-th listed session. */
  predicate ItemsFor(listed: seq<Session>, items: seq<ActivityItem>, recent: seq<ChatMessage>) {
    |items| == |listed| && forall k :: 0 <= k < |items| ==> ActivityItemOf(listed[k], recent) == Some(items[k])
  }

  lemma ItemsForSnoc(listed: seq<Session>, items: seq<ActivityItem>, recent: seq<ChatMessage>, last: Session, item: ActivityItem)
    requires ItemsFor(listed, items, recent) && ActivityItemOf(last, recent) == Some(item)
    ensures ItemsFor(listed + [last], items + [item], recent)
  {
  }

  /**
   * One item for each session that has messages and for no other, in
   * session order: item k is that of the k-th such session.
   */
  lemma {:induction false} ActivityItemsExact(sessions: seq<Session>, recent: seq<ChatMessage>)
    ensures var r := ActivityItems(sessions, recent);
      var listed := Filter(sessions, WithMessages(recent));
      && |r| == |listed|
      && forall k :: 0 <= k < |r| ==> ActivityItemOf(listed[k], recent) == Some(r[k])
    decreases |sessions|
  {
    ActivityItemsFor(sessions, recent);
  }

  lemma {:induction false} ActivityItemsFor(sessions: seq<Session>, recent: seq<ChatMessage>)
    ensures ItemsFor(Filter(sessions, WithMessages(recent)), ActivityItems(sessions, recent), recent)
    decreases |sessions|
  {
    if sessions != [] {
      var init := sessions[..|sessions| - 1];
      var last := sessions[|sessions| - 1];
      ActivityItemsFor(init, recent);
      FilterInit(sessions, WithMessages(recent));
      ItemIffMessages(last, recent);
      match ActivityItemOf(last, recent)
      case None =>
        assert Filter(sessions, WithMessages(recent)) == Filter(init, WithMessages(recent)) + [];
      case Some(item) =>
        ItemsForSnoc(Filter(init, WithMessages(recent)), ActivityItems(init, recent), recent, last, item);
    }
  }

  /** Collects the items of the listed sessions, one session after another. */
  method CollectItems(top: seq<Session>, recent: seq<ChatMessage>) returns (items: seq<ActivityItem>)
    ensures items == ActivityItems(top, recent)
  {
    items := [];
    for i := 0 to |top|
      invariant items == ActivityItems(top[..i], recent)
    {
      assert top[..i + 1][..i] == top[..i];
      var item := ActivityItemOf(top[i], recent);
      if item.Some? {
        items := items + [item.value];
      }
    }
    assert top[..|top|] == top;
  }

  /** `get_course_activity`, on the sessions and messages tables. */
  function Activity(sessions: seq<Session>, messages: seq<ChatMessage>, courseId: Id): CourseActivity {
    var course := Filter(sessions, InCourse(courseId));
    if course == [] then CourseActivity(0, 0, 0, 0, [])
    else
      var recent := Reverse(Filter(messages, InSessions(Map(course, SessionId))));
      CourseActivity(
        |course|, |recent|, |Distinct(Map(course, StudentOf))|, SumOf(recent, HintOrZero),
        ActivityItems(Take(course, RecentSessions), recent))
  }

  /**
   * `get_course_activity`: the course's sessions, its messages newest first
   * and the totals, then, for each of the first ten sessions that has
   * messages, one activity item.
   */
  method GetCourseActivity(db: Database, courseId: Id) returns (a: CourseActivity)
    ensures a == Activity(db.sessions, db.messages, courseId)
  {
    var course := Filter(db.sessions, InCourse(courseId));
    if course == [] {
      return CourseActivity(0, 0, 0, 0, []);
    }
    var sessionIds := Map(course, SessionId);
    var studentIds := Distinct(Map(course, StudentOf));
    var recent := Reverse(Filter(db.messages, InSessions(sessionIds)));
    var items := CollectItems(Take(course, RecentSessions), recent);
    a := CourseActivity(|course|, |recent|, |studentIds|, SumOf(recent, HintOrZero), items);
  }

  /** A course without sessions has an all-zero summary. */
  lemma ActivityWithoutSessions(sessions: seq<Session>, messages: seq<ChatMessage>, courseId: Id)
    requires forall k :: 0 <= k < |sessions| ==> sessions[k].courseId != courseId
    ensures Activity(sessions, messages, courseId) == CourseActivity(0, 0, 0, 0, [])
  {
  }

  /**
   * The summary counts the course's sessions, their messages and the
   * distinct student ids among them, and lists at most ten items, each for
   * one of the course's sessions, with at least one message, at most three
   * questions of at most 100 characters and no repeated hint level.
   */
  lemma ActivityBounds(sessions: seq<Session>, messages: seq<ChatMessage>, courseId: Id)
    ensures var a := Activity(sessions, messages, courseId);
      var course := Filter(sessions, InCourse(courseId));
      && a.totalSessions == |course|
      && a.totalMessages == |Filter(messages, InSessions(Map(course, SessionId)))|
      && a.uniqueStudents == |Elems(Map(course, StudentOf))|
      && a.uniqueStudents <= a.totalSessions
      && |a.recentActivity| <= RecentSessions
      && forall k :: 0 <= k < |a.recentActivity| ==> ItemOf(Take(course, RecentSessions), a.recentActivity[k])
  {
    var course := Filter(sessions, InCourse(courseId));
    DistinctCard(Map(course, StudentOf));
  }
}
