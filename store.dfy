/**
 * The backend's tables, held in memory: users, courses, memberships
 * (`user_courses`), guardrails, chat sessions, chat messages, course files,
 * chunks and the `course-files` storage bucket. Every row gets its id and its
 * `created_at` from one counter, so rows appended later are newer. The
 * queries the routers run (`select ... eq(...)`, `in_(...)`, `order(...)`)
 * are functions on the tables.
 */
module Store {
  import opened Wrappers
  import opened Seqs
  import opened Text
  import opened Models

  /** A byte of an uploaded file. */
  type Byte = x: int | 0 <= x < 256

  /** A chunk's embedding vector (its values are never inspected here). */
  type Embedding = seq<real>

  datatype User = User(id: Id, deviceId: string, role: Role, displayName: Option<string>, createdAt: nat)

  /** A row of `user_courses`: the member's role is copied from the user when joining. */
  datatype Membership = Membership(userId: Id, courseId: Id, role: Role)

  datatype CourseFile = CourseFile(id: Id, courseId: Id, filename: string, storagePath: string, createdAt: nat)

  datatype ChunkRow = ChunkRow(id: Id, courseId: Id, fileId: Id, chunkIndex: nat, content: string, embedding: Embedding)

  // ---------------------------------------------------------------------------
  // Table invariants
  // ---------------------------------------------------------------------------

  /** No two courses share a class code. */
  predicate UniqueCodes(courses: seq<Course>) {
    forall i, j :: 0 <= i < j < |courses| ==> courses[i].classCode != courses[j].classCode
  }

  /** Every class code is stored upper-cased. */
  predicate UpperCodes(courses: seq<Course>) {
    forall i :: 0 <= i < |courses| ==> Upper(courses[i].classCode) == courses[i].classCode
  }

  /** No two users share a device id. */
  predicate UniqueDevices(users: seq<User>) {
    forall i, j :: 0 <= i < j < |users| ==> users[i].deviceId != users[j].deviceId
  }

  /** Every key is below `bound`. */
  ghost predicate Below<T>(s: seq<T>, key: T -> nat, bound: nat) {
    forall i :: 0 <= i < |s| ==> key(s[i]) < bound
  }

  // Row keys, named so that the invariant and the proofs refer to the same functions.
  function UserId(u: User): nat { u.id }
  function CourseId(c: Course): nat { c.id }
  function SessionId(s: Session): nat { s.id }
  function MessageId(m: ChatMessage): nat { m.id }
  function MessageStamp(m: ChatMessage): nat { m.createdAt }
  function FileId(f: CourseFile): nat { f.id }
  function FileStamp(f: CourseFile): nat { f.createdAt }
  function ChunkId(c: ChunkRow): nat { c.id }
  function ChunkFile(c: ChunkRow): nat { c.fileId }
  function MessageTime(m: ChatMessage): int { m.createdAt }
  function FileTime(f: CourseFile): int { f.createdAt }

  // ---------------------------------------------------------------------------
  // Queries
  // ---------------------------------------------------------------------------

  /** `courses ... eq("class_code", code)`: the course holding the code. */
  function CourseByCode(courses: seq<Course>, code: string): (r: Option<Course>)
    ensures r.Some? ==> r.value in courses && r.value.classCode == code
    ensures r.None? ==> forall k :: 0 <= k < |courses| ==> courses[k].classCode != code
  {
    FirstWhere(courses, (c: Course) => c.classCode == code)
  }

  /** `courses ... eq("id", id)`: the first course with the id. */
  function CourseById(courses: seq<Course>, id: Id): (r: Option<Course>)
    ensures r.Some? ==> r.value in courses && r.value.id == id
    ensures r.None? ==> forall k :: 0 <= k < |courses| ==> courses[k].id != id
  {
    FirstWhere(courses, (c: Course) => c.id == id)
  }

  /** `users ... eq("device_id", device)`: the first user of the device. */
  function UserByDevice(users: seq<User>, device: string): (r: Option<nat>)
    ensures r.Some? ==> r.value < |users| && users[r.value].deviceId == device
    ensures r.None? ==> forall k :: 0 <= k < |users| ==> users[k].deviceId != device
  {
    FirstIndex(users, (u: User) => u.deviceId == device)
  }

  /** `users ... eq("id", id)`: the first user with the id. */
  function UserById(users: seq<User>, id: Id): (r: Option<User>)
    ensures r.Some? ==> r.value in users && r.value.id == id
    ensures r.None? ==> forall k :: 0 <= k < |users| ==> users[k].id != id
  {
    FirstWhere(users, (u: User) => u.id == id)
  }

  /** `chat_sessions ... eq("id", id)`: the first session with the id. */
  function SessionById(sessions: seq<Session>, id: Id): (r: Option<Session>)
    ensures r.Some? ==> r.value in sessions && r.value.id == id
    ensures r.None? ==> forall k :: 0 <= k < |sessions| ==> sessions[k].id != id
  {
    FirstWhere(sessions, (s: Session) => s.id == id)
  }

  /** Whether the user holds a membership of the course. */
  predicate IsMember(memberships: seq<Membership>, userId: Id, courseId: Id) {
    exists k :: 0 <= k < |memberships| && memberships[k].userId == userId && memberships[k].courseId == courseId
  }

  /** A snapshot of every table, for stating what an endpoint changes. */
  datatype Tables = Tables(
    users: seq<User>,
    courses: seq<Course>,
    memberships: seq<Membership>,
    guardrails: map<Id, Guardrails>,
    sessions: seq<Session>,
    messages: seq<ChatMessage>,
    files: seq<CourseFile>,
    chunks: seq<ChunkRow>,
    storage: map<string, seq<Byte>>,
    next: nat)

  /**
   * Class codes are unique and upper-cased, device ids are unique, every
   * row id and timestamp (and the file id a chunk refers to) is below
   * `next`, and messages and files are
   * stored in `created_at` order.
   */
  ghost predicate Consistent(t: Tables) {
    && UniqueCodes(t.courses) && UpperCodes(t.courses)
    && UniqueDevices(t.users)
    && Below(t.users, UserId, t.next)
    && Below(t.courses, CourseId, t.next)
    && Below(t.sessions, SessionId, t.next)
    && Below(t.messages, MessageId, t.next) && Below(t.messages, MessageStamp, t.next)
    && Below(t.files, FileId, t.next) && Below(t.files, FileStamp, t.next)
    && Below(t.chunks, ChunkId, t.next) && Below(t.chunks, ChunkFile, t.next)
    && Increasing(t.messages, MessageTime)
    && Increasing(t.files, FileTime)
  }

  // ---------------------------------------------------------------------------
  // The database
  // ---------------------------------------------------------------------------

  /** The tables, updated in place by the endpoints. */
  class Database {
    var users: seq<User>
    var courses: seq<Course>
    var memberships: seq<Membership>
    var guardrails: map<Id, Guardrails>
    var sessions: seq<Session>
    var messages: seq<ChatMessage>
    var files: seq<CourseFile>
    var chunks: seq<ChunkRow>
    var storage: map<string, seq<Byte>>
    /** The next unused row id, which is also the next `created_at`. */
    var next: nat

    /** Every table, as one value. */
    ghost function State(): Tables
      reads this
    {
      Tables(users, courses, memberships, guardrails, sessions, messages, files, chunks, storage, next)
    }

    /** The tables are consistent. */
    ghost predicate Valid()
      reads this
    {
      Consistent(State())
    }

    /** An empty database. */
    constructor()
      ensures Valid()
      ensures users == [] && courses == [] && memberships == [] && guardrails == map[]
      ensures sessions == [] && messages == [] && files == [] && chunks == [] && storage == map[]
    {
      users, courses, memberships, guardrails := [], [], [], map[];
      sessions, messages, files, chunks, storage := [], [], [], [], map[];
      next := 0;
    }

    /** Hands out a fresh row id, which is also the row's `created_at`. */
    method NewId() returns (id: Id)
      modifies this
      ensures id == old(next)
      ensures State() == old(State()).(next := old(next) + 1)
    {
      id := next;
      next := next + 1;
    }
  }

  /** Growing the bound keeps every key below it. */
  lemma BelowGrow<T>(s: seq<T>, key: T -> nat, bound: nat, bound': nat)
    requires Below(s, key, bound) && bound <= bound'
    ensures Below(s, key, bound')
  {
  }

  /** A row whose key is below the bound can be appended. */
  lemma BelowSnoc<T>(s: seq<T>, key: T -> nat, bound: nat, x: T)
    requires Below(s, key, bound) && key(x) < bound
    ensures Below(s + [x], key, bound)
  {
    assert forall i :: 0 <= i < |s| ==> (s + [x])[i] == s[i];
  }

  /** A row newer than every stored one can be appended in order. */
  lemma IncreasingSnoc<T>(s: seq<T>, key: T -> int, x: T)
    requires Increasing(s, key)
    requires forall i :: 0 <= i < |s| ==> key(s[i]) < key(x)
    ensures Increasing(s + [x], key)
  {
    var t := s + [x];
    forall i, j | 0 <= i < j < |t| ensures key(t[i]) < key(t[j]) {
      assert t[i] == s[i];
      if j < |s| { assert t[j] == s[j]; }
    }
  }

  /** Filtering keeps every key below the bound. */
  lemma BelowFilter<T>(s: seq<T>, p: T -> bool, key: T -> nat, bound: nat)
    requires Below(s, key, bound)
    ensures Below(Filter(s, p), key, bound)
  {
    var r := Filter(s, p);
    forall i | 0 <= i < |r| ensures key(r[i]) < bound {
      var j :| 0 <= j < |s| && s[j] == r[i];
    }
  }
}
