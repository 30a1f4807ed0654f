/**
 * The user endpoints: getting or creating the user of a device, reading a
 * user, listing a user's courses, joining a course by class code and
 * leaving it. A device has at most one user.
 */
module Users {
  import opened Wrappers
  import opened Seqs
  import opened Text
  import opened Models
  import opened Store

  // ---------------------------------------------------------------------------
  // create_or_get_user
  // ---------------------------------------------------------------------------

  /** The user row with its role replaced when it has the given id. */
  function WithRole(id: Id, role: Role): User -> User {
    (u: User) => if u.id == id then u.(role := role) else u
  }

  /** `users.update({"role": role}).eq("id", id)`: every row with the id gets the role, nothing else changes. */
  function SetRole(users: seq<User>, id: Id, role: Role): (r: seq<User>)
    ensures |r| == |users|
    ensures forall k :: 0 <= k < |users| ==> r[k].id == users[k].id && r[k].deviceId == users[k].deviceId
    ensures forall k :: 0 <= k < |users| ==> r[k].role == (if users[k].id == id then role else users[k].role)
    ensures forall k :: 0 <= k < |users| ==> r[k].displayName == users[k].displayName && r[k].createdAt == users[k].createdAt
  {
    Map(users, WithRole(id, role))
  }

  /** Changing roles leaves the device ids alone, so they stay unique and each device finds the same row. */
  lemma SetRoleKeepsDevices(users: seq<User>, id: Id, role: Role, device: string)
    requires UniqueDevices(users)
    ensures UniqueDevices(SetRole(users, id, role))
    ensures UserByDevice(SetRole(users, id, role), device) == UserByDevice(users, device)
  {
    var r := SetRole(users, id, role);
    var p := (u: User) => u.deviceId == device;
    assert forall k :: 0 <= k < |users| ==> p(r[k]) == p(users[k]);
    FirstIndexSame(users, r, p, p);
  }

  /** Sequences on which `p` agrees position by position have the same first match. */
  lemma {:induction false} FirstIndexSame<T, U>(s: seq<T>, t: seq<U>, p: T -> bool, q: U -> bool)
    requires |s| == |t|
    requires forall k :: 0 <= k < |s| ==> p(s[k]) == q(t[k])
    ensures FirstIndex(s, p) == FirstIndex(t, q)
    decreases |s|
  {
    if s != [] {
      assert forall k :: 0 <= k < |s| - 1 ==> s[1..][k] == s[k + 1] && t[1..][k] == t[k + 1];
      FirstIndexSame(s[1..], t[1..], p, q);
    }
  }

  /** A user whose device no stored user has, with a fresh id, keeps the tables consistent. */
  lemma AddUserConsistent(t: Tables, u: User)
    requires Consistent(t)
    requires u.id == t.next && UserByDevice(t.users, u.deviceId).None?
    ensures Consistent(t.(users := t.users + [u], next := t.next + 1))
  {
    var us := t.users + [u];
    forall i, j | 0 <= i < j < |us| ensures us[i].deviceId != us[j].deviceId {
      assert us[i] == t.users[i];
      if j < |t.users| { assert us[j] == t.users[j]; }
    }
    BelowSnoc(t.users, UserId, t.next + 1, u);
  }

  /** Changing a role keeps the tables consistent. */
  lemma SetRoleConsistent(t: Tables, id: Id, role: Role)
    requires Consistent(t)
    ensures Consistent(t.(users := SetRole(t.users, id, role)))
  {
    SetRoleKeepsDevices(t.users, id, role, "");
    assert forall k :: 0 <= k < |t.users| ==> UserId(SetRole(t.users, id, role)[k]) == UserId(t.users[k]);
  }

  /**
   * `create_or_get_user`: the device's user is returned with the requested
   * role (its stored role updated when it differed), inserting nothing;
   * a device without a user gets exactly one new user. Either way the
   * device's user, looked up again, is the one returned.
   */
  method CreateOrGetUser(db: Database, deviceId: string, role: Role, displayName: Option<string>) returns (r: User)
    requires db.Valid()
    modifies db
    ensures db.Valid()
    ensures UserByDevice(old(db.users), deviceId).Some? ==>
      var old_user := old(db.users)[UserByDevice(old(db.users), deviceId).value];
      && r == old_user.(role := role)
      && db.State() == old(db.State()).(users := if old_user.role != role then SetRole(old(db.users), old_user.id, role) else old(db.users))
    ensures UserByDevice(old(db.users), deviceId).None? ==>
      && r == Store.User(old(db.next), deviceId, role, displayName, old(db.next))
      && db.State() == old(db.State()).(users := old(db.users) + [r], next := old(db.next) + 1)
    ensures UserByDevice(db.users, deviceId).Some? && db.users[UserByDevice(db.users, deviceId).value] == r
  {
    var found := UserByDevice(db.users, deviceId);
    if found.Some? {
      var user := db.users[found.value];
      if user.role != role {
        SetRoleConsistent(db.State(), user.id, role);
        SetRoleKeepsDevices(db.users, user.id, role, deviceId);
        db.users := SetRole(db.users, user.id, role);
      }
      r := user.(role := role);
      return;
    }
    var t := db.State();
    var id := db.NewId();
    r := Store.User(id, deviceId, role, displayName, id);
    AddUserConsistent(t, r);
    db.users := db.users + [r];
    NewUserFound(t.users, r);
  }

  /** A user appended under a device no stored user has is the one that device then finds. */
  lemma NewUserFound(users: seq<User>, u: User)
    requires UserByDevice(users, u.deviceId).None?
    ensures UserByDevice(users + [u], u.deviceId) == Some(|users|)
  {
    var p := (x: User) => x.deviceId == u.deviceId;
    FirstIndexSnoc(users, u, p);
  }

  /** When nothing in `s` matches, the first match of `s + [x]` is `x`, if it matches. */
  lemma {:induction false} FirstIndexSnoc<T>(s: seq<T>, x: T, p: T -> bool)
    requires FirstIndex(s, p).None?
    ensures FirstIndex(s + [x], p) == if p(x) then Some(|s|) else None
    decreases |s|
  {
    if s != [] {
      assert (s + [x])[1..] == s[1..] + [x];
      FirstIndexSnoc(s[1..], x, p);
    } else {
      assert [] + [x] == [x];
    }
  }

  // ---------------------------------------------------------------------------
  // get_user
  // ---------------------------------------------------------------------------

  /** `get_user`: the user with the id, or 404. */
  function GetUser(users: seq<User>, id: Id): (r: Result<User, Status>)
    ensures r.Success? ==> r.value in users && r.value.id == id
    ensures r.Failure? <==> forall k :: 0 <= k < |users| ==> users[k].id != id
    ensures r.Failure? ==> r.error == Status(404, "User not found")
  {
    match UserById(users, id)
    case None => Failure(Status(404, "User not found"))
    case Some(u) => Success(u)
  }

  // ---------------------------------------------------------------------------
  // get_user_courses
  // ---------------------------------------------------------------------------

  function MembershipCourse(m: Membership): Id { m.courseId }

  /** Whether a membership belongs to the user. */
  function OfUser(userId: Id): Membership -> bool {
    (m: Membership) => m.userId == userId
  }

  /** Whether a course's id is among the ids (`in_("id", ids)`). */
  function IdIn(ids: seq<Id>): Course -> bool {
    (c: Course) => c.id in ids
  }

  /** The course ids of the user's memberships. */
  function UserCourseIds(memberships: seq<Membership>, userId: Id): (r: seq<Id>)
    ensures forall id :: id in r <==> IsMember(memberships, userId, id)
  {
    var mine := Filter(memberships, OfUser(userId));
    var ids := Map(mine, MembershipCourse);
    assert forall id :: IsMember(memberships, userId, id) ==> id in ids by {
      forall id | IsMember(memberships, userId, id) ensures id in ids {
        var k :| 0 <= k < |memberships| && memberships[k].userId == userId && memberships[k].courseId == id;
        assert memberships[k] in mine;
        var j :| 0 <= j < |mine| && mine[j] == memberships[k];
        assert ids[j] == id;
      }
    }
    assert forall id :: id in ids ==> IsMember(memberships, userId, id) by {
      forall id | id in ids ensures IsMember(memberships, userId, id) {
        var j :| 0 <= j < |ids| && ids[j] == id;
        var m := mine[j];
        var k :| 0 <= k < |memberships| && memberships[k] == m;
      }
    }
    ids
  }

  /**
   * `get_user_courses`: exactly the stored courses whose id is among the
   * user's memberships, in table order; none when the user has no
   * membership.
   */
  function GetUserCourses(courses: seq<Course>, memberships: seq<Membership>, userId: Id): (r: seq<Course>)
    ensures forall k :: 0 <= k < |r| ==> r[k] in courses && IsMember(memberships, userId, r[k].id)
    ensures forall k :: 0 <= k < |courses| && IsMember(memberships, userId, courses[k].id) ==> courses[k] in r
    ensures (forall k :: 0 <= k < |memberships| ==> memberships[k].userId != userId) ==> r == []
  {
    var ids := UserCourseIds(memberships, userId);
    if ids == [] then []
    else
      assert ids[0] in ids;
      Filter(courses, IdIn(ids))
  }

  // ---------------------------------------------------------------------------
  // join_course
  // ---------------------------------------------------------------------------

  /**
   * `join_course`: 404 when no course holds the upper-cased code, then 404
   * when the user is missing; otherwise the course is returned, and a
   * membership carrying the user's role is added unless the user is already
   * a member. Afterwards the user is a member, so joining again changes
   * nothing.
   */
  method JoinCourse(db: Database, userId: Id, classCode: string) returns (r: Result<Course, Status>)
    requires db.Valid()
    modifies db
    ensures db.Valid()
    ensures CourseByCode(old(db.courses), Upper(classCode)).None? ==>
      r == Failure(Status(404, "Course not found")) && db.State() == old(db.State())
    ensures CourseByCode(old(db.courses), Upper(classCode)).Some? && UserById(old(db.users), userId).None? ==>
      r == Failure(Status(404, "User not found")) && db.State() == old(db.State())
    ensures CourseByCode(old(db.courses), Upper(classCode)).Some? && UserById(old(db.users), userId).Some? ==>
      var course := CourseByCode(old(db.courses), Upper(classCode)).value;
      var user := UserById(old(db.users), userId).value;
      && r == Success(course)
      && db.State() == old(db.State()).(memberships :=
           if IsMember(old(db.memberships), userId, course.id) then old(db.memberships)
           else old(db.memberships) + [Membership(userId, course.id, user.role)])
      && IsMember(db.memberships, userId, course.id)
  {
    var found := CourseByCode(db.courses, Upper(classCode));
    if found.None? {
      return Failure(Status(404, "Course not found"));
    }
    var course := found.value;
    var user := UserById(db.users, userId);
    if user.None? {
      return Failure(Status(404, "User not found"));
    }
    if !IsMember(db.memberships, userId, course.id) {
      var m := Membership(userId, course.id, user.value.role);
      JoinedIsMember(db.memberships, m);
      db.memberships := db.memberships + [m];
    }
    r := Success(course);
  }

  /** An added membership makes its user a member of its course, and every earlier membership still counts. */
  lemma JoinedIsMember(memberships: seq<Membership>, m: Membership)
    ensures IsMember(memberships + [m], m.userId, m.courseId)
    ensures forall u: Id, c: Id :: IsMember(memberships, u, c) ==> IsMember(memberships + [m], u, c)
  {
    var ms := memberships + [m];
    assert ms[|memberships|] == m;
    forall u: Id, c: Id | IsMember(memberships, u, c) ensures IsMember(ms, u, c) {
      var k :| 0 <= k < |memberships| && memberships[k].userId == u && memberships[k].courseId == c;
      assert ms[k] == memberships[k];
    }
  }

  // ---------------------------------------------------------------------------
  // leave_course
  // ---------------------------------------------------------------------------

  /** Whether a membership is not the pair being removed. */
  function NotPair(userId: Id, courseId: Id): Membership -> bool {
    (m: Membership) => !(m.userId == userId && m.courseId == courseId)
  }

  /** The memberships after `leave_course`. */
  function WithoutMembership(memberships: seq<Membership>, userId: Id, courseId: Id): (r: seq<Membership>)
    ensures !IsMember(r, userId, courseId)
    ensures forall u: Id, c: Id :: !(u == userId && c == courseId) ==> (IsMember(r, u, c) <==> IsMember(memberships, u, c))
  {
    var r := Filter(memberships, NotPair(userId, courseId));
    forall u: Id, c: Id | !(u == userId && c == courseId) && IsMember(memberships, u, c) ensures IsMember(r, u, c) {
      var k :| 0 <= k < |memberships| && memberships[k].userId == u && memberships[k].courseId == c;
      assert memberships[k] in r;
      var j :| 0 <= j < |r| && r[j] == memberships[k];
    }
    forall u: Id, c: Id | IsMember(r, u, c) ensures IsMember(memberships, u, c) {
      var j :| 0 <= j < |r| && r[j].userId == u && r[j].courseId == c;
      var k :| 0 <= k < |memberships| && memberships[k] == r[j];
    }
    r
  }

  /**
   * `leave_course`: the user's memberships of the course are removed, every
   * other membership stays, and the call succeeds even when there was none.
   */
  method LeaveCourse(db: Database, userId: Id, courseId: Id) returns (success: bool)
    requires db.Valid()
    modifies db
    ensures db.Valid()
    ensures success
    ensures db.State() == old(db.State()).(memberships := WithoutMembership(old(db.memberships), userId, courseId))
  {
    db.memberships := WithoutMembership(db.memberships, userId, courseId);
    success := true;
  }

  /** Leaving a course that was just joined ends the membership; joining again restores it. */
  lemma LeaveAfterJoin(memberships: seq<Membership>, m: Membership)
    ensures !IsMember(WithoutMembership(memberships + [m], m.userId, m.courseId), m.userId, m.courseId)
    ensures IsMember(WithoutMembership(memberships, m.userId, m.courseId) + [m], m.userId, m.courseId)
  {
    JoinedIsMember(WithoutMembership(memberships, m.userId, m.courseId), m);
  }
}
