/**
 * The three pages of the client: the role selection at "/", and the
 * teacher's and the student's course lists. Each page is an object over
 * its React state, next to the browser's identity store; the backend
 * calls are function parameters whose `None` stands for a failed request.
 */
module Pages {
  import opened Wrappers
  import opened Text
  import opened Models
  import opened Browser

  /** The routes the pages navigate between. */
  datatype Route = Landing | TeacherHome | StudentHome

  function Path(r: Route): string {
    match r
    case Landing => "/"
    case TeacherHome => "/teacher"
    case StudentHome => "/student"
  }

  /** The home page of a role. */
  function HomeOf(role: Role): (r: Route)
    ensures r != Landing
    ensures Path(r) == "/" + RoleName(role)
  {
    match role
    case Teacher => TeacherHome
    case Student => StudentHome
  }

  /** A stored text counts only when present and not empty (JavaScript truthiness). */
  predicate Truthy(v: Option<string>) {
    v.Some? && v.value != ""
  }

  /** The redirect of "/" on mount: a stored role and user id go to the role's home; otherwise the page stays. */
  function LandingMount(role: Option<Role>, userId: Option<string>): (r: Option<Route>)
    ensures r.Some? <==> role.Some? && Truthy(userId)
    ensures r.Some? ==> r.value == HomeOf(role.value)
  {
    if role.Some? && Truthy(userId) then Some(HomeOf(role.value)) else None
  }

  /**
   * The mount guard of a role's home page: without a role or a user id to
   * "/", with the other role to that role's home, and otherwise `None`:
   * the page stays and loads its courses.
   */
  function GuardTarget(role: Option<Role>, userId: Option<string>, page: Role): (r: Option<Route>)
    ensures role.None? || !Truthy(userId) ==> r == Some(Landing)
    ensures role.Some? && Truthy(userId) && role.value != page ==> r == Some(HomeOf(role.value))
    ensures r.None? <==> role == Some(page) && Truthy(userId)
  {
    if role.None? || !Truthy(userId) then Some(Landing)
    else if role.value != page then Some(HomeOf(role.value))
    else None
  }

  /** No page redirects to itself, and where "/" sends a stored user, that home stays and loads. */
  lemma RedirectsSettle(role: Option<Role>, userId: Option<string>, page: Role)
    ensures GuardTarget(role, userId, page) != Some(HomeOf(page))
    ensures LandingMount(role, userId).Some? ==> GuardTarget(role, userId, role.value).None?
    ensures GuardTarget(role, userId, page) == Some(Landing) ==> LandingMount(role, userId).None?
  {
  }

  /** A class code as the pages send it: trimmed and upper-cased. */
  function NormalizeCode(code: string): (r: string)
    ensures |r| <= |code|
    ensures Upper(r) == r
  {
    UpperIdempotent(Strip(code));
    Upper(Strip(code))
  }

  predicate HasId(courses: seq<Course>, id: Id) {
    exists k :: 0 <= k < |courses| && courses[k].id == id
  }

  predicate UniqueIds(courses: seq<Course>) {
    forall i, j :: 0 <= i < j < |courses| ==> courses[i].id != courses[j].id
  }

  /** The list after a join: the course is appended unless one with its id is already listed. */
  function AddCourse(courses: seq<Course>, c: Course): (r: seq<Course>)
    ensures HasId(r, c.id)
    ensures HasId(courses, c.id) ==> r == courses
    ensures !HasId(courses, c.id) ==> r == courses + [c]
  {
    if HasId(courses, c.id) then courses
    else
      assert (courses + [c])[|courses|] == c;
      courses + [c]
  }

  /** Joining keeps the ids of the list unique. */
  lemma AddCourseUnique(courses: seq<Course>, c: Course)
    requires UniqueIds(courses)
    ensures UniqueIds(AddCourse(courses, c))
  {
    if !HasId(courses, c.id) {
      var r := courses + [c];
      forall i, j | 0 <= i < j < |r| ensures r[i].id != r[j].id {
        if j == |courses| {
          assert r[i] == courses[i];
        }
      }
    }
  }

  /** Joining the same course again changes nothing. */
  lemma AddCourseIdempotent(courses: seq<Course>, c: Course)
    ensures AddCourse(AddCourse(courses, c), c) == AddCourse(courses, c)
  {
  }

  /** Every course listed before a join is still listed after it, at the same place. */
  lemma AddCourseKeeps(courses: seq<Course>, c: Course)
    ensures courses <= AddCourse(courses, c)
  {
  }

  /**
   * After a successful selection the identity store holds the user id and
   * the role; so "/" then sends the user to the role's home, and that
   * home's guard lets it load.
   */
  lemma SelectionLeadsHome(items: map<string, string>, userId: string, role: Role)
    requires userId != ""
    ensures var after := items[UserKey := userId][RoleKey := RoleName(role)];
      LandingMount(RoleOf(after), Get(after, UserKey)) == Some(HomeOf(role))
      && GuardTarget(RoleOf(after), Get(after, UserKey), role).None?
  {
    var after := items[UserKey := userId][RoleKey := RoleName(role)];
    RoleRoundTrip(items[UserKey := userId], role);
    assert Get(after, UserKey) == Some(userId);
  }

  /** After Switch Role nothing is stored, so both home pages send the user back to "/". */
  lemma SwitchedRoleLeaves(items: map<string, string>, page: Role)
    ensures GuardTarget(RoleOf(Cleared(items)), Get(Cleared(items), UserKey), page) == Some(Landing)
    ensures LandingMount(RoleOf(Cleared(items)), Get(Cleared(items), UserKey)).None?
  {
    ClearKeepsDevice(items);
  }

  // ---------------------------------------------------------------------------
  // "/": the role selection
  // ---------------------------------------------------------------------------

  /** `RoleSelectPage`'s state. */
  class RoleSelectPage {
    var isLoading: bool
    var selectedRole: Option<Role>
    var navigated: Option<Route>
    const store: LocalStorage

    constructor(store: LocalStorage)
      ensures isLoading && selectedRole.None? && navigated.None? && this.store == store
    {
      isLoading := true;
      selectedRole := None;
      navigated := None;
      this.store := store;
    }

    /** Both buttons are disabled while a selection is pending. */
    predicate ButtonsDisabled()
      reads this
    {
      selectedRole.Some?
    }

    /** The mount effect: the redirect of a stored user, or the end of loading. */
    method Mount()
      modifies this
      ensures navigated == (if LandingMount(store.GetStoredRole(), store.GetStoredUserId()).Some?
        then LandingMount(store.GetStoredRole(), store.GetStoredUserId()) else old(navigated))
      ensures isLoading == (LandingMount(store.GetStoredRole(), store.GetStoredUserId()).Some? && old(isLoading))
      ensures selectedRole == old(selectedRole)
    {
      var role := store.GetStoredRole();
      var userId := store.GetStoredUserId();
      if role.Some? && userId.Some? && userId.value != "" {
        navigated := Some(HomeOf(role.value));
      } else {
        isLoading := false;
      }
    }

    /**
     * `handleRoleSelect`: the role is marked pending, the device id read
     * (and stored if new), and the user created or fetched; on success the
     * user id and the role are stored and the role's home opened, on
     * failure the selection is reset.
     */
    method HandleRoleSelect(role: Role, now: nat, random36: string, createUser: (string, Role) -> Option<string>)
      returns (userId: Option<string>)
      modifies this, store
      ensures var generated := GenerateDeviceId(now, random36);
        userId == createUser(if store.hasWindow then DeviceIdOf(old(store.items), generated) else "", role)
      ensures var withDevice := if store.hasWindow then WithDeviceId(old(store.items), GenerateDeviceId(now, random36)) else old(store.items);
        store.items == (if userId.Some? && store.hasWindow then withDevice[UserKey := userId.value][RoleKey := RoleName(role)] else withDevice)
      ensures userId.Some? ==> selectedRole == Some(role) && navigated == Some(HomeOf(role))
      ensures userId.None? ==> selectedRole.None? && navigated == old(navigated)
      ensures isLoading == old(isLoading)
    {
      selectedRole := Some(role);
      var deviceId := store.GetStoredDeviceId(now, random36);
      userId := createUser(deviceId, role);
      if userId.Some? {
        store.SetStoredUserId(userId.value);
        store.SetStoredRole(role);
        navigated := Some(HomeOf(role));
      } else {
        selectedRole := None;
      }
    }

    /** A click on a card: ignored while a selection is pending. */
    method ClickCard(role: Role, now: nat, random36: string, createUser: (string, Role) -> Option<string>)
      modifies this, store
      ensures old(selectedRole).Some? ==> selectedRole == old(selectedRole) && navigated == old(navigated) && store.items == old(store.items)
      ensures old(selectedRole).None? ==>
        var u := createUser(if store.hasWindow then DeviceIdOf(old(store.items), GenerateDeviceId(now, random36)) else "", role);
        var withDevice := if store.hasWindow then WithDeviceId(old(store.items), GenerateDeviceId(now, random36)) else old(store.items);
        && store.items == (if u.Some? && store.hasWindow then withDevice[UserKey := u.value][RoleKey := RoleName(role)] else withDevice)
        && (u.Some? ==> selectedRole == Some(role) && navigated == Some(HomeOf(role)))
        && (u.None? ==> selectedRole.None? && navigated == old(navigated))
      ensures isLoading == old(isLoading)
    {
      if selectedRole.Some? {
        return;
      }
      var _ := HandleRoleSelect(role, now, random36, createUser);
    }
  }

  // ---------------------------------------------------------------------------
  // "/teacher"
  // ---------------------------------------------------------------------------

  /** `TeacherHomePage`'s state. */
  class TeacherHomePage {
    var courses: seq<Course>
    var isLoading: bool
    var isCreating: bool
    var showCreateForm: bool
    var showJoinForm: bool
    var newCourseName: string
    var newClassCode: string
    var joinClassCode: string
    var navigated: Option<Route>
    const store: LocalStorage

    constructor(store: LocalStorage)
      ensures courses == [] && isLoading && !isCreating && !showCreateForm && !showJoinForm
      ensures newCourseName == "" && newClassCode == "" && joinClassCode == "" && navigated.None?
      ensures this.store == store
    {
      courses := [];
      isLoading := true;
      isCreating := false;
      showCreateForm := false;
      showJoinForm := false;
      newCourseName := "";
      newClassCode := "";
      joinClassCode := "";
      navigated := None;
      this.store := store;
    }

    /** The mount effect: the guard's redirect, or the user's courses loaded. */
    method Mount(load: string -> Option<seq<Course>>)
      modifies this
      ensures var target := GuardTarget(store.GetStoredRole(), store.GetStoredUserId(), Teacher);
        && (target.Some? ==> navigated == target && courses == old(courses) && isLoading == old(isLoading))
        && (target.None? ==>
              navigated == old(navigated) && !isLoading && courses == (if load(store.GetStoredUserId().value).Some? then load(store.GetStoredUserId().value).value else old(courses)))
      ensures isCreating == old(isCreating)
      ensures showCreateForm == old(showCreateForm) && showJoinForm == old(showJoinForm)
      ensures newCourseName == old(newCourseName) && newClassCode == old(newClassCode) && joinClassCode == old(joinClassCode)
    {
      var role := store.GetStoredRole();
      var userId := store.GetStoredUserId();
      var target := GuardTarget(role, userId, Teacher);
      if target.Some? {
        navigated := target;
        return;
      }
      LoadCourses(userId.value, load);
    }

    /** `loadCourses`: the fetched list replaces the courses; a failure keeps them. Loading ends either way. */
    method LoadCourses(userId: string, load: string -> Option<seq<Course>>)
      modifies this
      ensures courses == (if load(userId).Some? then load(userId).value else old(courses))
      ensures !isLoading
      ensures navigated == old(navigated) && isCreating == old(isCreating)
      ensures showCreateForm == old(showCreateForm) && showJoinForm == old(showJoinForm)
      ensures newCourseName == old(newCourseName) && newClassCode == old(newClassCode) && joinClassCode == old(joinClassCode)
    {
      var fetched := load(userId);
      if fetched.Some? {
        courses := fetched.value;
      }
      isLoading := false;
    }

    /**
     * `handleCreateCourse`: with a name, a code and a stored user id, the
     * course is created from the trimmed name and the normalised code and
     * the teacher joins it by its returned code; when both succeed the
     * course is appended and the form reset. A failure changes nothing.
     */
    method HandleCreateCourse(create: (string, string) -> Option<Course>, join: (string, string) -> Option<Course>)
      modifies this
      ensures var go := !Blank(old(newCourseName)) && !Blank(old(newClassCode)) && Truthy(store.GetStoredUserId());
        var created := create(Strip(old(newCourseName)), NormalizeCode(old(newClassCode)));
        var ok := go && created.Some? && join(store.GetStoredUserId().value, created.value.classCode).Some?;
        && courses == (if ok then old(courses) + [created.value] else old(courses))
        && (ok ==> newCourseName == "" && newClassCode == "" && !showCreateForm)
        && (!ok ==> newCourseName == old(newCourseName) && newClassCode == old(newClassCode) && showCreateForm == old(showCreateForm))
        && isCreating == (if go then false else old(isCreating))
      ensures joinClassCode == old(joinClassCode) && showJoinForm == old(showJoinForm)
      ensures isLoading == old(isLoading) && navigated == old(navigated)
    {
      if Strip(newCourseName) == "" || Strip(newClassCode) == "" {
        return;
      }
      var userId := store.GetStoredUserId();
      if userId.None? || userId.value == "" {
        return;
      }
      var course := create(Strip(newCourseName), Upper(Strip(newClassCode)));
      var joined := if course.Some? then join(userId.value, course.value.classCode) else None;
      if course.Some? && joined.Some? {
        courses, newCourseName, newClassCode, showCreateForm, isCreating := courses + [course.value], "", "", false, false;
      } else {
        isCreating := false;
      }
    }

    /**
     * `handleJoinCourse`: with a code and a stored user id, the course
     * joined by the normalised code is added unless already listed, and
     * the form reset. A failure changes nothing.
     */
    method HandleJoinCourse(join: (string, string) -> Option<Course>)
      modifies this
      ensures var go := !Blank(old(joinClassCode)) && Truthy(store.GetStoredUserId());
        var joined := join(store.GetStoredUserId().GetOr(""), NormalizeCode(old(joinClassCode)));
        var ok := go && joined.Some?;
        && courses == (if ok then AddCourse(old(courses), joined.value) else old(courses))
        && (ok ==> joinClassCode == "" && !showJoinForm)
        && (!ok ==> joinClassCode == old(joinClassCode) && showJoinForm == old(showJoinForm))
        && isCreating == (if go then false else old(isCreating))
      ensures newCourseName == old(newCourseName) && newClassCode == old(newClassCode) && showCreateForm == old(showCreateForm)
      ensures isLoading == old(isLoading) && navigated == old(navigated)
    {
      if Strip(joinClassCode) == "" {
        return;
      }
      var userId := store.GetStoredUserId();
      if userId.None? || userId.value == "" {
        return;
      }
      var course := join(userId.value, Upper(Strip(joinClassCode)));
      if course.Some? {
        courses, joinClassCode, showJoinForm, isCreating := AddCourse(courses, course.value), "", false, false;
      } else {
        isCreating := false;
      }
    }

    /** `handleSwitchRole`: the stored user is cleared and "/" opened. */
    method SwitchRole()
      modifies this, store
      ensures store.items == (if store.hasWindow then Cleared(old(store.items)) else old(store.items))
      ensures navigated == Some(Landing) && courses == old(courses)
      ensures isLoading == old(isLoading) && isCreating == old(isCreating)
      ensures showCreateForm == old(showCreateForm) && showJoinForm == old(showJoinForm)
      ensures newCourseName == old(newCourseName) && newClassCode == old(newClassCode) && joinClassCode == old(joinClassCode)
    {
      store.ClearStoredUser();
      navigated := Some(Landing);
    }
  }

  // ---------------------------------------------------------------------------
  // "/student"
  // ---------------------------------------------------------------------------

  /** `StudentHomePage`'s state. */
  class StudentHomePage {
    var courses: seq<Course>
    var isLoading: bool
    var isJoining: bool
    var classCode: string
    var showJoinForm: bool
    var navigated: Option<Route>
    const store: LocalStorage

    constructor(store: LocalStorage)
      ensures courses == [] && isLoading && !isJoining && classCode == "" && !showJoinForm && navigated.None?
      ensures this.store == store
    {
      courses := [];
      isLoading := true;
      isJoining := false;
      classCode := "";
      showJoinForm := false;
      navigated := None;
      this.store := store;
    }

    /** The mount effect: the guard's redirect, or the user's courses loaded. */
    method Mount(load: string -> Option<seq<Course>>)
      modifies this
      ensures var target := GuardTarget(store.GetStoredRole(), store.GetStoredUserId(), Student);
        && (target.Some? ==> navigated == target && courses == old(courses) && isLoading == old(isLoading))
        && (target.None? ==>
              navigated == old(navigated) && !isLoading && courses == (if load(store.GetStoredUserId().value).Some? then load(store.GetStoredUserId().value).value else old(courses)))
      ensures isJoining == old(isJoining)
      ensures classCode == old(classCode) && showJoinForm == old(showJoinForm)
    {
      var role := store.GetStoredRole();
      var userId := store.GetStoredUserId();
      var target := GuardTarget(role, userId, Student);
      if target.Some? {
        navigated := target;
        return;
      }
      LoadCourses(userId.value, load);
    }

    /** `loadCourses`: the fetched list replaces the courses; a failure keeps them. Loading ends either way. */
    method LoadCourses(userId: string, load: string -> Option<seq<Course>>)
      modifies this
      ensures courses == (if load(userId).Some? then load(userId).value else old(courses))
      ensures !isLoading
      ensures navigated == old(navigated) && isJoining == old(isJoining)
      ensures classCode == old(classCode) && showJoinForm == old(showJoinForm)
    {
      var fetched := load(userId);
      if fetched.Some? {
        courses := fetched.value;
      }
      isLoading := false;
    }

    /**
     * `handleJoinCourse`: with a code and a stored user id, the course
     * joined by the normalised code is added unless already listed, and
     * the form reset. A failure changes nothing.
     */
    method HandleJoinCourse(join: (string, string) -> Option<Course>)
      modifies this
      ensures var go := !Blank(old(classCode)) && Truthy(store.GetStoredUserId());
        var joined := join(store.GetStoredUserId().GetOr(""), NormalizeCode(old(classCode)));
        var ok := go && joined.Some?;
        && courses == (if ok then AddCourse(old(courses), joined.value) else old(courses))
        && (ok ==> classCode == "" && !showJoinForm)
        && (!ok ==> classCode == old(classCode) && showJoinForm == old(showJoinForm))
        && isJoining == (if go then false else old(isJoining))
      ensures isLoading == old(isLoading) && navigated == old(navigated)
    {
      if Strip(classCode) == "" {
        return;
      }
      var userId := store.GetStoredUserId();
      if userId.None? || userId.value == "" {
        return;
      }
      var course := join(userId.value, Upper(Strip(classCode)));
      if course.Some? {
        courses, classCode, showJoinForm, isJoining := AddCourse(courses, course.value), "", false, false;
      } else {
        isJoining := false;
      }
    }

    /** `handleSwitchRole`: the stored user is cleared and "/" opened. */
    method SwitchRole()
      modifies this, store
      ensures store.items == (if store.hasWindow then Cleared(old(store.items)) else old(store.items))
      ensures navigated == Some(Landing) && courses == old(courses)
      ensures isLoading == old(isLoading) && isJoining == old(isJoining)
      ensures classCode == old(classCode) && showJoinForm == old(showJoinForm)
    {
      store.ClearStoredUser();
      navigated := Some(Landing);
    }
  }
}
