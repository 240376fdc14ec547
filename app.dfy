/**
 * The session (App.tsx): who is logged in, the roster every menu reads, and
 * the last login error. Teacher credentials and the seed roster are fixed for
 * the session and supplied by the caller.
 */
module App {
  import opened Wrappers
  import opened Types
  import opened Lookups

  datatype Credentials = Credentials(username: string, password: string)

  const WrongCredentials: string := "Wrong username or password."

  /** The user record a teacher login creates: the name is fixed, there is no student record. */
  const TeacherUser: User := User("major", Teacher, None)

  /** A student logs in with the name as username and the NIM as password. */
  predicate MatchesStudent(s: Student, username: string, password: string) {
    s.name == username && s.nim == password
  }

  /** The index of the first student whose name and NIM match. */
  function FindIndexByCredentials(roster: Roster, username: string, password: string): (r: Option<nat>)
    ensures r.Some? ==> r.value < |roster| && MatchesStudent(roster[r.value], username, password)
    ensures r.Some? ==> forall j :: 0 <= j < r.value ==> !MatchesStudent(roster[j], username, password)
    ensures r.None? ==> forall j :: 0 <= j < |roster| ==> !MatchesStudent(roster[j], username, password)
  {
    if roster == [] then None
    else if MatchesStudent(roster[0], username, password) then Some(0)
    else match FindIndexByCredentials(roster[1..], username, password)
      case None => None
      case Some(k) => Some(k + 1)
  }

  /** `roster.find(s => s.name === username && s.nim === password)`. */
  function FindByCredentials(roster: Roster, username: string, password: string): (r: Option<Student>)
    ensures r.Some? ==> r.value in roster && MatchesStudent(r.value, username, password)
    ensures r.None? <==> forall i :: 0 <= i < |roster| ==> !MatchesStudent(roster[i], username, password)
    ensures r.Some? ==>
      FindIndexByCredentials(roster, username, password).Some? && r.value == roster[FindIndexByCredentials(roster, username, password).value]
  {
    match FindIndexByCredentials(roster, username, password)
    case None => None
    case Some(k) => Some(roster[k])
  }

  datatype LoginOutcome = TeacherLogin | StudentLogin(student: Student) | LoginRejected

  /** The decision of `handleLogin`: the teacher's credentials first, then the seed roster. */
  function ResolveLogin(teacher: Credentials, seed: Roster, c: Credentials): (r: LoginOutcome)
    ensures r.TeacherLogin? <==> c == teacher
    ensures r.StudentLogin? <==> c != teacher && FindByCredentials(seed, c.username, c.password).Some?
    ensures r.StudentLogin? ==> r.student in seed && MatchesStudent(r.student, c.username, c.password)
    ensures r.StudentLogin? ==> FindByCredentials(seed, c.username, c.password) == Some(r.student)
    ensures r.LoginRejected? <==>
      c != teacher && forall i :: 0 <= i < |seed| ==> !MatchesStudent(seed[i], c.username, c.password)
  {
    if c == teacher then TeacherLogin
    else match FindByCredentials(seed, c.username, c.password)
      case Some(s) => StudentLogin(s)
      case None => LoginRejected
  }

  /** The teacher wins even when a student's name and NIM equal the teacher's credentials. */
  lemma TeacherTakesPrecedence(teacher: Credentials, seed: Roster)
    ensures ResolveLogin(teacher, seed, teacher) == TeacherLogin
  {
  }

  /**
   * `handleUpdateStudents`' refresh of a logged-in student: their record is
   * replaced by the first record in the new roster with the same id, when
   * there is one; any other user is kept as is.
   */
  function RefreshedUser(user: User, updated: Roster): (r: User)
    ensures r.username == user.username && r.role == user.role
    ensures r.studentData.Some? <==> user.studentData.Some?
    ensures r.studentData.Some? ==> r.studentData.value.id == user.studentData.value.id
    ensures r != user ==>
      user.role == StudentRole && user.studentData.Some? && r.studentData == FindById(updated, user.studentData.value.id)
    ensures user.role == StudentRole && user.studentData.Some? && HasId(updated, user.studentData.value.id)
      ==> r.studentData.value in updated
    ensures user.role == StudentRole && user.studentData.Some? && HasId(updated, user.studentData.value.id) ==>
      r.studentData == FindById(updated, user.studentData.value.id)
    ensures user.role == StudentRole && user.studentData.Some? && !HasId(updated, user.studentData.value.id)
      ==> r == user
  {
    if user.role == StudentRole && user.studentData.Some? then
      match FindById(updated, user.studentData.value.id)
      case Some(s) => user.(studentData := Some(s))
      case None => user
    else user
  }

  /** With distinct ids a student's refreshed record is exactly their row of the new roster. */
  lemma RefreshedUserTakesOwnRow(user: User, updated: Roster, i: int)
    requires UniqueIds(updated) && 0 <= i < |updated|
    requires user.role == StudentRole && user.studentData.Some? && user.studentData.value.id == updated[i].id
    ensures RefreshedUser(user, updated).studentData == Some(updated[i])
  {
    FindByIdUnique(updated, i);
  }

  class AppState {
    /** TEACHER_CREDENTIALS. */
    const teacher: Credentials
    /** INITIAL_STUDENTS_DATA: the roster the session starts from and logins are checked against. */
    const seed: Roster
    var currentUser: Option<User>
    var studentsData: Roster
    var loginError: string

    constructor(teacher: Credentials, seed: Roster)
      ensures this.teacher == teacher && this.seed == seed
      ensures currentUser.None? && studentsData == seed && loginError == ""
    {
      this.teacher := teacher;
      this.seed := seed;
      currentUser := None;
      studentsData := seed;
      loginError := "";
    }

    /**
     * `handleLogin`: the error is cleared first; a teacher or a student login
     * sets the user, a rejected one keeps the user and sets the error.
     */
    method HandleLogin(c: Credentials)
      modifies this
      ensures studentsData == old(studentsData)
      ensures ResolveLogin(teacher, seed, c) == TeacherLogin ==>
        currentUser == Some(TeacherUser) && loginError == ""
      ensures ResolveLogin(teacher, seed, c).StudentLogin? ==>
        var s := ResolveLogin(teacher, seed, c).student;
        currentUser == Some(User(s.name, StudentRole, Some(s))) && loginError == ""
      ensures ResolveLogin(teacher, seed, c) == LoginRejected ==>
        currentUser == old(currentUser) && loginError == WrongCredentials
    {
      loginError := "";
      if c.username == teacher.username && c.password == teacher.password {
        currentUser := Some(TeacherUser);
        return;
      }
      var student := FindByCredentials(seed, c.username, c.password);
      if student.Some? {
        currentUser := Some(User(student.value.name, StudentRole, Some(student.value)));
        return;
      }
      loginError := WrongCredentials;
    }

    /** `handleLogout`: only the user is cleared; the roster keeps every committed edit. */
    method HandleLogout()
      modifies this
      ensures currentUser.None?
      ensures studentsData == old(studentsData) && loginError == old(loginError)
    {
      currentUser := None;
    }

    /** `handleUpdateStudents`: the new roster replaces the old, and a logged-in student's record follows it. */
    method HandleUpdateStudents(updated: Roster)
      modifies this
      ensures studentsData == updated && loginError == old(loginError)
      ensures old(currentUser).None? ==> currentUser.None?
      ensures old(currentUser).Some? ==> currentUser == Some(RefreshedUser(old(currentUser).value, updated))
    {
      studentsData := updated;
      if currentUser.Some? {
        currentUser := Some(RefreshedUser(currentUser.value, updated));
      }
    }
  }
}
