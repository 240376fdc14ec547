/**
 * The main menu of components/menus/MainMenu.tsx: which student is shown, and
 * the profile card with that student's summary score and class rank.
 */
module MainMenu {
  import opened Wrappers
  import opened Types
  import opened Calculations
  import opened Ranking
  import opened Lookups

  /** The initial selection: a teacher starts on the first roster entry, a student on their own record. */
  function InitialSelection(user: User, students: Roster): (r: Option<int>)
    ensures user.role == Teacher ==> (r.Some? <==> |students| > 0)
    ensures user.role == Teacher && r.Some? ==> r.value == students[0].id
    ensures user.role == StudentRole ==> (r.Some? <==> user.studentData.Some?)
    ensures user.role == StudentRole && r.Some? ==> r.value == user.studentData.value.id
  {
    if user.role == Teacher then
      (if |students| > 0 then Some(students[0].id) else None)
    else
      (match user.studentData case Some(s) => Some(s.id) case None => None)
  }

  /** `rankings.get(id) || 0`: an id without an entry shows rank 0. */
  function DisplayedRank(rankMap: map<int, nat>, id: int): (r: nat)
    ensures r == 0 <==> id !in rankMap || rankMap[id] == 0
    ensures r != 0 ==> id in rankMap && rankMap[id] == r
  {
    if id in rankMap then rankMap[id] else 0
  }

  /** What the menu renders: the "No student data" message, or a profile card. */
  datatype MainView =
    | NoStudentData
    | Profile(student: Student, summary: int, rank: nat, classSize: nat, taskScore: int)

  /** The main menu for a roster and a selected id. */
  function MainMenuView(cfg: Config, students: Roster, selected: Option<int>): (v: MainView)
    ensures v.NoStudentData? <==> (selected.None? || !HasId(students, selected.value))
    ensures v.Profile? ==> v.student in students && v.student.id == selected.value
    ensures v.Profile? ==> selected.Some? && FindById(students, selected.value) == Some(v.student)
    ensures v.Profile? ==> v.summary == SummaryScore(cfg, v.student) && v.taskScore == TaskScore(cfg, v.student.tasks)
    ensures v.Profile? ==> v.rank == DisplayedRank(ClassRanking(cfg, students), v.student.id) && v.classSize == |students|
  {
    match selected
    case None => NoStudentData
    case Some(id) =>
      match FindById(students, id)
      case None => NoStudentData
      case Some(s) =>
        Profile(s, SummaryScore(cfg, s), DisplayedRank(ClassRanking(cfg, students), s.id), |students|, TaskScore(cfg, s.tasks))
  }

  /** The displayed rank is 0 exactly for ids outside the roster, and lies in 1 .. N otherwise. */
  lemma DisplayedRankRange(cfg: Config, students: Roster, id: int)
    requires UniqueIds(students)
    ensures DisplayedRank(ClassRanking(cfg, students), id) == 0 <==> !HasId(students, id)
    ensures DisplayedRank(ClassRanking(cfg, students), id) <= |students|
  {
    ClassRankingKeys(cfg, students);
    ClassRanksAreOneToN(cfg, students);
    if HasId(students, id) {
      var i :| 0 <= i < |students| && students[i].id == id;
      assert ClassRanking(cfg, students)[students[i].id] >= 1;
    }
  }

  /** A shown profile carries the student's rank in 1 .. N, which is RankAt of its roster position. */
  lemma ProfileRank(cfg: Config, students: Roster, selected: Option<int>)
    requires UniqueIds(students)
    ensures var v := MainMenuView(cfg, students, selected);
      v.Profile? ==> 1 <= v.rank <= |students|
    ensures var v := MainMenuView(cfg, students, selected);
      v.Profile? ==> forall i :: 0 <= i < |students| && students[i].id == v.student.id ==>
        v.rank == RankAt(Entries(cfg, students), i)
  {
    var v := MainMenuView(cfg, students, selected);
    if v.Profile? {
      DisplayedRankRange(cfg, students, v.student.id);
      assert HasId(students, v.student.id);
      ClassRankingCorrect(cfg, students);
    }
  }

  /** A teacher opening the menu on a non-empty roster sees the first student. */
  lemma TeacherSeesFirstStudent(cfg: Config, user: User, students: Roster)
    requires user.role == Teacher && |students| > 0
    ensures var v := MainMenuView(cfg, students, InitialSelection(user, students));
      v.Profile? && v.student == students[0]
  {
  }

  /** A teacher on an empty roster gets the "No student data" branch. */
  lemma TeacherEmptyRoster(cfg: Config, user: User)
    requires user.role == Teacher
    ensures MainMenuView(cfg, [], InitialSelection(user, [])) == NoStudentData
  {
  }

  /** A student sees the roster's current record with their own id, or nothing if the roster lacks it. */
  lemma StudentSeesOwnRecord(cfg: Config, user: User, students: Roster)
    requires user.role == StudentRole && user.studentData.Some?
    ensures var v := MainMenuView(cfg, students, InitialSelection(user, students));
      && (v.Profile? <==> HasId(students, user.studentData.value.id))
      && (v.Profile? ==> v.student.id == user.studentData.value.id)
  {
  }

  /** The menu's own state: the selected student id. */
  class MainMenuState {
    const user: User
    var selectedStudentId: Option<int>

    /** Mounting the menu computes the initial selection from the roster at that moment. */
    constructor (user: User, students: Roster)
      ensures this.user == user && selectedStudentId == InitialSelection(user, students)
    {
      this.user := user;
      selectedStudentId := InitialSelection(user, students);
    }

    /** The teacher's drop-down, which lists the roster's ids. */
    method SelectStudent(students: Roster, id: int)
      requires user.role == Teacher && HasId(students, id)
      modifies this
      ensures selectedStudentId == Some(id)
    {
      selectedStudentId := Some(id);
    }

    /** One render: compute the rankings, look up the selected student, build the card. */
    method Render(cfg: Config, students: Roster) returns (v: MainView)
      ensures v == MainMenuView(cfg, students, selectedStudentId)
      ensures UniqueIds(students) && v.Profile? ==> 1 <= v.rank <= |students|
    {
      var rankings := Rankings(cfg, students);
      if selectedStudentId.None? {
        v := NoStudentData;
      } else {
        var found := FindById(students, selectedStudentId.value);
        if found.None? {
          v := NoStudentData;
        } else {
          var s := found.value;
          var rank := if s.id in rankings then rankings[s.id] else 0;
          v := Profile(s, SummaryScore(cfg, s), rank, |students|, TaskScore(cfg, s.tasks));
        }
      }
      if UniqueIds(students) {
        ProfileRank(cfg, students, selectedStudentId);
      }
    }
  }
}
