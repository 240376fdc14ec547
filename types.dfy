/**
 * The records of the gradebook (types.ts) and the two configuration constants
 * (TOTAL_MEETINGS, TOTAL_TASKS) that every score is normalised against.
 */
module Types {
  import opened Wrappers

  /** Excused absences (izin), sick absences (sakit) and the present count (hadir). */
  datatype Attendance = Attendance(hadir: int, izin: int, sakit: int)

  /** Two midterms and two finals. */
  datatype ExamScores = ExamScores(mid1: int, final1: int, mid2: int, final2: int)

  /** Counts of asking (bertanya), answering (menjawab) and adding to a discussion (menambahkan). */
  datatype Proactiveness = Proactiveness(bertanya: int, menjawab: int, menambahkan: int)

  /** Completed tasks (selesai). */
  datatype Tasks = Tasks(selesai: int)

  datatype Student = Student(
    id: int,
    name: string,
    nim: string,
    picture: string,
    attendance: Attendance,
    exams: ExamScores,
    proactiveness: Proactiveness,
    tasks: Tasks)

  datatype UserRole = Teacher | StudentRole

  /** The logged-in user; a student user carries the roster record it logged in with. */
  datatype User = User(username: string, role: UserRole, studentData: Option<Student>)

  /** The dashboard's menu identifiers. */
  datatype MenuType = Main | Absenteeism | Exam | ProactivenessMenu | Task

  /** TOTAL_MEETINGS and TOTAL_TASKS, fixed for a session. */
  datatype Config = Config(totalMeetings: nat, totalTasks: nat)

  type Roster = seq<Student>

  /** The roster identifies every student by a distinct id. */
  predicate UniqueIds(roster: Roster) {
    forall i, j :: 0 <= i < j < |roster| ==> roster[i].id != roster[j].id
  }

  /** Some roster entry has this id. */
  predicate HasId(roster: Roster, id: int) {
    exists i :: 0 <= i < |roster| && roster[i].id == id
  }
}
