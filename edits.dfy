/**
 * The `handleInputChange` reducers of the four category menus
 * (components/menus/AbsenteeismMenu.tsx, ExamMenu.tsx, ProactivenessMenu.tsx,
 * TaskMenu.tsx): each replaces one field of the student with a given id in the
 * working copy of the roster.
 */
module Edits {
  import opened Wrappers
  import opened Types
  import opened Calculations

  /** `parseInt(value, 10) || 0`: the typed number, or 0 for text that is not one. */
  function ParseOrDefault(parsed: Option<int>): (r: int)
    ensures parsed.None? ==> r == 0
    ensures parsed.Some? ==> r == parsed.value
  {
    parsed.GetOr(0)
  }

  datatype AttendanceField = Izin | Sakit | Hadir
  datatype ExamField = Mid1 | Final1 | Mid2 | Final2
  datatype ProactiveField = Bertanya | Menjawab | Menambahkan

  /** The four editable categories, one per menu. */
  datatype Category = AttendanceCategory | ExamCategory | ProactivenessCategory | TaskCategory

  /** One input event: the field it belongs to and the parsed text (None when it does not parse). */
  datatype Edit =
    | AttendanceEdit(attendanceField: AttendanceField, input: Option<int>)
    | ExamEdit(examField: ExamField, input: Option<int>)
    | ProactivenessEdit(proactiveField: ProactiveField, input: Option<int>)
    | TaskEdit(input: Option<int>)
  {
    function Category(): Category {
      match this
      case AttendanceEdit(_, _) => AttendanceCategory
      case ExamEdit(_, _) => ExamCategory
      case ProactivenessEdit(_, _) => ProactivenessCategory
      case TaskEdit(_) => TaskCategory
    }
  }

  // ---- attendance ------------------------------------------------------------

  /** Set one attendance field; a changed izin or sakit recomputes hadir from TOTAL_MEETINGS. */
  function SetAttendance(cfg: Config, a: Attendance, f: AttendanceField, value: int): (r: Attendance)
    ensures f == Izin ==> r.izin == value && r.sakit == a.sakit
    ensures f == Sakit ==> r.sakit == value && r.izin == a.izin
    ensures f != Hadir ==> r.hadir + r.izin + r.sakit == cfg.totalMeetings
    ensures f == Hadir ==> r.hadir == value && r.izin == a.izin && r.sakit == a.sakit
  {
    var updated := match f
      case Izin => a.(izin := value)
      case Sakit => a.(sakit := value)
      case Hadir => a.(hadir := value);
    if f != Hadir then updated.(hadir := cfg.totalMeetings - (updated.izin + updated.sakit)) else updated
  }

  // ---- exams -----------------------------------------------------------------

  function ExamGet(e: ExamScores, f: ExamField): int {
    match f
    case Mid1 => e.mid1
    case Final1 => e.final1
    case Mid2 => e.mid2
    case Final2 => e.final2
  }

  /** `{ ...student.exams, [field]: value }`: the named exam gets the value, unclamped; the others stay. */
  function SetExam(e: ExamScores, f: ExamField, value: int): (r: ExamScores)
    ensures forall g :: ExamGet(r, g) == if g == f then value else ExamGet(e, g)
  {
    match f
    case Mid1 => e.(mid1 := value)
    case Final1 => e.(final1 := value)
    case Mid2 => e.(mid2 := value)
    case Final2 => e.(final2 := value)
  }

  // ---- proactiveness ---------------------------------------------------------

  function ProactiveGet(p: Proactiveness, f: ProactiveField): int {
    match f
    case Bertanya => p.bertanya
    case Menjawab => p.menjawab
    case Menambahkan => p.menambahkan
  }

  /** `{ ...student.proactiveness, [field]: value }`: one counter changes, the other two stay. */
  function SetProactive(p: Proactiveness, f: ProactiveField, value: int): (r: Proactiveness)
    ensures forall g :: ProactiveGet(r, g) == if g == f then value else ProactiveGet(p, g)
    ensures TotalProactive(r) == TotalProactive(p) - ProactiveGet(p, f) + value
  {
    match f
    case Bertanya => p.(bertanya := value)
    case Menjawab => p.(menjawab := value)
    case Menambahkan => p.(menambahkan := value)
  }

  // ---- tasks -----------------------------------------------------------------

  /** `Math.min(value, TOTAL_TASKS)`: an upper clamp and no lower one. */
  function SetTasks(cfg: Config, t: Tasks, value: int): (r: Tasks)
    ensures r.selesai <= cfg.totalTasks
    ensures r.selesai == value || r.selesai == cfg.totalTasks
    ensures value <= cfg.totalTasks ==> r.selesai == value
  {
    t.(selesai := if value < cfg.totalTasks then value else cfg.totalTasks)
  }

  /** The "Incomplete" column: `TOTAL_TASKS - selesai`. */
  function Incomplete(cfg: Config, t: Tasks): (r: int)
    ensures r >= 0 <==> t.selesai <= cfg.totalTasks
    ensures r + t.selesai == cfg.totalTasks
  {
    cfg.totalTasks - t.selesai
  }

  // ---- one student, one roster -------------------------------------------------

  /** The updated student: only the edited category's part changes, identity fields never. */
  function ApplyEdit(cfg: Config, s: Student, e: Edit): (r: Student)
    ensures r.id == s.id && r.name == s.name && r.nim == s.nim && r.picture == s.picture
    ensures !e.AttendanceEdit? ==> r.attendance == s.attendance
    ensures !e.ExamEdit? ==> r.exams == s.exams
    ensures !e.ProactivenessEdit? ==> r.proactiveness == s.proactiveness
    ensures !e.TaskEdit? ==> r.tasks == s.tasks
    ensures e.AttendanceEdit? ==> r.attendance == SetAttendance(cfg, s.attendance, e.attendanceField, ParseOrDefault(e.input))
    ensures e.ExamEdit? ==> r.exams == SetExam(s.exams, e.examField, ParseOrDefault(e.input))
    ensures e.ProactivenessEdit? ==> r.proactiveness == SetProactive(s.proactiveness, e.proactiveField, ParseOrDefault(e.input))
    ensures e.TaskEdit? ==> r.tasks == SetTasks(cfg, s.tasks, ParseOrDefault(e.input))
  {
    var value := ParseOrDefault(e.input);
    match e
    case AttendanceEdit(f, _) => s.(attendance := SetAttendance(cfg, s.attendance, f, value))
    case ExamEdit(f, _) => s.(exams := SetExam(s.exams, f, value))
    case ProactivenessEdit(f, _) => s.(proactiveness := SetProactive(s.proactiveness, f, value))
    case TaskEdit(_) => s.(tasks := SetTasks(cfg, s.tasks, value))
  }

  /** `prev.map(student => student.id === studentId ? updated : student)`. */
  function EditRoster(cfg: Config, roster: Roster, studentId: int, e: Edit): (r: Roster)
    ensures |r| == |roster|
    ensures forall i :: 0 <= i < |roster| && roster[i].id == studentId ==> r[i] == ApplyEdit(cfg, roster[i], e)
    ensures forall i :: 0 <= i < |roster| && roster[i].id != studentId ==> r[i] == roster[i]
  {
    if roster == [] then []
    else
      var head := if roster[0].id == studentId then ApplyEdit(cfg, roster[0], e) else roster[0];
      [head] + EditRoster(cfg, roster[1..], studentId, e)
  }

  /** An edit keeps every id at its place, so distinct ids stay distinct. */
  lemma EditRosterKeepsIds(cfg: Config, roster: Roster, studentId: int, e: Edit)
    ensures forall i :: 0 <= i < |roster| ==> EditRoster(cfg, roster, studentId, e)[i].id == roster[i].id
    ensures UniqueIds(roster) ==> UniqueIds(EditRoster(cfg, roster, studentId, e))
  {
  }

  /** After an izin or sakit edit the edited student's three attendance counts add up to TOTAL_MEETINGS. */
  lemma AttendanceReconciled(cfg: Config, roster: Roster, studentId: int, f: AttendanceField, input: Option<int>, i: int)
    requires f != Hadir && 0 <= i < |roster| && roster[i].id == studentId
    ensures var a := EditRoster(cfg, roster, studentId, AttendanceEdit(f, input))[i].attendance;
      a.hadir + a.izin + a.sakit == cfg.totalMeetings
  {
  }

  /** A hadir edit is stored as typed: no reconciliation with izin and sakit. */
  lemma HadirEditNotReconciled(cfg: Config)
    ensures var a := SetAttendance(cfg, Attendance(5, 1, 1), Hadir, 20);
      a == Attendance(20, 1, 1) && (cfg.totalMeetings != 22 ==> a.hadir + a.izin + a.sakit != cfg.totalMeetings)
  {
  }

  /** Exam values are not clamped, at either end. */
  lemma ExamNotClamped(e: ExamScores)
    ensures SetExam(e, Mid1, 150).mid1 == 150 && SetExam(e, Final2, -5).final2 == -5
  {
    assert ExamGet(SetExam(e, Mid1, 150), Mid1) == 150;
    assert ExamGet(SetExam(e, Final2, -5), Final2) == -5;
  }

  /** After a task edit the edited student's count is at most TOTAL_TASKS, so nothing shows a negative incomplete count. */
  lemma TaskEditBounded(cfg: Config, roster: Roster, studentId: int, input: Option<int>, i: int)
    requires 0 <= i < |roster| && roster[i].id == studentId
    ensures var t := EditRoster(cfg, roster, studentId, TaskEdit(input))[i].tasks;
      t.selesai <= cfg.totalTasks && Incomplete(cfg, t) >= 0
  {
  }

  /** Negative counts pass the clamp unchanged. */
  lemma TaskNoLowerClamp(cfg: Config, t: Tasks)
    ensures SetTasks(cfg, t, -3).selesai == -3
  {
  }
}
