/**
 * The scoring engine of utils/calculations.ts: four category sub-scores and
 * the weighted summary score. JavaScript's Math.round(x) is floor(x + 1/2);
 * applied to an exact quotient n/d with d > 0 it is RoundDiv(n, d).
 */
module Calculations {
  import opened Types

  /** Math.round(n / d) for a positive divisor: the integer nearest n/d, halves rounded up. */
  function RoundDiv(n: int, d: int): (r: int)
    requires d > 0
    ensures 2 * d * r <= 2 * n + d < 2 * d * r + 2 * d
  {
    (2 * n + d) / (2 * d)
  }

  /** Two quotients that are rounded the same way keep their order. */
  lemma RoundDivMonotone(n1: int, n2: int, d: int)
    requires d > 0 && n1 <= n2
    ensures RoundDiv(n1, d) <= RoundDiv(n2, d)
  {
    var r1, r2 := RoundDiv(n1, d), RoundDiv(n2, d);
    if r1 > r2 {
      assert r1 >= r2 + 1;
      MulMonotone(2 * d, r2 + 1, r1);
      assert false;
    }
  }

  lemma MulMonotone(c: int, a: int, b: int)
    requires c > 0 && a <= b
    ensures c * a <= c * b
  {
    assert c * b - c * a == c * (b - a);
  }

  /** An exact multiple is not moved by rounding. */
  lemma RoundDivExact(k: int, d: int)
    requires d > 0
    ensures RoundDiv(k * d, d) == k
  {
    var r := RoundDiv(k * d, d);
    if r < k {
      MulMonotone(2 * d, r + 1, k);
      assert false;
    } else if r > k {
      MulMonotone(2 * d, k + 1, r);
      assert false;
    }
  }

  // ---- attendance ----------------------------------------------------------

  /** calculateAbsensiScore: hadir as a rounded percentage of the meetings; 0 when there are none. */
  function AttendanceScore(cfg: Config, hadir: int): (r: int)
    ensures cfg.totalMeetings == 0 ==> r == 0
    ensures cfg.totalMeetings > 0 ==>
      2 * cfg.totalMeetings * r <= 200 * hadir + cfg.totalMeetings < 2 * cfg.totalMeetings * (r + 1)
  {
    if cfg.totalMeetings == 0 then 0 else RoundDiv(hadir * 100, cfg.totalMeetings)
  }

  lemma AttendanceMonotone(cfg: Config, h1: int, h2: int)
    requires h1 <= h2
    ensures AttendanceScore(cfg, h1) <= AttendanceScore(cfg, h2)
  {
    if cfg.totalMeetings > 0 {
      RoundDivMonotone(h1 * 100, h2 * 100, cfg.totalMeetings);
    }
  }

  lemma AttendanceFull(cfg: Config)
    requires cfg.totalMeetings > 0
    ensures AttendanceScore(cfg, cfg.totalMeetings) == 100
  {
    assert cfg.totalMeetings * 100 == 100 * cfg.totalMeetings;
    RoundDivExact(100, cfg.totalMeetings);
  }

  /** A present count within [0, TOTAL_MEETINGS] scores within [0, 100]. */
  lemma AttendanceBounds(cfg: Config, hadir: int)
    requires cfg.totalMeetings > 0 && 0 <= hadir <= cfg.totalMeetings
    ensures 0 <= AttendanceScore(cfg, hadir) <= 100
  {
    AttendanceMonotone(cfg, 0, hadir);
    AttendanceMonotone(cfg, hadir, cfg.totalMeetings);
    RoundDivExact(0, cfg.totalMeetings);
    AttendanceFull(cfg);
  }

  // ---- exams ---------------------------------------------------------------

  function ExamTotal(e: ExamScores): int {
    e.mid1 + e.final1 + e.mid2 + e.final2
  }

  /** calculateExamAverage: the mean of the four exams, rounded. */
  function ExamAverage(e: ExamScores): (r: int)
    ensures 8 * r <= 2 * ExamTotal(e) + 4 < 8 * r + 8
  {
    RoundDiv(ExamTotal(e), 4)
  }

  lemma ExamAverageOfEqual(v: int)
    ensures ExamAverage(ExamScores(v, v, v, v)) == v
  {
    RoundDivExact(v, 4);
  }

  lemma ExamAverageExample()
    ensures ExamAverage(ExamScores(70, 80, 90, 100)) == 85
  {
  }

  // ---- proactiveness -------------------------------------------------------

  /** The three participation counters added up (also the menu's "Total Proactive" column). */
  function TotalProactive(p: Proactiveness): (r: int)
    ensures p.bertanya >= 0 && p.menjawab >= 0 && p.menambahkan >= 0 ==>
      r >= p.bertanya && r >= p.menjawab && r >= p.menambahkan
  {
    p.bertanya + p.menjawab + p.menambahkan
  }

  /** calculateProactivenessScore: a step, 100 strictly above TOTAL_MEETINGS and 50 otherwise. */
  function ProactivenessScore(cfg: Config, p: Proactiveness): (r: int)
    ensures r == 50 || r == 100
    ensures r == 100 <==> TotalProactive(p) > cfg.totalMeetings
    ensures r == 50 <==> TotalProactive(p) <= cfg.totalMeetings
  {
    if TotalProactive(p) > cfg.totalMeetings then 100 else 50
  }

  // ---- tasks ---------------------------------------------------------------

  /** calculateTaskScore: completed tasks as a rounded percentage; 0 when there are no tasks. */
  function TaskScore(cfg: Config, t: Tasks): (r: int)
    ensures cfg.totalTasks == 0 ==> r == 0
    ensures cfg.totalTasks > 0 ==>
      2 * cfg.totalTasks * r <= 200 * t.selesai + cfg.totalTasks < 2 * cfg.totalTasks * (r + 1)
  {
    if cfg.totalTasks == 0 then 0 else RoundDiv(t.selesai * 100, cfg.totalTasks)
  }

  lemma TaskMonotone(cfg: Config, s1: int, s2: int)
    requires s1 <= s2
    ensures TaskScore(cfg, Tasks(s1)) <= TaskScore(cfg, Tasks(s2))
  {
    if cfg.totalTasks > 0 {
      RoundDivMonotone(s1 * 100, s2 * 100, cfg.totalTasks);
    }
  }

  lemma TaskBounds(cfg: Config, t: Tasks)
    requires 0 <= t.selesai <= cfg.totalTasks
    ensures 0 <= TaskScore(cfg, t) <= 100
  {
    if cfg.totalTasks > 0 {
      TaskMonotone(cfg, 0, t.selesai);
      TaskMonotone(cfg, t.selesai, cfg.totalTasks);
      RoundDivExact(0, cfg.totalTasks);
      assert cfg.totalTasks * 100 == 100 * cfg.totalTasks;
      RoundDivExact(100, cfg.totalTasks);
    }
  }

  lemma TaskScoreExample()
    ensures TaskScore(Config(0, 10), Tasks(5)) == 50
  {
  }

  // ---- summary -------------------------------------------------------------

  /** The four sub-scores weighted 10/40/20/30 percent, rounded once at the end. */
  function WeightedSummary(a: int, e: int, p: int, t: int): (r: int)
    ensures 200 * r <= 2 * (10 * a + 40 * e + 20 * p + 30 * t) + 100 < 200 * r + 200
  {
    RoundDiv(10 * a + 40 * e + 20 * p + 30 * t, 100)
  }

  /** calculateSummaryScore: the weighted sub-scores of one student, rounded to the nearest integer. */
  function SummaryScore(cfg: Config, s: Student): (r: int)
    ensures var a, e, p, t := AttendanceScore(cfg, s.attendance.hadir), ExamAverage(s.exams),
      ProactivenessScore(cfg, s.proactiveness), TaskScore(cfg, s.tasks);
      200 * r <= 2 * (10 * a + 40 * e + 20 * p + 30 * t) + 100 < 200 * r + 200
  {
    WeightedSummary(
      AttendanceScore(cfg, s.attendance.hadir),
      ExamAverage(s.exams),
      ProactivenessScore(cfg, s.proactiveness),
      TaskScore(cfg, s.tasks))
  }

  lemma WeightedSummaryMonotone(a1: int, e1: int, p1: int, t1: int, a2: int, e2: int, p2: int, t2: int)
    requires a1 <= a2 && e1 <= e2 && p1 <= p2 && t1 <= t2
    ensures WeightedSummary(a1, e1, p1, t1) <= WeightedSummary(a2, e2, p2, t2)
  {
    RoundDivMonotone(10 * a1 + 40 * e1 + 20 * p1 + 30 * t1, 10 * a2 + 40 * e2 + 20 * p2 + 30 * t2, 100);
  }

  lemma WeightedSummaryBounds(a: int, e: int, p: int, t: int)
    requires 0 <= a <= 100 && 0 <= e <= 100 && 0 <= p <= 100 && 0 <= t <= 100
    ensures 0 <= WeightedSummary(a, e, p, t) <= 100
  {
    WeightedSummaryMonotone(0, 0, 0, 0, a, e, p, t);
    WeightedSummaryMonotone(a, e, p, t, 100, 100, 100, 100);
  }

  lemma WeightedSummaryFull()
    ensures WeightedSummary(100, 100, 100, 100) == 100
  {
    assert RoundDiv(10000, 100) == 100;
  }

  lemma WeightedSummaryZero()
    ensures WeightedSummary(0, 0, 0, 0) == 0
  {
    assert RoundDiv(0, 100) == 0;
  }

  /** Proactiveness never scores below 50, so non-negative other sub-scores give at least 10. */
  lemma SummaryAtLeastTen(cfg: Config, s: Student)
    requires AttendanceScore(cfg, s.attendance.hadir) >= 0
    requires ExamAverage(s.exams) >= 0
    requires TaskScore(cfg, s.tasks) >= 0
    ensures SummaryScore(cfg, s) >= 10
  {
    WeightedSummaryMonotone(0, 0, 50, 0,
      AttendanceScore(cfg, s.attendance.hadir), ExamAverage(s.exams),
      ProactivenessScore(cfg, s.proactiveness), TaskScore(cfg, s.tasks));
  }

  /** Students whose entries are in range get a summary in [0, 100]. */
  lemma SummaryBounds(cfg: Config, s: Student)
    requires cfg.totalMeetings > 0 ==> 0 <= s.attendance.hadir <= cfg.totalMeetings
    requires 0 <= ExamAverage(s.exams) <= 100
    requires cfg.totalTasks > 0 ==> 0 <= s.tasks.selesai <= cfg.totalTasks
    ensures 0 <= SummaryScore(cfg, s) <= 100
  {
    if cfg.totalMeetings > 0 {
      AttendanceBounds(cfg, s.attendance.hadir);
    }
    if cfg.totalTasks > 0 {
      TaskBounds(cfg, s.tasks);
    }
    WeightedSummaryBounds(AttendanceScore(cfg, s.attendance.hadir), ExamAverage(s.exams),
      ProactivenessScore(cfg, s.proactiveness), TaskScore(cfg, s.tasks));
  }

  /** The summary reads only hadir, the exams, the proactiveness counters and the tasks. */
  lemma SummaryReadsOnlyScoredFields(cfg: Config, s1: Student, s2: Student)
    requires s1.attendance.hadir == s2.attendance.hadir
    requires s1.exams == s2.exams && s1.proactiveness == s2.proactiveness && s1.tasks == s2.tasks
    ensures SummaryScore(cfg, s1) == SummaryScore(cfg, s2)
  {
  }
}
