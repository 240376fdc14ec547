# Gradebook dashboard: a Dafny model

This project models the logic of a single-class gradebook dashboard. A teacher
or a student logs in. The main menu shows one student's profile card with a
weighted summary score and a class rank. A teacher can revise four categories of
records in four menus: attendance (hadir, izin, sakit), exams (two midterms and
two finals), proactiveness (bertanya, menjawab, menambahkan) and completed tasks
(selesai). Each menu edits a working copy and commits it behind a confirmation
dialog.

Modules, in dependency order:

- `Wrappers`: `Option`.
- `Types`: the records of `types.ts`, and `Config` for the two constants
  TOTAL_MEETINGS and TOTAL_TASKS.
- `Calculations`: the five scoring functions of `utils/calculations.ts`.
  `Math.round(n / d)` is exact integer rounding `RoundDiv`.
- `Lookups`: `find` on the student id.
- `Ranking`: how `rankings` in `MainMenu.tsx` is computed.
  - The specification is a functional stable insertion sort, `SortDesc`, and the
    rank map `RankMapOf`.
  - `Rankings` is the loop-based computation, proved equal to that specification.
  - The lemmas show that ranks are a bijection onto 1..N. A higher score ranks
    first, and ties keep roster order.
- `MainMenu`: the initial selection, the profile card and the rank fallback to 0.
  The class `MainMenuState` holds `selectedStudentId`.
- `Edits`: the `handleInputChange` reducers of the four category menus. Unparsed
  input is defaulted, hadir is recomputed from izin and sakit, and tasks are
  clamped at TOTAL_TASKS.
- `CategoryMenus`: the class `CategoryMenu`, which is the state machine the four
  menus share.
  - Its fields are the committed roster, the working copy, `isEditing` and
    `isModalOpen`.
  - It has the Revise, Submit, cancel and confirm transitions, and the re-seeding
    effect.
  - `Valid()` is the invariant "outside editing the working copy is the committed
    roster".
- `App`: the session class `AppState` from `App.tsx`: login resolution, logout and
  roster replacement.
- `Dashboard`: the role filter of the navigation items, the active menu and the
  `renderContent` dispatch.

The four menus differ only in the reducer their inputs call. They are therefore one
class, parameterised by a `Category`, and `Edits.ApplyEdit` selects the reducer.

Two details of the code shape the model:

- **Tasks have an upper clamp only.** The task reducer at
  components/menus/TaskMenu.tsx:24 applies `Math.min(value, TOTAL_TASKS)` and
  nothing else, so a negative count is stored as entered (`Edits.TaskNoLowerClamp`).
- **Revise only sets `isEditing`.** The Revise button
  (components/menus/AbsenteeismMenu.tsx:51) copies nothing. The working copy is
  re-seeded from the committed roster by the effect at lines 19-21, which runs
  whenever `students` changes. This gives the same result as re-seeding on Revise,
  for two reasons:
  - Outside editing, the working copy already equals the committed roster
    (`CategoryMenus.CategoryMenu.Valid`).
  - Editing can only be left by confirming.

  So `Revise` states that the working copy after the transition is the committed
  roster.

## Model

| member | source | states |
|---|---|---|
| Calculations.RoundDiv | utils/calculations.ts:7 | For a positive divisor, the result is the integer nearest to n/d, with halves rounded up, as `Math.round` does. |
| Calculations.RoundDivMonotone | utils/calculations.ts:36 | Rounding n/d is non-decreasing in n. |
| Calculations.MulMonotone | utils/calculations.ts:7 | Scaling by a positive factor keeps order. This is the step behind the monotonicity of the attendance and task scores. |
| Calculations.RoundDivExact | utils/calculations.ts:7 | An exact multiple k·d rounds to k. |
| Calculations.AttendanceScore | utils/calculations.ts:5-8 | 0 when TOTAL_MEETINGS is 0, whatever hadir is. Otherwise hadir·100/TOTAL_MEETINGS rounded to the nearest integer. |
| Calculations.AttendanceMonotone | utils/calculations.ts:7 | The attendance score is non-decreasing in hadir. |
| Calculations.AttendanceFull | utils/calculations.ts:7 | With meetings, full attendance scores 100. |
| Calculations.AttendanceBounds | utils/calculations.ts:7 | With meetings and 0 <= hadir <= TOTAL_MEETINGS, the score is in [0,100]. |
| Calculations.ExamAverage | utils/calculations.ts:10-12 | The sum of the four exams divided by 4, rounded to the nearest integer with halves up. |
| Calculations.ExamAverageOfEqual | utils/calculations.ts:11 | Four equal scores v average to v. |
| Calculations.ExamAverageExample | utils/calculations.ts:11 | (70, 80, 90, 100) averages to 85. |
| Calculations.TotalProactive | components/menus/ProactivenessMenu.tsx:40 | The "Total Proactive" column, also used by the score. With non-negative counters it is at least each one of them. |
| Calculations.ProactivenessScore | utils/calculations.ts:14-17 | Always 50 or 100. It is 100 exactly when bertanya+menjawab+menambahkan is strictly above TOTAL_MEETINGS, and 50 exactly when it is not. |
| Calculations.TaskScore | utils/calculations.ts:19-22 | 0 when TOTAL_TASKS is 0. Otherwise selesai·100/TOTAL_TASKS rounded to the nearest integer. |
| Calculations.TaskMonotone | utils/calculations.ts:21 | The task score is non-decreasing in selesai. |
| Calculations.TaskBounds | utils/calculations.ts:21 | For 0 <= selesai <= TOTAL_TASKS, the score is in [0,100], including when TOTAL_TASKS is 0. |
| Calculations.TaskScoreExample | utils/calculations.ts:21 | TOTAL_TASKS = 10 and selesai = 5 give 50. |
| Calculations.WeightedSummary | utils/calculations.ts:30-36 | The result is the one final rounding of (10a+40e+20p+30t)/100: the weights 10/40/20/30 percent. |
| Calculations.WeightedSummaryMonotone | utils/calculations.ts:30-36 | The summary is non-decreasing in each of the four sub-scores. |
| Calculations.WeightedSummaryBounds | utils/calculations.ts:30-36 | Sub-scores in [0,100] give a summary in [0,100]. |
| Calculations.WeightedSummaryFull | utils/calculations.ts:30-36 | All four sub-scores at 100 give 100. |
| Calculations.WeightedSummaryZero | utils/calculations.ts:30-36 | All four sub-scores at 0 give 0. |
| Calculations.SummaryAtLeastTen | utils/calculations.ts:24-36 | Proactiveness contributes at least 50·20%. So non-negative attendance, exam and task scores give a summary of at least 10. |
| Calculations.SummaryScore | utils/calculations.ts:24-37 | A student's summary is the weighted sum of their four sub-scores, rounded once to the nearest integer. |
| Calculations.SummaryBounds | utils/calculations.ts:24-36 | The summary is in [0,100] when the exam average is in [0,100], hadir lies within TOTAL_MEETINGS and selesai within TOTAL_TASKS. The hadir and selesai conditions apply only when their total is positive: with a zero total, the guard scores that category 0. |
| Calculations.SummaryReadsOnlyScoredFields | utils/calculations.ts:25-28 | Two students who agree on hadir, exams, proactiveness and tasks have the same summary. Id, name, nim, picture, izin and sakit do not matter. |
| Lookups.FindIndexById | components/menus/MainMenu.tsx:122 | Returns the first index holding the id, or None when no entry has it. |
| Lookups.FindById | components/menus/MainMenu.tsx:122 | Returns a record exactly when some entry has the id. The record is the entry at the first index holding that id. |
| Lookups.FindByIdUnique | App.tsx:39 | With distinct ids, looking up a row's id returns that row. |
| Ranking.Entries | components/menus/MainMenu.tsx:111-112 | Entry i is student i's id paired with their summary score. The roster order is kept. |
| Ranking.CountAppend | components/menus/MainMenu.tsx:113 | The counts of higher and of equal scores add over concatenation. |
| Ranking.CountAtLeastBounded | components/menus/MainMenu.tsx:113 | At most \|s\| entries score at least v. |
| Ranking.CountAtLeastAntitone | components/menus/MainMenu.tsx:113 | Fewer entries reach a higher threshold. |
| Ranking.CountAtLeastBelowAbove | components/menus/MainMenu.tsx:113 | Entries at or above w are strictly above any v < w. |
| Ranking.CountEqAtIndex | components/menus/MainMenu.tsx:113 | Fewer equal scores come before entry i than in the whole sequence. |
| Ranking.SortDesc | components/menus/MainMenu.tsx:113 | The stable sort by descending score keeps the length and yields a list sorted by descending score. The permutation and placement facts are in `SortDescFacts`. |
| Ranking.Place | components/menus/MainMenu.tsx:113 | An entry's zero-based position in the stable order, given by (entries scoring more) + (equal entries earlier). It is below N. |
| Ranking.RankAt | components/menus/MainMenu.tsx:117 | The rank assigned to an entry, one plus its place, lies in 1..N. |
| Ranking.Insert | components/menus/MainMenu.tsx:113 | Inserting one entry adds one element. |
| Ranking.PlaceBelowAtLeast | components/menus/MainMenu.tsx:113 | An entry's place is below the number of entries scoring at least as much. |
| Ranking.SortedHeadBelow | components/menus/MainMenu.tsx:113 | In a descending sequence headed below v, nothing reaches v. |
| Ranking.SortedSplitScores | components/menus/MainMenu.tsx:113 | In a descending sequence, the entries scoring at least v form exactly its first CountAtLeast(t, v) positions. |
| Ranking.InsertSplit | components/menus/MainMenu.tsx:113 | The inserted entry lands after every entry scoring at least as much and before every lower one. This is the stable position. |
| Ranking.InsertAt | components/menus/MainMenu.tsx:113 | After insertion, a position before the split holds the old entry, the split holds x, and later positions hold the old entry one earlier. |
| Ranking.InsertSorted | components/menus/MainMenu.tsx:113 | Insertion keeps a sequence sorted by descending score. |
| Ranking.InsertCounts | components/menus/MainMenu.tsx:113 | Insertion adds exactly the new entry to the multiset, and to every at-least count. |
| Ranking.InsertPlaces | components/menus/MainMenu.tsx:111-113 | If every old entry sits at its place, then after insertion every entry of the extended roster sits at its place. |
| Ranking.SortDescCounts | components/menus/MainMenu.tsx:113 | The sort keeps the multiset of entries, so the number at or above any threshold is the same. |
| Ranking.SortDescPlaces | components/menus/MainMenu.tsx:111-113 | The sort puts entry i at its place. |
| Ranking.SortDescFacts | components/menus/MainMenu.tsx:111-113 | The stable descending sort is a sorted permutation of its input. Entry i lands at position (number strictly higher) + (number of equal scores before i). |
| Ranking.PlaceHigherFirst | components/menus/MainMenu.tsx:113 | A strictly higher score gets a strictly earlier place. |
| Ranking.PlaceStable | components/menus/MainMenu.tsx:111-113 | Among equal scores, the earlier roster entry gets the earlier place. |
| Ranking.PlaceOrder | components/menus/MainMenu.tsx:111-113 | Entry i is placed before entry j if and only if i scores higher, or scores the same and comes first in the roster. |
| Ranking.Upto | components/menus/MainMenu.tsx:116-117 | The set of positions 0..n-1 has exactly n members. |
| Ranking.PlacesFacts | components/menus/MainMenu.tsx:116-117 | The places of the first n entries are n distinct numbers. |
| Ranking.SubsetSameSize | components/menus/MainMenu.tsx:116-117 | A subset of a finite set with the same size is that set. |
| Ranking.PlacesArePositions | components/menus/MainMenu.tsx:116-117 | Every position 0..N-1 is some entry's place. |
| Ranking.RanksArePermutation | components/menus/MainMenu.tsx:111-119 | Ranks lie in 1..N. Distinct entries get distinct ranks, and every rank in 1..N is taken, ties included. |
| Ranking.RankMapOf | components/menus/MainMenu.tsx:115-118 | The `forEach`/`set` rank map over the sorted list. Every value is a rank in 1..N. |
| Ranking.RankMapOfKeys | components/menus/MainMenu.tsx:115-118 | The rank map has a key for exactly the ids appearing in the sorted list. |
| Ranking.RankMapOfValues | components/menus/MainMenu.tsx:116-118 | An id's rank is index+1 of its last occurrence in the sorted list, because `set` overwrites. |
| Ranking.ClassRanking | components/menus/MainMenu.tsx:110-120 | The rankings memo of a roster. Every value is a rank in 1..N. |
| Ranking.ClassRankingKeys | components/menus/MainMenu.tsx:110-120 | The rankings memo has a key for exactly the ids in the roster, with or without duplicate ids. |
| Ranking.ClassRankingAt | components/menus/MainMenu.tsx:110-120 | With distinct ids, student i is ranked, and their rank is 1 + (students scoring strictly higher) + (earlier students scoring the same). |
| Ranking.ClassRankingCorrect | components/menus/MainMenu.tsx:110-120 | With distinct ids, every student's rank is 1 + (students scoring strictly higher) + (earlier students scoring the same). |
| Ranking.ClassRankingOrder | components/menus/MainMenu.tsx:111-118 | With distinct ids, student i ranks before student j if and only if i has a strictly higher summary, or an equal one and comes earlier. |
| Ranking.ClassRanksAreOneToN | components/menus/MainMenu.tsx:111-119 | With distinct ids, the ranks are 1..N with no duplicates and no gaps. |
| Ranking.TieExample | components/menus/MainMenu.tsx:111-118 | Scores [90, 70, 90] give ranks [1, 3, 2]. |
| Ranking.InsertEntry | components/menus/MainMenu.tsx:113 | The loop that finds the insertion point computes `Insert`. |
| Ranking.SortByScoreDesc | components/menus/MainMenu.tsx:111-113 | The sorting loop computes `SortDesc`: a permutation of its input, sorted by descending score. |
| Ranking.AssignRanks | components/menus/MainMenu.tsx:115-118 | The `forEach` over the sorted list computes `RankMapOf`. |
| Ranking.Rankings | components/menus/MainMenu.tsx:110-120 | The memo equals `ClassRanking`. Its keys are exactly the roster's ids, and with distinct ids each rank is the rank formula above. |
| MainMenu.InitialSelection | components/menus/MainMenu.tsx:108 | A teacher starts on the first student's id, and on nothing with an empty roster. A student starts on their own record's id. |
| MainMenu.DisplayedRank | components/menus/MainMenu.tsx:134 | `get(id) \|\| 0`: the displayed rank is the map's value for the id, or 0 when the id has no entry (or a 0 entry). |
| MainMenu.MainMenuView | components/menus/MainMenu.tsx:122-135 | The "no student data" view appears exactly when nothing is selected or no roster entry has the selected id. Otherwise the card shows the first roster record with the selected id, the one `find` returns, with its summary, task score and rank. A rank missing from the map shows as 0. |
| MainMenu.DisplayedRankRange | components/menus/MainMenu.tsx:134 | With distinct ids, the displayed rank is 0 exactly for an id not in the roster, and never above N. |
| MainMenu.ProfileRank | components/menus/MainMenu.tsx:133-134 | With distinct ids, a shown card's rank is in 1..N and is its student's rank formula value. |
| MainMenu.TeacherSeesFirstStudent | components/menus/MainMenu.tsx:108 | A teacher with a non-empty roster first sees the first student's card, even when ids repeat. |
| MainMenu.TeacherEmptyRoster | components/menus/MainMenu.tsx:108 | A teacher with an empty roster sees "no student data". |
| MainMenu.StudentSeesOwnRecord | components/menus/MainMenu.tsx:108 | A student sees the card of the roster's record with their own id exactly when the roster has that id, and "no student data" otherwise. |
| MainMenu.MainMenuState.constructor | components/menus/MainMenu.tsx:108 | The selection starts at the initial selection. |
| MainMenu.MainMenuState.SelectStudent | components/menus/MainMenu.tsx:157 | The teacher's drop-down sets the selection to the chosen roster id. |
| MainMenu.MainMenuState.Render | components/menus/MainMenu.tsx:110-135 | One render equals `MainMenuView` for the current selection. With distinct ids a shown rank is in 1..N. |
| Edits.ParseOrDefault | components/menus/AbsenteeismMenu.tsx:24 | Input that does not parse becomes 0; a parsed number is kept. |
| Edits.SetAttendance | components/menus/AbsenteeismMenu.tsx:28-32 | Editing izin or sakit changes that field and recomputes hadir, so that the three sum to TOTAL_MEETINGS. Editing hadir stores it as is and leaves izin and sakit unchanged. |
| Edits.SetExam | components/menus/ExamMenu.tsx:27 | The named exam gets the value. The other three keep theirs. |
| Edits.SetProactive | components/menus/ProactivenessMenu.tsx:28 | The named counter gets the value and the other two keep theirs. So the total changes by exactly the difference. |
| Edits.SetTasks | components/menus/TaskMenu.tsx:24 | The stored count is min(value, TOTAL_TASKS). It never exceeds TOTAL_TASKS and equals the value whenever the value fits. |
| Edits.Incomplete | components/menus/TaskMenu.tsx:53 | Incomplete plus completed is TOTAL_TASKS. It is non-negative exactly when completed does not exceed TOTAL_TASKS. |
| Edits.ApplyEdit | components/menus/AbsenteeismMenu.tsx:26-36 | Only the edited category's record changes, as the category's setter says. Id, name, nim, picture and the other three categories are kept. |
| Edits.EditRoster | components/menus/ExamMenu.tsx:24-30 | The roster keeps its length. Every entry with the given id is edited, and every other entry is unchanged. |
| Edits.EditRosterKeepsIds | components/menus/TaskMenu.tsx:25-31 | An edit keeps every entry's id, so a roster with distinct ids keeps them distinct. |
| Edits.AttendanceReconciled | components/menus/AbsenteeismMenu.tsx:30-32 | After an izin or sakit edit, the edited student's hadir+izin+sakit is TOTAL_MEETINGS. |
| Edits.HadirEditNotReconciled | components/menus/AbsenteeismMenu.tsx:28-30 | A hadir edit is stored as typed, and the three counts then need not sum to TOTAL_MEETINGS. |
| Edits.ExamNotClamped | components/menus/ExamMenu.tsx:23-27 | 150 and -5 are stored as entered. |
| Edits.TaskEditBounded | components/menus/TaskMenu.tsx:24-31 | After a task edit, the edited student's count is at most TOTAL_TASKS and their incomplete count is non-negative. |
| Edits.TaskNoLowerClamp | components/menus/TaskMenu.tsx:24 | A parsed -3 is stored as -3. |
| CategoryMenus.CategoryMenu.Valid | components/menus/AbsenteeismMenu.tsx:15-21 | The invariant every transition keeps: outside editing, the working copy is the committed roster, and the dialog is open only while editing. |
| CategoryMenus.CategoryMenu.constructor | components/menus/AbsenteeismMenu.tsx:15-17 | A menu mounts with the working copy equal to the committed roster, not editing and with the dialog closed. |
| CategoryMenus.CategoryMenu.Revise | components/menus/AbsenteeismMenu.tsx:51 | Revise enters editing, and the working copy is the committed roster. |
| CategoryMenus.CategoryMenu.Submit | components/menus/ExamMenu.tsx:45 | Submit opens the dialog and changes nothing else. |
| CategoryMenus.CategoryMenu.CancelModal | components/menus/ProactivenessMenu.tsx:75 | Cancelling closes the dialog. Editing and the working copy are kept. |
| CategoryMenus.CategoryMenu.InputChange | components/menus/AbsenteeismMenu.tsx:23-38 | The working copy becomes `EditRoster` of the old working copy. Nothing else changes. |
| CategoryMenus.CategoryMenu.ConfirmSubmit | components/menus/TaskMenu.tsx:34-38 | Confirming hands the working copy to the application as the new roster, leaves editing and closes the dialog. The invariant is restored. |
| CategoryMenus.CategoryMenu.StudentsChanged | components/menus/ExamMenu.tsx:18-20 | A new committed roster replaces the working copy. The flags are kept. |
| App.FindIndexByCredentials | App.tsx:22 | Returns the first index whose name equals the username and whose nim equals the password, or None when there is none. |
| App.FindByCredentials | App.tsx:22 | Returns the record at the first matching index, or None exactly when no record matches. |
| App.ResolveLogin | App.tsx:16-28 | The teacher's credentials win. Otherwise the first seed roster record whose name and nim match logs that student in. Otherwise the login is rejected, exactly when nothing matches. |
| App.TeacherTakesPrecedence | App.tsx:16-18 | The teacher's credentials always log in the teacher, even if a student has the same name and nim. |
| App.RefreshedUser | App.tsx:38-43 | Only a logged-in student with a record changes: the record becomes the updated roster's first entry with the same id (`FindById`, the record `find` returns), when there is one. A teacher, or a student whose id is gone, is unchanged. |
| App.RefreshedUserTakesOwnRow | App.tsx:38-41 | With distinct ids, a student's refreshed record is their row of the new roster. |
| App.AppState.constructor | App.tsx:9-11 | No user, the seed roster and an empty error. |
| App.AppState.HandleLogin | App.tsx:13-29 | Teacher: the user is `major`/teacher with no record. Student: the user is that seed record's name, the student role and the record. In both cases the error is empty. Rejected: the user is kept and the error is "Wrong username or password.". The roster never changes. |
| App.AppState.HandleLogout | App.tsx:31-33 | The user is cleared. The roster and the error are kept. |
| App.AppState.HandleUpdateStudents | App.tsx:35-44 | The roster is replaced wholesale, and a logged-in user becomes `RefreshedUser`. |
| Dashboard.OnlyMain | components/Dashboard.tsx:30 | The filter keeps exactly the main items. |
| Dashboard.MenuItems | components/Dashboard.tsx:21-33 | A teacher sees exactly [main, absenteeism, exam, proactiveness, task], in that order. A student sees only the main menu. |
| Dashboard.AllMenusComplete | components/Dashboard.tsx:22-28 | The navigation list names all five menus. |
| Dashboard.StudentMenuItems | components/Dashboard.tsx:29-31 | A student's navigation bar is exactly [main]. |
| Dashboard.ScreenFor | components/Dashboard.tsx:35-50 | The main screen comes exactly from `main`, and every screen receives the same roster. |
| Dashboard.MenuOf | components/Dashboard.tsx:39-46 | Each category has a non-main navigation item. |
| Dashboard.ScreenForRoundTrip | components/Dashboard.tsx:36-48 | Each category's item dispatches to that category's menu, and each category screen comes from exactly its own item. |
| Dashboard.DashboardState.Valid | components/Dashboard.tsx:19-33 | The invariant the clicks keep: the active menu is one of the user's navigation items. |
| Dashboard.DashboardState.constructor | components/Dashboard.tsx:19 | The active menu starts as `main`. |
| Dashboard.DashboardState.Click | components/Dashboard.tsx:64-67 | Clicking a shown item makes it active. A student's active menu stays `main`. |
| Dashboard.DashboardState.RenderContent | components/Dashboard.tsx:35-50 | The rendered screen is the active menu's screen. For a student it is always the main screen. |

## Left out

- The radar chart geometry, the task ring and the exam bar heights of the main menu: these are floating-point trigonometry and rendering.
- Binary floating point: the weights 0.10/0.40/0.20/0.30 and `/` are computed in exact integers. A JavaScript result can differ by one from the model when the exact value lies at or next to a .5 tie. JavaScript numbers are also exact only up to 2^53, while Dafny's `int` is unbounded. So for inputs that large — a parsed long digit string, the exam sum, `TOTAL_MEETINGS - (izin + sakit)` — the source loses precision and the model does not.
- The `parseInt` grammar (whitespace, sign, trailing text): the parse is an abstract `Option<int>`. None covers NaN, for which `|| 0` gives 0. A parse that yields 0 is also 0 in the model.
- The `JSON.parse(JSON.stringify(...))` deep copy in the re-seed effect: on immutable values a copy is the value itself. For the same reason, "the rankings copy the roster and do not reorder it" holds by construction: `Ranking.Rankings` takes the roster as a value, and `Ranking.ClassRanking` is a function of the roster and the configuration alone.
- React scheduling: `useEffect` timing, `useMemo` caching and batched updates. Each handler is one synchronous transition. `CategoryMenus.CategoryMenu.ConfirmSubmit` includes the parent's roster update and the effect that follows it. Unmounting a menu when another is chosen is modelled only as constructing a fresh `CategoryMenu`.
- The four menus are one class `CategoryMenus.CategoryMenu` with a category, not four classes. Each menu's inputs carry its own category (a precondition of `InputChange`).
- The buttons and inputs are rendered only in the states that allow them. The methods state this as preconditions: Revise outside editing; Submit and the inputs while editing; the dialog's actions while it is open. The teacher's drop-down lists only roster ids.
- `renderContent`'s `default` branch is unreachable, because a menu identifier is one of five values.
- Login.tsx, Modal.tsx and Table3D.tsx are presentational and not part of this model.
- The values in `constants.ts` are parameters: `Config` for TOTAL_MEETINGS and TOTAL_TASKS, and the `AppState` constructor's teacher credentials and seed roster. Credential security and picture URLs are not modelled.
- A student login matches against the seed roster, not the edited roster. The student's record is then the seed record until the next roster update refreshes it. The main menu looks the student up by id in the current roster, so the card shows current data.
- The labels, icons and headers of the tables and navigation are not modelled.
