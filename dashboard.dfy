/**
 * The dashboard shell (components/Dashboard.tsx): the navigation items a role
 * may see, the active menu, and which screen renders for it.
 */
module Dashboard {
  import opened Types
  import opened Edits

  /** The five menus in navigation order. */
  const AllMenus: seq<MenuType> := [Main, Absenteeism, Exam, ProactivenessMenu, Task]

  /** `allMenus.filter(menu => menu.id === 'main')`. */
  function OnlyMain(menus: seq<MenuType>): (r: seq<MenuType>)
    ensures forall m :: m in r <==> m in menus && m == Main
    ensures |r| <= |menus|
  {
    if menus == [] then []
    else (if menus[0] == Main then [Main] else []) + OnlyMain(menus[1..])
  }

  /** The navigation items: a teacher sees all five in order, a student only the main menu. */
  function MenuItems(role: UserRole): (r: seq<MenuType>)
    ensures role == Teacher ==> r == [Main, Absenteeism, Exam, ProactivenessMenu, Task]
    ensures role == Teacher ==> forall m: MenuType :: m in r
    ensures role == StudentRole ==> forall m :: m in r <==> m == Main
    ensures Main in r
  {
    AllMenusComplete();
    if role == StudentRole then OnlyMain(AllMenus) else AllMenus
  }

  lemma AllMenusComplete()
    ensures forall m: MenuType :: m in AllMenus
  {
    forall m: MenuType
      ensures m in AllMenus
    {
      match m
      case Main => assert AllMenus[0] == m;
      case Absenteeism => assert AllMenus[1] == m;
      case Exam => assert AllMenus[2] == m;
      case ProactivenessMenu => assert AllMenus[3] == m;
      case Task => assert AllMenus[4] == m;
    }
  }

  /** The filter keeps one main item: a student's bar holds exactly that. */
  lemma {:induction false} StudentMenuItems()
    ensures MenuItems(StudentRole) == [Main]
  {
    var rest := OnlyMain(AllMenus[1..]);
    assert Main !in AllMenus[1..];
    assert OnlyMain(AllMenus) == [Main] + rest;
  }

  /** What `renderContent` mounts: the main menu, or a category menu with the roster and the update callback. */
  datatype Screen = MainScreen(students: Roster) | CategoryScreen(category: Category, students: Roster)

  /** The screen for a menu identifier; every screen is handed the same roster. */
  function ScreenFor(menu: MenuType, students: Roster): (r: Screen)
    ensures r.MainScreen? <==> menu == Main
    ensures r.students == students
  {
    match menu
    case Main => MainScreen(students)
    case Absenteeism => CategoryScreen(AttendanceCategory, students)
    case Exam => CategoryScreen(ExamCategory, students)
    case ProactivenessMenu => CategoryScreen(ProactivenessCategory, students)
    case Task => CategoryScreen(TaskCategory, students)
  }

  /** The navigation item of each category menu. */
  function MenuOf(category: Category): (r: MenuType)
    ensures r != Main
  {
    match category
    case AttendanceCategory => Absenteeism
    case ExamCategory => Exam
    case ProactivenessCategory => ProactivenessMenu
    case TaskCategory => Task
  }

  /** Every menu identifier has its own screen, and each category screen is reached from exactly one item. */
  lemma ScreenForRoundTrip(menu: MenuType, category: Category, students: Roster)
    ensures ScreenFor(MenuOf(category), students) == CategoryScreen(category, students)
    ensures ScreenFor(menu, students).CategoryScreen? ==> MenuOf(ScreenFor(menu, students).category) == menu
  {
  }

  class DashboardState {
    const user: User
    var activeMenu: MenuType

    /** The active menu is always one the user's navigation bar shows. */
    ghost predicate Valid()
      reads this
    {
      activeMenu in MenuItems(user.role)
    }

    /** `useState<MenuType>('main')`. */
    constructor(user: User)
      ensures Valid()
      ensures this.user == user && activeMenu == Main
    {
      this.user := user;
      activeMenu := Main;
    }

    /** A navigation click: only the items shown can be clicked. */
    method Click(item: MenuType)
      requires Valid() && item in MenuItems(user.role)
      modifies this
      ensures Valid()
      ensures activeMenu == item
      ensures user.role == StudentRole ==> activeMenu == Main
    {
      activeMenu := item;
    }

    /** `renderContent`: the screen of the active menu. */
    method RenderContent(students: Roster) returns (s: Screen)
      requires Valid()
      ensures s == ScreenFor(activeMenu, students)
      ensures user.role == StudentRole ==> s == MainScreen(students)
    {
      s := ScreenFor(activeMenu, students);
    }
  }
}
