/**
 * The state shared by the four category menus (Absenteeism, Exam,
 * Proactiveness, Task): the roster received from the application, the working
 * copy the table edits, and the two flags `isEditing` and `isModalOpen`.
 * The four components differ only in the reducer their inputs call, which
 * `Edits.ApplyEdit` selects by category.
 */
module CategoryMenus {
  import opened Types
  import opened Edits

  class CategoryMenu {
    const cfg: Config
    const category: Category
    /** The `students` prop: the roster as last committed by the application. */
    var students: Roster
    /** `localStudents`: the working copy shown in the table. */
    var localStudents: Roster
    var isEditing: bool
    var isModalOpen: bool

    /**
     * Outside editing the table shows exactly the committed roster, and the
     * confirmation dialog can only be open while editing.
     */
    ghost predicate Valid()
      reads this
    {
      (!isEditing ==> localStudents == students) && (isModalOpen ==> isEditing)
    }

    /** Mounting: `useState(false)`, `useState(students)`, `useState(false)`. */
    constructor(cfg: Config, category: Category, students: Roster)
      ensures Valid()
      ensures this.cfg == cfg && this.category == category
      ensures this.students == students && localStudents == students
      ensures !isEditing && !isModalOpen
    {
      this.cfg := cfg;
      this.category := category;
      this.students := students;
      localStudents := students;
      isEditing := false;
      isModalOpen := false;
    }

    /** The Revise button, shown only outside editing. The table keeps the committed roster. */
    method Revise()
      requires Valid() && !isEditing
      modifies this
      ensures Valid()
      ensures isEditing && !isModalOpen
      ensures students == old(students) && localStudents == old(students)
    {
      isEditing := true;
    }

    /** The Submit button, shown only while editing: it opens the dialog and changes nothing else. */
    method Submit()
      requires Valid() && isEditing
      modifies this
      ensures Valid()
      ensures isEditing && isModalOpen
      ensures students == old(students) && localStudents == old(localStudents)
    {
      isModalOpen := true;
    }

    /** The dialog's close action: editing goes on with the working copy intact. */
    method CancelModal()
      requires Valid() && isModalOpen
      modifies this
      ensures Valid()
      ensures isEditing && !isModalOpen
      ensures students == old(students) && localStudents == old(localStudents)
    {
      isModalOpen := false;
    }

    /**
     * `handleInputChange`: one input of the student with id `studentId` changed.
     * The inputs exist only while editing, and each menu's inputs carry its own category.
     */
    method InputChange(studentId: int, e: Edit)
      requires Valid() && isEditing && e.Category() == category
      modifies this
      ensures Valid()
      ensures localStudents == EditRoster(cfg, old(localStudents), studentId, e)
      ensures students == old(students) && isEditing && isModalOpen == old(isModalOpen)
    {
      localStudents := EditRoster(cfg, localStudents, studentId, e);
    }

    /**
     * `handleConfirmSubmit`: the working copy goes to the application's
     * `onUpdateStudents`, which makes it the new `students` prop; the
     * re-seeding effect then copies it back into the working copy.
     */
    method ConfirmSubmit() returns (updated: Roster)
      requires Valid() && isModalOpen
      modifies this
      ensures Valid()
      ensures updated == old(localStudents)
      ensures students == updated && localStudents == updated
      ensures !isEditing && !isModalOpen
    {
      updated := localStudents;
      students := updated;
      isEditing := false;
      isModalOpen := false;
    }

    /** The effect on `[students]`: a new prop replaces the working copy, discarding pending edits. */
    method StudentsChanged(newStudents: Roster)
      requires Valid()
      modifies this
      ensures Valid()
      ensures students == newStudents && localStudents == newStudents
      ensures isEditing == old(isEditing) && isModalOpen == old(isModalOpen)
    {
      students := newStudents;
      localStudents := newStudents;
    }
  }
}
