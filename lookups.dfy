/** Roster lookups shared by the session (App.tsx) and the main menu: `students.find(s => s.id === id)`. */
module Lookups {
  import opened Wrappers
  import opened Types

  /** The index of the first student with this id, if any. */
  function FindIndexById(roster: Roster, id: int): (r: Option<nat>)
    ensures r.Some? ==> r.value < |roster| && roster[r.value].id == id
    ensures r.Some? ==> forall j :: 0 <= j < r.value ==> roster[j].id != id
    ensures r.None? ==> forall j :: 0 <= j < |roster| ==> roster[j].id != id
  {
    if roster == [] then None
    else if roster[0].id == id then Some(0)
    else match FindIndexById(roster[1..], id)
      case None => None
      case Some(k) => Some(k + 1)
  }

  /** `Array.prototype.find` on the id: the first matching student, or undefined. */
  function FindById(roster: Roster, id: int): (r: Option<Student>)
    ensures r.Some? <==> HasId(roster, id)
    ensures r.Some? ==> r.value.id == id && r.value in roster
    ensures r.Some? ==> FindIndexById(roster, id).Some? && r.value == roster[FindIndexById(roster, id).value]
  {
    match FindIndexById(roster, id)
    case None => None
    case Some(k) => Some(roster[k])
  }

  /** With distinct ids the lookup returns the one record at that index. */
  lemma FindByIdUnique(roster: Roster, i: int)
    requires UniqueIds(roster) && 0 <= i < |roster|
    ensures FindById(roster, roster[i].id) == Some(roster[i])
  {
    var r := FindIndexById(roster, roster[i].id);
    assert r.Some? && r.value == i;
  }
}
