/** Two worked class maps: three distinct filters, and two filters sharing a name. */
module Scenarios {
  import opened Descriptors
  import opened CardFilter

  function FilterClass(className: string, name: string): ClassDescriptor
  {
    ClassDescriptor(className, name, false, {CardFilterInterface})
  }

  /** A class map whose filters are named DueDate, Assignee and Label, plus an abstract base class. */
  function ThreeFilters(): seq<ClassDescriptor>
  {
    [ FilterClass("DueDateFilter", "DueDate"),
      ClassDescriptor("AbstractFilter", "Abstract", true, {CardFilterInterface}),
      FilterClass("AssigneeFilter", "Assignee"),
      FilterClass("LabelFilter", "Label") ]
  }

  /** The three filters of ThreeFilters, ascending by name. */
  function ThreeFiltersSorted(): seq<ClassDescriptor>
  {
    [FilterClass("AssigneeFilter", "Assignee"),
     FilterClass("DueDateFilter", "DueDate"),
     FilterClass("LabelFilter", "Label")]
  }

  lemma ThreeFiltersDiscovered()
    ensures multiset(Candidates(ThreeFilters())) == multiset(ThreeFiltersSorted())
  {
    var m := ThreeFilters();
    assert Candidates(m[3..]) == [m[3]];
    assert Candidates(m[2..]) == [m[2], m[3]];
    assert Candidates(m[1..]) == [m[2], m[3]];
    assert Candidates(m) == [m[0], m[2], m[3]];
  }

  lemma ThreeFiltersSortedIsSorted()
    ensures StrictlySortedByName(ThreeFiltersSorted())
  {
    var s := ThreeFiltersSorted();
    assert NameOrder.Less(s[0].name, s[1].name);
    assert NameOrder.Less(s[1].name, s[2].name);
    NameOrder.LessTransitive(s[0].name, s[1].name, s[2].name);
  }

  /**
    Whatever order a factory built from ThreeFilters stores, it is a
    strictly ascending permutation of the discovered classes, and only one
    list is that.
   */
  lemma ThreeFiltersStoredOrder(stored: seq<ClassDescriptor>)
    requires StrictlySortedByName(stored)
    requires multiset(stored) == multiset(Candidates(ThreeFilters()))
    ensures stored == ThreeFiltersSorted()
  {
    ThreeFiltersDiscovered();
    ThreeFiltersSortedIsSorted();
    StrictlySortedPermutationUnique(stored, ThreeFiltersSorted());
  }

  lemma ThreeFiltersSortedMenu()
    ensures Names(ThreeFiltersSorted()) + [BackOption] == ["Assignee", "DueDate", "Label", "<- Back"]
  {
  }

  /** The menu a factory built from ThreeFilters offers: Assignee, DueDate, Label, then the back option. */
  lemma ThreeFiltersMenu(stored: seq<ClassDescriptor>)
    requires StrictlySortedByName(stored)
    requires multiset(stored) == multiset(Candidates(ThreeFilters()))
    ensures Names(stored) + [BackOption] == ["Assignee", "DueDate", "Label", "<- Back"]
  {
    ThreeFiltersStoredOrder(stored);
    ThreeFiltersSortedMenu();
  }

  /** Two classes both named DueDate: validation stops at the second of them. */
  function TwoDueDates(): seq<ClassDescriptor>
  {
    [FilterClass("DueDateFilter", "DueDate"), FilterClass("OtherDueDateFilter", "DueDate")]
  }

  lemma TwoDueDatesRejected()
    ensures !DistinctNames(Candidates(TwoDueDates()))
    ensures FirstRejectedAt(Candidates(TwoDueDates()), 1)
    ensures RejectionOf(Candidates(TwoDueDates())[1]) == DuplicateName("OtherDueDateFilter")
  {
    var m := TwoDueDates();
    assert Candidates(m[1..]) == [m[1]];
    assert Candidates(m) == m;
    assert Names(m[..1]) == ["DueDate"];
    assert !RejectedAt(m, 0);
  }
}
