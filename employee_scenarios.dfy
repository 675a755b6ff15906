/**
  Clients of the employee store: what callers can conclude from the
  operations' contracts alone.
*/
module EmployeeScenarios {
  import opened Common
  import opened Employees

  /** A Manager may be made its own supervisor: nothing rejects the self-link,
      so the supervisor links need not form a forest. An Employee asked to
      supervise itself is refused. */
  method SelfSupervisionAccepted() returns (store: EmployeeService, id: int, refused: Result<Rec>)
    ensures store.Valid() && id in store.records && store.records[id].supervisor == Some(id)
    ensures refused == Err(BadRequest(EmployeeCannotSupervise))
  {
    store := new EmployeeService(joinDate => true);
    var manager := store.Create(NewEmployee("Manager", "2023-08-12", 60000.0, Manager, None, []));
    id := manager.value;
    var added := store.AddSupervisor(id, id);
    assert added.Ok?;
    var john := store.Create(NewEmployee("John", "2023-08-12", 50000.0, Employee, None, []));
    refused := store.AddSupervisor(john.value, john.value);
  }

  /** Creating John, then a Manager that lists John as a subordinate: John's
      supervisor becomes the Manager. Creating a second Manager that lists John
      again is refused, because John is already managed. */
  method ManagerAdoptsEmployee() returns (store: EmployeeService, john: int, manager: int, again: Result<int>)
    ensures store.Valid() && john in store.records && manager in store.records
    ensures store.records[john].supervisor == Some(manager)
    ensures SubordinatesOf(store.records, manager) == {john}
    ensures again == Err(BadRequest(AlreadyManaged))
  {
    store := new EmployeeService(joinDate => true);
    var created := store.Create(NewEmployee("John", "2023-08-12", 50000.0, Employee, None, []));
    john := created.value;
    created := store.Create(NewEmployee("Manager", "2023-08-12", 60000.0, Manager, None, [john]));
    assert created.Ok?;
    manager := created.value;
    again := store.Create(NewEmployee("Other", "2023-08-12", 60000.0, Manager, None, [john]));
  }

  /** The subordinates are checked in list order, and the first refusal is the
      one reported: with 1 supervised and 2 unknown, listing [1, 2] is refused
      as already managed and [2, 1] as not found. */
  lemma FirstRefusalReported()
    ensures var records := map[1 := Rec("John", "2023-08-12", 50000.0, Employee, Some(3)),
                               3 := Rec("Manager", "2023-08-12", 60000.0, Manager, None)];
      && SubordinateProblem(records, [1, 2]) == Some(BadRequest(AlreadyManaged))
      && SubordinateProblem(records, [2, 1]) == Some(NotFound(EmployeeNotFound))
  {
  }

  /** Removing the supervisor that was just added restores the store. */
  method AddThenRemoveRestores(store: EmployeeService, employee: int, supervisor: int)
    requires store.Valid() && employee in store.records && supervisor in store.records
    requires store.records[employee].supervisor == None && store.records[supervisor].role != Employee
    modifies store
    ensures store.Valid() && store.records == old(store.records)
  {
    var added := store.AddSupervisor(employee, supervisor);
    var removed := store.RemoveSupervisor(employee);
    assert old(store.records)[employee].(supervisor := None) == old(store.records)[employee];
  }

  /** Naming the current supervisor again succeeds and changes nothing: the
      "same supervisor" conflict never arises. */
  method ChangeToCurrentSupervisor(store: EmployeeService, employee: int) returns (r: Result<Rec>)
    requires store.Valid() && employee in store.records
    requires store.records[employee].supervisor.Some?
    requires store.records[store.records[employee].supervisor.value].role != Employee
    modifies store
    ensures r.Ok? && store.records == old(store.records)
  {
    r := store.ChangeSupervisor(employee, store.records[employee].supervisor.value);
  }
}
