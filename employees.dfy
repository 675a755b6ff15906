/**
  The employee store: a table of employee records, each with an optional link
  to its supervisor, and the guarded operations that create and delete records
  and set or clear supervisor links. A record's subordinates are not stored:
  they are the records whose supervisor link points at it.

  No operation checks for cycles: a supervisor link may point at the employee
  itself or close a loop, so the links need not form a forest.
*/
module Employees {
  import opened Common

  /** One stored employee. */
  datatype Rec = Rec(name: string, joinDate: string, baseSalary: real, role: Role, supervisor: Option<int>)

  /** The body of a create request. */
  datatype NewEmployee = NewEmployee(
    name: string,
    joinDate: string,
    baseSalary: real,
    role: Role,
    supervisorId: Option<int>,
    subordinatesIds: seq<int>)

  type Records = map<int, Rec>

  /** The records whose supervisor is `id`. */
  function SubordinatesOf(records: Records, id: int): (subs: set<int>)
    ensures subs <= records.Keys
    ensures forall k :: k in records ==> (k in subs <==> records[k].supervisor == Some(id))
  {
    set k | k in records && records[k].supervisor == Some(id)
  }

  /** Every supervisor link points at a stored record (the store's foreign key). */
  ghost predicate LinksResolve(records: Records) {
    forall k :: k in records && records[k].supervisor.Some? ==> records[k].supervisor.value in records
  }

  /** The supervisor a create request names: the id counts only when it is
      truthy, so an absent id and the id 0 both name nobody. */
  function RequestedSupervisor(data: NewEmployee): (s: Option<int>)
    ensures s.Some? <==> data.supervisorId.Some? && data.supervisorId.value != 0
    ensures s.Some? ==> s == data.supervisorId
  {
    if data.supervisorId.Some? && data.supervisorId.value != 0 then data.supervisorId else None
  }

  /** A stored record without a supervisor: one a new employee may adopt. */
  predicate Adoptable(records: Records, id: int) {
    id in records && records[id].supervisor == None
  }

  /** The error the service throws for a listed subordinate it cannot adopt. */
  function RefusalOf(records: Records, id: int): Error {
    if id !in records then NotFound(EmployeeNotFound) else BadRequest(AlreadyManaged)
  }

  /** `ids[k]` is the first listed subordinate that cannot be adopted. */
  predicate FirstRefused(records: Records, ids: seq<int>, k: int) {
    0 <= k < |ids| && !Adoptable(records, ids[k]) && forall j :: 0 <= j < k ==> Adoptable(records, ids[j])
  }

  /** The first problem among the subordinates a create request lists, checked
      in list order: an unknown id, or one that already has a supervisor. */
  function SubordinateProblem(records: Records, ids: seq<int>): (p: Option<Error>)
    ensures p == None <==> forall k :: 0 <= k < |ids| ==> Adoptable(records, ids[k])
    ensures p.Some? ==> exists k :: FirstRefused(records, ids, k) && p.value == RefusalOf(records, ids[k])
    ensures p.Some? ==> p.value == NotFound(EmployeeNotFound) || p.value == BadRequest(AlreadyManaged)
    decreases |ids|
  {
    if |ids| == 0 then None
    else if ids[0] !in records then Some(NotFound(EmployeeNotFound))
    else if records[ids[0]].supervisor.Some? then Some(BadRequest(AlreadyManaged))
    else
      var p := SubordinateProblem(records, ids[1..]);
      assert forall k :: 0 < k < |ids| ==> ids[k] == ids[1..][k - 1];
      if p.Some? then
        var k :| FirstRefused(records, ids[1..], k) && p.value == RefusalOf(records, ids[1..][k]);
        assert FirstRefused(records, ids, k + 1);
        p
      else p
  }

  /** The records after `ids` are given the supervisor `id`. */
  function Adopt(records: Records, ids: seq<int>, id: int): (after: Records)
    ensures after.Keys == records.Keys
    ensures forall k :: k in records && k in ids ==> after[k] == records[k].(supervisor := Some(id))
    ensures forall k :: k in records && k !in ids ==> after[k] == records[k]
  {
    map k | k in records :: if k in ids then records[k].(supervisor := Some(id)) else records[k]
  }

  class EmployeeService {
    /** The date pattern a join date must match; its definition is not part of this model. */
    const datePattern: string -> bool
    var records: Records
    /** The id the store gives the next record it creates. */
    var nextId: int

    ghost predicate Valid()
      reads this
    {
      LinksResolve(records) && forall k :: k in records ==> k < nextId
    }

    constructor (datePattern: string -> bool)
      ensures Valid() && records == map[] && nextId == 1
      ensures this.datePattern == datePattern
    {
      this.datePattern := datePattern;
      records := map[];
      nextId := 1;
    }

    /** The record with id `id`, or NotFound. */
    function FindById(id: int): (r: Result<Rec>)
      reads this
      ensures r.Ok? <==> id in records
      ensures r.Ok? ==> r.value == records[id]
      ensures r.Err? ==> r.error == NotFound(EmployeeNotFound)
    {
      if id in records then Ok(records[id]) else Err(NotFound(EmployeeNotFound))
    }

    /** Stores a new employee with the requested supervisor, and makes it the
        supervisor of every subordinate it lists. The checks run in order: the
        join date, the supervisor (stored, and not of type Employee), then each
        listed subordinate (stored, and without a supervisor). */
    method Create(data: NewEmployee) returns (r: Result<int>)
      requires Valid()
      modifies this
      ensures Valid()
      ensures !datePattern(data.joinDate) ==> r == Err(BadRequest(InvalidDateFormat))
      ensures datePattern(data.joinDate) && RequestedSupervisor(data).Some? ==>
        var s := RequestedSupervisor(data).value;
        && (s !in old(records) ==> r == Err(NotFound(EmployeeNotFound)))
        && (s in old(records) && old(records)[s].role == Employee ==> r == Err(BadRequest(EmployeeCannotSupervise)))
      ensures datePattern(data.joinDate) && SupervisorAccepted(old(records), data) ==>
        var problem := SubordinateProblem(old(records), data.subordinatesIds);
        && (r.Err? <==> problem.Some?)
        && (r.Err? ==> r.error == problem.value)
      ensures r.Err? ==> records == old(records) && nextId == old(nextId)
      ensures r.Ok? ==>
        && r.value == old(nextId) && r.value !in old(records) && nextId == old(nextId) + 1
        && records == Adopt(old(records), data.subordinatesIds, r.value)[r.value :=
             Rec(data.name, data.joinDate, data.baseSalary, data.role, RequestedSupervisor(data))]
      ensures r.Ok? ==> SubordinatesOf(records, r.value) == set k | k in data.subordinatesIds
    {
      if !datePattern(data.joinDate) {
        return Err(BadRequest(InvalidDateFormat));
      }
      var supervisor := RequestedSupervisor(data);
      if supervisor.Some? {
        var found := FindById(supervisor.value);
        if found.Err? {
          return Err(found.error);
        }
        if found.value.role == Employee {
          return Err(BadRequest(EmployeeCannotSupervise));
        }
      }
      var ids := data.subordinatesIds;
      var problem := CheckSubordinates(ids);
      if problem.Some? {
        return Err(problem.value);
      }
      var id := nextId;
      var saved := Rec(data.name, data.joinDate, data.baseSalary, data.role, supervisor);
      SaveKeepsLinks(records, id, ids, saved);
      records := Adopt(records, ids, id)[id := saved];
      nextId := nextId + 1;
      r := Ok(id);
    }

    /** Loads each listed subordinate in turn, stopping at the first that is
        missing or already supervised. */
    method CheckSubordinates(ids: seq<int>) returns (problem: Option<Error>)
      ensures problem == SubordinateProblem(records, ids)
    {
      var i := 0;
      while i < |ids|
        invariant 0 <= i <= |ids|
        invariant SubordinateProblem(records, ids) == SubordinateProblem(records, ids[i..])
      {
        var existing := FindById(ids[i]);
        if existing.Err? {
          return Some(existing.error);
        }
        if existing.value.supervisor.Some? {
          return Some(BadRequest(AlreadyManaged));
        }
        assert ids[i..][1..] == ids[i + 1..];
        i := i + 1;
      }
      return None;
    }

    /** Removes the record `id`, refusing one that has subordinates or a supervisor. */
    method DeleteById(id: int) returns (r: Result<()>)
      requires Valid()
      modifies this
      ensures Valid() && nextId == old(nextId)
      ensures id !in old(records) ==> r == Err(NotFound(EmployeeNotFound))
      ensures id in old(records) && SubordinatesOf(old(records), id) != {} ==> r == Err(BadRequest(HasSubordinates))
      ensures id in old(records) && SubordinatesOf(old(records), id) == {} && old(records)[id].supervisor.Some? ==>
        r == Err(BadRequest(HasSupervisor))
      ensures r.Ok? <==> id in old(records) && SubordinatesOf(old(records), id) == {} && old(records)[id].supervisor == None
      ensures r.Ok? ==> records == old(records) - {id}
      ensures r.Err? ==> records == old(records)
    {
      var employee := FindById(id);
      if employee.Err? {
        return Err(employee.error);
      }
      if SubordinatesOf(records, id) != {} {
        return Err(BadRequest(HasSubordinates));
      }
      if employee.value.supervisor.Some? {
        return Err(BadRequest(HasSupervisor));
      }
      ghost var before := records;
      assert forall k :: k in before && before[k].supervisor == Some(id) ==> k in SubordinatesOf(before, id);
      records := records - {id};
      r := Ok(());
    }

    /** Gives `employeeId` the supervisor `supervisorId`. Both must be stored;
        then an employee that already has a supervisor is a conflict, and a
        supervisor of type Employee is refused. */
    method AddSupervisor(employeeId: int, supervisorId: int) returns (r: Result<Rec>)
      requires Valid()
      modifies this
      ensures Valid() && nextId == old(nextId)
      ensures employeeId !in old(records) || supervisorId !in old(records) ==> r == Err(NotFound(EmployeeNotFound))
      ensures employeeId in old(records) && supervisorId in old(records) ==>
        && (old(records)[employeeId].supervisor.Some? ==> r == Err(Conflict(AlreadyHasSupervisor)))
        && (old(records)[employeeId].supervisor == None && old(records)[supervisorId].role == Employee ==>
              r == Err(BadRequest(EmployeeCannotSupervise)))
      ensures r.Ok? <==>
        && employeeId in old(records) && supervisorId in old(records)
        && old(records)[employeeId].supervisor == None && old(records)[supervisorId].role != Employee
      ensures r.Ok? ==>
        && records == old(records)[employeeId := old(records)[employeeId].(supervisor := Some(supervisorId))]
        && r.value == records[employeeId]
      ensures r.Err? ==> records == old(records)
    {
      var employee := FindById(employeeId);
      if employee.Err? {
        return Err(employee.error);
      }
      var supervisor := FindById(supervisorId);
      if supervisor.Err? {
        return Err(supervisor.error);
      }
      if employee.value.supervisor.Some? {
        return Err(Conflict(AlreadyHasSupervisor));
      }
      if supervisor.value.role == Employee {
        return Err(BadRequest(EmployeeCannotSupervise));
      }
      var updated := employee.value.(supervisor := Some(supervisorId));
      records := records[employeeId := updated];
      r := Ok(updated);
    }

    /** Clears the supervisor of `employeeId`; one without a supervisor is NotFound. */
    method RemoveSupervisor(employeeId: int) returns (r: Result<Rec>)
      requires Valid()
      modifies this
      ensures Valid() && nextId == old(nextId)
      ensures employeeId !in old(records) ==> r == Err(NotFound(EmployeeNotFound))
      ensures employeeId in old(records) && old(records)[employeeId].supervisor == None ==> r == Err(NotFound(NoSupervisor))
      ensures r.Ok? <==> employeeId in old(records) && old(records)[employeeId].supervisor.Some?
      ensures r.Ok? ==>
        && records == old(records)[employeeId := old(records)[employeeId].(supervisor := None)]
        && r.value == records[employeeId]
      ensures r.Err? ==> records == old(records)
    {
      var employee := FindById(employeeId);
      if employee.Err? {
        return Err(employee.error);
      }
      if employee.value.supervisor.None? {
        return Err(NotFound(NoSupervisor));
      }
      var updated := employee.value.(supervisor := None);
      records := records[employeeId := updated];
      r := Ok(updated);
    }

    /** Replaces the supervisor of `employeeId` by `newSupervisorId`, which must
        be stored and not of type Employee (refused as NotFound). The service
        also compares the current supervisor with the new one, but by object
        identity between two separately fetched records, which never holds: so
        that conflict never arises, and naming the current supervisor succeeds. */
    method ChangeSupervisor(employeeId: int, newSupervisorId: int) returns (r: Result<Rec>)
      requires Valid()
      modifies this
      ensures Valid() && nextId == old(nextId)
      ensures employeeId !in old(records) || newSupervisorId !in old(records) ==> r == Err(NotFound(EmployeeNotFound))
      ensures employeeId in old(records) && newSupervisorId in old(records) && old(records)[newSupervisorId].role == Employee ==>
        r == Err(NotFound(EmployeeCannotSupervise))
      ensures r.Ok? <==> employeeId in old(records) && newSupervisorId in old(records) && old(records)[newSupervisorId].role != Employee
      ensures r.Ok? ==>
        && records == old(records)[employeeId := old(records)[employeeId].(supervisor := Some(newSupervisorId))]
        && r.value == records[employeeId]
      ensures r.Err? ==> records == old(records)
    {
      var employee := FindById(employeeId);
      if employee.Err? {
        return Err(employee.error);
      }
      var newSupervisor := FindById(newSupervisorId);
      if newSupervisor.Err? {
        return Err(newSupervisor.error);
      }
      if newSupervisor.value.role == Employee {
        return Err(NotFound(EmployeeCannotSupervise));
      }
      var updated := employee.value.(supervisor := Some(newSupervisorId));
      records := records[employeeId := updated];
      r := Ok(updated);
    }
  }

  /** Saving a new record under the fresh id `id`, with the unsupervised stored
      records `ids` as its subordinates, keeps every link resolved and every id
      below the next one, and the new record's subordinates are exactly `ids`. */
  lemma SaveKeepsLinks(records: Records, id: int, ids: seq<int>, saved: Rec)
    requires LinksResolve(records) && forall k :: k in records ==> k < id
    requires saved.supervisor.Some? ==> saved.supervisor.value in records
    requires forall k :: 0 <= k < |ids| ==> ids[k] in records && records[ids[k]].supervisor == None
    ensures var after := Adopt(records, ids, id)[id := saved];
      && LinksResolve(after)
      && (forall k :: k in after ==> k < id + 1)
      && SubordinatesOf(after, id) == set k | k in ids
  {
    var after := Adopt(records, ids, id)[id := saved];
    assert forall k :: k in records ==> records[k].supervisor != Some(id);
    assert forall k :: k in ids ==> k in records;
  }

  /** A create request names an acceptable supervisor: none, or a stored one
      that is not of type Employee. */
  predicate SupervisorAccepted(records: Records, data: NewEmployee) {
    match RequestedSupervisor(data)
    case None => true
    case Some(s) => s in records && records[s].role != Employee
  }
}
