/**
  The payroll engine: the per-role rule table, years of work, the capped tenure
  salary, the two depth-bounded walks over the subordinate hierarchy and the two
  entry points (one salary, the total of all salaries).

  Money is an exact `real`; dates are whole day counts. The repository is a map
  from id to employee; an employee lists its direct subordinates by id, in the
  order in which the repository returns them.
*/
module Payroll {
  import opened Common

  /** The parameters of one role. */
  datatype RoleRules = RoleRules(
    bonusPercentFromSubordinates: real,
    bonusPercentForYear: real,
    salaryLimit: real)

  /** The rule table. */
  function Rules(role: Role): (t: RoleRules)
    ensures t.salaryLimit > 1.0 && t.bonusPercentForYear > 0.0
    ensures t.bonusPercentFromSubordinates >= 0.0
    ensures t.bonusPercentFromSubordinates == 0.0 <==> role == Employee
  {
    match role
    case Manager => RoleRules(0.005, 0.05, 1.4)
    case Salesperson => RoleRules(0.003, 0.01, 1.35)
    case Employee => RoleRules(0.0, 0.03, 1.3)
  }

  /** An employee as the payroll engine reads it. */
  datatype Emp = Emp(role: Role, baseSalary: real, joinDay: int, subordinates: seq<int>)

  type Repo = map<int, Emp>

  /** Every subordinate an employee lists is itself stored: the store loads
      subordinates through the relation, so a listed id always resolves. */
  predicate Closed(repo: Repo) {
    forall id :: id in repo ==> AllIn(repo, repo[id].subordinates)
  }

  /** Every id of `ids` is stored. */
  predicate AllIn(repo: Repo, ids: seq<int>) {
    forall k :: 0 <= k < |ids| ==> ids[k] in repo
  }

  /** Looking up a stored employee; in a closed repository its own subordinates
      are stored too. */
  function Fetch(repo: Repo, id: int): (e: Emp)
    requires Closed(repo) && id in repo
    ensures e == repo[id] && AllIn(repo, e.subordinates)
  {
    repo[id]
  }

  /** No stored employee has a negative base salary. */
  predicate NonNegative(repo: Repo) {
    forall id :: id in repo ==> repo[id].baseSalary >= 0.0
  }

  // ---------------------------------------------------------------- years of work

  /** Whole years between two days: the elapsed time divided by 365.25 days,
      floored. Fails when the start lies after the end. */
  function YearsOfWork(startDay: int, endDay: int): (r: Result<nat>)
    ensures r.Err? <==> startDay > endDay
    ensures r.Err? ==> r.error == Plain(StartAfterEnd)
    ensures r.Ok? ==> r.value as real <= (endDay - startDay) as real / 365.25 < r.value as real + 1.0
  {
    if startDay > endDay then Err(Plain(StartAfterEnd))
    else
      var days := endDay - startDay;
      var years := (4 * days) / 1461;
      FloorOfQuarterDays(days, years);
      Ok(years)
  }

  /** `(4 * days) / 1461` is the floor of `days / 365.25`. */
  lemma FloorOfQuarterDays(days: nat, years: nat)
    requires years == (4 * days) / 1461
    ensures years as real <= days as real / 365.25 < years as real + 1.0
  {
    assert years * 1461 <= 4 * days < (years + 1) * 1461;
    assert (years * 1461) as real == years as real * 1461.0;
    assert ((years + 1) * 1461) as real == (years as real + 1.0) * 1461.0;
    assert days as real / 365.25 == (4 * days) as real / 1461.0;
  }

  // ---------------------------------------------------------------- one salary

  /** The cap on the tenure salary; a limit above 1 never cuts into a
      non-negative base salary. */
  function MaxSalary(baseSalary: real, salaryLimit: real): (r: real)
    ensures baseSalary >= 0.0 && salaryLimit >= 1.0 ==> r >= baseSalary
    ensures baseSalary == 0.0 ==> r == 0.0
  {
    baseSalary * salaryLimit
  }

  /** The tenure bonus: nothing in the first year, and never negative for
      non-negative inputs. */
  function BonusFromYears(baseSalary: real, bonusPercent: real, years: nat): (r: real)
    ensures years == 0 ==> r == 0.0
    ensures baseSalary >= 0.0 && bonusPercent >= 0.0 ==> r >= 0.0
  {
    baseSalary * bonusPercent * years as real
  }

  /** The share of a subordinate bonus: nothing at a zero percentage, and never
      negative for non-negative inputs. */
  function BonusFromSubordinates(subordinateBonus: real, percentFromSubordinate: real): (r: real)
    ensures percentFromSubordinate == 0.0 ==> r == 0.0
    ensures subordinateBonus >= 0.0 && percentFromSubordinate >= 0.0 ==> r >= 0.0
  {
    subordinateBonus * percentFromSubordinate
  }

  /** The smaller of two amounts (that it is one of them is stated on
      CappedSalary, the one function that uses it). */
  function Min(a: real, b: real): (r: real)
    ensures r <= a && r <= b
  {
    if a <= b then a else b
  }

  /** The base salary plus the tenure bonus, capped at `baseSalary * salaryLimit`. */
  function CappedSalary(role: Role, baseSalary: real, years: nat): (r: real)
    ensures r <= MaxSalary(baseSalary, Rules(role).salaryLimit)
    ensures r <= baseSalary + BonusFromYears(baseSalary, Rules(role).bonusPercentForYear, years)
    ensures r == MaxSalary(baseSalary, Rules(role).salaryLimit)
         || r == baseSalary + BonusFromYears(baseSalary, Rules(role).bonusPercentForYear, years)
    ensures baseSalary >= 0.0 ==> baseSalary <= r
  {
    var t := Rules(role);
    var r := Min(MaxSalary(baseSalary, t.salaryLimit), baseSalary + BonusFromYears(baseSalary, t.bonusPercentForYear, years));
    if baseSalary >= 0.0 then
      assert baseSalary * t.salaryLimit >= baseSalary * 1.0;
      assert baseSalary * t.bonusPercentForYear >= 0.0;
      assert baseSalary * t.bonusPercentForYear * years as real >= 0.0;
      r
    else r
  }

  // ---------------------------------------------------------------- the Manager walk

  /** The Manager walk over `subs` with `maxDepth` levels left: every direct
      subordinate contributes its capped salary, and a non-Employee one also
      `pct` times the walk over its own subordinates with one level fewer.
      Defined on prefixes: the value after the first i subordinates is the
      value of `subs[..i]`. */
  function ManagerBonus(repo: Repo, subs: seq<int>, years: nat, maxDepth: int): (r: real)
    requires Closed(repo) && AllIn(repo, subs)
    ensures NonNegative(repo) ==> r >= 0.0
    decreases maxDepth, |subs|
  {
    if |subs| == 0 || maxDepth <= 0 then 0.0
    else
      var before := ManagerBonus(repo, subs[..|subs| - 1], years, maxDepth);
      var s := Fetch(repo, subs[|subs| - 1]);
      var t := Rules(s.role);
      var salary := CappedSalary(s.role, s.baseSalary, years);
      var share :=
        if s.role != Employee
        then salary + BonusFromSubordinates(ManagerBonus(repo, s.subordinates, years, maxDepth - 1), t.bonusPercentFromSubordinates)
        else salary;
      assert NonNegative(repo) ==> share >= 0.0 by {
        if NonNegative(repo) && s.role != Employee {
          var nested := ManagerBonus(repo, s.subordinates, years, maxDepth - 1);
          assert nested * t.bonusPercentFromSubordinates >= 0.0;
        }
      }
      before + share
  }

  /** The Manager walk as the loop the engine runs, fetching each supervisory
      subordinate again before descending. */
  method CalculateManagerSubordinatesBonus(repo: Repo, employee: Emp, years: nat, maxDepth: int)
    returns (subordinatesBonus: real)
    requires Closed(repo) && AllIn(repo, employee.subordinates)
    ensures subordinatesBonus == ManagerBonus(repo, employee.subordinates, years, maxDepth)
    decreases maxDepth
  {
    subordinatesBonus := 0.0;
    var subs := employee.subordinates;
    if |subs| > 0 && maxDepth > 0 {
      for i := 0 to |subs|
        invariant subordinatesBonus == ManagerBonus(repo, subs[..i], years, maxDepth)
      {
        var subordinate := Fetch(repo, subs[i]);
        var t := Rules(subordinate.role);
        var subordinateSalary := subordinate.baseSalary;
        var maxSubordinateSalary := MaxSalary(subordinateSalary, t.salaryLimit);
        subordinateSalary := subordinateSalary + BonusFromYears(subordinate.baseSalary, t.bonusPercentForYear, years);
        subordinateSalary := Min(subordinateSalary, maxSubordinateSalary);
        if subordinate.role != Employee {
          var withSubordinates := Fetch(repo, subs[i]);
          var nested := CalculateManagerSubordinatesBonus(repo, withSubordinates, years, maxDepth - 1);
          subordinateSalary := subordinateSalary + BonusFromSubordinates(nested, t.bonusPercentFromSubordinates);
        }
        assert subs[..i + 1][..i] == subs[..i];
        subordinatesBonus := subordinatesBonus + subordinateSalary;
      }
      assert subs[..|subs|] == subs;
    }
  }

  // ---------------------------------------------------------------- the Salesperson walk

  /** The Salesperson walk over `subs` at level `depth`. One accumulator runs
      through the siblings: it first takes the raw walk below a non-Employee
      subordinate (only while `depth < maxDepth - 1`), then the subordinate's
      capped salary plus `pct` times the accumulator so far, which holds the
      earlier siblings' shares too. Defined on prefixes, like ManagerBonus. */
  function SubordinatesBonus(repo: Repo, subs: seq<int>, years: nat, depth: int, maxDepth: int): (r: real)
    requires Closed(repo) && AllIn(repo, subs)
    ensures NonNegative(repo) ==> r >= 0.0
    decreases maxDepth - depth, |subs|
  {
    if |subs| == 0 || depth >= maxDepth then 0.0
    else
      var before := SubordinatesBonus(repo, subs[..|subs| - 1], years, depth, maxDepth);
      var s := Fetch(repo, subs[|subs| - 1]);
      var t := Rules(s.role);
      var withNested :=
        if s.role != Employee && depth < maxDepth - 1
        then before + SubordinatesBonus(repo, s.subordinates, years, depth + 1, maxDepth)
        else before;
      var salary := CappedSalary(s.role, s.baseSalary, years) + BonusFromSubordinates(t.bonusPercentFromSubordinates, withNested);
      assert NonNegative(repo) ==> salary >= 0.0 by {
        if NonNegative(repo) {
          assert t.bonusPercentFromSubordinates * withNested >= 0.0;
        }
      }
      withNested + salary
  }

  /** An employee and its level below the top of the walk. */
  datatype SubordinateInfo = SubordinateInfo(employee: Emp, depth: int)

  /** The Salesperson walk as the loop the engine runs. */
  method CalculateSubordinatesBonus(repo: Repo, info: SubordinateInfo, years: nat, maxDepth: int)
    returns (subordinatesBonus: real)
    requires Closed(repo) && AllIn(repo, info.employee.subordinates)
    ensures subordinatesBonus == SubordinatesBonus(repo, info.employee.subordinates, years, info.depth, maxDepth)
    decreases maxDepth - info.depth
  {
    var employee, depth := info.employee, info.depth;
    var subs := employee.subordinates;
    subordinatesBonus := 0.0;
    if depth < maxDepth && |subs| > 0 {
      for i := 0 to |subs|
        invariant subordinatesBonus == SubordinatesBonus(repo, subs[..i], years, depth, maxDepth)
      {
        var subordinate := Fetch(repo, subs[i]);
        var t := Rules(subordinate.role);
        var subordinateSalary := subordinate.baseSalary;
        var maxSubordinateSalary := MaxSalary(subordinateSalary, t.salaryLimit);
        if subordinate.role != Employee && depth < maxDepth - 1 {
          var withSubordinates := Fetch(repo, subs[i]);
          var next := SubordinateInfo(withSubordinates, depth + 1);
          var nested := CalculateSubordinatesBonus(repo, next, years, maxDepth);
          subordinatesBonus := subordinatesBonus + nested;
        }
        subordinateSalary := subordinateSalary + BonusFromYears(subordinateSalary, t.bonusPercentForYear, years);
        subordinateSalary := Min(maxSubordinateSalary, subordinateSalary);
        subordinateSalary := subordinateSalary + BonusFromSubordinates(t.bonusPercentFromSubordinates, subordinatesBonus);
        assert subs[..i + 1][..i] == subs[..i];
        subordinatesBonus := subordinatesBonus + subordinateSalary;
      }
      assert subs[..|subs|] == subs;
    }
  }

  // ---------------------------------------------------------------- one employee

  /** The number of levels below the computed employee that either walk reaches. */
  const WalkDepth := 3

  /** The raw subordinate bonus of `e`: its own role alone picks the walk, and the
      walk keeps it at every level below. */
  function SubordinateBonus(repo: Repo, e: Emp, years: nat): (r: real)
    requires Closed(repo) && AllIn(repo, e.subordinates)
    ensures NonNegative(repo) ==> r >= 0.0
  {
    if e.role == Employee then 0.0
    else if e.role == Manager then ManagerBonus(repo, e.subordinates, years, WalkDepth)
    else SubordinatesBonus(repo, e.subordinates, years, 0, WalkDepth)
  }

  /** The unrounded salary of `e` on day `today`: the capped tenure salary plus
      `pct` times the subordinate bonus, which is added after the cap. */
  function BaseSalary(repo: Repo, e: Emp, today: int): (r: Result<real>)
    requires Closed(repo) && AllIn(repo, e.subordinates)
    ensures r.Err? <==> e.joinDay > today
    ensures r.Err? ==> r.error == Plain(StartAfterEnd)
    ensures NonNegative(repo) && e.baseSalary >= 0.0 && r.Ok? ==> r.value >= e.baseSalary
  {
    match YearsOfWork(e.joinDay, today)
    case Err(error) => Err(error)
    case Ok(years) =>
      var t := Rules(e.role);
      var bonus := SubordinateBonus(repo, e, years);
      assert NonNegative(repo) ==> BonusFromSubordinates(bonus, t.bonusPercentFromSubordinates) >= 0.0 by {
        if NonNegative(repo) { assert bonus * t.bonusPercentFromSubordinates >= 0.0; }
      }
      Ok(CappedSalary(e.role, e.baseSalary, years) + BonusFromSubordinates(bonus, t.bonusPercentFromSubordinates))
  }

  /** The per-employee computation, step by step, as the engine runs it. */
  method CalculateBaseSalary(repo: Repo, employee: Emp, today: int) returns (r: Result<real>)
    requires Closed(repo) && AllIn(repo, employee.subordinates)
    ensures r == BaseSalary(repo, employee, today)
  {
    var t := Rules(employee.role);
    var yearsOfWork := YearsOfWork(employee.joinDay, today);
    if yearsOfWork.Err? {
      return Err(yearsOfWork.error);
    }
    var years := yearsOfWork.value;
    var baseSalary := employee.baseSalary;
    var maxSalary := MaxSalary(baseSalary, t.salaryLimit);
    var subordinateBonus := 0.0;
    if employee.role != Employee {
      if employee.role == Manager {
        subordinateBonus := CalculateManagerSubordinatesBonus(repo, employee, years, WalkDepth);
      } else {
        subordinateBonus := CalculateSubordinatesBonus(repo, SubordinateInfo(employee, 0), years, WalkDepth);
      }
    }
    baseSalary := baseSalary + BonusFromYears(baseSalary, t.bonusPercentForYear, years);
    baseSalary := Min(maxSalary, baseSalary);
    baseSalary := baseSalary + BonusFromSubordinates(subordinateBonus, t.bonusPercentFromSubordinates);
    r := Ok(baseSalary);
  }

  // ---------------------------------------------------------------- rounding

  /** True when `x` is a whole number of cents. */
  predicate IsCents(x: real) {
    (x * 100.0).Floor as real == x * 100.0
  }

  /** Rounding to two decimals: to the nearest cent, a tie going away from zero. */
  function Round2(x: real): (r: real)
    ensures IsCents(r)
    ensures -0.005 <= r - x <= 0.005
    ensures IsCents(x) ==> r == x
    ensures x >= 0.0 ==> -0.005 < r - x
    ensures x < 0.0 ==> r - x < 0.005
  {
    if x >= 0.0 then
      var n := (x * 100.0 + 0.5).Floor;
      CentsOfCount(n);
      RoundNonNegative(x, n);
      n as real / 100.0
    else
      var n := ((-x) * 100.0 + 0.5).Floor;
      CentsOfCount(-n);
      CentsNegate(x);
      RoundNonNegative(-x, n);
      (-n) as real / 100.0
  }

  lemma CentsNegate(x: real)
    ensures IsCents(x) ==> IsCents(-x)
  {
    if IsCents(x) {
      var m := (x * 100.0).Floor;
      assert (-x) * 100.0 == (-m) as real;
      assert ((-x) * 100.0).Floor == -m;
    }
  }

  lemma CentsOfCount(n: int)
    ensures IsCents(n as real / 100.0)
  {
    assert (n as real / 100.0) * 100.0 == n as real;
  }

  /** Rounding a non-negative amount half up moves it by at most half a cent. */
  lemma RoundNonNegative(x: real, n: int)
    requires x >= 0.0 && n == (x * 100.0 + 0.5).Floor
    ensures -0.005 < n as real / 100.0 - x <= 0.005
    ensures IsCents(x) ==> n as real / 100.0 == x
  {
    var y := x * 100.0;
    assert n as real <= y + 0.5 < n as real + 1.0;
    assert n as real / 100.0 - x == (n as real - y) / 100.0;
    if IsCents(x) {
      assert y.Floor as real == y;
      assert n == y.Floor;
    }
  }

  // ---------------------------------------------------------------- entry points

  /** The salary of employee `id` on day `today`, rounded to cents. */
  function Salary(repo: Repo, id: int, today: int): (r: Result<real>)
    requires Closed(repo)
    ensures r.Err? <==> id !in repo || repo[id].joinDay > today
    ensures id !in repo ==> r == Err(NotFound(EmployeeNotFound))
    ensures id in repo && repo[id].joinDay > today ==> r == Err(Plain(StartAfterEnd))
    ensures r.Ok? ==> id in repo && BaseSalary(repo, Fetch(repo, id), today).Ok?
    ensures r.Ok? ==> IsCents(r.value) && -0.005 <= r.value - BaseSalary(repo, Fetch(repo, id), today).value <= 0.005
    ensures r.Ok? ==> var u := BaseSalary(repo, Fetch(repo, id), today).value;
      (u >= 0.0 ==> -0.005 < r.value - u) && (u < 0.0 ==> r.value - u < 0.005)
  {
    if id !in repo then Err(NotFound(EmployeeNotFound))
    else
      match BaseSalary(repo, Fetch(repo, id), today)
      case Err(error) => Err(error)
      case Ok(salary) => Ok(Round2(salary))
  }

  method CalculateSalary(repo: Repo, employeeId: int, today: int) returns (r: Result<real>)
    requires Closed(repo)
    ensures r == Salary(repo, employeeId, today)
  {
    if employeeId !in repo {
      return Err(NotFound(EmployeeNotFound));
    }
    var employee := Fetch(repo, employeeId);
    var baseSalary := CalculateBaseSalary(repo, employee, today);
    if baseSalary.Err? {
      return Err(baseSalary.error);
    }
    r := Ok(Round2(baseSalary.value));
  }

  /** The sum of the unrounded salaries of `staff`, in order; the first failure
      aborts the sum. */
  function UnroundedTotal(repo: Repo, staff: seq<int>, today: int): (r: Result<real>)
    requires Closed(repo) && AllIn(repo, staff)
    ensures r.Err? <==> exists k :: 0 <= k < |staff| && repo[staff[k]].joinDay > today
    ensures r.Err? ==> r.error == Plain(StartAfterEnd)
  {
    if |staff| == 0 then Ok(0.0)
    else
      var last := |staff| - 1;
      var before := UnroundedTotal(repo, staff[..last], today);
      assert forall k :: 0 <= k < last ==> staff[..last][k] == staff[k];
      if before.Err? then before
      else
        match BaseSalary(repo, Fetch(repo, staff[last]), today)
        case Err(error) => Err(error)
        case Ok(salary) => Ok(before.value + salary)
  }

  /** The total of all salaries: the unrounded sum, rounded once. */
  function TotalSalaries(repo: Repo, staff: seq<int>, today: int): (r: Result<real>)
    requires Closed(repo) && AllIn(repo, staff)
    ensures r.Err? <==> exists k :: 0 <= k < |staff| && repo[staff[k]].joinDay > today
    ensures r.Ok? ==> IsCents(r.value) && UnroundedTotal(repo, staff, today).Ok?
    ensures r.Ok? ==> -0.005 <= r.value - UnroundedTotal(repo, staff, today).value <= 0.005
    ensures r.Ok? ==> var u := UnroundedTotal(repo, staff, today).value;
      (u >= 0.0 ==> -0.005 < r.value - u) && (u < 0.0 ==> r.value - u < 0.005)
    ensures r.Err? ==> r.error == Plain(StartAfterEnd)
  {
    match UnroundedTotal(repo, staff, today)
    case Err(error) => Err(error)
    case Ok(total) => Ok(Round2(total))
  }

  /** A failure in a prefix of the staff is the failure of the whole sum. */
  lemma {:induction false} UnroundedTotalPrefixFailure(repo: Repo, staff: seq<int>, i: nat, today: int)
    requires Closed(repo) && AllIn(repo, staff) && i <= |staff|
    requires UnroundedTotal(repo, staff[..i], today).Err?
    ensures UnroundedTotal(repo, staff, today) == UnroundedTotal(repo, staff[..i], today)
    decreases |staff| - i
  {
    if i < |staff| {
      var last := |staff| - 1;
      UnroundedTotalPrefixFailure(repo, staff[..last], i, today);
      assert staff[..last][..i] == staff[..i];
    } else {
      assert staff[..i] == staff;
    }
  }

  /** `staff` is the list every employee, in the order the store returns them. */
  method CalculateTotalSalaries(repo: Repo, staff: seq<int>, today: int) returns (r: Result<real>)
    requires Closed(repo) && AllIn(repo, staff)
    ensures r == TotalSalaries(repo, staff, today)
  {
    var totalSalary := 0.0;
    for i := 0 to |staff|
      invariant UnroundedTotal(repo, staff[..i], today) == Ok(totalSalary)
    {
      var employeeSalary := CalculateBaseSalary(repo, Fetch(repo, staff[i]), today);
      assert staff[..i + 1][..i] == staff[..i];
      if employeeSalary.Err? {
        UnroundedTotalPrefixFailure(repo, staff, i + 1, today);
        return Err(employeeSalary.error);
      }
      totalSalary := totalSalary + employeeSalary.value;
    }
    assert staff[..|staff|] == staff;
    r := Ok(Round2(totalSalary));
  }
}
