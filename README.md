# company-api: employee store and payroll engine

This project models the two services of company-api, a small company
back end:

- **The employee store** (`Employees.EmployeeService`). It creates, finds and
  deletes employees, and it adds, removes and changes an employee's supervisor.
  Every refusal is an `Err` with the same kind (NotFound, BadRequest, Conflict)
  and reason as the exception the service throws.
- **The payroll engine** (`Payroll`). An employee's salary is built in three steps:
  - the base salary, plus a yearly tenure bonus;
  - that sum capped at `salaryLimit` times the base salary;
  - plus a share of a bonus collected from the subordinates.

  A Manager collects that bonus by a walk over three levels of subordinates.
  A Salesperson collects it by a different walk: an accumulator that runs over
  three levels too.

  The engine gives one employee's salary rounded to cents. It also gives the
  total over all staff, which is rounded once at the end.

How values are represented:
- Money is an exact `real`.
- A date is a whole number of days. Years of work is `(4 * days) / 1461`, which
  is proved to be the floor of `days / 365.25` (`Payroll.YearsOfWork`).
- The payroll repository is a map from id to employee. Each employee lists its
  direct subordinates by id.
- `Closed` states that every listed subordinate is itself stored. The source
  relies on this, because it reads subordinates through the database relation.

What is proved beyond each operation's own contract
(`PayrollProperties`, `EmployeeScenarios`):
- The Manager walk is a sum: it splits over concatenation, so it does not depend
  on the order of subordinates.
- The Salesperson walk does depend on order.
- The two walks agree on teams made only of Employees.
- A salary reads only employee data within three links.
- The walks end on cyclic hierarchies.
- A salary can exceed its cap only through the subordinate bonus.
- The total rounds once, not per employee.
- Several store scenarios: self-supervision is accepted, a Manager adopts an
  existing employee, and adding then removing a supervisor restores the store.

Behaviour of the code worth knowing before reading the contracts:

- The Salesperson walk depends on sibling order:
  - the running accumulator that feeds a subordinate's own share already holds
    the salaries of earlier siblings (`payroll.service.ts:177-182`);
  - `PayrollProperties.SalespersonWalkDependsOnOrder` gives two orders with
    different results.
- The Salesperson walk calls the subordinate-bonus helper with its operands
  swapped (`payroll.service.ts:177-180`). The helper multiplies, so the swap
  has no effect (`PayrollProperties.SwappedShareOperands`). The model keeps the
  call as written.
- The total is the sum of the unrounded salaries, rounded once. It can differ
  from the sum of rounded salaries (`PayrollProperties.TotalRoundsOnce`,
  `PayrollProperties.SalariesRoundEach`).
- At `maxDepth - 1 == 0` the Manager walk still loads a non-Employee
  subordinate's row, and the nested call then returns 0.
  - The method `Payroll.CalculateManagerSubordinatesBonus` fetches and recurses
    there, as the source does.
  - The specification function `Payroll.ManagerBonus` looks each subordinate
    up once and uses that one row for the nested walk, which is 0 at that
    depth. The second load changes no value, because both loads return the
    same stored row.

## Model

| member | source | states |
|---|---|---|
| Payroll.Rules | src/payroll/payroll.service.ts:18-34 | the rule table: every cap exceeds 1 and every tenure percentage is positive; the subordinate percentage is zero exactly for the Employee type |
| Payroll.YearsOfWork | src/payroll/payroll.service.ts:241-249 | fails with the start-after-end error exactly when the start lies after the end; otherwise returns the whole number n with n <= days/365.25 < n+1 |
| Payroll.Fetch | src/payroll/payroll.service.ts:153-157 | loading a stored employee gives its row, and in a closed repository its listed subordinates are stored too (also the fetch at :215-219) |
| Payroll.MaxSalary | src/payroll/payroll.service.ts:118-120 | the cap is at least the base salary when the base is non-negative and the limit at least 1, and is 0 on a zero base |
| Payroll.BonusFromYears | src/payroll/payroll.service.ts:110-116 | the tenure bonus is 0 at zero years and never negative for non-negative inputs |
| Payroll.BonusFromSubordinates | src/payroll/payroll.service.ts:122-127 | the subordinate share is 0 at a zero percentage and never negative for non-negative inputs |
| Payroll.Min | src/payroll/payroll.service.ts:101 | `Math.min`: the result is at most both arguments |
| Payroll.CappedSalary | src/payroll/payroll.service.ts:96-101 | the tenure salary is the minimum of the cap and base + tenure bonus: it is at most each, equal to one of them, and at least the base when the base is non-negative |
| Payroll.ManagerBonus | src/payroll/payroll.service.ts:189-239 | the Manager walk is never negative when no stored base salary is negative |
| Payroll.CalculateManagerSubordinatesBonus | src/payroll/payroll.service.ts:189-239 | the loop over the direct subordinates computes exactly the Manager walk over them |
| Payroll.SubordinatesBonus | src/payroll/payroll.service.ts:129-187 | the Salesperson accumulator walk is never negative when no stored base salary is negative |
| Payroll.CalculateSubordinatesBonus | src/payroll/payroll.service.ts:129-187 | the loop over the direct subordinates with its running accumulator computes exactly the Salesperson walk |
| Payroll.SubordinateBonus | src/payroll/payroll.service.ts:75-94 | the subordinate bonus chosen by type, with three levels, is never negative on non-negative data |
| Payroll.BaseSalary | src/payroll/payroll.service.ts:63-108 | fails exactly when the join day is after today, with the start-after-end error; otherwise the salary is at least the base salary on non-negative data |
| Payroll.CalculateBaseSalary | src/payroll/payroll.service.ts:63-108 | the method computes exactly the unrounded salary |
| Payroll.Round2 | src/payroll/payroll.service.ts:44 | rounding to two decimals yields a whole number of cents within half a cent of the input, a tie going away from zero (strictly less than half a cent below a non-negative input and above a negative one), and leaves whole-cent amounts unchanged |
| Payroll.FloorOfQuarterDays | src/payroll/payroll.service.ts:246-248 | integer division of four times the days by 1461 is the floor of days/365.25 |
| Payroll.Salary | src/payroll/payroll.service.ts:36-45 | fails exactly when the id is unknown (not-found error) or the join day is after today (start-after-end error); a result is the employee's unrounded salary rounded to a whole number of cents, within half a cent of it, a tie going away from zero |
| Payroll.CalculateSalary | src/payroll/payroll.service.ts:36-45 | the method computes exactly the rounded salary of one employee |
| Payroll.UnroundedTotal | src/payroll/payroll.service.ts:47-59 | the sum over the staff fails exactly when some staff member joined after today, with the start-after-end error |
| Payroll.TotalSalaries | src/payroll/payroll.service.ts:47-61 | fails exactly when some staff member joined after today, with the start-after-end error; otherwise a whole number of cents within half a cent of the unrounded sum, a tie going away from zero |
| Payroll.UnroundedTotalPrefixFailure | src/payroll/payroll.service.ts:51-58 | once a prefix of the staff fails, the whole list fails with the same error, because the first thrown error ends the loop |
| Payroll.CalculateTotalSalaries | src/payroll/payroll.service.ts:47-61 | the loop that sums the unrounded salaries and rounds once computes exactly the total |
| PayrollProperties.ManagerBonusAppend | src/payroll/payroll.service.ts:197-235 | the Manager walk over a concatenation is the sum of the walks over the parts |
| PayrollProperties.ManagerBonusRemove | src/payroll/payroll.service.ts:197-235 | removing one subordinate from the list subtracts exactly that subordinate's contribution |
| PayrollProperties.ManagerBonusPermutation | src/payroll/payroll.service.ts:197-235 | two subordinate lists with the same multiset give the same Manager walk |
| PayrollProperties.ManagerSalaryIgnoresOrder | src/payroll/payroll.service.ts:77-83 | a Manager's salary does not depend on the order in which its subordinates are returned |
| PayrollProperties.SiblingPair | src/payroll/payroll.service.ts:137-183 | the two-sibling repository used for the order comparison is closed |
| PayrollProperties.SiblingsAlone | src/payroll/payroll.service.ts:137-235 | each of those siblings alone adds exactly its base salary to either walk at zero years |
| PayrollProperties.LeafAlone | src/payroll/payroll.service.ts:137-235 | a subordinate with no subordinates of its own, walked alone, contributes exactly its capped salary to either walk |
| PayrollProperties.SalespersonWalkDependsOnOrder | src/payroll/payroll.service.ts:164-182 | for one Employee and one Salesperson, the Salesperson walk gives 1100.3 in one order and 1100 in the other, while the Manager walk gives 1100 both ways |
| PayrollProperties.WalksAgreeOnEmployeeTeams | src/payroll/payroll.service.ts:137-239 | when every direct subordinate is of type Employee, the two walks give the same value |
| PayrollProperties.Within | src/payroll/payroll.service.ts:153-157 | the ids the walk can reach within a number of links are all stored |
| PayrollProperties.ManagerBonusFrame | src/payroll/payroll.service.ts:189-239 | the Manager walk depends only on the role, base salary and subordinate lists of employees within maxDepth links |
| PayrollProperties.SubordinatesBonusFrame | src/payroll/payroll.service.ts:129-187 | the Salesperson walk depends only on employees within maxDepth - depth links |
| PayrollProperties.SalaryReadsThreeLevels | src/payroll/payroll.service.ts:77-94 | two repositories that agree on the pay data of everything within three links give the same salary |
| PayrollProperties.ManagerWalkEndsOnCycle | src/payroll/payroll.service.ts:196-226 | for a self-supervised Manager earning 1000, its subordinate walk gives the finite value 1005.025, because the depth bound cuts the cycle |
| PayrollProperties.ManagerCycleSalary | src/payroll/payroll.service.ts:96-107 | that Manager's own unrounded salary is 1000 + 0.005 * 1005.025 = 1005.025125 |
| PayrollProperties.SalespersonWalkEndsOnCycle | src/payroll/payroll.service.ts:137-168 | for a self-supervised Salesperson earning 1000, its subordinate walk gives the finite value 3009.009 |
| PayrollProperties.SwappedShareOperands | src/payroll/payroll.service.ts:177-180 | passing the accumulator and the percentage to the share helper in either order gives the same share |
| PayrollProperties.SalaryAboveCapOnlyFromSubordinates | src/payroll/payroll.service.ts:96-105 | a salary above the cap belongs to a Manager or Salesperson with a positive subordinate share |
| PayrollProperties.EmployeeSalaryIsCappedTenure | src/payroll/payroll.service.ts:77-101 | an Employee's salary is exactly its capped tenure salary |
| PayrollProperties.SubordinateBonusExceedsCap | src/payroll/payroll.service.ts:101-105 | a Manager earning 1000 with ten years and one subordinate earning 1000 gets 1406.5, above its cap of 1400 |
| PayrollProperties.YearsOfWorkScenarios | src/payroll/payroll.service.ts:241-249 | 2021-01-01 to 2025-08-14 is 4 years, 2023-08-12 to 2025-08-14 is 2, a day to itself is 0, and a reversed pair fails |
| PayrollProperties.ScenarioDays | src/payroll/payroll.service.spec.ts:9-17 | the day numbers of the scenario dates, counted from 1970-01-01: 2021-01-01 is day 18628 and 2025-08-14 is day 20314 |
| PayrollProperties.FiftyThousand | src/payroll/payroll.service.ts:96-107 | an Employee without subordinates earning 50000 gets 50000 + 1500 per whole year, up to ten years |
| PayrollProperties.SalaryScenarios | src/payroll/payroll.service.spec.ts:53-62 | the unit-test Employee (50000, joined 2021-01-01) earns 56000 on 2025-08-14; an unknown id is not found; a day before joining fails |
| PayrollProperties.EndToEndSalaryScenario | test/app.e2e-spec.ts:43-48 | the end-to-end Employee (50000, joined 2023-08-12) earns 53000 on 2025-08-14 |
| PayrollProperties.TotalScenario | src/payroll/payroll.service.spec.ts:65-76 | two copies of the unit-test employee total 112000 |
| PayrollProperties.RoundingExamples | src/payroll/payroll.service.ts:44 | 1000.005 rounds up to 1000.01, and 2000.01 stays as it is |
| PayrollProperties.HalfCentPair | src/payroll/payroll.service.ts:47-61 | the two-employee repository used for the rounding comparison is closed |
| PayrollProperties.TotalOfOne | src/payroll/payroll.service.ts:51-58 | a staff list of one employee totals that employee's unrounded salary |
| PayrollProperties.TotalRoundsOnce | src/payroll/payroll.service.ts:57-60 | two salaries of 1000.005 total 2000.01 |
| PayrollProperties.SalariesRoundEach | src/payroll/payroll.service.ts:44 | each of those salaries rounds to 1000.01 on its own, so the rounded salaries sum to 2000.02, not to the total |
| PayrollProperties.HalfCentSalary | src/payroll/payroll.service.ts:36-45 | either salary of the pair, rounded, is 1000.01 |
| PayrollProperties.HalfCentBase | src/payroll/payroll.service.ts:96-107 | an Employee earning 1000.005 on its join day earns 1000.005 unrounded: no tenure bonus, the cap lies above, no subordinate share |
| Employees.SubordinatesOf | src/employee/employee.service.ts:84 | the subordinates of a record are exactly the stored records whose supervisor link points at it |
| Employees.RequestedSupervisor | src/employee/employee.service.ts:29 | a supervisor is requested exactly when the id is present and not 0 (JavaScript truthiness), and it is that id |
| Employees.SubordinateProblem | src/employee/employee.service.ts:37-50 | no problem exactly when every requested subordinate is stored and unsupervised; otherwise the error of the first listed subordinate in list order that is missing (not found) or already supervised (already managed) |
| Employees.Adopt | src/employee/employee.service.ts:61-65 | saving the subordinates relation keeps the same ids, sets exactly the listed records' supervisor to the new id and leaves every other record as it was |
| Employees.SaveKeepsLinks | src/employee/employee.service.ts:52-65 | saving a new record under a fresh id, with unsupervised stored records as subordinates, keeps every link resolved and every id below the next one, and gives the new record exactly those subordinates |
| Employees.EmployeeService.constructor | src/employee/employee.service.ts:16-19 | an empty valid store whose first id is 1 |
| Employees.EmployeeService.FindById | src/employee/employee.service.ts:68-79 | succeeds exactly when the id is stored, returning its record; otherwise the not-found error |
| Employees.EmployeeService.Create | src/employee/employee.service.ts:21-66 | refuses an invalid join date, then an unknown or Employee-typed supervisor, then a missing or already-supervised subordinate; on success stores a new record under a fresh id whose subordinates are exactly the requested ids; a refusal changes nothing; the store stays valid |
| Employees.EmployeeService.CheckSubordinates | src/employee/employee.service.ts:38-50 | the loop that loads each listed subordinate and stops at the first missing or supervised one reports exactly the first problem in list order |
| Employees.EmployeeService.DeleteById | src/employee/employee.service.ts:81-97 | refuses an unknown id, then an employee with subordinates, then one with a supervisor; otherwise removes exactly that record; validity is kept |
| Employees.EmployeeService.AddSupervisor | src/employee/employee.service.ts:107-126 | refuses unknown ids, then an employee that already has a supervisor (conflict), then an Employee-typed supervisor; otherwise sets exactly that link |
| Employees.EmployeeService.RemoveSupervisor | src/employee/employee.service.ts:128-139 | refuses an unknown id, then an employee without a supervisor; otherwise clears exactly that link |
| Employees.EmployeeService.ChangeSupervisor | src/employee/employee.service.ts:141-162 | refuses unknown ids, then an Employee-typed supervisor (with a not-found error, as written); otherwise sets exactly that link |
| EmployeeScenarios.SelfSupervisionAccepted | src/employee/employee.service.ts:107-126 | a Manager can be made its own supervisor; an Employee asked to supervise itself is refused |
| EmployeeScenarios.ManagerAdoptsEmployee | src/employee/employee.service.ts:37-65 | after John is created, a Manager listing John in `subordinatesIds` becomes John's supervisor with exactly John as subordinate; a second Manager listing John is refused as already managed (the end-to-end test sends its list under the key `subordinates`, not `subordinatesIds`, so the subordinate guard and the adoption loop never see it) |
| EmployeeScenarios.FirstRefusalReported | src/employee/employee.service.ts:39-46 | with 1 supervised and 2 unknown, listing [1, 2] is refused as already managed and [2, 1] as not found |
| EmployeeScenarios.AddThenRemoveRestores | src/employee/employee.service.ts:107-139 | adding a supervisor and then removing it leaves the store as it was |
| EmployeeScenarios.ChangeToCurrentSupervisor | src/employee/employee.service.ts:152-156 | naming the current supervisor again succeeds and changes nothing |

## Left out

- The HTTP controllers, the validation pipes, the DTO decorators and the Nest modules are not part of this model.
- The database is replaced by maps:
  - as the store's `records` in `Employees`;
  - as the repository `Repo` in `Payroll`.

  The decimal column, read back as a string, is modelled as a real number.
- The date pattern regular expression of `src/regexp/date-format` is not part of this model. It is the store's `datePattern` predicate, fixed at construction.
- JavaScript `Date` parsing, time zones and milliseconds are left out. The model counts whole days.
- IEEE double arithmetic is left out; money is an exact real:
  - `Payroll.Round2` models `toFixed(2)` on the exact value, rounding half away from zero;
  - `Payroll.Round2` does not model binary rounding of values such as 1.005.
- `async`/`await` and concurrent requests are left out. Each operation is one atomic step.
- `findAll` (`employee.service.ts:99-105`) is left out. The total takes the staff as a list of ids, in the order the repository returns them.
- Employee names and join-date strings take part only in the store, not in payroll.
- Payroll.Min: the contract states only that the result is at most both arguments. That it equals one of them is stated on `Payroll.CappedSalary`, the one function that uses it; the three step-by-step methods call `Min` too and are proved equal to functions built on `CappedSalary`; the disjunction on `Min` itself makes the concrete walk proofs run out of resource.
- Payroll requires `Closed`. The case of a subordinate row that the nested fetch cannot load is left out: the source would crash on `null`.
- Employees.EmployeeService.ChangeSupervisor: the "already has the specified supervisor" conflict is left out.
  - The source compares two objects loaded by separate queries by identity (`===`), so the check never fires.
  - The model accepts that call and writes the same link.
- Employees.EmployeeService.Create: the saved record's fields are modelled, but not the database's defaults or timestamps.
  - Assigning the subordinates relation sets each subordinate's supervisor to the new id.
  - A `supervisorId` of 0 counts as absent, as JavaScript truthiness does.
- The cascade rules of the relation on delete are left out. Deletion is refused while links exist, so no cascade arises.
- Cycles in the supervisor links are not prevented, and they are not modelled as an error. `EmployeeScenarios.SelfSupervisionAccepted` shows that one can be made.
