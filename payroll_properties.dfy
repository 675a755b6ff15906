/**
  Properties of the payroll engine that relate several calls: how the two walks
  combine siblings, how deep they look, and the worked scenarios of the
  service's tests.
*/
module PayrollProperties {
  import opened Common
  import opened Payroll

  // ---------------------------------------------------------------- the Manager walk is a plain sum

  /** The Manager walk over two lists of siblings is the sum of the two walks. */
  lemma {:induction false} ManagerBonusAppend(repo: Repo, a: seq<int>, b: seq<int>, years: nat, maxDepth: int)
    requires Closed(repo) && AllIn(repo, a) && AllIn(repo, b)
    ensures AllIn(repo, a + b)
    ensures ManagerBonus(repo, a + b, years, maxDepth)
         == ManagerBonus(repo, a, years, maxDepth) + ManagerBonus(repo, b, years, maxDepth)
    decreases |b|
  {
    assert forall k :: 0 <= k < |a + b| ==> (a + b)[k] == if k < |a| then a[k] else b[k - |a|];
    if |b| == 0 {
      assert a + b == a;
    } else if maxDepth > 0 {
      var last := |b| - 1;
      var b' := b[..last];
      assert AllIn(repo, b');
      ManagerBonusAppend(repo, a, b', years, maxDepth);
      assert (a + b)[..|a + b| - 1] == a + b';
      assert (a + b)[|a + b| - 1] == b[last];
    }
  }

  /** Taking one sibling out of the Manager walk takes out exactly its share. */
  lemma ManagerBonusRemove(repo: Repo, a: seq<int>, i: nat, years: nat, maxDepth: int)
    requires Closed(repo) && AllIn(repo, a) && i < |a|
    ensures AllIn(repo, a[..i] + a[i + 1..])
    ensures ManagerBonus(repo, a, years, maxDepth)
         == ManagerBonus(repo, a[..i] + a[i + 1..], years, maxDepth) + ManagerBonus(repo, [a[i]], years, maxDepth)
  {
    var front, back := a[..i], a[i + 1..];
    assert a == (front + [a[i]]) + back;
    assert AllIn(repo, front) && AllIn(repo, back) && AllIn(repo, [a[i]]);
    ManagerBonusAppend(repo, front, [a[i]], years, maxDepth);
    ManagerBonusAppend(repo, front + [a[i]], back, years, maxDepth);
    ManagerBonusAppend(repo, front, back, years, maxDepth);
  }

  lemma RemoveFromMultiset(a: seq<int>, i: nat, b': seq<int>, x: int)
    requires i < |a| && a[i] == x && multiset(a) == multiset(b' + [x])
    ensures multiset(a[..i] + a[i + 1..]) == multiset(b')
  {
    var front, back := a[..i], a[i + 1..];
    assert a == front + [x] + back;
    assert multiset(a) == multiset(front) + multiset([x]) + multiset(back);
    assert multiset(b' + [x]) == multiset(b') + multiset([x]);
    assert multiset(front + back) == multiset(front) + multiset(back);
    assert multiset(front + back) == multiset(a) - multiset([x]);
    assert multiset(b') == multiset(b' + [x]) - multiset([x]);
  }

  /** The Manager walk does not depend on the order of the siblings. */
  lemma {:induction false} ManagerBonusPermutation(repo: Repo, a: seq<int>, b: seq<int>, years: nat, maxDepth: int)
    requires Closed(repo) && AllIn(repo, a) && AllIn(repo, b)
    requires multiset(a) == multiset(b)
    ensures ManagerBonus(repo, a, years, maxDepth) == ManagerBonus(repo, b, years, maxDepth)
    decreases |b|
  {
    if |b| == 0 {
      assert |a| == |multiset(a)| == 0;
    } else {
      var last := |b| - 1;
      var x := b[last];
      var b' := b[..last];
      assert b == b' + [x];
      assert x in multiset(b);
      assert x in multiset(a);
      var i :| 0 <= i < |a| && a[i] == x;
      var rest := a[..i] + a[i + 1..];
      ManagerBonusRemove(repo, a, i, years, maxDepth);
      assert AllIn(repo, b') && AllIn(repo, [x]);
      ManagerBonusAppend(repo, b', [x], years, maxDepth);
      RemoveFromMultiset(a, i, b', x);
      ManagerBonusPermutation(repo, rest, b', years, maxDepth);
    }
  }

  /** Hence a Manager's salary does not depend on the order in which its direct
      subordinates are listed. */
  lemma ManagerSalaryIgnoresOrder(repo: Repo, e: Emp, subs: seq<int>, today: int)
    requires Closed(repo) && AllIn(repo, e.subordinates) && AllIn(repo, subs)
    requires e.role == Manager && multiset(subs) == multiset(e.subordinates)
    ensures BaseSalary(repo, e, today) == BaseSalary(repo, e.(subordinates := subs), today)
  {
    if e.joinDay <= today {
      var years := YearsOfWork(e.joinDay, today).value;
      ManagerBonusPermutation(repo, subs, e.subordinates, years, WalkDepth);
    }
  }

  // ---------------------------------------------------------------- the Salesperson walk depends on order

  /** Two siblings: an Employee earning 100 (id 1) and a Salesperson earning
      1000 (id 2), neither with subordinates, both joined on day 0. */
  function SiblingPair(): (repo: Repo)
    ensures Closed(repo)
  {
    map[1 := Emp(Employee, 100.0, 0, []), 2 := Emp(Salesperson, 1000.0, 0, [])]
  }

  /** At zero years, the Salesperson walk gives 1100.3 when the Employee comes
      first (the Salesperson's share includes 0.003 * 100) and 1100 the other
      way round; the Manager walk gives 1100 both ways. */
  lemma SalespersonWalkDependsOnOrder()
    ensures SubordinatesBonus(SiblingPair(), [1, 2], 0, 0, WalkDepth) == 1100.3
    ensures SubordinatesBonus(SiblingPair(), [2, 1], 0, 0, WalkDepth) == 1100.0
    ensures ManagerBonus(SiblingPair(), [1, 2], 0, WalkDepth) == ManagerBonus(SiblingPair(), [2, 1], 0, WalkDepth) == 1100.0
  {
    var repo := SiblingPair();
    var ab, ba := [1, 2], [2, 1];
    assert ab[..1] == [1] && ba[..1] == [2];
    SiblingsAlone();
    assert CappedSalary(Employee, 100.0, 0) == 100.0;
    assert CappedSalary(Salesperson, 1000.0, 0) == 1000.0;
    assert SubordinatesBonus(repo, [], 0, 1, WalkDepth) == 0.0;
  }

  /** Each sibling alone contributes its base salary to either walk. */
  lemma SiblingsAlone()
    ensures SubordinatesBonus(SiblingPair(), [1], 0, 0, WalkDepth) == 100.0
    ensures SubordinatesBonus(SiblingPair(), [2], 0, 0, WalkDepth) == 1000.0
    ensures ManagerBonus(SiblingPair(), [1], 0, WalkDepth) == 100.0
    ensures ManagerBonus(SiblingPair(), [2], 0, WalkDepth) == 1000.0
  {
    var repo := SiblingPair();
    LeafAlone(repo, 1, 0, 0, WalkDepth, WalkDepth);
    LeafAlone(repo, 2, 0, 0, WalkDepth, WalkDepth);
    assert CappedSalary(Employee, 100.0, 0) == 100.0;
    assert CappedSalary(Salesperson, 1000.0, 0) == 1000.0;
  }

  /** A subordinate without subordinates of its own, walked alone, contributes
      exactly its capped salary to either walk. */
  lemma LeafAlone(repo: Repo, id: int, years: nat, depth: int, maxDepth: int, levels: int)
    requires Closed(repo) && id in repo && repo[id].subordinates == []
    requires depth < maxDepth && levels > 0
    ensures SubordinatesBonus(repo, [id], years, depth, maxDepth) == CappedSalary(repo[id].role, repo[id].baseSalary, years)
    ensures ManagerBonus(repo, [id], years, levels) == CappedSalary(repo[id].role, repo[id].baseSalary, years)
  {
    var one := [id];
    assert one[..0] == [];
    assert SubordinatesBonus(repo, [], years, depth + 1, maxDepth) == 0.0;
    assert ManagerBonus(repo, [], years, levels - 1) == 0.0;
  }

  /** When every direct subordinate is of type Employee, the two walks agree:
      each sibling adds its capped salary and nothing else. */
  lemma {:induction false} WalksAgreeOnEmployeeTeams(repo: Repo, subs: seq<int>, years: nat, levels: int, depth: int, maxDepth: int)
    requires Closed(repo) && AllIn(repo, subs)
    requires forall k :: 0 <= k < |subs| ==> repo[subs[k]].role == Employee
    requires levels > 0 && depth < maxDepth
    ensures ManagerBonus(repo, subs, years, levels) == SubordinatesBonus(repo, subs, years, depth, maxDepth)
    decreases |subs|
  {
    if |subs| > 0 {
      var prefix := subs[..|subs| - 1];
      assert AllIn(repo, prefix);
      WalksAgreeOnEmployeeTeams(repo, prefix, years, levels, depth, maxDepth);
    }
  }

  // ---------------------------------------------------------------- how deep the walks look

  /** The ids at most `levels` links below the employee whose subordinates are `subs`. */
  ghost function Within(repo: Repo, subs: seq<int>, levels: int): (ids: set<int>)
    requires Closed(repo) && AllIn(repo, subs)
    ensures forall id :: id in ids ==> id in repo
    decreases levels, |subs|
  {
    if |subs| == 0 || levels <= 0 then {}
    else
      var last := subs[|subs| - 1];
      Within(repo, subs[..|subs| - 1], levels) + {last} + Within(repo, Fetch(repo, last).subordinates, levels - 1)
  }

  /** What a walk reads of an employee: not its join date. */
  ghost predicate SamePayData(a: Emp, b: Emp) {
    a.role == b.role && a.baseSalary == b.baseSalary && a.subordinates == b.subordinates
  }

  ghost predicate AgreeOn(repo: Repo, repo': Repo, ids: set<int>) {
    forall id :: id in ids ==> id in repo && id in repo' && SamePayData(repo[id], repo'[id])
  }

  /** The Manager walk reads only the employees `maxDepth` levels down, and not
      their join dates. */
  lemma {:induction false} ManagerBonusFrame(repo: Repo, repo': Repo, subs: seq<int>, years: nat, maxDepth: int)
    requires Closed(repo) && Closed(repo') && AllIn(repo, subs) && AllIn(repo', subs)
    requires AgreeOn(repo, repo', Within(repo, subs, maxDepth))
    ensures ManagerBonus(repo, subs, years, maxDepth) == ManagerBonus(repo', subs, years, maxDepth)
    decreases maxDepth, |subs|
  {
    if |subs| > 0 && maxDepth > 0 {
      var last := subs[|subs| - 1];
      var prefix := subs[..|subs| - 1];
      assert AllIn(repo, prefix) && AllIn(repo', prefix);
      ManagerBonusFrame(repo, repo', prefix, years, maxDepth);
      assert last in Within(repo, subs, maxDepth);
      var s, s' := Fetch(repo, last), Fetch(repo', last);
      ManagerBonusFrame(repo, repo', s.subordinates, years, maxDepth - 1);
    }
  }

  /** The Salesperson walk at level `depth` reads only the employees
      `maxDepth - depth` levels down, and not their join dates. */
  lemma {:induction false} SubordinatesBonusFrame(repo: Repo, repo': Repo, subs: seq<int>, years: nat, depth: int, maxDepth: int)
    requires Closed(repo) && Closed(repo') && AllIn(repo, subs) && AllIn(repo', subs)
    requires AgreeOn(repo, repo', Within(repo, subs, maxDepth - depth))
    ensures SubordinatesBonus(repo, subs, years, depth, maxDepth) == SubordinatesBonus(repo', subs, years, depth, maxDepth)
    decreases maxDepth - depth, |subs|
  {
    if |subs| > 0 && depth < maxDepth {
      var last := subs[|subs| - 1];
      var prefix := subs[..|subs| - 1];
      assert AllIn(repo, prefix) && AllIn(repo', prefix);
      SubordinatesBonusFrame(repo, repo', prefix, years, depth, maxDepth);
      assert last in Within(repo, subs, maxDepth - depth);
      var s, s' := Fetch(repo, last), Fetch(repo', last);
      if depth < maxDepth - 1 {
        SubordinatesBonusFrame(repo, repo', s.subordinates, years, depth + 1, maxDepth);
      }
    }
  }

  /** An employee's salary depends on nobody more than three levels below it,
      and on no subordinate's join date: every level uses the years of the
      employee being paid. */
  lemma SalaryReadsThreeLevels(repo: Repo, repo': Repo, e: Emp, today: int)
    requires Closed(repo) && Closed(repo') && AllIn(repo, e.subordinates) && AllIn(repo', e.subordinates)
    requires AgreeOn(repo, repo', Within(repo, e.subordinates, WalkDepth))
    ensures BaseSalary(repo, e, today) == BaseSalary(repo', e, today)
  {
    if e.joinDay <= today {
      var years := YearsOfWork(e.joinDay, today).value;
      ManagerBonusFrame(repo, repo', e.subordinates, years, WalkDepth);
      SubordinatesBonusFrame(repo, repo', e.subordinates, years, 0, WalkDepth);
    }
  }

  /** Nothing prevents a cycle: a Manager listed as its own subordinate. The
      walk still ends, because it counts levels, and stops after three:
      1000 + 0.005 * (1000 + 0.005 * 1000). */
  lemma ManagerWalkEndsOnCycle()
    ensures var repo := map[1 := Emp(Manager, 1000.0, 0, [1])];
      Closed(repo) && ManagerBonus(repo, [1], 0, WalkDepth) == 1005.025
  {
    var repo := map[1 := Emp(Manager, 1000.0, 0, [1])];
    assert Closed(repo);
    assert [1][..0] == [];
    assert CappedSalary(Manager, 1000.0, 0) == 1000.0;
    assert ManagerBonus(repo, [1], 0, 0) == 0.0;
    assert ManagerBonus(repo, [1], 0, 1) == 1000.0;
    assert ManagerBonus(repo, [1], 0, 2) == 1005.0;
  }

  /** The self-listed Manager's own salary: its capped 1000 plus 0.005 times
      that walk. */
  lemma ManagerCycleSalary()
    ensures var repo := map[1 := Emp(Manager, 1000.0, 0, [1])];
      Closed(repo) && BaseSalary(repo, repo[1], 0) == Ok(1005.025125)
  {
    var repo := map[1 := Emp(Manager, 1000.0, 0, [1])];
    ManagerWalkEndsOnCycle();
    assert YearsOfWork(0, 0) == Ok(0);
    assert SubordinateBonus(repo, repo[1], 0) == 1005.025;
    assert CappedSalary(Manager, 1000.0, 0) == 1000.0;
    assert BonusFromSubordinates(1005.025, 0.005) == 5.025125;
  }

  /** The same for the Salesperson walk: at levels 2, 1 and 0 the accumulator
      ends at 1000, 2003 and 2003 + 1000 + 0.003 * 2003. */
  lemma SalespersonWalkEndsOnCycle()
    ensures var repo := map[1 := Emp(Salesperson, 1000.0, 0, [1])];
      Closed(repo) && SubordinatesBonus(repo, [1], 0, 0, WalkDepth) == 3009.009
  {
    var repo := map[1 := Emp(Salesperson, 1000.0, 0, [1])];
    assert Closed(repo);
    assert [1][..0] == [];
    assert CappedSalary(Salesperson, 1000.0, 0) == 1000.0;
    assert SubordinatesBonus(repo, [1], 0, 2, WalkDepth) == 1000.0;
    assert SubordinatesBonus(repo, [1], 0, 1, WalkDepth) == 2003.0;
  }

  /** The Salesperson walk passes the percentage and the accumulator to the
      share in the opposite order to the rest of the engine; the share is a
      product, so the order does not change it. */
  lemma SwappedShareOperands(subordinateBonus: real, percent: real)
    ensures BonusFromSubordinates(percent, subordinateBonus) == BonusFromSubordinates(subordinateBonus, percent)
  {
  }

  // ---------------------------------------------------------------- the cap and the subordinate bonus

  /** The salary exceeds the role's cap only through the subordinate bonus,
      which is added after the cap: never for an Employee. */
  lemma SalaryAboveCapOnlyFromSubordinates(repo: Repo, e: Emp, today: int)
    requires Closed(repo) && AllIn(repo, e.subordinates)
    requires BaseSalary(repo, e, today).Ok?
    requires BaseSalary(repo, e, today).value > MaxSalary(e.baseSalary, Rules(e.role).salaryLimit)
    ensures e.role != Employee
    ensures SubordinateBonus(repo, e, YearsOfWork(e.joinDay, today).value) * Rules(e.role).bonusPercentFromSubordinates > 0.0
  {
  }

  /** An Employee's salary is its capped tenure salary, whatever subordinates it lists. */
  lemma EmployeeSalaryIsCappedTenure(repo: Repo, e: Emp, today: int)
    requires Closed(repo) && AllIn(repo, e.subordinates)
    requires e.role == Employee && e.joinDay <= today
    ensures BaseSalary(repo, e, today) == Ok(CappedSalary(Employee, e.baseSalary, YearsOfWork(e.joinDay, today).value))
  {
  }

  /** A Manager earning 1000 after ten years, capped at 1400, with one Employee
      earning 1000 below it (capped at 1300): 1400 + 0.005 * 1300 = 1406.5. */
  lemma SubordinateBonusExceedsCap()
    ensures var repo := map[2 := Emp(Employee, 1000.0, 0, [])];
      && Closed(repo)
      && BaseSalary(repo, Emp(Manager, 1000.0, 0, [2]), 3653) == Ok(1406.5)
      && 1406.5 > MaxSalary(1000.0, Rules(Manager).salaryLimit)
  {
    var repo := map[2 := Emp(Employee, 1000.0, 0, [])];
    assert Closed(repo);
    assert YearsOfWork(0, 3653) == Ok(10);
    assert [2][..0] == [];
    assert CappedSalary(Employee, 1000.0, 10) == 1300.0;
    assert ManagerBonus(repo, [2], 10, WalkDepth) == 1300.0;
    assert CappedSalary(Manager, 1000.0, 10) == 1400.0;
  }

  // ---------------------------------------------------------------- scenarios

  /** The day number of a calendar date, counted from 1970-01-01 (day 0), as the
      dates of the scenarios are parsed. */
  function Day(y: int, m: int, d: int): int
    requires 1 <= m <= 12 && 1 <= d <= 31
  {
    var y' := if m <= 2 then y - 1 else y;
    var era := y' / 400;
    var yoe := y' - era * 400;
    var mp := if m > 2 then m - 3 else m + 9;
    var doy := (153 * mp + 2) / 5 + d - 1;
    var doe := yoe * 365 + yoe / 4 - yoe / 100 + doy;
    era * 146097 + doe - 719468
  }

  /** The day numbers of the dates the scenarios use. */
  lemma ScenarioDays()
    ensures Day(1970, 1, 1) == 0 && Day(2020, 12, 31) == 18627 && Day(2021, 1, 1) == 18628
    ensures Day(2023, 8, 12) == 19581 && Day(2025, 8, 14) == 20314
  {
  }

  /** 2021-01-01 to 2025-08-14 is 4 years, 2023-08-12 to 2025-08-14 is 2, a day
      to itself is 0, and a start after the end fails. */
  lemma YearsOfWorkScenarios()
    ensures YearsOfWork(Day(2021, 1, 1), Day(2025, 8, 14)) == Ok(4)
    ensures YearsOfWork(Day(2023, 8, 12), Day(2025, 8, 14)) == Ok(2)
    ensures forall d :: YearsOfWork(d, d) == Ok(0)
    ensures YearsOfWork(Day(2025, 8, 14), Day(2021, 1, 1)) == Err(Plain(StartAfterEnd))
  {
    ScenarioDays();
    assert (4 * 1686) / 1461 == 4;
    assert (4 * 733) / 1461 == 2;
  }

  /** An Employee with no subordinates earning 50000 for `years` whole years:
      its unrounded salary is the capped tenure salary. */
  lemma FiftyThousand(repo: Repo, e: Emp, today: int, years: nat, salary: real)
    requires Closed(repo) && e.role == Employee && e.baseSalary == 50000.0 && e.subordinates == []
    requires YearsOfWork(e.joinDay, today) == Ok(years)
    requires salary == 50000.0 + 1500.0 * years as real && years <= 10
    ensures BaseSalary(repo, e, today) == Ok(salary)
  {
    EmployeeSalaryIsCappedTenure(repo, e, today);
    assert BonusFromYears(50000.0, 0.03, years) == 1500.0 * years as real;
    assert MaxSalary(50000.0, 1.3) == 65000.0;
  }

  /** The unit-test Employee, earning 50000 and joined on 2021-01-01: 56000 on
      2025-08-14; an unknown id is NotFound; a day before joining fails. */
  lemma SalaryScenarios()
    ensures var repo := map[1 := Emp(Employee, 50000.0, Day(2021, 1, 1), [])];
      && Closed(repo)
      && Salary(repo, 1, Day(2025, 8, 14)) == Ok(56000.0)
      && Salary(repo, 2, Day(2025, 8, 14)) == Err(NotFound(EmployeeNotFound))
      && Salary(repo, 1, Day(2020, 12, 31)) == Err(Plain(StartAfterEnd))
  {
    ScenarioDays();
    YearsOfWorkScenarios();
    var repo := map[1 := Emp(Employee, 50000.0, 18628, [])];
    FiftyThousand(repo, repo[1], 20314, 4, 56000.0);
    assert IsCents(56000.0);
  }

  /** The end-to-end Employee, earning 50000 and joined on 2023-08-12: 53000 on
      2025-08-14. */
  lemma EndToEndSalaryScenario()
    ensures var repo := map[1 := Emp(Employee, 50000.0, Day(2023, 8, 12), [])];
      Closed(repo) && Salary(repo, 1, Day(2025, 8, 14)) == Ok(53000.0)
  {
    ScenarioDays();
    YearsOfWorkScenarios();
    var repo := map[1 := Emp(Employee, 50000.0, 19581, [])];
    FiftyThousand(repo, repo[1], 20314, 2, 53000.0);
    assert IsCents(53000.0);
  }

  /** The same employee listed twice: the total is 112000. */
  lemma TotalScenario()
    ensures var repo := map[1 := Emp(Employee, 50000.0, Day(2021, 1, 1), [])];
      Closed(repo) && TotalSalaries(repo, [1, 1], Day(2025, 8, 14)) == Ok(112000.0)
  {
    ScenarioDays();
    YearsOfWorkScenarios();
    var repo := map[1 := Emp(Employee, 50000.0, 18628, [])];
    FiftyThousand(repo, repo[1], 20314, 4, 56000.0);
    TotalOfOne(repo, 1, 20314, 56000.0);
    var twice := [1, 1];
    assert twice[..1] == [1];
    assert UnroundedTotal(repo, twice, 20314) == Ok(112000.0);
    assert IsCents(112000.0);
  }

  /** Rounding 1000.005 and 2000.01 to cents. */
  lemma RoundingExamples()
    ensures Round2(1000.005) == 1000.01 && Round2(2000.01) == 2000.01
  {
    assert 1000.005 * 100.0 + 0.5 == 100001.0;
    assert (100001.0).Floor == 100001;
    assert 2000.01 * 100.0 + 0.5 == 200001.5;
    assert (200001.5).Floor == 200001;
  }

  /** Two Employees earning 1000.005 at zero years. */
  function HalfCentPair(): (repo: Repo)
    ensures Closed(repo)
  {
    map[1 := Emp(Employee, 1000.005, 0, []), 2 := Emp(Employee, 1000.005, 0, [])]
  }

  /** The total rounds once: the two unrounded salaries sum to 2000.01 ... */
  lemma TotalRoundsOnce()
    ensures TotalSalaries(HalfCentPair(), [1, 2], 0) == Ok(2000.01)
  {
    var repo := HalfCentPair();
    var staff := [1, 2];
    assert staff[..1] == [1];
    var e := Emp(Employee, 1000.005, 0, []);
    assert repo[1] == e && repo[2] == e;
    HalfCentBase(repo, e);
    TotalOfOne(repo, 1, 0, 1000.005);
    assert UnroundedTotal(repo, staff, 0) == Ok(2000.01);
    RoundingExamples();
  }

  /** A staff list of one employee totals that employee's unrounded salary. */
  lemma TotalOfOne(repo: Repo, id: int, today: int, salary: real)
    requires Closed(repo) && id in repo && BaseSalary(repo, repo[id], today) == Ok(salary)
    ensures UnroundedTotal(repo, [id], today) == Ok(salary)
  {
    var one := [id];
    assert one[..0] == [];
  }

  /** ... while each salary rounds to 1000.01, so the rounded salaries sum to 2000.02. */
  lemma SalariesRoundEach()
    ensures Salary(HalfCentPair(), 1, 0) == Salary(HalfCentPair(), 2, 0) == Ok(1000.01)
  {
    HalfCentSalary(1);
    HalfCentSalary(2);
  }

  /** One salary of the pair, rounded on its own. */
  lemma HalfCentSalary(id: int)
    requires id == 1 || id == 2
    ensures Salary(HalfCentPair(), id, 0) == Ok(1000.01)
  {
    var repo := HalfCentPair();
    var e := Emp(Employee, 1000.005, 0, []);
    assert id in repo && repo[id] == e && Fetch(repo, id) == e;
    HalfCentBase(repo, e);
    RoundingExamples();
    var r := Round2(1000.005);
    assert r == 1000.01;
    assert Salary(repo, id, 0) == Ok(r);
  }

  /** An Employee earning 1000.005 on its join day earns 1000.005 unrounded:
      zero years add nothing and the cap lies above. */
  lemma HalfCentBase(repo: Repo, e: Emp)
    requires Closed(repo) && e == Emp(Employee, 1000.005, 0, [])
    ensures BaseSalary(repo, e, 0) == Ok(1000.005)
  {
    assert YearsOfWork(0, 0) == Ok(0);
    assert Rules(Employee) == RoleRules(0.0, 0.03, 1.3);
    assert MaxSalary(1000.005, 1.3) == 1300.0065;
    assert BonusFromYears(1000.005, 0.03, 0) == 0.0;
    assert BonusFromSubordinates(0.0, 0.0) == 0.0;
  }
}
