/**
 * The reconciliation stage. The department aggregate is left-outer-joined
 * with the employee revenue on `departmentId` and narrowed to five columns
 * (lines 52-54); the result is left-outer-joined with the departments
 * (lines 57-58) and a null `avgRevenue` is replaced by 0 (line 59).
 *
 * The aggregate is the LEFT side of the first join, so the report holds a
 * row for every department that has at least one employee with revenue and
 * for no other department.
 */
module Reconciliation {
  import opened Nullable
  import opened Sequences
  import opened Aggregates
  import opened Schema
  import opened DepartmentJoin
  import opened DepartmentAverageStage

  /** Employee revenue row `x` joins aggregate row `a`: equal, non-null department ids. */
  predicate Matches(a: DepartmentAverage, x: EmployeeRevenue) {
    a.departmentId.Some? && x.departmentId == a.departmentId
  }

  /** The employee revenue rows that join aggregate row `a`, each as often as in `revenue`. */
  function MatchEmployees(a: DepartmentAverage, revenue: seq<EmployeeRevenue>): (r: seq<EmployeeRevenue>)
    ensures forall x :: multiset(r)[x] == if Matches(a, x) then multiset(revenue)[x] else 0
    ensures forall x :: x in r <==> x in revenue && Matches(a, x)
  {
    if revenue == [] then []
    else
      assert revenue == [revenue[0]] + revenue[1..];
      (if Matches(a, revenue[0]) then [revenue[0]] else []) + MatchEmployees(a, revenue[1..])
  }

  /** The five selected columns of aggregate row `a` joined with employee revenue row `x`. */
  function Widen(x: EmployeeRevenue, avgRevenue: Option<Fraction>): ReportRow {
    ReportRow(x.departmentId, x.employeeId, x.employeeName, x.totalRevenue, avgRevenue)
  }

  /** The five selected columns of aggregate row `a` when no employee revenue row joins it. */
  function Unmatched(a: DepartmentAverage): ReportRow {
    ReportRow(a.departmentId, None, None, None, a.avgRevenue)
  }

  /** `Widen` with the same average on every row. */
  function WidenAll(rows: seq<EmployeeRevenue>, avgRevenue: Option<Fraction>): (r: seq<ReportRow>)
    ensures |r| == |rows|
    ensures forall i :: 0 <= i < |r| ==> r[i] == Widen(rows[i], avgRevenue)
    ensures forall o :: o in r <==> exists x :: x in rows && o == Widen(x, avgRevenue)
  {
    if rows == [] then []
    else
      assert forall x :: x in rows <==> x == rows[0] || x in rows[1..];
      [Widen(rows[0], avgRevenue)] + WidenAll(rows[1..], avgRevenue)
  }

  /** No employee revenue row joins aggregate row `a`. */
  ghost predicate Unjoined(a: DepartmentAverage, revenue: seq<EmployeeRevenue>) {
    forall x :: x in revenue ==> !Matches(a, x)
  }

  /** The rows the left-outer join produces for one aggregate row. */
  function Expand(a: DepartmentAverage, revenue: seq<EmployeeRevenue>): seq<ReportRow> {
    var ms := MatchEmployees(a, revenue);
    if ms == [] then [Unmatched(a)] else WidenAll(ms, a.avgRevenue)
  }

  /** Its rows are the matching employees widened with the average, or the aggregate row alone when none matches. */
  lemma ExpandMembers(a: DepartmentAverage, revenue: seq<EmployeeRevenue>, o: ReportRow)
    ensures o in Expand(a, revenue) <==>
      (exists x :: x in revenue && Matches(a, x) && o == Widen(x, a.avgRevenue)) ||
      (Unjoined(a, revenue) && o == Unmatched(a))
  {
  }

  /**
   * `averages.join(revenue, "departmentId", "left_outer")`, narrowed to
   * (departmentId, employeeId, employeeName, totalRevenue, avgRevenue).
   */
  function JoinAverages(averages: seq<DepartmentAverage>, revenue: seq<EmployeeRevenue>): seq<ReportRow> {
    if averages == [] then []
    else Expand(averages[0], revenue) + JoinAverages(averages[1..], revenue)
  }

  /** The joined rows are those of the aggregate rows, each expanded. */
  lemma {:induction false} JoinAveragesMembers(averages: seq<DepartmentAverage>, revenue: seq<EmployeeRevenue>, o: ReportRow)
    ensures o in JoinAverages(averages, revenue) <==> exists a :: a in averages && o in Expand(a, revenue)
  {
    if averages != [] {
      assert forall a :: a in averages <==> a == averages[0] || a in averages[1..];
      JoinAveragesMembers(averages[1..], revenue, o);
    }
  }

  // ---------------------------------------------------------------------------
  // Lines 57-59.

  /** A reconciled row followed by the attribute columns of a department. */
  function Line(row: ReportRow, attributes: Option<seq<Cell>>): ReportLine {
    ReportLine(row.departmentId, row.employeeId, row.employeeName, row.totalRevenue, row.avgRevenue, attributes)
  }

  /** The five reconciled columns of a report line. */
  function RowOf(l: ReportLine): ReportRow {
    ReportRow(l.departmentId, l.employeeId, l.employeeName, l.totalRevenue, l.avgRevenue)
  }

  function Lines(joined: seq<(ReportRow, Option<seq<Cell>>)>): (r: seq<ReportLine>)
    ensures |r| == |joined|
    ensures forall i :: 0 <= i < |r| ==> RowOf(r[i]) == joined[i].0 && r[i].departmentAttributes == joined[i].1
  {
    seq(|joined|, i requires 0 <= i < |joined| => Line(joined[i].0, joined[i].1))
  }

  /**
   * `rows.join(departments, "departmentId", "left_outer")`: every reconciled
   * row is kept, with the columns of each department of the same id, or with
   * null department columns when there is none.
   */
  function JoinReportDepartments(rows: seq<ReportRow>, departments: seq<Department>): (r: seq<ReportLine>)
    ensures |r| >= |rows|
    ensures forall x :: x in rows ==> exists l :: l in r && RowOf(l) == x
    ensures forall l :: l in r ==> RowOf(l) in rows && JoinedWith((RowOf(l), l.departmentAttributes), RowDepartment, departments)
  {
    var joined := LeftJoinDepartments(rows, RowDepartment, departments);
    LeftJoinKeeps(rows, RowDepartment, departments);
    LeftJoinSources(rows, RowDepartment, departments);
    LinesKeepRows(rows, joined);
    LinesFromRows(rows, joined, departments);
    Lines(joined)
  }

  lemma LinesKeepRows(rows: seq<ReportRow>, joined: seq<(ReportRow, Option<seq<Cell>>)>)
    requires forall x :: x in rows ==> exists o :: o in joined && o.0 == x
    ensures forall x :: x in rows ==> exists l :: l in Lines(joined) && RowOf(l) == x
  {
    var r := Lines(joined);
    forall x | x in rows ensures exists l :: l in r && RowOf(l) == x {
      var o :| o in joined && o.0 == x;
      var i :| 0 <= i < |joined| && joined[i] == o;
      assert r[i] in r;
    }
  }

  lemma LinesFromRows(rows: seq<ReportRow>, joined: seq<(ReportRow, Option<seq<Cell>>)>, departments: seq<Department>)
    requires forall o :: o in joined ==> o.0 in rows && JoinedWith(o, RowDepartment, departments)
    ensures forall l :: l in Lines(joined) ==>
      RowOf(l) in rows && JoinedWith((RowOf(l), l.departmentAttributes), RowDepartment, departments)
  {
    var r := Lines(joined);
    forall l | l in r ensures RowOf(l) in rows && JoinedWith((RowOf(l), l.departmentAttributes), RowDepartment, departments) {
      var i :| 0 <= i < |r| && r[i] == l;
      assert joined[i] in joined;
      assert joined[i] == (RowOf(l), l.departmentAttributes);
    }
  }

  /** The value `na().fill(0, ...)` writes: the average 0. */
  const ZeroAverage: Fraction := Fraction(0, 1)

  /** `na().fill(0, "avgRevenue")`: a null average becomes 0; nothing else changes. */
  function FillAverage(lines: seq<ReportLine>): (r: seq<ReportLine>)
    ensures |r| == |lines|
    ensures forall i :: 0 <= i < |r| ==> r[i].avgRevenue.Some?
    ensures forall i :: 0 <= i < |r| ==> lines[i].avgRevenue.Some? ==> r[i] == lines[i]
    ensures forall i :: 0 <= i < |r| ==> lines[i].avgRevenue.None? ==> r[i] == lines[i].(avgRevenue := Some(ZeroAverage))
  {
    seq(|lines|, i requires 0 <= i < |lines| => lines[i].(avgRevenue := Some(lines[i].avgRevenue.GetOr(ZeroAverage))))
  }

  // ---------------------------------------------------------------------------
  // Properties of lines 52-54.

  /** `Widen` keeps the employee columns apart: two rows widened with one average are equal only when they were. */
  lemma {:induction false} WidenAllCount(rows: seq<EmployeeRevenue>, avgRevenue: Option<Fraction>, x: EmployeeRevenue, m: Option<Fraction>)
    ensures multiset(WidenAll(rows, avgRevenue))[Widen(x, m)] == if m == avgRevenue then multiset(rows)[x] else 0
  {
    if rows != [] {
      WidenAllCount(rows[1..], avgRevenue, x, m);
      ConsMultiplicity(rows, x);
      ConsCount(Widen(rows[0], avgRevenue), WidenAll(rows[1..], avgRevenue), Widen(x, m));
    }
  }

  /** The rows of one aggregate row carrying employee `x` with average `m`: as many as `x` has, when `m` is the aggregate's. */
  lemma ExpandCount(a: DepartmentAverage, revenue: seq<EmployeeRevenue>, x: EmployeeRevenue, m: Option<Fraction>)
    requires x in revenue && x.departmentId.Some?
    ensures multiset(Expand(a, revenue))[Widen(x, m)] ==
      if a == DepartmentAverage(x.departmentId, m) then multiset(revenue)[x] else 0
  {
    var ms := MatchEmployees(a, revenue);
    if ms == [] {
      assert multiset(ms)[x] == 0;
      assert a != DepartmentAverage(x.departmentId, m);
      assert Widen(x, m) != Unmatched(a);
      assert multiset([Unmatched(a)])[Widen(x, m)] == 0;
    } else {
      WidenAllCount(ms, a.avgRevenue, x, m);
    }
  }

  /**
   * With one aggregate row per department, the joined rows carrying employee
   * `x` with average `m` are as many as `x` has when `m` is its department's
   * aggregate, and none otherwise.
   */
  lemma {:induction false} JoinAveragesCount(averages: seq<DepartmentAverage>, revenue: seq<EmployeeRevenue>, x: EmployeeRevenue, m: Option<Fraction>)
    requires x in revenue && x.departmentId.Some?
    requires forall i, j :: 0 <= i < j < |averages| ==> averages[i].departmentId != averages[j].departmentId
    ensures multiset(JoinAverages(averages, revenue))[Widen(x, m)] ==
      if DepartmentAverage(x.departmentId, m) in averages then multiset(revenue)[x] else 0
  {
    if averages != [] {
      var a, rest := averages[0], averages[1..];
      var target := DepartmentAverage(x.departmentId, m);
      DistinctTail(averages, target);
      ExpandCount(a, revenue, x, m);
      JoinAveragesCount(rest, revenue, x, m);
      assert JoinAverages(averages, revenue) == Expand(a, revenue) + JoinAverages(rest, revenue);
    }
  }

  /** In a relation without repeated department ids the tail is such a relation, and lacks the head's id. */
  lemma DistinctTail(averages: seq<DepartmentAverage>, b: DepartmentAverage)
    requires |averages| > 0
    requires forall i, j :: 0 <= i < j < |averages| ==> averages[i].departmentId != averages[j].departmentId
    ensures forall i, j :: 0 <= i < j < |averages[1..]| ==> averages[1..][i].departmentId != averages[1..][j].departmentId
    ensures b.departmentId == averages[0].departmentId ==> b !in averages[1..]
    ensures b in averages <==> b == averages[0] || b in averages[1..]
  {
    var rest := averages[1..];
    forall i, j | 0 <= i < j < |rest| ensures rest[i].departmentId != rest[j].departmentId {
      assert rest[i] == averages[i + 1] && rest[j] == averages[j + 1];
    }
    if b in rest {
      var j :| 0 <= j < |rest| && rest[j] == b;
      assert averages[j + 1] == b;
    }
    assert averages == [averages[0]] + rest;
  }

  /**
   * Lines 52-54: every employee revenue row with a department appears in the
   * reconciled relation exactly as often as in the employee revenue, and
   * always with the average of its own department.
   */
  lemma ReconciledCount(revenue: seq<EmployeeRevenue>, x: EmployeeRevenue, m: Option<Fraction>)
    requires x in revenue && x.departmentId.Some?
    ensures multiset(JoinAverages(DepartmentAverages(revenue), revenue))[Widen(x, m)] ==
      if m == DepartmentMean(revenue, x.departmentId) then multiset(revenue)[x] else 0
  {
    var averages := DepartmentAverages(revenue);
    JoinAveragesCount(averages, revenue, x, m);
    if m == DepartmentMean(revenue, x.departmentId) {
      assert DepartmentAverage(x.departmentId, m) in averages;
    }
  }

  /**
   * The reconciled relation, row by row: the employee revenue rows with a
   * department, each with its department's average, and one row with null
   * employee columns for the group of employees with a null department id
   * (present when there is such an employee). No department without
   * employee revenue appears.
   */
  lemma ReconciledRows(revenue: seq<EmployeeRevenue>, o: ReportRow)
    ensures o in JoinAverages(DepartmentAverages(revenue), revenue) <==>
      (exists x :: x in revenue && x.departmentId.Some? && o == Widen(x, DepartmentMean(revenue, x.departmentId))) ||
      ((exists x :: x in revenue && x.departmentId.None?) && o == Unmatched(DepartmentAverage(None, DepartmentMean(revenue, None))))
  {
    var averages := DepartmentAverages(revenue);
    if o in JoinAverages(averages, revenue) {
      JoinAveragesMembers(averages, revenue, o);
      var a :| a in averages && o in Expand(a, revenue);
      ExpandedRow(revenue, a, o);
    }
    if x :| x in revenue && x.departmentId.Some? && o == Widen(x, DepartmentMean(revenue, x.departmentId)) {
      WidenedRowJoined(revenue, x);
    }
    if y :| y in revenue && y.departmentId.None? {
      UnmatchedRowJoined(revenue, y);
    }
  }

  lemma WidenedRowJoined(revenue: seq<EmployeeRevenue>, x: EmployeeRevenue)
    requires x in revenue && x.departmentId.Some?
    ensures Widen(x, DepartmentMean(revenue, x.departmentId)) in JoinAverages(DepartmentAverages(revenue), revenue)
  {
    var a := DepartmentAverage(x.departmentId, DepartmentMean(revenue, x.departmentId));
    assert a in DepartmentAverages(revenue) && Matches(a, x);
    ExpandMembers(a, revenue, Widen(x, a.avgRevenue));
    JoinAveragesMembers(DepartmentAverages(revenue), revenue, Widen(x, a.avgRevenue));
  }

  lemma UnmatchedRowJoined(revenue: seq<EmployeeRevenue>, y: EmployeeRevenue)
    requires y in revenue && y.departmentId.None?
    ensures Unmatched(DepartmentAverage(None, DepartmentMean(revenue, None))) in JoinAverages(DepartmentAverages(revenue), revenue)
  {
    var a := DepartmentAverage(None, DepartmentMean(revenue, None));
    assert a in DepartmentAverages(revenue);
    assert Unjoined(a, revenue);
    ExpandMembers(a, revenue, Unmatched(a));
    JoinAveragesMembers(DepartmentAverages(revenue), revenue, Unmatched(a));
  }

  /** A row expanded from an aggregate row is one of the two kinds `ReconciledRows` names. */
  lemma ExpandedRow(revenue: seq<EmployeeRevenue>, a: DepartmentAverage, o: ReportRow)
    requires a in DepartmentAverages(revenue) && o in Expand(a, revenue)
    ensures (exists x :: x in revenue && x.departmentId.Some? && o == Widen(x, DepartmentMean(revenue, x.departmentId))) ||
      ((exists x :: x in revenue && x.departmentId.None?) && o == Unmatched(DepartmentAverage(None, DepartmentMean(revenue, None))))
  {
    var y :| y in revenue && a == DepartmentAverage(y.departmentId, DepartmentMean(revenue, y.departmentId));
    ExpandMembers(a, revenue, o);
    if x :| x in revenue && Matches(a, x) && o == Widen(x, a.avgRevenue) {
      assert x.departmentId.Some? && o == Widen(x, DepartmentMean(revenue, x.departmentId));
    } else {
      assert a.departmentId.None? by {
        assert !Matches(a, y) || o != Widen(y, a.avgRevenue);
      }
      assert Unjoined(a, revenue) && o == Unmatched(a);
    }
  }

  // ---------------------------------------------------------------------------
  // Properties of lines 57-59.

  /**
   * When `departmentId` is a key of the departments, the department join
   * keeps the reconciled rows one for one and in place, each with the
   * columns of its department (null when there is none).
   */
  lemma JoinReportUniqueDepartments(rows: seq<ReportRow>, departments: seq<Department>)
    requires UniqueDepartmentIds(departments)
    ensures var r := JoinReportDepartments(rows, departments);
      |r| == |rows| &&
      forall i :: 0 <= i < |r| ==>
        (RowOf(r[i]) == rows[i] &&
         var ms := DepartmentMatches(rows[i].departmentId, departments);
         r[i].departmentAttributes == if ms == [] then None else Some(ms[0]))
  {
    var joined := LeftJoinDepartments(rows, RowDepartment, departments);
    LeftJoinUniqueDepartments(rows, RowDepartment, departments);
    LeftJoinSources(rows, RowDepartment, departments);
    forall i | 0 <= i < |joined|
      ensures var ms := DepartmentMatches(rows[i].departmentId, departments);
        joined[i].1 == if ms == [] then None else Some(ms[0])
    {
      assert joined[i] in joined;
      UniqueJoinedAttributes(joined[i], departments);
    }
  }

  /** With unique department ids a joined row carries the one matching department, or nulls. */
  lemma UniqueJoinedAttributes(o: (ReportRow, Option<seq<Cell>>), departments: seq<Department>)
    requires UniqueDepartmentIds(departments)
    requires JoinedWith(o, RowDepartment, departments)
    ensures var ms := DepartmentMatches(o.0.departmentId, departments);
      o.1 == if ms == [] then None else Some(ms[0])
  {
    var ms := DepartmentMatches(o.0.departmentId, departments);
    AtMostOneMatch(o.0.departmentId, departments);
    if o.1.Some? {
      assert o.1.value in ms;
      assert |ms| == 1;
    }
  }

  /** Lines 57-59 keep every reconciled row, with all its columns but a null average. */
  lemma FilledKeepsRow(rows: seq<ReportRow>, departments: seq<Department>, o: ReportRow)
    requires o in rows
    ensures exists l :: (l in FillAverage(JoinReportDepartments(rows, departments)) &&
      l.departmentId == o.departmentId && l.employeeId == o.employeeId &&
      l.employeeName == o.employeeName && l.totalRevenue == o.totalRevenue &&
      l.avgRevenue == Some(o.avgRevenue.GetOr(ZeroAverage)))
  {
    var joined := JoinReportDepartments(rows, departments);
    var j :| j in joined && RowOf(j) == o;
    var i :| 0 <= i < |joined| && joined[i] == j;
    var filled := FillAverage(joined);
    assert filled[i] in filled;
  }

  /** Filling twice fills once. */
  lemma FillIdempotent(lines: seq<ReportLine>)
    ensures FillAverage(FillAverage(lines)) == FillAverage(lines)
  {
  }

  /** Filling changes nothing when no average is null. */
  lemma FillNoNulls(lines: seq<ReportLine>)
    requires forall l :: l in lines ==> l.avgRevenue.Some?
    ensures FillAverage(lines) == lines
  {
  }

  // ---------------------------------------------------------------------------
  // Each step of lines 52-59 works row by row, or depends only on the
  // multiset of the employee revenue rows.

  lemma MatchEmployeesPermutation(a: DepartmentAverage, r1: seq<EmployeeRevenue>, r2: seq<EmployeeRevenue>)
    requires multiset(r1) == multiset(r2)
    ensures multiset(MatchEmployees(a, r1)) == multiset(MatchEmployees(a, r2))
  {
    var m1, m2 := MatchEmployees(a, r1), MatchEmployees(a, r2);
    forall x ensures multiset(m1)[x] == multiset(m2)[x] {
    }
  }

  lemma WidenAllConcat(a: seq<EmployeeRevenue>, b: seq<EmployeeRevenue>, avgRevenue: Option<Fraction>)
    ensures WidenAll(a + b, avgRevenue) == WidenAll(a, avgRevenue) + WidenAll(b, avgRevenue)
  {
    var l, r := WidenAll(a + b, avgRevenue), WidenAll(a, avgRevenue) + WidenAll(b, avgRevenue);
    assert |l| == |r|;
    forall i | 0 <= i < |l| ensures l[i] == r[i] {
      if i < |a| {
        assert (a + b)[i] == a[i];
      } else {
        assert (a + b)[i] == b[i - |a|];
      }
    }
  }

  lemma ExpandPermutation(a: DepartmentAverage, r1: seq<EmployeeRevenue>, r2: seq<EmployeeRevenue>)
    requires multiset(r1) == multiset(r2)
    ensures multiset(Expand(a, r1)) == multiset(Expand(a, r2))
  {
    var m1, m2 := MatchEmployees(a, r1), MatchEmployees(a, r2);
    MatchEmployeesPermutation(a, r1, r2);
    assert m1 == [] <==> m2 == [] by {
      assert |m1| == |multiset(m1)| && |m2| == |multiset(m2)|;
    }
    if m1 != [] {
      var h := (s: seq<EmployeeRevenue>) => WidenAll(s, a.avgRevenue);
      forall x, y ensures multiset(h(x + y)) == multiset(h(x)) + multiset(h(y)) {
        WidenAllConcat(x, y, a.avgRevenue);
      }
      HomomorphismRespectsPermutation(h, m1, m2);
    }
  }

  lemma {:induction false} JoinAveragesConcat(a: seq<DepartmentAverage>, b: seq<DepartmentAverage>, revenue: seq<EmployeeRevenue>)
    ensures JoinAverages(a + b, revenue) == JoinAverages(a, revenue) + JoinAverages(b, revenue)
  {
    if a == [] {
      assert a + b == b;
    } else {
      JoinAveragesConcat(a[1..], b, revenue);
      JoinAveragesConcatStep(a, b, revenue);
    }
  }

  /** One step of the induction: the first aggregate row expands in front of both sides. */
  lemma JoinAveragesConcatStep(a: seq<DepartmentAverage>, b: seq<DepartmentAverage>, revenue: seq<EmployeeRevenue>)
    requires a != []
    requires JoinAverages(a[1..] + b, revenue) == JoinAverages(a[1..], revenue) + JoinAverages(b, revenue)
    ensures JoinAverages(a + b, revenue) == JoinAverages(a, revenue) + JoinAverages(b, revenue)
  {
    ConsConcat(a, b);
    ConcatAssociative(Expand(a[0], revenue), JoinAverages(a[1..], revenue), JoinAverages(b, revenue));
  }


  lemma {:induction false} JoinAveragesRevenuePermutation(averages: seq<DepartmentAverage>, r1: seq<EmployeeRevenue>, r2: seq<EmployeeRevenue>)
    requires multiset(r1) == multiset(r2)
    ensures multiset(JoinAverages(averages, r1)) == multiset(JoinAverages(averages, r2))
  {
    if averages != [] {
      ExpandPermutation(averages[0], r1, r2);
      JoinAveragesRevenuePermutation(averages[1..], r1, r2);
    }
  }

  /** The reconciled relation does not depend on the order of the employee revenue rows. */
  lemma ReconciledPermutation(r1: seq<EmployeeRevenue>, r2: seq<EmployeeRevenue>)
    requires multiset(r1) == multiset(r2)
    ensures multiset(JoinAverages(DepartmentAverages(r1), r1)) == multiset(JoinAverages(DepartmentAverages(r2), r2))
  {
    var a1, a2 := DepartmentAverages(r1), DepartmentAverages(r2);
    DepartmentAveragesPermutation(r1, r2);
    var h := (s: seq<DepartmentAverage>) => JoinAverages(s, r1);
    forall x, y ensures multiset(h(x + y)) == multiset(h(x)) + multiset(h(y)) {
      JoinAveragesConcat(x, y, r1);
    }
    HomomorphismRespectsPermutation(h, a1, a2);
    JoinAveragesRevenuePermutation(a2, r1, r2);
  }

  lemma JoinReportDepartmentsConcat(a: seq<ReportRow>, b: seq<ReportRow>, departments: seq<Department>)
    ensures JoinReportDepartments(a + b, departments) == JoinReportDepartments(a, departments) + JoinReportDepartments(b, departments)
  {
    LeftJoinConcat(a, b, RowDepartment, departments);
    LinesConcat(LeftJoinDepartments(a, RowDepartment, departments), LeftJoinDepartments(b, RowDepartment, departments));
  }

  lemma LinesConcat(a: seq<(ReportRow, Option<seq<Cell>>)>, b: seq<(ReportRow, Option<seq<Cell>>)>)
    ensures Lines(a + b) == Lines(a) + Lines(b)
  {
    var l, r := Lines(a + b), Lines(a) + Lines(b);
    forall i | 0 <= i < |l| ensures l[i] == r[i] {
      if i < |a| {
        assert (a + b)[i] == a[i];
      } else {
        assert (a + b)[i] == b[i - |a|];
      }
    }
  }

  lemma FillAverageConcat(a: seq<ReportLine>, b: seq<ReportLine>)
    ensures FillAverage(a + b) == FillAverage(a) + FillAverage(b)
  {
    var l, r := FillAverage(a + b), FillAverage(a) + FillAverage(b);
    forall i | 0 <= i < |l| ensures l[i] == r[i] {
      if i < |a| {
        assert (a + b)[i] == a[i];
      } else {
        assert (a + b)[i] == b[i - |a|];
      }
    }
  }
}
