/**
 * The employee revenue report, end to end: `process(employees,
 * transactions, departments)` as a function of the three input relations and
 * of the hash function the engine partitions with.
 */
module Report {
  import opened Nullable
  import opened Sequences
  import opened Aggregates
  import opened Partitioning
  import opened Schema
  import opened Filtering
  import opened EmployeeRevenueStage
  import opened DepartmentJoin
  import opened DepartmentAverageStage
  import opened Reconciliation

  /** The number of partitions both narrowed relations are repartitioned into. */
  const PartitionCount: nat := 10

  /** Lines 35-44: the employee revenue relation, with departments attached and detached again. */
  function RevenueRelation(fe: seq<SalesEmployee>, ft: seq<Sale>, departments: seq<Department>): seq<EmployeeRevenue> {
    AttachDepartments(EmployeeRevenues(fe, ft), departments)
  }

  /** Lines 47-54: the department aggregate joined with the employee revenue. */
  function Reconciled(fe: seq<SalesEmployee>, ft: seq<Sale>, departments: seq<Department>): seq<ReportRow> {
    var revenue := RevenueRelation(fe, ft, departments);
    JoinAverages(DepartmentAverages(revenue), revenue)
  }

  /** Lines 35-59, from the narrowed relations. */
  function ReportFrom(fe: seq<SalesEmployee>, ft: seq<Sale>, departments: seq<Department>): seq<ReportLine> {
    FillAverage(JoinReportDepartments(Reconciled(fe, ft, departments), departments))
  }

  /** Lines 18-59: the rows `process` shows. */
  function Process(employees: seq<Employee>, transactions: seq<Transaction>, departments: seq<Department>,
                   hash: Cell -> int): seq<ReportLine>
  {
    var fe := Repartition(SalesEmployees(employees), PartitionCount, SalesEmployeeDepartment, hash);
    var ft := Repartition(Sales(transactions), PartitionCount, SaleEmployee, hash);
    ReportFrom(fe, ft, departments)
  }

  // ---------------------------------------------------------------------------
  // Partition independence.

  lemma {:induction false} ReportFromPermutation(e1: seq<SalesEmployee>, e2: seq<SalesEmployee>, s1: seq<Sale>, s2: seq<Sale>,
                                                 departments: seq<Department>)
    requires multiset(e1) == multiset(e2) && multiset(s1) == multiset(s2)
    ensures multiset(ReportFrom(e1, s1, departments)) == multiset(ReportFrom(e2, s2, departments))
  {
    EmployeeRevenuesPermutation(e1, e2, s1, s2);
    AttachPermutation(EmployeeRevenues(e1, s1), EmployeeRevenues(e2, s2), departments);
    ReconciledPermutation(RevenueRelation(e1, s1, departments), RevenueRelation(e2, s2, departments));
    var h := (rows: seq<ReportRow>) => FillAverage(JoinReportDepartments(rows, departments));
    forall x, y ensures multiset(h(x + y)) == multiset(h(x)) + multiset(h(y)) {
      JoinReportDepartmentsConcat(x, y, departments);
      FillAverageConcat(JoinReportDepartments(x, departments), JoinReportDepartments(y, departments));
    }
    HomomorphismRespectsPermutation(h, Reconciled(e1, s1, departments), Reconciled(e2, s2, departments));
  }

  /**
   * Lines 28-29 change nothing but the order of the rows: the report holds
   * the same rows, as often, for every hash function, and the same rows as
   * without repartitioning.
   */
  lemma PartitionIndependence(employees: seq<Employee>, transactions: seq<Transaction>, departments: seq<Department>,
                              hash: Cell -> int)
    ensures multiset(Process(employees, transactions, departments, hash)) ==
            multiset(ReportFrom(SalesEmployees(employees), Sales(transactions), departments))
  {
    var fe := Repartition(SalesEmployees(employees), PartitionCount, SalesEmployeeDepartment, hash);
    var ft := Repartition(Sales(transactions), PartitionCount, SaleEmployee, hash);
    ReportFromPermutation(fe, SalesEmployees(employees), ft, Sales(transactions), departments);
  }

  // ---------------------------------------------------------------------------
  // Which rows the report holds.

  /** A report line comes from a reconciled row with the same columns except, possibly, a filled-in average. */
  lemma LineSource(fe: seq<SalesEmployee>, ft: seq<Sale>, departments: seq<Department>, l: ReportLine) returns (o: ReportRow)
    requires l in ReportFrom(fe, ft, departments)
    ensures o in Reconciled(fe, ft, departments)
    ensures o.departmentId == l.departmentId && o.employeeId == l.employeeId && o.employeeName == l.employeeName
    ensures o.totalRevenue == l.totalRevenue && l.avgRevenue == Some(o.avgRevenue.GetOr(ZeroAverage))
  {
    var joined := JoinReportDepartments(Reconciled(fe, ft, departments), departments);
    var i :| 0 <= i < |ReportFrom(fe, ft, departments)| && ReportFrom(fe, ft, departments)[i] == l;
    assert joined[i] in joined;
    o := RowOf(joined[i]);
  }

  /**
   * A report line with a department id or an employee id is an employee
   * revenue row (with a department id) widened by an average.
   */
  lemma LineRevenue(fe: seq<SalesEmployee>, ft: seq<Sale>, departments: seq<Department>, l: ReportLine) returns (x: EmployeeRevenue)
    requires l in ReportFrom(fe, ft, departments)
    requires l.departmentId.Some? || l.employeeId.Some?
    ensures x in RevenueRelation(fe, ft, departments) && x.departmentId.Some?
    ensures RevenueGroup(x) == SalesEmployee(l.employeeId, l.employeeName, l.departmentId) && x.totalRevenue == l.totalRevenue
  {
    var o := LineSource(fe, ft, departments, l);
    var revenue := RevenueRelation(fe, ft, departments);
    ReconciledRows(revenue, o);
    x :| x in revenue && x.departmentId.Some? && o == Widen(x, DepartmentMean(revenue, x.departmentId));
  }

  /** A revenue row comes from a qualifying employee group, with its department. */
  lemma RevenueSource(employees: seq<Employee>, transactions: seq<Transaction>, fe: seq<SalesEmployee>, ft: seq<Sale>,
                      departments: seq<Department>, x: EmployeeRevenue) returns (e: Employee)
    requires multiset(fe) == multiset(SalesEmployees(employees))
    requires multiset(ft) == multiset(Sales(transactions))
    requires x in RevenueRelation(fe, ft, departments)
    ensures e in employees && IsSalesEmployee(e) && e.employeeId.Some? && HasSale(transactions, e.employeeId)
    ensures ProjectEmployee(e) == RevenueGroup(x)
  {
    RevenueGroupQualifies(employees, transactions, fe, ft, x);
    e :| e in employees && IsSalesEmployee(e) && e.employeeId.Some? && HasSale(transactions, e.employeeId) &&
         ProjectEmployee(e) == RevenueGroup(x);
  }

  /**
   * The departments of the report: every non-null department id the report
   * shows is that of a "Sales" employee with at least one "Sale". A
   * department without such an employee is never reported, whatever the
   * departments relation holds.
   */
  lemma ReportedDepartments(employees: seq<Employee>, transactions: seq<Transaction>, departments: seq<Department>,
                            hash: Cell -> int, l: ReportLine)
    requires l in Process(employees, transactions, departments, hash)
    requires l.departmentId.Some?
    ensures exists e :: e in employees && IsSalesEmployee(e) && e.employeeId.Some? &&
                        HasSale(transactions, e.employeeId) && e.departmentId == l.departmentId
  {
    var fe := Repartition(SalesEmployees(employees), PartitionCount, SalesEmployeeDepartment, hash);
    var ft := Repartition(Sales(transactions), PartitionCount, SaleEmployee, hash);
    var x := LineRevenue(fe, ft, departments, l);
    var e := RevenueSource(employees, transactions, fe, ft, departments, x);
  }

  /** Hence a department with no "Sales" employee with a "Sale" is absent from the report. */
  lemma DepartmentWithoutRevenueOmitted(employees: seq<Employee>, transactions: seq<Transaction>, departments: seq<Department>,
                                        hash: Cell -> int, d: Department)
    requires d in departments && d.departmentId.Some?
    requires forall e :: e in employees && IsSalesEmployee(e) && e.departmentId == d.departmentId ==>
      e.employeeId.None? || !HasSale(transactions, e.employeeId)
    ensures forall l :: l in Process(employees, transactions, departments, hash) ==> l.departmentId != d.departmentId
  {
    forall l | l in Process(employees, transactions, departments, hash) ensures l.departmentId != d.departmentId {
      if l.departmentId == d.departmentId {
        ReportedDepartments(employees, transactions, departments, hash, l);
      }
    }
  }

  /**
   * The employees of the report: a line carries an employee exactly when it
   * is a "Sales" employee with an id, a department id and at least one
   * "Sale"; then its department is the employee's. An employee whose
   * department id is null does not appear.
   */
  lemma ReportedEmployees(employees: seq<Employee>, transactions: seq<Transaction>, departments: seq<Department>,
                          hash: Cell -> int, k: SalesEmployee)
    ensures (exists l :: l in Process(employees, transactions, departments, hash) && l.employeeId.Some? &&
                         SalesEmployee(l.employeeId, l.employeeName, l.departmentId) == k) <==>
            (QualifyingGroup(employees, transactions, k) && k.departmentId.Some?)
  {
    if l :| l in Process(employees, transactions, departments, hash) && l.employeeId.Some? &&
            SalesEmployee(l.employeeId, l.employeeName, l.departmentId) == k {
      ReportedEmployeeQualifies(employees, transactions, departments, hash, l);
    }
    if QualifyingGroup(employees, transactions, k) && k.departmentId.Some? {
      QualifyingEmployeeReported(employees, transactions, departments, hash, k);
    }
  }

  lemma ReportedEmployeeQualifies(employees: seq<Employee>, transactions: seq<Transaction>, departments: seq<Department>,
                                  hash: Cell -> int, l: ReportLine)
    requires l in Process(employees, transactions, departments, hash) && l.employeeId.Some?
    ensures QualifyingGroup(employees, transactions, SalesEmployee(l.employeeId, l.employeeName, l.departmentId))
    ensures l.departmentId.Some?
  {
    var fe := Repartition(SalesEmployees(employees), PartitionCount, SalesEmployeeDepartment, hash);
    var ft := Repartition(Sales(transactions), PartitionCount, SaleEmployee, hash);
    var x := LineRevenue(fe, ft, departments, l);
    var e := RevenueSource(employees, transactions, fe, ft, departments, x);
  }

  lemma QualifyingEmployeeReported(employees: seq<Employee>, transactions: seq<Transaction>, departments: seq<Department>,
                                   hash: Cell -> int, k: SalesEmployee)
    requires QualifyingGroup(employees, transactions, k) && k.departmentId.Some?
    ensures exists l :: l in Process(employees, transactions, departments, hash) && l.employeeId.Some? &&
                        SalesEmployee(l.employeeId, l.employeeName, l.departmentId) == k
  {
    var fe := Repartition(SalesEmployees(employees), PartitionCount, SalesEmployeeDepartment, hash);
    var ft := Repartition(Sales(transactions), PartitionCount, SaleEmployee, hash);
    var revenue := RevenueRelation(fe, ft, departments);
    QualifyingGroupAppears(employees, transactions, fe, ft, k);
    var x := Revenue(k, TotalRevenue(JoinSales(fe, ft), k));
    assert x in revenue;
    var o := Widen(x, DepartmentMean(revenue, x.departmentId));
    ReconciledRows(revenue, o);
    ReportKeepsRow(fe, ft, departments, o);
  }

  /** Every reconciled row reaches the report, with its average filled in. */
  lemma ReportKeepsRow(fe: seq<SalesEmployee>, ft: seq<Sale>, departments: seq<Department>, o: ReportRow)
    requires o in Reconciled(fe, ft, departments)
    ensures exists l :: (l in ReportFrom(fe, ft, departments) &&
      l.departmentId == o.departmentId && l.employeeId == o.employeeId &&
      l.employeeName == o.employeeName && l.totalRevenue == o.totalRevenue)
  {
    FilledKeepsRow(Reconciled(fe, ft, departments), departments, o);
  }

  // ---------------------------------------------------------------------------
  // Totals and averages.

  /**
   * When no narrowed employee row occurs twice (in particular with unique
   * employee ids), every line that carries an employee carries the sum of
   * the amounts of exactly that employee's "Sale" transactions.
   */
  lemma ReportedTotals(employees: seq<Employee>, transactions: seq<Transaction>, departments: seq<Department>,
                       hash: Cell -> int, l: ReportLine)
    requires DistinctSalesEmployees(employees)
    requires l in Process(employees, transactions, departments, hash) && l.employeeId.Some?
    ensures l.totalRevenue == SaleTotal(transactions, l.employeeId)
  {
    var fe := Repartition(SalesEmployees(employees), PartitionCount, SalesEmployeeDepartment, hash);
    var ft := Repartition(Sales(transactions), PartitionCount, SaleEmployee, hash);
    var x := LineRevenue(fe, ft, departments, l);
    RevenueTotals(employees, transactions, fe, ft);
  }

  /**
   * With unique department ids every employee revenue row with a department
   * occurs exactly once in the reconciled relation, carrying the average of
   * its department and no other.
   */
  lemma ReconciledOnce(fe: seq<SalesEmployee>, ft: seq<Sale>, departments: seq<Department>, x: EmployeeRevenue, m: Option<Fraction>)
    requires UniqueDepartmentIds(departments)
    requires x in EmployeeRevenues(fe, ft) && x.departmentId.Some?
    ensures var revenue := RevenueRelation(fe, ft, departments);
      multiset(Reconciled(fe, ft, departments))[Widen(x, m)] == if m == DepartmentMean(revenue, x.departmentId) then 1 else 0
  {
    var revenue := RevenueRelation(fe, ft, departments);
    AttachUniqueDepartments(EmployeeRevenues(fe, ft), departments);
    AggregateRevenueNoDup(JoinSales(fe, ft));
    NoDupMultiplicity(revenue, x);
    ReconciledCount(revenue, x, m);
  }

  /** Every average in the reconciled relation is present when every employee revenue row has a total. */
  lemma ReconciledAveragesPresent(revenue: seq<EmployeeRevenue>)
    requires forall x :: x in revenue ==> x.totalRevenue.Some?
    ensures forall o :: o in JoinAverages(DepartmentAverages(revenue), revenue) ==> o.avgRevenue.Some?
  {
    forall o | o in JoinAverages(DepartmentAverages(revenue), revenue) ensures o.avgRevenue.Some? {
      ReconciledRows(revenue, o);
      if x :| x in revenue && x.departmentId.Some? && o == Widen(x, DepartmentMean(revenue, x.departmentId)) {
        MeanPresent(revenue, x);
      } else {
        var y :| y in revenue && y.departmentId.None?;
        MeanPresent(revenue, y);
      }
    }
  }

  /** A department with an employee whose total is present has a present average. */
  lemma MeanPresent(revenue: seq<EmployeeRevenue>, x: EmployeeRevenue)
    requires x in revenue && x.totalRevenue.Some?
    ensures DepartmentMean(revenue, x.departmentId).Some?
  {
    var i :| 0 <= i < |revenue| && revenue[i] == x;
    assert RevenueDepartment(revenue[i]) == x.departmentId && RevenueTotal(revenue[i]).Some?;
  }

  /** Every employee revenue row has a total when every "Sale" transaction has an amount. */
  lemma TotalsPresent(transactions: seq<Transaction>, fe: seq<SalesEmployee>, ft: seq<Sale>, departments: seq<Department>)
    requires multiset(ft) == multiset(Sales(transactions))
    requires forall t :: t in transactions && IsSale(t) ==> t.transactionAmount.Some?
    ensures forall x :: x in RevenueRelation(fe, ft, departments) ==> x.totalRevenue.Some?
  {
    var rows := JoinSales(fe, ft);
    forall x | x in RevenueRelation(fe, ft, departments) ensures x.totalRevenue.Some? {
      var j :| j in rows && x == Revenue(j.employee, TotalRevenue(rows, j.employee));
      var e, s :| e in fe && s in ft && e.employeeId.Some? && s.employeeId == e.employeeId &&
                  j == EmployeeSale(e, s.transactionAmount);
      var t := NarrowedSaleSource(transactions, ft, s);
      GroupTotalPresent(rows, j);
    }
  }

  /** A group with a joined row whose amount is present has a present sum. */
  lemma GroupTotalPresent(rows: seq<EmployeeSale>, j: EmployeeSale)
    requires j in rows && j.transactionAmount.Some?
    ensures TotalRevenue(rows, j.employee).Some?
  {
    var i :| 0 <= i < |rows| && rows[i] == j;
    assert GroupOf(rows[i]) == j.employee && JoinedAmount(rows[i]).Some?;
  }

  /**
   * When every "Sale" transaction has an amount, no average is null before
   * line 59, so the fill changes nothing.
   */
  lemma FillChangesNothing(employees: seq<Employee>, transactions: seq<Transaction>, departments: seq<Department>,
                           hash: Cell -> int)
    requires forall t :: t in transactions && IsSale(t) ==> t.transactionAmount.Some?
    ensures var fe := Repartition(SalesEmployees(employees), PartitionCount, SalesEmployeeDepartment, hash);
      var ft := Repartition(Sales(transactions), PartitionCount, SaleEmployee, hash);
      Process(employees, transactions, departments, hash) == JoinReportDepartments(Reconciled(fe, ft, departments), departments)
  {
    var fe := Repartition(SalesEmployees(employees), PartitionCount, SalesEmployeeDepartment, hash);
    var ft := Repartition(Sales(transactions), PartitionCount, SaleEmployee, hash);
    var revenue := RevenueRelation(fe, ft, departments);
    TotalsPresent(transactions, fe, ft, departments);
    ReconciledAveragesPresent(revenue);
    FillNoNulls(JoinReportDepartments(Reconciled(fe, ft, departments), departments));
  }

  /**
   * A department listed twice doubles its employee rows at line 43, but not
   * its average: totals 100 and 300 give 800 over 4, still 200.
   */
  lemma DuplicatedDepartmentAverage()
    ensures var revenue := [EmployeeRevenue(Some("E1"), Some("Ann"), Some("D1"), Some(100)),
                            EmployeeRevenue(Some("E2"), Some("Bob"), Some("D1"), Some(300))];
      var departments := [Department(Some("D1"), []), Department(Some("D1"), [])];
      DepartmentAverages(AttachDepartments(revenue, departments)) == [DepartmentAverage(Some("D1"), Some(Fraction(800, 4)))] &&
      Fraction(800, 4).Value() == 200.0
  {
    var x1 := EmployeeRevenue(Some("E1"), Some("Ann"), Some("D1"), Some(100));
    var x2 := EmployeeRevenue(Some("E2"), Some("Bob"), Some("D1"), Some(300));
    var revenue := [x1, x2];
    var departments := [Department(Some("D1"), []), Department(Some("D1"), [])];
    var att := AttachDepartments(revenue, departments);
    var four := [x1, x1, x2, x2];
    DuplicatedRows(x1, x2, departments);
    DoubledTotals(x1, x2);
    MeanPermutation(att, four, RevenueDepartment, Some("D1"), RevenueTotal);
    SingleDepartmentAverages(att, Some("D1"));
    assert Fraction(800, 4).Value() == 800.0 / 4.0;
  }

  /** Two departments sharing id "D1" repeat each employee row of "D1" twice. */
  lemma DuplicatedRows(x1: EmployeeRevenue, x2: EmployeeRevenue, departments: seq<Department>)
    requires x1.departmentId == Some("D1") && x2.departmentId == Some("D1") && x1 != x2
    requires departments == [Department(Some("D1"), []), Department(Some("D1"), [])]
    ensures multiset(AttachDepartments([x1, x2], departments)) == multiset([x1, x1, x2, x2])
    ensures AttachDepartments([x1, x2], departments) != []
    ensures forall x :: x in AttachDepartments([x1, x2], departments) ==> x.departmentId == Some("D1")
  {
    assert DepartmentMatches(Some("D1"), departments[1..]) == [[]];
    assert |DepartmentMatches(Some("D1"), departments)| == 2;
    var att, four := AttachDepartments([x1, x2], departments), [x1, x1, x2, x2];
    forall y ensures multiset(att)[y] == multiset(four)[y] {
      AttachDepartmentsMultiplicity([x1, x2], departments, y);
      TwoCopies(x1, x2, y);
    }
  }

  /** The totals 100, 100, 300, 300 of department "D1": four of them, summing to 800. */
  lemma DoubledTotals(x1: EmployeeRevenue, x2: EmployeeRevenue)
    requires x1 == EmployeeRevenue(Some("E1"), Some("Ann"), Some("D1"), Some(100))
    requires x2 == EmployeeRevenue(Some("E2"), Some("Bob"), Some("D1"), Some(300))
    ensures CountWhere([x1, x1, x2, x2], RevenueDepartment, Some("D1"), RevenueTotal) == 4
    ensures SumWhere([x1, x1, x2, x2], RevenueDepartment, Some("D1"), RevenueTotal) == Some(800)
  {
    var s1, s2, s3 := [x1, x2, x2], [x2, x2], [x2];
    assert [x1, x1, x2, x2][1..] == s1 && s1[1..] == s2 && s2[1..] == s3 && s3[1..] == [];
    assert SumWhere(s3, RevenueDepartment, Some("D1"), RevenueTotal) == Some(300);
    assert SumWhere(s2, RevenueDepartment, Some("D1"), RevenueTotal) == Some(600);
    assert SumWhere(s1, RevenueDepartment, Some("D1"), RevenueTotal) == Some(700);
    assert CountWhere(s3, RevenueDepartment, Some("D1"), RevenueTotal) == 1;
    assert CountWhere(s2, RevenueDepartment, Some("D1"), RevenueTotal) == 2;
    assert CountWhere(s1, RevenueDepartment, Some("D1"), RevenueTotal) == 3;
  }
}
