/**
 * The employee-level stage: the narrowed employees are inner-joined with the
 * narrowed transactions on `employeeId`, and the joined rows are grouped by
 * (employeeId, employeeName, departmentId) with `sum(transactionAmount)` as
 * `totalRevenue`.
 */
module EmployeeRevenueStage {
  import opened Nullable
  import opened Sequences
  import opened Aggregates
  import opened Schema
  import opened Filtering

  /** The join rows contributed by one employee: one per sale with the same, non-null, employeeId. */
  function MatchSales(e: SalesEmployee, sales: seq<Sale>): (r: seq<EmployeeSale>)
    ensures forall x :: x in r <==>
      e.employeeId.Some? && exists s :: s in sales && s.employeeId == e.employeeId && x == EmployeeSale(e, s.transactionAmount)
  {
    if sales == [] then []
    else
      var s := sales[0];
      assert forall y :: y in sales <==> y == s || y in sales[1..];
      (if e.employeeId.Some? && s.employeeId == e.employeeId then [EmployeeSale(e, s.transactionAmount)] else [])
      + MatchSales(e, sales[1..])
  }

  /** `employees.join(sales, "employeeId")`: an inner equi-join; null keys match nothing. */
  function JoinSales(employees: seq<SalesEmployee>, sales: seq<Sale>): (r: seq<EmployeeSale>)
    ensures forall x :: x in r <==>
      exists e, s :: e in employees && s in sales && e.employeeId.Some? && s.employeeId == e.employeeId &&
                     x == EmployeeSale(e, s.transactionAmount)
  {
    if employees == [] then []
    else
      assert forall y :: y in employees <==> y == employees[0] || y in employees[1..];
      MatchSales(employees[0], sales) + JoinSales(employees[1..], sales)
  }

  /** The distinct values of the grouping columns. */
  function Groups(rows: seq<EmployeeSale>): (ks: seq<SalesEmployee>)
    ensures NoDup(ks)
    ensures forall k :: k in ks <==> exists j :: j in rows && j.employee == k
  {
    var cols := seq(|rows|, i requires 0 <= i < |rows| => rows[i].employee);
    assert forall k :: k in cols <==> exists j :: j in rows && j.employee == k by {
      forall k | k in cols ensures exists j :: j in rows && j.employee == k {
        var i :| 0 <= i < |cols| && cols[i] == k;
        assert rows[i] in rows;
      }
      forall k | exists j :: j in rows && j.employee == k ensures k in cols {
        var j :| j in rows && j.employee == k;
        var i :| 0 <= i < |rows| && rows[i] == j;
        assert cols[i] == k;
      }
    }
    Dedup(cols)
  }

  /** `sum(transactionAmount)` over the joined rows of one group. */
  function TotalRevenue(rows: seq<EmployeeSale>, k: SalesEmployee): Option<int> {
    SumWhere(rows, GroupOf, k, JoinedAmount)
  }

  /** The output row of a group. */
  function Revenue(k: SalesEmployee, total: Option<int>): EmployeeRevenue {
    EmployeeRevenue(k.employeeId, k.employeeName, k.departmentId, total)
  }

  /** The grouping columns of an output row. */
  function RevenueGroup(r: EmployeeRevenue): SalesEmployee {
    SalesEmployee(r.employeeId, r.employeeName, r.departmentId)
  }

  /**
   * `groupBy("employeeId", "employeeName", "departmentId").agg(sum("transactionAmount"))`:
   * one row per distinct group, carrying the sum of that group.
   */
  function AggregateRevenue(rows: seq<EmployeeSale>): (r: seq<EmployeeRevenue>)
    ensures forall i, j :: 0 <= i < j < |r| ==> RevenueGroup(r[i]) != RevenueGroup(r[j])
    ensures forall x :: x in r <==> exists j :: j in rows && x == Revenue(j.employee, TotalRevenue(rows, j.employee))
  {
    var ks := Groups(rows);
    var r := seq(|ks|, i requires 0 <= i < |ks| => Revenue(ks[i], TotalRevenue(rows, ks[i])));
    assert forall i :: 0 <= i < |r| ==> RevenueGroup(r[i]) == ks[i];
    assert forall x :: x in r <==> exists j :: j in rows && x == Revenue(j.employee, TotalRevenue(rows, j.employee)) by {
      forall x | x in r ensures exists j :: j in rows && x == Revenue(j.employee, TotalRevenue(rows, j.employee)) {
        var i :| 0 <= i < |r| && r[i] == x;
        assert ks[i] in ks;
      }
      forall x | exists j :: j in rows && x == Revenue(j.employee, TotalRevenue(rows, j.employee)) ensures x in r {
        var j :| j in rows && x == Revenue(j.employee, TotalRevenue(rows, j.employee));
        assert j.employee in ks;
        var i :| 0 <= i < |ks| && ks[i] == j.employee;
        assert r[i] == x;
      }
    }
    r
  }

  /** Lines 35-38 of the report: join, then group and sum. */
  function EmployeeRevenues(employees: seq<SalesEmployee>, sales: seq<Sale>): seq<EmployeeRevenue> {
    AggregateRevenue(JoinSales(employees, sales))
  }

  // ---------------------------------------------------------------------------
  // Reference definitions, on the input relations as loaded.

  /** The sum of the amounts of the "Sale" transactions of employee `id` (nulls skipped). */
  function SaleTotal(transactions: seq<Transaction>, id: Cell): Option<int> {
    if transactions == [] then None
    else
      var t := transactions[0];
      Plus(if IsSale(t) && t.employeeId == id then t.transactionAmount else None, SaleTotal(transactions[1..], id))
  }

  /** Employee `id` has at least one "Sale" transaction. */
  ghost predicate HasSale(transactions: seq<Transaction>, id: Cell) {
    exists t :: t in transactions && IsSale(t) && t.employeeId == id
  }

  /** No two employee rows share a non-null `employeeId` (the employee relation's key). */
  ghost predicate UniqueEmployeeIds(employees: seq<Employee>) {
    forall i, j :: 0 <= i < j < |employees| && employees[i].employeeId.Some? ==> employees[i].employeeId != employees[j].employeeId
  }

  /**
   * No narrowed employee row with an id occurs twice: two "Sales" employees
   * may share an id as long as their names or departments differ.
   */
  ghost predicate DistinctSalesEmployees(employees: seq<Employee>) {
    forall x: SalesEmployee :: x.employeeId.Some? ==> multiset(SalesEmployees(employees))[x] <= 1
  }

  // ---------------------------------------------------------------------------
  // Properties.

  /** Summing over the narrowed sales is summing over the "Sale" transactions. */
  lemma {:induction false} SalesSumIsSaleTotal(transactions: seq<Transaction>, id: Cell)
    ensures SumWhere(Sales(transactions), SaleEmployee, id, SaleAmount) == SaleTotal(transactions, id)
  {
    if transactions != [] {
      var t := transactions[0];
      assert transactions == [t] + transactions[1..];
      SalesConcat([t], transactions[1..]);
      SumWhereConcat(Sales([t]), Sales(transactions[1..]), SaleEmployee, id, SaleAmount);
      SalesSumIsSaleTotal(transactions[1..], id);
      assert Sales([t]) == if IsSale(t) then [ProjectTransaction(t)] else [];
    }
  }

  /** The group of employee `e` in its own join rows sums the amounts of its sales. */
  lemma {:induction false} MatchSalesTotal(e: SalesEmployee, sales: seq<Sale>, k: SalesEmployee)
    ensures TotalRevenue(MatchSales(e, sales), k) ==
      if k == e && e.employeeId.Some? then SumWhere(sales, SaleEmployee, e.employeeId, SaleAmount) else None
  {
    if sales != [] {
      var s := sales[0];
      var head := if e.employeeId.Some? && s.employeeId == e.employeeId then [EmployeeSale(e, s.transactionAmount)] else [];
      assert MatchSales(e, sales) == head + MatchSales(e, sales[1..]);
      SumWhereConcat(head, MatchSales(e, sales[1..]), GroupOf, k, JoinedAmount);
      MatchSalesTotal(e, sales[1..], k);
      if head != [] {
        assert head[1..] == [];
      }
    }
  }

  /**
   * The sum of a group of the join is the sum of the matching sales once per
   * occurrence of the grouping columns among the employees; with one
   * occurrence it is exactly that sum, with none it is null.
   */
  lemma {:induction false} JoinSalesTotal(employees: seq<SalesEmployee>, sales: seq<Sale>, k: SalesEmployee)
    requires k.employeeId.Some?
    requires multiset(employees)[k] <= 1
    ensures TotalRevenue(JoinSales(employees, sales), k) ==
      if k in employees then SumWhere(sales, SaleEmployee, k.employeeId, SaleAmount) else None
  {
    if employees != [] {
      var e := employees[0];
      assert employees == [e] + employees[1..];
      assert multiset(employees) == multiset{e} + multiset(employees[1..]);
      SumWhereConcat(MatchSales(e, sales), JoinSales(employees[1..], sales), GroupOf, k, JoinedAmount);
      MatchSalesTotal(e, sales, k);
      JoinSalesTotal(employees[1..], sales, k);
      if e == k {
        assert k !in employees[1..];
      }
    }
  }

  /** With unique employee ids an employee with an id passes the filter at most once. */
  lemma {:induction false} SalesEmployeeAtMostOnce(employees: seq<Employee>, x: SalesEmployee)
    requires UniqueEmployeeIds(employees)
    requires x.employeeId.Some?
    ensures multiset(SalesEmployees(employees))[x] <= 1
  {
    if employees != [] {
      var e := employees[0];
      var rest := employees[1..];
      assert UniqueEmployeeIds(rest) by {
        forall i, j | 0 <= i < j < |rest| && rest[i].employeeId.Some? ensures rest[i].employeeId != rest[j].employeeId {
          assert rest[i] == employees[i + 1] && rest[j] == employees[j + 1];
        }
      }
      SalesEmployeeAtMostOnce(rest, x);
      if IsSalesEmployee(e) && ProjectEmployee(e) == x {
        forall j | 0 <= j < |rest| ensures ProjectEmployee(rest[j]) != x {
          assert employees[j + 1] == rest[j];
        }
        assert x !in SalesEmployees(rest);
      }
    }
  }

  /** Unique employee ids, the key of the employee relation, imply distinct narrowed employees. */
  lemma UniqueIdsDistinctSalesEmployees(employees: seq<Employee>)
    requires UniqueEmployeeIds(employees)
    ensures DistinctSalesEmployees(employees)
  {
    forall x: SalesEmployee | x.employeeId.Some? ensures multiset(SalesEmployees(employees))[x] <= 1 {
      SalesEmployeeAtMostOnce(employees, x);
    }
  }

  /**
   * The converse fails: two "Sales" employees sharing id "E1" under different
   * names break the key but still give distinct narrowed rows.
   */
  lemma SharedIdDistinctNames()
    ensures var employees := [Employee(Some("E1"), Some("Ann"), Some(SalesType), Some("D1")),
                              Employee(Some("E1"), Some("Bob"), Some(SalesType), Some("D1"))];
      !UniqueEmployeeIds(employees) && DistinctSalesEmployees(employees)
  {
    var employees := [Employee(Some("E1"), Some("Ann"), Some(SalesType), Some("D1")),
                      Employee(Some("E1"), Some("Bob"), Some(SalesType), Some("D1"))];
    var ann, bob := SalesEmployee(Some("E1"), Some("Ann"), Some("D1")), SalesEmployee(Some("E1"), Some("Bob"), Some("D1"));
    assert employees[1..] == [employees[1]];
    assert SalesEmployees(employees[1..]) == [bob];
    assert SalesEmployees(employees) == [ann, bob];
    assert !UniqueEmployeeIds(employees) by {
      assert employees[0].employeeId == employees[1].employeeId;
    }
  }

  /**
   * An employee group appears in the employee revenue relation exactly when
   * it is the projection of a "Sales" employee with a non-null id and at
   * least one "Sale" transaction. `fe` and `ft` are the narrowed relations
   * in any order (for instance after repartitioning).
   */
  lemma RevenueGroups(employees: seq<Employee>, transactions: seq<Transaction>, fe: seq<SalesEmployee>, ft: seq<Sale>, k: SalesEmployee)
    requires multiset(fe) == multiset(SalesEmployees(employees))
    requires multiset(ft) == multiset(Sales(transactions))
    ensures (exists r :: r in EmployeeRevenues(fe, ft) && RevenueGroup(r) == k) <==> QualifyingGroup(employees, transactions, k)
  {
    if r :| r in EmployeeRevenues(fe, ft) && RevenueGroup(r) == k {
      RevenueGroupQualifies(employees, transactions, fe, ft, r);
    }
    if QualifyingGroup(employees, transactions, k) {
      QualifyingGroupAppears(employees, transactions, fe, ft, k);
    }
  }

  /** `k` is the projection of a "Sales" employee with an id and at least one "Sale" transaction. */
  ghost predicate QualifyingGroup(employees: seq<Employee>, transactions: seq<Transaction>, k: SalesEmployee) {
    exists e :: e in employees && IsSalesEmployee(e) && e.employeeId.Some? && HasSale(transactions, e.employeeId) &&
                ProjectEmployee(e) == k
  }

  lemma RevenueGroupQualifies(employees: seq<Employee>, transactions: seq<Transaction>, fe: seq<SalesEmployee>, ft: seq<Sale>, r: EmployeeRevenue)
    requires multiset(fe) == multiset(SalesEmployees(employees))
    requires multiset(ft) == multiset(Sales(transactions))
    requires r in EmployeeRevenues(fe, ft)
    ensures QualifyingGroup(employees, transactions, RevenueGroup(r))
  {
    var rows := JoinSales(fe, ft);
    var j :| j in rows && r == Revenue(j.employee, TotalRevenue(rows, j.employee));
    var e', s :| e' in fe && s in ft && e'.employeeId.Some? && s.employeeId == e'.employeeId &&
                 j == EmployeeSale(e', s.transactionAmount);
    var e := NarrowedEmployeeSource(employees, fe, e');
    var t := NarrowedSaleSource(transactions, ft, s);
    assert HasSale(transactions, e.employeeId);
    assert RevenueGroup(r) == e';
  }

  /** A row of a narrowed employee relation comes from a "Sales" employee. */
  lemma NarrowedEmployeeSource(employees: seq<Employee>, fe: seq<SalesEmployee>, x: SalesEmployee) returns (e: Employee)
    requires multiset(fe) == multiset(SalesEmployees(employees))
    requires x in fe
    ensures e in employees && IsSalesEmployee(e) && ProjectEmployee(e) == x
  {
    assert x in multiset(SalesEmployees(employees));
    assert x in SalesEmployees(employees);
    e :| e in employees && IsSalesEmployee(e) && ProjectEmployee(e) == x;
  }

  /** A row of a narrowed transaction relation comes from a "Sale" transaction. */
  lemma NarrowedSaleSource(transactions: seq<Transaction>, ft: seq<Sale>, x: Sale) returns (t: Transaction)
    requires multiset(ft) == multiset(Sales(transactions))
    requires x in ft
    ensures t in transactions && IsSale(t) && ProjectTransaction(t) == x
  {
    assert x in multiset(Sales(transactions));
    assert x in Sales(transactions);
    t :| t in transactions && IsSale(t) && ProjectTransaction(t) == x;
  }

  lemma QualifyingGroupAppears(employees: seq<Employee>, transactions: seq<Transaction>, fe: seq<SalesEmployee>, ft: seq<Sale>, k: SalesEmployee)
    requires multiset(fe) == multiset(SalesEmployees(employees))
    requires multiset(ft) == multiset(Sales(transactions))
    requires QualifyingGroup(employees, transactions, k)
    ensures Revenue(k, TotalRevenue(JoinSales(fe, ft), k)) in EmployeeRevenues(fe, ft)
  {
    var e :| e in employees && IsSalesEmployee(e) && e.employeeId.Some? && HasSale(transactions, e.employeeId) &&
             ProjectEmployee(e) == k;
    var t :| t in transactions && IsSale(t) && t.employeeId == e.employeeId;
    assert k in SalesEmployees(employees);
    assert k in multiset(fe);
    assert ProjectTransaction(t) in Sales(transactions);
    assert ProjectTransaction(t) in multiset(ft);
    var j := EmployeeSale(k, t.transactionAmount);
    assert j in JoinSales(fe, ft);
  }

  /**
   * Sum correctness: when no narrowed employee row occurs twice (which
   * unique employee ids guarantee), every row of the employee revenue
   * relation carries the sum of the amounts of exactly the "Sale"
   * transactions of its employee. A repeated narrowed row would form one
   * group that sums every "Sale" of its id once per copy.
   */
  lemma RevenueTotals(employees: seq<Employee>, transactions: seq<Transaction>, fe: seq<SalesEmployee>, ft: seq<Sale>)
    requires DistinctSalesEmployees(employees)
    requires multiset(fe) == multiset(SalesEmployees(employees))
    requires multiset(ft) == multiset(Sales(transactions))
    ensures forall r :: r in EmployeeRevenues(fe, ft) ==>
      r.employeeId.Some? && r.totalRevenue == SaleTotal(transactions, r.employeeId)
  {
    var rows := JoinSales(fe, ft);
    forall r | r in EmployeeRevenues(fe, ft)
      ensures r.employeeId.Some? && r.totalRevenue == SaleTotal(transactions, r.employeeId)
    {
      var j :| j in rows && r == Revenue(j.employee, TotalRevenue(rows, j.employee));
      var e', s :| e' in fe && s in ft && e'.employeeId.Some? && s.employeeId == e'.employeeId &&
                   j == EmployeeSale(e', s.transactionAmount);
      assert multiset(SalesEmployees(employees))[e'] <= 1;
      JoinSalesTotal(fe, ft, e');
      SumWherePermutation(ft, Sales(transactions), SaleEmployee, e'.employeeId, SaleAmount);
      SalesSumIsSaleTotal(transactions, e'.employeeId);
    }
  }

  // ---------------------------------------------------------------------------
  // The employee revenue relation depends only on the multisets of its inputs,
  // not on how the rows were partitioned.

  lemma {:induction false} MatchSalesConcat(e: SalesEmployee, a: seq<Sale>, b: seq<Sale>)
    ensures MatchSales(e, a + b) == MatchSales(e, a) + MatchSales(e, b)
  {
    if a == [] {
      assert a + b == b;
    } else {
      assert (a + b)[1..] == a[1..] + b;
      MatchSalesConcat(e, a[1..], b);
    }
  }

  lemma {:induction false} JoinSalesConcat(a: seq<SalesEmployee>, b: seq<SalesEmployee>, sales: seq<Sale>)
    ensures JoinSales(a + b, sales) == JoinSales(a, sales) + JoinSales(b, sales)
  {
    if a == [] {
      assert a + b == b;
    } else {
      assert (a + b)[1..] == a[1..] + b;
      JoinSalesConcat(a[1..], b, sales);
    }
  }

  lemma {:induction false} JoinSalesSalesPermutation(employees: seq<SalesEmployee>, s1: seq<Sale>, s2: seq<Sale>)
    requires multiset(s1) == multiset(s2)
    ensures multiset(JoinSales(employees, s1)) == multiset(JoinSales(employees, s2))
  {
    if employees != [] {
      var e := employees[0];
      var h := (s: seq<Sale>) => MatchSales(e, s);
      forall x, y ensures multiset(h(x + y)) == multiset(h(x)) + multiset(h(y)) {
        MatchSalesConcat(e, x, y);
      }
      HomomorphismRespectsPermutation(h, s1, s2);
      JoinSalesSalesPermutation(employees[1..], s1, s2);
    }
  }

  lemma JoinSalesPermutation(e1: seq<SalesEmployee>, e2: seq<SalesEmployee>, s1: seq<Sale>, s2: seq<Sale>)
    requires multiset(e1) == multiset(e2) && multiset(s1) == multiset(s2)
    ensures multiset(JoinSales(e1, s1)) == multiset(JoinSales(e2, s2))
  {
    var h := (e: seq<SalesEmployee>) => JoinSales(e, s1);
    forall x, y ensures multiset(h(x + y)) == multiset(h(x)) + multiset(h(y)) {
      JoinSalesConcat(x, y, s1);
    }
    HomomorphismRespectsPermutation(h, e1, e2);
    JoinSalesSalesPermutation(e2, s1, s2);
  }

  /** No two rows of the aggregate are equal (they differ in their group). */
  lemma AggregateRevenueNoDup(rows: seq<EmployeeSale>)
    ensures NoDup(AggregateRevenue(rows))
  {
    var r := AggregateRevenue(rows);
    forall i, j | 0 <= i < j < |r| ensures r[i] != r[j] {
      assert RevenueGroup(r[i]) != RevenueGroup(r[j]);
    }
  }

  lemma AggregateRevenuePermutation(a: seq<EmployeeSale>, b: seq<EmployeeSale>)
    requires multiset(a) == multiset(b)
    ensures multiset(AggregateRevenue(a)) == multiset(AggregateRevenue(b))
  {
    forall k ensures TotalRevenue(a, k) == TotalRevenue(b, k) {
      SumWherePermutation(a, b, GroupOf, k, JoinedAmount);
    }
    forall j ensures j in a <==> j in b {
      assert j in a <==> j in multiset(a);
      assert j in b <==> j in multiset(b);
    }
    AggregateRevenueNoDup(a);
    AggregateRevenueNoDup(b);
    SameElementsSameMultiset(AggregateRevenue(a), AggregateRevenue(b));
  }

  /** Lines 35-38 give the same rows, as often, whatever the order of the narrowed relations. */
  lemma EmployeeRevenuesPermutation(e1: seq<SalesEmployee>, e2: seq<SalesEmployee>, s1: seq<Sale>, s2: seq<Sale>)
    requires multiset(e1) == multiset(e2) && multiset(s1) == multiset(s2)
    ensures multiset(EmployeeRevenues(e1, s1)) == multiset(EmployeeRevenues(e2, s2))
  {
    JoinSalesPermutation(e1, e2, s1, s2);
    AggregateRevenuePermutation(JoinSales(e1, s1), JoinSales(e2, s2));
  }
}
