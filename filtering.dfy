/**
 * The first stage of the report: keep the employees whose `employeeType` is
 * "Sales" and the transactions whose `transactionType` is "Sale" (a null type
 * is never equal to anything, so such rows are dropped), then keep only the
 * columns the later stages use.
 */
module Filtering {
  import opened Nullable
  import opened Schema

  predicate IsSalesEmployee(e: Employee) {
    e.employeeType == Some(SalesType)
  }

  predicate IsSale(t: Transaction) {
    t.transactionType == Some(SaleType)
  }

  /** `select("employeeId", "employeeName", "departmentId")` on one row. */
  function ProjectEmployee(e: Employee): SalesEmployee {
    SalesEmployee(e.employeeId, e.employeeName, e.departmentId)
  }

  /** `select("employeeId", "transactionAmount")` on one row. */
  function ProjectTransaction(t: Transaction): Sale {
    Sale(t.employeeId, t.transactionAmount)
  }

  /** The narrowed employee relation: every "Sales" employee, projected, and nothing else. */
  function SalesEmployees(employees: seq<Employee>): (r: seq<SalesEmployee>)
    ensures |r| <= |employees|
    ensures forall x :: x in r <==> exists e :: e in employees && IsSalesEmployee(e) && ProjectEmployee(e) == x
  {
    if employees == [] then []
    else
      var e := employees[0];
      assert forall y :: y in employees <==> y == e || y in employees[1..];
      (if IsSalesEmployee(e) then [ProjectEmployee(e)] else []) + SalesEmployees(employees[1..])
  }

  /** The narrowed transaction relation: every "Sale" transaction, projected, and nothing else. */
  function Sales(transactions: seq<Transaction>): (r: seq<Sale>)
    ensures |r| <= |transactions|
    ensures forall x :: x in r <==> exists t :: t in transactions && IsSale(t) && ProjectTransaction(t) == x
  {
    if transactions == [] then []
    else
      var t := transactions[0];
      assert forall y :: y in transactions <==> y == t || y in transactions[1..];
      (if IsSale(t) then [ProjectTransaction(t)] else []) + Sales(transactions[1..])
  }

  /** Filtering row by row commutes with splitting the relation. */
  lemma {:induction false} SalesEmployeesConcat(a: seq<Employee>, b: seq<Employee>)
    ensures SalesEmployees(a + b) == SalesEmployees(a) + SalesEmployees(b)
  {
    if a != [] {
      assert (a + b)[1..] == a[1..] + b;
      SalesEmployeesConcat(a[1..], b);
    } else {
      assert a + b == b;
    }
  }

  lemma {:induction false} SalesConcat(a: seq<Transaction>, b: seq<Transaction>)
    ensures Sales(a + b) == Sales(a) + Sales(b)
  {
    if a != [] {
      assert (a + b)[1..] == a[1..] + b;
      SalesConcat(a[1..], b);
    } else {
      assert a + b == b;
    }
  }
}
