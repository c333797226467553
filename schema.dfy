/**
 * The rows of every relation of the report. Cells loaded from CSV files are
 * strings that may be null; a transaction amount is a fixed-point number
 * (an `int`) that may be null. Column names are those of the files.
 */
module Schema {
  import opened Nullable
  import opened Aggregates

  /** A nullable string cell. */
  type Cell = Option<string>

  /** The value `employeeType` must have for an employee to be kept. */
  const SalesType: string := "Sales"

  /** The value `transactionType` must have for a transaction to be kept. */
  const SaleType: string := "Sale"

  /** A row of the employees file. */
  datatype Employee = Employee(employeeId: Cell, employeeName: Cell, employeeType: Cell, departmentId: Cell)

  /** A row of the transactions file. */
  datatype Transaction = Transaction(employeeId: Cell, transactionAmount: Option<int>, transactionType: Cell)

  /**
   * A row of the departments file: its key and the rest of its columns,
   * which the report carries along without looking at them.
   */
  datatype Department = Department(departmentId: Cell, attributes: seq<Cell>)

  /** An employee narrowed to (employeeId, employeeName, departmentId). */
  datatype SalesEmployee = SalesEmployee(employeeId: Cell, employeeName: Cell, departmentId: Cell)

  /** A transaction narrowed to (employeeId, transactionAmount). */
  datatype Sale = Sale(employeeId: Cell, transactionAmount: Option<int>)

  /**
   * A row of the employee-transaction join: the grouping columns
   * (employeeId, employeeName, departmentId) and the amount.
   */
  datatype EmployeeSale = EmployeeSale(employee: SalesEmployee, transactionAmount: Option<int>)

  /** A row of the employee revenue relation. */
  datatype EmployeeRevenue = EmployeeRevenue(employeeId: Cell, employeeName: Cell, departmentId: Cell, totalRevenue: Option<int>)

  /** A row of the department aggregate. */
  datatype DepartmentAverage = DepartmentAverage(departmentId: Cell, avgRevenue: Option<Fraction>)

  /** A row of the aggregate re-joined with the employee revenue (five columns). */
  datatype ReportRow = ReportRow(departmentId: Cell, employeeId: Cell, employeeName: Cell, totalRevenue: Option<int>, avgRevenue: Option<Fraction>)

  /**
   * A row of the final report: a `ReportRow` followed by the attribute
   * columns of the matching department, all null (`None`) when no department
   * matched.
   */
  datatype ReportLine = ReportLine(departmentId: Cell, employeeId: Cell, employeeName: Cell, totalRevenue: Option<int>,
                                   avgRevenue: Option<Fraction>, departmentAttributes: Option<seq<Cell>>)

  // Column accessors, used where a key or an aggregated column is passed as a function.

  function SalesEmployeeDepartment(e: SalesEmployee): Cell { e.departmentId }
  function SaleEmployee(s: Sale): Cell { s.employeeId }
  function SaleAmount(s: Sale): Option<int> { s.transactionAmount }
  function GroupOf(j: EmployeeSale): SalesEmployee { j.employee }
  function JoinedAmount(j: EmployeeSale): Option<int> { j.transactionAmount }
  function RevenueDepartment(r: EmployeeRevenue): Cell { r.departmentId }
  function RevenueTotal(r: EmployeeRevenue): Option<int> { r.totalRevenue }
  function RowDepartment(r: ReportRow): Cell { r.departmentId }
}
