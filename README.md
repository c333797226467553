# Employee revenue report — a Dafny model

This project models `EmployeeRevenueReport.process`, a Spark job that builds
one report from three relations loaded from CSV files: employees,
transactions and departments. The job does the following:

1. It keeps the employees whose `employeeType` is `"Sales"` and the
   transactions whose `transactionType` is `"Sale"`, and narrows both to the
   columns it needs.
2. It hash-repartitions both narrowed relations into 10 partitions.
3. It joins them on `employeeId` and sums `transactionAmount` per
   (employeeId, employeeName, departmentId) as `totalRevenue`.
4. It left-outer-joins the result with the departments and narrows it back
   to the four revenue columns.
5. It averages `totalRevenue` per `departmentId` as `avgRevenue`.
6. It left-outer-joins that aggregate with the employee revenue.
7. It left-outer-joins the result with the departments again and replaces a
   null `avgRevenue` by 0.

Each relation is a sequence of rows, and each stage is a function from
sequences to sequences. The model follows Spark SQL's semantics:

- A CSV cell is a nullable string (`Option<string>`), and an amount is a
  nullable integer.
- `sum` and `avg` skip nulls, and are null when every value of the group is
  null.
- An equi-join never matches a null key. `groupBy` puts all null keys in one
  group.
- A left-outer join keeps an unmatched left row once, with null right-hand
  columns. A left row that matches several right rows appears once per match.
- `avgRevenue` is the exact fraction sum / count (`Aggregates.Fraction`), and
  `Value()` gives the number it stands for. The fill value 0 is
  `Fraction(0, 1)`.
- The engine's hash function for `repartition` is a parameter of `Process`.
  The model distributes rows into buckets by `hash(key) mod 10` and reads the
  buckets back in partition order.
- The columns of a department other than `departmentId` are carried along
  without being looked at. They are the `attributes` of a `Department` and
  the `departmentAttributes` of a report line.

The modules follow the job's stages:

- `Filtering`: lines 20-25.
- `Partitioning`: lines 28-29.
- `EmployeeRevenueStage`: lines 35-38.
- `DepartmentJoin`: lines 42-44, and the join itself of lines 57-58.
- `DepartmentAverageStage`: lines 47-49.
- `Reconciliation`: lines 52-59.
- `Report`: the whole of `process`.

`Nullable`, `Sequences` and `Aggregates` hold the null-aware arithmetic, the
sequence facts and the null-skipping `sum`/`avg` the stages share.

**What the report holds, against what line 56 says.** The comment at line 56
says that departments without employees (or without transactions) are
reported with 0 revenue. The code does not do this. Line 52 puts the
department aggregate, which is built from the employee revenue (line 47), on
the LEFT of the join. As a result every department id in the report is that
of a "Sales" employee with at least one "Sale" (`Report.ReportedDepartments`).
A department without one never appears, whatever the departments relation
holds (`Report.DepartmentWithoutRevenueOmitted`). The fill at line 59 only
replaces averages that are null because every total of the department is
null. When every "Sale" has an amount, the fill changes nothing
(`Report.FillChangesNothing`). The model follows the code, not the comment.

Two further consequences of the code are proved as well:

- An employee whose `departmentId` is null never appears in the report
  (`Report.ReportedEmployees`). Their group survives line 52 only as one row
  with null employee columns.
- A department id that occurs m times in the departments relation repeats
  each employee row of that department m times at line 43
  (`DepartmentJoin.AttachDepartmentsMultiplicity`). Every row of the
  department is repeated alike, so the sum and the count of its average
  both grow m-fold and the average's value does not change: with "D1"
  listed twice, totals 100 and 300 give `Fraction(800, 4)`, still 200
  (`Report.DuplicatedDepartmentAverage`). The join of line 58 is the same
  join again, so each such employee ends up on m × m report lines. With
  unique department ids, the join of line 43 is the identity
  (`DepartmentJoin.AttachUniqueDepartments`).

## Model

All source paths are relative to the repository root.

| member | source | states |
|---|---|---|
| Filtering.SalesEmployees | src/main/java/org/EmployeeRevenueReport/EmployeeRevenueReport.java:20-24 | a row is in the narrowed employees exactly when it is the projection of an employee whose `employeeType` is "Sales" |
| Filtering.Sales | src/main/java/org/EmployeeRevenueReport/EmployeeRevenueReport.java:21-25 | a row is in the narrowed transactions exactly when it is the projection of a transaction whose `transactionType` is "Sale" |
| Filtering.SalesEmployeesConcat | src/main/java/org/EmployeeRevenueReport/EmployeeRevenueReport.java:20-24 | filtering and projecting the employees distributes over concatenation (it works row by row) |
| Filtering.SalesConcat | src/main/java/org/EmployeeRevenueReport/EmployeeRevenueReport.java:21-25 | filtering and projecting the transactions distributes over concatenation |
| Partitioning.Bucket | src/main/java/org/EmployeeRevenueReport/EmployeeRevenueReport.java:28-29 | a partition holds exactly the rows that hash to it, each as often as in the input |
| Partitioning.Repartition | src/main/java/org/EmployeeRevenueReport/EmployeeRevenueReport.java:28-29 | repartitioning keeps every row, as often as before (a permutation of the input) |
| EmployeeRevenueStage.JoinSales | src/main/java/org/EmployeeRevenueReport/EmployeeRevenueReport.java:35-36 | a joined row is an employee with a non-null `employeeId` paired with the amount of a sale of the same `employeeId`, and every such pair is joined |
| EmployeeRevenueStage.Groups | src/main/java/org/EmployeeRevenueReport/EmployeeRevenueReport.java:37 | the groups are distinct and are exactly the (employeeId, employeeName, departmentId) triples of the joined rows |
| EmployeeRevenueStage.AggregateRevenue | src/main/java/org/EmployeeRevenueReport/EmployeeRevenueReport.java:37-38 | one output row per group, with no two rows for the same group, each carrying the null-skipping sum of its group's amounts |
| EmployeeRevenueStage.SalesSumIsSaleTotal | src/main/java/org/EmployeeRevenueReport/EmployeeRevenueReport.java:21-25 | summing an employee's amounts over the narrowed transactions gives the sum over that employee's "Sale" transactions |
| EmployeeRevenueStage.JoinSalesTotal | src/main/java/org/EmployeeRevenueReport/EmployeeRevenueReport.java:35-38 | a group that occurs once among the employees sums exactly the amounts of the sales with its `employeeId`; a group absent from the employees has no sum |
| EmployeeRevenueStage.SalesEmployeeAtMostOnce | src/main/java/org/EmployeeRevenueReport/EmployeeRevenueReport.java:20-24 | with unique employee ids, a narrowed employee with an id occurs at most once |
| EmployeeRevenueStage.UniqueIdsDistinctSalesEmployees | src/main/java/org/EmployeeRevenueReport/EmployeeRevenueReport.java:20-24 | unique employee ids imply that no narrowed employee row with an id occurs twice |
| EmployeeRevenueStage.SharedIdDistinctNames | src/main/java/org/EmployeeRevenueReport/EmployeeRevenueReport.java:20-24 | two "Sales" employees sharing one id under different names break unique ids yet give distinct narrowed rows |
| EmployeeRevenueStage.RevenueGroups | src/main/java/org/EmployeeRevenueReport/EmployeeRevenueReport.java:35-38 | for any repartitioning of the narrowed relations, a group has a revenue row if and only if it is a "Sales" employee with a non-null id and at least one "Sale" |
| EmployeeRevenueStage.RevenueTotals | src/main/java/org/EmployeeRevenueReport/EmployeeRevenueReport.java:35-38 | when no narrowed employee row occurs twice, every revenue row's `totalRevenue` is the sum of the amounts of that employee's "Sale" transactions |
| EmployeeRevenueStage.AggregateRevenueNoDup | src/main/java/org/EmployeeRevenueReport/EmployeeRevenueReport.java:37-38 | the aggregate never repeats a row |
| EmployeeRevenueStage.EmployeeRevenuesPermutation | src/main/java/org/EmployeeRevenueReport/EmployeeRevenueReport.java:35-38 | the employee revenue relation depends only on the multisets of its inputs |
| DepartmentJoin.DepartmentMatches | src/main/java/org/EmployeeRevenueReport/EmployeeRevenueReport.java:43 | the departments matching a key are those with that non-null key; a null key matches none |
| DepartmentJoin.JoinRow | src/main/java/org/EmployeeRevenueReport/EmployeeRevenueReport.java:43 | a left row appears once per matching department, and once when none matches |
| DepartmentJoin.LeftJoinKeeps | src/main/java/org/EmployeeRevenueReport/EmployeeRevenueReport.java:43 | the left-outer join keeps every left row |
| DepartmentJoin.LeftJoinSources | src/main/java/org/EmployeeRevenueReport/EmployeeRevenueReport.java:43 | every joined row is a left row with one of the departments of its key, or with nulls when its key matches none |
| DepartmentJoin.LeftJoinUniqueDepartments | src/main/java/org/EmployeeRevenueReport/EmployeeRevenueReport.java:43 | with unique department ids the join keeps the left rows one for one and in order |
| DepartmentJoin.AttachDepartments | src/main/java/org/EmployeeRevenueReport/EmployeeRevenueReport.java:42-44 | the join with departments followed by the four-column select yields exactly the employee revenue rows, none lost |
| DepartmentJoin.AttachUniqueDepartments | src/main/java/org/EmployeeRevenueReport/EmployeeRevenueReport.java:42-44 | with unique department ids, lines 42-44 return the employee revenue relation unchanged |
| DepartmentJoin.AttachDepartmentsMultiplicity | src/main/java/org/EmployeeRevenueReport/EmployeeRevenueReport.java:42-44 | a row occurs once per department sharing its id, or once when there is none |
| DepartmentJoin.AttachPermutation | src/main/java/org/EmployeeRevenueReport/EmployeeRevenueReport.java:42-44 | lines 42-44 depend only on the multiset of the employee revenue |
| Aggregates.Mean | src/main/java/org/EmployeeRevenueReport/EmployeeRevenueReport.java:49 | `avg` is null exactly when every value of the group is null; otherwise it is the sum of the non-null values over their count |
| Aggregates.MeanPermutation | src/main/java/org/EmployeeRevenueReport/EmployeeRevenueReport.java:48-49 | `avg` does not depend on the order of the rows |
| Aggregates.MeanBetweenBounds | src/main/java/org/EmployeeRevenueReport/EmployeeRevenueReport.java:49 | a mean lies between any lower and upper bound of the group's non-null values |
| DepartmentAverageStage.DepartmentKeys | src/main/java/org/EmployeeRevenueReport/EmployeeRevenueReport.java:48 | the groups are the distinct department ids of the employee revenue |
| DepartmentAverageStage.DepartmentAverages | src/main/java/org/EmployeeRevenueReport/EmployeeRevenueReport.java:47-49 | one row per department id of the employee revenue, no id twice, each with the mean of its group |
| DepartmentAverageStage.AverageNullIffNoTotals | src/main/java/org/EmployeeRevenueReport/EmployeeRevenueReport.java:49 | a department's average is null exactly when every total in the department is null |
| DepartmentAverageStage.AverageIsMean | src/main/java/org/EmployeeRevenueReport/EmployeeRevenueReport.java:49 | a non-null average is the department's sum of totals over its count of non-null totals |
| DepartmentAverageStage.AverageBetweenTotals | src/main/java/org/EmployeeRevenueReport/EmployeeRevenueReport.java:47-49 | a department's average lies between the smallest and the largest total of its employees |
| DepartmentAverageStage.TwoEmployeeAverage | src/main/java/org/EmployeeRevenueReport/EmployeeRevenueReport.java:47-49 | two employees of one department with totals 100 and 300 give that department the single average 200 |
| DepartmentAverageStage.DepartmentAveragesPermutation | src/main/java/org/EmployeeRevenueReport/EmployeeRevenueReport.java:47-49 | the aggregate depends only on the multiset of the employee revenue |
| Reconciliation.MatchEmployees | src/main/java/org/EmployeeRevenueReport/EmployeeRevenueReport.java:53 | the employee rows joining an aggregate row are those with its non-null department id, each as often as in the input |
| Reconciliation.ExpandMembers | src/main/java/org/EmployeeRevenueReport/EmployeeRevenueReport.java:52-54 | an aggregate row yields its matching employees widened with its average, or itself with null employee columns when none matches |
| Reconciliation.JoinAveragesMembers | src/main/java/org/EmployeeRevenueReport/EmployeeRevenueReport.java:52-54 | the joined rows are the expansions of the aggregate rows |
| Reconciliation.ReconciledRows | src/main/java/org/EmployeeRevenueReport/EmployeeRevenueReport.java:47-54 | a row is reconciled if and only if it is an employee revenue row with a department and that department's average, or the single null-department row when some employee has a null department |
| Reconciliation.ReconciledCount | src/main/java/org/EmployeeRevenueReport/EmployeeRevenueReport.java:47-54 | an employee revenue row with a department occurs in the reconciled relation as often as in the revenue, with its department's average and no other |
| Reconciliation.ReconciledPermutation | src/main/java/org/EmployeeRevenueReport/EmployeeRevenueReport.java:47-54 | the reconciled relation depends only on the multiset of the employee revenue |
| Reconciliation.JoinReportDepartments | src/main/java/org/EmployeeRevenueReport/EmployeeRevenueReport.java:57-58 | every reconciled row reaches the joined report, and every line is a reconciled row with one of its departments (or nulls when none matches) |
| Reconciliation.JoinReportUniqueDepartments | src/main/java/org/EmployeeRevenueReport/EmployeeRevenueReport.java:57-58 | with unique department ids the join keeps the rows one for one, each with its department's attributes or nulls |
| Reconciliation.FillAverage | src/main/java/org/EmployeeRevenueReport/EmployeeRevenueReport.java:59 | the fill keeps the length, leaves no null average, changes no line whose average is present, and sets a null average to 0 changing nothing else |
| Reconciliation.FilledKeepsRow | src/main/java/org/EmployeeRevenueReport/EmployeeRevenueReport.java:57-59 | every reconciled row reaches the final report, with its average filled in |
| Reconciliation.FillIdempotent | src/main/java/org/EmployeeRevenueReport/EmployeeRevenueReport.java:59 | filling twice is filling once |
| Reconciliation.FillNoNulls | src/main/java/org/EmployeeRevenueReport/EmployeeRevenueReport.java:59 | the fill is the identity when no average is null |
| Report.PartitionIndependence | src/main/java/org/EmployeeRevenueReport/EmployeeRevenueReport.java:18-59 | for every hash function, the report holds the same rows, as often, as the report computed without repartitioning |
| Report.ReportFromPermutation | src/main/java/org/EmployeeRevenueReport/EmployeeRevenueReport.java:35-59 | the report depends only on the multisets of the narrowed relations |
| Report.LineSource | src/main/java/org/EmployeeRevenueReport/EmployeeRevenueReport.java:52-59 | each report line is a reconciled row with the same columns and its average filled in |
| Report.LineRevenue | src/main/java/org/EmployeeRevenueReport/EmployeeRevenueReport.java:35-59 | a report line with a department or an employee id comes from an employee revenue row with that group and that total |
| Report.RevenueSource | src/main/java/org/EmployeeRevenueReport/EmployeeRevenueReport.java:20-44 | every employee revenue row comes from a "Sales" employee with an id and at least one "Sale" |
| Report.ReportedDepartments | src/main/java/org/EmployeeRevenueReport/EmployeeRevenueReport.java:52-59 | every non-null department id in the report is that of a "Sales" employee with at least one "Sale" |
| Report.DepartmentWithoutRevenueOmitted | src/main/java/org/EmployeeRevenueReport/EmployeeRevenueReport.java:56-59 | a department without such an employee is absent from the report, contrary to the comment at line 56 |
| Report.ReportedEmployees | src/main/java/org/EmployeeRevenueReport/EmployeeRevenueReport.java:18-59 | an employee appears in the report if and only if it is a "Sales" employee with an id, a non-null department id and at least one "Sale" |
| Report.ReportKeepsRow | src/main/java/org/EmployeeRevenueReport/EmployeeRevenueReport.java:57-59 | every reconciled row has a report line with the same department, employee and total |
| Report.ReportedTotals | src/main/java/org/EmployeeRevenueReport/EmployeeRevenueReport.java:18-59 | when no narrowed employee row occurs twice, every report line with an employee carries the sum of that employee's "Sale" amounts |
| Report.ReconciledOnce | src/main/java/org/EmployeeRevenueReport/EmployeeRevenueReport.java:42-54 | with unique department ids, each employee revenue row with a department is reconciled exactly once, with its department's average |
| Report.ReconciledAveragesPresent | src/main/java/org/EmployeeRevenueReport/EmployeeRevenueReport.java:47-54 | when every total is present, so is every average after line 54 |
| Report.TotalsPresent | src/main/java/org/EmployeeRevenueReport/EmployeeRevenueReport.java:35-44 | when every "Sale" has an amount, every employee revenue row has a total |
| Report.FillChangesNothing | src/main/java/org/EmployeeRevenueReport/EmployeeRevenueReport.java:18-59 | when every "Sale" has an amount, the report is the departments join of the reconciled relation, with no fill needed |
| DepartmentAverageStage.SingleDepartmentAverages | src/main/java/org/EmployeeRevenueReport/EmployeeRevenueReport.java:47-49 | a relation whose rows all have one department id yields exactly one aggregate row, carrying that department's mean |
| Report.DuplicatedDepartmentAverage | src/main/java/org/EmployeeRevenueReport/EmployeeRevenueReport.java:42-49 | with "D1" listed twice among the departments, totals 100 and 300 give the single average 800/4, whose value is still 200 |

## Left out

- The `SparkSession` (lines 7-10), the CSV loading of `loadData` (lines 12-16) and `main` (lines 65-73) are left out. Each relation is a parameter of `Report.Process`, with its cells already parsed.
- The string-to-number coercion Spark applies when it sums a CSV string column is left out. An amount is a nullable integer, and a cell that does not parse is null.
- Floating point is left out. `sum` is exact over unbounded integers, with no overflow. `avg` is the exact fraction sum / count, not a rounded double.
- `show()` (line 62) is output and is left out. `Report.Process` returns the rows it would show, in the model's order.
- `departments.cache()` (line 32) and the `broadcast` hint (line 43) change how the job runs, not its result, and are left out.
- The number of physical partitions and the engine's real hash function (Murmur3) are left out. The hash is a parameter, and the partition count is the constant 10.
- Parallel execution is left out. The order of the rows in any result is one possible order; the proved properties are about which rows occur and how often.
- The department columns other than `departmentId` are left out of all computations and carried as an opaque sequence of cells.
- Report.ReportedTotals, EmployeeRevenueStage.RevenueTotals: these require that no narrowed (employeeId, employeeName, departmentId) row with an id occurs twice; unique employee ids imply it (`EmployeeRevenueStage.UniqueIdsDistinctSalesEmployees`). When such a row is repeated, line 37 forms one group from all copies and sums every "Sale" of that id once per copy; two employees sharing an id under different names are two groups and each gets the right sum.
- Report.ReconciledOnce, DepartmentJoin.AttachUniqueDepartments, Reconciliation.JoinReportUniqueDepartments: these require unique department ids. `DepartmentJoin.AttachDepartmentsMultiplicity` states the general case of line 43.
