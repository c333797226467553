/**
 * The department-level stage: the employee revenue relation grouped by
 * `departmentId` (null ids form one group of their own, as in every SQL
 * `GROUP BY`) with `avg(totalRevenue)` as `avgRevenue`.
 */
module DepartmentAverageStage {
  import opened Nullable
  import opened Sequences
  import opened Aggregates
  import opened Schema

  /** `avg(totalRevenue)` over the employees of department `d`. */
  function DepartmentMean(revenue: seq<EmployeeRevenue>, d: Cell): Option<Fraction> {
    Mean(revenue, RevenueDepartment, d, RevenueTotal)
  }

  /** The distinct department ids of the employee revenue relation. */
  function DepartmentKeys(revenue: seq<EmployeeRevenue>): (ks: seq<Cell>)
    ensures NoDup(ks)
    ensures forall d :: d in ks <==> exists x :: x in revenue && x.departmentId == d
  {
    var cols := seq(|revenue|, i requires 0 <= i < |revenue| => revenue[i].departmentId);
    assert forall d :: d in cols <==> exists x :: x in revenue && x.departmentId == d by {
      forall d | d in cols ensures exists x :: x in revenue && x.departmentId == d {
        var i :| 0 <= i < |cols| && cols[i] == d;
        assert revenue[i] in revenue;
      }
      forall d | exists x :: x in revenue && x.departmentId == d ensures d in cols {
        var x :| x in revenue && x.departmentId == d;
        var i :| 0 <= i < |revenue| && revenue[i] == x;
        assert cols[i] == d;
      }
    }
    Dedup(cols)
  }

  /**
   * `groupBy("departmentId").agg(avg("totalRevenue"))`: one row per distinct
   * department id of the employee revenue, carrying the mean of that group.
   */
  function DepartmentAverages(revenue: seq<EmployeeRevenue>): (r: seq<DepartmentAverage>)
    ensures forall i, j :: 0 <= i < j < |r| ==> r[i].departmentId != r[j].departmentId
    ensures forall a :: a in r <==>
      exists x :: x in revenue && a == DepartmentAverage(x.departmentId, DepartmentMean(revenue, x.departmentId))
  {
    var ks := DepartmentKeys(revenue);
    var r := seq(|ks|, i requires 0 <= i < |ks| => DepartmentAverage(ks[i], DepartmentMean(revenue, ks[i])));
    assert forall a :: a in r <==>
      exists x :: x in revenue && a == DepartmentAverage(x.departmentId, DepartmentMean(revenue, x.departmentId)) by {
      forall a | a in r
        ensures exists x :: x in revenue && a == DepartmentAverage(x.departmentId, DepartmentMean(revenue, x.departmentId))
      {
        var i :| 0 <= i < |r| && r[i] == a;
        assert ks[i] in ks;
      }
      forall a | exists x :: x in revenue && a == DepartmentAverage(x.departmentId, DepartmentMean(revenue, x.departmentId))
        ensures a in r
      {
        var x :| x in revenue && a == DepartmentAverage(x.departmentId, DepartmentMean(revenue, x.departmentId));
        assert x.departmentId in ks;
        var i :| 0 <= i < |ks| && ks[i] == x.departmentId;
        assert r[i] == a;
      }
    }
    r
  }

  // ---------------------------------------------------------------------------
  // Properties.

  /** The average of a department is null exactly when every employee of the department has a null total. */
  lemma AverageNullIffNoTotals(revenue: seq<EmployeeRevenue>, a: DepartmentAverage)
    requires a in DepartmentAverages(revenue)
    ensures a.avgRevenue.None? <==>
      forall i :: 0 <= i < |revenue| && revenue[i].departmentId == a.departmentId ==> revenue[i].totalRevenue.None?
  {
  }

  /**
   * Otherwise it is the department's sum of totals divided by its number of
   * non-null totals.
   */
  lemma AverageIsMean(revenue: seq<EmployeeRevenue>, a: DepartmentAverage)
    requires a in DepartmentAverages(revenue) && a.avgRevenue.Some?
    ensures a.avgRevenue.value.numerator == SumWhere(revenue, RevenueDepartment, a.departmentId, RevenueTotal).value
    ensures a.avgRevenue.value.denominator == CountWhere(revenue, RevenueDepartment, a.departmentId, RevenueTotal)
  {
  }

  /** The average of a department lies between the smallest and the largest total of its employees. */
  lemma AverageBetweenTotals(revenue: seq<EmployeeRevenue>, a: DepartmentAverage, lo: int, hi: int)
    requires a in DepartmentAverages(revenue) && a.avgRevenue.Some?
    requires forall x :: x in revenue && x.departmentId == a.departmentId && x.totalRevenue.Some? ==>
      lo <= x.totalRevenue.value <= hi
    ensures lo as real <= a.avgRevenue.value.Value() <= hi as real
  {
    MeanBetweenBounds(revenue, RevenueDepartment, a.departmentId, RevenueTotal, lo, hi);
  }

  /** A relation all of whose rows have department `d` has one aggregate row, carrying its mean. */
  lemma SingleDepartmentAverages(revenue: seq<EmployeeRevenue>, d: Cell)
    requires revenue != []
    requires forall x :: x in revenue ==> x.departmentId == d
    ensures DepartmentAverages(revenue) == [DepartmentAverage(d, DepartmentMean(revenue, d))]
  {
    var target := DepartmentAverage(d, DepartmentMean(revenue, d));
    var r := DepartmentAverages(revenue);
    forall a | a in r ensures a == target {
      var x :| x in revenue && a == DepartmentAverage(x.departmentId, DepartmentMean(revenue, x.departmentId));
    }
    assert revenue[0] in revenue;
    assert target in r;
    forall i | 0 <= i < |r| ensures r[i] == target {
      assert r[i] in r;
    }
    assert |r| < 2 || r[0].departmentId == r[1].departmentId;
    assert |r| < 2;
  }

  /** Two employees of department "D1" with totals 100 and 300 give the department an average of 200. */
  lemma TwoEmployeeAverage()
    ensures var revenue := [EmployeeRevenue(Some("E1"), Some("Ann"), Some("D1"), Some(100)),
                            EmployeeRevenue(Some("E2"), Some("Bob"), Some("D1"), Some(300))];
      DepartmentAverages(revenue) == [DepartmentAverage(Some("D1"), Some(Fraction(400, 2)))] &&
      Fraction(400, 2).Value() == 200.0
  {
    var revenue := [EmployeeRevenue(Some("E1"), Some("Ann"), Some("D1"), Some(100)),
                    EmployeeRevenue(Some("E2"), Some("Bob"), Some("D1"), Some(300))];
    var cols := [Some("D1"), Some("D1")];
    assert seq(|revenue|, i requires 0 <= i < |revenue| => revenue[i].departmentId) == cols;
    assert cols[0] in cols[1..];
    assert DepartmentKeys(revenue) == [Some("D1")];
    assert CountWhere(revenue, RevenueDepartment, Some("D1"), RevenueTotal) == 2;
    assert SumWhere(revenue, RevenueDepartment, Some("D1"), RevenueTotal) == Some(400);
  }

  /**
   * The department aggregate depends only on the rows of the employee
   * revenue relation and how often each occurs, not on their order (and so
   * not on the partitioning).
   */
  lemma DepartmentAveragesPermutation(a: seq<EmployeeRevenue>, b: seq<EmployeeRevenue>)
    requires multiset(a) == multiset(b)
    ensures multiset(DepartmentAverages(a)) == multiset(DepartmentAverages(b))
  {
    var ra, rb := DepartmentAverages(a), DepartmentAverages(b);
    forall d ensures DepartmentMean(a, d) == DepartmentMean(b, d) {
      MeanPermutation(a, b, RevenueDepartment, d, RevenueTotal);
    }
    forall x ensures x in a <==> x in b {
      assert x in a <==> x in multiset(a);
      assert x in b <==> x in multiset(b);
    }
    SameElementsSameMultiset(ra, rb);
  }
}
