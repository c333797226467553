/**
 * Left-outer equi-joins with the departments relation on `departmentId`,
 * used twice by the report: to attach departments to the employee revenue
 * (after which only the employee revenue columns are selected again), and to
 * append the department columns to the reconciled report. Every left row is
 * kept: once per department with the same non-null id, or once with null
 * department columns when there is none.
 */
module DepartmentJoin {
  import opened Nullable
  import opened Schema
  import opened Sequences

  /** The attribute columns of the departments whose id is `id`; a null id matches nothing. */
  function DepartmentMatches(id: Cell, departments: seq<Department>): (r: seq<seq<Cell>>)
    ensures |r| <= |departments|
    ensures forall a :: a in r <==> id.Some? && exists d :: d in departments && d.departmentId == id && d.attributes == a
  {
    if departments == [] then []
    else
      var d := departments[0];
      assert forall y :: y in departments <==> y == d || y in departments[1..];
      (if id.Some? && d.departmentId == id then [d.attributes] else []) + DepartmentMatches(id, departments[1..])
  }

  /** The rows the join produces for one left row. */
  function JoinRow<L>(l: L, key: L -> Cell, departments: seq<Department>): (r: seq<(L, Option<seq<Cell>>)>)
    ensures |r| == if DepartmentMatches(key(l), departments) == [] then 1 else |DepartmentMatches(key(l), departments)|
    ensures forall i :: 0 <= i < |r| ==> r[i].0 == l
  {
    var ms := DepartmentMatches(key(l), departments);
    if ms == [] then [(l, None)]
    else seq(|ms|, i requires 0 <= i < |ms| => (l, Some(ms[i])))
  }

  /** `left.join(departments, "departmentId", "left_outer")`: each left row with the columns of a matching department. */
  function LeftJoinDepartments<L(!new)>(left: seq<L>, key: L -> Cell, departments: seq<Department>): (r: seq<(L, Option<seq<Cell>>)>)
    ensures |r| >= |left|
  {
    if left == [] then []
    else JoinRow(left[0], key, departments) + LeftJoinDepartments(left[1..], key, departments)
  }

  /** The join drops no left row. */
  lemma {:induction false} LeftJoinKeeps<L(!new)>(left: seq<L>, key: L -> Cell, departments: seq<Department>)
    ensures forall l :: l in left ==> exists o :: o in LeftJoinDepartments(left, key, departments) && o.0 == l
  {
    if left != [] {
      var l := left[0];
      assert forall y :: y in left <==> y == l || y in left[1..];
      var head := JoinRow(l, key, departments);
      assert head[0].0 == l;
      LeftJoinKeeps(left[1..], key, departments);
    }
  }

  /** Every joined row is a left row with the columns of a matching department, or with nulls when none matches. */
  lemma {:induction false} LeftJoinSources<L(!new)>(left: seq<L>, key: L -> Cell, departments: seq<Department>)
    ensures forall o :: o in LeftJoinDepartments(left, key, departments) ==> o.0 in left && JoinedWith(o, key, departments)
  {
    if left != [] {
      var l := left[0];
      assert forall y :: y in left <==> y == l || y in left[1..];
      LeftJoinSources(left[1..], key, departments);
    }
  }

  /** A joined row carries the columns of a department matching its left row, or nulls when none matches. */
  ghost predicate JoinedWith<L>(o: (L, Option<seq<Cell>>), key: L -> Cell, departments: seq<Department>) {
    var ms := DepartmentMatches(key(o.0), departments);
    if o.1.Some? then o.1.value in ms else ms == []
  }

  /** `departmentId` is a key of the departments relation. */
  ghost predicate UniqueDepartmentIds(departments: seq<Department>) {
    forall i, j :: 0 <= i < j < |departments| && departments[i].departmentId.Some? ==>
      departments[i].departmentId != departments[j].departmentId
  }

  lemma {:induction false} AtMostOneMatch(id: Cell, departments: seq<Department>)
    requires UniqueDepartmentIds(departments)
    ensures |DepartmentMatches(id, departments)| <= 1
  {
    if departments != [] {
      var d := departments[0];
      var rest := departments[1..];
      assert UniqueDepartmentIds(rest) by {
        forall i, j | 0 <= i < j < |rest| && rest[i].departmentId.Some? ensures rest[i].departmentId != rest[j].departmentId {
          assert rest[i] == departments[i + 1] && rest[j] == departments[j + 1];
        }
      }
      AtMostOneMatch(id, rest);
      if id.Some? && d.departmentId == id {
        forall e | e in rest ensures e.departmentId != id {
          var j :| 0 <= j < |rest| && rest[j] == e;
          assert departments[j + 1] == e;
        }
        NoMatches(id, rest);
      }
    }
  }

  lemma {:induction false} NoMatches(id: Cell, departments: seq<Department>)
    requires forall d :: d in departments ==> d.departmentId != id
    ensures DepartmentMatches(id, departments) == []
  {
    if departments != [] {
      assert departments[0] in departments;
      NoMatches(id, departments[1..]);
    }
  }

  /** When `departmentId` is a key of the departments, the join keeps every left row exactly once, in place. */
  lemma {:induction false} LeftJoinUniqueDepartments<L(!new)>(left: seq<L>, key: L -> Cell, departments: seq<Department>)
    requires UniqueDepartmentIds(departments)
    ensures |LeftJoinDepartments(left, key, departments)| == |left|
    ensures forall i :: 0 <= i < |left| ==> LeftJoinDepartments(left, key, departments)[i].0 == left[i]
  {
    if left != [] {
      var l, rest := left[0], left[1..];
      AtMostOneMatch(key(l), departments);
      var head := JoinRow(l, key, departments);
      var tail := LeftJoinDepartments(rest, key, departments);
      LeftJoinUniqueDepartments(rest, key, departments);
      assert |head| == 1 && head[0].0 == l;
      var r := LeftJoinDepartments(left, key, departments);
      assert r == head + tail;
      assert forall i :: 1 <= i < |left| ==> r[i] == tail[i - 1] && left[i] == rest[i - 1];
    }
  }

  lemma {:induction false} LeftJoinConcat<L(!new)>(a: seq<L>, b: seq<L>, key: L -> Cell, departments: seq<Department>)
    ensures LeftJoinDepartments(a + b, key, departments) ==
            LeftJoinDepartments(a, key, departments) + LeftJoinDepartments(b, key, departments)
  {
    if a == [] {
      assert a + b == b;
    } else {
      assert (a + b)[1..] == a[1..] + b;
      LeftJoinConcat(a[1..], b, key, departments);
    }
  }

  // ---------------------------------------------------------------------------
  // Lines 42-44: attach the departments to the employee revenue, then select
  // the four employee revenue columns again.

  /** The employee revenue columns of the joined rows. */
  function SelectRevenue(joined: seq<(EmployeeRevenue, Option<seq<Cell>>)>): (r: seq<EmployeeRevenue>)
    ensures |r| == |joined|
    ensures forall i :: 0 <= i < |r| ==> r[i] == joined[i].0
  {
    seq(|joined|, i requires 0 <= i < |joined| => joined[i].0)
  }

  function AttachDepartments(revenue: seq<EmployeeRevenue>, departments: seq<Department>): (r: seq<EmployeeRevenue>)
    ensures |r| >= |revenue|
    ensures forall x :: x in r <==> x in revenue
  {
    var joined := LeftJoinDepartments(revenue, RevenueDepartment, departments);
    var r := SelectRevenue(joined);
    LeftJoinKeeps(revenue, RevenueDepartment, departments);
    LeftJoinSources(revenue, RevenueDepartment, departments);
    assert forall x :: x in r <==> x in revenue by {
      forall x | x in revenue ensures x in r {
        var o :| o in joined && o.0 == x;
        var i :| 0 <= i < |joined| && joined[i] == o;
        assert r[i] == x;
      }
    }
    r
  }

  /** Attaching departments keeps the employee revenue as it is when `departmentId` is a key of the departments. */
  lemma AttachUniqueDepartments(revenue: seq<EmployeeRevenue>, departments: seq<Department>)
    requires UniqueDepartmentIds(departments)
    ensures AttachDepartments(revenue, departments) == revenue
  {
    LeftJoinUniqueDepartments(revenue, RevenueDepartment, departments);
  }

  /**
   * In general a row is repeated once per department sharing its id, and
   * kept once when there is none: a department id that occurs twice in the
   * departments relation doubles the employee rows of that department.
   */
  lemma {:induction false} AttachDepartmentsMultiplicity(revenue: seq<EmployeeRevenue>, departments: seq<Department>, x: EmployeeRevenue)
    ensures var m := |DepartmentMatches(x.departmentId, departments)|;
      multiset(AttachDepartments(revenue, departments))[x] == multiset(revenue)[x] * (if m == 0 then 1 else m)
  {
    if revenue != [] {
      var l, rest := revenue[0], revenue[1..];
      var m := |DepartmentMatches(x.departmentId, departments)|;
      var c := if m == 0 then 1 else m;
      AttachDepartmentsMultiplicity(rest, departments, x);
      var h := AttachCountStep(revenue, departments, x);
      ConsMultiplicity(revenue, x);
      MultiplicityStep(multiset(AttachDepartments(revenue, departments))[x], h, multiset(rest)[x], c, l == x, multiset(revenue)[x]);
    }
  }

  /** The occurrences of `x` after attaching departments: `h` from the first row, the others from the rest. */
  lemma AttachCountStep(revenue: seq<EmployeeRevenue>, departments: seq<Department>, x: EmployeeRevenue)
    returns (h: nat)
    requires revenue != []
    ensures var m := |DepartmentMatches(x.departmentId, departments)|;
      h == if revenue[0] == x then (if m == 0 then 1 else m) else 0
    ensures multiset(AttachDepartments(revenue, departments))[x] == h + multiset(AttachDepartments(revenue[1..], departments))[x]
  {
    var l, rest := revenue[0], revenue[1..];
    assert revenue == [l] + rest;
    var head := SelectRevenue(JoinRow(l, RevenueDepartment, departments));
    AttachStep(l, rest, departments);
    RepeatedMultiplicity(head, l, x);
    h := multiset(head)[x];
  }


  lemma MultiplicityStep(total: int, h: int, n: int, c: int, same: bool, k: int)
    requires total == h + n * c
    requires h == if same then c else 0
    requires k == if same then 1 + n else n
    ensures total == k * c
  {
  }

  /** Attaching departments to a relation attaches them to its first row and then to the others. */
  lemma AttachStep(l: EmployeeRevenue, rest: seq<EmployeeRevenue>, departments: seq<Department>)
    ensures AttachDepartments([l] + rest, departments) ==
            SelectRevenue(JoinRow(l, RevenueDepartment, departments)) + AttachDepartments(rest, departments)
  {
    var revenue := [l] + rest;
    assert revenue[0] == l && revenue[1..] == rest;
    var head := JoinRow(l, RevenueDepartment, departments);
    var tail := LeftJoinDepartments(rest, RevenueDepartment, departments);
    assert LeftJoinDepartments(revenue, RevenueDepartment, departments) == head + tail;
    SelectRevenueConcat(head, tail);
  }

  lemma SelectRevenueConcat(a: seq<(EmployeeRevenue, Option<seq<Cell>>)>, b: seq<(EmployeeRevenue, Option<seq<Cell>>)>)
    ensures SelectRevenue(a + b) == SelectRevenue(a) + SelectRevenue(b)
  {
  }

  /** A sequence holding only `l` holds `x` as often as its length when `x` is `l`, and never otherwise. */
  lemma {:induction false} RepeatedMultiplicity<T>(s: seq<T>, l: T, x: T)
    requires forall i :: 0 <= i < |s| ==> s[i] == l
    ensures multiset(s)[x] == if x == l then |s| else 0
  {
    if s != [] {
      assert s == [s[0]] + s[1..];
      RepeatedMultiplicity(s[1..], l, x);
    }
  }

  lemma AttachConcat(a: seq<EmployeeRevenue>, b: seq<EmployeeRevenue>, departments: seq<Department>)
    ensures AttachDepartments(a + b, departments) == AttachDepartments(a, departments) + AttachDepartments(b, departments)
  {
    LeftJoinConcat(a, b, RevenueDepartment, departments);
    SelectRevenueConcat(LeftJoinDepartments(a, RevenueDepartment, departments), LeftJoinDepartments(b, RevenueDepartment, departments));
  }

  /** Attaching departments does not depend on the order of the employee revenue rows. */
  lemma AttachPermutation(a: seq<EmployeeRevenue>, b: seq<EmployeeRevenue>, departments: seq<Department>)
    requires multiset(a) == multiset(b)
    ensures multiset(AttachDepartments(a, departments)) == multiset(AttachDepartments(b, departments))
  {
    var h := (s: seq<EmployeeRevenue>) => AttachDepartments(s, departments);
    forall x, y ensures multiset(h(x + y)) == multiset(h(x)) + multiset(h(y)) {
      AttachConcat(x, y, departments);
    }
    HomomorphismRespectsPermutation(h, a, b);
  }
}
