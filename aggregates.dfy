/**
 * The two aggregate functions of the report, as SQL defines them: `sum` and
 * `avg` over the rows of one group, skipping null values. A group is given by
 * a key function and a key; the aggregated column by a value function.
 */
module Aggregates {
  import opened Nullable
  import opened Sequences

  /** `sum(value)` over the rows whose key is `k`: null when none of them has a value. */
  function SumWhere<T, K(==)>(rows: seq<T>, key: T -> K, k: K, value: T -> Option<int>): (r: Option<int>)
    ensures r.None? <==> forall i :: 0 <= i < |rows| && key(rows[i]) == k ==> value(rows[i]).None?
  {
    if rows == [] then None
    else
      var rest := SumWhere(rows[1..], key, k, value);
      assert forall i :: 1 <= i < |rows| ==> rows[i] == rows[1..][i - 1];
      Plus(if key(rows[0]) == k then value(rows[0]) else None, rest)
  }

  /** The number of rows whose key is `k` and whose value is not null (the divisor of `avg`). */
  function CountWhere<T, K(==)>(rows: seq<T>, key: T -> K, k: K, value: T -> Option<int>): (n: nat)
    ensures n <= |rows|
    ensures n == 0 <==> SumWhere(rows, key, k, value).None?
  {
    if rows == [] then 0
    else (if key(rows[0]) == k && value(rows[0]).Some? then 1 else 0) + CountWhere(rows[1..], key, k, value)
  }

  /** A positive number of values. */
  type Positive = n: nat | n > 0 witness 1

  /**
   * An average, kept as the exact fraction of a sum by a number of values;
   * `Value` is the number it stands for.
   */
  datatype Fraction = Fraction(numerator: int, denominator: Positive) {
    function Value(): real {
      numerator as real / denominator as real
    }
  }

  /**
   * `avg(value)` over the rows whose key is `k`: null when none of them has a
   * value, and otherwise their sum divided by their number.
   */
  function Mean<T, K(==)>(rows: seq<T>, key: T -> K, k: K, value: T -> Option<int>): (m: Option<Fraction>)
    ensures m.None? <==> forall i :: 0 <= i < |rows| && key(rows[i]) == k ==> value(rows[i]).None?
    ensures m.Some? ==>
      m.value.numerator == SumWhere(rows, key, k, value).value && m.value.denominator == CountWhere(rows, key, k, value)
  {
    var n := CountWhere(rows, key, k, value);
    if n == 0 then None
    else Some(Fraction(SumWhere(rows, key, k, value).value, n))
  }

  lemma {:induction false} SumWhereConcat<T, K>(a: seq<T>, b: seq<T>, key: T -> K, k: K, value: T -> Option<int>)
    ensures SumWhere(a + b, key, k, value) == Plus(SumWhere(a, key, k, value), SumWhere(b, key, k, value))
  {
    if a == [] {
      assert a + b == b;
    } else {
      assert (a + b)[1..] == a[1..] + b;
      SumWhereConcat(a[1..], b, key, k, value);
      PlusAssociative(if key(a[0]) == k then value(a[0]) else None,
                      SumWhere(a[1..], key, k, value), SumWhere(b, key, k, value));
    }
  }

  lemma {:induction false} CountWhereConcat<T, K>(a: seq<T>, b: seq<T>, key: T -> K, k: K, value: T -> Option<int>)
    ensures CountWhere(a + b, key, k, value) == CountWhere(a, key, k, value) + CountWhere(b, key, k, value)
  {
    if a == [] {
      assert a + b == b;
    } else {
      assert (a + b)[1..] == a[1..] + b;
      CountWhereConcat(a[1..], b, key, k, value);
    }
  }

  /** `sum` does not depend on the order of the rows (it is computed per partition and combined). */
  lemma {:induction false} SumWherePermutation<T, K>(a: seq<T>, b: seq<T>, key: T -> K, k: K, value: T -> Option<int>)
    requires multiset(a) == multiset(b)
    ensures SumWhere(a, key, k, value) == SumWhere(b, key, k, value)
  {
    if a == [] {
      assert |b| == |multiset(b)| == 0;
    } else {
      assert a[0] in multiset(b);
      var j :| 0 <= j < |b| && b[j] == a[0];
      RemoveMatching(a, b, j);
      SumWherePermutation(a[1..], b[..j] + b[j + 1..], key, k, value);
      SumWhereRemove(b, j, key, k, value);
    }
  }

  /** The sum over a relation is the sum over it without its `j`-th row, plus that row's contribution. */
  lemma SumWhereRemove<T, K>(b: seq<T>, j: nat, key: T -> K, k: K, value: T -> Option<int>)
    requires j < |b|
    ensures SumWhere(b, key, k, value) ==
            Plus(if key(b[j]) == k then value(b[j]) else None, SumWhere(b[..j] + b[j + 1..], key, k, value))
  {
    var left, x, right := b[..j], [b[j]], b[j + 1..];
    assert b == left + (x + right) by { SplitAt(b, j); }
    SumWhereConcat(left, x + right, key, k, value);
    SumWhereConcat(x, right, key, k, value);
    SumWhereConcat(left, right, key, k, value);
    var h, l, r := SumWhere(x, key, k, value), SumWhere(left, key, k, value), SumWhere(right, key, k, value);
    assert h == Plus(if key(b[j]) == k then value(b[j]) else None, None);
    PlusAssociative(l, h, r);
    PlusCommutative(l, h);
    PlusAssociative(h, l, r);
  }

  /** The divisor of `avg` does not depend on the order of the rows either. */
  lemma {:induction false} CountWherePermutation<T, K>(a: seq<T>, b: seq<T>, key: T -> K, k: K, value: T -> Option<int>)
    requires multiset(a) == multiset(b)
    ensures CountWhere(a, key, k, value) == CountWhere(b, key, k, value)
  {
    if a == [] {
      assert |b| == |multiset(b)| == 0;
    } else {
      assert a[0] in multiset(b);
      var j :| 0 <= j < |b| && b[j] == a[0];
      RemoveMatching(a, b, j);
      CountWherePermutation(a[1..], b[..j] + b[j + 1..], key, k, value);
      CountWhereRemove(b, j, key, k, value);
    }
  }

  /** The count over a relation is the count over it without its `j`-th row, plus that row's contribution. */
  lemma CountWhereRemove<T, K>(b: seq<T>, j: nat, key: T -> K, k: K, value: T -> Option<int>)
    requires j < |b|
    ensures CountWhere(b, key, k, value) ==
            (if key(b[j]) == k && value(b[j]).Some? then 1 else 0) + CountWhere(b[..j] + b[j + 1..], key, k, value)
  {
    var left, x, right := b[..j], [b[j]], b[j + 1..];
    assert b == left + (x + right) by { SplitAt(b, j); }
    CountWhereConcat(left, x + right, key, k, value);
    CountWhereConcat(x, right, key, k, value);
    CountWhereConcat(left, right, key, k, value);
  }

  /** Hence `avg` is order-independent as well. */
  lemma MeanPermutation<T, K>(a: seq<T>, b: seq<T>, key: T -> K, k: K, value: T -> Option<int>)
    requires multiset(a) == multiset(b)
    ensures Mean(a, key, k, value) == Mean(b, key, k, value)
  {
    SumWherePermutation(a, b, key, k, value);
    CountWherePermutation(a, b, key, k, value);
  }

  /** The mean of a group lies between the smallest and the largest non-null value of the group. */
  lemma {:induction false} MeanBetweenBounds<T, K>(rows: seq<T>, key: T -> K, k: K, value: T -> Option<int>, lo: int, hi: int)
    requires forall i :: 0 <= i < |rows| && key(rows[i]) == k && value(rows[i]).Some? ==> lo <= value(rows[i]).value <= hi
    requires Mean(rows, key, k, value).Some?
    ensures lo as real <= Mean(rows, key, k, value).value.Value() <= hi as real
  {
    var f := Mean(rows, key, k, value).value;
    SumBetweenBounds(rows, key, k, value, lo, hi);
    QuotientBetweenBounds(f.denominator, f.numerator, lo, hi);
  }

  lemma QuotientBetweenBounds(n: nat, s: int, lo: int, hi: int)
    requires n > 0 && lo * n <= s <= hi * n
    ensures lo as real <= s as real / n as real <= hi as real
  {
    var m := s as real / n as real;
    assert m * n as real == s as real;
    RealProduct(lo, n);
    RealProduct(hi, n);
    DivideBounds(m, n as real, lo as real, hi as real);
  }

  lemma DivideBounds(m: real, n: real, lo: real, hi: real)
    requires n > 0.0 && lo * n <= m * n <= hi * n
    ensures lo <= m <= hi
  {
    if m < lo {
      MultiplyPositive(lo - m, n);
    }
    if m > hi {
      MultiplyPositive(m - hi, n);
    }
  }

  lemma RealProduct(a: int, b: int)
    ensures (a * b) as real == a as real * b as real
  {
  }

  lemma MultiplyPositive(x: real, y: real)
    requires x > 0.0 && y > 0.0
    ensures x * y > 0.0
  {
  }

  lemma Distribute(c: int, n: int)
    ensures c * (1 + n) == c + c * n
  {
  }

  lemma {:induction false} SumBetweenBounds<T, K>(rows: seq<T>, key: T -> K, k: K, value: T -> Option<int>, lo: int, hi: int)
    requires forall i :: 0 <= i < |rows| && key(rows[i]) == k && value(rows[i]).Some? ==> lo <= value(rows[i]).value <= hi
    ensures var n := CountWhere(rows, key, k, value);
      SumWhere(rows, key, k, value).Some? ==> lo * n <= SumWhere(rows, key, k, value).value <= hi * n
  {
    if rows != [] {
      var tail := rows[1..];
      assert forall i :: 0 <= i < |tail| ==> tail[i] == rows[i + 1];
      SumBetweenBounds(tail, key, k, value, lo, hi);
      var n' := CountWhere(tail, key, k, value);
      var s' := SumWhere(tail, key, k, value);
      if key(rows[0]) == k && value(rows[0]).Some? {
        var v := value(rows[0]).value;
        assert lo <= v <= hi;
        assert CountWhere(rows, key, k, value) == 1 + n';
        Distribute(lo, n');
        Distribute(hi, n');
        if s'.Some? {
          assert SumWhere(rows, key, k, value).value == v + s'.value;
        } else {
          assert n' == 0;
          assert SumWhere(rows, key, k, value).value == v;
        }
      } else {
        assert CountWhere(rows, key, k, value) == n';
        assert SumWhere(rows, key, k, value) == s';
      }
    }
  }
}
