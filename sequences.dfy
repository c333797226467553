/**
 * Relations are sequences of rows; the order of a sequence is an artefact of
 * the model (Spark gives none), so every property of the report is stated on
 * membership or on multisets. This module holds the facts about sequences
 * that every stage needs.
 */
module Sequences {

  /** No row occurs twice. */
  ghost predicate NoDup<T>(s: seq<T>) {
    forall i, j :: 0 <= i < j < |s| ==> s[i] != s[j]
  }

  /** The distinct elements of `s` (the keys of a `groupBy`). */
  function Dedup<T(==,!new)>(s: seq<T>): (r: seq<T>)
    ensures forall x :: x in r <==> x in s
    ensures NoDup(r)
  {
    if s == [] then []
    else if s[0] in s[1..] then Dedup(s[1..])
    else [s[0]] + Dedup(s[1..])
  }

  /** In a sequence without repetitions every element occurs exactly once. */
  lemma {:induction false} NoDupMultiplicity<T>(s: seq<T>, x: T)
    requires NoDup(s)
    ensures multiset(s)[x] == if x in s then 1 else 0
  {
    if s != [] {
      assert s == [s[0]] + s[1..];
      assert NoDup(s[1..]) by {
        forall i, j | 0 <= i < j < |s[1..]| ensures s[1..][i] != s[1..][j] {
          assert s[1..][i] == s[i + 1] && s[1..][j] == s[j + 1];
        }
      }
      NoDupMultiplicity(s[1..], x);
      assert s[0] !in s[1..] by {
        forall j | 0 <= j < |s[1..]| ensures s[1..][j] != s[0] {
          assert s[1..][j] == s[j + 1];
        }
      }
    }
  }

  /** Two repetition-free sequences with the same elements are permutations of each other. */
  lemma SameElementsSameMultiset<T>(s: seq<T>, t: seq<T>)
    requires NoDup(s) && NoDup(t)
    requires forall x :: x in s <==> x in t
    ensures multiset(s) == multiset(t)
  {
    forall x ensures multiset(s)[x] == multiset(t)[x] {
      NoDupMultiplicity(s, x);
      NoDupMultiplicity(t, x);
    }
  }

  /** Removing the element at `j` from `b` removes one occurrence from its multiset. */
  lemma SplitAt<T>(b: seq<T>, j: nat)
    requires j < |b|
    ensures b == b[..j] + [b[j]] + b[j + 1..]
    ensures multiset(b) == multiset(b[..j] + b[j + 1..]) + multiset{b[j]}
  {
    assert b == b[..j] + [b[j]] + b[j + 1..];
  }

  /** Taking the element at `j` out of `b` leaves a permutation of `a` minus its first element. */
  lemma RemoveMatching<T>(a: seq<T>, b: seq<T>, j: nat)
    requires |a| > 0 && j < |b| && b[j] == a[0]
    requires multiset(a) == multiset(b)
    ensures multiset(a[1..]) == multiset(b[..j] + b[j + 1..])
  {
    SplitAt(b, j);
    assert a == [a[0]] + a[1..];
    var rest := b[..j] + b[j + 1..];
    forall y ensures multiset(a[1..])[y] == multiset(rest)[y] {
      assert multiset(a)[y] == multiset{a[0]}[y] + multiset(a[1..])[y];
      assert multiset(b)[y] == multiset(rest)[y] + multiset{a[0]}[y];
    }
  }

  /**
   * A stage that distributes over concatenation, up to the order of the rows
   * it produces, only depends on the multiset of the rows it is given: its
   * result does not depend on how the input was partitioned or ordered.
   */
  lemma {:induction false} HomomorphismRespectsPermutation<T, U>(h: seq<T> -> seq<U>, a: seq<T>, b: seq<T>)
    requires forall x, y :: multiset(h(x + y)) == multiset(h(x)) + multiset(h(y))
    requires multiset(a) == multiset(b)
    ensures multiset(h(a)) == multiset(h(b))
  {
    if a == [] {
      assert |b| == |multiset(b)| == 0;
    } else {
      assert a[0] in multiset(b);
      var j :| 0 <= j < |b| && b[j] == a[0];
      RemoveMatching(a, b, j);
      HomomorphismRespectsPermutation(h, a[1..], b[..j] + b[j + 1..]);
      HomomorphismSplit(h, a, 0);
      HomomorphismSplit(h, b, j);
      assert a[..0] + a[1..] == a[1..];
    }
  }

  /** The image of a sequence is the image of its `j`-th element together with the image of the others. */
  lemma HomomorphismSplit<T, U>(h: seq<T> -> seq<U>, b: seq<T>, j: nat)
    requires forall x, y :: multiset(h(x + y)) == multiset(h(x)) + multiset(h(y))
    requires j < |b|
    ensures multiset(h(b)) == multiset(h([b[j]])) + multiset(h(b[..j] + b[j + 1..]))
  {
    var x, left, right := b[j], b[..j], b[j + 1..];
    assert b == (left + [x]) + right by { SplitAt(b, j); }
    var hx, hl, hr := multiset(h([x])), multiset(h(left)), multiset(h(right));
    assert multiset(h(left + right)) == hl + hr;
    assert multiset(h(left + [x])) == hl + hx;
    assert multiset(h(b)) == (hl + hx) + hr;
  }

  /** The head and tail of a concatenation whose left part is not empty. */
  lemma ConsConcat<T>(a: seq<T>, b: seq<T>)
    requires a != []
    ensures a + b != [] && (a + b)[0] == a[0] && (a + b)[1..] == a[1..] + b
  {
  }

  lemma ConcatAssociative<T>(x: seq<T>, y: seq<T>, z: seq<T>)
    ensures x + (y + z) == (x + y) + z
  {
  }

  /** How often `x` occurs in a sequence, counted from its head and its tail. */
  lemma ConsMultiplicity<T>(s: seq<T>, x: T)
    requires s != []
    ensures multiset(s)[x] == if s[0] == x then 1 + multiset(s[1..])[x] else multiset(s[1..])[x]
  {
    assert s == [s[0]] + s[1..];
  }

  lemma ConsCount<T>(h: T, t: seq<T>, x: T)
    ensures multiset([h] + t)[x] == (if h == x then 1 else 0) + multiset(t)[x]
  {
  }

  /** Two copies of each of two elements, counted. */
  lemma TwoCopies<T>(x1: T, x2: T, y: T)
    ensures multiset([x1, x1, x2, x2])[y] == multiset([x1, x2])[y] * 2
  {
    assert multiset([x1, x1, x2, x2]) == multiset{x1, x1, x2, x2};
    assert multiset([x1, x2]) == multiset{x1, x2};
  }
}
