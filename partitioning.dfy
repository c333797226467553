/**
 * `repartition(n, col)`: hash partitioning of a relation into `n` partitions
 * by one column. A row goes to the partition given by the non-negative
 * remainder of the hash of its partition column, so rows that share that
 * column end up in the same partition. The relation that results is the
 * concatenation of the partitions. The hash function itself is the engine's
 * and is a parameter here.
 */
module Partitioning {

  /** The partition a row is assigned to (`pmod(hash(key), n)`). */
  function PartitionOf<T, K>(row: T, n: nat, key: T -> K, hash: K -> int): (p: nat)
    requires n > 0
    ensures p < n
  {
    hash(key(row)) % n
  }

  /** Partition `i`: the rows assigned to it, each with its full multiplicity. */
  function Bucket<T(!new), K>(rows: seq<T>, n: nat, key: T -> K, hash: K -> int, i: nat): (b: seq<T>)
    requires n > 0
    ensures forall x :: x in b ==> PartitionOf(x, n, key, hash) == i
    ensures forall x :: multiset(b)[x] == if PartitionOf(x, n, key, hash) == i then multiset(rows)[x] else 0
  {
    if rows == [] then []
    else
      assert rows == [rows[0]] + rows[1..];
      (if PartitionOf(rows[0], n, key, hash) == i then [rows[0]] else []) + Bucket(rows[1..], n, key, hash, i)
  }

  /** Partitions `i` to `n - 1`, one after the other. */
  function Gather<T(!new), K>(rows: seq<T>, n: nat, key: T -> K, hash: K -> int, i: nat): (g: seq<T>)
    requires n > 0
    ensures forall x :: multiset(g)[x] == if i <= PartitionOf(x, n, key, hash) then multiset(rows)[x] else 0
    decreases n - i
  {
    if i >= n then []
    else Bucket(rows, n, key, hash, i) + Gather(rows, n, key, hash, i + 1)
  }

  /** The repartitioned relation holds exactly the rows it was given, each as often as before. */
  function Repartition<T(!new), K>(rows: seq<T>, n: nat, key: T -> K, hash: K -> int): (r: seq<T>)
    requires n > 0
    ensures multiset(r) == multiset(rows)
  {
    Gather(rows, n, key, hash, 0)
  }
}
