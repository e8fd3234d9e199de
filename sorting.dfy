/**
 * `Array.prototype.sort` with a comparator, as a stable sort: an element goes
 * after another only when the comparator says so, and elements it ranks
 * equal keep their order. With a comparator that ranks consistently this is
 * the one order every stable sort produces.
 */
module Sorting {

  /** Puts `x` before the first element of `ys` that it does not compare after. */
  function Insert<T>(x: T, ys: seq<T>, cmp: (T, T) -> int): (r: seq<T>)
    ensures multiset(r) == multiset(ys) + multiset{x}
    ensures |r| == |ys| + 1
  {
    if ys == [] || cmp(x, ys[0]) <= 0 then [x] + ys
    else
      assert ys == [ys[0]] + ys[1..];
      [ys[0]] + Insert(x, ys[1..], cmp)
  }

  /** `xs.sort(cmp)`: the same elements, ordered by `cmp`. */
  function Sort<T>(xs: seq<T>, cmp: (T, T) -> int): (r: seq<T>)
    ensures multiset(r) == multiset(xs)
    ensures |r| == |xs|
  {
    if xs == [] then []
    else
      assert xs == [xs[0]] + xs[1..];
      Insert(xs[0], Sort(xs[1..], cmp), cmp)
  }

  /** Each element is ranked no later than its neighbour. */
  predicate Sorted<T>(r: seq<T>, cmp: (T, T) -> int) {
    forall i :: 0 <= i < |r| - 1 ==> cmp(r[i], r[i + 1]) <= 0
  }

  /** On distinct elements of `xs`, a positive comparison one way is not positive the other way. */
  predicate Consistent<T(==)>(xs: seq<T>, cmp: (T, T) -> int) {
    forall a, b :: a in xs && b in xs && a != b && cmp(a, b) > 0 ==> cmp(b, a) <= 0
  }

  predicate Distinct<T(==)>(xs: seq<T>) {
    forall i, j :: 0 <= i < j < |xs| ==> xs[i] != xs[j]
  }

  /** Distinct elements occur once each. */
  lemma {:induction false} DistinctOnce<T>(xs: seq<T>)
    requires Distinct(xs)
    ensures forall x :: multiset(xs)[x] <= 1
  {
    if xs != [] {
      var rest := xs[1..];
      assert Distinct(rest) by {
        forall i, j | 0 <= i < j < |rest| ensures rest[i] != rest[j] {
          assert rest[i] == xs[i + 1] && rest[j] == xs[j + 1];
        }
      }
      DistinctOnce(rest);
      assert xs == [xs[0]] + rest;
      assert multiset(xs) == multiset{xs[0]} + multiset(rest);
      assert xs[0] !in rest;
    }
  }

  /** A rearrangement of distinct elements is distinct. */
  lemma DistinctPermutation<T>(xs: seq<T>, ys: seq<T>)
    requires Distinct(xs) && multiset(xs) == multiset(ys)
    ensures Distinct(ys)
  {
    DistinctOnce(xs);
    forall i, j | 0 <= i < j < |ys| ensures ys[i] != ys[j] {
      if ys[i] == ys[j] {
        RepeatCounts(ys, i, j);
        assert false;
      }
    }
  }

  /** An element at two positions occurs at least twice. */
  lemma RepeatCounts<T>(ys: seq<T>, i: nat, j: nat)
    requires i < j < |ys| && ys[i] == ys[j]
    ensures multiset(ys)[ys[i]] >= 2
  {
    assert ys == ys[..j] + ys[j..];
    assert ys[i] in ys[..j] && ys[j] in ys[j..];
  }

  /** The first position of `x` in `xs`. */
  function PositionOf<T(==)>(xs: seq<T>, x: T): (i: nat)
    requires x in xs
    ensures i < |xs| && xs[i] == x
  {
    if xs[0] == x then 0 else PositionOf(xs[1..], x) + 1
  }

  lemma {:induction false} InsertSorted<T>(x: T, ys: seq<T>, cmp: (T, T) -> int)
    requires Sorted(ys, cmp) && x !in ys && Consistent(ys + [x], cmp)
    ensures Sorted(Insert(x, ys, cmp), cmp)
  {
    if ys != [] && cmp(x, ys[0]) > 0 {
      var rest := ys[1..];
      assert Sorted(rest, cmp) by {
        forall i | 0 <= i < |rest| - 1 ensures cmp(rest[i], rest[i + 1]) <= 0 {
          assert rest[i] == ys[i + 1] && rest[i + 1] == ys[i + 2];
        }
      }
      assert Consistent(rest + [x], cmp) by {
        forall y | y in rest + [x] ensures y in ys + [x] {
          if y in rest {
            var i :| 0 <= i < |rest| && rest[i] == y;
            assert ys[i + 1] == y;
          }
        }
      }
      InsertSorted(x, rest, cmp);
      var tail := Insert(x, rest, cmp);
      assert ys[0] in ys + [x] && x in ys + [x];
      assert cmp(ys[0], x) <= 0;
      assert tail[0] == x || tail[0] == rest[0];
      var r := [ys[0]] + tail;
      forall i | 0 <= i < |r| - 1 ensures cmp(r[i], r[i + 1]) <= 0 {
        if i > 0 {
          assert r[i] == tail[i - 1] && r[i + 1] == tail[i];
        }
      }
    }
  }

  /** Sorting distinct elements with a consistent comparator leaves them in comparator order. */
  lemma {:induction false} SortSorted<T>(xs: seq<T>, cmp: (T, T) -> int)
    requires Distinct(xs) && Consistent(xs, cmp)
    ensures Sorted(Sort(xs, cmp), cmp)
  {
    if xs != [] {
      var rest := xs[1..];
      var sorted := Sort(rest, cmp);
      assert Distinct(rest) by {
        forall i, j | 0 <= i < j < |rest| ensures rest[i] != rest[j] {
          assert rest[i] == xs[i + 1] && rest[j] == xs[j + 1];
        }
      }
      assert Consistent(rest, cmp) by {
        forall y | y in rest ensures y in xs {
          var i :| 0 <= i < |rest| && rest[i] == y;
          assert xs[i + 1] == y;
        }
      }
      SortSorted(rest, cmp);
      assert xs[0] !in rest;
      assert xs[0] !in sorted by {
        assert multiset(sorted) == multiset(rest);
        assert xs[0] !in multiset(rest);
      }
      assert Consistent(sorted + [xs[0]], cmp) by {
        assert multiset(sorted + [xs[0]]) == multiset(xs) by {
          assert xs == [xs[0]] + rest;
        }
        forall y ensures y in sorted + [xs[0]] <==> y in xs {
          assert y in sorted + [xs[0]] <==> y in multiset(sorted + [xs[0]]);
          assert y in xs <==> y in multiset(xs);
        }
      }
      InsertSorted(xs[0], sorted, cmp);
    }
  }

  /** The comparator `(a, b) => key(b) - key(a)`: higher keys first. */
  function ByKeyDescending<T>(key: T -> int): (T, T) -> int {
    (a, b) => key(b) - key(a)
  }

  /** Index of the first element with the greatest key. */
  function FirstMaxIndex<T>(xs: seq<T>, key: T -> int): (i: nat)
    requires xs != []
    ensures i < |xs|
    ensures forall j :: 0 <= j < |xs| ==> key(xs[j]) <= key(xs[i])
    ensures forall j :: 0 <= j < i ==> key(xs[j]) < key(xs[i])
  {
    if |xs| == 1 then 0
    else
      var j := FirstMaxIndex(xs[1..], key) + 1;
      if key(xs[0]) >= key(xs[j]) then 0 else j
  }

  /**
   * Sorted by descending key, the first element is the first one of the
   * input with the greatest key: ties keep their input order.
   */
  lemma {:induction false} SortDescendingHead<T>(xs: seq<T>, key: T -> int)
    requires xs != []
    ensures Sort(xs, ByKeyDescending(key))[0] == xs[FirstMaxIndex(xs, key)]
  {
    var cmp := ByKeyDescending(key);
    if |xs| > 1 {
      var rest := xs[1..];
      SortDescendingHead(rest, key);
      var h := Sort(rest, cmp)[0];
      assert h == xs[FirstMaxIndex(rest, key) + 1];
      assert cmp(xs[0], h) == key(h) - key(xs[0]);
    }
  }
}
