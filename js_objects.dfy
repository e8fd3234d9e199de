/**
 * The order in which `Object.keys` and `Object.entries` list the own string
 * keys of a plain object (OrdinaryOwnPropertyKeys, section 10.1.11.1 of
 * ECMA-262): array indices first, in ascending numeric order, then every
 * other key in the order it was created.
 */
module JsObjects {
  import opened Strings
  import opened Sorting

  /** 2^32 - 2, the largest array index. */
  const MaxArrayIndex: nat := 0xFFFF_FFFE

  /** The canonical decimal form of an integer from 0 to 2^32 - 2. */
  predicate IsArrayIndex(k: string) {
    k != [] && AllDigits(k) && (k[0] == '0' ==> |k| == 1) && DecimalValue(k) <= MaxArrayIndex
  }

  predicate IsNamedKey(k: string) {
    !IsArrayIndex(k)
  }

  /** The numeric value of an array index. */
  function IndexValue(k: string): nat {
    if AllDigits(k) then DecimalValue(k) else 0
  }

  /** Ascending numeric order of array indices. */
  function AscendingIndex(): (string, string) -> int {
    (a, b) => IndexValue(a) - IndexValue(b)
  }

  /** The elements of `xs` that satisfy `p`, in order. */
  function Filter<T>(xs: seq<T>, p: T -> bool): (r: seq<T>)
    ensures |r| <= |xs|
  {
    if xs == [] then [] else (if p(xs[0]) then [xs[0]] else []) + Filter(xs[1..], p)
  }

  /** `Object.keys(o)` for an object whose keys were created in the order `created`. */
  function OwnKeys(created: seq<string>): seq<string> {
    Sort(Filter(created, IsArrayIndex), AscendingIndex()) + Filter(created, IsNamedKey)
  }

  /** Filtering by a condition and by its negation splits the elements between the two. */
  lemma {:induction false} FilterPartition<T>(xs: seq<T>, p: T -> bool, q: T -> bool)
    requires forall x :: q(x) == !p(x)
    ensures multiset(Filter(xs, p)) + multiset(Filter(xs, q)) == multiset(xs)
  {
    if xs != [] {
      var x, rest := xs[0], xs[1..];
      FilterPartition(rest, p, q);
      assert xs == [x] + rest;
      assert multiset(xs) == multiset{x} + multiset(rest);
      if p(x) {
        assert Filter(xs, p) == [x] + Filter(rest, p) && Filter(xs, q) == Filter(rest, q);
        assert multiset(Filter(xs, p)) == multiset{x} + multiset(Filter(rest, p));
      } else {
        assert Filter(xs, q) == [x] + Filter(rest, q) && Filter(xs, p) == Filter(rest, p);
        assert multiset(Filter(xs, q)) == multiset{x} + multiset(Filter(rest, q));
      }
    }
  }

  lemma {:induction false} FilterMembers<T>(xs: seq<T>, p: T -> bool)
    ensures forall x :: x in Filter(xs, p) ==> x in xs && p(x)
  {
    if xs != [] {
      FilterMembers(xs[1..], p);
    }
  }

  lemma {:induction false} FilterDistinct<T>(xs: seq<T>, p: T -> bool)
    requires Distinct(xs)
    ensures Distinct(Filter(xs, p))
  {
    if xs != [] {
      var rest := xs[1..];
      assert Distinct(rest) by {
        forall i, j | 0 <= i < j < |rest| ensures rest[i] != rest[j] {
          assert rest[i] == xs[i + 1] && rest[j] == xs[j + 1];
        }
      }
      FilterDistinct(rest, p);
      FilterMembers(rest, p);
      var r, tail := Filter(xs, p), Filter(rest, p);
      if p(xs[0]) {
        assert xs[0] !in rest;
        forall i, j | 0 <= i < j < |r| ensures r[i] != r[j] {
          assert r[j] == tail[j - 1] && r[j] in tail;
          if i > 0 {
            assert r[i] == tail[i - 1];
          }
        }
      }
    }
  }

  lemma {:induction false} FilterAll<T>(xs: seq<T>, p: T -> bool)
    requires forall i :: 0 <= i < |xs| ==> p(xs[i])
    ensures Filter(xs, p) == xs
  {
    if xs != [] {
      FilterAll(xs[1..], p);
      assert xs == [xs[0]] + xs[1..];
    }
  }

  lemma {:induction false} FilterNone<T>(xs: seq<T>, p: T -> bool)
    requires forall i :: 0 <= i < |xs| ==> !p(xs[i])
    ensures Filter(xs, p) == []
  {
    if xs != [] {
      FilterNone(xs[1..], p);
    }
  }

  /** The listed keys are the created keys, each as often as it was created. */
  lemma OwnKeysPermutation(created: seq<string>)
    ensures multiset(OwnKeys(created)) == multiset(created)
    ensures forall k :: k in OwnKeys(created) <==> k in created
  {
    FilterPartition(created, IsArrayIndex, IsNamedKey);
    var keys := OwnKeys(created);
    forall k ensures k in keys <==> k in created {
      assert k in keys <==> k in multiset(keys);
    }
  }

  /**
   * The listed keys are the created keys: the array indices among them come
   * first without repeats in ascending numeric order, and when there are
   * none the keys come in creation order.
   */
  lemma OwnKeysOrder(created: seq<string>)
    requires Distinct(created)
    ensures multiset(OwnKeys(created)) == multiset(created) && Distinct(OwnKeys(created))
    ensures var indices := Sort(Filter(created, IsArrayIndex), AscendingIndex());
      && OwnKeys(created)[..|indices|] == indices
      && (forall i :: 0 <= i < |indices| ==> IsArrayIndex(indices[i]))
      && (forall i :: 0 <= i < |indices| - 1 ==> IndexValue(indices[i]) <= IndexValue(indices[i + 1]))
    ensures (forall i :: 0 <= i < |created| ==> IsNamedKey(created[i])) ==> OwnKeys(created) == created
  {
    var filtered := Filter(created, IsArrayIndex);
    var indices := Sort(filtered, AscendingIndex());
    FilterPartition(created, IsArrayIndex, IsNamedKey);
    FilterDistinct(created, IsArrayIndex);
    SortSorted(filtered, AscendingIndex());
    FilterMembers(created, IsArrayIndex);
    forall i | 0 <= i < |indices| ensures IsArrayIndex(indices[i]) {
      assert indices[i] in multiset(filtered);
    }
    if forall i :: 0 <= i < |created| ==> IsNamedKey(created[i]) {
      FilterNone(created, IsArrayIndex);
      FilterAll(created, IsNamedKey);
    }
    DistinctPermutation(created, OwnKeys(created));
  }
}
