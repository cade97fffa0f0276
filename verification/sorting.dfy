/** A stable sort, as `sortedWith` and SQL `ORDER BY` are used here: the
    result is a permutation of the input that is ordered by a total
    preorder. */
module Sorting {

  ghost predicate TotalPreorder<T(!new)>(le: (T, T) -> bool) {
    && (forall x, y :: le(x, y) || le(y, x))
    && (forall x, y, z :: le(x, y) && le(y, z) ==> le(x, z))
  }

  ghost predicate Sorted<T>(xs: seq<T>, le: (T, T) -> bool) {
    forall i, j :: 0 <= i < j < |xs| ==> le(xs[i], xs[j])
  }

  /** Inserts `x` after every leading element that is not greater than it. */
  function Insert<T(!new)>(x: T, xs: seq<T>, le: (T, T) -> bool): (r: seq<T>)
    requires TotalPreorder(le)
    requires Sorted(xs, le)
    ensures Sorted(r, le)
    ensures multiset(r) == multiset(xs) + multiset{x}
    decreases |xs|
  {
    if |xs| == 0 then [x]
    else if le(xs[0], x) then
      var tail := Insert(x, xs[1..], le);
      assert Sorted([xs[0]] + tail, le) && multiset([xs[0]] + tail) == multiset(xs) + multiset{x} by {
        HeadBelowInsert(x, xs, le, tail);
        SortedCons(xs[0], tail, le);
        assert xs == [xs[0]] + xs[1..];
      }
      [xs[0]] + tail
    else
      assert Sorted([x] + xs, le) by {
        PrependBelow(x, xs, le);
      }
      [x] + xs
  }

  /** An element below the head of a sorted sequence can go in front. */
  lemma PrependBelow<T(!new)>(x: T, xs: seq<T>, le: (T, T) -> bool)
    requires TotalPreorder(le) && Sorted(xs, le) && |xs| > 0 && !le(xs[0], x)
    ensures Sorted([x] + xs, le)
  {
    assert le(x, xs[0]);
    forall k | 0 <= k < |xs| ensures le(x, xs[k]) {
      if k > 0 {
        assert le(xs[0], xs[k]);
      }
    }
    SortedCons(x, xs, le);
  }

  /** The head of a sorted sequence, when not above `x`, is not above
      anything in a rearrangement of its tail with `x` added. */
  lemma HeadBelowInsert<T(!new)>(x: T, xs: seq<T>, le: (T, T) -> bool, tail: seq<T>)
    requires TotalPreorder(le) && Sorted(xs, le) && |xs| > 0 && le(xs[0], x)
    requires multiset(tail) == multiset(xs[1..]) + multiset{x}
    ensures forall k :: 0 <= k < |tail| ==> le(xs[0], tail[k])
  {
    forall k | 0 <= k < |tail| ensures le(xs[0], tail[k]) {
      assert tail[k] in multiset(tail);
      if tail[k] != x {
        assert tail[k] in multiset(xs[1..]);
        var m :| 0 <= m < |xs[1..]| && xs[1..][m] == tail[k];
        assert xs[1..][m] == xs[m + 1];
      }
    }
  }

  /** An element not above anything in a sorted sequence can go in front. */
  lemma SortedCons<T>(h: T, xs: seq<T>, le: (T, T) -> bool)
    requires Sorted(xs, le) && forall k :: 0 <= k < |xs| ==> le(h, xs[k])
    ensures Sorted([h] + xs, le)
  {
    var r := [h] + xs;
    forall i, j | 0 <= i < j < |r| ensures le(r[i], r[j]) {
      assert r[j] == xs[j - 1];
      if i > 0 { assert r[i] == xs[i - 1]; }
    }
  }

  /** Insertion sort: each element in turn is inserted into the sorted
      prefix before it, so equal elements keep their input order. */
  function Sort<T(!new)>(xs: seq<T>, le: (T, T) -> bool): (r: seq<T>)
    requires TotalPreorder(le)
    ensures Sorted(r, le)
    ensures multiset(r) == multiset(xs)
    ensures |r| == |xs|
    decreases |xs|
  {
    if |xs| == 0 then []
    else
      var init := xs[..|xs| - 1];
      assert xs == init + [xs[|xs| - 1]];
      var r := Insert(xs[|xs| - 1], Sort(init, le), le);
      assert |r| == |multiset(r)|;
      r
  }
}
