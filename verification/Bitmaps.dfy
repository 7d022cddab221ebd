/** Bitmaps of task ids: smallest, largest and sorted elements, and the largest few. */
module Bitmaps {
  import opened Tasks

  lemma {:induction false} FindSmallest(s: set<TaskId>) returns (m: TaskId)
    requires s != {}
    ensures m in s && forall x <- s :: m <= x
  {
    m :| m in s;
    if s != {m} {
      var n := FindSmallest(s - {m});
      assert forall x <- s :: x == m || x in s - {m};
      m := if m < n then m else n;
    }
  }

  lemma {:induction false} FindLargest(s: set<TaskId>) returns (m: TaskId)
    requires s != {}
    ensures m in s && forall x <- s :: x <= m
  {
    m :| m in s;
    if s != {m} {
      var n := FindLargest(s - {m});
      assert forall x <- s :: x == m || x in s - {m};
      m := if m > n then m else n;
    }
  }

  predicate IsSmallest(s: set<TaskId>, m: TaskId) {
    m in s && forall x <- s :: m <= x
  }

  predicate IsLargest(s: set<TaskId>, m: TaskId) {
    m in s && forall x <- s :: x <= m
  }

  lemma HasEnds(s: set<TaskId>)
    requires s != {}
    ensures (exists m :: IsSmallest(s, m)) && (exists m :: IsLargest(s, m))
  {
    var m := FindSmallest(s);
    assert IsSmallest(s, m);
    var n := FindLargest(s);
    assert IsLargest(s, n);
  }

  function Smallest(s: set<TaskId>): (m: TaskId)
    requires s != {}
    ensures IsSmallest(s, m)
  {
    HasEnds(s);
    var m :| m in s && IsSmallest(s, m);
    m
  }

  function Largest(s: set<TaskId>): (m: TaskId)
    requires s != {}
    ensures IsLargest(s, m)
  {
    HasEnds(s);
    var m :| m in s && IsLargest(s, m);
    m
  }

  predicate Increasing(ids: seq<TaskId>) {
    forall i, j | 0 <= i < j < |ids| :: ids[i] < ids[j]
  }

  /** The elements in the order in which a bitmap is iterated. */
  function Sorted(s: set<TaskId>): (ids: seq<TaskId>)
    ensures Increasing(ids)
    ensures forall x :: x in ids <==> x in s
    ensures |ids| == |s|
  {
    if s == {} then []
    else
      var m := Smallest(s);
      var rest := Sorted(s - {m});
      assert forall x <- rest :: m < x;
      [m] + rest
  }

  /** Every element of `high` is larger than every element of `low`. */
  ghost predicate Above(high: set<TaskId>, low: set<TaskId>) {
    forall x, y | x in high && y in low :: y < x
  }

  lemma AboveAt(high: set<TaskId>, low: set<TaskId>, x: TaskId, y: TaskId)
    requires Above(high, low) && x in high && y in low
    ensures y < x
  {
  }

  /** The `n` largest elements, as `rev().take(n)` gives them. */
  function TakeLargest(s: set<TaskId>, n: nat): (t: set<TaskId>)
    ensures t <= s
    ensures |t| == if |s| <= n then |s| else n
    ensures Above(t, s - t)
  {
    if n == 0 || s == {} then {}
    else
      var m := Largest(s);
      var rest := TakeLargest(s - {m}, n - 1);
      assert s - ({m} + rest) == s - {m} - rest;
      {m} + rest
  }

  /** There is one way to take the largest elements. */
  lemma TakeLargestUnique(s: set<TaskId>, n: nat, t: set<TaskId>)
    requires t <= s && |t| == (if |s| <= n then |s| else n)
    requires Above(t, s - t)
    ensures t == TakeLargest(s, n)
  {
    var u := TakeLargest(s, n);
    if t <= u {
      SubsetCardinality(t, u);
    } else if u <= t {
      SubsetCardinality(u, t);
    } else {
      var x :| x in t && x !in u;
      var y :| y in u && y !in t;
      AboveAt(t, s - t, x, y);
      AboveAt(u, s - u, y, x);
    }
  }

  lemma {:induction false} SubsetCardinality(a: set<TaskId>, b: set<TaskId>)
    requires a <= b
    ensures |a| <= |b|
    ensures |a| == |b| ==> a == b
  {
    if a != {} {
      var x :| x in a;
      SubsetCardinality(a - {x}, b - {x});
    }
  }
}
