/**
 How much memory the indexes may map: a search for the largest size that can be mapped, and the
 split of that budget between the task database and the indexes.
*/
module MemoryBudget {
  import opened Wrappers

  /** Sizes are 64-bit in the program. */
  const SIZE_LIMIT: nat := 0x1_0000_0000_0000_0000

  /** A start that is not zero, and room to double the sizes that are tried. */
  ghost predicate Searchable(good: nat -> bool, start: nat, limit: nat) {
    (forall x | x >= limit :: !good(x)) && 2 * start < SIZE_LIMIT && 4 * limit < SIZE_LIMIT
  }

  /** What the search knows: nothing, a good size, a bad size, or both, and what it tries next. */
  ghost predicate Knows(good: nat -> bool, start: nat, limit: nat, best: Option<nat>, worst: Option<nat>, current: nat) {
    && current > 0
    && (best.Some? ==> 0 < best.value < limit && good(best.value))
    && (worst.Some? ==> 0 < worst.value && !good(worst.value) && (worst.value <= start || worst.value <= 2 * limit))
    && match (best, worst)
       case (None, None) => current == start
       case (Some(g), None) => current == 2 * g
       case (None, Some(b)) => current == b / 2
       case (Some(g), Some(b)) => g < current < b
  }

  function Phase(best: Option<nat>, worst: Option<nat>): nat {
    match (best, worst)
    case (None, None) => 2
    case (Some(_), Some(_)) => 0
    case _ => 1
  }

  function Distance(limit: nat, best: Option<nat>, worst: Option<nat>): nat {
    match (best, worst)
    case (None, None) => 0
    case (Some(g), None) => if g < limit then limit - g else 0
    case (None, Some(b)) => b
    case (Some(g), Some(b)) => if g < b then b - g else 0
  }

  lemma GoodIsBelow(good: nat -> bool, start: nat, limit: nat, x: nat)
    requires Searchable(good, start, limit) && good(x)
    ensures x < limit
  {
  }

  /** No size that the search computes leaves 64 bits. */
  lemma NoOverflow(good: nat -> bool, start: nat, limit: nat, best: Option<nat>, worst: Option<nat>, current: nat)
    requires Searchable(good, start, limit) && Knows(good, start, limit, best, worst, current)
    ensures current * 2 < SIZE_LIMIT
    ensures worst.Some? ==> current + worst.value < SIZE_LIMIT
    ensures best.Some? ==> best.value + current < SIZE_LIMIT
  {
  }

  /**
   Double while it goes well, halve while it does not, then bisect: the search ends, and finds a
   size that can be mapped next to one that cannot.  No sum or product that it computes leaves 64
   bits.
  */
  method DichotomicSearch(start: nat, good: nat -> bool, ghost limit: nat) returns (x: nat)
    requires Searchable(good, start, limit)
    ensures start > 0 ==> (x == 0 || good(x)) && !good(x + 1)
    ensures start == 0 ==> x == 0
  {
    hide Searchable;
    var biggestGood: Option<nat> := None;
    var smallestBad: Option<nat> := None;
    var current: nat := start;
    if start == 0 {
      // whatever the answer, half of nothing and twice nothing are nothing
      return 0;
    }
    while true
      invariant Knows(good, start, limit, biggestGood, smallestBad, current)
      decreases Phase(biggestGood, smallestBad), Distance(limit, biggestGood, smallestBad)
    {
      NoOverflow(good, start, limit, biggestGood, smallestBad, current);
      if good(current) {
        GoodIsBelow(good, start, limit, current);
        biggestGood := Some(current);
        if smallestBad.Some? {
          assert current + smallestBad.value < SIZE_LIMIT;
          current := (current + smallestBad.value) / 2;
        } else {
          assert current * 2 < SIZE_LIMIT;
          current := current * 2;
        }
      } else {
        smallestBad := Some(current);
        if biggestGood.Some? {
          assert biggestGood.value + current < SIZE_LIMIT;
          current := (biggestGood.value + current) / 2;
        } else {
          current := current / 2;
        }
      }
      if current == 0 {
        return 0;
      }
      if smallestBad.Some? && biggestGood.Some? && biggestGood.value >= current {
        return current;
      }
    }
  }

  datatype IndexBudget = IndexBudget(mapSize: nat, indexCount: nat, taskDbSize: nat)

  /** How many indexes fit. */
  lemma Room(budget: nat, size: nat)
    requires size > 0
    ensures (budget / size) * size <= budget < (budget / size + 1) * size
    ensures budget / size < 2 <==> budget < 2 * size
  {
    DivisionFits(budget, size);
    if budget / size < 2 {
      MulMonotone(budget / size + 1, 2, size);
    } else {
      MulMonotone(2, budget / size, size);
    }
  }

  lemma DivisionFits(n: nat, size: nat)
    requires size > 0
    ensures (n / size) * size <= n < (n / size) * size + size
  {
  }

  function ClampToPageSize(size: nat, page: nat): (r: nat)
    requires page > 0
    ensures r <= size < r + page
    ensures exists pages: nat :: r == pages * page
  {
    DivisionFits(size, page);
    size / page * page
  }

  /** The part of `index_budget` that follows the search. */
  method SplitBudget(total: nat, baseMapSize: nat, taskDb: nat, maxIndexCount: nat, page: nat) returns (b: IndexBudget)
    requires page > 0 && baseMapSize > 0
    ensures (b.indexCount + 1) * b.mapSize + b.taskDbSize <= total / 2
    ensures b.taskDbSize <= taskDb
    ensures b.indexCount <= maxIndexCount || b.indexCount == 1
    ensures b.mapSize == baseMapSize || b.indexCount == 1
    // the task database keeps its size unless it takes more than half of the budget; then it gets two fifths, in pages
    ensures taskDb <= total / 2 / 2 ==> b.taskDbSize == taskDb
    ensures taskDb > total / 2 / 2 ==>
      b.taskDbSize <= total / 2 * 2 / 5 < b.taskDbSize + page && exists pages: nat :: b.taskDbSize == pages * page
    // with room for two indexes there are as many as fit, but one, up to the maximum; otherwise one, of two fifths
    ensures total / 2 - b.taskDbSize >= 2 * baseMapSize ==>
      && b.mapSize == baseMapSize && b.indexCount <= maxIndexCount
      && (b.indexCount < maxIndexCount ==> total / 2 - b.taskDbSize < (b.indexCount + 2) * baseMapSize)
    ensures total / 2 - b.taskDbSize < 2 * baseMapSize ==>
      b.indexCount == 1 && b.mapSize == (total / 2 - b.taskDbSize) * 2 / 5
  {
    var taskDbSize := taskDb;
    var budget := total / 2;
    if taskDbSize > budget / 2 {
      taskDbSize := ClampToPageSize(budget * 2 / 5, page);
    }
    budget := budget - taskDbSize;
    var indexCount := budget / baseMapSize;
    Room(budget, baseMapSize);
    if indexCount < 2 {
      return IndexBudget(budget * 2 / 5, 1, taskDbSize);
    }
    indexCount := indexCount - 1;
    if indexCount > maxIndexCount {
      MulMonotone(maxIndexCount + 1, indexCount + 1, baseMapSize);
      indexCount := maxIndexCount;
    }
    return IndexBudget(baseMapSize, indexCount, taskDbSize);
  }

  lemma {:induction false} MulMonotone(a: nat, b: nat, m: nat)
    requires a <= b
    ensures a * m <= b * m
  {
    if a < b {
      MulMonotone(a, b - 1, m);
      assert b * m == (b - 1) * m + m;
    }
  }
}
