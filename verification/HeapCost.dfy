/** Arithmetic behind the cost of the timer heap: how far a node can sink in a
    binary heap, and how far all nodes together can sink while a heap is built. */
module HeapCost {

  function Pow2(k: nat): (p: nat)
    ensures p >= 1
  {
    if k == 0 then 1 else 2 * Pow2(k - 1)
  }

  /** The largest d with 2^d * k <= n: the number of levels below the k-th node,
      counting nodes from 1, in a heap of n nodes. */
  function Levels(n: nat, k: nat): (d: nat)
    requires 1 <= k
    ensures k <= n ==> Pow2(d) * k <= n
    decreases if n < k then 0 else n - k
  {
    if 2 * k <= n then
      var below := Levels(n, 2 * k);
      assert Pow2(1 + below) * k == Pow2(below) * (2 * k);
      1 + below
    else
      0
  }

  lemma AtLeastOnce(p: nat, k: nat)
    requires p >= 1
    ensures p * k >= k
  {
  }

  lemma DoubledStep(d: nat, k: nat)
    requires d > 0
    ensures Pow2(d) * k == Pow2(d - 1) * (2 * k) >= 2 * k
  {
    AtLeastOnce(Pow2(d - 1), 2 * k);
    assert Pow2(d) == Pow2(d - 1) * 2;
    hide Pow2;
    Regrouped(Pow2(d - 1), k);
  }

  lemma Regrouped(p: nat, k: nat)
    ensures (p * 2) * k == p * (2 * k)
  {
  }

  /** Levels really is the largest such exponent. */
  lemma {:induction false} LevelsIsLargest(n: nat, k: nat, d: nat)
    requires 1 <= k
    requires Deep(d, k, n)
    ensures d <= Levels(n, k)
    decreases d
  {
    if d > 0 {
      DoubledStep(d, k);
      hide Pow2;
      LevelsIsLargest(n, 2 * k, d - 1);
    }
  }

  /** Node k lies at least d levels above node n: 2^d * k <= n. */
  ghost predicate Deep(d: nat, k: nat, n: nat) {
    Pow2(d) * k <= n
  }

  lemma NoLevelYet(k: nat)
    ensures Deep(0, k, k)
  {
  }

  lemma DeepInLarger(d: nat, k: nat, n: nat, m: nat)
    requires Deep(d, k, n) && n <= m
    ensures Deep(d, k, m)
  {
  }

  lemma OneLevelDown(d: nat, k: nat, n: nat, child: nat)
    requires Deep(d, k, n) && 2 * n <= child
    ensures Deep(d + 1, k, child)
  {
    assert Pow2(d + 1) * k == 2 * (Pow2(d) * k);
  }

  lemma MoreOf(p: nat, k: nat, m: nat)
    requires k <= m
    ensures p * k <= p * m
  {
  }

  lemma OneLevelUp(d: nat, k: nat, n: nat, parent: nat)
    requires Deep(d, k, n) && 2 * parent <= k
    ensures Deep(d + 1, parent, n)
  {
    DoubledStep(d + 1, parent);
    MoreOf(Pow2(d), 2 * parent, k);
  }

  lemma DeepFromRoot(d: nat, k: nat, n: nat)
    requires Deep(d, k, n) && 1 <= k
    ensures Deep(d, 1, n)
  {
    MoreOf(Pow2(d), 1, k);
  }

  /** Halving the heap takes one level off every node that has a child. */
  lemma {:induction false} LevelsHalve(n: nat, k: nat)
    requires 1 <= k
    ensures Levels(n, k) == if 2 * k <= n then 1 + Levels(n / 2, k) else 0
    decreases if n < k then 0 else n - k
  {
    if 2 * k <= n {
      LevelsHalve(n, 2 * k);
    }
  }

  /** Levels(n, lo + 1) + ... + Levels(n, hi). */
  function LevelSum(n: nat, lo: nat, hi: nat): nat
    requires lo <= hi
    decreases hi - lo
  {
    if lo == hi then 0 else Levels(n, lo + 1) + LevelSum(n, lo + 1, hi)
  }

  lemma {:induction false} LevelSumHalve(n: nat, lo: nat)
    requires lo <= n / 2
    ensures LevelSum(n, lo, n) == (n / 2 - lo) + LevelSum(n / 2, lo, n / 2)
    decreases n - lo
  {
    if lo < n / 2 {
      LevelsHalve(n, lo + 1);
      LevelSumHalve(n, lo + 1);
    } else {
      LeavesSinkNowhere(n, lo);
    }
  }

  lemma {:induction false} LeavesSinkNowhere(n: nat, lo: nat)
    requires n / 2 <= lo <= n
    ensures LevelSum(n, lo, n) == 0
    decreases n - lo
  {
    if lo < n {
      LeavesSinkNowhere(n, lo + 1);
    }
  }

  /** Building a heap of n nodes moves nodes down fewer than n levels in all. */
  lemma {:induction false} LevelSumBound(n: nat)
    requires 1 <= n
    ensures LevelSum(n, 0, n) <= n - 1
    decreases n
  {
    if n == 1 {
      LeavesSinkNowhere(1, 0);
    } else {
      LevelSumHalve(n, 0);
      LevelSumBound(n / 2);
    }
  }

  /** `swaps` is within what the nodes after the first `done` can sink in a heap
      of n nodes; in an empty heap nothing sinks. */
  ghost predicate SwapsWithin(swaps: nat, n: nat, done: nat) {
    if n == 0 then swaps == 0 else done <= n && swaps <= LevelSum(n, done, n)
  }

  lemma OneMoreNode(swaps: nat, s: nat, n: nat, k: nat)
    requires 1 <= k && SwapsWithin(swaps, n, k)
    requires n <= k ==> s == 0
    requires k - 1 < n ==> Deep(s, k, n)
    ensures SwapsWithin(swaps + s, n, k - 1)
  {
    if n > 0 {
      LevelsIsLargest(n, k, s);
    }
  }

  lemma SwapsInAll(swaps: nat, n: nat)
    requires SwapsWithin(swaps, n, 0)
    ensures swaps == 0 || swaps < n
  {
    if n > 0 {
      LevelSumBound(n);
    }
  }
}
