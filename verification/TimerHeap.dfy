/** The timer heap of src/Timer.cc: an array binary heap ordered by expiry time,
    with hole-based sift-up, swap-based sift-down, heapify, doubling and tick. */
module TimerHeaps {
  import opened HeapCost

  /** A `Timer *`: the null pointer, or a timer. A callback of 0 is the null
      function pointer. */
  datatype TimerPtr = Null | Timer(expire: int, callback: nat, args: nat)

  // ---------- heap order on sequences ----------

  ghost predicate Filled(a: seq<TimerPtr>) {
    forall i | 0 <= i < |a| :: a[i].Timer?
  }

  /** Node c (not the root) expires no earlier than node p. */
  ghost predicate NotBefore(a: seq<TimerPtr>, p: nat, c: nat)
    requires Filled(a)
    requires p < |a| && c < |a|
  {
    a[p].expire <= a[c].expire
  }

  /** Every node is no earlier than its parent, for parents at or after `lo`
      other than `skip`. */
  ghost predicate OrderedExcept(a: seq<TimerPtr>, lo: nat, skip: int)
    requires Filled(a)
  {
    forall p: nat, c: nat {:trigger NotBefore(a, p, c)} |
      lo <= p < c < |a| && (c == 2 * p + 1 || c == 2 * p + 2) && p != skip :: NotBefore(a, p, c)
  }

  ghost predicate OrderedFrom(a: seq<TimerPtr>, lo: nat)
    requires Filled(a)
  {
    OrderedExcept(a, lo, -1)
  }

  ghost predicate IsHeap(a: seq<TimerPtr>) {
    Filled(a) && OrderedFrom(a, 0)
  }

  /** The children of node h are no earlier than h's parent, when that parent is
      at or after `lo`. */
  ghost predicate Bridged(a: seq<TimerPtr>, lo: nat, h: nat)
    requires Filled(a)
  {
    forall p: nat, c: nat {:trigger NotBefore(a, p, c)} |
      lo <= p < h < c < |a| && (h == 2 * p + 1 || h == 2 * p + 2) && (c == 2 * h + 1 || c == 2 * h + 2) ::
      NotBefore(a, p, c)
  }

  /** A node at `h` on its way down: order from `lo` on holds except between h
      and its children. */
  ghost predicate Sinking(a: seq<TimerPtr>, lo: nat, h: nat) {
    Filled(a) && lo <= h && OrderedExcept(a, lo, h) && Bridged(a, lo, h)
  }

  /** c is a child of h, and no child of h is earlier. */
  ghost predicate LeastChildOf(a: seq<TimerPtr>, h: nat, c: nat)
    requires Filled(a)
  {
    && h < c < |a| && (c == 2 * h + 1 || c == 2 * h + 2)
    && a[c].expire <= a[2 * h + 1].expire
    && (2 * h + 2 < |a| ==> a[c].expire <= a[2 * h + 2].expire)
  }

  /** Sorted by expiry, earliest first. */
  ghost predicate Sorted(a: seq<TimerPtr>) {
    Filled(a) && forall i, j | 0 <= i < j < |a| :: a[i].expire <= a[j].expire
  }

  /** C's (i - 1) / 2, which truncates toward zero: the parent of 0 is 0. */
  function ParentOf(i: nat): nat {
    if i == 0 then 0 else (i - 1) / 2
  }

  /** The root of a heap expires no later than any other node. */
  lemma {:induction false} RootIsEarliest(a: seq<TimerPtr>, i: nat)
    requires IsHeap(a) && i < |a|
    ensures a[0].expire <= a[i].expire
    decreases i
  {
    if i > 0 {
      assert NotBefore(a, (i - 1) / 2, i);
      RootIsEarliest(a, (i - 1) / 2);
    }
  }

  function Swap(s: seq<TimerPtr>, i: nat, j: nat): (r: seq<TimerPtr>)
    requires i < |s| && j < |s|
    ensures |r| == |s|
  {
    s[i := s[j]][j := s[i]]
  }

  lemma SwapKeepsBag(s: seq<TimerPtr>, i: nat, j: nat)
    requires i < |s| && j < |s| && i != j
    ensures multiset(Swap(s, i, j)) == multiset(s)
  {
  }

  lemma BagOfAppend(s: seq<TimerPtr>, t: TimerPtr)
    ensures multiset(s + [t]) == multiset(s) + multiset{t}
  {
  }

  /** One round of percolate_down: `c` is a least child of `h` and precedes it. */
  lemma SinkStep(a: seq<TimerPtr>, lo: nat, h: nat, c: nat)
    requires Sinking(a, lo, h) && LeastChildOf(a, h, c)
    requires a[c].expire < a[h].expire
    ensures Sinking(Swap(a, h, c), lo, c)
    ensures multiset(Swap(a, h, c)) == multiset(a)
  {
    SwapKeepsBag(a, h, c);
    var b := Swap(a, h, c);
    forall p: nat, d: nat | lo <= p < d < |b| && (d == 2 * p + 1 || d == 2 * p + 2) && p != c
      ensures NotBefore(b, p, d)
    {
      if p != h {
        assert NotBefore(a, p, d);
        if d == h {
          assert NotBefore(a, p, c);
        }
      }
    }
    forall p: nat, d: nat |
      lo <= p < c < d < |b| && (c == 2 * p + 1 || c == 2 * p + 2) && (d == 2 * c + 1 || d == 2 * c + 2)
      ensures NotBefore(b, p, d)
    {
      assert p == h;
      assert NotBefore(a, c, d);
    }
  }

  /** percolate_down stops: both children of `h` are no earlier than it. */
  lemma SinkDone(a: seq<TimerPtr>, lo: nat, h: nat)
    requires Sinking(a, lo, h)
    requires 2 * h + 1 < |a| ==> a[h].expire <= a[2 * h + 1].expire
    requires 2 * h + 2 < |a| ==> a[h].expire <= a[2 * h + 2].expire
    ensures OrderedFrom(a, lo)
  {
    forall p: nat, d: nat | lo <= p < d < |a| && (d == 2 * p + 1 || d == 2 * p + 2)
      ensures NotBefore(a, p, d)
    {
      if p != h {
        assert NotBefore(a, p, d);
      }
    }
  }

  lemma SinkStart(a: seq<TimerPtr>, lo: nat)
    requires Filled(a) && OrderedFrom(a, lo + 1)
    ensures Sinking(a, lo, lo)
  {
    forall p: nat, d: nat | lo <= p < d < |a| && (d == 2 * p + 1 || d == 2 * p + 2) && p != lo
      ensures NotBefore(a, p, d)
    {
    }
  }

  /** A timer at `h` on its way up: order holds except between h and its parent. */
  ghost predicate Climbing(a: seq<TimerPtr>, h: nat) {
    && Filled(a) && h < |a|
    && Bridged(a, 0, h)
    && (forall p: nat, c: nat {:trigger NotBefore(a, p, c)} |
          p < c < |a| && (c == 2 * p + 1 || c == 2 * p + 2) && c != h :: NotBefore(a, p, c))
  }

  lemma ClimbStart(a: seq<TimerPtr>, t: TimerPtr)
    requires IsHeap(a) && t.Timer?
    ensures Climbing(a + [t], |a|)
  {
    var b := a + [t];
    forall p: nat, c: nat | p < c < |b| && (c == 2 * p + 1 || c == 2 * p + 2) && c != |a|
      ensures NotBefore(b, p, c)
    {
      assert NotBefore(a, p, c);
    }
  }

  /** Before the loop the hole is the new last slot. */
  lemma ClimbBegins(slots: seq<TimerPtr>, n: nat, t: TimerPtr)
    requires |slots| == n + 1 && IsHeap(slots[..n]) && t.Timer?
    ensures var a := slots[..n] + [t];
            && |a| == n + 1 && a[n] == t && HoleAt(slots, a, n) && Climbing(a, n)
            && multiset(a) == multiset(slots[..n]) + multiset{t}
  {
    hide IsHeap, Climbing;
    BagOfAppend(slots[..n], t);
    ClimbStart(slots[..n], t);
  }

  /** The array agrees with `a` everywhere but at the hole. */
  ghost predicate HoleAt(slots: seq<TimerPtr>, a: seq<TimerPtr>, hole: nat) {
    |slots| == |a| && hole < |a| && forall i | 0 <= i < |a| && i != hole :: slots[i] == a[i]
  }

  lemma HoleMoves(slots: seq<TimerPtr>, a: seq<TimerPtr>, parent: nat, hole: nat)
    requires parent < hole && HoleAt(slots, a, hole)
    ensures HoleAt(slots[hole := slots[parent]], Swap(a, parent, hole), parent)
    ensures Swap(a, parent, hole)[parent] == a[hole]
  {
  }

  lemma HoleFilled(slots: seq<TimerPtr>, a: seq<TimerPtr>, hole: nat)
    requires HoleAt(slots, a, hole)
    ensures slots[hole := a[hole]] == a
  {
  }

  lemma ClimbingAreTimers(a: seq<TimerPtr>, h: nat, k: nat)
    requires Climbing(a, h) && k < |a|
    ensures a[k].Timer?
  {
  }

  lemma ClimbStep(a: seq<TimerPtr>, h: nat)
    requires 0 < h && Climbing(a, h) && a[(h - 1) / 2].expire > a[h].expire
    ensures Climbing(Swap(a, (h - 1) / 2, h), (h - 1) / 2)
    ensures multiset(Swap(a, (h - 1) / 2, h)) == multiset(a)
  {
    var q := (h - 1) / 2;
    SwapKeepsBag(a, q, h);
    var b := Swap(a, q, h);
    forall p: nat, c: nat | p < c < |b| && (c == 2 * p + 1 || c == 2 * p + 2) && c != q
      ensures NotBefore(b, p, c)
    {
      if c != h {
        assert NotBefore(a, p, c);
        if p == h {
          assert NotBefore(a, q, c);
        }
      }
    }
    forall p: nat, c: nat | p < q < c < |b| && (q == 2 * p + 1 || q == 2 * p + 2) && (c == 2 * q + 1 || c == 2 * q + 2)
      ensures NotBefore(b, p, c)
    {
      assert NotBefore(a, p, q);
      if c != h {
        assert NotBefore(a, q, c);
      }
    }
  }

  lemma ClimbDone(a: seq<TimerPtr>, h: nat)
    requires Climbing(a, h) && (h == 0 || a[(h - 1) / 2].expire <= a[h].expire)
    ensures IsHeap(a)
  {
    forall p: nat, c: nat | p < c < |a| && (c == 2 * p + 1 || c == 2 * p + 2)
      ensures NotBefore(a, p, c)
    {
      if c != h {
        assert NotBefore(a, p, c);
      }
    }
  }

  function LastAtRoot(a: seq<TimerPtr>): (b: seq<TimerPtr>)
    requires 0 < |a|
    ensures |b| == |a| - 1
  {
    a[0 := a[|a| - 1]][..|a| - 1]
  }

  /** pop's move of the last node to the root takes exactly the root away and
      leaves order below the root. */
  lemma LastToRoot(a: seq<TimerPtr>)
    requires IsHeap(a) && 0 < |a|
    ensures Filled(LastAtRoot(a)) && OrderedFrom(LastAtRoot(a), 1)
    ensures multiset(LastAtRoot(a)) == multiset(a) - multiset{a[0]}
  {
    var n := |a| - 1;
    var b := LastAtRoot(a);
    assert a == a[..n] + [a[n]];
    if n == 0 {
      assert a == [a[0]];
    } else {
      assert a[..n] == [a[0]] + a[1..n];
      assert b == [a[n]] + a[1..n];
    }
    forall p: nat, c: nat | 1 <= p < c < |b| && (c == 2 * p + 1 || c == 2 * p + 2)
      ensures NotBefore(b, p, c)
    {
      assert NotBefore(a, p, c);
    }
  }

  lemma EarliestOfBag(a: seq<TimerPtr>)
    requires IsHeap(a) && 0 < |a|
    ensures a[0] in multiset(a)
    ensures forall u | u in multiset(a) :: u.Timer? && a[0].expire <= u.expire
  {
    forall u | u in multiset(a)
      ensures u.Timer? && a[0].expire <= u.expire
    {
      assert u in a;
      var i :| 0 <= i < |a| && a[i] == u;
      RootIsEarliest(a, i);
    }
  }

  // ---------- what tick does, on bags ----------

  /** Whether tick at time `now` runs a callback for t. */
  predicate Fires(t: TimerPtr, now: int) {
    t.Timer? && t.expire <= now && t.callback != 0
  }

  /** Of `before` copies of t, `left` remain and `fired` ran: nothing unexpired is
      missing, and what is missing ran if it had a callback. */
  ghost predicate Accounted(t: TimerPtr, before: nat, left: nat, fired: nat, now: int) {
    && left <= before
    && (t.Timer? && t.expire > now ==> left == before)
    && fired == if Fires(t, now) then before - left else 0
  }

  /** Everything that ran expires no later than everything left. */
  ghost predicate AllBefore(ran: seq<TimerPtr>, left: multiset<TimerPtr>) {
    forall r, u | r in ran && u in left :: r.Timer? && u.Timer? && r.expire <= u.expire
  }

  ghost predicate TickedTo(before: multiset<TimerPtr>, left: multiset<TimerPtr>, ran: seq<TimerPtr>, now: int) {
    && Sorted(ran) && AllBefore(ran, left)
    && (forall t {:trigger left[t]} {:trigger multiset(ran)[t]} ::
          Accounted(t, before[t], left[t], multiset(ran)[t], now))
  }

  /** One timer's account when one of them is taken and t is run. */
  lemma AccountStep(u: TimerPtr, before: nat, left: nat, fired: nat, now: int, taken: nat, run: nat)
    requires Accounted(u, before, left, fired, now) && taken <= left && run == if Fires(u, now) then taken else 0
    requires taken > 0 ==> u.Timer? && u.expire <= now
    ensures Accounted(u, before, left - taken, fired + run, now)
  {
  }

  /** What ran, and t after it, is in order and no later than what is left behind t. */
  lemma RanInOrder(left: multiset<TimerPtr>, ran: seq<TimerPtr>, t: TimerPtr, fired: seq<TimerPtr>)
    requires Sorted(ran) && AllBefore(ran, left)
    requires t in left && t.Timer? && (fired == [] || fired == [t])
    requires forall u | u in left :: u.Timer? && t.expire <= u.expire
    ensures Sorted(ran + fired) && AllBefore(ran + fired, left - multiset{t})
  {
  }

  /** tick runs t's callback, if it has one, and pops t. */
  lemma TickStep(before: multiset<TimerPtr>, left: multiset<TimerPtr>, ran: seq<TimerPtr>, now: int, t: TimerPtr)
    requires TickedTo(before, left, ran, now)
    requires t in left && t.Timer? && t.expire <= now
    requires forall u | u in left :: u.Timer? && t.expire <= u.expire
    ensures TickedTo(before, left - multiset{t}, ran + if t.callback != 0 then [t] else [], now)
  {
    var fired := if t.callback != 0 then [t] else [];
    RanInOrder(left, ran, t, fired);
    hide Sorted, AllBefore, Accounted;
    forall u
      ensures Accounted(u, before[u], (left - multiset{t})[u], multiset(ran + fired)[u], now)
    {
      assert multiset(ran + fired)[u] == multiset(ran)[u] + multiset(fired)[u];
      AccountStep(u, before[u], left[u], multiset(ran)[u], now, multiset{t}[u], multiset(fired)[u]);
    }
  }

  // ---------- the class ----------

  class TimerHeap {
    var heap: array<TimerPtr>
    var capacity: nat
    var curSize: nat
    ghost var adds: nat      // timers ever put in the heap
    ghost var copied: nat    // pointers copied by all resizes so far
    ghost const startCapacity: nat

    ghost predicate Sized()
      reads this, heap
    {
      && startCapacity <= capacity == heap.Length
      && curSize <= capacity
      && Filled(heap[..curSize])
    }

    /** The doubling account: what was copied is exactly the growth, and the heap
        outgrew its first capacity only after more than half as many adds. */
    ghost predicate CostAccount()
      reads this
    {
      && curSize <= adds
      && copied + startCapacity == capacity
      && (startCapacity < capacity ==> capacity + 2 <= 2 * adds)
    }

    ghost predicate Valid()
      reads this, heap
    {
      Sized() && IsHeap(heap[..curSize]) && CostAccount()
    }

    ghost function Nodes(): seq<TimerPtr>
      reads this, heap
      requires Sized()
    {
      heap[..curSize]
    }

    ghost function Bag(): multiset<TimerPtr>
      reads this, heap
      requires Sized()
    {
      multiset(Nodes())
    }

    /** An empty heap whose slots are all null. */
    constructor (cap: nat)
      ensures Valid() && fresh(heap) && capacity == startCapacity == cap
      ensures Nodes() == [] && adds == 0
      ensures forall k | 0 <= k < cap :: heap[k] == Null
    {
      heap := new TimerPtr[cap](_ => Null);
      capacity, curSize := cap, 0;
      adds, copied, startCapacity := 0, 0, cap;
    }

    /** Allocation and copy of the second constructor, before the heap is built.
        The slots past the given timers are left as they are. */
    constructor Copying(init: seq<TimerPtr>, cap: nat)
      requires |init| <= cap && Filled(init)
      ensures Sized() && CostAccount() && fresh(heap) && capacity == startCapacity == cap
      ensures Nodes() == init && adds == |init|
    {
      var a := new TimerPtr[cap];
      for i := 0 to |init|
        invariant a[..i] == init[..i]
      {
        a[i] := init[i];
      }
      heap := a;
      capacity, curSize := cap, |init|;
      adds, copied, startCapacity := |init|, 0, cap;
    }

    /** The second constructor: throws (null here) when the timers do not fit. */
    static method FromArray(init: seq<TimerPtr>, cap: nat) returns (h: TimerHeap?, ghost swaps: nat)
      requires Filled(init)
      ensures h == null <==> cap < |init|
      ensures h != null ==> fresh(h) && fresh(h.heap) && h.Valid() && h.capacity == cap
      ensures h != null ==> h.Bag() == multiset(init) && h.adds == |init|
      ensures swaps == 0 || swaps < |init|
    {
      swaps := 0;
      if cap < |init| {
        return null, 0;
      }
      h := new TimerHeap.Copying(init, cap);
      if |init| != 0 {
        swaps := h.Heapify();
      } else {
        assert h.heap[..h.curSize] == [];
      }
    }

    /** std::swap on two slots. */
    method SwapSlots(i: nat, j: nat)
      requires curSize <= heap.Length && i < curSize && j < curSize
      modifies heap
      ensures heap[..curSize] == Swap(old(heap[..curSize]), i, j)
    {
      heap[i], heap[j] := heap[j], heap[i];
    }

    /** The child of `hole` that percolate_down compares with it. */
    method LeastChild(hole: nat) returns (child: nat)
      requires curSize <= heap.Length && Filled(heap[..curSize])
      requires 2 * hole + 1 < curSize
      ensures LeastChildOf(heap[..curSize], hole, child)
    {
      ghost var a := heap[..curSize];
      assert forall i | 0 <= i < curSize :: heap[i] == a[i];
      child := 2 * hole + 1;
      if child + 1 < curSize && heap[child + 1].expire < heap[child].expire {
        child := child + 1;
      }
    }

    /** One round of percolate_down's loop: either the hole's timer trades places
        with its least child, or it already precedes both children. */
    method SinkOnce(ghost start: nat, hole: nat) returns (child: nat, moved: bool)
      requires curSize <= heap.Length && 2 * hole + 1 < curSize
      requires Sinking(heap[..curSize], start, hole)
      modifies heap
      ensures multiset(heap[..curSize]) == multiset(old(heap[..curSize]))
      ensures 2 * hole < child < curSize
      ensures moved ==> Sinking(heap[..curSize], start, child)
      ensures !moved ==> Filled(heap[..curSize]) && OrderedFrom(heap[..curSize], start)
    {
      ghost var a := heap[..curSize];
      child := LeastChild(hole);
      assert heap[child] == a[child] && heap[hole] == a[hole];
      moved := heap[child].expire < heap[hole].expire;
      if moved {
        SinkStep(a, start, hole, child);
        SwapSlots(hole, child);
      } else {
        SinkDone(a, start, hole);
      }
    }

    /** percolate_down(start). Returns how many swaps it made. */
    method PercolateDown(start: nat) returns (ghost swaps: nat)
      requires curSize <= heap.Length && Filled(heap[..curSize])
      requires OrderedFrom(heap[..curSize], start + 1)
      modifies heap
      ensures Filled(heap[..curSize]) && OrderedFrom(heap[..curSize], start)
      ensures multiset(heap[..curSize]) == multiset(old(heap[..curSize]))
      ensures curSize <= start + 1 ==> swaps == 0
      ensures start < curSize ==> Deep(swaps, start + 1, curSize)
    {
      hide Deep, OrderedExcept, Bridged, Filled;
      var hole := start;
      swaps := 0;
      SinkStart(heap[..curSize], start);
      NoLevelYet(start + 1);
      while 2 * hole + 1 < curSize
        invariant start <= hole
        invariant Sinking(heap[..curSize], start, hole)
        invariant multiset(heap[..curSize]) == multiset(old(heap[..curSize]))
        invariant Deep(swaps, start + 1, hole + 1)
        invariant if swaps == 0 then hole == start else start < hole < curSize
        decreases curSize - hole
      {
        if hole < curSize { DeepInLarger(swaps, start + 1, hole + 1, curSize); }
        var child, moved := SinkOnce(start, hole);
        if !moved {
          return;
        }
        OneLevelDown(swaps, start + 1, hole + 1, child + 1);
        swaps := swaps + 1;
        hole := child;
      }
      if hole < curSize { DeepInLarger(swaps, start + 1, hole + 1, curSize); }
      SinkDone(heap[..curSize], start, hole);
    }

    /** The pass both the second constructor and del_timer make, from the last
        parent back to the root. */
    method Heapify() returns (ghost swaps: nat)
      requires curSize <= heap.Length && Filled(heap[..curSize])
      modifies heap
      ensures IsHeap(heap[..curSize]) && multiset(heap[..curSize]) == multiset(old(heap[..curSize]))
      ensures swaps == 0 || swaps < curSize
    {
      swaps := 0;
      HeapifyStart(heap[..curSize]);
      for i := ParentOf(curSize) + 1 downto 0
        invariant Filled(heap[..curSize]) && OrderedFrom(heap[..curSize], i)
        invariant multiset(heap[..curSize]) == multiset(old(heap[..curSize]))
        invariant SwapsWithin(swaps, curSize, i)
      {
        var s := PercolateDown(i);
        OneMoreNode(swaps, s, curSize, i + 1);
        swaps := swaps + s;
      }
      SwapsInAll(swaps, curSize);
    }

    /** resize(): doubles the array and clears the new slots. */
    method Resize()
      requires Sized() && curSize == capacity
      modifies this`heap, this`capacity, this`copied
      ensures fresh(heap) && heap.Length == capacity == 2 * old(capacity)
      ensures heap[..curSize] == old(heap[..curSize])
      ensures forall k | curSize <= k < capacity :: heap[k] == Null
      ensures copied == old(copied) + curSize
    {
      var tmp := new TimerPtr[2 * capacity](_ => Null);
      capacity := 2 * capacity;
      for i := 0 to curSize
        invariant tmp[..i] == heap[..i]
        invariant forall k | i <= k < tmp.Length :: tmp[k] == Null
        modifies tmp
      {
        tmp[i] := heap[i];
      }
      copied := copied + curSize;
      heap := tmp;
    }

    /** One round of the sift-up loop, for a heap that will be `a` once the timer drops
        into the hole: either the parent is copied into the hole, or it precedes the timer. */
    method ClimbOnce(ghost a: seq<TimerPtr>, hole: nat, timer: TimerPtr)
      returns (parent: nat, moved: bool, ghost b: seq<TimerPtr>)
      requires curSize <= heap.Length && timer.Timer?
      requires 0 < hole && HoleAt(heap[..curSize], a, hole) && Climbing(a, hole) && a[hole] == timer
      modifies heap
      ensures 2 * (parent + 1) <= hole + 1 && multiset(b) == multiset(a)
      ensures moved ==> HoleAt(heap[..curSize], b, parent) && Climbing(b, parent) && b[parent] == timer
      ensures !moved ==> heap[..curSize] == old(heap[..curSize]) && IsHeap(a)
    {
      hide Climbing, IsHeap, Filled;
      parent, b := (hole - 1) / 2, a;
      ghost var slots := heap[..curSize];
      ClimbingAreTimers(a, hole, parent);
      assert heap[parent] == slots[parent] == a[parent];
      moved := heap[parent].expire > timer.expire;
      if moved {
        ClimbStep(a, hole);
        heap[hole] := heap[parent];
        b := Swap(a, parent, hole);
        hide HoleAt, Swap;
        assert heap[..curSize] == slots[hole := slots[parent]];
        HoleMoves(slots, a, parent, hole);
      } else {
        ClimbDone(a, hole);
      }
    }

    /** The sift-up loop of add_timer: the hole starts at the new last slot. Returns how
        many pointers it copied, at most one a level. */
    method SiftUp(timer: TimerPtr) returns (ghost copies: nat)
      requires timer.Timer? && 0 < curSize <= heap.Length
      requires IsHeap(heap[..curSize - 1])
      modifies heap
      ensures IsHeap(heap[..curSize])
      ensures multiset(heap[..curSize]) == multiset(old(heap[..curSize - 1])) + multiset{timer}
      ensures Deep(copies, 1, curSize)
    {
      hide Deep, Climbing, IsHeap, Filled, HoleAt;
      var hole: nat := curSize - 1;
      copies := 0;
      NoLevelYet(curSize);
      assert heap[..curSize][..hole] == heap[..hole];
      ClimbBegins(heap[..curSize], hole, timer);
      ghost var a := heap[..hole] + [timer];
      ghost var bag := multiset(a);
      while hole > 0
        invariant HoleAt(heap[..curSize], a, hole) && |a| == curSize && hole < curSize && a[hole] == timer
        invariant Climbing(a, hole) && multiset(a) == bag
        invariant Deep(copies, hole + 1, curSize)
        decreases hole
      {
        var parent, moved;
        ghost var b;
        parent, moved, b := ClimbOnce(a, hole, timer);
        if !moved {
          break;
        }
        OneLevelUp(copies, hole + 1, curSize, parent + 1);
        copies := copies + 1;
        a, hole := b, parent;
      }
      if hole == 0 { ClimbDone(a, hole); }
      DeepFromRoot(copies, hole + 1, curSize);
      HoleFilled(heap[..curSize], a, hole);
      ghost var slots := heap[..curSize];
      heap[hole] := timer;
      assert heap[..curSize] == slots[hole := timer];
    }

    /** add_timer: ignores null; otherwise the heap gains exactly this timer. A heap made
        with capacity 0 cannot take one: doubling leaves it without a slot. */
    method AddTimer(timer: TimerPtr) returns (ghost copies: nat)
      requires Valid() && (timer.Null? || capacity >= 1)
      modifies this`heap, this`capacity, this`curSize, this`adds, this`copied, heap
      ensures Valid() && (heap == old(heap) || fresh(heap))
      ensures timer.Null? ==> Nodes() == old(Nodes()) && adds == old(adds) && copied == old(copied)
      ensures timer.Timer? ==> Bag() == old(Bag()) + multiset{timer} && adds == old(adds) + 1
      ensures capacity >= old(capacity) && (copied == 0 || copied < 2 * adds)
      ensures if timer.Null? then copies == 0 else Deep(copies, 1, curSize)
    {
      hide Deep;
      copies := 0;
      if timer.Null? {
        return;
      }
      if curSize >= capacity {
        Resize();
      }
      curSize := curSize + 1;
      adds := adds + 1;
      copies := SiftUp(timer);
    }

    /** del_timer: removes nothing; it only rebuilds the heap. */
    method DelTimer(timer: TimerPtr) returns (ghost swaps: nat)
      requires Valid()
      modifies heap
      ensures Valid() && Bag() == old(Bag())
      ensures timer.Null? ==> Nodes() == old(Nodes()) && swaps == 0
      ensures swaps == 0 || swaps < curSize
    {
      swaps := 0;
      if timer.Null? {
        return;
      }
      swaps := Heapify();
    }

    /** top(): null when empty, otherwise a timer no other timer precedes. */
    method Top() returns (t: TimerPtr)
      requires Valid()
      ensures t.Null? <==> curSize == 0
      ensures t.Timer? ==> t in Bag() && forall u | u in Bag() :: u.Timer? && t.expire <= u.expire
    {
      if curSize == 0 {
        return Null;
      }
      EarliestOfBag(heap[..curSize]);
      t := heap[0];
    }

    method MoveLastToRoot()
      requires curSize < heap.Length
      modifies heap
      ensures heap[..curSize] == LastAtRoot(old(heap[..curSize + 1]))
    {
      ghost var b := LastAtRoot(heap[..curSize + 1]);
      heap[0] := heap[curSize];
      assert forall i | 0 <= i < curSize :: heap[i] == b[i];
    }

    /** pop(): removes the root, an earliest timer; no effect when empty. */
    method Pop()
      requires curSize <= heap.Length && IsHeap(heap[..curSize])
      modifies heap, this`curSize
      ensures curSize <= heap.Length && IsHeap(heap[..curSize])
      ensures old(curSize) == 0 ==> curSize == 0
      ensures old(curSize) > 0 ==> curSize == old(curSize) - 1
      ensures old(curSize) > 0 ==>
                multiset(heap[..curSize]) == multiset(old(heap[..curSize])) - multiset{old(heap[..curSize][0])}
    {
      if curSize == 0 {
        return;
      }
      ghost var a := heap[..curSize];
      assert heap[0] == a[0];
      if heap[0].Timer? {
        LastToRoot(a);
        curSize := curSize - 1;
        MoveLastToRoot();
        var s := PercolateDown(0);
      }
    }

    /** tick() at time `now`, for callbacks that leave the heap alone: returns the
        timers whose callbacks ran, in the order they ran. Exactly the expired
        ones with a callback ran, earliest first, and exactly the unexpired stay. */
    method Tick(now: int) returns (ran: seq<TimerPtr>)
      requires Valid() && capacity >= 1
      modifies heap, this`curSize
      ensures Valid()
      ensures Sorted(ran)
      ensures forall t :: multiset(ran)[t] == if Fires(t, now) then old(Bag())[t] else 0
      ensures forall t :: Bag()[t] == if t.Timer? && t.expire > now then old(Bag())[t] else 0
    {
      ran := [];
      ghost var before := Bag();
      var tmp := heap[0];
      while curSize != 0
        invariant curSize <= heap.Length && IsHeap(heap[..curSize])
        invariant curSize <= adds && tmp == heap[0]
        invariant TickedTo(before, multiset(heap[..curSize]), ran, now)
        decreases curSize
      {
        EarliestOfBag(heap[..curSize]);
        if tmp.Null? {
          break;
        }
        if tmp.expire > now {
          break;
        }
        TickStep(before, multiset(heap[..curSize]), ran, now, tmp);
        ran := ran + if heap[0].callback != 0 then [heap[0]] else [];
        Pop();
        tmp := heap[0];
      }
      TickEnd(heap[..curSize], now);
    }
  }

  /** When the loop stops, nothing expired is left. */
  lemma TickEnd(a: seq<TimerPtr>, now: int)
    requires IsHeap(a) && (a == [] || a[0].expire > now)
    ensures forall t :: multiset(a)[t] > 0 ==> t.Timer? && t.expire > now
  {
    if a != [] {
      EarliestOfBag(a);
    }
  }

  /** Nodes past the last parent have no children. */
  lemma HeapifyStart(a: seq<TimerPtr>)
    requires Filled(a)
    ensures OrderedFrom(a, ParentOf(|a|) + 1)
    ensures SwapsWithin(0, |a|, ParentOf(|a|) + 1)
  {
    if |a| > 0 {
      LeavesSinkNowhere(|a|, ParentOf(|a|) + 1);
    }
  }
}
