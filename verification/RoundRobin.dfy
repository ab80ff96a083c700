/** Taking turns: the arithmetic of `next_ = (next_ + 1) % n` and how often each turn comes. */
module RoundRobin {
  lemma AtLeastOnce(k: int, m: nat)
    requires k >= 1
    ensures k * m >= m
  {
  }

  /** Quotient and remainder are unique. */
  lemma RemainderIs(x: nat, q: nat, r: nat, m: nat)
    requires r < m && x == q * m + r
    ensures x % m == r && x / m == q
  {
    var d := x / m - q;
    assert x == (x / m) * m + x % m;
    assert d * m == (x / m) * m - q * m;
    assert (-d) * m == -(d * m);
    if d >= 1 {
      AtLeastOnce(d, m);
    } else if d <= -1 {
      AtLeastOnce(-d, m);
    }
  }

  /** Counting up and wrapping around is the remainder of the count. */
  lemma TurnsGoRound(c: nat, m: nat)
    requires m > 0
    ensures (c % m + 1) % m == (c + 1) % m
    ensures (c + 1) / m == c / m + (if c % m + 1 == m then 1 else 0)
  {
    assert c == (c / m) * m + c % m;
    if c % m + 1 == m {
      assert c + 1 == (c / m + 1) * m + 0;
      RemainderIs(c + 1, c / m + 1, 0, m);
      RemainderIs(m, 1, 0, m);
    } else {
      RemainderIs(c + 1, c / m, c % m + 1, m);
      RemainderIs(c % m + 1, 0, c % m + 1, m);
    }
  }

  /** How many of the calls 0 .. k-1 fall on turn `i` when `m` take turns. */
  function TurnsOf(i: nat, k: nat, m: nat): nat
    requires m > 0
  {
    if k == 0 then 0 else TurnsOf(i, k - 1, m) + if (k - 1) % m == i then 1 else 0
  }

  /** Turns are shared out evenly: everyone has had k / m of them, the first k % m one more. */
  lemma {:induction false} TurnsAreEven(i: nat, k: nat, m: nat)
    requires i < m
    ensures TurnsOf(i, k, m) == k / m + if i < k % m then 1 else 0
  {
    if k == 0 {
      RemainderIs(0, 0, 0, m);
    } else {
      TurnsAreEven(i, k - 1, m);
      TurnsGoRound(k - 1, m);
      if (k - 1) % m + 1 == m {
        RemainderIs(m, 1, 0, m);
      } else {
        RemainderIs((k - 1) % m + 1, 0, (k - 1) % m + 1, m);
      }
    }
  }
}
