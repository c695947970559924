/** Numbers that go round a fixed number of slots: slot `n % lap` belongs to number n. */
module Laps {

  /** The last of the first m numbers that belongs to slot s. */
  function Latest(lap: nat, s: nat, m: nat): (k: nat)
    requires s < lap && s < m
    ensures k < m <= k + lap && k % lap == s
    decreases m
  {
    LapBefore(lap, m - 1);
    if (m - 1) % lap == s then m - 1 else Latest(lap, s, m - 1)
  }

  lemma MultiplesAreApart(lap: nat, d: nat)
    requires d > 0
    ensures lap * d >= lap
  {
    assert lap * d == lap * (d - 1) + lap;
  }

  lemma QuotientIsUnique(lap: nat, q: int, q': int, r: nat, r': nat)
    requires r < lap && r' < lap && lap * q + r == lap * q' + r'
    ensures q == q' && r == r'
  {
    if q > q' {
      MultiplesAreApart(lap, q - q');
    } else if q < q' {
      MultiplesAreApart(lap, q' - q);
    }
  }

  /** The number a lap earlier is of the same slot. */
  lemma LapBefore(lap: nat, n: nat)
    requires lap > 0
    ensures n >= lap ==> (n - lap) % lap == n % lap
    ensures n < lap ==> n % lap == n
  {
    if n >= lap {
      var before := n - lap;
      assert lap * (before / lap + 1) + before % lap == n;
      QuotientIsUnique(lap, before / lap + 1, n / lap, before % lap, n % lap);
    } else {
      QuotientIsUnique(lap, 0, n / lap, n, n % lap);
    }
  }

  /** Numbers of one slot that are less than a lap apart are the same number. */
  lemma SameSlot(lap: nat, a: nat, b: nat)
    requires lap > 0 && a % lap == b % lap && a < b + lap && b < a + lap
    ensures a == b
  {
    assert lap * (a / lap - b / lap) == a - b;
    if a > b {
      QuotientIsUnique(lap, a / lap - b / lap, 0, 0, a - b);
    } else {
      QuotientIsUnique(lap, b / lap - a / lap, 0, 0, b - a);
    }
  }

  lemma NextInLap(lap: nat, n: nat)
    requires lap > 0
    ensures (n + 1) % lap == if n % lap == lap - 1 then 0 else n % lap + 1
    ensures (n + 1) / lap == if n % lap == lap - 1 then n / lap + 1 else n / lap
  {
    if n % lap == lap - 1 {
      assert lap * (n / lap + 1) + 0 == n + 1;
      QuotientIsUnique(lap, n / lap + 1, (n + 1) / lap, 0, (n + 1) % lap);
    } else {
      QuotientIsUnique(lap, n / lap, (n + 1) / lap, n % lap + 1, (n + 1) % lap);
    }
  }

  /** The next number is the latest of its own slot, and changes no other slot's. */
  lemma LatestOfNext(lap: nat, s: nat, n: nat)
    requires s < lap
    ensures s == n % lap ==> s < n + 1 && Latest(lap, s, n + 1) == n
    ensures s != n % lap ==> (s < n <==> s < n + 1) && (s < n ==> Latest(lap, s, n + 1) == Latest(lap, s, n))
  {
    LapBefore(lap, n);
    if s == n {
      QuotientIsUnique(lap, 0, n / lap, n, n % lap);
    }
  }
}
