/** Router sizing (`isValid`, `findMinCostForX`, `findOptimalNoOfRouters`): per site, the
    cheapest numbers of tier-1 routers n and tier-2 routers m, and the number x of each
    tier-1 router's eight small ports kept for customers, such that 16n + 32m + 3nx >= rhs,
    where rhs = demand/100 + 4 * customers and the cost is 250n + 350m watts.

    `rhs` is a real number in the source. Every comparison it takes part in has an integer
    on the other side, so the model carries two integers instead: `need`, the ceiling of
    rhs, for the capacity test, and `bound`, the floor of rhs, for the search ranges
    [0, rhs]. The lemmas at the end of this module show that this changes no outcome. */
module Sizing {
  import opened Records

  /** `isValid`: n tier-1 and m tier-2 routers with x reserved ports meet the target. */
  predicate IsValid(n: int, m: int, x: int, need: int) {
    16 * n + 32 * m + 3 * n * x >= need
  }

  /** Power draw of n tier-1 (250 W) and m tier-2 (350 W) routers. */
  function Cost(n: int, m: int): int {
    250 * n + 350 * m
  }

  /** With 16 + 3x >= 0, which holds for every x the planner tries, adding tier-1
      routers never breaks the constraint: this is what makes the binary search sound. */
  lemma IsValidMonotone(n: int, n': int, m: int, x: int, need: int)
    requires 16 + 3 * x >= 0 && n <= n' && IsValid(n, m, x, need)
    ensures IsValid(n', m, x, need)
  {
    var d := n' - n;
    assert 3 * n' * x == 3 * (n * x) + 3 * (d * x) by {
      assert n' * x == n * x + d * x;
    }
    assert 3 * n * x == 3 * (n * x);
    assert 16 * d + 3 * (d * x) == d * (16 + 3 * x);
    MulNonNeg(d, 16 + 3 * x);
  }

  lemma MulNonNeg(a: int, b: int)
    requires a >= 0 && b >= 0
    ensures a * b >= 0
  {
  }

  /** A cost or the source's `Infinity`, which stands for "nothing found yet". */
  datatype Watts = Finite(w: int) | Infinite

  /** `currentCost < minCost`: every finite cost is below Infinity. */
  predicate Below(c: int, best: Watts) {
    best.Infinite? || c < best.w
  }

  /** `minCost <= minCostAbsolute`: note that `Infinity <= Infinity` holds. */
  predicate AtMost(a: Watts, b: Watts) {
    b.Infinite? || (a.Finite? && a.w <= b.w)
  }

  /** What `findMinCostForX` returns: `optimalN`, `optimalM`, `minCost`. */
  datatype Choice = Choice(n: int, m: int, cost: Watts)

  /** The least n in [lo, hi] that meets the constraint together with m and x. */
  function LeastValid(m: int, x: int, need: int, lo: int, hi: int): (r: Option<int>)
    ensures r.Some? ==> lo <= r.value <= hi && IsValid(r.value, m, x, need)
    ensures r.Some? ==> forall n :: lo <= n < r.value ==> !IsValid(n, m, x, need)
    ensures r.None? ==> forall n :: lo <= n <= hi ==> !IsValid(n, m, x, need)
    decreases hi - lo
  {
    if lo > hi then None
    else if IsValid(lo, m, x, need) then Some(lo)
    else LeastValid(m, x, need, lo + 1, hi)
  }

  /** One value of m tried against the best so far: taken only when strictly cheaper. */
  function Consider(best: Choice, m: int, least: Option<int>): Choice {
    if least.Some? && Below(Cost(least.value, m), best.cost)
    then Choice(least.value, m, Finite(Cost(least.value, m)))
    else best
  }

  /** Exhaustive reference for `findMinCostForX`: m runs from mlo to mhi and each m is
      paired with its least valid n, found by scanning rather than by binary search. */
  function BestForX(x: int, need: int, mlo: int, mhi: int, nlo: int, nhi: int): Choice
    decreases mhi - mlo
  {
    if mhi < mlo then Choice(0, 0, Infinite)
    else Consider(BestForX(x, need, mlo, mhi - 1, nlo, nhi), mhi, LeastValid(mhi, x, need, nlo, nhi))
  }

  ghost predicate InRanges(n: int, m: int, mlo: int, mhi: int, nlo: int, nhi: int) {
    mlo <= m <= mhi && nlo <= n <= nhi
  }

  /** A choice is sound: Infinity leaves the initial (0, 0); a finite cost belongs to a
      valid pair inside the ranges. */
  ghost predicate Sound(c: Choice, x: int, need: int, mlo: int, mhi: int, nlo: int, nhi: int) {
    && (c.cost.Infinite? ==> c.n == 0 && c.m == 0)
    && (c.cost.Finite? ==>
          InRanges(c.n, c.m, mlo, mhi, nlo, nhi) && IsValid(c.n, c.m, x, need) && c.cost.w == Cost(c.n, c.m))
  }

  /** A choice is optimal: Infinity exactly when no pair in the ranges is valid; otherwise
      no valid pair is cheaper, and every valid pair with a smaller m is dearer (the
      strict `<` keeps the first, smallest, m among equal costs). */
  ghost predicate Optimal(c: Choice, x: int, need: int, mlo: int, mhi: int, nlo: int, nhi: int) {
    && Sound(c, x, need, mlo, mhi, nlo, nhi)
    && (c.cost.Infinite? ==>
          forall n, m | InRanges(n, m, mlo, mhi, nlo, nhi) :: !IsValid(n, m, x, need))
    && (c.cost.Finite? ==>
          && (forall n, m | InRanges(n, m, mlo, mhi, nlo, nhi) && IsValid(n, m, x, need) :: c.cost.w <= Cost(n, m))
          && (forall n, m | InRanges(n, m, mlo, mhi, nlo, nhi) && m < c.m && IsValid(n, m, x, need) ::
                c.cost.w < Cost(n, m)))
  }

  lemma {:induction false} BestForXOptimal(x: int, need: int, mlo: int, mhi: int, nlo: int, nhi: int)
    ensures Optimal(BestForX(x, need, mlo, mhi, nlo, nhi), x, need, mlo, mhi, nlo, nhi)
    decreases mhi - mlo
  {
    if mhi >= mlo {
      BestForXOptimal(x, need, mlo, mhi - 1, nlo, nhi);
      ConsiderOptimal(BestForX(x, need, mlo, mhi - 1, nlo, nhi), x, need, mlo, mhi, nlo, nhi);
    }
  }

  /** One more row m = mhi: considering its least valid n keeps the choice optimal. */
  lemma ConsiderOptimal(prev: Choice, x: int, need: int, mlo: int, mhi: int, nlo: int, nhi: int)
    requires mlo <= mhi && Optimal(prev, x, need, mlo, mhi - 1, nlo, nhi)
    ensures Optimal(Consider(prev, mhi, LeastValid(mhi, x, need, nlo, nhi)), x, need, mlo, mhi, nlo, nhi)
  {
    var least := LeastValid(mhi, x, need, nlo, nhi);
    if least.None? {
      NoneKeepsOptimal(prev, x, need, mlo, mhi, nlo, nhi);
    } else if Below(Cost(least.value, mhi), prev.cost) {
      CheaperReplaces(prev, x, need, mlo, mhi, nlo, nhi, least.value);
    } else {
      DearerKeeps(prev, x, need, mlo, mhi, nlo, nhi, least.value);
    }
  }

  /** Row mhi has no valid n: the choice stays optimal. */
  lemma NoneKeepsOptimal(prev: Choice, x: int, need: int, mlo: int, mhi: int, nlo: int, nhi: int)
    requires mlo <= mhi && Optimal(prev, x, need, mlo, mhi - 1, nlo, nhi)
    requires LeastValid(mhi, x, need, nlo, nhi).None?
    ensures Optimal(prev, x, need, mlo, mhi, nlo, nhi)
  {
    forall n, m | InRanges(n, m, mlo, mhi, nlo, nhi) && IsValid(n, m, x, need)
      ensures m < mhi && InRanges(n, m, mlo, mhi - 1, nlo, nhi)
    {
    }
  }

  /** Row mhi's least valid n is strictly cheaper: it becomes the optimal choice. */
  lemma CheaperReplaces(prev: Choice, x: int, need: int, mlo: int, mhi: int, nlo: int, nhi: int, l: int)
    requires mlo <= mhi && Optimal(prev, x, need, mlo, mhi - 1, nlo, nhi)
    requires LeastValid(mhi, x, need, nlo, nhi) == Some(l) && Below(Cost(l, mhi), prev.cost)
    ensures Optimal(Choice(l, mhi, Finite(Cost(l, mhi))), x, need, mlo, mhi, nlo, nhi)
  {
    forall n, m | InRanges(n, m, mlo, mhi, nlo, nhi) && IsValid(n, m, x, need)
      ensures Cost(l, mhi) <= Cost(n, m) && (m < mhi ==> Cost(l, mhi) < Cost(n, m))
    {
      if m == mhi {
        assert l <= n;
      } else {
        assert InRanges(n, m, mlo, mhi - 1, nlo, nhi);
      }
    }
  }

  /** Row mhi's least valid n is no cheaper: the earlier choice stays optimal. */
  lemma DearerKeeps(prev: Choice, x: int, need: int, mlo: int, mhi: int, nlo: int, nhi: int, l: int)
    requires mlo <= mhi && Optimal(prev, x, need, mlo, mhi - 1, nlo, nhi)
    requires LeastValid(mhi, x, need, nlo, nhi) == Some(l) && !Below(Cost(l, mhi), prev.cost)
    ensures Optimal(prev, x, need, mlo, mhi, nlo, nhi)
  {
    assert prev.cost.Finite? && prev.cost.w <= Cost(l, mhi);
    forall n, m | InRanges(n, m, mlo, mhi, nlo, nhi) && IsValid(n, m, x, need)
      ensures prev.cost.w <= Cost(n, m) && (m < prev.m ==> prev.cost.w < Cost(n, m))
    {
      if m == mhi {
        assert l <= n;
      } else {
        assert InRanges(n, m, mlo, mhi - 1, nlo, nhi);
      }
    }
  }

  /** At most one choice is optimal for given ranges. */
  lemma OptimalUnique(c: Choice, d: Choice, x: int, need: int, mlo: int, mhi: int, nlo: int, nhi: int)
    requires Optimal(c, x, need, mlo, mhi, nlo, nhi) && Optimal(d, x, need, mlo, mhi, nlo, nhi)
    ensures c == d
  {
    if c.cost.Finite? && d.cost.Finite? {
      assert c.cost.w <= Cost(d.n, d.m) && d.cost.w <= Cost(c.n, c.m);
    }
  }

  /** For the same m a smaller n is cheaper, so after a smaller n only the smaller one
      counts. */
  lemma ConsiderSmaller(c: Choice, m: int, n: int, n': int)
    requires n < n'
    ensures Consider(Consider(c, m, Some(n')), m, Some(n)) == Consider(c, m, Some(n))
  {
    assert Cost(n, m) < Cost(n', m);
  }

  /** `findMinCostForX`: for each m in [mlo, mhi], binary search over [nlo, nhi] for the
      least n that meets the constraint, keeping the strictly cheapest pair. The result is
      always sound; whenever 16 + 3x >= 0 it is the exhaustive optimum `BestForX`. */
  method FindMinCostForX(x: int, need: int, mlo: int, mhi: int, nlo: int, nhi: int)
    returns (optimalN: int, optimalM: int, minCost: Watts)
    ensures Sound(Choice(optimalN, optimalM, minCost), x, need, mlo, mhi, nlo, nhi)
    ensures 16 + 3 * x >= 0 ==> Choice(optimalN, optimalM, minCost) == BestForX(x, need, mlo, mhi, nlo, nhi)
  {
    minCost := Infinite;
    optimalN := 0;
    optimalM := 0;
    var m := mlo;
    while m <= mhi
      invariant mlo <= m && (m <= mhi + 1 || m == mlo)
      invariant Sound(Choice(optimalN, optimalM, minCost), x, need, mlo, m - 1, nlo, nhi)
      invariant 16 + 3 * x >= 0 ==> Choice(optimalN, optimalM, minCost) == BestForX(x, need, mlo, m - 1, nlo, nhi)
      decreases mhi - m
    {
      optimalN, optimalM, minCost := SearchN(x, need, m, mlo, nlo, nhi, optimalN, optimalM, minCost);
      m := m + 1;
    }
  }

  /** The binary search of `findMinCostForX` for one m: every valid n it probes is
      compared with the best so far, and whenever 16 + 3x >= 0 the probes end at the least
      valid n, so the outcome is that of `Consider` with the least valid n. */
  method SearchN(x: int, need: int, m: int, mlo: int, nlo: int, nhi: int,
                 optimalN0: int, optimalM0: int, minCost0: Watts)
    returns (optimalN: int, optimalM: int, minCost: Watts)
    requires mlo <= m && Sound(Choice(optimalN0, optimalM0, minCost0), x, need, mlo, m - 1, nlo, nhi)
    ensures Sound(Choice(optimalN, optimalM, minCost), x, need, mlo, m, nlo, nhi)
    ensures 16 + 3 * x >= 0 ==>
              Choice(optimalN, optimalM, minCost) ==
              Consider(Choice(optimalN0, optimalM0, minCost0), m, LeastValid(m, x, need, nlo, nhi))
  {
    ghost var before := Choice(optimalN0, optimalM0, minCost0);
    optimalN, optimalM, minCost := optimalN0, optimalM0, minCost0;
    var low, high := nlo, nhi;
    while low <= high
      invariant Probing(Choice(optimalN, optimalM, minCost), before, x, need, m, nlo, nhi, low, high)
      decreases high - low
    {
      var n := (low + high) / 2;
      if IsValid(n, m, x, need) {
        ghost var current := Choice(optimalN, optimalM, minCost);
        var currentCost := Cost(n, m);
        if Below(currentCost, minCost) {
          minCost := Finite(currentCost);
          optimalN := n;
          optimalM := m;
        }
        assert Choice(optimalN, optimalM, minCost) == Consider(current, m, Some(n));
        ProbeHit(current, before, x, need, m, nlo, nhi, low, high, n);
        high := n - 1;
      } else {
        ProbeMiss(Choice(optimalN, optimalM, minCost), before, x, need, m, nlo, nhi, low, high, n);
        low := n + 1;
      }
    }
    ProbeEnd(Choice(optimalN, optimalM, minCost), before, x, need, m, mlo, nlo, nhi, low, high);
  }

  /** The state of the binary search for one m: the probes so far have split [nlo, nhi]
      into invalid values below `low` and valid ones above `high` (whenever 16 + 3x >= 0),
      and the best so far is the one before the search or a valid pair of this m; with
      16 + 3x >= 0 it is what considering the least valid n above `high` gives. */
  ghost predicate Probing(c: Choice, before: Choice, x: int, need: int, m: int, nlo: int, nhi: int,
                          low: int, high: int) {
    && nlo <= low && high <= nhi
    && (high < nhi ==> nlo <= high + 1)
    && (c == before || (c.m == m && nlo <= c.n <= nhi && IsValid(c.n, m, x, need) && c.cost == Finite(Cost(c.n, m))))
    && (16 + 3 * x >= 0 ==>
          && (forall n :: nlo <= n < low ==> !IsValid(n, m, x, need))
          && (forall n :: high < n <= nhi ==> IsValid(n, m, x, need))
          && c == if high < nhi then Consider(before, m, Some(high + 1)) else before)
  }

  /** A valid probe n: the best so far takes it if cheaper, and the search moves below n. */
  lemma ProbeHit(current: Choice, before: Choice, x: int, need: int, m: int, nlo: int, nhi: int,
                 low: int, high: int, n: int)
    requires Probing(current, before, x, need, m, nlo, nhi, low, high)
    requires low <= n <= high && IsValid(n, m, x, need)
    ensures Probing(Consider(current, m, Some(n)), before, x, need, m, nlo, nhi, low, n - 1)
  {
    if 16 + 3 * x >= 0 {
      if high < nhi {
        ConsiderSmaller(before, m, n, high + 1);
      }
      forall n' | n < n' <= nhi ensures IsValid(n', m, x, need) {
        IsValidMonotone(n, n', m, x, need);
      }
    }
  }

  /** An invalid probe n: nothing at or below n is valid, and the search moves above n. */
  lemma ProbeMiss(current: Choice, before: Choice, x: int, need: int, m: int, nlo: int, nhi: int,
                  low: int, high: int, n: int)
    requires Probing(current, before, x, need, m, nlo, nhi, low, high)
    requires low <= n <= high && !IsValid(n, m, x, need)
    ensures Probing(current, before, x, need, m, nlo, nhi, n + 1, high)
  {
    if 16 + 3 * x >= 0 {
      forall n' | nlo <= n' <= n ensures !IsValid(n', m, x, need) {
        if IsValid(n', m, x, need) {
          IsValidMonotone(n', n, m, x, need);
        }
      }
    }
  }

  /** When the search ends, the best so far is sound for rows up to m, and with
      16 + 3x >= 0 it is the outcome of considering m's least valid n. */
  lemma ProbeEnd(c: Choice, before: Choice, x: int, need: int, m: int, mlo: int, nlo: int, nhi: int,
                 low: int, high: int)
    requires mlo <= m && Sound(before, x, need, mlo, m - 1, nlo, nhi)
    requires Probing(c, before, x, need, m, nlo, nhi, low, high) && low > high
    ensures Sound(c, x, need, mlo, m, nlo, nhi)
    ensures 16 + 3 * x >= 0 ==> c == Consider(before, m, LeastValid(m, x, need, nlo, nhi))
  {
    ProbeSound(c, before, x, need, m, mlo, nlo, nhi);
    if 16 + 3 * x >= 0 {
      ProbeLeast(c, before, x, need, m, nlo, nhi, high);
    }
  }

  /** The best so far is the earlier one or a valid pair of row m: sound up to row m. */
  lemma ProbeSound(c: Choice, before: Choice, x: int, need: int, m: int, mlo: int, nlo: int, nhi: int)
    requires mlo <= m && Sound(before, x, need, mlo, m - 1, nlo, nhi)
    requires c == before || (c.m == m && nlo <= c.n <= nhi && IsValid(c.n, m, x, need) && c.cost == Finite(Cost(c.n, m)))
    ensures Sound(c, x, need, mlo, m, nlo, nhi)
  {
  }

  /** Invalid up to `high` and valid just above it: `high + 1` is the least valid n, or
      there is none when `high` is the top of the range. */
  lemma ProbeLeast(c: Choice, before: Choice, x: int, need: int, m: int, nlo: int, nhi: int, high: int)
    requires high <= nhi && (high < nhi ==> nlo <= high + 1)
    requires forall n :: nlo <= n <= high ==> !IsValid(n, m, x, need)
    requires high < nhi ==> IsValid(high + 1, m, x, need)
    requires c == if high < nhi then Consider(before, m, Some(high + 1)) else before
    ensures c == Consider(before, m, LeastValid(m, x, need, nlo, nhi))
  {
    var least := LeastValid(m, x, need, nlo, nhi);
    if high < nhi {
      assert least.Some?;
      assert least.value == high + 1;
    } else {
      assert least == None;
    }
  }

  /** The outcome of the x loop: `optimalNAbsolute`, `optimalMAbsolute`,
      `optimalXAbsolute`, `minCostAbsolute`. */
  datatype Sized = Sized(n: int, m: int, x: int, cost: Watts)

  /** Exhaustive reference for the x loop of `findOptimalNoOfRouters`: x runs from 0 to
      xhi and each x whose optimum is no dearer (`<=`) than the best so far replaces it. */
  function SizeOver(need: int, bound: int, xhi: int): Sized
    decreases xhi
  {
    if xhi < 0 then Sized(0, 0, 0, Infinite)
    else
      var prev := SizeOver(need, bound, xhi - 1);
      var b := BestForX(xhi, need, 0, bound, 0, bound);
      if AtMost(b.cost, prev.cost) then Sized(b.n, b.m, xhi, b.cost) else prev
  }

  /** The x loop keeps the per-x optimum of some x in range that no other x beats, and
      every LATER x is strictly worse: among equal costs the largest x wins. */
  ghost predicate SizedOptimal(s: Sized, need: int, bound: int, xhi: int) {
    && (xhi < 0 ==> s == Sized(0, 0, 0, Infinite))
    && (xhi >= 0 ==>
          && 0 <= s.x <= xhi
          && Choice(s.n, s.m, s.cost) == BestForX(s.x, need, 0, bound, 0, bound)
          && (forall x | 0 <= x <= xhi :: AtMost(s.cost, BestForX(x, need, 0, bound, 0, bound).cost))
          && (forall x | s.x < x <= xhi :: !AtMost(BestForX(x, need, 0, bound, 0, bound).cost, s.cost)))
  }

  lemma {:induction false} SizeOverOptimal(need: int, bound: int, xhi: int)
    ensures SizedOptimal(SizeOver(need, bound, xhi), need, bound, xhi)
    decreases xhi
  {
    if xhi >= 0 {
      SizeOverOptimal(need, bound, xhi - 1);
    }
  }

  /** The sizing search as a whole: the chosen (n, m, x) meets the constraint, no valid
      triple in the searched ranges is cheaper, every valid triple with a larger x is
      dearer, and the search finds nothing only when no triple in range is valid. */
  lemma SizingOptimal(need: int, bound: int, xhi: int)
    requires xhi >= 0
    ensures var s := SizeOver(need, bound, xhi);
            && 0 <= s.x <= xhi
            && (s.cost.Finite? ==>
                  0 <= s.n <= bound && 0 <= s.m <= bound && IsValid(s.n, s.m, s.x, need) && s.cost.w == Cost(s.n, s.m))
            && (s.cost.Infinite? ==> s.n == 0 && s.m == 0 && s.x == xhi)
            && (forall n, m, x | 0 <= x <= xhi && InRanges(n, m, 0, bound, 0, bound) && IsValid(n, m, x, need) ::
                  s.cost.Finite? && s.cost.w <= Cost(n, m))
            && (forall n, m, x | s.x < x <= xhi && InRanges(n, m, 0, bound, 0, bound) && IsValid(n, m, x, need) ::
                  s.cost.w < Cost(n, m))
  {
    var s := SizeOver(need, bound, xhi);
    SizeOverOptimal(need, bound, xhi);
    BestForXOptimal(s.x, need, 0, bound, 0, bound);
    forall n, m, x | 0 <= x <= xhi && InRanges(n, m, 0, bound, 0, bound) && IsValid(n, m, x, need)
      ensures s.cost.Finite? && s.cost.w <= Cost(n, m)
    {
      BestForXOptimal(x, need, 0, bound, 0, bound);
    }
    if s.cost.Infinite? && s.x < xhi {
      BestForXOptimal(xhi, need, 0, bound, 0, bound);
    }
    forall n, m, x | s.x < x <= xhi && InRanges(n, m, 0, bound, 0, bound) && IsValid(n, m, x, need)
      ensures s.cost.w < Cost(n, m)
    {
      BestForXOptimal(x, need, 0, bound, 0, bound);
    }
  }

  /** One `customerData` tuple `[city, numCustomers]`. */
  datatype Customer = Customer(city: Site, numCustomers: int)

  /** The ceiling of rhs = demand/100 + 4 * customers: the target an integer left-hand
      side has to reach. */
  function Need(demand: int, customers: int): int {
    CeilDiv(demand, 100) + 4 * customers
  }

  /** The floor of rhs: the largest integer in the ranges [0, rhs]. */
  function Bound(demand: int, customers: int): int {
    demand / 100 + 4 * customers
  }

  /** Internal ports: n * x small ports, and the customers left over on 400-class ports. */
  function InternalPorts(customers: int, n: int, x: int): Ports {
    Ports(n * x, customers - n * x)
  }

  /** External ports: the small ports not reserved, and the 400-class ports of both
      tiers minus the internal ones. */
  function ExternalPorts(customers: int, n: int, m: int, x: int): Ports {
    Ports(n * (8 - x), m * 8 + n * 2 - (customers - n * x))
  }

  /** Port accounting: each tier-1 router has 8 small and 2 large ports, each tier-2
      router 8 large ports, and internal plus external use exactly those. */
  lemma PortAccounting(customers: int, n: int, m: int, x: int)
    ensures ExternalPorts(customers, n, m, x).g100 + InternalPorts(customers, n, x).g100 == 8 * n
    ensures ExternalPorts(customers, n, m, x).g400 + InternalPorts(customers, n, x).g400 == 8 * m + 2 * n
    ensures InternalPorts(customers, n, x).g400 == customers - n * x
  {
    assert n * (8 - x) + n * x == 8 * n;
  }

  /** One result of `findOptimalNoOfRouters`, from the exhaustive references. A site that
      has no aggregate demand gets `NaN` for rhs in the source; every comparison with NaN
      is false, so the m loop never runs: the model gives it the empty range [0, -1]. Its
      requirement row is then `undefined`, here None. */
  function SizeSite(customer: Customer, requirements: Matrix, maxRequirement: map<Site, int>): SiteResult {
    var c := customer.numCustomers;
    var known := customer.city in maxRequirement;
    var need := if known then Need(maxRequirement[customer.city], c) else 0;
    var bound := if known then Bound(maxRequirement[customer.city], c) else -1;
    var s := SizeOver(need, bound, Min(8, c));
    SiteResult(customer.city, c, s.n, s.m, ExternalPorts(c, s.n, s.m, s.x), InternalPorts(c, s.n, s.x),
               if customer.city in requirements then Some(requirements[customer.city]) else None)
  }

  /** `findOptimalNoOfRouters`: one sized result per customer tuple, in input order, each
      the exhaustive optimum of `SizeSite`. */
  method FindOptimalNoOfRouters(customerData: seq<Customer>, requirements: Matrix, maxRequirement: map<Site, int>)
    returns (results: seq<SiteResult>)
    ensures |results| == |customerData|
    ensures forall i :: 0 <= i < |customerData| ==> results[i] == SizeSite(customerData[i], requirements, maxRequirement)
  {
    results := [];
    for i := 0 to |customerData|
      invariant |results| == i
      invariant forall j :: 0 <= j < i ==> results[j] == SizeSite(customerData[j], requirements, maxRequirement)
    {
      var city, numCustomers := customerData[i].city, customerData[i].numCustomers;
      var need, bound := 0, -1;
      if city in maxRequirement {
        need, bound := Need(maxRequirement[city], numCustomers), Bound(maxRequirement[city], numCustomers);
      }

      var optimalNAbsolute, optimalMAbsolute, optimalXAbsolute, minCostAbsolute := SizeOverX(need, bound, Min(8, numCustomers));

      var internal := Ports(optimalNAbsolute * optimalXAbsolute, numCustomers - optimalNAbsolute * optimalXAbsolute);
      var external := Ports(optimalNAbsolute * (8 - optimalXAbsolute),
                            optimalMAbsolute * 8 + optimalNAbsolute * 2 - internal.g400);
      var row := if city in requirements then Some(requirements[city]) else None;
      results := results + [SiteResult(city, numCustomers, optimalNAbsolute, optimalMAbsolute, external, internal, row)];
    }
  }

  /** The x loop of `findOptimalNoOfRouters`: for x from 0 to xhi, the per-x optimum
      replaces the best so far when it is no dearer. */
  method SizeOverX(need: int, bound: int, xhi: int)
    returns (optimalNAbsolute: int, optimalMAbsolute: int, optimalXAbsolute: int, minCostAbsolute: Watts)
    ensures Sized(optimalNAbsolute, optimalMAbsolute, optimalXAbsolute, minCostAbsolute) == SizeOver(need, bound, xhi)
  {
    optimalNAbsolute, optimalMAbsolute, optimalXAbsolute := 0, 0, 0;
    minCostAbsolute := Infinite;
    var x := 0;
    while x <= xhi
      invariant 0 <= x && (x <= xhi + 1 || x == 0)
      invariant Sized(optimalNAbsolute, optimalMAbsolute, optimalXAbsolute, minCostAbsolute) == SizeOver(need, bound, x - 1)
      decreases xhi - x
    {
      var optimalN, optimalM, minCost := FindMinCostForX(x, need, 0, bound, 0, bound);
      assert Choice(optimalN, optimalM, minCost) == BestForX(x, need, 0, bound, 0, bound);
      if AtMost(minCost, minCostAbsolute) {
        optimalNAbsolute, optimalMAbsolute, optimalXAbsolute := optimalN, optimalM, x;
        minCostAbsolute := minCost;
      }
      x := x + 1;
    }
    if xhi < 0 {
      assert SizeOver(need, bound, xhi) == SizeOver(need, bound, -1);
    }
  }

  /** Comparing an integer with the real rhs = demand/100 + 4c from above is comparing it
      with `Need`. */
  lemma NeedIsCeilingOfRhs(demand: int, customers: int, k: int)
    ensures (k as real >= demand as real / 100.0 + 4.0 * customers as real) <==> k >= Need(demand, customers)
  {
    var q := CeilDiv(demand, 100);
    assert 100 * q >= demand && 100 * (q - 1) < demand;
    assert (k as real >= demand as real / 100.0 + 4.0 * customers as real)
       <==> 100 * (k - 4 * customers) >= demand;
  }

  /** Comparing an integer with the real rhs from below (`m <= mRange[1]`) is comparing it
      with `Bound`. */
  lemma BoundIsFloorOfRhs(demand: int, customers: int, k: int)
    ensures (k as real <= demand as real / 100.0 + 4.0 * customers as real) <==> k <= Bound(demand, customers)
  {
    var q := demand / 100;
    assert 100 * q <= demand < 100 * (q + 1);
    assert (k as real <= demand as real / 100.0 + 4.0 * customers as real)
       <==> 100 * (k - 4 * customers) <= demand;
  }

  /** The binary search starts with `high = rhs`, a real; as long as high is still rhs,
      `Math.floor((low + high) / 2)` picks the same n as with high = floor(rhs). */
  lemma MidpointWithRealHigh(low: int, r: real)
    ensures ((low as real + r) / 2.0).Floor == (low + r.Floor) / 2
  {
    var f := r.Floor;
    var q := (low + f) / 2;
    assert f as real <= r < f as real + 1.0;
    assert low + f == 2 * q || low + f == 2 * q + 1;
    assert q as real <= (low as real + r) / 2.0 < q as real + 1.0;
  }

  /** Against rhs = 32, a valid pair costs at least 350 W when x <= 5 (and more without a
      tier-2 router), and at least 250 W otherwise. */
  lemma ThirtyTwoPair(n: int, m: int, x: int)
    requires 0 <= n && 0 <= m && 0 <= x <= 8 && IsValid(n, m, x, 32)
    ensures x <= 5 ==> 350 <= Cost(n, m) && (m == 0 ==> 350 < Cost(n, m))
    ensures 250 <= Cost(n, m)
  {
    if n == 0 {
      assert m >= 1;
    } else if n == 1 {
      assert 16 + 32 * m + 3 * x >= 32;
    }
  }

  /** For rhs = 32, x up to 5 leaves one tier-1 router short (16 + 3x < 32), so the
      per-x optimum is one tier-2 router; from x = 6 on one tier-1 router suffices. */
  lemma BestAtThirtyTwo(x: int, need: int, bound: int)
    requires 0 <= x <= 8 && need == 32 && bound == 32
    ensures BestForX(x, need, 0, bound, 0, bound) == if x <= 5 then Choice(0, 1, Finite(350)) else Choice(1, 0, Finite(250))
  {
    var c := if x <= 5 then Choice(0, 1, Finite(350)) else Choice(1, 0, Finite(250));
    forall n, m | InRanges(n, m, 0, bound, 0, bound) && IsValid(n, m, x, need)
      ensures c.cost.w <= Cost(n, m) && (m < c.m ==> c.cost.w < Cost(n, m))
    {
      ThirtyTwoPair(n, m, x);
    }
    assert Optimal(c, x, need, 0, bound, 0, bound);
    BestForXOptimal(x, need, 0, bound, 0, bound);
    OptimalUnique(c, BestForX(x, need, 0, bound, 0, bound), x, need, 0, bound, 0, bound);
  }

  /** The x loop for rhs = 32: one tier-2 router up to x = 5, then one tier-1 router, and
      the later x of a tie replaces the earlier one. */
  lemma {:induction false} SizeOverThirtyTwo(need: int, bound: int, xhi: int)
    requires 0 <= xhi <= 8 && need == 32 && bound == 32
    ensures SizeOver(need, bound, xhi) == if xhi <= 5 then Sized(0, 1, xhi, Finite(350)) else Sized(1, 0, xhi, Finite(250))
    decreases xhi
  {
    BestAtThirtyTwo(xhi, need, bound);
    if xhi > 0 {
      SizeOverThirtyTwo(need, bound, xhi - 1);
    }
  }

  /** A site with 8 customers and no external demand: rhs = 32, and the search settles on
      one tier-1 router with all 8 small ports inside (x = 8, the last of the tied x), which
      leaves its two 400-class ports external. */
  lemma EightCustomersNoDemand(customer: Customer, requirements: Matrix, maxRequirement: map<Site, int>)
    requires customer.numCustomers == 8
    requires customer.city in maxRequirement && maxRequirement[customer.city] == 0
    ensures var r := SizeSite(customer, requirements, maxRequirement);
            && r.t1Routes == 1 && r.t2Routes == 0
            && r.internal == Ports(8, 0) && r.external == Ports(0, 2)
  {
    var c := customer.numCustomers;
    var demand := maxRequirement[customer.city];
    var need, bound, xhi := Need(demand, c), Bound(demand, c), Min(8, c);
    assert need == 32 && bound == 32 && xhi == 8 by {
      assert CeilDiv(demand, 100) == 0;
    }
    assert SizeOver(need, bound, xhi) == Sized(1, 0, 8, Finite(250)) by {
      SizeOverThirtyTwo(need, bound, xhi);
    }
    PortsOfOneRouter(c, 1, 0, 8);
  }

  /** The port split of one tier-1 router serving eight customers on its small ports. */
  lemma PortsOfOneRouter(c: int, n: int, m: int, x: int)
    requires c == 8 && n == 1 && m == 0 && x == 8
    ensures InternalPorts(c, n, x) == Ports(8, 0) && ExternalPorts(c, n, m, x) == Ports(0, 2)
  {
  }
}
