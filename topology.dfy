/** Topology building (`buildTopology`): a zero-usage connection for every pair of
    sites, then direct connections for the demands the external ports can carry, then
    extra routers at the demanding site until each remaining demand connects. */
module Topology {
  import opened Records

  /** Bandwidth a set of ports carries. */
  function Capacity(p: Ports): int {
    100 * p.g100 + 400 * p.g400
  }

  predicate NonNeg(p: Ports) {
    p.g100 >= 0 && p.g400 >= 0
  }

  /** `used` takes no more ports of either class than `available` has. */
  predicate Fits(used: Ports, available: Ports) {
    0 <= used.g100 <= available.g100 && 0 <= used.g400 <= available.g400
  }

  /** A selection, when there is one, carries the demand, and it fits both ends whenever
      neither inventory is negative. */
  predicate Selects(r: Option<Ports>, from: Ports, to: Ports, requiredBW: int) {
    r.Some? ==> Capacity(r.value) >= requiredBW && (NonNeg(from) && NonNeg(to) ==> Fits(r.value, from) && Fits(r.value, to))
  }

  /** `canDirectlyConnect`, on the external inventories of the two ends: nothing for a
      demand that is not positive, one small port if both ends have one and it suffices,
      else one large port likewise, else the greedy plan (as many large ports as fit in
      the demand, then small ports for the rest) when both ends have the capacity and
      the plan covers the demand; otherwise null. */
  function CanDirectlyConnect(from: Ports, to: Ports, requiredBW: int): (r: Option<Ports>)
    ensures Selects(r, from, to, requiredBW)
  {
    if requiredBW > 0 then FirstFit(from, to, requiredBW) else Some(Ports(0, 0))
  }

  /** The branches of `canDirectlyConnect` for a positive demand. */
  function FirstFit(from: Ports, to: Ports, requiredBW: int): (r: Option<Ports>)
    requires requiredBW > 0
    ensures Selects(r, from, to, requiredBW)
  {
    if from.g100 > 0 && to.g100 > 0 && requiredBW <= 100 then Some(Ports(1, 0))
    else if from.g400 > 0 && to.g400 > 0 && requiredBW <= 400 then Some(Ports(0, 1))
    else Greedy(from, to, requiredBW)
  }

  /** The last branch of `canDirectlyConnect`: the greedy plan when both ends have the
      capacity and the plan covers the demand, else null. */
  function Greedy(from: Ports, to: Ports, requiredBW: int): (r: Option<Ports>)
    requires requiredBW > 0
    ensures Selects(r, from, to, requiredBW)
  {
    if Capacity(from) >= requiredBW && Capacity(to) >= requiredBW then
      var plan := GreedyPlan(from, to, requiredBW);
      if Capacity(plan) >= requiredBW then Some(plan) else None
    else None
  }

  /** The greedy plan of `canDirectlyConnect`: `floor(bw / 400)` large ports, as far as
      both ends have them, then `ceil(rest / 100)` small ports likewise. The source keeps
      the plan when the bandwidth left after subtracting what it carries is not
      positive, that is when the plan's capacity covers the demand. */
  function GreedyPlan(from: Ports, to: Ports, requiredBW: int): (plan: Ports)
    requires requiredBW > 0
    ensures NonNeg(from) && NonNeg(to) ==> Fits(plan, from) && Fits(plan, to)
    ensures plan.g400 <= requiredBW / 400
  {
    var needed400 := Min(Min(requiredBW / 400, from.g400), to.g400);
    var remainingBW := requiredBW - needed400 * 400;
    assert 400 * (requiredBW / 400) <= requiredBW;
    var needed100 := Min(Min(CeilDiv(remainingBW, 100), from.g100), to.g100);
    Ports(needed100, needed400)
  }

  /** No ports for a demand that is not positive; then one small port before one large
      port, whenever both ends have one and it carries the demand. */
  lemma DirectPreference(from: Ports, to: Ports, requiredBW: int)
    ensures requiredBW <= 0 ==> CanDirectlyConnect(from, to, requiredBW) == Some(Ports(0, 0))
    ensures requiredBW > 0 && from.g100 > 0 && to.g100 > 0 && requiredBW <= 100 ==>
              CanDirectlyConnect(from, to, requiredBW) == Some(Ports(1, 0))
    ensures requiredBW > 0 && !(from.g100 > 0 && to.g100 > 0 && requiredBW <= 100) ==>
              (from.g400 > 0 && to.g400 > 0 && requiredBW <= 400 ==> CanDirectlyConnect(from, to, requiredBW) == Some(Ports(0, 1)))
  {
  }

  /** The greedy plan always goes through when both ends hold the large ports it wants
      and the small ports for the remainder. */
  lemma GreedyPlanConnects(from: Ports, to: Ports, requiredBW: int)
    requires requiredBW > 0 && NonNeg(from) && NonNeg(to)
    requires from.g400 >= requiredBW / 400 && to.g400 >= requiredBW / 400
    requires from.g100 >= CeilDiv(requiredBW % 400, 100) && to.g100 >= CeilDiv(requiredBW % 400, 100)
    ensures CanDirectlyConnect(from, to, requiredBW).Some?
  {
    var q, rest := requiredBW / 400, requiredBW % 400;
    var small := CeilDiv(rest, 100);
    assert requiredBW == 400 * q + rest && 0 <= rest < 400;
    assert 100 * small >= rest;
    assert Capacity(from) >= 100 * small + 400 * q;
    assert Capacity(to) >= 100 * small + 400 * q;
  }

  /** Above 400 and off a multiple of 400, the greedy plan needs a small port at both
      ends: an end without one can never connect, however many large ports it has. */
  lemma NoSmallPortNoConnection(from: Ports, to: Ports, requiredBW: int)
    requires requiredBW > 400 && requiredBW % 400 != 0
    requires from.g100 <= 0 || to.g100 <= 0
    ensures CanDirectlyConnect(from, to, requiredBW) == None
  {
    if Capacity(from) >= requiredBW && Capacity(to) >= requiredBW {
      var needed400 := Min(Min(requiredBW / 400, from.g400), to.g400);
      var remainingBW := requiredBW - needed400 * 400;
      assert remainingBW >= requiredBW % 400 > 0;
    }
  }

  /** The router kinds `addRouter` installs. */
  datatype Tier = T1 | T2

  /** A site after `addRouter`: a tier-1 router brings 8 small and 2 large external
      ports, a tier-2 router 8 large ones. */
  function WithRouter(r: SiteResult, tier: Tier): SiteResult {
    match tier
    case T1 => r.(t1Routes := r.t1Routes + 1, external := Ports(r.external.g100 + 8, r.external.g400 + 2))
    case T2 => r.(t2Routes := r.t2Routes + 1, external := Ports(r.external.g100, r.external.g400 + 8))
  }

  /** The tier step 3 adds for a remaining demand: tier 2 above 400, else tier 1. */
  function TierFor(bw: int): Tier {
    if bw > 400 then T2 else T1
  }

  /** A site after `k` more routers of one tier. */
  function Routers(r: SiteResult, tier: Tier, k: nat): SiteResult {
    if k == 0 then r else WithRouter(Routers(r, tier, k - 1), tier)
  }

  /** The sites after `k` rounds of step 3 for a demand `bw` of `city`: `k` routers of the
      tier for `bw`, all at `city`. */
  function Grown(sites: map<Site, SiteResult>, city: Site, bw: int, k: nat): (g: map<Site, SiteResult>)
    requires city in sites
    ensures forall c :: c in g <==> c in sites
  {
    sites[city := Routers(sites[city], TierFor(bw), k)]
  }

  /** What `canDirectlyConnect` answers after `k` rounds. */
  function SelectionAfter(sites: map<Site, SiteResult>, city: Site, target: Site, bw: int, k: nat): Option<Ports>
    requires city in sites && target in sites
  {
    var g := Grown(sites, city, bw, k);
    CanDirectlyConnect(g[city].external, g[target].external, bw)
  }

  /** The first round from `k` to `fuel` after which the demand connects, if any. */
  function FirstRound(sites: map<Site, SiteResult>, city: Site, target: Site, bw: int, k: nat, fuel: nat): (r: Option<nat>)
    requires city in sites && target in sites
    ensures r.Some? ==> k <= r.value <= fuel && SelectionAfter(sites, city, target, bw, r.value).Some?
    ensures r.Some? ==> forall j: nat | k <= j < r.value :: SelectionAfter(sites, city, target, bw, j).None?
    ensures r.None? ==> forall j: nat | k <= j <= fuel :: SelectionAfter(sites, city, target, bw, j).None?
    decreases fuel + 1 - k
  {
    if k > fuel then None
    else if SelectionAfter(sites, city, target, bw, k).Some? then Some(k)
    else FirstRound(sites, city, target, bw, k + 1, fuel)
  }

  /** One more round after `k` rounds is round `k + 1`. */
  lemma GrownAgain(sites: map<Site, SiteResult>, city: Site, target: Site, bw: int, k: nat)
    requires city in sites && target in sites
    ensures Grown(Grown(sites, city, bw, k), city, bw, 1) == Grown(sites, city, bw, k + 1)
    ensures SelectionAfter(Grown(sites, city, bw, k), city, target, bw, 1) == SelectionAfter(sites, city, target, bw, k + 1)
  {
    var g := Grown(sites, city, bw, k);
    assert Routers(g[city], TierFor(bw), 1) == WithRouter(g[city], TierFor(bw));
  }

  /** One round adds one router of the tier for `bw`. */
  lemma GrownOne(sites: map<Site, SiteResult>, city: Site, bw: int)
    requires city in sites
    ensures Grown(sites, city, bw, 1) == sites[city := WithRouter(sites[city], TierFor(bw))]
  {
    assert Routers(sites[city], TierFor(bw), 1) == WithRouter(Routers(sites[city], TierFor(bw), 0), TierFor(bw));
  }

  /** Rounds 1 to `n` of step 3 all failed. */
  ghost predicate Failed(sites: map<Site, SiteResult>, city: Site, target: Site, bw: int, n: int)
    requires city in sites && target in sites
  {
    forall j: nat | 1 <= j <= n :: SelectionAfter(sites, city, target, bw, j).None?
  }

  /** Where step 3 stands for one demand after `tries` rounds from `sites0`: either every
      round failed and `tries` routers were added, or the last round is the first that
      connected. */
  ghost predicate Progress(sites0: map<Site, SiteResult>, unmet0: map<Site, Rec<int>>, conns0: seq<Connection>,
                           sites: map<Site, SiteResult>, unmet: map<Site, Rec<int>>, conns: seq<Connection>,
                           city: Site, target: Site, bw: int, tries: nat, connected: bool)
  {
    && city in sites0 && target in sites0
    && city in unmet0 && target in unmet0 && unmet0[city].Valid() && unmet0[target].Valid()
    && if connected then
         && 1 <= tries && Failed(sites0, city, target, bw, tries - 1)
         && ConnectedAt(sites0, unmet0, conns0, sites, unmet, conns, city, target, bw, tries)
       else
         && Failed(sites0, city, target, bw, tries)
         && sites == Grown(sites0, city, bw, tries) && unmet == unmet0 && conns == conns0
  }

  lemma ProgressStart(sites0: map<Site, SiteResult>, unmet0: map<Site, Rec<int>>, conns0: seq<Connection>,
                      city: Site, target: Site, bw: int)
    requires city in sites0 && target in sites0
    requires city in unmet0 && target in unmet0 && unmet0[city].Valid() && unmet0[target].Valid()
    ensures Progress(sites0, unmet0, conns0, sites0, unmet0, conns0, city, target, bw, 0, false)
  {
    assert Grown(sites0, city, bw, 0) == sites0;
  }

  /** Round `k + 1` of step 3 is one round from the state after `k` failed rounds. */
  lemma NextRound(sites0: map<Site, SiteResult>, unmet0: map<Site, Rec<int>>, conns0: seq<Connection>,
                  before: map<Site, SiteResult>, sites: map<Site, SiteResult>, unmet: map<Site, Rec<int>>, conns: seq<Connection>,
                  city: Site, target: Site, bw: int, k: nat, connected: bool)
    requires Progress(sites0, unmet0, conns0, before, unmet0, conns0, city, target, bw, k, false)
    requires Escalated(before, unmet0, conns0, sites, unmet, conns, city, target, bw, 1, connected)
    ensures Progress(sites0, unmet0, conns0, sites, unmet, conns, city, target, bw, k + 1, connected)
  {
    GrownAgain(sites0, city, target, bw, k);
    OneRound(before, city, target, bw);
  }

  /** Where the rounds of step 3 stop: at the first round that connects, or after `fuel`
      failed rounds. */
  lemma EscalateEnd(sites0: map<Site, SiteResult>, unmet0: map<Site, Rec<int>>, conns0: seq<Connection>,
                    sites: map<Site, SiteResult>, unmet: map<Site, Rec<int>>, conns: seq<Connection>,
                    city: Site, target: Site, bw: int, tries: nat, fuel: nat, connected: bool)
    requires Progress(sites0, unmet0, conns0, sites, unmet, conns, city, target, bw, tries, connected)
    requires tries <= fuel && (!connected ==> tries == fuel)
    ensures Escalated(sites0, unmet0, conns0, sites, unmet, conns, city, target, bw, fuel, connected)
  {
    if connected {
      FirstRoundIs(sites0, city, target, bw, tries, fuel);
    }
  }

  /** Tier-2 routers bring no small port: step 3 never connects a demand above 400 that
      is no multiple of 400 at a site without a free small port, whatever the fuel (the
      source loops forever there). */
  lemma NoSmallPortStalls(sites0: map<Site, SiteResult>, unmet0: map<Site, Rec<int>>, conns0: seq<Connection>,
                          sites: map<Site, SiteResult>, unmet: map<Site, Rec<int>>, conns: seq<Connection>,
                          city: Site, target: Site, bw: int, fuel: nat, connected: bool)
    requires Escalated(sites0, unmet0, conns0, sites, unmet, conns, city, target, bw, fuel, connected)
    requires bw > 400 && bw % 400 != 0 && sites0[city].external.g100 <= 0
    ensures !connected
  {
    NeverConnects(sites0, city, target, bw, 1, fuel);
  }

  /** With one round of fuel, the demand connects exactly when the first round does. */
  lemma OneRound(sites: map<Site, SiteResult>, city: Site, target: Site, bw: int)
    requires city in sites && target in sites
    ensures FirstRound(sites, city, target, bw, 1, 1) ==
              if SelectionAfter(sites, city, target, bw, 1).Some? then Some(1) else None
  {
  }

  /** The first round is pinned down by the rounds before it failing. */
  lemma FirstRoundIs(sites: map<Site, SiteResult>, city: Site, target: Site, bw: int, k: nat, fuel: nat)
    requires city in sites && target in sites && 1 <= k <= fuel
    requires forall j: nat | 1 <= j < k :: SelectionAfter(sites, city, target, bw, j).None?
    requires SelectionAfter(sites, city, target, bw, k).Some?
    ensures FirstRound(sites, city, target, bw, 1, fuel) == Some(k)
  {
  }

  /** Tier-2 routers bring no small port: a demand above 400 that is no multiple of 400,
      at a site without a free small port, fails every round. */
  lemma {:induction false} NeverConnects(sites: map<Site, SiteResult>, city: Site, target: Site, bw: int, k: nat, fuel: nat)
    requires city in sites && target in sites
    requires bw > 400 && bw % 400 != 0 && sites[city].external.g100 <= 0
    ensures FirstRound(sites, city, target, bw, k, fuel).None?
    decreases fuel + 1 - k
  {
    if k <= fuel {
      var g := Grown(sites, city, bw, k);
      assert g[city].external.g100 == sites[city].external.g100 by {
        RoutersKeepSmall(sites[city], k);
      }
      NoSmallPortNoConnection(g[city].external, g[target].external, bw);
      NeverConnects(sites, city, target, bw, k + 1, fuel);
    }
  }

  /** Tier-2 routers leave the small ports as they are. */
  lemma {:induction false} RoutersKeepSmall(r: SiteResult, k: nat)
    ensures Routers(r, T2, k).external.g100 == r.external.g100
  {
    if k > 0 {
      RoutersKeepSmall(r, k - 1);
    }
  }

  /** A site after `updatePorts`: `used` taken from its external inventory. */
  function Debit(r: SiteResult, used: Ports): SiteResult {
    r.(external := Ports(r.external.g100 - used.g100, r.external.g400 - used.g400))
  }

  function Usage(k: Connection): Ports {
    Ports(k.g100PortsUsed, k.g400PortsUsed)
  }

  /** The ports connection `k` takes at site `c`: once per end at `c`. */
  function Take(k: Connection, c: Site): Ports {
    var a := if k.from == c then Usage(k) else Ports(0, 0);
    var b := if k.to == c then Usage(k) else Ports(0, 0);
    Ports(a.g100 + b.g100, a.g400 + b.g400)
  }

  /** All ports the connections take at site `c`. */
  function Used(conns: seq<Connection>, c: Site): Ports {
    if conns == [] then Ports(0, 0)
    else
      var u := Used(conns[..|conns| - 1], c);
      var t := Take(conns[|conns| - 1], c);
      Ports(u.g100 + t.g100, u.g400 + t.g400)
  }

  lemma UsedAppend(conns: seq<Connection>, k: Connection, c: Site)
    ensures var u, t := Used(conns, c), Take(k, c);
            Used(conns + [k], c) == Ports(u.g100 + t.g100, u.g400 + t.g400)
  {
    assert (conns + [k])[..|conns|] == conns;
  }

  /** Site `now` is site `init` after routers were added to it and connections took
      ports from it: only router counts and external ports differ, router counts only
      grew, and every external port is accounted for — sized, plus those of the added
      routers, minus those the connections took. */
  ghost predicate Evolved(init: SiteResult, now: SiteResult, conns: seq<Connection>, c: Site) {
    var d1, d2 := now.t1Routes - init.t1Routes, now.t2Routes - init.t2Routes;
    var u := Used(conns, c);
    && now == init.(t1Routes := now.t1Routes, t2Routes := now.t2Routes, external := now.external)
    && d1 >= 0 && d2 >= 0
    && now.external == Ports(init.external.g100 + 8 * d1 - u.g100, init.external.g400 + 2 * d1 + 8 * d2 - u.g400)
  }

  /** One row of the skeleton: site `s[i]` paired with every later site. */
  function SkeletonRow(s: seq<Site>, i: int): (row: seq<Connection>)
    requires 0 <= i < |s|
  {
    seq(|s| - i - 1, j requires 0 <= j < |s| - i - 1 => Connection(s[i], s[i + 1 + j], 0, 0))
  }

  /** Row i grows by the pair (i, j) at its (j - i - 1)-th place. */
  lemma SkeletonRowStep(s: seq<Site>, i: int, j: int)
    requires 0 <= i < j < |s|
    ensures SkeletonRow(s, i)[..j - i] == SkeletonRow(s, i)[..j - i - 1] + [Connection(s[i], s[j], 0, 0)]
  {
    assert SkeletonRow(s, i)[j - i - 1] == Connection(s[i], s[j], 0, 0);
  }

  /** The first `i` rows of the skeleton. */
  function SkeletonRows(s: seq<Site>, i: int): seq<Connection>
    requires 0 <= i <= |s|
    decreases i
  {
    if i == 0 then [] else SkeletonRows(s, i - 1) + SkeletonRow(s, i - 1)
  }

  /** Step 1: one zero-usage connection per pair i < j of sites, in loop order. */
  function Skeleton(s: seq<Site>): seq<Connection> {
    SkeletonRows(s, |s|)
  }

  lemma {:induction false} SkeletonRowsLength(s: seq<Site>, i: int)
    requires 0 <= i <= |s|
    ensures 2 * |SkeletonRows(s, i)| == i * (2 * |s| - i - 1)
    decreases i
  {
    if i > 0 {
      SkeletonRowsLength(s, i - 1);
    }
  }

  /** The skeleton has k(k-1)/2 connections for k sites. */
  lemma SkeletonLength(s: seq<Site>)
    ensures |Skeleton(s)| == |s| * (|s| - 1) / 2
  {
    SkeletonRowsLength(s, |s|);
  }

  lemma {:induction false} SkeletonRowsPairs(s: seq<Site>, i: int)
    requires 0 <= i <= |s|
    ensures forall k | 0 <= k < |SkeletonRows(s, i)| :: Usage(SkeletonRows(s, i)[k]) == Ports(0, 0)
    ensures forall a, b | 0 <= a < i && a < b < |s| :: Connection(s[a], s[b], 0, 0) in SkeletonRows(s, i)
    decreases i
  {
    if i > 0 {
      SkeletonRowsPairs(s, i - 1);
      var prev, row := SkeletonRows(s, i - 1), SkeletonRow(s, i - 1);
      forall a, b | 0 <= a < i && a < b < |s|
        ensures Connection(s[a], s[b], 0, 0) in prev + row
      {
        if a == i - 1 {
          assert row[b - i] == Connection(s[a], s[b], 0, 0);
          assert (prev + row)[|prev| + b - i] == row[b - i];
        } else {
          assert Connection(s[a], s[b], 0, 0) in prev;
        }
      }
    }
  }

  /** Every connection of the skeleton uses no port, and every pair of sites i < j has
      one. */
  lemma SkeletonPairs(s: seq<Site>)
    ensures forall k | 0 <= k < |Skeleton(s)| :: Usage(Skeleton(s)[k]) == Ports(0, 0)
    ensures forall a, b | 0 <= a < b < |s| :: Connection(s[a], s[b], 0, 0) in Skeleton(s)
  {
    SkeletonRowsPairs(s, |s|);
  }

  /** Zero-usage connections take no ports. */
  lemma {:induction false} UsedZero(conns: seq<Connection>, extra: seq<Connection>, c: Site)
    requires forall k | 0 <= k < |extra| :: Usage(extra[k]) == Ports(0, 0)
    ensures Used(conns + extra, c) == Used(conns, c)
    decreases |extra|
  {
    if extra != [] {
      var init := extra[..|extra| - 1];
      assert conns + extra == (conns + init) + [extra[|extra| - 1]];
      UsedAppend(conns + init, extra[|extra| - 1], c);
      UsedZero(conns, init, c);
    } else {
      assert conns + extra == conns;
    }
  }

  /** `cityData`: each site's result, the last tuple of a site winning. */
  function LastBy(results: seq<SiteResult>): map<Site, SiteResult> {
    if results == [] then map[]
    else LastBy(results[..|results| - 1])[results[|results| - 1].city := results[|results| - 1]]
  }

  /** `Object.keys(cityData)`: the sites in order of first appearance. */
  function Cities(results: seq<SiteResult>): seq<Site> {
    if results == [] then []
    else
      var prev := Cities(results[..|results| - 1]);
      var c := results[|results| - 1].city;
      if c in prev then prev else prev + [c]
  }

  /** Result `i` is the last one for its site: the one `cityData` holds, and the one
      the topology updates in place. */
  predicate IsLast(results: seq<SiteResult>, i: int)
    requires 0 <= i < |results|
  {
    forall j | i < j < |results| :: results[j].city != results[i].city
  }

  predicate Distinct(s: seq<Site>) {
    forall i, j | 0 <= i < j < |s| :: s[i] != s[j]
  }

  /** The site index holds each site's last result under its own name; the site list
      names each of them once. */
  lemma {:induction false} LastByIndex(results: seq<SiteResult>)
    ensures forall c | c in LastBy(results) :: LastBy(results)[c].city == c
    ensures forall i | 0 <= i < |results| :: results[i].city in LastBy(results)
    ensures forall i | 0 <= i < |results| && IsLast(results, i) :: LastBy(results)[results[i].city] == results[i]
    ensures forall c :: c in Cities(results) <==> c in LastBy(results)
    ensures Distinct(Cities(results))
    decreases |results|
  {
    if results != [] {
      var prefix := results[..|results| - 1];
      LastByIndex(prefix);
      forall i | 0 <= i < |results| - 1 && IsLast(results, i)
        ensures LastBy(results)[results[i].city] == results[i]
      {
        assert IsLast(prefix, i);
      }
    }
  }

  /** `{ ...result.externalRequirements }`: a copy of the row, `{}` for `undefined`. */
  function RowCopy(row: Option<Rec<int>>): Rec<int> {
    if row.Some? then row.value else EmptyRec()
  }

  /** The initial `unmetRequirements`: each site's row, from its last result. */
  function Rows(results: seq<SiteResult>): map<Site, Rec<int>> {
    var last := LastBy(results);
    map c | c in last :: RowCopy(last[c].externalRequirements)
  }

  /** What site `c` asks of site `t` in `rows`; no entry counts as 0. */
  function Demand(rows: map<Site, Rec<int>>, c: Site, t: Site): int {
    if c in rows && rows[c].Get(t).Some? then rows[c].Get(t).value else 0
  }

  /** What `buildTopology` needs not to throw: every site has a requirement row, and
      every target of a non-zero demand is a site. */
  ghost predicate Ready(results: seq<SiteResult>) {
    var last := LastBy(results);
    && (forall c | c in last :: last[c].externalRequirements.Some? && last[c].externalRequirements.value.Valid())
    && (forall c, t | c in last && Demand(Rows(results), c, t) != 0 :: t in last)
  }

  /** The inputs under which no external inventory can go negative: none is negative to
      start with, and no site demands bandwidth from itself. */
  ghost predicate Guarded(results: seq<SiteResult>) {
    && (forall i | 0 <= i < |results| :: NonNeg(results[i].external))
    && (forall c | c in LastBy(results) :: Demand(Rows(results), c, c) <= 0)
  }

  /** Connection `k` joins `c` and `t` and carries `bw`. */
  ghost predicate Serves(k: Connection, c: Site, t: Site, bw: int) {
    && ((k.from == c && k.to == t) || (k.from == t && k.to == c))
    && Capacity(Usage(k)) >= bw
  }

  /** A connection after the skeleton joins `c` and `t` and carries what one of the two
      asks of the other. */
  ghost predicate Served(conns: seq<Connection>, base: int, rows: map<Site, Rec<int>>, c: Site, t: Site) {
    exists j | 0 <= base <= j < |conns| :: Serves(conns[j], c, t, Demand(rows, c, t)) || Serves(conns[j], c, t, Demand(rows, t, c))
  }

  /** The index of the result the site index holds for `c`. */
  lemma {:induction false} LastIndex(results: seq<SiteResult>, c: Site) returns (i: int)
    requires c in LastBy(results)
    ensures 0 <= i < |results| && LastBy(results)[c] == results[i]
    decreases |results|
  {
    var n := |results| - 1;
    if results[n].city == c {
      i := n;
    } else {
      i := LastIndex(results[..n], c);
    }
  }

  /** What the steps of `buildTopology` never change: every result and every listed
      site is in the site index, each site carries its requirement row, and the rows
      meet the preconditions of the source. */
  ghost predicate Indexed(results: seq<SiteResult>, initial: map<Site, SiteResult>, demand: map<Site, Rec<int>>,
                          guarded: bool, order: seq<Site>)
  {
    && (forall i | 0 <= i < |results| :: results[i].city in initial)
    && (forall k | 0 <= k < |order| :: order[k] in initial)
    && (forall c | c in initial :: c in demand && initial[c].externalRequirements == Some(demand[c]) && demand[c].Valid())
    && (forall c, t | c in initial && Demand(demand, c, t) != 0 :: t in initial)
    && (guarded ==> forall c | c in initial :: Demand(demand, c, c) <= 0)
  }

  /** One unmet row per site, each a well-formed record. */
  ghost predicate RowsValid(initial: map<Site, SiteResult>, unmet: map<Site, Rec<int>>) {
    forall c | c in initial :: c in unmet && unmet[c].Valid()
  }

  /** Every site is its sized result plus added routers minus connected ports. */
  ghost predicate Ledger(initial: map<Site, SiteResult>, sites: map<Site, SiteResult>, conns: seq<Connection>) {
    forall c | c in initial :: c in sites && Evolved(initial[c], sites[c], conns, c)
  }

  /** An unmet entry is still the site's demand or has been set to 0, and a positive
      demand set to 0 has an allocated connection that carries it. */
  ghost predicate Pending(initial: map<Site, SiteResult>, demand: map<Site, Rec<int>>, unmet: map<Site, Rec<int>>,
                          conns: seq<Connection>, base: int)
  {
    && (forall c, t | c in initial && c in unmet && c in demand ::
          unmet[c].Get(t) == demand[c].Get(t) || unmet[c].Get(t) == Some(0))
    && (forall c, t | c in initial && c in unmet && Demand(demand, c, t) > 0 && unmet[c].Get(t) == Some(0) ::
          Served(conns, base, demand, c, t))
  }

  /** On guarded inputs no external inventory is negative. */
  ghost predicate Safe(initial: map<Site, SiteResult>, guarded: bool, sites: map<Site, SiteResult>) {
    guarded ==> forall c | c in initial && c in sites :: NonNeg(sites[c].external)
  }

  /** The invariant of `buildTopology`'s state, on plain values. */
  ghost predicate Inv(results: seq<SiteResult>, initial: map<Site, SiteResult>, demand: map<Site, Rec<int>>,
                      guarded: bool, order: seq<Site>, sites: map<Site, SiteResult>, unmet: map<Site, Rec<int>>,
                      conns: seq<Connection>, base: int)
  {
    && Indexed(results, initial, demand, guarded, order)
    && RowsValid(initial, unmet)
    && 0 <= base <= |conns|
    && Ledger(initial, sites, conns)
    && Pending(initial, demand, unmet, conns, base)
    && Safe(initial, guarded, sites)
  }

  /** The state right after the first loop: every site as sized, every demand unmet. */
  lemma InitialInv(results: seq<SiteResult>)
    requires Ready(results)
    ensures Inv(results, LastBy(results), Rows(results), Guarded(results), Cities(results),
                LastBy(results), Rows(results), [], 0)
  {
    LastByIndex(results);
    var last := LastBy(results);
    if Guarded(results) {
      forall c | c in last ensures NonNeg(last[c].external) {
        var i := LastIndex(results, c);
      }
    }
  }

  /** What the invariant says about one site. */
  lemma SiteView(results: seq<SiteResult>, initial: map<Site, SiteResult>, demand: map<Site, Rec<int>>,
                 guarded: bool, order: seq<Site>, sites: map<Site, SiteResult>, unmet: map<Site, Rec<int>>,
                 conns: seq<Connection>, base: int, c: Site)
    requires Inv(results, initial, demand, guarded, order, sites, unmet, conns, base) && c in initial
    ensures c in sites && c in demand && c in unmet
    ensures sites[c].externalRequirements == Some(demand[c]) && demand[c].Valid() && unmet[c].Valid()
    ensures forall t :: unmet[c].Get(t) == demand[c].Get(t) || unmet[c].Get(t) == Some(0)
    ensures forall t :: Demand(demand, c, t) == if demand[c].Get(t).Some? then demand[c].Get(t).value else 0
    ensures forall t | Demand(demand, c, t) != 0 :: t in initial && t in sites && t in unmet
    ensures guarded ==> NonNeg(sites[c].external) && Demand(demand, c, c) <= 0
  {
  }

  lemma ServedExtends(conns: seq<Connection>, k: Connection, base: int, rows: map<Site, Rec<int>>, c: Site, t: Site)
    requires Served(conns, base, rows, c, t)
    ensures Served(conns + [k], base, rows, c, t)
  {
    var j :| 0 <= base <= j < |conns| && (Serves(conns[j], c, t, Demand(rows, c, t)) || Serves(conns[j], c, t, Demand(rows, t, c)));
    assert (conns + [k])[j] == conns[j];
  }

  /** The sites after `addConnection` from `a` to `b`: `used` taken at both ends (twice
      from a site connected to itself). */
  function DebitBoth(sites: map<Site, SiteResult>, a: Site, b: Site, used: Ports): map<Site, SiteResult>
    requires a in sites && b in sites
  {
    var once := sites[a := Debit(sites[a], used)];
    once[b := Debit(once[b], used)]
  }

  /** `unmetRequirements` after a demand between `a` and `b` is met: both entries 0. */
  function Zeroed(unmet: map<Site, Rec<int>>, a: Site, b: Site): map<Site, Rec<int>>
    requires a in unmet && b in unmet && unmet[a].Valid() && unmet[b].Valid()
  {
    var once := unmet[a := unmet[a].Put(b, 0)];
    once[b := once[b].Put(a, 0)]
  }

  /** Meeting a demand sets exactly its two entries to 0 and keeps the rows well formed. */
  lemma ZeroedGet(unmet: map<Site, Rec<int>>, a: Site, b: Site)
    requires a in unmet && b in unmet && unmet[a].Valid() && unmet[b].Valid()
    ensures var z := Zeroed(unmet, a, b);
            && (forall c :: c in z <==> c in unmet)
            && (forall c | c in unmet && unmet[c].Valid() :: z[c].Valid())
            && (forall c, t | c in unmet ::
                  z[c].Get(t) == if (c == a && t == b) || (c == b && t == a) then Some(0) else unmet[c].Get(t))
  {
  }

  /** A router added at a site keeps the invariant. */
  lemma RouterKeepsInv(results: seq<SiteResult>, initial: map<Site, SiteResult>, demand: map<Site, Rec<int>>,
                       guarded: bool, order: seq<Site>, sites: map<Site, SiteResult>, unmet: map<Site, Rec<int>>,
                       conns: seq<Connection>, base: int, city: Site, tier: Tier)
    requires Inv(results, initial, demand, guarded, order, sites, unmet, conns, base) && city in sites
    ensures Inv(results, initial, demand, guarded, order, sites[city := WithRouter(sites[city], tier)], unmet, conns, base)
  {
    var sites' := sites[city := WithRouter(sites[city], tier)];
    forall c | c in initial ensures c in sites' && Evolved(initial[c], sites'[c], conns, c) {
      assert Evolved(initial[c], sites[c], conns, c);
    }
  }

  /** A connection whose ports fit both ends (on guarded inputs) keeps the invariant. */
  lemma ConnectKeepsInv(results: seq<SiteResult>, initial: map<Site, SiteResult>, demand: map<Site, Rec<int>>,
                        guarded: bool, order: seq<Site>, sites: map<Site, SiteResult>, unmet: map<Site, Rec<int>>,
                        conns: seq<Connection>, base: int, from: Site, to: Site, used: Ports)
    requires Inv(results, initial, demand, guarded, order, sites, unmet, conns, base)
    requires from in sites && to in sites
    requires guarded ==> && Fits(used, sites[from].external) && Fits(used, sites[to].external)
                         && (from == to ==> used == Ports(0, 0))
    ensures Inv(results, initial, demand, guarded, order, DebitBoth(sites, from, to, used), unmet,
                conns + [Connection(from, to, used.g100, used.g400)], base)
  {
    var k := Connection(from, to, used.g100, used.g400);
    LedgerConnect(initial, sites, conns, from, to, used);
    PendingConnect(initial, demand, unmet, conns, base, k);
  }

  /** A new connection's ports, taken at both ends, keep every site's account. */
  lemma LedgerConnect(initial: map<Site, SiteResult>, sites: map<Site, SiteResult>, conns: seq<Connection>,
                      from: Site, to: Site, used: Ports)
    requires Ledger(initial, sites, conns) && from in sites && to in sites
    ensures Ledger(initial, DebitBoth(sites, from, to, used), conns + [Connection(from, to, used.g100, used.g400)])
  {
    var k := Connection(from, to, used.g100, used.g400);
    var sites' := DebitBoth(sites, from, to, used);
    forall c | c in initial ensures c in sites' && Evolved(initial[c], sites'[c], conns + [k], c) {
      assert Evolved(initial[c], sites[c], conns, c);
      UsedAppend(conns, k, c);
    }
  }

  /** A new connection leaves every met demand served. */
  lemma PendingConnect(initial: map<Site, SiteResult>, demand: map<Site, Rec<int>>, unmet: map<Site, Rec<int>>,
                       conns: seq<Connection>, base: int, k: Connection)
    requires Pending(initial, demand, unmet, conns, base)
    ensures Pending(initial, demand, unmet, conns + [k], base)
  {
    forall c, t | c in initial && c in unmet && Demand(demand, c, t) > 0 && unmet[c].Get(t) == Some(0)
      ensures Served(conns + [k], base, demand, c, t)
    {
      ServedExtends(conns, k, base, demand, c, t);
    }
  }

  /** Setting both entries of a pair to 0, once the last connection carries the demand,
      keeps the invariant. */
  lemma SettleKeepsInv(results: seq<SiteResult>, initial: map<Site, SiteResult>, demand: map<Site, Rec<int>>,
                       guarded: bool, order: seq<Site>, sites: map<Site, SiteResult>, unmet: map<Site, Rec<int>>,
                       conns: seq<Connection>, base: int, city: Site, targetCity: Site, bw: int)
    requires Inv(results, initial, demand, guarded, order, sites, unmet, conns, base)
    requires city in initial && targetCity in initial && base < |conns|
    requires Demand(demand, city, targetCity) == bw && Serves(conns[|conns| - 1], city, targetCity, bw)
    ensures city in unmet && targetCity in unmet && unmet[city].Valid() && unmet[targetCity].Valid()
    ensures Inv(results, initial, demand, guarded, order, sites, Zeroed(unmet, city, targetCity), conns, base)
  {
    ZeroedGet(unmet, city, targetCity);
    var z := Zeroed(unmet, city, targetCity);
    forall c, t | c in initial && c in z && Demand(demand, c, t) > 0 && z[c].Get(t) == Some(0)
      ensures Served(conns, base, demand, c, t)
    {
      if (c == city && t == targetCity) || (c == targetCity && t == city) {
        assert Serves(conns[|conns| - 1], c, t, Demand(demand, c, t)) || Serves(conns[|conns| - 1], c, t, Demand(demand, t, c));
      } else {
        assert unmet[c].Get(t) == Some(0);
      }
    }
  }

  /** Zero-usage skeleton connections keep the invariant, the demands all still unmet. */
  lemma SkeletonKeepsInv(results: seq<SiteResult>, initial: map<Site, SiteResult>, demand: map<Site, Rec<int>>,
                         guarded: bool, order: seq<Site>, sites: map<Site, SiteResult>, unmet: map<Site, Rec<int>>,
                         conns: seq<Connection>)
    requires unmet == demand && Inv(results, initial, demand, guarded, order, sites, unmet, [], 0)
    requires conns == Skeleton(order)
    ensures Inv(results, initial, demand, guarded, order, sites, unmet, conns, |conns|)
  {
    SkeletonPairs(order);
    forall c | c in initial ensures c in sites && Evolved(initial[c], sites[c], conns, c) {
      assert Evolved(initial[c], sites[c], [], c);
      UsedZero([], conns, c);
      assert [] + conns == conns;
    }
  }

  /** The positive demands of the listed sites are all marked met. */
  ghost predicate RowsMet(demand: map<Site, Rec<int>>, unmet: map<Site, Rec<int>>, cities: seq<Site>, n: int) {
    forall k, t | 0 <= k < n && k < |cities| && Demand(demand, cities[k], t) > 0 ::
      cities[k] in unmet && unmet[cities[k]].Get(t) == Some(0)
  }

  /** The positive demands of `city` on the first `n` listed targets are marked met. */
  ghost predicate EntriesMet(demand: map<Site, Rec<int>>, unmet: map<Site, Rec<int>>, city: Site, targets: seq<Site>, n: int) {
    forall l | 0 <= l < n && l < |targets| && Demand(demand, city, targets[l]) > 0 ::
      city in unmet && unmet[city].Get(targets[l]) == Some(0)
  }

  /** The entries of `city` from the `n`-th on are still as listed in `entries`. */
  ghost predicate EntriesFresh(unmet: map<Site, Rec<int>>, city: Site, entries: Rec<int>, n: int) {
    forall l | 0 <= n <= l < |entries.keys| :: city in unmet && unmet[city].Get(entries.keys[l]) == entries.Get(entries.keys[l])
  }

  /** An unmet entry that is not 0 is still the demand; a positive demand's entry is the
      demand or 0. */
  lemma EntryDemand(results: seq<SiteResult>, initial: map<Site, SiteResult>, demand: map<Site, Rec<int>>,
                    guarded: bool, order: seq<Site>, sites: map<Site, SiteResult>, unmet: map<Site, Rec<int>>,
                    conns: seq<Connection>, base: int, city: Site, t: Site, v: int)
    requires Inv(results, initial, demand, guarded, order, sites, unmet, conns, base) && city in initial
    requires city in unmet && unmet[city].Get(t) == Some(v)
    ensures v != 0 ==> Demand(demand, city, t) == v && t in initial
    ensures Demand(demand, city, t) > 0 && v <= 0 ==> v == 0
  {
    SiteView(results, initial, demand, guarded, order, sites, unmet, conns, base, city);
  }

  /** One more entry of `city` done. */
  lemma EntriesStep(demand: map<Site, Rec<int>>, unmet: map<Site, Rec<int>>, city: Site, targets: seq<Site>, n: int)
    requires 0 <= n < |targets| && EntriesMet(demand, unmet, city, targets, n)
    requires Demand(demand, city, targets[n]) > 0 ==> city in unmet && unmet[city].Get(targets[n]) == Some(0)
    ensures EntriesMet(demand, unmet, city, targets, n + 1)
  {
  }

  /** Meeting the demand of the `n`-th entry of `city` keeps what the step-3 loops know. */
  lemma ZeroedKeepsProgress(demand: map<Site, Rec<int>>, unmet: map<Site, Rec<int>>, order: seq<Site>, i: int,
                            city: Site, entries: Rec<int>, n: int)
    requires 0 <= n < |entries.keys| && entries.Valid()
    requires var t := entries.keys[n]; city in unmet && t in unmet && unmet[city].Valid() && unmet[t].Valid()
    requires RowsMet(demand, unmet, order, i) && EntriesMet(demand, unmet, city, entries.keys, n)
    requires EntriesFresh(unmet, city, entries, n)
    ensures var z := Zeroed(unmet, city, entries.keys[n]);
            && RowsMet(demand, z, order, i) && EntriesMet(demand, z, city, entries.keys, n + 1)
            && EntriesFresh(z, city, entries, n + 1)
  {
    ZeroedGet(unmet, city, entries.keys[n]);
  }

  /** Once every entry of `city` is done, the positive demands of `city` are all met. */
  lemma RowDone(demand: map<Site, Rec<int>>, unmet: map<Site, Rec<int>>, order: seq<Site>, i: int,
                entries: Rec<int>)
    requires 0 <= i < |order| && entries.Valid()
    requires forall t | Demand(demand, order[i], t) > 0 :: t in entries.vals
    requires RowsMet(demand, unmet, order, i) && EntriesMet(demand, unmet, order[i], entries.keys, |entries.keys|)
    requires order[i] in unmet
    ensures RowsMet(demand, unmet, order, i + 1)
  {
    forall k, t | 0 <= k < i + 1 && Demand(demand, order[k], t) > 0
      ensures order[k] in unmet && unmet[order[k]].Get(t) == Some(0)
    {
      if k == i {
        var l :| 0 <= l < |entries.keys| && entries.keys[l] == t;
      }
    }
  }

  /** The nodes `buildTopology` returns: its input results, of which the last one of each
      site was updated in place and the others are as they were. */
  function WriteBack(results: seq<SiteResult>, sites: map<Site, SiteResult>): (nodes: seq<SiteResult>)
    requires forall i | 0 <= i < |results| :: results[i].city in sites
    ensures |nodes| == |results|
  {
    seq(|results|, i requires 0 <= i < |results| => if IsLast(results, i) then sites[results[i].city] else results[i])
  }

  /** The last result of a site is returned as the site stands at the end; every other
      result is returned as given. */
  lemma WriteBackLast(results: seq<SiteResult>, sites: map<Site, SiteResult>)
    requires forall i | 0 <= i < |results| :: results[i].city in sites
    ensures forall i | 0 <= i < |results| ::
              WriteBack(results, sites)[i] == if IsLast(results, i) then sites[results[i].city] else results[i]
  {
  }

  /** Only external ports changed: every site keeps its router counts and the rest. */
  ghost predicate SameRouters(sites0: map<Site, SiteResult>, sites: map<Site, SiteResult>) {
    && (forall c :: c in sites <==> c in sites0)
    && forall c | c in sites0 :: sites[c] == sites0[c].(external := sites[c].external)
  }

  /** Entries of `unmetRequirements` only ever drop to 0. */
  ghost predicate Lowered(unmet0: map<Site, Rec<int>>, unmet: map<Site, Rec<int>>) {
    && (forall c :: c in unmet <==> c in unmet0)
    && forall c, t | c in unmet0 :: unmet[c].Get(t) == unmet0[c].Get(t) || unmet[c].Get(t) == Some(0)
  }

  /** Connection `k` of step 2: its pair was unmet both ways when step 2 began (`unmet0`),
      is met both ways now, and it carries what `from` asks of `to`. */
  ghost predicate DirectLink(demand: map<Site, Rec<int>>, unmet0: map<Site, Rec<int>>, unmet: map<Site, Rec<int>>, k: Connection) {
    && k.from in unmet0 && k.to in unmet0 && k.from in unmet && k.to in unmet
    && unmet0[k.from].Get(k.to) != Some(0) && unmet0[k.to].Get(k.from) != Some(0)
    && unmet[k.from].Get(k.to) == Some(0) && unmet[k.to].Get(k.from) == Some(0)
    && Serves(k, k.from, k.to, Demand(demand, k.from, k.to))
  }

  /** The state step 2 works on: inventories, unmet rows and connections. */
  datatype Pass = Pass(sites: map<Site, SiteResult>, unmet: map<Site, Rec<int>>, conns: seq<Connection>)

  /** One entry of step 2 on values: a pair met in either direction is skipped;
      otherwise `canDirectlyConnect` on the current inventories decides, and a selection
      is connected, debited at both ends and marked met both ways. */
  ghost function DirectTry(p: Pass, city: Site, target: Site, bw: int): Pass {
    if && city in p.sites && target in p.sites && city in p.unmet && target in p.unmet
       && p.unmet[city].Valid() && p.unmet[target].Valid()
       && p.unmet[city].Get(target) != Some(0) && p.unmet[target].Get(city) != Some(0)
    then
      var conn := CanDirectlyConnect(p.sites[city].external, p.sites[target].external, bw);
      if conn.Some?
      then Pass(DebitBoth(p.sites, city, target, conn.value), Zeroed(p.unmet, city, target),
                p.conns + [Connection(city, target, conn.value.g100, conn.value.g400)])
      else p
    else p
  }

  /** The keys of `c`'s requirement row, in key order. */
  function RowKeys(rows: map<Site, Rec<int>>, c: Site): seq<Site> {
    if c in rows then rows[c].keys else []
  }

  /** Step 2 for the entries `targets` of `city`'s row, in order. */
  ghost function RowPass(p: Pass, rows: map<Site, Rec<int>>, city: Site, targets: seq<Site>): Pass
    decreases |targets|
  {
    if targets == [] then p
    else
      var t := targets[|targets| - 1];
      DirectTry(RowPass(p, rows, city, targets[..|targets| - 1]), city, t, Demand(rows, city, t))
  }

  /** Reference for step 2: the rows of `cities`, in order. */
  ghost function StepTwo(p: Pass, rows: map<Site, Rec<int>>, cities: seq<Site>): Pass
    decreases |cities|
  {
    if cities == [] then p
    else
      var c := cities[|cities| - 1];
      RowPass(StepTwo(p, rows, cities[..|cities| - 1]), rows, c, RowKeys(rows, c))
  }

  /** One more entry of the row: the fold over `targets[..j + 1]` is one `DirectTry`
      after the fold over `targets[..j]`. */
  lemma RowPassStep(p: Pass, rows: map<Site, Rec<int>>, city: Site, targets: seq<Site>, j: int)
    requires 0 <= j < |targets|
    ensures RowPass(p, rows, city, targets[..j + 1]) ==
              DirectTry(RowPass(p, rows, city, targets[..j]), city, targets[j], Demand(rows, city, targets[j]))
  {
    assert targets[..j + 1][..j] == targets[..j];
  }

  /** One more site: the fold over `cities[..i + 1]` is its row's fold after the fold
      over `cities[..i]`. */
  lemma StepTwoStep(p: Pass, rows: map<Site, Rec<int>>, cities: seq<Site>, i: int)
    requires 0 <= i < |cities|
    ensures StepTwo(p, rows, cities[..i + 1]) == RowPass(StepTwo(p, rows, cities[..i]), rows, cities[i], RowKeys(rows, cities[i]))
  {
    assert cities[..i + 1][..i] == cities[..i];
  }

  /** What step 2 has done since the state `sites0`, `unmet0` with `n0` connections: no
      router added, entries only dropped to 0, and every connection after the first `n0`
      a direct link for its own pair, no two for the same pair. */
  ghost predicate DirectSoFar(demand: map<Site, Rec<int>>, sites0: map<Site, SiteResult>, unmet0: map<Site, Rec<int>>, n0: int,
                              sites: map<Site, SiteResult>, unmet: map<Site, Rec<int>>, conns: seq<Connection>)
  {
    && 0 <= n0 <= |conns|
    && SameRouters(sites0, sites)
    && Lowered(unmet0, unmet)
    && Links(demand, unmet0, unmet, conns, n0)
    && Apart(conns, n0)
  }

  ghost predicate Links(demand: map<Site, Rec<int>>, unmet0: map<Site, Rec<int>>, unmet: map<Site, Rec<int>>, conns: seq<Connection>, n0: int) {
    forall j | 0 <= n0 <= j < |conns| :: DirectLink(demand, unmet0, unmet, conns[j])
  }

  /** No two connections after the first `n0` join the same pair. */
  ghost predicate Apart(conns: seq<Connection>, n0: int) {
    forall j1, j2 | 0 <= n0 <= j1 < j2 < |conns| :: !Serves(conns[j2], conns[j1].from, conns[j1].to, 0)
  }

  lemma SameRoutersStep(sites0: map<Site, SiteResult>, sites: map<Site, SiteResult>, a: Site, b: Site, used: Ports)
    requires SameRouters(sites0, sites) && a in sites && b in sites
    ensures SameRouters(sites0, DebitBoth(sites, a, b, used))
  {
  }

  lemma LoweredStep(unmet0: map<Site, Rec<int>>, unmet: map<Site, Rec<int>>, a: Site, b: Site)
    requires Lowered(unmet0, unmet) && a in unmet && b in unmet && unmet[a].Valid() && unmet[b].Valid()
    ensures Lowered(unmet0, Zeroed(unmet, a, b))
  {
    ZeroedGet(unmet, a, b);
  }

  lemma LinksStep(demand: map<Site, Rec<int>>, unmet0: map<Site, Rec<int>>, unmet: map<Site, Rec<int>>, conns: seq<Connection>, n0: int,
                  a: Site, b: Site, used: Ports)
    requires 0 <= n0 <= |conns| && Links(demand, unmet0, unmet, conns, n0) && Lowered(unmet0, unmet)
    requires a in unmet && b in unmet && unmet[a].Valid() && unmet[b].Valid()
    requires unmet[a].Get(b) != Some(0) && unmet[b].Get(a) != Some(0)
    requires Capacity(used) >= Demand(demand, a, b)
    ensures Links(demand, unmet0, Zeroed(unmet, a, b), conns + [Connection(a, b, used.g100, used.g400)], n0)
  {
    ZeroedGet(unmet, a, b);
    var conns1, unmet1 := conns + [Connection(a, b, used.g100, used.g400)], Zeroed(unmet, a, b);
    forall j | n0 <= j < |conns1| ensures DirectLink(demand, unmet0, unmet1, conns1[j]) {
      if j == |conns| {
        assert unmet[a].Get(b) == unmet0[a].Get(b) && unmet[b].Get(a) == unmet0[b].Get(a);
      } else {
        assert conns1[j] == conns[j];
      }
    }
  }

  lemma ApartStep(demand: map<Site, Rec<int>>, unmet0: map<Site, Rec<int>>, unmet: map<Site, Rec<int>>, conns: seq<Connection>, n0: int,
                  a: Site, b: Site, used: Ports)
    requires 0 <= n0 <= |conns| && Links(demand, unmet0, unmet, conns, n0) && Apart(conns, n0)
    requires a in unmet && b in unmet && unmet[a].Get(b) != Some(0) && unmet[b].Get(a) != Some(0)
    ensures Apart(conns + [Connection(a, b, used.g100, used.g400)], n0)
  {
    var conns1 := conns + [Connection(a, b, used.g100, used.g400)];
    forall j1, j2 | n0 <= j1 < j2 < |conns1| ensures !Serves(conns1[j2], conns1[j1].from, conns1[j1].to, 0) {
      if j2 == |conns| {
        assert DirectLink(demand, unmet0, unmet, conns[j1]);
      } else {
        assert conns1[j2] == conns[j2] && conns1[j1] == conns[j1];
      }
    }
  }

  /** Connecting a pair unmet both ways, and marking it met, extends step 2's record. */
  lemma DirectStep(demand: map<Site, Rec<int>>, sites0: map<Site, SiteResult>, unmet0: map<Site, Rec<int>>, n0: int,
                   sites: map<Site, SiteResult>, unmet: map<Site, Rec<int>>, conns: seq<Connection>,
                   city: Site, target: Site, used: Ports)
    requires DirectSoFar(demand, sites0, unmet0, n0, sites, unmet, conns)
    requires city in sites && target in sites && city in unmet && target in unmet
    requires unmet[city].Valid() && unmet[target].Valid()
    requires unmet[city].Get(target) != Some(0) && unmet[target].Get(city) != Some(0)
    requires Capacity(used) >= Demand(demand, city, target)
    ensures DirectSoFar(demand, sites0, unmet0, n0, DebitBoth(sites, city, target, used), Zeroed(unmet, city, target),
                        conns + [Connection(city, target, used.g100, used.g400)])
  {
    SameRoutersStep(sites0, sites, city, target, used);
    LoweredStep(unmet0, unmet, city, target);
    LinksStep(demand, unmet0, unmet, conns, n0, city, target, used);
    ApartStep(demand, unmet0, unmet, conns, n0, city, target, used);
  }

  /** The outcome of step 3 for the demand `bw` of `city` on `target`, from the state
      `sites0`, `unmet0`, `conns0`. If a round up to `fuel` connects, the first such
      round's routers are added, its selection appended and debited at both ends, and the
      pair marked met; otherwise `fuel` routers were added at `city` and nothing else
      changed. `connected` says which. */
  ghost predicate Escalated(sites0: map<Site, SiteResult>, unmet0: map<Site, Rec<int>>, conns0: seq<Connection>,
                            sites: map<Site, SiteResult>, unmet: map<Site, Rec<int>>, conns: seq<Connection>,
                            city: Site, target: Site, bw: int, fuel: nat, connected: bool)
  {
    && city in sites0 && target in sites0
    && city in unmet0 && target in unmet0 && unmet0[city].Valid() && unmet0[target].Valid()
    && (var r := FirstRound(sites0, city, target, bw, 1, fuel);
        && connected == r.Some?
        && (if r.Some? then ConnectedAt(sites0, unmet0, conns0, sites, unmet, conns, city, target, bw, r.value)
            else
              && sites == Grown(sites0, city, bw, fuel)
              && conns == conns0
              && unmet == unmet0))
  }

  /** The demand connected in round `k`: `k` routers at `city`, then that round's
      selection appended and debited at both ends, and the pair marked met. */
  ghost predicate ConnectedAt(sites0: map<Site, SiteResult>, unmet0: map<Site, Rec<int>>, conns0: seq<Connection>,
                              sites: map<Site, SiteResult>, unmet: map<Site, Rec<int>>, conns: seq<Connection>,
                              city: Site, target: Site, bw: int, k: nat)
    requires city in sites0 && target in sites0
    requires city in unmet0 && target in unmet0 && unmet0[city].Valid() && unmet0[target].Valid()
  {
    var sel := SelectionAfter(sites0, city, target, bw, k);
    && sel.Some?
    && sites == DebitBoth(Grown(sites0, city, bw, k), city, target, sel.value)
    && conns == conns0 + [Connection(city, target, sel.value.g100, sel.value.g400)]
    && unmet == Zeroed(unmet0, city, target)
  }

  /** What an escalation did to the connections and to `unmetRequirements`. */
  lemma EscalatedFacts(sites0: map<Site, SiteResult>, unmet0: map<Site, Rec<int>>, conns0: seq<Connection>,
                       sites: map<Site, SiteResult>, unmet: map<Site, Rec<int>>, conns: seq<Connection>,
                       city: Site, target: Site, bw: int, fuel: nat, connected: bool)
    requires Escalated(sites0, unmet0, conns0, sites, unmet, conns, city, target, bw, fuel, connected)
    ensures city in unmet0 && target in unmet0 && unmet0[city].Valid() && unmet0[target].Valid()
    ensures conns0 <= conns
    ensures connected ==> unmet == Zeroed(unmet0, city, target)
    ensures !connected ==> unmet == unmet0
  {
  }

  /** One entry of step 3: a positive demand is escalated, and `exhausted` says it ran
      out of fuel; any other entry is skipped. */
  ghost predicate EntryOutcome(sites0: map<Site, SiteResult>, unmet0: map<Site, Rec<int>>, conns0: seq<Connection>,
                               sites: map<Site, SiteResult>, unmet: map<Site, Rec<int>>, conns: seq<Connection>,
                               city: Site, target: Site, bw: int, fuel: nat, exhausted: bool)
  {
    if bw > 0 then Escalated(sites0, unmet0, conns0, sites, unmet, conns, city, target, bw, fuel, !exhausted)
    else !exhausted && sites == sites0 && unmet == unmet0 && conns == conns0
  }

  /** A demand of step 3 that did not connect within its fuel: `before` is the sites when
      its turn came. */
  datatype Stall = Stall(city: Site, target: Site, bw: int, before: map<Site, SiteResult>)

  /** `stall` names a positive demand between two sites that failed every one of `fuel`
      rounds, and `sites` is what those rounds left: `fuel` routers more at `city`. */
  ghost predicate Stalled(stall: Stall, initial: map<Site, SiteResult>, demand: map<Site, Rec<int>>,
                          fuel: nat, sites: map<Site, SiteResult>)
  {
    && stall.city in initial && stall.target in initial
    && Demand(demand, stall.city, stall.target) == stall.bw > 0
    && stall.city in stall.before && stall.target in stall.before
    && FirstRound(stall.before, stall.city, stall.target, stall.bw, 1, fuel).None?
    && sites == Grown(stall.before, stall.city, stall.bw, fuel)
  }

  /** The state step 3 has reached, and whether a demand ran out of fuel (after which
      step 3 goes no further). */
  datatype Run = Run(pass: Pass, exhausted: bool)

  /** One entry of step 3 on values: a positive demand between two listed sites connects
      in the first round up to `fuel` whose selection fits, after that many routers at
      `city`, or adds `fuel` routers there and runs out; any other entry is skipped. */
  ghost function EntryThree(p: Pass, city: Site, target: Site, bw: int, fuel: nat): Run {
    if && bw > 0 && city in p.sites && target in p.sites && city in p.unmet && target in p.unmet
       && p.unmet[city].Valid() && p.unmet[target].Valid()
    then
      var r := FirstRound(p.sites, city, target, bw, 1, fuel);
      if r.Some? then
        var sel := SelectionAfter(p.sites, city, target, bw, r.value);
        Run(Pass(DebitBoth(Grown(p.sites, city, bw, r.value), city, target, sel.value), Zeroed(p.unmet, city, target),
                 p.conns + [Connection(city, target, sel.value.g100, sel.value.g400)]), false)
      else Run(Pass(Grown(p.sites, city, bw, fuel), p.unmet, p.conns), true)
    else Run(p, false)
  }

  /** Step 3 for the entries `targets` of `city`, with the demands `snap` held when the
      site's turn began, in order, stopping at the first demand that runs out. */
  ghost function RowThree(p: Pass, snap: map<Site, Rec<int>>, city: Site, targets: seq<Site>, fuel: nat): Run
    decreases |targets|
  {
    if targets == [] then Run(p, false)
    else
      var r := RowThree(p, snap, city, targets[..|targets| - 1], fuel);
      var t := targets[|targets| - 1];
      if r.exhausted then r else EntryThree(r.pass, city, t, Demand(snap, city, t), fuel)
  }

  /** Reference for step 3: the rows of `cities` in order, each read as it stands when
      its turn begins, stopping at the first demand that runs out. */
  ghost function StepThree(p: Pass, cities: seq<Site>, fuel: nat): Run
    decreases |cities|
  {
    if cities == [] then Run(p, false)
    else
      var r := StepThree(p, cities[..|cities| - 1], fuel);
      var c := cities[|cities| - 1];
      if r.exhausted then r else RowThree(r.pass, r.pass.unmet, c, RowKeys(r.pass.unmet, c), fuel)
  }

  /** Reference for `buildTopology` with at most `fuel` rounds per demand: the sized
      results and requirement rows with the skeleton, then step 2, then step 3. */
  ghost function Planned(results: seq<SiteResult>, fuel: nat): Run {
    var order := Cities(results);
    StepThree(StepTwo(Pass(LastBy(results), Rows(results), Skeleton(order)), Rows(results), order), order, fuel)
  }

  /** What one entry of step 3 did is the reference step `EntryThree`. */
  lemma EntryThreeIs(sites0: map<Site, SiteResult>, unmet0: map<Site, Rec<int>>, conns0: seq<Connection>,
                     sites: map<Site, SiteResult>, unmet: map<Site, Rec<int>>, conns: seq<Connection>,
                     city: Site, target: Site, bw: int, fuel: nat, exhausted: bool)
    requires EntryOutcome(sites0, unmet0, conns0, sites, unmet, conns, city, target, bw, fuel, exhausted)
    ensures Run(Pass(sites, unmet, conns), exhausted) == EntryThree(Pass(sites0, unmet0, conns0), city, target, bw, fuel)
  {
  }

  /** One more entry of a row: after the entries before it, either a demand has run out
      and nothing changes, or the entry takes one `EntryThree`. */
  lemma RowThreeStep(p: Pass, snap: map<Site, Rec<int>>, city: Site, targets: seq<Site>, j: int, fuel: nat)
    requires 0 <= j < |targets|
    ensures var r := RowThree(p, snap, city, targets[..j], fuel);
            RowThree(p, snap, city, targets[..j + 1], fuel) ==
              if r.exhausted then r else EntryThree(r.pass, city, targets[j], Demand(snap, city, targets[j]), fuel)
  {
    assert targets[..j + 1][..j] == targets[..j];
  }

  /** An entry of a row taken from the state the entries before it reached, with the
      demand listed for it when the site's turn began, extends the row's fold. */
  lemma RowThreeNext(p0: Pass, snap: map<Site, Rec<int>>, city: Site, entries: Rec<int>, j: int, fuel: nat,
                     before: Pass, after: Pass, exhausted: bool)
    requires city in snap && snap[city] == entries && entries.Valid() && 0 <= j < |entries.keys|
    requires Run(before, false) == RowThree(p0, snap, city, entries.keys[..j], fuel)
    requires EntryOutcome(before.sites, before.unmet, before.conns, after.sites, after.unmet, after.conns,
                          city, entries.keys[j], entries.vals[entries.keys[j]], fuel, exhausted)
    ensures Run(after, exhausted) == RowThree(p0, snap, city, entries.keys[..j + 1], fuel)
  {
    RowThreeStep(p0, snap, city, entries.keys, j, fuel);
    EntryThreeIs(before.sites, before.unmet, before.conns, after.sites, after.unmet, after.conns,
                 city, entries.keys[j], entries.vals[entries.keys[j]], fuel, exhausted);
  }

  /** Once a demand of the row has run out, the rest of the row changes nothing. */
  lemma {:induction false} RowThreeStops(p: Pass, snap: map<Site, Rec<int>>, city: Site, targets: seq<Site>, j: int, fuel: nat)
    requires 0 <= j <= |targets| && RowThree(p, snap, city, targets[..j], fuel).exhausted
    ensures RowThree(p, snap, city, targets, fuel) == RowThree(p, snap, city, targets[..j], fuel)
    decreases |targets|
  {
    if j == |targets| {
      assert targets[..j] == targets;
    } else {
      var init := targets[..|targets| - 1];
      assert init[..j] == targets[..j];
      RowThreeStops(p, snap, city, init, j, fuel);
    }
  }

  /** One more site: after the sites before it, either a demand has run out and nothing
      changes, or the site's row runs as it stands then. */
  lemma StepThreeStep(p: Pass, cities: seq<Site>, i: int, fuel: nat)
    requires 0 <= i < |cities|
    ensures var r := StepThree(p, cities[..i], fuel);
            StepThree(p, cities[..i + 1], fuel) ==
              if r.exhausted then r else RowThree(r.pass, r.pass.unmet, cities[i], RowKeys(r.pass.unmet, cities[i]), fuel)
  {
    assert cities[..i + 1][..i] == cities[..i];
  }

  /** Once a demand has run out, the remaining sites change nothing. */
  lemma {:induction false} StepThreeStops(p: Pass, cities: seq<Site>, i: int, fuel: nat)
    requires 0 <= i <= |cities| && StepThree(p, cities[..i], fuel).exhausted
    ensures StepThree(p, cities, fuel) == StepThree(p, cities[..i], fuel)
    decreases |cities|
  {
    if i == |cities| {
      assert cities[..i] == cities;
    } else {
      var init := cities[..|cities| - 1];
      assert init[..i] == cities[..i];
      StepThreeStops(p, init, i, fuel);
    }
  }

  /** The state of `buildTopology`: the per-site results (`cityData`), the key order
      that `cityData` and `unmetRequirements` share, the connection list, and the
      demands not yet met. The sized results, the site index and the requirement rows
      they start from never change. */
  class Builder {
    const results: seq<SiteResult>
    ghost const initial: map<Site, SiteResult>
    ghost const demand: map<Site, Rec<int>>
    ghost const guarded: bool
    var order: seq<Site>
    var sites: map<Site, SiteResult>
    var unmet: map<Site, Rec<int>>
    var connections: seq<Connection>
    /** The number of skeleton connections; every later one is an allocation. */
    ghost var base: int

    ghost predicate Valid()
      reads this
    {
      Inv(results, initial, demand, guarded, order, sites, unmet, connections, base)
    }

    /** The first loop of `buildTopology`: index the results by site (the last result of
        a site wins) and copy each site's requirement row into `unmetRequirements`. */
    constructor(results: seq<SiteResult>)
      requires Ready(results)
      ensures Valid()
      ensures this.results == results && initial == LastBy(results) && demand == Rows(results)
      ensures guarded == Guarded(results) && order == Cities(results)
      ensures sites == initial && unmet == demand && connections == [] && base == 0
    {
      var cityData: map<Site, SiteResult> := map[];
      var unmetRequirements: map<Site, Rec<int>> := map[];
      var cities: seq<Site> := [];
      for i := 0 to |results|
        invariant cityData == LastBy(results[..i]) && cities == Cities(results[..i])
        invariant forall c :: c in unmetRequirements <==> c in cityData
        invariant forall c | c in unmetRequirements :: unmetRequirements[c] == RowCopy(cityData[c].externalRequirements)
      {
        var result := results[i];
        assert results[..i + 1][..i] == results[..i];
        LastByIndex(results[..i]);
        if result.city !in cityData {
          cities := cities + [result.city];
        }
        cityData := cityData[result.city := result];
        unmetRequirements := unmetRequirements[result.city := RowCopy(result.externalRequirements)];
      }
      assert results[..|results|] == results;
      assert unmetRequirements == Rows(results);
      InitialInv(results);
      this.results := results;
      initial := cityData;
      demand := unmetRequirements;
      guarded := Guarded(results);
      order := cities;
      sites := cityData;
      unmet := unmetRequirements;
      connections := [];
      base := 0;
    }

    /** `updatePorts`: take ports from one site's external inventory. */
    method UpdatePorts(city: Site, g100PortsUsed: int, g400PortsUsed: int)
      requires city in sites
      modifies this
      ensures sites == old(sites)[city := Debit(old(sites)[city], Ports(g100PortsUsed, g400PortsUsed))]
      ensures order == old(order) && unmet == old(unmet) && connections == old(connections) && base == old(base)
    {
      sites := sites[city := Debit(sites[city], Ports(g100PortsUsed, g400PortsUsed))];
    }

    /** `addConnection`: append the connection and take its ports at both ends, which
        keeps every port accounted for; on guarded inputs a selection that fits both
        ends keeps the inventories non-negative. */
    method AddConnection(from: Site, to: Site, g100PortsUsed: int, g400PortsUsed: int)
      requires Valid() && from in sites && to in sites
      requires guarded ==> && Fits(Ports(g100PortsUsed, g400PortsUsed), sites[from].external)
                           && Fits(Ports(g100PortsUsed, g400PortsUsed), sites[to].external)
                           && (from == to ==> g100PortsUsed == 0 && g400PortsUsed == 0)
      modifies this
      ensures Valid()
      ensures connections == old(connections) + [Connection(from, to, g100PortsUsed, g400PortsUsed)]
      ensures sites == DebitBoth(old(sites), from, to, Ports(g100PortsUsed, g400PortsUsed))
      ensures order == old(order) && unmet == old(unmet) && base == old(base)
    {
      ConnectKeepsInv(results, initial, demand, guarded, order, sites, unmet, connections, base,
                      from, to, Ports(g100PortsUsed, g400PortsUsed));
      connections := connections + [Connection(from, to, g100PortsUsed, g400PortsUsed)];
      UpdatePorts(from, g100PortsUsed, g400PortsUsed);
      UpdatePorts(to, g100PortsUsed, g400PortsUsed);
    }

    /** `addRouter`: one more router of the given tier at `city`, with its ports. */
    method AddRouter(city: Site, tier: Tier)
      requires Valid() && city in sites
      modifies this
      ensures Valid()
      ensures sites == old(sites)[city := WithRouter(old(sites)[city], tier)]
      ensures order == old(order) && unmet == old(unmet) && connections == old(connections) && base == old(base)
    {
      RouterKeepsInv(results, initial, demand, guarded, order, sites, unmet, connections, base, city, tier);
      sites := sites[city := WithRouter(sites[city], tier)];
    }

    /** A selection found for the demand `bw` of `city` on `targetCity`: connect them and
        mark the demand met in both directions (the body shared by steps 2 and 3). */
    method Settle(city: Site, targetCity: Site, used: Ports, bw: int)
      requires Valid() && city in initial && targetCity in initial && city in sites && targetCity in sites
      requires Demand(demand, city, targetCity) == bw && Capacity(used) >= bw
      requires guarded ==> && Fits(used, sites[city].external) && Fits(used, sites[targetCity].external)
                           && (city == targetCity ==> used == Ports(0, 0))
      modifies this
      ensures Valid()
      ensures connections == old(connections) + [Connection(city, targetCity, used.g100, used.g400)]
      ensures sites == DebitBoth(old(sites), city, targetCity, used)
      ensures city in old(unmet) && targetCity in old(unmet) && old(unmet)[city].Valid() && old(unmet)[targetCity].Valid()
      ensures unmet == Zeroed(old(unmet), city, targetCity)
      ensures order == old(order) && base == old(base)
    {
      AddConnection(city, targetCity, used.g100, used.g400);
      SettleKeepsInv(results, initial, demand, guarded, order, sites, unmet, connections, base, city, targetCity, bw);
      unmet := Zeroed(unmet, city, targetCity);
    }

    /** Step 1: a zero-usage connection for every pair of sites in `cityData` key order;
        it takes no port. */
    method AddSkeleton()
      requires Valid() && connections == [] && unmet == demand && base == 0
      modifies this
      ensures Valid()
      ensures connections == Skeleton(order) && base == |connections|
      ensures order == old(order) && sites == old(sites) && unmet == old(unmet)
    {
      AppendPairs();
      SkeletonKeepsInv(results, initial, demand, guarded, order, sites, unmet, connections);
      base := |connections|;
    }

    /** The loop nest of step 1: every pair i < j of sites in key order, appended row by
        row. */
    method AppendPairs()
      requires connections == []
      modifies this
      ensures connections == Skeleton(order)
      ensures order == old(order) && sites == old(sites) && unmet == old(unmet) && base == old(base)
    {
      var cities := order;
      for i := 0 to |cities|
        invariant connections == SkeletonRows(cities, i)
        invariant order == old(order) && sites == old(sites) && unmet == old(unmet) && base == old(base)
      {
        for j := i + 1 to |cities|
          invariant connections == SkeletonRows(cities, i) + SkeletonRow(cities, i)[..j - i - 1]
          invariant order == old(order) && sites == old(sites) && unmet == old(unmet) && base == old(base)
        {
          connections := connections + [Connection(cities[i], cities[j], 0, 0)];
          SkeletonRowStep(cities, i, j);
        }
      }
    }

    /** Step 2: for each site in key order and each entry of its requirement row, skip a
        pair already met in either direction, else connect it directly when the ports
        allow. */
    method DirectConnections()
      requires Valid()
      modifies this
      ensures Valid()
      ensures order == old(order) && base == old(base) && old(connections) <= connections
      ensures DirectSoFar(demand, old(sites), old(unmet), |old(connections)|, sites, unmet, connections)
      ensures Pass(sites, unmet, connections) == StepTwo(Pass(old(sites), old(unmet), old(connections)), demand, order)
    {
      ghost var p0 := Pass(sites, unmet, connections);
      for i := 0 to |order|
        invariant Valid() && order == old(order) && base == old(base) && old(connections) <= connections
        invariant DirectSoFar(demand, old(sites), old(unmet), |old(connections)|, sites, unmet, connections)
        invariant Pass(sites, unmet, connections) == StepTwo(p0, demand, order[..i])
      {
        StepTwoStep(p0, demand, order, i);
        DirectRow(i, old(sites), old(unmet), |old(connections)|);
      }
      assert order[..|order|] == order;
    }

    /** The row of the `i`-th site in step 2, extending the record of step 2 so far. */
    method DirectRow(i: int, ghost sites0: map<Site, SiteResult>, ghost unmet0: map<Site, Rec<int>>, ghost n0: int)
      requires Valid() && 0 <= i < |order|
      requires DirectSoFar(demand, sites0, unmet0, n0, sites, unmet, connections)
      modifies this
      ensures Valid()
      ensures order == old(order) && base == old(base) && old(connections) <= connections
      ensures DirectSoFar(demand, sites0, unmet0, n0, sites, unmet, connections)
      ensures Pass(sites, unmet, connections) ==
                RowPass(Pass(old(sites), old(unmet), old(connections)), demand, order[i], RowKeys(demand, order[i]))
    {
      ghost var p0 := Pass(sites, unmet, connections);
      var city := order[i];
      SiteView(results, initial, demand, guarded, order, sites, unmet, connections, base, city);
      var requirements := sites[city].externalRequirements.value;
      for j := 0 to |requirements.keys|
        invariant Valid() && order == old(order) && base == old(base) && old(connections) <= connections
        invariant DirectSoFar(demand, sites0, unmet0, n0, sites, unmet, connections)
        invariant Pass(sites, unmet, connections) == RowPass(p0, demand, city, requirements.keys[..j])
      {
        RowPassStep(p0, demand, city, requirements.keys, j);
        DirectEntry(city, requirements, j, sites0, unmet0, n0);
      }
      assert requirements.keys[..|requirements.keys|] == requirements.keys;
    }

    /** The `j`-th entry of `city`'s row in step 2: skip it when met in either direction,
        else connect the pair directly when the ports allow. */
    method DirectEntry(city: Site, requirements: Rec<int>, j: int,
                       ghost sites0: map<Site, SiteResult>, ghost unmet0: map<Site, Rec<int>>, ghost n0: int)
      requires Valid() && city in initial && city in demand && requirements == demand[city]
      requires requirements.Valid() && 0 <= j < |requirements.keys|
      requires DirectSoFar(demand, sites0, unmet0, n0, sites, unmet, connections)
      modifies this
      ensures Valid()
      ensures order == old(order) && base == old(base) && old(connections) <= connections
      ensures DirectSoFar(demand, sites0, unmet0, n0, sites, unmet, connections)
      ensures Pass(sites, unmet, connections) ==
                DirectTry(Pass(old(sites), old(unmet), old(connections)), city, requirements.keys[j],
                          Demand(demand, city, requirements.keys[j]))
    {
      var targetCity := requirements.keys[j];
      var requiredBW := requirements.vals[targetCity];
      SiteView(results, initial, demand, guarded, order, sites, unmet, connections, base, city);
      if unmet[city].Get(targetCity) != Some(0) && unmet[targetCity].Get(city) != Some(0) {
        var conn := CanDirectlyConnect(sites[city].external, sites[targetCity].external, requiredBW);
        if conn.Some? {
          SiteView(results, initial, demand, guarded, order, sites, unmet, connections, base, targetCity);
          DirectStep(demand, sites0, unmet0, n0, sites, unmet, connections, city, targetCity, conn.value);
          Settle(city, targetCity, conn.value, requiredBW);
        }
      }
    }

    /** One demand of step 3: add a router at `city` (tier 2 above 400, else tier 1) and
        retry, until the demand connects or `fuel` routers have been added: the outcome
        is `Escalated`, the first connecting round or `fuel` failed ones. */
    method Escalate(city: Site, targetCity: Site, remainingBW: int, fuel: nat) returns (connected: bool)
      requires Valid() && city in initial && targetCity in initial
      requires remainingBW > 0 && Demand(demand, city, targetCity) == remainingBW
      modifies this
      ensures Valid()
      ensures order == old(order) && base == old(base)
      ensures Escalated(old(sites), old(unmet), old(connections), sites, unmet, connections,
                        city, targetCity, remainingBW, fuel, connected)
    {
      SiteView(results, initial, demand, guarded, order, sites, unmet, connections, base, city);
      SiteView(results, initial, demand, guarded, order, sites, unmet, connections, base, targetCity);
      ProgressStart(sites, unmet, connections, city, targetCity, remainingBW);
      connected := false;
      var tries := 0;
      while tries < fuel && !connected
        invariant 0 <= tries <= fuel
        invariant Valid() && order == old(order) && base == old(base)
        invariant Progress(old(sites), old(unmet), old(connections), sites, unmet, connections,
                           city, targetCity, remainingBW, tries, connected)
        decreases fuel - tries
      {
        ghost var before := sites;
        connected := Attempt(city, targetCity, remainingBW);
        NextRound(old(sites), old(unmet), old(connections), before, sites, unmet, connections,
                  city, targetCity, remainingBW, tries, connected);
        tries := tries + 1;
      }
      EscalateEnd(old(sites), old(unmet), old(connections), sites, unmet, connections,
                  city, targetCity, remainingBW, tries, fuel, connected);
    }

    /** One round of step 3 for a demand: add a router at `city` (tier 2 above 400, else
        tier 1), then connect directly if the ports now allow; the outcome is step 3's
        with one round of fuel. */
    method Attempt(city: Site, targetCity: Site, remainingBW: int) returns (connected: bool)
      requires Valid() && city in initial && targetCity in initial
      requires remainingBW > 0 && Demand(demand, city, targetCity) == remainingBW
      modifies this
      ensures Valid()
      ensures order == old(order) && base == old(base)
      ensures Escalated(old(sites), old(unmet), old(connections), sites, unmet, connections,
                        city, targetCity, remainingBW, 1, connected)
    {
      SiteView(results, initial, demand, guarded, order, sites, unmet, connections, base, city);
      SiteView(results, initial, demand, guarded, order, sites, unmet, connections, base, targetCity);
      OneRound(sites, city, targetCity, remainingBW);
      GrownOne(sites, city, remainingBW);
      AddRouter(city, TierFor(remainingBW));
      var conn := CanDirectlyConnect(sites[city].external, sites[targetCity].external, remainingBW);
      connected := false;
      if conn.Some? {
        SiteView(results, initial, demand, guarded, order, sites, unmet, connections, base, city);
        SiteView(results, initial, demand, guarded, order, sites, unmet, connections, base, targetCity);
        Settle(city, targetCity, conn.value, remainingBW);
        connected := true;
      }
    }

    /** Step 3: for each site in key order, its row of demands (`ServeRow`), until a
        demand runs out of fuel. Without running out, every positive demand ends up
        met. */
    method AddRouters(fuel: nat) returns (exhausted: bool, ghost stall: Stall)
      requires Valid()
      modifies this
      ensures Valid()
      ensures order == old(order) && base == old(base) && old(connections) <= connections
      ensures !exhausted ==> RowsMet(demand, unmet, order, |order|)
      ensures exhausted ==> Stalled(stall, initial, demand, fuel, sites)
      ensures Run(Pass(sites, unmet, connections), exhausted) == StepThree(Pass(old(sites), old(unmet), old(connections)), order, fuel)
    {
      ghost var p0 := Pass(sites, unmet, connections);
      exhausted, stall := false, Stall("", "", 0, sites);
      var i := 0;
      while i < |order| && !exhausted
        invariant 0 <= i <= |order|
        invariant Valid() && order == old(order) && base == old(base) && old(connections) <= connections
        invariant !exhausted ==> RowsMet(demand, unmet, order, i)
        invariant exhausted ==> Stalled(stall, initial, demand, fuel, sites)
        invariant Run(Pass(sites, unmet, connections), exhausted) == StepThree(p0, order[..i], fuel)
      {
        StepThreeStep(p0, order, i, fuel);
        exhausted, stall := ServeRow(i, fuel);
        i := i + 1;
      }
      if i < |order| {
        StepThreeStops(p0, order, i, fuel);
      } else {
        assert order[..i] == order;
      }
    }

    /** The demands of the `i`-th site of step 3: each entry of its unmet row, as listed
        when the site's turn starts, that is still positive is escalated. */
    method ServeRow(i: int, fuel: nat) returns (exhausted: bool, ghost stall: Stall)
      requires Valid() && 0 <= i < |order| && RowsMet(demand, unmet, order, i)
      modifies this
      ensures Valid()
      ensures order == old(order) && base == old(base) && old(connections) <= connections
      ensures !exhausted ==> RowsMet(demand, unmet, order, i + 1)
      ensures exhausted ==> Stalled(stall, initial, demand, fuel, sites)
      ensures Run(Pass(sites, unmet, connections), exhausted) ==
                RowThree(Pass(old(sites), old(unmet), old(connections)), old(unmet), order[i], RowKeys(old(unmet), order[i]), fuel)
    {
      var city := order[i];
      SiteView(results, initial, demand, guarded, order, sites, unmet, connections, base, city);
      var entries := unmet[city];
      ghost var snap := unmet;
      ghost var p0 := Pass(sites, unmet, connections);
      assert forall t | Demand(demand, city, t) > 0 :: t in entries.vals;
      ghost var j;
      exhausted, stall, j := ServeEntries(i, entries, fuel, snap, p0);
      if !exhausted {
        RowDone(demand, unmet, order, i, entries);
      }
      if j < |entries.keys| {
        RowThreeStops(p0, snap, city, entries.keys, j, fuel);
      } else {
        assert entries.keys[..j] == entries.keys;
      }
    }

    /** The loop over the entries of the `i`-th site's row in step 3, as listed in
        `entries` when the turn began, from the state `p0`: it stops after the last entry
        or at the `j`-th, the first demand that runs out of fuel. */
    method ServeEntries(i: int, entries: Rec<int>, fuel: nat, ghost snap: map<Site, Rec<int>>, ghost p0: Pass)
      returns (exhausted: bool, ghost stall: Stall, ghost j: int)
      requires Valid() && 0 <= i < |order| && entries.Valid() && order[i] in snap && snap[order[i]] == entries
      requires RowsMet(demand, unmet, order, i) && EntriesFresh(unmet, order[i], entries, 0)
      requires Pass(sites, unmet, connections) == p0
      modifies this
      ensures Valid()
      ensures order == old(order) && base == old(base) && old(connections) <= connections
      ensures 0 <= j <= |entries.keys| && (j < |entries.keys| ==> exhausted)
      ensures !exhausted ==> RowsMet(demand, unmet, order, i) && EntriesMet(demand, unmet, order[i], entries.keys, j)
      ensures exhausted ==> Stalled(stall, initial, demand, fuel, sites)
      ensures Run(Pass(sites, unmet, connections), exhausted) == RowThree(p0, snap, order[i], entries.keys[..j], fuel)
    {
      var city := order[i];
      exhausted, stall := false, Stall(city, city, 0, sites);
      var k := 0;
      while k < |entries.keys| && !exhausted
        invariant 0 <= k <= |entries.keys|
        invariant Valid() && order == old(order) && base == old(base) && old(connections) <= connections
        invariant !exhausted ==> RowsMet(demand, unmet, order, i) && EntriesMet(demand, unmet, city, entries.keys, k)
        invariant EntriesFresh(unmet, city, entries, k)
        invariant exhausted ==> Stalled(stall, initial, demand, fuel, sites)
        invariant Run(Pass(sites, unmet, connections), exhausted) == RowThree(p0, snap, city, entries.keys[..k], fuel)
      {
        exhausted, stall := ServeEntry(i, entries, k, fuel, snap, p0);
        k := k + 1;
      }
      j := k;
    }

    /** The `j`-th entry of the `i`-th site's row in step 3: escalate it when its
        demand is still positive. The row's fold from `p0`, with the demands `snap` held
        when the turn began, is extended by this entry. */
    method ServeEntry(i: int, entries: Rec<int>, j: int, fuel: nat, ghost snap: map<Site, Rec<int>>, ghost p0: Pass)
      returns (exhausted: bool, ghost stall: Stall)
      requires Valid() && 0 <= i < |order| && entries.Valid() && 0 <= j < |entries.keys|
      requires RowsMet(demand, unmet, order, i) && EntriesMet(demand, unmet, order[i], entries.keys, j)
      requires EntriesFresh(unmet, order[i], entries, j)
      requires order[i] in snap && snap[order[i]] == entries
      requires Run(Pass(sites, unmet, connections), false) == RowThree(p0, snap, order[i], entries.keys[..j], fuel)
      modifies this
      ensures Valid()
      ensures order == old(order) && base == old(base) && old(connections) <= connections
      ensures Run(Pass(sites, unmet, connections), exhausted) == RowThree(p0, snap, order[i], entries.keys[..j + 1], fuel)
      ensures !exhausted ==> RowsMet(demand, unmet, order, i) && EntriesMet(demand, unmet, order[i], entries.keys, j + 1)
      ensures EntriesFresh(unmet, order[i], entries, j + 1)
      ensures EntryOutcome(old(sites), old(unmet), old(connections), sites, unmet, connections,
                           order[i], entries.keys[j], entries.vals[entries.keys[j]], fuel, exhausted)
      ensures exhausted ==> && stall == Stall(order[i], entries.keys[j], entries.vals[entries.keys[j]], old(sites))
                            && Stalled(stall, initial, demand, fuel, sites)
    {
      var targetCity := entries.keys[j];
      var remainingBW := entries.vals[targetCity];
      exhausted, stall := false, Stall(order[i], targetCity, remainingBW, sites);
      if remainingBW > 0 {
        exhausted, stall := ServeDemand(i, entries, j, fuel);
      } else {
        var city := order[i];
        SiteView(results, initial, demand, guarded, order, sites, unmet, connections, base, city);
        assert unmet[city].Get(targetCity) == Some(remainingBW);
        EntryDemand(results, initial, demand, guarded, order, sites, unmet, connections, base, city, targetCity, remainingBW);
        EntriesStep(demand, unmet, city, entries.keys, j);
      }
      RowThreeNext(p0, snap, order[i], entries, j, fuel, Pass(old(sites), old(unmet), old(connections)),
                   Pass(sites, unmet, connections), exhausted);
    }

    /** An entry of step 3 whose demand is still positive: escalate it, and record it as
        the stall when it runs out of fuel. */
    method ServeDemand(i: int, entries: Rec<int>, j: int, fuel: nat) returns (exhausted: bool, ghost stall: Stall)
      requires Valid() && 0 <= i < |order| && entries.Valid() && 0 <= j < |entries.keys|
      requires entries.vals[entries.keys[j]] > 0
      requires RowsMet(demand, unmet, order, i) && EntriesMet(demand, unmet, order[i], entries.keys, j)
      requires EntriesFresh(unmet, order[i], entries, j)
      modifies this
      ensures Valid()
      ensures order == old(order) && base == old(base) && old(connections) <= connections
      ensures !exhausted ==> RowsMet(demand, unmet, order, i) && EntriesMet(demand, unmet, order[i], entries.keys, j + 1)
      ensures EntriesFresh(unmet, order[i], entries, j + 1)
      ensures Escalated(old(sites), old(unmet), old(connections), sites, unmet, connections,
                        order[i], entries.keys[j], entries.vals[entries.keys[j]], fuel, !exhausted)
      ensures exhausted ==> && stall == Stall(order[i], entries.keys[j], entries.vals[entries.keys[j]], old(sites))
                            && Stalled(stall, initial, demand, fuel, sites)
    {
      var city := order[i];
      var targetCity := entries.keys[j];
      var remainingBW := entries.vals[targetCity];
      SiteView(results, initial, demand, guarded, order, sites, unmet, connections, base, city);
      assert unmet[city].Get(targetCity) == Some(remainingBW);
      EntryDemand(results, initial, demand, guarded, order, sites, unmet, connections, base, city, targetCity, remainingBW);
      ghost var (sitesBefore, before, connsBefore) := (sites, unmet, connections);
      var connected := Escalate(city, targetCity, remainingBW, fuel);
      EscalatedFacts(sitesBefore, before, connsBefore, sites, unmet, connections, city, targetCity, remainingBW, fuel, connected);
      if connected {
        ZeroedKeepsProgress(demand, before, order, i, city, entries, j);
      }
      stall := Stall(city, targetCity, remainingBW, sitesBefore);
      exhausted := !connected;
    }

    /** `nodes: results`: the results as the topology left them. */
    function Nodes(): (nodes: seq<SiteResult>)
      reads this
      requires Valid()
      ensures |nodes| == |results|
    {
      WriteBack(results, sites)
    }
  }

  /** What `buildTopology` promises of the topology it returns: one node per result,
      the last result of each site evolved by its routers and connections and the
      others untouched, no negative inventory on guarded inputs, and, when every
      demand was processed, an allocated connection for each positive demand. */
  ghost predicate Built(results: seq<SiteResult>, nodes: seq<SiteResult>, conns: seq<Connection>, base: int, met: bool) {
    && |nodes| == |results|
    && (forall i | 0 <= i < |results| && !IsLast(results, i) :: nodes[i] == results[i])
    && (forall i | 0 <= i < |results| && IsLast(results, i) :: Evolved(results[i], nodes[i], conns, results[i].city))
    && (Guarded(results) ==> forall i | 0 <= i < |results| :: NonNeg(nodes[i].external))
    && (met ==> forall c, t | c in LastBy(results) && Demand(Rows(results), c, t) > 0 :: Served(conns, base, Rows(results), c, t))
  }

  /** What the final state says about the returned topology. */
  lemma Outcome(results: seq<SiteResult>, sites: map<Site, SiteResult>, unmet: map<Site, Rec<int>>,
                conns: seq<Connection>, base: int, met: bool)
    requires Ready(results)
    requires Inv(results, LastBy(results), Rows(results), Guarded(results), Cities(results), sites, unmet, conns, base)
    requires met ==> RowsMet(Rows(results), unmet, Cities(results), |Cities(results)|)
    ensures forall i | 0 <= i < |results| :: results[i].city in sites
    ensures Built(results, WriteBack(results, sites), conns, base, met)
  {
    LastByIndex(results);
    var last := LastBy(results);
    forall i | 0 <= i < |results| ensures results[i].city in sites {
      assert results[i].city in last;
    }
    var nodes := WriteBack(results, sites);
    forall i | 0 <= i < |results| && IsLast(results, i)
      ensures Evolved(results[i], nodes[i], conns, results[i].city)
    {
      assert last[results[i].city] == results[i];
    }
    if met {
      forall c, t | c in last && Demand(Rows(results), c, t) > 0
        ensures Served(conns, base, Rows(results), c, t)
      {
        var k :| 0 <= k < |Cities(results)| && Cities(results)[k] == c;
      }
    }
  }

  /** Every site asks of every other what that one asks of it. */
  ghost predicate Symmetric(rows: map<Site, Rec<int>>) {
    forall c, t :: Demand(rows, c, t) == Demand(rows, t, c)
  }

  /** What the returned topology shows when step 3 ran out of fuel: `stall` is a positive
      demand between two sites that failed every one of `fuel` rounds, and the site that
      made it ends up exactly `fuel` routers of the demand's tier larger than it was when
      its turn came. */
  ghost predicate StalledAt(results: seq<SiteResult>, nodes: seq<SiteResult>, stall: Stall, fuel: nat) {
    && stall.city in LastBy(results) && stall.target in LastBy(results)
    && Demand(Rows(results), stall.city, stall.target) == stall.bw > 0
    && stall.city in stall.before && stall.target in stall.before
    && FirstRound(stall.before, stall.city, stall.target, stall.bw, 1, fuel).None?
    && forall i | 0 <= i < |results| && i < |nodes| && IsLast(results, i) && results[i].city == stall.city ::
         nodes[i] == Routers(stall.before[stall.city], TierFor(stall.bw), fuel)
  }

  /** `buildTopology`, with at most `fuel` routers added per demand of step 3;
      `exhausted` says that some demand did not connect within that bound. Every site's
      ports stay accounted for, the skeleton comes first and allocations are only
      appended after it, guarded inputs keep every inventory non-negative, and without
      exhaustion every positive demand has an allocated connection carrying it. */
  method BuildTopology(results: seq<SiteResult>, fuel: nat) returns (topology: Topology, exhausted: bool, ghost stall: Stall)
    requires Ready(results)
    ensures |topology.nodes| == |results|
    ensures forall i | 0 <= i < |results| && !IsLast(results, i) :: topology.nodes[i] == results[i]
    ensures forall i | 0 <= i < |results| && IsLast(results, i) ::
              Evolved(results[i], topology.nodes[i], topology.connections, results[i].city)
    ensures var k := |Cities(results)|;
            Skeleton(Cities(results)) <= topology.connections && |Skeleton(Cities(results))| == k * (k - 1) / 2
    ensures Guarded(results) ==> forall i | 0 <= i < |results| :: NonNeg(topology.nodes[i].external)
    ensures !exhausted ==> forall c, t | c in LastBy(results) && Demand(Rows(results), c, t) > 0 ::
              Served(topology.connections, |Skeleton(Cities(results))|, Rows(results), c, t)
    ensures !exhausted && Symmetric(Rows(results)) ==> forall c, t | c in LastBy(results) && Demand(Rows(results), c, t) > 0 ::
              exists j | |Skeleton(Cities(results))| <= j < |topology.connections| ::
                Serves(topology.connections[j], c, t, Demand(Rows(results), c, t))
    ensures exhausted ==> StalledAt(results, topology.nodes, stall, fuel)
    ensures var r := Planned(results, fuel);
            && topology.connections == r.pass.conns && exhausted == r.exhausted
            && forall i | 0 <= i < |results| && IsLast(results, i) ::
                 results[i].city in r.pass.sites && topology.nodes[i] == r.pass.sites[results[i].city]
  {
    topology, exhausted, stall := Build(results, fuel);
    SkeletonLength(Cities(results));
  }

  /** The three steps of `buildTopology` on a fresh builder, with the final state. */
  method Build(results: seq<SiteResult>, fuel: nat)
    returns (topology: Topology, exhausted: bool, ghost stall: Stall)
    requires Ready(results)
    ensures Built(results, topology.nodes, topology.connections, |Skeleton(Cities(results))|, !exhausted)
    ensures Skeleton(Cities(results)) <= topology.connections
    ensures exhausted ==> StalledAt(results, topology.nodes, stall, fuel)
    ensures var r := Planned(results, fuel);
            && topology.connections == r.pass.conns && exhausted == r.exhausted
            && forall i | 0 <= i < |results| && IsLast(results, i) ::
                 results[i].city in r.pass.sites && topology.nodes[i] == r.pass.sites[results[i].city]
  {
    var b := new Builder(results);
    b.AddSkeleton();
    ghost var skeleton := Pass(b.sites, b.unmet, b.connections);
    assert skeleton == Pass(LastBy(results), Rows(results), Skeleton(Cities(results)));
    b.DirectConnections();
    exhausted, stall := b.AddRouters(fuel);
    assert Run(Pass(b.sites, b.unmet, b.connections), exhausted) == Planned(results, fuel);
    Outcome(results, b.sites, b.unmet, b.connections, b.base, !exhausted);
    topology := Topology(b.Nodes(), b.connections);
    WriteBackLast(results, b.sites);
  }
}
