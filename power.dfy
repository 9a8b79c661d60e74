/** `calculatePowerConsumption`: for every half-hour slot, how many installed routers of
    each tier have to be switched on to carry that slot's demand, and what they draw. */
module Power {
  import opened Records
  import opened Schedule

  /** Port demand of a row: `Math.ceil(bandwidth / size)` summed over its values, left to
      right. */
  function PortDemand(vs: seq<int>, size: int): int
    requires size > 0
  {
    if vs == [] then 0 else PortDemand(vs[..|vs| - 1], size) + CeilDiv(vs[|vs| - 1], size)
  }

  /** `requirements[city] || {}`: a site with no row in the slot asks for nothing. */
  function Row(slot: Matrix, city: Site): (r: Rec<int>)
    requires ValidMatrix(slot)
    ensures r.Valid()
  {
    if city in slot then slot[city] else EmptyRec()
  }

  /** Routers of one tier that have to be on: enough for the ports (eight per router),
      but never more than are installed. */
  function Active(ports: int, installed: int): int {
    Min(CeilDiv(ports, 8), installed)
  }

  /** The power one site draws during one slot: 250 W per active tier-1 router and 350 W
      per active tier-2 router. */
  function SitePower(slot: Matrix, node: SiteResult): int
    requires ValidMatrix(slot)
  {
    var vs := Values(Row(slot, node.city));
    250 * Active(PortDemand(vs, 100), node.t1Routes) + 350 * Active(PortDemand(vs, 400), node.t2Routes)
  }

  /** The power of all sites during one slot, summed in site order. */
  function SlotPower(slot: Matrix, nodes: seq<SiteResult>): int
    requires ValidMatrix(slot)
  {
    if nodes == [] then 0 else SlotPower(slot, nodes[..|nodes| - 1]) + SitePower(slot, nodes[|nodes| - 1])
  }

  /** The power of all sites with every installed router on. */
  function Installed(nodes: seq<SiteResult>): int {
    if nodes == [] then 0
    else Installed(nodes[..|nodes| - 1]) + 250 * nodes[|nodes| - 1].t1Routes + 350 * nodes[|nodes| - 1].t2Routes
  }

  /** No bandwidth stored in the slot is negative. */
  ghost predicate NonNegative(slot: Matrix) {
    forall a, b :: a in slot && b in slot[a].vals ==> slot[a].vals[b] >= 0
  }

  ghost predicate Counted(nodes: seq<SiteResult>) {
    forall j :: 0 <= j < |nodes| ==> nodes[j].t1Routes >= 0 && nodes[j].t2Routes >= 0
  }

  /** The number of active routers is the least that carries the ports, unless that is
      more than are installed, in which case every installed router is on (the demand is
      capped silently). */
  lemma ActiveCovers(ports: int, installed: int)
    requires ports >= 0 && installed >= 0
    ensures 0 <= Active(ports, installed) <= installed
    ensures CeilDiv(ports, 8) <= installed ==>
              8 * Active(ports, installed) >= ports && 8 * (Active(ports, installed) - 1) < ports
    ensures CeilDiv(ports, 8) > installed ==> Active(ports, installed) == installed
  {
  }

  /** Demand for 17 to 24 small ports asks for three tier-1 routers; with two installed,
      two are on. */
  lemma ClampedToInstalled(ports: int)
    requires 17 <= ports <= 24
    ensures CeilDiv(ports, 8) == 3 && Active(ports, 2) == 2
  {
    assert 8 * 3 >= ports && 8 * 2 < ports;
  }

  /** A row of non-negative bandwidths asks for a non-negative number of ports. */
  lemma {:induction false} PortDemandNonNegative(vs: seq<int>, size: int)
    requires size > 0
    requires forall i :: 0 <= i < |vs| ==> vs[i] >= 0
    ensures PortDemand(vs, size) >= 0
  {
    if vs != [] {
      PortDemandNonNegative(vs[..|vs| - 1], size);
    }
  }

  /** A site draws at least nothing and at most its installed routers' power. */
  lemma SitePowerBounds(slot: Matrix, node: SiteResult)
    requires ValidMatrix(slot) && NonNegative(slot)
    requires node.t1Routes >= 0 && node.t2Routes >= 0
    ensures 0 <= SitePower(slot, node) <= 250 * node.t1Routes + 350 * node.t2Routes
  {
    var vs := Values(Row(slot, node.city));
    PortDemandNonNegative(vs, 100);
    PortDemandNonNegative(vs, 400);
    ActiveCovers(PortDemand(vs, 100), node.t1Routes);
    ActiveCovers(PortDemand(vs, 400), node.t2Routes);
  }

  /** Every slot's power lies between nothing and all installed routers on. */
  lemma {:induction false} SlotPowerBounds(slot: Matrix, nodes: seq<SiteResult>)
    requires ValidMatrix(slot) && NonNegative(slot) && Counted(nodes)
    ensures 0 <= SlotPower(slot, nodes) <= Installed(nodes)
  {
    if nodes != [] {
      SlotPowerBounds(slot, nodes[..|nodes| - 1]);
      SitePowerBounds(slot, nodes[|nodes| - 1]);
    }
  }

  /** Values between 0 and a cap sum to between 0 and the cap per value. */
  lemma {:induction false} SumBounds(s: seq<int>, cap: int)
    requires forall i :: 0 <= i < |s| ==> 0 <= s[i] <= cap
    ensures 0 <= Sum(s) <= |s| * cap
  {
    if s != [] {
      SumBounds(s[..|s| - 1], cap);
    }
  }

  lemma SumAppend(s: seq<int>, x: int)
    ensures Sum(s + [x]) == Sum(s) + x
  {
    assert (s + [x])[..|s|] == s;
  }

  /** The power of one site during one slot: the inner `forEach` over the row's values,
      then the clamp. */
  method NodePower(slot: Matrix, node: SiteResult) returns (nodePower: int)
    requires ValidMatrix(slot)
    ensures nodePower == SitePower(slot, node)
  {
    var vs := Values(Row(slot, node.city));
    var totalRequired100G, totalRequired400G := 0, 0;
    for j := 0 to |vs|
      invariant totalRequired100G == PortDemand(vs[..j], 100)
      invariant totalRequired400G == PortDemand(vs[..j], 400)
    {
      assert vs[..j + 1][..j] == vs[..j];
      totalRequired100G := totalRequired100G + CeilDiv(vs[j], 100);
      totalRequired400G := totalRequired400G + CeilDiv(vs[j], 400);
    }
    assert vs[..|vs|] == vs;
    var requiredT1Routes, requiredT2Routes := CeilDiv(totalRequired100G, 8), CeilDiv(totalRequired400G, 8);
    var activeT1Nodes, activeT2Nodes := Min(requiredT1Routes, node.t1Routes), Min(requiredT2Routes, node.t2Routes);
    nodePower := activeT1Nodes * 250 + activeT2Nodes * 350;
  }

  /** The power of all sites during one slot. */
  method IntervalPower(slot: Matrix, results: seq<SiteResult>) returns (totalPowerForInterval: int)
    requires ValidMatrix(slot)
    ensures totalPowerForInterval == SlotPower(slot, results)
  {
    totalPowerForInterval := 0;
    for j := 0 to |results|
      invariant totalPowerForInterval == SlotPower(slot, results[..j])
    {
      assert results[..j + 1][..j] == results[..j];
      var nodePower := NodePower(slot, results[j]);
      totalPowerForInterval := totalPowerForInterval + nodePower;
    }
    assert results[..|results|] == results;
  }

  /** `calculatePowerConsumption`: one power value per slot, in slot order, and their
      total over the 48 half-hours of a day. */
  method CalculatePowerConsumption(results: seq<SiteResult>, timezones: seq<Matrix>)
    returns (powerConsumptionPerInterval: seq<int>, averagePower: real)
    requires forall i :: 0 <= i < |timezones| ==> ValidMatrix(timezones[i])
    ensures |powerConsumptionPerInterval| == |timezones|
    ensures forall i :: 0 <= i < |timezones| ==> powerConsumptionPerInterval[i] == SlotPower(timezones[i], results)
    ensures averagePower * 48.0 == Sum(powerConsumptionPerInterval) as real
  {
    powerConsumptionPerInterval := [];
    var totalSystemPower := 0;
    for i := 0 to |timezones|
      invariant |powerConsumptionPerInterval| == i
      invariant forall k :: 0 <= k < i ==> powerConsumptionPerInterval[k] == SlotPower(timezones[k], results)
      invariant totalSystemPower == Sum(powerConsumptionPerInterval)
    {
      var totalPowerForInterval := IntervalPower(timezones[i], results);
      SumAppend(powerConsumptionPerInterval, totalPowerForInterval);
      powerConsumptionPerInterval := powerConsumptionPerInterval + [totalPowerForInterval];
      totalSystemPower := totalSystemPower + totalPowerForInterval;
    }
    averagePower := totalSystemPower as real / 48.0;
  }

  /** Over a day of 48 slots whose bandwidths are not negative, the average lies between
      nothing and all installed routers on. */
  lemma AverageBounds(results: seq<SiteResult>, timezones: seq<Matrix>, perSlot: seq<int>, average: real)
    requires |timezones| == 48 && Counted(results)
    requires forall i :: 0 <= i < 48 ==> ValidMatrix(timezones[i]) && NonNegative(timezones[i])
    requires |perSlot| == 48 && forall i :: 0 <= i < 48 ==> perSlot[i] == SlotPower(timezones[i], results)
    requires average * 48.0 == Sum(perSlot) as real
    ensures 0.0 <= average <= Installed(results) as real
  {
    forall i | 0 <= i < 48
      ensures 0 <= perSlot[i] <= Installed(results)
    {
      SlotPowerBounds(timezones[i], results);
    }
    SumBounds(perSlot, Installed(results));
  }

  /** Every bandwidth `splitTimezones` stores is the peak of some tuples, never below 0. */
  lemma ScheduledSlotNonNegative(data: seq<TimedLink>, i: int)
    requires forall k :: 0 <= k < |data| ==> Timed(data[k])
    requires 0 <= i < 48
    ensures NonNegative(ScheduleOf(data)[i])
  {
    var slot := ScheduleOf(data)[i];
    forall a, b | a in slot && b in slot[a].vals
      ensures slot[a].vals[b] >= 0
    {
      ScheduleIsPeak(data, i, a, b);
    }
  }

  /** The whole pipeline of one day: the average power of the schedule built from any
      well-formed tuples lies between nothing and all installed routers on. */
  lemma DailyAverageBounds(data: seq<TimedLink>, results: seq<SiteResult>, perSlot: seq<int>, average: real)
    requires forall k :: 0 <= k < |data| ==> Timed(data[k])
    requires Counted(results)
    requires |perSlot| == 48 && forall i :: 0 <= i < 48 ==> perSlot[i] == SlotPower(ScheduleOf(data)[i], results)
    requires average * 48.0 == Sum(perSlot) as real
    ensures 0.0 <= average <= Installed(results) as real
  {
    var day := ScheduleOf(data);
    forall i | 0 <= i < 48
      ensures ValidMatrix(day[i]) && NonNegative(day[i])
    {
      ScheduledSlotNonNegative(data, i);
    }
    AverageBounds(results, day, perSlot, average);
  }
}
