# Network planning engine — a Dafny model

This project models the planning engine of a metro network planner
(`src/services/calculation.service.ts`). Given site-to-site bandwidth demands and customer
counts per site, the engine:

- **aggregates the demands** (`formatRequirements`): a symmetric requirement matrix, one
  row per site, with the last tuple for a pair winning. It also totals each row.
- **sizes every site** (`findOptimalNoOfRouters` with `findMinCostForX` and `isValid`):
  the cheapest number `n` of tier-1 routers (250 W; 8 small and 2 large ports) and `m` of
  tier-2 routers (350 W; 8 large ports) that meet `16n + 32m + 3nx >= rhs`. Here `x` is
  the number of small ports per tier-1 router given to customers, and
  `rhs = demand/100 + 4·customers`.
- **builds the topology** (`buildTopology` and its inner `updatePorts`, `addConnection`,
  `canDirectlyConnect` and `addRouter`), in three steps:
  - a zero-usage connection for every pair of sites;
  - direct connections where the spare external ports allow;
  - otherwise, routers are added at the demanding site until the demand connects.
- **spreads timed demands over a day** (`splitTimezones` with `parseHourString`,
  `getIntervalIndex` and `incrementHour`): 48 half-hour slots. Each slot keeps the
  largest bandwidth any covering tuple asks of each ordered pair of sites.
- **estimates power** (`calculatePowerConsumption`): per slot, the routers of each tier
  that the slot's demand needs (capped at those installed) and their draw, plus the
  daily average.

The modules follow those parts:

| module | file | part |
|---|---|---|
| `Records` | `records.dfy` | JavaScript records with key order, shared types and arithmetic |
| `Requirements` | `requirements.dfy` | `formatRequirements` |
| `Sizing` | `sizing.dfy` | `isValid`, `findMinCostForX`, `findOptimalNoOfRouters` |
| `Topology` | `topology.dfy` | `buildTopology`; its state is the class `Topology.Builder` |
| `Schedule` | `schedule.dfy` | `splitTimezones`; the day is an `array` of 48 slots |
| `Power` | `power.dfy` | `calculatePowerConsumption` |

Every loop of the source is a `method` with its loop and invariants. Most methods are
proved equal to a reference function written without the loop (`BestForX`, `SizeOver`,
`StampAll`, `ScheduleOf`, `FirstRound`). `buildTopology` is proved equal to `Planned`:
the skeleton, then step 2 as `StepTwo` (with `RowPass` and `DirectTry`), then step 3 as
`StepThree` (with `RowThree` and `EntryThree`). Step 2 is also proved against a record
of what it did (`DirectSoFar`), and one demand of step 3 against the record `Escalated`.
The lemmas beside these prove what the source promises:

- the least-cost choice is optimal;
- demands are symmetric;
- every port is accounted for;
- every positive demand ends up served by a connection that carries it, or carries the
  reverse demand;
- a demand that stays unmet had `fuel` failed rounds;
- every slot holds the peak demand;
- power lies between zero and the installed draw.

## Model

| member | source | states |
|---|---|---|
| Records.Rec.Put | src/services/calculation.service.ts:76-77 | Assigning a key of a JavaScript record: the new value is read back and every other key is unchanged. A new key goes to the end of the key order; an existing key keeps its place. |
| Records.CeilDiv | src/services/calculation.service.ts:418-419 | `Math.ceil(a / d)` is the least q with `d*q >= a`. |
| Requirements.LastDemandSymmetric | src/services/calculation.service.ts:76-77 | The demand recorded for (a, b) equals the demand for (b, a). |
| Requirements.LastDemandMentions | src/services/calculation.service.ts:65-78 | A recorded demand names two sites that occur in some tuple. |
| Requirements.RecordLink | src/services/calculation.service.ts:66-77 | One tuple creates both rows when missing, then writes `max(upload, download)` both ways and leaves every other entry alone. |
| Requirements.CreatedGet | src/services/calculation.service.ts:69-74 | Creating the missing rows keeps every existing entry and adds rows that hold nothing. |
| Requirements.WritePair | src/services/calculation.service.ts:76-77 | Writing both entries of a pair sets exactly those two entries and keeps the row set. |
| Requirements.WrittenRecorded | src/services/calculation.service.ts:65-77 | Missing rows created, then the pair written both ways: that is the tuple recorded. |
| Requirements.WritePairKeys | src/services/calculation.service.ts:76-77 | Writing both entries of a pair appends each site to the other's keys only when it is new there (JavaScript key order). |
| Requirements.RecordLinkKeys | src/services/calculation.service.ts:66-77 | One tuple leaves each row's earlier keys first and appends its new peers after them. |
| Requirements.PeersUnmentioned | src/services/calculation.service.ts:65-78 | A site that no tuple names has no keys. |
| Requirements.AggregatesStep | src/services/calculation.service.ts:65-78 | The loop invariant: after a prefix of the tuples, the rows are exactly the mentioned sites and each entry is the last demand for that pair. |
| Requirements.KeysInOrderStep | src/services/calculation.service.ts:65-78 | The key-order invariant: after a prefix of the tuples, each row lists its peers in order of first mention. |
| Requirements.Aggregate | src/services/calculation.service.ts:65-78 | The first loop yields rows exactly for the mentioned sites, with each entry the last tuple's `max(upload, download)` and each row's keys its peers in order of first mention. |
| Requirements.Totals | src/services/calculation.service.ts:80-87 | `maxRequirement` has the same sites as the matrix; each total is the sum of the row's values. |
| Requirements.FormatRequirements | src/services/calculation.service.ts:62-93 | Well-formed rows exactly for the mentioned sites; entries are the last demand of each pair; each row's keys are its peers in order of first mention; totals are the row sums. |
| Requirements.RequirementsSymmetric | src/services/calculation.service.ts:76-77 | The returned matrix is symmetric: an entry (a, b) implies a row b with the same entry (b, a). |
| Sizing.IsValidMonotone | src/services/calculation.service.ts:22-25 | With `16 + 3x >= 0`, more tier-1 routers keep the constraint met, which is what makes the binary search over n sound. |
| Sizing.LeastValid | src/services/calculation.service.ts:42-56 | Reference for the binary search. It gives the least n in range meeting the constraint, or None when no n in range does. |
| Sizing.BestForXOptimal | src/services/calculation.service.ts:38-57 | The exhaustive per-x choice is optimal. Infinity exactly when no pair in range is valid; otherwise no valid pair is cheaper, and a valid pair with smaller m is strictly dearer (the strict `<` at line 47). |
| Sizing.ConsiderOptimal | src/services/calculation.service.ts:47-51 | Considering one more m with its least valid n keeps the choice optimal. |
| Sizing.NoneKeepsOptimal | src/services/calculation.service.ts:47-51 | A value of m with no valid n leaves the optimal choice as it was. |
| Sizing.CheaperReplaces | src/services/calculation.service.ts:47-51 | A strictly cheaper least valid n of the new m becomes the optimal choice. |
| Sizing.DearerKeeps | src/services/calculation.service.ts:47-51 | A least valid n of the new m that is no cheaper leaves the optimal choice as it was. |
| Sizing.OptimalUnique | src/services/calculation.service.ts:38-57 | At most one choice is optimal for given ranges, so the search result is determined. |
| Sizing.ConsiderSmaller | src/services/calculation.service.ts:47-52 | For a fixed m, a smaller valid n found later in the search supersedes a larger one. |
| Sizing.FindMinCostForX | src/services/calculation.service.ts:27-60 | The result is always sound: Infinity with (0, 0), or a valid in-range pair at its cost. When `16 + 3x >= 0` it equals the exhaustive optimum. |
| Sizing.SearchN | src/services/calculation.service.ts:39-56 | The binary search for one m keeps the choice sound. When `16 + 3x >= 0` it has the effect of considering the least valid n. |
| Sizing.ProbeHit | src/services/calculation.service.ts:44-52 | A valid probe n: the best so far becomes `Consider` of n, everything above n is valid, and the search moves below n. |
| Sizing.ProbeMiss | src/services/calculation.service.ts:53-55 | An invalid probe n: nothing from the range start up to n is valid, and the search moves above n. |
| Sizing.ProbeEnd | src/services/calculation.service.ts:42-56 | When low passes high, the choice is sound up to this m and, with `16 + 3x >= 0`, equals considering the least valid n. |
| Sizing.ProbeLeast | src/services/calculation.service.ts:42-56 | Invalid up to high and valid at high + 1 means high + 1 is the least valid n; with high at the top of the range there is none. |
| Sizing.SizeOverX | src/services/calculation.service.ts:112-126 | The x loop equals the exhaustive reference, with `<=` letting a later x of equal cost win. |
| Sizing.SizeOverOptimal | src/services/calculation.service.ts:112-126 | The x loop's result is the per-x optimum of some x in range. No x beats it, and every later x is strictly dearer. |
| Sizing.SizingOptimal | src/services/calculation.service.ts:103-126 | The chosen (n, m, x) meets the constraint. No valid triple in the searched ranges is cheaper, and a valid triple with larger x is dearer. The search finds nothing only when no triple in range is valid. |
| Sizing.PortAccounting | src/services/calculation.service.ts:128-133 | Internal plus external small ports equal 8n; internal plus external large ports equal 8m + 2n; internal large ports are the customers left after n·x. |
| Sizing.FindOptimalNoOfRouters | src/services/calculation.service.ts:95-155 | One result per customer tuple, in order, each the exhaustive sizing of its site. That includes the requirement row, absent for a site without demands. |
| Sizing.NeedIsCeilingOfRhs | src/services/calculation.service.ts:24 | Comparing an integer from above with the real `rhs` is comparing it with the integer `Need`. |
| Sizing.BoundIsFloorOfRhs | src/services/calculation.service.ts:38 | `k <= rhs` (the loop bounds on m and n) holds exactly when `k <= Bound`. |
| Sizing.MidpointWithRealHigh | src/services/calculation.service.ts:43 | `Math.floor((low + rhs) / 2)` with a real `rhs` equals the integer midpoint with `floor(rhs)`. |
| Sizing.ThirtyTwoPair | src/services/calculation.service.ts:22-25 | Against rhs 32, every valid pair costs at least 250 W, and at least 350 W when x <= 5. |
| Sizing.BestAtThirtyTwo | src/services/calculation.service.ts:27-60 | For rhs 32 the per-x optimum is one tier-2 router up to x = 5, then one tier-1 router. |
| Sizing.SizeOverThirtyTwo | src/services/calculation.service.ts:112-126 | For rhs 32 the x loop settles on one tier-1 router at the last x (ties go to the later x). |
| Sizing.EightCustomersNoDemand | src/services/calculation.service.ts:102-151 | Eight customers and no external demand: one tier-1 router, x = 8, 8 small internal ports and 2 large external ports. |
| Topology.CanDirectlyConnect | src/services/calculation.service.ts:200-241 | A selection always carries the demand. When both inventories are non-negative it fits both ends. |
| Topology.FirstFit | src/services/calculation.service.ts:207-217 | The single-port branches, with the same guarantees. |
| Topology.Greedy | src/services/calculation.service.ts:218-240 | The greedy branch, with the same guarantees. |
| Topology.GreedyPlan | src/services/calculation.service.ts:222-237 | The greedy plan fits both ends and takes at most `floor(bw/400)` large ports. |
| Topology.DirectPreference | src/services/calculation.service.ts:205-217 | No ports for a non-positive demand. Otherwise one small port is preferred over one large port whenever it carries the demand. |
| Topology.GreedyPlanConnects | src/services/calculation.service.ts:222-240 | When both ends hold `floor(bw/400)` large ports and enough small ports for the remainder, the connection always succeeds. |
| Topology.NoSmallPortNoConnection | src/services/calculation.service.ts:222-240 | Above 400 Gb/s and off a multiple of 400, an end without a small port can never connect. |
| Topology.FirstRound | src/services/calculation.service.ts:294-311 | The first round from k to fuel whose selection succeeds: its selection succeeds and every earlier round's fails. None means every round up to fuel fails. |
| Topology.FirstRoundIs | src/services/calculation.service.ts:294-311 | A round whose selection succeeds after only failed rounds is the one `FirstRound` finds. |
| Topology.GrownOne | src/services/calculation.service.ts:296-300 | One round adds one router at the demanding site, of tier 2 above 400 Gb/s and tier 1 otherwise. |
| Topology.GrownAgain | src/services/calculation.service.ts:295-303 | One more round after k rounds gives the inventory of k + 1 rounds, and the selection tried then is that of round k + 1. |
| Topology.OneRound | src/services/calculation.service.ts:302-309 | With fuel 1, the first connecting round is round 1 exactly when its selection succeeds. |
| Topology.RoutersKeepSmall | src/services/calculation.service.ts:248-251 | Tier-2 routers add no small port. |
| Topology.NeverConnects | src/services/calculation.service.ts:294-311 | Above 400 Gb/s and off a multiple of 400, a site without a small port connects in no round. |
| Topology.ProgressStart | src/services/calculation.service.ts:294-295 | Before the first round, no round has failed and nothing has changed. |
| Topology.NextRound | src/services/calculation.service.ts:295-310 | One more failed round extends the run of failed rounds by one. A round that connects is the first connecting round. |
| Topology.EscalateEnd | src/services/calculation.service.ts:295-311 | When the loop ends (connected, or fuel rounds done), the outcome is `Escalated`. |
| Topology.NoSmallPortStalls | src/services/calculation.service.ts:294-311 | Escalating such a demand from a site without small ports always ends unconnected. |
| Topology.EscalatedFacts | src/services/calculation.service.ts:294-311 | After escalation the pair's unmet rows exist and connections only grew. The pair is marked met exactly when it connected; otherwise no unmet entry changed. |
| Topology.UsedAppend | src/services/calculation.service.ts:189-198 | The ports taken by the connections grow by exactly the new connection's ports at each end. |
| Topology.SkeletonLength | src/services/calculation.service.ts:254-267 | Step 1 creates k(k-1)/2 connections for k sites. |
| Topology.SkeletonPairs | src/services/calculation.service.ts:254-267 | Every step-1 connection uses no port, and every pair of sites has one. |
| Topology.SkeletonRowStep | src/services/calculation.service.ts:257-266 | Each inner iteration of step 1 appends the pair (i, j) at its place in row i. |
| Topology.UsedZero | src/services/calculation.service.ts:254-267 | Zero-usage connections take no ports. |
| Topology.LastByIndex | src/services/calculation.service.ts:175-178 | The site index holds, under each site's name, the last result for it. The site list names each indexed site exactly once. |
| Topology.LastIndex | src/services/calculation.service.ts:175-178 | Every indexed result is one of the input results. |
| Topology.InitialInv | src/services/calculation.service.ts:175-178 | The state after the first loop satisfies the builder invariant. |
| Topology.SiteView | src/services/calculation.service.ts:169-316 | What the invariant gives for one site: its row and unmet row exist, an unmet entry is the demand or 0, targets of demands are sites, and guarded inventories are non-negative. |
| Topology.ServedExtends | src/services/calculation.service.ts:189-198 | Appending a connection keeps every served demand served. |
| Topology.ZeroedGet | src/services/calculation.service.ts:283-284 | Marking a demand met sets exactly its two entries to 0 and keeps the rows well formed. |
| Topology.RouterKeepsInv | src/services/calculation.service.ts:243-252 | Adding a router keeps every port accounted for. |
| Topology.ConnectKeepsInv | src/services/calculation.service.ts:189-198 | A connection that fits both ends keeps every port accounted for and, on guarded inputs, every inventory non-negative. |
| Topology.LedgerConnect | src/services/calculation.service.ts:189-198 | A new connection's ports, debited at both ends, keep every site's port account. |
| Topology.PendingConnect | src/services/calculation.service.ts:189-198 | A new connection keeps every met demand served. |
| Topology.SettleKeepsInv | src/services/calculation.service.ts:281-285 | Marking a pair met once the last connection carries its demand keeps the invariant. |
| Topology.SkeletonKeepsInv | src/services/calculation.service.ts:254-267 | The skeleton keeps the invariant with all demands still unmet. |
| Topology.EntryDemand | src/services/calculation.service.ts:289-300 | A non-zero unmet entry is still the site's demand. A positive demand's entry is either that demand or 0. |
| Topology.EntriesStep | src/services/calculation.service.ts:291-313 | A non-positive entry leaves nothing to do in step 3. |
| Topology.ZeroedKeepsProgress | src/services/calculation.service.ts:289-313 | Meeting one demand of step 3 keeps the earlier progress and the entries still to come. |
| Topology.RowDone | src/services/calculation.service.ts:289-313 | Once every entry of a site is processed, all its positive demands are met. |
| Topology.WriteBack | src/services/calculation.service.ts:315 | The returned nodes are the inputs, one per result. |
| Topology.SameRoutersStep | src/services/calculation.service.ts:280-285 | A direct connection changes only external ports: router counts and the rest of every site stay. |
| Topology.LoweredStep | src/services/calculation.service.ts:283-284 | Marking a pair met only lowers unmet entries, to 0. |
| Topology.LinksStep | src/services/calculation.service.ts:274-285 | The new direct connection joins a pair that was unmet both ways and carries its demand, and that pair is now 0 both ways. |
| Topology.ApartStep | src/services/calculation.service.ts:274-285 | A direct connection never joins a pair that an earlier step-2 connection already joined. |
| Topology.DirectStep | src/services/calculation.service.ts:274-285 | One direct connection extends the step-2 record `DirectSoFar`. |
| Topology.RowPassStep | src/services/calculation.service.ts:273-286 | Step 2 over one more entry of a row is one `DirectTry` after the entries before it, in key order. |
| Topology.StepTwoStep | src/services/calculation.service.ts:270-287 | Step 2 over one more site is that site's row pass after the sites before it, in key order. |
| Topology.EntryThreeIs | src/services/calculation.service.ts:294-311 | The outcome of one entry of step 3 is the reference step `EntryThree`: the first round that connects, or fuel routers and exhaustion; a non-positive entry is skipped. |
| Topology.RowThreeStep | src/services/calculation.service.ts:291-312 | Step 3 over one more entry of a row is one `EntryThree` after the entries before it, unless a demand has already run out. |
| Topology.RowThreeNext | src/services/calculation.service.ts:291-312 | An entry taken with the demand listed for it when the site's turn began extends the row's fold. |
| Topology.RowThreeStops | src/services/calculation.service.ts:291-312 | Once a demand of the row has run out, the rest of the row changes nothing. |
| Topology.StepThreeStep | src/services/calculation.service.ts:290-313 | Step 3 over one more site is that site's row, as it stands when its turn begins, after the sites before it, unless a demand has already run out. |
| Topology.StepThreeStops | src/services/calculation.service.ts:290-313 | Once a demand has run out, the remaining sites change nothing. |
| Topology.WriteBackLast | src/services/calculation.service.ts:315 | The returned nodes are the last result of each site as the build left it, and every other result as given. |
| Topology.Builder.constructor | src/services/calculation.service.ts:169-178 | The site index is built from the last result per site. Unmet rows are copies of the requirement rows. Sites come in first-appearance order. There are no connections, and the invariant holds. |
| Topology.Builder.UpdatePorts | src/services/calculation.service.ts:180-187 | The used ports are debited from one site's external inventory; nothing else changes. |
| Topology.Builder.AddConnection | src/services/calculation.service.ts:189-198 | The connection is appended and debited at both ends. Every port stays accounted for, and guarded inventories stay non-negative. |
| Topology.Builder.AddRouter | src/services/calculation.service.ts:243-252 | One more router of the tier with its external ports: 8 small and 2 large for tier 1, 8 large for tier 2. |
| Topology.Builder.Settle | src/services/calculation.service.ts:280-285 | Connect the pair and set both directions of the demand to 0. |
| Topology.Builder.AddSkeleton | src/services/calculation.service.ts:254-267 | Step 1 appends exactly the skeleton (every pair, zero usage, loop order) and changes no inventory. |
| Topology.Builder.AppendPairs | src/services/calculation.service.ts:255-267 | The loop nest appends exactly the skeleton pairs, in loop order, and changes nothing else. |
| Topology.Builder.DirectConnections | src/services/calculation.service.ts:269-287 | Step 2 leaves exactly the state of the reference fold `StepTwo` over the sites in key order. It keeps the invariant and only appends connections. Each one joins a pair that was unmet both ways, carries its demand and marks it 0 both ways. No two join the same pair. Router counts do not change, and unmet entries only drop to 0. |
| Topology.Builder.DirectRow | src/services/calculation.service.ts:270-287 | One site of step 2 leaves the state of `RowPass` over its row's keys in order, and extends the record `DirectSoFar`. |
| Topology.Builder.DirectEntry | src/services/calculation.service.ts:273-286 | One entry of step 2 leaves the state of `DirectTry`: skipped when met either way, otherwise connected, debited at both ends and marked met both ways exactly when `canDirectlyConnect` selects ports. It extends the record `DirectSoFar`. |
| Topology.Builder.Attempt | src/services/calculation.service.ts:296-309 | One round: a router of the demand's tier at the demanding site, then one direct attempt on the grown inventory. It connects exactly when that selection exists; the selection is then appended, debited and marked met. Otherwise only the router was added. |
| Topology.Builder.Escalate | src/services/calculation.service.ts:294-311 | The first round up to fuel whose selection succeeds is taken, with its routers, its connection and the met mark. If no round succeeds, exactly fuel routers were added and nothing else changed. |
| Topology.Builder.ServeEntry | src/services/calculation.service.ts:291-312 | One entry of step 3. A positive demand is escalated: exhausted exactly when all its fuel rounds fail, and then the stalled demand is reported. A non-positive entry changes nothing. The entry extends its row's fold `RowThree` by one step. |
| Topology.Builder.ServeDemand | src/services/calculation.service.ts:294-311 | A positive entry escalated: the outcome is `Escalated`, exhausted exactly when it did not connect, and the stalled demand is reported. |
| Topology.Builder.ServeEntries | src/services/calculation.service.ts:291-312 | The loop over one site's entries stops after the last entry or at the first demand that runs out, and leaves the state of `RowThree` over the entries it took. |
| Topology.Builder.ServeRow | src/services/calculation.service.ts:289-313 | One site of step 3 leaves exactly the state of `RowThree` over its unmet row as it stood when the turn began, in key order, stopping at the first demand that runs out. Without exhaustion, all its positive demands are met. With it, the reported demand had fuel failed rounds. |
| Topology.Builder.AddRouters | src/services/calculation.service.ts:289-313 | Step 3 leaves exactly the state of the reference fold `StepThree` over the sites in key order: routers are added only while escalating a positive demand, at its site, up to the first round that connects. Without exhaustion, every positive demand of every site is met. With it, the reported demand had fuel failed rounds. |
| Topology.Builder.Nodes | src/services/calculation.service.ts:315 | One node per input result. |
| Topology.Outcome | src/services/calculation.service.ts:169-316 | The final state gives the whole promise of `buildTopology` (see BuildTopology). |
| Topology.Build | src/services/calculation.service.ts:169-316 | The three steps on a fresh builder give the promise of `buildTopology`, with the skeleton first. The returned connections, `exhausted` and the last result of each site are exactly those of the reference `Planned`. Exhaustion reports a positive demand all of whose fuel rounds failed. |
| Topology.BuildTopology | src/services/calculation.service.ts:169-316 | The promise listed below: port accounting, the skeleton first, every positive demand served or the stalled demand reported, and the returned connections, `exhausted` and router counts exactly those of the reference `Planned`. |
| Schedule.ParseHour | src/services/calculation.service.ts:328-337 | A well-formed label gives an hour of the day on the same twelve-hour dial, in the afternoon exactly when it says PM. A label without AM/PM gives its number. |
| Schedule.ParseHourRoundTrip | src/services/calculation.service.ts:328-337 | Labels and hours correspond one to one. |
| Schedule.ParseHourCases | src/services/calculation.service.ts:330-336 | 12AM is 0, 12PM is 12, kAM is k and kPM is k + 12. |
| Schedule.BareHours | src/services/calculation.service.ts:328-337 | A label without AM or PM is its number, so 13-15 covers slots 26 to 29. |
| Schedule.IntervalIndex | src/services/calculation.service.ts:339-341 | A reading on the half-hour grid falls in slots 0 to 47. |
| Schedule.SlotRoundTrip | src/services/calculation.service.ts:339-341 | Slots and grid readings correspond one to one. |
| Schedule.IncrementAdvancesSlot | src/services/calculation.service.ts:343-352 | Half an hour later is the next slot modulo 48, still on the grid. |
| Schedule.NextIndex | src/services/calculation.service.ts:388-390 | The loop's reading stays k slots after the start. |
| Schedule.StopsAtEnd | src/services/calculation.service.ts:364 | The while loop reaches the end reading exactly after `(2·end − 2·start) mod 48` slots. |
| Schedule.AtEndAfterSpan | src/services/calculation.service.ts:364 | A reading that is the end hour has walked the whole span. |
| Schedule.SpanReachesEnd | src/services/calculation.service.ts:364 | After the whole span the reading is the end hour. |
| Schedule.WalkMembers | src/services/calculation.service.ts:364-391 | A slot is visited exactly when it lies fewer than k slots after the start, modulo 48. |
| Schedule.WalkDistinct | src/services/calculation.service.ts:364-391 | No slot is visited twice. |
| Schedule.WindowMembers | src/services/calculation.service.ts:354-391 | A tuple covers slot i exactly when i lies in [2·start, 2·end) going round the clock. |
| Schedule.HoursMembers | src/services/calculation.service.ts:354-391 | For hours s and e, the walk visits slot i exactly when i lies fewer than `(2e − 2s) mod 48` slots after 2s. |
| Schedule.EmptyWindow | src/services/calculation.service.ts:364 | A range that ends where it starts covers no slot. |
| Schedule.WrapsPastMidnight | src/services/calculation.service.ts:343-364 | 11PM-1AM covers slots 46, 47, 0 and 1, in that order. |
| Schedule.RaiseLookup | src/services/calculation.service.ts:376-383 | One write raises exactly one entry to the maximum of its old value (or 0) and the new one. |
| Schedule.MergeLookup | src/services/calculation.service.ts:368-383 | One slot update never lowers an entry. From a non-negative entry it yields the maximum of the old value and what the tuple offers that ordered pair. |
| Schedule.StampAllAt | src/services/calculation.service.ts:364-391 | After visiting distinct slots, each visited slot is merged once and every other slot is unchanged. |
| Schedule.SpreadAt | src/services/calculation.service.ts:354-391 | One tuple merges into exactly the slots of its window. |
| Schedule.ScheduleIsPeak | src/services/calculation.service.ts:318-395 | Every entry of every slot is the peak bandwidth that the covering tuples offer that ordered pair (0 when none does). |
| Schedule.WalkFrom | src/services/calculation.service.ts:364-391 | The while loop on the array merges the tuple into the slots from the start onward, one per step, until the end hour. |
| Schedule.Advance | src/services/calculation.service.ts:364-390 | A reading short of the end has a step left, and one increment moves it one slot on. |
| Schedule.Arrives | src/services/calculation.service.ts:364 | A reading at the end hour has walked the whole span. |
| Schedule.SpreadLink | src/services/calculation.service.ts:354-392 | One tuple of the `forEach` updates the day as `Spread`. |
| Schedule.SplitTimezones | src/services/calculation.service.ts:318-395 | A fresh array of 48 slots equal to the schedule of the tuples. |
| Power.ActiveCovers | src/services/calculation.service.ts:423-427 | The active routers are the least number whose ports carry the demand, unless that exceeds those installed, in which case all installed routers are on. |
| Power.ClampedToInstalled | src/services/calculation.service.ts:423-427 | 17 to 24 small ports ask for three tier-1 routers; with two installed, two are on. |
| Power.PortDemandNonNegative | src/services/calculation.service.ts:417-420 | Non-negative bandwidths ask for a non-negative number of ports. |
| Power.SitePowerBounds | src/services/calculation.service.ts:411-430 | A site draws between 0 and its installed routers' power. |
| Power.SlotPowerBounds | src/services/calculation.service.ts:408-432 | A slot draws between 0 and all installed routers' power. |
| Power.SumBounds | src/services/calculation.service.ts:436 | Bounded slot powers give a bounded total. |
| Power.NodePower | src/services/calculation.service.ts:411-431 | The inner `forEach` computes the site's draw. |
| Power.IntervalPower | src/services/calculation.service.ts:408-432 | One slot's loop computes the slot's draw over all results in order. |
| Power.CalculatePowerConsumption | src/services/calculation.service.ts:399-445 | One power value per slot, each the slot's draw, and an average that is their total divided by 48. |
| Power.AverageBounds | src/services/calculation.service.ts:439 | Over 48 slots with non-negative demands, the average lies between 0 and the installed draw. |
| Power.ScheduledSlotNonNegative | src/services/calculation.service.ts:376-383 | No bandwidth the scheduler stores is negative. |
| Power.DailyAverageBounds | src/services/calculation.service.ts:318-445 | For the schedule built from any well-formed tuples, the average power lies between 0 and all installed routers on. |

`Topology.BuildTopology` promises the following:

- one node per result;
- earlier duplicates of a site are returned unchanged;
- each site's last result changes only in router counts and external ports, and every external port is accounted for (sized, plus added routers, minus connections);
- the skeleton of k(k-1)/2 zero-usage pairs comes first;
- on guarded inputs no inventory goes negative;
- without exhaustion, every positive demand has an allocated connection (one after the skeleton) between the two sites that carries that demand or the reverse one; when the requirement rows are symmetric, as `formatRequirements` makes them, it carries the demand itself;
- with exhaustion, the reported demand is positive, every one of its `fuel` rounds failed, and its site's last result holds exactly the `fuel` routers those rounds added;
- the returned connections, `exhausted` and the last result of each site (so its router counts) are exactly those of `Planned`, the three steps written as folds over the sites and their rows in key order.

## Left out

- The application shell is not part of this model. It supplies the input tuples as literals (`src/App.tsx`) and draws the UI. Here tuples arrive as values: `Link`, `Customer` and `TimedLink`.
- Floating point: bandwidths and customer counts are integers. `rhs` is kept as two integers, `Need` (its ceiling) and `Bound` (its floor). `NeedIsCeilingOfRhs`, `BoundIsFloorOfRhs` and `MidpointWithRealHigh` show these agree with the real comparisons. Only the average power is a `real`.
- `parseInt` on text: a label is modelled as the parsed number plus a suffix (AM, PM or neither). NaN, labels with both AM and PM, and text that does not start with digits are not modelled.
- Schedule.SplitTimezones: requires `Timed`, that both labels of every tuple parse to an hour in 0..23. That admits every well-formed label (1 to 12 with AM or PM) and bare hours 0 to 23 (`BareHours`). The source would index slots outside 0..47 for other labels, such as 13PM or 25, or loop forever when the end hour is never reached.
- Topology.BuildTopology: step 3 takes a `fuel` bound per demand and reports `exhausted`. The source loops forever on a demand that can never connect (`NoSmallPortNoConnection` exhibits such a demand), so termination past the bound is not modelled.
- Topology.BuildTopology: requires `Ready` (every site has a requirement row and every demand names a site). On other inputs the source throws a TypeError; that error path is not modelled.
- Topology.CanDirectlyConnect: the selection fits both ends only when their inventories are non-negative. Non-negativity through the build is proved only for guarded inputs (no negative sized inventory, no demand of a site on itself).
- Sizing.FindMinCostForX: equality with the exhaustive optimum is proved only when `16 + 3x >= 0`, which always holds in the source, where x >= 0. Otherwise only soundness is proved.
- The key order of the outer matrices (site to row) is not modelled; they are plain maps. The key order inside each row is modelled, because the topology and power loops iterate over it.
- JavaScript iterates integer-like keys ("1", "42") first and in ascending numeric order, before all other keys. The model's record key order (`Rec.Put`) and site order (`Cities`) assume insertion order, so they match the source only for site names that are not integer-like.
- Schedule.Merge: writes each direction as one step, creating a missing row when it is written. The source first creates both rows and then writes them. The resulting matrices are equal, because the outer map has no order here.
- The `|| 0` fallback on a stored NaN is not modelled: stored bandwidths are integers.
- The `Map` of 48 slots returned by `splitTimezones` is an `array` of 48 matrices indexed by slot. `calculatePowerConsumption` takes them as a sequence in slot order, the Map's insertion order.
