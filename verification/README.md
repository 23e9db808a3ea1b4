# Verified model of lite-pick's selection kernel, request layer and live engine

This project models the decision logic of lite-pick, a zero-allocation load-balancing library, and proves what
its strategies promise. The pieces follow the program:

- `Pick.js` becomes one module per strategy: `RoundRobin`, `SmoothWrr`, `TwoChoices` (the power-of-two-choices
  draw and P2C), `LoadScan` (LeastConn, SED and NQ over `CircularScan`), `PeakEwma`, `ConsistentHash` (over
  `Primes`, `Quotas`, `Maglev` and `MaglevBuild`), `BoundedLoad` and `WeightedRandom` (over `AliasTable`), with
  `Eligibility` for the shared view and live count, `Prng` for the generator and `Levenshtein` for the
  did-you-mean distance.
- `Pool.js` becomes `Pool` (interleaved runs) and `Failover` (the hashed choice among untried endpoints).
- The live demo's request engine becomes `RequestTable` (the table as a value) and `Engine` (the in-place
  methods that refine it), with `Balancers` for the live strategy switch and `Fleet` for the circuit breakers.
- `Seqs`, `Arith`, `FiniteSets`, `Words` and `Buckets` hold sums, the few nonlinear facts, counting through
  bijections, 32-bit words, and proportional buckets of words.

A balancer is a class whose fields are the source's arrays and counters; each mutating method is specified by a
function of the old state, and the theorems are lemmas about those functions over arbitrary inputs and whole runs.
`Pool`, `Fleet` and `Engine` are protocols: one method per uninterrupted stretch of code, in any order, each
keeping one invariant that says what is conserved.

Run `dafny verify dfyconfig.toml` to check everything.

## What the model assumes

- Arithmetic is exact. Weights, loads and counters are natural numbers; SED's scores, the alias masses, the
  bounded-load cap and the EWMA are reals. This is the source's supported regime (below 2^53) without rounding,
  so "float residue" fallbacks show up as branches proved unreachable.
- A draw x / 2^32 is kept as the word x; a comparison with a multiple of it is cross-multiplied.
- 32-bit words are naturals below 2^32 with xor, shifts and `Math.imul` defined digit by digit; the bijection
  theorems are about these definitions.
- `exp` is any function with exp(0) = 1, 0 < exp(x) <= 1 for x <= 0, and exp(a + b) = exp(a) * exp(b). The seed
  of PeakEWMA's newest reading is `lowest`, a lower bound of every clock reading (the least finite double).
- The eligibility byte is a boolean written only through `SetEligible`. The typed arrays that
  the caller owns (`inflight`, and `weights` where a strategy reads them live) are read at each call.
- Inheritance is modelled by composition: a strategy holds its `BalancerBase` as `base`, and BoundedLoad its
  ConsistentHash as `ring`. LeastConn, SED and NQ differ only in what an endpoint bids, so `LoadScan` has one
  class with a `rule`.
- Constructor preconditions stand for the argument checks that throw. The table-size guard is modelled as a method,
  because primality is what the table build rests on.
- In `Pool`, each attempt's environment (abort signal, clock validity, the balancer's answers, eligibility and
  weights, whether a note throws) is an arbitrary value; a `note(-1)` in the cleanup does not throw.
- In `Engine`, a worker's answer to a post, its readiness and its room are arbitrary values per event; a balancer's
  pick is any eligible endpoint or none, which is what the strategies are proved to return; an accepted post is
  answered once. In `Fleet`, a worker's health at a tick is an arbitrary boolean.

## Where the code says less than its comments

- The fleet's comment has a half-open breaker decided by one probe (`pickEcosystem/live/fleet.js:12-13`). The code does not
  tell a probe's result from the late result of a request sent before the cool-down (`Fleet.LateResultCloses`). Whatever
  happens in between, a half-open period is decided by the reply of a probe it sent if and only if no request is outstanding
  at the cool-down (`Fleet.DecidedByProbe`). That this probe is then the only one out holds under the same condition, as long as
  the worker is not respawned under it (`Fleet.DecidedByOnlyProbe`); with such a respawn one of two probes can decide, whatever
  is outstanding (`Fleet.DecidedByOneOfTwo`).
- `onDispatch` is to let one probe out at a time (`pickEcosystem/live/fleet.js:157`). The mark that says so is cleared by a late
  reply and by a respawn as well. It tells whether a probe is out, throughout a period, if and only if neither arrives while one is
  (`Fleet.OneProbeAtATime`); so it does when no request is outstanding at the cool-down and the worker is not respawned under a
  probe (`Fleet.QuietPeriod`), and neither condition can be dropped (`Fleet.TwoProbesAtOnce`). What always holds is that a worker
  whose probe mark is set is out of rotation and that nothing is posted to a worker out of rotation.
- The fleet's comment has the tick as the only writer of eligibility (`pickEcosystem/live/fleet.js:15-16`). A dispatch to a half-open
  worker writes it as well: it takes the worker out of the rotation (`Fleet.WorkerFleet.OnDispatch`).
- The engine's comment has a failover go to a different worker (`pickEcosystem/live/engine.js:174-175`). The code compares the pick
  with the request's first worker only. Whatever the scene, a failover leaves the worker that has just failed if and only if that
  is the request's first worker and one try is left, or there is no other worker (`RequestTable.FailoverGoesElsewhere`). With a
  limit of two tries, the demo's setting, this is always so (`RequestTable.TwoTriesGoElsewhere`); with three it can fail.
- BoundedLoad's cap is soft. A pick keeps the load bound if and only if it has a taker: an under-cap backend in its window or, if the
  window holds nobody eligible, an under-cap backend found by the sweep (`BoundedLoad.BoundNeedsRoom`); a settle-free run keeps
  it throughout if and only if every pick has one (`BoundedLoad.BoundedRunsExactly`). It can fail beside an idle backend: every
  table of more than 65 slots built for the weights m-1 and 1 has a key that does it (`BoundedLoad.WindowCanLackRoom`).

## Model

| member | source | states |
|---|---|---|
| Eligibility.BalancerBase.constructor | Pick.js:286-298 | the live count starts as the number of eligible bytes |
| Eligibility.BalancerBase.IsEligible | Pick.js:384-386 | true exactly for an index in range whose byte is up |
| Eligibility.BalancerBase.SetEligible | Pick.js:394-402 | flips one byte and nothing else, and the live count stays exact, on repeated writes too |
| Prng.StepInjective | Pick.js:209-216 | the xorshift step is a permutation of the 2^32 words |
| Prng.StepKeepsNonZero | Pick.js:209-216 | so a non-zero state never becomes 0 |
| Prng.DrawShare | Pick.js:227-235 | every outcome of `nextBelow(n)` comes from floor(2^32/n) states or one more |
| Prng.DrawsAreEven | Pick.js:227-235 | any two outcomes come from equally many states, to within one |
| Prng.Generator.NextBelow | Pick.js:227-235 | the result is below n, advances the state one step, and the state never sticks at 0 |
| Prng.Generator.constructor | Pick.js:202-206 | seed 0 means the default seed |
| Prng.Generator.Reset | Pick.js:238-240 | back to the seed |
| Words.XorShrInjective | Pick.js:209-216 | x ^ (x >>> k) is injective for k > 0 |
| Words.XorShlInjective | Pick.js:209-216 | x ^ (x << k) on 32 bits is injective for k > 0 |
| Words.ImulInjective | Pool.js:161-189 | multiplying by an odd constant modulo 2^32 is injective |
| Words.ImulNext | Pool.js:161-189 | the wrapping product is repeated addition modulo 2^32 |
| Primes.ChIsPrime | Pick.js:1602-1610 | the 6k±1 trial division accepts exactly the primes |
| Primes.NoZeroDivisors | Pick.js:1602-1610 | modulo a prime, a product is 0 only if a factor is |
| Quotas.QuotasSumToTable | Pick.js:1761-1765 | the quotas of any weight vector with a positive sum add up to the table size |
| Quotas.QuotaIsProportional | Pick.js:1761-1765 | each quota is the floor of w*M/W or one more, and 0 for weight 0 |
| Quotas.AssignQuotas | Pick.js:1761-1765 | the two loops compute those quotas; the leftover round-robin never visits anybody twice |
| Quotas.SpreadLeftover | Pick.js:1763-1765 | the leftover slots go one each to the first positive-weight backends |
| Quotas.LeftoverGoesFirst | Pick.js:1763-1765 | whoever is rounded up, so is every positive-weight backend before it |
| Maglev.PosClosedForm | Pick.js:1768-1787 | stepping by skip with wrap-around is (offset + j*skip) mod M |
| Maglev.PosInjective | Pick.js:1766-1787 | M prime and 0 < skip < M: the first M positions are distinct |
| Maglev.PosSurjective | Pick.js:1766-1787 | and so hit every slot: the search for a free slot never stalls |
| Maglev.TableMeetsQuotas | Pick.js:1736-1800 | the turn-by-turn table is complete and every backend owns exactly its quota of slots |
| Maglev.FullIsTable | Pick.js:1777-1794 | stopping in mid-round when the table is full changes nothing: it is the table of whole rounds |
| Maglev.RoundTakes | Pick.js:1777-1794 | every round before the table is full claims a slot, so the no-progress break never fires |
| Maglev.RoundsDealEvenly | Pick.js:1777-1794 | after k rounds every backend has k slots, or its quota if that is less |
| Maglev.FirstChoiceFirst | Pick.js:1777-1794 | no slot changes hands, and the first backend of a round is the first to choose: backend 0 owns the head of its permutation |
| ConsistentHash.MixInjective | Pick.js:1593-1600 | the integer mix is a permutation of the 32-bit words |
| ConsistentHash.OffsetShare | Pick.js:1740-1748 | over all seeds every slot is a backend's offset equally often, to within one |
| ConsistentHash.SkipShare | Pick.js:1740-1748 | and every step from 1 to M-1 its skip |
| MaglevBuild.NextFree | Pick.js:1781-1783 | the inner loop ends and finds the first free slot of the permutation |
| MaglevBuild.TakeTurn | Pick.js:1780-1791 | one turn in place is one turn of the reference: claim the next free slot, or pass if the quota is met |
| MaglevBuild.Round | Pick.js:1778-1793 | a round always fills at least one more slot |
| MaglevBuild.Populate | Pick.js:1766-1800 | the in-place build over three work arrays yields the reference table whatever the lookup held before |
| ConsistentHash.TableIsProportional | Pick.js:1736-1800 | for every weight vector and seed: complete table, slot counts within one of m*w/W, no slot for weight 0 |
| ConsistentHash.ConsistentHashBalancer.AcceptsTableSize | Pick.js:1680-1723 | a table size is accepted iff it is a prime within int32 and no smaller than the pool |
| ConsistentHash.ConsistentHashBalancer.constructor | Pick.js:1680-1723 | the weights are copied and the table is the one they stand for |
| ConsistentHash.ConsistentHashBalancer.Build | Pick.js:1736-1800 | after any rebuild the table, and the all-zero-weights mask, are those of the owned weights |
| ConsistentHash.ConsistentHashBalancer.SetWeight | Pick.js:1808-1815 | afterwards the table is the one for the new weights, rebuilt or not |
| ConsistentHash.ConsistentHashBalancer.SetWeights | Pick.js:1841-1851 | the batch form likewise |
| ConsistentHash.ConsistentHashBalancer.SetEligible | Pick.js:394-402 | a health flap leaves table and weights alone |
| ConsistentHash.ConsistentHashBalancer.Pick | Pick.js:1869-1871 | a key is routed by its hash modulo M |
| ConsistentHash.ConsistentHashBalancer.PickSlot | Pick.js:1897-1913 | equals the first eligible slot in circular order from home, none when nobody is live or all weights are 0 |
| ConsistentHash.Lookup | Pick.js:1897-1933 | home, 64-slot probe and sweep refine one plain turn from home, for every M, also M below the probe limit |
| ConsistentHash.Walk | Pick.js:1906-1911 | the probe loop with wrap-around finds the first eligible slot of its window |
| ConsistentHash.NoneIffUnreachable | Pick.js:1915-1933 | none is returned exactly when no eligible backend owns a slot |
| ConsistentHash.SweepFinds | Pick.js:1915-1933 | a full sweep from the end of an empty window equals a plain turn from home |
| ConsistentHash.WindowFinds | Pick.js:1897-1913 | a window that finds somebody finds what a plain turn finds, even when it wraps past a whole turn |
| ConsistentHash.DrainMovesOnlyItsKeys | Pick.js:1625-1632 | draining any set of backends moves no key that was not on one of them |
| ConsistentHash.DrainMovesExactlyItsKeys | Pick.js:1625-1632 | draining one backend moves a key iff the key was on it |
| ConsistentHash.RecoveryMovesOnlyToRecovered | Pick.js:1625-1632 | bringing backends up moves keys only onto them |
| BoundedLoad.BoundedLoadBalancer.Note | Pick.js:2070-2076 | the occupancy total moves by delta, clamped at 0 |
| BoundedLoad.BoundedLoadBalancer.PickSlot | Pick.js:2090-2123 | equals the specification: first under-cap backend of the 65-slot window, else first eligible of the window, else of the table |
| BoundedLoad.Search | Pick.js:2090-2123 | the loop with its remembered fallback computes that specification |
| BoundedLoad.Probe | Pick.js:2107-2119 | the probe finds the first under-cap backend, or remembers the first eligible one |
| BoundedLoad.OverflowIsSticky | Pick.js:2090-2123 | with no room in the window the answer is ConsistentHash's own |
| BoundedLoad.RouteTakesFirst | Pick.js:2090-2123 | the first under-cap backend of the 65-slot window takes the key, the home itself if it is under the cap |
| BoundedLoad.EmptyIsConsistentHash | Pick.js:2090-2123 | with nothing in flight every key goes where ConsistentHash sends it |
| BoundedLoad.NoneIffUnowned | Pick.js:2107-2123 | caps never cost availability: none exactly when no eligible backend owns a slot |
| BoundedLoad.SomeoneIsUnderCap | Pick.js:2090-2123 | pigeonhole: while the total is the sum of the loads and somebody is live, an eligible backend is under the cap |
| BoundedLoad.DispatchWithinBound | Pick.js:2090-2123 | a dispatch leaves its backend within max(minCap, ceil((1+eps)*T'/live)) iff the backend was under the cap |
| BoundedLoad.BoundMeans | Pick.js:2090-2123 | without a division: n requests are within the bound iff n <= minCap or (n-1)*live < (1+eps)*T |
| BoundedLoad.UnderCapMeans | Pick.js:2090-2123 | a backend is under the cap iff it is eligible and T = 0, or its load is below minCap, or load*live < (1+eps)*(T+1) |
| BoundedLoad.BoundNeedsRoom | Pick.js:2090-2123 | a pick keeps that bound iff its window has room, or the window holds nobody eligible and the sweep lands under the cap |
| BoundedLoad.LoadsStayBounded | Pick.js:2090-2123 | over a whole settle-free run whose picks have such a taker, no backend exceeds the bound |
| BoundedLoad.BoundedRunsExactly | Pick.js:2090-2123 | and only then: a settle-free run keeps the bound throughout iff each of its picks has a taker |
| BoundedLoad.WindowCanLackRoom | Pick.js:2090-2123 | in every built table of more than 65 slots for weights m-1 and 1, loads k >= 2 and 0 and slack 1/4, some key exceeds the bound beside an idle backend |
| BoundedLoad.SmallTableStaysBounded | Pick.js:2090-2123 | if the window spans the table and every eligible backend owns a slot, the bound holds with no further condition |
| SmoothWrr.CycleIsExactlyFair | Pick.js:567-583 | from zero credit, W picks choose each node exactly weight[i] times |
| SmoothWrr.CycleClearsCredit | Pick.js:567-583 | and return every accumulator to zero |
| SmoothWrr.ManyCyclesAreFair | Pick.js:567-583 | any number of whole cycles is exactly fair |
| SmoothWrr.PrefixQuota | Pick.js:567-583 | after any k picks no node has more than ceil(k*w/W) of them |
| SmoothWrr.FairFromAnyCredit | Pick.js:523-583 | from whatever credit flaps and weight changes have left, any k picks keep each node within a constant of its exact share |
| SmoothWrr.DriftIsBounded | Pick.js:567-583 | the bounds on that drift in terms of the starting credit |
| SmoothWrr.NoneIffNoShare | Pick.js:567-583 | none is picked exactly when the eligible weight is 0 |
| SmoothWrr.SmoothWrrBalancer.Pick | Pick.js:567-583 | the fused loop picks the reference choice and leaves the reference accumulators |
| SmoothWrr.SmoothWrrBalancer.SetEligible | Pick.js:523-531 | a flap keeps the cached total exact and drops the node's credit; a repeated write keeps both |
| SmoothWrr.SmoothWrrBalancer.SetWeight | Pick.js:538-547 | a real weight change drops the credit and keeps the total exact |
| SmoothWrr.SmoothWrrBalancer.constructor | Pick.js:504-514 | the total starts exact, all credit zero |
| CircularScan.PickIsFirstMin | Pick.js:828-852 | the two split loops return the first minimum in circular order from the cursor |
| CircularScan.FirstMinUnique | Pick.js:828-852 | and there is only one such minimum |
| CircularScan.PickAtRank | Pick.js:828-852 | the t-th of a series of picks is the tied minimum whose rank is t further on, modulo their number |
| CircularScan.RotationIsFair | Pick.js:828-852 | any k consecutive picks among k tied minima hit each of them exactly once |
| RoundRobin.RoundIsFair | Pick.js:451-463 | any `live` consecutive picks visit every live endpoint exactly once |
| RoundRobin.RoundRobinBalancer.Pick | Pick.js:451-463 | the first live endpoint in circular order from the cursor, which moves just past it |
| LoadScan.LoadBalancer.Pick | Pick.js:828-852 | for LeastConn: the circular-scan pick, cursor just past it |
| LoadScan.LoadBalancer.ScanRange | Pick.js:1101-1132 | for NQ: stopping at the first idle endpoint is what a full scan would answer; SED and LeastConn share it |
| LoadScan.LoadBalancer.PickRandom | Pick.js:1147-1170 | for every generator state one of the minima, none only when nobody bids, and which one: NQ's first idle draw of four, else, only if none of the four is idle, the reservoir's choice from the state then (LeastConn, SED and NQ) |
| LoadScan.LoadBalancer.Reservoir | Pick.js:865-881 | one scan over all endpoints keeps the minimum that the chain of skip draws over the minima alone singles out, and stops at its last word |
| LoadScan.KeptIsMin | Pick.js:865-881 | that choice is one of the minima whatever is drawn, and none only when nobody bids |
| LoadScan.ReplacementShare | Pick.js:865-881 | over all words the holder among c ties survives through tie m for a share c/m of them, to within one: the reservoir's own chance |
| LoadScan.HolderShare | Pick.js:865-881 | and for that share of all generator states the scan's own chain of draws keeps it |
| LoadScan.ReservoirIsFair | Pick.js:865-881 | over exact independent uniform draws each of K ties ends up the holder with chance 1/K: it takes over with chance 1/k and survives ties k+1 to K with chance k/K |
| LoadScan.LeastConnSpread | Pick.js:828-852 | over any run of dispatches a spread of at most 1 among eligible nodes is kept for ever |
| LoadScan.SedIsDHondt | Pick.js:951-979 | from zero, after any number of dispatches inflight[i]*w[j] <= (inflight[j]+1)*w[i] |
| LoadScan.SedLowerQuota | Pick.js:951-979 | so every candidate has at least floor(T*w/W) requests |
| LoadScan.SedWithEqualWeightsIsLeastConn | Pick.js:951-979 | with all weights equal SED picks what LeastConn picks |
| LoadScan.NqNeverQueues | Pick.js:1101-1132 | while a weighted eligible endpoint is idle, NQ picks an idle one |
| LoadScan.BusyNqIsSed | Pick.js:1101-1132 | while every weighted eligible endpoint is busy, NQ bids and picks as SED does |
| AliasTable.PairConserves | Pick.js:2277-2285 | pairing two columns conserves every node's probability mass and leaves both columns sound |
| AliasTable.NoneDeficient | Pick.js:2286-2287 | when the large list runs out no column below 1 is left: the residue drain is unreachable |
| AliasTable.ClosedIsExact | Pick.js:2252-2288 | filling the left-over columns with 1 loses no mass |
| AliasTable.DrawsAreWeighted | Pick.js:2252-2288 | for every N, of the n*N draws (column, x out of N) index i comes up n*N*w[i]/total times, to within one per column |
| AliasTable.OutcomeHasWeight | Pick.js:2252-2288 | a weight-0 node is no column's possible outcome |
| AliasTable.PairUp | Pick.js:2277-2285 | the worklist loop ends without overflowing either stack |
| AliasTable.Build | Pick.js:2252-2288 | whatever the arrays held before, the table of the weights, in which for every i prob[i] plus what other columns give to i is exactly w[i]*n/total, and weight 0 is nobody's outcome |
| AliasTable.BuildsAlike | Pick.js:2252-2288 | two builds on the same weights over any old array contents leave the same columns, so the table is a function of the weights alone |
| WeightedRandom.WeightedRandomBalancer.Rebuild | Pick.js:2252-2288 | snapshot, caches and table agree afterwards; a rebuild on the weights the table was built on changes nothing |
| WeightedRandom.WeightedRandomBalancer.SetEligible | Pick.js:2300-2318 | a flap keeps the eligible-weight cache exact, adjusted or recounted |
| WeightedRandom.WeightedRandomBalancer.SetWeight | Pick.js:2326-2337 | the rebuild is skipped only at the built weight; the table is then the one for the caller's weights iff no other weight was edited in place since the last build |
| WeightedRandom.WeightedRandomBalancer.SetWeights | Pick.js:2364-2379 | rebuilt or not, the table is afterwards the one for the given weights |
| WeightedRandom.WeightedRandomBalancer.Pick | Pick.js:2394-2412 | for every generator state an eligible positive-weight node, none exactly when there is none, and which one |
| WeightedRandom.WeightedRandomBalancer.AliasDraws | Pick.js:2398-2410 | the first of 64 draws to land on an eligible node |
| WeightedRandom.PairsAreWeighted | Pick.js:2398-2410 | over all pairs (column, 32-bit word x) the compare of x / 2^32 yields node i n*2^32*w[i]/total times, to within one per column |
| WeightedRandom.CandidateReads | Pick.js:2398-2410 | each draw takes two generator words of its own, one for the column and one to compare |
| WeightedRandom.WeightedRandomBalancer.SparsePick | Pick.js:2421-2439 | the node whose cumulative interval holds the draw |
| WeightedRandom.SparseIsProportional | Pick.js:2421-2439 | over all 2^32 states each node is returned in proportion to its eligible weight, to within one state |
| WeightedRandom.WeightedRandomBalancer.Walk | Pick.js:2433-2438 | the walk never runs off the end, so its last-node fallback is dead in exact arithmetic |
| TwoChoices.KthOfRank | Pick.js:178-186 | ranks below the live count name the eligible endpoints one to one |
| TwoChoices.FallbackIsFair | Pick.js:178-186 | over all 2^32 states the fallback reaches every eligible endpoint equally often, to within one |
| TwoChoices.KthEligible | Pick.js:178-186 | the walk finds the endpoint of the drawn rank; its fall-through is unreachable |
| TwoChoices.DrawFromIsDraw | Pick.js:652-660 | a draw is the endpoint named by the first of 64 words to name an eligible one, else the eligible endpoint of the 65th word's rank |
| TwoChoices.Draw | Pick.js:652-660 | the loop is that draw, none exactly when nobody is live |
| TwoChoices.Pair | Pick.js:666-675 | with two or more live endpoints b is the first of draws 2 to 34 to differ from a, equal to it only if all 33 repeat it; with one live endpoint both are that one |
| TwoChoices.ChooseIsPair | Pick.js:666-675 | the same of the pair PeakEWMA draws |
| TwoChoices.LeastLoadedOfTwo | Pick.js:666-679 | with two live endpoints, both drawn, the pick has the least load of the pool |
| TwoChoices.P2cBalancer.Pick | Pick.js:666-679 | of that pair the one with the smaller load, the first on a tie; none exactly when nobody is live |
| PeakEwma.EstimateRange | Pick.js:1431-1441 | after a record the estimate lies in [sample, max(previous, sample)] |
| PeakEwma.EstimateInRange | Pick.js:1431-1443 | after any history each estimate lies within its own node's samples, and a node without one reads 1 |
| PeakEwma.ReadsDecay | Pick.js:1367-1373 | reading never raises an estimate and a later reading never exceeds an earlier one |
| PeakEwma.ReadsCompose | Pick.js:1367-1373 | a read at the last response is the estimate, and a later read is an earlier one times exp(-elapsed/tau) |
| PeakEwma.GapDecays | Pick.js:1431-1443 | over any history, while a node returns smaller samples s the gap between its estimate and s shrinks by exp(-elapsed/tau), however many samples come |
| PeakEwma.Baseline | Pick.js:1510-1539 | a node without a sample reads 1, and a pool without one prices a busy node at that per request |
| PeakEwma.BusyFloor | Pick.js:1510-1539 | a sampled busy node costs per request the larger of its decayed estimate and the time since its last response |
| PeakEwma.ColdPrice | Pick.js:1510-1539 | a node without a sample is free while idle and, while busy, priced between the pool's smallest and largest sample |
| PeakEwma.IdlePrice | Pick.js:1510-1539 | a sampled idle node never costs more than its own largest sample |
| PeakEwma.PoolSumsClosedForm | Pick.js:1450-1457 | for every history, backwards clocks included, sample k counts with weight exp(-(m_n - m_k)/tau), m the running maximum of the clock |
| PeakEwma.MeanInRange | Pick.js:1450-1457 | the pool mean lies between the smallest and the largest sample |
| PeakEwma.RecordShifts | Pick.js:1425-1458 | one record under a shifted clock gives shifted statistics, first sample included |
| PeakEwma.PickShifts | Pick.js:1500-1540 | and one pick gives the same pick |
| PeakEwma.RunsAreTranslationInvariant | Pick.js:1317-1342 | over whole runs of records, picks, flaps and load changes, moving every reading by C changes no pick, estimate or pool sum |
| PeakEwma.PickIsCheaper | Pick.js:1510-1540 | the pick is one of the pair drawn, costs no more than either, and is the first of the pair on equal cost |
| PeakEwma.FasterIdleWins | Pick.js:1510-1540 | over any run, when a pick draws two sampled idle nodes the one with the smaller decayed estimate wins |
| PeakEwma.PeakEwmaBalancer.constructor | Pick.js:1302-1343 | the cold state |
| PeakEwma.PeakEwmaBalancer.Ewma | Pick.js:1367-1373 | the read the lemmas are about |
| PeakEwma.PeakEwmaBalancer.RecordRtt | Pick.js:1388-1458 | the in-place updates are the record step the lemmas are about, and touch nothing else |
| PeakEwma.PeakEwmaBalancer.Pick | Pick.js:1470-1540 | the pick the lemmas are about; only the generator moves |
| Failover.FmixInjective | Pool.js:161-189 | the 32-bit finaliser is a bijection |
| Failover.TargetInjective | Pool.js:161-189 | for a fixed attempt distinct keys aim at distinct targets |
| Failover.ChooseUntried | Pool.js:161-189 | an untried, eligible, positive-weight endpoint whose interval holds the target, none exactly when there is none |
| Failover.SpillIsProportional | Pool.js:161-189 | over all 2^32 keys each candidate is chosen in proportion to its weight, to within one key |
| Buckets.HitCount | Pool.js:175-189 | an interval of width w out of W is hit by 2^32*w/W words, to within one |
| Buckets.HitsUnique | Pool.js:175-189 | a target lies in at most one interval |
| Pool.RequestPool.Begin | Pool.js:330-473 | a new run gets to its first await at the endpoint picked, or to its end for the stated reason, with the books balanced |
| Pool.RequestPool.Attempt | Pool.js:407-473 | one new distinct endpoint is counted and noted once, or the run ends here for the stated reason with all it held released |
| Pool.RequestPool.Choose | Pool.js:431-457 | a repeated pick is asked again at most 8 times, then one weighted choice among the untried |
| Pool.RepickIsFirst | Pool.js:431-442 | the answer kept is the first of the nine to name an untried endpoint or nobody, or the ninth |
| Pool.RequestPool.Dispatch | Pool.js:459-466 | a throwing note releases the count and sends no note(-1) for itself |
| Pool.RequestPool.Settle | Pool.js:471-536 | nothing is dispatched once fn has resolved; a failure holds its counts and makes one more attempt, by the attempt's rule, while tries remain |
| Pool.RequestPool.Finish | Pool.js:537-557 | the finally block releases exactly what the run holds; neither clamp at 0 ever fires |
| Pool.RequestPool.CallerAdjust | Pool.js:537-557 | the caller may move a count it accounts for at any await |
| Pool.RequestPool.CallerMove | Pick.js:1991-1995 | a caller that moves a count and notes it in lockstep keeps the total equal to the sum of inflight |
| Pool.BooksStep | Pool.js:330-558 | replacing one run by its next state keeps inflight = base + active holdings and total = base + landed notes, given that the counters moved by the run's change |
| Pool.BackToBase | Pool.js:537-557 | when all runs have ended, on whatever path, every counter is back to base |
| Pool.TotalIsSum | Pick.js:2070-2076 | at every await the noted total equals the sum of inflight |
| Balancers.BalancerSlot.Set | pickEcosystem/live/balancers.js:54-67 | a switch under load keeps eligibility and live count, takes the new strategy's flags, and seeds the total with the sum of inflight |
| Balancers.BalancerSlot.SetEligible | pickEcosystem/live/balancers.js:70-73 | record and balancer stay equal |
| Fleet.TripsExactlyOnStreak | pickEcosystem/live/fleet.js:162-180 | a breaker is closed iff no streak of consecutive failures has reached the limit, and counts the current one |
| Fleet.OpensOnRow | pickEcosystem/live/fleet.js:134-209 | over any run of results, ticks, dispatches and respawns a closed breaker opens exactly on the failure that makes a row as long as the limit; only a success or a respawn ends a row |
| Fleet.CoolDownIsWaited | pickEcosystem/live/fleet.js:162-209 | after a trip or a failed probe at time t the breaker stays open, and the worker out from the first tick on, until a tick reads t + cool-down or later; that one makes it half-open |
| Fleet.InRotation | pickEcosystem/live/fleet.js:184-209 | after a tick the worker is in rotation iff it is healthy and its breaker closed, or half-open with no probe out |
| Fleet.LateResultCloses | pickEcosystem/live/fleet.js:162-180 | a run in which a half-open breaker closes on a result that is not its probe's |
| Fleet.DecidedByProbe | pickEcosystem/live/fleet.js:134-209 | every half-open period from a state is decided by the reply of a probe it sent iff no request is outstanding at the cool-down |
| Fleet.DecidedByOnlyProbe | pickEcosystem/live/fleet.js:134-209 | without a respawn under a probe the same condition decides whether the deciding probe is always the only one out |
| Fleet.DecidedByVerdict | pickEcosystem/live/fleet.js:134-209 | what ends a half-open period is a reply with a verdict: closed on success, open on failure |
| Fleet.ProbeDecides | pickEcosystem/live/fleet.js:134-209 | and one probe with its verdict does end it |
| Fleet.DecidedByOneOfTwo | pickEcosystem/live/fleet.js:134-209 | with a respawn under the probe a period can be decided by one of two probes out, whatever is outstanding |
| Fleet.OneProbeAtATime | pickEcosystem/live/fleet.js:134-180 | over every half-open period the mark tells whether a probe is out iff no late reply and no respawn arrives while one is |
| Fleet.QuietPeriod | pickEcosystem/live/fleet.js:134-180 | with no request outstanding at the cool-down and no respawn under a probe, one probe at a time |
| Fleet.TwoProbesAtOnce | pickEcosystem/live/fleet.js:134-180 | a respawn, or a late reply, while the probe is out lets a second probe go beside the first |
| Fleet.WorkerFleet.OnDispatch | pickEcosystem/live/fleet.js:155-160 | a half-open worker takes one probe and leaves the rotation with it; all invariants kept |
| Fleet.WorkerFleet.OnResult | pickEcosystem/live/fleet.js:162-180 | verdicts move the breaker, placement and death codes only release the probe; all invariants kept |
| Fleet.WorkerFleet.Tick | pickEcosystem/live/fleet.js:184-209 | afterwards every supervised worker is in rotation iff it is healthy and its breaker allows; nobody else moves |
| Fleet.WorkerFleet.BringUp | pickEcosystem/live/fleet.js:134-151 | a respawn clears failures and probe; all invariants kept |
| Fleet.WorkerFleet.Build | pickEcosystem/live/fleet.js:97-132 | a rebuild starts closed; all invariants kept |
| Fleet.WorkerFleet.Teardown | pickEcosystem/live/fleet.js:259-266 | an unsupervised worker keeps its place; all invariants kept |
| Fleet.WorkerFleet.Switch | pickEcosystem/live/balancers.js:54-67 | a strategy switch leaves breakers and rotation alone |
| RequestTable.RunsConserve | pickEcosystem/live/engine.js:141-275 | over every run: arrivals = ok + failed + shed + drained + pending, free list and active slots partition the table, inflight counts the posts, and an ended request never ends again |
| RequestTable.RunsCountAttempts | pickEcosystem/live/engine.js:141-275 | over every run: requests admitted + failovers = nobody eligible + refused + posts taken, every refused post is counted, and an arrival is drained exactly while draining |
| RequestTable.EventKeeps | pickEcosystem/live/engine.js:141-275 | each event keeps all of that |
| RequestTable.ArrivedKeeps | pickEcosystem/live/engine.js:141-162 | an arrival is counted once and opens at most one ticket |
| RequestTable.SettledKeeps | pickEcosystem/live/engine.js:245-269 | a settle ends its own ticket or posts it once more, and moves no other; a request that ran is never shed |
| RequestTable.DispatchKeeps | pickEcosystem/live/engine.js:185-204 | a dispatch ends with the request posted on one worker or ended |
| RequestTable.PostKeeps | pickEcosystem/live/engine.js:208-233 | so does a post with all its reroutes, within the limit on posts |
| RequestTable.FinishedKeeps | pickEcosystem/live/engine.js:271-275 | the slot is freed once and one outcome counted |
| RequestTable.AdmitKeeps | pickEcosystem/live/engine.js:152-161 | the top free slot is taken by one new ticket |
| RequestTable.UnpostedKeeps | pickEcosystem/live/engine.js:245-249 | an answered post was counted, so its count is positive |
| RequestTable.DispatchCounts | pickEcosystem/live/engine.js:185-233 | only eligible workers are ever posted to |
| RequestTable.FailoverGoesElsewhere | pickEcosystem/live/engine.js:174-269 | whatever the scene, a failover leaves the worker that has just failed iff that is the request's first worker and one try is left, or it is the only worker |
| RequestTable.SettledKeepsFirst | pickEcosystem/live/engine.js:185-269 | a settle changes no request's first worker |
| RequestTable.PostKeepsFirst | pickEcosystem/live/engine.js:208-233 | nor does a post with its reroutes, except that a request never posted before gets the worker it is aimed at |
| RequestTable.TwoTriesGoElsewhere | pickEcosystem/live/engine.js:235-269 | with a limit of two tries every failover leaves the worker that has just failed |
| RequestTable.FailoverMayReturn | pickEcosystem/live/engine.js:208-233 | whenever more than one try is left and there are two workers, some scene posts the request on its first worker again |
| RequestTable.OtherIsNone | pickEcosystem/live/engine.js:176-183 | the reroute gives up exactly when every other eligible worker is full |
| RequestTable.AfterWraps | pickEcosystem/live/engine.js:176-183 | the k-th worker after the one to avoid is (avoid + k) modulo n |
| RequestTable.OtherIsNearest | pickEcosystem/live/engine.js:176-183 | and otherwise it goes to the nearest one with room |
| RequestTable.ShedMeansFull | pickEcosystem/live/engine.js:185-275 | an arrival nobody accepts is shed when every worker was ready, and failed when nobody was eligible or its worker was not ready |
| RequestTable.SettledBKeeps | pickEcosystem/live/engine.js:279-304 | requests of the other engine settle into the same balance |
| RequestTable.MovedBKeeps | pickEcosystem/live/engine.js:127-138 | and move the same in-flight counts |
| Engine.RequestEngine.constructor | pickEcosystem/live/engine.js:55-96 | everything starts free and balanced |
| Engine.RequestEngine.Request | pickEcosystem/live/engine.js:141-162 | the in-place arrival is the specified one; admitted iff not draining, a slot is free, and nobody is live or fewer requests are in the system than the live workers hold; a half-open worker posted on takes its probe |
| Engine.RequestEngine.PostA | pickEcosystem/live/engine.js:208-233 | the in-place post with its reroutes is the specified one; of the fleet only the worker that takes it moves, and if half-open it takes its probe and leaves the rotation |
| Engine.RequestEngine.DispatchA | pickEcosystem/live/engine.js:185-204 | so is the dispatch |
| Engine.RequestEngine.SettleA | pickEcosystem/live/engine.js:245-269 | so is the settle; in terms of codes, what becomes of the request, what the answering worker's breaker does, and that no other breaker moves |
| Engine.OpensOnFailures | pickEcosystem/live/engine.js:245-269 | over any run of settles a closed breaker stays closed exactly as long as no row of failed jobs of its worker has reached the limit |
| Engine.LastFailuresOpen | pickEcosystem/live/engine.js:245-269 | a worker that has lately failed the limit of jobs and served none has an open breaker |
| Engine.PlacementKeeps | pickEcosystem/live/engine.js:245-269 | worker-down, not-ready, queue-full and disposed answers, and other workers' answers, leave a breaker as it was |
| Engine.RequestEngine.Finish | pickEcosystem/live/engine.js:271-275 | so is the end of a request |
| Engine.RequestEngine.NextWithRoom | pickEcosystem/live/engine.js:176-183 | the first other eligible worker with room in circular order, or none |
| Engine.RequestEngine.SettleB | pickEcosystem/live/engine.js:299-303 | a request of the other engine leaves the pending count and is counted once |
| Engine.RequestEngine.MoveB | pickEcosystem/live/engine.js:127-138 | the forwarder notes every move to the balancer in use now, so the total stays the sum of inflight |
| Engine.RequestEngine.Switch | pickEcosystem/live/balancers.js:54-67 | a live switch under load changes nothing of the table and keeps total and inflight in step |
| Engine.RequestEngine.Tick | pickEcosystem/live/fleet.js:184-209 | a tick between events changes nothing of the table and does to every worker what the fleet's tick does |
| Levenshtein.NoScriptIsCheaper | Pick.js:694-708 | no edit script from a to b is cheaper than the distance |
| Levenshtein.CheapestScript | Pick.js:694-708 | and some script costs exactly that |
| Levenshtein.Lev | Pick.js:695-708 | the one-row in-place loop computes that distance for all pairs of strings |

## Left out

- LoadScan.LoadBalancer.PickRandom: states which minimum each generator state gives, not that each comes up equally often: `LoadScan.ReservoirIsFair` has that for independent uniform draws, while successive draws here are consecutive states of one generator.
- Fleet.WorkerFleet.Tick: does not model the kill of hung workers and the fault report to the supervisor, which act on the worker set.
- ConsistentHash.DrainMovesOnlyItsKeys: does not model the percentage of keys a rebuild moves, a statistical claim about the 32-bit mix.
- Prng.StepInjective: does not model that the generator's period is full, only that its step is a permutation.
- Pool.RequestPool.Settle: does not model the latency samples a run feeds back, only whether feeding them fails.
- Engine.RequestEngine.SettleA: does not model request keys, time stamps, latency statistics and the last worker posted to, which the front end shows.
- Engine.RequestEngine.MoveB: models engine B only through what its pool moves and notes and through its final outcomes.
- Argument validation and error codes, apart from the table-size guard: typing concerns of the host language.
- `describe`, `inspect`, stats slabs, diagnostics channels and `assertConsistent`: observability.
- `pickFrom` and `recordRttFrom`: the same selection through a typed-array slot; zero-allocation and benchmark claims.
- Floating-point rounding, non-finite clocks and duck-typed balancers that return odd values.
- The width of counters: `inflight`, tries, failure counts and the 31-bit post sequence are unbounded here.
- `liteQueryFetcher`, and engine B's promise plumbing beyond its forwarder.
- The supervisor hand-off of dead workers (`_fault`, restart and escalation flags) and injected faults.
- Dependency injection, event bus, statistics, traffic, terminal and browser front ends, worker transports.
