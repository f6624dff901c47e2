# Verification of the divisor load balancer

Divisor is a layer-7 load balancer whose request path takes no locks: a single writer, the health
checker, publishes immutable snapshots through atomic pointers, and any number of requests read
them. This project models the four parts of the program whose guarantees rest on that design, and
proves those guarantees for all inputs, all runs and all interleavings.

1. **The consistent-hash ring and the ip-hash balancer.** `VirtualNodeKeys` (the text keys),
   `HashRing` (the ring as a value: positions on a circle of 2^32 points with owners), `RingHistory`
   (runs of adds and removes), `ConsistentHash` (the class: one pointer to snapshot objects, the loops
   and the binary search), `BackendKeys` (the map keys under which every balancer finds its Backends),
   `StatsRows` (the row numbers of Stats), `IPHashRounds` (what rounds of Probe results do to flags and
   ring), `RingService` (who serves a client after any history) and `IPHash` (the class). The hash function is a parameter about which nothing is assumed; where a property
   needs that different Nodes have different positions, that is the hypothesis `NoCollision`.
2. **The rotation balancers.** `Rotation` (which Backends a slice holds), `TicketCounting` (counting
   over `v % n`, including the uint64 wrap), `RoundRobin` (w-round-robin and round-robin) and
   `LeastAlgorithm` (least-connection and least-response-time). `BalancerProtocol` is the step system of
   the checker, any number of requests and any number of Shutdown calls, with a program counter for
   each goroutine, for all four ways to choose a Backend; `BalancerSafety`, `BalancerShutdown` and `BalancerRuns` prove what its runs keep.
   `BalancerMemory` is the same machine over shared memory, with addresses, in-place shuffles and late
   reads, and is proved to refine it.
3. **Response-time accounting.** `MovingAverage` (the smoothing step), `ProxyAccounting` (the step
   system of concurrent requests, resets and readers on the shared counters) and `ProxyRuns` (what the
   counters, the score and the traces mean).
4. **One request.** `RequestTrace` (what a request does, in order), `Headers` (header lists and
   hop-by-hop removal as in section 7.6.1 of RFC 9110) and `RequestHandler` (the middleware chain, the
   backend attempt, the books and the answer).

Classes carry the fields that the program updates; their methods are proved against functions on
values, and the theorems are about those functions. A published slice or ring is an object of its
own that no `modifies` clause of the health check names: that is how "a snapshot is never written
again" reads in these contracts.

Properties that do not hold of the code on all inputs, each with its exact condition:

- A ring is a function of the set of present Nodes exactly when no two Nodes share a position
  (`HistoryIndependenceIffNoCollision`); a Join undone by a Leave restores the ring exactly when the
  Node's positions were free (`JoinThenLeaveRestores`); a Leave moves only the leaving Node's clients
  exactly when every position it takes from another Node is followed by one of the same owner
  (`RemoveIsMinimalIffOwnersAreNext`).
- Backends are found by a hash of address and index, and such texts repeat, as in "h:8081" with index
  0 and "h:808" with index 10 (`KeysCanRepeat`). Stats fills every row exactly when the keys are
  distinct (`RowsAreCompleteIffKeysAreDistinct`).
- Complete rounds make the ring a function of their Probe results exactly when the map keys are
  distinct and no two Backends share a position (`RoundsDecideIffNothingIsShared`): a shared position
  goes to the Backend that joined last, and a shared key keeps a Backend from being checked.
- A client can be turned away while a Backend is Alive, namely when the others have gone Down and took
  all its positions with them; over all histories that cannot happen exactly when every Backend has a
  position that no other one hashes to (`AlwaysServesIffNobodyCovered`).
- Least-response-time can choose a Backend although a peer scores below it, because it reads the score
  of slot 0 twice (`SlowerBackendCanWin`): exactly when that Backend is in slot 0, its first reading is
  not above any later one, and no Backend is unmeasured (`SlowerBackendWinsIff`). With steady scores it
  never does (`SlowerBackendLoses`).
- Across the wrap of the uint64 ticket counter a round can give one Backend two selections and another
  none (`WrapCanCostARound`). The error is at most one weight, and it is zero for all Backends exactly
  when the slots selected just before the wrap are, in some order, the last ones of the round that it
  cuts (`ExactIffTheWrapIsFair`). For n different slots that is the case exactly when no wrap occurs, it
  falls between two rounds, or n divides 2^64 (`ExactUnlessTheWrapCutsARound`); with weights it can also
  be so otherwise (`CutRoundCanBeFair`).
- A Shutdown that times out can close proxies before later publications
  (`TimedOutShutdownIsNoBarrier`). Its closes come after all Probes and publications exactly when the
  checker is not inside a health check (`BarrierIffCheckerIsIdle`).
- A Rejoining Backend is reset to "unmeasured" before it is published, but a request that failed before
  the reset can store its penalty afterwards (`ResetDoesNotFenceStragglers`); a reset fences off the
  past exactly when no request is in flight (`ResetFencesIffNothingInFlight`).
- The handler removes hop-by-hop headers, but its own 502 and 504 answers carry `Connection: close`,
  the only one that it lets through (`OnlyOwnHopHeaderReachesTheClient`). The 503 for a pool without
  Alive Backends is written outside the handler and carries it too.

The repository's README describes how OnResponse overrides a backend error: by returning an error of
its own. The model agrees with it: status and body of a failed attempt's answer can be changed exactly
that way (`FallbackSurvivesOnlyWithAnError`), while end-to-end headers survive in any case
(`HeadersOfTheReply`, `HeadersSurviveWithoutAnError`).

## Model

The main results come first, then what they rest on module by module, then the invariants of single steps.

| member | source | states |
|---|---|---|
| RingHistory.HistoryIndependenceIffNoCollision | pkg/consistent/consistent.go:52-90 | over all runs on a set of Nodes, routing depends on membership alone if and only if no two of them share a position |
| IPHashRounds.LastCompleteRoundDecides | core/ip-hash/ip-hash.go:97-137 | over any history of rounds, a complete round makes flags and ring a function of its Probe results alone, if no two Backends share a position |
| IPHashRounds.RoundsDecideIffNothingIsShared | core/ip-hash/ip-hash.go:106-137 | complete rounds make the ring a function of their Probe results if and only if no two Backends share a map key and no two share a position |
| RingService.AlwaysServesIffNobodyCovered | core/ip-hash/ip-hash.go:89-95 | over every history of rounds and for every client: somebody serves it exactly while a Backend is Alive - if and only if every Backend has a position that no other one hashes to |
| RingService.FitsServes | core/ip-hash/ip-hash.go:77-95 | after any history, collisions included, a client is served by an Alive Backend or not at all |
| StatsRows.RowsAreCompleteIffKeysAreDistinct | core/ip-hash/ip-hash.go:139-155 | Stats fills every row and stays in bounds if and only if the keys are distinct |
| BackendKeys.KeysCanRepeat | core/ip-hash/ip-hash.go:63-65 | configurations with repeated map keys, whatever the hash function: addresses u1 at index i and u at index 1i, for each digit i |
| HashRing.RemoveIsMinimalIffOwnersAreNext | pkg/consistent/consistent.go:70-90 | a remove moves only the removed Node's hashes if and only if each position it takes from another Node is followed by one of the same owner; collisions included |
| HashRing.AddDisruptsOnlyToTheNewNode | pkg/consistent/consistent.go:52-68 | after an add every hash goes to its old owner or to the new Node, collisions included |
| HashRing.JoinThenLeaveRestores | pkg/consistent/consistent.go:52-90 | adding and removing a Node gives the same ring back if and only if none of its positions was taken |
| RingHistory.EqualMembershipEqualRing | pkg/consistent/consistent.go:52-90 | two runs with equal present sets end in the same map and the same list |
| RingHistory.FlapRestoresRing | pkg/consistent/consistent.go:52-90 | a Down followed by a Rejoin restores the ring |
| RingHistory.PresentNodeOwnsItsKeys | pkg/consistent/consistent.go:52-96 | on a canonical ring every present Node is routed the hashes of its virtual-node keys |
| HashRing.NewNodeOwnsItsKeys | pkg/consistent/consistent.go:52-66 | a Node that joins is routed the hash of each of its virtual-node keys, collisions included |
| ConsistentHash.ConsistentHash.GetNode | pkg/consistent/consistent.go:98-110 | nil exactly on the empty ring, otherwise the owner of the nearest position |
| ConsistentHash.ConsistentHash.GetNodeOvertaken | pkg/consistent/consistent.go:98-110 | a lookup overtaken by any number of adds and removes answers for the ring it loaded |
| VirtualNodeKeys.KeysAreDistinct | pkg/consistent/consistent.go:92-96 | two keys are equal exactly when Id, i and Addr are |
| BalancerRuns.RotationFollowsLiveness | core/w-round-robin/w-round-robin.go:120-149 | in every reachable state the current slice holds each Alive Backend weight times and no Down one, except the one being flagged |
| BalancerRuns.SelectionsAreAlive | core/w-round-robin/w-round-robin.go:91-98 | in any interleaving and for every way to choose: each selection was made by a request that loaded the slice current at that moment, held it until it picked, and got a Backend that was in rotation at the load |
| BalancerRuns.WeightedFairness | core/w-round-robin/w-round-robin.go:91-98 | in any interleaving, k rounds of tickets on one slice choose a Backend k times its weight, within one weight across the wrap |
| BalancerRuns.ExactFairnessIffTheWrapIsFair | core/w-round-robin/w-round-robin.go:91-98 | in any interleaving, k rounds of tickets on one slice give every Backend exactly k times its weight if and only if the wrap is fair |
| BalancerRuns.FairnessOfAnyWindow | core/w-round-robin/w-round-robin.go:91-98 | in any interleaving, any window on one slice gives a share between the floor and the ceiling, off by at most one more weight on either side if the counter wraps in it |
| TicketCounting.ExactIffTheWrapIsFair | core/w-round-robin/w-round-robin.go:96-97 | k rounds on a slice with any weights give every Backend exactly its share if and only if the wrap lies outside them or the slots selected just before it are, as a multiset, the last slots of the cut round |
| TicketCounting.ExactUnlessTheWrapCutsARound | core/round-robin/round-robin.go:82-89 | for n different slots: exactly k turns each if and only if k rounds end before the wrap, or the wrap falls between two rounds, or n divides 2^64 |
| BalancerMemory.RunRefines | core/w-round-robin/w-round-robin.go:120-149 | with slices in shared memory, shuffled in place and read when a request picks, every run shows readers a run on immutable values |
| BalancerMemory.SnapshotsAreImmutable | core/round-robin/round-robin.go:111-133 | over any part of a run, what lies at an address that the pointer has shown stays the same |
| BalancerRuns.NothingServedOnlyIfAllDown | core/w-round-robin/w-round-robin.go:91-95 | a request gets no Backend if and only if none was in rotation at the moment of its load |
| BalancerRuns.RoundFollowsItsProbes | core/w-round-robin/w-round-robin.go:103-149 | whenever the checker is back at its select after a round began, every Backend was probed in between, and flags and slice are those of the round's Probe results |
| LeastAlgorithm.ShareLaw | core/least-algorithm/least-algorithm.go:93-111 | with fixed loads, n consecutive tickets choose a least loaded slot exactly as often as its cyclic distance from the previous one |
| BalancerRuns.LeastLoadedShares | core/least-algorithm/least-algorithm.go:93-111 | the share law in any interleaving of callers: with the same pending counts in every scan, n consecutive tickets on one slice give a least loaded Backend as many requests as its cyclic distance from the previous one |
| LeastAlgorithm.EveryLeastGetsATurn | core/least-algorithm/least-algorithm.go:93-111 | n consecutive tickets choose every least loaded slot at least once |
| LeastAlgorithm.SlowerBackendLoses | core/least-algorithm/least-algorithm.go:113-135 | failover: while scores stand still during the scan, no Backend is chosen that a peer in rotation scores below |
| LeastAlgorithm.SlowerBackendWinsIff | core/least-algorithm/least-algorithm.go:118-135 | for scores that move: a Backend wins over a peer that scores below it if and only if it is in slot 0, none is unmeasured, and no reading of the scan undercuts the first one of slot 0 |
| BalancerRuns.FastestIsChosen | core/least-algorithm/least-algorithm.go:113-135 | in any interleaving, a scan that finds steady scores ends at a Backend that no other one of its slice scores below |
| BalancerRuns.RejoinIsResetFirst | core/least-algorithm/least-algorithm.go:170-179 | the checker's last act before it stores the slice of a Rejoin is the reset of that Backend's score |
| BalancerRuns.StopIsClosedOnce | core/ip-hash/ip-hash.go:160-162 | however many calls race, the stop channel is closed once and at most one health check begins after that |
| BalancerRuns.AtMostOneCheckBegins | core/ip-hash/ip-hash.go:106-112 | once the stop channel is closed at most one health check begins, and only one whose stop test was passed before |
| BalancerRuns.ReturnedCallHasClosedAll | core/ip-hash/ip-hash.go:169-174 | each Shutdown call closes each proxy exactly once before it returns, in whatever order, and none before it has seen the done channel or timed out |
| BalancerRuns.ProxiesCloseLast | core/ip-hash/ip-hash.go:163-174 | after a proxy closed by a call that saw the done channel, no Probe and no store follows |
| BalancerRuns.DoneIsFinal | core/ip-hash/ip-hash.go:163-174 | once a call has seen the done channel, slices and flags never change again |
| BalancerRuns.CheckerTerminates | core/ip-hash/ip-hash.go:97-115 | after the close the checker makes a bounded number of steps, whatever the others do, and is never stuck before it exits |
| BalancerRuns.BarrierIffCheckerIsIdle | core/ip-hash/ip-hash.go:163-174 | once the stop channel is closed, a proxy closed now is closed after the last Probe and the last store, however the run goes on, if and only if the checker is not inside a health check |
| ProxyRuns.ScoreIsLinearizable | internal/proxy/proxy.go:152-163 | in any interleaving the score is the fold in CAS order since the last reset, and each sample is applied exactly once |
| ProxyRuns.ResetFencesIffNothingInFlight | internal/proxy/proxy.go:342-347 | no sample of a request that began before a reset can be stored after it if and only if no request is in flight at the reset |
| ProxyRuns.SamplesAreTheRequestsTimes | internal/proxy/proxy.go:131-150 | each sample is to the nanosecond the time that its request had when its attempt failed or its answer was recorded, and ten seconds if a failure took less |
| ProxyRuns.FailedSwapMeansAChange | internal/proxy/proxy.go:152-163 | a compare-and-swap fails exactly when the score is another one than at this request's load |
| ProxyRuns.CountersAgree | internal/proxy/proxy.go:83-129 | the total is the number of requests started; at rest the measured count is the number of nil returns, and updates are nil returns plus failed attempts |
| ProxyRuns.AverageNeverUnderReports | internal/proxy/proxy.go:321-332 | a reported average is at least the mean of exactly those requests that were counted when the reader loaded its count, which is their number |
| ProxyRuns.QuietReaderReportsTheMean | internal/proxy/proxy.go:321-332 | a reader whose loads fall into a stretch with no request under way reports the mean of the truncated times, less than a microsecond below the true mean |
| ProxyRuns.TracesAreLegal | internal/proxy/proxy.go:83-129 | in any interleaving a finished request has made OnRequest calls up to the first error, or all of them, one attempt, and OnResponse calls up to the first error; nil and failed attempts can be read off its trace |
| ProxyRuns.ScoreMeaning | internal/proxy/proxy.go:334-347 | in every reachable state the score is 0 exactly when every request sampled since the reset succeeded in 0 nanoseconds, and after a failed one at least 2000 milliseconds |
| MovingAverage.SteadySamplesConverge | internal/proxy/proxy.go:57-60 | k equal samples s from score x give s + (4/5)^k (x - s) |
| MovingAverage.FoldStaysBetween | internal/proxy/proxy.go:152-163 | the score stays between the least and the greatest sample |
| MovingAverage.OneFailurePenalises | internal/proxy/proxy.go:141-146 | one failure leaves at least 2000 milliseconds, whatever the history |
| Headers.EndToEndKeepsExactly | internal/proxy/proxy.go:179-210 | what leaves is exactly the headers that are neither on the fixed list nor nominated by a piece of any Connection line, each as often as it came and in the same order |
| Headers.EndToEndIdempotent | internal/proxy/proxy.go:179-184 | a second removal changes nothing |
| Headers.JoinedConnectionLines | internal/proxy/proxy.go:198-210 | a message with its Connection lines joined leaves the proxy the same |
| RequestHandler.HeadersOfTheReply | internal/proxy/proxy.go:110-129 | on every path the end-to-end headers of the last response reach the client; only a 500 page brings its own Content-Type, and a 502 or 504 its own Content-Type and Connection: close |
| RequestHandler.OnlyOwnHopHeaderReachesTheClient | internal/proxy/proxy.go:275-288 | of the fixed list, only divisor's own Connection: close reaches the client, and that exactly with a 502 or 504 |
| RequestHandler.NilMeansSuccess | internal/proxy/proxy.go:83-129 | nil exactly when every call and the attempt went well, and the reply is then the last call's or the backend's; otherwise the first OnRequest error, or else the first OnResponse error, or else the attempt's |
| RequestHandler.ScoreAfterMeans | internal/proxy/proxy.go:83-129 | a failed attempt leaves at least 2000 milliseconds whatever OnResponse returns; a request without an attempt, or with a good one that a middleware refused, leaves the score |
| RequestHandler.FailedAttemptIsAnswered | internal/proxy/proxy.go:275-288 | a failed attempt that no middleware stops is answered with 504 if it timed out, else 502, and its error |
| RequestHandler.MiddlewareErrorIsVisible | internal/proxy/proxy.go:221-233 | no middleware error goes out as an empty 200: a response the middleware wrote goes out as it is, any other as a 500 with the error |
| RequestHandler.FallbackSurvivesOnlyWithAnError | internal/proxy/proxy.go:113-125 | status and body that OnResponse writes after a failed attempt reach the client if and only if the chain stops with an error |
| VirtualNodeKeys.AtoiItoa | pkg/consistent/consistent.go:92-96 | decimal printing can be read back for every integer, negative ones included |
| VirtualNodeKeys.KeyDecodes | pkg/consistent/consistent.go:92-96 | the key `Id\|i\|Addr` can be decoded to its three parts, whatever digits and bars the address holds |
| VirtualNodeKeys.KeyOfBackendTwelve | pkg/consistent/consistent.go:92-96 | virtual node 3 of Backend 12 has a key that starts with 12\|3\| |
| BackendKeys.FindsItsEntry | core/ip-hash/ip-hash.go:117-120 | Backend i's key leads to the state of the last Backend entered under it |
| HashRing.Nearest | pkg/consistent/consistent.go:98-110 | the reference for lookups: a position with the least distance up the circle, modulo 2^32 |
| HashRing.FirstNotBelowIsNearest | pkg/consistent/consistent.go:104-107 | the first index not below the hash, wrapped to 0, holds the nearest position on the circle |
| HashRing.RouteNeverMisses | pkg/consistent/consistent.go:98-110 | a lookup finds no owner exactly on the empty ring, hash collisions included |
| HashRing.RemovedNodeGetsNothing | pkg/consistent/consistent.go:70-90 | after a remove no hash goes to the removed Node, collisions included |
| HashRing.RemoveDisruptsOnlyTheOldNode | pkg/consistent/consistent.go:70-90 | in particular, if the removed Node owned the positions it takes away |
| HashRing.OwnedPositionsAreKeyHashes | pkg/consistent/consistent.go:52-66 | every owned position is the hash of a virtual-node key of its owner |
| RingHistory.OnlyTheHashCanCollide | pkg/consistent/consistent.go:92-96 | Nodes with different Ids collide only if the hash function maps two different keys to one position, equal addresses or not |
| RingHistory.RunIsValid | pkg/consistent/consistent.go:52-90 | any run of adds and removes, collisions included, keeps the ring well-formed |
| RingHistory.RunIsCanonical | pkg/consistent/consistent.go:52-90 | without collisions every disciplined run ends in the canonical ring of its present Nodes |
| ConsistentHash.SortNumbers | pkg/consistent/consistent.go:66-66 | the list comes out sorted, with the same positions as often |
| ConsistentHash.CopyNodes | pkg/consistent/consistent.go:77-82 | copying a map in any iteration order gives the map without the skipped keys |
| ConsistentHash.ConsistentHash.constructor | pkg/consistent/consistent.go:43-50 | a new ring is empty and well-formed |
| ConsistentHash.ConsistentHash.AddNode | pkg/consistent/consistent.go:52-68 | publishes a fresh snapshot in which the hashes of the Node's keys go to the Node and nothing else changes; the old snapshot is not in the frame |
| ConsistentHash.ConsistentHash.RemoveNode | pkg/consistent/consistent.go:70-90 | publishes a fresh snapshot without the hashes of the Node's keys, and nothing else changes |
| ConsistentHash.ConsistentHash.Find | pkg/consistent/consistent.go:100-109 | the binary search and the map lookup return the owner of the nearest position |
| StatsRows.DistinctKeysRegisterInOrder | core/ip-hash/ip-hash.go:63-65 | with distinct map keys, Backend i gets row i and the map has one entry per Backend |
| StatsRows.RepeatedKeyLeavesARowEmpty | core/ip-hash/ip-hash.go:63-65 | with a repeated key some row of Stats is never filled |
| IPHashRounds.BootRingCanonical | core/ip-hash/ip-hash.go:52-66 | the constructor's ring is the canonical ring of the Backends that answered |
| IPHashRounds.CheckKeepsCanonical | core/ip-hash/ip-hash.go:117-137 | one health check keeps ring and flags in step |
| IPHashRounds.RoundKeepsCanonical | core/ip-hash/ip-hash.go:106-112 | a round, complete or cut short by the stop signal, keeps ring and flags in step |
| IPHashRounds.WholeRoundForgetsThePast | core/ip-hash/ip-hash.go:106-137 | from any consistent state a complete round ends in the ring that a fresh start with its Probe results would build, if no two Backends share a position |
| IPHashRounds.KeyedRoundWithDistinctKeys | core/ip-hash/ip-hash.go:106-137 | with distinct keys each check acts on its own Backend |
| IPHashRounds.KeyedRoundKeepsCanonical | core/ip-hash/ip-hash.go:106-137 | with repeated keys too, a round keeps the ring canonical for the flags |
| IPHashRounds.CountIsSize | core/ip-hash/ip-hash.go:68-70 | the count that the constructor tests is the number of Alive Backends |
| RingService.NothingSharedNobodyCovered | core/ip-hash/ip-hash.go:38-43 | with the constructor's number of virtual nodes every Backend has such a position if no two share one |
| RingService.AliveOwnTheirKeys | core/ip-hash/ip-hash.go:38-66 | if no two of n Backends share a position, each Alive one is routed the hashes of its n * n keys |
| RingService.FitsAfterRounds | core/ip-hash/ip-hash.go:97-137 | over any history of rounds the ring belongs to Alive Backends, and each of them has its exclusive positions |
| IPHash.IPHash.HealthCheck | core/ip-hash/ip-hash.go:117-137 | the flag of the entry that Backend i's key leads to follows the Probe; the ring loses or gains that entry's Node or stays; len counts the flags |
| IPHash.IPHash.HealthCheckRound | core/ip-hash/ip-hash.go:106-112 | the round's flags and ring, for distinct and repeated keys, and how far it got when the stop channel closed |
| IPHash.IPHash.Stats | core/ip-hash/ip-hash.go:139-155 | with distinct keys one row per Backend in config order for every map iteration order; with repeated keys a row stays empty or an entry points past the rows |
| IPHash.IPHash.Get | core/ip-hash/ip-hash.go:89-95 | the proxy of the Node that owns the client's hash: always that of an Alive Backend; and one whenever a Backend is Alive, if every Backend has a position to itself |
| IPHash.AddBackends | core/ip-hash/ip-hash.go:52-66 | the constructor's loop: ring, count, flags and map entries of the first Probes, the last Backend under a repeated key winning its entry |
| IPHash.NewIPHash | core/ip-hash/ip-hash.go:38-75 | nil exactly when no Backend answered; otherwise every Backend is registered, repeated keys or not, and the ring holds those that answered, each at the hashes of its n * n keys if no two Backends share a position |
| Rotation.LeaveKeepsRotation | core/w-round-robin/w-round-robin.go:125-133 | a removal takes out all copies of one Backend and no other |
| Rotation.RejoinKeepsRotation | core/w-round-robin/w-round-robin.go:134-149 | a re-add puts the Backend in exactly weight times |
| Rotation.PermutationKeepsRotation | core/w-round-robin/w-round-robin.go:142-144 | the shuffle keeps every Backend's number of slots |
| Rotation.RemoveByValue | pkg/helper/helper.go:37-45 | the other elements, in order, in a slice of its own |
| Rotation.Shuffle | core/w-round-robin/w-round-robin.go:142-144 | any order, the same elements as often |
| Rotation.RejoinSlice | core/w-round-robin/w-round-robin.go:135-144 | a fresh slice: the old one and the Backend's copies, shuffled while private |
| RoundRobin.NewRoundRobin | core/w-round-robin/w-round-robin.go:38-78 | nil exactly when nothing can be in rotation; otherwise the slice matches the first Probes, repeated keys or not |
| RoundRobin.EmptyRotation | core/w-round-robin/w-round-robin.go:91-95 | the slice is empty exactly when no Backend with a weight is Alive |
| RoundRobin.RoundRobin.Next | core/w-round-robin/w-round-robin.go:91-98 | one ticket and the slot it names, always of an Alive Backend; none, and no ticket, on the empty slice |
| RoundRobin.RoundRobin.HealthCheck | core/w-round-robin/w-round-robin.go:120-150 | a fresh slice or the same one, in step with the flag of the entry that Backend k's key leads to; the published slice is not in the frame |
| TicketCounting.OneRound | core/round-robin/round-robin.go:82-89 | any n consecutive tickets on n slots select each slot once |
| TicketCounting.WholeRounds | core/w-round-robin/w-round-robin.go:91-98 | k rounds select a Backend k times its number of slots |
| TicketCounting.AnyWindow | core/w-round-robin/w-round-robin.go:91-98 | any number of tickets stays between the floor and the ceiling of the share |
| TicketCounting.WholeRoundsAcrossTheWrap | core/w-round-robin/w-round-robin.go:96-97 | across the uint64 wrap the count is off by at most the Backend's slots, and exact if the wrap falls between rounds |
| TicketCounting.WrapUnnoticed | core/w-round-robin/w-round-robin.go:96-97 | a pool size that divides 2^64 makes the wrap invisible |
| TicketCounting.WrapCanCostARound | core/round-robin/round-robin.go:87-88 | three equal Backends can get 2, 1 and 0 of three tickets around the wrap |
| TicketCounting.TurnsAcrossTheWrap | core/w-round-robin/w-round-robin.go:96-97 | how many turns the wrap costs or gives a Backend, to the ticket |
| TicketCounting.CutRoundCanBeFair | core/w-round-robin/w-round-robin.go:96-97 | with weights the pool size does not decide: a lone Backend of weight 3 gets every ticket |
| TicketCounting.AnyWindowAcrossTheWrap | core/w-round-robin/w-round-robin.go:96-97 | k rounds and r more tickets, the wrap among them: at most one round's worth below k rounds, and one above, or two if r > 0; floor and ceiling without a wrap |
| LeastAlgorithm.ScanLoads | core/least-algorithm/least-algorithm.go:100-109 | the scan ends at the first least loaded slot from its offset on |
| LeastAlgorithm.LeastAlgorithm.LeastConnectionNext | core/least-algorithm/least-algorithm.go:93-111 | the Backend in the first least loaded slot from the rotating offset on |
| LeastAlgorithm.ChoiceIsLeast | core/least-algorithm/least-algorithm.go:93-111 | no slot has a smaller load than the chosen one |
| LeastAlgorithm.OnlyLeastAreChosen | core/least-algorithm/least-algorithm.go:93-111 | with fixed loads a slot that is not least loaded is never chosen |
| LeastAlgorithm.EqualLoadsRotate | core/least-algorithm/least-algorithm.go:98-100 | an idle pool takes turns |
| LeastAlgorithm.LeastAlgorithm.LeastResponseTimeNext | core/least-algorithm/least-algorithm.go:113-135 | the winner of the scan, for any readings, with the score of slot 0 read twice |
| LeastAlgorithm.WinnerIsUnique | core/least-algorithm/least-algorithm.go:113-135 | the scan's rule determines the winner |
| LeastAlgorithm.LeastAlgorithm.HealthCheck | core/least-algorithm/least-algorithm.go:157-182 | as for rotation; a Rejoining Backend's score is 0, or what a request stored between the reset and the publication, and no other score changes |
| LeastAlgorithm.NewLeastAlgorithm | core/least-algorithm/least-algorithm.go:37-80 | nil exactly when no Backend answered or the type is unknown; otherwise the pool matches the first Probes, repeated keys or not |
| LeastAlgorithm.LeastAlgorithm.PublishRejoined | core/least-algorithm/least-algorithm.go:174-179 | a fresh slice with the Backend at its end, and its flag |
| LeastAlgorithm.SlowerBackendCanWin | core/least-algorithm/least-algorithm.go:118-135 | slot 0 read as 5 microseconds first and as the penalty then still wins over a peer at 100 microseconds |
| LeastAlgorithm.ChoiceIsFirstLeast | core/least-algorithm/least-algorithm.go:98-110 | the slots are looked at from the offset on, and the first one with the least load is chosen |
| LeastAlgorithm.UnmeasuredWins | core/least-algorithm/least-algorithm.go:122-126 | the first unmeasured Backend wins, whatever the other scores are |
| BalancerRuns.TimedOutShutdownIsNoBarrier | core/ip-hash/ip-hash.go:163-167 | a run in which a timed-out call closes a proxy before a slice is stored |
| BalancerRuns.TicketsWalkTheSlice | core/w-round-robin/w-round-robin.go:96-97 | selection i is the slot at (i + 1) modulo 2^64 modulo the number of slots of its slice |
| MovingAverage.UnmeasuredIffNoTimePassed | internal/proxy/proxy.go:334-340 | the score is 0 if and only if every sample was 0 |
| MovingAverage.SmoothIsAfterSample | internal/proxy/proxy.go:148-163 | one sample in nanoseconds: alone if the Backend was unmeasured, else a fifth of it and four fifths of the score before |
| ProxyRuns.RetriesArePaidFor | internal/proxy/proxy.go:152-163 | no request retries more often than the score has changed |
| ProxyRuns.QuietAverageIsTheMean | internal/proxy/proxy.go:321-332 | at rest the counters hold the number and the truncated times of the nil returns |
| ProxyRuns.FirstSampleStandsAlone | internal/proxy/proxy.go:155-158 | the first sample after a reset is the score |
| ProxyRuns.ResetDoesNotFenceStragglers | internal/proxy/proxy.go:342-347 | a run in which a failure from before the reset is stored after it |
| ProxyRuns.StragglerIffInFlight | internal/proxy/proxy.go:342-347 | for each request that began before a reset: some continuation stores its sample if and only if it is in flight |
| ProxyRuns.FindTime | internal/proxy/proxy.go:102-129 | a request's time is the one of the step that ended its attempt or recorded its answer |
| RequestTrace.BackendIsTriedOnce | internal/proxy/proxy.go:94-119 | a finished trace is in order and holds one attempt, or none exactly if an OnRequest call failed |
| Headers.HeaderSet.DelConnectionNominated | internal/proxy/proxy.go:202-210 | removes exactly the headers that the Connection lines nominate |
| Headers.HeaderSet.DelHopByHop | internal/proxy/proxy.go:179-184 | what remains is the end-to-end part of the list |
| Headers.HeaderSet.PreReq | internal/proxy/proxy.go:165-175 | exactly one Host and one X-Forwarded-For, divisor's, whatever the client nominated or sent; of all other headers the end-to-end ones |
| Headers.StripCounts | internal/proxy/proxy.go:179-184 | removal takes every header of the names and keeps all others as often as they occurred |
| Headers.NominatedByAnyMeans | internal/proxy/proxy.go:193-210 | a name is nominated exactly when some comma-separated piece nominates it |
| Headers.JoinedLineNominatesTheSame | internal/proxy/proxy.go:202-210 | separate Connection lines nominate what their comma-join does |
| Headers.NominatedMeans | internal/proxy/proxy.go:202-210 | a name is nominated exactly when some piece of some Connection line nominates it |
| Headers.TrimSpaceMeans | internal/proxy/proxy.go:205-205 | all spaces at both ends of a token go, and nothing else |
| Headers.ConnectionOptionsAre | internal/proxy/proxy.go:193-219 | close, keep-alive and Content-Length nominate nothing, whatever their case |
| Headers.HopListIs | internal/proxy/proxy.go:39-49 | the nine names of the fixed list |
| Headers.SplitRoundTrip | internal/proxy/proxy.go:204-204 | the pieces of a line hold no comma and joined by commas are the line |
| Headers.CaseIsIgnored | internal/proxy/proxy.go:198-201 | names compare without regard to the case of ASCII letters |
| RequestHandler.Executor.RunChain | pkg/middleware/executor.go:124-151 | calls in order up to the first error or panic, each recorded as it is made, and that error |
| RequestHandler.ProxyClient.StoreRecentResTime | internal/proxy/proxy.go:152-163 | under any finite interference, one smoothing step from the score that the successful CAS found; every earlier attempt was disturbed |
| RequestHandler.ProxyClient.RecordResponseTime | internal/proxy/proxy.go:135-139 | time, count and one sample of exactly the elapsed nanoseconds |
| RequestHandler.ProxyClient.RecordFailure | internal/proxy/proxy.go:144-146 | one sample of the elapsed nanoseconds, or of ten seconds if that is longer, and no counter |
| RequestHandler.ProxyClient.PostRes | internal/proxy/proxy.go:179-184 | the response with its end-to-end headers only, a backend's Connection: close removed |
| RequestHandler.ProxyClient.MiddlewareError | internal/proxy/proxy.go:221-233 | a written response stays; any other gets status 500, a body, exactly one Content-Type, and keeps all other headers; never an unwritten response |
| RequestHandler.ProxyClient.ServerError | internal/proxy/proxy.go:275-288 | status and body replaced; for every header name, the one value close for Connection, the one JSON value for Content-Type, and what it was for all others |
| RequestHandler.ProxyClient.ForwardAndRespond | internal/proxy/proxy.go:102-129 | the attempt, the OnResponse chain and the books |
| RequestHandler.ProxyClient.ReverseProxyHandler | internal/proxy/proxy.go:83-129 | the request's headers as prepared, the error, the reply, the trace, the counters and the score of one request |
| RequestHandler.HeadersSurviveWithoutAnError | internal/proxy/proxy.go:113-125 | a header that OnResponse sets on a failed attempt while returning nil is in the 502 |
| RequestHandler.HandlerTraceIsFinished | internal/proxy/proxy.go:83-129 | what the handler's calls record is a finished trace, refused before the attempt exactly when an OnRequest call fails |
| RequestHandler.AfterChainMeans | pkg/middleware/executor.go:124-151 | a chain leaves the response as its first failing call, or else its last call, left it |
| RequestHandler.HandlerTraceIs | internal/proxy/proxy.go:83-129 | exactly which calls and attempts a request alone makes |
| BalancerShutdown.CallIsNeverStuck | core/ip-hash/ip-hash.go:157-178 | a Shutdown call can take a step until it returns |
| BalancerShutdown.CallGetsCloserToReturn | core/ip-hash/ip-hash.go:157-178 | and each of its steps lowers a measure |
| HashRing.AddValid | pkg/consistent/consistent.go:52-68 | adding keeps the list sorted and equal, as a set, to the owned positions; the new positions are the old ones and the Node's |
| HashRing.RemoveValid | pkg/consistent/consistent.go:70-90 | removing keeps the same |
| RingHistory.CanonicalUnique | pkg/consistent/consistent.go:32-35 | a set of Nodes has at most one canonical ring, map and list |
| BalancerSafety.StepKeepsRotation | core/w-round-robin/w-round-robin.go:120-149 | every step keeps each published slice right for the flags it stands for |
| BalancerSafety.StepKeepsSelections | core/w-round-robin/w-round-robin.go:91-98 | every step keeps each selection at the slot that its readings and its ticket lead to, in bounds of its slice, and tickets consecutive |
| BalancerShutdown.StepKeepsStop | core/ip-hash/ip-hash.go:97-178 | every step keeps the stop and done channels right |
| BalancerShutdown.StepKeepsLog | core/ip-hash/ip-hash.go:157-178 | every step keeps Probes and stores before the closes of a call that saw the done channel |
| BalancerShutdown.CheckerGetsCloserToExit | core/ip-hash/ip-hash.go:97-115 | once the stop channel is closed each checker step lowers the measure, the shuffle's swaps included |
| BalancerShutdown.CheckerIsNeverStuck | core/ip-hash/ip-hash.go:97-115 | until it exits the checker can take a step |
| ProxyRuns.StepKeepsCounts | internal/proxy/proxy.go:83-139 | every step keeps the counters equal to what the requests have done |
| ProxyRuns.StepKeepsScore | internal/proxy/proxy.go:152-163 | every step keeps the score equal to the fold of the samples since the last reset |
| ProxyRuns.StepKeepsSamples | internal/proxy/proxy.go:135-150 | every step keeps the samples equal to their requests' times |
| BalancerMemory.StepRefines | core/w-round-robin/w-round-robin.go:120-149 | no step writes a cell that the pointer has shown, and each allocation, in-place swap and store in memory is the step on values |
| ProxyRuns.StepKeepsTraces | internal/proxy/proxy.go:83-129 | every step keeps each trace equal to where its request is |
| BalancerSafety.StepKeepsRound | core/w-round-robin/w-round-robin.go:103-149 | every step keeps the flags of the Backends checked so far equal to the round's Probe results |
| BalancerShutdown.StepKeepsResets | core/least-algorithm/least-algorithm.go:170-179 | every step keeps each Rejoin's store right after its reset |
| BalancerShutdown.StepKeepsCloses | core/ip-hash/ip-hash.go:169-174 | every step keeps the closes made equal to where each call is |

## Left out

- IPHashRounds.LastCompleteRoundDecides: takes Backend i to be found under its own key, and positions not to be shared; exactly when that is needed is `RoundsDecideIffNothingIsShared`.
- BalancerRuns.ReturnedCallHasClosedAll and BalancerRuns.RoundFollowsItsProbes: in BalancerProtocol Backend i is found under its own key; what one health check does under a repeated key is in the contracts of the classes.
- ConsistentHash.SortNumbers: an insertion sort on a sequence stands for Go's in-place sort, so only the sorted result is captured.
- RequestHandler.ProxyClient.ReverseProxyHandler: what middlewares do to the request is not captured, only what they do to the response; the per-request contract is for a request that is alone; interleaved requests, their traces included, are the subject of `ProxyRuns`, and interference with one CAS loop that of `StoreRecentResTime`.
- ProxyRuns.ScoreIsLinearizable: scores are reals, so float64 rounding is not captured, and a score compares equal when its value does, not its bits.
- ProxyRuns.CountersAgree: the three request counters are natural numbers, so their wrap after 2^64 is not captured; the ticket counters do wrap.
- Headers.HeaderSet.PreReq: custom headers, the URI scheme and fasthttp's own storage of Host, Connection and Content-Length are not captured; setting a header is deleting it and adding it at the end.
- Headers.HeaderSet.DelConnectionNominated: header names and values are text, so bytes that are no valid UTF-8 are not captured.
- BalancerRuns.LeastLoadedShares: for windows without a wrap of the ticket counter, and for pending counts that are the same in every scan.
- BalancerProtocol loads, tests and stores with sequential consistency, as Go's atomics and channels give it; the five-second timeout is a choice the step system may make at any time, and a Probe may answer either way. What the proxies answer to a scan is arbitrary, and a selection is recorded at its ticket.
- The random balancer, whose health check is the one modelled and whose choice is unconstrained.
- The `$incremental`, `$time` and `$uuid` custom headers.
- Backend connections, TLS, listeners, the net/http adapter, configuration defaults and address parsing, middleware loading, monitoring and logging.
- The CRC32 function, tickers and real time.
