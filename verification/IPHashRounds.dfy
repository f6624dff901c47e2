/** What Probe results do to flags and ring, round by round. */
module IPHashRounds {
  import opened HashRing
  import opened RingHistory
  import opened BackendKeys

  /** The Node of Backend i; its index is its Id, and identifies its proxy client. */
  function NodeOf(backends: seq<string>, i: nat): Node
    requires i < |backends|
  {
    Node(i, backends[i], i)
  }

  function ParamsOf(hashFunc: string -> uint32, backends: seq<string>): Params {
    Params(hashFunc, |backends| * |backends|)
  }

  ghost function AliveNodes(backends: seq<string>, alive: seq<bool>): set<Node>
    requires |alive| <= |backends|
  {
    set i | 0 <= i < |alive| && alive[i] :: NodeOf(backends, i)
  }

  ghost function AllNodes(backends: seq<string>): set<Node> {
    set i | 0 <= i < |backends| :: NodeOf(backends, i)
  }

  function Count(alive: seq<bool>): nat {
    if alive == [] then 0
    else Count(alive[..|alive| - 1]) + if alive[|alive| - 1] then 1 else 0
  }

  lemma {:induction false} CountUpdate(alive: seq<bool>, i: nat, b: bool)
    requires i < |alive|
    ensures Count(alive[i := b]) == Count(alive) - (if alive[i] then 1 else 0) + if b then 1 else 0
    ensures alive[i] ==> Count(alive) > 0
  {
    var n := |alive| - 1;
    if i == n {
      assert alive[i := b][..n] == alive[..n];
    } else {
      CountUpdate(alive[..n], i, b);
      assert alive[i := b][..n] == alive[..n][i := b];
    }
  }

  /** It counts the Alive Backends. */
  lemma {:induction false} CountIsSize(alive: seq<bool>)
    ensures Count(alive) == |set i | 0 <= i < |alive| && alive[i]|
    ensures Count(alive) == 0 <==> true !in alive
  {
    if alive != [] {
      var n := |alive| - 1;
      CountIsSize(alive[..n]);
      var before, now := set i | 0 <= i < n && alive[..n][i], set i | 0 <= i < |alive| && alive[i];
      assert now == before + if alive[n] then {n} else {};
      assert alive == alive[..n] + [alive[n]];
    }
  }

  lemma AliveNodesUpdate(backends: seq<string>, alive: seq<bool>, i: nat, b: bool)
    requires |alive| <= |backends| && i < |alive|
    ensures AliveNodes(backends, alive[i := b])
         == if b then AliveNodes(backends, alive) + {NodeOf(backends, i)}
                 else AliveNodes(backends, alive) - {NodeOf(backends, i)}
  {
    var alive' := alive[i := b];
    forall j | 0 <= j < |alive| && alive'[j] ensures NodeOf(backends, j) in AliveNodes(backends, alive') {}
    forall j | 0 <= j < |alive| && alive[j] ensures NodeOf(backends, j) in AliveNodes(backends, alive) {}
  }

  /** The ring that a balancer started with these Probe results builds from its first n Backends. */
  function BootRing(c: Params, backends: seq<string>, probes: seq<bool>, n: nat): Ring
    requires n <= |probes| <= |backends|
  {
    if n == 0 then EMPTY
    else
      var before := BootRing(c, backends, probes, n - 1);
      if probes[n - 1] then AddTo(c, before, NodeOf(backends, n - 1)) else before
  }

  lemma AliveNodesExtend(backends: seq<string>, alive: seq<bool>, b: bool)
    requires |alive| < |backends|
    ensures AliveNodes(backends, alive + [b])
         == AliveNodes(backends, alive) + if b then {NodeOf(backends, |alive|)} else {}
    ensures NodeOf(backends, |alive|) !in AliveNodes(backends, alive)
  {
    var alive' := alive + [b];
    forall j | 0 <= j < |alive'| && alive'[j] ensures NodeOf(backends, j) in AliveNodes(backends, alive') {}
    forall j | 0 <= j < |alive| && alive[j] ensures NodeOf(backends, j) in AliveNodes(backends, alive) {}
  }

  ghost predicate NothingShared(c: Params, backends: seq<string>) {
    NoCollision(c, AllNodes(backends))
  }

  ghost predicate IsRingOf(c: Params, backends: seq<string>, r: Ring, alive: seq<bool>) {
    |alive| <= |backends| && Canonical(c, r, AliveNodes(backends, alive))
  }

  /** Ring r of these flags, and the ring and the flags with one more Backend. */
  lemma OneMoreAtBoot(c: Params, backends: seq<string>, r: Ring, before: seq<bool>, up: bool, r': Ring,
                      after: seq<bool>)
    requires |before| < |backends| && NothingShared(c, backends)
    requires IsRingOf(c, backends, r, before) && after == before + [up]
    requires r' == if up then AddTo(c, r, NodeOf(backends, |before|)) else r
    ensures IsRingOf(c, backends, r', after)
  {
    var node := NodeOf(backends, |before|);
    AliveNodesExtend(backends, before, up);
    assert AliveNodes(backends, before) + {node} <= AllNodes(backends);
    if up {
      CanonicalJoin(c, r, AliveNodes(backends, before), node);
    } else {
      assert AliveNodes(backends, after) == AliveNodes(backends, before);
    }
  }

  lemma OneMoreProbe(c: Params, backends: seq<string>, probes: seq<bool>, n: nat)
    requires n < |probes| <= |backends|
    ensures probes[..n + 1] == probes[..n] + [probes[n]] && |probes[..n]| == n
    ensures BootRing(c, backends, probes, n + 1)
         == if probes[n] then AddTo(c, BootRing(c, backends, probes, n), NodeOf(backends, n))
            else BootRing(c, backends, probes, n)
  {
  }

  lemma {:induction false} BootRingIsRight(c: Params, backends: seq<string>, probes: seq<bool>, n: nat)
    requires n <= |probes| <= |backends| && NothingShared(c, backends)
    ensures IsRingOf(c, backends, BootRing(c, backends, probes, n), probes[..n])
  {
    if n == 0 {
      assert probes[..0] == [];
      NobodyAtBoot(c, backends);
    } else {
      var before, after := probes[..n - 1], probes[..n];
      var r, r' := BootRing(c, backends, probes, n - 1), BootRing(c, backends, probes, n);
      OneMoreProbe(c, backends, probes, n - 1);
      BootRingIsRight(c, backends, probes, n - 1);
      OneMoreAtBoot(c, backends, r, before, probes[n - 1], r', after);
    }
  }

  lemma BootRingCanonical(c: Params, backends: seq<string>, probes: seq<bool>, n: nat)
    requires n <= |probes| <= |backends| && NoCollision(c, AllNodes(backends))
    ensures Canonical(c, BootRing(c, backends, probes, n), AliveNodes(backends, probes[..n]))
  {
    BootRingIsRight(c, backends, probes, n);
  }

  lemma NobodyAtBoot(c: Params, backends: seq<string>)
    ensures IsRingOf(c, backends, EMPTY, [])
  {
    assert AliveNodes(backends, []) == {};
  }

  /** The ring after one health check. */
  function CheckedRing(c: Params, backends: seq<string>, r: Ring, alive: seq<bool>, i: nat, status: bool): Ring
    requires i < |alive| == |backends|
  {
    if status == alive[i] then r
    else if status then AddTo(c, r, NodeOf(backends, i))
    else RemoveFrom(c, r, NodeOf(backends, i))
  }

  lemma CheckKeepsCanonical(c: Params, backends: seq<string>, r: Ring, alive: seq<bool>, i: nat, status: bool)
    requires i < |alive| == |backends| && NoCollision(c, AllNodes(backends))
    requires Canonical(c, r, AliveNodes(backends, alive))
    ensures Canonical(c, CheckedRing(c, backends, r, alive, i, status), AliveNodes(backends, alive[i := status]))
  {
    var nodes, node := AliveNodes(backends, alive), NodeOf(backends, i);
    AliveNodesUpdate(backends, alive, i, status);
    assert nodes + {node} <= AllNodes(backends);
    if status == alive[i] {
      assert alive[i := status] == alive;
    } else if status {
      CanonicalJoin(c, r, nodes, node);
    } else {
      CanonicalLeave(c, r, nodes, node);
    }
  }

  function FlagsAfter(probes: seq<bool>, alive: seq<bool>, n: nat): seq<bool>
    requires n <= |probes| == |alive|
  {
    probes[..n] + alive[n..]
  }

  lemma FlagsAfterOneMore(probes: seq<bool>, alive: seq<bool>, n: nat)
    requires n < |probes| == |alive|
    ensures FlagsAfter(probes, alive, n)[n := probes[n]] == FlagsAfter(probes, alive, n + 1)
  {
  }

  /** The ring after a round that checks the first n Backends. */
  function RoundRing(c: Params, backends: seq<string>, r: Ring, alive: seq<bool>, probes: seq<bool>, n: nat): Ring
    requires n <= |probes| == |alive| == |backends|
  {
    if n == 0 then r
    else CheckedRing(c, backends, RoundRing(c, backends, r, alive, probes, n - 1),
                     FlagsAfter(probes, alive, n - 1), n - 1, probes[n - 1])
  }

  lemma {:induction false} RoundKeepsCanonical(c: Params, backends: seq<string>, r: Ring, alive: seq<bool>,
                                               probes: seq<bool>, n: nat)
    requires n <= |probes| == |alive| == |backends| && NoCollision(c, AllNodes(backends))
    requires Canonical(c, r, AliveNodes(backends, alive))
    ensures Canonical(c, RoundRing(c, backends, r, alive, probes, n),
                      AliveNodes(backends, FlagsAfter(probes, alive, n)))
  {
    if n == 0 {
      assert FlagsAfter(probes, alive, 0) == alive;
    } else {
      RoundKeepsCanonical(c, backends, r, alive, probes, n - 1);
      FlagsAfterOneMore(probes, alive, n - 1);
      CheckKeepsCanonical(c, backends, RoundRing(c, backends, r, alive, probes, n - 1),
                          FlagsAfter(probes, alive, n - 1), n - 1, probes[n - 1]);
    }
  }

  /** After a complete round the ring is the one a balancer started with these Probe results would
      have, whatever the flags and the ring were before: routing depends on the last Probes alone. */
  lemma WholeRoundForgetsThePast(c: Params, backends: seq<string>, r: Ring, alive: seq<bool>, probes: seq<bool>)
    requires |probes| == |alive| == |backends| && NoCollision(c, AllNodes(backends))
    requires Canonical(c, r, AliveNodes(backends, alive))
    ensures FlagsAfter(probes, alive, |backends|) == probes
    ensures RoundRing(c, backends, r, alive, probes, |backends|) == BootRing(c, backends, probes, |backends|)
  {
    RoundKeepsCanonical(c, backends, r, alive, probes, |backends|);
    BootRingCanonical(c, backends, probes, |backends|);
    assert FlagsAfter(probes, alive, |backends|) == probes == probes[..|backends|];
    CanonicalUnique(c, RoundRing(c, backends, r, alive, probes, |backends|),
                    BootRing(c, backends, probes, |backends|), AliveNodes(backends, probes));
  }

  /** A round with its Probe results, and how many Backends it checked before the stop signal. */
  datatype Round = Round(probes: seq<bool>, checked: nat)

  ghost predicate RoundsFit(rounds: seq<Round>, n: nat) {
    forall round :: round in rounds ==> |round.probes| == n && round.checked <= n
  }

  /** The liveness flags and the ring after these rounds, from a balancer started with `boot`. */
  function AfterRounds(c: Params, backends: seq<string>, boot: seq<bool>, rounds: seq<Round>): (r: (seq<bool>, Ring))
    requires |boot| == |backends| && RoundsFit(rounds, |backends|)
    ensures |r.0| == |backends|
  {
    if rounds == [] then (boot, BootRing(c, backends, boot, |backends|))
    else
      var (alive, ring) := AfterRounds(c, backends, boot, rounds[..|rounds| - 1]);
      var last := rounds[|rounds| - 1];
      (FlagsAfter(last.probes, alive, last.checked), RoundRing(c, backends, ring, alive, last.probes, last.checked))
  }

  lemma {:induction false} RoundsKeepCanonical(c: Params, backends: seq<string>, boot: seq<bool>, rounds: seq<Round>)
    requires |boot| == |backends| && RoundsFit(rounds, |backends|) && NoCollision(c, AllNodes(backends))
    ensures var (alive, ring) := AfterRounds(c, backends, boot, rounds);
            Canonical(c, ring, AliveNodes(backends, alive))
  {
    if rounds == [] {
      BootRingCanonical(c, backends, boot, |backends|);
      assert boot[..|backends|] == boot;
    } else {
      var before, last := rounds[..|rounds| - 1], rounds[|rounds| - 1];
      RoundsKeepCanonical(c, backends, boot, before);
      var (alive, ring) := AfterRounds(c, backends, boot, before);
      RoundKeepsCanonical(c, backends, ring, alive, last.probes, last.checked);
    }
  }

  /** Over any history of rounds, complete or cut short: once a round completes, flags and ring are
      those of a balancer freshly started with that round's Probe results. */
  lemma LastCompleteRoundDecides(c: Params, backends: seq<string>, boot: seq<bool>, rounds: seq<Round>,
                                 probes: seq<bool>)
    requires |boot| == |probes| == |backends| && RoundsFit(rounds, |backends|) && NoCollision(c, AllNodes(backends))
    ensures RoundsFit(rounds + [Round(probes, |backends|)], |backends|)
    ensures AfterRounds(c, backends, boot, rounds + [Round(probes, |backends|)])
         == (probes, BootRing(c, backends, probes, |backends|))
  {
    var all := rounds + [Round(probes, |backends|)];
    assert all[..|all| - 1] == rounds;
    RoundsKeepCanonical(c, backends, boot, rounds);
    var (alive, ring) := AfterRounds(c, backends, boot, rounds);
    WholeRoundForgetsThePast(c, backends, ring, alive, probes);
  }

  // ---------- repeated map keys ----------

  /** Flags and ring after a round over the first n Backends: the check of Backend i acts on the entry
      that its key leads to. */
  function KeyedFlags(keys: seq<uint32>, alive: seq<bool>, probes: seq<bool>, n: nat): (r: seq<bool>)
    requires n <= |probes| == |alive| == |keys|
    ensures |r| == |alive|
  {
    if n == 0 then alive
    else KeyedFlags(keys, alive, probes, n - 1)[EntryOf(keys, n - 1) := probes[n - 1]]
  }

  function KeyedRing(c: Params, backends: seq<string>, keys: seq<uint32>, r: Ring, alive: seq<bool>,
                     probes: seq<bool>, n: nat): Ring
    requires n <= |probes| == |alive| == |backends| == |keys|
  {
    if n == 0 then r
    else CheckedRing(c, backends, KeyedRing(c, backends, keys, r, alive, probes, n - 1),
                     KeyedFlags(keys, alive, probes, n - 1), EntryOf(keys, n - 1), probes[n - 1])
  }

  lemma {:induction false} KeyedRoundWithDistinctKeys(c: Params, backends: seq<string>, keys: seq<uint32>, r: Ring,
                                                      alive: seq<bool>, probes: seq<bool>, n: nat)
    requires n <= |probes| == |alive| == |backends| == |keys| && Distinct(keys)
    ensures KeyedFlags(keys, alive, probes, n) == FlagsAfter(probes, alive, n)
    ensures KeyedRing(c, backends, keys, r, alive, probes, n) == RoundRing(c, backends, r, alive, probes, n)
  {
    if n > 0 {
      KeyedRoundWithDistinctKeys(c, backends, keys, r, alive, probes, n - 1);
      DistinctEntries(keys, n - 1);
      FlagsAfterOneMore(probes, alive, n - 1);
    }
  }

  lemma {:induction false} KeyedRoundKeepsCanonical(c: Params, backends: seq<string>, keys: seq<uint32>, r: Ring,
                                                    alive: seq<bool>, probes: seq<bool>, n: nat)
    requires n <= |probes| == |alive| == |backends| == |keys| && NoCollision(c, AllNodes(backends))
    requires Canonical(c, r, AliveNodes(backends, alive))
    ensures Canonical(c, KeyedRing(c, backends, keys, r, alive, probes, n),
                      AliveNodes(backends, KeyedFlags(keys, alive, probes, n)))
  {
    if n > 0 {
      KeyedRoundKeepsCanonical(c, backends, keys, r, alive, probes, n - 1);
      CheckKeepsCanonical(c, backends, KeyedRing(c, backends, keys, r, alive, probes, n - 1),
                          KeyedFlags(keys, alive, probes, n - 1), EntryOf(keys, n - 1), probes[n - 1]);
    }
  }

  /** A complete round ends in the ring of a fresh start with its Probe results. */
  ghost predicate RoundIsFreshStart(c: Params, backends: seq<string>, keys: seq<uint32>, boot: seq<bool>,
                                    probes: seq<bool>)
    requires |boot| == |probes| == |backends| == |keys|
  {
    KeyedRing(c, backends, keys, BootRing(c, backends, boot, |backends|), boot, probes, |backends|)
    == BootRing(c, backends, probes, |backends|)
  }

  lemma FreshStartWithDistinctKeys(c: Params, backends: seq<string>, keys: seq<uint32>, boot: seq<bool>,
                                   probes: seq<bool>)
    requires |boot| == |probes| == |backends| == |keys| && Distinct(keys) && NoCollision(c, AllNodes(backends))
    ensures RoundIsFreshStart(c, backends, keys, boot, probes)
  {
    var r := BootRing(c, backends, boot, |backends|);
    BootRingCanonical(c, backends, boot, |backends|);
    assert boot[..|backends|] == boot;
    KeyedRoundWithDistinctKeys(c, backends, keys, r, boot, probes, |backends|);
    WholeRoundForgetsThePast(c, backends, r, boot, probes);
  }

  // Boot with all Backends Down but one, so that little moves.

  function OnlyUp(n: nat, i: nat): (r: seq<bool>)
    ensures |r| == n
  {
    seq(n, k => k == i)
  }

  lemma {:induction false} NothingToDo(c: Params, backends: seq<string>, keys: seq<uint32>, r: Ring, i: nat, n: nat)
    requires n <= |backends| == |keys| && i < |keys| && EntryOf(keys, i) != i
    ensures KeyedFlags(keys, OnlyUp(|keys|, i), OnlyUp(|keys|, |keys|), n) == OnlyUp(|keys|, i)
    ensures KeyedRing(c, backends, keys, r, OnlyUp(|keys|, i), OnlyUp(|keys|, |keys|), n) == r
  {
    if n > 0 {
      NothingToDo(c, backends, keys, r, i, n - 1);
      assert EntryOf(keys, n - 1) != i;
    }
  }

  lemma {:induction false} BootOfNobody(c: Params, backends: seq<string>, probes: seq<bool>, n: nat)
    requires n <= |probes| <= |backends| && forall k :: 0 <= k < n ==> !probes[k]
    ensures BootRing(c, backends, probes, n) == EMPTY
  {
    if n > 0 {
      BootOfNobody(c, backends, probes, n - 1);
    }
  }

  lemma {:induction false} BootHolds(c: Params, backends: seq<string>, probes: seq<bool>, n: nat, i: nat)
    requires i < n <= |probes| <= |backends| && probes[i] && c.virtualRepl > 0
    ensures BootRing(c, backends, probes, n).numbers != []
  {
    var before := BootRing(c, backends, probes, n - 1);
    if n - 1 > i {
      BootHolds(c, backends, probes, n - 1, i);
    }
    if probes[n - 1] {
      SortKeepsSome(before.numbers, c.Positions(NodeOf(backends, n - 1)));
    }
  }

  lemma SortKeepsSome(s: seq<uint32>, t: seq<uint32>)
    requires t != []
    ensures Sort(s + t) != []
  {
    SortElements(s, t);
    assert t[0] in Elements(t);
  }

  /** Backend i, whose key leads to another one's entry, is the only one Alive at the start and goes
      Down with all others: nobody ever takes its Node out of the ring. */
  lemma RepeatedKeyMakesARoundStale(c: Params, backends: seq<string>, keys: seq<uint32>, i: nat, j: nat)
    requires |backends| == |keys| && c.virtualRepl > 0 && i < j < |keys| && keys[i] == keys[j]
    ensures !EveryRoundIsFreshStart(c, backends, keys)
  {
    var n := |backends|;
    var boot, probes := OnlyUp(n, i), OnlyUp(n, n);
    assert EntryOf(keys, i) != i;
    NothingToDo(c, backends, keys, BootRing(c, backends, boot, n), i, n);
    BootOfNobody(c, backends, probes, n);
    BootHolds(c, backends, boot, n, i);
    assert |boot| == |probes| == n && !RoundIsFreshStart(c, backends, keys, boot, probes);
  }

  function Up(n: nat, i: nat, j: nat): (r: seq<bool>)
    ensures |r| == n
  {
    seq(n, k => k == i || k == j)
  }

  ghost predicate Owns(r: Ring, p: uint32, node: Node) {
    p in r.nodes && r.nodes[p] == node
  }

  /** Started with i and j Alive, the later one owns a position that they share. */
  lemma {:induction false} LaterOwnsAtBoot(c: Params, backends: seq<string>, i: nat, j: nat, probes: seq<bool>, n: nat,
                                           p: uint32)
    requires j < n <= |probes| <= |backends| && probes[j] && (forall k :: j < k < n ==> !probes[k])
    requires p in c.Spots(NodeOf(backends, j))
    ensures Owns(BootRing(c, backends, probes, n), p, NodeOf(backends, j))
  {
    if n - 1 > j {
      LaterOwnsAtBoot(c, backends, i, j, probes, n - 1, p);
    }
  }

  /** Of a round that starts with j alone Alive and finds i Alive too, i takes the position. */
  lemma {:induction false} RejoinerOwnsAfterRound(c: Params, backends: seq<string>, i: nat, j: nat, r: Ring, n: nat,
                                                  p: uint32)
    requires n <= |backends| && i < j < |backends| && p in c.Spots(NodeOf(backends, i))
    requires Owns(r, p, NodeOf(backends, j))
    ensures var round := RoundRing(c, backends, r, OnlyUp(|backends|, j), Up(|backends|, i, j), n);
            Owns(round, p, NodeOf(backends, if i < n then i else j))
  {
    if n > 0 {
      RejoinerOwnsAfterRound(c, backends, i, j, r, n - 1, p);
      var boot, probes := OnlyUp(|backends|, j), Up(|backends|, i, j);
      assert FlagsAfter(probes, boot, n - 1)[n - 1] == boot[n - 1];
    }
  }

  /** Two Backends share a position: it belongs to j after a fresh start, and to i after a round that
      brings i back. */
  lemma CollisionMakesARoundStale(c: Params, backends: seq<string>, keys: seq<uint32>, i: nat, j: nat, p: uint32)
    requires |backends| == |keys| && Distinct(keys) && i < j < |keys|
    requires p in c.Spots(NodeOf(backends, i)) && p in c.Spots(NodeOf(backends, j))
    ensures !EveryRoundIsFreshStart(c, backends, keys)
  {
    var n := |backends|;
    var boot, probes := OnlyUp(n, j), Up(n, i, j);
    var r := BootRing(c, backends, boot, n);
    LaterOwnsAtBoot(c, backends, i, j, boot, n, p);
    LaterOwnsAtBoot(c, backends, i, j, probes, n, p);
    KeyedRoundWithDistinctKeys(c, backends, keys, r, boot, probes, n);
    RejoinerOwnsAfterRound(c, backends, i, j, r, n, p);
    assert |boot| == |probes| == n && !RoundIsFreshStart(c, backends, keys, boot, probes);
  }

  ghost predicate EveryRoundIsFreshStart(c: Params, backends: seq<string>, keys: seq<uint32>)
    requires |backends| == |keys|
  {
    forall boot: seq<bool>, probes: seq<bool> | |boot| == |probes| == |backends| ::
      RoundIsFreshStart(c, backends, keys, boot, probes)
  }

  lemma SomeCollision(c: Params, backends: seq<string>) returns (i: nat, j: nat, p: uint32)
    requires !NoCollision(c, AllNodes(backends))
    ensures i < j < |backends| && p in c.Spots(NodeOf(backends, i)) && p in c.Spots(NodeOf(backends, j))
  {
    var a, b :| a in AllNodes(backends) && b in AllNodes(backends) && a != b && !(c.Spots(a) !! c.Spots(b));
    p :| p in c.Spots(a) && p in c.Spots(b);
    i, j := if a.id < b.id then a.id else b.id, if a.id < b.id then b.id else a.id;
  }

  /** Complete rounds make the ring a function of their Probe results, whatever the flags were at the
      start, if and only if no two Backends share a map key and no two share a position. */
  lemma RoundsDecideIffNothingIsShared(c: Params, backends: seq<string>, keys: seq<uint32>)
    requires |backends| == |keys| && c.virtualRepl == |backends| * |backends|
    ensures EveryRoundIsFreshStart(c, backends, keys) <==> Distinct(keys) && NoCollision(c, AllNodes(backends))
  {
    if !Distinct(keys) {
      var i, j :| 0 <= i < j < |keys| && keys[i] == keys[j];
      RepeatedKeyMakesARoundStale(c, backends, keys, i, j);
    } else if !NoCollision(c, AllNodes(backends)) {
      var i, j, p := SomeCollision(c, backends);
      CollisionMakesARoundStale(c, backends, keys, i, j, p);
    } else {
      forall boot: seq<bool>, probes: seq<bool> | |boot| == |probes| == |backends|
        ensures RoundIsFreshStart(c, backends, keys, boot, probes)
      {
        FreshStartWithDistinctKeys(c, backends, keys, boot, probes);
      }
    }
  }
}
