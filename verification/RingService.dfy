/** Whom the ip-hash ring serves: every routed client reaches an Alive Backend, and no client is turned
    away while a Backend is Alive, unless the positions of some Backend are all shared. */
module RingService {
  import opened Options
  import opened HashRing
  import opened RingHistory
  import opened VirtualNodeKeys
  import opened IPHashRounds

  /** Position p is Backend i's, and nobody else hashes to it. */
  ghost predicate Exclusive(c: Params, backends: seq<string>, i: nat, p: uint32)
    requires i < |backends|
  {
    && p in c.Spots(NodeOf(backends, i))
    && forall j :: 0 <= j < |backends| && j != i ==> p !in c.Spots(NodeOf(backends, j))
  }

  ghost predicate HasExclusive(c: Params, backends: seq<string>, i: nat)
    requires i < |backends|
  {
    exists p :: Exclusive(c, backends, i, p)
  }

  /** Every Backend has a position to itself. */
  ghost predicate NobodyCovered(c: Params, backends: seq<string>) {
    forall i :: 0 <= i < |backends| ==> HasExclusive(c, backends, i)
  }

  ghost predicate OwnerIsAlive(backends: seq<string>, r: Ring, alive: seq<bool>, p: uint32)
    requires |alive| <= |backends| && p in r.nodes
  {
    var k := r.nodes[p].proxy;
    k < |alive| && alive[k] && r.nodes[p] == NodeOf(backends, k)
  }

  ghost predicate KeepsExclusives(c: Params, backends: seq<string>, r: Ring, alive: seq<bool>, i: nat)
    requires i < |alive| <= |backends|
  {
    alive[i] ==> forall p :: Exclusive(c, backends, i, p) ==> Owns(r, p, NodeOf(backends, i))
  }

  /** What holds of ring and flags after any history, collisions included: Alive Backends own the ring,
      and each of them its exclusive positions. */
  ghost predicate Fits(c: Params, backends: seq<string>, r: Ring, alive: seq<bool>) {
    && |alive| <= |backends| && Valid(c, r)
    && (forall p :: p in r.nodes ==> OwnerIsAlive(backends, r, alive, p))
    && (forall i :: 0 <= i < |alive| ==> KeepsExclusives(c, backends, r, alive, i))
  }

  ghost predicate OneMoreAlive(alive: seq<bool>, i: nat, alive': seq<bool>) {
    && i < |alive'| && alive'[i]
    && if i < |alive| then alive' == alive[i := true] else alive' == alive + [true] && i == |alive|
  }

  lemma JoinKeepsExclusives(c: Params, backends: seq<string>, r: Ring, alive: seq<bool>, i: nat, alive': seq<bool>,
                            k: nat)
    requires Fits(c, backends, r, alive) && OneMoreAlive(alive, i, alive') && |alive'| <= |backends| && k < |alive'|
    ensures KeepsExclusives(c, backends, AddTo(c, r, NodeOf(backends, i)), alive', k)
  {
    if k != i {
      assert k < |alive| && KeepsExclusives(c, backends, r, alive, k);
    }
  }

  lemma FitsJoin(c: Params, backends: seq<string>, r: Ring, alive: seq<bool>, i: nat, alive': seq<bool>)
    requires Fits(c, backends, r, alive) && OneMoreAlive(alive, i, alive') && |alive'| <= |backends|
    ensures Fits(c, backends, AddTo(c, r, NodeOf(backends, i)), alive')
  {
    var r' := AddTo(c, r, NodeOf(backends, i));
    AddValid(c, r, NodeOf(backends, i));
    forall p | p in r'.nodes ensures OwnerIsAlive(backends, r', alive', p) {
      assert p in r.nodes ==> OwnerIsAlive(backends, r, alive, p);
    }
    forall k | 0 <= k < |alive'| ensures KeepsExclusives(c, backends, r', alive', k) {
      JoinKeepsExclusives(c, backends, r, alive, i, alive', k);
    }
  }

  lemma FitsLeave(c: Params, backends: seq<string>, r: Ring, alive: seq<bool>, i: nat)
    requires Fits(c, backends, r, alive) && i < |alive|
    ensures Fits(c, backends, RemoveFrom(c, r, NodeOf(backends, i)), alive[i := false])
  {
    var r', alive' := RemoveFrom(c, r, NodeOf(backends, i)), alive[i := false];
    RemoveValid(c, r, NodeOf(backends, i));
    forall p | p in r'.nodes ensures OwnerIsAlive(backends, r', alive', p) {
      assert OwnerIsAlive(backends, r, alive, p);
    }
    forall k | 0 <= k < |alive'| ensures KeepsExclusives(c, backends, r', alive', k) {
      assert KeepsExclusives(c, backends, r, alive, k);
    }
  }

  lemma FitsChecked(c: Params, backends: seq<string>, r: Ring, alive: seq<bool>, i: nat, status: bool)
    requires Fits(c, backends, r, alive) && i < |alive| == |backends|
    ensures Fits(c, backends, CheckedRing(c, backends, r, alive, i, status), alive[i := status])
  {
    if status == alive[i] {
      assert alive[i := status] == alive;
    } else if status {
      FitsJoin(c, backends, r, alive, i, alive[i := true]);
    } else {
      FitsLeave(c, backends, r, alive, i);
    }
  }

  lemma FitsSkip(c: Params, backends: seq<string>, r: Ring, alive: seq<bool>)
    requires Fits(c, backends, r, alive) && |alive| < |backends|
    ensures Fits(c, backends, r, alive + [false])
  {
    var alive' := alive + [false];
    forall p | p in r.nodes ensures OwnerIsAlive(backends, r, alive', p) {
      assert OwnerIsAlive(backends, r, alive, p);
    }
    forall k | 0 <= k < |alive'| ensures KeepsExclusives(c, backends, r, alive', k) {
      assert k < |alive| ==> KeepsExclusives(c, backends, r, alive, k);
    }
  }

  lemma {:induction false} FitsBoot(c: Params, backends: seq<string>, probes: seq<bool>, n: nat)
    requires n <= |probes| <= |backends|
    ensures Fits(c, backends, BootRing(c, backends, probes, n), probes[..n])
  {
    if n > 0 {
      FitsBoot(c, backends, probes, n - 1);
      OneMoreProbe(c, backends, probes, n - 1);
      if probes[n - 1] {
        FitsJoin(c, backends, BootRing(c, backends, probes, n - 1), probes[..n - 1], n - 1, probes[..n]);
      } else {
        FitsSkip(c, backends, BootRing(c, backends, probes, n - 1), probes[..n - 1]);
      }
    }
  }

  lemma {:induction false} FitsRound(c: Params, backends: seq<string>, r: Ring, alive: seq<bool>, probes: seq<bool>,
                                     n: nat)
    requires n <= |probes| == |alive| == |backends| && Fits(c, backends, r, alive)
    ensures Fits(c, backends, RoundRing(c, backends, r, alive, probes, n), FlagsAfter(probes, alive, n))
  {
    if n == 0 {
      assert FlagsAfter(probes, alive, 0) == alive;
    } else {
      FitsRound(c, backends, r, alive, probes, n - 1);
      FlagsAfterOneMore(probes, alive, n - 1);
      FitsChecked(c, backends, RoundRing(c, backends, r, alive, probes, n - 1), FlagsAfter(probes, alive, n - 1),
                  n - 1, probes[n - 1]);
    }
  }

  lemma {:induction false} FitsAfterRounds(c: Params, backends: seq<string>, boot: seq<bool>, rounds: seq<Round>)
    requires |boot| == |backends| && RoundsFit(rounds, |backends|)
    ensures var (alive, ring) := AfterRounds(c, backends, boot, rounds); Fits(c, backends, ring, alive)
  {
    if rounds == [] {
      FitsBoot(c, backends, boot, |backends|);
      assert boot[..|backends|] == boot;
    } else {
      var before, last := rounds[..|rounds| - 1], rounds[|rounds| - 1];
      FitsAfterRounds(c, backends, boot, before);
      var (alive, ring) := AfterRounds(c, backends, boot, before);
      FitsRound(c, backends, ring, alive, last.probes, last.checked);
    }
  }

  // ---------- who is served ----------

  /** A client is served by an Alive Backend or not at all. */
  ghost predicate ServedByAlive(backends: seq<string>, r: Ring, alive: seq<bool>, h: uint32)
    requires |alive| <= |backends|
  {
    match Route(r, h)
    case None => true
    case Some(node) => node.proxy < |alive| && alive[node.proxy] && node == NodeOf(backends, node.proxy)
  }

  lemma FitsServes(c: Params, backends: seq<string>, r: Ring, alive: seq<bool>, h: uint32)
    requires Fits(c, backends, r, alive) && |alive| == |backends|
    ensures ServedByAlive(backends, r, alive, h)
    ensures NobodyCovered(c, backends) ==> (Route(r, h).Some? <==> true in alive)
  {
    RouteNeverMisses(c, r, h);
    if r.numbers != [] {
      assert OwnerIsAlive(backends, r, alive, Nearest(r.numbers, h));
    }
    if NobodyCovered(c, backends) && true in alive {
      var i :| 0 <= i < |alive| && alive[i];
      assert HasExclusive(c, backends, i) && KeepsExclusives(c, backends, r, alive, i);
      var p :| Exclusive(c, backends, i, p);
      assert Owns(r, p, NodeOf(backends, i)) && p in Elements(r.numbers);
    }
  }

  ghost predicate ServesAfter(c: Params, backends: seq<string>, boot: seq<bool>, rounds: seq<Round>, h: uint32)
    requires |boot| == |backends| && RoundsFit(rounds, |backends|)
  {
    var (alive, ring) := AfterRounds(c, backends, boot, rounds);
    Route(ring, h).Some? <==> true in alive
  }

  ghost predicate AlwaysServes(c: Params, backends: seq<string>) {
    forall boot, rounds, h | |boot| == |backends| && RoundsFit(rounds, |backends|) ::
      ServesAfter(c, backends, boot, rounds, h)
  }

  /** After a round that finds only Backend i Alive no position of another one is left. */
  lemma {:induction false} OthersAreGone(c: Params, backends: seq<string>, r: Ring, i: nat, n: nat, j: nat, p: uint32)
    requires n <= |backends| && j < n && i < |backends| && j != i && p in c.Spots(NodeOf(backends, j))
    ensures p !in RoundRing(c, backends, r, seq(|backends|, _ => true), OnlyUp(|backends|, i), n).nodes
  {
    var boot, probes := seq(|backends|, _ => true), OnlyUp(|backends|, i);
    assert FlagsAfter(probes, boot, n - 1)[n - 1] == boot[n - 1];
    if j < n - 1 {
      OthersAreGone(c, backends, r, i, n - 1, j, p);
    }
  }

  lemma NonEmptyHasElement(s: seq<uint32>)
    ensures s != [] ==> Elements(s) != {}
  {
    if s != [] {
      assert s[0] in Elements(s);
    }
  }

  /** Backend i shares all its positions: when the others go Down, they take the whole ring with them. */
  lemma CoveredIsTurnedAway(c: Params, backends: seq<string>, i: nat, h: uint32)
    requires i < |backends| && !HasExclusive(c, backends, i)
    ensures !AlwaysServes(c, backends)
  {
    var n := |backends|;
    var boot, probes := seq(n, _ => true), OnlyUp(n, i);
    var rounds := [Round(probes, n)];
    assert rounds[..0] == [];
    FitsAfterRounds(c, backends, boot, rounds);
    var (alive, ring) := AfterRounds(c, backends, boot, rounds);
    assert alive == probes;
    forall p ensures p !in ring.nodes {
      if p in ring.nodes {
        assert OwnerIsAlive(backends, ring, alive, p);
        assert p in c.Spots(NodeOf(backends, i)) && !Exclusive(c, backends, i, p);
        var j :| 0 <= j < n && j != i && p in c.Spots(NodeOf(backends, j));
        OthersAreGone(c, backends, BootRing(c, backends, boot, n), i, n, j, p);
      }
    }
    assert Elements(ring.numbers) == {};
    NonEmptyHasElement(ring.numbers);
    assert alive[i] && !ServesAfter(c, backends, boot, rounds, h);
  }

  /** Over every history of rounds and for every client: somebody serves it exactly while a Backend is
      Alive - if and only if every Backend has a position that no other one hashes to. */
  lemma AlwaysServesIffNobodyCovered(c: Params, backends: seq<string>)
    ensures AlwaysServes(c, backends) <==> NobodyCovered(c, backends)
  {
    if NobodyCovered(c, backends) {
      forall boot, rounds, h | |boot| == |backends| && RoundsFit(rounds, |backends|)
        ensures ServesAfter(c, backends, boot, rounds, h)
      {
        FitsAfterRounds(c, backends, boot, rounds);
        var (alive, ring) := AfterRounds(c, backends, boot, rounds);
        FitsServes(c, backends, ring, alive, h);
      }
    } else {
      var i :| 0 <= i < |backends| && !HasExclusive(c, backends, i);
      CoveredIsTurnedAway(c, backends, i, 0);
    }
  }

  /** With the constructor's number of virtual nodes that is so whenever no two Backends share a
      position. */
  lemma NothingSharedNobodyCovered(hashFunc: string -> uint32, backends: seq<string>)
    requires NothingShared(ParamsOf(hashFunc, backends), backends)
    ensures NobodyCovered(ParamsOf(hashFunc, backends), backends)
  {
    var c := ParamsOf(hashFunc, backends);
    forall i | 0 <= i < |backends| ensures HasExclusive(c, backends, i) {
      assert |backends| * |backends| > 0;
      var p := c.Positions(NodeOf(backends, i))[0];
      assert NodeOf(backends, i) in AllNodes(backends);
      forall j | 0 <= j < |backends| && j != i ensures p !in c.Spots(NodeOf(backends, j)) {
        assert NodeOf(backends, j) in AllNodes(backends);
      }
      assert Exclusive(c, backends, i, p);
    }
  }

  /** Of n Backends each has n * n keys, and a client whose hash is one of them gets that Backend. */
  ghost predicate OwnsAllItsKeys(hashFunc: string -> uint32, backends: seq<string>, r: Ring, i: nat)
    requires i < |backends|
  {
    forall k: nat :: k < |backends| * |backends| ==>
      Route(r, hashFunc(VirtualNodeKey(i, k, backends[i]))) == Some(NodeOf(backends, i))
  }

  lemma AliveOwnTheirKeys(hashFunc: string -> uint32, backends: seq<string>, r: Ring, alive: seq<bool>)
    requires NothingShared(ParamsOf(hashFunc, backends), backends) && |alive| == |backends|
    requires Fits(ParamsOf(hashFunc, backends), backends, r, alive)
    ensures forall i :: 0 <= i < |backends| && alive[i] ==> OwnsAllItsKeys(hashFunc, backends, r, i)
  {
    var c := ParamsOf(hashFunc, backends);
    forall i, k: nat | 0 <= i < |backends| && alive[i] && k < |backends| * |backends|
      ensures Route(r, hashFunc(VirtualNodeKey(i, k, backends[i]))) == Some(NodeOf(backends, i))
    {
      OwnsKey(c, backends, r, alive, i, k);
    }
  }

  lemma OwnsKey(c: Params, backends: seq<string>, r: Ring, alive: seq<bool>, i: nat, k: nat)
    requires NothingShared(c, backends) && Fits(c, backends, r, alive)
    requires i < |alive| && alive[i] && k < c.virtualRepl
    ensures Route(r, c.hashFunc(VirtualNodeKey(i, k, backends[i]))) == Some(NodeOf(backends, i))
  {
    var p := c.hashFunc(VirtualNodeKey(i, k, backends[i]));
    SpotsAreKeyHashes(c, NodeOf(backends, i), p);
    assert NodeOf(backends, i) in AllNodes(backends);
    forall j | 0 <= j < |backends| && j != i ensures p !in c.Spots(NodeOf(backends, j)) {
      assert NodeOf(backends, j) in AllNodes(backends);
    }
    assert Exclusive(c, backends, i, p) && KeepsExclusives(c, backends, r, alive, i);
    RouteAtPosition(c, r, p);
  }
}
