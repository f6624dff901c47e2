/** What the ip-hash ring is: positions on a circle of 2^32 points, each owned by a Node. The
    snapshots that the ConsistentHash class publishes have these values. */
module HashRing {
  import opened Options
  import opened VirtualNodeKeys

  const CIRCLE := 0x1_0000_0000

  type uint32 = h: int | 0 <= h < CIRCLE

  /** A Backend on the ring. `proxy` is the identity of its proxy client. */
  datatype Node = Node(id: int, addr: string, proxy: nat)

  datatype Ring = Ring(nodes: map<uint32, Node>, numbers: seq<uint32>)

  const EMPTY := Ring(map[], [])

  /** The fixed parts of a ConsistentHash: its hash function, left unconstrained, and the number
      of virtual nodes of a Node. */
  datatype Params = Params(hashFunc: string -> uint32, virtualRepl: nat) {
    function Positions(node: Node): seq<uint32> {
      seq<uint32>(virtualRepl, i => hashFunc(VirtualNodeKey(node.id, i, node.addr)))
    }

    function Spots(node: Node): set<uint32> {
      Elements(Positions(node))
    }
  }

  function Elements(s: seq<uint32>): set<uint32> {
    set x | x in s
  }

  lemma ElementsExtend(s: seq<uint32>, i: nat)
    requires i < |s|
    ensures s[..i + 1] == s[..i] + [s[i]] && Elements(s[..i + 1]) == Elements(s[..i]) + {s[i]}
  {
  }

  lemma ElementsCount(s: seq<uint32>, x: uint32)
    ensures x in Elements(s) <==> multiset(s)[x] > 0
  {
  }

  // ---------- sorted positions ----------

  ghost predicate Sorted(s: seq<uint32>) {
    forall i, j :: 0 <= i < j < |s| ==> s[i] <= s[j]
  }

  function Insert(x: uint32, s: seq<uint32>): (r: seq<uint32>)
    ensures multiset(r) == multiset(s) + multiset{x}
    ensures r != [] && r[0] == if s == [] || x <= s[0] then x else s[0]
  {
    if s == [] || x <= s[0] then [x] + s
    else
      assert s == [s[0]] + s[1..];
      [s[0]] + Insert(x, s[1..])
  }

  lemma PrependSorted(x: uint32, s: seq<uint32>)
    requires Sorted(s) && (s == [] || x <= s[0])
    ensures Sorted([x] + s)
  {
  }

  lemma {:induction false} InsertSorted(x: uint32, s: seq<uint32>)
    requires Sorted(s)
    ensures Sorted(Insert(x, s))
  {
    if s == [] || x <= s[0] {
      PrependSorted(x, s);
    } else {
      InsertSorted(x, s[1..]);
      PrependSorted(s[0], Insert(x, s[1..]));
    }
  }

  function Sort(s: seq<uint32>): (r: seq<uint32>)
    ensures Sorted(r) && multiset(r) == multiset(s)
  {
    if s == [] then [] else
      assert s == s[..|s| - 1] + [s[|s| - 1]];
      InsertSorted(s[|s| - 1], Sort(s[..|s| - 1]));
      Insert(s[|s| - 1], Sort(s[..|s| - 1]))
  }

  lemma SameFirst(a: seq<uint32>, b: seq<uint32>)
    requires Sorted(a) && Sorted(b) && multiset(a) == multiset(b) && a != []
    ensures b != [] && a[0] == b[0]
  {
    assert a[0] in multiset(b);
    assert b[0] in multiset(a);
  }

  lemma TailCounts(a: seq<uint32>)
    requires a != []
    ensures multiset(a[1..]) == multiset(a) - multiset{a[0]}
  {
    assert a == [a[0]] + a[1..];
  }

  lemma {:induction false} SortedUnique(a: seq<uint32>, b: seq<uint32>)
    requires Sorted(a) && Sorted(b) && multiset(a) == multiset(b)
    ensures a == b
  {
    if a == [] {
      assert |multiset(b)| == |b|;
    } else {
      SameFirst(a, b);
      TailCounts(a);
      TailCounts(b);
      SortedUnique(a[1..], b[1..]);
      assert a == [a[0]] + a[1..] && b == [b[0]] + b[1..];
    }
  }

  function Without(s: seq<uint32>, drop: set<uint32>): (r: seq<uint32>) {
    if s == [] then []
    else Without(s[..|s| - 1], drop) + if s[|s| - 1] in drop then [] else [s[|s| - 1]]
  }

  lemma {:induction false} WithoutCounts(s: seq<uint32>, drop: set<uint32>, x: uint32)
    ensures multiset(Without(s, drop))[x] == if x in drop then 0 else multiset(s)[x]
  {
    if s != [] {
      WithoutCounts(s[..|s| - 1], drop, x);
      assert s == s[..|s| - 1] + [s[|s| - 1]];
    }
  }

  lemma {:induction false} WithoutKeeps(s: seq<uint32>, drop: set<uint32>)
    ensures Elements(Without(s, drop)) == Elements(s) - drop
    ensures Sorted(s) ==> Sorted(Without(s, drop))
  {
    if s != [] {
      var t := s[..|s| - 1];
      WithoutKeeps(t, drop);
      assert Elements(s) == Elements(t) + {s[|s| - 1]};
      var r := Without(t, drop);
      assert Elements(Without(s, drop)) == Elements(r) + if s[|s| - 1] in drop then {} else {s[|s| - 1]};
      if Sorted(s) {
        forall k | 0 <= k < |r| ensures r[k] <= s[|s| - 1] {
          assert r[k] in Elements(r) && r[k] in Elements(t);
        }
      }
    }
  }

  // ---------- adding and removing a Node ----------

  function Claim(nodes: map<uint32, Node>, spots: set<uint32>, node: Node): map<uint32, Node> {
    nodes + map h | h in spots :: node
  }

  lemma ClaimOneMore(nodes: map<uint32, Node>, spots: set<uint32>, node: Node, h: uint32)
    ensures Claim(nodes, spots, node)[h := node] == Claim(nodes, spots + {h}, node)
  {
  }

  function AddTo(c: Params, r: Ring, node: Node): Ring {
    Ring(Claim(r.nodes, c.Spots(node), node), Sort(r.numbers + c.Positions(node)))
  }

  function RemoveFrom(c: Params, r: Ring, node: Node): Ring {
    Ring(r.nodes - c.Spots(node), Without(r.numbers, c.Spots(node)))
  }

  /** What every reachable ring satisfies, hash collisions included: the list is sorted, it holds
      exactly the owned positions, and an owner hashes to the positions it owns. */
  ghost predicate Valid(c: Params, r: Ring) {
    && Sorted(r.numbers)
    && Elements(r.numbers) == r.nodes.Keys
    && (forall h :: h in r.nodes ==> h in c.Spots(r.nodes[h]))
  }

  lemma SortElements(s: seq<uint32>, t: seq<uint32>)
    ensures Elements(Sort(s + t)) == Elements(s) + Elements(t)
  {
    forall x ensures x in Elements(Sort(s + t)) <==> x in Elements(s) || x in Elements(t) {
      ElementsCount(Sort(s + t), x);
      ElementsCount(s, x);
      ElementsCount(t, x);
    }
  }

  lemma AddValid(c: Params, r: Ring, node: Node)
    requires Valid(c, r)
    ensures Valid(c, AddTo(c, r, node))
    ensures AddTo(c, r, node).nodes.Keys == r.nodes.Keys + c.Spots(node)
  {
    SortElements(r.numbers, c.Positions(node));
  }

  lemma RemoveValid(c: Params, r: Ring, node: Node)
    requires Valid(c, r)
    ensures Valid(c, RemoveFrom(c, r, node))
  {
    WithoutKeeps(r.numbers, c.Spots(node));
  }

  // ---------- routing ----------

  /** How far position p lies ahead of hash h when walking up the circle. */
  function Ahead(h: uint32, p: uint32): nat {
    (p - h) % CIRCLE
  }

  ghost predicate IsNearest(s: seq<uint32>, h: uint32, p: uint32) {
    p in Elements(s) && forall q :: q in Elements(s) ==> Ahead(h, p) <= Ahead(h, q)
  }

  /** The position that a walk up the circle from h reaches first. */
  function Nearest(s: seq<uint32>, h: uint32): (p: uint32)
    requires s != []
    ensures IsNearest(s, h, p)
  {
    if |s| == 1 then s[0]
    else
      var q := Nearest(s[1..], h);
      assert Elements(s) == {s[0]} + Elements(s[1..]);
      if Ahead(h, s[0]) <= Ahead(h, q) then s[0] else q
  }

  /** Nobody else is as near: the nearest position does not depend on the order of the list. */
  lemma NearestUnique(s: seq<uint32>, h: uint32, p: uint32)
    requires IsNearest(s, h, p)
    ensures s != [] && p == Nearest(s, h)
  {
    var q := Nearest(s, h);
    assert Ahead(h, p) == Ahead(h, q);
  }

  function Route(r: Ring, h: uint32): Option<Node> {
    if r.numbers == [] then None
    else if Nearest(r.numbers, h) in r.nodes then Some(r.nodes[Nearest(r.numbers, h)])
    else None
  }

  lemma RouteNeverMisses(c: Params, r: Ring, h: uint32)
    requires Valid(c, r)
    ensures Route(r, h).None? <==> r.numbers == []
  {
  }

  /** The first index whose position is at least h, wrapped to 0 when there is none, holds the
      nearest position. */
  lemma FirstNotBelowIsNearest(s: seq<uint32>, h: uint32, i: nat)
    requires s != [] && Sorted(s) && i <= |s|
    requires forall k :: 0 <= k < i ==> s[k] < h
    requires forall k :: i <= k < |s| ==> s[k] >= h
    ensures s[if i == |s| then 0 else i] == Nearest(s, h)
  {
    var w := if i == |s| then 0 else i;
    forall q | q in Elements(s) ensures Ahead(h, s[w]) <= Ahead(h, q) {
      var k :| 0 <= k < |s| && s[k] == q;
      assert s[w] <= q || (q < h <= s[w]);
    }
    NearestUnique(s, h, s[w]);
  }

  // ---------- minimal disruption ----------

  /** Adding a Node moves a hash to that Node or not at all, whatever the hash collisions. */
  lemma AddDisruptsOnlyToTheNewNode(c: Params, r: Ring, node: Node, h: uint32)
    requires Valid(c, r)
    ensures Route(AddTo(c, r, node), h) in {Route(r, h), Some(node)}
  {
    AddValid(c, r, node);
    var added := AddTo(c, r, node);
    if added.numbers != [] {
      var p := Nearest(added.numbers, h);
      if p !in c.Spots(node) {
        assert IsNearest(r.numbers, h, p);
        NearestUnique(r.numbers, h, p);
      }
    }
  }

  /** No hash is routed to a removed Node, whatever the hash collisions. */
  lemma RemovedNodeGetsNothing(c: Params, r: Ring, node: Node, h: uint32)
    requires Valid(c, r)
    ensures Route(RemoveFrom(c, r, node), h) != Some(node)
  {
    RemoveValid(c, r, node);
  }

  /** A hash that was routed elsewhere stays where it was, provided that the removed Node owned
      the positions it takes with it. */
  lemma RemoveDisruptsOnlyTheOldNode(c: Params, r: Ring, node: Node, h: uint32)
    requires Valid(c, r) && Route(r, h) != Some(node)
    requires forall p :: p in c.Spots(node) && p in r.nodes ==> r.nodes[p] == node
    ensures Route(RemoveFrom(c, r, node), h) == Route(r, h)
  {
    WithoutKeeps(r.numbers, c.Spots(node));
    if r.numbers != [] {
      var p := Nearest(r.numbers, h);
      assert p !in c.Spots(node);
      assert IsNearest(RemoveFrom(c, r, node).numbers, h, p);
      NearestUnique(RemoveFrom(c, r, node).numbers, h, p);
    }
  }

  lemma RouteAtPosition(c: Params, r: Ring, p: uint32)
    requires Valid(c, r) && p in r.nodes
    ensures Route(r, p) == Some(r.nodes[p])
  {
    assert IsNearest(r.numbers, p, p);
    NearestUnique(r.numbers, p, p);
  }

  // ---------- the virtual nodes of a Node ----------

  /** p is the hash of one of the Node's virtual-node keys. */
  ghost predicate IsKeyHash(c: Params, node: Node, p: uint32) {
    exists i: nat :: i < c.virtualRepl && p == c.hashFunc(VirtualNodeKey(node.id, i, node.addr))
  }

  lemma SpotsAreKeyHashes(c: Params, node: Node, p: uint32)
    ensures p in c.Spots(node) <==> IsKeyHash(c, node, p)
  {
    if IsKeyHash(c, node, p) {
      var i: nat :| i < c.virtualRepl && p == c.hashFunc(VirtualNodeKey(node.id, i, node.addr));
      assert c.Positions(node)[i] == p;
    }
    if p in c.Spots(node) {
      var i: nat :| i < c.virtualRepl && c.Positions(node)[i] == p;
      assert p == c.hashFunc(VirtualNodeKey(node.id, i, node.addr));
    }
  }

  ghost predicate SameOwner(r: Ring, r': Ring, p: uint32) {
    (p in r.nodes <==> p in r'.nodes) && (p in r.nodes ==> r.nodes[p] == r'.nodes[p])
  }

  /** The hashes of the Node's keys go to the Node, and no other position changes. */
  ghost predicate ChangedByJoin(c: Params, r: Ring, r': Ring, node: Node, p: uint32) {
    if IsKeyHash(c, node, p) then p in r'.nodes && r'.nodes[p] == node else SameOwner(r, r', p)
  }

  /** The hashes of the Node's keys go from the ring, and no other position changes. */
  ghost predicate ChangedByLeave(c: Params, r: Ring, r': Ring, node: Node, p: uint32) {
    if IsKeyHash(c, node, p) then p !in r'.nodes else SameOwner(r, r', p)
  }

  lemma JoinChanges(c: Params, r: Ring, node: Node)
    ensures forall p: uint32 :: ChangedByJoin(c, r, AddTo(c, r, node), node, p)
  {
    forall p: uint32 ensures ChangedByJoin(c, r, AddTo(c, r, node), node, p) {
      SpotsAreKeyHashes(c, node, p);
    }
  }

  lemma LeaveChanges(c: Params, r: Ring, node: Node)
    ensures forall p: uint32 :: ChangedByLeave(c, r, RemoveFrom(c, r, node), node, p)
  {
    forall p: uint32 ensures ChangedByLeave(c, r, RemoveFrom(c, r, node), node, p) {
      SpotsAreKeyHashes(c, node, p);
    }
  }

  /** A Node that joins gets the hash of each of its virtual-node keys, whatever the collisions. */
  lemma NewNodeOwnsItsKeys(c: Params, r: Ring, node: Node, i: nat)
    requires Valid(c, r) && i < c.virtualRepl
    ensures Route(AddTo(c, r, node), c.hashFunc(VirtualNodeKey(node.id, i, node.addr))) == Some(node)
  {
    var p := c.hashFunc(VirtualNodeKey(node.id, i, node.addr));
    SpotsAreKeyHashes(c, node, p);
    AddValid(c, r, node);
    RouteAtPosition(c, AddTo(c, r, node), p);
  }

  /** On a ring nothing but such hashes is owned, each by a Node with that key. */
  lemma OwnedPositionsAreKeyHashes(c: Params, r: Ring, p: uint32)
    requires Valid(c, r) && p in r.nodes
    ensures IsKeyHash(c, r.nodes[p], p)
  {
    SpotsAreKeyHashes(c, r.nodes[p], p);
  }

  /** Walking up the circle past the nearest position p, the next one is the nearest from p on. */
  lemma NextAfterNearest(s: seq<uint32>, t: seq<uint32>, h: uint32, p: uint32)
    requires IsNearest(s, h, p) && t != [] && Elements(t) <= Elements(s)
    ensures Nearest(t, h) == Nearest(t, p)
  {
    var q := Nearest(t, p);
    assert q in Elements(s);
    forall x | x in Elements(t) ensures Ahead(h, q) <= Ahead(h, x) {
      assert x in Elements(s) && Ahead(p, q) <= Ahead(p, x);
      AheadAdds(h, p, q);
      AheadAdds(h, p, x);
    }
    NearestUnique(t, h, q);
  }

  lemma AheadAdds(h: uint32, p: uint32, x: uint32)
    requires Ahead(h, p) <= Ahead(h, x)
    ensures Ahead(h, x) == Ahead(h, p) + Ahead(p, x)
  {
  }

  ghost predicate Keeps(r: Ring, r': Ring, node: Node, h: uint32) {
    Route(r, h) != Some(node) ==> Route(r', h) == Route(r, h)
  }

  /** A position that the Node takes away although another Node owns it, whose owner is next in line. */
  ghost predicate OwnerIsNext(r: Ring, r': Ring, node: Node, p: uint32)
    requires p in r.nodes
  {
    r.nodes[p] != node ==> Route(r', p) == Some(r.nodes[p])
  }

  /** Exactly when a removal moves nobody but the Node's own hashes, collisions included: each shared
      position that disappears with it must be followed by another one of the same owner. */
  lemma RemoveIsMinimalIffOwnersAreNext(c: Params, r: Ring, node: Node)
    requires Valid(c, r)
    ensures (forall h :: Keeps(r, RemoveFrom(c, r, node), node, h))
       <==> (forall p :: p in c.Spots(node) && p in r.nodes ==> OwnerIsNext(r, RemoveFrom(c, r, node), node, p))
  {
    var r' := RemoveFrom(c, r, node);
    if forall h :: Keeps(r, r', node, h) {
      forall p | p in c.Spots(node) && p in r.nodes ensures OwnerIsNext(r, r', node, p) {
        assert Keeps(r, r', node, p);
        RouteAtPosition(c, r, p);
      }
    }
    if forall p :: p in c.Spots(node) && p in r.nodes ==> OwnerIsNext(r, r', node, p) {
      forall h ensures Keeps(r, r', node, h) {
        KeepsIfOwnersAreNext(c, r, node, h);
      }
    }
  }

  lemma KeepsIfOwnersAreNext(c: Params, r: Ring, node: Node, h: uint32)
    requires Valid(c, r)
    requires forall p :: p in c.Spots(node) && p in r.nodes ==> OwnerIsNext(r, RemoveFrom(c, r, node), node, p)
    ensures Keeps(r, RemoveFrom(c, r, node), node, h)
  {
    var r' := RemoveFrom(c, r, node);
    WithoutKeeps(r.numbers, c.Spots(node));
    if r.numbers != [] {
      var p := Nearest(r.numbers, h);
      if p in c.Spots(node) {
        assert OwnerIsNext(r, r', node, p);
        if r'.numbers != [] {
          NextAfterNearest(r.numbers, r'.numbers, h, p);
        }
      } else {
        assert IsNearest(r'.numbers, h, p);
        NearestUnique(r'.numbers, h, p);
      }
    }
  }

  lemma JoinThenLeaveOfFreshPositions(c: Params, r: Ring, node: Node)
    requires Valid(c, r) && c.Spots(node) !! r.nodes.Keys
    ensures RemoveFrom(c, AddTo(c, r, node), node) == r
  {
    var added := Sort(r.numbers + c.Positions(node));
    var back := Without(added, c.Spots(node));
    WithoutKeeps(added, c.Spots(node));
    forall x ensures multiset(back)[x] == multiset(r.numbers)[x] {
      WithoutCounts(added, c.Spots(node), x);
      ElementsCount(c.Positions(node), x);
      ElementsCount(r.numbers, x);
    }
    SortedUnique(back, r.numbers);
  }

  /** A Join followed by the Leave of the same Node restores the ring exactly when none of the
      Node's positions was already on the ring. */
  lemma JoinThenLeaveRestores(c: Params, r: Ring, node: Node)
    requires Valid(c, r)
    ensures RemoveFrom(c, AddTo(c, r, node), node) == r <==> c.Spots(node) !! r.nodes.Keys
  {
    if p :| p in c.Spots(node) && p in r.nodes {
      assert p !in RemoveFrom(c, AddTo(c, r, node), node).nodes;
    } else {
      JoinThenLeaveOfFreshPositions(c, r, node);
    }
  }
}
