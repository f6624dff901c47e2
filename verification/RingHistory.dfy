/** Whether the ring remembers how it was reached. The health checker only ever adds absent Nodes
    and removes present ones; the ring is then a function of the present set exactly when no two
    Nodes share a position. */
module RingHistory {
  import opened HashRing
  import opened Options
  import opened VirtualNodeKeys

  datatype Change = Join(node: Node) | Leave(node: Node)

  function Apply(c: Params, r: Ring, change: Change): Ring {
    match change
    case Join(node) => AddTo(c, r, node)
    case Leave(node) => RemoveFrom(c, r, node)
  }

  function Run(c: Params, changes: seq<Change>): Ring {
    if changes == [] then EMPTY
    else Apply(c, Run(c, changes[..|changes| - 1]), changes[|changes| - 1])
  }

  function Present(changes: seq<Change>): set<Node> {
    if changes == [] then {}
    else
      var before := Present(changes[..|changes| - 1]);
      match changes[|changes| - 1]
      case Join(node) => before + {node}
      case Leave(node) => before - {node}
  }

  /** Every Node that joins was absent, every Node that leaves was present, all come from U. */
  ghost predicate Disciplined(changes: seq<Change>, U: set<Node>) {
    changes == [] ||
    (var before, last := changes[..|changes| - 1], changes[|changes| - 1];
     && Disciplined(before, U)
     && last.node in U
     && (last.Join? <==> last.node !in Present(before)))
  }

  ghost predicate NoCollision(c: Params, U: set<Node>) {
    forall a, b :: a in U && b in U && a != b ==> c.Spots(a) !! c.Spots(b)
  }

  /** Nodes with different Ids never share a key, so they never collide unless the hash function
      itself maps two of their keys to one position - even when their addresses are equal. */
  lemma OnlyTheHashCanCollide(c: Params, U: set<Node>)
    requires forall a, b :: a in U && b in U && a.id == b.id ==> a == b
    requires forall a, b, i: nat, j: nat ::
               (a in U && b in U && i < c.virtualRepl && j < c.virtualRepl
                && c.hashFunc(VirtualNodeKey(a.id, i, a.addr)) == c.hashFunc(VirtualNodeKey(b.id, j, b.addr))
                ==> VirtualNodeKey(a.id, i, a.addr) == VirtualNodeKey(b.id, j, b.addr))
    ensures NoCollision(c, U)
  {
    forall a, b, p | a in U && b in U && p in c.Spots(a) && p in c.Spots(b) ensures a == b {
      SpotsAreKeyHashes(c, a, p);
      SpotsAreKeyHashes(c, b, p);
      var i: nat :| i < c.virtualRepl && p == c.hashFunc(VirtualNodeKey(a.id, i, a.addr));
      var j: nat :| j < c.virtualRepl && p == c.hashFunc(VirtualNodeKey(b.id, j, b.addr));
      KeysAreDistinct(a.id, i, a.addr, b.id, j, b.addr);
    }
  }

  /** Every position of every present Node, and nothing else, belongs to that Node. */
  ghost predicate OwnedBy(c: Params, nodes: map<uint32, Node>, present: set<Node>) {
    && (forall p :: p in nodes ==> nodes[p] in present && p in c.Spots(nodes[p]))
    && (forall n, p :: n in present && p in c.Spots(n) ==> p in nodes && nodes[p] == n)
  }

  /** A position is listed as often as its owner hashes to it. */
  ghost predicate Listed(c: Params, r: Ring) {
    forall p :: p in r.nodes ==> multiset(r.numbers)[p] == multiset(c.Positions(r.nodes[p]))[p]
  }

  /** The ring of a set of Nodes, described without any history. */
  ghost predicate Canonical(c: Params, r: Ring, present: set<Node>) {
    Valid(c, r) && OwnedBy(c, r.nodes, present) && Listed(c, r)
  }

  lemma CanonicalUnique(c: Params, r: Ring, r': Ring, present: set<Node>)
    requires Canonical(c, r, present) && Canonical(c, r', present)
    ensures r == r'
  {
    assert forall p :: p in r.nodes ==> p in c.Spots(r.nodes[p]);
    assert forall p :: p in r'.nodes ==> p in c.Spots(r'.nodes[p]);
    assert r.nodes == r'.nodes;
    forall x ensures multiset(r.numbers)[x] == multiset(r'.numbers)[x] {
      ElementsCount(r.numbers, x);
      ElementsCount(r'.numbers, x);
    }
    SortedUnique(r.numbers, r'.numbers);
  }

  lemma NewcomerIsDisjoint(c: Params, nodes: map<uint32, Node>, present: set<Node>, node: Node)
    requires OwnedBy(c, nodes, present) && node !in present
    requires NoCollision(c, present + {node})
    ensures c.Spots(node) !! nodes.Keys
  {
  }

  lemma JoinOwned(c: Params, nodes: map<uint32, Node>, present: set<Node>, node: Node)
    requires OwnedBy(c, nodes, present) && c.Spots(node) !! nodes.Keys
    ensures OwnedBy(c, Claim(nodes, c.Spots(node), node), present + {node})
  {
  }

  lemma JoinCounts(c: Params, r: Ring, node: Node, p: uint32)
    requires c.Spots(node) !! r.nodes.Keys && Elements(r.numbers) == r.nodes.Keys
    ensures multiset(AddTo(c, r, node).numbers)[p]
         == if p in c.Spots(node) then multiset(c.Positions(node))[p] else multiset(r.numbers)[p]
  {
    ElementsCount(c.Positions(node), p);
    ElementsCount(r.numbers, p);
  }

  lemma JoinListed(c: Params, r: Ring, node: Node)
    requires c.Spots(node) !! r.nodes.Keys && Elements(r.numbers) == r.nodes.Keys && Listed(c, r)
    ensures Listed(c, AddTo(c, r, node))
  {
    var r' := AddTo(c, r, node);
    forall p | p in r'.nodes
      ensures multiset(r'.numbers)[p] == multiset(c.Positions(r'.nodes[p]))[p]
    {
      JoinCounts(c, r, node, p);
    }
  }

  lemma CanonicalJoin(c: Params, r: Ring, present: set<Node>, node: Node)
    requires Canonical(c, r, present) && node !in present
    requires NoCollision(c, present + {node})
    ensures Canonical(c, AddTo(c, r, node), present + {node})
  {
    NewcomerIsDisjoint(c, r.nodes, present, node);
    AddValid(c, r, node);
    JoinOwned(c, r.nodes, present, node);
    JoinListed(c, r, node);
  }

  lemma CanonicalLeave(c: Params, r: Ring, present: set<Node>, node: Node)
    requires Canonical(c, r, present) && node in present
    requires NoCollision(c, present)
    ensures Canonical(c, RemoveFrom(c, r, node), present - {node})
  {
    RemoveValid(c, r, node);
    var r' := RemoveFrom(c, r, node);
    forall p | p in r'.nodes
      ensures multiset(r'.numbers)[p] == multiset(c.Positions(r'.nodes[p]))[p]
    {
      WithoutCounts(r.numbers, c.Spots(node), p);
    }
  }

  lemma {:induction false} RunIsCanonical(c: Params, changes: seq<Change>, U: set<Node>)
    requires Disciplined(changes, U) && NoCollision(c, U)
    ensures Present(changes) <= U && Canonical(c, Run(c, changes), Present(changes))
  {
    if changes == [] {
    } else {
      var before, last := changes[..|changes| - 1], changes[|changes| - 1];
      RunIsCanonical(c, before, U);
      match last
      case Join(node) => CanonicalJoin(c, Run(c, before), Present(before), node);
      case Leave(node) => CanonicalLeave(c, Run(c, before), Present(before), node);
    }
  }

  /** Hash collisions or not, a run never leaves the ring malformed. */
  lemma {:induction false} RunIsValid(c: Params, changes: seq<Change>)
    ensures Valid(c, Run(c, changes))
  {
    if changes != [] {
      var before, last := changes[..|changes| - 1], changes[|changes| - 1];
      RunIsValid(c, before);
      AddValid(c, Run(c, before), last.node);
      RemoveValid(c, Run(c, before), last.node);
    }
  }

  ghost predicate RoutesByMembershipAlone(c: Params, U: set<Node>) {
    forall run, run', h :: Disciplined(run, U) && Disciplined(run', U) && Present(run) == Present(run')
      ==> Route(Run(c, run), h) == Route(Run(c, run'), h)
  }

  lemma EqualMembershipEqualRing(c: Params, U: set<Node>, run: seq<Change>, run': seq<Change>)
    requires NoCollision(c, U) && Disciplined(run, U) && Disciplined(run', U)
    requires Present(run) == Present(run')
    ensures Run(c, run) == Run(c, run')
  {
    RunIsCanonical(c, run, U);
    RunIsCanonical(c, run', U);
    CanonicalUnique(c, Run(c, run), Run(c, run'), Present(run));
  }

  lemma TwoJoinsAreDisciplined(a: Node, b: Node, U: set<Node>)
    requires a in U && b in U && a != b
    ensures Disciplined([Join(a), Join(b)], U) && Present([Join(a), Join(b)]) == {a, b}
  {
    assert [Join(a), Join(b)][..1] == [Join(a)];
    assert [Join(a)][..0] == [] && Disciplined([], U) && Present([]) == {};
    assert Disciplined([Join(a)], U) && Present([Join(a)]) == {a};
  }

  lemma LastJoinWins(c: Params, run: seq<Change>, b: Node, p: uint32)
    requires p in c.Spots(b)
    ensures Route(Run(c, run + [Join(b)]), p) == Some(b)
  {
    assert (run + [Join(b)])[..|run|] == run;
    RunIsValid(c, run);
    AddValid(c, Run(c, run), b);
    var r := AddTo(c, Run(c, run), b);
    assert p in r.nodes.Keys && r.nodes[p] == b;
    assert Ahead(p, p) == 0;
    NearestUnique(r.numbers, p, p);
  }

  lemma DifferingRoutes(c: Params, U: set<Node>, run: seq<Change>, run': seq<Change>, p: uint32)
    requires Disciplined(run, U) && Disciplined(run', U) && Present(run) == Present(run')
    requires Route(Run(c, run), p) != Route(Run(c, run'), p)
    ensures !RoutesByMembershipAlone(c, U)
  {
  }

  lemma CollisionBreaksHistory(c: Params, U: set<Node>, a: Node, b: Node, p: uint32)
    requires a in U && b in U && a != b && p in c.Spots(a) && p in c.Spots(b)
    ensures !RoutesByMembershipAlone(c, U)
  {
    var ab, ba := [Join(a)] + [Join(b)], [Join(b)] + [Join(a)];
    assert ab == [Join(a), Join(b)] && ba == [Join(b), Join(a)];
    assert Disciplined(ab, U) && Disciplined(ba, U) && Present(ab) == Present(ba) by {
      TwoJoinsAreDisciplined(a, b, U);
      TwoJoinsAreDisciplined(b, a, U);
    }
    assert Route(Run(c, ab), p) != Route(Run(c, ba), p) by {
      LastJoinWins(c, [Join(a)], b, p);
      LastJoinWins(c, [Join(b)], a, p);
    }
    DifferingRoutes(c, U, ab, ba, p);
  }

  /** The exact condition for history independence, over all runs on the Nodes of U. */
  lemma HistoryIndependenceIffNoCollision(c: Params, U: set<Node>)
    ensures RoutesByMembershipAlone(c, U) <==> NoCollision(c, U)
  {
    if NoCollision(c, U) {
      forall run, run', h | Disciplined(run, U) && Disciplined(run', U) && Present(run) == Present(run')
        ensures Route(Run(c, run), h) == Route(Run(c, run'), h)
      {
        EqualMembershipEqualRing(c, U, run, run');
      }
    } else {
      var a, b :| a in U && b in U && a != b && !(c.Spots(a) !! c.Spots(b));
      var p :| p in c.Spots(a) && p in c.Spots(b);
      CollisionBreaksHistory(c, U, a, b, p);
    }
  }

  /** A Backend that goes Down and Rejoins leaves the ring as it found it. */
  lemma FlapRestoresRing(c: Params, U: set<Node>, run: seq<Change>, node: Node)
    requires NoCollision(c, U) && Disciplined(run, U) && node in Present(run)
    ensures Run(c, run + [Leave(node), Join(node)]) == Run(c, run)
  {
    RunIsCanonical(c, run, U);
    var flap := run + [Leave(node), Join(node)];
    assert flap[..|flap| - 1] == run + [Leave(node)];
    assert (run + [Leave(node)])[..|run|] == run;
    EqualMembershipEqualRing(c, U, flap, run);
  }

  /** On a canonical ring every present Node gets the hash of each of its virtual-node keys. */
  lemma PresentNodeOwnsItsKeys(c: Params, r: Ring, present: set<Node>, node: Node, i: nat)
    requires Canonical(c, r, present) && node in present && i < c.virtualRepl
    ensures Route(r, c.hashFunc(VirtualNodeKey(node.id, i, node.addr))) == Some(node)
  {
    var p := c.hashFunc(VirtualNodeKey(node.id, i, node.addr));
    SpotsAreKeyHashes(c, node, p);
    RouteAtPosition(c, r, p);
  }
}
