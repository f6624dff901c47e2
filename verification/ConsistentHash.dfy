/** The ip-hash ring as the program keeps it: one pointer to a snapshot object that is filled
    while private and never written again once the pointer shows it. */
module ConsistentHash {
  import opened HashRing
  import opened Options
  import opened VirtualNodeKeys
  import opened RingHistory

  class RingSnapshot {
    var nodes: map<uint32, Node>
    var numbers: seq<uint32>

    constructor (nodes: map<uint32, Node>, numbers: seq<uint32>)
      ensures this.nodes == nodes && this.numbers == numbers
    {
      this.nodes, this.numbers := nodes, numbers;
    }

    ghost function Value(): Ring
      reads this
    {
      Ring(nodes, numbers)
    }
  }

  /** sort.Sort on a hashRing, here an insertion sort. */
  method SortNumbers(s: seq<uint32>) returns (r: seq<uint32>)
    ensures r == Sort(s)
  {
    r := [];
    for k := 0 to |s|
      invariant Sorted(r) && multiset(r) == multiset(s[..k])
    {
      assert s[..k + 1] == s[..k] + [s[k]];
      InsertSorted(s[k], r);
      r := Insert(s[k], r);
    }
    assert s[..|s|] == s;
    SortedUnique(r, Sort(s));
  }

  /** The loop that copies a snapshot's map, in whatever order Go's map iteration takes. */
  method CopyNodes(nodes: map<uint32, Node>, skip: set<uint32>) returns (copy: map<uint32, Node>)
    ensures copy == nodes - skip
  {
    copy := map[];
    var left := nodes.Keys;
    while left != {}
      invariant left <= nodes.Keys
      invariant copy == nodes - skip - left
      decreases left
    {
      var hash :| hash in left;
      if hash !in skip {
        copy := copy[hash := nodes[hash]];
      }
      left := left - {hash};
    }
  }

  class ConsistentHash {
    var ring: RingSnapshot
    const params: Params

    ghost predicate Valid()
      reads this, ring
    {
      HashRing.Valid(params, ring.Value())
    }

    constructor (replicas: nat, hashFunc: string -> uint32)
      ensures params == Params(hashFunc, replicas)
      ensures Valid() && fresh(ring) && ring.Value() == EMPTY
    {
      params := Params(hashFunc, replicas);
      ring := new RingSnapshot(map[], []);
    }

    /** Only the pointer is modified: the snapshot that readers may hold keeps its contents. */
    method AddNode(node: Node)
      requires Valid()
      modifies this`ring
      ensures fresh(ring) && Valid()
      ensures ring.Value() == AddTo(params, old(ring.Value()), node)
      ensures forall p: uint32 :: ChangedByJoin(params, old(ring.Value()), ring.Value(), node, p)
    {
      ghost var was := ring.Value();
      var newNodes := CopyNodes(ring.nodes, {});
      var newNumbers := ring.numbers;
      ghost var all := params.Positions(node);
      assert newNodes == Claim(was.nodes, Elements(all[..0]), node);
      for i := 0 to params.virtualRepl
        invariant newNodes == Claim(was.nodes, Elements(all[..i]), node)
        invariant newNumbers == was.numbers + all[..i]
      {
        var hash := params.hashFunc(VirtualNodeKey(node.id, i, node.addr));
        ElementsExtend(all, i);
        assert hash == all[i];
        ClaimOneMore(was.nodes, Elements(all[..i]), node, hash);
        newNodes := newNodes[hash := node];
        newNumbers := newNumbers + [hash];
      }
      assert all[..params.virtualRepl] == all;
      newNumbers := SortNumbers(newNumbers);
      ring := new RingSnapshot(newNodes, newNumbers);
      AddValid(params, was, node);
      JoinChanges(params, was, node);
    }

    method RemoveNode(node: Node)
      requires Valid()
      modifies this`ring
      ensures fresh(ring) && Valid()
      ensures ring.Value() == RemoveFrom(params, old(ring.Value()), node)
      ensures forall p: uint32 :: ChangedByLeave(params, old(ring.Value()), ring.Value(), node, p)
    {
      ghost var was := ring.Value();
      var removed: set<uint32> := {};
      for i := 0 to params.virtualRepl
        invariant removed == Elements(params.Positions(node)[..i])
      {
        assert params.Positions(node)[..i + 1] == params.Positions(node)[..i] + [params.Positions(node)[i]];
        removed := removed + {params.hashFunc(VirtualNodeKey(node.id, i, node.addr))};
      }
      assert params.Positions(node)[..params.virtualRepl] == params.Positions(node);
      var newNodes := CopyNodes(ring.nodes, removed);
      var newNumbers := [];
      for k := 0 to |ring.numbers|
        invariant newNumbers == Without(ring.numbers[..k], removed)
      {
        assert ring.numbers[..k + 1][..k] == ring.numbers[..k];
        if ring.numbers[k] !in removed {
          newNumbers := newNumbers + [ring.numbers[k]];
        }
      }
      assert ring.numbers[..|ring.numbers|] == ring.numbers;
      ring := new RingSnapshot(newNodes, newNumbers);
      RemoveValid(params, was, node);
      LeaveChanges(params, was, node);
    }

    method GetNode(hash: uint32) returns (node: Option<Node>)
      requires Valid()
      ensures node == Route(ring.Value(), hash)
      ensures node.None? <==> ring.numbers == []
    {
      var snapshot := ring;
      node := Find(snapshot, hash);
    }

    /** What GetNode does with the snapshot it loaded: the binary search of sort.Search, the wrap to
        index 0, and one map lookup. */
    method Find(snapshot: RingSnapshot, hash: uint32) returns (node: Option<Node>)
      requires HashRing.Valid(params, snapshot.Value())
      ensures node == Route(snapshot.Value(), hash)
      ensures node.None? <==> snapshot.numbers == []
    {
      if |snapshot.numbers| == 0 {
        return None;
      }
      var i, j := 0, |snapshot.numbers|;
      while i < j
        invariant 0 <= i <= j <= |snapshot.numbers|
        invariant forall k :: 0 <= k < i ==> snapshot.numbers[k] < hash
        invariant forall k :: j <= k < |snapshot.numbers| ==> snapshot.numbers[k] >= hash
      {
        var h := (i + j) / 2;
        if snapshot.numbers[h] < hash {
          i := h + 1;
        } else {
          j := h;
        }
      }
      FirstNotBelowIsNearest(snapshot.numbers, hash, i);
      if i == |snapshot.numbers| {
        i := 0;
      }
      assert snapshot.numbers[i] in Elements(snapshot.numbers);
      node := Some(snapshot.nodes[snapshot.numbers[i]]);
    }

    /** A lookup that is overtaken by any number of changes between its load and its search still
        answers for the ring it loaded. */
    method GetNodeOvertaken(hash: uint32, changes: seq<Change>) returns (node: Option<Node>)
      requires Valid()
      modifies this`ring
      ensures Valid() && node == Route(old(ring.Value()), hash)
    {
      var snapshot := ring;
      for k := 0 to |changes|
        invariant Valid()
      {
        match changes[k] {
          case Join(n) => AddNode(n);
          case Leave(n) => RemoveNode(n);
        }
      }
      node := Find(snapshot, hash);
    }
  }
}
