/** The ip-hash balancer: Probe results drive the ring, one Backend at a time. */
module IPHash {
  import opened HashRing
  import opened IPHashRounds
  import opened RingService
  import opened Options
  import ConsistentHash
  import opened StatsRows
  import opened BackendKeys

  class ServerState {
    const node: Node
    var isHostAlive: bool
    const statsIdx: nat

    constructor (node: Node, isHostAlive: bool, statsIdx: nat)
      ensures this.node == node && this.isHostAlive == isHostAlive && this.statsIdx == statsIdx
    {
      this.node, this.isHostAlive, this.statsIdx := node, isHostAlive, statsIdx;
    }
  }

  datatype Row = Row(addr: string, isHostAlive: bool, backendHash: uint32)

  const NO_ROW := Row("", false, 0)

  class IPHash {
    const hashFunc: string -> uint32
    const backends: seq<string>
    const servers: ConsistentHash.ConsistentHash
    const serversMap: map<uint32, ServerState>
    ghost const keys: seq<uint32>
    ghost const states: seq<ServerState>  // in config order, those included that the map has lost
    var len: int
    ghost var alive: seq<bool>            // their isHostAlive flags

    /** The key of Backend i leads to the entry of the last Backend with that key. */
    ghost predicate IsRegistered(i: nat)
      requires i < |keys| == |backends| == |states|
    {
      && IsKey(keys, hashFunc, backends, i) && keys[i] in serversMap
      && serversMap[keys[i]] == states[EntryOf(keys, i)] && states[i].node == NodeOf(backends, i)
    }

    ghost predicate Registered() {
      && |states| == |backends| == |keys|
      && (forall i :: 0 <= i < |backends| ==> IsRegistered(i))
      && servers.params == ParamsOf(hashFunc, backends)
    }

    /** The map's entries have the row numbers of StatsRows. */
    ghost predicate RowsRegistered() {
      && serversMap.Keys == Register(keys).Keys
      && forall key :: key in serversMap ==> serversMap[key].statsIdx == Register(keys)[key]
    }

    ghost predicate StateMatches(i: nat)
      reads this`alive, states`isHostAlive
      requires i < |states| == |alive| == |backends|
    {
      states[i].node == NodeOf(backends, i) && states[i].isHostAlive == alive[i]
    }

    ghost predicate Valid()
      reads this, servers, servers.ring, states`isHostAlive
    {
      && |alive| == |states| == |backends|
      && (forall i :: 0 <= i < |alive| ==> StateMatches(i))
      && servers.Valid()
      && Fits(servers.params, backends, servers.ring.Value(), alive)
      && len == Count(alive)
    }

    constructor (hashFunc: string -> uint32, backends: seq<string>, servers: ConsistentHash.ConsistentHash,
                 serversMap: map<uint32, ServerState>, ghost keys: seq<uint32>, ghost states: seq<ServerState>,
                 len: int, ghost alive: seq<bool>)
      ensures this.hashFunc == hashFunc && this.backends == backends && this.servers == servers
      ensures this.serversMap == serversMap && this.keys == keys
      ensures this.states == states && this.len == len && this.alive == alive
    {
      this.hashFunc, this.backends, this.servers, this.serversMap := hashFunc, backends, servers, serversMap;
      this.keys, this.states, this.len, this.alive := keys, states, len, alive;
    }

    /** What Stats reports of Backend i; the counters come from the proxy client. */
    ghost function RowOf(i: nat): Row
      reads this
      requires i < |backends| == |alive| == |keys|
    {
      Row(backends[i], alive[i], keys[i])
    }

    ghost predicate Stored(rows: seq<Row>, left: set<uint32>, i: nat)
      reads this
      requires i < |backends| == |rows| == |alive| == |keys|
    {
      keys[i] in left || rows[i] == RowOf(i)
    }

    /** With distinct keys, the entry under Backend i's key is its own, at row i. */
    ghost predicate OwnEntry(i: nat)
      requires i < |keys|
    {
      keys[i] in serversMap && serversMap[keys[i]].statsIdx == i
    }

    lemma OwnEntries()
      requires Registered() && RowsRegistered() && Distinct(keys)
      ensures |serversMap| == |backends| && serversMap.Keys == Elements(keys)
      ensures forall i :: 0 <= i < |backends| ==> OwnEntry(i) && serversMap[keys[i]] == states[i]
    {
      DistinctKeysRegisterInOrder(keys);
      assert |serversMap| == |serversMap.Keys| == |Register(keys).Keys|;
      forall i | 0 <= i < |backends| ensures OwnEntry(i) && serversMap[keys[i]] == states[i] {
        assert IsRegistered(i);
        DistinctEntries(keys, i);
      }
    }

    lemma OneRowStored(rows: seq<Row>, left: set<uint32>, i: nat, r: nat)
      requires i < |backends| == |rows| == |alive| == |keys| && r < |rows|
      requires Distinct(keys) && Stored(rows, left, i)
      ensures Stored(rows[r := RowOf(r)], left - {keys[r]}, i)
    {
    }

    /** Row r has only been written if some entry that was visited names it. */
    ghost predicate Written(rows: seq<Row>, left: set<uint32>, r: nat)
      requires r < |rows|
    {
      rows[r] == NO_ROW || exists key :: key in serversMap && key !in left && serversMap[key].statsIdx == r
    }

    /** With distinct keys, the rows are those of all Backends that were visited. */
    ghost predicate RowsSoFar(rows: seq<Row>, left: set<uint32>)
      reads this
      requires |alive| == |backends| == |keys|
    {
      |rows| == |backends| && forall i :: 0 <= i < |backends| ==> Stored(rows, left, i)
    }

    lemma NoRowsYet(rows: seq<Row>)
      requires Registered() && RowsRegistered() && Distinct(keys) && |alive| == |backends| && |rows| == |serversMap|
      ensures RowsSoFar(rows, serversMap.Keys)
    {
      OwnEntries();
      forall i | 0 <= i < |backends| ensures Stored(rows, serversMap.Keys, i) {
        assert OwnEntry(i);
      }
    }

    lemma OneMoreRow(rows: seq<Row>, left: set<uint32>, key: uint32)
      requires Registered() && RowsRegistered() && Distinct(keys) && Valid()
      requires key in left && left <= serversMap.Keys && RowsSoFar(rows, left)
      ensures var p := serversMap[key];
              p.statsIdx < |rows| && RowsSoFar(rows[p.statsIdx := Row(p.node.addr, p.isHostAlive, key)], left - {key})
    {
      OwnEntries();
      assert key in Elements(keys);
      var r :| 0 <= r < |keys| && keys[r] == key;
      assert OwnEntry(r) && StateMatches(r) && serversMap[key] == states[r];
      var rows', left' := rows[r := RowOf(r)], left - {key};
      forall i | 0 <= i < |backends| ensures Stored(rows', left', i) {
        assert Stored(rows, left, i);
        OneRowStored(rows, left, i, r);
      }
    }

    ghost predicate PointsOutside(key: uint32)
      requires key in serversMap
    {
      serversMap[key].statsIdx >= |serversMap|
    }

    /** One row per Backend in config order, whatever order the map is iterated in, if the keys are
        distinct. Otherwise a row stays empty, or an entry points past the rows and the call panics. */
    method Stats() returns (rows: Option<seq<Row>>)
      requires Registered() && RowsRegistered() && Valid()
      ensures rows.None? <==> exists key :: key in serversMap && PointsOutside(key)
      ensures Distinct(keys) ==>
        && rows.Some? && |rows.value| == |backends|
        && forall i :: 0 <= i < |backends| ==>
             rows.value[i] == Row(backends[i], alive[i], MapKey(hashFunc, backends[i], i))
      ensures !Distinct(keys) && rows.Some? ==> NO_ROW in rows.value
    {
      var stats := seq(|serversMap|, i => NO_ROW);
      var left := serversMap.Keys;
      if Distinct(keys) {
        NoRowsYet(stats);
      }
      while left != {}
        invariant left <= serversMap.Keys && |stats| == |serversMap|
        invariant Distinct(keys) ==> RowsSoFar(stats, left)
        invariant forall r :: 0 <= r < |stats| ==> Written(stats, left, r)
        invariant forall key :: key in serversMap && key !in left ==> !PointsOutside(key)
        decreases left
      {
        var key :| key in left;
        var p := serversMap[key];
        if Distinct(keys) {
          OneMoreRow(stats, left, key);
        }
        if p.statsIdx >= |stats| {
          assert PointsOutside(key);
          return None;
        }
        ghost var statsBefore, leftBefore := stats, left;
        stats := stats[p.statsIdx := Row(p.node.addr, p.isHostAlive, key)];
        left := left - {key};
        forall r | 0 <= r < |stats| ensures Written(stats, left, r) {
          assert Written(statsBefore, leftBefore, r);
        }
      }
      if Distinct(keys) {
        AllRows(stats);
      } else {
        ghost var r := AnEmptyRow();
        assert Written(stats, {}, r);
      }
      rows := Some(stats);
    }

    lemma AllRows(rows: seq<Row>)
      requires Registered() && |alive| == |backends| && RowsSoFar(rows, {})
      ensures forall i :: 0 <= i < |backends| ==>
        rows[i] == Row(backends[i], alive[i], MapKey(hashFunc, backends[i], i))
    {
      forall i | 0 <= i < |backends|
        ensures rows[i] == Row(backends[i], alive[i], MapKey(hashFunc, backends[i], i))
      {
        assert Stored(rows, {}, i) && IsRegistered(i);
      }
    }

    lemma AnEmptyRow() returns (r: nat)
      requires RowsRegistered() && !Distinct(keys)
      ensures r < |serversMap| && forall key :: key in serversMap ==> serversMap[key].statsIdx != r
    {
      r := RepeatedKeyLeavesARowEmpty(keys);
      assert |serversMap| == |serversMap.Keys| == |Register(keys).Keys| == |Register(keys)|;
      forall key | key in serversMap ensures serversMap[key].statsIdx != r {
        assert key in Register(keys);
      }
    }

    /** The proxy client that serves a client with this address hash; None answers 503. Only Alive
        Backends serve; and if every Backend has a position to itself, one of them does. */
    method Get(hashCode: uint32) returns (proxy: Option<nat>)
      requires Registered() && Valid()
      ensures proxy.Some? ==> proxy.value < |alive| && alive[proxy.value]
      ensures NobodyCovered(ParamsOf(hashFunc, backends), backends) ==> (proxy.Some? <==> true in alive)
      ensures proxy == match Route(servers.ring.Value(), hashCode)
                       case Some(node) => Some(node.proxy)
                       case None => None
    {
      FitsServes(servers.params, backends, servers.ring.Value(), alive, hashCode);
      var node := servers.GetNode(hashCode);
      proxy := if node.None? then None else Some(node.value.proxy);
    }

    /** healthCheck for Backend i with the Probe result `status`. With a repeated key it acts on the
        entry of another Backend. */
    method HealthCheck(i: nat, status: bool)
      requires Registered() && Valid() && i < |backends|
      modifies this`len, this`alive, servers`ring, states`isHostAlive
      ensures Valid() && alive == old(alive)[EntryOf(keys, i) := status]
      ensures servers.ring.Value()
           == CheckedRing(servers.params, backends, old(servers.ring.Value()), old(alive), EntryOf(keys, i), status)
      ensures servers.ring == old(servers.ring) || fresh(servers.ring)
    {
      ghost var e := EntryOf(keys, i);
      CountUpdate(alive, e, status);
      FitsChecked(servers.params, backends, servers.ring.Value(), alive, e, status);
      assert IsRegistered(i) && StateMatches(e);
      var backendHash := MapKey(hashFunc, backends[i], i);
      if backendHash in serversMap {
        var proxyMap := serversMap[backendHash];
        if !status && proxyMap.isHostAlive {
          servers.RemoveNode(proxyMap.node);
          proxyMap.isHostAlive := false;
          len := len - 1;
          alive := alive[e := false];
        } else if status && !proxyMap.isHostAlive {
          servers.AddNode(proxyMap.node);
          proxyMap.isHostAlive := true;
          len := len + 1;
          alive := alive[e := true];
        }
      }
      forall j | 0 <= j < |states| ensures StateMatches(j) {
        assert old(StateMatches(j));
      }
    }

    lemma DistinctRound(c: Params, r: Ring, was: seq<bool>, probes: seq<bool>, n: nat)
      requires n <= |probes| == |was| == |backends| == |keys|
      ensures Distinct(keys) ==>
        && KeyedFlags(keys, was, probes, n) == probes[..n] + was[n..]
        && KeyedRing(c, backends, keys, r, was, probes, n) == RoundRing(c, backends, r, was, probes, n)
    {
      if Distinct(keys) {
        KeyedRoundWithDistinctKeys(c, backends, keys, r, was, probes, n);
      }
    }

    /** One tick of healthChecker. IsClosed reports a closed stop channel from the test before the
        check of Backend `stopAt` on; `checked` is how many Backends the round got to. */
    method HealthCheckRound(probes: seq<bool>, stopAt: nat) returns (checked: nat)
      requires Registered() && Valid() && |probes| == |backends|
      modifies this`len, this`alive, servers`ring, states`isHostAlive
      ensures Valid()
      ensures checked == if stopAt < |backends| then stopAt else |backends|
      ensures alive == KeyedFlags(keys, old(alive), probes, checked)
      ensures servers.ring.Value()
           == KeyedRing(servers.params, backends, keys, old(servers.ring.Value()), old(alive), probes, checked)
      ensures Distinct(keys) ==>
        && alive == probes[..checked] + old(alive)[checked..]
        && servers.ring.Value()
           == RoundRing(servers.params, backends, old(servers.ring.Value()), old(alive), probes, checked)
    {
      ghost var r, was := servers.ring.Value(), alive;
      checked := 0;
      while checked < |backends|
        invariant checked <= |backends| && checked <= stopAt
        invariant servers.ring == old(servers.ring) || fresh(servers.ring)
        invariant Valid()
        invariant alive == KeyedFlags(keys, was, probes, checked)
        invariant servers.ring.Value() == KeyedRing(servers.params, backends, keys, r, was, probes, checked)
      {
        if stopAt <= checked {
          break;
        }
        HealthCheck(checked, probes[checked]);
        checked := checked + 1;
      }
      DistinctRound(servers.params, r, was, probes, checked);
    }
  }

  ghost predicate Flag(states: seq<ServerState>, probes: seq<bool>, j: nat)
    requires j < |states| && j < |probes|
    reads states[j]
  {
    states[j].isHostAlive == probes[j]
  }

  /** The entry has its row number. */
  ghost predicate HasRow(seen: seq<uint32>, m: map<uint32, ServerState>, key: uint32) {
    key in m && key in Register(seen) && m[key].statsIdx == Register(seen)[key]
  }

  ghost predicate HasNode(backends: seq<string>, states: seq<ServerState>, j: nat)
    requires j < |states| && j < |backends|
  {
    states[j].node == NodeOf(backends, j)
  }

  ghost predicate NodesOf(backends: seq<string>, states: seq<ServerState>) {
    |states| <= |backends| && forall j :: 0 <= j < |states| ==> HasNode(backends, states, j)
  }

  lemma OneMoreNode(backends: seq<string>, states: seq<ServerState>, state: ServerState)
    requires NodesOf(backends, states) && |states| < |backends| && state.node == NodeOf(backends, |states|)
    ensures NodesOf(backends, states + [state])
  {
    forall j | 0 <= j <= |states| ensures HasNode(backends, states + [state], j) {
      assert j < |states| ==> HasNode(backends, states, j);
    }
  }

  ghost predicate HasRows(seen: seq<uint32>, m: map<uint32, ServerState>) {
    m.Keys == Register(seen).Keys && forall key :: key in m ==> HasRow(seen, m, key)
  }

  lemma OneMoreHasRow(seen: seq<uint32>, m: map<uint32, ServerState>, key: uint32, state: ServerState)
    requires HasRows(seen, m) && state.statsIdx == |m|
    ensures HasRows(seen + [key], m[key := state])
  {
    var seen', m' := seen + [key], m[key := state];
    assert seen'[..|seen|] == seen;
    assert |m| == |m.Keys| == |Register(seen).Keys| == |Register(seen)|;
    forall k | k in m' ensures HasRow(seen', m', k) {
      assert k != key ==> HasRow(seen, m, k);
    }
  }

  ghost predicate Entries(seen: seq<uint32>, m: map<uint32, ServerState>, states: seq<ServerState>) {
    Entered(seen, m, states) && HasRows(seen, m)
  }

  lemma OneMoreEntry(seen: seq<uint32>, m: map<uint32, ServerState>, states: seq<ServerState>, key: uint32,
                     state: ServerState)
    requires Entries(seen, m, states) && state.statsIdx == |m|
    ensures Entries(seen + [key], m[key := state], states + [state])
  {
    OneMoreEntered(seen, m, states, key, state);
    OneMoreHasRow(seen, m, key, state);
  }

  ghost predicate Flags(states: seq<ServerState>, probes: seq<bool>)
    reads states
  {
    |states| <= |probes| && forall j :: 0 <= j < |states| ==> Flag(states, probes, j)
  }

  lemma OneMoreFlag(states: seq<ServerState>, probes: seq<bool>, state: ServerState)
    requires |states| < |probes| && Flags(states, probes) && state.isHostAlive == probes[|states|]
    ensures Flags(states + [state], probes)
  {
    forall j | 0 <= j <= |states| ensures Flag(states + [state], probes, j) {
      assert j < |states| ==> Flag(states, probes, j);
    }
  }

  /** The map insertion at the end of the constructor's loop. */
  method Enter(ghost seen: seq<uint32>, hashFunc: string -> uint32, backends: seq<string>, probes: seq<bool>,
               m: map<uint32, ServerState>, ghost states: seq<ServerState>, node: Node)
      returns (m': map<uint32, ServerState>, ghost states': seq<ServerState>)
    requires |states| < |backends| == |probes| && node == NodeOf(backends, |states|)
    requires Entries(seen, m, states) && NodesOf(backends, states) && Flags(states, probes)
    ensures |states'| == |states| + 1 && NodesOf(backends, states') && Flags(states', probes)
    ensures Entries(seen + [MapKey(hashFunc, node.addr, node.id)], m', states')
  {
    var state := new ServerState(node, probes[node.id], |m|);
    var key := MapKey(hashFunc, node.addr, node.id);
    OneMoreEntry(seen, m, states, key, state);
    m' := m[key := state];
    states' := states + [state];
    OneMoreNode(backends, states, state);
    OneMoreFlag(states, probes, state);
  }

  /** The first half of the loop's body: Backend i joins the ring if it answered its Probe. */
  method AddIfAlive(servers: ConsistentHash.ConsistentHash, backends: seq<string>, probes: seq<bool>, i: nat, len: int)
      returns (len': int)
    requires i < |backends| == |probes| && len == Count(probes[..i])
    requires servers.Valid() && servers.ring.Value() == BootRing(servers.params, backends, probes, i)
    modifies servers`ring
    ensures len' == Count(probes[..i + 1]) && (fresh(servers.ring) || servers.ring == old(servers.ring))
    ensures servers.Valid() && servers.ring.Value() == BootRing(servers.params, backends, probes, i + 1)
  {
    assert probes[..i + 1][..i] == probes[..i];
    len' := len;
    if probes[i] {
      servers.AddNode(NodeOf(backends, i));
      len' := len + 1;
    }
  }

  /** The map, the flags and the Nodes after the first i Backends. */
  ghost predicate Loaded(keys: seq<uint32>, backends: seq<string>, probes: seq<bool>, i: nat,
                         m: map<uint32, ServerState>, states: seq<ServerState>)
    reads states
    requires i <= |keys|
  {
    |states| == i && Entries(keys[..i], m, states) && NodesOf(backends, states) && Flags(states, probes)
  }

  /** The second half: Backend i enters the map. */
  method EnterNext(ghost keys: seq<uint32>, hashFunc: string -> uint32, backends: seq<string>, probes: seq<bool>,
                   i: nat, m: map<uint32, ServerState>, ghost states: seq<ServerState>)
      returns (m': map<uint32, ServerState>, ghost states': seq<ServerState>)
    requires IsKeys(keys, hashFunc, backends) && i < |backends| == |probes|
    requires Loaded(keys, backends, probes, i, m, states)
    ensures Loaded(keys, backends, probes, i + 1, m', states')
  {
    SeenExtends(keys, hashFunc, backends, i);
    m', states' := Enter(keys[..i], hashFunc, backends, probes, m, states, NodeOf(backends, i));
  }

  /** The constructor's loop over the configured Backends. */
  method AddBackends(servers: ConsistentHash.ConsistentHash, ghost keys: seq<uint32>, backends: seq<string>,
                     hashFunc: string -> uint32, probes: seq<bool>)
      returns (serversMap: map<uint32, ServerState>, len: int, ghost states: seq<ServerState>)
    requires servers.Valid() && servers.ring.Value() == EMPTY
    requires |probes| == |backends| && IsKeys(keys, hashFunc, backends)
    modifies servers`ring
    ensures servers.Valid() && (fresh(servers.ring) || servers.ring == old(servers.ring))
    ensures servers.ring.Value() == BootRing(servers.params, backends, probes, |backends|)
    ensures len == Count(probes) && |states| == |backends|
    ensures Entries(keys, serversMap, states) && NodesOf(backends, states)
    ensures Flags(states, probes)
  {
    serversMap, len, states := map[], 0, [];
    for i := 0 to |backends|
      invariant servers.Valid() && (fresh(servers.ring) || servers.ring == old(servers.ring))
      invariant servers.ring.Value() == BootRing(servers.params, backends, probes, i)
      invariant len == Count(probes[..i])
      invariant Loaded(keys, backends, probes, i, serversMap, states)
    {
      len := AddIfAlive(servers, backends, probes, i, len);
      serversMap, states := EnterNext(keys, hashFunc, backends, probes, i, serversMap, states);
    }
    assert probes[..|backends|] == probes && keys[..|backends|] == keys;
  }

  lemma EntriesAreRegistered(h: IPHash)
    requires IsKeys(h.keys, h.hashFunc, h.backends) && Entries(h.keys, h.serversMap, h.states)
    requires NodesOf(h.backends, h.states) && h.servers.params == ParamsOf(h.hashFunc, h.backends)
    ensures h.Registered() && h.RowsRegistered()
  {
    forall i | 0 <= i < |h.backends| ensures h.IsRegistered(i) {
      assert IsKey(h.keys, h.hashFunc, h.backends, i) && HasNode(h.backends, h.states, i);
      FindsItsEntry(h.keys, h.serversMap, h.states, i);
    }
    forall key | key in h.serversMap ensures h.serversMap[key].statsIdx == Register(h.keys)[key] {
      assert HasRow(h.keys, h.serversMap, key);
    }
  }

  /** NewIPHash: null when no Backend answers its first Probe. Map keys may repeat. */
  method NewIPHash(backends: seq<string>, hashFunc: string -> uint32, probes: seq<bool>) returns (h: IPHash?)
    requires |probes| == |backends|
    ensures h == null <==> true !in probes
    ensures h != null ==> fresh(h) && h.hashFunc == hashFunc && h.backends == backends
    ensures h != null ==> h.Registered() && h.RowsRegistered() && h.Valid() && h.alive == probes
    ensures h != null ==> h.servers.ring.Value() == BootRing(h.servers.params, backends, probes, |backends|)
    ensures h != null && NothingShared(ParamsOf(hashFunc, backends), backends) ==>
      forall i :: 0 <= i < |backends| && probes[i] ==> OwnsAllItsKeys(hashFunc, backends, h.servers.ring.Value(), i)
  {
    var servers := new ConsistentHash.ConsistentHash(|backends| * |backends|, hashFunc);
    ghost var keys := MapKeys(hashFunc, backends);
    KeysOf(hashFunc, backends);
    var serversMap, len, states := AddBackends(servers, keys, backends, hashFunc, probes);
    CountIsSize(probes);
    if len <= 0 {
      return null;
    }
    FitsBoot(servers.params, backends, probes, |backends|);
    assert probes[..|backends|] == probes;
    if NothingShared(ParamsOf(hashFunc, backends), backends) {
      AliveOwnTheirKeys(hashFunc, backends, servers.ring.Value(), probes);
    }
    h := new IPHash(hashFunc, backends, servers, serversMap, keys, states, len, probes);
    EntriesAreRegistered(h);
    forall i | 0 <= i < |backends| ensures h.StateMatches(i) {
      assert Flag(states, probes, i) && HasNode(backends, states, i);
    }
  }
}
