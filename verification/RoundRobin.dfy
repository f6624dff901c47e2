/** The rotation balancers: w-round-robin, and round-robin as its case of weight 1 without the
    shuffles. One pointer shows the current slice, one counter hands out tickets. */
module RoundRobin {
  import opened Rotation
  import opened TicketCounting
  import opened Options
  import opened BackendKeys
  import HashRing

  class ServerState {
    const proxy: nat  // the Backend's place in the configuration identifies its proxy client
    const weight: nat
    var isHostAlive: bool

    constructor (proxy: nat, weight: nat, isHostAlive: bool)
      ensures this.proxy == proxy && this.weight == weight && this.isHostAlive == isHostAlive
    {
      this.proxy, this.weight, this.isHostAlive := proxy, weight, isHostAlive;
    }
  }

  class RoundRobin {
    const shuffles: bool
    const hashFunc: string -> HashRing.uint32
    const backends: seq<string>
    const serversMap: map<HashRing.uint32, ServerState>
    var servers: array<nat>
    var i: nat
    ghost const keys: seq<HashRing.uint32>
    ghost const states: seq<ServerState>  // in config order, those included that the map has lost
    ghost const weights: seq<nat>
    ghost var alive: seq<bool>

    ghost predicate StateMatches(k: nat)
      reads this`alive, states
      requires k < |states| == |weights| == |alive|
    {
      states[k].proxy == k && states[k].weight == weights[k] && states[k].isHostAlive == alive[k]
    }

    ghost predicate Valid()
      reads this, servers, states
    {
      && i < TICKETS
      && |backends| == |states| == |weights| == |alive|
      && IsKeys(keys, hashFunc, backends) && Entered(keys, serversMap, states)
      && (forall k :: 0 <= k < |states| ==> StateMatches(k))
      && InRotation(servers[..], weights, alive)
    }

    constructor (shuffles: bool, hashFunc: string -> HashRing.uint32, backends: seq<string>,
                 serversMap: map<HashRing.uint32, ServerState>, servers: array<nat>, ghost keys: seq<HashRing.uint32>,
                 ghost states: seq<ServerState>, ghost weights: seq<nat>, ghost alive: seq<bool>)
      ensures this.shuffles == shuffles && this.hashFunc == hashFunc && this.backends == backends
      ensures this.serversMap == serversMap && this.servers == servers && this.keys == keys && this.states == states
      ensures this.weights == weights && this.alive == alive && i == 0
    {
      this.shuffles, this.hashFunc, this.backends, this.serversMap := shuffles, hashFunc, backends, serversMap;
      this.servers, this.i, this.keys, this.states := servers, 0, keys, states;
      this.weights, this.alive := weights, alive;
    }

    /** next: one ticket, one slot of the slice that the pointer showed; None answers 503. Only the
        counter changes. */
    method Next() returns (p: Option<nat>)
      requires Valid()
      modifies this`i
      ensures Valid()
      ensures servers.Length == 0 ==> p == None && i == old(i)
      ensures servers.Length > 0 ==> i == (old(i) + 1) % TICKETS && p == Some(servers[i % servers.Length])
      ensures p.Some? ==> p.value < |alive| && alive[p.value]
    {
      var snapshot := servers;
      if snapshot.Length == 0 {
        return None;
      }
      i := (i + 1) % TICKETS;
      p := Some(snapshot[i % snapshot.Length]);
      assert p.value in multiset(snapshot[..]);
      assert Holds(snapshot[..], weights, alive, p.value);
    }

    ghost predicate IsState(proxyMap: ServerState) {
      proxyMap.proxy < |states| && states[proxyMap.proxy] == proxyMap
    }

    method PublishWithout(proxyMap: ServerState)
      requires Valid() && IsState(proxyMap) && alive[proxyMap.proxy]
      modifies this`servers, this`alive, proxyMap
      ensures Valid() && alive == old(alive)[proxyMap.proxy := false]
      ensures fresh(servers) && servers[..] == Without(old(servers[..]), proxyMap.proxy)
    {
      ghost var e := proxyMap.proxy;
      LeaveKeepsRotation(servers[..], weights, alive, e);
      var temp := RemoveByValue(servers, proxyMap.proxy);
      servers := Slice(temp);
      proxyMap.isHostAlive := false;
      alive := alive[e := false];
      forall j | 0 <= j < |states| ensures StateMatches(j) {
        assert old(StateMatches(j));
      }
    }

    method PublishRejoined(proxyMap: ServerState)
      requires Valid() && IsState(proxyMap) && !alive[proxyMap.proxy]
      modifies this`servers, this`alive, proxyMap
      ensures Valid() && alive == old(alive)[proxyMap.proxy := true] && fresh(servers)
      ensures var copies := Copies(proxyMap.proxy, proxyMap.weight);
              && multiset(servers[..]) == multiset(old(servers[..]) + copies)
              && (!shuffles ==> servers[..] == old(servers[..]) + copies)
    {
      ghost var e := proxyMap.proxy;
      assert StateMatches(e);
      RejoinKeepsRotation(servers[..], weights, alive, e);
      var newServers := RejoinSlice(servers, proxyMap.proxy, proxyMap.weight, shuffles);
      PermutationKeepsRotation(servers[..] + Copies(e, weights[e]), newServers[..], weights, alive[e := true]);
      servers := newServers;
      proxyMap.isHostAlive := true;
      alive := alive[e := true];
      forall j | 0 <= j < |states| ensures StateMatches(j) {
        assert old(StateMatches(j));
      }
    }

    /** healthCheck for Backend k with the Probe result `status`; with a repeated key it acts on the
        entry of another Backend. The slice that readers may hold is not in the frame: it keeps its
        contents, and the pointer moves to a fresh one. */
    method HealthCheck(k: nat, status: bool)
      requires Valid() && k < |backends|
      modifies this`servers, this`alive, states
      ensures Valid() && EntryOf(keys, k) < |old(alive)| && alive == old(alive)[EntryOf(keys, k) := status]
      ensures if status == old(alive)[EntryOf(keys, k)] then servers == old(servers) else fresh(servers)
      ensures !status && old(alive)[EntryOf(keys, k)] ==> servers[..] == Without(old(servers[..]), EntryOf(keys, k))
      ensures status && !old(alive)[EntryOf(keys, k)] ==>
        var copies := Copies(EntryOf(keys, k), weights[EntryOf(keys, k)]);
        && multiset(servers[..]) == multiset(old(servers[..]) + copies)
        && (!shuffles ==> servers[..] == old(servers[..]) + copies)
    {
      assert IsKey(keys, hashFunc, backends, k) && StateMatches(EntryOf(keys, k));
      FindsItsEntry(keys, serversMap, states, k);
      var backendHash := MapKey(hashFunc, backends[k], k);
      if backendHash in serversMap {
        var proxyMap := serversMap[backendHash];
        if !status && proxyMap.isHostAlive {
          PublishWithout(proxyMap);
        } else if status && !proxyMap.isHostAlive {
          PublishRejoined(proxyMap);
        }
      }
    }
  }

  ghost predicate StateOf(states: seq<ServerState>, weights: seq<nat>, probes: seq<bool>, k: nat)
    requires k < |states| && k < |weights| == |probes|
    reads states[k]
  {
    states[k].proxy == k && states[k].weight == weights[k] && states[k].isHostAlive == probes[k]
  }

  lemma EmptyRotation(s: seq<nat>, weights: seq<nat>, alive: seq<bool>)
    requires InRotation(s, weights, alive)
    ensures s == [] <==> forall k :: 0 <= k < |weights| && alive[k] ==> weights[k] == 0
  {
    forall k | 0 <= k < |weights| && s == [] && alive[k] ensures weights[k] == 0 {
      assert Holds(s, weights, alive, k);
    }
    if s != [] {
      assert s[0] in multiset(s) && Holds(s, weights, alive, s[0]);
    }
  }

  /** What the constructors' loop has built from the first k Backends. */
  ghost predicate Loaded(keys: seq<HashRing.uint32>, weights: seq<nat>, probes: seq<bool>, k: nat, servers: seq<nat>,
                         m: map<HashRing.uint32, ServerState>, states: seq<ServerState>)
    reads states
    requires k <= |keys| == |weights| == |probes|
  {
    && |states| == k && InRotation(servers, weights[..k], probes[..k]) && Entered(keys[..k], m, states)
    && forall j :: 0 <= j < k ==> StateOf(states, weights, probes, j)
  }

  /** The body of the constructors' loop: Backend k joins the slice if it answered, and enters the map. */
  method AddBackend(ghost keys: seq<HashRing.uint32>, hashFunc: string -> HashRing.uint32, backends: seq<string>,
                    weights: seq<nat>, probes: seq<bool>, k: nat, servers: seq<nat>,
                    m: map<HashRing.uint32, ServerState>, ghost states: seq<ServerState>)
      returns (servers': seq<nat>, m': map<HashRing.uint32, ServerState>, ghost states': seq<ServerState>)
    requires IsKeys(keys, hashFunc, backends) && k < |backends| == |weights| == |probes|
    requires Loaded(keys, weights, probes, k, servers, m, states)
    ensures Loaded(keys, weights, probes, k + 1, servers', m', states')
  {
    var state := new ServerState(k, weights[k], probes[k]);
    var key := MapKey(hashFunc, backends[k], k);
    servers' := servers + if probes[k] then Copies(k, weights[k]) else [];
    m' := m[key := state];
    states' := states + [state];
    AppendKeepsRotation(servers, weights, probes[..k], probes[k]);
    assert probes[..k + 1] == probes[..k] + [probes[k]];
    OneMoreEntered(keys[..k], m, states, key, state);
    SeenExtends(keys, hashFunc, backends, k);
    forall j | 0 <= j <= k ensures StateOf(states', weights, probes, j) {
      assert j < k ==> StateOf(states, weights, probes, j);
    }
  }

  /** The constructors: null when no Backend answers its first Probe. Map keys may repeat. */
  method NewRoundRobin(shuffles: bool, hashFunc: string -> HashRing.uint32, backends: seq<string>, weights: seq<nat>,
                       probes: seq<bool>)
      returns (r: RoundRobin?)
    requires |backends| == |weights| == |probes|
    ensures r == null <==> forall k :: 0 <= k < |weights| && probes[k] ==> weights[k] == 0
    ensures r != null ==> fresh(r) && fresh(r.servers) && r.Valid()
    ensures r != null ==> r.hashFunc == hashFunc && r.backends == backends
    ensures r != null ==> r.weights == weights && r.alive == probes && r.i == 0
  {
    ghost var keys := MapKeys(hashFunc, backends);
    KeysOf(hashFunc, backends);
    var servers: seq<nat>, serversMap: map<HashRing.uint32, ServerState> := [], map[];
    ghost var states: seq<ServerState> := [];
    for k := 0 to |weights|
      invariant Loaded(keys, weights, probes, k, servers, serversMap, states)
    {
      servers, serversMap, states :=
        AddBackend(keys, hashFunc, backends, weights, probes, k, servers, serversMap, states);
    }
    assert weights[..|weights|] == weights && probes[..|probes|] == probes && keys[..|keys|] == keys;
    EmptyRotation(servers, weights, probes);
    if |servers| == 0 {
      return null;
    }
    var slice := Slice(servers);
    if shuffles {
      Shuffle(slice);
    }
    PermutationKeepsRotation(servers, slice[..], weights, probes);
    r := new RoundRobin(shuffles, hashFunc, backends, serversMap, slice, keys, states, weights, probes);
    forall k | 0 <= k < |states| ensures r.StateMatches(k) {
      assert StateOf(states, weights, probes, k);
    }
  }
}
