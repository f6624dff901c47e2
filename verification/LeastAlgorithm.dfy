/** The least-connection and least-response-time balancers. */
module LeastAlgorithm {
  import opened Options
  import opened Rotation
  import opened TicketCounting
  import opened BackendKeys
  import HashRing

  /** The slot d places after `offset`, walking round a slice of n slots. */
  function Around(n: nat, offset: nat, d: nat): nat
    requires n > 0
  {
    (offset + d) % n
  }

  ghost predicate IsLeast(load: seq<int>, j: nat)
    requires j < |load|
  {
    forall k :: 0 <= k < |load| ==> load[j] <= load[k]
  }

  ghost predicate NotBefore(load: seq<int>, offset: nat, d: nat, e: nat)
    requires load != []
  {
    var n := |load|;
    && (e < d ==> load[Around(n, offset, d)] < load[Around(n, offset, e)])
    && (d <= e ==> load[Around(n, offset, d)] <= load[Around(n, offset, e)])
  }

  /** Of the first m slots from `offset` on, the one at distance d is the first with the least load. */
  ghost predicate FirstLeast(load: seq<int>, offset: nat, m: nat, d: nat)
    requires load != []
  {
    d < m && forall e :: 0 <= e < m ==> NotBefore(load, offset, d, e)
  }

  lemma FirstLeastUnique(load: seq<int>, offset: nat, m: nat, d: nat, d': nat)
    requires load != [] && FirstLeast(load, offset, m, d) && FirstLeast(load, offset, m, d')
    ensures d == d'
  {
    assert NotBefore(load, offset, d, d') && NotBefore(load, offset, d', d);
  }

  lemma FirstLeastExtend(load: seq<int>, offset: nat, m: nat, d: nat)
    requires load != [] && FirstLeast(load, offset, m, d)
    ensures FirstLeast(load, offset, m + 1,
                       if load[Around(|load|, offset, m)] < load[Around(|load|, offset, d)] then m else d)
  {
    var d' := if load[Around(|load|, offset, m)] < load[Around(|load|, offset, d)] then m else d;
    forall e | 0 <= e < m + 1 ensures NotBefore(load, offset, d', e) {
      assert e < m ==> NotBefore(load, offset, d, e);
    }
  }

  /** How far from `offset` the scan of leastConnectionNext ends up. */
  ghost function Scan(load: seq<int>, offset: nat, m: nat): (d: nat)
    requires load != [] && m > 0
    ensures FirstLeast(load, offset, m, d)
  {
    if m == 1 then
      assert NotBefore(load, offset, 0, 0);
      0
    else
      FirstLeastExtend(load, offset, m - 1, Scan(load, offset, m - 1));
      var d := Scan(load, offset, m - 1);
      if load[Around(|load|, offset, m - 1)] < load[Around(|load|, offset, d)] then m - 1 else d
  }

  ghost function Choice(load: seq<int>, offset: nat): nat
    requires load != []
  {
    Around(|load|, offset, Scan(load, offset, |load|))
  }

  /** The loop of leastConnectionNext; `slot` is where proxyClient sits in the slice. */
  method ScanLoads(pending: seq<int>, offset: nat) returns (slot: nat)
    requires offset < |pending|
    ensures slot == Choice(pending, offset) < |pending|
  {
    var n := |pending|;
    slot := offset;
    var leastPending := pending[slot];
    ghost var d := 0;
    assert Around(n, offset, 0) == offset by {
      DivisionIsUnique(offset, n, 0, offset);
    }
    assert NotBefore(pending, offset, 0, 0);
    for i := 1 to n
      invariant slot == Around(n, offset, d) && leastPending == pending[slot]
      invariant FirstLeast(pending, offset, i, d)
    {
      FirstLeastExtend(pending, offset, i, d);
      var server := Around(n, offset, i);
      if pending[server] < leastPending {
        slot, leastPending, d := server, pending[server], i;
      }
    }
    FirstLeastUnique(pending, offset, n, d, Scan(pending, offset, n));
  }

  class ServerState {
    const proxy: nat  // the Backend's place in the configuration identifies its proxy client
    var isHostAlive: bool

    constructor (proxy: nat, isHostAlive: bool)
      ensures this.proxy == proxy && this.isHostAlive == isHostAlive
    {
      this.proxy, this.isHostAlive := proxy, isHostAlive;
    }
  }

  function Ones(n: nat): seq<nat> {
    seq(n, _ => 1)
  }

  class LeastAlgorithm {
    const hashFunc: string -> HashRing.uint32
    const backends: seq<string>
    const serversMap: map<HashRing.uint32, ServerState>
    var servers: array<nat>
    var scores: array<real>  // RecentResponseTime of each Backend; 0 is unmeasured
    var cursor: nat
    ghost const keys: seq<HashRing.uint32>
    ghost const states: seq<ServerState>  // in config order, those included that the map has lost
    ghost var alive: seq<bool>

    ghost predicate StateMatches(k: nat)
      reads this`alive, states
      requires k < |states| == |alive|
    {
      states[k].proxy == k && states[k].isHostAlive == alive[k]
    }

    ghost predicate Valid()
      reads this, servers, states
    {
      && cursor < TICKETS && |backends| == |states| == |alive| == scores.Length
      && IsKeys(keys, hashFunc, backends) && Entered(keys, serversMap, states)
      && (forall k :: 0 <= k < |states| ==> StateMatches(k))
      && InRotation(servers[..], Ones(|alive|), alive)
    }

    constructor (hashFunc: string -> HashRing.uint32, backends: seq<string>,
                 serversMap: map<HashRing.uint32, ServerState>, servers: array<nat>, scores: array<real>,
                 ghost keys: seq<HashRing.uint32>, ghost states: seq<ServerState>, ghost alive: seq<bool>)
      ensures this.hashFunc == hashFunc && this.backends == backends && this.serversMap == serversMap
      ensures this.keys == keys && this.states == states && this.servers == servers && this.scores == scores
      ensures this.alive == alive && cursor == 0
    {
      this.hashFunc, this.backends, this.serversMap, this.keys := hashFunc, backends, serversMap, keys;
      this.states, this.servers, this.scores, this.cursor, this.alive := states, servers, scores, 0, alive;
    }

    /** leastConnectionNext. `pending[j]` is what the proxy in slot j answers when it is asked. */
    method LeastConnectionNext(pending: seq<int>) returns (p: Option<nat>)
      requires Valid() && |pending| == servers.Length
      modifies this`cursor
      ensures Valid()
      ensures servers.Length == 0 ==> p == None && cursor == old(cursor)
      ensures servers.Length > 0 ==> cursor == (old(cursor) + 1) % TICKETS
      ensures servers.Length > 0 ==> p == Some(servers[Choice(pending, cursor % servers.Length)])
    {
      var n := servers.Length;
      if n == 0 {
        return None;
      }
      cursor := (cursor + 1) % TICKETS;
      var slot := ScanLoads(pending, cursor % n);
      p := Some(servers[slot]);
    }

    /** leastResponseTimeNext. The score of slot 0 is read twice: `first` is the reading before the
        loop, `reads[j]` the reading of slot j inside it. */
    method LeastResponseTimeNext(first: real, scan: seq<real>) returns (p: Option<nat>)
      requires Valid() && |scan| == servers.Length && first >= 0.0
      requires forall j :: 0 <= j < |scan| ==> scan[j] >= 0.0
      ensures p.None? <==> servers.Length == 0
      ensures p.Some? ==> exists j :: 0 <= j < |scan| && p.value == servers[j] && WinsScan(first, scan, j)
    {
      if servers.Length == 0 {
        return None;
      }
      var proxyClient, leastResTime := servers[0], first;
      ghost var best := 0;
      for j := 0 to servers.Length
        invariant 0 <= best < servers.Length && proxyClient == servers[best]
        invariant forall k :: 0 <= k < j ==> scan[k] > 0.0 && leastResTime <= scan[k]
        invariant leastResTime <= first && (leastResTime == first ==> best == 0)
        invariant leastResTime < first ==> best < j && leastResTime == scan[best]
        invariant leastResTime < first ==> forall k :: 0 <= k < best ==> scan[best] < scan[k]
      {
        if scan[j] == 0.0 {
          assert WinsScan(first, scan, j);
          return Some(servers[j]);
        }
        if scan[j] < leastResTime {
          proxyClient, leastResTime := servers[j], scan[j];
          best := j;
        }
      }
      assert WinsScan(first, scan, best);
      p := Some(proxyClient);
    }

    ghost predicate IsState(proxyMap: ServerState) {
      proxyMap.proxy < |states| && states[proxyMap.proxy] == proxyMap
    }

    /** The second half of a Rejoin, from the slice's store on. */
    method PublishRejoined(proxyMap: ServerState)
      requires Valid() && IsState(proxyMap) && !alive[proxyMap.proxy]
      modifies this`servers, this`alive, proxyMap
      ensures Valid() && alive == old(alive)[proxyMap.proxy := true]
      ensures fresh(servers) && servers[..] == old(servers[..]) + [proxyMap.proxy]
    {
      ghost var e := proxyMap.proxy;
      RejoinKeepsRotation(servers[..], Ones(|alive|), alive, e);
      assert Copies(e, 1) == [e];
      servers := Slice(servers[..] + [proxyMap.proxy]);
      proxyMap.isHostAlive := true;
      alive := alive[e := true];
      forall j | 0 <= j < |states| ensures StateMatches(j) {
        assert old(StateMatches(j));
      }
    }

    method PublishWithout(proxyMap: ServerState)
      requires Valid() && IsState(proxyMap) && alive[proxyMap.proxy]
      modifies this`servers, this`alive, proxyMap
      ensures Valid() && alive == old(alive)[proxyMap.proxy := false]
      ensures fresh(servers) && servers[..] == Without(old(servers[..]), proxyMap.proxy)
    {
      ghost var e := proxyMap.proxy;
      LeaveKeepsRotation(servers[..], Ones(|alive|), alive, e);
      var temp := RemoveByValue(servers, proxyMap.proxy);
      servers := Slice(temp);
      proxyMap.isHostAlive := false;
      alive := alive[e := false];
      forall j | 0 <= j < |states| ensures StateMatches(j) {
        assert old(StateMatches(j));
      }
    }

    /** healthCheck for Backend k; with a repeated key it acts on the entry of another Backend. A
        request may store a score between a Rejoin's reset and its publication: that is `meanwhile`. */
    method HealthCheck(k: nat, status: bool, meanwhile: Option<real>)
      requires Valid() && k < |backends|
      modifies this`servers, this`alive, states, scores
      ensures Valid() && EntryOf(keys, k) < |old(alive)| && alive == old(alive)[EntryOf(keys, k) := status]
      ensures if status == old(alive)[EntryOf(keys, k)] then servers == old(servers) else fresh(servers)
      ensures !status && old(alive)[EntryOf(keys, k)] ==> servers[..] == Without(old(servers[..]), EntryOf(keys, k))
      ensures status && !old(alive)[EntryOf(keys, k)] ==> servers[..] == old(servers[..]) + [EntryOf(keys, k)]
      ensures scores[..] == if status && !old(alive)[EntryOf(keys, k)]
                            then old(scores[..])[EntryOf(keys, k) := if meanwhile.Some? then meanwhile.value else 0.0]
                            else old(scores[..])
    {
      ghost var e := EntryOf(keys, k);
      assert IsKey(keys, hashFunc, backends, k) && StateMatches(e);
      FindsItsEntry(keys, serversMap, states, k);
      var backendHash := MapKey(hashFunc, backends[k], k);
      if backendHash in serversMap {
        var proxyMap := serversMap[backendHash];
        if !status && proxyMap.isHostAlive {
          PublishWithout(proxyMap);
        } else if status && !proxyMap.isHostAlive {
          scores[proxyMap.proxy] := 0.0;
          if meanwhile.Some? {
            scores[proxyMap.proxy] := meanwhile.value;
          }
          PublishRejoined(proxyMap);
        }
      }
    }
  }

  ghost predicate StateOf(states: seq<ServerState>, probes: seq<bool>, k: nat)
    requires k < |states| && k < |probes|
    reads states[k]
  {
    states[k].proxy == k && states[k].isHostAlive == probes[k]
  }

  lemma EmptyPool(s: seq<nat>, alive: seq<bool>)
    requires InRotation(s, Ones(|alive|), alive)
    ensures s == [] <==> true !in alive
  {
    forall k | 0 <= k < |alive| && alive[k] ensures s != [] {
      assert Holds(s, Ones(|alive|), alive, k);
    }
    if s != [] {
      assert s[0] in multiset(s) && Holds(s, Ones(|alive|), alive, s[0]);
    }
  }

  /** The map insertion at the end of the constructor's loop. */
  method EnterState(ghost seen: seq<HashRing.uint32>, hashFunc: string -> HashRing.uint32, backends: seq<string>,
                    probes: seq<bool>, k: nat, m: map<HashRing.uint32, ServerState>, ghost states: seq<ServerState>)
      returns (m': map<HashRing.uint32, ServerState>, ghost states': seq<ServerState>)
    requires |states| == k < |backends| == |probes| && Entered(seen, m, states)
    requires forall j :: 0 <= j < k ==> StateOf(states, probes, j)
    ensures |states'| == k + 1
    ensures Entered(seen + [MapKey(hashFunc, backends[k], k)], m', states')
    ensures forall j :: 0 <= j <= k ==> StateOf(states', probes, j)
  {
    var state := new ServerState(k, probes[k]);
    var key := MapKey(hashFunc, backends[k], k);
    OneMoreEntered(seen, m, states, key, state);
    m' := m[key := state];
    states' := states + [state];
    forall j | 0 <= j <= k ensures StateOf(states', probes, j) {
      assert j < k ==> StateOf(states, probes, j);
    }
  }

  /** The constructor: null when no Backend answers its first Probe, or when the balancer type is
      neither of the two. Map keys may repeat. */
  method NewLeastAlgorithm(kind: string, hashFunc: string -> HashRing.uint32, backends: seq<string>, probes: seq<bool>)
      returns (l: LeastAlgorithm?)
    requires |backends| == |probes|
    ensures l == null <==> true !in probes || kind !in {"least-connection", "least-response-time"}
    ensures l != null ==> fresh(l) && fresh(l.servers) && l.Valid() && l.alive == probes && l.cursor == 0
    ensures l != null ==> l.hashFunc == hashFunc && l.backends == backends
    ensures l != null ==> forall k :: 0 <= k < l.scores.Length ==> l.scores[k] == 0.0
  {
    ghost var keys := MapKeys(hashFunc, backends);
    KeysOf(hashFunc, backends);
    var servers: seq<nat>, serversMap: map<HashRing.uint32, ServerState> := [], map[];
    ghost var states: seq<ServerState> := [];
    for k := 0 to |probes|
      invariant |states| == k && InRotation(servers, Ones(k), probes[..k])
      invariant Entered(keys[..k], serversMap, states)
      invariant forall j :: 0 <= j < k ==> StateOf(states, probes, j)
    {
      assert Ones(k + 1)[..k] == Ones(k) && Ones(k + 1)[..k + 1] == Ones(k + 1) && Copies(k, 1) == [k];
      AppendKeepsRotation(servers, Ones(k + 1), probes[..k], probes[k]);
      assert probes[..k + 1] == probes[..k] + [probes[k]];
      servers := servers + if probes[k] then [k] else [];
      serversMap, states := EnterState(keys[..k], hashFunc, backends, probes, k, serversMap, states);
      SeenExtends(keys, hashFunc, backends, k);
    }
    assert probes[..|probes|] == probes && keys[..|keys|] == keys;
    EmptyPool(servers, probes);
    if |servers| == 0 || kind !in {"least-connection", "least-response-time"} {
      return null;
    }
    var slice := Slice(servers);
    var scores := new real[|probes|](_ => 0.0);
    l := new LeastAlgorithm(hashFunc, backends, serversMap, slice, scores, keys, states, probes);
    forall k | 0 <= k < |states| ensures l.StateMatches(k) {
      assert StateOf(states, probes, k);
    }
  }

  /** Slot j wins the scan: it is the first unmeasured one; or none is unmeasured, and either no
      reading undercuts the first reading of slot 0 and j is 0, or j is the first slot with the
      least reading. */
  ghost predicate WinsScan(first: real, scan: seq<real>, j: nat)
    requires j < |scan|
  {
    || (scan[j] == 0.0 && forall k :: 0 <= k < j ==> scan[k] > 0.0)
    || ((forall k :: 0 <= k < |scan| ==> scan[k] > 0.0) && j == 0 && forall k :: 0 <= k < |scan| ==> first <= scan[k])
    || ((forall k :: 0 <= k < |scan| ==> scan[k] > 0.0) && scan[j] < first
        && (forall k :: 0 <= k < |scan| ==> scan[j] <= scan[k]) && (forall k :: 0 <= k < j ==> scan[j] < scan[k]))
  }

  lemma WinnerIsUnique(first: real, scan: seq<real>, i: nat, j: nat)
    requires i < j < |scan| && WinsScan(first, scan, i)
    ensures !WinsScan(first, scan, j)
  {
  }

  /** The first unmeasured Backend wins, whatever the other scores are, and nobody else. */
  lemma UnmeasuredWins(first: real, scan: seq<real>, j: nat, i: nat)
    requires i < |scan| && j < |scan| && scan[j] == 0.0 && first >= 0.0
    requires forall k :: 0 <= k < |scan| ==> scan[k] >= 0.0
    requires forall k :: 0 <= k < j ==> scan[k] > 0.0
    ensures WinsScan(first, scan, i) <==> i == j
  {
    if i > j {
      WinnerIsUnique(first, scan, j, i);
    }
  }

  /** Failover: while scores stand still during the scan, a Backend is not chosen when any other one
      in rotation scores below it. */
  lemma SlowerBackendLoses(scan: seq<real>, b: nat, peer: nat)
    requires b < |scan| && peer < |scan| && 0.0 <= scan[peer] < scan[b]
    ensures !WinsScan(scan[0], scan, b)
  {
  }

  /** Scores that move can break this, because the score of slot 0 is read twice: a Backend wins over a
      peer that scores below it exactly when it is in slot 0, no Backend is unmeasured, and no reading
      of the scan undercuts its first one. */
  lemma SlowerBackendWinsIff(first: real, scan: seq<real>, b: nat, peer: nat)
    requires b < |scan| && peer < |scan| && 0.0 <= scan[peer] < scan[b]
    ensures WinsScan(first, scan, b) <==> b == 0 && forall k :: 0 <= k < |scan| ==> 0.0 < scan[k] && first <= scan[k]
  {
    if b == 0 && forall k :: 0 <= k < |scan| ==> 0.0 < scan[k] && first <= scan[k] {
      assert WinsScan(first, scan, 0);
    }
  }

  /** A failure stored between the two readings: slot 0 read 5 microseconds first and the penalty then,
      and is still chosen over a peer at 100 microseconds. */
  lemma SlowerBackendCanWin()
    ensures WinsScan(5.0, [10_000_000.0, 100.0], 0)
  {
  }

  // ---------- the share law of least-connection ----------

  lemma AroundAgain(n: nat, v: nat, d: nat)
    requires n > 0
    ensures Around(n, v % n, d) == (v + d) % n
  {
    var w := v % n + d;
    assert v + d == (v / n + w / n) * n + w % n by {
      DivMod(v, n);
      DivMod(w, n);
      WindowSum(v / n, w / n, n);
    }
    DivisionIsUnique(v + d, n, v / n + w / n, w % n);
  }

  /** The slot d places before j. */
  function Back(n: nat, j: nat, d: nat): nat
    requires n > 0 && d <= n
  {
    (j + (n - d)) % n
  }

  /** The cyclic distance from the previous least loaded slot to j. */
  ghost predicate IsGap(load: seq<int>, j: nat, g: nat)
    requires j < |load|
  {
    && 1 <= g <= |load| && IsLeast(load, Back(|load|, j, g))
    && forall d :: 1 <= d < g ==> !IsLeast(load, Back(|load|, j, d))
  }

  lemma BackAll(n: nat, j: nat)
    requires j < n
    ensures Back(n, j, n) == j
  {
    DivisionIsUnique(j, n, 0, j);
  }

  lemma GapExists(load: seq<int>, j: nat) returns (g: nat)
    requires j < |load| && IsLeast(load, j)
    ensures IsGap(load, j, g)
  {
    BackAll(|load|, j);
    g := 1;
    while !IsLeast(load, Back(|load|, j, g))
      invariant 1 <= g <= |load|
      invariant forall d :: 1 <= d < g ==> !IsLeast(load, Back(|load|, j, d))
      decreases |load| - g
    {
      g := g + 1;
    }
  }

  ghost function Choices(load: seq<int>): seq<nat>
    requires load != []
  {
    seq(|load|, o requires 0 <= o => Choice(load, o))
  }

  /** A ticket t places before j, with 0 <= t < n, looks at j as its slot at distance t. */
  lemma TicketBefore(n: nat, j: nat, t: nat, e: nat)
    requires j < n && t < n && e <= t
    ensures Around(n, (j + (n - t)) % n, e) == Back(n, j, t - e)
  {
    AroundAgain(n, j + (n - t), e);
  }

  lemma BackZero(n: nat, j: nat)
    requires j < n
    ensures Back(n, j, 0) == j
  {
    DivisionIsUnique(j + n, n, 1, j);
  }

  /** The tickets less than a gap before j choose j. */
  lemma InsideTheGap(load: seq<int>, j: nat, g: nat, t: nat)
    requires j < |load| && IsLeast(load, j) && IsGap(load, j, g) && t < g
    ensures Choice(load, (j + (|load| - t)) % |load|) == j
  {
    var n := |load|;
    var o := (j + (n - t)) % n;
    TicketBefore(n, j, t, t);
    BackZero(n, j);
    forall e | 0 <= e < n ensures NotBefore(load, o, t, e) {
      if e < t {
        TicketBefore(n, j, t, e);
        LeastIsLess(load, j, Back(n, j, t - e));
      }
    }
    FirstLeastUnique(load, o, n, t, Scan(load, o, n));
  }

  lemma LeastIsLess(load: seq<int>, j: nat, k: nat)
    requires j < |load| && k < |load| && IsLeast(load, j) && !IsLeast(load, k)
    ensures load[j] < load[k]
  {
  }

  /** The tickets from a gap before j on choose an earlier slot. */
  lemma BeforeTheGap(load: seq<int>, j: nat, g: nat, t: nat)
    requires j < |load| && IsLeast(load, j) && IsGap(load, j, g) && g <= t < |load|
    ensures Choice(load, (j + (|load| - t)) % |load|) != j
  {
    var n := |load|;
    var o := (j + (n - t)) % n;
    var d := Scan(load, o, n);
    TicketBefore(n, j, t, t - g);
    assert NotBefore(load, o, d, t - g);
    if Around(n, o, d) == j {
      AroundAgain(n, j + (n - t), d);
      SameSlotSameDistance(n, j, t, d);
    }
  }

  lemma SameSlotSameDistance(n: nat, j: nat, t: nat, d: nat)
    requires j < n && t < n && d < n && (j + (n - t) + d) % n == j
    ensures d == t
  {
    var v := j + (n - t) + d;
    DivMod(v, n);
    assert (v / n) * n == n - t + d;
    WindowSum(v / n, -1, n);
    NoMultipleBetween(v / n - 1, n);
  }

  /** The choice of ticket v, as the counting lemmas see it. */
  lemma TicketChoice(load: seq<int>, v: nat)
    requires load != []
    ensures Select(Choices(load), v) == Choice(load, v % |load|)
  {
  }

  lemma {:induction false} HitsInsideTheGap(load: seq<int>, j: nat, g: nat, t: nat)
    requires j < |load| && IsLeast(load, j) && IsGap(load, j, g) && t <= g
    ensures Hits(Choices(load), j, j + 1 + (|load| - g), t) == t
  {
    if t > 0 {
      HitsInsideTheGap(load, j, g, t - 1);
      var v := j + 1 + (|load| - g) + t - 1;
      assert v == j + (|load| - (g - t));
      TicketChoice(load, v);
      InsideTheGap(load, j, g, g - t);
    }
  }

  lemma {:induction false} HitsBeforeTheGap(load: seq<int>, j: nat, g: nat, m: nat)
    requires j < |load| && IsLeast(load, j) && IsGap(load, j, g) && m <= |load| - g
    ensures Hits(Choices(load), j, j + 1, m) == 0
  {
    if m > 0 {
      HitsBeforeTheGap(load, j, g, m - 1);
      var v := j + m;
      assert v == j + (|load| - (|load| - m));
      TicketChoice(load, v);
      BeforeTheGap(load, j, g, |load| - m);
    }
  }

  /** With fixed loads, any n consecutive tickets choose a least loaded slot exactly as often as its
      distance from the previous one: at least once. */
  lemma ShareLaw(load: seq<int>, j: nat, g: nat, first: nat)
    requires j < |load| && IsLeast(load, j) && IsGap(load, j, g)
    ensures Hits(Choices(load), j, first, |load|) == g >= 1
  {
    HitsBeforeTheGap(load, j, g, |load| - g);
    HitsInsideTheGap(load, j, g, g);
    TwoParts(Choices(load), j, first, j + 1, |load| - g, j + 1 + (|load| - g), g);
  }

  lemma TwoParts(s: seq<nat>, j: nat, first: nat, start: nat, a: nat, middle: nat, g: nat)
    requires s != [] && a + g == |s| && start + a == middle
    requires Hits(s, j, start, a) == 0 && Hits(s, j, middle, g) == g
    ensures Hits(s, j, first, |s|) == g
  {
    RoundInTwoParts(s, j, first, start, a);
  }

  /** No least loaded slot goes without: n consecutive tickets choose it at least once, and no more
      often than there are slots. */
  lemma EveryLeastGetsATurn(load: seq<int>, j: nat, first: nat)
    requires j < |load| && IsLeast(load, j)
    ensures 1 <= Hits(Choices(load), j, first, |load|) <= |load|
  {
    var g := GapExists(load, j);
    ShareLaw(load, j, g, first);
  }

  lemma ChoiceIsLeast(load: seq<int>, offset: nat)
    requires load != []
    ensures IsLeast(load, Choice(load, offset))
  {
    var n, d := |load|, Scan(load, offset, |load|);
    forall k | 0 <= k < n ensures load[Choice(load, offset)] <= load[k] {
      var e := DistanceTo(n, offset, k);
      assert NotBefore(load, offset, d, e);
    }
  }

  /** Every slot is somewhere ahead. */
  lemma DistanceTo(n: nat, offset: nat, k: nat) returns (e: nat)
    requires k < n
    ensures e < n && Around(n, offset, e) == k
  {
    var o := offset % n;
    e := if k >= o then k - o else k - o + n;
    assert offset + e == (offset / n + if k >= o then 0 else 1) * n + k by {
      DivMod(offset, n);
      WindowSum(offset / n, 1, n);
    }
    DivisionIsUnique(offset + e, n, offset / n + (if k >= o then 0 else 1), k);
  }

  /** The slot e places from the offset on has more load than this one. */
  ghost predicate HasMore(load: seq<int>, offset: nat, e: nat, slot: nat)
    requires slot < |load|
  {
    load[slot] < load[(offset + e) % |load|]
  }

  /** The slots are looked at from the offset on, and the first one with the least load is chosen. */
  lemma ChoiceIsFirstLeast(load: seq<int>, offset: nat) returns (d: nat)
    requires load != []
    ensures d < |load| && Choice(load, offset) == (offset + d) % |load| && IsLeast(load, Choice(load, offset))
    ensures forall e: nat :: e < d ==> HasMore(load, offset, e, Choice(load, offset))
  {
    ChoiceIsLeast(load, offset);
    d := Scan(load, offset, |load|);
    forall e: nat | e < d ensures HasMore(load, offset, e, Choice(load, offset)) {
      PassedSlotHasMore(load, offset, e);
    }
  }

  lemma PassedSlotHasMore(load: seq<int>, offset: nat, e: nat)
    requires load != [] && e < Scan(load, offset, |load|)
    ensures Choice(load, offset) < |load| && HasMore(load, offset, e, Choice(load, offset))
  {
    assert NotBefore(load, offset, Scan(load, offset, |load|), e);
  }

  /** Tickets never choose a slot that is not least loaded. */
  lemma {:induction false} OnlyLeastAreChosen(load: seq<int>, j: nat, first: nat, m: nat)
    requires j < |load| && !IsLeast(load, j)
    ensures Hits(Choices(load), j, first, m) == 0
  {
    if m > 0 {
      OnlyLeastAreChosen(load, j, first, m - 1);
      TicketChoice(load, first + m - 1);
      ChoiceIsLeast(load, (first + m - 1) % |load|);
    }
  }

  /** An idle pool takes turns: with equal loads, n consecutive tickets choose every slot once. */
  lemma EqualLoadsRotate(load: seq<int>, j: nat, first: nat)
    requires j < |load| && forall k :: 0 <= k < |load| ==> load[k] == load[j]
    ensures Hits(Choices(load), j, first, |load|) == 1
  {
    assert IsLeast(load, j) && IsGap(load, j, 1);
    ShareLaw(load, j, 1, first);
  }
}
