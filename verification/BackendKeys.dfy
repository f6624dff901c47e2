/** How every balancer finds a Backend's state: in a map, under the hash of address and index. Nothing
    keeps two Backends from having one key; the map then leads both to the state of the later one. */
module BackendKeys {
  import opened HashRing
  import opened VirtualNodeKeys

  function MapKey(hashFunc: string -> uint32, url: string, i: nat): uint32 {
    hashFunc(url + Itoa(i))
  }

  function MapKeys(hashFunc: string -> uint32, backends: seq<string>): seq<uint32> {
    seq<uint32>(|backends|, i requires 0 <= i < |backends| => MapKey(hashFunc, backends[i], i))
  }

  ghost predicate IsKeys(keys: seq<uint32>, hashFunc: string -> uint32, backends: seq<string>) {
    |keys| == |backends| && forall i :: 0 <= i < |keys| ==> IsKey(keys, hashFunc, backends, i)
  }

  ghost predicate IsKey(keys: seq<uint32>, hashFunc: string -> uint32, backends: seq<string>, i: nat)
    requires i < |keys| == |backends|
  {
    keys[i] == MapKey(hashFunc, backends[i], i)
  }

  lemma KeysOf(hashFunc: string -> uint32, backends: seq<string>)
    ensures IsKeys(MapKeys(hashFunc, backends), hashFunc, backends)
  {
    var keys := MapKeys(hashFunc, backends);
    forall i | 0 <= i < |keys| ensures IsKey(keys, hashFunc, backends, i) {}
  }

  lemma SeenExtends(keys: seq<uint32>, hashFunc: string -> uint32, backends: seq<string>, i: nat)
    requires IsKeys(keys, hashFunc, backends) && i < |backends|
    ensures keys[..i + 1] == keys[..i] + [MapKey(hashFunc, backends[i], i)]
  {
    assert IsKey(keys, hashFunc, backends, i);
  }

  /** The Backend whose state a key leads to: the last one registered under it. */
  function LastUnder(keys: seq<uint32>, key: uint32): (j: nat)
    requires key in keys
    ensures j < |keys| && keys[j] == key && forall k :: j < k < |keys| ==> keys[k] != key
  {
    if keys[|keys| - 1] == key then |keys| - 1
    else
      assert key in keys[..|keys| - 1];
      LastUnder(keys[..|keys| - 1], key)
  }

  function EntryOf(keys: seq<uint32>, i: nat): (j: nat)
    requires i < |keys|
    ensures i <= j < |keys| && keys[j] == keys[i]
  {
    LastUnder(keys, keys[i])
  }

  ghost predicate Distinct(keys: seq<uint32>) {
    forall i, j :: 0 <= i < j < |keys| ==> keys[i] != keys[j]
  }

  lemma DistinctEntries(keys: seq<uint32>, i: nat)
    requires Distinct(keys) && i < |keys|
    ensures EntryOf(keys, i) == i
  {
  }

  /** Whatever the hash function, keys repeat in configurations that the program accepts: address u1
      with index i and address u with index 1i make the same text, for each digit i. */
  lemma KeysCanRepeat(hashFunc: string -> uint32, backends: seq<string>, keys: seq<uint32>, u: string, i: nat)
    requires IsKeys(keys, hashFunc, backends)
    requires i < 10 && 10 + i < |backends| && backends[i] == u + "1" && backends[10 + i] == u
    ensures !Distinct(keys)
  {
    assert Itoa(10 + i) == "1" + Itoa(i) by {
      assert Digits(10 + i) == Digits(1) + [Digit(i)];
      assert Digits(1) == "1";
    }
    assert backends[i] + Itoa(i) == backends[10 + i] + Itoa(10 + i);
    assert IsKey(keys, hashFunc, backends, i) && IsKey(keys, hashFunc, backends, 10 + i);
  }

  // ---------- the map ----------

  ghost predicate LeadsTo<T>(seen: seq<uint32>, m: map<uint32, T>, states: seq<T>, key: uint32)
    requires |seen| == |states|
  {
    key in seen && key in m && m[key] == states[LastUnder(seen, key)]
  }

  /** The map after Backends with these keys and states have been entered. */
  ghost predicate Entered<T>(seen: seq<uint32>, m: map<uint32, T>, states: seq<T>) {
    && |seen| == |states| && m.Keys == Elements(seen)
    && forall key :: key in m ==> LeadsTo(seen, m, states, key)
  }

  lemma OneMoreEntered<T>(seen: seq<uint32>, m: map<uint32, T>, states: seq<T>, key: uint32, state: T)
    requires Entered(seen, m, states)
    ensures Entered(seen + [key], m[key := state], states + [state])
  {
    var seen', m', states' := seen + [key], m[key := state], states + [state];
    assert seen'[..|seen|] == seen;
    forall k | k in m' ensures LeadsTo(seen', m', states', k) {
      assert k != key ==> LeadsTo(seen, m, states, k);
    }
  }

  lemma FindsItsEntry<T>(keys: seq<uint32>, m: map<uint32, T>, states: seq<T>, i: nat)
    requires Entered(keys, m, states) && i < |keys|
    ensures keys[i] in m && m[keys[i]] == states[EntryOf(keys, i)]
  {
    assert keys[i] in Elements(keys) && LeadsTo(keys, m, states, keys[i]);
  }
}
