/** Which Backends a published slice holds, and how often. A Backend is identified by its index in
    the configuration, as every Backend owns a proxy client of its own. */
module Rotation {

  /** Backend k occurs exactly weights[k] times while Alive and not at all while Down, and nothing
      else is in the slice. */
  ghost predicate InRotation(s: seq<nat>, weights: seq<nat>, alive: seq<bool>) {
    && |alive| == |weights|
    && (forall k :: 0 <= k < |weights| ==> Holds(s, weights, alive, k))
    && (forall p :: p in multiset(s) ==> p < |weights|)
  }

  ghost predicate Holds(s: seq<nat>, weights: seq<nat>, alive: seq<bool>, k: nat)
    requires k < |weights| == |alive|
  {
    multiset(s)[k] == if alive[k] then weights[k] else 0
  }

  function Without(s: seq<nat>, p: nat): seq<nat> {
    if s == [] then []
    else Without(s[..|s| - 1], p) + if s[|s| - 1] == p then [] else [s[|s| - 1]]
  }

  function Copies(p: nat, n: nat): seq<nat> {
    seq(n, _ => p)
  }

  lemma {:induction false} WithoutCounts(s: seq<nat>, p: nat)
    ensures multiset(Without(s, p)) == multiset(s)[p := 0]
  {
    if s != [] {
      var before, last := s[..|s| - 1], s[|s| - 1];
      WithoutCounts(before, p);
      assert multiset(s) == multiset(before) + multiset{last} by {
        assert s == before + [last];
      }
      assert Without(before, p) + [] == Without(before, p);
    }
  }

  lemma {:induction false} CopiesCount(p: nat, n: nat)
    ensures multiset(Copies(p, n)) == multiset{}[p := n]
  {
    if n > 0 {
      CopiesCount(p, n - 1);
      assert Copies(p, n) == Copies(p, n - 1) + [p];
    }
  }

  lemma LeaveKeepsRotation(s: seq<nat>, weights: seq<nat>, alive: seq<bool>, k: nat)
    requires k < |weights| && InRotation(s, weights, alive)
    ensures InRotation(Without(s, k), weights, alive[k := false])
  {
    WithoutCounts(s, k);
    var s', alive' := Without(s, k), alive[k := false];
    forall j | 0 <= j < |weights| ensures Holds(s', weights, alive', j) {
      assert Holds(s, weights, alive, j);
    }
  }

  lemma RejoinKeepsRotation(s: seq<nat>, weights: seq<nat>, alive: seq<bool>, k: nat)
    requires k < |weights| && InRotation(s, weights, alive) && !alive[k]
    ensures InRotation(s + Copies(k, weights[k]), weights, alive[k := true])
  {
    CopiesCount(k, weights[k]);
    var s', alive' := s + Copies(k, weights[k]), alive[k := true];
    assert multiset(s') == multiset(s) + multiset(Copies(k, weights[k]));
    forall j | 0 <= j < |weights| ensures Holds(s', weights, alive', j) {
      assert Holds(s, weights, alive, j);
    }
  }

  /** One more Backend, the next in config order, joins a slice that is right for those before it. */
  lemma AppendKeepsRotation(s: seq<nat>, weights: seq<nat>, alive: seq<bool>, up: bool)
    requires |alive| < |weights| && InRotation(s, weights[..|alive|], alive)
    ensures InRotation(s + if up then Copies(|alive|, weights[|alive|]) else [], weights[..|alive| + 1], alive + [up])
  {
    var k := |alive|;
    CopiesCount(k, weights[k]);
    var s', alive' := s + (if up then Copies(k, weights[k]) else []), alive + [up];
    var before, after := weights[..k], weights[..k + 1];
    assert multiset(s') == multiset(s) + multiset(if up then Copies(k, weights[k]) else []);
    forall j | 0 <= j <= k ensures Holds(s', after, alive', j) {
      assert j < k ==> Holds(s, before, alive, j);
    }
  }

  lemma PermutationKeepsRotation(s: seq<nat>, s': seq<nat>, weights: seq<nat>, alive: seq<bool>)
    requires InRotation(s, weights, alive) && multiset(s) == multiset(s')
    ensures InRotation(s', weights, alive)
  {
    forall j | 0 <= j < |weights| ensures Holds(s', weights, alive, j) {
      assert Holds(s, weights, alive, j);
    }
  }

  /** helper.RemoveByValue: the elements other than `value`, in order, in a slice of their own. */
  method RemoveByValue(s: array<nat>, value: nat) returns (temp: seq<nat>)
    ensures temp == Without(s[..], value)
  {
    temp := [];
    for k := 0 to s.Length
      invariant temp == Without(s[..k], value)
    {
      assert s[..k + 1][..k] == s[..k];
      if s[k] != value {
        temp := temp + [s[k]];
      }
    }
    assert s[..s.Length] == s[..];
  }

  lemma SwapCounts(s: seq<nat>, i: nat, j: nat)
    requires i < |s| && j < |s|
    ensures multiset(s[i := s[j]][j := s[i]]) == multiset(s)
  {
  }

  /** rand.Shuffle with the swap function of the callers: any order may come out. */
  method Shuffle(a: array<nat>)
    modifies a
    ensures multiset(a[..]) == multiset(old(a[..]))
  {
    var i := a.Length - 1;
    while i > 0
      invariant i < a.Length
      invariant multiset(a[..]) == multiset(old(a[..]))
    {
      var j :| 0 <= j <= i;
      SwapCounts(a[..], i, j);
      ghost var before := a[..];
      a[i], a[j] := a[j], a[i];
      assert a[..] == before[i := before[j]][j := before[i]];
      i := i - 1;
    }
  }

  /** A slice of its own with these elements. */
  method Slice(s: seq<nat>) returns (a: array<nat>)
    ensures fresh(a) && a[..] == s
  {
    a := new nat[|s|](j requires 0 <= j < |s| => s[j]);
  }

  /** The slice that a Rejoin publishes: a copy of the old one, the Backend's copies appended, and
      the copy shuffled while no reader can see it. */
  method RejoinSlice(current: array<nat>, k: nat, weight: nat, shuffles: bool) returns (a: array<nat>)
    ensures fresh(a) && multiset(a[..]) == multiset(current[..] + Copies(k, weight))
    ensures !shuffles ==> a[..] == current[..] + Copies(k, weight)
  {
    a := Slice(current[..] + Copies(k, weight));
    if shuffles {
      Shuffle(a);
    }
  }
}
