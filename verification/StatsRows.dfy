/** The row numbers of Stats. Every balancer takes the size that its map has when Backend i is
    entered as the Backend's row. */
module StatsRows {
  import opened HashRing
  import opened BackendKeys

  function Register(keys: seq<uint32>): map<uint32, nat> {
    if keys == [] then map[]
    else
      var before := Register(keys[..|keys| - 1]);
      before[keys[|keys| - 1] := |before|]
  }

  /** Stats makes one row per map entry and stores each entry at its own row number: no row stays
      empty, and no entry points past the last row. */
  ghost predicate FillsEveryRow(rows: map<uint32, nat>) {
    && (forall k :: k in rows ==> rows[k] < |rows|)
    && (forall r :: 0 <= r < |rows| ==> Filled(rows, r))
  }

  ghost predicate Filled(rows: map<uint32, nat>, r: nat) {
    exists k :: k in rows && rows[k] == r
  }

  lemma {:induction false} DistinctKeysRegisterInOrder(keys: seq<uint32>)
    requires Distinct(keys)
    ensures |Register(keys)| == |keys| && Register(keys).Keys == Elements(keys)
    ensures forall i :: 0 <= i < |keys| ==> Register(keys)[keys[i]] == i
  {
    if keys != [] {
      var before, last := keys[..|keys| - 1], keys[|keys| - 1];
      DistinctKeysRegisterInOrder(before);
      assert last !in before;
      assert Register(keys).Keys == Register(before).Keys + {last};
      assert Elements(keys) == Elements(before) + {last};
      forall i | 0 <= i < |keys| ensures Register(keys)[keys[i]] == i {
        if i < |before| {
          assert keys[i] == before[i];
        }
      }
    }
  }

  lemma UpdateSize(rows: map<uint32, nat>, k: uint32, r: nat)
    ensures |rows[k := r]| == |rows| + if k in rows then 0 else 1
  {
    assert rows[k := r].Keys == rows.Keys + {k};
  }

  /** Storing k at a new row number fills no row that was empty, and empties k's old row. */
  lemma UpdateFills(rows: map<uint32, nat>, k: uint32, v: nat, r: nat)
    requires v != r
    requires forall x :: x in rows && rows[x] == r ==> x == k
    ensures !Filled(rows[k := v], r)
  {
  }

  lemma RowBelongsToKey(keys: seq<uint32>, r: nat)
    requires Distinct(keys) && r < |keys|
    ensures r < |Register(keys)| && forall x :: x in Register(keys) && Register(keys)[x] == r ==> x == keys[r]
  {
    DistinctKeysRegisterInOrder(keys);
    forall x | x in Register(keys) && Register(keys)[x] == r ensures x == keys[r] {
      assert x in Elements(keys);
    }
  }

  lemma {:induction false} RepeatedKeyLeavesARowEmpty(keys: seq<uint32>) returns (r: nat)
    requires !Distinct(keys)
    ensures r < |Register(keys)| && !Filled(Register(keys), r)
  {
    var before, last := keys[..|keys| - 1], keys[|keys| - 1];
    var rows := Register(before);
    UpdateSize(rows, last, |rows|);
    if Distinct(before) {
      r :| 0 <= r < |before| && before[r] == last;
      RowBelongsToKey(before, r);
    } else {
      r := RepeatedKeyLeavesARowEmpty(before);
    }
    UpdateFills(rows, last, |rows|, r);
  }

  /** Backend i gets row i and Stats is complete, exactly when the map keys are distinct. */
  lemma RowsAreCompleteIffKeysAreDistinct(keys: seq<uint32>)
    ensures FillsEveryRow(Register(keys)) <==> Distinct(keys)
  {
    if Distinct(keys) {
      DistinctKeysRegisterInOrder(keys);
      var rows := Register(keys);
      forall r | 0 <= r < |rows| ensures Filled(rows, r) {
        assert keys[r] in Elements(keys);
      }
      forall k | k in rows ensures rows[k] < |rows| {
        assert k in Elements(keys);
      }
    } else {
      var r := RepeatedKeyLeavesARowEmpty(keys);
    }
  }
}
