/** Size-bounded manifest shards (scripts/checkpoints/records.py, `shard_inventory`).

    `text` gives the canonical JSON of one record; everything up to `RecordText` holds for
    whatever it is. */
module Sharding {
  import opened Options
  import opened Records
  import opened RetentionStore

  type Shards = seq<seq<ObjectRecord>>

  /******* The JSON text of an array of records *******/

  function Joined(text: ObjectRecord -> string, rs: seq<ObjectRecord>): string
  {
    if rs == [] then ""
    else if |rs| == 1 then text(rs[0])
    else Joined(text, rs[..|rs| - 1]) + "," + text(rs[|rs| - 1])
  }

  function ArrayText(text: ObjectRecord -> string, rs: seq<ObjectRecord>): string
  {
    "[" + Joined(text, rs) + "]"
  }

  // Each record's length and one separator.
  function Weight(text: ObjectRecord -> string, rs: seq<ObjectRecord>): nat
  {
    if rs == [] then 0 else Weight(text, rs[..|rs| - 1]) + |text(rs[|rs| - 1])| + 1
  }

  lemma {:induction false} ArrayLength(text: ObjectRecord -> string, rs: seq<ObjectRecord>)
    ensures |ArrayText(text, rs)| == if rs == [] then 2 else 1 + Weight(text, rs)
  {
    if |rs| == 1 {
      assert rs[..0] == [];
    } else if rs != [] {
      ArrayLength(text, rs[..|rs| - 1]);
    }
  }

  lemma {:induction false} WeightAdds(text: ObjectRecord -> string, a: seq<ObjectRecord>, b: seq<ObjectRecord>)
    ensures Weight(text, a + b) == Weight(text, a) + Weight(text, b)
  {
    if b == [] {
      assert a + b == a;
    } else {
      WeightAdds(text, a, b[..|b| - 1]);
      assert (a + b)[..|a + b| - 1] == a + b[..|b| - 1];
    }
  }

  // A contiguous part of an array is not longer than the array.
  lemma PartIsShorter(text: ObjectRecord -> string, rs: seq<ObjectRecord>, b: nat, c: nat, d: nat, e: nat)
    requires b <= c < d <= e <= |rs|
    ensures |ArrayText(text, rs[c..d])| <= |ArrayText(text, rs[b..e])|
  {
    assert rs[b..e] == rs[b..c] + rs[c..d] + rs[d..e];
    WeightAdds(text, rs[b..c] + rs[c..d], rs[d..e]);
    WeightAdds(text, rs[b..c], rs[c..d]);
    ArrayLength(text, rs[c..d]);
    ArrayLength(text, rs[b..e]);
  }

  /******* Splits *******/

  predicate Fits(text: ObjectRecord -> string, rs: seq<ObjectRecord>, maxBytes: int)
  {
    |ArrayText(text, rs)| <= maxBytes
  }

  predicate AllFit(text: ObjectRecord -> string, shards: Shards, maxBytes: int)
  {
    forall i :: 0 <= i < |shards| ==> Fits(text, shards[i], maxBytes)
  }

  predicate NoneEmpty(shards: Shards)
  {
    forall i :: 0 <= i < |shards| ==> shards[i] != []
  }

  // Shard `i` had no room for the record that opened the next one.
  predicate Full(text: ObjectRecord -> string, shards: Shards, maxBytes: int, i: nat)
  {
    i + 1 < |shards| && shards[i + 1] != [] ==> !Fits(text, shards[i] + [shards[i + 1][0]], maxBytes)
  }

  predicate NoRoom(text: ObjectRecord -> string, shards: Shards, maxBytes: int)
  {
    forall i :: 0 <= i < |shards| ==> Full(text, shards, maxBytes, i)
  }

  predicate Oversized(text: ObjectRecord -> string, rs: seq<ObjectRecord>, maxBytes: int)
  {
    exists i :: 0 <= i < |rs| && |text(rs[i])| + 2 > maxBytes
  }

  /** `shard_inventory`: refused exactly for a bound below two bytes, repeated keys, or a record
      that fits in no shard; otherwise the shards are the key-sorted inventory, each within the bound and filled
      until the next record does not fit. */
  method ShardInventory(text: ObjectRecord -> string, records: seq<ObjectRecord>, maxBytes: int) returns (r: Option<Shards>)
    ensures r == None <==> maxBytes < 2 || Canonical(records) == None || Oversized(text, Canonical(records).value, maxBytes)
    ensures r.Some? ==> Flatten(r.value) == Canonical(records).value
    ensures r.Some? ==> NoneEmpty(r.value) && AllFit(text, r.value, maxBytes) && NoRoom(text, r.value, maxBytes)
  {
    hide ArrayText, Flatten, Canonical, Full;
    if maxBytes < 2 { return None; }
    EmptyArray(text);
    var canonical := Canonical(records);
    if canonical == None { return None; }
    var ordered := canonical.value;
    var groups: Shards, current: seq<ObjectRecord>, currentSize := [], [], 2;
    for i := 0 to |ordered|
      invariant Flatten(groups) + current == ordered[..i] && (i > 0 ==> current != [])
      invariant currentSize == |ArrayText(text, current)| && Fits(text, current, maxBytes)
      invariant NoneEmpty(groups) && AllFit(text, groups, maxBytes) && NoRoom(text, groups, maxBytes)
      invariant groups != [] ==> current != [] && !Fits(text, groups[|groups| - 1] + [current[0]], maxBytes)
      invariant forall k :: 0 <= k < i ==> |text(ordered[k])| + 2 <= maxBytes
    {
      var body := text(ordered[i]);
      var added := |body| + if current != [] then 1 else 0;
      if |body| + 2 > maxBytes { return None; }
      Appended(text, current, ordered[i]);
      Appended(text, [], ordered[i]);
      if current != [] && currentSize + added > maxBytes {
        CloseShard(text, groups, current, maxBytes);
        groups, current, currentSize, added := groups + [current], [], 2, |body|;
      }
      current := current + [ordered[i]];
      currentSize := currentSize + added;
    }
    if current != [] {
      CloseShard(text, groups, current, maxBytes);
      groups := groups + [current];
    }
    return Some(groups);
  }

  lemma EmptyArray(text: ObjectRecord -> string)
    ensures |ArrayText(text, [])| == 2 && Flatten([]) == []
  {
  }

  // Closing a shard keeps what the split promises.
  lemma CloseShard(text: ObjectRecord -> string, groups: Shards, current: seq<ObjectRecord>, maxBytes: int)
    requires NoneEmpty(groups) && AllFit(text, groups, maxBytes) && NoRoom(text, groups, maxBytes)
    requires current != [] && Fits(text, current, maxBytes)
    requires groups != [] ==> !Fits(text, groups[|groups| - 1] + [current[0]], maxBytes)
    ensures NoneEmpty(groups + [current]) && AllFit(text, groups + [current], maxBytes) && NoRoom(text, groups + [current], maxBytes)
    ensures Flatten(groups + [current]) == Flatten(groups) + current
  {
    hide Fits;
    FlattenAppend(groups, current);
    forall i | 0 <= i < |groups| ensures Full(text, groups + [current], maxBytes, i) {
      assert Full(text, groups, maxBytes, i);
    }
  }

  lemma FlattenAppend(shards: Shards, shard: seq<ObjectRecord>)
    ensures Flatten(shards + [shard]) == Flatten(shards) + shard
  {
    assert (shards + [shard])[..|shards|] == shards;
  }

  lemma Appended(text: ObjectRecord -> string, rs: seq<ObjectRecord>, r: ObjectRecord)
    ensures |ArrayText(text, rs + [r])| == |ArrayText(text, rs)| + |text(r)| + if rs == [] then 0 else 1
  {
    assert (rs + [r])[..|rs|] == rs;
    assert rs == [] ==> rs + [r] == [r];
  }

  /******* Optimality *******/

  lemma {:induction false} FlattenPrefix(shards: Shards, k: nat)
    requires k <= |shards|
    ensures Flatten(shards[..k]) <= Flatten(shards)
    ensures k < |shards| ==> Flatten(shards[..k + 1]) == Flatten(shards[..k]) + shards[k]
    decreases |shards|
  {
    if k < |shards| {
      assert shards[..k + 1][..k] == shards[..k];
      assert shards[..|shards| - 1][..k] == shards[..k];
      FlattenPrefix(shards[..|shards| - 1], k);
    } else {
      assert shards[..k] == shards;
    }
  }

  // Where shard `k` lies in the whole inventory.
  lemma ShardIsSlice(shards: Shards, k: nat)
    requires k < |shards|
    ensures var a := |Flatten(shards[..k])|;
            a + |shards[k]| == |Flatten(shards[..k + 1])| <= |Flatten(shards)| && Flatten(shards)[a..a + |shards[k]|] == shards[k]
  {
    FlattenPrefix(shards, k);
    FlattenPrefix(shards, k + 1);
    var a := |Flatten(shards[..k])|;
    assert Flatten(shards[..k + 1])[a..] == shards[k];
  }

  /** After any number of shards the greedy split is at least as far as any other. */
  lemma {:induction false} GreedyStaysAhead(text: ObjectRecord -> string, greedy: Shards, other: Shards, maxBytes: int, k: nat)
    requires NoneEmpty(greedy) && NoRoom(text, greedy, maxBytes) && AllFit(text, other, maxBytes)
    requires Flatten(greedy) == Flatten(other) && k <= |greedy| && k <= |other|
    ensures |Flatten(other[..k])| <= |Flatten(greedy[..k])|
  {
    hide Fits, Flatten;
    EmptyArray(text);
    if k > 0 {
      GreedyStaysAhead(text, greedy, other, maxBytes, k - 1);
      ShardIsSlice(greedy, k - 1);
      ShardIsSlice(other, k - 1);
      if k == |greedy| {
        assert greedy[..k] == greedy;
      } else {
        assert Full(text, greedy, maxBytes, k - 1);
        NextRecordOverflows(text, greedy, other, maxBytes, k - 1);
      }
    }
  }

  // If the other split reached past the end of greedy shard `k`, its shard `k` would be too long.
  lemma NextRecordOverflows(text: ObjectRecord -> string, greedy: Shards, other: Shards, maxBytes: int, k: nat)
    requires Flatten(greedy) == Flatten(other) && k + 1 < |greedy| && k < |other|
    requires greedy[k + 1] != [] && !Fits(text, greedy[k] + [greedy[k + 1][0]], maxBytes) && Fits(text, other[k], maxBytes)
    requires |Flatten(other[..k])| <= |Flatten(greedy[..k])|
    ensures |Flatten(other[..k + 1])| <= |Flatten(greedy[..k + 1])|
  {
    hide *;
    ShardIsSlice(other, k);
    ShardIsSlice(greedy, k);
    SpillIsSlice(greedy, k);
    LongerDoesNotFit(text, Flatten(greedy), greedy[k], greedy[k + 1][0], |Flatten(greedy[..k])|, other[k], |Flatten(other[..k])|, maxBytes);
  }

  // Of two slices, the one that starts earlier and fits ends before one that does not fit.
  lemma LongerDoesNotFit(text: ObjectRecord -> string, all: seq<ObjectRecord>, shard: seq<ObjectRecord>, next: ObjectRecord, c: nat,
                         other: seq<ObjectRecord>, b: nat, maxBytes: int)
    requires b <= c && c + |shard| + 1 <= |all| && b + |other| <= |all|
    requires all[c..c + |shard| + 1] == shard + [next] && all[b..b + |other|] == other
    requires !Fits(text, shard + [next], maxBytes) && Fits(text, other, maxBytes)
    ensures b + |other| <= c + |shard|
  {
    hide ArrayText;
    if c + |shard| + 1 <= b + |other| { PartIsShorter(text, all, b, c, c + |shard| + 1, b + |other|); }
  }

  // A shard and the record after it.
  lemma SpillIsSlice(shards: Shards, k: nat)
    requires k + 1 < |shards| && shards[k + 1] != []
    ensures var a := |Flatten(shards[..k])|;
            && a + |shards[k]| + 1 <= |Flatten(shards)|
            && Flatten(shards)[a..a + |shards[k]| + 1] == shards[k] + [shards[k + 1][0]]
  {
    hide Flatten;
    ShardIsSlice(shards, k);
    ShardIsSlice(shards, k + 1);
    var all, a := Flatten(shards), |Flatten(shards[..k])|;
    var c := a + |shards[k]|;
    assert all[c..c + |shards[k + 1]|][0] == all[c];
    assert all[a..c + 1] == all[a..c] + [all[c]];
  }

  /** No contiguous in-order split within the bound has fewer shards. */
  lemma GreedyIsOptimal(text: ObjectRecord -> string, greedy: Shards, other: Shards, maxBytes: int)
    requires NoneEmpty(greedy) && NoRoom(text, greedy, maxBytes) && AllFit(text, other, maxBytes)
    requires Flatten(greedy) == Flatten(other)
    ensures |greedy| <= |other|
  {
    if |other| < |greedy| {
      GreedyStaysAhead(text, greedy, other, maxBytes, |other|);
      assert other[..|other|] == other;
      ShardIsSlice(greedy, |other|);
    }
  }
}
