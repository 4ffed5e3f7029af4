/** Writing the control objects of an operation (scripts/checkpoints/operations.py): create or
    find the identical object, the shards of a classification, the shards of a manifest. */
module RetentionControls {
  import opened Options
  import opened Records
  import opened RetentionLog
  import opened RetentionStore
  import opened RetentionGateway
  import opened RetentionValidator

  /** `_create_identical`: create, or find the identical object already there; then read it
      back. */
  method CreateIdentical(g: Gateway, key: ControlKey, body: Body) returns (r: Answer<()>)
    modifies g`controls, g`faults
    ensures g.controls == old(g.controls) || (key !in old(g.controls) && g.controls == old(g.controls)[key := body])
    ensures r.Ok? ==> key in g.controls && g.controls[key] == body
    ensures r.Rejected? ==> key in old(g.controls) && old(g.controls)[key] != body
    ensures old(g.faults) <= g.faults && (r.Interrupted() ==> old(g.faults) < g.faults)
  {
    var created := g.CreateControl(key, body);
    match created {
      case Got(_) =>
      case Died => return Crashed;
      case DeadlinePassed => return Unavailable("operation_deadline");
      case _ =>
        var existing := g.ReadControl(key);
        match existing {
          case Got(found) =>
            if found != body { return Rejected("control_conflict"); }
          case Died => return Crashed;
          case DeadlinePassed => return Unavailable("operation_deadline");
          case _ => return Unavailable("control_create_failed");
        }
    }
    var readback := g.ReadControl(key);
    match readback {
      case Got(found) =>
        if found != body { return Rejected("control_readback_mismatch"); }
        return Ok(());
      case Died => return Crashed;
      case DeadlinePassed => return Unavailable("operation_deadline");
      case _ => return Unavailable("control_readback_failed");
    }
  }

  method CheckDeadline(g: Gateway) returns (r: Answer<()>)
    modifies g`faults
    ensures r.Ok? || r == Unavailable("operation_deadline")
    ensures g.faults == if r.Ok? then old(g.faults) else old(g.faults) + 1
  {
    var late := g.CheckDeadline();
    return if late then Unavailable("operation_deadline") else Ok(());
  }

  /******* Result shards *******/

  // Length of the canonical JSON object {"object_sha256":"…","outcome":"…"}.
  function EntryBytes(e: Entry): nat
  {
    match e.outcome
    case Deleted => 104
    case Failed => 103
    case Unattempted => 108
  }

  const MAX_ENTRY_BYTES := 108

  // Length of the canonical JSON array of the entries.
  function ShardBytes(es: seq<Entry>): nat
  {
    if es == [] then 2
    else if |es| == 1 then 2 + EntryBytes(es[0])
    else ShardBytes(es[..|es| - 1]) + 1 + EntryBytes(es[|es| - 1])
  }

  function OutcomeText(o: Outcome): string
  {
    match o
    case Deleted => "deleted"
    case Failed => "failed"
    case Unattempted => "unattempted"
  }

  // The canonical JSON object of one entry; `hex` prints a digest.
  function EntryText(hex: Digest -> string, e: Entry): string
  {
    "{\"object_sha256\":\"" + hex(e.target) + "\",\"outcome\":\"" + OutcomeText(e.outcome) + "\"}"
  }

  function EntriesText(hex: Digest -> string, es: seq<Entry>): string
  {
    if es == [] then "" else EntriesText(hex, es[..|es| - 1]) + (if |es| == 1 then "" else ",") + EntryText(hex, es[|es| - 1])
  }

  /** The running size is the length of the canonical JSON array. */
  lemma {:induction false} ShardBytesIsLength(hex: Digest -> string, es: seq<Entry>)
    requires forall d :: |hex(d)| == 64
    ensures |"[" + EntriesText(hex, es) + "]"| == ShardBytes(es)
  {
    if es != [] {
      var init, last := es[..|es| - 1], es[|es| - 1];
      ShardBytesIsLength(hex, init);
      EntryBytesIsLength(hex, last);
    }
  }

  lemma EntryBytesIsLength(hex: Digest -> string, e: Entry)
    requires |hex(e.target)| == 64
    ensures |EntryText(hex, e)| == EntryBytes(e) <= MAX_ENTRY_BYTES
  {
  }

  function Joined(chunks: seq<seq<Entry>>): seq<Entry>
  {
    if chunks == [] then [] else Joined(chunks[..|chunks| - 1]) + chunks[|chunks| - 1]
  }

  predicate ChunksFit(chunks: seq<seq<Entry>>, maxBytes: nat)
  {
    forall i :: 0 <= i < |chunks| ==> chunks[i] != [] && ShardBytes(chunks[i]) <= maxBytes
  }

  /** The splitting loop of `_write_result_shards`: refused exactly when some entry fits in no
      shard; otherwise the chunks are the entries in order, none empty, each within the bound. */
  method Chunk(entries: seq<Entry>, maxBytes: nat) returns (r: Option<seq<seq<Entry>>>)
    ensures r == None <==> exists i :: 0 <= i < |entries| && 2 + EntryBytes(entries[i]) > maxBytes
    ensures r.Some? ==> Joined(r.value) == entries && ChunksFit(r.value, maxBytes)
  {
    hide EntryBytes;
    var chunks: seq<seq<Entry>>, current: seq<Entry>, bytes := [], [], 2;
    for i := 0 to |entries|
      invariant Joined(chunks) + current == entries[..i]
      invariant ChunksFit(chunks, maxBytes) && bytes == ShardBytes(current) && (current != [] ==> bytes <= maxBytes)
      invariant forall k :: 0 <= k < i ==> 2 + EntryBytes(entries[k]) <= maxBytes
    {
      var added := EntryBytes(entries[i]) + if current != [] then 1 else 0;
      if current != [] && bytes + added > maxBytes {
        JoinedAppend(chunks, current);
        chunks, current, bytes, added := chunks + [current], [], 2, EntryBytes(entries[i]);
      }
      if bytes + added > maxBytes {
        assert bytes + added >= 2 + EntryBytes(entries[i]);
        return None;
      }
      ShardAppend(current, entries[i]);
      current, bytes := current + [entries[i]], bytes + added;
    }
    if current != [] {
      JoinedAppend(chunks, current);
      chunks := chunks + [current];
    }
    return Some(chunks);
  }

  lemma JoinedAppend(chunks: seq<seq<Entry>>, chunk: seq<Entry>)
    ensures Joined(chunks + [chunk]) == Joined(chunks) + chunk
  {
    assert (chunks + [chunk])[..|chunks|] == chunks;
  }

  lemma {:induction false} ShardAppend(es: seq<Entry>, e: Entry)
    ensures ShardBytes(es + [e]) == ShardBytes(es) + EntryBytes(e) + if es == [] then 0 else 1
    ensures ShardBytes(es) >= 2
  {
    assert (es + [e])[..|es|] == es;
    if |es| > 1 { ShardAppend(es[..|es| - 1], es[|es| - 1]); }
  }

  lemma {:induction false} ShardEntriesWithin(ds: seq<Digest>, i: nat)
    requires ResultShards(ds) && i < |ds|
    ensures forall e :: e in ds[i].preimage.entries ==> e in Classified(ds)
  {
    if i < |ds| - 1 {
      ShardEntriesWithin(ds[..|ds| - 1], i);
    }
  }

  /** Shards that split a duplicate-free classification into non-empty pieces are all different,
      as the validator demands. */
  lemma {:induction false} ShardsDistinct(ds: seq<Digest>)
    requires ResultShards(ds) && DistinctObjects(Classified(ds))
    requires forall i :: 0 <= i < |ds| ==> ds[i].preimage.entries != []
    ensures DistinctDigests(ds)
  {
    if ds != [] {
      var init, last := ds[..|ds| - 1], ds[|ds| - 1];
      var before := Classified(init);
      assert Classified(ds)[..|before|] == before;
      assert DistinctObjects(before) by {
        forall i, j | 0 <= i < j < |before| ensures before[i].target != before[j].target {
          assert Classified(ds)[i] == before[i] && Classified(ds)[j] == before[j];
        }
      }
      ShardsDistinct(init);
      var all, e := Classified(ds), last.preimage.entries[0];
      assert all[|before|] == e;
      assert forall i :: 0 <= i < |before| ==> all[i] == before[i] && before[i].target != e.target;
      forall i | 0 <= i < |init| ensures init[i] != last {
        ShardEntriesWithin(init, i);
        assert e !in before;
      }
    }
  }

  function ShardDigestsOf(chunks: seq<seq<Entry>>): (ds: seq<Digest>)
    ensures |ds| == |chunks| && forall i :: 0 <= i < |ds| ==> ds[i] == Sha256(ResultShard(chunks[i]))
  {
    seq(|chunks|, i requires 0 <= i < |chunks| => Sha256(ResultShard(chunks[i])))
  }

  lemma {:induction false} ClassifiedChunks(chunks: seq<seq<Entry>>)
    ensures ResultShards(ShardDigestsOf(chunks)) && Classified(ShardDigestsOf(chunks)) == Joined(chunks)
  {
    if chunks != [] {
      var n := |chunks| - 1;
      ClassifiedChunks(chunks[..n]);
      assert ShardDigestsOf(chunks)[..n] == ShardDigestsOf(chunks[..n]);
    }
  }

  /** `_write_result_shards`: stores each chunk of the classification, within the bound, under
      its digest. */
  method WriteResultShards(g: Gateway, entries: seq<Entry>, maxShardBytes: nat) returns (r: Answer<seq<Digest>>)
    requires ContentAddressed(g.controls)
    modifies g`controls, g`faults
    ensures OnlyShardsAdded(old(g.controls), g.controls) && ContentAddressed(g.controls)
    ensures r.Ok? ==>
              && ResultShards(r.value) && Classified(r.value) == entries && (entries != [] ==> r.value != [])
              && (DistinctObjects(entries) ==> DistinctDigests(r.value))
              && (forall d :: d in r.value ==> ShardStored(g.controls, d) && ShardBytes(d.preimage.entries) <= maxShardBytes)
    ensures r.Rejected? ==> r.code == "result_shard_bound" && maxShardBytes < 2 + MAX_ENTRY_BYTES && g.controls == old(g.controls)
    ensures old(g.faults) <= g.faults && (r.Interrupted() ==> old(g.faults) < g.faults)
  {
    var chunked := Chunk(entries, maxShardBytes);
    if chunked == None { return Rejected("result_shard_bound"); }
    var chunks := chunked.value;
    var digests := ShardDigestsOf(chunks);
    ClassifiedChunks(chunks);
    if DistinctObjects(entries) { ShardsDistinct(digests); }
    var i := 0;
    while i < |chunks|
      invariant 0 <= i <= |chunks| && old(g.faults) <= g.faults
      invariant OnlyShardsAdded(old(g.controls), g.controls) && ContentAddressed(g.controls)
      invariant forall k :: 0 <= k < i ==> ShardStored(g.controls, digests[k])
    {
      var _ :- StoreShard(g, chunks[i]);
      i := i + 1;
    }
    return Ok(digests);
  }

  method StoreShard(g: Gateway, chunk: seq<Entry>) returns (r: Answer<()>)
    requires ContentAddressed(g.controls)
    modifies g`controls, g`faults
    ensures OnlyShardsAdded(old(g.controls), g.controls) && ContentAddressed(g.controls)
    ensures r.Ok? ==> ShardStored(g.controls, Sha256(ResultShard(chunk)))
    ensures old(g.faults) <= g.faults && (r.Interrupted() ==> old(g.faults) < g.faults) && !r.Rejected?
  {
    var body := ResultShard(chunk);
    var _ :- CreateIdentical(g, ResultShardKey(Sha256(body)), body);
    r := CheckDeadline(g);
  }

  /******* Manifest shards *******/

  ghost predicate ShardsWritten(c: Controls, shards: seq<seq<ObjectRecord>>)
  {
    forall i :: 0 <= i < |shards| ==>
      var k := ManifestKey(i, Sha256(ManifestShard(shards[i]))); k in c && c[k] == ManifestShard(shards[i])
  }

  method WriteManifest(g: Gateway, shards: seq<seq<ObjectRecord>>) returns (r: Answer<()>)
    requires ContentAddressed(g.controls)
    modifies g`controls, g`faults
    ensures OnlyShardsAdded(old(g.controls), g.controls) && ContentAddressed(g.controls)
    ensures r.Ok? ==> ShardsWritten(g.controls, shards)
    ensures old(g.faults) <= g.faults && (r.Interrupted() ==> old(g.faults) < g.faults) && !r.Rejected?
  {
    var i := 0;
    while i < |shards|
      invariant 0 <= i <= |shards| && old(g.faults) <= g.faults
      invariant OnlyShardsAdded(old(g.controls), g.controls) && ContentAddressed(g.controls)
      invariant ShardsWritten(g.controls, shards[..i])
    {
      var body := ManifestShard(shards[i]);
      var _ :- CreateIdentical(g, ManifestKey(i, Sha256(body)), body);
      i := i + 1;
    }
    assert shards[..i] == shards;
    return Ok(());
  }
}
