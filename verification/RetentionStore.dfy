/** The control store of one retention operation and the invariant its writers keep. */
module RetentionStore {
  import opened Records
  import opened RetentionLog

  function Flatten(shards: seq<seq<ObjectRecord>>): seq<ObjectRecord>
  {
    if shards == [] then [] else Flatten(shards[..|shards| - 1]) + shards[|shards| - 1]
  }

  predicate ManifestShards(ds: seq<Digest>)
  {
    forall i :: 0 <= i < |ds| ==> ds[i].preimage.ManifestShard?
  }

  // The records named by a list of manifest digests.
  function RecordsOf(ds: seq<Digest>): seq<ObjectRecord>
    requires ManifestShards(ds)
  {
    if ds == [] then [] else RecordsOf(ds[..|ds| - 1]) + ds[|ds| - 1].preimage.records
  }

  function ShardDigests(shards: seq<seq<ObjectRecord>>): (ds: seq<Digest>)
    ensures |ds| == |shards|
    ensures forall i :: 0 <= i < |ds| ==> ds[i] == Sha256(ManifestShard(shards[i]))
  {
    seq(|shards|, i requires 0 <= i < |shards| => Sha256(ManifestShard(shards[i])))
  }

  /** Writing a plan's shards and reading them back by digest gives the planned inventory, in order. */
  lemma {:induction false} ManifestRoundTrip(shards: seq<seq<ObjectRecord>>)
    ensures RecordsOf(ShardDigests(shards)) == Flatten(shards)
  {
    if shards != [] {
      ManifestRoundTrip(shards[..|shards| - 1]);
      assert ShardDigests(shards)[..|shards| - 1] == ShardDigests(shards[..|shards| - 1]);
    }
  }

  function AuditKeyOf(s: Status): ControlKey { AuditKey(s.sequence, Sha256(StatusBody(s))) }

  function AuditOf(s: Status, p: PreparedRecord): Audit
  {
    Audit(s, p, s.deletedBytes + s.remainingBytes, Sha256(StatusBody(s)))
  }

  // Control objects are only ever created: a store extends what it was.
  ghost predicate Extends(c: Controls, c': Controls)
  {
    forall k :: k in c ==> k in c' && c'[k] == c[k]
  }

  ghost predicate ManifestStored(c: Controls, p: PreparedRecord)
  {
    && ManifestShards(p.manifestShards)
    && (forall i :: 0 <= i < |p.manifestShards| ==>
          var k := ManifestKey(i, p.manifestShards[i]); k in c && c[k] == p.manifestShards[i].preimage)
  }

  ghost predicate PreparedAs(c: Controls, p: PreparedRecord)
  {
    PreparedKey in c && c[PreparedKey] == PreparedBody(p)
  }

  ghost predicate OperationOk(c: Controls, log: seq<Status>, p: PreparedRecord)
  {
    && ManifestStored(c, p)
    && PlanUsable(p)
    && AcceptedLog(c, p, RecordsOf(p.manifestShards), log)
  }

  // Every audit belongs to a logged attempt and agrees with it.
  ghost predicate AuditsOk(c: Controls, log: seq<Status>)
  {
    forall k :: k in c && k.AuditKey? ==>
      && PreparedKey in c && c[PreparedKey].PreparedBody?
      && 1 <= k.attempt <= |log| && k == AuditKeyOf(log[k.attempt - 1])
      && c[k] == AuditBody(AuditOf(log[k.attempt - 1], c[PreparedKey].prepared))
  }

  // Every logged attempt has its audit.
  ghost predicate AuditsComplete(c: Controls, log: seq<Status>, p: PreparedRecord)
  {
    forall i :: 0 <= i < |log| ==> AuditKeyOf(log[i]) in c && c[AuditKeyOf(log[i])] == AuditBody(AuditOf(log[i], p))
  }

  // Shards live under the digest of their own bytes.
  ghost predicate ContentAddressed(c: Controls)
  {
    forall k :: k in c ==>
      && (k.ManifestKey? ==> c[k] == k.digest.preimage)
      && (k.ResultShardKey? ==> c[k] == k.digest.preimage)
  }

  /** The invariant of every store that prepare and apply can produce. */
  ghost predicate StoreOk(c: Controls, log: seq<Status>)
  {
    && ContentAddressed(c)
    && LogOf(c, log)
    && AuditsOk(c, log)
    && (PreparedKey !in c ==> log == [])
    && (PreparedKey in c ==> c[PreparedKey].PreparedBody? && OperationOk(c, log, c[PreparedKey].prepared))
  }

  // The plan has a record, and no key twice.
  ghost predicate PlanUsable(p: PreparedRecord)
  {
    ManifestShards(p.manifestShards) && RecordsOf(p.manifestShards) != [] && DistinctKeys(RecordsOf(p.manifestShards))
  }

  /** The store after preparing a plan without records or with a repeated key, which nothing in
      prepare refuses. */
  ghost predicate Spoiled(c: Controls)
  {
    ContentAddressed(c) && PreparedKey in c && c[PreparedKey].PreparedBody? && !PlanUsable(c[PreparedKey].prepared)
  }

  lemma StoreAcceptsLog(c: Controls, log: seq<Status>, p: PreparedRecord)
    requires StoreOk(c, log) && PreparedAs(c, p)
    ensures Acceptable(c, p, RecordsOf(p.manifestShards))
  {
  }

  /******* One created control object at a time *******/

  lemma LogOfUnlessAttempt(c: Controls, log: seq<Status>, k: ControlKey, b: Body)
    requires LogOf(c, log) && k !in c && !k.AttemptKey?
    ensures LogOf(c[k := b], log)
  {
  }

  lemma AcceptedUnlessAttempt(c: Controls, log: seq<Status>, p: PreparedRecord, records: seq<ObjectRecord>, k: ControlKey, b: Body)
    requires AcceptedLog(c, p, records, log) && k !in c && !k.AttemptKey?
    ensures AcceptedLog(c[k := b], p, records, log)
  {
    hide LogOk, LogOf;
    LogOfUnlessAttempt(c, log, k, b);
    forall i | 0 <= i < |log| ensures ShardsStored(c[k := b], log[i]) {
      assert ShardsStored(c, log[i]);
    }
  }

  // `c'` is `c` plus content-addressed shards.
  ghost predicate OnlyShardsAdded(c: Controls, c': Controls)
  {
    && Extends(c, c')
    && (forall k :: k in c' && k !in c ==> (k.ManifestKey? || k.ResultShardKey?) && c'[k] == k.digest.preimage)
  }

  lemma ShardsKeepAccepted(c: Controls, c': Controls, log: seq<Status>, p: PreparedRecord, records: seq<ObjectRecord>)
    requires AcceptedLog(c, p, records, log) && OnlyShardsAdded(c, c')
    ensures AcceptedLog(c', p, records, log)
  {
    assert LogOf(c', log);
    forall i | 0 <= i < |log| ensures ShardsStored(c', log[i]) {
      assert ShardsStored(c, log[i]);
    }
  }

  lemma AddShards(c: Controls, c': Controls, log: seq<Status>)
    requires StoreOk(c, log) && OnlyShardsAdded(c, c')
    ensures StoreOk(c', log)
  {
    assert LogOf(c', log);
    assert PreparedKey in c' <==> PreparedKey in c;
    if PreparedKey in c {
      var p := c[PreparedKey].prepared;
      ShardsKeepAccepted(c, c', log, p, RecordsOf(p.manifestShards));
      assert ManifestStored(c', p);
    }
    assert AuditsOk(c', log) by {
      assert forall k :: k in c' && k.AuditKey? ==> k in c && c'[k] == c[k];
    }
  }

  lemma AddPrepared(c: Controls, p: PreparedRecord)
    requires StoreOk(c, []) && PreparedKey !in c && ManifestStored(c, p)
    requires PlanUsable(p)
    ensures StoreOk(c[PreparedKey := PreparedBody(p)], [])
  {
    var c' := c[PreparedKey := PreparedBody(p)];
    LogOfUnlessAttempt(c, [], PreparedKey, PreparedBody(p));
    assert OrderOk([]);
    assert LogOk([], p, RecordsOf(p.manifestShards));
    assert OperationOk(c', [], p);
  }

  lemma AuditsAdd(c: Controls, log: seq<Status>, p: PreparedRecord, i: nat)
    requires AuditsOk(c, log) && LogOf(c, log) && PreparedAs(c, p) && i < |log| && AuditKeyOf(log[i]) !in c
    ensures AuditsOk(c[AuditKeyOf(log[i]) := AuditBody(AuditOf(log[i], p))], log)
  {
  }

  lemma AddAudit(c: Controls, log: seq<Status>, p: PreparedRecord, i: nat)
    requires StoreOk(c, log) && PreparedAs(c, p) && i < |log| && AuditKeyOf(log[i]) !in c
    ensures StoreOk(c[AuditKeyOf(log[i]) := AuditBody(AuditOf(log[i], p))], log)
  {
    hide LogOk, LogOf, AuditsOk, AcceptedLog, DistinctKeys, RecordsOf, ManifestStored, ContentAddressed;
    var k, b := AuditKeyOf(log[i]), AuditBody(AuditOf(log[i], p));
    LogOfUnlessAttempt(c, log, k, b);
    AcceptedUnlessAttempt(c, log, p, RecordsOf(p.manifestShards), k, b);
    AuditsAdd(c, log, p, i);
    BesideShards(c, p, k, b);
  }

  // The next sequence number is not taken, whatever the digest.
  lemma FreshAttempt(c: Controls, log: seq<Status>, s: Status)
    requires LogOf(c, log) && s.sequence == |log| + 1
    ensures KeyOf(s) !in c
  {
    assert forall i :: 0 <= i < |log| ==> KeyOf(log[i]) != KeyOf(s);
  }

  lemma LogOfAppend(c: Controls, log: seq<Status>, s: Status)
    requires LogOf(c, log) && s.sequence == |log| + 1
    ensures LogOf(c[KeyOf(s) := StatusBody(s)], log + [s])
  {
    var c', log' := c[KeyOf(s) := StatusBody(s)], log + [s];
    FreshAttempt(c, log, s);
    assert forall i :: 0 <= i < |log| ==> log'[i] == log[i];
    assert log'[|log|] == s;
  }

  lemma AuditsOfLonger(c: Controls, log: seq<Status>, s: Status)
    requires AuditsOk(c, log) && KeyOf(s) !in c
    ensures AuditsOk(c[KeyOf(s) := StatusBody(s)], log + [s])
  {
    var log' := log + [s];
    assert forall i :: 0 <= i < |log| ==> log'[i] == log[i];
  }

  lemma ShardsOfLonger(c: Controls, log: seq<Status>, s: Status)
    requires KeyOf(s) !in c && ShardsStored(c, s)
    requires forall i :: 0 <= i < |log| ==> ShardsStored(c, log[i])
    ensures forall i :: 0 <= i < |log + [s]| ==> ShardsStored(c[KeyOf(s) := StatusBody(s)], (log + [s])[i])
  {
    forall i | 0 <= i < |log + [s]| ensures ShardsStored(c[KeyOf(s) := StatusBody(s)], (log + [s])[i]) {
      assert ShardsStored(c, (log + [s])[i]);
    }
  }

  lemma AddAttempt(c: Controls, log: seq<Status>, p: PreparedRecord, s: Status)
    requires StoreOk(c, log) && PreparedAs(c, p)
    requires LogOk(log + [s], p, RecordsOf(p.manifestShards)) && ShardsStored(c, s) && s.sequence == |log| + 1
    ensures KeyOf(s) !in c
    ensures StoreOk(c[KeyOf(s) := StatusBody(s)], log + [s])
  {
    hide LogOf, LogOk, AuditsOk, ShardsStored, PlanUsable, RecordsOf, ManifestStored, ContentAddressed;
    FreshAttempt(c, log, s);
    LogOfAppend(c, log, s);
    AuditsOfLonger(c, log, s);
    ShardsOfLonger(c, log, s);
    BesideShards(c, p, KeyOf(s), StatusBody(s));
  }

  // An attempt or an audit changes neither the shards nor the manifest.
  lemma BesideShards(c: Controls, p: PreparedRecord, k: ControlKey, b: Body)
    requires k.AttemptKey? || k.AuditKey?
    ensures ContentAddressed(c) ==> ContentAddressed(c[k := b])
    ensures ManifestStored(c, p) ==> ManifestStored(c[k := b], p)
  {
  }

  /** A store holds one log only. */
  lemma LogUnique(c: Controls, a: seq<Status>, b: seq<Status>)
    requires LogOf(c, a) && LogOf(c, b)
    ensures a == b
  {
    LogCovers(c, a, b);
    LogCovers(c, b, a);
  }

  lemma LogCovers(c: Controls, a: seq<Status>, b: seq<Status>)
    requires LogOf(c, a) && LogOf(c, b)
    ensures |a| <= |b| && forall i :: 0 <= i < |a| ==> a[i] == b[i]
  {
    forall i | 0 <= i < |a| ensures i < |b| && a[i] == b[i] {
      assert KeyOf(a[i]) in c;
    }
    if a != [] { assert a[|a| - 1] in a; assert |a| - 1 < |b|; }
  }
}
