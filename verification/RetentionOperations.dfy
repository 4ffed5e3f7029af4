/** `OperationManager` (scripts/checkpoints/operations.py): prepare and apply, for one operation.

    A method of the manager may be cut short by a crash at any gateway call; every exit,
    crashes included, satisfies its postconditions.  Calls on one operation are serialised.
    Clock readings and the outcome of revalidation are parameters. */
module RetentionOperations {
  import opened Options
  import opened Records
  import opened RetentionLog
  import opened RetentionStore
  import opened RetentionGateway
  import opened RetentionValidator
  import opened RetentionControls
  import opened RetentionTrace
  import opened RetentionDeletes

  /******* Requests *******/

  datatype PrepareRequest = PrepareRequest(artifact: PlanArtifact, planSha256: Digest, review: string, actor: string)

  datatype ApplyRequest = ApplyRequest(planSha256: Digest, confirmPrefix: string)

  // What the revalidation callback does: a fresh plan, or one of the exceptions apply tells apart.
  datatype Revalidation = Replanned(artifact: PlanArtifact) | RevalidationDeadline | GatewayError | OtherError | Interrupted

  datatype Call =
    | PrepareCall(prepare: PrepareRequest, preparedNow: int, statusNow: int)
    | ApplyCall(apply: ApplyRequest, now: int, outcome: Revalidation)

  // The checks on a fresh plan at revalidation.
  predicate Revalidates(policySha256: string, artifact: PlanArtifact, prefix: string, remaining: seq<ObjectRecord>)
  {
    && artifact.eligible && artifact.policySha256 == policySha256 && artifact.prefix == prefix
    && Some(artifact.inventorySha256) == InventoryDigest(remaining)
    && Flatten(artifact.shards) == remaining
  }

  // Nothing is left, or a fresh plan names exactly what is.
  predicate Cleared(policySha256: string, outcome: Revalidation, prefix: string, remaining: seq<ObjectRecord>)
  {
    remaining == [] || (outcome.Replanned? && Revalidates(policySha256, outcome.artifact, prefix, remaining))
  }

  // The plan of a request has a record, and no key twice.
  ghost predicate Usable(artifact: PlanArtifact)
  {
    Flatten(artifact.shards) != [] && DistinctKeys(Flatten(artifact.shards))
  }

  method UsableRecords(records: seq<ObjectRecord>) returns (ok: bool)
    ensures ok <==> records != [] && DistinctKeys(records)
  {
    CanonicalCharacterised(records);
    return records != [] && Canonical(records).Some?;
  }

  /******* Log growth *******/

  ghost function LoggedDeleted(log: seq<Status>): set<Digest>
  {
    if log == [] then {} else DeletedBy(log[|log| - 1])
  }

  // What an attempt must satisfy to be written next.
  ghost predicate NextOk(log: seq<Status>, state: State, deleted: set<Digest>, occurredAt: int)
  {
    if log == [] then state == Prepared
    else var last := log[|log| - 1];
         state != Prepared && last.state != Completed && Rank(last.state) <= Rank(state)
         && DeletedBy(last) <= deleted && last.occurredAt <= occurredAt
  }

  ghost predicate Appended(a: seq<Status>, b: seq<Status>, state: State, deleted: set<Digest>, occurredAt: int)
  {
    && |b| == |a| + 1 && a <= b
    && b[|a|].state == state && DeletedBy(b[|a|]) == deleted && b[|a|].occurredAt == occurredAt
  }

  // `b` is `a` and one attempt that says exactly this.
  ghost predicate Wrote(a: seq<Status>, b: seq<Status>, p: PreparedRecord, planned: seq<ObjectRecord>, state: State,
                        category: Option<Category>, deleted: set<Digest>, failed: set<Digest>, heads: nat, deletes: nat,
                        postflight: Option<Digest>, occurredAt: int)
  {
    && |b| == |a| + 1 && a <= b
    && var s := b[|a|];
    && s.operationId == p.operationId && s.checkpointId == p.checkpointId && s.planSha256 == p.planSha256
    && s.sequence == |a| + 1 && s.state == state && s.category == category && s.occurredAt == occurredAt
    && s.headRequests == heads && s.deleteRequests == deletes && s.postflight == postflight
    && s.plannedObjects == |planned| && s.deletedObjects == |deleted| && s.remainingObjects == |planned| - |deleted|
    && s.deletedBytes == TotalBytes(KeepIn(planned, deleted)) && s.remainingBytes == TotalBytes(planned) - s.deletedBytes
    && ResultShards(s.resultShards) && Tells(Classified(s.resultShards), planned, deleted, failed)
  }

  lemma WroteCounters(a: seq<Status>, b: seq<Status>, p: PreparedRecord, planned: seq<ObjectRecord>, state: State,
                      category: Option<Category>, deleted: set<Digest>, failed: set<Digest>, heads: nat, deletes: nat,
                      postflight: Option<Digest>, occurredAt: int)
    requires Wrote(a, b, p, planned, state, category, deleted, failed, heads, deletes, postflight, occurredAt)
    ensures |b| == |a| + 1 && b[|a|].state == state && b[|a|].category == category
    ensures b[|a|].headRequests == heads && b[|a|].deleteRequests == deletes
  {
  }

  // The attempt added last counts exactly the requests sent, and if it is partial, its category
  // says how they ended.
  ghost predicate Counted(before: seq<Status>, log: seq<Status>, events: seq<Event>)
  {
    log != before && log != [] ==>
      var s := log[|log| - 1];
      && (s.state in {Partial, Completed, Refused} ==> s.headRequests == HeadCalls(events) && s.deleteRequests == DeleteCalls(events))
      && (s.state == Partial ==> s.category.Some? && EndsBy(Stopped(s.category.value), events))
  }

  lemma NothingAdded(log: seq<Status>, events: seq<Event>)
    ensures Counted(log, log, events)
  {
  }

  lemma CountedAfterListing(before: seq<Status>, log: seq<Status>, listings: seq<Event>, events: seq<Event>)
    requires Counted(before, log, events) && (listings == [] || (|listings| == 1 && EndsEmpty(listings)))
    ensures Counted(before, log, listings + events)
  {
    TallyConcat(listings, events);
    if listings != [] { ListingsHaveNoHeads(listings); }
    NoDeletesConfirmNothing(listings);
    if events == [] {
      assert listings + events == listings;
    } else {
      forall c ensures EndsBy(Stopped(c), listings + events) <==> EndsBy(Stopped(c), events) {
        LastDecides(Stopped(c), {}, listings, events, []);
      }
    }
  }

  // No attempt, or the first one, which deletes nothing.
  ghost predicate AtMostPrepared(log: seq<Status>)
  {
    log == [] || (|log| == 1 && log[0].state == Prepared && DeletedBy(log[0]) == {})
  }

  ghost predicate SameAudits(c: Controls, c': Controls)
  {
    forall k: ControlKey :: k.AuditKey? ==> (k in c <==> k in c')
  }

  predicate Finished(log: seq<Status>)
  {
    log != [] && log[|log| - 1].state == Completed
  }

  ghost predicate Audited(c: Controls, s: Status, p: PreparedRecord)
  {
    AuditKeyOf(s) in c && c[AuditKeyOf(s)] == AuditBody(AuditOf(s, p))
  }

  /******* The manager *******/

  class OperationManager {
    const gateway: Gateway
    const operationId: string
    const checkpointId: string
    const policySha256: string
    const quiescence: nat
    const maxDeleteKeys: nat
    const maxShardBytes: nat
    ghost var log: seq<Status>

    /** The store is one that prepare and apply produce, with an attempt log that can be listed;
        or an unusable plan was prepared. */
    ghost predicate Valid()
      reads this, gateway
    {
      maxDeleteKeys >= 1 && |log| <= MAX_ATTEMPTS && (StoreOk(gateway.controls, log) || Stuck())
    }

    // An unusable plan was prepared: the attempts stored are the log, at most its first.
    ghost predicate Stuck()
      reads this, gateway
    {
      Spoiled(gateway.controls) && LogOf(gateway.controls, log) && AtMostPrepared(log)
    }

    // The operation is prepared as `p`, and `planned` is its manifest.
    ghost predicate Ready(p: PreparedRecord, planned: seq<ObjectRecord>)
      reads this, gateway
    {
      && maxDeleteKeys >= 1 && |log| <= MAX_ATTEMPTS && StoreOk(gateway.controls, log)
      && PreparedAs(gateway.controls, p) && planned == RecordsOf(p.manifestShards)
    }

    /** Every delete ever sent was allowed and within the bound, everything logged as deleted was confirmed by an
        answer, and a completed log follows an empty listing after the last delete. */
    ghost predicate SafeFor(planned: seq<ObjectRecord>)
      reads this, gateway
    {
      && SafeTrace(gateway.trace, Members(planned)) && BatchesWithin(gateway.trace, maxDeleteKeys)
      && LoggedDeleted(log) <= Confirmed(gateway.trace)
      && (Finished(log) ==> CleanedUp(gateway.trace))
    }

    // With no usable plan prepared, no delete was ever sent.
    ghost predicate Safe()
      requires Valid()
      reads this, gateway
    {
      if PreparedKey in gateway.controls && !Spoiled(gateway.controls)
      then SafeFor(RecordsOf(gateway.controls[PreparedKey].prepared.manifestShards))
      else NoDeletes(gateway.trace)
    }

    // There is room for another attempt, and its shards fit.
    ghost predicate Room(attempts: nat)
      reads this
    {
      |log| + attempts <= MAX_ATTEMPTS && 2 + MAX_ENTRY_BYTES <= maxShardBytes
    }

    lemma PreparedReady(p: PreparedRecord)
      requires Valid() && !Spoiled(gateway.controls) && PreparedAs(gateway.controls, p)
      ensures ManifestShards(p.manifestShards) && Ready(p, RecordsOf(p.manifestShards))
      ensures Safe() <==> SafeFor(RecordsOf(p.manifestShards))
    {
    }

    lemma ReadyValid(p: PreparedRecord, planned: seq<ObjectRecord>)
      requires Ready(p, planned)
      ensures Valid() && !Spoiled(gateway.controls) && PreparedKey in gateway.controls && gateway.controls[PreparedKey] == PreparedBody(p)
      ensures Safe() <==> SafeFor(planned)
    {
    }

    lemma ReadyFacts(p: PreparedRecord, planned: seq<ObjectRecord>)
      requires Ready(p, planned)
      ensures planned != [] && DistinctKeys(planned)
      ensures LogOk(log, p, planned) && LogOf(gateway.controls, log)
      ensures ManifestStored(gateway.controls, p)
    {
    }

    constructor (operationId: string, checkpointId: string, policySha256: string, quiescence: nat,
                 maxDeleteKeys: nat, maxShardBytes: nat)
      requires maxDeleteKeys >= 1
      ensures Valid() && Safe() && log == [] && fresh(gateway) && gateway.trace == []
      ensures this.operationId == operationId && this.checkpointId == checkpointId
      ensures this.policySha256 == policySha256 && this.quiescence == quiescence
      ensures this.maxDeleteKeys == maxDeleteKeys && this.maxShardBytes == maxShardBytes
    {
      this.operationId, this.checkpointId, this.policySha256 := operationId, checkpointId, policySha256;
      this.quiescence, this.maxDeleteKeys, this.maxShardBytes := quiescence, maxDeleteKeys, maxShardBytes;
      gateway := new Gateway();
      log := [];
    }

    /******* Appending attempts *******/

    // Stores the classification of the next attempt.
    method StoreClassification(p: PreparedRecord, planned: seq<ObjectRecord>, es: seq<Entry>) returns (r: Answer<seq<Digest>>)
      requires Ready(p, planned) && DistinctObjects(es) && es != []
      modifies gateway`controls, gateway`faults
      ensures Ready(p, planned) && OnlyShardsAdded(old(gateway.controls), gateway.controls)
      ensures r.Ok? ==>
                && r.value != [] && ResultShards(r.value) && DistinctDigests(r.value) && Classified(r.value) == es
                && (forall d :: d in r.value ==> ShardStored(gateway.controls, d))
      ensures old(gateway.faults) <= gateway.faults && (r.Interrupted() ==> old(gateway.faults) < gateway.faults)
      ensures r.Rejected? ==> r.code == "result_shard_bound" && !Room(1)
    {
      r := WriteResultShards(gateway, es, maxShardBytes);
      AddShards(old(gateway.controls), gateway.controls, log);
    }

    // The length of the log, as the store lists it.
    method CountAttempts(p: PreparedRecord, planned: seq<ObjectRecord>) returns (r: Answer<nat>)
      requires Ready(p, planned)
      modifies gateway`faults
      ensures r.Ok? ==> r.value == |log|
      ensures !r.Rejected?
      ensures old(gateway.faults) <= gateway.faults && (r.Interrupted() ==> old(gateway.faults) < gateway.faults)
    {
      hide StoreOk, LogOf, LogOk, DistinctKeys, ManifestStored;
      ReadyFacts(p, planned);
      LogCount(gateway.controls, log);
      var listed := gateway.ListAttempts();
      if listed.Died? { return Crashed; }
      if !listed.Got? { return Unavailable("status_read_failed"); }
      return Ok(|listed.value|);
    }

    // Creates the attempt object; the log grows exactly when the object was created.
    method AppendAttempt(p: PreparedRecord, planned: seq<ObjectRecord>, s: Status) returns (r: Answer<()>)
      requires Ready(p, planned) && s.sequence == |log| + 1 <= MAX_ATTEMPTS
      requires LogOk(log + [s], p, planned) && ShardsStored(gateway.controls, s)
      modifies gateway`controls, gateway`faults, this`log
      ensures Ready(p, planned)
      ensures Extends(old(gateway.controls), gateway.controls) && SameAudits(old(gateway.controls), gateway.controls)
      ensures log == old(log) || log == old(log) + [s]
      ensures r.Ok? ==> log == old(log) + [s]
      ensures !r.Rejected?
      ensures old(gateway.faults) <= gateway.faults && (r.Interrupted() ==> old(gateway.faults) < gateway.faults)
    {
      hide StoreOk, LogOk, StatusOk;
      AddAttempt(gateway.controls, log, p, s);
      r := CreateIdentical(gateway, KeyOf(s), StatusBody(s));
      if KeyOf(s) in gateway.controls { log := log + [s]; }
    }

    // Numbers the next attempt after those listed and appends it.
    method LogAttempt(p: PreparedRecord, planned: seq<ObjectRecord>, state: State, category: Option<Category>,
                      deleted: set<Digest>, ghost failed: set<Digest>, heads: nat, deletes: nat,
                      postflight: Option<Digest>, occurredAt: int, shards: seq<Digest>) returns (r: Answer<Status>)
      requires Ready(p, planned)
      requires RequestOk(planned, state, category, deleted, failed, heads, deletes, postflight)
      requires NextOk(log, state, deleted, occurredAt)
      requires shards != [] && ResultShards(shards) && DistinctDigests(shards)
      requires Classified(shards) == Classifications(planned, deleted, failed)
      requires forall d :: d in shards ==> ShardStored(gateway.controls, d)
      modifies gateway`controls, gateway`faults, this`log
      ensures Ready(p, planned)
      ensures Extends(old(gateway.controls), gateway.controls) && SameAudits(old(gateway.controls), gateway.controls)
      ensures log == old(log) || Appended(old(log), log, state, deleted, occurredAt)
      ensures log == old(log) || Wrote(old(log), log, p, planned, state, category, deleted, failed, heads, deletes, postflight, occurredAt)
      ensures r.Ok? ==> log != old(log) && r.value == log[|log| - 1]
      ensures r.Rejected? ==> r.code == "attempt_bound" && |old(log)| == MAX_ATTEMPTS
      ensures old(gateway.faults) <= gateway.faults && (r.Interrupted() ==> old(gateway.faults) < gateway.faults)
    {
      hide StoreOk, LogOk, RequestOk, NextOk, DistinctDigests, DeletedBy, NewStatus, Wrote, Appended, DistinctKeys, LogOf;
      ReadyFacts(p, planned);
      var count :- CountAttempts(p, planned);
      if count + 1 > MAX_ATTEMPTS { return Rejected("attempt_bound"); }
      var s := NewStatus(p, planned, count + 1, state, category, deleted, heads, deletes, postflight, occurredAt, shards);
      NextAttempt(log, p, planned, state, category, deleted, failed, heads, deletes, postflight, occurredAt, shards);
      var _ :- AppendAttempt(p, planned, s);
      var _ :- CheckDeadline(gateway);
      return Ok(s);
    }

    /** `_record_status`: appends exactly one attempt, or nothing. */
    method RecordStatus(p: PreparedRecord, planned: seq<ObjectRecord>, state: State, category: Option<Category>,
                        deleted: set<Digest>, failed: set<Digest>, heads: nat, deletes: nat,
                        postflight: Option<Digest>, occurredAt: int) returns (r: Answer<Status>)
      requires Ready(p, planned)
      requires RequestOk(planned, state, category, deleted, failed, heads, deletes, postflight)
      requires NextOk(log, state, deleted, occurredAt)
      modifies gateway`controls, gateway`faults, this`log
      ensures Ready(p, planned)
      ensures Extends(old(gateway.controls), gateway.controls) && SameAudits(old(gateway.controls), gateway.controls)
      ensures log == old(log) || Appended(old(log), log, state, deleted, occurredAt)
      ensures log == old(log) || Wrote(old(log), log, p, planned, state, category, deleted, failed, heads, deletes, postflight, occurredAt)
      ensures r.Ok? ==> log != old(log) && r.value == log[|log| - 1]
      ensures r.Rejected? ==> r.code in {"result_shard_bound", "attempt_bound"} && !old(Room(1))
      ensures old(gateway.faults) <= gateway.faults && (r.Interrupted() ==> old(gateway.faults) < gateway.faults)
    {
      hide StoreOk, LogOk, RequestOk, NextOk, Appended, Wrote;
      ReadyFacts(p, planned);
      var es := Classifications(planned, deleted, failed);
      ClassificationsCover(planned, deleted, failed);
      var shards :- StoreClassification(p, planned, es);
      r := LogAttempt(p, planned, state, category, deleted, failed, heads, deletes, postflight, occurredAt, shards);
    }

    /******* Audits *******/

    lemma AuditAgrees(p: PreparedRecord, planned: seq<ObjectRecord>, i: nat)
      requires Ready(p, planned) && i < |log| && AuditKeyOf(log[i]) in gateway.controls
      ensures gateway.controls[AuditKeyOf(log[i])] == AuditBody(AuditOf(log[i], p))
    {
    }

    lemma AuditTotals(p: PreparedRecord, planned: seq<ObjectRecord>, i: nat)
      requires Ready(p, planned) && i < |log|
      ensures log[i].deletedBytes + log[i].remainingBytes == TotalBytes(planned)
    {
      hide StatusOk;
      ReadyFacts(p, planned);
      StatusConserves(log[i], p, planned);
    }

    /** `_ensure_audit`: the audit of a logged attempt is there and agrees, or is created. */
    method EnsureAudit(p: PreparedRecord, planned: seq<ObjectRecord>, s: Status, ghost i: nat) returns (r: Answer<()>)
      requires Ready(p, planned) && i < |log| && log[i] == s
      modifies gateway`controls, gateway`faults
      ensures Ready(p, planned) && Extends(old(gateway.controls), gateway.controls)
      ensures r.Ok? ==> Audited(gateway.controls, s, p)
      ensures r.Ok? ==> var a := gateway.controls[AuditKeyOf(s)].audit;
                        && a.status == s && a.prepared == p && a.resultSha256 == Sha256(StatusBody(s)) && a.plannedBytes == TotalBytes(planned)
      ensures !r.Rejected?
      ensures old(gateway.faults) <= gateway.faults && (r.Interrupted() ==> old(gateway.faults) < gateway.faults)
    {
      hide StoreOk;
      var key, body := AuditKeyOf(s), AuditBody(AuditOf(s, p));
      AuditTotals(p, planned, i);
      if key in gateway.controls {
        AuditAgrees(p, planned, i);
      } else {
        AddAudit(gateway.controls, log, p, i);
      }
      var existing := gateway.ReadControl(key);
      match existing {
        case Got(found) =>
          if found != body { return Rejected("control_conflict"); }
          return Ok(());
        case Died => return Crashed;
        case DeadlinePassed => return Unavailable("operation_deadline");
        case Failure => return Unavailable("audit_read_failed");
        case Missing => r := CreateIdentical(gateway, key, body);
      }
    }

    method RepairAudits(p: PreparedRecord, planned: seq<ObjectRecord>, statuses: seq<Status>) returns (r: Answer<()>)
      requires Ready(p, planned) && statuses == log
      modifies gateway`controls, gateway`faults
      ensures Ready(p, planned) && Extends(old(gateway.controls), gateway.controls)
      ensures r.Ok? ==> AuditsComplete(gateway.controls, log, p)
      ensures !r.Rejected?
      ensures old(gateway.faults) <= gateway.faults && (r.Interrupted() ==> old(gateway.faults) < gateway.faults)
    {
      hide StoreOk;
      var i := 0;
      while i < |statuses|
        invariant 0 <= i <= |statuses| && old(gateway.faults) <= gateway.faults
        invariant Ready(p, planned) && Extends(old(gateway.controls), gateway.controls)
        invariant forall j :: 0 <= j < i ==> Audited(gateway.controls, log[j], p)
      {
        ghost var c := gateway.controls;
        var _ :- EnsureAudit(p, planned, statuses[i], i);
        forall j | 0 <= j < i ensures Audited(gateway.controls, log[j], p) {
          assert Audited(c, log[j], p);
        }
        i := i + 1;
      }
      return Ok(());
    }

    /******* Reading the operation back *******/

    /** The validator reads back whole every log these methods produced: it never refuses one,
        and unless a gateway call fails it returns exactly the log. */
    method ReadOwnLog(p: PreparedRecord, planned: seq<ObjectRecord>) returns (r: Answer<seq<Status>>)
      requires Ready(p, planned)
      modifies gateway`faults
      ensures r.Ok? ==> r.value == log
      ensures !r.Rejected?
      ensures old(gateway.faults) <= gateway.faults && (old(gateway.faults) == gateway.faults ==> r == Ok(log))
    {
      hide StoreOk, LogOk, LogOf, ShardsStored;
      ReadyFacts(p, planned);
      StoreAcceptsLog(gateway.controls, log, p);
      LogCount(gateway.controls, log);
      r := ReadLog(gateway, p, planned);
      if r.Ok? { LogUnique(gateway.controls, r.value, log); }
    }

    /** `_latest_status`: the last attempt, with every audit repaired on request. */
    method LatestStatus(required: bool, p: PreparedRecord, planned: seq<ObjectRecord>, repairAudits: bool) returns (r: Answer<Option<Status>>)
      requires Ready(p, planned)
      modifies gateway`controls, gateway`faults
      ensures Ready(p, planned) && Extends(old(gateway.controls), gateway.controls)
      ensures !repairAudits ==> gateway.controls == old(gateway.controls)
      ensures r.Ok? ==> r.value == if log == [] then None else Some(log[|log| - 1])
      ensures r.Ok? && repairAudits ==> AuditsComplete(gateway.controls, log, p)
      ensures r.Rejected? ==> required && log == []
      ensures old(gateway.faults) <= gateway.faults && (r.Interrupted() ==> old(gateway.faults) < gateway.faults)
    {
      hide StoreOk, LogOk;
      var found :- ReadOwnLog(p, planned);
      if found == [] {
        return if required then Rejected("status_missing") else Ok(None);
      }
      if repairAudits {
        var _ :- RepairAudits(p, planned, found);
      }
      return Ok(Some(found[|found| - 1]));
    }

    // The checks of `_decode_prepared`.
    predicate Decodable(p: PreparedRecord)
    {
      && p.operationId == operationId && p.checkpointId == checkpointId
      && p.manifestShards != [] && DistinctDigests(p.manifestShards) && p.evaluatedAt <= p.preparedAt
    }

    /** `_decode_prepared`. */
    method ReadPrepared() returns (r: Answer<PreparedRecord>)
      modifies gateway`faults
      ensures r.Ok? ==> PreparedAs(gateway.controls, r.value) && Decodable(r.value) && r.value.policySha256 == policySha256
      ensures r.Ok? ==> && r.value.operationId == operationId && r.value.checkpointId == checkpointId
                        && r.value.manifestShards != [] && DistinctDigests(r.value.manifestShards) && r.value.evaluatedAt <= r.value.preparedAt
      ensures r.Rejected? ==> !(&& PreparedKey in gateway.controls && gateway.controls[PreparedKey].PreparedBody?
                                && Decodable(gateway.controls[PreparedKey].prepared)
                                && gateway.controls[PreparedKey].prepared.policySha256 == policySha256)
      ensures old(gateway.faults) <= gateway.faults && (r.Interrupted() ==> old(gateway.faults) < gateway.faults)
    {
      var body :- ReadBody(gateway, PreparedKey, "prepared_read_failed");
      if !body.PreparedBody? { return Rejected("prepared_invalid"); }
      var p := body.prepared;
      if !Decodable(p) { return Rejected("prepared_invalid"); }
      if p.policySha256 != policySha256 { return Rejected("policy_drift"); }
      return Ok(p);
    }

    /** `_read_bound_manifest`: the manifest named by the prepared record, in order.  An unusable
        plan is always refused here. */
    method ReadBoundManifest(p: PreparedRecord) returns (r: Answer<seq<ObjectRecord>>)
      modifies gateway`faults
      ensures r.Ok? ==>
                && PlanUsable(p) && r.value == RecordsOf(p.manifestShards) && InventoryDigest(r.value) == Some(p.inventorySha256)
      ensures r.Rejected? ==> !(ManifestStored(gateway.controls, p) && PlanUsable(p)
                                && InventoryDigest(RecordsOf(p.manifestShards)) == Some(p.inventorySha256))
      ensures old(gateway.faults) <= gateway.faults && (r.Interrupted() ==> old(gateway.faults) < gateway.faults)
    {
      hide DistinctKeys, InventoryDigest;
      var records: seq<ObjectRecord> := [];
      var i := 0;
      while i < |p.manifestShards|
        invariant 0 <= i <= |p.manifestShards| && old(gateway.faults) <= gateway.faults
        invariant ManifestShards(p.manifestShards[..i]) && records == RecordsOf(p.manifestShards[..i])
      {
        var d := p.manifestShards[i];
        var body :- ReadBody(gateway, ManifestKey(i, d), "manifest_read_failed");
        if Sha256(body) != d { return Rejected("manifest_digest_mismatch"); }
        if !body.ManifestShard? { return Rejected("manifest_invalid"); }
        ManifestPrefix(p.manifestShards, i);
        records := records + body.records;
        i := i + 1;
      }
      assert p.manifestShards[..i] == p.manifestShards;
      if records == [] { return Rejected("manifest_empty"); }
      var digest := InventoryDigest(records);
      DigestedIsDistinct(records);
      if digest == None { return Rejected("duplicate_object"); }
      if digest.value != p.inventorySha256 { return Rejected("status_invalid"); }
      return Ok(records);
    }

    /** `_latest_or_reconstruct_prepared`. */
    method LatestOrReconstruct(p: PreparedRecord, planned: seq<ObjectRecord>) returns (r: Answer<Status>)
      requires Ready(p, planned)
      modifies gateway`controls, gateway`faults, this`log
      ensures Ready(p, planned) && Extends(old(gateway.controls), gateway.controls)
      ensures old(log) != [] ==> log == old(log)
      ensures old(log) == [] ==> log == [] || Appended([], log, Prepared, {}, p.preparedAt)
      ensures r.Ok? ==> log != [] && r.value == log[|log| - 1]
      ensures r.Rejected? ==> r.code in {"result_shard_bound", "attempt_bound"} && !old(Room(1))
      ensures old(gateway.faults) <= gateway.faults && (r.Interrupted() ==> old(gateway.faults) < gateway.faults)
    {
      hide StoreOk, LogOk, Wrote;
      var prior :- LatestStatus(false, p, planned, false);
      if prior.Some? { return Ok(prior.value); }
      var s :- RecordStatus(p, planned, Prepared, None, {}, {}, 0, 0, None, p.preparedAt);
      var _ :- EnsureAudit(p, planned, s, 0);
      return Ok(s);
    }

    /** `_prove_completed_absence`: success means that a listing just now was empty. */
    method ProveCompletedAbsence(s: Status) returns (r: Answer<()>, ghost events: seq<Event>)
      modifies gateway`trace, gateway`faults
      ensures gateway.trace == old(gateway.trace) + events && NoDeletes(events)
      ensures r.Ok? ==> EndsEmpty(events) && s.postflight == Some(EmptyInventory)
      ensures r.Rejected? ==> !Smooth(events) || s.postflight != Some(EmptyInventory)
      ensures old(gateway.faults) <= gateway.faults && (r.Interrupted() ==> old(gateway.faults) < gateway.faults)
    {
      var listed := gateway.Inventory();
      events := [Listing(listed)];
      if listed.Died? { return Crashed, events; }
      if !listed.Got? { return Unavailable("inventory_failed"), events; }
      r := CheckDeadline(gateway);
      if !r.Ok? { return; }
      assert listed.value != [] ==> !Fine(events[0]);
      if listed.value != [] || s.postflight != Some(EmptyInventory) { r := Rejected("status_invalid"); }
    }

    /******* Apply *******/

    lemma LastIsReadable(p: PreparedRecord, planned: seq<ObjectRecord>)
      requires Ready(p, planned) && log != []
      ensures ClassificationReadable(gateway.controls, log[|log| - 1], planned)
    {
      assert StatusOk(log[|log| - 1], p, planned);
    }

    // Under what a refusal before the first batch is logged.
    ghost function RefusalFor(remaining: seq<ObjectRecord>, outcome: Revalidation, listings: seq<Event>): Category
    {
      if remaining != [] then if outcome.Replanned? then RevalidationMismatch else RevalidationFailed
      else if listings == [Listing(DeadlinePassed)] then OperationDeadline else RevalidationMismatch
    }

    // Logs a refusal that deleted nothing, audits it, and fails.
    method Refuse(p: PreparedRecord, planned: seq<ObjectRecord>, prior: set<Digest>, category: Category, now: int) returns (r: Answer<()>)
      requires Ready(p, planned) && prior == LoggedDeleted(log) && log != [] && !Finished(log) && log[|log| - 1].occurredAt <= now
      requires category in {OperationDeadline, RevalidationFailed, RevalidationMismatch}
      modifies gateway`controls, gateway`faults, this`log
      ensures Ready(p, planned) && Extends(old(gateway.controls), gateway.controls)
      ensures log == old(log) || Appended(old(log), log, Refused, prior, now)
      ensures log == old(log) || Wrote(old(log), log, p, planned, Refused, Some(category), prior, {}, 0, 0, None, now)
      ensures old(gateway.faults) <= gateway.faults && !r.Ok?
    {
      hide StoreOk, LogOk, LogOf, ManifestStored, DeletedBy, DistinctKeys, Wrote;
      ReadyFacts(p, planned);
      LoggedWithin(log, p, planned);
      var s :- RecordStatus(p, planned, Refused, Some(category), prior, {}, 0, 0, None, now);
      var _ :- EnsureAudit(p, planned, s, |log| - 1);
      return Unavailable("revalidation");
    }

    /** Lines 318 to 402: passes exactly when a fresh plan names the records that are left, or,
        with nothing left, when a listing just now was empty; otherwise at most one refusal is
        logged. */
    method Revalidate(p: PreparedRecord, planned: seq<ObjectRecord>, remaining: seq<ObjectRecord>, prior: set<Digest>,
                      prefix: string, now: int, outcome: Revalidation) returns (r: Answer<()>, ghost events: seq<Event>)
      requires Ready(p, planned) && prior == LoggedDeleted(log) && log != [] && !Finished(log) && log[|log| - 1].occurredAt <= now
      modifies gateway, this`log
      ensures Ready(p, planned) && Extends(old(gateway.controls), gateway.controls)
      ensures gateway.trace == old(gateway.trace) + events && NoDeletes(events) && (remaining != [] ==> events == [])
      ensures log == old(log) || Appended(old(log), log, Refused, prior, now)
      ensures log == old(log) || Wrote(old(log), log, p, planned, Refused, Some(RefusalFor(remaining, outcome, events)), prior, {}, 0, 0, None, now)
      ensures r.Ok? ==> log == old(log) && gateway.controls == old(gateway.controls) && Cleared(policySha256, outcome, prefix, remaining)
      ensures Counted(old(log), log, events) && |events| <= 1 && (r.Ok? && remaining == [] ==> EndsEmpty(events))
      ensures old(gateway.faults) <= gateway.faults
      ensures !r.Ok? ==> old(gateway.faults) < gateway.faults || !Smooth(events) || !Cleared(policySha256, outcome, prefix, remaining)
    {
      hide StoreOk, LogOk, LogOf, ManifestStored, DeletedBy, DistinctKeys, Revalidates, Appended, Wrote;
      events := [];
      if remaining != [] {
        match outcome {
          case Interrupted => r := Crashed;
          case RevalidationDeadline => r := Unavailable("operation_deadline");
          case GatewayError => r := Unavailable("revalidation_failed");
          case OtherError => r := Refuse(p, planned, prior, RevalidationFailed, now);
          case Replanned(artifact) =>
            r := CheckDeadline(gateway);
            if r.Ok? && !Revalidates(policySha256, artifact, prefix, remaining) {
              r := Refuse(p, planned, prior, RevalidationMismatch, now);
            }
        }
      } else {
        var listed := gateway.Inventory();
        events := [Listing(listed)];
        match listed {
          case Got(left) =>
            if left == [] { return Ok(()), events; }
            assert !Fine(events[0]);
            r := Refuse(p, planned, prior, RevalidationMismatch, now);
          case DeadlinePassed => r := Refuse(p, planned, prior, OperationDeadline, now);
          case Died => r := Crashed;
          case _ => r := Unavailable("revalidation_failed");
        }
        ListingsHaveNoHeads(events);
      }
      NoDeletesConfirmNothing(events);
      if log != old(log) {
        WroteCounters(old(log), log, p, planned, Refused, Some(RefusalFor(remaining, outcome, events)), prior, {}, 0, 0, None, now);
      }
    }

    /** Logs an interrupted run; a failure to log it does not hide the failure itself. */
    method PersistFailure(p: PreparedRecord, planned: seq<ObjectRecord>, b: BatchReport, now: int) returns (r: Answer<()>)
      requires Ready(p, planned) && log != [] && !Finished(log) && log[|log| - 1].occurredAt <= now
      requires LoggedDeleted(log) <= b.deleted <= Digests(planned) && b.end.Stopped?
      requires b.end.category in {DeletePartial, HeadMismatch, OperationDeadline, PostflightNotEmpty}
      requires b.end.category == PostflightNotEmpty ==> b.deleted == Digests(planned)
      modifies gateway`controls, gateway`faults, this`log
      ensures Ready(p, planned) && Extends(old(gateway.controls), gateway.controls)
      ensures log == old(log) || Appended(old(log), log, if b.deleted == {} then Refused else Partial, b.deleted, now)
      ensures log == old(log) || Wrote(old(log), log, p, planned, if b.deleted == {} then Refused else Partial, Some(b.end.category),
                                       b.deleted, b.failed, b.heads, b.deletes, b.postflight, now)
      ensures old(gateway.faults) <= gateway.faults && !r.Ok?
    {
      hide StoreOk, LogOk, LogOf, ManifestStored, DeletedBy, DistinctKeys, Wrote;
      ReadyFacts(p, planned);
      assert RecordDigest(planned[0]) in Digests(planned);
      var state := if b.deleted == {} then Refused else Partial;
      var s := RecordStatus(p, planned, state, Some(b.end.category), b.deleted, b.failed, b.heads, b.deletes, b.postflight, now);
      if s.Crashed? { return Crashed; }
      if s.Ok? {
        var audited := EnsureAudit(p, planned, s.value, |log| - 1);
        if audited.Crashed? { return Crashed; }
      }
      return Unavailable("partial");
    }

    /** Logs a run whose every batch and whose postflight went through. */
    method RecordCompleted(p: PreparedRecord, planned: seq<ObjectRecord>, b: BatchReport, now: int) returns (r: Answer<Status>)
      requires Ready(p, planned) && log != [] && !Finished(log) && log[|log| - 1].occurredAt <= now
      requires LoggedDeleted(log) <= b.deleted == Digests(planned) && b.postflight == Some(EmptyInventory)
      requires AuditsComplete(gateway.controls, log, p)
      modifies gateway`controls, gateway`faults, this`log
      ensures Ready(p, planned) && Extends(old(gateway.controls), gateway.controls)
      ensures log == old(log) || Appended(old(log), log, Completed, b.deleted, now)
      ensures log == old(log) || Wrote(old(log), log, p, planned, Completed, None, b.deleted, {}, b.heads, b.deletes, b.postflight, now)
      ensures r.Ok? ==> Finished(log) && r.value == log[|log| - 1] && AuditsComplete(gateway.controls, log, p)
      ensures old(gateway.faults) <= gateway.faults && (!r.Ok? ==> old(gateway.faults) < gateway.faults || !old(Room(1)))
    {
      hide StoreOk, LogOk, LogOf, ManifestStored, DeletedBy, DistinctKeys, Wrote, AuditsComplete;
      ghost var c := gateway.controls;
      var s :- RecordStatus(p, planned, Completed, None, b.deleted, {}, b.heads, b.deletes, b.postflight, now);
      var _ :- EnsureAudit(p, planned, s, |log| - 1);
      assert log == old(log) + [s];
      AuditsGrow(c, gateway.controls, old(log), s, p);
      var _ :- CheckDeadline(gateway);
      return Ok(s);
    }

    /** Lines 403 to 504: the batches, and the one attempt that says how they went. */
    method DeleteAndRecord(p: PreparedRecord, planned: seq<ObjectRecord>, remaining: seq<ObjectRecord>, prior: set<Digest>, now: int)
      returns (r: Answer<Status>, ghost events: seq<Event>)
      requires Ready(p, planned) && prior == LoggedDeleted(log) && remaining == KeepOut(planned, prior)
      requires log != [] && !Finished(log) && log[|log| - 1].occurredAt <= now && AuditsComplete(gateway.controls, log, p)
      modifies gateway, this`log
      ensures Ready(p, planned) && Extends(old(gateway.controls), gateway.controls)
      ensures gateway.trace == old(gateway.trace) + events && SafeTrace(events, Members(planned)) && SentUnder(events, prior)
      ensures BatchesWithin(events, maxDeleteKeys) && (remaining == [] ==> NoDeletes(events))
      ensures old(log) <= log && |log| <= |old(log)| + 1 && LoggedDeleted(log) <= prior + Confirmed(events)
      ensures Counted(old(log), log, events) && (log != old(log) ==> LoggedDeleted(log) == prior + Confirmed(events))
      ensures Finished(log) ==> EndsEmpty(events) && Wrote(old(log), log, p, planned, Completed, None, Digests(planned), {},
                                                           |remaining|, DeleteCalls(events), Some(EmptyInventory), now)
      ensures r.Ok? ==> Finished(log) && r.value == log[|log| - 1] && AuditsComplete(gateway.controls, log, p)
      ensures old(gateway.faults) <= gateway.faults
      ensures !r.Ok? ==> old(gateway.faults) < gateway.faults || !Smooth(events) || !old(Room(1))
    {
      hide StoreOk, LogOk, LogOf, ManifestStored, DeletedBy, DistinctKeys, Wrote, AuditsComplete, SafeTrace, SentUnder, KeepOut,
        Confirmed, DeleteCalls, HeadCalls, Smooth, NoDeletes, Digests, Members, Extends, BatchesWithin, EndsBy, Blames, InProgress;
      ReadyFacts(p, planned);
      LoggedWithin(log, p, planned);
      var b;
      b, events := DeleteBatches(gateway, maxDeleteKeys, planned, remaining, prior);
      if b.end.Gone? {
        ExtendsItself(gateway.controls);
        return Crashed, events;
      }
      if b.end.Stopped? {
        var failure := PersistFailure(p, planned, b, now);
        if log != old(log) {
          WroteCounters(old(log), log, p, planned, if b.deleted == {} then Refused else Partial, Some(b.end.category),
                        b.deleted, b.failed, b.heads, b.deletes, b.postflight, now);
        }
        return failure.PropagateFailure(), events;
      }
      r := RecordCompleted(p, planned, b, now);
      if log != old(log) {
        WroteCounters(old(log), log, p, planned, Completed, None, b.deleted, {}, b.heads, b.deletes, b.postflight, now);
      }
    }

    // Lines 309 to 504: what is left after the last attempt is revalidated and deleted.
    method ApplyRemaining(p: PreparedRecord, planned: seq<ObjectRecord>, last: Status, prefix: string, now: int, outcome: Revalidation)
      returns (r: Answer<Status>, ghost events: seq<Event>)
      requires Ready(p, planned) && AuditsComplete(gateway.controls, log, p)
      requires log != [] && last == log[|log| - 1] && last.state != Completed && last.occurredAt <= now
      modifies gateway, this`log
      ensures Ready(p, planned) && Extends(old(gateway.controls), gateway.controls)
      ensures gateway.trace == old(gateway.trace) + events && SafeTrace(events, Members(planned))
      ensures SentUnder(events, LoggedDeleted(old(log))) && BatchesWithin(events, maxDeleteKeys) && Counted(old(log), log, events)
      ensures old(log) <= log && LoggedDeleted(log) <= LoggedDeleted(old(log)) + Confirmed(events)
      ensures !NoDeletes(events) || Finished(log) ==>
                Cleared(policySha256, outcome, prefix, KeepOut(planned, LoggedDeleted(old(log))))
      ensures KeepOut(planned, LoggedDeleted(old(log))) == [] ==> NoDeletes(events)
      ensures Finished(log) ==> EndsEmpty(events)
      ensures r.Ok? ==> Finished(log) && r.value == log[|log| - 1] && AuditsComplete(gateway.controls, log, p)
      ensures old(gateway.faults) <= gateway.faults
      ensures !r.Ok? ==> || old(gateway.faults) < gateway.faults || !Smooth(events) || !old(Room(1))
                         || !Cleared(policySha256, outcome, prefix, KeepOut(planned, LoggedDeleted(old(log))))
    {
      hide StoreOk, LogOk, LogOf, ManifestStored, DistinctKeys, AuditsComplete, SafeTrace, SentUnder, Confirmed, Smooth, NoDeletes,
        Cleared, KeepOut, Members, Digests, ClassificationOk, Wrote, BatchesWithin, EndsBy, Blames, InProgress, Counted;
      events := [];
      NoDeletesSafe(events, Members(planned), LoggedDeleted(log));
      EmptyTally();
      NothingAdded(log, events);
      LastIsReadable(p, planned);
      var read := ReadClassification(gateway, last, planned);
      if !read.Ok? { return read.PropagateFailure(), events; }
      var es := read.value;
      var prior := set e | e in es && e.outcome.Deleted? :: e.target;
      ReadableDeleted(gateway.controls, last, planned);
      assert prior == LoggedDeleted(log);
      var remaining := KeepOut(planned, prior);
      var cleared;
      cleared, events := Revalidate(p, planned, remaining, prior, prefix, now, outcome);
      NoDeletesSafe(events, Members(planned), prior);
      NoDeletesConfirmNothing(events);
      if !cleared.Ok? { return cleared.PropagateFailure(), events; }
      ghost var more;
      r, more := DeleteAndRecord(p, planned, remaining, prior, now);
      SafeConcat(events, more, Members(planned));
      SentConcat(events, more, prior);
      WithinConcat(events, more, maxDeleteKeys);
      TallyConcat(events, more);
      DeletesConcat(events, more);
      CountedAfterListing(old(log), log, events, more);
      events := events + more;
    }

    /** `_apply_locked`, on the manifest that its first lines read. */
    method ApplyLocked(p: PreparedRecord, planned: seq<ObjectRecord>, prefix: string, now: int, outcome: Revalidation)
      returns (r: Answer<Status>, ghost events: seq<Event>)
      requires Ready(p, planned)
      modifies gateway, this`log
      ensures Ready(p, planned) && Extends(old(gateway.controls), gateway.controls)
      ensures gateway.trace == old(gateway.trace) + events && SafeTrace(events, Members(planned))
      ensures SentUnder(events, LoggedDeleted(old(log))) && BatchesWithin(events, maxDeleteKeys) && Counted(old(log), log, events)
      ensures old(log) <= log && LoggedDeleted(log) <= LoggedDeleted(old(log)) + Confirmed(events)
      ensures Finished(old(log)) ==> log == old(log) && NoDeletes(events)
      ensures !NoDeletes(events) || (Finished(log) && !Finished(old(log))) ==>
                Cleared(policySha256, outcome, prefix, KeepOut(planned, LoggedDeleted(old(log))))
      ensures KeepOut(planned, LoggedDeleted(old(log))) == [] ==> NoDeletes(events)
      ensures Finished(log) && !Finished(old(log)) ==> EndsEmpty(events)
      ensures r.Ok? ==> && log != [] && r.value == log[|log| - 1] && (Finished(log) ==> EndsEmpty(events))
                        && ((Finished(log) && AuditsComplete(gateway.controls, log, p)) || now < r.value.occurredAt)
      ensures old(gateway.faults) <= gateway.faults
      ensures (old(log) == [] ==> p.preparedAt <= now) && (old(log) != [] && !Finished(old(log)) ==> old(log)[|old(log)| - 1].occurredAt <= now)
              && (Finished(old(log)) || Cleared(policySha256, outcome, prefix, KeepOut(planned, LoggedDeleted(old(log))))) && old(Room(2))
              ==> (r.Ok? && Finished(log)) || old(gateway.faults) < gateway.faults || !Smooth(events)
    {
      hide StoreOk, LogOk, LogOf, ManifestStored, DistinctKeys, DeletedBy, SafeTrace, AuditsComplete, KeepOut, Cleared, SentUnder,
        Confirmed, Smooth, NoDeletes, Members, BatchesWithin;
      events := [];
      NoDeletesSafe(events, Members(planned), LoggedDeleted(log));
      EmptyTally();
      var late := CheckDeadline(gateway);
      if !late.Ok? { return late.PropagateFailure(), events; }
      var latest := LatestOrReconstruct(p, planned);
      ReconstructedDeletesNothing(p, planned);
      if !latest.Ok? { return latest.PropagateFailure(), events; }
      var first := latest.value;
      if first.state == Completed {
        r, events := ApplyCompleted(p, planned, first);
        NoDeletesSafe(events, Members(planned), LoggedDeleted(log));
        NoDeletesConfirmNothing(events);
        return;
      }
      if now < first.occurredAt { return Ok(first), events; }
      var repaired := LatestStatus(true, p, planned, true);
      if !repaired.Ok? { return repaired.PropagateFailure(), events; }
      r, events := ApplyRemaining(p, planned, repaired.value.value, prefix, now, outcome);
    }

    lemma ReconstructedDeletesNothing(p: PreparedRecord, planned: seq<ObjectRecord>)
      requires Ready(p, planned)
      ensures log != [] && log[|log| - 1].state == Prepared ==> LoggedDeleted(log) == {}
    {
      if log != [] && log[|log| - 1].state == Prepared {
        ReadyFacts(p, planned);
        EarlyDeletesNothing(log, p, planned);
      }
    }

    // A completed operation: prove the absence again, and repair the audits.
    method ApplyCompleted(p: PreparedRecord, planned: seq<ObjectRecord>, last: Status) returns (r: Answer<Status>, ghost events: seq<Event>)
      requires Ready(p, planned) && Finished(log) && last == log[|log| - 1]
      modifies gateway
      ensures Ready(p, planned) && Extends(old(gateway.controls), gateway.controls)
      ensures gateway.trace == old(gateway.trace) + events && NoDeletes(events)
      ensures r.Ok? ==> r.value == log[|log| - 1] && EndsEmpty(events) && AuditsComplete(gateway.controls, log, p)
      ensures old(gateway.faults) <= gateway.faults && (!r.Ok? ==> old(gateway.faults) < gateway.faults || !Smooth(events))
    {
      hide StoreOk, LogOk, LogOf, ManifestStored, DistinctKeys, AuditsComplete;
      ReadyFacts(p, planned);
      CompletedMeansEverything(log, p, planned, |log| - 1);
      var proved;
      proved, events := ProveCompletedAbsence(last);
      if !proved.Ok? { return proved.PropagateFailure(), events; }
      var repaired := LatestStatus(true, p, planned, true);
      if !repaired.Ok? { return repaired.PropagateFailure(), events; }
      return Ok(repaired.value.value), events;
    }

    /** The early exit before the quiescence period is over: no delete is sent. */
    method ApplyNotReady(p: PreparedRecord, planned: seq<ObjectRecord>, now: int) returns (r: Answer<Status>, ghost events: seq<Event>)
      requires Ready(p, planned)
      modifies gateway, this`log
      ensures Ready(p, planned) && Extends(old(gateway.controls), gateway.controls)
      ensures gateway.trace == old(gateway.trace) + events && NoDeletes(events)
      ensures old(log) <= log && LoggedDeleted(log) == LoggedDeleted(old(log)) && (Finished(log) <==> Finished(old(log)))
      ensures log == old(log) || log[|log| - 1].state in {Prepared, NotReady}
      ensures Finished(old(log)) ==> log == old(log)
      ensures r.Ok? ==> log != [] && r.value == log[|log| - 1] && AuditsComplete(gateway.controls, log, p)
      ensures r.Ok? && Finished(log) ==> EndsEmpty(events)
      ensures old(gateway.faults) <= gateway.faults
      ensures !r.Ok? ==> old(gateway.faults) < gateway.faults || !Smooth(events) || !old(Room(2))
    {
      hide StoreOk, LogOk, LogOf, ManifestStored, DistinctKeys, AuditsComplete, Smooth, DeletedBy;
      events := [];
      var latest := LatestOrReconstruct(p, planned);
      ReconstructedDeletesNothing(p, planned);
      if !latest.Ok? { return latest.PropagateFailure(), events; }
      if latest.value.state == Completed {
        r, events := ApplyCompleted(p, planned, latest.value);
        return;
      }
      var repaired := LatestStatus(true, p, planned, true);
      if !repaired.Ok? { return repaired.PropagateFailure(), events; }
      var last := repaired.value.value;
      if last.state in {Refused, Partial} || now < last.occurredAt { return Ok(last), events; }
      r := LogNotReady(p, planned, now);
    }

    method LogNotReady(p: PreparedRecord, planned: seq<ObjectRecord>, now: int) returns (r: Answer<Status>)
      requires Ready(p, planned) && AuditsComplete(gateway.controls, log, p)
      requires log != [] && log[|log| - 1].state in {Prepared, NotReady} && log[|log| - 1].occurredAt <= now
      modifies gateway`controls, gateway`faults, this`log
      ensures Ready(p, planned) && Extends(old(gateway.controls), gateway.controls)
      ensures log == old(log) || Appended(old(log), log, NotReady, {}, now)
      ensures LoggedDeleted(old(log)) == {}
      ensures r.Ok? ==> log != [] && r.value == log[|log| - 1] && AuditsComplete(gateway.controls, log, p)
      ensures old(gateway.faults) <= gateway.faults && (!r.Ok? ==> old(gateway.faults) < gateway.faults || !old(Room(1)))
    {
      hide StoreOk, LogOk, LogOf, ManifestStored, DistinctKeys, DeletedBy, Wrote, AuditsComplete;
      ReadyFacts(p, planned);
      EarlyDeletesNothing(log, p, planned);
      ghost var c := gateway.controls;
      var s :- RecordStatus(p, planned, NotReady, Some(QuiescenceNotReady), {}, {}, 0, 0, None, now);
      var _ :- EnsureAudit(p, planned, s, |log| - 1);
      assert log == old(log) + [s];
      AuditsGrow(c, gateway.controls, old(log), s, p);
      return Ok(s);
    }

    // The record of this operation can be applied by this manager.
    ghost predicate Applicable(p: PreparedRecord)
    {
      && Decodable(p) && p.policySha256 == policySha256 && PlanUsable(p)
      && InventoryDigest(RecordsOf(p.manifestShards)) == Some(p.inventorySha256)
    }

    // The prepared record of a store that has one.
    ghost function PreparedIn(c: Controls): PreparedRecord
      requires PreparedKey in c && c[PreparedKey].PreparedBody?
    {
      c[PreparedKey].prepared
    }

    // What the log leaves to be deleted.
    ghost function Left(p: PreparedRecord, log: seq<Status>): seq<ObjectRecord>
      requires ManifestShards(p.manifestShards)
    {
      KeepOut(RecordsOf(p.manifestShards), LoggedDeleted(log))
    }

    /** `apply`.  Whatever fails and wherever it crashes: the log only grows and stays acceptable;
        every delete sent is allowed, past the quiescence period, confirmed by the caller, and
        cleared by a fresh plan of exactly what the log leaves; what is newly logged as deleted was
        confirmed by an answer to a delete of this call; `completed` is logged only after an empty
        listing; and nothing is sent to delete before or after that.  A success leaves every
        attempt audited unless the clock ran backwards. */
    method Apply(request: ApplyRequest, now: int, outcome: Revalidation) returns (r: Answer<Status>, ghost events: seq<Event>)
      requires Valid() && Safe()
      modifies gateway, this`log
      ensures Valid() && Safe() && Extends(old(gateway.controls), gateway.controls)
      ensures gateway.trace == old(gateway.trace) + events && old(gateway.faults) <= gateway.faults && old(log) <= log
      ensures Finished(old(log)) ==> log == old(log) && NoDeletes(events)
      ensures PreparedKey !in gateway.controls || Spoiled(gateway.controls) ==>
                NoDeletes(events) && log == old(log) && gateway.controls == old(gateway.controls) && !r.Ok?
      ensures !NoDeletes(events) || (Finished(log) && !Finished(old(log))) ==>
                && PreparedKey in gateway.controls && gateway.controls[PreparedKey].PreparedBody?
                && var p := PreparedIn(gateway.controls);
                && Applicable(p) && p.preparedAt + quiescence <= now && request == ApplyRequest(p.planSha256, p.prefix)
                && Cleared(policySha256, outcome, p.prefix, Left(p, old(log)))
                && (Left(p, old(log)) == [] ==> NoDeletes(events))
      ensures !NoDeletes(events) || (Finished(log) && !Finished(old(log)) && Left(PreparedIn(gateway.controls), old(log)) != []) ==>
                && outcome.Replanned? && outcome.artifact.eligible && outcome.artifact.policySha256 == policySha256
                && outcome.artifact.prefix == PreparedIn(gateway.controls).prefix
                && Flatten(outcome.artifact.shards) == Left(PreparedIn(gateway.controls), old(log))
      ensures SentUnder(events, LoggedDeleted(old(log))) && BatchesWithin(events, maxDeleteKeys) && Counted(old(log), log, events)
      ensures LoggedDeleted(log) <= LoggedDeleted(old(log)) + Confirmed(events)
      ensures Finished(log) && !Finished(old(log)) ==> EndsEmpty(events)
      ensures r.Ok? ==>
                && PreparedKey in gateway.controls && gateway.controls[PreparedKey].PreparedBody?
                && var p := PreparedIn(gateway.controls);
                && log != [] && r.value == log[|log| - 1] && (Finished(log) ==> EndsEmpty(events))
                && (AuditsComplete(gateway.controls, log, p) || p.preparedAt + quiescence <= now < r.value.occurredAt)
                && (p.preparedAt + quiescence <= now ==> Finished(log) || now < r.value.occurredAt)
      ensures Converges(old(gateway.controls), old(log), old(Room(2)), request, now, outcome) ==>
                (r.Ok? && Finished(log)) || old(gateway.faults) < gateway.faults || !Smooth(events)
    {
      hide StoreOk, LogOk, LogOf, ManifestStored, DistinctKeys, SafeTrace, AuditsComplete, KeepOut, DeletedBy, Cleared, SentUnder,
        Confirmed, Smooth, CleanedUp, BatchesWithin, DistinctDigests, InventoryDigest, Members, LoggedDeleted, RecordsOf, PlanUsable, ContentAddressed;
      events := [];
      NoDeletesSafe(events, {}, LoggedDeleted(log));
      EmptyTally();
      NothingLogged();
      var read := ReadPrepared();
      if !read.Ok? { return read.PropagateFailure(), events; }
      var p := read.value;
      if request.planSha256 != p.planSha256 || request.confirmPrefix != p.prefix {
        return Rejected("confirmation_mismatch"), events;
      }
      ManifestIsStored(p);
      var manifest := ReadBoundManifest(p);
      if !manifest.Ok? { return manifest.PropagateFailure(), events; }
      var planned := manifest.value;
      PreparedReady(p);
      r, events := ApplyPrepared(p, planned, now, outcome);
      ClearedExactly(policySha256, outcome, p.prefix, KeepOut(planned, LoggedDeleted(old(log))));
      SafeExtends(old(gateway.trace), events, planned, old(log), log, maxDeleteKeys);
      ReadyValid(p, planned);
    }

    // Under these conditions only a fault or a bad answer about data objects stops an apply.
    ghost predicate Converges(c: Controls, before: seq<Status>, room: bool, request: ApplyRequest, now: int, outcome: Revalidation)
    {
      && PreparedKey in c && c[PreparedKey].PreparedBody? && room
      && var p := PreparedIn(c);
      && Applicable(p) && request == ApplyRequest(p.planSha256, p.prefix) && p.preparedAt + quiescence <= now
      && (before != [] && !Finished(before) ==> before[|before| - 1].occurredAt <= now)
      && var rest := Left(p, before);
      && (Finished(before) || rest == []
          || (&& outcome.Replanned? && outcome.artifact.eligible && outcome.artifact.policySha256 == policySha256
              && outcome.artifact.prefix == p.prefix && Flatten(outcome.artifact.shards) == rest
              && Some(outcome.artifact.inventorySha256) == InventoryDigest(rest)))
    }

    lemma NothingLogged()
      requires Valid()
      ensures PreparedKey !in gateway.controls ==> log == []
      ensures Spoiled(gateway.controls) ==> Stuck()
    {
    }

    lemma ManifestIsStored(p: PreparedRecord)
      requires Valid() && PreparedAs(gateway.controls, p)
      ensures PlanUsable(p) ==> ManifestStored(gateway.controls, p) && !Spoiled(gateway.controls)
      ensures Spoiled(gateway.controls) <==> !PlanUsable(p)
    {
    }

    method ApplyPrepared(p: PreparedRecord, planned: seq<ObjectRecord>, now: int, outcome: Revalidation)
      returns (r: Answer<Status>, ghost events: seq<Event>)
      requires Ready(p, planned)
      modifies gateway, this`log
      ensures Ready(p, planned) && Extends(old(gateway.controls), gateway.controls)
      ensures gateway.trace == old(gateway.trace) + events && SafeTrace(events, Members(planned))
      ensures SentUnder(events, LoggedDeleted(old(log))) && BatchesWithin(events, maxDeleteKeys) && Counted(old(log), log, events)
      ensures old(log) <= log && LoggedDeleted(log) <= LoggedDeleted(old(log)) + Confirmed(events)
      ensures Finished(old(log)) ==> log == old(log) && NoDeletes(events)
      ensures !NoDeletes(events) || (Finished(log) && !Finished(old(log))) ==>
                p.preparedAt + quiescence <= now && Cleared(policySha256, outcome, p.prefix, KeepOut(planned, LoggedDeleted(old(log))))
      ensures KeepOut(planned, LoggedDeleted(old(log))) == [] ==> NoDeletes(events)
      ensures Finished(log) && !Finished(old(log)) ==> EndsEmpty(events)
      ensures r.Ok? ==>
                && log != [] && r.value == log[|log| - 1] && (Finished(log) ==> EndsEmpty(events))
                && (AuditsComplete(gateway.controls, log, p) || p.preparedAt + quiescence <= now < r.value.occurredAt)
                && (p.preparedAt + quiescence <= now ==> Finished(log) || now < r.value.occurredAt)
      ensures old(gateway.faults) <= gateway.faults
      ensures p.preparedAt + quiescence <= now && old(Room(2))
              && (old(log) != [] && !Finished(old(log)) ==> old(log)[|old(log)| - 1].occurredAt <= now)
              && (Finished(old(log)) || Cleared(policySha256, outcome, p.prefix, KeepOut(planned, LoggedDeleted(old(log)))))
              ==> (r.Ok? && Finished(log)) || old(gateway.faults) < gateway.faults || !Smooth(events)
    {
      hide StoreOk, LogOk, LogOf, ManifestStored, DistinctKeys, SafeTrace, AuditsComplete, KeepOut, DeletedBy, Cleared, SentUnder,
        Confirmed, Smooth, NoDeletes, Members, BatchesWithin;
      if now < p.preparedAt + quiescence {
        r, events := ApplyNotReady(p, planned, now);
        NoDeletesSafe(events, Members(planned), LoggedDeleted(log));
      } else {
        r, events := ApplyLocked(p, planned, p.prefix, now, outcome);
      }
    }

    /******* Prepare *******/

    // The checks of `_validate_prepare`.
    predicate Admitted(request: PrepareRequest)
    {
      var artifact := request.artifact;
      && request.planSha256 == Sha256(PlanBody(artifact)) && artifact.eligible && artifact.policySha256 == policySha256
      && artifact.actor == request.actor && artifact.checkpointId == checkpointId
    }

    function PreparedOf(request: PrepareRequest, at: int): PreparedRecord
    {
      var a := request.artifact;
      PreparedRecord(request.actor, request.review, operationId, a.checkpointId, a.prefix, request.planSha256,
                     a.policySha256, a.inventorySha256, ShardDigests(a.shards), a.evaluatedAt, at)
    }

    // The prepared record found in `c` says what this request says, and was prepared whenever.
    ghost predicate SameRequest(c: Controls, request: PrepareRequest)
    {
      && PreparedKey in c && c[PreparedKey].PreparedBody?
      && var p, a := PreparedIn(c), request.artifact;
      && p.actor == request.actor && p.review == request.review && p.planSha256 == request.planSha256
      && p.operationId == operationId && p.checkpointId == a.checkpointId && p.prefix == a.prefix
      && p.policySha256 == a.policySha256 && p.inventorySha256 == a.inventorySha256
      && p.manifestShards == ShardDigests(a.shards) && p.evaluatedAt == a.evaluatedAt
    }

    /** `prepare`, of any plan: repeating it, after a crash at any write, never adds a second
        prepared record or a second first attempt, and it never deletes.  A plan without records
        or with a repeated key is prepared like any other and spoils the operation. */
    method Prepare(request: PrepareRequest, preparedNow: int, statusNow: int) returns (r: Answer<Status>, ghost events: seq<Event>)
      requires Valid() && Safe()
      modifies gateway, this`log
      ensures Valid() && Safe() && Extends(old(gateway.controls), gateway.controls)
      ensures gateway.trace == old(gateway.trace) + events && NoDeletes(events) && old(gateway.faults) <= gateway.faults
      ensures LoggedDeleted(log) == LoggedDeleted(old(log))
      ensures old(log) != [] ==> log == old(log)
      ensures old(log) == [] ==> log == [] || (|log| == 1 && log[0].state == Prepared && log[0].occurredAt == statusNow)
      ensures PreparedKey !in old(gateway.controls) && PreparedKey in gateway.controls ==>
                SameRequest(gateway.controls, request) && PreparedIn(gateway.controls).preparedAt == preparedNow
      ensures r.Ok? ==> Admitted(request) && SameRequest(gateway.controls, request)
      ensures r.Ok? && Usable(request.artifact) ==>
                && log != [] && r.value == log[|log| - 1] && (Finished(log) ==> EndsEmpty(events))
                && AuditsComplete(gateway.controls, log, PreparedIn(gateway.controls))
      ensures r.Ok? && !Usable(request.artifact) ==> Stuck() && log != []
      ensures Admitted(request) && Usable(request.artifact) && old(Room(1))
              && (PreparedKey in old(gateway.controls) ==>
                    SameRequest(old(gateway.controls), request) && Decodable(PreparedIn(old(gateway.controls))))
              ==> r.Ok? || old(gateway.faults) < gateway.faults || !Smooth(events)
    {
      hide StoreOk, LogOk, LogOf, ManifestStored, AuditsComplete, SafeTrace, Confirmed, CleanedUp, DeletedBy, Smooth, Usable;
      events := [];
      if request.planSha256 != Sha256(PlanBody(request.artifact)) { return Rejected("plan_digest_mismatch"), events; }
      if !request.artifact.eligible { return Rejected("plan_refused"), events; }
      if request.artifact.policySha256 != policySha256 { return Rejected("policy_drift"), events; }
      if request.artifact.actor != request.actor { return Rejected("actor_mismatch"), events; }
      if request.artifact.checkpointId != checkpointId { return Rejected("destructive_scope_invalid"), events; }
      ValidIsAddressed();
      var stored := WriteManifest(gateway, request.artifact.shards);
      ValidAfterShards(old(gateway.controls), gateway.controls);
      if !stored.Ok? { return stored.PropagateFailure(), events; }
      r, events := PrepareOver(request, preparedNow, statusNow);
    }

    lemma ValidIsAddressed()
      requires Valid()
      ensures ContentAddressed(gateway.controls)
    {
    }

    // Shards change nothing that the operation's state is made of.
    lemma ValidAfterShards(before: Controls, after: Controls)
      requires OnlyShardsAdded(before, after) && ContentAddressed(before) && ContentAddressed(after)
      ensures StoreOk(before, log) ==> StoreOk(after, log)
      ensures Spoiled(before) <==> Spoiled(after)
      ensures LogOf(before, log) ==> LogOf(after, log)
      ensures PreparedKey in before <==> PreparedKey in after
      ensures PreparedKey in before ==> before[PreparedKey] == after[PreparedKey]
    {
      if StoreOk(before, log) { AddShards(before, after, log); }
    }

    // The manifest is stored: find or create the prepared record, then its first attempt.
    method PrepareOver(request: PrepareRequest, preparedNow: int, statusNow: int) returns (r: Answer<Status>, ghost events: seq<Event>)
      requires Valid() && Safe() && ShardsWritten(gateway.controls, request.artifact.shards)
      modifies gateway, this`log
      ensures Valid() && Safe() && Extends(old(gateway.controls), gateway.controls)
      ensures gateway.trace == old(gateway.trace) + events && NoDeletes(events) && old(gateway.faults) <= gateway.faults
      ensures LoggedDeleted(log) == LoggedDeleted(old(log))
      ensures old(log) != [] ==> log == old(log)
      ensures old(log) == [] ==> log == [] || (|log| == 1 && log[0].state == Prepared && log[0].occurredAt == statusNow)
      ensures PreparedKey !in old(gateway.controls) && PreparedKey in gateway.controls ==>
                SameRequest(gateway.controls, request) && PreparedIn(gateway.controls).preparedAt == preparedNow
      ensures r.Ok? ==> SameRequest(gateway.controls, request)
      ensures r.Ok? && Usable(request.artifact) ==>
                && log != [] && r.value == log[|log| - 1] && (Finished(log) ==> EndsEmpty(events))
                && AuditsComplete(gateway.controls, log, PreparedIn(gateway.controls))
      ensures r.Ok? && !Usable(request.artifact) ==> Stuck() && log != []
      ensures Usable(request.artifact) && old(Room(1)) && request.artifact.policySha256 == policySha256
              && (PreparedKey in old(gateway.controls) ==>
                    SameRequest(old(gateway.controls), request) && Decodable(PreparedIn(old(gateway.controls))))
              ==> r.Ok? || old(gateway.faults) < gateway.faults || !Smooth(events)
    {
      hide StoreOk, LogOk, LogOf, ManifestStored, AuditsComplete, SafeTrace, Confirmed, CleanedUp, DeletedBy, Smooth, Usable,
        ShardsWritten, LoggedDeleted, ContentAddressed, RecordsOf, Members;
      events := [];
      var existing := gateway.ReadControl(PreparedKey);
      match existing {
        case Got(body) =>
          if !body.PreparedBody? { return Rejected("prepared_invalid"), events; }
          var p := body.prepared;
          if !Decodable(p) { return Rejected("prepared_invalid"), events; }
          if p.policySha256 != policySha256 { return Rejected("policy_drift"), events; }
          if p != PreparedOf(request, p.preparedAt) { return Rejected("control_conflict"), events; }
          r, events := ResumePrepared(request, p, statusNow);
        case Missing =>
          r := CreatePrepared(request, PreparedOf(request, preparedNow), statusNow);
        case Died => return Crashed, events;
        case DeadlinePassed => return Unavailable("operation_deadline"), events;
        case Failure => return Unavailable("prepared_read_failed"), events;
      }
    }

    // The plan of a request and of the record it writes are the same, and so is their use.
    lemma SamePlan(request: PrepareRequest, p: PreparedRecord)
      requires p == PreparedOf(request, p.preparedAt)
      ensures ManifestShards(p.manifestShards) && RecordsOf(p.manifestShards) == Flatten(request.artifact.shards)
      ensures PlanUsable(p) <==> Usable(request.artifact)
    {
      ManifestRoundTrip(request.artifact.shards);
    }

    // A prepared record is already there: return its log, or log the first attempt.
    method ResumePrepared(request: PrepareRequest, p: PreparedRecord, statusNow: int) returns (r: Answer<Status>, ghost events: seq<Event>)
      requires Valid() && Safe() && PreparedAs(gateway.controls, p) && p == PreparedOf(request, p.preparedAt)
      modifies gateway, this`log
      ensures Valid() && Safe() && Extends(old(gateway.controls), gateway.controls)
      ensures gateway.trace == old(gateway.trace) + events && NoDeletes(events) && old(gateway.faults) <= gateway.faults
      ensures LoggedDeleted(log) == LoggedDeleted(old(log))
      ensures old(log) != [] ==> log == old(log)
      ensures old(log) == [] ==> log == [] || (|log| == 1 && log[0].state == Prepared && log[0].occurredAt == statusNow)
      ensures Usable(request.artifact) && r.Ok? ==>
                && log != [] && r.value == log[|log| - 1] && (Finished(log) ==> EndsEmpty(events)) && AuditsComplete(gateway.controls, log, p)
      ensures !Usable(request.artifact) ==> Stuck() && (r.Ok? ==> log != [])
      ensures Usable(request.artifact) && old(Room(1)) ==> r.Ok? || old(gateway.faults) < gateway.faults || !Smooth(events)
    {
      hide StoreOk, LogOk, LogOf, ManifestStored, AuditsComplete, SafeTrace, Confirmed, CleanedUp, DeletedBy, Smooth, Members, PlanUsable, DistinctKeys;
      SamePlan(request, p);
      ManifestIsStored(p);
      NothingLogged();
      var planned := Flatten(request.artifact.shards);
      var usable := UsableRecords(planned);
      if usable {
        PreparedReady(p);
        r, events := ResumeUsable(p, planned, statusNow);
        NoDeletesSafe(events, Members(planned), {});
        SafeExtends(old(gateway.trace), events, planned, old(log), log, maxDeleteKeys);
        ReadyValid(p, planned);
      } else {
        r, events := ResumeUnusable(p, planned, statusNow);
        DeletesConcat(old(gateway.trace), events);
        StuckDeletesNothing(old(log));
        StuckDeletesNothing(log);
      }
    }

    // A usable plan, prepared before.
    method ResumeUsable(p: PreparedRecord, planned: seq<ObjectRecord>, statusNow: int) returns (r: Answer<Status>, ghost events: seq<Event>)
      requires Ready(p, planned)
      modifies gateway, this`log
      ensures Ready(p, planned) && Extends(old(gateway.controls), gateway.controls)
      ensures gateway.trace == old(gateway.trace) + events && NoDeletes(events) && old(gateway.faults) <= gateway.faults
      ensures old(log) != [] ==> log == old(log)
      ensures old(log) == [] ==> log == [] || Appended([], log, Prepared, {}, statusNow)
      ensures LoggedDeleted(log) == LoggedDeleted(old(log))
      ensures r.Ok? ==> log != [] && r.value == log[|log| - 1] && AuditsComplete(gateway.controls, log, p)
      ensures r.Ok? && Finished(log) ==> EndsEmpty(events)
      ensures !r.Ok? ==> old(gateway.faults) < gateway.faults || !Smooth(events) || !old(Room(1))
    {
      hide StoreOk, LogOk, LogOf, ManifestStored, DistinctKeys, AuditsComplete, DeletedBy, Smooth;
      events := [];
      var prior := LatestStatus(false, p, planned, false);
      if !prior.Ok? { return prior.PropagateFailure(), events; }
      if prior.value == None {
        r := FirstAttempt(p, planned, statusNow);
      } else if prior.value.value.state == Completed {
        r, events := ApplyCompleted(p, planned, prior.value.value);
      } else {
        var repaired := LatestStatus(true, p, planned, true);
        if !repaired.Ok? { return repaired.PropagateFailure(), events; }
        return Ok(repaired.value.value), events;
      }
    }

    method FirstAttempt(p: PreparedRecord, planned: seq<ObjectRecord>, statusNow: int) returns (r: Answer<Status>)
      requires Ready(p, planned) && log == []
      modifies gateway`controls, gateway`faults, this`log
      ensures Ready(p, planned) && Extends(old(gateway.controls), gateway.controls)
      ensures log == [] || Appended([], log, Prepared, {}, statusNow)
      ensures r.Ok? ==> log != [] && r.value == log[|log| - 1] && AuditsComplete(gateway.controls, log, p)
      ensures old(gateway.faults) <= gateway.faults && (!r.Ok? ==> old(gateway.faults) < gateway.faults || !old(Room(1)))
    {
      hide StoreOk, LogOk, LogOf, ManifestStored, DistinctKeys, Wrote;
      var s :- RecordStatus(p, planned, Prepared, None, {}, {}, 0, 0, None, statusNow);
      var _ :- EnsureAudit(p, planned, s, 0);
      return Ok(s);
    }

    // No prepared record is there yet: create it, then the first attempt.
    method CreatePrepared(request: PrepareRequest, p: PreparedRecord, statusNow: int) returns (r: Answer<Status>)
      requires Valid() && Safe() && PreparedKey !in gateway.controls && p == PreparedOf(request, p.preparedAt)
      requires ShardsWritten(gateway.controls, request.artifact.shards)
      modifies gateway`controls, gateway`faults, this`log
      ensures Valid() && Safe() && Extends(old(gateway.controls), gateway.controls) && old(gateway.faults) <= gateway.faults
      ensures old(log) == [] && (log == [] || (|log| == 1 && log[0].state == Prepared && log[0].occurredAt == statusNow))
      ensures LoggedDeleted(log) == LoggedDeleted(old(log))
      ensures PreparedKey in gateway.controls || r.Ok? ==> PreparedAs(gateway.controls, p)
      ensures Usable(request.artifact) && r.Ok? ==> log != [] && !Finished(log) && r.value == log[|log| - 1] && AuditsComplete(gateway.controls, log, p)
      ensures !Usable(request.artifact) && r.Ok? ==> Stuck() && log != []
      ensures Usable(request.artifact) && old(Room(1)) ==> r.Ok? || old(gateway.faults) < gateway.faults
    {
      hide LogOk, LogOf, AuditsComplete, SafeTrace, Confirmed, CleanedUp, DeletedBy, Members, Usable, StoreOk, OperationOk;
      SamePlan(request, p);
      NothingLogged();
      ValidIsAddressed();
      var planned := Flatten(request.artifact.shards);
      PreparedOnce(request, p);
      var created := CreateIdentical(gateway, PreparedKey, PreparedBody(p));
      ghost var wrote := PreparedKey in gateway.controls;
      if wrote { FreshlyPreparedIsSafe(planned); }
      if !created.Ok? { return created.PropagateFailure(); }
      var usable := UsableRecords(planned);
      if usable {
        r := FirstAttempt(p, planned, statusNow);
        NothingDeletedYet(p, planned);
        ReadyValid(p, planned);
      } else {
        r := RecordUnusable(p, planned, statusNow);
        StuckDeletesNothing(log);
      }
    }

    // Creating the prepared record of a usable plan keeps the store's invariant; of another it
    // spoils the store.
    lemma PreparedOnce(request: PrepareRequest, p: PreparedRecord)
      requires Valid() && PreparedKey !in gateway.controls && p == PreparedOf(request, p.preparedAt)
      requires ShardsWritten(gateway.controls, request.artifact.shards)
      ensures log == []
      ensures PlanUsable(p) ==> StoreOk(gateway.controls[PreparedKey := PreparedBody(p)], [])
      ensures !PlanUsable(p) ==> Spoiled(gateway.controls[PreparedKey := PreparedBody(p)]) && LogOf(gateway.controls[PreparedKey := PreparedBody(p)], [])
    {
      assert ManifestStored(gateway.controls, p);
      if PlanUsable(p) { AddPrepared(gateway.controls, p); }
      LogOfUnlessAttempt(gateway.controls, [], PreparedKey, PreparedBody(p));
    }

    lemma FreshlyPreparedIsSafe(planned: seq<ObjectRecord>)
      requires NoDeletes(gateway.trace) && log == []
      ensures SafeFor(planned)
    {
    }

    lemma NothingDeletedYet(p: PreparedRecord, planned: seq<ObjectRecord>)
      requires Ready(p, planned) && NoDeletes(gateway.trace) && (log == [] || log[|log| - 1].state == Prepared)
      ensures SafeFor(planned)
    {
      ReconstructedDeletesNothing(p, planned);
    }

    /******* Unusable plans *******/

    // The steps of prepare on a plan without records or with a repeated key.
    method ResumeUnusable(p: PreparedRecord, planned: seq<ObjectRecord>, statusNow: int) returns (r: Answer<Status>, ghost events: seq<Event>)
      requires Stuck()
      modifies gateway, this`log
      ensures Stuck() && Extends(old(gateway.controls), gateway.controls)
      ensures gateway.trace == old(gateway.trace) + events && NoDeletes(events) && old(gateway.faults) <= gateway.faults
      ensures (old(log) != [] ==> log == old(log)) && (r.Ok? ==> log != [])
      ensures old(log) == [] && log != [] ==> log[0].occurredAt == statusNow
    {
      hide PlanUsable, LogOk, LogOf, AtMostPrepared, ContentAddressed, Acceptable;
      events := [];
      var found := ReadLog(gateway, p, planned);
      if !found.Ok? { return found.PropagateFailure(), events; }
      LogUnique(gateway.controls, found.value, log);
      if found.value == [] {
        r := RecordUnusable(p, planned, statusNow);
        return;
      }
      var last := found.value[|found.value| - 1];
      if last.state == Completed {
        var proved;
        proved, events := ProveCompletedAbsence(last);
        if !proved.Ok? { return proved.PropagateFailure(), events; }
      }
      r := AuditUnusable(p, found.value);
    }

    method AuditUnusable(p: PreparedRecord, found: seq<Status>) returns (r: Answer<Status>)
      requires Stuck() && found != []
      modifies gateway`controls, gateway`faults
      ensures Stuck() && Extends(old(gateway.controls), gateway.controls) && old(gateway.faults) <= gateway.faults
    {
      hide AtMostPrepared, Spoiled, LogOf;
      for i := 0 to |found|
        invariant Stuck() && Extends(old(gateway.controls), gateway.controls) && old(gateway.faults) <= gateway.faults
      {
        var key, body := AuditKeyOf(found[i]), AuditBody(AuditOf(found[i], p));
        StuckBeside(gateway.controls, key, body);
        var _ :- CreateIdentical(gateway, key, body);
      }
      return Ok(found[|found| - 1]);
    }

    // Nothing but attempts, shards and the prepared record matters to a stuck operation.
    lemma StuckBeside(c: Controls, key: ControlKey, body: Body)
      requires Spoiled(c) && LogOf(c, log) && key.AuditKey?
      ensures key !in c ==> Spoiled(c[key := body]) && LogOf(c[key := body], log)
    {
      hide PlanUsable;
      if key !in c { LogOfUnlessAttempt(c, log, key, body); }
    }

    // The first attempt of an unusable plan.
    method RecordUnusable(p: PreparedRecord, planned: seq<ObjectRecord>, statusNow: int) returns (r: Answer<Status>)
      requires Stuck() && log == []
      modifies gateway`controls, gateway`faults, this`log
      ensures Stuck() && Extends(old(gateway.controls), gateway.controls) && old(gateway.faults) <= gateway.faults
      ensures (r.Ok? ==> log != []) && (log != [] ==> log[0].occurredAt == statusNow)
    {
      hide NewStatus, Spoiled, LogOf, AtMostPrepared;
      var shards :- ClassifyUnusable(planned);
      LogCount(gateway.controls, log);
      var listed := gateway.ListAttempts();
      if listed.Died? { return Crashed; }
      if !listed.Got? { return Unavailable("status_read_failed"); }
      if |listed.value| + 1 > MAX_ATTEMPTS { return Rejected("attempt_bound"); }
      var s := NewStatus(p, planned, |listed.value| + 1, Prepared, None, {}, 0, 0, None, statusNow, shards);
      r := CreateUnusable(p, planned, statusNow, shards, s);
    }

    method ClassifyUnusable(planned: seq<ObjectRecord>) returns (r: Answer<seq<Digest>>)
      requires Stuck()
      modifies gateway`controls, gateway`faults
      ensures Stuck() && Extends(old(gateway.controls), gateway.controls) && old(gateway.faults) <= gateway.faults
      ensures r.Ok? ==> ResultShards(r.value) && Classified(r.value) == Classifications(planned, {}, {})
    {
      hide Spoiled, ContentAddressed, LogOf, AtMostPrepared;
      SpoiledAfterShards(gateway.controls, gateway.controls, log);
      r := WriteResultShards(gateway, Classifications(planned, {}, {}), maxShardBytes);
      SpoiledAfterShards(old(gateway.controls), gateway.controls, log);
    }

    // Creates the attempt and its audit.
    method CreateUnusable(p: PreparedRecord, planned: seq<ObjectRecord>, statusNow: int, shards: seq<Digest>, s: Status)
      returns (r: Answer<Status>)
      requires Stuck() && log == [] && ResultShards(shards) && Classified(shards) == Classifications(planned, {}, {})
      requires s == NewStatus(p, planned, 1, Prepared, None, {}, 0, 0, None, statusNow, shards)
      modifies gateway`controls, gateway`faults, this`log
      ensures Stuck() && Extends(old(gateway.controls), gateway.controls) && old(gateway.faults) <= gateway.faults
      ensures (r.Ok? ==> log != []) && (log != [] ==> log[0].occurredAt == statusNow)
    {
      hide NewStatus, Spoiled, LogOf, AtMostPrepared;
      FirstUnusable(gateway.controls, p, planned, statusNow, shards);
      var created := CreateIdentical(gateway, KeyOf(s), StatusBody(s));
      if KeyOf(s) in gateway.controls { log := [s]; }
      var _ :- created;
      var _ :- CheckDeadline(gateway);
      r := AuditUnusable(p, [s]);
    }

    /******* Whole runs *******/

    // `lost` is planned and not logged as deleted, and no fresh plan among the calls names it.
    ghost predicate Lost(c: Controls, before: seq<Status>, calls: seq<Call>, lost: ObjectRecord)
    {
      && PreparedKey in c && c[PreparedKey].PreparedBody? && PlanUsable(PreparedIn(c))
      && lost in RecordsOf(PreparedIn(c).manifestShards) && RecordDigest(lost) !in LoggedDeleted(before)
      && forall i :: 0 <= i < |calls| && calls[i].ApplyCall? && calls[i].outcome.Replanned? ==>
           lost !in Flatten(calls[i].outcome.artifact.shards)
    }

    /** Any sequence of calls, each failing or crashing anywhere: the log stays one the validator
        accepts, every delete was allowed, none names what was logged as deleted before, and
        everything logged as deleted was confirmed.  After `completed` nothing is deleted or logged;
        once an unusable plan is prepared, nothing is deleted, and at most its first attempt is ever
        stored.  While a
        planned record that is not logged as deleted stays out of every fresh plan, nothing is
        deleted and the operation never completes. */
    method Serve(calls: seq<Call>, ghost lost: ObjectRecord) returns (ghost events: seq<Event>)
      requires Valid() && Safe()
      modifies gateway, this`log
      ensures Valid() && Safe() && Extends(old(gateway.controls), gateway.controls)
      ensures gateway.trace == old(gateway.trace) + events && old(log) <= log
      ensures LoggedDeleted(log) <= LoggedDeleted(old(log)) + Confirmed(events) && SentOver(events, LoggedDeleted(old(log)))
      ensures Finished(old(log)) ==> log == old(log) && NoDeletes(events)
      ensures Spoiled(old(gateway.controls)) ==> Stuck() && NoDeletes(events)
      ensures PreparedKey in gateway.controls && !Spoiled(gateway.controls) ==>
                && gateway.controls[PreparedKey].PreparedBody? && PlanUsable(PreparedIn(gateway.controls))
                && Acceptable(gateway.controls, PreparedIn(gateway.controls), RecordsOf(PreparedIn(gateway.controls).manifestShards))
      ensures Lost(old(gateway.controls), old(log), calls, lost) ==>
                NoDeletes(events) && !Finished(log) && RecordDigest(lost) !in LoggedDeleted(log)
    {
      hide StoreOk, SafeTrace, LogOk, Confirmed, CleanedUp, LoggedDeleted, NoDeletes, Lost, AuditsComplete, Cleared, Smooth, SentUnder,
        Applicable, Converges, Acceptable, PlanUsable, Members;
      events := [];
      EmptyTally();
      ghost var isLost := Lost(gateway.controls, log, calls, lost);
      if isLost { LostIsUnfinished(calls, lost); }
      NothingLogged();
      var i := 0;
      while i < |calls|
        invariant 0 <= i <= |calls| && gateway.trace == old(gateway.trace) + events
        invariant Valid() && Safe() && Extends(old(gateway.controls), gateway.controls) && old(log) <= log
        invariant LoggedDeleted(log) <= LoggedDeleted(old(log)) + Confirmed(events)
        invariant LoggedDeleted(old(log)) <= LoggedDeleted(log) && SentOver(events, LoggedDeleted(old(log)))
        invariant Finished(old(log)) ==> log == old(log) && NoDeletes(events)
        invariant Spoiled(old(gateway.controls)) ==> Stuck() && NoDeletes(events)
        invariant isLost ==> NoDeletes(events) && !Finished(log) && Lost(gateway.controls, log, calls, lost)
      {
        ghost var logged := LoggedDeleted(log);
        ghost var more := ServeOne(calls, i, lost);
        SentOverConcat(events, more, LoggedDeleted(old(log)), logged);
        TallyConcat(events, more);
        DeletesConcat(events, more);
        events := events + more;
        i := i + 1;
      }
      if isLost { LostIsUnlogged(calls, lost); }
      AcceptedNow();
    }

    lemma LostIsUnfinished(calls: seq<Call>, lost: ObjectRecord)
      requires Valid() && Lost(gateway.controls, log, calls, lost)
      ensures !Finished(log)
    {
      var p := PreparedIn(gateway.controls);
      PreparedReady(p);
      ReadyFacts(p, RecordsOf(p.manifestShards));
      if Finished(log) { CompletedMeansEverything(log, p, RecordsOf(p.manifestShards), |log| - 1); }
    }

    lemma LostIsUnlogged(calls: seq<Call>, lost: ObjectRecord)
      requires Lost(gateway.controls, log, calls, lost)
      ensures RecordDigest(lost) !in LoggedDeleted(log)
    {
    }

    // One call of a run.
    method ServeOne(calls: seq<Call>, i: nat, ghost lost: ObjectRecord) returns (ghost events: seq<Event>)
      requires Valid() && Safe() && i < |calls|
      modifies gateway, this`log
      ensures Valid() && Safe() && Extends(old(gateway.controls), gateway.controls)
      ensures gateway.trace == old(gateway.trace) + events && old(log) <= log
      ensures LoggedDeleted(old(log)) <= LoggedDeleted(log) && SentOver(events, LoggedDeleted(old(log)))
      ensures LoggedDeleted(log) <= LoggedDeleted(old(log)) + Confirmed(events)
      ensures Finished(old(log)) ==> log == old(log) && NoDeletes(events)
      ensures Spoiled(old(gateway.controls)) ==> Stuck() && NoDeletes(events)
      ensures Lost(old(gateway.controls), old(log), calls, lost) && !Finished(old(log)) ==>
                NoDeletes(events) && !Finished(log) && Lost(gateway.controls, log, calls, lost)
    {
      hide StoreOk, SafeTrace, LogOk, Confirmed, CleanedUp, LoggedDeleted, NoDeletes, AuditsComplete, Cleared, Smooth, SentUnder,
        Applicable, Converges, DistinctKeys, Members, KeepOut, RecordsOf, Flatten, ContentAddressed, Usable;
      ghost var c, before := gateway.controls, log;
      var answer;
      match calls[i] {
        case PrepareCall(request, preparedNow, statusNow) =>
          answer, events := Prepare(request, preparedNow, statusNow);
        case ApplyCall(request, now, outcome) =>
          answer, events := Apply(request, now, outcome);
          if Lost(c, before, calls, lost) {
            LostDeleteBlocks(policySha256, outcome, PreparedIn(c).prefix, RecordsOf(PreparedIn(c).manifestShards), LoggedDeleted(before), lost);
          }
      }
      if Spoiled(c) { StaysSpoiled(c); }
      if NoDeletes(events) { NoDeletesConfirmNothing(events); }
      if calls[i].PrepareCall? { NoDeletesSafe(events, {}, LoggedDeleted(before)); }
      SentUnderIsOver(events, LoggedDeleted(before));
      LoggedGrows(before);
    }

    lemma LogIsOrdered()
      requires Valid()
      ensures OrderOk(log)
    {
      hide DeletedBy, StatusOk, ContentAddressed, AuditsOk, PlanUsable;
    }

    // What is logged as deleted stays so.
    lemma LoggedGrows(before: seq<Status>)
      requires Valid() && before <= log
      ensures LoggedDeleted(before) <= LoggedDeleted(log)
    {
      hide Valid, OrderOk, DeletedBy;
      LogIsOrdered();
      if before != [] { LogMonotone(log, |before| - 1, |log| - 1); }
    }

    lemma StaysSpoiled(c: Controls)
      requires Valid() && Spoiled(c) && Extends(c, gateway.controls)
      ensures Stuck()
    {
    }

    lemma AcceptedNow()
      requires Valid()
      ensures PreparedKey in gateway.controls && !Spoiled(gateway.controls) ==>
                && gateway.controls[PreparedKey].PreparedBody? && PlanUsable(PreparedIn(gateway.controls))
                && Acceptable(gateway.controls, PreparedIn(gateway.controls), RecordsOf(PreparedIn(gateway.controls).manifestShards))
    {
    }

    /** Everything logged as deleted was named by a delete request that the log did not already
        cover and that a HEAD of its whole batch preceded, and the answer confirmed it. */
    lemma LoggedDeleteWasSent(planned: seq<ObjectRecord>, d: Digest) returns (i: nat)
      requires SafeFor(planned) && d in LoggedDeleted(log)
      ensures i < |gateway.trace| && gateway.trace[i].Delete? && d in ConfirmedBy(gateway.trace[i]) && d !in gateway.trace[i].logged
      ensures DeleteAllowed(gateway.trace[..i], gateway.trace[i], Members(planned))
    {
      i := ConfirmedWasSent(gateway.trace, d);
    }
  }

  /******* Lemmas *******/

  lemma {:induction false} DistinctCount(ks: seq<ControlKey>)
    requires forall i, j :: 0 <= i < j < |ks| ==> ks[i] != ks[j]
    ensures |set k | k in ks| == |ks|
  {
    if ks != [] {
      var init, last := ks[..|ks| - 1], ks[|ks| - 1];
      DistinctCount(init);
      assert last !in init;
      assert (set k | k in ks) == (set k | k in init) + {last};
    }
  }

  /** A store holds exactly as many attempt objects as its log has attempts. */
  lemma LogCount(c: Controls, log: seq<Status>)
    requires LogOf(c, log)
    ensures |AttemptKeys(c)| == |log|
  {
    var ks := seq(|log|, i requires 0 <= i < |log| => KeyOf(log[i]));
    DistinctCount(ks);
    forall k ensures k in AttemptKeys(c) <==> k in ks {
      if k in AttemptKeys(c) { assert k == ks[k.sequence - 1]; }
    }
    assert AttemptKeys(c) == set k | k in ks;
  }

  lemma ExtendsItself(c: Controls)
    ensures Extends(c, c)
  {
  }

  lemma SpoiledAfterShards(before: Controls, after: Controls, log: seq<Status>)
    requires Spoiled(before) && LogOf(before, log)
    ensures ContentAddressed(before)
    ensures OnlyShardsAdded(before, after) && ContentAddressed(after) ==> Spoiled(after) && LogOf(after, log)
  {
  }

  // The attempt object that an unusable plan gets is its whole log.
  lemma FirstUnusable(c: Controls, p: PreparedRecord, planned: seq<ObjectRecord>, statusNow: int, shards: seq<Digest>)
    requires Spoiled(c) && LogOf(c, []) && ResultShards(shards) && Classified(shards) == Classifications(planned, {}, {})
    ensures var s := NewStatus(p, planned, 1, Prepared, None, {}, 0, 0, None, statusNow, shards);
            && KeyOf(s) !in c && AtMostPrepared([s]) && s.occurredAt == statusNow
            && Spoiled(c[KeyOf(s) := StatusBody(s)]) && LogOf(c[KeyOf(s) := StatusBody(s)], [s])
  {
    var s := NewStatus(p, planned, 1, Prepared, None, {}, 0, 0, None, statusNow, shards);
    assert DeletedIn(Classifications(planned, {}, {})) == {};
    LogOfAppend(c, [], s);
    assert [] + [s] == [s];
  }

  lemma StuckDeletesNothing(log: seq<Status>)
    requires AtMostPrepared(log)
    ensures LoggedDeleted(log) == {} && !Finished(log)
  {
  }

  lemma ReadableDeleted(c: Controls, s: Status, records: seq<ObjectRecord>)
    requires ClassificationReadable(c, s, records)
    ensures ResultShards(s.resultShards) && DeletedBy(s) == DeletedIn(Classified(s.resultShards))
  {
  }

  /** Requests that are safe, after a safe trace, leave a safe trace. */
  lemma SafeExtends(t: seq<Event>, events: seq<Event>, planned: seq<ObjectRecord>, before: seq<Status>, log: seq<Status>, n: nat)
    requires SafeTrace(t, Members(planned)) && LoggedDeleted(before) <= Confirmed(t) && (Finished(before) ==> CleanedUp(t))
    requires BatchesWithin(t, n) && BatchesWithin(events, n)
    requires SafeTrace(events, Members(planned)) && LoggedDeleted(log) <= LoggedDeleted(before) + Confirmed(events)
    requires Finished(log) ==> EndsEmpty(events) || (Finished(before) && NoDeletes(events))
    ensures SafeTrace(t + events, Members(planned)) && BatchesWithin(t + events, n) && LoggedDeleted(log) <= Confirmed(t + events)
    ensures Finished(log) ==> CleanedUp(t + events)
  {
    hide SafeTrace, Confirmed, CleanedUp, NoDeletes, LoggedDeleted;
    SafeConcat(t, events, Members(planned));
    WithinConcat(t, events, n);
    TallyConcat(t, events);
    if Finished(log) { CleanedUpAfter(t, events); }
  }

  lemma ManifestPrefix(ds: seq<Digest>, i: nat)
    requires i < |ds| && ManifestShards(ds[..i]) && ds[i].preimage.ManifestShard?
    ensures ManifestShards(ds[..i + 1]) && RecordsOf(ds[..i + 1]) == RecordsOf(ds[..i]) + ds[i].preimage.records
  {
    var upto := ds[..i + 1];
    assert upto[..i] == ds[..i] && upto[i] == ds[i];
    forall j | 0 <= j < |upto| ensures upto[j].preimage.ManifestShard? {
      assert j < i ==> upto[j] == ds[..i][j];
    }
  }

  lemma DigestedIsDistinct(records: seq<ObjectRecord>)
    ensures InventoryDigest(records).Some? <==> DistinctKeys(records)
  {
    CanonicalCharacterised(records);
  }

  /** The attempt `_record_status` is about to write belongs at the end of the log. */
  lemma NextAttempt(log: seq<Status>, p: PreparedRecord, planned: seq<ObjectRecord>,
                    state: State, category: Option<Category>, deleted: set<Digest>, failed: set<Digest>,
                    heads: nat, deletes: nat, postflight: Option<Digest>, occurredAt: int, shards: seq<Digest>)
    requires LogOk(log, p, planned) && planned != [] && DistinctKeys(planned)
    requires RequestOk(planned, state, category, deleted, failed, heads, deletes, postflight)
    requires NextOk(log, state, deleted, occurredAt)
    requires shards != [] && ResultShards(shards) && DistinctDigests(shards)
    requires Classified(shards) == Classifications(planned, deleted, failed)
    ensures var s := NewStatus(p, planned, |log| + 1, state, category, deleted, heads, deletes, postflight, occurredAt, shards);
            && LogOk(log + [s], p, planned) && Appended(log, log + [s], state, deleted, occurredAt)
            && Wrote(log, log + [s], p, planned, state, category, deleted, failed, heads, deletes, postflight, occurredAt)
            && s.sequence == |log| + 1 && s.resultShards == shards
  {
    hide LogOk, StatusOk, DeletedBy, KeepIn, KeepOut, RequestOk, DistinctKeys;
    var s := NewStatus(p, planned, |log| + 1, state, category, deleted, heads, deletes, postflight, occurredAt, shards);
    NewStatusOk(p, planned, |log| + 1, state, category, deleted, failed, heads, deletes, postflight, occurredAt, shards);
    LogAppend(log, s, p, planned);
    SplitCounts(planned, state, category, deleted, failed, heads, deletes, postflight);
  }

  lemma SplitCounts(planned: seq<ObjectRecord>, state: State, category: Option<Category>, deleted: set<Digest>, failed: set<Digest>,
                    heads: nat, deletes: nat, postflight: Option<Digest>)
    requires DistinctKeys(planned) && RequestOk(planned, state, category, deleted, failed, heads, deletes, postflight)
    ensures |KeepIn(planned, deleted)| == |deleted| && |KeepOut(planned, deleted)| == |planned| - |deleted|
    ensures TotalBytes(KeepOut(planned, deleted)) == TotalBytes(planned) - TotalBytes(KeepIn(planned, deleted))
  {
    SplitConserves(planned, deleted);
    KeepInDigests(planned, deleted);
    assert deleted * Digests(planned) == deleted;
  }

  lemma EarlyDeletesNothing(log: seq<Status>, p: PreparedRecord, planned: seq<ObjectRecord>)
    requires LogOk(log, p, planned) && log != [] && log[|log| - 1].state in {Prepared, NotReady}
    ensures LoggedDeleted(log) == {}
  {
    var s := log[|log| - 1];
    assert StatusOk(s, p, planned);
    var es := Classified(s.resultShards);
    assert forall e :: e in es ==> e.outcome.Unattempted?;
  }

  /** What an acceptable log has deleted is part of the plan. */
  lemma LoggedWithin(log: seq<Status>, p: PreparedRecord, planned: seq<ObjectRecord>)
    requires LogOk(log, p, planned)
    ensures LoggedDeleted(log) <= Digests(planned)
  {
    if log != [] { DeletedByPlanned(log[|log| - 1], p, planned); }
  }

  lemma AuditsGrow(c: Controls, c': Controls, log: seq<Status>, s: Status, p: PreparedRecord)
    requires AuditsComplete(c, log, p) && Extends(c, c') && Audited(c', s, p)
    ensures AuditsComplete(c', log + [s], p)
  {
    forall i | 0 <= i < |log + [s]| ensures Audited(c', (log + [s])[i], p) {
      assert i < |log| ==> AuditKeyOf(log[i]) in c;
    }
  }

  lemma ClearedExactly(policySha256: string, outcome: Revalidation, prefix: string, remaining: seq<ObjectRecord>)
    ensures Cleared(policySha256, outcome, prefix, remaining) <==>
              || remaining == []
              || (&& outcome.Replanned? && outcome.artifact.eligible && outcome.artifact.policySha256 == policySha256
                  && outcome.artifact.prefix == prefix && Flatten(outcome.artifact.shards) == remaining
                  && Some(outcome.artifact.inventorySha256) == InventoryDigest(remaining))
  {
  }

  /** For canonical inventories a fresh plan clears the rest exactly when it is eligible under the
      same policy for the same prefix, and its records are the planned ones not yet logged as
      deleted: the tuple comparison is set equality, and the digest comparison adds nothing. */
  lemma RevalidationIsSetEquality(policySha256: string, artifact: PlanArtifact, prefix: string,
                                  planned: seq<ObjectRecord>, logged: set<Digest>)
    requires Ascending(planned) && Ascending(Flatten(artifact.shards))
    requires Some(artifact.inventorySha256) == InventoryDigest(Flatten(artifact.shards))
    ensures Revalidates(policySha256, artifact, prefix, KeepOut(planned, logged)) <==>
            && artifact.eligible && artifact.policySha256 == policySha256 && artifact.prefix == prefix
            && Members(Flatten(artifact.shards)) == set r | r in planned && RecordDigest(r) !in logged
  {
    var live, rest := Flatten(artifact.shards), KeepOut(planned, logged);
    KeepOutAscending(planned, logged);
    AscendingUnique(live, rest);
    forall r ensures r in Members(rest) <==> r in planned && RecordDigest(r) !in logged {
      KeepMembers(planned, logged, r);
    }
  }

  /** While a planned record that is not logged as deleted is missing from a fresh plan, that
      plan does not clear what is left. */
  lemma LostDeleteBlocks(policySha256: string, outcome: Revalidation, prefix: string,
                         planned: seq<ObjectRecord>, logged: set<Digest>, r: ObjectRecord)
    requires r in planned && RecordDigest(r) !in logged
    requires outcome.Replanned? ==> r !in Flatten(outcome.artifact.shards)
    ensures !Cleared(policySha256, outcome, prefix, KeepOut(planned, logged))
  {
    KeepMembers(planned, logged, r);
  }
}
