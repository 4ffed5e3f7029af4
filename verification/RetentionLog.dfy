/** The attempt log of one checkpoint-retention operation (scripts/checkpoints/operations.py).

    SHA-256 is taken as injective: a digest is the constructor `Sha256` applied to the
    body it was computed from.  This module holds the documents, the declarative meaning
    of an acceptable log, what every acceptable log guarantees, and the document the
    writer builds. */
module RetentionLog {
  import opened Options
  import opened Records

  /******* Documents *******/

  datatype Digest = Sha256(preimage: Body)

  datatype Outcome = Deleted | Failed | Unattempted

  datatype Entry = Entry(target: Digest, outcome: Outcome)

  datatype State = Prepared | NotReady | Partial | Completed | Refused

  datatype Category =
    | QuiescenceNotReady | DeletePartial | HeadMismatch | OperationDeadline
    | PostflightNotEmpty | RevalidationFailed | RevalidationMismatch | ClockFailed

  datatype Status = Status(
    operationId: string, checkpointId: string, planSha256: Digest,
    sequence: int, state: State, category: Option<Category>, occurredAt: int,
    plannedObjects: int, deletedObjects: int, deletedBytes: int,
    remainingObjects: int, remainingBytes: int,
    headRequests: int, deleteRequests: int,
    postflight: Option<Digest>, resultShards: seq<Digest>)

  datatype PreparedRecord = PreparedRecord(
    actor: string, review: string, operationId: string, checkpointId: string, prefix: string,
    planSha256: Digest, policySha256: string, inventorySha256: Digest,
    manifestShards: seq<Digest>, evaluatedAt: int, preparedAt: int)

  datatype PlanArtifact = PlanArtifact(
    eligible: bool, policySha256: string, actor: string, checkpointId: string, prefix: string,
    evaluatedAt: int, inventorySha256: Digest, shards: seq<seq<ObjectRecord>>)

  // An audit copies the status and the prepared record it belongs to.
  datatype Audit = Audit(status: Status, prepared: PreparedRecord, plannedBytes: int, resultSha256: Digest)

  datatype Body =
    | RecordBody(record: ObjectRecord)
    | ManifestShard(records: seq<ObjectRecord>)
    | PlanBody(plan: PlanArtifact)
    | PreparedBody(prepared: PreparedRecord)
    | ResultShard(entries: seq<Entry>)
    | StatusBody(status: Status)
    | AuditBody(audit: Audit)
    | Foreign(bytes: seq<int>)

  datatype ControlKey =
    | ManifestKey(index: nat, digest: Digest)
    | PreparedKey
    | ResultShardKey(digest: Digest)
    | AttemptKey(sequence: int, digest: Digest)
    | AuditKey(attempt: int, statusSha256: Digest)

  type Controls = map<ControlKey, Body>

  function RecordDigest(r: ObjectRecord): Digest { Sha256(RecordBody(r)) }

  /** `inventory_sha256` hashes the JSON array of the canonical records, which is the very
      text of a manifest shard holding them. */
  function InventoryDigest(rs: seq<ObjectRecord>): Option<Digest>
  {
    match Canonical(rs)
    case None => None
    case Some(ordered) => Some(Sha256(ManifestShard(ordered)))
  }

  const EmptyInventory: Digest := Sha256(ManifestShard([]))

  lemma EmptyInventoryDigest()
    ensures InventoryDigest([]) == Some(EmptyInventory)
  {
  }

  function Digests(rs: seq<ObjectRecord>): set<Digest> { set r | r in rs :: RecordDigest(r) }

  /******* Filtering an inventory by a set of digests *******/

  function KeepIn(rs: seq<ObjectRecord>, ds: set<Digest>): seq<ObjectRecord>
  {
    if rs == [] then []
    else KeepIn(rs[..|rs| - 1], ds) + (if RecordDigest(rs[|rs| - 1]) in ds then [rs[|rs| - 1]] else [])
  }

  function KeepOut(rs: seq<ObjectRecord>, ds: set<Digest>): seq<ObjectRecord>
  {
    if rs == [] then []
    else KeepOut(rs[..|rs| - 1], ds) + (if RecordDigest(rs[|rs| - 1]) in ds then [] else [rs[|rs| - 1]])
  }

  lemma BytesAppend(rs: seq<ObjectRecord>, r: ObjectRecord)
    ensures TotalBytes(rs + [r]) == TotalBytes(rs) + r.sizeBytes
  {
    assert (rs + [r])[..|rs|] == rs;
  }

  /** Every record is kept on exactly one side: objects and bytes are conserved. */
  lemma {:induction false} SplitConserves(rs: seq<ObjectRecord>, ds: set<Digest>)
    ensures |KeepIn(rs, ds)| + |KeepOut(rs, ds)| == |rs|
    ensures TotalBytes(KeepIn(rs, ds)) + TotalBytes(KeepOut(rs, ds)) == TotalBytes(rs)
  {
    if rs != [] {
      var init, last := rs[..|rs| - 1], rs[|rs| - 1];
      SplitConserves(init, ds);
      if RecordDigest(last) in ds {
        BytesAppend(KeepIn(init, ds), last);
        assert KeepOut(rs, ds) == KeepOut(init, ds);
      } else {
        BytesAppend(KeepOut(init, ds), last);
        assert KeepIn(rs, ds) == KeepIn(init, ds);
      }
    }
  }

  lemma {:induction false} KeepMembers(rs: seq<ObjectRecord>, ds: set<Digest>, r: ObjectRecord)
    ensures r in KeepIn(rs, ds) <==> r in rs && RecordDigest(r) in ds
    ensures r in KeepOut(rs, ds) <==> r in rs && RecordDigest(r) !in ds
  {
    if rs != [] {
      KeepMembers(rs[..|rs| - 1], ds, r);
      assert rs == rs[..|rs| - 1] + [rs[|rs| - 1]];
    }
  }

  /** Filtering keeps canonical order, so what is left of a canonical inventory is canonical. */
  lemma {:induction false} KeepOutAscending(rs: seq<ObjectRecord>, ds: set<Digest>)
    requires Ascending(rs)
    ensures Ascending(KeepOut(rs, ds))
  {
    if rs != [] {
      var init, last := rs[..|rs| - 1], rs[|rs| - 1];
      KeepOutAscending(init, ds);
      forall i | 0 <= i < |KeepOut(init, ds)| ensures KeyLess(KeepOut(init, ds)[i].key, last.key) {
        KeepMembers(init, ds, KeepOut(init, ds)[i]);
      }
    }
  }

  lemma {:induction false} KeepDistinct(rs: seq<ObjectRecord>, ds: set<Digest>)
    requires DistinctKeys(rs)
    ensures DistinctKeys(KeepIn(rs, ds)) && DistinctKeys(KeepOut(rs, ds))
  {
    if rs != [] {
      var init, last := rs[..|rs| - 1], rs[|rs| - 1];
      KeepDistinct(init, ds);
      forall i | 0 <= i < |KeepIn(init, ds)| ensures KeepIn(init, ds)[i].key != last.key {
        KeepMembers(init, ds, KeepIn(init, ds)[i]);
      }
      forall i | 0 <= i < |KeepOut(init, ds)| ensures KeepOut(init, ds)[i].key != last.key {
        KeepMembers(init, ds, KeepOut(init, ds)[i]);
      }
    }
  }

  lemma {:induction false} DigestCount(rs: seq<ObjectRecord>)
    requires DistinctKeys(rs)
    ensures |Digests(rs)| == |rs|
  {
    if rs != [] {
      var init, last := rs[..|rs| - 1], rs[|rs| - 1];
      DigestCount(init);
      assert RecordDigest(last) !in Digests(init) by {
        assert forall r :: r in init ==> r.key != last.key;
      }
      assert Digests(rs) == Digests(init) + {RecordDigest(last)} by {
        assert rs == init + [last];
      }
    }
  }

  lemma {:induction false} KeepInDigests(rs: seq<ObjectRecord>, ds: set<Digest>)
    requires DistinctKeys(rs)
    ensures Digests(KeepIn(rs, ds)) == ds * Digests(rs)
    ensures |KeepIn(rs, ds)| == |ds * Digests(rs)|
  {
    KeepDistinct(rs, ds);
    DigestCount(KeepIn(rs, ds));
    forall d ensures d in Digests(KeepIn(rs, ds)) <==> d in ds * Digests(rs) {
      if d in Digests(KeepIn(rs, ds)) {
        var r :| r in KeepIn(rs, ds) && RecordDigest(r) == d;
        KeepMembers(rs, ds, r);
      }
      if d in ds * Digests(rs) {
        var r :| r in rs && RecordDigest(r) == d;
        KeepMembers(rs, ds, r);
      }
    }
    assert Digests(KeepIn(rs, ds)) == ds * Digests(rs);
  }

  /******* Classifications *******/

  predicate ResultShards(ds: seq<Digest>)
  {
    forall i :: 0 <= i < |ds| ==> ds[i].preimage.ResultShard?
  }

  // The entries of all result shards, in order.
  function Classified(ds: seq<Digest>): seq<Entry>
    requires ResultShards(ds)
  {
    if ds == [] then [] else Classified(ds[..|ds| - 1]) + ds[|ds| - 1].preimage.entries
  }

  ghost predicate DistinctObjects(es: seq<Entry>)
  {
    forall i, j :: 0 <= i < j < |es| ==> es[i].target != es[j].target
  }

  ghost function ObjectsOf(es: seq<Entry>): set<Digest> { set e | e in es :: e.target }

  ghost function DeletedIn(es: seq<Entry>): set<Digest> { set e | e in es && e.outcome.Deleted? :: e.target }

  // `_read_result_classification`: one outcome for every planned record and no other, and the
  // totals of the status computed from it.
  ghost predicate ClassificationOk(s: Status, records: seq<ObjectRecord>)
  {
    && s.resultShards != []
    && ResultShards(s.resultShards)
    && var es := Classified(s.resultShards);
    && DistinctObjects(es)
    && ObjectsOf(es) == Digests(records)
    && |DeletedIn(es)| == s.deletedObjects
    && |records| == s.plannedObjects
    && TotalBytes(KeepIn(records, DeletedIn(es))) == s.deletedBytes
    && TotalBytes(KeepOut(records, DeletedIn(es))) == s.remainingBytes
  }

  // The digests a status logs as deleted.
  ghost function DeletedBy(s: Status): set<Digest>
  {
    if ResultShards(s.resultShards) then DeletedIn(Classified(s.resultShards)) else {}
  }

  /******* One status *******/

  predicate CategoryOk(state: State, category: Option<Category>)
  {
    match state
    case Prepared => category == None
    case Completed => category == None
    case NotReady => category == Some(QuiescenceNotReady)
    case Partial => category in {Some(DeletePartial), Some(HeadMismatch), Some(OperationDeadline), Some(PostflightNotEmpty)}
    case Refused => category in {Some(DeletePartial), Some(HeadMismatch), Some(OperationDeadline),
                                 Some(RevalidationFailed), Some(RevalidationMismatch)}
  }

  predicate DistinctDigests(ds: seq<Digest>)
  {
    forall i, j :: 0 <= i < j < |ds| ==> ds[i] != ds[j]
  }

  // The field checks of `_latest_status` that need only the status and the prepared record.
  predicate ShapeOk(s: Status, p: PreparedRecord)
  {
    && s.deletedObjects >= 0 && s.deletedBytes >= 0 && s.plannedObjects >= 1
    && s.remainingObjects >= 0 && s.deletedObjects + s.remainingObjects == s.plannedObjects
    && s.remainingBytes >= 0 && s.sequence >= 1
    && s.headRequests >= 0 && s.deleteRequests >= 0
    && s.resultShards != [] && DistinctDigests(s.resultShards)
    && CategoryOk(s.state, s.category)
    && s.operationId == p.operationId && s.checkpointId == p.checkpointId && s.planSha256 == p.planSha256
  }

  // The checks of `_latest_status` that tie the state to the classification `es`.
  predicate OutcomesOk(s: Status, es: seq<Entry>, records: seq<ObjectRecord>)
  {
    match s.state
    case Prepared => UntouchedStatus(s, es)
    case NotReady => UntouchedStatus(s, es)
    case Partial => exists i :: 0 <= i < |es| && es[i].outcome.Deleted?
    case Completed =>
      && es != [] && (forall i :: 0 <= i < |es| ==> es[i].outcome.Deleted?)
      && |es| == |records|
      && s.remainingObjects == 0 && s.remainingBytes == 0 && s.postflight == Some(EmptyInventory)
    case Refused => true
  }

  predicate UntouchedStatus(s: Status, es: seq<Entry>)
  {
    && es != [] && (forall i :: 0 <= i < |es| ==> es[i].outcome.Unattempted?)
    && s.deletedBytes == 0 && s.headRequests == 0 && s.deleteRequests == 0 && s.postflight == None
  }

  ghost predicate StatusOk(s: Status, p: PreparedRecord, records: seq<ObjectRecord>)
  {
    && ShapeOk(s, p)
    && ClassificationOk(s, records)
    && OutcomesOk(s, Classified(s.resultShards), records)
  }

  /******* The log *******/

  function Rank(state: State): int
  {
    match state
    case Prepared => 0
    case NotReady => 1
    case Refused => 2
    case Partial => 2
    case Completed => 3
  }

  // What must hold between consecutive attempts.
  ghost predicate Follows(a: Status, b: Status)
  {
    && b.state != Prepared && a.state != Completed
    && Rank(a.state) <= Rank(b.state)
    && DeletedBy(a) <= DeletedBy(b)
    && a.occurredAt <= b.occurredAt
  }

  // The order checks of `_latest_status` over the attempts sorted by sequence number.
  ghost predicate OrderOk(log: seq<Status>)
  {
    && (forall i :: 0 <= i < |log| ==> log[i].sequence == i + 1)
    && (log != [] ==> log[0].state == Prepared)
    && (forall i :: 0 < i < |log| ==> Follows(log[i - 1], log[i]))
  }

  ghost predicate LogOk(log: seq<Status>, p: PreparedRecord, records: seq<ObjectRecord>)
  {
    && OrderOk(log)
    && (forall i :: 0 <= i < |log| ==> StatusOk(log[i], p, records))
  }

  function KeyOf(s: Status): ControlKey { AttemptKey(s.sequence, Sha256(StatusBody(s))) }

  // The attempt objects of a store are exactly the attempts of `log`, numbered from 1.
  ghost predicate LogOf(c: Controls, log: seq<Status>)
  {
    && (forall i :: 0 <= i < |log| ==>
          log[i].sequence == i + 1 && KeyOf(log[i]) in c && c[KeyOf(log[i])] == StatusBody(log[i]))
    && (forall k :: k in c && k.AttemptKey? ==> 1 <= k.sequence <= |log| && k == KeyOf(log[k.sequence - 1]))
  }

  ghost predicate ShardsStored(c: Controls, s: Status)
  {
    forall d :: d in s.resultShards ==> ResultShardKey(d) in c && c[ResultShardKey(d)] == d.preimage
  }

  // The log that `_latest_status` must accept in store `c`.
  ghost predicate AcceptedLog(c: Controls, p: PreparedRecord, records: seq<ObjectRecord>, log: seq<Status>)
  {
    && LogOf(c, log)
    && LogOk(log, p, records)
    && (forall i :: 0 <= i < |log| ==> ShardsStored(c, log[i]))
  }

  ghost predicate Acceptable(c: Controls, p: PreparedRecord, records: seq<ObjectRecord>)
  {
    exists log :: AcceptedLog(c, p, records, log)
  }

  /******* What every acceptable log guarantees *******/

  lemma DeletedByPlanned(s: Status, p: PreparedRecord, records: seq<ObjectRecord>)
    requires StatusOk(s, p, records)
    ensures DeletedBy(s) <= Digests(records)
  {
    var es := Classified(s.resultShards);
    assert forall d :: d in DeletedIn(es) ==> d in ObjectsOf(es);
  }

  /** Along an acceptable log the state rank, the time and the deleted set never decrease. */
  lemma {:induction false} LogMonotone(log: seq<Status>, i: nat, j: nat)
    requires OrderOk(log) && i <= j < |log|
    ensures Rank(log[i].state) <= Rank(log[j].state)
    ensures log[i].occurredAt <= log[j].occurredAt
    ensures DeletedBy(log[i]) <= DeletedBy(log[j])
    ensures i < j ==> log[i].state != Completed && log[j].state != Prepared
  {
    if i < j {
      LogMonotone(log, i, j - 1);
      assert Follows(log[j - 1], log[j]);
    }
  }

  /** The states in order: prepared, then any number of not-ready attempts, then any mix of refused
      and partial ones, then completed, after which there is nothing. */
  lemma StatesInOrder(log: seq<Status>, i: nat, j: nat)
    requires OrderOk(log) && i < j < |log|
    ensures log[i].state == Prepared <==> i == 0
    ensures log[i].state != Completed && log[j].state != Prepared
    ensures log[j].state == NotReady ==> log[i].state in {Prepared, NotReady}
    ensures log[i].state in {Refused, Partial} ==> log[j].state in {Refused, Partial, Completed}
  {
    LogMonotone(log, i, j);
    if i > 0 { LogMonotone(log, 0, i); }
  }

  // Between neighbours nothing else is asked of the states.
  lemma FollowsExactly(a: Status, b: Status)
    ensures Follows(a, b) <==>
              && a.state != Completed && b.state != Prepared && !(a.state in {Refused, Partial} && b.state == NotReady)
              && DeletedBy(a) <= DeletedBy(b) && a.occurredAt <= b.occurredAt
  {
  }

  ghost function NewlyDeleted(log: seq<Status>, i: nat): set<Digest>
    requires i < |log|
  {
    if i == 0 then DeletedBy(log[0]) else DeletedBy(log[i]) - DeletedBy(log[i - 1])
  }

  /** No object is deleted by two different attempts. */
  lemma NewlyDeletedDisjoint(log: seq<Status>, i: nat, j: nat)
    requires OrderOk(log) && i < j < |log|
    ensures NewlyDeleted(log, i) !! NewlyDeleted(log, j)
  {
    LogMonotone(log, i, j - 1);
  }

  /** In every attempt, deleted plus remaining objects and bytes are the planned totals, and
      the counters count exactly the objects classified as deleted. */
  lemma StatusConserves(s: Status, p: PreparedRecord, records: seq<ObjectRecord>)
    requires StatusOk(s, p, records)
    ensures s.deletedObjects + s.remainingObjects == |records|
    ensures s.deletedBytes + s.remainingBytes == TotalBytes(records)
    ensures s.deletedObjects == |DeletedBy(s)|
  {
    SplitConserves(records, DeletedBy(s));
  }

  lemma {:induction false} AllDeleted(es: seq<Entry>)
    requires forall i :: 0 <= i < |es| ==> es[i].outcome.Deleted?
    ensures DeletedIn(es) == ObjectsOf(es)
  {
    assert forall e :: e in es ==> e.outcome.Deleted?;
  }

  /** A completed attempt is the last one, classifies every planned record as deleted and
      carries the digest of an empty postflight inventory. */
  lemma CompletedMeansEverything(log: seq<Status>, p: PreparedRecord, records: seq<ObjectRecord>, i: nat)
    requires LogOk(log, p, records) && i < |log| && log[i].state == Completed
    ensures i == |log| - 1
    ensures DeletedBy(log[i]) == Digests(records)
    ensures log[i].postflight == Some(EmptyInventory) && log[i].remainingBytes == 0
  {
    LogMonotone(log, i, |log| - 1);
    AllDeleted(Classified(log[i].resultShards));
  }

  /******* The status the writer builds *******/

  function Classify(r: ObjectRecord, deleted: set<Digest>, failed: set<Digest>): Entry
  {
    Entry(RecordDigest(r),
          if RecordDigest(r) in deleted then Deleted
          else if RecordDigest(r) in failed then Failed else Unattempted)
  }

  // One entry for each planned record, in order: deleted, or else failed, or neither.
  ghost predicate Tells(es: seq<Entry>, planned: seq<ObjectRecord>, deleted: set<Digest>, failed: set<Digest>)
  {
    && |es| == |planned|
    && forall i :: 0 <= i < |es| ==>
         && es[i].target == RecordDigest(planned[i])
         && (es[i].outcome.Deleted? <==> es[i].target in deleted)
         && (es[i].outcome.Failed? <==> es[i].target in failed && es[i].target !in deleted)
  }

  function Classifications(planned: seq<ObjectRecord>, deleted: set<Digest>, failed: set<Digest>): (es: seq<Entry>)
    ensures Tells(es, planned, deleted, failed)
  {
    seq(|planned|, i requires 0 <= i < |planned| => Classify(planned[i], deleted, failed))
  }

  lemma ClassificationsCover(planned: seq<ObjectRecord>, deleted: set<Digest>, failed: set<Digest>)
    requires DistinctKeys(planned)
    ensures var es := Classifications(planned, deleted, failed);
            && DistinctObjects(es)
            && ObjectsOf(es) == Digests(planned)
            && DeletedIn(es) == deleted * Digests(planned)
  {
    var es := Classifications(planned, deleted, failed);
    forall d ensures d in ObjectsOf(es) <==> d in Digests(planned) {
      if d in ObjectsOf(es) {
        var i :| 0 <= i < |es| && es[i].target == d;
        assert planned[i] in planned;
      }
      if d in Digests(planned) {
        var i :| 0 <= i < |planned| && RecordDigest(planned[i]) == d;
        assert es[i] in es && es[i].target == d;
      }
    }
    forall d ensures d in DeletedIn(es) <==> d in deleted * Digests(planned) {
      if d in DeletedIn(es) {
        var i :| 0 <= i < |es| && es[i].target == d && es[i].outcome.Deleted?;
        assert planned[i] in planned;
      }
      if d in deleted * Digests(planned) {
        var i :| 0 <= i < |planned| && RecordDigest(planned[i]) == d;
        assert es[i] in es && es[i].target == d && es[i].outcome.Deleted?;
      }
    }
  }

  // The status body of `_record_status`, given the shards holding its classification.
  function NewStatus(p: PreparedRecord, planned: seq<ObjectRecord>, sequence: int, state: State,
                     category: Option<Category>, deleted: set<Digest>, heads: nat, deletes: nat,
                     postflight: Option<Digest>, occurredAt: int, shards: seq<Digest>): Status
  {
    Status(p.operationId, p.checkpointId, p.planSha256, sequence, state, category, occurredAt,
           |planned|, |KeepIn(planned, deleted)|, TotalBytes(KeepIn(planned, deleted)),
           |KeepOut(planned, deleted)|, TotalBytes(KeepOut(planned, deleted)),
           heads, deletes, postflight, shards)
  }

  // What `_record_status` is handed in each state.
  ghost predicate RequestOk(planned: seq<ObjectRecord>, state: State, category: Option<Category>,
                            deleted: set<Digest>, failed: set<Digest>, heads: nat, deletes: nat,
                            postflight: Option<Digest>)
  {
    && deleted <= Digests(planned)
    && match state
       case Prepared => category == None && deleted == {} && failed == {} && heads == deletes == 0 && postflight == None
       case NotReady =>
         category == Some(QuiescenceNotReady) && deleted == {} && failed == {} && heads == deletes == 0 && postflight == None
       case Partial =>
         && category in {Some(DeletePartial), Some(HeadMismatch), Some(OperationDeadline), Some(PostflightNotEmpty)}
         && deleted != {}
       case Completed => category == None && deleted == Digests(planned) && postflight == Some(EmptyInventory)
       case Refused =>
         category in {Some(DeletePartial), Some(HeadMismatch), Some(OperationDeadline), Some(RevalidationFailed), Some(RevalidationMismatch)}
  }

  /** The writer's body passes every check the validator makes of a single attempt. */
  lemma NewStatusOk(p: PreparedRecord, planned: seq<ObjectRecord>, sequence: int, state: State,
                    category: Option<Category>, deleted: set<Digest>, failed: set<Digest>, heads: nat, deletes: nat,
                    postflight: Option<Digest>, occurredAt: int, shards: seq<Digest>)
    requires planned != [] && DistinctKeys(planned) && sequence >= 1
    requires RequestOk(planned, state, category, deleted, failed, heads, deletes, postflight)
    requires shards != [] && DistinctDigests(shards) && ResultShards(shards)
    requires Classified(shards) == Classifications(planned, deleted, failed)
    ensures var s := NewStatus(p, planned, sequence, state, category, deleted, heads, deletes, postflight, occurredAt, shards);
            StatusOk(s, p, planned) && DeletedBy(s) == deleted
  {
    var s := NewStatus(p, planned, sequence, state, category, deleted, heads, deletes, postflight, occurredAt, shards);
    SplitConserves(planned, deleted);
    assert ShapeOk(s, p);
    NewClassificationOk(s, planned, deleted, failed);
    NewOutcomesOk(s, planned, deleted, failed);
  }

  ghost function FailedIn(es: seq<Entry>): set<Digest> { set e | e in es && e.outcome.Failed? :: e.target }

  /** Conversely, every attempt that passes these checks is one that the writer could have built,
      from the sets its own classification names. */
  lemma AcceptedIsWritable(s: Status, p: PreparedRecord, planned: seq<ObjectRecord>)
    requires planned != [] && DistinctKeys(planned) && StatusOk(s, p, planned)
    ensures s.headRequests >= 0 && s.deleteRequests >= 0 && s.sequence >= 1 && s.resultShards != [] && DistinctDigests(s.resultShards)
    ensures var deleted, failed := DeletedBy(s), FailedIn(Classified(s.resultShards));
            && RequestOk(planned, s.state, s.category, deleted, failed, s.headRequests, s.deleteRequests, s.postflight)
            && s == NewStatus(p, planned, s.sequence, s.state, s.category, deleted, s.headRequests, s.deleteRequests, s.postflight,
                              s.occurredAt, s.resultShards)
  {
    var es, deleted := Classified(s.resultShards), DeletedBy(s);
    DeletedByPlanned(s, p, planned);
    SplitConserves(planned, deleted);
    KeepInDigests(planned, deleted);
    assert deleted * Digests(planned) == deleted;
    match s.state {
      case Prepared => NothingAttempted(es);
      case NotReady => NothingAttempted(es);
      case Partial =>
        var i :| 0 <= i < |es| && es[i].outcome.Deleted?;
        assert es[i] in es && es[i].target in deleted;
      case Completed => AllDeleted(es);
      case Refused =>
    }
  }

  lemma NothingAttempted(es: seq<Entry>)
    requires forall i :: 0 <= i < |es| ==> es[i].outcome.Unattempted?
    ensures DeletedIn(es) == {} && FailedIn(es) == {}
  {
    assert forall e :: e in es ==> e.outcome.Unattempted?;
  }

  lemma NewClassificationOk(s: Status, planned: seq<ObjectRecord>, deleted: set<Digest>, failed: set<Digest>)
    requires DistinctKeys(planned) && deleted <= Digests(planned)
    requires s.resultShards != [] && ResultShards(s.resultShards)
    requires Classified(s.resultShards) == Classifications(planned, deleted, failed)
    requires s.plannedObjects == |planned| && s.deletedObjects == |KeepIn(planned, deleted)|
    requires s.deletedBytes == TotalBytes(KeepIn(planned, deleted))
    requires s.remainingBytes == TotalBytes(KeepOut(planned, deleted))
    ensures ClassificationOk(s, planned) && DeletedBy(s) == deleted
  {
    ClassificationsCover(planned, deleted, failed);
    KeepInDigests(planned, deleted);
    assert deleted * Digests(planned) == deleted;
  }

  lemma NewOutcomesOk(s: Status, planned: seq<ObjectRecord>, deleted: set<Digest>, failed: set<Digest>)
    requires planned != [] && DistinctKeys(planned)
    requires s.headRequests >= 0 && s.deleteRequests >= 0
    requires RequestOk(planned, s.state, s.category, deleted, failed, s.headRequests, s.deleteRequests, s.postflight)
    requires s.deletedBytes == TotalBytes(KeepIn(planned, deleted))
    requires s.remainingObjects == |KeepOut(planned, deleted)|
    requires s.remainingBytes == TotalBytes(KeepOut(planned, deleted))
    ensures OutcomesOk(s, Classifications(planned, deleted, failed), planned)
  {
    var es := Classifications(planned, deleted, failed);
    match s.state {
      case Prepared => NothingKept(planned);
      case NotReady => NothingKept(planned);
      case Partial =>
        var d :| d in deleted;
        var i :| 0 <= i < |planned| && RecordDigest(planned[i]) == d;
        assert es[i].outcome.Deleted?;
      case Completed =>
        NothingLeft(planned, deleted);
        forall i | 0 <= i < |es| ensures es[i].outcome.Deleted? {
          assert planned[i] in planned;
        }
      case Refused =>
    }
  }

  lemma {:induction false} NothingLeft(rs: seq<ObjectRecord>, ds: set<Digest>)
    requires forall r :: r in rs ==> RecordDigest(r) in ds
    ensures KeepOut(rs, ds) == []
  {
    if rs != [] { NothingLeft(rs[..|rs| - 1], ds); }
  }

  lemma {:induction false} NothingKept(rs: seq<ObjectRecord>)
    ensures KeepIn(rs, {}) == []
  {
    if rs != [] { NothingKept(rs[..|rs| - 1]); }
  }

  /** Appending an attempt that is acceptable by itself and follows the last one keeps the
      whole log acceptable. */
  lemma LogAppend(log: seq<Status>, s: Status, p: PreparedRecord, records: seq<ObjectRecord>)
    requires LogOk(log, p, records) && StatusOk(s, p, records)
    requires s.sequence == |log| + 1
    requires log == [] ==> s.state == Prepared
    requires log != [] ==> Follows(log[|log| - 1], s)
    ensures LogOk(log + [s], p, records)
  {
    hide StatusOk, Follows;
    var longer := log + [s];
    forall i | 0 <= i < |longer| ensures longer[i].sequence == i + 1 && StatusOk(longer[i], p, records) {
      assert i < |log| ==> longer[i] == log[i];
    }
    forall i | 0 < i < |longer| ensures Follows(longer[i - 1], longer[i]) {
      assert i < |log| ==> longer[i] == log[i] && longer[i - 1] == log[i - 1];
    }
  }

  /** Why the plan's records must be distinct: a plan that repeats a record classifies the
      same object twice, and then no attempt can be accepted. */
  lemma RepeatedRecordIsRejected(s: Status, p: PreparedRecord, planned: seq<ObjectRecord>,
                                 deleted: set<Digest>, failed: set<Digest>, i: nat, j: nat)
    requires i < j < |planned| && planned[i] == planned[j]
    requires ResultShards(s.resultShards)
    requires Classified(s.resultShards) == Classifications(planned, deleted, failed)
    ensures !StatusOk(s, p, planned)
  {
    var es := Classified(s.resultShards);
    assert es[i].target == es[j].target;
  }

  /** Why the monotonic clock must not throw: the failure would be logged under a category
      that makes the log unacceptable from then on. */
  lemma ClockFailureIsRejected(log: seq<Status>, p: PreparedRecord, records: seq<ObjectRecord>, i: nat)
    requires i < |log| && log[i].category == Some(ClockFailed)
    ensures !LogOk(log, p, records)
  {
    assert LogOk(log, p, records) ==> StatusOk(log[i], p, records);
  }
}
