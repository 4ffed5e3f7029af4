/** The writer lease of one checkpoint (scripts/checkpoints/leases.py).

    `LeaseManager` reads, modifies and conditionally replaces one lease document, and writes
    one terminal record.  Every gateway call may fail, with or without having taken effect,
    and the process may stop after any of them; a failed call is simply the end of the method.
    All methods run under the checkpoint's lock, so nobody else writes meanwhile. */
module CheckpointLease {
  import opened Options
  import opened Results
  import opened Records
  import opened RetentionPolicy

  const FUTURE_TOLERANCE_SECONDS := 300

  // The evidence of a terminal request: the generation map and five optional flags.  A flag that
  // is no boolean stands for a value that also equals none (so not for the numbers 0 and 1).
  datatype Evidence = Evidence(generation: Option<map<string, string>>, exclusiveRun: Option<Flag>, recoveryApproved: Option<Flag>,
                               sinkDispositionApproved: Option<Flag>, sourceAvailable: Option<Flag>, successful: Option<Flag>)

  datatype Lease = Lease(epoch: string, prefix: string, workload: string, ownerId: string, sessionId: string, state: State,
                         acquiredAt: int, heartbeatAt: int, expiresAt: int, evidence: Option<Evidence>)

  datatype TerminalRecord = TerminalRecord(prefix: string, state: State, occurredAt: int, generation: map<string, string>,
                                           exclusiveRun: bool, recoveryApproved: bool, sinkDispositionApproved: bool,
                                           sourceAvailable: bool, successful: bool)

  datatype Request = Request(prefix: string, epoch: string, state: State, evidence: Evidence)

  datatype Failure =
    | IdentityMismatch | ReadFailed | Malformed | FutureClockRefused | StillActive | ExpiredActiveUncertain | WriteFailed
    | NotActive | TerminalStateInvalid | GenerationMismatch | EvidenceInvalid | TerminalRecordFailed

  /** `_decode_lease`: the part of it that can fail on a document this code wrote. */
  predicate Decodes(l: Lease)
  {
    && l.state in {Active, Stopped, Completed, Retired}
    && l.acquiredAt <= l.heartbeatAt <= l.expiresAt && l.expiresAt - l.heartbeatAt == TTL_SECONDS
  }

  function FlagValue(f: Option<Flag>): bool
  {
    f == Some(Yes)
  }

  predicate AllBoolean(e: Evidence)
  {
    Some(NotBoolean) !in [e.exclusiveRun, e.recoveryApproved, e.sinkDispositionApproved, e.sourceAvailable, e.successful]
  }

  /** The record that `_persist_terminal` writes for a request whose lease ended at `occurredAt`. */
  function RecordFor(r: Request, occurredAt: int): TerminalRecord
    requires r.evidence.generation.Some?
  {
    TerminalRecord(r.prefix, r.state, occurredAt, r.evidence.generation.value, FlagValue(r.evidence.exclusiveRun),
                   FlagValue(r.evidence.recoveryApproved), FlagValue(r.evidence.sinkDispositionApproved),
                   FlagValue(r.evidence.sourceAvailable), FlagValue(r.evidence.successful))
  }

  /******* Lease histories *******/

  predicate FreshEpoch(history: seq<Lease>, epoch: string)
  {
    forall i :: 0 <= i < |history| ==> history[i].epoch != epoch
  }

  predicate Acquired(l: Lease)
  {
    l.state == Active && l.evidence == None && l.acquiredAt == l.heartbeatAt && l.expiresAt == l.heartbeatAt + TTL_SECONDS
  }

  // A heartbeat or the terminal step of the same epoch.
  predicate Continued(prev: Lease, next: Lease)
  {
    && prev.state == Active && next.state in {Active, Stopped, Completed, Retired}
    && (next.evidence == None <==> next.state == Active)
    && next == prev.(state := next.state, evidence := next.evidence, heartbeatAt := next.heartbeatAt,
                     expiresAt := next.heartbeatAt + TTL_SECONDS)
  }

  predicate LegalNext(history: seq<Lease>, next: Lease)
  {
    if history == [] then Acquired(next)
    else
      var last := history[|history| - 1];
      Decodes(last) && (Continued(last, next) || (last.state != Active && FreshEpoch(history, next.epoch) && Acquired(next)))
  }

  ghost predicate Legal(history: seq<Lease>)
  {
    forall i :: 0 <= i < |history| ==> LegalNext(history[..i], history[i])
  }

  lemma LegalAppend(history: seq<Lease>, next: Lease)
    requires Legal(history) && LegalNext(history, next)
    ensures Legal(history + [next])
  {
    var longer := history + [next];
    forall i | 0 <= i < |longer| ensures LegalNext(longer[..i], longer[i]) {
      assert longer[..i] == if i < |history| then history[..i] else history;
    }
  }

  lemma Step(history: seq<Lease>, i: nat)
    requires Legal(history) && i < |history|
    ensures i == 0 ==> Acquired(history[i])
    ensures i > 0 ==> Decodes(history[i - 1])
    ensures i > 0 ==> || Continued(history[i - 1], history[i])
                      || (&& history[i - 1].state != Active && Acquired(history[i])
                          && forall k :: 0 <= k < i ==> history[k].epoch != history[i].epoch)
  {
    assert LegalNext(history[..i], history[i]);
    if i > 0 {
      assert history[..i][i - 1] == history[i - 1];
      assert forall k :: 0 <= k < i ==> history[..i][k] == history[k];
    }
  }

  /** Nothing follows the terminal step of an epoch within that epoch, and an epoch that was
      superseded never writes again. */
  lemma {:induction false} EpochEnds(history: seq<Lease>, i: nat, j: nat)
    requires Legal(history) && i < j < |history|
    requires history[i].state != Active || history[i + 1].epoch != history[i].epoch
    ensures history[j].epoch != history[i].epoch
  {
    hide Legal;
    Step(history, i + 1);
    Step(history, j);
    if i + 1 < j { EpochEnds(history, i, j - 1); }
  }

  /** A lease leaves `active` only by its own epoch's terminal step: before a successor's first
      document lies a terminal document of the earlier epoch.  Expiry does not occur here. */
  lemma {:induction false} SuccessionNeedsTerminal(history: seq<Lease>, i: nat, j: nat) returns (k: nat)
    requires Legal(history) && i < j < |history| && history[i].epoch != history[j].epoch
    ensures i <= k < j && history[k].epoch == history[i].epoch && history[k].state != Active
    decreases j - i
  {
    hide Legal;
    Step(history, i + 1);
    if history[i].state != Active {
      k := i;
    } else {
      assert history[i + 1].epoch == history[i].epoch;
      k := SuccessionNeedsTerminal(history, i + 1, j);
    }
  }

  /** With a clock that never goes backwards every document ever written decodes. */
  lemma {:induction false} EveryLeaseDecodes(history: seq<Lease>, i: nat)
    requires Legal(history) && i < |history|
    requires forall a, b :: 0 <= a < b <= i ==> history[a].heartbeatAt <= history[b].heartbeatAt
    ensures Decodes(history[i])
  {
    hide Legal;
    Step(history, i);
    if i > 0 { EveryLeaseDecodes(history, i - 1); }
  }

  /** Without that assumption a document decodes exactly when its last clock reading is not
      before its acquisition; one that does not is the last document ever written. */
  lemma DecodesUnlessClockWentBack(history: seq<Lease>, i: nat)
    requires Legal(history) && i < |history|
    ensures Decodes(history[i]) <==> history[i].acquiredAt <= history[i].heartbeatAt
    ensures !Decodes(history[i]) ==> i == |history| - 1
  {
    hide Legal;
    Step(history, i);
    if i + 1 < |history| { Step(history, i + 1); }
  }

  /******* What the planner makes of it *******/

  function FlagOf(b: bool): Flag { if b then Yes else No }

  /** `_decode_lease` of the planner. */
  function LeaseFactsOf(id: string, l: Lease, etag: string): LeaseFacts
  {
    LeaseFacts(id, l.prefix, l.state, Exact(l.acquiredAt), Exact(l.heartbeatAt), Exact(l.expiresAt), etag, No, No)
  }

  /** `_decode_terminal` of the planner: a record written here carries no retirement review. */
  function TerminalFactsOf(r: TerminalRecord): TerminalFacts
  {
    TerminalFacts(r.state, Exact(r.occurredAt), FlagOf(r.recoveryApproved), FlagOf(r.sourceAvailable), FlagOf(r.sinkDispositionApproved),
                  None, r.generation, FlagOf(r.exclusiveRun), FlagOf(r.successful))
  }

  /** When a lease has ended by an admissible request whose record was written, the checkpoint is
      eligible exactly when the three approvals were given, nothing was modified afterwards,
      and the retention period has passed since the terminal step. */
  lemma EligibleAfterTerminal(entry: Entry, matched: Matched, l: Lease, etag: string, r: Request, inventory: InventoryFacts, now: int, tolerance: nat)
    requires Registered(entry) && entry.durability != DurableStream && Decodes(l) && 1 <= |etag| <= 128
    requires l.prefix == r.prefix && l.state == r.state && r.state in LeaseTerminalStates(entry.durability)
    requires r.evidence.generation == Some(matched.generation)
    requires entry.durability == DisposableAcceptance ==> r.evidence.successful == Some(Yes) && r.evidence.exclusiveRun == Some(Yes)
    requires 1 <= inventory.objectCount <= MAX_OBJECTS && 1 <= inventory.totalBytes <= MAX_BYTES && inventory.digestWellFormed
    requires inventory.newest.Exact? && inventory.changedSincePlan == No && inventory.partialRetryConfined == Yes
    requires now <= LATEST
    ensures var facts := Facts(r.prefix, Exact(now), Some(LeaseFactsOf(matched.checkpointId, l, etag)),
                               Some(TerminalFactsOf(RecordFor(r, l.heartbeatAt))), inventory);
            Eligible(entry, matched, facts, tolerance) <==>
            && r.evidence.recoveryApproved == Some(Yes) && r.evidence.sourceAvailable == Some(Yes)
            && r.evidence.sinkDispositionApproved == Some(Yes)
            && inventory.newest.seconds <= l.heartbeatAt && l.heartbeatAt + entry.retentionSeconds <= now
  {
    hide Eligible;
    var facts := Facts(r.prefix, Exact(now), Some(LeaseFactsOf(matched.checkpointId, l, etag)),
                       Some(TerminalFactsOf(RecordFor(r, l.heartbeatAt))), inventory);
    EligibilityIsAThreshold(entry, matched, facts, tolerance);
  }

  /** For a durable stream the records written here never suffice: the review that its
      retirement needs is not among their fields. */
  lemma OwnRecordNeverFreesDurableStream(entry: Entry, matched: Matched, f: Facts, r: TerminalRecord, tolerance: nat)
    requires Registered(entry) && entry.durability == DurableStream && f.terminal == Some(TerminalFactsOf(r))
    ensures !Eligible(entry, matched, f, tolerance)
  {
    hide Eligible;
    EligibilityIsAThreshold(entry, matched, f, tolerance);
  }

  // A clock that went back: acquired at 10, heartbeat at 5.
  function WedgedHistory(epoch: string, prefix: string): seq<Lease>
  {
    var acquired := Lease(epoch, prefix, "", "", "", Active, 10, 10, 10 + TTL_SECONDS, None);
    [acquired, acquired.(heartbeatAt := 5, expiresAt := 5 + TTL_SECONDS)]
  }

  /** Such a history is legal, its last document does not decode, and nothing can follow it. */
  lemma ClockBackWedgesLease(epoch: string, prefix: string, next: Lease)
    ensures Legal(WedgedHistory(epoch, prefix))
    ensures !Decodes(WedgedHistory(epoch, prefix)[1]) && !LegalNext(WedgedHistory(epoch, prefix), next)
  {
    var h := WedgedHistory(epoch, prefix);
    assert h[..0] == [] && h[..1] == [h[0]];
    assert Continued(h[0], h[1]);
  }

  /******* The lease manager *******/

  /** `faults` counts the gateway calls that failed. */
  class LeaseManager {
    const entry: Entry
    const workload: string
    const matchPrefix: string -> Option<Matched>   // only prefixes of this checkpoint match
    var lease: Option<Lease>
    var terminal: Option<TerminalRecord>
    ghost var history: seq<Lease>
    ghost var faults: nat

    ghost predicate Valid()
      reads this
    {
      Legal(history) && lease == if history == [] then None else Some(history[|history| - 1])
    }

    constructor (entry: Entry, workload: string, matchPrefix: string -> Option<Matched>)
      ensures Valid() && history == [] && terminal == None && faults == 0
    {
      this.entry, this.workload, this.matchPrefix := entry, workload, matchPrefix;
      lease, terminal, history, faults := None, None, [], 0;
    }

    method ReadLease() returns (r: Result<Option<Lease>, Failure>)
      modifies this`faults
      ensures r.Ok? ==> r.value == lease && (lease.Some? ==> Decodes(lease.value))
      ensures r == Err(Malformed) ==> lease.Some? && !Decodes(lease.value)
      ensures r.Err? ==> r.error == Malformed || (r.error == ReadFailed && old(faults) < faults)
      ensures old(faults) <= faults
    {
      var answered: bool := *;
      if !answered {
        faults := faults + 1;
        return Err(ReadFailed);
      }
      if lease.Some? && !Decodes(lease.value) { return Err(Malformed); }
      return Ok(lease);
    }

    // A conditional write under the lock: it may take effect without being acknowledged.
    method WriteLease(next: Lease) returns (ok: bool)
      requires Valid() && LegalNext(history, next)
      modifies this`lease, this`history, this`faults
      ensures Valid() && old(faults) <= faults && (!ok ==> old(faults) < faults)
      ensures history == old(history) + [next] || (!ok && history == old(history))
    {
      hide Legal, LegalNext;
      var reaches: bool := *;
      var answered: bool := *;
      if !reaches || !answered { faults := faults + 1; }
      if reaches {
        LegalAppend(history, next);
        lease, history := Some(next), history + [next];
      }
      return reaches && answered;
    }

    // A lease over which a new epoch may start now.
    predicate Replaceable(l: Option<Lease>, now: int)
    {
      l.Some? ==> && Decodes(l.value) && l.value.state != Active && matchPrefix(l.value.prefix).Some?
                  && l.value.heartbeatAt <= now + FUTURE_TOLERANCE_SECONDS
    }

    /** `acquire`: never over an active lease, expired or not.  Unless a gateway call fails, it
        succeeds exactly for a matching request over a replaceable lease. */
    method Acquire(prefix: string, requestWorkload: string, ownerId: string, sessionId: string, epoch: string, now: int)
      returns (r: Result<Lease, Failure>)
      requires Valid() && FreshEpoch(history, epoch)
      modifies this
      ensures Valid() && terminal == old(terminal) && old(faults) <= faults
      ensures history != old(history) ==>
                && history == old(history) + [Lease(epoch, prefix, workload, ownerId, sessionId, Active, now, now, now + TTL_SECONDS, None)]
                && Replaceable(old(lease), now)
      ensures r.Ok? ==> history != old(history) && lease == Some(r.value)
      ensures old(faults) == faults ==>
                (r.Ok? <==> matchPrefix(prefix).Some? && workload == requestWorkload && Replaceable(old(lease), now))
      ensures r == Err(StillActive) ==> lease.Some? && lease.value.state == Active && lease.value.prefix == prefix && now <= lease.value.expiresAt
      ensures r == Err(ExpiredActiveUncertain) ==> lease.Some? && lease.value.state == Active && lease.value.prefix == prefix && lease.value.expiresAt < now
      ensures r == Err(FutureClockRefused) ==> lease.Some? && lease.value.heartbeatAt > now + FUTURE_TOLERANCE_SECONDS
    {
      hide Legal;
      if matchPrefix(prefix) == None || workload != requestWorkload { return Err(IdentityMismatch); }
      var existing :- ReadLease();
      if existing.Some? {
        var current := existing.value;
        if current.heartbeatAt > now + FUTURE_TOLERANCE_SECONDS { return Err(FutureClockRefused); }
        if current.state == Active {
          if current.prefix != prefix { return Err(IdentityMismatch); }
          return Err(if current.expiresAt >= now then StillActive else ExpiredActiveUncertain);
        }
        if matchPrefix(current.prefix) == None { return Err(IdentityMismatch); }
      }
      var next := Lease(epoch, prefix, workload, ownerId, sessionId, Active, now, now, now + TTL_SECONDS, None);
      var ok := WriteLease(next);
      if !ok { return Err(WriteFailed); }
      return Ok(next);
    }

    // The active lease of this epoch and prefix.
    predicate HeldBy(l: Option<Lease>, prefix: string, epoch: string)
    {
      l.Some? && Decodes(l.value) && l.value.prefix == prefix && l.value.epoch == epoch && l.value.state == Active
    }

    /** `_transition_locked`: only the epoch that holds the active lease writes, and unless a
        gateway call fails it does. */
    method Transition(prefix: string, epoch: string, state: State, evidence: Option<Evidence>, now: int) returns (r: Result<Lease, Failure>)
      requires Valid() && state in {Active, Stopped, Completed, Retired} && (evidence == None <==> state == Active)
      modifies this`lease, this`history, this`faults
      ensures Valid() && old(faults) <= faults
      ensures history != old(history) ==>
                && HeldBy(old(lease), prefix, epoch)
                && lease == Some(old(lease).value.(heartbeatAt := now, expiresAt := now + TTL_SECONDS, state := state, evidence := evidence))
                && history == old(history) + [lease.value]
      ensures r == Err(NotActive) ==> history == old(history) && lease.Some? && lease.value.state != Active
      ensures r.Ok? ==> history != old(history) && lease == Some(r.value)
      ensures old(faults) == faults ==> (r.Ok? <==> HeldBy(old(lease), prefix, epoch))
    {
      hide Legal;
      var read :- ReadLease();
      if read == None { return Err(ReadFailed); }
      var current := read.value;
      if current.prefix != prefix || current.epoch != epoch { return Err(IdentityMismatch); }
      if current.state != Active { return Err(NotActive); }
      var next := current.(heartbeatAt := now, expiresAt := now + TTL_SECONDS, state := state, evidence := evidence);
      var ok := WriteLease(next);
      if !ok { return Err(WriteFailed); }
      return Ok(next);
    }

    /** `heartbeat`. */
    method Heartbeat(prefix: string, epoch: string, now: int) returns (r: Result<Lease, Failure>)
      requires Valid()
      modifies this
      ensures Valid() && terminal == old(terminal) && old(faults) <= faults
      ensures history != old(history) ==>
                && HeldBy(old(lease), prefix, epoch)
                && lease == Some(old(lease).value.(heartbeatAt := now, expiresAt := now + TTL_SECONDS))
                && history == old(history) + [lease.value]
      ensures r.Ok? ==> history != old(history) && lease == Some(r.value)
      ensures old(faults) == faults ==> (r.Ok? <==> matchPrefix(prefix).Some? && HeldBy(old(lease), prefix, epoch))
    {
      if matchPrefix(prefix) == None { return Err(IdentityMismatch); }
      HeldIsUnended(prefix, epoch);
      r := Transition(prefix, epoch, Active, None, now);
    }

    // An active lease carries no evidence.
    lemma HeldIsUnended(prefix: string, epoch: string)
      requires Valid()
      ensures HeldBy(lease, prefix, epoch) ==> lease.value.evidence == None
    {
      if HeldBy(lease, prefix, epoch) { Step(history, |history| - 1); }
    }

    // The checks of `terminal` before it takes the lock.
    predicate Admissible(r: Request)
    {
      && matchPrefix(r.prefix).Some?
      && r.state in LeaseTerminalStates(entry.durability)
      && r.evidence.generation == Some(matchPrefix(r.prefix).value.generation)
      && (entry.durability == DisposableAcceptance ==> r.evidence.successful == Some(Yes) && r.evidence.exclusiveRun == Some(Yes))
    }

    // The document is the terminal one of exactly this request.
    predicate Ends(l: Option<Lease>, r: Request)
    {
      && l.Some? && l.value.epoch == r.epoch && l.value.prefix == r.prefix
      && l.value.state == r.state && l.value.evidence == Some(r.evidence)
    }

    // The lease that a request leaves decodes: the clock has not gone back.
    predicate EndDecodes(l: Option<Lease>, r: Request, now: int)
    {
      if HeldBy(l, r.prefix, r.epoch) then l.value.acquiredAt <= now else l.Some? && Decodes(l.value)
    }

    /** `terminal` and `_persist_terminal`: first the lease document, then the terminal record.
        Success leaves exactly the record of the instant at which the lease ended.  Unless a
        gateway call fails, an admissible request over the lease it holds, or has ended, succeeds
        exactly when every flag is a boolean and the clock has not gone back. */
    method Terminal(q: Request, now: int) returns (r: Result<Lease, Failure>)
      requires Valid()
      modifies this
      ensures Valid() && old(faults) <= faults
      ensures history != old(history) ==>
                && HeldBy(old(lease), q.prefix, q.epoch) && Admissible(q)
                && lease == Some(old(lease).value.(heartbeatAt := now, expiresAt := now + TTL_SECONDS, state := q.state,
                                                   evidence := Some(q.evidence)))
                && history == old(history) + [lease.value]
      ensures r.Ok? ==> Ends(lease, q) && Admissible(q) && AllBoolean(q.evidence) && Decodes(lease.value) && lease == Some(r.value)
                        && terminal == Some(RecordFor(q, lease.value.heartbeatAt))
      ensures r.Ok? || terminal != old(terminal) ==>
                && terminal.Some? && lease.Some? && terminal.value.prefix == q.prefix && terminal.value.state == q.state
                && terminal.value.occurredAt == lease.value.heartbeatAt && Some(terminal.value.generation) == q.evidence.generation
                && (terminal.value.exclusiveRun <==> q.evidence.exclusiveRun == Some(Yes))
                && (terminal.value.recoveryApproved <==> q.evidence.recoveryApproved == Some(Yes))
                && (terminal.value.sinkDispositionApproved <==> q.evidence.sinkDispositionApproved == Some(Yes))
                && (terminal.value.sourceAvailable <==> q.evidence.sourceAvailable == Some(Yes))
                && (terminal.value.successful <==> q.evidence.successful == Some(Yes))
      ensures terminal != old(terminal) ==> Ends(lease, q) && Admissible(q) && terminal == Some(RecordFor(q, lease.value.heartbeatAt))
      ensures !AllBoolean(q.evidence) || (lease.Some? && !Decodes(lease.value)) ==> terminal == old(terminal)
      ensures old(faults) == faults ==>
                (r.Ok? <==> && Admissible(q) && (HeldBy(old(lease), q.prefix, q.epoch) || Ends(old(lease), q))
                            && AllBoolean(q.evidence) && EndDecodes(old(lease), q, now))
      ensures old(faults) == faults && Admissible(q) && HeldBy(old(lease), q.prefix, q.epoch) ==> Ends(lease, q)
      ensures r == Err(NotActive) ==> lease.Some? && lease.value.epoch == q.epoch && lease.value.state != Active && !Ends(lease, q)
    {
      hide Legal, AllBoolean, LeaseTerminalStates;
      if matchPrefix(q.prefix) == None { return Err(IdentityMismatch); }
      if q.state !in LeaseTerminalStates(entry.durability) { return Err(TerminalStateInvalid); }
      if q.evidence.generation != Some(matchPrefix(q.prefix).value.generation) { return Err(GenerationMismatch); }
      if entry.durability == DisposableAcceptance && (q.evidence.successful != Some(Yes) || q.evidence.exclusiveRun != Some(Yes)) {
        return Err(EvidenceInvalid);
      }
      TerminalStatesKnown(entry.durability);
      var read :- ReadLease();
      if read == None { return Err(ReadFailed); }
      var current := read.value;
      if current.prefix != q.prefix || current.epoch != q.epoch { return Err(IdentityMismatch); }
      var ended := current;
      if current.state == Active {
        ended :- Transition(q.prefix, q.epoch, q.state, Some(q.evidence), now);
      } else if !(current.state == q.state && current.evidence == Some(q.evidence)) {
        return Err(NotActive);
      }
      if !Decodes(ended) { return Err(Malformed); }
      if !AllBoolean(q.evidence) { return Err(EvidenceInvalid); }
      var ok := PersistTerminal(RecordFor(q, ended.heartbeatAt));
      if !ok { return Err(TerminalRecordFailed); }
      return Ok(ended);
    }

    // Read, then create or replace the terminal record; an identical one is left alone.
    method PersistTerminal(record: TerminalRecord) returns (ok: bool)
      modifies this`terminal, this`faults
      ensures terminal == old(terminal) || terminal == Some(record)
      ensures ok ==> terminal == Some(record)
      ensures old(faults) <= faults && (!ok ==> old(faults) < faults)
    {
      var answered: bool := *;
      if !answered {
        faults := faults + 1;
        return false;
      }
      if terminal == Some(record) { return true; }
      var reaches: bool := *;
      if reaches { terminal := Some(record); }
      ok := *;
      ok := ok && reaches;
      if !ok { faults := faults + 1; }
    }

    lemma TerminalStatesKnown(d: Durability)
      ensures LeaseTerminalStates(d) <= {Stopped, Completed, Retired}
    {
    }

    /** Retrying `terminal` after a crash or a lost answer writes the record that the first call
        would have written: if that call ended the lease, the record carries its instant.  A
        retry that meets no fault succeeds exactly when the first call could have. */
    method RetryTerminal(q: Request, now: int, later: int)
      returns (first: Result<Lease, Failure>, second: Result<Lease, Failure>, ghost ended: bool, ghost retryFaults: nat)
      requires Valid() && HeldBy(lease, q.prefix, q.epoch)
      modifies this
      ensures Valid()
      ensures first.Ok? ==> ended
      ensures second.Ok? ==> && Admissible(q) && Ends(lease, q) && |history| == |old(history)| + 1
                             && terminal == Some(RecordFor(q, if ended then now else later))
      ensures retryFaults == 0 ==>
                (second.Ok? <==> Admissible(q) && AllBoolean(q.evidence) && old(lease).value.acquiredAt <= if ended then now else later)
    {
      hide Legal, AllBoolean, LeaseTerminalStates;
      TerminalStatesKnown(entry.durability);
      first := Terminal(q, now);
      ended := history != old(history);
      ghost var before := faults;
      second := Terminal(q, later);
      retryFaults := faults - before;
    }

    /** Evidence is checked only after the lease has ended.  Repeating a request that ended the
        lease succeeds exactly when every flag is a boolean; when one is not, neither the same
        request nor a corrected one gets a terminal record. */
    method StrandedByEvidence(q: Request, corrected: Request, now: int, later: int) returns (again: Result<Lease, Failure>, other: Result<Lease, Failure>)
      requires Valid() && Ends(lease, q) && Admissible(q) && Decodes(lease.value)
      requires corrected.epoch == q.epoch && corrected.evidence != q.evidence
      modifies this
      ensures Valid() && history == old(history) && other.Err?
      ensures old(faults) == faults ==> (again.Ok? <==> AllBoolean(q.evidence))
      ensures !AllBoolean(q.evidence) ==> again.Err? && terminal == old(terminal)
      ensures AllBoolean(q.evidence) && again.Ok? ==> terminal == Some(RecordFor(q, lease.value.heartbeatAt))
    {
      hide Legal, AllBoolean, LeaseTerminalStates;
      TerminalStatesKnown(entry.durability);
      again := Terminal(q, now);
      other := Terminal(corrected, later);
    }
  }
}
