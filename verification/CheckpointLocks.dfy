/** Lease calls and applies of one process sharing its checkpoint locks
    (scripts/checkpoints/leases.py, operations.py, service.py).

    Any number of threads take turns in any order.  A lease call may write any document while
    it holds its checkpoint's lock; an apply holds the lock while it reads the lease, has the
    policy decide, and deletes batch after batch.  Any call may end at any time, and the
    process may restart, which frees every lock. */
module CheckpointLocks {
  import opened Options
  import opened Records
  import opened RetentionPolicy
  import opened CheckpointLease

  datatype Phase =
    | Idle
    | LeaseCall(id: string)
    | Applying(id: string, prefix: string)
    | Replanning(id: string, prefix: string, seen: Option<Lease>)
    | Cleared(id: string, prefix: string, seen: Option<Lease>)

  // One delete request, and the lease document stored when it was sent.
  datatype Deletion = Deletion(id: string, prefix: string, lease: Option<Lease>)

  datatype Process = Process(locks: map<string, nat>, threads: map<nat, Phase>, leases: map<string, Lease>, deletions: seq<Deletion>)

  const START := Process(map[], map[], map[], [])

  datatype Event =
    | BeginLease(thread: nat, id: string)
    | WriteLease(thread: nat, lease: Lease)
    | BeginApply(thread: nat, id: string, prefix: string)
    | ReadLease(thread: nat)
    | Decide(thread: nat, entry: Entry, matched: Matched, facts: Facts, tolerance: nat)
    | SendDelete(thread: nat)
    | Finish(thread: nat)
    | Restart

  function PhaseOf(p: Process, t: nat): Phase
  {
    if t in p.threads then p.threads[t] else Idle
  }

  function StoredLease(p: Process, id: string): Option<Lease>
  {
    if id in p.leases then Some(p.leases[id]) else None
  }

  // The facts were built from the lease that this apply read.
  predicate Describes(f: Facts, id: string, prefix: string, seen: Option<Lease>)
  {
    && f.prefix == prefix
    && (f.lease.Some? ==> seen.Some? && f.lease.value == LeaseFactsOf(id, seen.value, f.lease.value.etag))
  }

  predicate Enabled(p: Process, e: Event)
  {
    match e
    case BeginLease(t, id) => PhaseOf(p, t).Idle? && id !in p.locks
    case WriteLease(t, _) => PhaseOf(p, t).LeaseCall?
    case BeginApply(t, id, _) => PhaseOf(p, t).Idle? && id !in p.locks
    case ReadLease(t) => PhaseOf(p, t).Applying?
    case Decide(t, entry, matched, facts, tolerance) =>
      var phase := PhaseOf(p, t);
      && phase.Replanning? && Registered(entry) && matched.checkpointId == phase.id
      && Describes(facts, phase.id, phase.prefix, phase.seen)
      && Eligible(entry, matched, facts, tolerance)
    case SendDelete(t) => PhaseOf(p, t).Cleared?
    case Finish(t) => !PhaseOf(p, t).Idle?
    case Restart => true
  }

  function Perform(p: Process, e: Event): Process
    requires Enabled(p, e)
  {
    match e
    case BeginLease(t, id) => p.(locks := p.locks[id := t], threads := p.threads[t := LeaseCall(id)])
    case WriteLease(t, l) => p.(leases := p.leases[PhaseOf(p, t).id := l])
    case BeginApply(t, id, prefix) => p.(locks := p.locks[id := t], threads := p.threads[t := Applying(id, prefix)])
    case ReadLease(t) =>
      var phase := PhaseOf(p, t);
      p.(threads := p.threads[t := Replanning(phase.id, phase.prefix, StoredLease(p, phase.id))])
    case Decide(t, _, _, _, _) =>
      var phase := PhaseOf(p, t);
      p.(threads := p.threads[t := Cleared(phase.id, phase.prefix, phase.seen)])
    case SendDelete(t) =>
      var phase := PhaseOf(p, t);
      p.(deletions := p.deletions + [Deletion(phase.id, phase.prefix, StoredLease(p, phase.id))])
    case Finish(t) => p.(locks := p.locks - {PhaseOf(p, t).id}, threads := p.threads - {t})
    case Restart => p.(locks := map[], threads := map[])
  }

  ghost predicate Run(states: seq<Process>, events: seq<Event>)
  {
    && |states| == |events| + 1 && states[0] == START
    && forall i :: 0 <= i < |events| ==> Enabled(states[i], events[i]) && states[i + 1] == Perform(states[i], events[i])
  }

  // The lease is terminal for exactly this prefix.
  predicate SettledFor(prefix: string, l: Option<Lease>)
  {
    l.Some? && l.value.prefix == prefix && l.value.state in {Stopped, Completed, Retired}
  }

  predicate ThreadOk(p: Process, t: nat)
  {
    var phase := PhaseOf(p, t);
    && (!phase.Idle? ==> phase.id in p.locks && p.locks[phase.id] == t)
    && (phase.Replanning? || phase.Cleared? ==> phase.seen == StoredLease(p, phase.id))
    && (phase.Cleared? ==> SettledFor(phase.prefix, phase.seen))
  }

  ghost predicate Consistent(p: Process)
  {
    && (forall t :: ThreadOk(p, t))
    && (forall i :: 0 <= i < |p.deletions| ==> SettledFor(p.deletions[i].prefix, p.deletions[i].lease))
  }

  lemma ThreadKept(p: Process, e: Event, t: nat)
    requires Consistent(p) && Enabled(p, e)
    ensures ThreadOk(Perform(p, e), t)
  {
    hide Eligible;
    assert ThreadOk(p, t);
    if e.Decide? {
      EligibleMeansTerminal(e.entry, e.matched, e.facts, e.tolerance);
    }
    if !e.Restart? {
      assert ThreadOk(p, e.thread);
    }
  }

  lemma StepKeepsConsistent(p: Process, e: Event)
    requires Consistent(p) && Enabled(p, e)
    ensures Consistent(Perform(p, e))
  {
    hide Eligible;
    forall t ensures ThreadOk(Perform(p, e), t) { ThreadKept(p, e, t); }
    if e.SendDelete? {
      assert ThreadOk(p, e.thread);
    }
  }

  lemma {:induction false} EveryRunIsConsistent(states: seq<Process>, events: seq<Event>, n: nat)
    requires Run(states, events) && n < |states|
    ensures Consistent(states[n])
  {
    hide Enabled, Perform;
    if n > 0 {
      EveryRunIsConsistent(states, events, n - 1);
      StepKeepsConsistent(states[n - 1], events[n - 1]);
    }
  }

  /** Under every interleaving, whenever a delete was sent the checkpoint's lease was terminal
      for exactly the prefix being deleted; it was never active. */
  lemma NoDeleteWhileActive(states: seq<Process>, events: seq<Event>, n: nat, i: nat)
    requires Run(states, events) && n < |states| && i < |states[n].deletions|
    ensures var d := states[n].deletions[i];
            d.lease.Some? && d.lease.value.prefix == d.prefix && d.lease.value.state != Active
  {
    hide Enabled, Perform;
    EveryRunIsConsistent(states, events, n);
  }

  /** From the decision of an apply to its last delete the stored lease does not change: it is
      the one the policy decided on, and no other call on that checkpoint is under way. */
  lemma NothingChangesWhileCleared(states: seq<Process>, events: seq<Event>, n: nat, t: nat, u: nat)
    requires Run(states, events) && n < |states| && PhaseOf(states[n], t).Cleared?
    ensures StoredLease(states[n], PhaseOf(states[n], t).id) == PhaseOf(states[n], t).seen
    ensures !PhaseOf(states[n], u).Idle? && PhaseOf(states[n], u).id == PhaseOf(states[n], t).id ==> u == t
  {
    hide Enabled, Perform;
    EveryRunIsConsistent(states, events, n);
    assert ThreadOk(states[n], t) && ThreadOk(states[n], u);
  }
}
