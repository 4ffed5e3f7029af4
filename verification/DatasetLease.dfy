/** The dataset lease (datasets/s3.py): one JSON object per dataset, replaced only by
    conditional writes, with expiry judged by the server's Date.

    A store remembers every lease body it ever held.  Between any two calls of one client,
    any legal writes may happen and time may pass (`Interfere`), so a client's own PUT may
    also land after its answer was lost.  The server Date never goes backwards, and an owner
    (publication id and nonce) is used by one acquisition only. */
module DatasetLease {
  import opened Options
  import opened Results

  datatype Owner = Owner(publicationId: string, nonce: string)

  datatype State = Active | Released

  datatype Lease = Lease(owner: Owner, state: State, createdAt: int, expiresAt: int)

  // The ETag is a function of the body, and different bodies have different ETags.
  datatype ETag = ETag(body: Lease)

  const MAX_LEASE_SECONDS := 300
  const MAX_RENEW_OBSERVATIONS := 5

  // A body the store accepted, and the server Date at which it did.
  datatype Write = Write(lease: Lease, at: int)

  /** `_validate_lease`, without the identity patterns. */
  predicate Validated(l: Lease, observedAt: Option<int>)
  {
    && (l.state == Active ==> l.createdAt < l.expiresAt)
    && l.createdAt <= l.expiresAt && l.expiresAt - l.createdAt <= MAX_LEASE_SECONDS
    && (observedAt.Some? ==> l.createdAt <= observedAt.value
                             && (l.state == Released ==> l.expiresAt <= observedAt.value))
  }

  /******* Histories *******/

  predicate Fresh(history: seq<Write>, owner: Owner)
  {
    forall i :: 0 <= i < |history| ==> history[i].lease.owner != owner
  }

  // A new owner takes over at or after the expiry of what it replaces.
  predicate Takeover(prev: Option<Lease>, next: Lease)
  {
    next.state == Active && (prev.Some? ==> prev.value.expiresAt <= next.createdAt)
  }

  // The owner extends its unexpired lease.
  predicate Renewal(prev: Lease, next: Lease)
  {
    && next.owner == prev.owner && prev.state == Active && next.state == Active
    && prev.createdAt <= next.createdAt < prev.expiresAt < next.expiresAt
  }

  // The owner gives up its unexpired lease.
  predicate Release(prev: Lease, next: Lease)
  {
    && next.owner == prev.owner && prev.state == Active && next.state == Released
    && next.createdAt == prev.createdAt <= next.expiresAt < prev.expiresAt
  }

  predicate LegalNext(history: seq<Write>, w: Write)
  {
    && Validated(w.lease, Some(w.at))
    && if history == [] then Takeover(None, w.lease)
       else
         var last := history[|history| - 1];
         && last.at <= w.at
         && ((Fresh(history, w.lease.owner) && Takeover(Some(last.lease), w.lease))
             || Renewal(last.lease, w.lease) || Release(last.lease, w.lease))
  }

  ghost predicate Legal(history: seq<Write>)
  {
    forall i :: 0 <= i < |history| ==> LegalNext(history[..i], history[i])
  }

  lemma LegalAppend(history: seq<Write>, w: Write)
    requires Legal(history) && LegalNext(history, w)
    ensures Legal(history + [w])
  {
    var longer := history + [w];
    forall i | 0 <= i < |longer| ensures LegalNext(longer[..i], longer[i]) {
      assert i < |history| ==> longer[..i] == history[..i];
      assert i == |history| ==> longer[..i] == history;
    }
  }

  lemma FreshAppend(history: seq<Write>, w: Write, owner: Owner)
    ensures Fresh(history + [w], owner) <==> Fresh(history, owner) && w.lease.owner != owner
  {
    assert forall i :: 0 <= i < |history| ==> (history + [w])[i] == history[i];
    assert (history + [w])[|history|] == w;
  }

  // How one write may follow the previous one.
  ghost predicate Follows(history: seq<Write>, i: nat)
    requires 0 < i < |history|
  {
    var prev, next := history[i - 1].lease, history[i].lease;
    || (Takeover(Some(prev), next) && forall k :: 0 <= k < i ==> history[k].lease.owner != next.owner)
    || Renewal(prev, next)
    || Release(prev, next)
  }

  lemma Step(history: seq<Write>, i: nat)
    requires Legal(history) && i < |history|
    ensures Validated(history[i].lease, Some(history[i].at))
    ensures i > 0 ==> history[i - 1].at <= history[i].at && Follows(history, i)
  {
    assert LegalNext(history[..i], history[i]);
    if i > 0 {
      assert history[..i][i - 1] == history[i - 1];
      if Fresh(history[..i], history[i].lease.owner) {
        assert forall k :: 0 <= k < i ==> history[..i][k] == history[k];
      }
    }
  }

  lemma {:induction false} TimeOrdered(history: seq<Write>, i: nat, j: nat)
    requires Legal(history) && i <= j < |history|
    ensures history[i].at <= history[j].at
    ensures history[i].lease.createdAt <= history[j].lease.createdAt
  {
    hide Legal;
    if i < j {
      Step(history, j);
      Step(history, j - 1);
      TimeOrdered(history, i, j - 1);
    }
  }

  /** The bodies written by one owner are consecutive: an owner never comes back. */
  lemma {:induction false} OwnerContiguous(history: seq<Write>, i: nat, k: nat, j: nat)
    requires Legal(history) && i <= k <= j < |history|
    requires history[i].lease.owner == history[j].lease.owner
    ensures history[k].lease.owner == history[i].lease.owner
  {
    hide Legal;
    if k < j {
      Step(history, j);
      OwnerContiguous(history, i, k, j - 1);
    }
  }

  /** Within one owner every earlier body is active, and the expiry strictly grows until a
      release, which is the owner's last body. */
  lemma {:induction false} ExpiryGrows(history: seq<Write>, i: nat, j: nat)
    requires Legal(history) && i < j < |history|
    requires history[i].lease.owner == history[j].lease.owner
    ensures history[i].lease.state == Active
    ensures history[j].lease.state == Active ==> history[i].lease.expiresAt < history[j].lease.expiresAt
  {
    hide Legal;
    OwnerContiguous(history, i, j - 1, j);
    Step(history, j);
    if i < j - 1 {
      ExpiryGrows(history, i, j - 1);
    }
  }

  /** Holder periods are ordered and disjoint: whoever writes after an owner's last body was
      created at or after the expiry in that body. */
  lemma PeriodsDisjoint(history: seq<Write>, i: nat, j: nat)
    requires Legal(history) && i < j < |history|
    requires history[i + 1].lease.owner != history[i].lease.owner
    ensures history[i].lease.expiresAt <= history[j].lease.createdAt
  {
    hide Legal;
    Step(history, i + 1);
    TimeOrdered(history, i + 1, j);
  }

  /** No lease body is ever stored twice. */
  lemma BodiesNeverRecur(history: seq<Write>, i: nat, j: nat)
    requires Legal(history) && i < j < |history|
    ensures history[i].lease != history[j].lease
  {
    hide Legal;
    if history[i].lease.owner == history[j].lease.owner {
      ExpiryGrows(history, i, j);
    }
  }

  /** So an ETag that still matches proves that nothing at all was written since it was read. */
  lemma NoHiddenWrite(earlier: seq<Write>, history: seq<Write>)
    requires Legal(history) && earlier <= history && |earlier| > 0
    requires earlier[|earlier| - 1].lease == history[|history| - 1].lease
    ensures history == earlier
  {
    hide Legal;
    if |earlier| < |history| {
      BodiesNeverRecur(history, |earlier| - 1, |history| - 1);
    }
  }

  // Entry `i` is still in force at `now`: active, unexpired, and not released by its owner.
  ghost predicate InForce(history: seq<Write>, i: nat, now: int)
    requires i < |history|
  {
    && history[i].lease.state == Active && now < history[i].lease.expiresAt
    && (forall j :: i < j < |history| && history[j].lease.owner == history[i].lease.owner ==> history[j].lease.state == Active)
  }

  /** While a lease is in force by the server's Date, nobody else has written after it. */
  lemma {:induction false} NobodyElse(history: seq<Write>, i: nat, j: nat, now: int)
    requires Legal(history) && i < j < |history| && history[|history| - 1].at <= now
    requires InForce(history, i, now)
    ensures history[j].lease.owner == history[i].lease.owner
    ensures history[i].lease.expiresAt < history[j].lease.expiresAt
  {
    hide Legal;
    if i < j - 1 { NobodyElse(history, i, j - 1, now); }
    Step(history, j);
    TimeOrdered(history, j, |history| - 1);
  }

  /** Two leases in force at the same time have the same owner. */
  lemma MutualExclusion(history: seq<Write>, i: nat, j: nat, now: int)
    requires Legal(history) && i < |history| && j < |history| && history[|history| - 1].at <= now
    requires InForce(history, i, now) && InForce(history, j, now)
    ensures history[i].lease.owner == history[j].lease.owner
  {
    hide Legal;
    if i < j { NobodyElse(history, i, j, now); }
    if j < i { NobodyElse(history, j, i, now); }
  }

  /******* Proposals *******/

  function NewLease(owner: Owner, date: int, seconds: int): Lease
  {
    Lease(owner, Active, date, date + seconds)
  }

  // What a client may put over the body it observed at server Date `date`.
  ghost predicate Proposal(observed: Option<Lease>, date: int, next: Lease, history: seq<Write>)
  {
    && Validated(next, None) && next.createdAt <= date
    && (next.state == Released ==> next.expiresAt <= date)
    && ((Fresh(history, next.owner) && Takeover(observed, next))
        || (observed.Some? && (Renewal(observed.value, next) || Release(observed.value, next))))
  }

  // The body a client sees when the store has lived through `history`.
  function Stored(history: seq<Write>): Option<Lease>
  {
    if history == [] then None else Some(history[|history| - 1].lease)
  }

  lemma ProposalLegal(history: seq<Write>, date: int, next: Lease, now: int)
    requires Legal(history) && Proposal(Stored(history), date, next, history) && date <= now
    requires history != [] ==> history[|history| - 1].at <= now
    ensures Legal(history + [Write(next, now)])
  {
    hide Legal;
    LegalAppend(history, Write(next, now));
  }

  /******* All clients at once *******/

  // A conditional PUT on its way: what it writes, what it was based on, and the Date of that read.
  datatype Request = Request(next: Lease, before: seq<Write>, date: int)

  // `sent` only grows: a request may arrive late, twice or never, and its sender may be gone.
  datatype System = System(now: int, history: seq<Write>, sent: set<Request>, used: set<Owner>)

  ghost predicate Initial(s: System)
  {
    s.history == [] && s.sent == {} && s.used == {}
  }

  ghost predicate Tick(s: System, t: System)
  {
    s.now <= t.now && t == s.(now := t.now)
  }

  // The guard of `acquire_lease`, with an owner nobody used before.
  ghost predicate SendAcquire(s: System, t: System, owner: Owner, seconds: int)
  {
    && 1 <= seconds <= MAX_LEASE_SECONDS && owner !in s.used
    && (s.history == [] || Stored(s.history).value.state != Active || Stored(s.history).value.expiresAt <= s.now)
    && t == s.(sent := s.sent + {Request(NewLease(owner, s.now, seconds), s.history, s.now)}, used := s.used + {owner})
  }

  // The guard of `renew_lease`, by whoever holds the stored body.
  ghost predicate SendRenewal(s: System, t: System, held: Lease, seconds: int)
  {
    && 1 <= seconds <= MAX_LEASE_SECONDS
    && Stored(s.history) == Some(held) && held.state == Active && s.now < held.expiresAt
    && held.expiresAt < s.now + seconds
    && t == s.(sent := s.sent + {Request(NewLease(held.owner, s.now, seconds), s.history, s.now)})
  }

  // The guard of `release_lease`.
  ghost predicate SendRelease(s: System, t: System, held: Lease)
  {
    && Stored(s.history) == Some(held) && held.state == Active && s.now < held.expiresAt
    && t == s.(sent := s.sent + {Request(held.(state := Released, expiresAt := s.now), s.history, s.now)})
  }

  // The store compares only the stored body (through its ETag, or its absence).
  ghost predicate Arrive(s: System, t: System, r: Request)
  {
    && r in s.sent && Stored(s.history) == Stored(r.before)
    && t == s.(history := s.history + [Write(r.next, s.now)])
  }

  ghost predicate Next(s: System, t: System)
  {
    || Tick(s, t)
    || (exists owner, seconds :: SendAcquire(s, t, owner, seconds))
    || (exists held, seconds :: SendRenewal(s, t, held, seconds))
    || (exists held :: SendRelease(s, t, held))
    || (exists r :: Arrive(s, t, r))
  }

  ghost predicate Grounded(s: System, r: Request)
  {
    r.before <= s.history && r.date <= s.now && Proposal(Stored(r.before), r.date, r.next, r.before) && r.next.owner in s.used
  }

  ghost predicate Invariant(s: System)
  {
    && Legal(s.history)
    && (s.history != [] ==> s.history[|s.history| - 1].at <= s.now)
    && (forall i :: 0 <= i < |s.history| ==> s.history[i].lease.owner in s.used)
    && (forall r :: r in s.sent ==> Grounded(s, r))
  }

  lemma GroundedKept(s: System, t: System, r: Request)
    requires Grounded(s, r) && s.history <= t.history && s.now <= t.now && s.used <= t.used
    ensures Grounded(t, r)
  {
  }

  lemma SendKeepsInvariant(s: System, t: System, r: Request)
    requires Invariant(s) && s.used <= t.used && t == s.(sent := s.sent + {r}, used := t.used) && Grounded(t, r)
    ensures Invariant(t)
  {
    hide Legal, Proposal;
    forall q | q in t.sent ensures Grounded(t, q) {
      if q != r { GroundedKept(s, t, q); }
    }
  }

  lemma ArriveKeepsInvariant(s: System, t: System, r: Request)
    requires Invariant(s) && Arrive(s, t, r)
    ensures Invariant(t)
  {
    hide Legal, Proposal;
    assert Grounded(s, r);
    if r.before != [] { NoHiddenWrite(r.before, s.history); }
    assert s.history == r.before;
    ProposalLegal(s.history, r.date, r.next, s.now);
    forall q | q in t.sent ensures Grounded(t, q) {
      GroundedKept(s, t, q);
    }
  }

  lemma NextKeepsInvariant(s: System, t: System)
    requires Invariant(s) && Next(s, t)
    ensures Invariant(t) && s.history <= t.history && s.now <= t.now
  {
    hide Legal;
    if s.history != [] { Step(s.history, |s.history| - 1); }
    if owner, seconds :| SendAcquire(s, t, owner, seconds) {
      SendKeepsInvariant(s, t, Request(NewLease(owner, s.now, seconds), s.history, s.now));
    } else if held, seconds :| SendRenewal(s, t, held, seconds) {
      SendKeepsInvariant(s, t, Request(NewLease(held.owner, s.now, seconds), s.history, s.now));
    } else if held :| SendRelease(s, t, held) {
      SendKeepsInvariant(s, t, Request(held.(state := Released, expiresAt := s.now), s.history, s.now));
    } else if r :| Arrive(s, t, r) {
      ArriveKeepsInvariant(s, t, r);
    } else {
      forall q | q in t.sent ensures Grounded(t, q) {
        GroundedKept(s, t, q);
      }
    }
  }

  ghost predicate Run(states: seq<System>)
  {
    && |states| > 0 && Initial(states[0])
    && forall i :: 0 < i < |states| ==> Next(states[i - 1], states[i])
  }

  /** Every run of any number of clients, with requests lost, delayed or repeated, leaves a
      legal history, so every lemma above holds of it. */
  lemma {:induction false} EveryRunIsLegal(states: seq<System>, n: nat)
    requires Run(states) && n < |states|
    ensures Invariant(states[n]) && Legal(states[n].history)
    ensures n > 0 ==> states[n - 1].history <= states[n].history
  {
    hide Next;
    if n > 0 {
      EveryRunIsLegal(states, n - 1);
      NextKeepsInvariant(states[n - 1], states[n]);
    }
  }

  /** In no reachable state are leases of two owners in force. */
  lemma OneHolder(states: seq<System>, n: nat, i: nat, j: nat)
    requires Run(states) && n < |states| && i < |states[n].history| && j < |states[n].history|
    requires InForce(states[n].history, i, states[n].now) && InForce(states[n].history, j, states[n].now)
    ensures states[n].history[i].lease.owner == states[n].history[j].lease.owner
  {
    hide Legal, InForce;
    EveryRunIsLegal(states, n);
    MutualExclusion(states[n].history, i, j, states[n].now);
  }

  /******* The store and its clients *******/

  datatype Failure = Conflict | Ambiguous | Malformed | InvalidRequest | OtherError

  datatype PutReply = Accepted(date: int) | Uncertain | Refused

  class LeaseStore {
    var now: int
    var current: Option<Lease>
    var history: seq<Write>
    ghost var faults: nat        // requests lost or unanswered, proposals grown stale
    ghost var disturbances: nat  // ticks of the clock and writes by others

    ghost predicate Valid()
      reads this
    {
      && Legal(history)
      && current == Stored(history)
      && (history != [] ==> history[|history| - 1].at <= now)
    }

    constructor (start: int)
      ensures Valid() && history == [] && now == start && faults == 0 && disturbances == 0
    {
      now, current, history, faults, disturbances := start, None, [], 0, 0;
    }

    twostate predicate Later()
      reads this
    {
      Valid() && old(history) <= history && old(now) <= now && old(faults) <= faults && old(disturbances) <= disturbances
    }

    // No request failed, no time passed, and nobody else wrote.
    twostate predicate Undisturbed()
      reads this
    {
      faults == old(faults) && disturbances == old(disturbances)
    }

    // Time passes, or one legal write happens that does not acquire as `me`.
    method Disturb(me: Option<Owner>)
      requires Valid()
      modifies this
      ensures Later() && faults == old(faults) && old(disturbances) < disturbances
      ensures me.Some? && Fresh(old(history), me.value) ==> Fresh(history, me.value)
    {
      hide Legal, LegalNext, Fresh;
      var tick: int := *;
      disturbances, now := disturbances + 1, if tick > 0 then now + tick else now;
      var other: Lease := *;
      var w := Write(other, now);
      if LegalNext(history, w) && (me.Some? && Fresh(history, me.value) ==> other.owner != me.value) {
        LegalAppend(history, w);
        if me.Some? { FreshAppend(history, w, me.value); }
        history, current := history + [w], Some(other);
      }
    }

    /** Time passes and any number of legal writes happen.  Nobody else acquires as `me`. */
    method Interfere(me: Option<Owner>)
      requires Valid()
      modifies this
      ensures Later() && faults == old(faults)
      ensures Undisturbed() ==> now == old(now) && history == old(history)
      ensures me.Some? && Fresh(old(history), me.value) ==> Fresh(history, me.value)
    {
      hide Legal, Fresh;
      var steps: int := *;
      while steps > 0
        invariant Later() && faults == old(faults)
        invariant Undisturbed() ==> now == old(now) && history == old(history)
        invariant me.Some? && Fresh(old(history), me.value) ==> Fresh(history, me.value)
      {
        Disturb(me);
        steps := steps - 1;
      }
    }

    /** `_read_lease_observation`: the stored body and the Date of the answer. */
    method Observe(me: Option<Owner>) returns (ok: bool, seen: Option<Lease>, date: int)
      requires Valid()
      modifies this
      ensures Later() && seen == current && date == now
      ensures Undisturbed() ==> now == old(now) && history == old(history)
      ensures !ok ==> old(faults) < faults
      ensures me.Some? && Fresh(old(history), me.value) ==> Fresh(history, me.value)
    {
      hide Legal, Fresh;
      Interfere(me);
      ok := *;
      if !ok { faults := faults + 1; }
      seen, date := current, now;
    }

    /** A conditional PUT: `If-Match` on the observed body, or `If-None-Match: *`.  It may take
        effect without being acknowledged.  `before` is what the store had lived through when
        the client read it at `date`. */
    method Put(next: Lease, ifMatch: Option<ETag>, ghost date: int, ghost before: seq<Write>) returns (reply: PutReply)
      requires Valid() && before <= history && date <= now
      requires (if ifMatch == None then None else Some(ifMatch.value.body)) == Stored(before)
      requires Proposal(Stored(before), date, next, before)
      modifies this
      ensures Later()
      ensures reply.Accepted? ==> history == before + [Write(next, now)] && reply.date == now
      ensures Undisturbed() ==> now == old(now) && (history == old(history) || history == before + [Write(next, now)])
      ensures Undisturbed() ==> (reply.Accepted? <==> old(current) == Stored(before)) && !reply.Uncertain?
    {
      hide Legal, Proposal;
      Interfere(None);
      var matches := if ifMatch == None then current == None
                     else current.Some? && ETag(current.value) == ifMatch.value;
      var reaches: bool := *;
      var answered: bool := *;
      if !reaches || !answered { faults := faults + 1; }
      if matches && reaches {
        if before != [] { NoHiddenWrite(before, history); }
        assert history == before;
        ProposalLegal(history, date, next, now);
        history, current := history + [Write(next, now)], Some(next);
        if answered { return Accepted(now); }
        return Uncertain;
      }
      return if answered then Refused else Uncertain;
    }

    /** `_write_lease` with its reconciling read: success means that the body is the stored one
        at a Date inside its period. */
    method WriteLease(next: Lease, ifMatch: Option<ETag>, ghost date: int, ghost before: seq<Write>) returns (r: Result<Lease, Failure>)
      requires Valid() && before <= history && date <= now
      requires (if ifMatch == None then None else Some(ifMatch.value.body)) == Stored(before)
      requires Proposal(Stored(before), date, next, before)
      modifies this
      ensures Later()
      ensures r.Ok? ==> r.value == next && current == Some(next)
                        && (next.state == Active ==> next.createdAt <= now < next.expiresAt)
                        && (next.state == Released ==> next.expiresAt <= now)
      ensures r != Err(Malformed)
      ensures Undisturbed() ==> now == old(now)
      ensures Undisturbed() && old(history) == before ==> (r.Ok? <==> next.state == Active ==> now < next.expiresAt)
    {
      hide Legal, Proposal;
      var reply := Put(next, ifMatch, date, before);
      if reply.Refused? {
        var conditional: bool := *;
        if !conditional {
          faults := faults + 1;
          return Err(OtherError);
        }
      }
      var ok, seen, at := Observe(None);
      if !ok || seen == None { return Err(Ambiguous); }
      if seen.value != next { return Err(Conflict); }
      StoredIsValid();
      if !Validated(seen.value, Some(at)) { return Err(Malformed); }
      if next.state == Active && !(next.createdAt <= at < next.expiresAt) { return Err(Ambiguous); }
      if next.state == Released && at < next.expiresAt { return Err(Ambiguous); }
      if reply.Accepted? && next.state == Active && !(next.createdAt <= reply.date < next.expiresAt) { return Err(Ambiguous); }
      if reply.Accepted? && next.state == Released && reply.date < next.expiresAt { return Err(Ambiguous); }
      return Ok(next);
    }

    /** The stored lease is well formed at the Date of any read. */
    lemma StoredIsValid()
      requires Valid() && current.Some?
      ensures Validated(current.value, Some(now))
    {
      hide Legal;
      Step(history, |history| - 1);
    }

    /** `acquire_lease`.  Any number of proposals may grow stale before one is sent. */
    method AcquireLease(me: Owner, seconds: int) returns (r: Result<Lease, Failure>)
      requires Valid() && Fresh(history, me)
      modifies this
      ensures Later()
      ensures r.Ok? ==> current == Some(r.value) && r.value == Lease(me, Active, r.value.createdAt, r.value.createdAt + seconds)
                        && old(now) <= r.value.createdAt <= now && InForce(history, |history| - 1, now)
      ensures r != Err(Malformed)
      ensures Undisturbed() ==>
                (r.Ok? <==> && 1 <= seconds <= MAX_LEASE_SECONDS
                            && (old(current).Some? && old(current).value.state == Active ==> old(current).value.expiresAt <= old(now)))
    {
      hide Legal, Fresh;
      if !(1 <= seconds <= MAX_LEASE_SECONDS) { return Err(InvalidRequest); }
      var stale: int := *;
      while true
        invariant Later() && Fresh(history, me) && (Undisturbed() ==> now == old(now) && history == old(history))
        decreases stale
      {
        var ok, seen, date := Observe(Some(me));
        if !ok { return Err(Ambiguous); }
        if seen.Some? {
          StoredIsValid();
          if !Validated(seen.value, Some(date)) { return Err(Malformed); }
          if seen.value.state == Active && date < seen.value.expiresAt { return Err(Conflict); }
        }
        var proposed := NewLease(me, date, seconds);
        if stale <= 0 {
          r := WriteLease(proposed, if seen == None then None else Some(ETag(seen.value)), date, history);
          return;
        }
        faults, stale := faults + 1, stale - 1;
      }
    }

    /** `renew_lease`: only the exact body this owner holds is replaced, by one that expires later. */
    method RenewLease(held: Lease, seconds: int) returns (r: Result<Lease, Failure>)
      requires Valid()
      modifies this
      ensures Later()
      ensures r.Ok? ==> current == Some(r.value) && Renewal(held, r.value)
                        && r.value == Lease(held.owner, Active, r.value.createdAt, r.value.createdAt + seconds)
                        && old(now) <= r.value.createdAt && InForce(history, |history| - 1, now)
      ensures r != Err(Malformed)
      ensures Undisturbed() ==>
                (r.Ok? <==> && 1 <= seconds <= MAX_LEASE_SECONDS && old(current) == Some(held) && held.state == Active
                            && old(now) < held.expiresAt < old(now) + seconds)
    {
      hide Legal, Fresh;
      if current == Some(held) { StoredIsValid(); }
      if !Validated(held, None) || !(1 <= seconds <= MAX_LEASE_SECONDS) { return Err(InvalidRequest); }
      var observation := 0;
      while observation < MAX_RENEW_OBSERVATIONS
        invariant Later() && (Undisturbed() ==> now == old(now) && history == old(history))
        invariant observation > 0 && Undisturbed() ==> old(now) + seconds <= held.expiresAt || old(current) != Some(held)
      {
        var ok, seen, date := Observe(None);
        if !ok { return Err(Ambiguous); }
        if seen == None { return Err(Conflict); }
        StoredIsValid();
        if !Validated(seen.value, Some(date)) { return Err(Malformed); }
        if ETag(seen.value) != ETag(held) || seen.value.state != Active || date >= seen.value.expiresAt { return Err(Conflict); }
        var proposed := NewLease(held.owner, date, seconds);
        var stale: bool := *;
        if stale { faults := faults + 1; }
        if proposed.expiresAt > seen.value.expiresAt && !stale {
          r := WriteLease(proposed, Some(ETag(held)), date, history);
          return;
        }
        observation := observation + 1;
      }
      return Err(Ambiguous);
    }

    /** `release_lease`: a conditional PUT, so a former owner cannot touch a successor's lease. */
    method ReleaseLease(held: Lease) returns (r: Result<Lease, Failure>)
      requires Valid()
      modifies this
      ensures Later()
      ensures r.Ok? ==> current == Some(r.value) && Release(held, r.value) && old(now) <= r.value.expiresAt <= now
      ensures r != Err(Malformed)
      ensures Undisturbed() ==>
                (r.Ok? <==> old(current) == Some(held) && held.state == Active && old(now) < held.expiresAt)
    {
      hide Legal, Fresh;
      if current == Some(held) { StoredIsValid(); }
      if !Validated(held, None) { return Err(InvalidRequest); }
      var stale: int := *;
      while true
        invariant Later() && (Undisturbed() ==> now == old(now) && history == old(history))
        decreases stale
      {
        var ok, seen, date := Observe(None);
        if !ok { return Err(Ambiguous); }
        if seen == None { return Err(Conflict); }
        StoredIsValid();
        if !Validated(seen.value, Some(date)) { return Err(Malformed); }
        if ETag(seen.value) != ETag(held) || seen.value.state != Active || date >= seen.value.expiresAt { return Err(Conflict); }
        if stale <= 0 {
          r := WriteLease(held.(state := Released, expiresAt := date), Some(ETag(held)), date, history);
          return;
        }
        faults, stale := faults + 1, stale - 1;
      }
    }
  }
}
