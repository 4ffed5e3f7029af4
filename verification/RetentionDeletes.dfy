/** The batches of `_apply_locked` (scripts/checkpoints/operations.py): HEAD every record of a
    batch, delete the batch, and after the last one list what is left.

    Each method returns the requests it sent as `events`; its answers are the only source of
    what it reports. */
module RetentionDeletes {
  import opened Options
  import opened Records
  import opened RetentionLog
  import opened RetentionStore
  import opened RetentionGateway
  import opened RetentionTrace

  datatype BatchEnd = Clean | Stopped(category: Category) | Gone

  datatype BatchReport = BatchReport(end: BatchEnd, deleted: set<Digest>, failed: set<Digest>,
                                     heads: nat, deletes: nat, postflight: Option<Digest>)

  // How the requests `t` end, by the answer to the last: after a good answer only the deadline
  // can stop them.
  predicate EndsBy(end: BatchEnd, t: seq<Event>)
  {
    if t == [] then end == Clean || end == Stopped(OperationDeadline)
    else match t[|t| - 1]
      case Head(_, Got(_)) => end == Clean || end == Stopped(OperationDeadline)
      case Head(_, Missing) => end == Stopped(HeadMismatch)
      case Head(_, DeadlinePassed) => end == Stopped(OperationDeadline)
      case Head(_, Died) => end == Gone
      case Head(_, Failure) => end == Stopped(DeletePartial)
      case Delete(_, _, AllDeleted) => end == Clean || end == Stopped(OperationDeadline)
      case Delete(_, _, DeleteDeadline) => end == Stopped(OperationDeadline)
      case Delete(_, _, DeleteDied) => end == Gone
      case Delete(_, _, _) => end == Stopped(DeletePartial)
      case Listing(Got(left)) => end == Stopped(OperationDeadline) || end == if left == [] then Clean else Stopped(PostflightNotEmpty)
      case Listing(DeadlinePassed) => end == Stopped(OperationDeadline)
      case Listing(Died) => end == Gone
      case Listing(_) => end == Stopped(DeletePartial)
  }

  // What a stop is blamed on: the record of a mismatch, otherwise what is left of `batch`, the
  // one in progress.  Nothing is blamed between batches and after the last.
  ghost predicate Blames(failed: set<Digest>, t: seq<Event>, batch: seq<ObjectRecord>)
  {
    if t == [] then failed == {}
    else match t[|t| - 1]
      case Head(r, Missing) => failed == {RecordDigest(r)}
      case Head(_, _) => failed == Digests(batch)
      case Delete(sent, _, _) => failed == Digests(sent) - ConfirmedBy(t[|t| - 1])
      case Listing(_) => failed == {}
  }

  // The batch after `sent` full ones.
  function InProgress(rs: seq<ObjectRecord>, n: nat, sent: nat): seq<ObjectRecord>
  {
    var from := sent * n;
    rs[if from < |rs| then from else |rs| .. if from + n < |rs| then from + n else |rs|]
  }

  lemma LastDecides(end: BatchEnd, failed: set<Digest>, t: seq<Event>, u: seq<Event>, batch: seq<ObjectRecord>)
    requires u != []
    ensures EndsBy(end, t + u) <==> EndsBy(end, u)
    ensures Blames(failed, t + u, batch) <==> Blames(failed, u, batch)
  {
  }

  // HEADs of the batch in order, all matched but perhaps the last.
  ghost predicate HeadsUntil(batch: seq<ObjectRecord>, t: seq<Event>)
  {
    && 1 <= |t| <= |batch| && t[..|t| - 1] == Heads(batch[..|t| - 1])
    && t[|t| - 1].Head? && t[|t| - 1].record == batch[|t| - 1]
  }

  /** HEADs a batch in order.  A mismatch blames the one record, any other stop the batch. */
  method HeadBatch(g: Gateway, batch: seq<ObjectRecord>)
    returns (end: BatchEnd, heads: nat, failed: set<Digest>, ghost events: seq<Event>)
    modifies g`trace, g`faults
    ensures g.trace == old(g.trace) + events && NoDeletes(events) && heads == HeadCalls(events)
    ensures !end.Clean? ==> HeadsUntil(batch, events)
    ensures end.Clean? ==> events == Heads(batch) && heads == |batch| && failed == {} && Smooth(events)
    ensures old(g.faults) <= g.faults && (!end.Clean? ==> old(g.faults) < g.faults || !Smooth(events))
    ensures EndsBy(end, events) && (!end.Clean? ==> events != [] && events[|events| - 1].Head? && Blames(failed, events, batch))
    ensures end.Stopped? ==> end.category in {DeletePartial, HeadMismatch, OperationDeadline}
    ensures end.Stopped? && end.category == HeadMismatch ==> 1 <= heads <= |batch| && failed == {RecordDigest(batch[heads - 1])}
    ensures end.Stopped? && end.category != HeadMismatch ==> failed == Digests(batch)
    ensures failed <= Digests(batch)
  {
    hide RecordDigest, HeadCalls, Smooth, NoDeletes, Heads, Digests, HeadsUntil, EndsBy, Blames;
    EmptyTally();
    heads, failed, events := 0, {}, [];
    NoHeads(batch[..0]);
    NothingSentYet(batch, 0);
    var i := 0;
    while i < |batch|
      invariant 0 <= i <= |batch| && heads == i == HeadCalls(events) && old(g.faults) <= g.faults
      invariant g.trace == old(g.trace) + events && events == Heads(batch[..i]) && Smooth(events) && NoDeletes(events)
      invariant |events| == i && EndsBy(Clean, events)
    {
      var reply := g.HeadRecord(batch[i]);
      assert reply.Got? ==> reply == Got(()) by { if reply.Got? { match reply.value { case () => } } }
      heads := heads + 1;
      TallyAppend(events, Head(batch[i], reply));
      HeadsAppend(batch, i);
      HeadStep(batch, events, i, reply);
      events := events + [Head(batch[i], reply)];
      failed := Digests(batch);
      DigestOfMember(batch, i);
      match reply {
        case Got(_) =>
        case Missing => return Stopped(HeadMismatch), heads, {RecordDigest(batch[i])}, events;
        case Failure => return Stopped(DeletePartial), heads, failed, events;
        case DeadlinePassed => return Stopped(OperationDeadline), heads, failed, events;
        case Died => return Gone, heads, failed, events;
      }
      var late := g.CheckDeadline();
      if late { return Stopped(OperationDeadline), heads, failed, events; }
      i := i + 1;
    }
    assert batch[..i] == batch;
    return Clean, heads, {}, events;
  }

  // What the next answer decides.
  lemma HeadStep(batch: seq<ObjectRecord>, t: seq<Event>, i: nat, reply: Reply<()>)
    requires i < |batch| && |t| == i && t == Heads(batch[..i])
    ensures var more := t + [Head(batch[i], reply)];
            && HeadsUntil(batch, more) && |more| == i + 1 && more[i].Head?
            && match reply
               case Got(_) => EndsBy(Clean, more) && EndsBy(Stopped(OperationDeadline), more) && Blames(Digests(batch), more, batch)
               case Missing => EndsBy(Stopped(HeadMismatch), more) && Blames({RecordDigest(batch[i])}, more, batch)
               case Failure => EndsBy(Stopped(DeletePartial), more) && Blames(Digests(batch), more, batch)
               case DeadlinePassed => EndsBy(Stopped(OperationDeadline), more) && Blames(Digests(batch), more, batch)
               case Died => EndsBy(Gone, more) && Blames(Digests(batch), more, batch)
  {
    hide Heads, Digests;
    assert (t + [Head(batch[i], reply)])[..i] == t;
  }

  lemma DigestOfMember(rs: seq<ObjectRecord>, i: nat)
    requires i < |rs|
    ensures RecordDigest(rs[i]) in Digests(rs)
  {
  }

  lemma NoHeads(rs: seq<ObjectRecord>)
    requires rs == []
    ensures Heads(rs) == []
  {
  }

  // How a batch ends by the answer to its delete request.
  function EndOf(reply: DeleteReply): BatchEnd
  {
    match reply
    case AllDeleted => Clean
    case SomeDeleted(_) => Stopped(DeletePartial)
    case DeleteFailure => Stopped(DeletePartial)
    case DeleteDeadline => Stopped(OperationDeadline)
    case DeleteDied => Gone
  }

  // What the answer reports as deleted.
  function Reported(batch: seq<ObjectRecord>, reply: DeleteReply): set<Digest>
  {
    match reply
    case AllDeleted => Digests(batch)
    case SomeDeleted(keys) => set r | r in batch && r.key in keys :: RecordDigest(r)
    case _ => {}
  }

  lemma ReportedIsConfirmed(batch: seq<ObjectRecord>, logged: set<Digest>, reply: DeleteReply)
    ensures Reported(batch, reply) == ConfirmedBy(Delete(batch, logged, reply)) <= Digests(batch)
    ensures reply.AllDeleted? ==> Reported(batch, reply) == Digests(batch)
  {
  }

  lemma FreshlyMatched(batch: seq<ObjectRecord>, planned: set<ObjectRecord>, logged: set<Digest>, reply: DeleteReply)
    requires forall r :: r in batch ==> r in planned && RecordDigest(r) !in logged
    ensures DeleteAllowed(Heads(batch), Delete(batch, logged, reply), planned)
  {
    assert Heads(batch)[0..] == Heads(batch);
  }

  /** One batch: HEAD all of it, then delete it.  `confirmed` is exactly what the store says it
      deleted. */
  method DeleteBatch(g: Gateway, batch: seq<ObjectRecord>, ghost planned: set<ObjectRecord>, ghost logged: set<Digest>)
    returns (end: BatchEnd, confirmed: set<Digest>, heads: nat, deletes: nat, failed: set<Digest>, ghost events: seq<Event>)
    requires DistinctKeys(batch) && forall r :: r in batch ==> r in planned && RecordDigest(r) !in logged
    modifies g`trace, g`faults
    ensures g.trace == old(g.trace) + events && SafeTrace(events, planned) && SentUnder(events, logged)
    ensures confirmed == Confirmed(events) <= Digests(batch) && heads == HeadCalls(events) && deletes == DeleteCalls(events)
    ensures forall i :: 0 <= i < |events| && events[i].Delete? ==> events[i].batch == batch
    ensures end.Clean? ==> confirmed == Digests(batch) && failed == {} && heads == |batch| && deletes == 1 && Smooth(events)
    ensures events != [] && EndsBy(end, events) && Blames(failed, events, batch) && (events[|events| - 1].Head? ==> deletes == 0)
    ensures old(g.faults) <= g.faults && (!end.Clean? ==> old(g.faults) < g.faults || !Smooth(events))
    ensures end.Stopped? ==> end.category in {DeletePartial, HeadMismatch, OperationDeadline}
    ensures end.Stopped? ==> failed <= Digests(batch) - confirmed
    ensures end.Stopped? && end.category != HeadMismatch ==> failed == Digests(batch) - confirmed
    ensures end.Stopped? && end.category == HeadMismatch ==>
              confirmed == {} && 1 <= heads <= |batch| && failed == {RecordDigest(batch[heads - 1])}
  {
    hide SafeTrace, SentUnder, Smooth, HeadCalls, DeleteCalls, Confirmed, DistinctKeys, ConfirmedBy, Digests, Reported, RecordDigest, Heads, DeleteAllowed, HeadsUntil;
    end, heads, failed, events := HeadBatch(g, batch);
    NoDeletesSafe(events, planned, logged);
    NoDeletesConfirmNothing(events);
    confirmed, deletes := {}, 0;
    if !end.Clean? { return; }
    var reply := g.DeleteRecords(batch, logged);
    ghost var sent := Delete(batch, logged, reply);
    FreshlyMatched(batch, planned, logged, reply);
    SafeAppend(events, sent, planned);
    SentAppend(events, sent, logged);
    TallyAppend(events, sent);
    events, deletes := events + [sent], 1;
    ReportedIsConfirmed(batch, logged, reply);
    end, confirmed := EndOf(reply), Reported(batch, reply);
    failed := Digests(batch) - confirmed;
  }

  lemma SentAppend(t: seq<Event>, e: Event, logged: set<Digest>)
    requires SentUnder(t, logged) && (e.Delete? ==> e.logged == logged)
    ensures SentUnder(t + [e], logged)
  {
  }

  lemma SentConcat(t: seq<Event>, u: seq<Event>, logged: set<Digest>)
    requires SentUnder(t, logged) && SentUnder(u, logged)
    ensures SentUnder(t + u, logged)
  {
  }

  /** The inventory after the last batch must be empty. */
  method Postflight(g: Gateway) returns (end: BatchEnd, digest: Option<Digest>, ghost events: seq<Event>)
    modifies g`trace, g`faults
    ensures g.trace == old(g.trace) + events && |events| == 1 && events[0].Listing?
    ensures end.Clean? ==> digest == Some(EmptyInventory) && EndsEmpty(events)
    ensures old(g.faults) <= g.faults && (!end.Clean? ==> old(g.faults) < g.faults || !Smooth(events))
    ensures EndsBy(end, events)
    ensures end.Stopped? ==> end.category in {DeletePartial, OperationDeadline, PostflightNotEmpty}
  {
    var listed := g.Inventory();
    events := [Listing(listed)];
    match listed {
      case Got(left) =>
        digest := InventoryDigest(left);
        EmptyInventoryDigest();
        var late := g.CheckDeadline();
        assert left != [] ==> !Fine(events[0]);
        end := if late then Stopped(OperationDeadline) else if left != [] then Stopped(PostflightNotEmpty) else Clean;
      case Died => end, digest := Gone, None;
      case DeadlinePassed => end, digest := Stopped(OperationDeadline), None;
      case _ => end, digest := Stopped(DeletePartial), None;
    }
  }

  // Batches of `n` are filled one after the other; only the last may be short.
  ghost predicate Filled(sent: nat, offset: nat, count: nat, n: nat)
  {
    offset <= sent * n && (offset < count ==> offset == sent * n) && (offset == count ==> sent * n < offset + n)
  }

  lemma FillFirst(count: nat, n: nat)
    requires n >= 1
    ensures Filled(0, 0, count, n)
  {
  }

  lemma FillNext(sent: nat, offset: nat, next: nat, count: nat, n: nat)
    requires n >= 1 && Filled(sent, offset, count, n) && offset < count
    requires next == if offset + n < count then offset + n else count
    ensures Filled(sent + 1, next, count, n)
  {
    assert (sent + 1) * n == sent * n + n;
  }

  lemma FilledCount(sent: nat, count: nat, n: nat)
    requires n >= 1 && Filled(sent, count, count, n)
    ensures sent == (count + n - 1) / n
  {
    var q := (count + n - 1) / n;
    assert q * n <= count + n - 1 < q * n + n;
    if sent < q { RoomForOne(sent, q, n); }
    if q < sent { RoomForOne(q, sent, n); }
  }

  lemma RoomForOne(a: nat, b: nat, n: nat)
    requires a < b
    ensures a * n + n <= b * n
  {
    var rest := b - a - 1;
    assert b * n == (a + 1 + rest) * n == a * n + n + rest * n;
  }

  /** All batches of what is left, then the postflight listing.  Only planned records that were
      not logged as deleted, each batch HEAD-matched as a whole right before it, are handed to
      delete; what is reported as deleted is what the answers confirmed.  No request names more
      than the bound, and a clean run sends no more of them than the bound forces. */
  method DeleteBatches(g: Gateway, maxDeleteKeys: nat, planned: seq<ObjectRecord>, remaining: seq<ObjectRecord>, prior: set<Digest>)
    returns (b: BatchReport, ghost events: seq<Event>)
    requires maxDeleteKeys >= 1 && DistinctKeys(planned)
    requires prior <= Digests(planned) && remaining == KeepOut(planned, prior)
    modifies g`trace, g`faults
    ensures g.trace == old(g.trace) + events && SafeTrace(events, Members(planned)) && SentUnder(events, prior)
    ensures BatchesWithin(events, maxDeleteKeys) && EndsBy(b.end, events)
    ensures Blames(b.failed, events, InProgress(remaining, maxDeleteKeys, b.deletes))
    ensures b.end.Clean? ==> b.deletes == (|remaining| + maxDeleteKeys - 1) / maxDeleteKeys
    ensures remaining == [] ==> NoDeletes(events)
    ensures prior <= b.deleted <= Digests(planned) && b.deleted == prior + Confirmed(events)
    ensures b.heads == HeadCalls(events) && b.deletes == DeleteCalls(events)
    ensures b.end.Clean? ==> && b.deleted == Digests(planned) && b.postflight == Some(EmptyInventory) && EndsEmpty(events)
                             && b.failed == {} && b.heads == |remaining|
    ensures old(g.faults) <= g.faults && (!b.end.Clean? ==> old(g.faults) < g.faults || !Smooth(events))
    ensures !b.end.Gone? ==> b.failed <= Digests(remaining) - b.deleted
    ensures b.end.Stopped? ==>
              && b.end.category in {DeletePartial, HeadMismatch, OperationDeadline, PostflightNotEmpty}
              && (b.end.category == PostflightNotEmpty ==> b.deleted == Digests(planned))
  {
    hide SafeTrace, SentUnder, Smooth, HeadCalls, DeleteCalls, Confirmed, DistinctKeys, KeepOut, RecordDigest, Digests;
    b, events := SendBatches(g, maxDeleteKeys, planned, remaining, prior);
    if !b.end.Clean? { return; }
    RemainingFacts(planned, prior);
    var end, digest, listing := Postflight(g);
    NoDeletesSafe(listing, Members(planned), prior);
    NoDeletesConfirmNothing(listing);
    SafeConcat(events, listing, Members(planned));
    SentConcat(events, listing, prior);
    TallyConcat(events, listing);
    ListingsHaveNoHeads(listing);
    WithinConcat(events, listing, maxDeleteKeys);
    LastDecides(end, b.failed, events, listing, InProgress(remaining, maxDeleteKeys, b.deletes));
    assert EndsEmpty(listing) ==> EndsEmpty(events + listing);
    events := events + listing;
    b := b.(end := end, postflight := digest);
  }

  lemma ListingsHaveNoHeads(t: seq<Event>)
    requires |t| == 1 && t[0].Listing?
    ensures HeadCalls(t) == 0
  {
    assert t[..0] == [];
  }

  lemma NothingSentYet(rs: seq<ObjectRecord>, n: nat)
    ensures Digests(rs[..0]) == {} && EndsBy(Clean, []) && Blames({}, [], InProgress(rs, n, 0))
  {
  }

  // A stop in the batch at `offset` is blamed on it.
  lemma StopInBatch(end: BatchEnd, failed: set<Digest>, t: seq<Event>, u: seq<Event>, rs: seq<ObjectRecord>, n: nat,
                    sent: nat, deletes: nat, offset: nat, next: nat)
    requires u != [] && n >= 1 && Filled(sent, offset, |rs|, n) && offset < |rs|
    requires next == if offset + n < |rs| then offset + n else |rs|
    requires EndsBy(end, u) && Blames(failed, u, rs[offset..next]) && (u[|u| - 1].Head? ==> deletes == 0)
    ensures EndsBy(end, t + u) && Blames(failed, t + u, InProgress(rs, n, sent + deletes))
  {
    var batch := InProgress(rs, n, sent + deletes);
    LastDecides(end, failed, t, u, batch);
    if u[|u| - 1].Head? {
      assert sent * n == offset;
      assert batch == rs[offset..next];
    }
  }

  // The deadline passed between two requests.
  function StopLate(b: BatchReport, ghost t: seq<Event>): (stopped: BatchReport)
    requires EndsBy(Clean, t)
    ensures stopped == b.(end := Stopped(OperationDeadline)) && EndsBy(stopped.end, t)
  {
    b.(end := Stopped(OperationDeadline))
  }

  // The loop over the batches.
  method SendBatches(g: Gateway, maxDeleteKeys: nat, planned: seq<ObjectRecord>, remaining: seq<ObjectRecord>, prior: set<Digest>)
    returns (b: BatchReport, ghost events: seq<Event>)
    requires maxDeleteKeys >= 1 && DistinctKeys(planned)
    requires prior <= Digests(planned) && remaining == KeepOut(planned, prior)
    modifies g`trace, g`faults
    ensures g.trace == old(g.trace) + events && SafeTrace(events, Members(planned)) && SentUnder(events, prior)
    ensures BatchesWithin(events, maxDeleteKeys) && EndsBy(b.end, events)
    ensures Blames(b.failed, events, InProgress(remaining, maxDeleteKeys, b.deletes))
    ensures b.end.Clean? ==> b.deletes == (|remaining| + maxDeleteKeys - 1) / maxDeleteKeys
    ensures remaining == [] ==> events == []
    ensures prior <= b.deleted <= Digests(planned) && b.deleted == prior + Confirmed(events)
    ensures b.heads == HeadCalls(events) && b.deletes == DeleteCalls(events) && b.postflight == None
    ensures b.end.Clean? ==> b.deleted == prior + Digests(remaining) && b.failed == {} && b.heads == |remaining| && Smooth(events)
    ensures old(g.faults) <= g.faults && (!b.end.Clean? ==> old(g.faults) < g.faults || !Smooth(events))
    ensures !b.end.Gone? ==> b.failed <= Digests(remaining) - b.deleted
    ensures b.end.Stopped? ==> b.end.category in {DeletePartial, HeadMismatch, OperationDeadline}
  {
    hide SafeTrace, SentUnder, HeadCalls, DeleteCalls, Confirmed, DistinctKeys, KeepOut, RecordDigest, Smooth, NoDeletes, Filled, Digests, EndsBy, Blames, InProgress;
    NoDeletesSafe([], Members(planned), prior);
    EmptyTally();
    b, events := BatchReport(Clean, prior, {}, 0, 0, None), [];
    NothingSentYet(remaining, maxDeleteKeys);
    FillFirst(|remaining|, maxDeleteKeys);
    var offset := 0;
    while offset < |remaining|
      invariant 0 <= offset <= |remaining| && old(g.faults) <= g.faults && b.postflight == None
      invariant g.trace == old(g.trace) + events && SafeTrace(events, Members(planned)) && SentUnder(events, prior) && Smooth(events)
      invariant b.end.Clean? && b.deleted == prior + Digests(remaining[..offset]) == prior + Confirmed(events) && b.failed == {}
      invariant b.heads == offset == HeadCalls(events) && b.deletes == DeleteCalls(events)
      invariant offset == 0 ==> events == []
      invariant BatchesWithin(events, maxDeleteKeys) && EndsBy(Clean, events)
      invariant Blames({}, events, InProgress(remaining, maxDeleteKeys, b.deletes))
      invariant Filled(b.deletes, offset, |remaining|, maxDeleteKeys)
    {
      RemainingPrefix(planned, remaining, prior, offset);
      var late := g.CheckDeadline();
      if late { return StopLate(b, events), events; }
      var next := if offset + maxDeleteKeys < |remaining| then offset + maxDeleteKeys else |remaining|;
      BatchFacts(planned, remaining, prior, offset, next);
      BatchIsNew(planned, remaining, prior, offset, next);
      RemainingPrefix(planned, remaining, prior, next);
      var end, confirmed, heads, deletes, failed, more := DeleteBatch(g, remaining[offset..next], Members(planned), prior);
      SafeConcat(events, more, Members(planned));
      SentConcat(events, more, prior);
      WithinConcat(events, more, maxDeleteKeys);
      StopInBatch(end, failed, events, more, remaining, maxDeleteKeys, b.deletes, deletes, offset, next);
      FillNext(b.deletes, offset, next, |remaining|, maxDeleteKeys);
      TallyConcat(events, more);
      events := events + more;
      b := BatchReport(end, b.deleted + confirmed, failed, b.heads + heads, b.deletes + deletes, None);
      if !end.Clean? { return; }
      late := g.CheckDeadline();
      if late { return StopLate(b, events), events; }
      offset := next;
    }
    RemainingPrefix(planned, remaining, prior, offset);
    FilledCount(b.deletes, |remaining|, maxDeleteKeys);
    assert remaining[..offset] == remaining;
  }

  /******* The records still to be deleted *******/

  lemma RemainingFacts(planned: seq<ObjectRecord>, prior: set<Digest>)
    requires prior <= Digests(planned)
    ensures prior + Digests(KeepOut(planned, prior)) == Digests(planned)
    ensures forall r :: r in KeepOut(planned, prior) ==> r in planned && RecordDigest(r) !in prior
  {
    var rest := KeepOut(planned, prior);
    forall r ensures r in rest <==> r in planned && RecordDigest(r) !in prior {
      KeepMembers(planned, prior, r);
    }
    forall d | d in Digests(planned) ensures d in prior + Digests(rest) {
      var r :| r in planned && RecordDigest(r) == d;
      assert d !in prior ==> r in rest;
    }
  }

  lemma RemainingPrefix(planned: seq<ObjectRecord>, remaining: seq<ObjectRecord>, prior: set<Digest>, n: nat)
    requires prior <= Digests(planned) && remaining == KeepOut(planned, prior) && n <= |remaining|
    ensures Digests(remaining[..n]) <= Digests(planned)
  {
    RemainingFacts(planned, prior);
    forall d | d in Digests(remaining[..n]) ensures d in Digests(planned) {
      var r :| r in remaining[..n] && RecordDigest(r) == d;
      assert r in remaining;
    }
  }

  lemma BatchFacts(planned: seq<ObjectRecord>, remaining: seq<ObjectRecord>, prior: set<Digest>, from: nat, to: nat)
    requires DistinctKeys(planned) && prior <= Digests(planned) && remaining == KeepOut(planned, prior) && from <= to <= |remaining|
    ensures var batch := remaining[from..to];
            && DistinctKeys(batch)
            && (forall r :: r in batch ==> r in Members(planned) && RecordDigest(r) !in prior)
            && Digests(remaining[..to]) == Digests(remaining[..from]) + Digests(batch)
  {
    var batch := remaining[from..to];
    KeepDistinct(planned, prior);
    RemainingFacts(planned, prior);
    forall r | r in batch ensures r in remaining {}
    assert remaining[..to] == remaining[..from] + batch;
    assert forall r :: r in remaining[..to] <==> r in remaining[..from] || r in batch;
  }

  // The records of a batch are neither logged as deleted nor in an earlier batch.
  lemma BatchIsNew(planned: seq<ObjectRecord>, remaining: seq<ObjectRecord>, prior: set<Digest>, from: nat, to: nat)
    requires DistinctKeys(planned) && prior <= Digests(planned) && remaining == KeepOut(planned, prior) && from <= to <= |remaining|
    ensures Digests(remaining[from..to]) <= Digests(remaining) - prior - Digests(remaining[..from])
  {
    KeepDistinct(planned, prior);
    RemainingFacts(planned, prior);
    forall d | d in Digests(remaining[from..to]) ensures d in Digests(remaining) && d !in prior && d !in Digests(remaining[..from]) {
      var i :| from <= i < to && RecordDigest(remaining[i]) == d;
      assert remaining[i] in remaining;
      forall j | 0 <= j < from ensures remaining[j] != remaining[i] {}
    }
  }
}
