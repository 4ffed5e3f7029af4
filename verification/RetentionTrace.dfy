/** What is done to data objects: the requests one call sends, and what they establish. */
module RetentionTrace {
  import opened Records
  import opened RetentionLog
  import opened RetentionGateway

  /******* Safety *******/

  function Heads(rs: seq<ObjectRecord>): seq<Event>
  {
    seq(|rs|, i requires 0 <= i < |rs| => Head(rs[i], Got(())))
  }

  // A delete touches only planned records, none logged as deleted when it was sent, and the
  // requests right before it HEAD-matched exactly its batch.
  ghost predicate DeleteAllowed(before: seq<Event>, e: Event, planned: set<ObjectRecord>)
    requires e.Delete?
  {
    && (forall r :: r in e.batch ==> r in planned && RecordDigest(r) !in e.logged)
    && |e.batch| <= |before| && before[|before| - |e.batch|..] == Heads(e.batch)
  }

  ghost predicate SafeTrace(t: seq<Event>, planned: set<ObjectRecord>)
  {
    forall i :: 0 <= i < |t| && t[i].Delete? ==> DeleteAllowed(t[..i], t[i], planned)
  }

  // Every delete was sent while the log said `logged`.
  ghost predicate SentUnder(t: seq<Event>, logged: set<Digest>)
  {
    forall i :: 0 <= i < |t| && t[i].Delete? ==> t[i].logged == logged
  }

  // No delete tries anything in `logged` again.
  ghost predicate SentOver(t: seq<Event>, logged: set<Digest>)
  {
    forall i :: 0 <= i < |t| && t[i].Delete? ==> logged <= t[i].logged
  }

  lemma SentUnderIsOver(t: seq<Event>, logged: set<Digest>)
    requires SentUnder(t, logged)
    ensures SentOver(t, logged)
  {
  }

  lemma SentOverConcat(t: seq<Event>, u: seq<Event>, logged: set<Digest>, more: set<Digest>)
    requires SentOver(t, logged) && SentOver(u, more) && logged <= more
    ensures SentOver(t + u, logged)
  {
  }

  // Every delete names a record, and at most `n`.
  ghost predicate BatchesWithin(t: seq<Event>, n: nat)
  {
    forall i :: 0 <= i < |t| && t[i].Delete? ==> 1 <= |t[i].batch| <= n
  }

  lemma WithinConcat(t: seq<Event>, u: seq<Event>, n: nat)
    requires BatchesWithin(t, n) && BatchesWithin(u, n)
    ensures BatchesWithin(t + u, n)
  {
  }

  predicate NoDeletes(t: seq<Event>)
  {
    forall i :: 0 <= i < |t| ==> !t[i].Delete?
  }

  lemma SafeAppend(t: seq<Event>, e: Event, planned: set<ObjectRecord>)
    requires SafeTrace(t, planned) && (e.Delete? ==> DeleteAllowed(t, e, planned))
    ensures SafeTrace(t + [e], planned)
  {
    var longer := t + [e];
    forall i | 0 <= i < |longer| && longer[i].Delete? ensures DeleteAllowed(longer[..i], longer[i], planned) {
      assert longer[..i] == if i < |t| then t[..i] else t;
    }
  }

  /** Safe requests stay safe after whatever was sent before them. */
  lemma SafeConcat(t: seq<Event>, u: seq<Event>, planned: set<ObjectRecord>)
    requires SafeTrace(t, planned) && SafeTrace(u, planned)
    ensures SafeTrace(t + u, planned)
  {
    var both := t + u;
    forall i | 0 <= i < |both| && both[i].Delete? ensures DeleteAllowed(both[..i], both[i], planned) {
      if i < |t| {
        assert both[..i] == t[..i];
      } else {
        var j, n := i - |t|, |both[i].batch|;
        assert DeleteAllowed(u[..j], u[j], planned);
        assert both[..i] == t + u[..j];
        assert both[..i][i - n..] == u[..j][j - n..];
      }
    }
  }

  lemma NoDeletesSafe(t: seq<Event>, planned: set<ObjectRecord>, logged: set<Digest>)
    requires NoDeletes(t)
    ensures SafeTrace(t, planned) && SentUnder(t, logged) && forall n: nat :: BatchesWithin(t, n)
  {
  }

  /******* What the answers establish *******/

  // The records that the answer to one request reports as deleted.
  ghost function ConfirmedBy(e: Event): set<Digest>
  {
    if !e.Delete? then {}
    else match e.reply
      case AllDeleted => Digests(e.batch)
      case SomeDeleted(keys) => set r | r in e.batch && r.key in keys :: RecordDigest(r)
      case _ => {}
  }

  ghost function Confirmed(t: seq<Event>): set<Digest>
  {
    if t == [] then {} else Confirmed(t[..|t| - 1]) + ConfirmedBy(t[|t| - 1])
  }

  ghost function HeadCalls(t: seq<Event>): nat
  {
    if t == [] then 0 else HeadCalls(t[..|t| - 1]) + if t[|t| - 1].Head? then 1 else 0
  }

  ghost function DeleteCalls(t: seq<Event>): nat
  {
    if t == [] then 0 else DeleteCalls(t[..|t| - 1]) + if t[|t| - 1].Delete? then 1 else 0
  }

  // Every HEAD matched, every batch was deleted, and nothing was listed.
  predicate Fine(e: Event)
  {
    match e
    case Head(_, answer) => answer.Got?
    case Delete(_, _, reply) => reply.AllDeleted?
    case Listing(listed) => listed == Got([])
  }

  predicate Smooth(t: seq<Event>)
  {
    forall i :: 0 <= i < |t| ==> Fine(t[i])
  }

  // The last request was a listing, and it was empty.
  predicate EndsEmpty(t: seq<Event>)
  {
    t != [] && t[|t| - 1] == Listing(Got([]))
  }

  // Some listing after the last delete was empty.
  ghost predicate CleanedUp(t: seq<Event>)
  {
    exists i :: 0 <= i < |t| && t[i] == Listing(Got([])) && NoDeletes(t[i..])
  }

  lemma TallyAppend(t: seq<Event>, e: Event)
    ensures Confirmed(t + [e]) == Confirmed(t) + ConfirmedBy(e)
    ensures HeadCalls(t + [e]) == HeadCalls(t) + if e.Head? then 1 else 0
    ensures DeleteCalls(t + [e]) == DeleteCalls(t) + if e.Delete? then 1 else 0
    ensures Smooth(t + [e]) <==> Smooth(t) && Fine(e)
    ensures NoDeletes(t + [e]) <==> NoDeletes(t) && !e.Delete?
  {
    var longer := t + [e];
    assert longer[..|t|] == t;
    assert longer[|t|] == e && forall i :: 0 <= i < |t| ==> longer[i] == t[i];
  }

  lemma EmptyTally()
    ensures Confirmed([]) == {} && HeadCalls([]) == 0 && DeleteCalls([]) == 0 && Smooth([]) && NoDeletes([])
  {
  }

  lemma HeadsAppend(rs: seq<ObjectRecord>, i: nat)
    requires i < |rs|
    ensures Heads(rs[..i + 1]) == Heads(rs[..i]) + [Head(rs[i], Got(()))]
  {
  }

  lemma {:induction false} TallyConcat(t: seq<Event>, u: seq<Event>)
    ensures Confirmed(t + u) == Confirmed(t) + Confirmed(u)
    ensures HeadCalls(t + u) == HeadCalls(t) + HeadCalls(u)
    ensures DeleteCalls(t + u) == DeleteCalls(t) + DeleteCalls(u)
    ensures Smooth(t + u) <==> Smooth(t) && Smooth(u)
  {
    hide Smooth, ConfirmedBy, NoDeletes;
    EmptyTally();
    if u == [] {
      assert t + u == t;
    } else {
      var n := |u| - 1;
      TallyConcat(t, u[..n]);
      TallyAppend(t + u[..n], u[n]);
      TallyAppend(u[..n], u[n]);
      assert u == u[..n] + [u[n]];
      assert t + u == t + u[..n] + [u[n]];
    }
  }

  lemma DeletesConcat(t: seq<Event>, u: seq<Event>)
    ensures NoDeletes(t + u) <==> NoDeletes(t) && NoDeletes(u)
    ensures EndsEmpty(u) ==> EndsEmpty(t + u)
  {
    assert forall i :: 0 <= i < |t| ==> (t + u)[i] == t[i];
    assert forall i :: 0 <= i < |u| ==> (t + u)[|t| + i] == u[i];
  }

  lemma {:induction false} NoDeletesConfirmNothing(t: seq<Event>)
    requires NoDeletes(t)
    ensures Confirmed(t) == {} && DeleteCalls(t) == 0
  {
    if t != [] { NoDeletesConfirmNothing(t[..|t| - 1]); }
  }

  /** Nothing is reported as deleted that no delete request named. */
  lemma {:induction false} ConfirmedWasSent(t: seq<Event>, d: Digest) returns (i: nat)
    requires d in Confirmed(t)
    ensures i < |t| && t[i].Delete? && d in Digests(t[i].batch) && d in ConfirmedBy(t[i])
  {
    var n := |t| - 1;
    if d in ConfirmedBy(t[n]) {
      i := n;
    } else {
      i := ConfirmedWasSent(t[..n], d);
    }
  }

  lemma CleanedUpAfter(t: seq<Event>, u: seq<Event>)
    requires EndsEmpty(u) || (CleanedUp(t) && NoDeletes(u))
    ensures CleanedUp(t + u)
  {
    if EndsEmpty(u) {
      var i := |t + u| - 1;
      assert (t + u)[i] == u[|u| - 1] && NoDeletes((t + u)[i..]);
    } else {
      var i :| 0 <= i < |t| && t[i] == Listing(Got([])) && NoDeletes(t[i..]);
      assert (t + u)[i..] == t[i..] + u;
      assert (t + u)[i] == t[i] && NoDeletes((t + u)[i..]);
    }
  }
}
