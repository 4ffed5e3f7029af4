/** `_latest_status` and `_read_result_classification` (scripts/checkpoints/operations.py):
    the strict reader of the attempt log, proved to accept exactly the acceptable logs. */
module RetentionValidator {
  import opened Records
  import opened RetentionLog
  import opened RetentionStore
  import opened RetentionGateway

  /** `Rejected`: the stored evidence was read and refused.  `Unavailable`: a gateway call
      failed or a deadline passed.  `Crashed`: the process is gone; nothing runs after it. */
  datatype Answer<+T> = Ok(value: T) | Rejected(code: string) | Unavailable(code: string) | Crashed {
    predicate IsFailure() { !Ok? }
    predicate Interrupted() { Unavailable? || Crashed? }
    function PropagateFailure<U>(): Answer<U>
      requires IsFailure()
    {
      match this
      case Rejected(c) => Rejected(c)
      case Unavailable(c) => Unavailable(c)
      case Crashed => Crashed
    }
    function Extract(): T
      requires Ok?
    {
      value
    }
  }

  method ReadBody(g: Gateway, key: ControlKey, code: string) returns (r: Answer<Body>)
    modifies g`faults
    ensures old(g.faults) <= g.faults && (r.Interrupted() ==> old(g.faults) < g.faults)
    ensures r.Ok? ==> key in g.controls && r.value == g.controls[key]
    ensures r.Rejected? ==> key !in g.controls
  {
    var reply := g.ReadControl(key);
    match reply
    case Got(b) => return Ok(b);
    case Missing => return Rejected(code);
    case Failure => return Unavailable(code);
    case DeadlinePassed => return Unavailable("operation_deadline");
    case Died => return Crashed;
  }

  /******* Result classification *******/

  ghost predicate ShardStored(c: Controls, d: Digest)
  {
    ResultShardKey(d) in c && c[ResultShardKey(d)] == d.preimage
  }

  // All shards are present and the classification they hold agrees with the status.
  ghost predicate ClassificationReadable(c: Controls, s: Status, records: seq<ObjectRecord>)
  {
    ShardsStored(c, s) && ClassificationOk(s, records)
  }

  lemma {:induction false} ClassifiedPrefix(ds: seq<Digest>, n: nat)
    requires n <= |ds| && ResultShards(ds)
    ensures |Classified(ds[..n])| <= |Classified(ds)|
    ensures Classified(ds)[..|Classified(ds[..n])|] == Classified(ds[..n])
    decreases |ds|
  {
    if n < |ds| {
      ClassifiedPrefix(ds[..|ds| - 1], n);
      assert ds[..|ds| - 1][..n] == ds[..n];
    } else {
      assert ds[..n] == ds;
    }
  }

  // An entry repeated within the first shards is repeated in the whole classification.
  lemma RepeatSpoils(s: Status, records: seq<ObjectRecord>, n: nat)
    requires n <= |s.resultShards| && ResultShards(s.resultShards[..n]) && !DistinctObjects(Classified(s.resultShards[..n]))
    ensures !ClassificationOk(s, records)
  {
    if ResultShards(s.resultShards) {
      ClassifiedPrefix(s.resultShards, n);
      var part, all := Classified(s.resultShards[..n]), Classified(s.resultShards);
      assert forall i :: 0 <= i < |part| ==> all[i] == part[i];
    }
  }

  lemma ShardsPrefix(ds: seq<Digest>, n: nat)
    requires n < |ds| && ResultShards(ds[..n]) && ds[n].preimage.ResultShard?
    ensures ResultShards(ds[..n + 1]) && Classified(ds[..n + 1]) == Classified(ds[..n]) + ds[n].preimage.entries
  {
    var upto := ds[..n + 1];
    assert upto[..n] == ds[..n] && upto[n] == ds[n];
    forall i | 0 <= i < |upto| ensures upto[i].preimage.ResultShard? {
      assert i < n ==> upto[i] == ds[..n][i];
    }
  }

  // The entries of one shard are added one by one; a repeated object is refused.
  method AddEntries(observed: seq<Entry>, entries: seq<Entry>) returns (ok: bool, all: seq<Entry>)
    requires DistinctObjects(observed)
    ensures ok <==> DistinctObjects(observed + entries)
    ensures ok ==> all == observed + entries
  {
    all := observed;
    for m := 0 to |entries|
      invariant all == observed + entries[..m] && DistinctObjects(all)
    {
      if exists i :: 0 <= i < |all| && all[i].target == entries[m].target {
        ghost var i :| 0 <= i < |all| && all[i].target == entries[m].target;
        assert (observed + entries)[i] == all[i] && (observed + entries)[|observed| + m] == entries[m];
        return false, all;
      }
      all := all + [entries[m]];
    }
    assert entries[..|entries|] == entries;
    ok := true;
  }

  // The entries cover exactly the records, and the totals are theirs.
  ghost predicate TotalsOk(s: Status, es: seq<Entry>, records: seq<ObjectRecord>)
  {
    && ObjectsOf(es) == Digests(records) && |DeletedIn(es)| == s.deletedObjects && |records| == s.plannedObjects
    && TotalBytes(KeepIn(records, DeletedIn(es))) == s.deletedBytes
    && TotalBytes(KeepOut(records, DeletedIn(es))) == s.remainingBytes
  }

  method CheckTotals(s: Status, es: seq<Entry>, records: seq<ObjectRecord>) returns (ok: bool)
    ensures ok <==> TotalsOk(s, es, records)
  {
    var expected := set x | x in records :: RecordDigest(x);
    var seen := set e | e in es :: e.target;
    if seen != expected { return false; }
    var deleted := set e | e in es && e.outcome.Deleted? :: e.target;
    return |deleted| == s.deletedObjects && |records| == s.plannedObjects
        && TotalBytes(KeepIn(records, deleted)) == s.deletedBytes
        && TotalBytes(KeepOut(records, deleted)) == s.remainingBytes;
  }

  lemma ReadableMeans(c: Controls, s: Status, records: seq<ObjectRecord>)
    ensures ClassificationReadable(c, s, records) <==>
            && ShardsStored(c, s) && s.resultShards != [] && ResultShards(s.resultShards)
            && DistinctObjects(Classified(s.resultShards)) && TotalsOk(s, Classified(s.resultShards), records)
  {
  }

  /** Reads the shards of a status: unless a read fails, it succeeds exactly on readable
      classifications, and then returns the entries in order. */
  method ReadClassification(g: Gateway, s: Status, records: seq<ObjectRecord>) returns (r: Answer<seq<Entry>>)
    modifies g`faults
    ensures old(g.faults) <= g.faults
    ensures old(g.faults) == g.faults ==> (r.Ok? <==> ClassificationReadable(g.controls, s, records)) && !r.Interrupted()
    ensures r.Ok? ==> ClassificationReadable(g.controls, s, records) && r.value == Classified(s.resultShards)
    ensures r.Rejected? ==> !ClassificationReadable(g.controls, s, records)
  {
    hide ClassificationOk, DistinctObjects, TotalsOk, Classified;
    ReadableMeans(g.controls, s, records);
    if s.resultShards == [] { return Rejected("status_invalid"); }
    var observed: seq<Entry> := [];
    NothingObserved(s.resultShards[..0]);
    var n := 0;
    while n < |s.resultShards|
      invariant 0 <= n <= |s.resultShards| && old(g.faults) <= g.faults
      invariant ResultShards(s.resultShards[..n])
      invariant observed == Classified(s.resultShards[..n]) && DistinctObjects(observed)
      invariant forall i :: 0 <= i < n ==> ShardStored(g.controls, s.resultShards[i])
    {
      var d := s.resultShards[n];
      assert d in s.resultShards;
      var body :- ReadBody(g, ResultShardKey(d), "status_invalid");
      if Sha256(body) != d || !body.ResultShard? { return Rejected("status_invalid"); }
      ShardsPrefix(s.resultShards, n);
      var ok, all := AddEntries(observed, body.entries);
      if !ok {
        RepeatSpoils(s, records, n + 1);
        return Rejected("status_invalid");
      }
      observed, n := all, n + 1;
    }
    assert s.resultShards[..n] == s.resultShards;
    assert ShardsStored(g.controls, s) by {
      forall d | d in s.resultShards ensures ShardStored(g.controls, d) {
        var i :| 0 <= i < |s.resultShards| && s.resultShards[i] == d;
      }
    }
    var agrees := CheckTotals(s, observed, records);
    return if agrees then Ok(observed) else Rejected("status_invalid");
  }

  lemma NothingObserved(ds: seq<Digest>)
    requires ds == []
    ensures Classified(ds) == [] && DistinctObjects([])
  {
  }

  /******* Sorting by sequence number *******/

  ghost predicate BySequence(ss: seq<Status>)
  {
    forall i, j :: 0 <= i < j < |ss| ==> ss[i].sequence <= ss[j].sequence
  }

  function InsertStatus(s: Status, ss: seq<Status>): seq<Status>
  {
    if ss == [] || s.sequence < ss[0].sequence then [s] + ss else [ss[0]] + InsertStatus(s, ss[1..])
  }

  // Inserting keeps whatever all numbers are at least.
  lemma {:induction false} InsertBound(s: Status, ss: seq<Status>, least: int)
    requires least <= s.sequence && forall i :: 0 <= i < |ss| ==> least <= ss[i].sequence
    ensures forall i :: 0 <= i < |InsertStatus(s, ss)| ==> least <= InsertStatus(s, ss)[i].sequence
  {
    if ss != [] && s.sequence >= ss[0].sequence { InsertBound(s, ss[1..], least); }
  }

  lemma {:induction false} InsertStatusSorts(s: Status, ss: seq<Status>)
    requires BySequence(ss)
    ensures BySequence(InsertStatus(s, ss))
  {
    if ss != [] && s.sequence >= ss[0].sequence {
      InsertStatusSorts(s, ss[1..]);
      InsertBound(s, ss[1..], ss[0].sequence);
    }
  }

  lemma {:induction false} InsertStatusKeeps(s: Status, ss: seq<Status>)
    ensures multiset(InsertStatus(s, ss)) == multiset(ss) + multiset{s}
  {
    if ss != [] && s.sequence >= ss[0].sequence {
      InsertStatusKeeps(s, ss[1..]);
      assert ss == [ss[0]] + ss[1..];
    }
  }

  method SortBySequence(found: seq<Status>) returns (ss: seq<Status>)
    ensures BySequence(ss) && multiset(ss) == multiset(found)
  {
    ss := [];
    var i := 0;
    while i < |found|
      invariant 0 <= i <= |found|
      invariant BySequence(ss) && multiset(ss) == multiset(found[..i])
    {
      InsertStatusSorts(found[i], ss);
      InsertStatusKeeps(found[i], ss);
      ss := InsertStatus(found[i], ss);
      assert found[..i + 1] == found[..i] + [found[i]];
      i := i + 1;
    }
    assert found[..i] == found;
  }

  /******* Order of the attempts *******/

  /** The running check over `last_deleted`, `last_occurred_at` and `last_state_rank`. */
  method CheckOrder(log: seq<Status>) returns (ok: bool)
    requires forall i :: 0 <= i < |log| ==> ResultShards(log[i].resultShards)
    ensures ok <==> OrderOk(log)
  {
    if log == [] { return true; }
    var i := 0;
    while i < |log|
      invariant 0 <= i <= |log|
      invariant forall j :: 0 <= j < i ==> log[j].sequence == j + 1
    {
      if log[i].sequence != i + 1 { return false; }
      i := i + 1;
    }
    if log[0].state != Prepared { return false; }
    var lastDeleted: set<Digest> := {};
    var lastRank := -1;
    var lastOccurred := log[0].occurredAt;
    i := 0;
    while i < |log|
      invariant 0 <= i <= |log|
      invariant i == 0 ==> lastDeleted == {} && lastRank == -1 && lastOccurred == log[0].occurredAt
      invariant i > 0 ==> lastDeleted == DeletedBy(log[i - 1]) && lastRank == Rank(log[i - 1].state)
                          && lastOccurred == log[i - 1].occurredAt
      invariant forall j :: 0 < j < i ==> Follows(log[j - 1], log[j])
    {
      var es := Classified(log[i].resultShards);
      var deleted := set e | e in es && e.outcome.Deleted? :: e.target;
      assert deleted == DeletedBy(log[i]);
      if (i > 0 && log[i].state == Prepared)
         || Rank(log[i].state) < lastRank || !(lastDeleted <= deleted) || log[i].occurredAt < lastOccurred
         || (i > 0 && log[i - 1].state == Completed) {
        assert i > 0 && !Follows(log[i - 1], log[i]);
        return false;
      }
      lastDeleted, lastRank, lastOccurred := deleted, Rank(log[i].state), log[i].occurredAt;
      i := i + 1;
    }
    return true;
  }

  /******* The whole log *******/

  // What the validator demands of one attempt object.
  ghost predicate EntryOk(c: Controls, k: ControlKey, p: PreparedRecord, records: seq<ObjectRecord>)
    requires k in c
  {
    && c[k].StatusBody? && k == KeyOf(c[k].status)
    && StatusOk(c[k].status, p, records) && ShardsStored(c, c[k].status)
  }

  lemma AcceptableEntries(c: Controls, p: PreparedRecord, records: seq<ObjectRecord>)
    ensures Acceptable(c, p, records) ==>
              forall k :: k in c && k.AttemptKey? ==> EntryOk(c, k, p, records)
  {
    if Acceptable(c, p, records) {
      var log :| AcceptedLog(c, p, records, log);
      forall k | k in c && k.AttemptKey? ensures EntryOk(c, k, p, records) {
        var i := k.sequence - 1;
        assert StatusOk(log[i], p, records) && ShardsStored(c, log[i]);
      }
    }
  }

  // The statuses of a store, once each.
  ghost predicate StatusesOf(c: Controls, ss: seq<Status>)
  {
    && (forall i :: 0 <= i < |ss| ==> KeyOf(ss[i]) in c && c[KeyOf(ss[i])] == StatusBody(ss[i]))
    && (forall k :: k in c && k.AttemptKey? ==> exists i :: 0 <= i < |ss| && k == KeyOf(ss[i]))
    && (forall i, j :: 0 <= i < j < |ss| ==> ss[i] != ss[j])
  }

  lemma {:induction false} NoRepeatsPermuted(a: seq<Status>, b: seq<Status>)
    requires multiset(a) == multiset(b)
    requires forall i, j :: 0 <= i < j < |a| ==> a[i] != a[j]
    ensures forall i, j :: 0 <= i < j < |b| ==> b[i] != b[j]
  {
    forall i, j | 0 <= i < j < |b| ensures b[i] != b[j] {
      if b[i] == b[j] {
        assert b == b[..j] + b[j..];
        assert b[i] in b[..j] && b[j] in b[j..];
        assert multiset(b) == multiset(b[..j]) + multiset(b[j..]);
        StatusOnce(a, b[i]);
      }
    }
  }

  lemma {:induction false} StatusOnce(a: seq<Status>, s: Status)
    requires forall i, j :: 0 <= i < j < |a| ==> a[i] != a[j]
    ensures multiset(a)[s] <= 1
  {
    if a != [] {
      assert a == a[..|a| - 1] + [a[|a| - 1]];
      StatusOnce(a[..|a| - 1], s);
    }
  }

  lemma StatusesPermuted(c: Controls, a: seq<Status>, b: seq<Status>)
    requires StatusesOf(c, a) && multiset(a) == multiset(b)
    ensures StatusesOf(c, b)
  {
    NoRepeatsPermuted(a, b);
    forall i | 0 <= i < |b| ensures KeyOf(b[i]) in c && c[KeyOf(b[i])] == StatusBody(b[i]) {
      assert b[i] in multiset(a);
      var j :| 0 <= j < |a| && a[j] == b[i];
    }
    forall k | k in c && k.AttemptKey? ensures exists i :: 0 <= i < |b| && k == KeyOf(b[i]) {
      var j :| 0 <= j < |a| && k == KeyOf(a[j]);
      assert a[j] in multiset(b);
      var i :| 0 <= i < |b| && b[i] == a[j];
    }
  }

  // `s` is the attempt of `log` with its number.
  ghost predicate InLog(log: seq<Status>, s: Status)
  {
    1 <= s.sequence <= |log| && s == log[s.sequence - 1]
  }

  lemma StatusesMatch(c: Controls, log: seq<Status>, ss: seq<Status>)
    requires LogOf(c, log) && StatusesOf(c, ss)
    ensures forall i :: 0 <= i < |ss| ==> InLog(log, ss[i])
    ensures forall n :: 1 <= n <= |log| ==> NumberIn(ss, n)
  {
    hide LogOf, InLog, NumberIn;
    forall i | 0 <= i < |ss| ensures InLog(log, ss[i]) { StoredIsInLog(c, log, ss[i]); }
    forall n | 1 <= n <= |log| ensures NumberIn(ss, n) { LoggedIsFound(c, log, ss, n); }
  }

  lemma StoredIsInLog(c: Controls, log: seq<Status>, s: Status)
    requires LogOf(c, log) && KeyOf(s) in c
    ensures InLog(log, s)
  {
  }

  lemma LoggedIsFound(c: Controls, log: seq<Status>, ss: seq<Status>, n: int)
    requires LogOf(c, log) && 1 <= n <= |log|
    requires forall k :: k in c && k.AttemptKey? ==> exists i :: 0 <= i < |ss| && k == KeyOf(ss[i])
    ensures NumberIn(ss, n)
  {
    var k := KeyOf(log[n - 1]);
    assert k in c && k.AttemptKey? && k.sequence == n by { assert log[n - 1].sequence == n; }
    hide LogOf;
    var i :| 0 <= i < |ss| && k == KeyOf(ss[i]);
    assert ss[i].sequence == n;
  }

  ghost predicate NumberIn(ss: seq<Status>, n: int)
  {
    exists i :: 0 <= i < |ss| && ss[i].sequence == n
  }

  /** An acceptable log can only be the attempts in order of their numbers. */
  lemma SortedIsTheLog(c: Controls, log: seq<Status>, ss: seq<Status>)
    requires LogOf(c, log)
    requires StatusesOf(c, ss) && BySequence(ss)
    ensures ss == log
  {
    hide LogOf, BySequence, InLog, NumberIn;
    StatusesMatch(c, log, ss);
    RunIsLog(ss, log);
  }

  lemma RunIsLog(ss: seq<Status>, log: seq<Status>)
    requires BySequence(ss) && forall i, j :: 0 <= i < j < |ss| ==> ss[i] != ss[j]
    requires forall i :: 0 <= i < |ss| ==> InLog(log, ss[i])
    requires forall n :: 1 <= n <= |log| ==> NumberIn(ss, n)
    ensures ss == log
  {
    hide InLog, NumberIn;
    var ns := seq(|ss|, i requires 0 <= i < |ss| => ss[i].sequence);
    forall i, j | 0 <= i < j < |ns| ensures ns[i] < ns[j] { SameNumber(log, ss[i], ss[j]); }
    forall i | 0 <= i < |ns| ensures 1 <= ns[i] <= |log| { SameNumber(log, ss[i], ss[i]); }
    forall n | 1 <= n <= |log| ensures n in ns { NumberAt(ss, ns, n); }
    StrictRun(ns, |log|, |log|);
    AtMost(ns, |log|);
    forall i | 0 <= i < |log| ensures ss[i] == log[i] {
      assert ns[i] == i + 1;
      SameNumber(log, ss[i], ss[i]);
    }
  }

  lemma SameNumber(log: seq<Status>, s: Status, t: Status)
    requires InLog(log, s) && InLog(log, t)
    ensures s.sequence == t.sequence ==> s == t
    ensures 1 <= s.sequence <= |log| && s == log[s.sequence - 1]
  {
  }

  lemma NumberAt(ss: seq<Status>, ns: seq<int>, n: int)
    requires NumberIn(ss, n) && |ns| == |ss| && forall i :: 0 <= i < |ss| ==> ns[i] == ss[i].sequence
    ensures n in ns
  {
    var i :| 0 <= i < |ss| && ss[i].sequence == n;
    assert ns[i] == n;
  }

  // There are at most `n` strictly increasing numbers from 1 to n.
  lemma {:induction false} AtMost(ns: seq<int>, n: nat)
    requires forall i, j :: 0 <= i < j < |ns| ==> ns[i] < ns[j]
    requires forall i :: 0 <= i < |ns| ==> 1 <= ns[i] <= n
    ensures |ns| <= n
  {
    if ns != [] { AtMost(ns[..|ns| - 1], ns[|ns| - 1] - 1); }
  }

  // Strictly increasing numbers that hit exactly 1..n are 1..n in order.
  lemma {:induction false} StrictRun(ns: seq<int>, n: nat, i: nat)
    requires forall i, j :: 0 <= i < j < |ns| ==> ns[i] < ns[j]
    requires forall i :: 0 <= i < |ns| ==> 1 <= ns[i] <= n
    requires forall j :: 1 <= j <= n ==> j in ns
    requires i <= n
    ensures i <= |ns| && forall j :: 0 <= j < i ==> ns[j] == j + 1
  {
    if i > 0 {
      StrictRun(ns, n, i - 1);
      assert i in ns;
      var x :| 0 <= x < |ns| && ns[x] == i;
      assert x >= i - 1 && ns[i - 1] <= i;
      assert i > 1 ==> ns[i - 2] < ns[i - 1];
    }
  }

  method CheckAttempt(g: Gateway, k: ControlKey, p: PreparedRecord, records: seq<ObjectRecord>) returns (r: Answer<Status>)
    requires k in g.controls
    modifies g`faults
    ensures old(g.faults) <= g.faults && (r.Interrupted() ==> old(g.faults) < g.faults)
    ensures r.Ok? ==> EntryOk(g.controls, k, p, records) && g.controls[k].status == r.value
    ensures r.Rejected? ==> !EntryOk(g.controls, k, p, records)
  {
    var body :- ReadBody(g, k, "status_invalid");
    if !body.StatusBody? { return Rejected("status_invalid"); }
    var s := body.status;
    if !ShapeOk(s, p) || k != KeyOf(s) { return Rejected("status_invalid"); }
    var es :- ReadClassification(g, s, records);
    if !OutcomesOk(s, es, records) { return Rejected("status_invalid"); }
    return Ok(s);
  }

  // Lists the attempts and checks each on its own.
  method ReadAttempts(g: Gateway, p: PreparedRecord, records: seq<ObjectRecord>) returns (r: Answer<seq<Status>>)
    modifies g`faults
    ensures old(g.faults) <= g.faults
    ensures r.Interrupted() ==> old(g.faults) < g.faults || |AttemptKeys(g.controls)| > MAX_ATTEMPTS
    ensures r.Ok? ==> && |AttemptKeys(g.controls)| <= MAX_ATTEMPTS && StatusesOf(g.controls, r.value)
                      && forall i :: 0 <= i < |r.value| ==> StatusOk(r.value[i], p, records) && ShardsStored(g.controls, r.value[i])
    ensures r.Rejected? ==> !Acceptable(g.controls, p, records)
  {
    hide StatusOk, ShardsStored, Acceptable;
    var listed := g.ListAttempts();
    if listed.Died? { return Crashed; }
    if !listed.Got? { return Unavailable("status_read_failed"); }
    var keys := listed.value;
    AcceptableEntries(g.controls, p, records);
    var found: seq<Status> := [];
    var i := 0;
    while i < |keys|
      invariant 0 <= i <= |keys| && |found| == i && old(g.faults) <= g.faults
      invariant forall j :: 0 <= j < i ==> EntryOk(g.controls, keys[j], p, records) && g.controls[keys[j]].status == found[j]
    {
      assert keys[i] in keys;
      var s :- CheckAttempt(g, keys[i], p, records);
      found := found + [s];
      i := i + 1;
    }
    FoundStatuses(g.controls, keys, found, p, records);
    return Ok(found);
  }

  /** `_latest_status` up to its return: the log in order.  Unless a gateway call fails, it
      accepts exactly the acceptable stores of at most 1,024 attempts. */
  method ReadLog(g: Gateway, p: PreparedRecord, records: seq<ObjectRecord>) returns (r: Answer<seq<Status>>)
    modifies g`faults
    ensures old(g.faults) <= g.faults
    ensures old(g.faults) == g.faults ==> (r.Ok? <==> Acceptable(g.controls, p, records) && |AttemptKeys(g.controls)| <= MAX_ATTEMPTS)
    ensures r.Interrupted() ==> old(g.faults) < g.faults || |AttemptKeys(g.controls)| > MAX_ATTEMPTS
    ensures r.Ok? ==> AcceptedLog(g.controls, p, records, r.value)
    ensures r.Rejected? ==> !Acceptable(g.controls, p, records)
  {
    hide StatusOk, ShardsStored, StatusesOf, OrderOk, AcceptedLog, Acceptable, AttemptKeys;
    var found :- ReadAttempts(g, p, records);
    var log := SortBySequence(found);
    StatusesPermuted(g.controls, found, log);
    PermutedOk(found, log, g.controls, p, records);
    AllShards(log, p, records);
    var ok := CheckOrder(log);
    OrderDecides(g.controls, p, records, log);
    return if ok then Ok(log) else Rejected("status_ambiguous");
  }

  /** Of attempts that are each in order, the order alone decides. */
  lemma OrderDecides(c: Controls, p: PreparedRecord, records: seq<ObjectRecord>, log: seq<Status>)
    requires StatusesOf(c, log) && BySequence(log)
    requires forall i :: 0 <= i < |log| ==> StatusOk(log[i], p, records) && ShardsStored(c, log[i])
    ensures OrderOk(log) <==> Acceptable(c, p, records)
    ensures OrderOk(log) ==> AcceptedLog(c, p, records, log)
  {
    hide StatusOk, Follows, ShardsStored, StatusesOf, BySequence;
    if OrderOk(log) {
      SortedIsLog(c, log);
      assert AcceptedLog(c, p, records, log);
    } else if Acceptable(c, p, records) {
      var other :| AcceptedLog(c, p, records, other);
      SortedIsTheLog(c, other, log);
    }
  }

  lemma SortedIsLog(c: Controls, log: seq<Status>)
    requires StatusesOf(c, log) && forall i :: 0 <= i < |log| ==> log[i].sequence == i + 1
    ensures LogOf(c, log)
  {
    forall k | k in c && k.AttemptKey? ensures 1 <= k.sequence <= |log| && k == KeyOf(log[k.sequence - 1]) {
      var i :| 0 <= i < |log| && k == KeyOf(log[i]);
    }
  }

  lemma FoundStatuses(c: Controls, keys: seq<ControlKey>, found: seq<Status>, p: PreparedRecord, records: seq<ObjectRecord>)
    requires |found| == |keys|
    requires forall i, j :: 0 <= i < j < |keys| ==> keys[i] != keys[j]
    requires forall k :: k in keys <==> k in c && k.AttemptKey?
    requires forall j :: 0 <= j < |keys| ==> keys[j] in c && EntryOk(c, keys[j], p, records) && c[keys[j]].status == found[j]
    ensures StatusesOf(c, found)
    ensures forall j :: 0 <= j < |found| ==> StatusOk(found[j], p, records) && ShardsStored(c, found[j])
  {
    forall j | 0 <= j < |found| ensures KeyOf(found[j]) == keys[j] && c[keys[j]] == StatusBody(found[j]) {
      assert EntryOk(c, keys[j], p, records);
    }
    forall k | k in c && k.AttemptKey? ensures exists i :: 0 <= i < |found| && k == KeyOf(found[i]) {
      var i :| 0 <= i < |keys| && keys[i] == k;
    }
  }

  lemma AllShards(log: seq<Status>, p: PreparedRecord, records: seq<ObjectRecord>)
    requires forall i :: 0 <= i < |log| ==> StatusOk(log[i], p, records)
    ensures forall i :: 0 <= i < |log| ==> ResultShards(log[i].resultShards)
  {
    forall i | 0 <= i < |log| ensures ResultShards(log[i].resultShards) {
      assert StatusOk(log[i], p, records);
    }
  }

  lemma PermutedOk(found: seq<Status>, log: seq<Status>, c: Controls, p: PreparedRecord, records: seq<ObjectRecord>)
    requires multiset(found) == multiset(log)
    requires forall i :: 0 <= i < |found| ==> StatusOk(found[i], p, records) && ShardsStored(c, found[i])
    ensures forall i :: 0 <= i < |log| ==> StatusOk(log[i], p, records) && ShardsStored(c, log[i])
  {
    forall i | 0 <= i < |log| ensures StatusOk(log[i], p, records) && ShardsStored(c, log[i]) {
      assert log[i] in multiset(found);
      var j :| 0 <= j < |found| && found[j] == log[i];
    }
  }
}
