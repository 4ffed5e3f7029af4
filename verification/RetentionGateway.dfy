/** The storage gateway seen by the operation manager (scripts/checkpoints/s3_gateway.py).

    Every call may answer, fail, or be the point where the process dies; a conditional
    create may also take effect although its answer is a failure or never arrives.
    Answers about data objects are arbitrary: other writers are not under control. */
module RetentionGateway {
  import opened Options
  import opened Records
  import opened RetentionLog

  datatype Reply<+T> = Got(value: T) | Missing | Failure | DeadlinePassed | Died

  datatype DeleteReply = AllDeleted | SomeDeleted(keys: seq<string>) | DeleteFailure | DeleteDeadline | DeleteDied

  const MAX_ATTEMPTS := 1024

  /******* Classification of a multi-delete response *******/

  predicate NoRepeats(ks: seq<string>)
  {
    forall i, j :: 0 <= i < j < |ks| ==> ks[i] != ks[j]
  }

  function Keys(ks: seq<string>): set<string> { set k | k in ks }

  /** `delete_records` on a well-formed response: `None` is an invalid response. */
  function ClassifyDelete(expected: seq<string>, deleted: seq<string>, errors: seq<string>): Option<DeleteReply>
  {
    if !NoRepeats(deleted) || !NoRepeats(errors) || (exists k :: k in deleted && k in errors)
       || (exists k :: k in deleted + errors && k !in expected) then None
    else if errors != [] || |deleted| != |expected| || Keys(deleted) != Keys(expected) then Some(SomeDeleted(deleted))
    else Some(AllDeleted)
  }

  lemma {:induction false} KeyCount(ks: seq<string>)
    requires NoRepeats(ks)
    ensures |Keys(ks)| == |ks|
  {
    if ks != [] {
      var init, last := ks[..|ks| - 1], ks[|ks| - 1];
      KeyCount(init);
      assert ks == init + [last];
      assert last !in init;
      assert Keys(ks) == Keys(init) + {last};
    }
  }

  /** A response is invalid exactly when it names a key twice or a key outside the batch.  Of a
      valid one, the batch counts as deleted exactly when every requested key is named as deleted
      and none as failed; otherwise exactly the keys named as deleted count. */
  lemma ClassifyDeleteExact(expected: seq<string>, deleted: seq<string>, errors: seq<string>)
    requires NoRepeats(expected)
    ensures ClassifyDelete(expected, deleted, errors) == None <==>
              || (exists i, j :: 0 <= i < j < |deleted + errors| && (deleted + errors)[i] == (deleted + errors)[j])
              || !(Keys(deleted) + Keys(errors) <= Keys(expected))
    ensures ClassifyDelete(expected, deleted, errors) == Some(AllDeleted) <==>
              errors == [] && NoRepeats(deleted) && Keys(deleted) == Keys(expected)
    ensures var r := ClassifyDelete(expected, deleted, errors);
            r.Some? && !r.value.AllDeleted? ==>
              && r.value == SomeDeleted(deleted) && NoRepeats(deleted)
              && Keys(deleted) <= Keys(expected) && Keys(deleted) * Keys(errors) == {}
              && (errors != [] || Keys(deleted) != Keys(expected))
  {
    InvalidExactly(expected, deleted, errors);
    KeyCount(expected);
    if NoRepeats(deleted) { KeyCount(deleted); }
    if forall k :: k in deleted + errors ==> k in expected {
      assert Keys(deleted) <= Keys(expected) by {
        forall k | k in deleted ensures k in expected { assert k in deleted + errors; }
      }
      if |deleted| == |expected| && NoRepeats(deleted) {
        SubsetOfSameSize(Keys(deleted), Keys(expected));
      }
    }
    if errors == [] && Keys(deleted) == Keys(expected) {
      forall k | k in deleted + errors ensures k in expected {
        assert k in Keys(deleted);
      }
    }
  }

  lemma InvalidExactly(expected: seq<string>, deleted: seq<string>, errors: seq<string>)
    ensures ClassifyDelete(expected, deleted, errors) == None <==>
              || (exists i, j :: 0 <= i < j < |deleted + errors| && (deleted + errors)[i] == (deleted + errors)[j])
              || !(Keys(deleted) + Keys(errors) <= Keys(expected))
  {
    var named, n := deleted + errors, |deleted|;
    assert forall k :: k in named <==> k in Keys(deleted) + Keys(errors);
    if exists k :: k in deleted && k in errors {
      var k :| k in deleted && k in errors;
      var i, j :| 0 <= i < n && deleted[i] == k && 0 <= j < |errors| && errors[j] == k;
      assert named[i] == named[n + j];
    }
    if i, j :| 0 <= i < j < n && deleted[i] == deleted[j] {
      assert named[i] == named[j];
    }
    if i, j :| 0 <= i < j < |errors| && errors[i] == errors[j] {
      assert named[n + i] == named[n + j];
    }
    if i, j :| 0 <= i < j < |named| && named[i] == named[j] {
      assert j < n ==> deleted[i] == deleted[j];
      assert n <= i ==> errors[i - n] == errors[j - n];
      assert i < n <= j ==> deleted[i] in deleted && deleted[i] in errors;
    }
  }

  lemma SubsetOfSameSize(a: set<string>, b: set<string>)
    requires a <= b && |a| == |b|
    ensures a == b
  {
    assert |b - a| == |b| - |a|;
  }

  /******* The gateway *******/

  /** One request about data objects and its answer.  A delete also carries what the log said
      was deleted when it was sent. */
  datatype Event =
    | Head(record: ObjectRecord, answer: Reply<()>)
    | Delete(batch: seq<ObjectRecord>, logged: set<Digest>, reply: DeleteReply)
    | Listing(listed: Reply<seq<ObjectRecord>>)

  ghost function AttemptKeys(c: Controls): set<ControlKey> { set k | k in c && k.AttemptKey? }

  /** `trace` holds every request about data objects; `faults` counts the answers that were
      errors, came too late or never came. */
  class Gateway {
    var controls: Controls
    ghost var trace: seq<Event>
    ghost var faults: nat

    constructor ()
      ensures controls == map[] && trace == [] && faults == 0
    {
      controls, trace, faults := map[], [], 0;
    }

    method ReadControl(key: ControlKey) returns (r: Reply<Body>)
      modifies this`faults
      ensures r.Got? ==> key in controls && r.value == controls[key]
      ensures r.Missing? ==> key !in controls
      ensures old(faults) <= faults && (r.Got? || r.Missing? || old(faults) < faults)
    {
      var fault: int := *;
      if 1 <= fault <= 3 { faults := faults + 1; }
      if fault == 1 { return Failure; }
      if fault == 2 { return DeadlinePassed; }
      if fault == 3 { return Died; }
      if key in controls { return Got(controls[key]); }
      return Missing;
    }

    /** PUT with `If-None-Match: *` (section 13.1.2 of RFC 9110) and read-back. */
    method CreateControl(key: ControlKey, body: Body) returns (r: Reply<()>)
      modifies this`controls, this`faults
      ensures controls == old(controls) || (key !in old(controls) && controls == old(controls)[key := body])
      ensures r.Got? ==> key !in old(controls) && controls == old(controls)[key := body]
      ensures old(faults) <= faults && (r.Got? || key in old(controls) || old(faults) < faults)
      ensures !r.Got? && old(faults) == faults ==> r.Failure?
    {
      var reaches: bool := *;
      var fault: int := *;
      if !reaches || fault != 0 { faults := faults + 1; }
      if reaches && key !in controls {
        controls := controls[key := body];
        if fault == 0 { return Got(()); }
      }
      if fault == 2 { return DeadlinePassed; }
      if fault == 3 { return Died; }
      return Failure;
    }

    /** The attempt keys, each once; more than 1,024 is a failure. */
    method ListAttempts() returns (r: Reply<seq<ControlKey>>)
      modifies this`faults
      ensures r.Got? ==>
                && |r.value| == |AttemptKeys(controls)| <= MAX_ATTEMPTS
                && (forall i, j :: 0 <= i < j < |r.value| ==> r.value[i] != r.value[j])
                && (forall k :: k in r.value <==> k in controls && k.AttemptKey?)
      ensures old(faults) <= faults && (old(faults) < faults || (r.Got? <==> |AttemptKeys(controls)| <= MAX_ATTEMPTS))
      ensures !r.Missing?
    {
      var fault: int := *;
      if 1 <= fault <= 3 { faults := faults + 1; }
      if fault == 1 { return Failure; }
      if fault == 2 { return DeadlinePassed; }
      if fault == 3 { return Died; }
      var todo := set k | k in controls && k.AttemptKey?;
      var keys: seq<ControlKey> := [];
      while todo != {}
        invariant forall i, j :: 0 <= i < j < |keys| ==> keys[i] != keys[j]
        invariant forall k :: k in keys ==> k !in todo
        invariant forall k :: k in controls && k.AttemptKey? <==> k in todo || k in keys
        invariant |keys| + |todo| == |AttemptKeys(controls)|
        decreases todo
      {
        var k :| k in todo;
        keys := keys + [k];
        todo := todo - {k};
      }
      if |keys| > MAX_ATTEMPTS { return Failure; }
      return Got(keys);
    }

    /** HEAD one object and compare it with the record: `Missing` stands for `head_mismatch`. */
    method HeadRecord(record: ObjectRecord) returns (r: Reply<()>)
      modifies this`trace, this`faults
      ensures trace == old(trace) + [Head(record, r)]
      ensures old(faults) <= faults && (r.Got? || r.Missing? || old(faults) < faults)
    {
      r := *;
      if !r.Got? && !r.Missing? { faults := faults + 1; }
      trace := trace + [Head(record, r)];
    }

    /** One multi-delete request. */
    method DeleteRecords(batch: seq<ObjectRecord>, ghost logged: set<Digest>) returns (r: DeleteReply)
      requires DistinctKeys(batch)
      modifies this`trace, this`faults
      ensures trace == old(trace) + [Delete(batch, logged, r)]
      ensures r.SomeDeleted? ==> forall k :: k in r.keys ==> exists x :: x in batch && x.key == k
      ensures old(faults) <= faults && (r.AllDeleted? || r.SomeDeleted? || old(faults) < faults)
    {
      r := SendDelete(batch);
      if !r.AllDeleted? && !r.SomeDeleted? { faults := faults + 1; }
      trace := trace + [Delete(batch, logged, r)];
    }

    method SendDelete(batch: seq<ObjectRecord>) returns (r: DeleteReply)
      requires DistinctKeys(batch)
      ensures r.SomeDeleted? ==> forall k :: k in r.keys ==> exists x :: x in batch && x.key == k
    {
      var fault: int := *;
      if fault == 1 { return DeleteFailure; }
      if fault == 2 { return DeleteDeadline; }
      if fault == 3 { return DeleteDied; }
      var deleted: seq<string> := *;
      var errors: seq<string> := *;
      var expected := seq(|batch|, i requires 0 <= i < |batch| => batch[i].key);
      ClassifyDeleteExact(expected, deleted, errors);
      var c := ClassifyDelete(expected, deleted, errors);
      if c.None? { return DeleteFailure; }
      if c.value.SomeDeleted? {
        forall k | k in c.value.keys ensures exists x :: x in batch && x.key == k {
          assert k in Keys(expected);
          var i :| 0 <= i < |expected| && expected[i] == k;
          assert batch[i] in batch && batch[i].key == k;
        }
      }
      return c.value;
    }

    /** Whatever is listed under the prefix now, in canonical order. */
    method Inventory() returns (r: Reply<seq<ObjectRecord>>)
      modifies this`trace, this`faults
      ensures trace == old(trace) + [Listing(r)]
      ensures r.Got? ==> Ascending(r.value)
      ensures old(faults) <= faults && (r.Got? || old(faults) < faults)
    {
      r := SendListing();
      if !r.Got? { faults := faults + 1; }
      trace := trace + [Listing(r)];
    }

    method SendListing() returns (r: Reply<seq<ObjectRecord>>)
      ensures r.Got? ==> Ascending(r.value)
    {
      var fault: int := *;
      if fault == 1 { return Failure; }
      if fault == 2 { return DeadlinePassed; }
      if fault == 3 { return Died; }
      var listed: seq<ObjectRecord> := *;
      var c := Canonical(listed);
      CanonicalCharacterised(listed);
      if c.None? { return Failure; }
      return Got(c.value);
    }

    // The deadline of the running call, checked between requests.
    method CheckDeadline() returns (late: bool)
      modifies this`faults
      ensures faults == if late then old(faults) + 1 else old(faults)
    {
      late := *;
      if late { faults := faults + 1; }
    }
  }
}
