/** When a manifest becomes active for the first time (datasets/publication.py): a publish always
    links it to the manifest active before; a rollback need not, because it runs without a lease
    and accepts any stored manifest.  This module says exactly what a rollback has to look for in
    the store. */
module PublicationRollback {
  import opened Options
  import opened PublicationHistory

  /******* First activations *******/

  // Commit `i` is the first that makes its manifest active.
  predicate FirstActivation(commits: seq<Commit>, i: nat)
    requires i < |commits|
  {
    forall j :: 0 <= j < i ==> commits[j].after != commits[i].after
  }

  // The manifest made active links to the one that was active before.
  predicate Linked(ds: Dataset, w: World, i: nat)
    requires i < |w.commits|
  {
    HasManifest(ds, w, w.commits[i].after) && ManifestOf(ds, w, w.commits[i].after).previous == w.commits[i].before
  }

  ghost predicate AllLinked(ds: Dataset, w: World)
  {
    forall i :: 0 <= i < |w.commits| && FirstActivation(w.commits, i) ==> Linked(ds, w, i)
  }

  // Some stored manifest links to `d`.
  ghost predicate LinkedTo(ds: Dataset, w: World, d: Digest)
  {
    exists e :: HasManifest(ds, w, e) && ManifestOf(ds, w, e).previous == Some(d)
  }

  /** What whoever rolls back can look up in the store: the target is active, some stored manifest
      links to it, or it links to the active manifest. */
  ghost predicate Checked(ds: Dataset, w: World, target: Digest)
  {
    && HasManifest(ds, w, target)
    && (w.pointer == Some(target) || LinkedTo(ds, w, target) || ManifestOf(ds, w, target).previous == w.pointer)
  }

  /** Every manifest that another links to was active. */
  lemma LinkedToWasActive(ds: Dataset, w: World, d: Digest)
    requires CollisionFree(ds) && Sound(ds, w) && LinkedTo(ds, w, d)
    ensures WasActive(w, d)
  {
    var e :| HasManifest(ds, w, e) && ManifestOf(ds, w, e).previous == Some(d);
    StoredIsGrounded(ds, w, e);
  }

  /** So every member of the active manifest's ancestor chain was active, and a rollback to any of
      them is a checked one. */
  lemma {:induction false} AncestorsAreChecked(ds: Dataset, w: World, chain: seq<Digest>, i: nat)
    requires CollisionFree(ds) && Sound(ds, w) && IsChain(ds, w, w.pointer, chain) && i < |chain|
    ensures WasActive(w, chain[i]) && Checked(ds, w, chain[i])
  {
    ChainSuffix(ds, w, w.pointer, chain, i);
    if i == 0 {
      assert w.commits[|w.commits| - 1].after == chain[0];
    } else {
      ChainSuffix(ds, w, w.pointer, chain, i - 1);
      assert HasManifest(ds, w, chain[i - 1]);
      LinkedToWasActive(ds, w, chain[i]);
    }
  }

  /******* Checked rollbacks suffice *******/

  // A rollback, if it is one, looked before it moved the pointer.
  ghost predicate ActionChecked(ds: Dataset, w: World, a: Action)
  {
    a.MovePointer? && !a.commit.publish ==> Checked(ds, w, a.commit.after)
  }

  ghost predicate AllChecked(ds: Dataset, run: seq<Action>)
  {
    forall k :: 0 <= k < |run| ==> ActionChecked(ds, After(ds, run[..k]), run[k])
  }

  lemma LinkedKept(ds: Dataset, w: World, v: World, i: nat)
    requires Grows(w, v) && i < |w.commits| && Linked(ds, w, i)
    ensures Linked(ds, v, i)
  {
  }

  // A checked rollback activates nothing new, or something linked.
  lemma CheckedMoveIsLinked(ds: Dataset, w: World, c: Commit)
    requires CollisionFree(ds) && Sound(ds, w) && Justified(ds, w, MovePointer(c)) && Matches(ds, w, MovePointer(c))
    requires ActionChecked(ds, w, MovePointer(c))
    ensures var v := Apply(ds, w, MovePointer(c)); FirstActivation(v.commits, |w.commits|) ==> Linked(ds, v, |w.commits|)
  {
    hide Sound;
    var v := Apply(ds, w, MovePointer(c));
    assert v.commits[|w.commits|] == c && forall i :: 0 <= i < |w.commits| ==> v.commits[i] == w.commits[i];
    if FirstActivation(v.commits, |w.commits|) {
      assert !WasActive(w, c.after);
      PointerWasActive(ds, w);
      if LinkedTo(ds, w, c.after) { LinkedToWasActive(ds, w, c.after); }
    }
  }

  lemma PointerWasActive(ds: Dataset, w: World)
    requires Sound(ds, w)
    ensures w.pointer.Some? ==> WasActive(w, w.pointer.value)
  {
    if w.pointer.Some? { assert w.commits[|w.commits| - 1].after == w.pointer.value; }
  }

  /** In every run whose rollbacks are all checked, every first activation links to the manifest
      active before it. */
  lemma {:induction false} CheckedRollbacksKeepLinks(ds: Dataset, run: seq<Action>)
    requires CollisionFree(ds) && Legal(ds, run) && AllChecked(ds, run)
    ensures AllLinked(ds, After(ds, run))
  {
    if run != [] {
      var n := |run| - 1;
      var front, a := run[..n], run[n];
      var w := After(ds, front);
      forall k | 0 <= k < n ensures ActionChecked(ds, After(ds, front[..k]), front[k]) {
        assert front[..k] == run[..k];
        assert ActionChecked(ds, After(ds, run[..k]), run[k]);
      }
      CheckedRollbacksKeepLinks(ds, front);
      EveryRunIsSound(ds, front);
      StepKeepsLinks(ds, w, a);
    }
  }

  lemma StepKeepsLinks(ds: Dataset, w: World, a: Action)
    requires CollisionFree(ds) && Sound(ds, w) && AllLinked(ds, w)
    requires Justified(ds, w, a) && Matches(ds, w, a) && ActionChecked(ds, w, a)
    ensures AllLinked(ds, Apply(ds, w, a))
  {
    hide Sound, Justified, Matches, ActionChecked, Linked, CollisionFree;
    var v := Apply(ds, w, a);
    ApplyGrows(ds, w, a);
    forall i | 0 <= i < |v.commits| && FirstActivation(v.commits, i) ensures Linked(ds, v, i) {
      if i < |w.commits| {
        assert FirstActivation(w.commits, i) by { assert v.commits[..|w.commits|] == w.commits; }
        LinkedKept(ds, w, v, i);
      } else {
        CheckedMoveIsLinked(ds, w, a.commit);
      }
    }
  }

  /** So a manifest that was ever active, as a publisher's success reports, was linked to its
      predecessor when it first became active. */
  lemma {:induction false} ActiveWasLinked(ds: Dataset, run: seq<Action>, k: nat) returns (i: nat)
    requires CollisionFree(ds) && Legal(ds, run) && AllChecked(ds, run) && k < |After(ds, run).commits|
    ensures i <= k && After(ds, run).commits[i].after == After(ds, run).commits[k].after
    ensures FirstActivation(After(ds, run).commits, i) && Linked(ds, After(ds, run), i)
  {
    hide Legal, After, AllChecked, CollisionFree, Linked;
    var w := After(ds, run);
    CheckedRollbacksKeepLinks(ds, run);
    if FirstActivation(w.commits, k) {
      i := k;
    } else {
      var j :| 0 <= j < k && w.commits[j].after == w.commits[k].after;
      i := ActiveWasLinked(ds, run, j);
    }
  }

  /******* Nothing less suffices *******/

  // What a client sees of a world: the objects, the manifests and the pointer, but no past.
  predicate SameStore(w: World, v: World)
  {
    w.objects == v.objects && w.manifests == v.manifests && w.pointer == v.pointer
  }

  // The same run without ever moving the pointer to `target`.
  ghost function Without(ds: Dataset, run: seq<Action>, target: Digest): seq<Action>
  {
    if run == [] then []
    else
      var front, a := Without(ds, run[..|run| - 1], target), run[|run| - 1];
      if !a.MovePointer? then front + [a]
      else if a.commit.after == target then front
      else
        var held := After(ds, front).pointer;
        front + [MovePointer(if a.commit.before == Some(target) then Commit(held == None, held, a.commit.after) else a.commit)]
  }

  // `v` is `w`, had `target` never been active.
  ghost predicate Bypasses(w: World, v: World, target: Digest)
  {
    && v.objects == w.objects && v.manifests == w.manifests && v.created == w.created
    && (w.pointer != Some(target) ==> v.pointer == w.pointer)
    && (forall d :: d != target && WasActive(w, d) ==> WasActive(v, d))
    && !WasActive(v, target)
  }

  lemma MoreActive(w: World, c: Commit, d: Digest)
    ensures WasActive(w.(pointer := Some(c.after), commits := w.commits + [c]), d) <==> d == c.after || WasActive(w, d)
  {
    var v := w.(pointer := Some(c.after), commits := w.commits + [c]);
    if WasActive(w, d) { ActiveKept(w, v, d); }
    if WasActive(v, d) {
      var i :| 0 <= i < |v.commits| && v.commits[i].after == d;
      assert i < |w.commits| ==> w.commits[i].after == d;
    }
    assert v.commits[|w.commits|] == c;
  }

  lemma NoLinkBefore(ds: Dataset, w: World, v: World, target: Digest)
    requires Grows(w, v) && !LinkedTo(ds, v, target)
    ensures !LinkedTo(ds, w, target)
  {
    if LinkedTo(ds, w, target) {
      var e :| HasManifest(ds, w, e) && ManifestOf(ds, w, e).previous == Some(target);
      assert HasManifest(ds, v, e);
    }
  }

  // Moving the pointer on, when the shorter run may hold another pointer.
  lemma BypassMove(ds: Dataset, w: World, v: World, c: Commit, target: Digest) returns (d: Commit)
    requires CollisionFree(ds) && Sound(ds, w) && Sound(ds, v) && Bypasses(w, v, target) && !LinkedTo(ds, w, target)
    requires Justified(ds, w, MovePointer(c)) && Matches(ds, w, MovePointer(c)) && c.after != target
    ensures d == if c.before == Some(target) then Commit(v.pointer == None, v.pointer, c.after) else c
    ensures Justified(ds, v, MovePointer(d)) && Matches(ds, v, MovePointer(d)) && d.after == c.after
  {
    d := if c.before == Some(target) then Commit(v.pointer == None, v.pointer, c.after) else c;
    if c.before == Some(target) {
      assert HasManifest(ds, v, c.after);
      var m := ManifestOf(ds, w, c.after);
      StoredIsGrounded(ds, w, c.after);
      if m.previous.Some? {
        assert m.previous != Some(target);
        assert WasActive(v, m.previous.value);
      }
    }
  }

  lemma BypassKept(ds: Dataset, w: World, v: World, a: Action, target: Digest)
    requires Bypasses(w, v, target) && !a.MovePointer?
    ensures Bypasses(Apply(ds, w, a), Apply(ds, v, a), target)
  {
    var w', v' := Apply(ds, w, a), Apply(ds, v, a);
    forall d ensures (WasActive(w', d) <==> WasActive(w, d)) && (WasActive(v', d) <==> WasActive(v, d)) {
      assert w'.commits == w.commits && v'.commits == v.commits;
    }
  }

  lemma BypassJustified(ds: Dataset, w: World, v: World, a: Action, target: Digest)
    requires Bypasses(w, v, target) && !a.MovePointer? && Justified(ds, w, a) && Matches(ds, w, a)
    requires a.PutManifest? ==> a.manifest.previous != Some(target)
    ensures Justified(ds, v, a) && Matches(ds, v, a)
  {
    if a.PutManifest? {
      forall i | 0 <= i < |a.manifest.objects| ensures Exact(v, a.manifest.planId, a.manifest.publicationId, a.manifest.objects[i]) {
        assert Exact(w, a.manifest.planId, a.manifest.publicationId, a.manifest.objects[i]);
      }
    }
  }

  /** A run in which nothing ever linked to `target` could have gone without activating it, and
      nobody could tell from the store. */
  lemma {:induction false} WithoutIsLegal(ds: Dataset, run: seq<Action>, target: Digest)
    requires CollisionFree(ds) && Legal(ds, run) && !LinkedTo(ds, After(ds, run), target)
    ensures Legal(ds, Without(ds, run, target))
    ensures Bypasses(After(ds, run), After(ds, Without(ds, run, target)), target)
  {
    if run != [] {
      var front, a := run[..|run| - 1], run[|run| - 1];
      var w := After(ds, front);
      ApplyGrows(ds, w, a);
      NoLinkBefore(ds, w, After(ds, run), target);
      WithoutIsLegal(ds, front, target);
      WithoutStep(ds, front, Without(ds, front, target), a, target);
    }
  }

  lemma WithoutStep(ds: Dataset, front: seq<Action>, shorter: seq<Action>, a: Action, target: Digest)
    requires CollisionFree(ds) && Legal(ds, front) && Legal(ds, shorter) && Bypasses(After(ds, front), After(ds, shorter), target)
    requires Justified(ds, After(ds, front), a) && Matches(ds, After(ds, front), a)
    requires !LinkedTo(ds, Apply(ds, After(ds, front), a), target)
    ensures var w', v := Apply(ds, After(ds, front), a), After(ds, shorter);
            if !a.MovePointer? then Legal(ds, shorter + [a]) && Bypasses(w', After(ds, shorter + [a]), target)
            else if a.commit.after == target then Bypasses(w', v, target)
            else var d := MovePointer(if a.commit.before == Some(target) then Commit(v.pointer == None, v.pointer, a.commit.after) else a.commit);
                 Legal(ds, shorter + [d]) && Bypasses(w', After(ds, shorter + [d]), target)
  {
    hide Legal, After, Sound, CollisionFree;
    var w, v := After(ds, front), After(ds, shorter);
    EveryRunIsSound(ds, front);
    EveryRunIsSound(ds, shorter);
    ApplyGrows(ds, w, a);
    NoLinkBefore(ds, w, Apply(ds, w, a), target);
    if !a.MovePointer? {
      PutsNoLink(ds, w, a, target);
      BypassJustified(ds, w, v, a, target);
      BypassKept(ds, w, v, a, target);
      RunExtends(ds, shorter, a);
    } else if a.commit.after == target {
      forall d ensures d != target && WasActive(Apply(ds, w, a), d) ==> WasActive(v, d) { MoreActive(w, a.commit, d); }
    } else {
      var d := BypassMove(ds, w, v, a.commit, target);
      forall e ensures e != target && WasActive(Apply(ds, w, a), e) ==> WasActive(Apply(ds, v, MovePointer(d)), e) {
        MoreActive(w, a.commit, e);
        MoreActive(v, d, e);
      }
      MoreActive(v, d, target);
      RunExtends(ds, shorter, MovePointer(d));
    }
  }

  lemma PutsNoLink(ds: Dataset, w: World, a: Action, target: Digest)
    requires Matches(ds, w, a) && !LinkedTo(ds, Apply(ds, w, a), target)
    ensures a.PutManifest? ==> a.manifest.previous != Some(target)
  {
    if a.PutManifest? {
      assert HasManifest(ds, Apply(ds, w, a), ds.sha256(Text(a.manifest)));
    }
  }

  /** The check is the weakest there is.  Where it fails, the same store can be the end of a run in
      which the target was never active, and there the rollback is a first activation that does
      not link to the manifest active before. */
  lemma UncheckedRollbackCanBreakLinks(ds: Dataset, run: seq<Action>, target: Digest) returns (other: seq<Action>)
    requires CollisionFree(ds) && Legal(ds, run) && After(ds, run).pointer.Some?
    requires HasManifest(ds, After(ds, run), target) && !Checked(ds, After(ds, run), target)
    ensures Legal(ds, other) && SameStore(After(ds, run), After(ds, other))
    ensures var rollback := MovePointer(Commit(false, After(ds, run).pointer, target));
            && Legal(ds, other + [rollback])
            && var v := After(ds, other + [rollback]);
            && |v.commits| > 0 && FirstActivation(v.commits, |v.commits| - 1) && !Linked(ds, v, |v.commits| - 1)
  {
    hide Legal, After, CollisionFree;
    other := Without(ds, run, target);
    WithoutIsLegal(ds, run, target);
    var w, v := After(ds, run), After(ds, other);
    var rollback := MovePointer(Commit(false, w.pointer, target));
    RunExtends(ds, other, rollback);
    var last := Apply(ds, v, rollback);
    forall j | 0 <= j < |v.commits| ensures last.commits[j].after != target {
      assert last.commits[j] == v.commits[j];
    }
  }

  /** Together: a rollback keeps the links in every run that leads to this store exactly when it
      is checked. */
  lemma CheckedIsExact(ds: Dataset, run: seq<Action>, target: Digest)
    requires CollisionFree(ds) && Legal(ds, run) && After(ds, run).pointer.Some? && HasManifest(ds, After(ds, run), target)
    ensures Checked(ds, After(ds, run), target) <==>
            forall other: seq<Action> :: Legal(ds, other) && SameStore(After(ds, run), After(ds, other)) ==>
              KeepsLinks(ds, After(ds, other), target)
  {
    hide Legal, After, CollisionFree, Checked;
    var w := After(ds, run);
    if Checked(ds, w, target) {
      forall other: seq<Action> | Legal(ds, other) && SameStore(w, After(ds, other)) ensures KeepsLinks(ds, After(ds, other), target) {
        EveryRunIsSound(ds, other);
        CheckedKeepsLinks(ds, w, After(ds, other), target);
      }
    } else {
      var other := UncheckedRollbackCanBreakLinks(ds, run, target);
      var rollback := MovePointer(Commit(false, w.pointer, target));
      assert Justified(ds, After(ds, other), rollback) && Matches(ds, After(ds, other), rollback);
      RunExtends(ds, other, rollback);
      assert !KeepsLinks(ds, After(ds, other), target);
    }
  }

  // Rolling back to `target` now activates nothing new, or something linked.
  ghost predicate KeepsLinks(ds: Dataset, w: World, target: Digest)
  {
    var v := Apply(ds, w, MovePointer(Commit(false, w.pointer, target)));
    FirstActivation(v.commits, |w.commits|) ==> Linked(ds, v, |w.commits|)
  }

  lemma CheckedKeepsLinks(ds: Dataset, w: World, v: World, target: Digest)
    requires CollisionFree(ds) && Sound(ds, v) && SameStore(w, v) && Checked(ds, w, target) && w.pointer.Some?
    ensures KeepsLinks(ds, v, target)
  {
    if LinkedTo(ds, w, target) {
      var e :| HasManifest(ds, w, e) && ManifestOf(ds, w, e).previous == Some(target);
      assert HasManifest(ds, v, e);
    }
    CheckedMoveIsLinked(ds, v, Commit(false, v.pointer, target));
  }

  /******* A publish completed by a rollback *******/

  // A manifest that is not stored was never active, and nothing links to it.
  lemma NeverCommitted(ds: Dataset, run: seq<Action>, m: Manifest)
    requires CollisionFree(ds) && Legal(ds, run) && ManifestName(ds, m) !in After(ds, run).manifests
    ensures !WasActive(After(ds, run), ds.sha256(Text(m))) && !LinkedTo(ds, After(ds, run), ds.sha256(Text(m)))
  {
    EveryRunIsSound(ds, run);
    var w, d := After(ds, run), ds.sha256(Text(m));
    forall i | 0 <= i < |w.commits| ensures w.commits[i].after != d { assert CommitOk(ds, w, i); }
    assert LinkedTo(ds, w, d) ==> WasActive(w, d) by { if LinkedTo(ds, w, d) { LinkedToWasActive(ds, w, d); } }
  }

  /** A publisher that lost the race can still see its own manifest become active: nothing stops
      an unchecked rollback to a manifest that was never committed.  The publisher's own write
      never took effect, it reads its own pointer back, and its link does not name the manifest
      that was active before. */
  lemma RollbackCompletesStalePublish(ds: Dataset, run: seq<Action>, m: Manifest, held: Digest) returns (longer: seq<Action>)
    requires CollisionFree(ds) && Legal(ds, run) && After(ds, run).pointer == Some(held)
    requires Grounded(ds, After(ds, run), m) && ManifestName(ds, m) !in After(ds, run).manifests && m.previous != Some(held)
    ensures var own := Commit(true, m.previous, ds.sha256(Text(m)));
            && longer == run + [PutManifest(m)] + [MovePointer(Commit(false, Some(held), own.after))] && Legal(ds, longer)
            && !Checked(ds, After(ds, run + [PutManifest(m)]), own.after)
            && !Matches(ds, After(ds, run), MovePointer(own)) && !Matches(ds, After(ds, longer), MovePointer(own))
            && ReadsBack(After(ds, longer), own)
            && var w := After(ds, longer);
            && w.commits == After(ds, run).commits + [Commit(false, Some(held), own.after)]
            && FirstActivation(w.commits, |w.commits| - 1) && !Linked(ds, w, |w.commits| - 1)
  {
    hide Legal, After, SelfConsistent, AllExact, CollisionFree, Sound;
    var digest := ds.sha256(Text(m));
    var put, move := PutManifest(m), MovePointer(Commit(false, Some(held), digest));
    NeverCommitted(ds, run, m);
    EveryRunIsSound(ds, run);
    PointerWasActive(ds, After(ds, run));
    RunExtends(ds, run, put);
    RunExtends(ds, run + [put], move);
    longer := run + [put] + [move];
    StillNoLink(ds, After(ds, run), m);
    var w := After(ds, longer);
    assert forall i :: 0 <= i < |w.commits| - 1 ==> w.commits[i] == After(ds, run).commits[i];
  }

  // Storing a manifest that links elsewhere adds no link to it.
  lemma StillNoLink(ds: Dataset, w: World, m: Manifest)
    requires !LinkedTo(ds, w, ds.sha256(Text(m))) && !WasActive(w, ds.sha256(Text(m))) && Grounded(ds, w, m)
    ensures !LinkedTo(ds, Apply(ds, w, PutManifest(m)), ds.sha256(Text(m)))
  {
    var v, d := Apply(ds, w, PutManifest(m)), ds.sha256(Text(m));
    if LinkedTo(ds, v, d) {
      var e :| HasManifest(ds, v, e) && ManifestOf(ds, v, e).previous == Some(d);
      assert e != d ==> HasManifest(ds, w, e);
    }
  }

  // One-object manifests to show that the situation arises.
  function SampleObject(ds: Dataset, id: string): ManifestObject
  {
    ManifestObject("o", PhysicalPrefix(ds, "p", id) + "/" + "o", 1, "s")
  }

  function Sample(ds: Dataset, id: string, previous: Option<Digest>): Manifest
  {
    Manifest("", "p", id, PhysicalPrefix(ds, "p", id), [SampleObject(ds, id)], 0, previous)
  }

  // Uploading and storing a sample over the active manifest.
  lemma StoreSample(ds: Dataset, run: seq<Action>, id: string, previous: Option<Digest>) returns (longer: seq<Action>)
    requires Legal(ds, run) && SampleObject(ds, id).key !in After(ds, run).objects
    requires ManifestName(ds, Sample(ds, id, previous)) !in After(ds, run).manifests
    requires previous.Some? ==> HasManifest(ds, After(ds, run), previous.value) && WasActive(After(ds, run), previous.value)
    ensures Legal(ds, longer)
    ensures var w, v := After(ds, run), After(ds, longer);
            && v.objects.Keys == w.objects.Keys + {SampleObject(ds, id).key}
            && v == w.(objects := v.objects, manifests := w.manifests[ManifestName(ds, Sample(ds, id, previous)) := Text(Sample(ds, id, previous))],
                       created := w.created + [Sample(ds, id, previous)])
  {
    longer := UploadSample(ds, run, id);
    var m := Sample(ds, id, previous);
    assert Grounded(ds, After(ds, longer), m) by {
      assert Exact(After(ds, longer), "p", id, SampleObject(ds, id));
      if previous.Some? { ActiveKept(After(ds, run), After(ds, longer), previous.value); }
    }
    RunExtends(ds, longer, PutManifest(m));
    longer := longer + [PutManifest(m)];
  }

  lemma UploadSample(ds: Dataset, run: seq<Action>, id: string) returns (longer: seq<Action>)
    requires Legal(ds, run) && SampleObject(ds, id).key !in After(ds, run).objects
    ensures Legal(ds, longer)
    ensures var o := SampleObject(ds, id);
            After(ds, longer) == After(ds, run).(objects := After(ds, run).objects[o.key := StoredObject(o.size, o.sha256, MetadataFor("p", id, o))])
  {
    var o := SampleObject(ds, id);
    var upload := PutObject(o.key, StoredObject(o.size, o.sha256, MetadataFor("p", id, o)));
    RunExtends(ds, run, upload);
    longer := run + [upload];
  }

  lemma SampleKeysDiffer(ds: Dataset, a: string, b: string)
    requires |a| == |b| == 1 && a != b
    ensures SampleObject(ds, a).key != SampleObject(ds, b).key
  {
    var n := |ds.landing + "/_generations/" + "p" + "/"|;
    assert SampleObject(ds, a).key[n] == a[0] && SampleObject(ds, b).key[n] == b[0];
  }

  // Publishing a sample: it is stored, and the pointer moves from the manifest it links to.
  lemma PublishSample(ds: Dataset, run: seq<Action>, id: string, previous: Option<Digest>) returns (longer: seq<Action>)
    requires Legal(ds, run) && After(ds, run).pointer == previous && SampleObject(ds, id).key !in After(ds, run).objects
    requires ManifestName(ds, Sample(ds, id, previous)) !in After(ds, run).manifests
    requires previous.Some? ==> HasManifest(ds, After(ds, run), previous.value) && WasActive(After(ds, run), previous.value)
    ensures Legal(ds, longer)
    ensures var w, v, m := After(ds, run), After(ds, longer), Sample(ds, id, previous);
            && v.objects.Keys == w.objects.Keys + {SampleObject(ds, id).key}
            && v.manifests == w.manifests[ManifestName(ds, m) := Text(m)]
            && v.pointer == Some(ds.sha256(Text(m))) && w.commits <= v.commits && WasActive(v, ds.sha256(Text(m)))
  {
    hide Legal, After, WasActive;
    longer := StoreSample(ds, run, id, previous);
    var c := Commit(true, previous, ds.sha256(Text(Sample(ds, id, previous))));
    RunExtends(ds, longer, MovePointer(c));
    MoreActive(After(ds, longer), c, c.after);
    longer := longer + [MovePointer(c)];
  }

  /** For every dataset there is a run that meets the premises: two publishers read the same
      pointer, one commits, and the other has staged its objects. */
  lemma StalePublishHappens(ds: Dataset) returns (run: seq<Action>, m: Manifest, held: Digest)
    requires CollisionFree(ds)
    ensures Legal(ds, run) && After(ds, run).pointer == Some(held)
    ensures Grounded(ds, After(ds, run), m) && ManifestName(ds, m) !in After(ds, run).manifests && m.previous != Some(held)
  {
    hide Grounded, Legal, After, SampleObject, WasActive;
    SampleKeysDiffer(ds, "a", "b");
    SampleKeysDiffer(ds, "a", "c");
    SampleKeysDiffer(ds, "b", "c");
    EmptyRun(ds);
    var first := Sample(ds, "a", None);
    var one := ds.sha256(Text(first));
    var published := PublishSample(ds, [], "a", None);
    var second := Sample(ds, "b", Some(one));
    held := ds.sha256(Text(second));
    assert Text(second) != Text(first);
    var replaced := PublishSample(ds, published, "b", Some(one));
    ActiveKept(After(ds, published), After(ds, replaced), one);
    m := Sample(ds, "c", Some(one));
    assert Text(m) != Text(first) && Text(m) != Text(second);
    run := UploadSample(ds, replaced, "c");
    ActiveKept(After(ds, replaced), After(ds, run), one);
    SampleIsGrounded(ds, After(ds, run), "c", one);
  }

  lemma EmptyRun(ds: Dataset)
    ensures Legal(ds, []) && After(ds, []) == EMPTY
  {
  }

  lemma SampleIsGrounded(ds: Dataset, w: World, id: string, previous: Digest)
    requires Exact(w, "p", id, SampleObject(ds, id)) && HasManifest(ds, w, previous) && WasActive(w, previous)
    ensures Grounded(ds, w, Sample(ds, id, Some(previous)))
  {
  }
}
