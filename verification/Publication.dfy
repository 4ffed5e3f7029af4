/** The clients of a published dataset (datasets/publication.py): publish, roll back, resolve,
    walk the history and list unreferenced generations.

    Between any two requests of one client the others may do anything legal, a request may
    take effect although its answer was lost, and any lease check may end the call. */
module Publication {
  import opened Options
  import opened Results
  import opened PublicationHistory

  datatype Failure = Conflict | Ambiguous | Mismatch | Missing | LeaseLost | Invalid | Cycle | TooDeep

  datatype Output = Output(name: string, size: int, sha256: string)

  // The selected plan: its scale, its identifier, and the locked outputs in order.
  datatype Plan = Plan(scale: string, planId: string, outputs: seq<Output>)

  datatype Historical = Historical(digest: Digest, manifest: Manifest)

  datatype Inventory = Inventory(unreferenced: set<Name>, ambiguous: set<Name>, candidates: set<string>)

  const MAX_HISTORY_DEPTH := 1000

  function ObjectFor(prefix: string, o: Output): ManifestObject
  {
    ManifestObject(o.name, prefix + "/" + o.name, o.size, o.sha256)
  }

  /** `_build_manifest`. */
  function BuildManifest(ds: Dataset, plan: Plan, publicationId: string, publishedAt: int, active: Option<Digest>): Manifest
  {
    var prefix := PhysicalPrefix(ds, plan.planId, publicationId);
    Manifest(plan.scale, plan.planId, publicationId, prefix,
             seq(|plan.outputs|, i requires 0 <= i < |plan.outputs| => ObjectFor(prefix, plan.outputs[i])), publishedAt, active)
  }

  /** `_validate_manifest_for_plan`. */
  predicate ForPlan(ds: Dataset, m: Manifest, plan: Plan)
  {
    && m.scale == plan.scale && m.planId == plan.planId
    && m.prefix == PhysicalPrefix(ds, plan.planId, m.publicationId)
    && |m.objects| == |plan.outputs|
    && forall i :: 0 <= i < |plan.outputs| ==> m.objects[i] == ObjectFor(m.prefix, plan.outputs[i])
  }

  lemma BuiltForPlan(ds: Dataset, plan: Plan, publicationId: string, publishedAt: int, active: Option<Digest>)
    ensures ForPlan(ds, BuildManifest(ds, plan, publicationId, publishedAt, active), plan)
  {
  }

  /** The manifests valid for a plan are exactly those that a publish of the plan builds. */
  lemma ForPlanIsBuilt(ds: Dataset, m: Manifest, plan: Plan)
    ensures ForPlan(ds, m, plan) <==> m == BuildManifest(ds, plan, m.publicationId, m.publishedAt, m.previous)
  {
    var built := BuildManifest(ds, plan, m.publicationId, m.publishedAt, m.previous);
    if ForPlan(ds, m, plan) {
      assert m.objects == built.objects;
    }
    BuiltForPlan(ds, plan, m.publicationId, m.publishedAt, m.previous);
  }

  // What the manifest's constructor demands of the outputs.
  predicate ValidOutputs(plan: Plan)
  {
    plan.outputs != [] && forall i, j :: 0 <= i < j < |plan.outputs| ==> plan.outputs[i].name != plan.outputs[j].name
  }

  function Names(history: seq<Historical>): set<Name>
  {
    set i | 0 <= i < |history| :: OfDigest(history[i].digest)
  }

  function Digests(history: seq<Historical>): seq<Digest>
  {
    seq(|history|, i requires 0 <= i < |history| => history[i].digest)
  }

  datatype Reply = Accepted | Uncertain | Refused

  class Bucket {
    const dataset: Dataset
    var world: World
    ghost var run: seq<Action>    // every write that took effect
    ghost var sent: seq<Action>   // every request sent by this client
    ghost var disturbances: nat   // writes that took effect for others
    ghost var faults: nat         // requests lost, refused or unanswered, leases lost, uploads of other bytes

    ghost predicate Valid()
      reads this
    {
      CollisionFree(dataset) && Legal(dataset, run) && world == After(dataset, run)
    }

    constructor (dataset: Dataset)
      requires CollisionFree(dataset)
      ensures Valid() && run == [] && sent == [] && faults == 0 && disturbances == 0 && world == EMPTY
    {
      this.dataset, world, run, sent, faults, disturbances := dataset, EMPTY, [], [], 0, 0;
    }

    twostate predicate Later()
      reads this
    {
      Valid() && Grows(old(world), world) && old(run) <= run && old(sent) <= sent && old(faults) <= faults && old(disturbances) <= disturbances
    }

    // Time has passed, but this client has sent nothing.
    twostate predicate ReadOnly()
      reads this
    {
      Later() && sent == old(sent) && (disturbances == old(disturbances) ==> world == old(world))
    }

    // No request failed and nobody else wrote.
    twostate predicate Undisturbed()
      reads this
    {
      faults == old(faults) && disturbances == old(disturbances)
    }

    method Perform(a: Action)
      requires Valid() && Justified(dataset, world, a) && Matches(dataset, world, a)
      modifies this
      ensures Later() && Undisturbed() && sent == old(sent)
      ensures world == Apply(dataset, old(world), a) && run == old(run) + [a]
    {
      hide Legal, After, Justified, Matches, Apply, Grows;
      RunExtends(dataset, run, a);
      ApplyGrows(dataset, world, a);
      world, run := Apply(dataset, world, a), run + [a];
    }

    /** Any number of writes by other clients, or earlier requests of this one arriving late. */
    method Interfere()
      requires Valid()
      modifies this
      ensures ReadOnly()
      ensures faults == old(faults)
    {
      hide Justified, Matches, Apply, Legal, After;
      var steps: int := *;
      while steps > 0
        invariant ReadOnly() && faults == old(faults)
      {
        var a: Action := *;
        if Justified(dataset, world, a) && Matches(dataset, world, a) {
          Perform(a);
          disturbances := disturbances + 1;
        }
        steps := steps - 1;
      }
    }

    /** A conditional PUT whose justification was established before it was sent. */
    method Send(a: Action) returns (reply: Reply)
      requires Valid() && Justified(dataset, world, a)
      modifies this
      ensures Later() && sent == old(sent) + [a]
      ensures old(faults) == faults ==> reply.Accepted? || (reply.Refused? && !Matches(dataset, world, a))
      ensures reply.Accepted? ==> Landed(dataset, world, a)
      ensures Undisturbed() ==> world == if reply.Accepted? then Apply(dataset, old(world), a) else old(world)
      ensures Undisturbed() ==> (reply.Accepted? <==> Matches(dataset, old(world), a))
    {
      hide Justified, Matches, Apply, Legal, After, Landed;
      ghost var before := world;
      sent := sent + [a];
      Interfere();
      JustificationKept(dataset, before, world, a);
      var reaches: bool := *;
      var answered: bool := *;
      if !reaches || !answered { faults := faults + 1; }
      before := world;
      if reaches && Matches(dataset, world, a) {
        Perform(a);
        AppliedLands(dataset, before, a);
        return if answered then Accepted else Uncertain;
      }
      return if answered then Refused else Uncertain;
    }

    /******* Reads *******/

    method GetObject(key: string) returns (r: Result<StoredObject, Failure>)
      requires Valid()
      modifies this
      ensures ReadOnly()
      ensures r.Ok? ==> key in world.objects && world.objects[key] == r.value
      ensures r.Err? ==> r.error == Ambiguous || (r.error == Missing && key !in world.objects)
      ensures r == Err(Ambiguous) ==> old(faults) < faults
    {
      Interfere();
      var answered: bool := *;
      if !answered {
        faults := faults + 1;
        return Err(Ambiguous);
      }
      return if key in world.objects then Ok(world.objects[key]) else Err(Missing);
    }

    method ReadControl(name: Name) returns (r: Result<Body, Failure>)
      requires Valid()
      modifies this
      ensures ReadOnly()
      ensures r.Ok? ==> name in world.manifests && world.manifests[name] == r.value
      ensures r.Err? ==> r.error == Ambiguous || (r.error == Missing && name !in world.manifests)
      ensures r == Err(Ambiguous) ==> old(faults) < faults
    {
      Interfere();
      var answered: bool := *;
      if !answered {
        faults := faults + 1;
        return Err(Ambiguous);
      }
      return if name in world.manifests then Ok(world.manifests[name]) else Err(Missing);
    }

    /** `_read_pointer_state`. */
    method ReadPointer() returns (r: Result<Option<Digest>, Failure>)
      requires Valid()
      modifies this
      ensures ReadOnly()
      ensures r.Ok? ==> r.value == world.pointer
      ensures r.Err? ==> r.error == Ambiguous
      ensures r == Err(Ambiguous) ==> old(faults) < faults
    {
      Interfere();
      var answered: bool := *;
      if !answered { faults := faults + 1; }
      return if answered then Ok(world.pointer) else Err(Ambiguous);
    }

    /** `_read_manifest` and `_read_historical_manifest`. */
    method ReadManifest(d: Digest) returns (r: Result<Manifest, Failure>)
      requires Valid()
      modifies this
      ensures ReadOnly()
      ensures r.Ok? ==> HasManifest(dataset, world, d) && r.value == ManifestOf(dataset, world, d)
      ensures r.Err? ==> r.error == Ambiguous || ((r.error == Missing || r.error == Mismatch) && !HasManifest(dataset, world, d))
      ensures r == Err(Ambiguous) ==> old(faults) < faults
    {
      var body :- ReadControl(OfDigest(d));
      if dataset.sha256(body) != d || body.Garbage? { return Err(Mismatch); }
      return Ok(body.manifest);
    }

    /** A keepalive checkpoint: the lease may turn out to be lost at any time. */
    method Checkpoint() returns (r: Result<(), Failure>)
      requires Valid()
      modifies this
      ensures ReadOnly() && (r.Err? ==> r.error == LeaseLost && old(faults) < faults)
    {
      Interfere();
      var held: bool := *;
      if !held { faults := faults + 1; }
      return if held then Ok(()) else Err(LeaseLost);
    }

    /******* Publish *******/

    // An upload of this object, of whatever bytes.
    predicate Uploads(a: Action, planId: string, publicationId: string, o: ManifestObject)
    {
      a.PutObject? && a.key == o.key && a.stored.metadata == MetadataFor(planId, publicationId, o)
    }

    // A request that a publish over `active` may send.
    predicate OwnRequest(a: Action, planId: string, publicationId: string, active: Option<Digest>)
    {
      match a
      case PutObject(k, stored) =>
        && stored.metadata.planId == planId && stored.metadata.publicationId == publicationId
        && k == ObjectKey(dataset, planId, publicationId, stored.metadata.objectName)
      case PutManifest(m) => m.planId == planId && m.publicationId == publicationId && m.previous == active
      case PutStray(_, _) => false
      case MovePointer(c) => c.publish && c.before == active
    }

    // No two objects share a key, and none is stored yet.
    ghost predicate UnusedKeys(w: World, m: Manifest)
    {
      && (forall i, j :: 0 <= i < j < |m.objects| ==> m.objects[i].key != m.objects[j].key)
      && (forall i :: 0 <= i < |m.objects| ==> m.objects[i].key !in w.objects)
    }

    // Nothing is stored where this publication would write.
    ghost predicate Unused(w: World, plan: Plan, publicationId: string, active: Option<Digest>)
    {
      forall t: int {:trigger BuildManifest(dataset, plan, publicationId, t, active)} ::
        && ManifestName(dataset, BuildManifest(dataset, plan, publicationId, t, active)) !in w.manifests
        && forall i :: 0 <= i < |plan.outputs| ==> BuildManifest(dataset, plan, publicationId, t, active).objects[i].key !in w.objects
    }

    lemma UnusedBuild(w: World, plan: Plan, publicationId: string, publishedAt: int, active: Option<Digest>)
      requires Unused(w, plan, publicationId, active) && ValidOutputs(plan)
      ensures var m := BuildManifest(dataset, plan, publicationId, publishedAt, active);
              UnusedKeys(w, m) && ManifestName(dataset, m) !in w.manifests
    {
      var m := BuildManifest(dataset, plan, publicationId, publishedAt, active);
      forall i, j | 0 <= i < j < |m.objects| ensures m.objects[i].key != m.objects[j].key {
        var n := |m.prefix| + 1;
        assert m.objects[i].key[n..] == plan.outputs[i].name && m.objects[j].key[n..] == plan.outputs[j].name;
      }
    }

    // A request of some publication that files its objects under its own identifiers.
    predicate Filed(a: Action)
    {
      match a
      case PutObject(k, stored) =>
        var m := stored.metadata;
        WellFormedIds(m.planId, m.publicationId) && k == ObjectKey(dataset, m.planId, m.publicationId, m.objectName)
      case PutStray(_, _) => false
      case _ => true
    }

    // The request belongs to this publication.
    predicate Carries(a: Action, publicationId: string)
    {
      (a.PutObject? && a.stored.metadata.publicationId == publicationId) || (a.PutManifest? && a.manifest.publicationId == publicationId)
    }

    // Every request so far was filed, and none was of this publication.
    predicate Fresh(run: seq<Action>, publicationId: string)
    {
      forall i :: 0 <= i < |run| ==> Filed(run[i]) && !Carries(run[i], publicationId)
    }

    // What every publish sends is filed.
    lemma OwnRequestsAreFiled(a: Action, planId: string, publicationId: string, active: Option<Digest>)
      requires OwnRequest(a, planId, publicationId, active) && WellFormedIds(planId, publicationId)
      ensures Filed(a) && (Carries(a, publicationId) <==> !a.MovePointer?)
      ensures forall other :: other != publicationId ==> !Carries(a, other)
    {
    }

    // What a run of filed requests stored, none of them of this publication.
    ghost predicate FreeOf(w: World, publicationId: string)
    {
      && (forall k :: k in w.objects ==>
            var m := w.objects[k].metadata;
            && WellFormedIds(m.planId, m.publicationId) && m.publicationId != publicationId
            && k == ObjectKey(dataset, m.planId, m.publicationId, m.objectName))
      && (forall n :: n in w.manifests ==>
            && w.manifests[n].Text? && w.manifests[n].manifest.publicationId != publicationId
            && n == OfDigest(dataset.sha256(w.manifests[n])))
    }

    lemma {:induction false} FreshRunIsFree(run: seq<Action>, publicationId: string)
      requires Fresh(run, publicationId)
      ensures FreeOf(After(dataset, run), publicationId)
    {
      if run != [] {
        var init, last := run[..|run| - 1], run[|run| - 1];
        FreshRunIsFree(init, publicationId);
        assert Filed(last) && !Carries(last, publicationId);
      }
    }

    /** A publication identifier that no request carried yet is unused: nothing is stored where
        the publication would write, whatever it is for. */
    lemma FreshIdIsUnused(run: seq<Action>, plan: Plan, publicationId: string, active: Option<Digest>)
      requires CollisionFree(dataset) && WellFormedIds(plan.planId, publicationId)
      requires Fresh(run, publicationId)
      ensures Unused(After(dataset, run), plan, publicationId, active)
    {
      hide After, ObjectKey;
      var w := After(dataset, run);
      FreshRunIsFree(run, publicationId);
      forall t: int
        ensures ManifestName(dataset, BuildManifest(dataset, plan, publicationId, t, active)) !in w.manifests
        ensures forall i :: 0 <= i < |plan.outputs| ==> BuildManifest(dataset, plan, publicationId, t, active).objects[i].key !in w.objects
      {
        var m := BuildManifest(dataset, plan, publicationId, t, active);
        var name := ManifestName(dataset, m);
        if name in w.manifests { assert false; }
        forall i | 0 <= i < |plan.outputs| ensures m.objects[i].key !in w.objects {
          NotFiledYet(w, plan, publicationId, plan.outputs[i].name);
          KeyOfObject(plan, publicationId, t, active, i);
        }
      }
    }

    lemma KeyOfObject(plan: Plan, publicationId: string, t: int, active: Option<Digest>, i: nat)
      requires i < |plan.outputs|
      ensures BuildManifest(dataset, plan, publicationId, t, active).objects[i].key ==
              ObjectKey(dataset, plan.planId, publicationId, plan.outputs[i].name)
    {
    }

    lemma NotFiledYet(w: World, plan: Plan, publicationId: string, name: string)
      requires FreeOf(w, publicationId) && WellFormedIds(plan.planId, publicationId)
      ensures ObjectKey(dataset, plan.planId, publicationId, name) !in w.objects
    {
      hide ObjectKey;
      var key := ObjectKey(dataset, plan.planId, publicationId, name);
      if key in w.objects {
        var m := w.objects[key].metadata;
        KeysInjective(dataset, plan.planId, publicationId, name, m.planId, m.publicationId, m.objectName);
        assert false;
      }
    }

    /** `_verify_exact_immutable`. */
    method VerifyExact(planId: string, publicationId: string, o: ManifestObject) returns (r: Result<(), Failure>)
      requires Valid()
      modifies this
      ensures ReadOnly()
      ensures r.Ok? ==> Exact(world, planId, publicationId, o)
      ensures r.Err? ==> old(faults) < faults || r.error == Missing || (r.error == Conflict && !Exact(world, planId, publicationId, o))
      ensures r == Err(Missing) ==> o.key !in world.objects
    {
      var seen :- GetObject(o.key);
      if seen != StoredObject(o.size, o.sha256, MetadataFor(planId, publicationId, o)) { return Err(Conflict); }
      return Ok(());
    }

    /** `put_immutable_object`: what is sent is read from a local file and may be anything, so
        only the GET that follows proves what is stored. */
    method PutImmutableObject(planId: string, publicationId: string, o: ManifestObject) returns (r: Result<(), Failure>)
      requires Valid()
      modifies this
      ensures Later() && |sent| == |old(sent)| + 1 && Uploads(sent[|old(sent)|], planId, publicationId, o)
      ensures r.Ok? ==> Exact(world, planId, publicationId, o)
      ensures r.Err? ==> old(faults) < faults || (r.error == Conflict && !Exact(world, planId, publicationId, o))
      ensures r.Err? && old(faults) == faults ==> o.key in world.objects
      ensures Undisturbed() ==> (r.Ok? <==> o.key !in old(world.objects) || Exact(old(world), planId, publicationId, o))
      ensures Undisturbed() ==> world == old(world) || (o.key !in old(world.objects) && world == old(world).(objects := world.objects)
                                                        && world.objects.Keys == old(world.objects.Keys) + {o.key})
    {
      var size: int := *;
      var sha256: string := *;
      if size != o.size || sha256 != o.sha256 { faults := faults + 1; }
      var reply := Send(PutObject(o.key, StoredObject(size, sha256, MetadataFor(planId, publicationId, o))));
      if reply.Refused? {
        var precondition: bool := *;
        if !precondition {
          faults := faults + 1;
          return Err(Ambiguous);
        }
      }
      var seen :- GetObject(o.key);
      if seen != StoredObject(o.size, o.sha256, MetadataFor(planId, publicationId, o)) {
        return Err(if reply.Accepted? then Ambiguous else Conflict);
      }
      return Ok(());
    }

    // One upload; an ambiguous answer is settled by one more read.
    method UploadObject(planId: string, publicationId: string, o: ManifestObject) returns (r: Result<(), Failure>)
      requires Valid()
      modifies this
      ensures Later() && |sent| <= |old(sent)| + 1
      ensures |sent| > |old(sent)| ==> Uploads(sent[|old(sent)|], planId, publicationId, o)
      ensures r.Ok? ==> Exact(world, planId, publicationId, o) && |sent| == |old(sent)| + 1
      ensures r.Err? ==> old(faults) < faults || (r.error == Conflict && !Exact(world, planId, publicationId, o))
      ensures Undisturbed() ==> world == old(world).(objects := world.objects) && world.objects.Keys <= old(world.objects.Keys) + {o.key}
      ensures Undisturbed() && o.key !in old(world.objects) ==> r.Ok?
    {
      hide Legal, After, CollisionFree, Uploads;
      var _ :- Checkpoint();
      r := PutImmutableObject(planId, publicationId, o);
      if r == Err(Ambiguous) {
        r := VerifyExact(planId, publicationId, o);
      }
    }

    // The upload loop.
    method UploadObjects(m: Manifest) returns (r: Result<(), Failure>)
      requires Valid()
      modifies this
      ensures Later() && |sent| <= |old(sent)| + |m.objects|
      ensures forall k :: |old(sent)| <= k < |sent| ==> Uploads(sent[k], m.planId, m.publicationId, m.objects[k - |old(sent)|])
      ensures r.Err? ==> old(faults) < faults || (r.error == Conflict && !AllExact(world, m))
      ensures r.Ok? && old(faults) == faults ==> AllExact(world, m)
      ensures Undisturbed() ==> world == old(world).(objects := world.objects)
      ensures Undisturbed() && UnusedKeys(old(world), m) ==> r.Ok?
    {
      hide Legal, After, CollisionFree, Uploads;
      var i := 0;
      while i < |m.objects|
        invariant 0 <= i <= |m.objects| && Later() && |sent| == |old(sent)| + i
        invariant forall k :: |old(sent)| <= k < |sent| ==> Uploads(sent[k], m.planId, m.publicationId, m.objects[k - |old(sent)|])
        invariant Undisturbed() ==> world == old(world).(objects := world.objects)
        invariant Undisturbed() && UnusedKeys(old(world), m) ==> forall j :: i <= j < |m.objects| ==> m.objects[j].key !in world.objects
        invariant forall j :: 0 <= j < i ==> Exact(world, m.planId, m.publicationId, m.objects[j])
      {
        var _ :- UploadObject(m.planId, m.publicationId, m.objects[i]);
        i := i + 1;
      }
      r := Ok(());
    }

    // The verification loop: every object is read back once more.
    method VerifyObjects(m: Manifest) returns (r: Result<(), Failure>)
      requires Valid()
      modifies this
      ensures ReadOnly()
      ensures r.Ok? ==> AllExact(world, m)
      ensures r.Err? ==> old(faults) < faults || !old(AllExact(world, m))
    {
      hide Legal, After, CollisionFree;
      var i := 0;
      while i < |m.objects|
        invariant 0 <= i <= |m.objects| && ReadOnly()
        invariant forall j :: 0 <= j < i ==> Exact(world, m.planId, m.publicationId, m.objects[j])
      {
        var _ :- Checkpoint();
        var _ :- VerifyExact(m.planId, m.publicationId, m.objects[i]);
        i := i + 1;
      }
      r := Ok(());
    }

    /** The upload loop and the verification loop of `_stage_and_commit_candidate`. */
    method StageObjects(m: Manifest) returns (r: Result<(), Failure>)
      requires Valid()
      modifies this
      ensures Later() && |sent| <= |old(sent)| + |m.objects|
      ensures forall k :: |old(sent)| <= k < |sent| ==> Uploads(sent[k], m.planId, m.publicationId, m.objects[k - |old(sent)|])
      ensures r.Ok? ==> AllExact(world, m)
      ensures r.Err? ==> old(faults) < faults || (r.error == Conflict && !AllExact(world, m))
      ensures Undisturbed() ==> world == old(world).(objects := world.objects)
      ensures Undisturbed() && UnusedKeys(old(world), m) ==> r.Ok?
    {
      hide Legal, After, CollisionFree, AllExact, Uploads;
      var _ :- UploadObjects(m);
      r := VerifyObjects(m);
    }

    /** `_put_manifest_exact` with its reconciling reads. */
    method PutManifestExact(m: Manifest) returns (r: Result<(), Failure>)
      requires Valid() && Grounded(dataset, world, m)
      modifies this
      ensures Later() && sent == old(sent) + [PutManifest(m)]
      ensures r.Ok? ==> ManifestName(dataset, m) in world.manifests && world.manifests[ManifestName(dataset, m)] == Text(m)
      ensures r.Err? ==> old(faults) < faults || (r.error == Conflict && ManifestName(dataset, m) in world.manifests)
      ensures Undisturbed() ==> world.pointer == old(world.pointer)
      ensures Undisturbed() && ManifestName(dataset, m) !in old(world.manifests) ==> r.Ok?
    {
      hide Grounded, Legal, After, CollisionFree;
      var reply := Send(PutManifest(m));
      if reply.Refused? {
        var precondition: bool := *;
        if !precondition {
          faults := faults + 1;
          return Err(Ambiguous);
        }
      }
      var seen := ReadControl(ManifestName(dataset, m));
      if seen == Err(Ambiguous) || seen == Err(Missing) {
        seen := ReadControl(ManifestName(dataset, m));
      }
      var body :- seen;
      if body != Text(m) { return Err(Conflict); }
      return Ok(());
    }

    /** `_put_pointer_exact` with its reconciling reads. */
    method PutPointerExact(c: Commit) returns (r: Result<(), Failure>)
      requires Valid() && Justified(dataset, world, MovePointer(c))
      modifies this
      ensures Later() && sent == old(sent) + [MovePointer(c)]
      ensures r.Ok? ==> world.pointer == Some(c.after)
      ensures r.Err? ==> old(faults) < faults || (r.error == Conflict && !ReadsBack(world, c))
      ensures Undisturbed() ==> (r.Ok? <==> old(world.pointer) == c.before || old(world.pointer) == Some(c.after))
    {
      hide Justified, Legal, After, CollisionFree;
      var reply := Send(MovePointer(c));
      if reply.Refused? {
        var precondition: bool := *;
        if !precondition {
          faults := faults + 1;
          return Err(Ambiguous);
        }
      }
      var seen := ReadPointer();
      if seen.Err? || seen.value == None {
        seen := ReadPointer();
      }
      var pointer :- seen;
      if pointer != Some(c.after) { return Err(Conflict); }
      return Ok(());
    }

    // The manifest is written, read back and compared with the plan.
    method PublishManifest(plan: Plan, m: Manifest) returns (r: Result<Digest, Failure>)
      requires Valid() && Grounded(dataset, world, m)
      modifies this
      ensures Later() && sent == old(sent) + [PutManifest(m)]
      ensures r.Ok? ==> && r.value == dataset.sha256(Text(m)) && ForPlan(dataset, m, plan)
                        && HasManifest(dataset, world, r.value) && ManifestOf(dataset, world, r.value) == m
      ensures r.Err? ==> old(faults) < faults || r.error == Conflict || (r.error == Mismatch && !ForPlan(dataset, m, plan))
      ensures Undisturbed() ==> world.pointer == old(world.pointer)
      ensures Undisturbed() && ManifestName(dataset, m) !in old(world.manifests) && ForPlan(dataset, m, plan) ==> r.Ok?
    {
      hide Legal, After, Grounded, CollisionFree, ForPlan;
      var _ :- PutManifestExact(m);
      var digest := dataset.sha256(Text(m));
      var reread :- ReadManifest(digest);
      if !ForPlan(dataset, reread, plan) { return Err(Mismatch); }
      return Ok(digest);
    }

    /** The second half of `_stage_and_commit_candidate`: the manifest, then the pointer. */
    method CommitManifest(plan: Plan, m: Manifest) returns (r: Result<Digest, Failure>)
      requires Valid() && Grounded(dataset, world, m)
      modifies this
      ensures Later() && |sent| <= |old(sent)| + 2
      ensures |sent| > |old(sent)| ==> sent[|old(sent)|] == PutManifest(m)
      ensures |sent| > |old(sent)| + 1 ==> sent[|old(sent)| + 1] == MovePointer(Commit(true, m.previous, dataset.sha256(Text(m))))
      ensures r.Ok? ==> && HasManifest(dataset, world, r.value) && ManifestOf(dataset, world, r.value) == m
                        && world.pointer == Some(r.value) && ForPlan(dataset, m, plan)
      ensures r.Err? ==> old(faults) < faults || r.error == Conflict || (r.error == Mismatch && !ForPlan(dataset, m, plan))
      ensures Undisturbed() && ManifestName(dataset, m) !in old(world.manifests) && ForPlan(dataset, m, plan) && old(world.pointer) == m.previous ==>
                r.Ok?
    {
      hide Legal, After, Grounded, CollisionFree, ForPlan;
      var digest :- PublishManifest(plan, m);
      var _ :- Checkpoint();
      var _ :- PutPointerExact(Commit(true, m.previous, digest));
      return Ok(digest);
    }

    /** `_stage_and_commit_candidate`, from the pointer state that the caller read. */
    method StageAndCommit(plan: Plan, publicationId: string, files: seq<Output>, active: Option<Digest>) returns (r: Result<Digest, Failure>)
      requires Valid() && (active.Some? ==> HasManifest(dataset, world, active.value) && WasActive(world, active.value))
      modifies this
      ensures Later()
      ensures forall k :: |old(sent)| <= k < |sent| ==> OwnRequest(sent[k], plan.planId, publicationId, active)
      ensures r.Ok? ==> && HasManifest(dataset, world, r.value) && world.pointer == Some(r.value)
                        && ForPlan(dataset, ManifestOf(dataset, world, r.value), plan)
                        && ManifestOf(dataset, world, r.value).publicationId == publicationId
                        && ManifestOf(dataset, world, r.value).previous == active
                        && AllExact(world, ManifestOf(dataset, world, r.value))
                        && world.commits != [] && world.commits[|world.commits| - 1].after == r.value
      ensures r.Err? ==> || old(faults) < faults || r.error == Conflict || (r.error == Mismatch && files != plan.outputs)
                         || (r.error == Invalid && !ValidOutputs(plan))
      ensures Undisturbed() && old(world.pointer) == active && Unused(old(world), plan, publicationId, active) ==>
                (r.Ok? <==> files == plan.outputs && ValidOutputs(plan))
    {
      hide Legal, After, Grounded, AllExact, Sound, CollisionFree, ForPlan, UnusedKeys, Unused, OwnRequest;
      if files != plan.outputs { return Err(Mismatch); }
      var publishedAt: int := *;
      var m := BuildManifest(dataset, plan, publicationId, publishedAt, active);
      BuiltForPlan(dataset, plan, publicationId, publishedAt, active);
      if ValidOutputs(plan) && Unused(world, plan, publicationId, active) { UnusedBuild(world, plan, publicationId, publishedAt, active); }
      r := StageAndCommitManifest(plan, m);
      if r.Ok? {
        SoundNow();
        StoredIsGrounded(dataset, world, r.value);
        GroundedIsExact(ManifestOf(dataset, world, r.value));
      }
    }

    // The same for a manifest that is already built.
    method StageAndCommitManifest(plan: Plan, m: Manifest) returns (r: Result<Digest, Failure>)
      requires Valid() && SelfConsistent(dataset, m)
      requires m.previous.Some? ==> HasManifest(dataset, world, m.previous.value) && WasActive(world, m.previous.value)
      modifies this
      ensures Later()
      ensures forall k :: |old(sent)| <= k < |sent| ==> OwnRequest(sent[k], m.planId, m.publicationId, m.previous)
      ensures r.Ok? ==> && HasManifest(dataset, world, r.value) && ManifestOf(dataset, world, r.value) == m
                        && world.pointer == Some(r.value) && ForPlan(dataset, m, plan) && ValidOutputs(plan)
      ensures r.Err? ==> || old(faults) < faults || r.error == Conflict || (r.error == Mismatch && !ForPlan(dataset, m, plan))
                         || (r.error == Invalid && !ValidOutputs(plan))
      ensures (&& Undisturbed() && UnusedKeys(old(world), m) && ManifestName(dataset, m) !in old(world.manifests)
               && old(world.pointer) == m.previous && ForPlan(dataset, m, plan)) ==>
                (r.Ok? <==> ValidOutputs(plan))
    {
      hide Legal, After, Grounded, CollisionFree, ForPlan, UnusedKeys, SelfConsistent, Uploads, OwnRequest, HasManifest;
      var staged := StageCandidate(plan, m);
      OwnUploads(|old(sent)|, sent, m);
      var _ :- staged;
      ghost var n := |sent|;
      r := CommitManifest(plan, m);
      OwnCommits(n, sent, m);
    }

    lemma OwnUploads(n: nat, requests: seq<Action>, m: Manifest)
      requires n <= |requests| <= n + |m.objects| && SelfConsistent(dataset, m)
      requires forall k :: n <= k < |requests| ==> Uploads(requests[k], m.planId, m.publicationId, m.objects[k - n])
      ensures forall k :: n <= k < |requests| ==> OwnRequest(requests[k], m.planId, m.publicationId, m.previous)
    {
    }

    lemma OwnCommits(n: nat, requests: seq<Action>, m: Manifest)
      requires n <= |requests| <= n + 2
      requires |requests| > n ==> requests[n] == PutManifest(m)
      requires |requests| > n + 1 ==> requests[n + 1] == MovePointer(Commit(true, m.previous, dataset.sha256(Text(m))))
      ensures forall k :: n <= k < |requests| ==> OwnRequest(requests[k], m.planId, m.publicationId, m.previous)
    {
    }

    lemma GroundedIsExact(m: Manifest)
      requires Grounded(dataset, world, m)
      ensures AllExact(world, m)
    {
    }

    // All objects are staged, and the outputs make a valid manifest.
    method StageCandidate(plan: Plan, m: Manifest) returns (r: Result<(), Failure>)
      requires Valid() && SelfConsistent(dataset, m)
      requires m.previous.Some? ==> HasManifest(dataset, world, m.previous.value) && WasActive(world, m.previous.value)
      modifies this
      ensures Later() && |sent| <= |old(sent)| + |m.objects|
      ensures forall k :: |old(sent)| <= k < |sent| ==> Uploads(sent[k], m.planId, m.publicationId, m.objects[k - |old(sent)|])
      ensures r.Ok? ==> Grounded(dataset, world, m) && ValidOutputs(plan)
      ensures r.Err? ==> old(faults) < faults || r.error == Conflict || (r.error == Invalid && !ValidOutputs(plan))
      ensures Undisturbed() ==> world == old(world).(objects := world.objects)
      ensures Undisturbed() && UnusedKeys(old(world), m) ==> (r.Ok? <==> ValidOutputs(plan))
    {
      hide Legal, After, AllExact, CollisionFree, Uploads, UnusedKeys, SelfConsistent;
      var _ :- StageObjects(m);
      assert Justified(dataset, world, PutManifest(m));
      ghost var staged := world;
      var _ :- Checkpoint();
      if !ValidOutputs(plan) { return Err(Invalid); }
      JustificationKept(dataset, staged, world, PutManifest(m));
      return Ok(());
    }

    // The pointer read at the start of a publish.
    method ReadActive() returns (r: Result<Option<Digest>, Failure>)
      requires Valid()
      modifies this
      ensures ReadOnly()
      ensures r.Ok? ==> && r.value == world.pointer && (old(world.pointer).Some? ==> r.value.Some?)
                        && (r.value.Some? ==> HasManifest(dataset, world, r.value.value) && WasActive(world, r.value.value))
      ensures r.Err? ==> old(faults) < faults
    {
      hide Legal, After, CollisionFree;
      SoundNow();
      var _ :- Checkpoint();
      r := ReadPointer();
      SoundNow();
    }

    /** `_publish_candidate`: a dataset that already has a pointer is only verified unless a
        refresh is asked for. */
    method PublishCandidate(plan: Plan, publicationId: string, files: seq<Output>, refresh: bool)
      returns (r: Result<Digest, Failure>, ghost active: Option<Digest>)
      requires Valid()
      modifies this
      ensures Later()
      ensures forall k :: |old(sent)| <= k < |sent| ==> OwnRequest(sent[k], plan.planId, publicationId, active)
      ensures active.Some? && !refresh ==> sent == old(sent)
      ensures old(world.pointer).Some? && !refresh ==> sent == old(sent)
      ensures r.Ok? ==> HasManifest(dataset, world, r.value) && ForPlan(dataset, ManifestOf(dataset, world, r.value), plan)
                        && AllExact(world, ManifestOf(dataset, world, r.value))
      ensures r.Ok? && refresh ==> world.pointer == Some(r.value) && ManifestOf(dataset, world, r.value).publicationId == publicationId
      ensures r.Err? ==> old(faults) < faults || r.error in {Conflict, Mismatch, Invalid}
      ensures (&& Undisturbed() && (refresh || old(world.pointer) == None)
               && (|| Unused(old(world), plan, publicationId, old(world.pointer))
                   || (WellFormedIds(plan.planId, publicationId) && Fresh(old(run), publicationId)))) ==>
                (r.Ok? <==> files == plan.outputs && ValidOutputs(plan))
    {
      hide Legal, After, AllExact, ForPlan, CollisionFree, Sound, OwnRequest, Unused, ValidOutputs, Fresh, WellFormedIds;
      active := None;
      if WellFormedIds(plan.planId, publicationId) && Fresh(run, publicationId) {
        FreshIdIsUnused(run, plan, publicationId, world.pointer);
      }
      var read := ReadActive();
      if read.Err? { return Err(read.error), active; }
      active := read.value;
      if read.value.Some? && !refresh {
        r := VerifyExisting(plan, read.value.value);
        return;
      }
      r := StageAndCommit(plan, publicationId, files, read.value);
    }

    // The active manifest is only verified.
    method VerifyExisting(plan: Plan, d: Digest) returns (r: Result<Digest, Failure>)
      requires Valid() && HasManifest(dataset, world, d)
      modifies this
      ensures ReadOnly()
      ensures r.Ok? ==> && r.value == d && HasManifest(dataset, world, d) && ForPlan(dataset, ManifestOf(dataset, world, d), plan)
                        && AllExact(world, ManifestOf(dataset, world, d))
      ensures r.Err? ==> old(faults) < faults || r.error == Mismatch
    {
      hide Legal, After, ForPlan, CollisionFree, Sound, Grounded;
      var _ :- ResolveManifest(plan, d);
      SoundNow();
      StoredIsGrounded(dataset, world, d);
      GroundedIsExact(ManifestOf(dataset, world, d));
      return Ok(d);
    }

    /******* Resolve and roll back *******/

    /** `_resolve_manifest_with_document`: on a manifest stored for this plan it can fail only
        because a read went unanswered. */
    method ResolveManifest(plan: Plan, d: Digest) returns (r: Result<Manifest, Failure>)
      requires Valid()
      modifies this
      ensures ReadOnly()
      ensures r.Ok? ==> HasManifest(dataset, world, d) && r.value == ManifestOf(dataset, world, d) && ForPlan(dataset, r.value, plan)
      ensures HasManifest(dataset, old(world), d) ==>
                r.Ok? || r == Err(Ambiguous) || (r == Err(Mismatch) && !ForPlan(dataset, ManifestOf(dataset, old(world), d), plan))
      ensures r.Err? ==> r.error in {Ambiguous, Missing, Mismatch}
      ensures r == Err(Ambiguous) ==> old(faults) < faults
      ensures old(faults) == faults && HasManifest(dataset, old(world), d) ==>
                (r.Ok? <==> ForPlan(dataset, ManifestOf(dataset, old(world), d), plan))
    {
      hide Legal, After, ForPlan;
      var m :- ReadManifest(d);
      if !ForPlan(dataset, m, plan) { return Err(Mismatch); }
      SoundNow();
      StoredIsGrounded(dataset, world, d);
      var i := 0;
      while i < |m.objects|
        invariant 0 <= i <= |m.objects| && ReadOnly() && HasManifest(dataset, world, d) && ManifestOf(dataset, world, d) == m
        invariant forall j :: 0 <= j < |m.objects| ==> Exact(world, m.planId, m.publicationId, m.objects[j])
      {
        assert Exact(world, m.planId, m.publicationId, m.objects[i]);
        var seen :- GetObject(m.objects[i].key);
        if seen.size != m.objects[i].size || seen.sha256 != m.objects[i].sha256 { return Err(Mismatch); }
        i := i + 1;
      }
      return Ok(m);
    }

    /** `resolve_active_dataset`: a reader never sees a broken dataset, only a missing pointer,
        a manifest of another plan, or an unanswered read. */
    method ResolveActive(plan: Plan) returns (r: Result<Manifest, Failure>)
      requires Valid()
      modifies this
      ensures ReadOnly()
      ensures r.Ok? ==> ForPlan(dataset, r.value, plan) && AllExact(world, r.value)
      ensures old(world.pointer).Some? ==> r != Err(Missing)
      ensures r.Err? ==> old(faults) < faults || r.error == Missing || (r.error == Mismatch && world.pointer.Some?)
      ensures Undisturbed() ==>
                (r.Ok? <==> && world.pointer.Some? && HasManifest(dataset, world, world.pointer.value)
                            && ForPlan(dataset, ManifestOf(dataset, world, world.pointer.value), plan))
    {
      hide Legal, After, ForPlan, Exact, CollisionFree, Sound;
      SoundNow();
      var active :- ReadPointer();
      SoundNow();
      if active == None { return Err(Missing); }
      r := ResolveManifest(plan, active.value);
      SoundNow();
      if r.Ok? {
        StoredIsGrounded(dataset, world, active.value);
      }
    }

    /** `_rollback_transaction`: no lease, only the compare-and-swap. */
    method Rollback(plan: Plan, target: Digest) returns (r: Result<(), Failure>)
      requires Valid()
      modifies this
      ensures Later() && |sent| <= |old(sent)| + 1
      ensures |sent| > |old(sent)| ==> sent[|old(sent)|].MovePointer? && sent[|old(sent)|].commit.after == target
                                       && !sent[|old(sent)|].commit.publish && sent[|old(sent)|].commit.before.Some?
      ensures r.Ok? ==> world.pointer == Some(target) && HasManifest(dataset, world, target)
                        && ForPlan(dataset, ManifestOf(dataset, world, target), plan)
                        && AllExact(world, ManifestOf(dataset, world, target))
      ensures r.Err? ==> old(faults) < faults || r.error in {Missing, Mismatch, Conflict}
      ensures Undisturbed() ==>
                (r.Ok? <==> && old(world.pointer).Some? && HasManifest(dataset, old(world), target)
                            && ForPlan(dataset, ManifestOf(dataset, old(world), target), plan))
    {
      hide Legal, After, AllExact, Grounded, ForPlan, CollisionFree, Sound;
      var current :- CheckRollback(plan, target);
      var _ :- PutPointerExact(Commit(false, Some(current), target));
      SoundNow();
      StoredIsGrounded(dataset, world, target);
      GroundedIsExact(ManifestOf(dataset, world, target));
      return Ok(());
    }

    // The reads before the swap: the pointer with its manifest, and the target with its objects.
    method CheckRollback(plan: Plan, target: Digest) returns (r: Result<Digest, Failure>)
      requires Valid()
      modifies this
      ensures ReadOnly()
      ensures r.Ok? ==> HasManifest(dataset, world, target) && ForPlan(dataset, ManifestOf(dataset, world, target), plan)
      ensures r.Err? ==> old(faults) < faults || r.error in {Missing, Mismatch}
      ensures Undisturbed() ==>
                && (r.Ok? ==> world.pointer == Some(r.value))
                && (r.Ok? <==> && world.pointer.Some? && HasManifest(dataset, world, target)
                               && ForPlan(dataset, ManifestOf(dataset, world, target), plan))
    {
      hide Legal, After, Grounded, ForPlan, CollisionFree, Sound;
      var current :- ReadPointer();
      SoundNow();
      if current == None { return Err(Missing); }
      var previous :- ReadManifest(current.value);
      ConsistentNow(current.value);
      if !SelfConsistent(dataset, previous) { return Err(Mismatch); }
      var manifest :- ResolveManifest(plan, target);
      return Ok(current.value);
    }

    lemma ConsistentNow(d: Digest)
      requires Valid() && HasManifest(dataset, world, d)
      ensures SelfConsistent(dataset, ManifestOf(dataset, world, d))
    {
      SoundNow();
      StoredIsGrounded(dataset, world, d);
    }

    /******* History *******/

    // The manifest is the one stored under that digest.
    predicate Read(h: Historical)
      reads this
    {
      HasManifest(dataset, world, h.digest) && ManifestOf(dataset, world, h.digest) == h.manifest
    }

    // The manifest has at least 1,000 ancestors.
    ghost predicate Deep(m: Manifest)
      reads this
    {
      forall chain :: IsChain(dataset, world, m.previous, chain) ==> |chain| >= MAX_HISTORY_DEPTH
    }

    // Entry `k` of an ancestor chain, read and validated.
    method ReadAncestor(d: Digest, ghost start: Option<Digest>, ghost chain: seq<Digest>, ghost k: nat) returns (r: Result<Manifest, Failure>)
      requires Valid() && IsChain(dataset, world, start, chain) && k < |chain| && chain[k] == d
      modifies this
      ensures ReadOnly() && IsChain(dataset, world, start, chain)
      ensures r.Ok? ==> Read(Historical(d, r.value)) && r.value.previous == if k + 1 < |chain| then Some(chain[k + 1]) else None
      ensures r.Err? ==> r.error == Ambiguous && old(faults) < faults
    {
      hide Legal, After, Sound, IsChain, CollisionFree;
      ghost var before := world;
      ChainSuffix(dataset, world, start, chain, k);
      var read := ReadManifest(d);
      ChainKept(dataset, before, world, start, chain);
      var manifest :- read;
      SoundNow();
      StoredIsGrounded(dataset, world, d);
      if !SelfConsistent(dataset, manifest) { return Err(Mismatch); }
      return Ok(manifest);
    }

    /** `_manifest_history`: the whole ancestor chain exactly when it has fewer than 1,000
        members; the cycle branch and the mismatch branches are never taken. */
    method ManifestHistory(current: Manifest) returns (r: Result<seq<Historical>, Failure>)
      requires Valid() && (current.previous.Some? ==> HasManifest(dataset, world, current.previous.value))
      modifies this
      ensures ReadOnly()
      ensures r.Ok? ==> IsChain(dataset, world, current.previous, Digests(r.value)) && |r.value| < MAX_HISTORY_DEPTH
      ensures r.Ok? ==> forall i :: 0 <= i < |r.value| ==> Read(r.value[i])
      ensures r.Err? ==> (r.error == Ambiguous && old(faults) < faults) || r.error == TooDeep
      ensures r == Err(TooDeep) ==> Deep(current)
      ensures old(faults) == faults ==>
                (r.Ok? <==> exists chain :: IsChain(dataset, world, current.previous, chain) && |chain| < MAX_HISTORY_DEPTH)
    {
      hide Legal, After, Sound, IsChain, CollisionFree;
      SoundNow();
      ghost var chain := StoredHasChain(dataset, world, current.previous);
      var history: seq<Historical> := [];
      var seen: set<Digest> := {};
      var digest := current.previous;
      for depth := 0 to MAX_HISTORY_DEPTH
        invariant ReadOnly() && IsChain(dataset, world, current.previous, chain)
        invariant |history| == depth <= |chain| && digest == if depth < |chain| then Some(chain[depth]) else None
        invariant forall i :: 0 <= i < depth ==> history[i].digest == chain[i]
        invariant forall i :: 0 <= i < depth ==> Read(history[i])
        invariant forall d :: d in seen ==> exists i :: 0 <= i < depth && chain[i] == d
      {
        if digest == None {
          assert Digests(history) == chain;
          return Ok(history);
        }
        forall i | 0 <= i < depth ensures chain[i] != digest.value { ChainDistinct(dataset, world, current.previous, chain, i, depth); }
        if digest.value in seen { return Err(Cycle); }
        seen := seen + {digest.value};
        var manifest :- ReadAncestor(digest.value, current.previous, chain, depth);
        history := history + [Historical(digest.value, manifest)];
        digest := manifest.previous;
      }
      forall other | IsChain(dataset, world, current.previous, other) ensures |other| >= MAX_HISTORY_DEPTH {
        ChainUnique(dataset, world, current.previous, chain, other);
      }
      return Err(TooDeep);
    }

    /******* Inventory *******/

    // `name` reads back as a self-consistent manifest stored under its own digest.
    predicate Decodable(name: Name)
      reads this
    {
      name.OfDigest? && HasManifest(dataset, world, name.digest) && SelfConsistent(dataset, ManifestOf(dataset, world, name.digest))
    }

    // `name` holds a manifest whose generation lives under `prefix`.
    predicate Uses(name: Name, prefix: string)
      reads this
    {
      name in world.manifests && world.manifests[name].Text? && world.manifests[name].manifest.prefix == prefix
    }

    // What an inventory over the listed names and generation prefixes reports.
    ghost predicate Reports(listing: set<Name>, generations: set<string>, inv: Inventory)
      reads this
    {
      && listing <= world.manifests.Keys
      && (forall n :: n in listing && !Decodable(n) ==> n in inv.ambiguous)
      && inv.ambiguous <= listing && inv.unreferenced <= listing - inv.ambiguous
      && (inv.ambiguous != {} ==> inv.candidates == {})
      && (inv.ambiguous == {} ==>
            forall p :: p in inv.candidates <==> p in generations && forall n :: n in listing ==> !Uses(n, p))
    }

    // Ambiguous are the listed names that do not decode, and no others; unreferenced are the
    // listed names that decode and are not among `claimed`, and no others.
    ghost predicate Exactly(listing: set<Name>, claimed: set<Name>, inv: Inventory)
      reads this
    {
      && (forall n :: n in inv.ambiguous <==> n in listing && !Decodable(n))
      && (forall n :: n in inv.unreferenced <==> n in listing && Decodable(n) && n !in claimed)
    }

    /** `_bounded_object_keys`: page by page, so names stored meanwhile may or may not be listed. */
    method ListManifests() returns (r: Result<set<Name>, Failure>)
      requires Valid()
      modifies this
      ensures ReadOnly()
      ensures r.Ok? ==> old(world.manifests.Keys) <= r.value <= world.manifests.Keys
      ensures r.Err? ==> old(faults) < faults
    {
      var atStart := world.manifests.Keys;
      Interfere();
      var names: set<Name> := *;
      if atStart <= names <= world.manifests.Keys { return Ok(names); }
      faults := faults + 1;
      return Err(Ambiguous);
    }

    /** The classification loop of both inventories: every listed name outside `referenced` is
        read, and a name that does not read back is ambiguous. */
    method ClassifyManifests(listing: set<Name>, referenced: set<Name>, reachable: set<string>)
      returns (unreferenced: set<Name>, ambiguous: set<Name>, prefixes: set<string>)
      requires Valid() && listing <= world.manifests.Keys
      modifies this
      ensures ReadOnly()
      ensures unreferenced + ambiguous == listing - referenced && unreferenced !! ambiguous
      ensures forall n :: n in unreferenced ==> Decodable(n)
      ensures forall p :: p in prefixes <==> p in reachable || exists n :: n in unreferenced && Uses(n, p)
      ensures old(faults) == faults ==> forall n :: n in ambiguous ==> !Decodable(n)
    {
      hide Legal, After, CollisionFree, SelfConsistent;
      unreferenced, ambiguous, prefixes := {}, {}, reachable;
      var rest := listing - referenced;
      while rest != {}
        invariant ReadOnly() && rest <= listing - referenced
        invariant unreferenced + ambiguous == listing - referenced - rest && unreferenced !! ambiguous
        invariant forall n :: n in unreferenced ==> Decodable(n)
        invariant old(faults) == faults ==> forall n :: n in ambiguous ==> !Decodable(n)
        invariant forall p :: p in prefixes <==> p in reachable || exists n :: n in unreferenced && Uses(n, p)
        decreases rest
      {
        var name :| name in rest;
        var ok, prefix := ReadPrefix(name);
        if ok {
          unreferenced, prefixes := unreferenced + {name}, prefixes + {prefix};
        } else {
          ambiguous := ambiguous + {name};
        }
        rest := rest - {name};
      }
    }

    // One read of the classification loop.
    method ReadPrefix(name: Name) returns (ok: bool, prefix: string)
      requires Valid()
      modifies this
      ensures ReadOnly()
      ensures ok ==> Decodable(name) && forall p :: Uses(name, p) <==> p == prefix
      ensures !ok ==> old(faults) < faults || !Decodable(name)
    {
      hide Legal, After, CollisionFree, SelfConsistent;
      if name.OtherName? { return false, ""; }
      var read := ReadManifest(name.digest);
      if read.Err? || !SelfConsistent(dataset, read.value) { return false, ""; }
      return true, read.value.prefix;
    }

    /** `_inactive_generation_prefixes`, over whatever prefixes the store lists. */
    method InactivePrefixes(reachable: set<string>) returns (r: Result<set<string>, Failure>, generations: set<string>)
      requires Valid()
      modifies this
      ensures ReadOnly()
      ensures r.Ok? ==> r.value == generations - reachable
      ensures r.Err? ==> old(faults) < faults
    {
      Interfere();
      generations := *;
      var answered: bool := *;
      if !answered { faults := faults + 1; }
      r := if answered then Ok(generations - reachable) else Err(Ambiguous);
    }

    /** The common end of both inventories: classify what the nodes do not cover, then compare
        with the listed generations. */
    method InventoryBeyond(nodes: seq<Historical>)
      returns (r: Result<Inventory, Failure>, ghost listing: set<Name>, generations: set<string>)
      requires Valid() && forall i :: 0 <= i < |nodes| ==> Read(nodes[i])
      modifies this
      ensures ReadOnly()
      ensures r.Ok? ==> old(world.manifests.Keys) <= listing && Reports(listing, generations, r.value) && r.value.unreferenced !! Names(nodes)
      ensures r.Err? ==> old(faults) < faults
      ensures r.Ok? && old(faults) == faults ==> Exactly(listing, Names(nodes), r.value)
    {
      hide Legal, After, CollisionFree, SelfConsistent;
      listing, generations := {}, {};
      var listed := ListManifests();
      if listed.Err? { return Err(listed.error), listing, generations; }
      listing := listed.value;
      r, generations := InventoryOf(listed.value, nodes);
    }

    // The classification of one listing that covers the nodes.
    method InventoryOf(listing: set<Name>, nodes: seq<Historical>) returns (r: Result<Inventory, Failure>, generations: set<string>)
      requires Valid() && listing <= world.manifests.Keys
      requires forall i :: 0 <= i < |nodes| ==> Read(nodes[i]) && OfDigest(nodes[i].digest) in listing
      modifies this
      ensures ReadOnly()
      ensures r.Ok? ==> Reports(listing, generations, r.value) && r.value.unreferenced !! Names(nodes)
      ensures r.Err? ==> old(faults) < faults
      ensures r.Ok? && old(faults) == faults ==> Exactly(listing, Names(nodes), r.value)
    {
      hide Legal, After, CollisionFree, SelfConsistent;
      generations := {};
      var reachable := set i | 0 <= i < |nodes| :: nodes[i].manifest.prefix;
      var referenced := Names(nodes);
      var unreferenced, ambiguous, prefixes := ClassifyManifests(listing, referenced, reachable);
      NodesDecodable(nodes);
      if ambiguous != {} { return Ok(Inventory(unreferenced, ambiguous, {})), generations; }
      PrefixesExact(listing, nodes, unreferenced, prefixes);
      r, generations := ReportCandidates(listing, unreferenced, prefixes);
    }

    // Every listed name was decodable and `prefixes` are the ones they use.
    method ReportCandidates(ghost listing: set<Name>, unreferenced: set<Name>, prefixes: set<string>)
      returns (r: Result<Inventory, Failure>, generations: set<string>)
      requires Valid() && unreferenced <= listing <= world.manifests.Keys && forall n :: n in listing ==> Decodable(n)
      requires forall p :: p in prefixes <==> exists n :: n in listing && Uses(n, p)
      modifies this
      ensures ReadOnly()
      ensures r.Ok? ==> Reports(listing, generations, r.value)
      ensures r.Err? ==> old(faults) < faults
      ensures r.Ok? ==> r.value.ambiguous == {} && r.value.unreferenced == unreferenced
    {
      hide Legal, After, CollisionFree, SelfConsistent;
      var inactive;
      inactive, generations := InactivePrefixes(prefixes);
      assert forall n :: n in listing ==> Decodable(n);
      assert forall n, p :: n in listing ==> (Uses(n, p) <==> old(Uses(n, p)));
      if inactive.Err? { return Err(inactive.error), generations; }
      r := Ok(Inventory(unreferenced, {}, inactive.value));
      assert forall p :: p in inactive.value <==> p in generations && forall n :: n in listing ==> !Uses(n, p);
    }

    lemma NodesDecodable(nodes: seq<Historical>)
      requires Valid() && forall i :: 0 <= i < |nodes| ==> Read(nodes[i])
      ensures forall i :: 0 <= i < |nodes| ==> Decodable(OfDigest(nodes[i].digest)) && OfDigest(nodes[i].digest) in world.manifests
    {
      forall i | 0 <= i < |nodes| ensures Decodable(OfDigest(nodes[i].digest)) { PreviousStored(nodes[i]); }
    }

    lemma PrefixesExact(listing: set<Name>, nodes: seq<Historical>, unreferenced: set<Name>, prefixes: set<string>)
      requires forall i :: 0 <= i < |nodes| ==> Read(nodes[i]) && OfDigest(nodes[i].digest) in listing
      requires unreferenced == listing - Names(nodes)
      requires forall p :: p in prefixes <==>
                 (exists i :: 0 <= i < |nodes| && nodes[i].manifest.prefix == p) || (exists n :: n in unreferenced && Uses(n, p))
      ensures forall p :: p in prefixes <==> exists n :: n in listing && Uses(n, p)
    {
      forall p | exists n :: n in listing && Uses(n, p) ensures p in prefixes {
        var n :| n in listing && Uses(n, p);
        if n !in unreferenced {
          var i :| 0 <= i < |nodes| && OfDigest(nodes[i].digest) == n;
          assert Read(nodes[i]);
        }
      }
      forall p | p in prefixes ensures exists n :: n in listing && Uses(n, p) {
        if i :| 0 <= i < |nodes| && nodes[i].manifest.prefix == p {
          assert Read(nodes[i]) && Uses(OfDigest(nodes[i].digest), p);
        }
      }
    }

    /** `_attach_verified_history`: the active manifest, its ancestors and any additional
        manifests with theirs need no second read, yet none of their prefixes is a candidate.
        Unreferenced is what decodes and none of them reaches. */
    method AttachVerifiedHistory(current: Historical, additional: seq<Historical>)
      returns (r: Result<Inventory, Failure>, ghost listing: set<Name>, generations: set<string>)
      requires Valid() && Read(current) && forall i :: 0 <= i < |additional| ==> Read(additional[i])
      modifies this
      ensures ReadOnly()
      ensures r.Ok? ==> old(world.manifests.Keys) <= listing && Reports(listing, generations, r.value)
      ensures r.Err? ==> || old(faults) < faults
                         || (r.error == TooDeep && (Deep(current.manifest) || exists i :: 0 <= i < |additional| && Deep(additional[i].manifest)))
      ensures r.Ok? ==> forall n :: n in r.value.unreferenced ==> Decodable(n) && !Reachable([current] + additional, n.digest)
      ensures r.Ok? && old(faults) == faults ==>
                && (forall n :: n in r.value.ambiguous <==> n in listing && !Decodable(n))
                && (forall n :: n in r.value.unreferenced <==>
                      n in listing && Decodable(n) && !Reachable([current] + additional, n.digest))
    {
      hide Legal, After, CollisionFree, SelfConsistent, IsChain, Reachable, Among;
      var roots := [current] + additional;
      var reached;
      ghost var chains;
      reached, chains := ReachedFrom(roots);
      if reached.Err? {
        DeepRoot(current, additional);
        return Err(reached.error), {}, {};
      }
      ghost var before := world;
      r, listing, generations := InventoryBeyond(reached.value);
      ChainsKept(before, roots, chains);
      ReachedExactly(roots, chains, reached.value);
    }

    lemma DeepRoot(current: Historical, additional: seq<Historical>)
      ensures (exists i :: 0 <= i < |[current] + additional| && Deep(([current] + additional)[i].manifest)) ==>
                Deep(current.manifest) || exists i :: 0 <= i < |additional| && Deep(additional[i].manifest)
    {
      hide Deep;
      if i :| 0 <= i < |[current] + additional| && Deep(([current] + additional)[i].manifest) {
        assert i > 0 ==> Deep(additional[i - 1].manifest);
      }
    }

    // One of the roots, or an ancestor of one.
    ghost predicate Reachable(roots: seq<Historical>, d: Digest)
      reads this
    {
      exists i :: 0 <= i < |roots| && (roots[i].digest == d || IsAncestor(roots[i].manifest, d))
    }

    ghost predicate IsAncestor(m: Manifest, d: Digest)
      reads this
    {
      exists chain :: IsChain(dataset, world, m.previous, chain) && d in chain
    }

    ghost predicate ChainsOf(roots: seq<Historical>, chains: seq<seq<Digest>>, w: World)
    {
      |chains| == |roots| && forall i :: 0 <= i < |roots| ==> IsChain(dataset, w, roots[i].manifest.previous, chains[i])
    }

    // One of the roots, or a member of one of the chains.
    predicate Among(roots: seq<Historical>, chains: seq<seq<Digest>>, d: Digest)
      requires |chains| == |roots|
    {
      exists i :: 0 <= i < |roots| && (roots[i].digest == d || d in chains[i])
    }

    lemma ChainsKept(before: World, roots: seq<Historical>, chains: seq<seq<Digest>>)
      requires Grows(before, world) && ChainsOf(roots, chains, before)
      ensures ChainsOf(roots, chains, world)
    {
      hide IsChain;
      forall i | 0 <= i < |roots| ensures IsChain(dataset, world, roots[i].manifest.previous, chains[i]) {
        ChainKept(dataset, before, world, roots[i].manifest.previous, chains[i]);
      }
    }

    lemma ChainDecides(m: Manifest, chain: seq<Digest>, d: Digest)
      requires IsChain(dataset, world, m.previous, chain)
      ensures IsAncestor(m, d) <==> d in chain
    {
      hide IsChain;
      forall other | IsChain(dataset, world, m.previous, other) ensures other == chain {
        ChainUnique(dataset, world, m.previous, other, chain);
      }
    }

    // The nodes are exactly what the roots reach.
    lemma ReachedExactly(roots: seq<Historical>, chains: seq<seq<Digest>>, nodes: seq<Historical>)
      requires ChainsOf(roots, chains, world) && forall d :: d in Digests(nodes) <==> Among(roots, chains, d)
      ensures forall n: Name :: n in Names(nodes) <==> n.OfDigest? && Reachable(roots, n.digest)
    {
      hide IsChain, IsAncestor;
      forall n: Name ensures n in Names(nodes) <==> n.OfDigest? && Reachable(roots, n.digest) {
        NamesAreDigests(nodes, n);
        if n.OfDigest? {
          forall i | 0 <= i < |roots| ensures IsAncestor(roots[i].manifest, n.digest) <==> n.digest in chains[i] {
            ChainDecides(roots[i].manifest, chains[i], n.digest);
          }
        }
      }
    }

    lemma NamesAreDigests(nodes: seq<Historical>, n: Name)
      ensures n in Names(nodes) <==> n.OfDigest? && n.digest in Digests(nodes)
    {
      if n.OfDigest? && n.digest in Digests(nodes) {
        var i :| 0 <= i < |nodes| && Digests(nodes)[i] == n.digest;
        assert OfDigest(nodes[i].digest) in Names(nodes);
      }
      if n in Names(nodes) {
        var i :| 0 <= i < |nodes| && OfDigest(nodes[i].digest) == n;
        assert Digests(nodes)[i] == n.digest;
      }
    }

    // The reachable nodes: every root, followed by its ancestors.
    method ReachedFrom(roots: seq<Historical>) returns (r: Result<seq<Historical>, Failure>, ghost chains: seq<seq<Digest>>)
      requires Valid() && forall i :: 0 <= i < |roots| ==> Read(roots[i])
      modifies this
      ensures ReadOnly()
      ensures r.Ok? ==> forall i :: 0 <= i < |r.value| ==> Read(r.value[i])
      ensures r.Ok? ==> ChainsOf(roots, chains, world) && forall d :: d in Digests(r.value) <==> Among(roots, chains, d)
      ensures r.Err? ==> || old(faults) < faults
                         || (r.error == TooDeep && exists i :: 0 <= i < |roots| && Deep(roots[i].manifest))
    {
      hide Legal, After, CollisionFree, IsChain, SelfConsistent, Among, Digests;
      var nodes: seq<Historical> := [];
      chains := [];
      NothingAmong();
      for i := 0 to |roots|
        invariant ReadOnly() && forall k :: 0 <= k < |nodes| ==> Read(nodes[k])
        invariant forall k :: 0 <= k < |roots| ==> Read(roots[k])
        invariant ChainsOf(roots[..i], chains, world) && forall d :: d in Digests(nodes) <==> Among(roots[..i], chains, d)
      {
        PreviousStored(roots[i]);
        ghost var before := world;
        var more := ManifestHistory(roots[i].manifest);
        if more.Err? { return Err(more.error), chains; }
        ChainsKept(before, roots[..i], chains);
        OneMore(roots, chains, i, nodes, more.value);
        chains := chains + [Digests(more.value)];
        nodes := nodes + [roots[i]] + more.value;
      }
      assert roots[..|roots|] == roots;
      return Ok(nodes), chains;
    }

    lemma NothingAmong()
      ensures forall d :: d in Digests([]) <==> Among([], [], d)
    {
    }

    lemma OneMore(roots: seq<Historical>, chains: seq<seq<Digest>>, i: nat, nodes: seq<Historical>, more: seq<Historical>)
      requires i < |roots| && ChainsOf(roots[..i], chains, world)
      requires IsChain(dataset, world, roots[i].manifest.previous, Digests(more))
      requires forall d :: d in Digests(nodes) <==> Among(roots[..i], chains, d)
      ensures var longer := chains + [Digests(more)];
              && ChainsOf(roots[..i + 1], longer, world)
              && forall d :: d in Digests(nodes + [roots[i]] + more) <==> Among(roots[..i + 1], longer, d)
    {
      hide IsChain;
      var longer := chains + [Digests(more)];
      assert Digests(nodes + [roots[i]] + more) == Digests(nodes) + [roots[i].digest] + Digests(more);
      forall k | 0 <= k <= i ensures IsChain(dataset, world, roots[..i + 1][k].manifest.previous, longer[k]) {
        assert k < i ==> roots[..i + 1][k] == roots[..i][k] && longer[k] == chains[k];
      }
      forall d ensures Among(roots[..i + 1], longer, d) <==> Among(roots[..i], chains, d) || d == roots[i].digest || d in Digests(more) {
        AmongLast(roots[..i + 1], longer, d);
        assert roots[..i + 1][..i] == roots[..i] && longer[..i] == chains;
      }
    }

    lemma AmongLast(roots: seq<Historical>, chains: seq<seq<Digest>>, d: Digest)
      requires |chains| == |roots| && roots != []
      ensures var n := |roots| - 1;
              Among(roots, chains, d) <==> Among(roots[..n], chains[..n], d) || d == roots[n].digest || d in chains[n]
    {
      var n := |roots| - 1;
      if Among(roots, chains, d) {
        var k :| 0 <= k <= n && (roots[k].digest == d || d in chains[k]);
        assert k < n ==> roots[..n][k] == roots[k] && chains[..n][k] == chains[k];
      }
      if Among(roots[..n], chains[..n], d) {
        var k :| 0 <= k < n && (roots[..n][k].digest == d || d in chains[..n][k]);
        assert roots[k].digest == d || d in chains[k];
      }
      if d == roots[n].digest || d in chains[n] {
        assert Among(roots, chains, d);
      }
    }

    /** `_attach_inventory_without_active`. */
    method AttachInventoryWithoutActive() returns (r: Result<Inventory, Failure>, ghost listing: set<Name>, generations: set<string>)
      requires Valid()
      modifies this
      ensures ReadOnly()
      ensures r.Ok? ==> old(world.manifests.Keys) <= listing && Reports(listing, generations, r.value)
      ensures r.Err? ==> old(faults) < faults
      ensures r.Ok? && old(faults) == faults ==>
                && (forall n :: n in r.value.ambiguous <==> n in listing && !Decodable(n))
                && (forall n :: n in r.value.unreferenced <==> n in listing && Decodable(n))
    {
      r, listing, generations := InventoryBeyond([]);
    }

    lemma PreviousStored(h: Historical)
      requires Valid() && Read(h)
      ensures h.manifest.previous.Some? ==> HasManifest(dataset, world, h.manifest.previous.value)
      ensures SelfConsistent(dataset, h.manifest)
    {
      SoundNow();
      StoredIsGrounded(dataset, world, h.digest);
    }

    lemma SoundNow()
      requires Valid()
      ensures Sound(dataset, world)
      ensures world.pointer.Some? ==> HasManifest(dataset, world, world.pointer.value)
      ensures world.pointer == None <==> world.commits == []
      ensures world.pointer.Some? ==> world.pointer == Some(world.commits[|world.commits| - 1].after) && WasActive(world, world.pointer.value)
    {
      hide HasManifest, Legal, After, CreatedOk, CommitOk, AllCreated;
      EveryRunIsSound(dataset, run);
      if world.pointer.Some? { PointerIsSafe(dataset, run); }
    }
  }
}
