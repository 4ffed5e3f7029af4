/** Dataset publication (datasets/publication.py) seen as a run of writes to one bucket.

    A world holds the immutable data objects, the objects stored under the manifest prefix,
    and the active pointer of one dataset.  Every write that takes effect, by any client and
    at any time, is an `Action` with the condition under which it can take effect. */
module PublicationHistory {
  import opened Options

  // A SHA-256 value.
  datatype Digest = Digest(value: nat)

  datatype Metadata = Metadata(objectName: string, planId: string, publicationId: string, sha256: string, sizeBytes: int)

  // What a full GET of a data object establishes.
  datatype StoredObject = StoredObject(size: int, sha256: string, metadata: Metadata)

  datatype ManifestObject = ManifestObject(name: string, key: string, size: int, sha256: string)

  /** The previous key is left out: it is a function of the previous digest. */
  datatype Manifest = Manifest(scale: string, planId: string, publicationId: string, prefix: string,
                               objects: seq<ManifestObject>, publishedAt: int, previous: Option<Digest>)

  // An object under the manifest prefix: a canonical manifest, or anything else.
  datatype Body = Text(manifest: Manifest) | Garbage(bytes: string)

  // Its name there: a digest, or anything else.
  datatype Name = OfDigest(digest: Digest) | OtherName(name: string)

  /** One dataset: how bodies are hashed, and its landing prefix. */
  datatype Dataset = Dataset(sha256: Body -> Digest, landing: string)

  ghost predicate CollisionFree(ds: Dataset)
  {
    forall a: Body, b: Body :: ds.sha256(a) == ds.sha256(b) ==> a == b
  }

  // One effective pointer write.
  datatype Commit = Commit(publish: bool, before: Option<Digest>, after: Digest)

  datatype World = World(objects: map<string, StoredObject>, manifests: map<Name, Body>,
                         created: seq<Manifest>, pointer: Option<Digest>, commits: seq<Commit>)

  const EMPTY := World(map[], map[], [], None, [])

  /******* Stored manifests *******/

  function ManifestName(ds: Dataset, m: Manifest): Name
  {
    OfDigest(ds.sha256(Text(m)))
  }

  function PhysicalPrefix(ds: Dataset, planId: string, publicationId: string): string
  {
    ds.landing + "/_generations/" + planId + "/" + publicationId
  }

  function ObjectKey(ds: Dataset, planId: string, publicationId: string, name: string): string
  {
    PhysicalPrefix(ds, planId, publicationId) + "/" + name
  }

  // A plan identifier is a hexadecimal SHA-256, a publication identifier a hexadecimal UUID.
  const PLAN_ID_LENGTH := 64
  const PUBLICATION_ID_LENGTH := 32

  predicate WellFormedIds(planId: string, publicationId: string)
  {
    |planId| == PLAN_ID_LENGTH && |publicationId| == PUBLICATION_ID_LENGTH
  }

  /** Publications never share a key: a key names its plan, its publication and its object. */
  lemma KeysInjective(ds: Dataset, planA: string, idA: string, nameA: string, planB: string, idB: string, nameB: string)
    requires |planA| == |planB| && |idA| == |idB|
    requires ObjectKey(ds, planA, idA, nameA) == ObjectKey(ds, planB, idB, nameB)
    ensures planA == planB && idA == idB && nameA == nameB
  {
    var n := |ds.landing + "/_generations/"|;
    var a, b := ObjectKey(ds, planA, idA, nameA), ObjectKey(ds, planB, idB, nameB);
    assert a[n..n + |planA|] == planA && b[n..n + |planA|] == planB;
    var m := n + |planA| + 1;
    assert a[m..m + |idA|] == idA && b[m..m + |idA|] == idB;
    assert a[m + |idA| + 1..] == nameA && b[m + |idA| + 1..] == nameB;
  }

  /** `_validate_historical_manifest`. */
  predicate SelfConsistent(ds: Dataset, m: Manifest)
  {
    && m.prefix == PhysicalPrefix(ds, m.planId, m.publicationId)
    && forall i :: 0 <= i < |m.objects| ==> m.objects[i].key == m.prefix + "/" + m.objects[i].name
  }

  // A manifest stored under its own digest.
  predicate HasManifest(ds: Dataset, w: World, d: Digest)
  {
    OfDigest(d) in w.manifests && w.manifests[OfDigest(d)].Text? && ds.sha256(w.manifests[OfDigest(d)]) == d
  }

  function ManifestOf(ds: Dataset, w: World, d: Digest): Manifest
    requires HasManifest(ds, w, d)
  {
    w.manifests[OfDigest(d)].manifest
  }

  function MetadataFor(planId: string, publicationId: string, o: ManifestObject): Metadata
  {
    Metadata(o.name, planId, publicationId, o.sha256, o.size)
  }

  // The object exists with exactly the locked size, hash and metadata.
  predicate Exact(w: World, planId: string, publicationId: string, o: ManifestObject)
  {
    o.key in w.objects && w.objects[o.key] == StoredObject(o.size, o.sha256, MetadataFor(planId, publicationId, o))
  }

  predicate AllExact(w: World, m: Manifest)
  {
    forall i :: 0 <= i < |m.objects| ==> Exact(w, m.planId, m.publicationId, m.objects[i])
  }

  // Some pointer write made this manifest active.
  predicate WasActive(w: World, d: Digest)
  {
    exists i :: 0 <= i < |w.commits| && w.commits[i].after == d
  }

  /** A manifest is complete, and its link names a manifest that was read from the pointer. */
  predicate Grounded(ds: Dataset, w: World, m: Manifest)
  {
    && SelfConsistent(ds, m)
    && AllExact(w, m)
    && (m.previous.Some? ==> HasManifest(ds, w, m.previous.value) && WasActive(w, m.previous.value))
  }

  /******* Runs *******/

  datatype Action =
    | PutObject(key: string, stored: StoredObject)   // If-None-Match: *
    | PutManifest(manifest: Manifest)                // If-None-Match: *
    | PutStray(name: Name, body: Body)               // anything that is not a manifest under its own digest
    | MovePointer(commit: Commit)                    // If-Match on the pointer read, or If-None-Match: *

  // What a writer has established before it sends the request.
  predicate Justified(ds: Dataset, w: World, a: Action)
  {
    match a
    case PutObject(_, _) => true
    case PutManifest(m) => Grounded(ds, w, m)
    case PutStray(n, b) => !(b.Text? && n == OfDigest(ds.sha256(b)))
    case MovePointer(c) =>
      && HasManifest(ds, w, c.after)
      && (if c.publish then ManifestOf(ds, w, c.after).previous == c.before else c.before.Some?)
  }

  // What the store compares when the request arrives.
  predicate Matches(ds: Dataset, w: World, a: Action)
  {
    match a
    case PutObject(k, _) => k !in w.objects
    case PutManifest(m) => ManifestName(ds, m) !in w.manifests
    case PutStray(n, _) => n !in w.manifests
    case MovePointer(c) => w.pointer == c.before
  }

  // What a write that took effect left behind.
  predicate Landed(ds: Dataset, w: World, a: Action)
  {
    match a
    case PutObject(k, s) => k in w.objects && w.objects[k] == s
    case PutManifest(m) => ManifestName(ds, m) in w.manifests && w.manifests[ManifestName(ds, m)] == Text(m)
    case PutStray(n, b) => n in w.manifests && w.manifests[n] == b
    case MovePointer(c) => w.pointer == Some(c.after)
  }

  function Apply(ds: Dataset, w: World, a: Action): World
  {
    match a
    case PutObject(k, s) => w.(objects := w.objects[k := s])
    case PutManifest(m) => w.(manifests := w.manifests[ManifestName(ds, m) := Text(m)], created := w.created + [m])
    case PutStray(n, b) => w.(manifests := w.manifests[n := b])
    case MovePointer(c) => w.(pointer := Some(c.after), commits := w.commits + [c])
  }

  ghost function After(ds: Dataset, run: seq<Action>): World
  {
    if run == [] then EMPTY else Apply(ds, After(ds, run[..|run| - 1]), run[|run| - 1])
  }

  ghost predicate Legal(ds: Dataset, run: seq<Action>)
  {
    run != [] ==>
      && Legal(ds, run[..|run| - 1])
      && Justified(ds, After(ds, run[..|run| - 1]), run[|run| - 1])
      && Matches(ds, After(ds, run[..|run| - 1]), run[|run| - 1])
  }

  lemma RunExtends(ds: Dataset, run: seq<Action>, a: Action)
    requires Legal(ds, run) && Justified(ds, After(ds, run), a) && Matches(ds, After(ds, run), a)
    ensures Legal(ds, run + [a]) && After(ds, run + [a]) == Apply(ds, After(ds, run), a)
  {
    assert (run + [a])[..|run|] == run;
  }

  /******* Nothing stored ever changes *******/

  predicate Grows(w: World, v: World)
  {
    && (forall k :: k in w.objects ==> k in v.objects && v.objects[k] == w.objects[k])
    && (forall n :: n in w.manifests ==> n in v.manifests && v.manifests[n] == w.manifests[n])
    && w.created <= v.created
    && w.commits <= v.commits
  }

  lemma ApplyGrows(ds: Dataset, w: World, a: Action)
    requires Matches(ds, w, a)
    ensures Grows(w, Apply(ds, w, a))
  {
  }

  lemma AppliedLands(ds: Dataset, w: World, a: Action)
    ensures Landed(ds, Apply(ds, w, a), a)
  {
  }

  lemma ActiveKept(w: World, v: World, d: Digest)
    requires w.commits <= v.commits && WasActive(w, d)
    ensures WasActive(v, d)
  {
    var i :| 0 <= i < |w.commits| && w.commits[i].after == d;
    assert v.commits[i] == w.commits[i];
  }

  /** Whatever justified a request when it was sent still does when it arrives, however late. */
  lemma JustificationKept(ds: Dataset, w: World, v: World, a: Action)
    requires Grows(w, v) && Justified(ds, w, a)
    ensures Justified(ds, v, a)
  {
    if a.PutManifest? {
      if a.manifest.previous.Some? { ActiveKept(w, v, a.manifest.previous.value); }
      forall i | 0 <= i < |a.manifest.objects|
        ensures Exact(v, a.manifest.planId, a.manifest.publicationId, a.manifest.objects[i])
      {
        assert Exact(w, a.manifest.planId, a.manifest.publicationId, a.manifest.objects[i]);
      }
    }
  }

  /******* What every reachable world satisfies *******/

  // The digest `d` names one of the manifests in `older`.
  ghost predicate NamesOneOf(ds: Dataset, older: seq<Manifest>, d: Digest)
  {
    exists j :: 0 <= j < |older| && ds.sha256(Text(older[j])) == d
  }

  // Manifest number `i` is stored, complete, and linked only to an older one.
  ghost predicate CreatedOk(ds: Dataset, w: World, i: nat)
    requires i < |w.created|
  {
    var m := w.created[i];
    && ManifestName(ds, m) in w.manifests && w.manifests[ManifestName(ds, m)] == Text(m)
    && Grounded(ds, w, m)
    && (m.previous.Some? ==> NamesOneOf(ds, w.created[..i], m.previous.value))
  }

  ghost predicate CommitOk(ds: Dataset, w: World, i: nat)
    requires i < |w.commits|
  {
    var c := w.commits[i];
    && c.before == (if i == 0 then None else Some(w.commits[i - 1].after))
    && HasManifest(ds, w, c.after)
    && (c.publish ==> ManifestOf(ds, w, c.after).previous == c.before)
  }

  ghost predicate AllCreated(ds: Dataset, w: World)
  {
    forall d :: HasManifest(ds, w, d) ==> NamesOneOf(ds, w.created, d)
  }

  ghost predicate Sound(ds: Dataset, w: World)
  {
    && (forall i :: 0 <= i < |w.created| ==> CreatedOk(ds, w, i))
    && AllCreated(ds, w)
    && (forall i :: 0 <= i < |w.commits| ==> CommitOk(ds, w, i))
    && w.pointer == (if w.commits == [] then None else Some(w.commits[|w.commits| - 1].after))
  }

  lemma CreatedKept(ds: Dataset, w: World, v: World, i: nat)
    requires Grows(w, v) && i < |w.created| && CreatedOk(ds, w, i)
    ensures CreatedOk(ds, v, i)
  {
    JustificationKept(ds, w, v, PutManifest(w.created[i]));
    assert v.created[..i] == w.created[..i];
  }

  lemma CommitKept(ds: Dataset, w: World, v: World, i: nat)
    requires Grows(w, v) && i < |w.commits| && CommitOk(ds, w, i)
    ensures CommitOk(ds, v, i)
  {
  }

  lemma NamesMore(ds: Dataset, older: seq<Manifest>, more: seq<Manifest>, d: Digest)
    requires older <= more && NamesOneOf(ds, older, d)
    ensures NamesOneOf(ds, more, d)
  {
    var j :| 0 <= j < |older| && ds.sha256(Text(older[j])) == d;
    assert more[j] == older[j];
  }

  lemma AllCreatedKept(ds: Dataset, w: World, a: Action)
    requires AllCreated(ds, w) && Justified(ds, w, a) && Matches(ds, w, a)
    ensures AllCreated(ds, Apply(ds, w, a))
  {
    var v := Apply(ds, w, a);
    forall d | HasManifest(ds, v, d) ensures NamesOneOf(ds, v.created, d) {
      if HasManifest(ds, w, d) {
        NamesMore(ds, w.created, v.created, d);
      } else {
        assert a.PutManifest? && v.created[|w.created|] == a.manifest;
      }
    }
  }

  lemma CreatedStep(ds: Dataset, w: World, a: Action, i: nat)
    requires Sound(ds, w) && Justified(ds, w, a) && Matches(ds, w, a) && i < |Apply(ds, w, a).created|
    ensures CreatedOk(ds, Apply(ds, w, a), i)
  {
    var v := Apply(ds, w, a);
    ApplyGrows(ds, w, a);
    if i < |w.created| {
      CreatedKept(ds, w, v, i);
    } else {
      assert v.created[..i] == w.created;
      JustificationKept(ds, w, v, a);
    }
  }

  lemma CommitStep(ds: Dataset, w: World, a: Action, i: nat)
    requires Sound(ds, w) && Justified(ds, w, a) && Matches(ds, w, a) && i < |Apply(ds, w, a).commits|
    ensures CommitOk(ds, Apply(ds, w, a), i)
  {
    var v := Apply(ds, w, a);
    ApplyGrows(ds, w, a);
    if i < |w.commits| {
      CommitKept(ds, w, v, i);
    }
  }

  lemma StepKeepsSound(ds: Dataset, w: World, a: Action)
    requires Sound(ds, w) && Justified(ds, w, a) && Matches(ds, w, a)
    ensures Sound(ds, Apply(ds, w, a))
  {
    hide CreatedOk, CommitOk, AllCreated, Justified, Matches;
    var v := Apply(ds, w, a);
    AllCreatedKept(ds, w, a);
    forall i | 0 <= i < |v.created| ensures CreatedOk(ds, v, i) { CreatedStep(ds, w, a, i); }
    forall i | 0 <= i < |v.commits| ensures CommitOk(ds, v, i) { CommitStep(ds, w, a, i); }
  }

  lemma {:induction false} EveryRunIsSound(ds: Dataset, run: seq<Action>)
    requires Legal(ds, run)
    ensures Sound(ds, After(ds, run))
  {
    if run != [] {
      EveryRunIsSound(ds, run[..|run| - 1]);
      StepKeepsSound(ds, After(ds, run[..|run| - 1]), run[|run| - 1]);
    }
  }

  /** In every reachable world the dataset refers to a stored active manifest whose digest matches and
      whose every object exists exactly as locked. */
  lemma PointerIsSafe(ds: Dataset, run: seq<Action>)
    requires CollisionFree(ds) && Legal(ds, run) && After(ds, run).pointer.Some?
    ensures var w := After(ds, run);
            && HasManifest(ds, w, w.pointer.value)
            && Grounded(ds, w, ManifestOf(ds, w, w.pointer.value))
  {
    EveryRunIsSound(ds, run);
    var w := After(ds, run);
    assert CommitOk(ds, w, |w.commits| - 1);
    StoredIsGrounded(ds, w, w.pointer.value);
  }

  lemma StoredIsGrounded(ds: Dataset, w: World, d: Digest)
    requires CollisionFree(ds) && Sound(ds, w) && HasManifest(ds, w, d)
    ensures Grounded(ds, w, ManifestOf(ds, w, d))
  {
    hide Grounded;
    assert NamesOneOf(ds, w.created, d);
    var j :| 0 <= j < |w.created| && ds.sha256(Text(w.created[j])) == d;
    assert CreatedOk(ds, w, j);
  }

  /******* Ancestor chains *******/

  // `chain` lists the digests from `start` back to a manifest without predecessor.
  ghost predicate IsChain(ds: Dataset, w: World, start: Option<Digest>, chain: seq<Digest>)
    decreases |chain|
  {
    if chain == [] then start == None
    else start == Some(chain[0]) && HasManifest(ds, w, chain[0])
         && IsChain(ds, w, ManifestOf(ds, w, chain[0]).previous, chain[1..])
  }

  lemma {:induction false} ChainUnique(ds: Dataset, w: World, start: Option<Digest>, a: seq<Digest>, b: seq<Digest>)
    requires IsChain(ds, w, start, a) && IsChain(ds, w, start, b)
    ensures a == b
    decreases |a|
  {
    if a != [] {
      ChainUnique(ds, w, ManifestOf(ds, w, a[0]).previous, a[1..], b[1..]);
    }
  }

  lemma {:induction false} ChainSuffix(ds: Dataset, w: World, start: Option<Digest>, chain: seq<Digest>, k: nat)
    requires IsChain(ds, w, start, chain) && k <= |chain|
    ensures IsChain(ds, w, if k < |chain| then Some(chain[k]) else None, chain[k..])
    ensures k < |chain| ==> HasManifest(ds, w, chain[k])
                            && ManifestOf(ds, w, chain[k]).previous == if k + 1 < |chain| then Some(chain[k + 1]) else None
    decreases k
  {
    if k == 0 {
      assert chain[0..] == chain;
    } else {
      ChainSuffix(ds, w, ManifestOf(ds, w, chain[0]).previous, chain[1..], k - 1);
      assert chain[1..][k - 1..] == chain[k..];
    }
  }

  /** No digest occurs twice along a chain of links. */
  lemma ChainDistinct(ds: Dataset, w: World, start: Option<Digest>, chain: seq<Digest>, i: nat, j: nat)
    requires IsChain(ds, w, start, chain) && i < j < |chain|
    ensures chain[i] != chain[j]
  {
    ChainSuffix(ds, w, start, chain, i);
    ChainSuffix(ds, w, start, chain, j);
    if chain[i] == chain[j] {
      ChainUnique(ds, w, Some(chain[i]), chain[i..], chain[j..]);
    }
  }

  /** Creation order strictly falls along links, so every chain of links ends. */
  lemma {:induction false} ChainExists(ds: Dataset, w: World, d: Digest, n: nat) returns (chain: seq<Digest>)
    requires CollisionFree(ds) && Sound(ds, w) && n <= |w.created| && NamesOneOf(ds, w.created[..n], d)
    ensures IsChain(ds, w, Some(d), chain) && 1 <= |chain| <= n
    decreases n
  {
    var j :| 0 <= j < n && ds.sha256(Text(w.created[..n][j])) == d;
    assert CreatedOk(ds, w, j);
    var rest := [];
    if w.created[j].previous.Some? {
      rest := ChainExists(ds, w, w.created[j].previous.value, j);
    }
    chain := [d] + rest;
    assert chain[1..] == rest;
  }

  lemma StoredHasChain(ds: Dataset, w: World, start: Option<Digest>) returns (chain: seq<Digest>)
    requires CollisionFree(ds) && Sound(ds, w) && (start.Some? ==> HasManifest(ds, w, start.value))
    ensures IsChain(ds, w, start, chain)
  {
    chain := [];
    if start.Some? {
      assert w.created[..|w.created|] == w.created;
      chain := ChainExists(ds, w, start.value, |w.created|);
    }
  }

  lemma {:induction false} ChainKept(ds: Dataset, w: World, v: World, start: Option<Digest>, chain: seq<Digest>)
    requires Grows(w, v) && IsChain(ds, w, start, chain)
    ensures IsChain(ds, v, start, chain)
    decreases |chain|
  {
    if chain != [] {
      ChainKept(ds, w, v, ManifestOf(ds, w, chain[0]).previous, chain[1..]);
    }
  }

  // The digests committed so far, newest first.
  ghost function Committed(commits: seq<Commit>): seq<Digest>
  {
    if commits == [] then [] else [commits[|commits| - 1].after] + Committed(commits[..|commits| - 1])
  }

  /** No update is lost: a publish links to exactly the manifest that the pointer held
      immediately before it. */
  lemma PublishLinksToPredecessor(ds: Dataset, run: seq<Action>, i: nat)
    requires Legal(ds, run) && i < |After(ds, run).commits| && After(ds, run).commits[i].publish
    ensures var w := After(ds, run);
            && HasManifest(ds, w, w.commits[i].after)
            && ManifestOf(ds, w, w.commits[i].after).previous == (if i == 0 then None else Some(w.commits[i - 1].after))
  {
    EveryRunIsSound(ds, run);
    assert CommitOk(ds, After(ds, run), i);
  }

  lemma {:induction false} PublishesFormChain(ds: Dataset, w: World, commits: seq<Commit>)
    requires Sound(ds, w) && commits <= w.commits
    requires forall i :: 0 <= i < |commits| ==> commits[i].publish
    ensures IsChain(ds, w, if commits == [] then None else Some(commits[|commits| - 1].after), Committed(commits))
  {
    if commits != [] {
      var n := |commits| - 1;
      assert CommitOk(ds, w, n);
      PublishesFormChain(ds, w, commits[..n]);
      assert Committed(commits)[1..] == Committed(commits[..n]);
    }
  }

  /** While nobody rolls back, the ancestry of the active manifest is every publish ever
      committed, newest first. */
  lemma AncestryIsEveryPublish(ds: Dataset, run: seq<Action>)
    requires Legal(ds, run)
    requires forall i :: 0 <= i < |After(ds, run).commits| ==> After(ds, run).commits[i].publish
    ensures IsChain(ds, After(ds, run), After(ds, run).pointer, Committed(After(ds, run).commits))
  {
    EveryRunIsSound(ds, run);
    PublishesFormChain(ds, After(ds, run), After(ds, run).commits);
  }

  // What a client that sent the pointer write concludes from reading the pointer back.
  predicate ReadsBack(w: World, c: Commit)
  {
    w.pointer == Some(c.after)
  }
}
