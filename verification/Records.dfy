/** Canonical object records (scripts/checkpoints/records.py).

    An inventory is a sequence of records.  Its canonical form is the key-sorted
    sequence, refused when a key repeats.  Keys are compared by code point, which is
    also the order of their UTF-8 encodings. */
module Records {
  import opened Options

  datatype ObjectRecord = ObjectRecord(key: string, etag: string, sizeBytes: nat, lastModified: int)

  /******* Key order *******/

  predicate KeyLess(a: string, b: string)
  {
    if b == [] then false
    else if a == [] then true
    else a[0] < b[0] || (a[0] == b[0] && KeyLess(a[1..], b[1..]))
  }

  lemma {:induction false} KeyTransitive(a: string, b: string, c: string)
    requires KeyLess(a, b) && KeyLess(b, c)
    ensures KeyLess(a, c)
  {
    if a != [] && a[0] == b[0] == c[0] {
      KeyTransitive(a[1..], b[1..], c[1..]);
    }
  }

  lemma {:induction false} KeyIrreflexive(a: string)
    ensures !KeyLess(a, a)
  {
    if a != [] { KeyIrreflexive(a[1..]); }
  }

  lemma {:induction false} KeyTotal(a: string, b: string)
    ensures KeyLess(a, b) || KeyLess(b, a) || a == b
  {
    if a != [] && b != [] && a[0] == b[0] {
      KeyTotal(a[1..], b[1..]);
      assert a == [a[0]] + a[1..] && b == [b[0]] + b[1..];
    }
  }

  // `a` and `b` agree before `i`, where `a` ends and `b` does not, or has the smaller code point.
  predicate FirstDifference(a: string, b: string, i: nat)
  {
    && i <= |a| && i < |b| && a[..i] == b[..i]
    && (i < |a| ==> a[i] < b[i])
  }

  /** The order is by code point at the first difference, and a proper prefix comes first. */
  lemma {:induction false} KeyLessIsCodePointOrder(a: string, b: string)
    ensures KeyLess(a, b) <==> exists i: nat :: FirstDifference(a, b, i)
  {
    if b == [] {
    } else if a == [] || a[0] < b[0] {
      assert FirstDifference(a, b, 0);
    } else if a[0] == b[0] {
      KeyLessIsCodePointOrder(a[1..], b[1..]);
      forall i: nat ensures FirstDifference(a[1..], b[1..], i) <==> FirstDifference(a, b, i + 1) {
        if i <= |a[1..]| && i < |b[1..]| {
          assert a[..i + 1] == [a[0]] + a[1..][..i] && b[..i + 1] == [b[0]] + b[1..][..i];
        }
      }
      if i: nat :| FirstDifference(a, b, i) {
        assert FirstDifference(a[1..], b[1..], i - 1);
      }
    } else {
      forall i: nat ensures !FirstDifference(a, b, i) {
        if 0 < i <= |a| && i < |b| { assert a[..i][0] != b[..i][0]; }
      }
    }
  }

  /******* Canonical sequences *******/

  // Strictly ascending keys: sorted, and no key twice.
  ghost predicate Ascending(rs: seq<ObjectRecord>)
  {
    forall i, j :: 0 <= i < j < |rs| ==> KeyLess(rs[i].key, rs[j].key)
  }

  ghost predicate DistinctKeys(rs: seq<ObjectRecord>)
  {
    forall i, j :: 0 <= i < j < |rs| ==> rs[i].key != rs[j].key
  }

  lemma AscendingDistinct(rs: seq<ObjectRecord>)
    requires Ascending(rs)
    ensures DistinctKeys(rs)
  {
    forall i, j | 0 <= i < j < |rs| ensures rs[i].key != rs[j].key {
      KeyIrreflexive(rs[i].key);
    }
  }

  ghost function Members(rs: seq<ObjectRecord>): set<ObjectRecord> { set r | r in rs }

  function Insert(r: ObjectRecord, rs: seq<ObjectRecord>): seq<ObjectRecord>
  {
    if rs == [] || KeyLess(r.key, rs[0].key) then [r] + rs else [rs[0]] + Insert(r, rs[1..])
  }

  /** `sorted(..., key=...)`: stable insertion from the front. */
  function Sorted(rs: seq<ObjectRecord>): seq<ObjectRecord>
  {
    if rs == [] then [] else Insert(rs[|rs| - 1], Sorted(rs[..|rs| - 1]))
  }

  predicate AdjacentDuplicate(rs: seq<ObjectRecord>)
  {
    exists i :: 0 < i < |rs| && rs[i - 1].key == rs[i].key
  }

  /** `canonical_records`: the sorted inventory, or nothing when a key repeats. */
  function Canonical(rs: seq<ObjectRecord>): Option<seq<ObjectRecord>>
  {
    var ordered := Sorted(rs);
    if AdjacentDuplicate(ordered) then None else Some(ordered)
  }

  ghost predicate WeaklySorted(rs: seq<ObjectRecord>)
  {
    forall i, j :: 0 <= i < j < |rs| ==> !KeyLess(rs[j].key, rs[i].key)
  }

  lemma SortedFront(r: ObjectRecord, rs: seq<ObjectRecord>)
    requires WeaklySorted(rs) && forall j :: 0 <= j < |rs| ==> !KeyLess(rs[j].key, r.key)
    ensures WeaklySorted([r] + rs) && multiset([r] + rs) == multiset{r} + multiset(rs)
  {
  }

  lemma {:induction false} InsertSorts(r: ObjectRecord, rs: seq<ObjectRecord>)
    requires WeaklySorted(rs)
    ensures WeaklySorted(Insert(r, rs))
    ensures multiset(Insert(r, rs)) == multiset(rs) + multiset{r}
  {
    if rs == [] {
    } else if KeyLess(r.key, rs[0].key) {
      forall j | 0 <= j < |rs| ensures !KeyLess(rs[j].key, r.key) {
        if KeyLess(rs[j].key, r.key) {
          KeyTransitive(rs[j].key, r.key, rs[0].key);
          KeyIrreflexive(rs[0].key);
        }
      }
      SortedFront(r, rs);
    } else {
      var tail := Insert(r, rs[1..]);
      InsertSorts(r, rs[1..]);
      assert rs == [rs[0]] + rs[1..];
      assert multiset(rs) == multiset{rs[0]} + multiset(rs[1..]);
      forall j | 0 <= j < |tail| ensures !KeyLess(tail[j].key, rs[0].key) {
        assert tail[j] in multiset(tail);
        assert tail[j] == r || tail[j] in rs[1..];
      }
      SortedFront(rs[0], tail);
    }
  }

  lemma {:induction false} SortedSorts(rs: seq<ObjectRecord>)
    ensures WeaklySorted(Sorted(rs))
    ensures multiset(Sorted(rs)) == multiset(rs)
  {
    hide WeaklySorted, Insert;
    if rs == [] {
      NothingToSort();
    } else {
      SortedSorts(rs[..|rs| - 1]);
      InsertSorts(rs[|rs| - 1], Sorted(rs[..|rs| - 1]));
      assert rs == rs[..|rs| - 1] + [rs[|rs| - 1]];
    }
  }

  lemma NothingToSort()
    ensures WeaklySorted([])
  {
  }

  lemma SameMembers(a: seq<ObjectRecord>, b: seq<ObjectRecord>)
    requires multiset(a) == multiset(b)
    ensures Members(a) == Members(b) && |a| == |b|
  {
    assert |a| == |multiset(a)| && |b| == |multiset(b)|;
    forall r ensures r in a <==> r in b {
      assert r in a <==> r in multiset(a);
      assert r in b <==> r in multiset(b);
    }
  }

  lemma {:induction false} OnceInDistinct(rs: seq<ObjectRecord>, r: ObjectRecord)
    requires DistinctKeys(rs)
    ensures multiset(rs)[r] <= 1
  {
    if rs != [] {
      var last := |rs| - 1;
      assert rs == rs[..last] + [rs[last]];
      OnceInDistinct(rs[..last], r);
    }
  }

  lemma TwiceMeansTwo(rs: seq<ObjectRecord>, i: nat, j: nat)
    requires i < j < |rs| && rs[i] == rs[j]
    ensures multiset(rs)[rs[i]] >= 2
  {
    assert rs == rs[..j] + rs[j..];
    assert rs[i] in rs[..j] && rs[j] in rs[j..];
    assert multiset(rs) == multiset(rs[..j]) + multiset(rs[j..]);
  }

  // Distinct keys are a property of the contents, not of the order.
  lemma DistinctIsOrderFree(a: seq<ObjectRecord>, b: seq<ObjectRecord>)
    requires multiset(a) == multiset(b) && DistinctKeys(a)
    ensures DistinctKeys(b)
  {
    SameMembers(a, b);
    forall i, j | 0 <= i < j < |b| ensures b[i].key != b[j].key {
      assert b[i] in Members(a) && b[j] in Members(a);
      if b[i] == b[j] {
        TwiceMeansTwo(b, i, j);
        OnceInDistinct(a, b[i]);
      }
    }
  }

  /** The canonical form exists exactly for inventories without a repeated key; it is then
      the strictly ascending arrangement of the same records. */
  lemma CanonicalCharacterised(rs: seq<ObjectRecord>)
    ensures Canonical(rs).Some? <==> DistinctKeys(rs)
    ensures Canonical(rs).Some? ==>
              Ascending(Canonical(rs).value) && multiset(Canonical(rs).value) == multiset(rs)
  {
    hide Sorted, WeaklySorted, DistinctKeys, Ascending, AdjacentDuplicate;
    var ordered := Sorted(rs);
    SortedSorts(rs);
    SortedIsAscending(ordered);
    if DistinctKeys(rs) { DistinctIsOrderFree(rs, ordered); }
    if DistinctKeys(ordered) { DistinctIsOrderFree(ordered, rs); }
  }

  // A sorted inventory has equal neighbours exactly when a key repeats at all.
  lemma SortedIsAscending(rs: seq<ObjectRecord>)
    requires WeaklySorted(rs)
    ensures !AdjacentDuplicate(rs) <==> DistinctKeys(rs)
    ensures !AdjacentDuplicate(rs) ==> Ascending(rs)
  {
    if AdjacentDuplicate(rs) {
      var i :| 0 < i < |rs| && rs[i - 1].key == rs[i].key;
    } else {
      forall i, j | 0 <= i < j < |rs| ensures KeyLess(rs[i].key, rs[j].key) {
        AdjacentToAscending(rs, i, j);
      }
      AscendingDistinct(rs);
    }
  }

  lemma {:induction false} AdjacentToAscending(rs: seq<ObjectRecord>, i: nat, j: nat)
    requires i < j < |rs| && WeaklySorted(rs) && !AdjacentDuplicate(rs)
    ensures KeyLess(rs[i].key, rs[j].key)
  {
    KeyTotal(rs[j - 1].key, rs[j].key);
    assert rs[j - 1].key != rs[j].key;
    if i < j - 1 {
      AdjacentToAscending(rs, i, j - 1);
      KeyTransitive(rs[i].key, rs[j - 1].key, rs[j].key);
    }
  }

  /** Two canonical inventories with the same contents are the same sequence, so comparing
      canonical tuples is exactly comparing sets. */
  lemma {:induction false} AscendingUnique(a: seq<ObjectRecord>, b: seq<ObjectRecord>)
    requires Ascending(a) && Ascending(b)
    ensures a == b <==> Members(a) == Members(b)
  {
    if Members(a) == Members(b) {
      if a == [] || b == [] {
        EmptyMembers(a);
        EmptyMembers(b);
      } else {
        assert a[0] in Members(b) && b[0] in Members(a);
        var i :| 0 <= i < |b| && b[i] == a[0];
        var j :| 0 <= j < |a| && a[j] == b[0];
        if i > 0 && j > 0 {
          KeyTransitive(a[0].key, b[0].key, a[0].key);
          KeyIrreflexive(a[0].key);
        }
        assert a[0] == b[0];
        AscendingTail(a);
        AscendingTail(b);
        AscendingUnique(a[1..], b[1..]);
        assert a == [a[0]] + a[1..] && b == [b[0]] + b[1..];
      }
    }
  }

  lemma EmptyMembers(a: seq<ObjectRecord>)
    ensures a == [] <==> Members(a) == {}
  {
    if a != [] { assert a[0] in Members(a); }
  }

  lemma AscendingTail(a: seq<ObjectRecord>)
    requires a != [] && Ascending(a)
    ensures Ascending(a[1..]) && Members(a[1..]) == Members(a) - {a[0]}
  {
    forall r ensures r in Members(a[1..]) <==> r in Members(a) && r != a[0] {
      if r in Members(a[1..]) {
        var i :| 0 < i < |a| && a[i] == r;
        KeyIrreflexive(a[0].key);
      }
      if r in a && r != a[0] {
        var i :| 0 <= i < |a| && a[i] == r;
        assert a[1..][i - 1] == r;
      }
    }
  }

  lemma CanonicalOfAscending(rs: seq<ObjectRecord>)
    requires Ascending(rs)
    ensures Canonical(rs) == Some(rs)
  {
    AscendingDistinct(rs);
    CanonicalCharacterised(rs);
    SameMembers(Canonical(rs).value, rs);
    AscendingUnique(Canonical(rs).value, rs);
  }

  /******* Totals *******/

  function TotalBytes(rs: seq<ObjectRecord>): nat
  {
    if rs == [] then 0 else TotalBytes(rs[..|rs| - 1]) + rs[|rs| - 1].sizeBytes
  }
}
