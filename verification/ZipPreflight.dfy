/** The ZIP layout checks of datasets/acquisition.py: the end-of-central-directory search, the
    ZIP64 records, and the walk over the central directory (sections 4.3.12 and 4.3.14 to
    4.3.16 of PKWARE's APPNOTE.TXT).  A file is a sequence of bytes. */
module ZipPreflight {

  type byte = b: int | 0 <= b < 256

  type Bytes = seq<byte>

  datatype Limits = Limits(maxEntries: int, maxCentralDirectoryBytes: int)

  const EOCD_SIGNATURE: Bytes := [0x50, 0x4B, 5, 6]
  const ZIP64_EOCD_SIGNATURE: Bytes := [0x50, 0x4B, 6, 6]
  const ZIP64_LOCATOR_SIGNATURE: Bytes := [0x50, 0x4B, 6, 7]
  const ENTRY_SIGNATURE: Bytes := [0x50, 0x4B, 1, 2]
  const EOCD_SIZE := 22
  const ZIP64_EOCD_SIZE := 56
  const ZIP64_LOCATOR_SIZE := 20
  const ENTRY_HEADER_SIZE := 46
  const CHUNK := 0x10_0000

  predicate Signed(file: Bytes, at: nat, signature: Bytes)
    requires |signature| == 4
  {
    at + 4 <= |file| && file[at] == signature[0] && file[at + 1] == signature[1] && file[at + 2] == signature[2] && file[at + 3] == signature[3]
  }

  // Little-endian unsigned integers.
  function U16(file: Bytes, at: nat): (n: nat)
    requires at + 2 <= |file|
    ensures n < 0x1_0000
  {
    var low: int, high: int := file[at], file[at + 1];
    low + 0x100 * high
  }

  function U32(file: Bytes, at: nat): (n: nat)
    requires at + 4 <= |file|
    ensures n < 0x1_0000_0000
  {
    U16(file, at) + 0x1_0000 * U16(file, at + 2)
  }

  function U64(file: Bytes, at: nat): (n: nat)
    requires at + 8 <= |file|
  {
    U32(file, at) + 0x1_0000_0000 * U32(file, at + 4)
  }

  /******* The end-of-central-directory record *******/

  predicate EndSigned(file: Bytes, at: nat) { Signed(file, at, EOCD_SIGNATURE) }

  // A signed record whose comment ends exactly where the file does.
  predicate SelfConsistent(file: Bytes, at: nat)
  {
    at + EOCD_SIZE <= |file| && EndSigned(file, at) && at + EOCD_SIZE + U16(file, at + 20) == |file|
  }

  predicate NothingSignedAfter(file: Bytes, at: nat)
  {
    forall p :: at < p < |file| ==> !EndSigned(file, p)
  }

  /** What the search accepts: the only self-consistent position in the whole file, with an
      empty comment or no further signature behind it. */
  ghost predicate IsSelected(file: Bytes, at: nat)
  {
    && SelfConsistent(file, at)
    && (forall p :: 0 <= p < |file| && SelfConsistent(file, p) ==> p == at)
    && (at + EOCD_SIZE == |file| || NothingSignedAfter(file, at))
  }

  // The signature cannot overlap itself.
  lemma NoOverlap(file: Bytes, p: nat, q: nat)
    requires EndSigned(file, p) && EndSigned(file, q) && p < q
    ensures p + 4 <= q
  {
  }

  // The tail that is read holds every position that can be self-consistent.
  lemma WindowCoversAll(file: Bytes, at: nat)
    requires SelfConsistent(file, at)
    ensures at >= |file| - 0x1_0000 - EOCD_SIZE
  {
  }

  /** `rfind`: the last signature that starts at or after `lo` and ends at or before `end`. */
  method FindLast(file: Bytes, lo: nat, end: nat) returns (at: int)
    requires lo <= end <= |file|
    ensures at == -1 || (lo <= at && at + 4 <= end && EndSigned(file, at))
    ensures forall p :: Max(lo, at + 1) <= p <= end - 4 ==> !EndSigned(file, p)
  {
    at := end - 4;
    while at >= lo
      invariant lo - 5 <= at <= end - 4
      invariant forall p :: Max(lo, at + 1) <= p <= end - 4 ==> !EndSigned(file, p)
      decreases at + 5
    {
      if EndSigned(file, at) { return; }
      at := at - 1;
    }
    at := -1;
  }

  function Max(a: int, b: int): int { if a < b then b else a }

  // The last 22 bytes when they are a record with an empty comment, else the last signature.
  method FirstChoice(file: Bytes, tailStart: nat) returns (selected: int)
    requires tailStart == Max(|file| - 0x1_0000 - EOCD_SIZE, 0)
    ensures selected >= 0 ==> tailStart <= selected && EndSigned(file, selected)
    ensures selected >= 0 ==> selected + EOCD_SIZE == |file| || NothingSignedAfter(file, selected)
    ensures forall p :: 0 <= p < |file| && IsSelected(file, p) ==> p == selected
  {
    if |file| >= EOCD_SIZE && EndSigned(file, |file| - EOCD_SIZE) && file[|file| - 2] == 0 && file[|file| - 1] == 0 {
      selected := |file| - EOCD_SIZE;
      assert SelfConsistent(file, selected);
    } else {
      selected := FindLast(file, tailStart, |file|);
      forall p | 0 <= p < |file| && IsSelected(file, p) ensures p == selected { WindowCoversAll(file, p); }
    }
  }

  /** `_selected_eocd`: the backward search misses nothing, because the window covers every
      possible position and the signature cannot overlap itself. */
  method SelectedEocd(file: Bytes) returns (at: int)
    ensures at >= 0 ==> IsSelected(file, at)
    ensures at < 0 ==> forall p :: 0 <= p < |file| ==> !IsSelected(file, p)
  {
    hide U16, EndSigned, NothingSignedAfter;
    var tailStart: nat := Max(|file| - 0x1_0000 - EOCD_SIZE, 0);
    var selected := FirstChoice(file, tailStart);
    if selected < 0 || |file| - selected < EOCD_SIZE { return -1; }
    if selected + EOCD_SIZE + U16(file, selected + 20) != |file| { return -1; }
    var searchEnd: nat := selected;
    while searchEnd > tailStart
      invariant tailStart <= searchEnd <= selected && EndSigned(file, searchEnd)
      invariant forall p :: searchEnd <= p < selected ==> !SelfConsistent(file, p)
    {
      var candidate := FindLast(file, tailStart, searchEnd);
      forall p | Max(tailStart, candidate + 1) <= p < searchEnd ensures !SelfConsistent(file, p) {
        if EndSigned(file, p) { NoOverlap(file, p, searchEnd); }
      }
      if candidate < 0 { break; }
      if candidate + EOCD_SIZE <= |file| && candidate + EOCD_SIZE + U16(file, candidate + 20) == |file| {
        assert SelfConsistent(file, candidate) && SelfConsistent(file, selected);
        return -1;
      }
      searchEnd := candidate;
    }
    forall p | 0 <= p < |file| && SelfConsistent(file, p) ensures p == selected {
      WindowCoversAll(file, p);
      NothingBehind(file, selected, p);
    }
    return selected;
  }

  // Behind the selected record there is no second self-consistent one.
  lemma NothingBehind(file: Bytes, selected: nat, p: nat)
    requires SelfConsistent(file, selected) && SelfConsistent(file, p)
    requires selected + EOCD_SIZE == |file| || NothingSignedAfter(file, selected)
    ensures p <= selected
  {
  }

  /******* The central directory *******/

  // A signed entry that occupies exactly `from..to`.
  predicate EntryAt(file: Bytes, from: nat, to: nat)
  {
    && from + ENTRY_HEADER_SIZE <= to <= |file| && Signed(file, from, ENTRY_SIGNATURE)
    && to == from + ENTRY_HEADER_SIZE + U16(file, from + 28) + U16(file, from + 30) + U16(file, from + 32)
  }

  /** The region `start..end` is cut into signed entries, without gap, overlap or rest. */
  predicate IsTiling(file: Bytes, start: nat, end: nat, cuts: seq<nat>)
  {
    && |cuts| >= 1 && cuts[0] == start && cuts[|cuts| - 1] == end
    && forall i :: 0 < i < |cuts| ==> EntryAt(file, cuts[i - 1], cuts[i])
  }

  lemma {:induction false} CutsGrow(file: Bytes, start: nat, end: nat, cuts: seq<nat>, i: nat)
    requires IsTiling(file, start, end, cuts) && i < |cuts|
    ensures start + ENTRY_HEADER_SIZE * i <= cuts[i] && cuts[i] + ENTRY_HEADER_SIZE * (|cuts| - 1 - i) <= end
    decreases |cuts| - i
  {
    if i + 1 < |cuts| {
      assert EntryAt(file, cuts[i], cuts[i + 1]);
      CutsGrow(file, start, end, cuts, i + 1);
    }
    CutsAtLeast(file, start, end, cuts, i);
  }

  lemma {:induction false} CutsAtLeast(file: Bytes, start: nat, end: nat, cuts: seq<nat>, i: nat)
    requires IsTiling(file, start, end, cuts) && i < |cuts|
    ensures start + ENTRY_HEADER_SIZE * i <= cuts[i]
  {
    if i > 0 {
      CutsAtLeast(file, start, end, cuts, i - 1);
      assert EntryAt(file, cuts[i - 1], cuts[i]);
    }
  }

  // Two tilings from the same start agree as far as both go.
  lemma {:induction false} CutsAgree(file: Bytes, start: nat, end: nat, a: seq<nat>, b: seq<nat>, i: nat)
    requires IsTiling(file, start, end, a) && IsTiling(file, start, end, b) && i < |a| && i < |b|
    ensures a[i] == b[i]
  {
    if i > 0 {
      CutsAgree(file, start, end, a, b, i - 1);
      assert EntryAt(file, a[i - 1], a[i]) && EntryAt(file, b[i - 1], b[i]);
    }
  }

  /** A region has at most one tiling. */
  lemma TilingUnique(file: Bytes, start: nat, end: nat, a: seq<nat>, b: seq<nat>)
    requires IsTiling(file, start, end, a) && IsTiling(file, start, end, b)
    ensures a == b
  {
    if |a| < |b| {
      CutsAgree(file, start, end, a, b, |a| - 1);
      CutsGrow(file, start, end, b, |a| - 1);
    } else if |b| < |a| {
      CutsAgree(file, start, end, a, b, |b| - 1);
      CutsGrow(file, start, end, a, |b| - 1);
    }
    forall i | 0 <= i < |a| && i < |b| ensures a[i] == b[i] { CutsAgree(file, start, end, a, b, i); }
  }

  // The region has a tiling into exactly `entries` entries.
  ghost predicate TiledBy(file: Bytes, start: nat, end: nat, entries: int)
  {
    exists cuts: seq<nat> :: IsTiling(file, start, end, cuts) && |cuts| == entries + 1
  }

  // Reads to skip `size` bytes from `at`; `ok` when the file holds them.
  method Skip(file: Bytes, at: nat, size: nat) returns (ok: bool)
    ensures ok <==> size == 0 || at + size <= |file|
  {
    var left, position := size, at;
    while left > 0
      invariant position + left == at + size && (size > 0 && position > at ==> position <= |file|)
      invariant left == 0 ==> size == 0 || position <= |file|
    {
      var chunk := Min(Min(left, CHUNK), Max(|file| - position, 0));
      if chunk == 0 { return false; }
      left, position := left - chunk, position + chunk;
    }
    return true;
  }

  function Min(a: int, b: int): int { if a < b then a else b }

  // The part of the walk that is done: `done` is a tiling of `start..at`.
  lemma {:induction false} WalkIsForced(file: Bytes, start: nat, at: nat, end: nat, done: seq<nat>, cuts: seq<nat>)
    requires IsTiling(file, start, at, done) && IsTiling(file, start, end, cuts) && at <= end
    ensures |done| <= |cuts| && cuts[|done| - 1] == at
    ensures at < end ==> |done| < |cuts| && EntryAt(file, at, cuts[|done|])
    decreases |done|
  {
    if |done| > 1 {
      var n := |done| - 1;
      assert EntryAt(file, done[n - 1], done[n]);
      assert IsTiling(file, start, done[n - 1], done[..n]);
      WalkIsForced(file, start, done[n - 1], end, done[..n], cuts);
    }
    if at < end {
      assert cuts[|done| - 1] != cuts[|cuts| - 1];
      assert EntryAt(file, cuts[|done| - 1], cuts[|done|]);
    }
  }

  /** `_stream_validate_central_directory`: accepts exactly a region that is tiled by the
      declared number of entries, within the limit. */
  method ValidateCentralDirectory(file: Bytes, start: int, size: nat, declared: int, limits: Limits) returns (ok: bool)
    ensures ok <==> start >= 0 && TiledBy(file, start, start + size, declared) && (declared <= limits.maxEntries || size == 0)
  {
    if start < 0 { return false; }
    var remaining, actual, at: nat := size, 0, start;
    ghost var done: seq<nat> := [start];
    ghost var end := start + size;
    while remaining > 0
      invariant remaining >= 0 && at + remaining == end && |done| == actual + 1 && IsTiling(file, start, at, done)
      invariant actual > 0 ==> actual <= limits.maxEntries && size > 0
    {
      forall cuts: seq<nat> | IsTiling(file, start, end, cuts) ensures |done| < |cuts| && EntryAt(file, at, cuts[|done|]) && cuts[|done|] <= end {
        WalkIsForced(file, start, at, end, done, cuts);
        CutsGrow(file, start, end, cuts, |done|);
      }
      if remaining < ENTRY_HEADER_SIZE || at + ENTRY_HEADER_SIZE > |file| || !Signed(file, at, ENTRY_SIGNATURE) { return false; }
      var variable := U16(file, at + 28) + U16(file, at + 30) + U16(file, at + 32);
      var recordSize := ENTRY_HEADER_SIZE + variable;
      if recordSize > remaining { return false; }
      var ok' := Skip(file, at + ENTRY_HEADER_SIZE, variable);
      if !ok' { return false; }
      assert EntryAt(file, at, at + recordSize);
      remaining, actual, at := remaining - recordSize, actual + 1, at + recordSize;
      done := done + [at];
      if actual > limits.maxEntries {
        forall cuts: seq<nat> | IsTiling(file, start, end, cuts) ensures |cuts| > actual {
          WalkIsForced(file, start, at, end, done, cuts);
        }
        return false;
      }
    }
    forall cuts: seq<nat> | IsTiling(file, start, end, cuts) ensures cuts == done { TilingUnique(file, start, end, cuts, done); }
    assert IsTiling(file, start, end, done);
    return actual == declared;
  }

  /******* The whole preflight *******/

  datatype Directory = Directory(entries: nat, size: nat, end: nat)

  datatype Zip64 = Absent | Inconsistent | Present(directory: Directory)

  predicate WithinLimits(d: Directory, limits: Limits)
  {
    d.entries <= limits.maxEntries && d.size <= limits.maxCentralDirectoryBytes
  }

  // A ZIP64 locator stands immediately before the end record at `eocd`.
  predicate HasLocator(file: Bytes, eocd: nat)
  {
    eocd <= |file| && eocd >= ZIP64_LOCATOR_SIZE && Signed(file, eocd - ZIP64_LOCATOR_SIZE, ZIP64_LOCATOR_SIGNATURE)
  }

  /** The ZIP64 records before `eocd` describe `d`: one disk, the record directly before the
      locator that points at it, and the directory directly before the record. */
  predicate Zip64Describes(file: Bytes, eocd: nat, d: Directory)
    requires HasLocator(file, eocd)
  {
    var locator := eocd - ZIP64_LOCATOR_SIZE;
    && locator >= ZIP64_EOCD_SIZE && d.end == locator - ZIP64_EOCD_SIZE
    && U32(file, locator + 4) == 0 && U64(file, locator + 8) == d.end && U32(file, locator + 16) == 1
    && Signed(file, d.end, ZIP64_EOCD_SIGNATURE) && U64(file, d.end + 4) == ZIP64_EOCD_SIZE - 12
    && U32(file, d.end + 16) == 0 && U32(file, d.end + 20) == 0
    && U64(file, d.end + 24) == d.entries && U64(file, d.end + 32) == d.entries
    && U64(file, d.end + 40) == d.size && U64(file, d.end + 48) + d.size == d.end
  }

  /** The end record alone describes `d`: one disk, and no field left to ZIP64. */
  predicate EndRecordDescribes(file: Bytes, eocd: nat, d: Directory)
    requires eocd + EOCD_SIZE <= |file|
  {
    && U16(file, eocd + 4) == 0 && U16(file, eocd + 6) == 0
    && U16(file, eocd + 8) == d.entries && U16(file, eocd + 10) == d.entries && d.entries != 0xFFFF
    && U32(file, eocd + 12) == d.size && d.size != 0xFFFF_FFFF && U32(file, eocd + 16) != 0xFFFF_FFFF
    && d.end == eocd
  }

  ghost predicate Describes(file: Bytes, eocd: nat, d: Directory)
    requires eocd + EOCD_SIZE <= |file|
  {
    if HasLocator(file, eocd) then Zip64Describes(file, eocd, d) else EndRecordDescribes(file, eocd, d)
  }

  /** `_zip64_metadata`. */
  method Zip64Metadata(file: Bytes, eocd: nat, limits: Limits) returns (r: Zip64)
    requires eocd <= |file|
    ensures r.Absent? <==> !HasLocator(file, eocd)
    ensures r.Present? ==> Zip64Describes(file, eocd, r.directory) && WithinLimits(r.directory, limits)
    ensures r.Inconsistent? ==> forall d :: Zip64Describes(file, eocd, d) ==> !WithinLimits(d, limits)
  {
    hide U32, U64;
    if eocd < ZIP64_LOCATOR_SIZE { return Absent; }
    var locator := eocd - ZIP64_LOCATOR_SIZE;
    if !Signed(file, locator, ZIP64_LOCATOR_SIGNATURE) { return Absent; }
    if U32(file, locator + 4) != 0 || U32(file, locator + 16) != 1 { return Inconsistent; }
    if locator < ZIP64_EOCD_SIZE { return Inconsistent; }
    var record := locator - ZIP64_EOCD_SIZE;
    if !Signed(file, record, ZIP64_EOCD_SIGNATURE) || U64(file, record + 4) != 44 { return Inconsistent; }
    var onDisk, entries := U64(file, record + 24), U64(file, record + 32);
    if U32(file, record + 16) != 0 || U32(file, record + 20) != 0 || onDisk != entries { return Inconsistent; }
    var size, offset := U64(file, record + 40), U64(file, record + 48);
    if !WithinLimits(Directory(entries, size, record), limits) { return Inconsistent; }
    if U64(file, locator + 8) != record || record != offset + size { return Inconsistent; }
    return Present(Directory(entries, size, record));
  }

  // The directory that an accepted file has.
  ghost predicate Accepts(file: Bytes, limits: Limits, eocd: nat, d: Directory)
  {
    && IsSelected(file, eocd) && Describes(file, eocd, d) && WithinLimits(d, limits)
    && d.size <= d.end && TiledBy(file, d.end - d.size, d.end, d.entries)
  }

  ghost predicate Accepted(file: Bytes, limits: Limits)
  {
    exists eocd, d :: Accepts(file, limits, eocd, d)
  }

  /** `_preflight_zip_stream`: accepts exactly the files with one self-consistent end record whose
      metadata describe a directory, within the limits, that ends where the records begin and
      is tiled by the declared entries. */
  method Preflight(file: Bytes, limits: Limits) returns (ok: bool)
    ensures ok <==> Accepted(file, limits)
  {
    hide IsTiling, U16, U32, U64, EndSigned, NothingSignedAfter;
    var eocd := SelectedEocd(file);
    if eocd < 0 { return false; }
    assert forall q, d :: Accepts(file, limits, q, d) ==> q == eocd;
    var zip64 := Zip64Metadata(file, eocd, limits);
    if zip64.Inconsistent? { return false; }
    var d;
    if zip64.Present? {
      d := zip64.directory;
    } else {
      d := Directory(U16(file, eocd + 10), U32(file, eocd + 12), eocd);
      if U16(file, eocd + 8) == 0xFFFF || d.entries == 0xFFFF || d.size == 0xFFFF_FFFF || U32(file, eocd + 16) == 0xFFFF_FFFF { return false; }
      if U16(file, eocd + 4) != 0 || U16(file, eocd + 6) != 0 || U16(file, eocd + 8) != d.entries { return false; }
      if !WithinLimits(d, limits) { return false; }
    }
    assert Describes(file, eocd, d);
    assert forall other :: Describes(file, eocd, other) ==> other == d;
    ok := ValidateCentralDirectory(file, d.end - d.size, d.size, d.entries, limits);
    assert ok <==> Accepts(file, limits, eocd, d);
  }
}
