/** ZIP files written field by field (sections 4.3.12 and 4.3.14 to 4.3.16 of PKWARE's
    APPNOTE.TXT), and what the preflight of datasets/acquisition.py makes of them. */
module ZipArchive {
  import opened ZipPreflight

  /******* Numbers *******/

  function LE16(n: nat): (b: Bytes)
    requires n < 0x1_0000
    ensures |b| == 2
  {
    [n % 0x100, n / 0x100]
  }

  function LE32(n: nat): (b: Bytes)
    requires n < 0x1_0000_0000
    ensures |b| == 4
  {
    [n % 0x100, n / 0x100 % 0x100, n / 0x1_0000 % 0x100, n / 0x100_0000]
  }

  function LE64(n: nat): (b: Bytes)
    requires n < 0x1_0000_0000_0000_0000
    ensures |b| == 8
  {
    LE32(n % 0x1_0000_0000) + LE32(n / 0x1_0000_0000)
  }

  /** Numbers are read as they are written: lowest byte first. */
  lemma Read16(before: Bytes, n: nat, after: Bytes)
    requires n < 0x1_0000
    ensures U16(before + [n % 256, n / 256] + after, |before|) == n
    ensures U16(before + LE16(n) + after, |before|) == n
  {
    var file: Bytes := before + [n % 256, n / 256] + after;
    assert file[|before|] == n % 256 && file[|before| + 1] == n / 256;
  }

  lemma TwoHalves(n: nat)
    requires n < 0x1_0000_0000
    ensures n % 65536 % 256 == n % 256 && n % 65536 / 256 == n / 256 % 256 && n / 65536 / 256 == n / 16777216
  {
  }

  lemma HalvesOf(n: nat)
    requires n < 0x1_0000_0000
    ensures LE32(n) == LE16(n % 65536) + LE16(n / 65536)
  {
    TwoHalves(n);
  }

  lemma Read32(before: Bytes, n: nat, after: Bytes)
    requires n < 0x1_0000_0000
    ensures U32(before + [n % 256, n / 256 % 256, n / 65536 % 256, n / 16777216] + after, |before|) == n
    ensures U32(before + LE32(n) + after, |before|) == n
  {
    hide U16, LE16;
    var low, high := n % 65536, n / 65536;
    TwoHalves(n);
    HalvesOf(n);
    var file := before + LE32(n) + after;
    assert file == before + LE16(low) + (LE16(high) + after);
    Read16(before, low, LE16(high) + after);
    assert file == before + LE16(low) + LE16(high) + after;
    Read16(before + LE16(low), high, after);
  }

  lemma Read64(before: Bytes, n: nat, after: Bytes)
    requires n < 0x1_0000_0000_0000_0000
    ensures U64(before + LE64(n) + after, |before|) == n
  {
    var low, high := n % 0x1_0000_0000, n / 0x1_0000_0000;
    var file := before + LE64(n) + after;
    assert file == before + LE32(low) + (LE32(high) + after);
    Read32(before, low, LE32(high) + after);
    assert file == before + LE32(low) + LE32(high) + after;
    Read32(before + LE32(low), high, after);
  }

  // Reading inside a part of the file.
  lemma Inside(before: Bytes, part: Bytes, after: Bytes, at: nat)
    ensures var file := before + part + after;
            && (at + 2 <= |part| ==> U16(file, |before| + at) == U16(part, at))
            && (at + 4 <= |part| ==> U32(file, |before| + at) == U32(part, at))
            && (at + 8 <= |part| ==> U64(file, |before| + at) == U64(part, at))
            && (at + 4 <= |part| ==> forall s: Bytes :: |s| == 4 ==> (Signed(file, |before| + at, s) <==> Signed(part, at, s)))
  {
    var file := before + part + after;
    assert forall i :: 0 <= i < |part| ==> file[|before| + i] == part[i];
  }

  /******* Records *******/

  /** One file header of the central directory. */
  datatype EntryRecord = EntryRecord(
    madeBy: nat, needed: nat, flags: nat, compression: nat, time: nat, date: nat, crc: nat, compressedSize: nat, size: nat,
    disk: nat, internalAttributes: nat, externalAttributes: nat, localOffset: nat, name: Bytes, extra: Bytes, comment: Bytes)

  predicate Is16(n: nat) { n < 0x1_0000 }

  predicate Is32(n: nat) { n < 0x1_0000_0000 }

  predicate EntryFits(e: EntryRecord)
  {
    && Is16(e.madeBy) && Is16(e.needed) && Is16(e.flags) && Is16(e.compression) && Is16(e.time) && Is16(e.date)
    && Is32(e.crc) && Is32(e.compressedSize) && Is32(e.size)
    && Is16(e.disk) && Is16(e.internalAttributes) && Is32(e.externalAttributes) && Is32(e.localOffset)
    && Is16(|e.name|) && Is16(|e.extra|) && Is16(|e.comment|)
  }

  function EntryStart(e: EntryRecord): (b: Bytes)
    requires EntryFits(e)
    ensures |b| == 28 && b[..4] == ENTRY_SIGNATURE
  {
    ENTRY_SIGNATURE + LE16(e.madeBy) + LE16(e.needed) + LE16(e.flags) + LE16(e.compression) + LE16(e.time) + LE16(e.date)
    + LE32(e.crc) + LE32(e.compressedSize) + LE32(e.size)
  }

  function EntryLengths(e: EntryRecord): (b: Bytes)
    requires EntryFits(e)
    ensures |b| == 6
  {
    LE16(|e.name|) + LE16(|e.extra|) + LE16(|e.comment|)
  }

  function EntryEnd(e: EntryRecord): (b: Bytes)
    requires EntryFits(e)
    ensures |b| == 12 + |e.name| + |e.extra| + |e.comment|
  {
    LE16(e.disk) + LE16(e.internalAttributes) + LE32(e.externalAttributes) + LE32(e.localOffset) + e.name + e.extra + e.comment
  }

  function EntryText(e: EntryRecord): (b: Bytes)
    requires EntryFits(e)
    ensures |b| == ENTRY_HEADER_SIZE + |e.name| + |e.extra| + |e.comment|
  {
    EntryStart(e) + EntryLengths(e) + EntryEnd(e)
  }

  predicate EntriesFit(es: seq<EntryRecord>)
  {
    forall i :: 0 <= i < |es| ==> EntryFits(es[i])
  }

  function DirectoryText(es: seq<EntryRecord>): Bytes
    requires EntriesFit(es)
  {
    if es == [] then [] else DirectoryText(es[..|es| - 1]) + EntryText(es[|es| - 1])
  }

  /** The fields of the end record between its signature and its comment. */
  datatype EndFields = EndFields(disk: nat, startDisk: nat, onDisk: nat, entries: nat, size: nat, offset: nat)

  predicate EndFits(f: EndFields, comment: Bytes)
  {
    && Is16(f.disk) && Is16(f.startDisk) && Is16(f.onDisk) && Is16(f.entries) && Is32(f.size) && Is32(f.offset) && Is16(|comment|)
  }

  function EndRecord(f: EndFields, comment: Bytes): (b: Bytes)
    requires EndFits(f, comment)
    ensures |b| == EOCD_SIZE + |comment|
  {
    EOCD_SIGNATURE + LE16(f.disk) + LE16(f.startDisk) + LE16(f.onDisk) + LE16(f.entries) + LE32(f.size) + LE32(f.offset)
    + LE16(|comment|) + comment
  }

  /******* Reading one record *******/

  lemma LengthsRead(e: EntryRecord)
    requires EntryFits(e)
    ensures var b := EntryLengths(e);
            U16(b, 0) == |e.name| && U16(b, 2) == |e.extra| && U16(b, 4) == |e.comment|
  {
    var x, y, z := LE16(|e.name|), LE16(|e.extra|), LE16(|e.comment|);
    assert EntryLengths(e) == [] + x + (y + z) == x + y + z == x + y + z + [];
    Read16([], |e.name|, y + z);
    Read16(x, |e.extra|, z);
    Read16(x + y, |e.comment|, []);
  }

  /** A written header is a signed entry that ends where it ends. */
  lemma EntryReads(before: Bytes, e: EntryRecord, after: Bytes)
    requires EntryFits(e)
    ensures EntryAt(before + EntryText(e) + after, |before|, |before| + |EntryText(e)|)
  {
    hide U16;
    var start, lengths, end := EntryStart(e), EntryLengths(e), EntryEnd(e);
    var file := before + EntryText(e) + after;
    assert file == (before + start) + lengths + (end + after);
    LengthsRead(e);
    Inside(before + start, lengths, end + after, 0);
    Inside(before + start, lengths, end + after, 2);
    Inside(before + start, lengths, end + after, 4);
    assert file[|before|..][..4] == start[..4];
    assert forall i :: 0 <= i < 4 ==> file[|before| + i] == start[..4][i];
  }

  /** A written directory is tiled by its entries. */
  lemma {:induction false} DirectoryIsTiled(before: Bytes, es: seq<EntryRecord>, after: Bytes)
    requires EntriesFit(es)
    ensures TiledBy(before + DirectoryText(es) + after, |before|, |before| + |DirectoryText(es)|, |es|)
  {
    hide EntryAt, EntryText;
    if es == [] {
      var file := before + DirectoryText(es) + after;
      var cuts: seq<nat> := [|before|];
      assert IsTiling(file, |before|, |before|, cuts);
    } else {
      var init, last := es[..|es| - 1], es[|es| - 1];
      DirectoryIsTiled(before, init, EntryText(last) + after);
      OneMoreEntry(before, DirectoryText(init), last, after, |init|);
    }
  }

  lemma OneMoreEntry(before: Bytes, written: Bytes, last: EntryRecord, after: Bytes, n: nat)
    requires EntryFits(last)
    requires TiledBy(before + written + (EntryText(last) + after), |before|, |before| + |written|, n)
    ensures TiledBy(before + (written + EntryText(last)) + after, |before|, |before| + |written + EntryText(last)|, n + 1)
  {
    hide EntryAt, EntryText, IsTiling;
    var file := before + (written + EntryText(last)) + after;
    assert file == before + written + (EntryText(last) + after);
    assert file == (before + written) + EntryText(last) + after;
    EntryReads(before + written, last, after);
    var mid, end := |before| + |written|, |before| + |written + EntryText(last)|;
    var cuts: seq<nat> :| IsTiling(file, |before|, mid, cuts) && |cuts| == n + 1;
    TilingExtends(file, |before|, mid, end, cuts);
    assert |cuts + [end]| == n + 2;
  }

  lemma TilingExtends(file: Bytes, start: nat, mid: nat, end: nat, cuts: seq<nat>)
    requires IsTiling(file, start, mid, cuts) && EntryAt(file, mid, end)
    ensures IsTiling(file, start, end, cuts + [end])
  {
    hide EntryAt;
    var longer := cuts + [end];
    forall i | 0 < i < |longer| ensures EntryAt(file, longer[i - 1], longer[i]) {
      assert i < |cuts| ==> longer[i - 1] == cuts[i - 1] && longer[i] == cuts[i];
    }
  }

  lemma EndReads(f: EndFields, comment: Bytes)
    requires EndFits(f, comment)
    ensures var b := EndRecord(f, comment);
            && EndSigned(b, 0) && U16(b, 4) == f.disk && U16(b, 6) == f.startDisk && U16(b, 8) == f.onDisk && U16(b, 10) == f.entries
            && U32(b, 12) == f.size && U32(b, 16) == f.offset && U16(b, 20) == |comment|
  {
    hide U16, U32, LE16, LE32;
    var b := EndRecord(f, comment);
    var a, c := LE16(f.disk) + LE16(f.startDisk), LE16(f.onDisk) + LE16(f.entries);
    var s, o, n := LE32(f.size), LE32(f.offset), LE16(|comment|);
    assert b == EOCD_SIGNATURE + LE16(f.disk) + (LE16(f.startDisk) + c + s + o + n + comment);
    Read16(EOCD_SIGNATURE, f.disk, LE16(f.startDisk) + c + s + o + n + comment);
    assert b == (EOCD_SIGNATURE + LE16(f.disk)) + LE16(f.startDisk) + (c + s + o + n + comment);
    Read16(EOCD_SIGNATURE + LE16(f.disk), f.startDisk, c + s + o + n + comment);
    assert b == (EOCD_SIGNATURE + a) + LE16(f.onDisk) + (LE16(f.entries) + s + o + n + comment);
    Read16(EOCD_SIGNATURE + a, f.onDisk, LE16(f.entries) + s + o + n + comment);
    assert b == (EOCD_SIGNATURE + a + LE16(f.onDisk)) + LE16(f.entries) + (s + o + n + comment);
    Read16(EOCD_SIGNATURE + a + LE16(f.onDisk), f.entries, s + o + n + comment);
    assert b == (EOCD_SIGNATURE + a + c) + s + (o + n + comment);
    Read32(EOCD_SIGNATURE + a + c, f.size, o + n + comment);
    assert b == (EOCD_SIGNATURE + a + c + s) + o + (n + comment);
    Read32(EOCD_SIGNATURE + a + c + s, f.offset, n + comment);
    assert b == (EOCD_SIGNATURE + a + c + s + o) + n + comment;
    Read16(EOCD_SIGNATURE + a + c + s + o, |comment|, comment);
  }

  /** The ZIP64 end record, version 1, of an archive on one disk. */
  function Zip64Record(madeBy: nat, needed: nat, entries: nat, size: nat, offset: nat): (b: Bytes)
    requires Is16(madeBy) && Is16(needed) && Is64(entries) && Is64(size) && Is64(offset)
    ensures |b| == ZIP64_EOCD_SIZE
  {
    ZIP64_EOCD_SIGNATURE + LE64(ZIP64_EOCD_SIZE - 12) + LE16(madeBy) + LE16(needed) + LE32(0) + LE32(0)
    + LE64(entries) + LE64(entries) + LE64(size) + LE64(offset)
  }

  predicate Is64(n: nat) { n < 0x1_0000_0000_0000_0000 }

  function Zip64Locator(record: nat): (b: Bytes)
    requires Is64(record)
    ensures |b| == ZIP64_LOCATOR_SIZE
  {
    ZIP64_LOCATOR_SIGNATURE + LE32(0) + LE64(record) + LE32(1)
  }

  lemma LocatorReads(record: nat)
    requires Is64(record)
    ensures var b := Zip64Locator(record);
            Signed(b, 0, ZIP64_LOCATOR_SIGNATURE) && U32(b, 4) == 0 && U64(b, 8) == record && U32(b, 16) == 1
  {
    hide U32, U64, LE32, LE64;
    var b, s := Zip64Locator(record), ZIP64_LOCATOR_SIGNATURE;
    assert b == s + LE32(0) + (LE64(record) + LE32(1));
    Read32(s, 0, LE64(record) + LE32(1));
    assert b == (s + LE32(0)) + LE64(record) + LE32(1);
    Read64(s + LE32(0), record, LE32(1));
    assert b == (s + LE32(0) + LE64(record)) + LE32(1) + [];
    Read32(s + LE32(0) + LE64(record), 1, []);
  }

  lemma Zip64RecordReads(madeBy: nat, needed: nat, entries: nat, size: nat, offset: nat)
    requires Is16(madeBy) && Is16(needed) && Is64(entries) && Is64(size) && Is64(offset)
    ensures var b := Zip64Record(madeBy, needed, entries, size, offset);
            && Signed(b, 0, ZIP64_EOCD_SIGNATURE) && U64(b, 4) == ZIP64_EOCD_SIZE - 12 && U32(b, 16) == 0 && U32(b, 20) == 0
            && U64(b, 24) == entries && U64(b, 32) == entries && U64(b, 40) == size && U64(b, 48) == offset
  {
    hide U32, U64, LE16, LE32, LE64;
    var b := Zip64Record(madeBy, needed, entries, size, offset);
    var head := ZIP64_EOCD_SIGNATURE + LE64(44) + LE16(madeBy) + LE16(needed);
    var n := LE64(entries);
    assert b == ZIP64_EOCD_SIGNATURE + LE64(44) + (LE16(madeBy) + LE16(needed) + LE32(0) + LE32(0) + n + n + LE64(size) + LE64(offset));
    Read64(ZIP64_EOCD_SIGNATURE, 44, LE16(madeBy) + LE16(needed) + LE32(0) + LE32(0) + n + n + LE64(size) + LE64(offset));
    assert b == head + LE32(0) + (LE32(0) + n + n + LE64(size) + LE64(offset));
    Read32(head, 0, LE32(0) + n + n + LE64(size) + LE64(offset));
    assert b == (head + LE32(0)) + LE32(0) + (n + n + LE64(size) + LE64(offset));
    Read32(head + LE32(0), 0, n + n + LE64(size) + LE64(offset));
    var fixed := head + LE32(0) + LE32(0);
    assert b == fixed + n + (n + LE64(size) + LE64(offset));
    Read64(fixed, entries, n + LE64(size) + LE64(offset));
    assert b == (fixed + n) + n + (LE64(size) + LE64(offset));
    Read64(fixed + n, entries, LE64(size) + LE64(offset));
    assert b == (fixed + n + n) + LE64(size) + LE64(offset);
    Read64(fixed + n + n, size, LE64(offset));
    assert b == (fixed + n + n + LE64(size)) + LE64(offset) + [];
    Read64(fixed + n + n + LE64(size), offset, []);
  }

  /******* Archives *******/

  // No other position competes with the end record at `eocd`: none is self-consistent, and a
  // comment holds no end signature.
  ghost predicate Unrivalled(file: Bytes, eocd: nat)
  {
    && (forall p :: 0 <= p < |file| && SelfConsistent(file, p) ==> p == eocd)
    && (eocd + EOCD_SIZE == |file| || NothingSignedAfter(file, eocd))
  }

  // It is enough that the signature occurs nowhere else.
  lemma OnceIsUnrivalled(file: Bytes, eocd: nat)
    requires forall p :: 0 <= p < |file| && EndSigned(file, p) ==> p == eocd
    ensures Unrivalled(file, eocd)
  {
  }

  // A file that ends with a written end record.
  lemma EndIsSelected(before: Bytes, f: EndFields, comment: Bytes)
    requires EndFits(f, comment)
    ensures var file := before + EndRecord(f, comment);
            && SelfConsistent(file, |before|) && (IsSelected(file, |before|) <==> Unrivalled(file, |before|))
            && (forall eocd :: IsSelected(file, eocd) ==> eocd == |before|)
            && U16(file, |before| + 4) == f.disk && U16(file, |before| + 6) == f.startDisk
            && U16(file, |before| + 8) == f.onDisk && U16(file, |before| + 10) == f.entries
            && U32(file, |before| + 12) == f.size && U32(file, |before| + 16) == f.offset
  {
    hide U16, U32;
    var end := EndRecord(f, comment);
    var file := before + end;
    EndReads(f, comment);
    assert file == before + end + [];
    forall at | at in {0, 4, 6, 8, 10, 12, 16} ensures
        && U16(file, |before| + at) == U16(end, at) && U32(file, |before| + at) == U32(end, at)
        && (EndSigned(file, |before| + at) <==> EndSigned(end, at)) {
      Inside(before, end, [], at);
    }
    Inside(before, end, [], 20);
    assert SelfConsistent(file, |before|);
  }

  predicate PlainFits(data: Bytes, es: seq<EntryRecord>, comment: Bytes)
  {
    && EntriesFit(es) && |es| < 0xFFFF && |DirectoryText(es)| < 0xFFFF_FFFF && |data| < 0xFFFF_FFFF && Is16(|comment|)
  }

  /** Local headers and data, the central directory, the end record. */
  function PlainArchive(data: Bytes, es: seq<EntryRecord>, comment: Bytes): Bytes
    requires PlainFits(data, es, comment)
  {
    data + DirectoryText(es) + EndRecord(EndFields(0, 0, |es|, |es|, |DirectoryText(es)|, |data|), comment)
  }

  /** A written archive is accepted exactly when it is within the limits and nothing competes
      with its end record; what stands before that record must not look like a ZIP64 locator. */
  lemma PlainIsAccepted(data: Bytes, es: seq<EntryRecord>, comment: Bytes, limits: Limits)
    requires PlainFits(data, es, comment)
    requires !HasLocator(PlainArchive(data, es, comment), |data| + |DirectoryText(es)|)
    ensures Accepted(PlainArchive(data, es, comment), limits) <==>
              && Unrivalled(PlainArchive(data, es, comment), |data| + |DirectoryText(es)|)
              && |es| <= limits.maxEntries && |DirectoryText(es)| <= limits.maxCentralDirectoryBytes
  {
    hide U16, U32, U64, IsSelected, Unrivalled, SelfConsistent, TiledBy, DirectoryText, EndRecord, HasLocator;
    var dir, fields := DirectoryText(es), EndFields(0, 0, |es|, |es|, |DirectoryText(es)|, |data|);
    var file, eocd := PlainArchive(data, es, comment), |data| + |dir|;
    EndIsSelected(data + dir, fields, comment);
    assert file == data + dir + EndRecord(fields, comment);
    DirectoryIsTiled(data, es, EndRecord(fields, comment));
    var d := Directory(|es|, |dir|, eocd);
    assert Describes(file, eocd, d);
    assert forall other :: Describes(file, eocd, other) ==> other == d;
    assert Accepts(file, limits, eocd, d) <==> Unrivalled(file, eocd) && WithinLimits(d, limits);
  }

  predicate Zip64Fits(data: Bytes, es: seq<EntryRecord>, madeBy: nat, needed: nat, f: EndFields, comment: Bytes)
  {
    && EntriesFit(es) && Is64(|es|) && Is64(|data| + |DirectoryText(es)|) && Is16(madeBy) && Is16(needed) && EndFits(f, comment)
  }

  function Zip64Archive(data: Bytes, es: seq<EntryRecord>, madeBy: nat, needed: nat, f: EndFields, comment: Bytes): Bytes
    requires Zip64Fits(data, es, madeBy, needed, f, comment)
  {
    var dir := DirectoryText(es);
    data + dir + Zip64Record(madeBy, needed, |es|, |dir|, |data|) + Zip64Locator(|data| + |dir|) + EndRecord(f, comment)
  }

  // The ZIP64 records of a file, written one after the other.
  lemma Zip64Reads(before: Bytes, madeBy: nat, needed: nat, entries: nat, size: nat, offset: nat, after: Bytes)
    requires Is16(madeBy) && Is16(needed) && Is64(entries) && Is64(|before|) && |before| == offset + size
    ensures var file := before + Zip64Record(madeBy, needed, entries, size, offset) + Zip64Locator(|before|) + after;
            var eocd := |before| + ZIP64_EOCD_SIZE + ZIP64_LOCATOR_SIZE;
            && HasLocator(file, eocd) && Zip64Describes(file, eocd, Directory(entries, size, |before|))
            && forall d :: Zip64Describes(file, eocd, d) ==> d == Directory(entries, size, |before|)
  {
    hide U32, U64, Zip64Record, Zip64Locator;
    var record, locator := Zip64Record(madeBy, needed, entries, size, offset), Zip64Locator(|before|);
    var file := before + record + locator + after;
    Zip64RecordReads(madeBy, needed, entries, size, offset);
    LocatorReads(|before|);
    assert file == before + record + (locator + after);
    forall at | at in {0, 4, 16, 20, 24, 32, 40, 48} ensures
        && U32(file, |before| + at) == U32(record, at) && U64(file, |before| + at) == U64(record, at)
        && (Signed(file, |before| + at, ZIP64_EOCD_SIGNATURE) <==> Signed(record, at, ZIP64_EOCD_SIGNATURE)) {
      Inside(before, record, locator + after, at);
    }
    assert file == (before + record) + locator + after;
    Inside(before + record, locator, after, 0);
    Inside(before + record, locator, after, 4);
    Inside(before + record, locator, after, 8);
    Inside(before + record, locator, after, 16);
  }

  /** The same for an archive with ZIP64 records: whatever the fields of its end record hold. */
  lemma Zip64IsAccepted(data: Bytes, es: seq<EntryRecord>, madeBy: nat, needed: nat, f: EndFields, comment: Bytes, limits: Limits)
    requires Zip64Fits(data, es, madeBy, needed, f, comment)
    ensures var eocd := |data| + |DirectoryText(es)| + ZIP64_EOCD_SIZE + ZIP64_LOCATOR_SIZE;
            Accepted(Zip64Archive(data, es, madeBy, needed, f, comment), limits) <==>
              && Unrivalled(Zip64Archive(data, es, madeBy, needed, f, comment), eocd)
              && |es| <= limits.maxEntries && |DirectoryText(es)| <= limits.maxCentralDirectoryBytes
  {
    hide U16, U32, U64, IsSelected, Unrivalled, SelfConsistent, TiledBy, DirectoryText, EndRecord, HasLocator, Zip64Describes,
      Zip64Record, Zip64Locator;
    var dir := DirectoryText(es);
    var record, locator, end := Zip64Record(madeBy, needed, |es|, |dir|, |data|), Zip64Locator(|data| + |dir|), EndRecord(f, comment);
    var file, eocd := Zip64Archive(data, es, madeBy, needed, f, comment), |data| + |dir| + ZIP64_EOCD_SIZE + ZIP64_LOCATOR_SIZE;
    EndIsSelected(data + dir + record + locator, f, comment);
    Zip64Reads(data + dir, madeBy, needed, |es|, |dir|, |data|, end);
    assert file == data + dir + (record + locator + end);
    DirectoryIsTiled(data, es, record + locator + end);
    var d := Directory(|es|, |dir|, |data| + |dir|);
    assert Describes(file, eocd, d);
    assert forall other :: Describes(file, eocd, other) ==> other == d;
    assert Accepts(file, limits, eocd, d) <==> Unrivalled(file, eocd) && WithinLimits(d, limits);
  }
}
