/** The plan artifact as a JSON document (scripts/checkpoints/planner.py and records.py): what the
    planner writes, what `decode_plan_artifact` accepts, and the bounds on both.

    Documents are JSON trees with their fields in canonical order.  A formatted UTC instant and
    a SHA-256 value are leaves of their own. */
module PlanDocument {
  import opened Options
  import opened Records
  import opened RetentionLog
  import opened RetentionStore
  import opened Sharding
  import opened RetentionOperations

  datatype Json =
    | Null
    | Number(number: int)
    | Text(text: string)
    | Utc(seconds: int)
    | Hash(digest: Digest)
    | Array(items: seq<Json>)
    | Object(fields: seq<Field>)

  datatype Field = Field(name: string, value: Json)

  const MAX_JSON_DEPTH := 16
  const MAX_PLAN_NODES := 600_128
  const MAX_SHARD_BYTES := 1_048_576
  const MAX_OBJECT_BYTES := 10_737_418_240
  const MAX_OBJECTS := 100_000
  const MAX_PLAN_BODY := 134_217_728

  /******* Bounds of a tree *******/

  function Nodes(j: Json): nat
  {
    match j
    case Array(items) => 1 + NodesOf(items)
    case Object(fields) => 1 + NodesIn(fields)
    case _ => 1
  }

  function NodesOf(items: seq<Json>): nat
  {
    if items == [] then 0 else NodesOf(items[..|items| - 1]) + Nodes(items[|items| - 1])
  }

  function NodesIn(fields: seq<Field>): nat
  {
    if fields == [] then 0 else NodesIn(fields[..|fields| - 1]) + Nodes(fields[|fields| - 1].value)
  }

  function Max(a: nat, b: nat): nat { if a < b then b else a }

  // How many levels lie below the root.
  function Depth(j: Json): nat
  {
    match j
    case Array(items) => DepthOf(items)
    case Object(fields) => DepthIn(fields)
    case _ => 0
  }

  function DepthOf(items: seq<Json>): nat
  {
    if items == [] then 0 else Max(DepthOf(items[..|items| - 1]), 1 + Depth(items[|items| - 1]))
  }

  function DepthIn(fields: seq<Field>): nat
  {
    if fields == [] then 0 else Max(DepthIn(fields[..|fields| - 1]), 1 + Depth(fields[|fields| - 1].value))
  }

  lemma {:induction false} ItemsPrefix(items: seq<Json>, i: nat)
    requires i < |items|
    ensures NodesOf(items[..i + 1]) == NodesOf(items[..i]) + Nodes(items[i]) <= NodesOf(items)
    ensures DepthOf(items[..i + 1]) == Max(DepthOf(items[..i]), 1 + Depth(items[i])) <= DepthOf(items)
  {
    assert items[..i + 1][..i] == items[..i];
    if i + 1 == |items| {
      assert items[..i + 1] == items;
    } else {
      assert items[..|items| - 1][..i + 1] == items[..i + 1] && items[..|items| - 1][..i] == items[..i];
      ItemsPrefix(items[..|items| - 1], i);
    }
  }

  lemma {:induction false} FieldsPrefix(fields: seq<Field>, i: nat)
    requires i < |fields|
    ensures NodesIn(fields[..i + 1]) == NodesIn(fields[..i]) + Nodes(fields[i].value) <= NodesIn(fields)
    ensures DepthIn(fields[..i + 1]) == Max(DepthIn(fields[..i]), 1 + Depth(fields[i].value)) <= DepthIn(fields)
  {
    assert fields[..i + 1][..i] == fields[..i];
    if i + 1 == |fields| {
      assert fields[..i + 1] == fields;
    } else {
      assert fields[..|fields| - 1][..i + 1] == fields[..i + 1] && fields[..|fields| - 1][..i] == fields[..i];
      FieldsPrefix(fields[..|fields| - 1], i);
    }
  }

  /** `_check_decoded_bounds`, with its running node counter: it passes exactly the trees within
      both bounds. */
  method CheckBounds(value: Json, maxDepth: int, depth: int, nodes: nat, maxNodes: int) returns (ok: bool, count: nat)
    ensures ok <==> nodes + Nodes(value) <= maxNodes && depth + Depth(value) <= maxDepth
    ensures ok ==> count == nodes + Nodes(value)
    decreases value
  {
    count := nodes + 1;
    if count > maxNodes || depth > maxDepth { return false, count; }
    if value.Array? {
      ok, count := CheckItems(value.items, maxDepth, depth, count, maxNodes);
    } else if value.Object? {
      ok, count := CheckFields(value.fields, maxDepth, depth, count, maxNodes);
    } else {
      ok := true;
    }
  }

  method CheckItems(items: seq<Json>, maxDepth: int, depth: int, nodes: nat, maxNodes: int) returns (ok: bool, count: nat)
    requires nodes <= maxNodes && depth <= maxDepth
    ensures ok <==> nodes + NodesOf(items) <= maxNodes && depth + DepthOf(items) <= maxDepth
    ensures ok ==> count == nodes + NodesOf(items)
    decreases items
  {
    hide Nodes, Depth;
    count := nodes;
    for i := 0 to |items|
      invariant count == nodes + NodesOf(items[..i]) <= maxNodes && depth + DepthOf(items[..i]) <= maxDepth
    {
      ItemsPrefix(items, i);
      ok, count := CheckBounds(items[i], maxDepth, depth + 1, count, maxNodes);
      if !ok { return; }
    }
    assert items[..|items|] == items;
    ok := true;
  }

  method CheckFields(fields: seq<Field>, maxDepth: int, depth: int, nodes: nat, maxNodes: int) returns (ok: bool, count: nat)
    requires nodes <= maxNodes && depth <= maxDepth
    ensures ok <==> nodes + NodesIn(fields) <= maxNodes && depth + DepthIn(fields) <= maxDepth
    ensures ok ==> count == nodes + NodesIn(fields)
    decreases fields
  {
    hide Nodes, Depth;
    count := nodes;
    for i := 0 to |fields|
      invariant count == nodes + NodesIn(fields[..i]) <= maxNodes && depth + DepthIn(fields[..i]) <= maxDepth
    {
      FieldsPrefix(fields, i);
      ok, count := CheckBounds(fields[i].value, maxDepth, depth + 1, count, maxNodes);
      if !ok { return; }
    }
    assert fields[..|fields|] == fields;
    ok := true;
  }

  /******* The document of a plan *******/

  datatype Plan = Plan(summary: seq<Field>, shards: Shards)

  function RecordTree(r: ObjectRecord): Json
  {
    Object([Field("etag", Text(r.etag)), Field("key", Text(r.key)), Field("last_modified", Utc(r.lastModified)),
            Field("size_bytes", Number(r.sizeBytes))])
  }

  function ShardTree(rs: seq<ObjectRecord>): Json
  {
    Array(seq(|rs|, i requires 0 <= i < |rs| => RecordTree(rs[i])))
  }

  function PlanTree(p: Plan): Json
  {
    Object([Field("schema_version", Number(1)),
            Field("shards", Array(seq(|p.shards|, i requires 0 <= i < |p.shards| => ShardTree(p.shards[i])))),
            Field("summary", Object(p.summary))])
  }

  function DigestList(shards: Shards): Json
  {
    Array(seq(|shards|, i requires 0 <= i < |shards| => Hash(Sha256(ManifestShard(shards[i])))))
  }

  predicate Lists(summary: seq<Field>, shards: Shards)
  {
    exists i :: 0 <= i < |summary| && summary[i] == Field("manifest_shards", DigestList(shards))
  }

  predicate ShardAccepted(text: ObjectRecord -> string, rs: seq<ObjectRecord>, maxShardBytes: int)
  {
    && rs != [] && Fits(text, rs, maxShardBytes) && Canonical(rs) == Some(rs)
    && forall i :: 0 <= i < |rs| ==> ValidRecord(rs[i])
  }

  // `printed` gives the length of a document's canonical text.
  predicate Accepted(text: ObjectRecord -> string, printed: Json -> nat, p: Plan, maxBodyBytes: int, maxShardBytes: int, maxNodes: int)
  {
    && p.shards != [] && printed(PlanTree(p)) <= maxBodyBytes
    && Nodes(PlanTree(p)) <= maxNodes && Depth(PlanTree(p)) <= MAX_JSON_DEPTH
    && (forall i :: 0 <= i < |p.shards| ==> ShardAccepted(text, p.shards[i], maxShardBytes))
    && Lists(p.summary, p.shards)
  }

  /******* Valid records *******/

  function Utf8Length(s: string): nat
  {
    if s == [] then 0
    else Utf8Length(s[..|s| - 1]) + (var c := s[|s| - 1] as int;
                                     if c < 0x80 then 1 else if c < 0x800 then 2 else if c < 0x1_0000 then 3 else 4)
  }

  predicate SafePart(part: string) { part != "" && part != "." && part != ".." }

  // Every maximal slash-free part of `s` is safe.
  predicate SafeParts(s: string)
  {
    forall i, j :: 0 <= i <= j <= |s| && (i == 0 || s[i - 1] == '/') && (j == |s| || s[j] == '/') && (forall k :: i <= k < j ==> s[k] != '/')
                   ==> SafePart(s[i..j])
  }

  /** `_safe_key`. */
  predicate SafeKey(s: string)
  {
    && s != "" && Utf8Length(s) <= 1024 && SafeParts(s)
    && forall i :: 0 <= i < |s| ==> s[i] != '\\' && s[i] as int >= 0x20 && s[i] as int != 0x7F
  }

  /** No accepted key is absolute, climbs, or has an empty or dotted part. */
  lemma UnsafeKeysRefused(a: string, part: string, b: string)
    requires part in {"", ".", ".."}
    ensures !SafeKey(part) && !SafeKey(part + "/" + b) && !SafeKey(a + "/" + part) && !SafeKey(a + "/" + part + "/" + b)
  {
    PartsAreChecked("", part, "");
    PartsAreChecked("", part, "/" + b);
    PartsAreChecked(a + "/", part, "");
    PartsAreChecked(a + "/", part, "/" + b);
    assert "" + part + "" == part && "" + part + ("/" + b) == part + "/" + b;
    assert a + "/" + part + "" == a + "/" + part && a + "/" + part + ("/" + b) == a + "/" + part + "/" + b;
  }

  lemma PartsAreChecked(before: string, part: string, after: string)
    requires before == "" || before[|before| - 1] == '/'
    requires after == "" || after[0] == '/'
    requires forall i :: 0 <= i < |part| ==> part[i] != '/'
    ensures SafeParts(before + part + after) ==> SafePart(part)
  {
    var s, i, j := before + part + after, |before|, |before| + |part|;
    assert s[i..j] == part;
  }

  predicate HexDigits(s: string)
  {
    forall i :: 0 <= i < |s| ==> '0' <= s[i] <= '9' || 'a' <= s[i] <= 'f'
  }

  predicate ValidEtag(s: string)
  {
    && |s| >= 32 && HexDigits(s[..32])
    && (|s| > 32 ==> && s[32] == '-' && 34 <= |s| <= 43 && s[33] != '0'
                     && forall i :: 33 <= i < |s| ==> '0' <= s[i] <= '9')
  }

  predicate ValidRecord(r: ObjectRecord)
  {
    SafeKey(r.key) && ValidEtag(r.etag) && r.sizeBytes > 0
  }

  /******* Decoding *******/

  predicate IsRecordTree(j: Json)
  {
    && j.Object? && |j.fields| == 4
    && j.fields[0].name == "etag" && j.fields[0].value.Text?
    && j.fields[1].name == "key" && j.fields[1].value.Text?
    && j.fields[2].name == "last_modified" && j.fields[2].value.Utc?
    && j.fields[3].name == "size_bytes" && j.fields[3].value.Number? && j.fields[3].value.number >= 0
  }

  function RecordOf(j: Json): ObjectRecord
    requires IsRecordTree(j)
  {
    ObjectRecord(j.fields[1].value.text, j.fields[0].value.text, j.fields[3].value.number, j.fields[2].value.seconds)
  }

  lemma RecordRoundTrip(j: Json)
    ensures forall r :: j == RecordTree(r) ==> IsRecordTree(j) && RecordOf(j) == r
    ensures IsRecordTree(j) ==> j == RecordTree(RecordOf(j))
  {
  }

  /** The inner loop of `decode_plan_artifact`: accepts exactly the trees of accepted shards. */
  method DecodeShard(text: ObjectRecord -> string, j: Json, maxShardBytes: int) returns (r: Option<seq<ObjectRecord>>)
    ensures r.Some? ==> j == ShardTree(r.value) && ShardAccepted(text, r.value, maxShardBytes)
    ensures r == None ==> forall rs :: j == ShardTree(rs) ==> !ShardAccepted(text, rs, maxShardBytes)
  {
    hide RecordTree, IsRecordTree, RecordOf, ValidRecord, Fits, Canonical;
    if !j.Array? || j.items == [] { return None; }
    var records: seq<ObjectRecord> := [];
    for i := 0 to |j.items|
      invariant |records| == i
      invariant forall k :: 0 <= k < i ==> j.items[k] == RecordTree(records[k]) && ValidRecord(records[k])
      invariant forall rs :: j == ShardTree(rs) ==> rs[..i] == records
    {
      RecordRoundTrip(j.items[i]);
      assert forall rs :: j == ShardTree(rs) ==> j.items[i] == RecordTree(rs[i]);
      if !IsRecordTree(j.items[i]) || !ValidRecord(RecordOf(j.items[i])) { return None; }
      records := records + [RecordOf(j.items[i])];
    }
    assert forall rs :: j == ShardTree(rs) ==> rs[..|j.items|] == rs;
    if Canonical(records) != Some(records) || !Fits(text, records, maxShardBytes) { return None; }
    assert j.items == ShardTree(records).items;
    return Some(records);
  }

  predicate IsPlanTree(j: Json)
  {
    && j.Object? && |j.fields| == 3
    && j.fields[0] == Field("schema_version", Number(1))
    && j.fields[1].name == "shards" && j.fields[1].value.Array? && j.fields[1].value.items != []
    && j.fields[2].name == "summary" && j.fields[2].value.Object?
  }

  /** `decode_plan_artifact`: gives back exactly the plan whose document it was given, and
      refuses everything that is not the document of an acceptable plan. */
  method DecodePlan(text: ObjectRecord -> string, printed: Json -> nat, j: Json, maxBodyBytes: int, maxShardBytes: int, maxNodes: int)
    returns (r: Option<Plan>)
    ensures r.Some? ==> j == PlanTree(r.value) && Accepted(text, printed, r.value, maxBodyBytes, maxShardBytes, maxNodes)
    ensures r == None ==> forall p :: j == PlanTree(p) ==> !Accepted(text, printed, p, maxBodyBytes, maxShardBytes, maxNodes)
  {
    hide ShardAccepted, ShardTree, Lists, Nodes, Depth;
    if printed(j) > maxBodyBytes { return None; }
    if !IsPlanTree(j) { return None; }
    var within, _ := CheckBounds(j, MAX_JSON_DEPTH, 0, 0, maxNodes);
    if !within { return None; }
    var raw := j.fields[1].value.items;
    var shards: Shards := [];
    for i := 0 to |raw|
      invariant |shards| == i
      invariant forall k :: 0 <= k < i ==> raw[k] == ShardTree(shards[k]) && ShardAccepted(text, shards[k], maxShardBytes)
      invariant forall p :: j == PlanTree(p) ==> p.shards[..i] == shards
    {
      assert forall p :: j == PlanTree(p) ==> raw[i] == ShardTree(p.shards[i]);
      var shard := DecodeShard(text, raw[i], maxShardBytes);
      if shard == None { return None; }
      forall rs | raw[i] == ShardTree(rs) ensures rs == shard.value { ShardTreeInjective(rs, shard.value); }
      shards := shards + [shard.value];
    }
    var summary := j.fields[2].value.fields;
    assert forall p :: j == PlanTree(p) ==> p.shards[..|raw|] == p.shards && p.summary == summary;
    if !Lists(summary, shards) { return None; }
    assert raw == PlanTree(Plan(summary, shards)).fields[1].value.items;
    assert j.fields == PlanTree(Plan(summary, shards)).fields;
    return Some(Plan(summary, shards));
  }

  lemma ShardTreeInjective(a: seq<ObjectRecord>, b: seq<ObjectRecord>)
    requires ShardTree(a) == ShardTree(b)
    ensures a == b
  {
    assert |a| == |b|;
    forall i | 0 <= i < |a| ensures a[i] == b[i] {
      assert RecordTree(a[i]) == ShardTree(a).items[i] == ShardTree(b).items[i] == RecordTree(b[i]);
    }
  }

  /******* The canonical JSON of one record *******/

  function HexDigit(n: nat): char
    requires n < 16
  {
    "0123456789abcdef"[n]
  }

  function Hex4(n: nat): (s: string)
    requires n < 0x1_0000
    ensures |s| == 4
  {
    [HexDigit(n / 4096), HexDigit(n / 256 % 16), HexDigit(n / 16 % 16), HexDigit(n % 16)]
  }

  // ASCII output: everything above it becomes one or two \u escapes.
  function Escaped(c: char): string
  {
    var n := c as int;
    if c == '"' || c == '\\' then ['\\', c]
    else if 0x20 <= n < 0x80 then [c]
    else if n < 0x1_0000 then "\\u" + Hex4(n)
    else "\\u" + Hex4(0xD800 + (n - 0x1_0000) / 0x400 % 0x400) + "\\u" + Hex4(0xDC00 + (n - 0x1_0000) % 0x400)
  }

  function EscapedAll(s: string): string
  {
    if s == [] then "" else EscapedAll(s[..|s| - 1]) + Escaped(s[|s| - 1])
  }

  function Decimal(n: nat): string
  {
    if n < 10 then [HexDigit(n)] else Decimal(n / 10) + [HexDigit(n % 10)]
  }

  /** The record as `canonical_json_bytes` prints it; `stamp` formats an instant in 20 characters. */
  function RecordText(stamp: int -> string, r: ObjectRecord): string
  {
    "{\"etag\":\"" + r.etag + "\",\"key\":\"" + EscapedAll(r.key) + "\",\"last_modified\":\"" + stamp(r.lastModified)
    + "\",\"size_bytes\":" + Decimal(r.sizeBytes) + "}"
  }

  const MAX_RECORD_BYTES := 9 + 43 + 9 + 3 * 1024 + 19 + 20 + 15 + 11 + 1

  lemma {:induction false} EscapedBound(s: string)
    requires forall i :: 0 <= i < |s| ==> s[i] as int >= 0x20
    ensures |EscapedAll(s)| <= 3 * Utf8Length(s)
  {
    if s != [] {
      EscapedBound(s[..|s| - 1]);
      assert s[|s| - 1] as int >= 0x20;
    }
  }

  // `bound` is ten to the power `digits`.
  lemma {:induction false} DecimalBound(n: nat, digits: nat, bound: nat)
    requires digits >= 1 && n < bound && bound == Power10(digits)
    ensures |Decimal(n)| <= digits
    decreases digits
  {
    if n >= 10 {
      DecimalBound(n / 10, digits - 1, Power10(digits - 1));
    }
  }

  function Power10(digits: nat): nat
  {
    if digits == 0 then 1 else 10 * Power10(digits - 1)
  }

  lemma RecordTextBound(stamp: int -> string, r: ObjectRecord)
    requires ValidRecord(r) && r.sizeBytes <= MAX_OBJECT_BYTES && |stamp(r.lastModified)| == 20
    ensures |RecordText(stamp, r)| <= MAX_RECORD_BYTES
  {
    hide Escaped, SafeParts, HexDigits;
    EscapedBound(r.key);
    assert Power10(5) == 100_000;
    assert Power10(11) == 100_000_000_000;
    DecimalBound(r.sizeBytes, 11, Power10(11));
  }

  /******* What the planner writes *******/

  lemma {:induction false} WeightBound(text: ObjectRecord -> string, rs: seq<ObjectRecord>)
    requires forall i :: 0 <= i < |rs| ==> |text(rs[i])| <= MAX_RECORD_BYTES
    ensures Weight(text, rs) <= |rs| * (MAX_RECORD_BYTES + 1)
  {
    if rs != [] { WeightBound(text, rs[..|rs| - 1]); }
  }

  // A shard that had no room for one more record holds at least 326.
  lemma FullShardIsLong(text: ObjectRecord -> string, rs: seq<ObjectRecord>)
    requires !Fits(text, rs, MAX_SHARD_BYTES) && forall i :: 0 <= i < |rs| ==> |text(rs[i])| <= MAX_RECORD_BYTES
    ensures |rs| >= 327
  {
    ArrayLength(text, rs);
    WeightBound(text, rs);
  }

  predicate AllShort(text: ObjectRecord -> string, rs: seq<ObjectRecord>)
  {
    forall i :: 0 <= i < |rs| ==> |text(rs[i])| <= MAX_RECORD_BYTES
  }

  lemma {:induction false} FewShards(text: ObjectRecord -> string, shards: Shards, k: nat)
    requires NoneEmpty(shards) && NoRoom(text, shards, MAX_SHARD_BYTES) && AllShort(text, Flatten(shards)) && k < |shards|
    ensures 326 * k <= |Flatten(shards[..k])|
  {
    hide Flatten, Fits;
    if k > 0 {
      FewShards(text, shards, k - 1);
      ShardIsSlice(shards, k - 1);
      SpillIsSlice(shards, k - 1);
      var a := |Flatten(shards[..k - 1])|;
      var spill := shards[k - 1] + [shards[k][0]];
      assert Full(text, shards, MAX_SHARD_BYTES, k - 1);
      assert forall i :: 0 <= i < |spill| ==> spill[i] == Flatten(shards)[a + i];
      FullShardIsLong(text, spill);
    }
  }

  // What the planner puts in the summary besides the inventory and its shards.
  datatype Header = Header(actor: string, checkpointId: string, decision: string, eligibleAfter: Option<int>, evaluatedAt: int,
                           newest: int, inventory: Digest, policy: string, prefix: string, prefixHash: Digest,
                           refusals: seq<string>, anchor: Option<int>)

  function Summary(h: Header, records: seq<ObjectRecord>, shards: Shards): seq<Field>
  {
    [Field("actor", Text(h.actor)), Field("checkpoint_id", Text(h.checkpointId)), Field("decision", Text(h.decision)),
     Field("eligible_after", OptionalUtc(h.eligibleAfter)), Field("evaluated_at", Utc(h.evaluatedAt)),
     Field("inventory", Object([Field("newest_last_modified", Utc(h.newest)), Field("object_count", Number(|records|)),
                                Field("sha256", Hash(h.inventory)), Field("total_bytes", Number(TotalBytes(records)))])),
     Field("manifest_shards", DigestList(shards)), Field("policy_sha256", Text(h.policy)), Field("prefix", Text(h.prefix)),
     Field("prefix_sha256", Hash(h.prefixHash)),
     Field("refusal_codes", Array(seq(|h.refusals|, i requires 0 <= i < |h.refusals| => Text(h.refusals[i])))),
     Field("retention_anchor", OptionalUtc(h.anchor)), Field("schema_version", Number(1))]
  }

  function OptionalUtc(t: Option<int>): Json
  {
    if t.Some? then Utc(t.value) else Null
  }

  lemma {:induction false} LeafArray(items: seq<Json>)
    requires forall i :: 0 <= i < |items| ==> Nodes(items[i]) == 1 && Depth(items[i]) == 0
    ensures NodesOf(items) == |items| && DepthOf(items) <= 1
  {
    hide Nodes, Depth;
    if items != [] { LeafArray(items[..|items| - 1]); }
  }

  lemma FieldsOneMore(fields: seq<Field>, f: Field)
    ensures NodesIn(fields + [f]) == NodesIn(fields) + Nodes(f.value)
    ensures DepthIn(fields + [f]) == Max(DepthIn(fields), 1 + Depth(f.value))
  {
    assert (fields + [f])[..|fields|] == fields;
  }

  lemma ThreeFields(a: Field, b: Field, c: Field)
    ensures NodesIn([a, b, c]) == Nodes(a.value) + Nodes(b.value) + Nodes(c.value)
    ensures DepthIn([a, b, c]) == 1 + Max(Max(Depth(a.value), Depth(b.value)), Depth(c.value))
  {
    hide Nodes, Depth;
    FieldsOneMore([], a);
    FieldsOneMore([a], b);
    FieldsOneMore([a, b], c);
    assert [a] == [] + [a] && [a, b] == [a] + [b] && [a, b, c] == [a, b] + [c];
  }

  lemma FourLeaves(a: Field, b: Field, c: Field, d: Field)
    requires Nodes(a.value) == Nodes(b.value) == Nodes(c.value) == Nodes(d.value) == 1
    requires Depth(a.value) == Depth(b.value) == Depth(c.value) == Depth(d.value) == 0
    ensures NodesIn([a, b, c, d]) == 4 && DepthIn([a, b, c, d]) == 1
  {
    hide Nodes, Depth;
    ThreeFields(a, b, c);
    FieldsOneMore([a, b, c], d);
    assert [a, b, c, d] == [a, b, c] + [d];
  }

  lemma RecordNodes(r: ObjectRecord)
    ensures Nodes(RecordTree(r)) == 5 && Depth(RecordTree(r)) == 1
  {
    FourLeaves(Field("etag", Text(r.etag)), Field("key", Text(r.key)), Field("last_modified", Utc(r.lastModified)),
               Field("size_bytes", Number(r.sizeBytes)));
  }

  lemma {:induction false} ShardNodes(rs: seq<ObjectRecord>)
    ensures Nodes(ShardTree(rs)) == 1 + 5 * |rs| && Depth(ShardTree(rs)) <= 2
  {
    hide RecordTree;
    if rs != [] {
      var n := |rs| - 1;
      ShardNodes(rs[..n]);
      RecordNodes(rs[n]);
      assert ShardTree(rs).items[..n] == ShardTree(rs[..n]).items;
    }
  }

  function ShardTrees(shards: Shards): seq<Json>
  {
    seq(|shards|, i requires 0 <= i < |shards| => ShardTree(shards[i]))
  }

  lemma {:induction false} ShardsNodes(shards: Shards)
    ensures NodesOf(ShardTrees(shards)) == |shards| + 5 * |Flatten(shards)| && DepthOf(ShardTrees(shards)) <= 3
  {
    hide ShardTree;
    if shards != [] {
      var n := |shards| - 1;
      ShardsNodes(shards[..n]);
      ShardNodes(shards[n]);
      assert ShardTrees(shards)[..n] == ShardTrees(shards[..n]);
    }
  }

  // Every field value of the summary is a leaf, a list of leaves, or an object of leaves.
  lemma {:induction false} ShallowFields(fields: seq<Field>)
    requires forall i :: 0 <= i < |fields| ==> Depth(fields[i].value) <= 1
    ensures DepthIn(fields) <= 2
  {
    hide Nodes, Depth;
    if fields != [] { ShallowFields(fields[..|fields| - 1]); }
  }

  lemma SummaryNodes(h: Header, records: seq<ObjectRecord>, shards: Shards)
    ensures NodesIn(Summary(h, records, shards)) == 17 + |shards| + |h.refusals|
    ensures DepthIn(Summary(h, records, shards)) <= 2
  {
    var f := Summary(h, records, shards);
    hide Summary, Nodes, Depth;
    FieldNodes(h, records, shards);
    ShallowFields(f);
    ThirteenFields(f, 13);
    assert f[..13] == f;
  }

  lemma FieldNodes(h: Header, records: seq<ObjectRecord>, shards: Shards)
    ensures var f := Summary(h, records, shards);
            && |f| == 13
            && (forall i :: 0 <= i < 13 ==> Depth(f[i].value) <= 1)
            && (forall i :: 0 <= i < 13 && i != 5 && i != 6 && i != 10 ==> Nodes(f[i].value) == 1)
            && Nodes(f[5].value) == 5 && Nodes(f[6].value) == 1 + |shards| && Nodes(f[10].value) == 1 + |h.refusals|
  {
    FourLeaves(Field("newest_last_modified", Utc(h.newest)), Field("object_count", Number(|records|)),
               Field("sha256", Hash(h.inventory)), Field("total_bytes", Number(TotalBytes(records))));
    LeafArray(DigestList(shards).items);
    LeafArray(seq(|h.refusals|, i requires 0 <= i < |h.refusals| => Text(h.refusals[i])));
  }

  // All but the fields 5, 6 and 10 are leaves.
  lemma {:induction false} ThirteenFields(f: seq<Field>, k: nat)
    requires |f| == 13 && k <= 13 && forall i :: 0 <= i < 13 && i != 5 && i != 6 && i != 10 ==> Nodes(f[i].value) == 1
    ensures NodesIn(f[..k]) == k + (if k > 5 then Nodes(f[5].value) - 1 else 0) + (if k > 6 then Nodes(f[6].value) - 1 else 0)
                               + (if k > 10 then Nodes(f[10].value) - 1 else 0)
  {
    hide Nodes, Depth, DepthIn;
    if k > 0 {
      ThirteenFields(f, k - 1);
      FieldsPrefix(f, k - 1);
    }
  }

  /** The node count of a plan, field by field. */
  lemma PlanNodes(h: Header, records: seq<ObjectRecord>, shards: Shards)
    ensures Nodes(PlanTree(Plan(Summary(h, records, shards), shards))) == 21 + |h.refusals| + 2 * |shards| + 5 * |Flatten(shards)|
    ensures Depth(PlanTree(Plan(Summary(h, records, shards), shards))) <= 4
  {
    hide Summary, Flatten, NodesIn, NodesOf, DepthIn, DepthOf;
    var f := PlanTree(Plan(Summary(h, records, shards), shards)).fields;
    SummaryNodes(h, records, shards);
    ShardsNodes(shards);
    assert f[1].value.items == ShardTrees(shards);
    ThreeFields(f[0], f[1], f[2]);
    assert f == [f[0], f[1], f[2]];
  }

  /** Within 100,000 objects and 1 MiB shards no plan ever exceeds its node bound. */
  lemma PlanWithinNodeBound(text: ObjectRecord -> string, h: Header, records: seq<ObjectRecord>, shards: Shards)
    requires NoneEmpty(shards) && NoRoom(text, shards, MAX_SHARD_BYTES) && AllShort(text, Flatten(shards))
    requires |Flatten(shards)| <= MAX_OBJECTS && |h.refusals| <= 34
    ensures Nodes(PlanTree(Plan(Summary(h, records, shards), shards))) <= MAX_PLAN_NODES
    ensures Depth(PlanTree(Plan(Summary(h, records, shards), shards))) <= MAX_JSON_DEPTH
  {
    hide Summary, Flatten, PlanTree, Nodes, Depth, NoRoom;
    PlanNodes(h, records, shards);
    if shards != [] {
      FewShards(text, shards, |shards| - 1);
      ShardIsSlice(shards, |shards| - 1);
    }
  }

  /******* From planner to prepare *******/

  lemma SliceAscending(all: seq<ObjectRecord>, a: nat, b: nat)
    requires Ascending(all) && a <= b <= |all|
    ensures Ascending(all[a..b])
  {
  }

  /** Every plan that the planner writes is one that the decoder accepts. */
  lemma PlannedIsAccepted(text: ObjectRecord -> string, printed: Json -> nat, h: Header, records: seq<ObjectRecord>, shards: Shards)
    requires printed(PlanTree(Plan(Summary(h, records, shards), shards))) <= MAX_PLAN_BODY
    requires Canonical(records).Some? && Flatten(shards) == Canonical(records).value && records != []
    requires NoneEmpty(shards) && AllFit(text, shards, MAX_SHARD_BYTES) && NoRoom(text, shards, MAX_SHARD_BYTES)
    requires forall r :: r in records ==> ValidRecord(r) && |text(r)| <= MAX_RECORD_BYTES
    requires |records| <= MAX_OBJECTS && |h.refusals| <= 34
    ensures Accepted(text, printed, Plan(Summary(h, records, shards), shards), MAX_PLAN_BODY, MAX_SHARD_BYTES, MAX_PLAN_NODES)
  {
    hide ValidRecord, Fits, Canonical, Flatten, NoRoom, Nodes, Depth, PlanTree, Ascending, MAX_RECORD_BYTES;
    CanonicalCharacterised(records);
    var all := Flatten(shards);
    assert |all| == |records| by { assert |multiset(all)| == |multiset(records)|; }
    forall i | 0 <= i < |all| ensures all[i] in records { assert all[i] in multiset(all); }
    PlanWithinNodeBound(text, h, records, shards);
    assert Summary(h, records, shards)[6] == Field("manifest_shards", DigestList(shards));
    forall k | 0 <= k < |shards| ensures ShardAccepted(text, shards[k], MAX_SHARD_BYTES) {
      ShardIsSlice(shards, k);
      var a := |Flatten(shards[..k])|;
      SliceAscending(all, a, a + |shards[k]|);
      CanonicalOfAscending(shards[k]);
      forall i | 0 <= i < |shards[k]| ensures ValidRecord(shards[k][i]) { assert shards[k][i] == all[a + i]; }
    }
    EmptyArray(text);
  }

  lemma PlanTreeInjective(p: Plan, q: Plan)
    requires PlanTree(p) == PlanTree(q)
    ensures p == q
  {
    hide ShardTree;
    assert PlanTree(p).fields[1] == PlanTree(q).fields[1] && PlanTree(p).fields[2] == PlanTree(q).fields[2];
    assert |p.shards| == |q.shards|;
    forall i | 0 <= i < |p.shards| ensures p.shards[i] == q.shards[i] {
      assert ShardTree(p.shards[i]) == PlanTree(p).fields[1].value.items[i] == ShardTree(q.shards[i]);
      ShardTreeInjective(p.shards[i], q.shards[i]);
    }
  }

  /** From the planner through the decoder: the plan comes back as it was written, unless its
      text is too long to be written at all, and its shards are the key-sorted inventory. */
  method PlanRoundTrip(text: ObjectRecord -> string, printed: Json -> nat, h: Header, records: seq<ObjectRecord>)
    returns (plan: Plan, decoded: Option<Plan>)
    requires forall r :: r in records ==> ValidRecord(r) && |text(r)| <= MAX_RECORD_BYTES
    requires 0 < |records| <= MAX_OBJECTS && DistinctKeys(records) && |h.refusals| <= 34
    ensures plan.summary == Summary(h, records, plan.shards) && NoneEmpty(plan.shards)
    ensures Canonical(records).Some? && Flatten(plan.shards) == Canonical(records).value
    ensures decoded == if printed(PlanTree(plan)) <= MAX_PLAN_BODY then Some(plan) else None
  {
    hide ValidRecord, Canonical, Flatten, Nodes, Depth, PlanTree, NoRoom, AllFit, Summary;
    CanonicalCharacterised(records);
    forall i | 0 <= i < |Canonical(records).value| ensures Canonical(records).value[i] in records {
      assert Canonical(records).value[i] in multiset(Canonical(records).value);
    }
    var shards := ShardInventory(text, records, MAX_SHARD_BYTES);
    plan := Plan(Summary(h, records, shards.value), shards.value);
    decoded := DecodePlan(text, printed, PlanTree(plan), MAX_PLAN_BODY, MAX_SHARD_BYTES, MAX_PLAN_NODES);
    if printed(PlanTree(plan)) <= MAX_PLAN_BODY { PlannedIsAccepted(text, printed, h, records, shards.value); }
    if decoded.Some? { PlanTreeInjective(decoded.value, plan); }
  }

  /******* From planner to apply *******/

  /** The artifact that prepare takes, from a decoded plan with this header. */
  function ArtifactOf(h: Header, shards: Shards): PlanArtifact
  {
    PlanArtifact(h.decision == "eligible", h.policy, h.actor, h.checkpointId, h.prefix, h.evaluatedAt, h.inventory, shards)
  }

  lemma ShardDigestsDistinct(shards: Shards)
    requires NoneEmpty(shards) && DistinctKeys(Flatten(shards))
    ensures DistinctDigests(ShardDigests(shards))
  {
    hide Flatten;
    forall i, j | 0 <= i < j < |shards| ensures shards[i] != shards[j] {
      ShardIsSlice(shards, i);
      ShardIsSlice(shards, j);
      var all := Flatten(shards);
      var a, b := |Flatten(shards[..i])|, |Flatten(shards[..j])|;
      assert all[a..a + |shards[i]|][0] == all[a] && all[b..b + |shards[j]|][0] == all[b];
      PrefixGrows(shards, i, j);
    }
  }

  lemma {:induction false} PrefixGrows(shards: Shards, i: nat, j: nat)
    requires i < j <= |shards| && NoneEmpty(shards)
    ensures |Flatten(shards[..i])| < |Flatten(shards[..j])|
  {
    ShardIsSlice(shards, j - 1);
    if i < j - 1 { PrefixGrows(shards, i, j - 1); }
  }

  /** For the records as they are really printed: whatever the planner writes and the decoder
      gives back is a usable plan for prepare, and the manifest that apply reads back by digest is
      the planned inventory, in order, with the same inventory digest. */
  method PlanReachesApply(stamp: int -> string, printed: Json -> nat, h: Header, records: seq<ObjectRecord>)
    returns (plan: Plan, decoded: Option<Plan>)
    requires forall r :: r in records ==> ValidRecord(r) && r.sizeBytes <= MAX_OBJECT_BYTES
    requires forall t :: |stamp(t)| == 20
    requires 0 < |records| <= MAX_OBJECTS && DistinctKeys(records) && |h.refusals| <= 34
    requires Some(h.inventory) == InventoryDigest(records)
    ensures decoded == if printed(PlanTree(plan)) <= MAX_PLAN_BODY then Some(plan) else None
    ensures && plan.summary == Summary(h, records, plan.shards)
            && var artifact := ArtifactOf(h, plan.shards);
            && Usable(artifact) && DistinctDigests(ShardDigests(artifact.shards))
            && Canonical(records) == Some(RecordsOf(ShardDigests(artifact.shards)))
            && InventoryDigest(RecordsOf(ShardDigests(artifact.shards))) == Some(artifact.inventorySha256)
  {
    hide ValidRecord, NoneEmpty, Summary, RecordText, PlanTree;
    forall r | r in records ensures |RecordText(stamp, r)| <= MAX_RECORD_BYTES { RecordTextBound(stamp, r); }
    plan, decoded := PlanRoundTrip(r => RecordText(stamp, r), printed, h, records);
    ManifestRoundTrip(plan.shards);
    CanonicalCharacterised(records);
    CanonicalOfAscending(Flatten(plan.shards));
    AscendingDistinct(Flatten(plan.shards));
    ShardDigestsDistinct(plan.shards);
    assert |multiset(Canonical(records).value)| == |multiset(records)|;
  }
}
