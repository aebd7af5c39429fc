/** Records of the memory engines and how they travel as provider metadata. */
module MemoryRecords {
  import opened Digits

  datatype Scope = Scope(tenantID: string, continuityID: string, continuityLine: string)

  datatype Record = Record(
    id: string, scope: Scope, sourceID: string, sourceVersion: int, status: string, content: string,
    metadata: map<string, string>)

  datatype Query = Query(scope: Scope, text: string, limit: int, includeHistory: bool)

  /** A decoded JSON value: the metadata holds texts and the source version, a number that comes back
      as a float. */
  datatype Value = Str(text: string) | Num(n: int)

  type Metadata = map<string, Value>

  // ----- Numbers through JSON -----

  function TrimZeros(s: string): string {
    if s != "" && s[|s| - 1] == '0' then TrimZeros(s[..|s| - 1]) else s
  }

  /** %g of an integral float: plain digits below a million, one digit and an exponent from there on. */
  function Magnitude(a: nat): string {
    var d := Decimal(a);
    if a < 1_000_000 then d
    else
      var fraction := TrimZeros(d[1..]);
      [d[0]] + (if fraction == "" then "" else "." + fraction) + "e+" + Padded(|d| - 1, 2)
  }

  function FormatG(n: int): string {
    if n < 0 then "-" + Magnitude(-n) else Magnitude(n)
  }

  function DigitPrefix(s: string): (r: string)
    ensures |r| <= |s| && r == s[..|r|] && forall k :: 0 <= k < |r| ==> IsDigit(r[k])
  {
    if s != "" && IsDigit(s[0]) then [s[0]] + DigitPrefix(s[1..]) else ""
  }

  /** fmt.Sscan into an int: an optional sign and as many digits as follow, nothing read gives 0. */
  function ScanInt(s: string): int {
    if s != "" && s[0] == '-' then -(ValueOf(DigitPrefix(s[1..])) as int)
    else if s != "" && s[0] == '+' then ValueOf(DigitPrefix(s[1..]))
    else ValueOf(DigitPrefix(s))
  }

  function StringValue(v: Value): string {
    match v
    case Str(text) => text
    case Num(n) => FormatG(n)
  }

  /** stringValue(metadata[key]): the empty string for a missing key. */
  function Text(metadata: Metadata, key: string): string {
    if key in metadata then StringValue(metadata[key]) else ""
  }

  lemma {:induction false} DigitPrefixWhole(s: string, rest: string)
    requires forall k :: 0 <= k < |s| ==> IsDigit(s[k])
    requires rest != "" ==> !IsDigit(rest[0])
    ensures DigitPrefix(s + rest) == s
  {
    if s == "" {
      assert s + rest == rest;
    } else {
      DigitPrefixWhole(s[1..], rest);
      assert (s + rest)[1..] == s[1..] + rest;
    }
  }

  lemma ScanMagnitude(a: nat)
    ensures DigitPrefix(Magnitude(a)) == if a < 1_000_000 then Decimal(a) else [Decimal(a)[0]]
    ensures IsDigit(Magnitude(a)[0])
  {
    var d := Decimal(a);
    if a < 1_000_000 {
      assert d + "" == d;
      DigitPrefixWhole(d, "");
    } else {
      var rest := Magnitude(a)[1..];
      assert Magnitude(a) == [d[0]] + rest;
      DigitPrefixWhole([d[0]], rest);
    }
  }

  /** A whole number survives the trip exactly when its magnitude is below a million: beyond that the
      scan stops behind the first digit of the exponent form. */
  lemma NumberRoundTrip(n: int)
    ensures ScanInt(FormatG(n)) == n <==> -1_000_000 < n < 1_000_000
  {
    var a: nat := if n < 0 then -n else n;
    ScanMagnitude(a);
    DecimalValue(a);
    var d := Decimal(a);
    OneDigit(d[0]);
    if n < 0 {
      assert FormatG(n)[1..] == Magnitude(a);
    }
  }

  lemma OneDigit(c: char)
    requires IsDigit(c)
    ensures ValueOf([c]) == DigitValue(c) < 10
  {
    assert [c][..0] == "";
  }

  // ----- mem0 and Supermemory -----

  const RESERVED := {"record_id", "tenant_id", "continuity_id", "continuity_line", "source_id", "source_version",
    "lifecycle_status"}

  function FixedFields(r: Record): Metadata {
    map["record_id" := Str(r.id), "tenant_id" := Str(r.scope.tenantID), "continuity_id" := Str(r.scope.continuityID),
        "continuity_line" := Str(r.scope.continuityLine), "source_id" := Str(r.sourceID),
        "source_version" := Num(r.sourceVersion), "lifecycle_status" := Str(r.status)]
  }

  function Copied(metadata: map<string, string>, keys: set<string>): Metadata
    requires keys <= metadata.Keys
  {
    map key | key in keys :: Str(metadata[key])
  }

  function RecordMetadata(r: Record): Metadata {
    Copied(r.metadata, r.metadata.Keys) + FixedFields(r)
  }

  function RecordFromProvider(scope: Scope, content: string, metadata: Metadata): Record {
    var status := Text(metadata, "lifecycle_status");
    Record(
      Text(metadata, "record_id"), scope, Text(metadata, "source_id"), ScanInt(Text(metadata, "source_version")),
      if status == "" then "active" else status, content,
      map key | key in metadata && key !in RESERVED :: StringValue(metadata[key]))
  }

  /** Copying one more of the keys that are left. */
  lemma CopyStep(metadata: map<string, string>, keys: set<string>, key: string)
    requires keys <= metadata.Keys && key in keys
    ensures Copied(metadata, metadata.Keys - keys)[key := Str(metadata[key])]
            == Copied(metadata, metadata.Keys - (keys - {key}))
  {
  }

  /** The fixed keys set one after the other. */
  lemma FixedInTurn(metadata: Metadata, r: Record)
    ensures metadata["record_id" := Str(r.id)]["tenant_id" := Str(r.scope.tenantID)]
              ["continuity_id" := Str(r.scope.continuityID)]["continuity_line" := Str(r.scope.continuityLine)]
              ["source_id" := Str(r.sourceID)]["source_version" := Num(r.sourceVersion)]
              ["lifecycle_status" := Str(r.status)]
            == metadata + FixedFields(r)
  {
  }

  method EncodeMetadata(record: Record) returns (metadata: Metadata)
    ensures metadata == RecordMetadata(record)
  {
    hide Copied, FixedFields;
    metadata := map[];
    var keys := record.metadata.Keys;
    NothingCopied(record.metadata);
    while keys != {}
      invariant keys <= record.metadata.Keys
      invariant metadata == Copied(record.metadata, record.metadata.Keys - keys)
      decreases |keys|
    {
      var key :| key in keys;
      CopyStep(record.metadata, keys, key);
      metadata := metadata[key := Str(record.metadata[key])];
      keys := keys - {key};
    }
    FixedInTurn(metadata, record);
    metadata := metadata["record_id" := Str(record.id)];
    metadata := metadata["tenant_id" := Str(record.scope.tenantID)];
    metadata := metadata["continuity_id" := Str(record.scope.continuityID)];
    metadata := metadata["continuity_line" := Str(record.scope.continuityLine)];
    metadata := metadata["source_id" := Str(record.sourceID)];
    metadata := metadata["source_version" := Num(record.sourceVersion)];
    metadata := metadata["lifecycle_status" := Str(record.status)];
    assert record.metadata.Keys - keys == record.metadata.Keys;
  }

  lemma NothingCopied(metadata: map<string, string>)
    ensures Copied(metadata, metadata.Keys - metadata.Keys) == map[]
  {
  }

  method DecodeMetadata(scope: Scope, content: string, metadata: Metadata) returns (record: Record)
    ensures record == RecordFromProvider(scope, content, metadata)
  {
    hide ScanInt;
    var status := Text(metadata, "lifecycle_status");
    if status == "" {
      status := "active";
    }
    var extra: map<string, string> := map[];
    var keys := metadata.Keys;
    while keys != {}
      invariant keys <= metadata.Keys
      invariant extra == map key | key in metadata.Keys - keys && key !in RESERVED :: StringValue(metadata[key])
      decreases |keys|
    {
      var key :| key in keys;
      if key !in RESERVED {
        extra := extra[key := StringValue(metadata[key])];
      }
      keys := keys - {key};
    }
    record := Record(Text(metadata, "record_id"), scope, Text(metadata, "source_id"),
                     ScanInt(Text(metadata, "source_version")), status, content, extra);
  }

  // ----- MemOS -----

  const PREFIX := "cm_meta_"

  function MemosFixedFields(r: Record): Metadata {
    map["cm_record_id" := Str(r.id), "cm_tenant_id" := Str(r.scope.tenantID),
        "cm_continuity_id" := Str(r.scope.continuityID),
        "cm_continuity_line" := Str(r.scope.continuityLine), "cm_source_id" := Str(r.sourceID),
        "cm_source_version" := Num(r.sourceVersion), "cm_lifecycle_status" := Str(r.status)]
  }

  predicate Prefixed(key: string) { PREFIX <= key }

  function AddPrefix(key: string): (p: string)
    ensures Prefixed(p) && p[|PREFIX|..] == key
  {
    PREFIX + key
  }

  lemma CutPrefix(key: string)
    requires Prefixed(key)
    ensures AddPrefix(key[|PREFIX|..]) == key
  {
  }

  /** The record's own metadata under prefixed keys. */
  function PrefixedFields(metadata: map<string, string>): Metadata {
    map key | key in (set k | k in metadata :: AddPrefix(k)) :: Str(metadata[key[|PREFIX|..]])
  }

  function UnprefixedFields(metadata: Metadata): map<string, string> {
    map key | key in (set k | k in metadata && Prefixed(k) :: k[|PREFIX|..]) ::
      (CutAll(metadata, key); StringValue(metadata[AddPrefix(key)]))
  }

  lemma CutAll(metadata: Metadata, key: string)
    requires exists k :: k in metadata && Prefixed(k) && k[|PREFIX|..] == key
    ensures AddPrefix(key) in metadata
  {
    var k :| k in metadata && Prefixed(k) && k[|PREFIX|..] == key;
    CutPrefix(k);
  }

  function MemosRecordMetadata(r: Record): Metadata {
    MemosFixedFields(r) + PrefixedFields(r.metadata)
  }

  function MemosRecordFromItem(scope: Scope, memory: string, metadata: Metadata): Record {
    var status := Text(metadata, "cm_lifecycle_status");
    Record(
      Text(metadata, "cm_record_id"), scope, Text(metadata, "cm_source_id"),
      ScanInt(Text(metadata, "cm_source_version")),
      if status == "" then "active" else status, memory, UnprefixedFields(metadata))
  }

  // ----- Round trips -----

  lemma FixedKeys(r: Record)
    ensures FixedFields(r).Keys == RESERVED
    ensures forall key :: key in RESERVED ==> key in RecordMetadata(r) && RecordMetadata(r)[key] == FixedFields(r)[key]
    ensures RecordMetadata(r).Keys == r.metadata.Keys + RESERVED
  {
  }

  /** The keys under which a record travels to mem0 and Supermemory; its own metadata under its own keys, except
      where they are taken. */
  lemma EncodedFields(r: Record, key: string)
    ensures var md := RecordMetadata(r);
            && md["record_id"] == Str(r.id) && md["tenant_id"] == Str(r.scope.tenantID)
            && md["continuity_id"] == Str(r.scope.continuityID) && md["continuity_line"] == Str(r.scope.continuityLine)
            && md["source_id"] == Str(r.sourceID) && md["source_version"] == Num(r.sourceVersion)
            && md["lifecycle_status"] == Str(r.status)
    ensures key in r.metadata && key !in RESERVED ==>
              key in RecordMetadata(r) && RecordMetadata(r)[key] == Str(r.metadata[key])
    ensures key in RecordMetadata(r) ==> key in r.metadata || key in RESERVED
  {
    FixedKeys(r);
  }

  lemma DecodedExtras(r: Record)
    ensures RecordFromProvider(r.scope, r.content, RecordMetadata(r)).metadata == r.metadata
            <==> r.metadata.Keys !! RESERVED
  {
    hide ScanInt, FixedFields, Text;
    FixedKeys(r);
    var got := RecordFromProvider(r.scope, r.content, RecordMetadata(r)).metadata;
    assert got.Keys == r.metadata.Keys - RESERVED;
  }

  lemma DecodedFields(r: Record)
    ensures var got := RecordFromProvider(r.scope, r.content, RecordMetadata(r));
            && got.id == r.id && got.scope == r.scope && got.sourceID == r.sourceID && got.content == r.content
            && got.status == (if r.status == "" then "active" else r.status)
            && got.sourceVersion == ScanInt(FormatG(r.sourceVersion))
  {
    hide ScanInt, FormatG;
    FixedKeys(r);
  }

  /** mem0 and Supermemory give back the record that was put, exactly when its version is below a
      million, it has a status, and it uses none of the reserved keys for itself. */
  lemma ProviderRoundTrip(r: Record)
    ensures RecordFromProvider(r.scope, r.content, RecordMetadata(r)) == r
            <==> -1_000_000 < r.sourceVersion < 1_000_000 && r.status != "" && r.metadata.Keys !! RESERVED
  {
    hide ScanInt, FormatG, RecordFromProvider, RecordMetadata;
    DecodedFields(r);
    DecodedExtras(r);
    NumberRoundTrip(r.sourceVersion);
  }

  lemma MemosFixedKeys(r: Record)
    ensures forall key :: key in MemosFixedFields(r) ==>
              !Prefixed(key) && MemosRecordMetadata(r)[key] == MemosFixedFields(r)[key]
  {
    forall key | key in MemosFixedFields(r) ensures !Prefixed(key) {
      assert key in MemosFixedFields(r).Keys;
      assert key[3] != 'm';
    }
  }

  /** The keys under which a record travels to MemOS. */
  lemma MemosEncodedFields(r: Record, key: string)
    ensures var md := MemosRecordMetadata(r);
            && md["cm_record_id"] == Str(r.id) && md["cm_tenant_id"] == Str(r.scope.tenantID)
            && md["cm_continuity_id"] == Str(r.scope.continuityID)
            && md["cm_continuity_line"] == Str(r.scope.continuityLine)
            && md["cm_source_id"] == Str(r.sourceID) && md["cm_source_version"] == Num(r.sourceVersion)
            && md["cm_lifecycle_status"] == Str(r.status)
    ensures key in r.metadata ==>
              && "cm_meta_" + key in MemosRecordMetadata(r)
              && MemosRecordMetadata(r)["cm_meta_" + key] == Str(r.metadata[key])
  {
    hide PrefixedFields;
    MemosFixedKeys(r);
    MemosOwnField(r, key);
  }

  lemma MemosOwnField(r: Record, key: string)
    ensures key in r.metadata ==>
              && "cm_meta_" + key in MemosRecordMetadata(r)
              && MemosRecordMetadata(r)["cm_meta_" + key] == Str(r.metadata[key])
  {
    hide MemosFixedFields;
    MemosFixedKeys(r);
    assert AddPrefix(key) == "cm_meta_" + key;
  }

  lemma MemosExtras(r: Record)
    ensures UnprefixedFields(MemosRecordMetadata(r)) == r.metadata
  {
    hide MemosFixedFields;
    MemosFixedKeys(r);
    var md := MemosRecordMetadata(r);
    var got := UnprefixedFields(md);
    forall key ensures key in got <==> key in r.metadata {
      if key in r.metadata { assert AddPrefix(key) in md; }
    }
    forall key | key in r.metadata ensures got[key] == r.metadata[key] {
      assert md[AddPrefix(key)] == Str(r.metadata[key]);
    }
  }

  lemma MemosTexts(r: Record)
    ensures var md := MemosRecordMetadata(r);
            && Text(md, "cm_record_id") == r.id && Text(md, "cm_source_id") == r.sourceID
            && Text(md, "cm_lifecycle_status") == r.status && Text(md, "cm_source_version") == FormatG(r.sourceVersion)
  {
    hide FormatG, PrefixedFields;
    MemosFixedKeys(r);
  }

  /** MemOS needs no condition on the keys: its prefix keeps the record's metadata apart. */
  lemma MemosRoundTrip(r: Record)
    ensures MemosRecordFromItem(r.scope, r.content, MemosRecordMetadata(r)) == r
            <==> -1_000_000 < r.sourceVersion < 1_000_000 && r.status != ""
  {
    hide ScanInt, FormatG, UnprefixedFields, MemosRecordMetadata, Text;
    MemosTexts(r);
    MemosExtras(r);
    NumberRoundTrip(r.sourceVersion);
  }
}
