/**
 Cache telemetry flattened to counters with text keys, and parsed back. A record of counters is a map
 from its field names.
 */
module Telemetry {
  import opened Wrappers
  import opened Text

  type Record = map<string, nat>

  const LOOKUP_FIELDS: seq<string> := [
    "lookups", "hits", "misses", "stores", "stale_detections", "stale_removals", "duplicate_computations",
    "single_flight_waits", "front_cache_hits", "backing_cache_hits", "cloning_hits"]

  const LOCK_FIELDS: seq<string> := [
    "shard_lock_wait_nanos", "shard_lock_contended_acquisitions", "computation_time_nanos"]

  const STORAGE_FIELDS: seq<string> := [
    "cap_bytes", "admissions", "replacements", "evictions", "evicted_bytes", "oversized_rejections", "entries",
    "approx_bytes", "peak_bytes"]

  const NAMESPACE_FIELDS: seq<string> := LOOKUP_FIELDS + LOCK_FIELDS + STORAGE_FIELDS

  const GEOMETRY_FIELDS: seq<string> := [
    "cap_bytes", "current_bytes", "peak_bytes", "admissions", "replacements", "evictions", "evicted_bytes",
    "oversized_rejections", "instances"]

  const FREE_MATERIAL_FIELDS: seq<string> := [
    "cap_bytes", "current_bytes", "peak_bytes", "entries", "admissions", "replacements", "evictions",
    "evicted_bytes", "oversized_rejections", "hits", "misses"]

  const GEOMETRY_PREFIX := "geometry_cache."
  const NAMESPACE_PREFIX := "geometry_cache.namespace."
  const FREE_MATERIAL_PREFIX := "free_material_cache."

  /** The field names of the three kinds of records. */
  datatype Schema = Schema(namespaceFields: seq<string>, geometryFields: seq<string>, freeMaterialFields: seq<string>)

  const SCHEMA := Schema(NAMESPACE_FIELDS, GEOMETRY_FIELDS, FREE_MATERIAL_FIELDS)

  ghost predicate IsRecord(record: Record, fields: seq<string>) {
    forall field :: field in record <==> field in fields
  }

  /** The geometry cache telemetry with its namespaces, and the free-material telemetry. */
  datatype Snapshot = Snapshot(namespaces: map<string, Record>, geometry: Record, freeMaterial: Record)

  ghost predicate IsSnapshot(schema: Schema, s: Snapshot) {
    && IsRecord(s.geometry, schema.geometryFields) && IsRecord(s.freeMaterial, schema.freeMaterialFields)
    && forall name | name in s.namespaces :: IsRecord(s.namespaces[name], schema.namespaceFields)
  }

  // ----- keys

  function NamespaceKey(name: string, field: string): string {
    NAMESPACE_PREFIX + (name + ['.'] + field)
  }

  function GeometryKey(field: string): string {
    GEOMETRY_PREFIX + field
  }

  function FreeMaterialKey(field: string): string {
    FREE_MATERIAL_PREFIX + field
  }

  /** What a counter key stands for. */
  datatype Counter =
    | OfNamespace(name: string, field: string)
    | OfGeometry(field: string)
    | OfFreeMaterial(field: string)

  function KeyText(counter: Counter): string {
    match counter
    case OfNamespace(name, field) => NamespaceKey(name, field)
    case OfGeometry(field) => GeometryKey(field)
    case OfFreeMaterial(field) => FreeMaterialKey(field)
  }

  /** The counters of a snapshot. */
  predicate Has(s: Snapshot, counter: Counter) {
    match counter
    case OfNamespace(name, field) => name in s.namespaces && field in s.namespaces[name]
    case OfGeometry(field) => field in s.geometry
    case OfFreeMaterial(field) => field in s.freeMaterial
  }

  function ValueOf(s: Snapshot, counter: Counter): nat
    requires Has(s, counter)
  {
    match counter
    case OfNamespace(name, field) => s.namespaces[name][field]
    case OfGeometry(field) => s.geometry[field]
    case OfFreeMaterial(field) => s.freeMaterial[field]
  }

  // ----- parsing keys

  datatype Error = MalformedNamespace | UnknownNamespaceField | UnknownGeometryField
    | UnknownFreeMaterialField | UnknownCounter

  function StripPrefix(key: string, prefix: string): Option<string> {
    if prefix <= key then Some(key[|prefix|..]) else None
  }

  /** Splits at the last separator. */
  function SplitLast(text: string, separator: char): Option<(string, string)> {
    if text == "" then None
    else
      var n := |text| - 1;
      if text[n] == separator then Some((text[..n], ""))
      else match SplitLast(text[..n], separator)
        case None => None
        case Some(parts) => Some((parts.0, parts.1 + [text[n]]))
  }

  function ParseKey(key: string): Result<Counter, Error> {
    match StripPrefix(key, NAMESPACE_PREFIX)
    case Some(rest) =>
      (match SplitLast(rest, '.')
       case None => Err(MalformedNamespace)
       case Some(parts) =>
         if parts.0 == "" || parts.1 == "" then Err(MalformedNamespace) else Ok(OfNamespace(parts.0, parts.1)))
    case None =>
      match StripPrefix(key, GEOMETRY_PREFIX)
      case Some(field) => Ok(OfGeometry(field))
      case None =>
        match StripPrefix(key, FREE_MATERIAL_PREFIX)
        case Some(field) => Ok(OfFreeMaterial(field))
        case None => Err(UnknownCounter)
  }

  /** A field name: not empty and without a dot. */
  predicate IsFieldName(field: string) {
    field != "" && '.' !in field
  }

  lemma {:induction false} SplitLastFinds(left: string, right: string, separator: char)
    requires separator !in right
    ensures SplitLast(left + [separator] + right, separator) == Some((left, right))
  {
    var text := left + [separator] + right;
    if right == "" {
      assert text[..|text| - 1] == left;
    } else {
      var init := right[..|right| - 1];
      SplitLastFinds(left, init, separator);
      assert text[..|text| - 1] == left + [separator] + init;
      assert right == init + [right[|right| - 1]];
      assert right[|right| - 1] in right;
    }
  }

  lemma Prefixed(prefix: string, rest: string)
    ensures StripPrefix(prefix + rest, prefix) == Some(rest)
  {
  }

  /** The prefixes tell the kinds of counters apart. */
  lemma PrefixesDiffer(field: string)
    requires IsFieldName(field)
    ensures StripPrefix(GeometryKey(field), NAMESPACE_PREFIX) == None
    ensures StripPrefix(FreeMaterialKey(field), NAMESPACE_PREFIX) == None
    ensures StripPrefix(FreeMaterialKey(field), GEOMETRY_PREFIX) == None
  {
    assert NAMESPACE_PREFIX[24] == '.' && |GEOMETRY_PREFIX| == 15;
    assert |field| > 9 ==> GeometryKey(field)[24] == field[9] && field[9] in field;
    assert FreeMaterialKey(field)[0] == 'f' && NAMESPACE_PREFIX[0] == 'g' && GEOMETRY_PREFIX[0] == 'g';
  }

  predicate IsNamed(counter: Counter) {
    IsFieldName(counter.field) && (counter.OfNamespace? ==> counter.name != "")
  }

  /** A key parses back to what it stands for, dots in namespace names included. */
  lemma KeysParse(counter: Counter)
    requires IsFieldName(counter.field)
    ensures if IsNamed(counter) then ParseKey(KeyText(counter)) == Ok(counter)
            else ParseKey(KeyText(counter)) == Err(MalformedNamespace)
  {
    match counter
    case OfNamespace(name, field) =>
      Prefixed(NAMESPACE_PREFIX, name + ['.'] + field);
      SplitLastFinds(name, field, '.');
    case OfGeometry(field) =>
      PrefixesDiffer(field);
      Prefixed(GEOMETRY_PREFIX, field);
    case OfFreeMaterial(field) =>
      PrefixesDiffer(field);
      Prefixed(FREE_MATERIAL_PREFIX, field);
  }

  /** Different counters have different keys. */
  lemma KeysAreDistinct(a: Counter, b: Counter)
    requires IsFieldName(a.field) && IsFieldName(b.field) && KeyText(a) == KeyText(b)
    ensures a == b
  {
    KeysParse(a);
    KeysParse(b);
    if a.OfNamespace? && b.OfNamespace? {
      SplitLastFinds(a.name, a.field, '.');
      SplitLastFinds(b.name, b.field, '.');
      var x, y := a.name + ['.'] + a.field, b.name + ['.'] + b.field;
      assert NamespaceKey(a.name, a.field)[|NAMESPACE_PREFIX|..] == x;
      assert NamespaceKey(b.name, b.field)[|NAMESPACE_PREFIX|..] == y;
    }
  }

  lemma LookupFieldNames(field: string)
    requires field in LOOKUP_FIELDS
    ensures IsFieldName(field)
  {
  }

  lemma LockFieldNames(field: string)
    requires field in LOCK_FIELDS
    ensures IsFieldName(field)
  {
  }

  lemma StorageFieldNames(field: string)
    requires field in STORAGE_FIELDS
    ensures IsFieldName(field)
  {
  }

  lemma GeometryFieldNames(field: string)
    requires field in GEOMETRY_FIELDS
    ensures IsFieldName(field)
  {
  }

  lemma FreeMaterialFieldNames(field: string)
    requires field in FREE_MATERIAL_FIELDS
    ensures IsFieldName(field)
  {
  }

  ghost predicate IsSchema(schema: Schema) {
    && schema.namespaceFields != []
    && forall field ::
         field in schema.namespaceFields || field in schema.geometryFields || field in schema.freeMaterialFields ==>
           IsFieldName(field)
  }

  lemma SchemaIsValid()
    ensures IsSchema(SCHEMA)
  {
    assert |NAMESPACE_FIELDS| == |LOOKUP_FIELDS| + |LOCK_FIELDS| + |STORAGE_FIELDS|;
    forall field
      ensures
        field in SCHEMA.namespaceFields || field in SCHEMA.geometryFields || field in SCHEMA.freeMaterialFields ==>
          IsFieldName(field)
    {
      if field in LOOKUP_FIELDS { LookupFieldNames(field); }
      if field in LOCK_FIELDS { LockFieldNames(field); }
      if field in STORAGE_FIELDS { StorageFieldNames(field); }
      if field in GEOMETRY_FIELDS { GeometryFieldNames(field); }
      if field in FREE_MATERIAL_FIELDS { FreeMaterialFieldNames(field); }
    }
  }

  lemma CountersHaveFieldNames(schema: Schema, s: Snapshot, counter: Counter)
    requires IsSchema(schema) && IsSnapshot(schema, s) && Has(s, counter)
    ensures IsFieldName(counter.field)
  {
  }

  // ----- flattening

  /** The map holds exactly the values of the counters `done`, under their keys. */
  ghost predicate Flattens(s: Snapshot, done: set<Counter>, counters: map<string, nat>) {
    && (forall c | c in done :: Has(s, c) && KeyText(c) in counters && counters[KeyText(c)] == ValueOf(s, c))
    && (forall key | key in counters :: exists c :: c in done && KeyText(c) == key)
  }

  ghost predicate IsFlattening(s: Snapshot, counters: map<string, nat>) {
    && (forall c | Has(s, c) :: KeyText(c) in counters && counters[KeyText(c)] == ValueOf(s, c))
    && (forall key | key in counters :: exists c :: Has(s, c) && KeyText(c) == key)
  }

  /** A further counter overwrites none of those before it. */
  lemma OneMoreCounter(schema: Schema, s: Snapshot, done: set<Counter>,
    counters: map<string, nat>, c: Counter)
    requires IsSchema(schema) && IsSnapshot(schema, s) && Has(s, c) && Flattens(s, done, counters)
    ensures Flattens(s, done + {c}, counters[KeyText(c) := ValueOf(s, c)])
  {
    var after := counters[KeyText(c) := ValueOf(s, c)];
    CountersHaveFieldNames(schema, s, c);
    forall d | d in done + {c} ensures Has(s, d) && KeyText(d) in after && after[KeyText(d)] == ValueOf(s, d) {
      if KeyText(d) == KeyText(c) {
        CountersHaveFieldNames(schema, s, d);
        KeysAreDistinct(c, d);
      }
    }
    forall key | key in after ensures exists d :: d in done + {c} && KeyText(d) == key {
      if key != KeyText(c) {
        var d :| d in done && KeyText(d) == key;
        assert d in done + {c};
      } else {
        assert c in done + {c};
      }
    }
  }

  ghost function Made(make: string -> Counter, fields: seq<string>): set<Counter> {
    set i | 0 <= i < |fields| :: make(fields[i])
  }

  lemma MadeOneMore(make: string -> Counter, fields: seq<string>, i: nat)
    requires i < |fields|
    ensures Made(make, fields[..i + 1]) == Made(make, fields[..i]) + {make(fields[i])}
  {
  }

  method InsertCounter(ghost schema: Schema, s: Snapshot, before: map<string, nat>, ghost done: set<Counter>,
    c: Counter)
    returns (counters: map<string, nat>)
    requires IsSchema(schema) && IsSnapshot(schema, s) && Flattens(s, done, before) && Has(s, c)
    ensures Flattens(s, done + {c}, counters)
  {
    OneMoreCounter(schema, s, done, before, c);
    counters := before[KeyText(c) := ValueOf(s, c)];
  }

  /** Writes the fields of one record. */
  method InsertFields(ghost schema: Schema, s: Snapshot, before: map<string, nat>, ghost done: set<Counter>,
    make: string -> Counter, fields: seq<string>) returns (counters: map<string, nat>)
    requires IsSchema(schema) && IsSnapshot(schema, s) && Flattens(s, done, before)
    requires forall i | 0 <= i < |fields| :: Has(s, make(fields[i]))
    ensures Flattens(s, done + Made(make, fields), counters)
  {
    counters := before;
    ghost var now := done;
    for i := 0 to |fields|
      invariant now == done + Made(make, fields[..i])
      invariant Flattens(s, now, counters)
    {
      MadeOneMore(make, fields, i);
      counters := InsertCounter(schema, s, counters, now, make(fields[i]));
      now := now + {make(fields[i])};
    }
    assert fields[..|fields|] == fields;
  }

  function MakeOfNamespace(name: string): string -> Counter {
    (field: string) => OfNamespace(name, field)
  }

  function MakeOfGeometry(): string -> Counter {
    (field: string) => OfGeometry(field)
  }

  function MakeOfFreeMaterial(): string -> Counter {
    (field: string) => OfFreeMaterial(field)
  }

  /** Flattens the telemetry to counters; no two counters share a key. */
  method ExecutionCounters(schema: Schema, s: Snapshot) returns (counters: map<string, nat>)
    requires IsSchema(schema) && IsSnapshot(schema, s)
    ensures IsFlattening(s, counters)
  {
    ghost var done: set<Counter> := {};
    counters := InsertFields(schema, s, map[], done, MakeOfGeometry(), schema.geometryFields);
    done := done + Made(MakeOfGeometry(), schema.geometryFields);
    counters := InsertFields(schema, s, counters, done, MakeOfFreeMaterial(), schema.freeMaterialFields);
    done := done + Made(MakeOfFreeMaterial(), schema.freeMaterialFields);
    counters := InsertNamespaces(schema, s, counters, done);
  }

  method InsertNamespaces(schema: Schema, s: Snapshot, before: map<string, nat>, ghost scalars: set<Counter>)
    returns (counters: map<string, nat>)
    requires IsSchema(schema) && IsSnapshot(schema, s) && Flattens(s, scalars, before)
    requires Made(MakeOfGeometry(), schema.geometryFields) <= scalars
    requires Made(MakeOfFreeMaterial(), schema.freeMaterialFields) <= scalars
    ensures IsFlattening(s, counters)
  {
    ghost var done := scalars;
    counters := before;
    var remaining := s.namespaces.Keys;
    while remaining != {}
      invariant remaining <= s.namespaces.Keys && scalars <= done && Flattens(s, done, counters)
      invariant NamespacesDone(schema, s.namespaces.Keys - remaining, done)
      decreases remaining
    {
      var name :| name in remaining;
      counters, done := InsertNamespace(schema, s, counters, done, s.namespaces.Keys - remaining, name);
      assert s.namespaces.Keys - (remaining - {name}) == s.namespaces.Keys - remaining + {name};
      remaining := remaining - {name};
    }
    assert s.namespaces.Keys - remaining == s.namespaces.Keys;
    AllCountersDone(schema, s, done, counters);
  }

  method InsertNamespace(schema: Schema, s: Snapshot, before: map<string, nat>, ghost done: set<Counter>,
    ghost names: set<string>, name: string) returns (counters: map<string, nat>, ghost now: set<Counter>)
    requires IsSchema(schema) && IsSnapshot(schema, s) && Flattens(s, done, before)
    requires name in s.namespaces && NamespacesDone(schema, names, done)
    ensures done <= now && Flattens(s, now, counters) && NamespacesDone(schema, names + {name}, now)
  {
    NamespaceCountersExist(schema, s, name);
    counters := InsertFields(schema, s, before, done, MakeOfNamespace(name), schema.namespaceFields);
    now := done + Made(MakeOfNamespace(name), schema.namespaceFields);
    OneMoreNamespace(schema, names, name, done, now);
  }

  ghost predicate NamespacesDone(schema: Schema, names: set<string>, done: set<Counter>) {
    forall name | name in names :: Made(MakeOfNamespace(name), schema.namespaceFields) <= done
  }

  lemma OneMoreNamespace(schema: Schema, names: set<string>, name: string,
    before: set<Counter>, after: set<Counter>)
    requires NamespacesDone(schema, names, before)
    requires before <= after && Made(MakeOfNamespace(name), schema.namespaceFields) <= after
    ensures NamespacesDone(schema, names + {name}, after)
  {
  }

  lemma AllCountersDone(schema: Schema, s: Snapshot, done: set<Counter>, counters: map<string, nat>)
    requires IsSnapshot(schema, s) && Flattens(s, done, counters)
    requires Made(MakeOfGeometry(), schema.geometryFields) <= done
    requires Made(MakeOfFreeMaterial(), schema.freeMaterialFields) <= done
    requires NamespacesDone(schema, s.namespaces.Keys, done)
    ensures IsFlattening(s, counters)
  {
  }

  lemma NamespaceCountersExist(schema: Schema, s: Snapshot, name: string)
    requires IsSnapshot(schema, s) && name in s.namespaces
    ensures forall i | 0 <= i < |schema.namespaceFields| :: Has(s, MakeOfNamespace(name)(schema.namespaceFields[i]))
  {
  }

  // ----- parsing back

  function Zeroed(fields: seq<string>): Record {
    map field | field in fields :: 0
  }

  function Default(schema: Schema): Snapshot {
    Snapshot(map[], Zeroed(schema.geometryFields), Zeroed(schema.freeMaterialFields))
  }

  /** The record of a namespace, zeroed on first access. */
  function NamespaceRecord(schema: Schema, s: Snapshot, name: string): Record {
    if name in s.namespaces then s.namespaces[name] else Zeroed(schema.namespaceFields)
  }

  function Assign(schema: Schema, s: Snapshot, c: Counter, value: nat): Result<Snapshot, Error> {
    match c
    case OfNamespace(name, field) =>
      if field in schema.namespaceFields
      then Ok(s.(namespaces := s.namespaces[name := NamespaceRecord(schema, s, name)[field := value]]))
      else Err(UnknownNamespaceField)
    case OfGeometry(field) =>
      if field in schema.geometryFields then Ok(s.(geometry := s.geometry[field := value]))
      else Err(UnknownGeometryField)
    case OfFreeMaterial(field) =>
      if field in schema.freeMaterialFields then Ok(s.(freeMaterial := s.freeMaterial[field := value]))
      else Err(UnknownFreeMaterialField)
  }

  function ApplyKey(schema: Schema, s: Snapshot, key: string, value: nat): Result<Snapshot, Error> {
    match ParseKey(key)
    case Err(error) => Err(error)
    case Ok(counter) => Assign(schema, s, counter, value)
  }

  /** Applies the entries in order and stops at the first error. */
  function ApplyAll(schema: Schema, entries: seq<(string, nat)>): Result<Snapshot, Error> {
    if entries == [] then Ok(Default(schema))
    else
      var last := entries[|entries| - 1];
      match ApplyAll(schema, entries[..|entries| - 1])
      case Err(error) => Err(error)
      case Ok(s) => ApplyKey(schema, s, last.0, last.1)
  }

  /** The telemetry records that the parser fills in place. */
  class TelemetryRecords {
    var namespaces: map<string, Record>
    var geometry: Record
    var freeMaterial: Record

    function View(): Snapshot
      reads this
    {
      Snapshot(namespaces, geometry, freeMaterial)
    }

    constructor (schema: Schema)
      ensures View() == Default(schema)
    {
      namespaces := map[];
      geometry, freeMaterial := Zeroed(schema.geometryFields), Zeroed(schema.freeMaterialFields);
    }

    method ApplyCounter(schema: Schema, key: string, value: nat) returns (error: Option<Error>)
      modifies this
      ensures match ApplyKey(schema, old(View()), key, value)
        case Ok(s) => error == None && View() == s
        case Err(e) => error == Some(e)
    {
      match ParseKey(key) {
        case Err(e) => return Some(e);
        case Ok(OfNamespace(name, field)) =>
          if name !in namespaces {
            namespaces := namespaces[name := Zeroed(schema.namespaceFields)];
          }
          if field !in schema.namespaceFields {
            return Some(UnknownNamespaceField);
          }
          var record: Record := namespaces[name][field := value];
          namespaces := namespaces[name := record];
        case Ok(OfGeometry(field)) =>
          if field !in schema.geometryFields {
            return Some(UnknownGeometryField);
          }
          geometry := geometry[field := value];
        case Ok(OfFreeMaterial(field)) =>
          if field !in schema.freeMaterialFields {
            return Some(UnknownFreeMaterialField);
          }
          freeMaterial := freeMaterial[field := value];
      }
      error := None;
    }
  }

  method FromCounters(schema: Schema, entries: seq<(string, nat)>) returns (result: Result<Snapshot, Error>)
    ensures result == ApplyAll(schema, entries)
  {
    var records := new TelemetryRecords(schema);
    for i := 0 to |entries|
      invariant fresh(records) && ApplyAll(schema, entries[..i]) == Ok(records.View())
    {
      assert entries[..i + 1][..i] == entries[..i];
      var error := records.ApplyCounter(schema, entries[i].0, entries[i].1);
      if error.Some? {
        ErrorsStay(schema, entries, i + 1);
        return Err(error.value);
      }
    }
    assert entries[..|entries|] == entries;
    result := Ok(records.View());
  }

  lemma {:induction false} ErrorsStay(schema: Schema, entries: seq<(string, nat)>, n: nat)
    requires n <= |entries| && ApplyAll(schema, entries[..n]).Err?
    ensures ApplyAll(schema, entries) == ApplyAll(schema, entries[..n])
    decreases |entries| - n
  {
    if n < |entries| {
      assert entries[..n + 1][..n] == entries[..n];
      ErrorsStay(schema, entries, n + 1);
    } else {
      assert entries[..n] == entries;
    }
  }

  // ----- the round trip

  /** The entries of the map, each once, in any order. */
  ghost predicate Enumerates(entries: seq<(string, nat)>, counters: map<string, nat>) {
    && (forall i | 0 <= i < |entries| :: entries[i].0 in counters && counters[entries[i].0] == entries[i].1)
    && (forall key | key in counters :: exists i :: 0 <= i < |entries| && entries[i].0 == key)
  }

  ghost function KeySet(entries: seq<(string, nat)>): set<string> {
    set i | 0 <= i < |entries| :: entries[i].0
  }

  ghost function PartOf(record: Record, keyOf: string -> string, keys: set<string>): Record {
    map field | field in record :: if keyOf(field) in keys then record[field] else 0
  }

  function NamespaceKeyOf(name: string): string -> string {
    (field: string) => NamespaceKey(name, field)
  }

  ghost predicate Started(record: Record, keyOf: string -> string, keys: set<string>) {
    exists field :: field in record && keyOf(field) in keys
  }

  /** The snapshot as far as the counters with these keys tell. */
  ghost function Part(s: Snapshot, keys: set<string>): Snapshot {
    Snapshot(
      map name | name in s.namespaces && Started(s.namespaces[name], NamespaceKeyOf(name), keys) ::
        PartOf(s.namespaces[name], NamespaceKeyOf(name), keys),
      PartOf(s.geometry, GeometryKey, keys),
      PartOf(s.freeMaterial, FreeMaterialKey, keys))
  }

  lemma PartOfNothing(schema: Schema, s: Snapshot)
    requires IsSnapshot(schema, s)
    ensures Part(s, {}) == Default(schema)
  {
  }

  /** A scalar record gains the counter. */
  lemma PartOfOneMore(record: Record, keyOf: string -> string, keys: set<string>, field: string)
    requires field in record && forall other | other in record && keyOf(other) == keyOf(field) :: other == field
    ensures PartOf(record, keyOf, keys)[field := record[field]] == PartOf(record, keyOf, keys + {keyOf(field)})
  {
  }

  lemma PartUnchanged(record: Record, keyOf: string -> string, keys: set<string>, key: string)
    requires forall other | other in record :: keyOf(other) != key
    ensures PartOf(record, keyOf, keys + {key}) == PartOf(record, keyOf, keys)
    ensures Started(record, keyOf, keys + {key}) == Started(record, keyOf, keys)
  {
  }

  lemma NotStarted(record: Record, keyOf: string -> string, keys: set<string>)
    requires !Started(record, keyOf, keys)
    ensures PartOf(record, keyOf, keys) == map field | field in record :: 0
  {
  }

  lemma OtherKeysDiffer(schema: Schema, s: Snapshot, c: Counter, d: Counter)
    requires IsSchema(schema) && IsSnapshot(schema, s) && Has(s, c) && Has(s, d) && c != d
    ensures KeyText(c) != KeyText(d)
  {
    CountersHaveFieldNames(schema, s, c);
    CountersHaveFieldNames(schema, s, d);
    if KeyText(c) == KeyText(d) {
      KeysAreDistinct(c, d);
    }
  }

  /** Assigning one further counter completes the part by it. */
  lemma {:induction false} AssignExtends(schema: Schema, s: Snapshot, keys: set<string>, c: Counter)
    requires IsSchema(schema) && IsSnapshot(schema, s) && Has(s, c)
    ensures Assign(schema, Part(s, keys), c, ValueOf(s, c)) == Ok(Part(s, keys + {KeyText(c)}))
  {
    forall d | Has(s, d) && d != c ensures KeyText(d) != KeyText(c) {
      OtherKeysDiffer(schema, s, c, d);
    }
    match c
    case OfGeometry(field) =>
      ScalarExtends(s, keys, c);
      NamespacesUnchanged(s, keys, c);
    case OfFreeMaterial(field) =>
      ScalarExtends(s, keys, c);
      NamespacesUnchanged(s, keys, c);
    case OfNamespace(name, field) =>
      ScalarExtends(s, keys, c);
      NamespaceExtends(schema, s, keys, name, field);
  }

  ghost predicate OnlyKey(s: Snapshot, c: Counter) {
    forall d | Has(s, d) && d != c :: KeyText(d) != KeyText(c)
  }

  lemma ScalarExtends(s: Snapshot, keys: set<string>, c: Counter)
    requires Has(s, c) && OnlyKey(s, c)
    ensures var after := Part(s, keys + {KeyText(c)});
            && after.geometry ==
                 (if c.OfGeometry? then Part(s, keys).geometry[c.field := s.geometry[c.field]]
                  else Part(s, keys).geometry)
            && after.freeMaterial ==
                 (if c.OfFreeMaterial? then Part(s, keys).freeMaterial[c.field := s.freeMaterial[c.field]]
                  else Part(s, keys).freeMaterial)
  {
    assert forall field | field in s.geometry ::
      Has(s, OfGeometry(field)) && KeyText(OfGeometry(field)) == GeometryKey(field);
    assert forall field | field in s.freeMaterial ::
      Has(s, OfFreeMaterial(field)) && KeyText(OfFreeMaterial(field)) == FreeMaterialKey(field);
    if c.OfGeometry? {
      PartOfOneMore(s.geometry, GeometryKey, keys, c.field);
    } else {
      PartUnchanged(s.geometry, GeometryKey, keys, KeyText(c));
    }
    if c.OfFreeMaterial? {
      PartOfOneMore(s.freeMaterial, FreeMaterialKey, keys, c.field);
    } else {
      PartUnchanged(s.freeMaterial, FreeMaterialKey, keys, KeyText(c));
    }
  }

  lemma NamespaceUnchanged(s: Snapshot, keys: set<string>, c: Counter, name: string)
    requires Has(s, c) && OnlyKey(s, c) && name in s.namespaces && !(c.OfNamespace? && c.name == name)
    ensures var keyOf := NamespaceKeyOf(name);
            && PartOf(s.namespaces[name], keyOf, keys + {KeyText(c)}) == PartOf(s.namespaces[name], keyOf, keys)
            && Started(s.namespaces[name], keyOf, keys + {KeyText(c)}) == Started(s.namespaces[name], keyOf, keys)
  {
    forall field | field in s.namespaces[name] ensures NamespaceKeyOf(name)(field) != KeyText(c) {
      assert Has(s, OfNamespace(name, field)) && KeyText(OfNamespace(name, field)) == NamespaceKeyOf(name)(field);
    }
    PartUnchanged(s.namespaces[name], NamespaceKeyOf(name), keys, KeyText(c));
  }

  lemma NamespacesUnchanged(s: Snapshot, keys: set<string>, c: Counter)
    requires Has(s, c) && OnlyKey(s, c) && !c.OfNamespace?
    ensures Part(s, keys + {KeyText(c)}).namespaces == Part(s, keys).namespaces
  {
    forall name | name in s.namespaces
      ensures PartOf(s.namespaces[name], NamespaceKeyOf(name), keys + {KeyText(c)})
        == PartOf(s.namespaces[name], NamespaceKeyOf(name), keys)
      ensures Started(s.namespaces[name], NamespaceKeyOf(name), keys + {KeyText(c)})
        == Started(s.namespaces[name], NamespaceKeyOf(name), keys)
    {
      NamespaceUnchanged(s, keys, c, name);
    }
  }

  lemma NamespaceExtends(schema: Schema, s: Snapshot, keys: set<string>, name: string, field: string)
    requires IsSnapshot(schema, s) && Has(s, OfNamespace(name, field)) && OnlyKey(s, OfNamespace(name, field))
    ensures var c := OfNamespace(name, field);
            Part(s, keys + {KeyText(c)}).namespaces
              == Part(s, keys).namespaces[name := NamespaceRecord(schema, Part(s, keys), name)[field := ValueOf(s, c)]]
  {
    var c := OfNamespace(name, field);
    TouchedRecord(schema, s, keys, name, field);
    var before, after := Part(s, keys).namespaces, Part(s, keys + {KeyText(c)}).namespaces;
    forall other | other != name
      ensures other in before <==> other in after
      ensures other in before ==> before[other] == after[other]
    {
      if other in s.namespaces {
        NamespaceUnchanged(s, keys, c, other);
      }
    }
    SameButOne(before, after, name);
  }

  lemma SameButOne<V>(before: map<string, V>, after: map<string, V>, name: string)
    requires name in after && forall other | other != name :: other in before <==> other in after
    requires forall other | other != name && other in before :: before[other] == after[other]
    ensures after == before[name := after[name]]
  {
  }

  lemma TouchedRecord(schema: Schema, s: Snapshot, keys: set<string>, name: string, field: string)
    requires IsSnapshot(schema, s) && Has(s, OfNamespace(name, field)) && OnlyKey(s, OfNamespace(name, field))
    ensures var c := OfNamespace(name, field);
            && name in Part(s, keys + {KeyText(c)}).namespaces
            && Part(s, keys + {KeyText(c)}).namespaces[name]
                 == NamespaceRecord(schema, Part(s, keys), name)[field := ValueOf(s, c)]
  {
    var c := OfNamespace(name, field);
    var record, keyOf := s.namespaces[name], NamespaceKeyOf(name);
    assert keyOf(field) == KeyText(c);
    assert forall other | other in record ::
      Has(s, OfNamespace(name, other)) && KeyText(OfNamespace(name, other)) == keyOf(other);
    PartOfOneMore(record, keyOf, keys, field);
    if !Started(record, keyOf, keys) {
      NotStarted(record, keyOf, keys);
      assert Zeroed(schema.namespaceFields) == map other | other in record :: 0;
    }
    assert Started(record, keyOf, keys + {KeyText(c)});
  }

  /** Whether an entry is the counter of a namespace without a name. */
  ghost predicate IsNameless(key: string) {
    ParseKey(key) == Err(MalformedNamespace)
  }

  ghost predicate SomeNameless(entries: seq<(string, nat)>) {
    exists i :: 0 <= i < |entries| && IsNameless(entries[i].0)
  }

  /** After any number of entries the parser holds the part they tell, or has met a nameless namespace. */
  lemma {:induction false} ParsedSoFar(schema: Schema, s: Snapshot, counters: map<string, nat>,
    entries: seq<(string, nat)>)
    requires IsSchema(schema) && IsSnapshot(schema, s) && IsFlattening(s, counters)
    requires forall i | 0 <= i < |entries| :: entries[i].0 in counters && counters[entries[i].0] == entries[i].1
    ensures ApplyAll(schema, entries) ==
      if SomeNameless(entries) then Err(MalformedNamespace) else Ok(Part(s, KeySet(entries)))
  {
    if entries == [] {
      assert KeySet(entries) == {};
      PartOfNothing(schema, s);
    } else {
      var init, last := entries[..|entries| - 1], entries[|entries| - 1];
      ParsedSoFar(schema, s, counters, init);
      var c :| Has(s, c) && KeyText(c) == last.0;
      CountersHaveFieldNames(schema, s, c);
      KeysParse(c);
      AssignExtends(schema, s, KeySet(init), c);
      SplitEntries(entries);
    }
  }

  lemma SplitEntries(entries: seq<(string, nat)>)
    requires entries != []
    ensures var init, last := entries[..|entries| - 1], entries[|entries| - 1];
            && KeySet(entries) == KeySet(init) + {last.0}
            && (SomeNameless(entries) <==> SomeNameless(init) || IsNameless(last.0))
  {
  }

  lemma PartOfFull(record: Record, keyOf: string -> string, keys: set<string>)
    requires forall field | field in record :: keyOf(field) in keys
    ensures PartOf(record, keyOf, keys) == record
  {
  }

  lemma FullNamespace(schema: Schema, s: Snapshot, keys: set<string>, name: string)
    requires IsSchema(schema) && IsSnapshot(schema, s) && name in s.namespaces
    requires forall c | Has(s, c) :: KeyText(c) in keys
    ensures PartOf(s.namespaces[name], NamespaceKeyOf(name), keys) == s.namespaces[name]
    ensures Started(s.namespaces[name], NamespaceKeyOf(name), keys)
  {
    forall field | field in s.namespaces[name] ensures NamespaceKeyOf(name)(field) in keys {
      assert Has(s, OfNamespace(name, field)) && KeyText(OfNamespace(name, field)) == NamespaceKeyOf(name)(field);
    }
    PartOfFull(s.namespaces[name], NamespaceKeyOf(name), keys);
    assert schema.namespaceFields[0] in s.namespaces[name];
  }

  lemma PartOfAll(schema: Schema, s: Snapshot, keys: set<string>)
    requires IsSchema(schema) && IsSnapshot(schema, s) && forall c | Has(s, c) :: KeyText(c) in keys
    ensures Part(s, keys) == s
  {
    forall field | field in s.geometry ensures GeometryKey(field) in keys {
      assert Has(s, OfGeometry(field)) && KeyText(OfGeometry(field)) == GeometryKey(field);
    }
    forall field | field in s.freeMaterial ensures FreeMaterialKey(field) in keys {
      assert Has(s, OfFreeMaterial(field)) && KeyText(OfFreeMaterial(field)) == FreeMaterialKey(field);
    }
    PartOfFull(s.geometry, GeometryKey, keys);
    PartOfFull(s.freeMaterial, FreeMaterialKey, keys);
    AllNamespaces(schema, s, keys);
  }

  lemma AllNamespaces(schema: Schema, s: Snapshot, keys: set<string>)
    requires IsSchema(schema) && IsSnapshot(schema, s) && forall c | Has(s, c) :: KeyText(c) in keys
    ensures Part(s, keys).namespaces == s.namespaces
  {
    forall name | name in s.namespaces
      ensures Started(s.namespaces[name], NamespaceKeyOf(name), keys)
      ensures PartOf(s.namespaces[name], NamespaceKeyOf(name), keys) == s.namespaces[name]
    {
      FullNamespace(schema, s, keys, name);
    }
    SameMap(Part(s, keys).namespaces, s.namespaces);
  }

  lemma SameMap<V>(a: map<string, V>, b: map<string, V>)
    requires a.Keys == b.Keys && forall name | name in a :: a[name] == b[name]
    ensures a == b
  {
  }

  /**
   Parsing the flattened counters back, in any order, rebuilds the snapshot when every namespace has a
   name, dots in names included; a namespace without a name is reported as malformed.
   */
  lemma RoundTrip(schema: Schema, s: Snapshot, counters: map<string, nat>,
    entries: seq<(string, nat)>)
    requires IsSchema(schema) && IsSnapshot(schema, s) && IsFlattening(s, counters) && Enumerates(entries, counters)
    ensures ApplyAll(schema, entries) == if "" in s.namespaces then Err(MalformedNamespace) else Ok(s)
  {
    ParsedSoFar(schema, s, counters, entries);
    NamelessEntries(schema, s, counters, entries);
    if "" !in s.namespaces {
      forall c | Has(s, c) ensures KeyText(c) in KeySet(entries) {
        var i :| 0 <= i < |entries| && entries[i].0 == KeyText(c);
      }
      PartOfAll(schema, s, KeySet(entries));
    }
  }

  /** An entry is nameless exactly when some namespace is. */
  lemma NamelessEntries(schema: Schema, s: Snapshot, counters: map<string, nat>, entries: seq<(string, nat)>)
    requires IsSchema(schema) && IsSnapshot(schema, s) && IsFlattening(s, counters) && Enumerates(entries, counters)
    ensures "" in s.namespaces <==> SomeNameless(entries)
  {
    if "" in s.namespaces {
      var c := OfNamespace("", schema.namespaceFields[0]);
      assert schema.namespaceFields[0] in s.namespaces[""];
      CountersHaveFieldNames(schema, s, c);
      KeysParse(c);
      var i :| 0 <= i < |entries| && entries[i].0 == KeyText(c);
      assert IsNameless(entries[i].0);
    } else {
      forall i | 0 <= i < |entries| ensures !IsNameless(entries[i].0) {
        assert entries[i].0 in counters;
        var c :| Has(s, c) && KeyText(c) == entries[i].0;
        CountersHaveFieldNames(schema, s, c);
        KeysParse(c);
      }
    }
  }
}
