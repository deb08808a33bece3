/** The sensor-data service: creating a reading, reading a measurement's readings back in a
    time range, rewriting the readings of one series with merged fields, and deleting a
    range. Each operation is proved against a function saying what it sends to the store. */
module SensorDataServices {
  import opened Wrappers
  import opened Dicts
  import opened Flux
  import opened InfluxDb
  import opened RecordCodec
  import opened FluxQuery
  import opened DeletePredicate
  import opened Text

  /** The body of a create request: tags are strings, fields any scalar. */
  datatype SensorDataCreate = SensorDataCreate(
    measurement: string, tags: Dict<string>, fields: Dict<Value>, timestamp: Option<DateTime>)

  /** One reading as the read operation returns it. */
  datatype SensorDataResponse = SensorDataResponse(
    measurement: string, tags: Dict<Value>, fields: Dict<Value>, timestamp: DateTime)

  /** The body of a delete request: the range, and optional tag and field conditions. */
  datatype DeleteSensorDataRequest = DeleteSensorDataRequest(
    measurement: string, startTime: DateTime, endTime: DateTime,
    tags: Option<Dict<string>>, fields: Option<Dict<Value>>)

  /** The tag every created point starts with. */
  const DefaultTags: Dict<Value> := [("host", Str("fastapi_app"))]

  /** The time set on a created point: a naive timestamp is declared UTC, an aware one is
      kept, and without one the point has no time (the server assigns it). */
  function CreatedTime(timestamp: Option<DateTime>): (r: Option<DateTime>)
    ensures r.Some? <==> timestamp.Some?
    ensures timestamp.Some? ==> r.value.offset.Some? && InstantAsUtc(r.value) == InstantAsUtc(timestamp.value)
    ensures timestamp.Some? && timestamp.value.offset.None? ==> r.value.offset == Some(0)
    ensures timestamp.Some? && timestamp.value.offset.Some? ==> r == timestamp
  {
    match timestamp
    case None => None
    case Some(t) => if t.offset.None? then Some(t.(offset := Some(0))) else timestamp
  }

  /** The point a create request writes: the default tag, then the caller's tags, the
      caller's fields, and the time. */
  function CreatedPoint(data: SensorDataCreate): Point
  {
    Point(data.measurement, PutAll(DefaultTags, Lift(data.tags)), data.fields, CreatedTime(data.timestamp))
  }

  /** A stored row as the read operation returns it: the row's measurement, its columns split
      into tags and fields, and its time as a UTC-aware datetime. */
  function Response(r: FluxRecord): SensorDataResponse
  {
    SensorDataResponse(r.measurement, TagsOf(r.values), FieldsOf(r.values), UtcDateTime(r.time))
  }

  function Responses(records: seq<FluxRecord>): seq<SensorDataResponse>
  {
    seq(|records|, i requires 0 <= i < |records| => Response(records[i]))
  }

  /** The point an update writes for one matched row: the requested measurement, the row's
      tags, the row's fields overridden and extended by the new fields, and the row's time. */
  function Rewrite(measurement: string, newFields: Dict<Value>, r: FluxRecord): Point
  {
    Point(measurement, TagsOf(r.values), Merge(FieldsOf(r.values), newFields), Some(UtcDateTime(r.time)))
  }

  function Rewrites(measurement: string, newFields: Dict<Value>, records: seq<FluxRecord>): seq<Point>
  {
    seq(|records|, i requires 0 <= i < |records| => Rewrite(measurement, newFields, records[i]))
  }

  lemma ResponsesAppend(a: seq<FluxRecord>, b: seq<FluxRecord>)
    ensures Responses(a + b) == Responses(a) + Responses(b)
  {
  }

  lemma RewritesAppend(measurement: string, newFields: Dict<Value>, a: seq<FluxRecord>, b: seq<FluxRecord>)
    ensures Rewrites(measurement, newFields, a + b)
      == Rewrites(measurement, newFields, a) + Rewrites(measurement, newFields, b)
  {
  }

  /** The inner read loop: one reading per row of one table, in order. */
  method DecodeTable(records: seq<FluxRecord>) returns (results: seq<SensorDataResponse>)
    requires forall j :: 0 <= j < |records| ==> IsDict(records[j].values)
    ensures results == Responses(records)
  {
    results := [];
    for j := 0 to |records|
      invariant results == Responses(records[..j])
    {
      var r := records[j];
      var tags, fields := DecodeRecord(r.values);
      assert records[..j + 1] == records[..j] + [r];
      ResponsesAppend(records[..j], [r]);
      results := results + [SensorDataResponse(r.measurement, tags, fields, UtcDateTime(r.time))];
    }
    assert records[..|records|] == records;
  }

  /** The read loop: one reading per row of every table, in order. */
  method DecodeTables(tables: seq<FluxTable>) returns (results: seq<SensorDataResponse>)
    requires WellFormed(tables)
    ensures results == Responses(Records(tables))
    ensures |results| == RecordCount(tables)
  {
    results := [];
    for i := 0 to |tables|
      invariant results == Responses(Records(tables[..i]))
    {
      ghost var done := Records(tables[..i]);
      assert tables[..i + 1][..i] == tables[..i];
      assert Records(tables[..i + 1]) == done + tables[i].records;
      TableWellFormed(tables, i);
      var part := DecodeTable(tables[i].records);
      ResponsesAppend(done, tables[i].records);
      results := results + part;
    }
    assert tables[..|tables|] == tables;
    RecordsCount(tables);
  }

  /** The point of a create request, built as the service builds it: the default host tag,
      then the caller's tags, then the caller's fields, then the timestamp made aware. */
  method BuildPoint(data: SensorDataCreate) returns (point: Point)
    requires IsDict(data.tags) && IsDict(data.fields)
    ensures point == CreatedPoint(data)
  {
    point := NewPoint(data.measurement);
    point := point.(tags := Put(point.tags, "host", Str("fastapi_app")));
    assert point == Point(data.measurement, DefaultTags, [], None);
    point := AddTags(point, Lift(data.tags));
    point := AddFields(point, data.fields);
    assert point.fields == data.fields by {
      PutAllFresh([], data.fields);
      assert [] + data.fields == data.fields;
    }
    if data.timestamp.Some? {
      var t := data.timestamp.value;
      if t.offset.None? {
        point := point.(time := Some(t.(offset := Some(0))));
      } else {
        point := point.(time := Some(t));
      }
    }
  }

  /** The rendered text of a datetime after conversion to UTC; the conversion and the ISO
      rendering are supplied by the caller. */
  type IsoUtc = DateTime -> string

  /** A created point carries the default `host` tag first, overridden when the caller gives
      `host`, and every caller tag with its string value and no other tag. */
  lemma CreatedPointSpec(data: SensorDataCreate)
    requires IsDict(data.tags)
    ensures IsDict(CreatedPoint(data).tags)
    ensures CreatedPoint(data).tags[0].0 == "host"
    ensures ToMap(CreatedPoint(data).tags).Keys == ToMap(data.tags).Keys + {"host"}
    ensures forall k :: k in ToMap(data.tags) ==> ToMap(CreatedPoint(data).tags)[k] == Str(ToMap(data.tags)[k])
    ensures "host" !in ToMap(data.tags) ==> ToMap(CreatedPoint(data).tags)["host"] == Str("fastapi_app")
  {
    var tags := CreatedPoint(data).tags;
    assert ToMap(DefaultTags) == map["host" := Str("fastapi_app")] by {
      assert DefaultTags[..0] == [];
    }
    assert IsDict(tags) && ToMap(tags) == ToMap(DefaultTags) + ToMap(Lift(data.tags)) by {
      LiftSpec(data.tags);
      PutAllSpec(DefaultTags, Lift(data.tags));
    }
    assert tags[0].0 == "host" by {
      PutAllKeepsOrder(DefaultTags, Lift(data.tags));
    }
    LiftSpec(data.tags);
  }

  /** A created point read back from a row that lays out reserved columns, then its tags,
      then its fields, gives back its tags and fields unchanged, provided every caller tag
      is a registered tag name and every field name is neither reserved nor registered. */
  lemma CreatedPointReadBack(data: SensorDataCreate, meta: Dict<Value>)
    requires IsDict(data.tags)
    requires forall i :: 0 <= i < |meta| ==> Classify(meta[i].0) == Internal
    requires forall i :: 0 <= i < |data.tags| ==> Classify(data.tags[i].0) == Tag
    requires forall i :: 0 <= i < |data.fields| ==> Classify(data.fields[i].0) == Field
    ensures TagsOf(meta + CreatedPoint(data).tags + data.fields) == CreatedPoint(data).tags
    ensures FieldsOf(meta + CreatedPoint(data).tags + data.fields) == data.fields
  {
    var tags := CreatedPoint(data).tags;
    LiftSpec(data.tags);
    PutAllEntryKeys(DefaultTags, Lift(data.tags));
    forall j | 0 <= j < |tags|
      ensures Classify(tags[j].0) == Tag
    {
      var k := tags[j].0;
      if k !in ToMap(DefaultTags) {
        ToMapKeys(data.tags, k);
      }
    }
    DecodeComposedRow(meta, tags, data.fields);
  }

  /** A created point read back from any row whose non-reserved columns are exactly the
      point's tags and fields, in whatever order the store lays them out, gives back its tag
      and field mappings, provided every caller tag is a registered tag name and every field
      name is neither reserved nor registered. */
  lemma CreatedPointStoredReadBack(data: SensorDataCreate, row: Dict<Value>)
    requires IsDict(data.tags)
    requires forall k :: k in ToMap(data.tags) ==> Classify(k) == Tag
    requires forall k :: k in ToMap(data.fields) ==> Classify(k) == Field
    requires ToMap(row) - InternalKeys == ToMap(CreatedPoint(data).tags) + ToMap(data.fields)
    ensures ToMap(TagsOf(row)) == ToMap(CreatedPoint(data).tags)
    ensures ToMap(FieldsOf(row)) == ToMap(data.fields)
  {
    var tags := ToMap(CreatedPoint(data).tags);
    CreatedPointSpec(data);
    assert Classify("host") == Tag;
    assert forall k :: k in tags ==> Classify(k) == Tag;
    DecodeAnyOrder(row, tags, ToMap(data.fields));
  }

  /** A returned reading has the row's measurement and a UTC-aware time at the row's
      instant; its tags are the registered non-reserved columns and its fields every other
      non-reserved column, disjoint, together the row without its reserved columns. */
  lemma ResponseSpec(r: FluxRecord)
    requires IsDict(r.values)
    ensures Response(r).measurement == r.measurement
    ensures Response(r).timestamp.offset == Some(0) && InstantAsUtc(Response(r).timestamp) == r.time
    ensures IsDict(Response(r).tags) && IsDict(Response(r).fields)
    ensures ToMap(Response(r).tags).Keys <= TagKeys
    ensures ToMap(Response(r).tags).Keys !! ToMap(Response(r).fields).Keys
    ensures ToMap(Response(r).tags) + ToMap(Response(r).fields) == ToMap(r.values) - InternalKeys
  {
    DecodePartition(r.values);
  }

  /** A rewritten point keeps the row's tags and time under the requested measurement; its
      fields are the row's fields with every new field set to the new value, every other
      row field keeping its stored value, and no other field. */
  lemma RewriteSpec(measurement: string, newFields: Dict<Value>, r: FluxRecord)
    requires IsDict(r.values)
    ensures Rewrite(measurement, newFields, r).measurement == measurement
    ensures Rewrite(measurement, newFields, r).tags == TagsOf(r.values)
    ensures Rewrite(measurement, newFields, r).time == Some(UtcDateTime(r.time))
    ensures IsDict(Rewrite(measurement, newFields, r).fields)
    ensures ToMap(Rewrite(measurement, newFields, r).fields).Keys
      == (ToMap(r.values).Keys - InternalKeys - TagKeys) + ToMap(newFields).Keys
    ensures forall k :: k in ToMap(newFields) ==> ToMap(Rewrite(measurement, newFields, r).fields)[k] == ToMap(newFields)[k]
    ensures forall k :: k in ToMap(r.values) && k !in InternalKeys && k !in TagKeys && k !in ToMap(newFields) ==>
      ToMap(Rewrite(measurement, newFields, r).fields)[k] == ToMap(r.values)[k]
  {
    DecodePartition(r.values);
    MergeSpec(FieldsOf(r.values), newFields);
  }

  /** Reading back a rewritten point, laid out as reserved columns, tags, fields, gives the
      original row's tags and the merged fields, provided no new field name is reserved or a
      registered tag name. */
  lemma RewriteReadBack(measurement: string, newFields: Dict<Value>, r: FluxRecord, meta: Dict<Value>)
    requires IsDict(r.values)
    requires forall i :: 0 <= i < |meta| ==> Classify(meta[i].0) == Internal
    requires forall i :: 0 <= i < |newFields| ==> Classify(newFields[i].0) == Field
    ensures TagsOf(meta + Rewrite(measurement, newFields, r).tags + Rewrite(measurement, newFields, r).fields)
      == TagsOf(r.values)
    ensures FieldsOf(meta + Rewrite(measurement, newFields, r).tags + Rewrite(measurement, newFields, r).fields)
      == Merge(FieldsOf(r.values), newFields)
  {
    var tags := TagsOf(r.values);
    var fields := Merge(FieldsOf(r.values), newFields);
    ColumnsOfEntries(r.values, Classify, Tag);
    forall j | 0 <= j < |tags|
      ensures Classify(tags[j].0) == Tag
    {
      assert tags[j] in tags;
    }
    ColumnsOfMap(r.values, Classify, Field);
    PutAllEntryKeys(FieldsOf(r.values), newFields);
    forall j | 0 <= j < |fields|
      ensures Classify(fields[j].0) == Field
    {
      var k := fields[j].0;
      if k !in ToMap(FieldsOf(r.values)) {
        ToMapKeys(newFields, k);
      }
    }
    DecodeComposedRow(meta, tags, fields);
  }

  /** A rewritten point read back from any row whose non-reserved columns are exactly the
      point's tags and fields, in whatever order the store lays them out, gives the original
      row's tags and the merged fields, provided no new field name is reserved or a
      registered tag name. */
  lemma RewriteStoredReadBack(measurement: string, newFields: Dict<Value>, r: FluxRecord, row: Dict<Value>)
    requires IsDict(r.values)
    requires forall k :: k in ToMap(newFields) ==> Classify(k) == Field
    requires ToMap(row) - InternalKeys
      == ToMap(Rewrite(measurement, newFields, r).tags) + ToMap(Rewrite(measurement, newFields, r).fields)
    ensures ToMap(TagsOf(row)) == ToMap(TagsOf(r.values))
    ensures ToMap(FieldsOf(row)) == ToMap(Merge(FieldsOf(r.values), newFields))
  {
    var tags := ToMap(TagsOf(r.values));
    var fields := ToMap(Merge(FieldsOf(r.values), newFields));
    DecodedKinds(r.values);
    assert forall k :: k in fields ==> Classify(k) == Field by {
      ColumnsOfIsDict(r.values, Classify, Field);
      MergeSpec(FieldsOf(r.values), newFields);
    }
    DecodeAnyOrder(row, tags, fields);
  }

  /** The service object: the client it was built with, the store that client writes to,
      and the configured bucket and organisation. */
  class SensorDataService {
    const client: Client
    const store: Store
    const bucket: string
    const org: string

    /** Obtains the shared client, creating it only if there is none. */
    constructor (influx: InfluxDb, bucket: string, org: string)
      requires influx.Valid()
      modifies influx
      ensures influx.Valid() && influx.closed == old(influx.closed)
      ensures client == Acquired(old(influx.client), old(influx.constructed)) && influx.client == Some(client)
      ensures store == influx.store && this.bucket == bucket && this.org == org
    {
      var c := influx.GetClient();
      client := c;
      store := influx.store;
      this.bucket := bucket;
      this.org := org;
    }

    /** Builds the point of a create request and writes it, nothing else. */
    method CreateSensorData(data: SensorDataCreate)
      requires IsDict(data.tags) && IsDict(data.fields)
      modifies store
      ensures store.writes == old(store.writes) + [CreatedPoint(data)]
      ensures store.queries == old(store.queries) && store.deletes == old(store.deletes)
    {
      var point := BuildPoint(data);
      store.Write(point);
    }

    /** Issues the ranged read and returns one reading per row, table by table. */
    method GetSensorData(measurement: string, startTime: DateTime, endTime: DateTime,
                         tagFilters: Option<Dict<string>>, limit: int, isoUtc: IsoUtc,
                         tables: seq<FluxTable>) returns (results: seq<SensorDataResponse>)
      requires WellFormed(tables)
      modifies store
      ensures store.queries == old(store.queries)
        + [ReadQuery(bucket, isoUtc(startTime), isoUtc(endTime), measurement, tagFilters, limit)]
      ensures store.writes == old(store.writes) && store.deletes == old(store.deletes)
      ensures results == Responses(Records(tables))
      ensures |results| == RecordCount(tables)
    {
      var queryStart := isoUtc(startTime);
      var queryEnd := isoUtc(endTime);
      var query := BuildReadQuery(bucket, queryStart, queryEnd, measurement, tagFilters, limit);
      store.Query(query);
      results := DecodeTables(tables);
    }

    /** Writes the point an update gives one matched row. */
    method RewriteRecord(measurement: string, newFields: Dict<Value>, r: FluxRecord)
      requires IsDict(newFields) && IsDict(r.values)
      modifies store
      ensures store.writes == old(store.writes) + [Rewrite(measurement, newFields, r)]
      ensures store.queries == old(store.queries) && store.deletes == old(store.deletes)
    {
      var currentTags, originalFields := DecodeRecord(r.values);
      var mergedFields := Merge(originalFields, newFields);
      var point := NewPoint(measurement).(time := Some(UtcDateTime(r.time)));
      point := AddTags(point, currentTags);
      point := AddFields(point, mergedFields);
      DecodePartition(r.values);
      MergeSpec(originalFields, newFields);
      PutAllFresh([], currentTags);
      PutAllFresh([], mergedFields);
      assert [] + currentTags == currentTags && [] + mergedFields == mergedFields;
      store.Write(point);
    }

    /** The inner rewrite loop: one rewrite per row of one table, in order, counted. */
    method RewriteTable(measurement: string, newFields: Dict<Value>, records: seq<FluxRecord>)
      returns (count: nat)
      requires IsDict(newFields)
      requires forall j :: 0 <= j < |records| ==> IsDict(records[j].values)
      modifies store
      ensures store.writes == old(store.writes) + Rewrites(measurement, newFields, records)
      ensures store.queries == old(store.queries) && store.deletes == old(store.deletes)
      ensures count == |records|
    {
      count := 0;
      for j := 0 to |records|
        invariant store.writes == old(store.writes) + Rewrites(measurement, newFields, records[..j])
        invariant store.queries == old(store.queries) && store.deletes == old(store.deletes)
        invariant count == j
      {
        var r := records[j];
        assert records[..j + 1] == records[..j] + [r];
        RewritesAppend(measurement, newFields, records[..j], [r]);
        RewriteRecord(measurement, newFields, r);
        count := count + 1;
      }
      assert records[..|records|] == records;
    }

    /** The rewrite loop: one rewrite per row of every table, in order, counted. */
    method RewriteTables(measurement: string, newFields: Dict<Value>, tables: seq<FluxTable>)
      returns (updatedCount: nat)
      requires IsDict(newFields) && WellFormed(tables)
      modifies store
      ensures store.writes == old(store.writes) + Rewrites(measurement, newFields, Records(tables))
      ensures store.queries == old(store.queries) && store.deletes == old(store.deletes)
      ensures updatedCount == RecordCount(tables)
    {
      updatedCount := 0;
      for i := 0 to |tables|
        invariant store.writes == old(store.writes) + Rewrites(measurement, newFields, Records(tables[..i]))
        invariant store.queries == old(store.queries) && store.deletes == old(store.deletes)
        invariant updatedCount == |Records(tables[..i])|
      {
        ghost var done := Records(tables[..i]);
        ghost var before := store.writes;
        assert tables[..i + 1][..i] == tables[..i];
        assert Records(tables[..i + 1]) == done + tables[i].records;
        TableWellFormed(tables, i);
        var count := RewriteTable(measurement, newFields, tables[i].records);
        RewritesAppend(measurement, newFields, done, tables[i].records);
        AppendAssoc(old(store.writes), Rewrites(measurement, newFields, done),
                    Rewrites(measurement, newFields, tables[i].records));
        updatedCount := updatedCount + count;
      }
      assert tables[..|tables|] == tables;
      RecordsCount(tables);
    }

    /** Issues the update-read scoped to one series, up to `now` when no end is given,
        rewrites every row it returns, and reports whether there was any. */
    method UpdateSensorData(measurement: string, tagKey: string, tagValue: string,
                            newFields: Dict<Value>, startTime: DateTime, endTime: Option<DateTime>,
                            now: DateTime, isoUtc: IsoUtc, tables: seq<FluxTable>) returns (updated: bool)
      requires IsDict(newFields) && WellFormed(tables)
      modifies store
      ensures store.queries == old(store.queries)
        + [UpdateQuery(bucket, isoUtc(startTime), isoUtc(if endTime.Some? then endTime.value else now),
                       measurement, tagKey, tagValue)]
      ensures store.writes == old(store.writes) + Rewrites(measurement, newFields, Records(tables))
      ensures store.deletes == old(store.deletes)
      ensures updated <==> RecordCount(tables) > 0
    {
      var queryStart := isoUtc(startTime);
      var queryEnd := isoUtc(if endTime.Some? then endTime.value else now);
      var query := UpdateQuery(bucket, queryStart, queryEnd, measurement, tagKey, tagValue);
      store.Query(query);
      var updatedCount := RewriteTables(measurement, newFields, tables);
      ghost var total := RecordCount(tables);
      assert updatedCount == total;
      updated := updatedCount > 0;
    }

    /** Deletes the requested range under the predicate built from the request. */
    method DeleteSensorData(params: DeleteSensorDataRequest, isoUtc: IsoUtc)
      modifies store
      ensures store.deletes == old(store.deletes)
        + [DeleteCall(IsoText(isoUtc(params.startTime)), IsoText(isoUtc(params.endTime)),
                      Predicate(params.measurement, params.tags, params.fields))]
      ensures store.writes == old(store.writes) && store.queries == old(store.queries)
    {
      var start := isoUtc(params.startTime);
      var stop := isoUtc(params.endTime);
      var condition := BuildDeletePredicate(params.measurement, params.tags, params.fields);
      store.Delete(DeleteCall(IsoText(start), IsoText(stop), condition));
    }
  }
}
