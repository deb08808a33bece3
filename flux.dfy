/** The client library's data shapes as plain values: field values, datetimes, the write
    `Point`, and the `FluxTable`/`FluxRecord` rows a query returns. */
module Flux {
  import opened Wrappers
  import opened Dicts

  /** A scalar cell or field value. A float is kept as the text Python's `str()` gives it;
      `Null` is Python's `None`, the cell a pivoted row holds for a field missing at that time. */
  datatype Value = Str(s: string) | Int(i: int) | Bool(b: bool) | Num(repr: string) | Null

  /** A Python `datetime`: a wall-clock reading in abstract units, and its UTC offset when it is
      timezone-aware (`offset == None` is a naive datetime). */
  datatype DateTime = DateTime(wall: int, offset: Option<int>)

  /** The instant a datetime denotes when a naive one is read as UTC. */
  function InstantAsUtc(t: DateTime): int
  {
    t.wall - (if t.offset.Some? then t.offset.value else 0)
  }

  /** The UTC-aware datetime of an instant, as `astimezone(timezone.utc)` gives it. */
  function UtcDateTime(instant: int): DateTime
  {
    DateTime(instant, Some(0))
  }

  /** A write point: measurement, tag dict, field dict and the time set on it, if any. */
  datatype Point = Point(measurement: string, tags: Dict<Value>, fields: Dict<Value>, time: Option<DateTime>)

  /** `Point(measurement)`: no tags, no fields, no time. */
  function NewPoint(measurement: string): Point
  {
    Point(measurement, [], [], None)
  }

  /** A pivoted row: its column dict, and what `get_measurement()` and `get_time()` read from
      the reserved `_measurement` and `_time` columns (the library parses `_time` as a UTC
      instant). */
  datatype FluxRecord = FluxRecord(values: Dict<Value>, measurement: string, time: int)

  datatype FluxTable = FluxTable(records: seq<FluxRecord>)

  /** The records of all tables, table by table, each table's records in order. */
  function Records(tables: seq<FluxTable>): seq<FluxRecord>
  {
    if tables == [] then [] else Records(tables[..|tables| - 1]) + tables[|tables| - 1].records
  }

  /** The total number of records, summed over the tables. */
  function RecordCount(tables: seq<FluxTable>): nat
  {
    if tables == [] then 0 else |tables[0].records| + RecordCount(tables[1..])
  }

  /** Every record's column map is a dict (a property of the library's result type). */
  ghost predicate WellFormed(tables: seq<FluxTable>)
  {
    forall t, r :: t in tables && r in t.records ==> IsDict(r.values)
  }

  /** Every row of a table of well-formed results is a dict. */
  lemma TableWellFormed(tables: seq<FluxTable>, i: int)
    requires WellFormed(tables)
    requires 0 <= i < |tables|
    ensures forall j :: 0 <= j < |tables[i].records| ==> IsDict(tables[i].records[j].values)
  {
    assert tables[i] in tables;
    forall j | 0 <= j < |tables[i].records|
      ensures IsDict(tables[i].records[j].values)
    {
      assert tables[i].records[j] in tables[i].records;
    }
  }

  /** Flattening the tables loses and adds no record. */
  lemma {:induction false} RecordsCount(tables: seq<FluxTable>)
    ensures |Records(tables)| == RecordCount(tables)
  {
    if tables != [] {
      var n := |tables| - 1;
      RecordsCount(tables[..n]);
      RecordsCount(tables[1..]);
      if n > 0 {
        assert tables[1..][..n - 1] == tables[1..n];
        assert tables[..n][1..] == tables[1..n];
        RecordsCount(tables[1..n]);
        assert RecordCount(tables[..n]) == |tables[0].records| + RecordCount(tables[1..n]);
        assert RecordCount(tables[1..]) == RecordCount(tables[1..n]) + |tables[n].records| by {
          RecordCountSnoc(tables[1..]);
        }
      }
    }
  }

  lemma {:induction false} RecordCountSnoc(tables: seq<FluxTable>)
    requires tables != []
    ensures RecordCount(tables) == RecordCount(tables[..|tables| - 1]) + |tables[|tables| - 1].records|
  {
    if |tables| > 1 {
      var n := |tables| - 1;
      assert tables[1..][..n - 1] == tables[..n][1..];
      RecordCountSnoc(tables[1..]);
    }
  }

  /** The tag dict a `Dict[str, str]` becomes on a point: the same keys, string values. */
  function Lift(d: Dict<string>): Dict<Value>
  {
    seq(|d|, i requires 0 <= i < |d| => (d[i].0, Str(d[i].1)))
  }

  /** Lifting keeps the keys and wraps each value. */
  lemma {:induction false} LiftSpec(d: Dict<string>)
    requires IsDict(d)
    ensures IsDict(Lift(d))
    ensures ToMap(Lift(d)) == map k | k in ToMap(d) :: Str(ToMap(d)[k])
  {
    if d != [] {
      var n := |d| - 1;
      assert Lift(d)[..n] == Lift(d[..n]);
      LiftSpec(d[..n]);
    }
  }

  /** `for k, v in tags.items(): point.tag(k, v)`. */
  method AddTags(p: Point, tags: Dict<Value>) returns (q: Point)
    ensures q == p.(tags := PutAll(p.tags, tags))
  {
    q := p;
    for i := 0 to |tags|
      invariant q == p.(tags := PutAll(p.tags, tags[..i]))
    {
      assert tags[..i + 1][..i] == tags[..i];
      q := q.(tags := Put(q.tags, tags[i].0, tags[i].1));
    }
    assert tags[..|tags|] == tags;
  }

  /** `for k, v in fields.items(): point.field(k, v)`: the loop of `AddTags`, over the
      point's fields instead of its tags. */
  method AddFields(p: Point, fields: Dict<Value>) returns (q: Point)
    ensures q == p.(fields := PutAll(p.fields, fields))
  {
    q := p;
    for i := 0 to |fields|
      invariant q == p.(fields := PutAll(p.fields, fields[..i]))
    {
      assert fields[..i + 1][..i] == fields[..i];
      q := q.(fields := Put(q.fields, fields[i].0, fields[i].1));
    }
    assert fields[..|fields|] == fields;
  }
}
