/** The store adapter module: the lazily created global client, and the plain helpers that
    write one point, run a query and delete a range through it. */
module InfluxDb {
  import opened Wrappers
  import opened Dicts
  import opened Flux

  /** An `InfluxDBClient` object; `id` is its place in the order of construction. */
  datatype Client = Client(id: nat)

  /** A time bound passed to the delete call: ISO text rendered by the caller, or a datetime
      passed as it is. */
  datatype Bound = IsoText(text: string) | At(time: DateTime)

  datatype DeleteCall = DeleteCall(start: Bound, stop: Bound, condition: string)

  /** The database as this code sees it: every write, query and delete issued through the
      client library, in order. */
  class Store {
    var writes: seq<Point>
    var queries: seq<string>
    var deletes: seq<DeleteCall>

    constructor ()
      ensures writes == [] && queries == [] && deletes == []
    {
      writes, queries, deletes := [], [], [];
    }

    /** `write_api.write(bucket, org, record=point)`. */
    method Write(p: Point)
      modifies this
      ensures writes == old(writes) + [p]
      ensures queries == old(queries) && deletes == old(deletes)
    {
      writes := writes + [p];
    }

    /** `query_api.query(text, org)`; what it returns is the caller's `tables`. */
    method Query(text: string)
      modifies this
      ensures queries == old(queries) + [text]
      ensures writes == old(writes) && deletes == old(deletes)
    {
      queries := queries + [text];
    }

    /** `delete_api.delete(start, stop, predicate, bucket, org)`. */
    method Delete(call: DeleteCall)
      modifies this
      ensures deletes == old(deletes) + [call]
      ensures writes == old(writes) && queries == old(queries)
    {
      deletes := deletes + [call];
    }
  }

  /** The client `get_influxdb_client` hands out when the handle was `prev` and `count`
      clients had been constructed: the live one, or a newly constructed one. */
  function Acquired(prev: Option<Client>, count: nat): Client
  {
    if prev.Some? then prev.value else Client(count)
  }

  /** The write point of `write_point`: the caller's tags and fields, the time only when given. */
  function PlainPoint(measurement: string, tags: Dict<string>, fields: Dict<Value>, timestamp: Option<DateTime>): Point
  {
    Point(measurement, Lift(tags), fields, timestamp)
  }

  /** The record value maps `query_flux` returns, one per record. */
  function ValuesOf(records: seq<FluxRecord>): seq<Dict<Value>>
  {
    seq(|records|, i requires 0 <= i < |records| => records[i].values)
  }

  /** The predicate `delete_data_range` sends: the measurement equality, a space, then the
      caller's predicate text verbatim. */
  function RangePredicate(measurement: string, condition: string): string
  {
    "_measurement=\"" + measurement + "\" " + condition
  }

  /** With the default empty predicate only the measurement clause and a trailing space remain. */
  lemma EmptyRangePredicate(measurement: string)
    ensures RangePredicate(measurement, "") == "_measurement=\"" + measurement + "\" "
  {
    assert RangePredicate(measurement, "") == ("_measurement=\"" + measurement + "\" ") + "";
  }

  /** The module's global state: the handle `_client`, how many clients have been
      constructed, which have been closed, and the database they talk to. */
  class InfluxDb {
    var client: Option<Client>
    var constructed: nat
    var closed: seq<Client>
    const store: Store

    /** Clients are numbered in construction order; every one constructed is either closed,
        in the order of closing, or is the live handle, which is the latest. */
    ghost predicate Valid()
      reads this
    {
      && constructed == |closed| + (if client.Some? then 1 else 0)
      && (forall i :: 0 <= i < |closed| ==> closed[i] == Client(i))
      && (client.Some? ==> client.value == Client(|closed|))
    }

    /** At most one client is live: each client constructed is closed or held, never both,
        and every closed client was constructed. */
    lemma AtMostOneLive()
      requires Valid()
      ensures forall n: nat :: n < constructed ==> (Client(n) in closed <==> client != Some(Client(n)))
      ensures forall c :: c in closed ==> c.id < constructed
      ensures client.Some? ==> client.value.id + 1 == constructed && client.value !in closed
    {
      forall n: nat | n < constructed
        ensures Client(n) in closed <==> client != Some(Client(n))
      {
        if n < |closed| {
          assert closed[n] == Client(n);
        } else {
          assert client == Some(Client(n));
          assert forall c :: c in closed ==> c.id < |closed|;
        }
      }
    }

    /** `_client = None` at import. */
    constructor (store: Store)
      ensures Valid()
      ensures client == None && constructed == 0 && closed == [] && this.store == store
    {
      client, constructed, closed := None, 0, [];
      this.store := store;
    }

    /** `get_influxdb_client`: constructs a client only when there is none, otherwise returns
        the live one unchanged; a new client differs from every client closed before. */
    method GetClient() returns (c: Client)
      requires Valid()
      modifies this
      ensures Valid()
      ensures c == Acquired(old(client), old(constructed)) && client == Some(c)
      ensures old(client).Some? ==> constructed == old(constructed)
      ensures old(client).None? ==> constructed == old(constructed) + 1
      ensures old(client).None? ==> forall d :: d in closed ==> d != c
      ensures closed == old(closed)
    {
      if client.None? {
        client := Some(Client(constructed));
        constructed := constructed + 1;
      }
      c := client.value;
    }

    /** `close_influxdb_client`: closes a live client and resets the handle; without one it
        does nothing, so closing twice is harmless. */
    method CloseClient()
      requires Valid()
      modifies this
      ensures Valid()
      ensures client == None && constructed == old(constructed)
      ensures closed == old(closed) + if old(client).Some? then [old(client).value] else []
    {
      if client.Some? {
        closed := closed + [client.value];
        client := None;
      }
    }

    /** `write_point`: builds a point with exactly the given tags and fields, sets the time
        only when a timestamp is given, and writes it through the (possibly new) client. */
    method WritePoint(measurement: string, tags: Dict<string>, fields: Dict<Value>, timestamp: Option<DateTime>)
      requires Valid()
      requires IsDict(tags) && IsDict(fields)
      modifies this, store
      ensures Valid()
      ensures client == Some(Acquired(old(client), old(constructed))) && closed == old(closed)
      ensures store.writes == old(store.writes) + [PlainPoint(measurement, tags, fields, timestamp)]
      ensures store.queries == old(store.queries) && store.deletes == old(store.deletes)
    {
      var point := NewPoint(measurement);
      point := AddTags(point, Lift(tags));
      point := AddFields(point, fields);
      if timestamp.Some? {
        point := point.(time := timestamp);
      }
      LiftSpec(tags);
      PutAllFresh([], Lift(tags));
      PutAllFresh([], fields);
      assert [] + Lift(tags) == Lift(tags) && [] + fields == fields;
      var _ := GetClient();
      store.Write(point);
    }

    /** `query_flux`: issues the query and returns every record's value map, table by table,
        as many as there are records. */
    method QueryFlux(query: string, tables: seq<FluxTable>) returns (results: seq<Dict<Value>>)
      requires Valid()
      modifies this, store
      ensures Valid()
      ensures client == Some(Acquired(old(client), old(constructed))) && closed == old(closed)
      ensures store.queries == old(store.queries) + [query]
      ensures store.writes == old(store.writes) && store.deletes == old(store.deletes)
      ensures results == ValuesOf(Records(tables))
      ensures |results| == RecordCount(tables)
    {
      var _ := GetClient();
      store.Query(query);
      results := [];
      for i := 0 to |tables|
        invariant results == ValuesOf(Records(tables[..i]))
      {
        assert tables[..i + 1][..i] == tables[..i];
        var records := tables[i].records;
        for j := 0 to |records|
          invariant results == ValuesOf(Records(tables[..i]) + records[..j])
        {
          assert (Records(tables[..i]) + records[..j + 1]) == (Records(tables[..i]) + records[..j]) + [records[j]];
          results := results + [records[j].values];
        }
        assert records[..|records|] == records;
      }
      assert tables[..|tables|] == tables;
      RecordsCount(tables);
    }

    /** `delete_data_range`: deletes the range with the measurement clause prefixed to the
        caller's predicate. */
    method DeleteDataRange(measurement: string, startTime: DateTime, endTime: DateTime, condition: string)
      requires Valid()
      modifies this, store
      ensures Valid()
      ensures client == Some(Acquired(old(client), old(constructed))) && closed == old(closed)
      ensures store.deletes == old(store.deletes) + [DeleteCall(At(startTime), At(endTime), RangePredicate(measurement, condition))]
      ensures store.writes == old(store.writes) && store.queries == old(store.queries)
    {
      var _ := GetClient();
      store.Delete(DeleteCall(At(startTime), At(endTime), RangePredicate(measurement, condition)));
    }
  }
}
