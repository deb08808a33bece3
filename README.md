# Sensor-data access layer over InfluxDB

This project models the sensor-data access layer of a FastAPI service that stores sensor
readings in InfluxDB. It covers the code that turns requests into write points, Flux query
text and delete predicates, and the code that turns pivoted query rows back into readings:

- `SensorDataService` (`app/services/sensor_data_services.py`) has four operations:
  - create one reading;
  - read a measurement's readings in a time range, optionally filtered by tags;
  - rewrite the readings of one tagged series, merging new field values over the stored ones;
  - delete a range, optionally narrowed by tag and field equalities.
- The module `app/core/influxdb.py` holds:
  - the lazily created shared client (`_client`);
  - the helpers `write_point`, `query_flux` and `delete_data_range`.

The database is the class `InfluxDb.Store`. It records every write, query and delete issued
through the client library, in order. What a query returns is given to the operation as a
parameter: the tables of pivoted rows.

Each imperative operation is a method. Its postcondition ties the new store contents, or its
result, to a function of its inputs:

| function | what it gives |
|---|---|
| `CreatedPoint` | the point a create writes |
| `ReadQuery`, `UpdateQuery` | the query texts |
| `Responses` | the readings returned |
| `Rewrites` | the points an update writes |
| `Predicate` | the delete predicate |

Lemmas then state what those functions mean, in these modules:

| module | what it models |
|---|---|
| `Dicts` | Python dicts as ordered entry lists with distinct keys. Assignment (`d[k] = v`), assignment in a loop, and `{**a, **b}` are proved against the finite map a dict denotes. |
| `Flux` | The client library's data shapes: `Point`, `FluxRecord` and `FluxTable`, field values, and datetimes as a wall-clock reading with an optional UTC offset. |
| `RecordCodec` | The split of a row into tags and fields. Reserved columns are dropped. Columns named in the fixed tag-key registry are tags. Everything else is a field. |
| `FluxQuery` | The read query and the update-read query. |
| `DeletePredicate` | The delete predicate. |
| `InfluxDb` | The client holder and the plain helpers. |
| `SensorDataServices` | The service. |
| `Text` | Joining strings, and Python's `str()` of an integer. |

A reading only reads back as written when its tag names are in the registry and its field
names are neither reserved nor registered. `CreatedPointReadBack` and `RewriteReadBack`
state that condition.

## Model

| member | source | states |
|---|---|---|
| Dicts.PutSpec | app/services/sensor_data_services.py:86-90 | `d[k] = v` keeps a dict a dict and maps `k` to `v`, leaving every other key unchanged. An existing key keeps its position. A new key is appended. |
| Dicts.PutAllSpec | app/services/sensor_data_services.py:22-26 | Assigning every entry of `e` into a dict gives the union of the two mappings, `e` winning on shared keys. |
| Dicts.PutAllFresh | app/core/influxdb.py:36-39 | Assigning entries whose keys are all new appends them in order, so a fresh point receives exactly the given dict. |
| Dicts.PutAllKeepsOrder | app/services/sensor_data_services.py:17-23 | Later assignments never move or drop an earlier key, so the default tag stays first. |
| Dicts.PutAllEntryKeys | app/services/sensor_data_services.py:143 | Every key of an assigned dict comes from one of its two inputs. |
| Dicts.MergeSpec | app/services/sensor_data_services.py:143 | `{**a, **b}` has the keys of both. Every key of `b` takes `b`'s value. Every other key of `a` keeps `a`'s value. |
| Dicts.ToMapKeys | app/services/sensor_data_services.py:82 | A key is in a dict's mapping exactly when some entry carries it. |
| Flux.RecordsCount | app/core/influxdb.py:52-55 | Flattening tables into records, table by table, loses and adds no record: the flattened length is the summed record count. |
| Flux.LiftSpec | app/services/sensor_data_services.py:22-23 | A `Dict[str, str]` used as tags keeps its keys, and each value becomes a string value. |
| Flux.AddTags | app/services/sensor_data_services.py:22-23 | The `point.tag` loop leaves the point's tags as `PutAll` of the caller's tags, each entry assigned in order. `PutAllSpec` gives its meaning: the union of the two mappings, the caller winning. |
| Flux.AddFields | app/services/sensor_data_services.py:25-26 | The same loop as `AddTags`, applied to the fields. The `point.field` loop leaves the point's fields as `PutAll` of the caller's fields, each entry assigned in order. `PutAllSpec` gives its meaning: the union of the two mappings, the caller winning. |
| Flux.TableWellFormed | app/services/sensor_data_services.py:76-77 | Narrows the assumed property of the client's results, that every row has distinct column names, to the rows of one table given by index. |
| RecordCodec.ColumnsOfMap | app/services/sensor_data_services.py:82-90 | The entries selected for one kind of column map each key of that kind to its original value, and map nothing else. |
| RecordCodec.ColumnsOfIsDict | app/services/sensor_data_services.py:82-90 | Tags or fields decoded from a dict have distinct keys. |
| RecordCodec.ColumnsOfAppend | app/services/sensor_data_services.py:82-90 | Decoding a concatenated row decodes each part in turn. |
| RecordCodec.DecodePartition | app/services/sensor_data_services.py:69-90 | Decoding partitions a row. The tags are exactly the registered, non-reserved columns. The fields are exactly the other non-reserved columns. Both keep their original values. The two key sets are disjoint, and together they are the row minus its reserved columns. |
| RecordCodec.DecodedMaps | app/services/sensor_data_services.py:82-90 | The tags map each registered, non-reserved column to its stored value. The fields map each other non-reserved column to its stored value. Neither maps anything else. |
| RecordCodec.DecodedKeysFresh | app/services/sensor_data_services.py:82-90 | While a row is decoded, the next column's name is not yet among the tags or fields collected, so each assignment appends. |
| RecordCodec.DecodedKinds | app/services/sensor_data_services.py:83-90 | Every decoded tag name classifies as a tag, and every decoded field name as a field. |
| RecordCodec.SelectKinds | app/services/sensor_data_services.py:83-90 | Suppose the non-reserved part of a mapping is the union of a part of one kind and a part of another. Then selecting each kind gives back exactly its part. |
| RecordCodec.DecodeAnyOrder | app/services/sensor_data_services.py:82-90 | Decoding works key by key, so column order does not matter. Take any row whose non-reserved columns are exactly some registered tags plus some other columns, in any order. It decodes to exactly those tags and those fields. |
| RecordCodec.DecodeComposedRow | app/services/sensor_data_services.py:82-90 | A row laid out as reserved columns, then registered tags, then other columns decodes back to exactly those tags and fields, in order. |
| RecordCodec.DecodeRecord | app/services/sensor_data_services.py:78-90 | The decode loop yields the tags and fields of the partition above: disjoint, and together the row without its reserved keys. |
| FluxQuery.FiltersShape | app/services/sensor_data_services.py:56-58 | There is exactly one filter clause per tag filter, the i-th clause for the i-th entry in insertion order. |
| FluxQuery.ReadQueryFilters | app/services/sensor_data_services.py:50-63 | Given a filter dict, the read query is the range/measurement head, then the filter clauses joined, then pivot and limit. An empty dict gives the same query as `None`. |
| FluxQuery.SingleFilterReadQuery | app/services/sensor_data_services.py:50-63 | A single tag filter places one filter clause between head and tail. |
| FluxQuery.LimitPassedThrough | app/services/sensor_data_services.py:62 | The limit clause carries the caller's limit unchanged: its digits read back as `limit`, negative or zero included. |
| FluxQuery.UpdateQueryIsScopedRead | app/services/sensor_data_services.py:117-123 | The update-read is the ranged read with one tag filter, the pivot, and no limit. |
| FluxQuery.AppendFilters | app/services/sensor_data_services.py:57-58 | The filter loop appends one clause per tag filter, in the dict's order. |
| FluxQuery.BuildReadQuery | app/services/sensor_data_services.py:50-63 | The `+=` accumulation produces the head, then the filters in order, then pivot and limit. |
| Text.ConcatAppend | app/services/sensor_data_services.py:58 | Joining the clauses of two sequences of clauses gives the two texts one after the other. |
| Text.IntRoundTrip | app/services/sensor_data_services.py:62 | Python's `str()` of an integer reads back as that integer. |
| DeletePredicate.RenderAllAppend | app/services/sensor_data_services.py:165-174 | Rendering more conditions extends the text of fewer conditions. |
| DeletePredicate.PredicateShape | app/services/sensor_data_services.py:163-174 | The predicate is the measurement equality, then ` AND k="v"` per tag in order, then one condition per field in order. A field is quoted exactly when its value is a string, and is bare `str()` text otherwise. |
| DeletePredicate.MeasurementOnlyPredicate | app/services/sensor_data_services.py:163-169 | Without tags or fields, whether `None` or empty, the predicate is `_measurement="M"` alone. |
| DeletePredicate.AppendTagConditions | app/services/sensor_data_services.py:165-167 | The tag loop appends the quoted condition of every tag, in order. |
| DeletePredicate.AppendFieldConditions | app/services/sensor_data_services.py:169-174 | The field loop appends each field's condition in order, quoted for strings and bare otherwise. |
| DeletePredicate.BuildDeletePredicate | app/services/sensor_data_services.py:163-174 | The accumulated predicate is the predicate described above. |
| InfluxDb.Store.Write | app/services/sensor_data_services.py:36 | A write appends the point to the store's writes and changes nothing else. |
| InfluxDb.Store.Query | app/services/sensor_data_services.py:65 | A query appends its text to the store's queries and changes nothing else. |
| InfluxDb.Store.Delete | app/services/sensor_data_services.py:177-183 | A delete appends its range and predicate to the store's deletes and changes nothing else. |
| InfluxDb.EmptyRangePredicate | app/core/influxdb.py:62-70 | With the default empty predicate, only `_measurement="M"` and a trailing space are sent. |
| InfluxDb.InfluxDb.constructor | app/core/influxdb.py:10 | The handle starts as `None`, and no client has been constructed. |
| InfluxDb.InfluxDb.GetClient | app/core/influxdb.py:12-17 | A client is constructed only when the handle is `None`; otherwise the live client is returned unchanged. After a close, the next get constructs a fresh client that differs from every closed one. It keeps `Valid`: every client constructed is either closed or the live handle. |
| InfluxDb.InfluxDb.AtMostOneLive | app/core/influxdb.py:10-17 | Under `Valid`, which the constructor, `GetClient` and `CloseClient` keep, each client constructed is either closed or held, never both. At most one client is live: the latest one, and it is not closed. |
| InfluxDb.InfluxDb.CloseClient | app/core/influxdb.py:76-81 | A live client is closed and the handle reset to `None`. On `None` nothing changes, so a second close is harmless. It keeps `Valid`. |
| InfluxDb.InfluxDb.WritePoint | app/core/influxdb.py:31-43 | Exactly one point is written. It has exactly the given tags and fields, and a time only when a timestamp is given. The client is obtained lazily. |
| InfluxDb.InfluxDb.QueryFlux | app/core/influxdb.py:46-56 | The query is issued once. The result is every record's value map, table by table and in order, and its length is the total record count. |
| InfluxDb.InfluxDb.DeleteDataRange | app/core/influxdb.py:58-73 | One delete is issued over the given datetimes. Its predicate is `_measurement="M" ` followed verbatim by the caller's predicate. |
| SensorDataServices.CreatedTime | app/services/sensor_data_services.py:28-34 | The point has a time exactly when a timestamp is given. A naive timestamp is declared UTC and keeps its instant. An aware timestamp is kept as is. |
| SensorDataServices.CreatedPointSpec | app/services/sensor_data_services.py:17-23 | `host="fastapi_app"` is set first, and a caller `host` tag overrides it. Every caller tag is present with its value as a string, and there are no other tags. |
| SensorDataServices.BuildPoint | app/services/sensor_data_services.py:17-34 | Building the point step by step, default tag, tag loop, field loop, then time, gives `CreatedPoint`. The fields are exactly the caller's. |
| SensorDataServices.CreatedPointReadBack | app/services/sensor_data_services.py:17-26 | Consider a row laid out as reserved columns, then the created point's tags, then its fields, in the point's own order. If every tag name is registered and no field name is reserved or registered, the row decodes back to exactly the point's tag and field entries, in order. |
| SensorDataServices.CreatedPointStoredReadBack | app/services/sensor_data_services.py:16-36 | Now take a row in any column order whose non-reserved columns are exactly the created point's tags and fields. Under the same naming conditions, it decodes back to the point's tag mapping and its field mapping. |
| SensorDataServices.ResponseSpec | app/services/sensor_data_services.py:76-101 | A reading carries its row's measurement and a UTC-aware time at the row's instant. Its tags and fields partition the row's non-reserved columns, and every tag key is registered. |
| SensorDataServices.RewriteSpec | app/services/sensor_data_services.py:143-152 | A rewritten point has the requested measurement, exactly the decoded tags, and the row's own time in UTC. Its fields are the row's fields plus the new ones. New fields take the caller's values, and the other row fields keep their stored values. |
| SensorDataServices.RewriteReadBack | app/services/sensor_data_services.py:143-152 | Consider a row laid out as reserved columns, then a rewritten point's tags, then its fields, in the point's own order. If no new field name is reserved or registered, the row decodes back to exactly the original row's tags and the merged fields, in order. |
| SensorDataServices.RewriteStoredReadBack | app/services/sensor_data_services.py:130-155 | Now take a row in any column order whose non-reserved columns are exactly a rewritten point's tags and fields. Under the same condition, it decodes to the original row's tag mapping and the merged field mapping. |
| SensorDataServices.DecodeTable | app/services/sensor_data_services.py:77-102 | The row loop of one table yields one reading per row, in order, each the `Response` of its row. |
| SensorDataServices.DecodeTables | app/services/sensor_data_services.py:76-103 | The table loop yields the readings of all rows, table by table, and as many as there are records. |
| SensorDataServices.SensorDataService.constructor | app/services/sensor_data_services.py:9-14 | The service takes the shared client, creating it only if absent, and keeps the bucket and organisation. |
| SensorDataServices.SensorDataService.CreateSensorData | app/services/sensor_data_services.py:16-36 | Exactly one write is issued: the point described by `CreatedPointSpec` and `CreatedTime`. |
| SensorDataServices.SensorDataService.GetSensorData | app/services/sensor_data_services.py:39-103 | The read query is issued once. The result has one reading per row, in table and row order, as many as there are records, each as described by `ResponseSpec`. |
| SensorDataServices.SensorDataService.RewriteRecord | app/services/sensor_data_services.py:132-154 | One matched row is decoded, its fields merged, and exactly its rewritten point written. |
| SensorDataServices.SensorDataService.RewriteTable | app/services/sensor_data_services.py:131-155 | The row loop of one table writes one rewritten point per row, in order, and counts one per row. It issues no query or delete. |
| SensorDataServices.SensorDataService.RewriteTables | app/services/sensor_data_services.py:130-155 | The table loop writes the rewrites of all rows, table by table, and the count is the total number of records. |
| SensorDataServices.SensorDataService.UpdateSensorData | app/services/sensor_data_services.py:105-156 | The update-read is issued, ending at `now` when no end is given. Exactly one rewrite is issued per fetched row, in order. The result is true iff at least one row was fetched. |
| SensorDataServices.SensorDataService.DeleteSensorData | app/services/sensor_data_services.py:159-183 | Exactly one delete is issued, over the rendered range and with the predicate above. |

## Left out

- The client library is not modelled: constructing `InfluxDBClient`, its `write_api`, `query_api` and `delete_api`, `.close()`, and transport failures.
  - Calls are recorded in `Store`.
  - What a query answers is a parameter (`tables`).
  - Library errors are not modelled; every call is taken to succeed.
- The bucket and organisation passed with each call are not recorded: the model has a single store.
- Datetime arithmetic and rendering are not modelled.
  - `astimezone(timezone.utc).isoformat()` is the caller-supplied function `isoUtc`.
  - `datetime.now(timezone.utc)` is the parameter `now`.
  - What `astimezone` does with a naive datetime depends on the host's local zone and is not modelled.
  - A datetime is an abstract wall-clock number with an optional offset.
- The text of a float field value (`str(v)`) is kept as given (`Value.Num`).
- `Value.Null` is Python's `None`, the cell a pivoted row holds for a field absent at that time.
  - `DecodeRecord` returns it as a field, and `RewriteRecord` merges it and writes it as given, as the source does.
  - How the client library encodes a point with a `None` field is not modelled.
- Integer and boolean `str()` is modelled (`IntText`, `"True"`/`"False"`).
- Printing and logging in `app/core/influxdb.py` are omitted: they are output only.
- Thread safety of the client holder is not modelled, and neither is concurrent interleaving of updates; the source has neither.
- The source implements no value escaping, limit validation or `start <= end` check, so the model has none either.
  - Values are interpolated into query and predicate text verbatim.
  - A zero or negative `limit` is sent in the query unchanged. A "reject non-positive limit" rule is described for the layer, but the code does not implement it, so the model follows the code (`FluxQuery.LimitPassedThrough`).
- Input validation by the request models is not modelled. `SensorDataResponse.tags` is declared `Dict[str, str]`, but the model returns the decoded column values as they are.
- HTTP endpoints, the router, settings loading and the application entry point are not part of this model.
- `get_write_api`, `get_query_api` and `get_delete_api` are modelled only through their effect, obtaining the client via `GetClient`.
- `DeleteSensorData` takes the client the service was built with, as the source does (`self.client.delete_api()`), and does not go through the lazy holder.
