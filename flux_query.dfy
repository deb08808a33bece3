/** The Flux query text the service sends: the ranged read (measurement filter, one filter per
    tag, pivot, limit) and the ranged update-read (one tag filter, pivot, no limit). Values are
    interpolated as they are, without escaping, as the service does. */
module FluxQuery {
  import opened Wrappers
  import opened Dicts
  import opened Text

  /** The opening of both queries: bucket, time range and measurement filter, one clause per line. */
  function Prelude(bucket: string, start: string, stop: string, measurement: string): string
  {
    "\n        from(bucket: \"" + bucket + "\")\n"
    + "          |> range(start: " + start + ", stop: " + stop + ")\n"
    + "          |> filter(fn: (r) => r._measurement == \"" + measurement + "\")\n"
  }

  /** The first literal of the read query: the prelude and the indentation before its closing quotes. */
  function ReadHead(bucket: string, start: string, stop: string, measurement: string): string
  {
    Prelude(bucket, start, stop, measurement) + "        "
  }

  /** One tag-equality filter of the read query. */
  function TagFilter(key: string, value: string): string
  {
    "  |> filter(fn: (r) => r." + key + " == \"" + value + "\")\n"
  }

  const PivotLine: string :=
    "          |> pivot(rowKey:[\"_time\"], columnKey:[\"_field\"], valueColumn:\"_value\")\n"

  /** The limit clause, with `limit` rendered by `str()`. */
  function LimitLine(limit: int): string
  {
    "          |> limit(n: " + IntText(limit) + ")\n        "
  }

  /** The closing literal of the read query: pivot, then limit. */
  function ReadTail(limit: int): string
  {
    "\n" + PivotLine + LimitLine(limit)
  }

  /** One filter clause per tag filter, in the dict's order. */
  function Filters(tagFilters: Dict<string>): seq<string>
  {
    if tagFilters == [] then []
    else
      var last := tagFilters[|tagFilters| - 1];
      Filters(tagFilters[..|tagFilters| - 1]) + [TagFilter(last.0, last.1)]
  }

  /** The rendered read query: head, then the filter clauses when the filters are neither
      `None` nor empty, then tail. */
  function ReadQuery(bucket: string, start: string, stop: string, measurement: string,
                     tagFilters: Option<Dict<string>>, limit: int): string
  {
    if tagFilters.Some? && tagFilters.value != [] then
      ReadHead(bucket, start, stop, measurement) + Concat(Filters(tagFilters.value)) + ReadTail(limit)
    else
      ReadHead(bucket, start, stop, measurement) + ReadTail(limit)
  }

  /** The update-read query, as one literal. */
  function UpdateQuery(bucket: string, start: string, stop: string, measurement: string,
                       tagKey: string, tagValue: string): string
  {
    Prelude(bucket, start, stop, measurement)
    + "          |> filter(fn: (r) => r." + tagKey + " == \"" + tagValue + "\")\n"
    + "          |> pivot(rowKey:[\"_time\"], columnKey:[\"_field\"], valueColumn:\"_value\")\n"
    + "        "
  }

  /** Exactly one filter clause per tag filter, the i-th clause for the i-th entry. */
  lemma {:induction false} FiltersShape(tagFilters: Dict<string>)
    ensures |Filters(tagFilters)| == |tagFilters|
    ensures forall i :: 0 <= i < |tagFilters| ==>
      Filters(tagFilters)[i] == TagFilter(tagFilters[i].0, tagFilters[i].1)
  {
    if tagFilters != [] {
      FiltersShape(tagFilters[..|tagFilters| - 1]);
    }
  }

  /** Whatever the filters, the read query is head, the joined filter clauses, tail; an empty
      filter dict gives the same query as `None`. */
  lemma ReadQueryFilters(bucket: string, start: string, stop: string, measurement: string,
                         tagFilters: Dict<string>, limit: int)
    ensures ReadQuery(bucket, start, stop, measurement, Some(tagFilters), limit)
      == ReadHead(bucket, start, stop, measurement) + Concat(Filters(tagFilters)) + ReadTail(limit)
    ensures tagFilters == [] ==>
      ReadQuery(bucket, start, stop, measurement, Some(tagFilters), limit)
      == ReadQuery(bucket, start, stop, measurement, None, limit)
  {
    if tagFilters == [] {
      AppendEmpty(ReadHead(bucket, start, stop, measurement));
    }
  }

  /** The limit clause carries the caller's limit unchanged: its number reads back as `limit`. */
  lemma LimitPassedThrough(limit: int)
    ensures LimitLine(limit) == "          |> limit(n: " + IntText(limit) + ")\n        "
    ensures IntValue(IntText(limit)) == limit
  {
    IntRoundTrip(limit);
  }

  /** The read query with the single filter `tagKey == tagValue` is head, that filter, tail. */
  lemma SingleFilterReadQuery(bucket: string, start: string, stop: string, measurement: string,
                              tagKey: string, tagValue: string, limit: int)
    ensures ReadQuery(bucket, start, stop, measurement, Some([(tagKey, tagValue)]), limit)
      == ReadHead(bucket, start, stop, measurement) + TagFilter(tagKey, tagValue) + ReadTail(limit)
  {
    var f := [(tagKey, tagValue)];
    FiltersShape(f);
    assert Filters(f) == [TagFilter(tagKey, tagValue)];
    ConcatSingle(TagFilter(tagKey, tagValue));
  }

  /** The update-read's filter line is the read query's closing indentation followed by the
      opening of a tag filter. */
  lemma FilterIndent()
    ensures "          |> filter(fn: (r) => r." == "        " + "  |> filter(fn: (r) => r."
  {
  }

  /** The update-read is the ranged read scoped to that one tag filter with the limit
      dropped: it has the same head and filter (compare SingleFilterReadQuery), then only
      the pivot. */
  lemma UpdateQueryIsScopedRead(bucket: string, start: string, stop: string, measurement: string,
                                tagKey: string, tagValue: string)
    ensures UpdateQuery(bucket, start, stop, measurement, tagKey, tagValue)
      == ReadHead(bucket, start, stop, measurement) + TagFilter(tagKey, tagValue)
         + PivotLine + "        "
  {
    var p := Prelude(bucket, start, stop, measurement);
    var indent := "        ";
    var open := "  |> filter(fn: (r) => r.";
    var eq := " == \"";
    var close := "\")\n";
    FilterIndent();
    var h := p + indent;
    // p + (indent + open) == h + open, then the filter's pieces regroup one at a time.
    AppendAssoc(p, indent, open);
    AppendAssoc(h, open, tagKey);
    AppendAssoc(h, open + tagKey, eq);
    AppendAssoc(h, open + tagKey + eq, tagValue);
    AppendAssoc(h, open + tagKey + eq + tagValue, close);
    assert TagFilter(tagKey, tagValue) == open + tagKey + eq + tagValue + close;
  }

  /** One more tag filter adds its clause at the end of the joined filters. */
  lemma ConcatFiltersSnoc(tagFilters: Dict<string>, i: int)
    requires 0 <= i < |tagFilters|
    ensures Concat(Filters(tagFilters[..i + 1]))
      == Concat(Filters(tagFilters[..i])) + TagFilter(tagFilters[i].0, tagFilters[i].1)
  {
    assert tagFilters[..i + 1][..i] == tagFilters[..i];
    var clauses := Filters(tagFilters[..i + 1]);
    assert clauses[..|clauses| - 1] == Filters(tagFilters[..i]);
  }

  /** `for tag_key, tag_value in tag_filters.items(): flux_query += ...`. */
  method AppendFilters(text: string, tagFilters: Dict<string>) returns (q: string)
    ensures q == text + Concat(Filters(tagFilters))
  {
    q := text;
    for i := 0 to |tagFilters|
      invariant q == text + Concat(Filters(tagFilters[..i]))
    {
      ConcatFiltersSnoc(tagFilters, i);
      AppendAssoc(text, Concat(Filters(tagFilters[..i])), TagFilter(tagFilters[i].0, tagFilters[i].1));
      q := q + TagFilter(tagFilters[i].0, tagFilters[i].1);
    }
    assert tagFilters[..|tagFilters|] == tagFilters;
  }

  /** The read-query builder: the head literal, the filter clauses when there are any, then
      the tail literal. */
  method BuildReadQuery(bucket: string, start: string, stop: string, measurement: string,
                        tagFilters: Option<Dict<string>>, limit: int) returns (q: string)
    ensures q == ReadQuery(bucket, start, stop, measurement, tagFilters, limit)
  {
    q := ReadHead(bucket, start, stop, measurement);
    if tagFilters.Some? && |tagFilters.value| > 0 {
      q := AppendFilters(q, tagFilters.value);
    }
    q := q + ReadTail(limit);
  }
}
