/** Splitting a pivoted row into tags and fields: reserved columns are dropped, columns named
    in the tag-key registry become tags, every other column becomes a field. */
module RecordCodec {
  import opened Dicts
  import opened Flux

  /** Columns that are always query bookkeeping, never tags or fields. */
  const InternalKeys: set<string> :=
    {"_time", "_measurement", "_start", "_stop", "result", "table", "_value", "_field"}

  /** The closed registry of column names read back as tags. */
  const TagKeys: set<string> := {"host", "location", "device_id", "room_type", "sensor_id"}

  datatype Column = Internal | Tag | Field

  /** Where a column goes: the reserved set is checked first, then the tag registry. */
  function Classify(key: string): Column
  {
    if key in InternalKeys then Internal
    else if key in TagKeys then Tag
    else Field
  }

  /** The entries of a row whose column `kind` classifies as `c`, in the row's order. */
  function ColumnsOf(row: Dict<Value>, kind: string -> Column, c: Column): (r: Dict<Value>)
    ensures |r| <= |row|
  {
    if row == [] then []
    else
      var last := row[|row| - 1];
      ColumnsOf(row[..|row| - 1], kind, c) + (if kind(last.0) == c then [last] else [])
  }

  /** The tags a row decodes to. */
  function TagsOf(row: Dict<Value>): Dict<Value>
  {
    ColumnsOf(row, Classify, Tag)
  }

  /** The fields a row decodes to. */
  function FieldsOf(row: Dict<Value>): Dict<Value>
  {
    ColumnsOf(row, Classify, Field)
  }

  /** The mapping of the selected entries is the row's mapping restricted to the keys
      classified `c`, each with its original value. */
  lemma {:induction false} ColumnsOfMap(row: Dict<Value>, kind: string -> Column, c: Column)
    ensures ToMap(ColumnsOf(row, kind, c)) == map k | k in ToMap(row) && kind(k) == c :: ToMap(row)[k]
  {
    if row != [] {
      var n := |row| - 1;
      var init := ColumnsOf(row[..n], kind, c);
      ColumnsOfMap(row[..n], kind, c);
      if kind(row[n].0) == c {
        assert (init + [row[n]])[..|init|] == init;
      } else {
        assert init + [] == init;
      }
    }
  }

  /** Every selected entry is an entry of the row, classified `c`. */
  lemma {:induction false} ColumnsOfEntries(row: Dict<Value>, kind: string -> Column, c: Column)
    ensures forall e :: e in ColumnsOf(row, kind, c) ==> e in row && kind(e.0) == c
  {
    if row != [] {
      var n := |row| - 1;
      ColumnsOfEntries(row[..n], kind, c);
      forall e | e in ColumnsOf(row[..n], kind, c)
        ensures e in row
      {
        var j :| 0 <= j < n && row[..n][j] == e;
        assert row[j] == e;
      }
    }
  }

  /** Selecting entries of a dict keeps the keys distinct. */
  lemma {:induction false} ColumnsOfIsDict(row: Dict<Value>, kind: string -> Column, c: Column)
    requires IsDict(row)
    ensures IsDict(ColumnsOf(row, kind, c))
  {
    if row != [] {
      var n := |row| - 1;
      var init := ColumnsOf(row[..n], kind, c);
      ColumnsOfIsDict(row[..n], kind, c);
      ColumnsOfEntries(row[..n], kind, c);
      forall e | e in init
        ensures e.0 != row[n].0
      {
        var j :| 0 <= j < n && row[..n][j] == e;
        assert row[j] == e;
      }
    }
  }

  /** Selection distributes over concatenation. */
  lemma {:induction false} ColumnsOfAppend(a: Dict<Value>, b: Dict<Value>, kind: string -> Column, c: Column)
    ensures ColumnsOf(a + b, kind, c) == ColumnsOf(a, kind, c) + ColumnsOf(b, kind, c)
  {
    if b == [] {
      assert a + b == a;
    } else {
      var n := |b| - 1;
      assert (a + b)[..|a| + n] == a + b[..n];
      ColumnsOfAppend(a, b[..n], kind, c);
    }
  }

  /** A row whose columns are all classified `c` is selected whole; one with none classified `c`
      yields nothing. */
  lemma {:induction false} ColumnsOfUniform(row: Dict<Value>, kind: string -> Column, c: Column, d: Column)
    requires forall i :: 0 <= i < |row| ==> kind(row[i].0) == d
    ensures ColumnsOf(row, kind, c) == if c == d then row else []
  {
    if row != [] {
      var n := |row| - 1;
      ColumnsOfUniform(row[..n], kind, c, d);
      assert row[..n] + [row[n]] == row;
    }
  }

  /** The tags of a row are its registered non-reserved columns and its fields its other
      non-reserved columns, each with its original value. */
  lemma DecodedMaps(row: Dict<Value>)
    ensures ToMap(TagsOf(row)) == map k | k in ToMap(row) && k !in InternalKeys && k in TagKeys :: ToMap(row)[k]
    ensures ToMap(FieldsOf(row)) == map k | k in ToMap(row) && k !in InternalKeys && k !in TagKeys :: ToMap(row)[k]
  {
    assert ToMap(TagsOf(row)) == map k | k in ToMap(row) && k !in InternalKeys && k in TagKeys :: ToMap(row)[k] by {
      ColumnsOfMap(row, Classify, Tag);
    }
    ColumnsOfMap(row, Classify, Field);
  }

  /** Every decoded tag name classifies as a tag and every decoded field name as a field. */
  lemma DecodedKinds(row: Dict<Value>)
    ensures forall k :: k in ToMap(TagsOf(row)) ==> Classify(k) == Tag
    ensures forall k :: k in ToMap(FieldsOf(row)) ==> Classify(k) == Field
  {
    DecodedMaps(row);
  }

  /** When the non-reserved part of a mapping is the union of a part of kind `c` and a part
      of kind `d`, selecting `c` gives the first part and selecting `d` the second. */
  lemma SelectKinds(m: map<string, Value>, kind: string -> Column, c: Column, d: Column,
                    a: map<string, Value>, b: map<string, Value>)
    requires c != Internal && d != Internal && c != d
    requires forall k :: k in a ==> kind(k) == c
    requires forall k :: k in b ==> kind(k) == d
    requires (map k | k in m && kind(k) != Internal :: m[k]) == a + b
    ensures (map k | k in m && kind(k) == c :: m[k]) == a
    ensures (map k | k in m && kind(k) == d :: m[k]) == b
  {
    var rest := map k | k in m && kind(k) != Internal :: m[k];
    forall k | k in a
      ensures k in m && kind(k) == c && m[k] == a[k]
    {
      assert k !in b && k in rest;
    }
    forall k | k in b
      ensures k in m && kind(k) == d && m[k] == b[k]
    {
      assert k in rest;
    }
    forall k | k in m && kind(k) != Internal
      ensures k in a || k in b
    {
      assert k in rest;
    }
  }

  /** Reading back is independent of column order: whenever a row's non-reserved columns are
      exactly a set of registered tag columns and a set of field columns, in any order, the
      row decodes to exactly those tags and those fields. */
  lemma DecodeAnyOrder(row: Dict<Value>, tags: map<string, Value>, fields: map<string, Value>)
    requires forall k :: k in tags ==> Classify(k) == Tag
    requires forall k :: k in fields ==> Classify(k) == Field
    requires ToMap(row) - InternalKeys == tags + fields
    ensures ToMap(TagsOf(row)) == tags
    ensures ToMap(FieldsOf(row)) == fields
  {
    var m := ToMap(row);
    assert (map k | k in m && Classify(k) != Internal :: m[k]) == m - InternalKeys;
    ColumnsOfMap(row, Classify, Tag);
    ColumnsOfMap(row, Classify, Field);
    SelectKinds(m, Classify, Tag, Field, tags, fields);
  }

  /** Decoding is a partition of the row: tags are exactly the registered non-reserved
      columns, fields exactly the other non-reserved columns, both with their original
      values; the two are disjoint and together they are the row without its reserved
      columns. */
  lemma DecodePartition(row: Dict<Value>)
    requires IsDict(row)
    ensures IsDict(TagsOf(row)) && IsDict(FieldsOf(row))
    ensures ToMap(TagsOf(row)) == map k | k in ToMap(row) && k !in InternalKeys && k in TagKeys :: ToMap(row)[k]
    ensures ToMap(FieldsOf(row)) == map k | k in ToMap(row) && k !in InternalKeys && k !in TagKeys :: ToMap(row)[k]
    ensures ToMap(TagsOf(row)).Keys !! ToMap(FieldsOf(row)).Keys
    ensures ToMap(TagsOf(row)) + ToMap(FieldsOf(row)) == ToMap(row) - InternalKeys
  {
    ColumnsOfIsDict(row, Classify, Tag);
    ColumnsOfIsDict(row, Classify, Field);
    DecodedMaps(row);
  }

  /** A row with no column classified `c` yields nothing. */
  lemma {:induction false} ColumnsOfNone(row: Dict<Value>, kind: string -> Column, c: Column)
    requires forall i :: 0 <= i < |row| ==> kind(row[i].0) != c
    ensures ColumnsOf(row, kind, c) == []
  {
    if row != [] {
      ColumnsOfNone(row[..|row| - 1], kind, c);
    }
  }

  /** Selecting `c` from a run of columns of kind `a`, then a run of kind `b`, then a run of
      kind `d`, where only `b` is `c`, keeps exactly the middle run. */
  lemma ColumnsOfMiddle(x: Dict<Value>, y: Dict<Value>, z: Dict<Value>, kind: string -> Column,
                        c: Column, a: Column, b: Column, d: Column)
    requires a != c && b == c && d != c
    requires forall i :: 0 <= i < |x| ==> kind(x[i].0) == a
    requires forall i :: 0 <= i < |y| ==> kind(y[i].0) == b
    requires forall i :: 0 <= i < |z| ==> kind(z[i].0) == d
    ensures ColumnsOf(x + y + z, kind, c) == y
  {
    ColumnsOfUniform(x, kind, c, a);
    ColumnsOfUniform(y, kind, c, b);
    ColumnsOfAppend(x, y, kind, c);
    assert ColumnsOf(x + y, kind, c) == y by {
      assert [] + y == y;
    }
    ColumnsOfUniform(z, kind, c, d);
    ColumnsOfAppend(x + y, z, kind, c);
    assert y + [] == y;
  }

  /** Selecting `c` from columns none of which is `c`, followed by columns all of which are,
      keeps exactly the second run. */
  lemma ColumnsOfTail(x: Dict<Value>, z: Dict<Value>, kind: string -> Column, c: Column)
    requires forall i :: 0 <= i < |x| ==> kind(x[i].0) != c
    requires forall i :: 0 <= i < |z| ==> kind(z[i].0) == c
    ensures ColumnsOf(x + z, kind, c) == z
  {
    ColumnsOfNone(x, kind, c);
    ColumnsOfUniform(z, kind, c, c);
    ColumnsOfAppend(x, z, kind, c);
    assert [] + z == z;
  }

  /** Selecting from reserved columns, then tag columns, then field columns keeps exactly
      the middle run for tags and the last run for fields. */
  lemma ColumnsOfComposed(meta: Dict<Value>, tags: Dict<Value>, fields: Dict<Value>, kind: string -> Column)
    requires forall i :: 0 <= i < |meta| ==> kind(meta[i].0) == Internal
    requires forall i :: 0 <= i < |tags| ==> kind(tags[i].0) == Tag
    requires forall i :: 0 <= i < |fields| ==> kind(fields[i].0) == Field
    ensures ColumnsOf(meta + tags + fields, kind, Tag) == tags
    ensures ColumnsOf(meta + tags + fields, kind, Field) == fields
  {
    ColumnsOfMiddle(meta, tags, fields, kind, Tag, Internal, Tag, Field);
    forall i | 0 <= i < |meta + tags|
      ensures kind((meta + tags)[i].0) != Field
    {
      if i >= |meta| {
        assert (meta + tags)[i] == tags[i - |meta|];
      }
    }
    ColumnsOfTail(meta + tags, fields, kind, Field);
  }

  /** Reading back a row laid out as reserved columns, then registered tags, then fields
      (the shape a pivoted query gives a written point) yields those tags and those fields
      unchanged, in order. */
  lemma DecodeComposedRow(meta: Dict<Value>, tags: Dict<Value>, fields: Dict<Value>)
    requires forall i :: 0 <= i < |meta| ==> Classify(meta[i].0) == Internal
    requires forall i :: 0 <= i < |tags| ==> Classify(tags[i].0) == Tag
    requires forall i :: 0 <= i < |fields| ==> Classify(fields[i].0) == Field
    ensures TagsOf(meta + tags + fields) == tags
    ensures FieldsOf(meta + tags + fields) == fields
  {
    ColumnsOfComposed(meta, tags, fields, Classify);
  }

  /** The key at position `i` of a dict is not yet among the tags or fields decoded from
      the entries before it. */
  lemma DecodedKeysFresh(values: Dict<Value>, i: int)
    requires IsDict(values)
    requires 0 <= i < |values|
    ensures forall j :: 0 <= j < |TagsOf(values[..i])| ==> TagsOf(values[..i])[j].0 != values[i].0
    ensures forall j :: 0 <= j < |FieldsOf(values[..i])| ==> FieldsOf(values[..i])[j].0 != values[i].0
  {
    ColumnsOfEntries(values[..i], Classify, Tag);
    ColumnsOfEntries(values[..i], Classify, Field);
    forall e | e in TagsOf(values[..i]) + FieldsOf(values[..i])
      ensures e.0 != values[i].0
    {
      var j :| 0 <= j < i && values[..i][j] == e;
      assert values[j] == e;
    }
  }

  /** The decode loop over `record.values.items()`: skip reserved keys, put registered keys
      into the tags and the rest into the fields. */
  method DecodeRecord(values: Dict<Value>) returns (tags: Dict<Value>, fields: Dict<Value>)
    requires IsDict(values)
    ensures tags == TagsOf(values) && fields == FieldsOf(values)
    ensures ToMap(tags) + ToMap(fields) == ToMap(values) - InternalKeys
    ensures ToMap(tags).Keys !! ToMap(fields).Keys
  {
    tags, fields := [], [];
    for i := 0 to |values|
      invariant tags == TagsOf(values[..i]) && fields == FieldsOf(values[..i])
    {
      var key, value := values[i].0, values[i].1;
      assert values[..i + 1][..i] == values[..i];
      DecodedKeysFresh(values, i);
      if key in InternalKeys {
        continue;
      }
      if key in TagKeys {
        PutFresh(tags, key, value);
        tags := Put(tags, key, value);
      } else {
        PutFresh(fields, key, value);
        fields := Put(fields, key, value);
      }
    }
    assert values[..|values|] == values;
    DecodePartition(values);
  }
}
