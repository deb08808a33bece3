/** The delete predicate the service builds: the measurement equality, then one ` AND k="v"`
    per tag, then one condition per field, quoted for string values and bare otherwise.
    Values are interpolated as they are, without escaping, as the service does. */
module DeletePredicate {
  import opened Wrappers
  import opened Dicts
  import opened Flux
  import opened Text

  /** Python's `str(v)` of a field value. */
  function Repr(v: Value): string
  {
    match v
    case Str(s) => s
    case Int(i) => IntText(i)
    case Bool(b) => if b then "True" else "False"
    case Num(r) => r
    case Null => "None"
  }

  /** One equality condition of the predicate: the key, the value's text, and whether the
      text is put in double quotes. */
  datatype Condition = Condition(key: string, literal: string, quoted: bool)

  function Quote(s: string): string
  {
    "\"" + s + "\""
  }

  /** ` AND k="v"` for a quoted condition, ` AND k=v` for a bare one. */
  function Render(c: Condition): string
  {
    " AND " + c.key + "=" + if c.quoted then Quote(c.literal) else c.literal
  }

  /** A tag condition: always quoted. */
  function TagCondition(key: string, value: string): Condition
  {
    Condition(key, value, true)
  }

  /** A field condition: quoted exactly when the value is a string. */
  function FieldCondition(key: string, value: Value): Condition
  {
    Condition(key, Repr(value), value.Str?)
  }

  function TagConditions(tags: Dict<string>): seq<Condition>
  {
    seq(|tags|, i requires 0 <= i < |tags| => TagCondition(tags[i].0, tags[i].1))
  }

  function FieldConditions(fields: Dict<Value>): seq<Condition>
  {
    seq(|fields|, i requires 0 <= i < |fields| => FieldCondition(fields[i].0, fields[i].1))
  }

  /** All conditions after the measurement: the tags' in order, then the fields' in order;
      `None` and an empty dict both contribute nothing. */
  function Conditions(tags: Option<Dict<string>>, fields: Option<Dict<Value>>): seq<Condition>
  {
    (if tags.Some? then TagConditions(tags.value) else [])
    + (if fields.Some? then FieldConditions(fields.value) else [])
  }

  /** The conditions rendered one after another. */
  function RenderAll(cs: seq<Condition>): string
  {
    Concat(seq(|cs|, i requires 0 <= i < |cs| => Render(cs[i])))
  }

  function MeasurementClause(measurement: string): string
  {
    "_measurement=" + Quote(measurement)
  }

  /** The full predicate text. */
  function Predicate(measurement: string, tags: Option<Dict<string>>, fields: Option<Dict<Value>>): string
  {
    MeasurementClause(measurement) + RenderAll(Conditions(tags, fields))
  }

  /** Rendering a longer list of conditions extends the text of the shorter one. */
  lemma RenderAllAppend(a: seq<Condition>, b: seq<Condition>)
    ensures RenderAll(a + b) == RenderAll(a) + RenderAll(b)
  {
    var ra := seq(|a|, i requires 0 <= i < |a| => Render(a[i]));
    var rb := seq(|b|, i requires 0 <= i < |b| => Render(b[i]));
    assert seq(|a + b|, i requires 0 <= i < |a + b| => Render((a + b)[i])) == ra + rb;
    ConcatAppend(ra, rb);
  }

  /** The predicate starts with the measurement equality, then has one condition per tag
      (in order, quoted) followed by one per field (in order, quoted exactly for strings,
      the field's `str()` text otherwise). */
  lemma PredicateShape(measurement: string, tags: Dict<string>, fields: Dict<Value>)
    ensures Predicate(measurement, Some(tags), Some(fields))
      == MeasurementClause(measurement) + RenderAll(TagConditions(tags)) + RenderAll(FieldConditions(fields))
    ensures forall i :: 0 <= i < |tags| ==>
      Render(TagConditions(tags)[i]) == " AND " + tags[i].0 + "=" + Quote(tags[i].1)
    ensures forall i :: 0 <= i < |fields| && fields[i].1.Str? ==>
      Render(FieldConditions(fields)[i]) == " AND " + fields[i].0 + "=" + Quote(fields[i].1.s)
    ensures forall i :: 0 <= i < |fields| && !fields[i].1.Str? ==>
      Render(FieldConditions(fields)[i]) == " AND " + fields[i].0 + "=" + Repr(fields[i].1)
  {
    RenderAllAppend(TagConditions(tags), FieldConditions(fields));
  }

  /** Without tags or fields the predicate is the measurement equality alone. */
  lemma MeasurementOnlyPredicate(measurement: string, tags: Option<Dict<string>>, fields: Option<Dict<Value>>)
    requires tags.None? || tags == Some([])
    requires fields.None? || fields == Some([])
    ensures Predicate(measurement, tags, fields) == "_measurement=" + Quote(measurement)
  {
    assert Conditions(tags, fields) == [];
  }

  /** `for k, v in tags.items(): predicate += f' AND {k}="{v}"'`. */
  method AppendTagConditions(text: string, tags: Dict<string>) returns (r: string)
    ensures r == text + RenderAll(TagConditions(tags))
  {
    r := text;
    assert TagConditions(tags[..0]) == [];
    for i := 0 to |tags|
      invariant r == text + RenderAll(TagConditions(tags[..i]))
    {
      ghost var before := TagConditions(tags[..i]);
      ghost var c := TagCondition(tags[i].0, tags[i].1);
      assert TagConditions(tags[..i + 1]) == before + [c];
      RenderAllAppend(before, [c]);
      assert RenderAll([c]) == Render(c) by {
        assert [Render(c)][..0] == [];
      }
      AppendAssoc(text, RenderAll(before), Render(c));
      r := r + Render(Condition(tags[i].0, tags[i].1, true));
    }
    assert tags[..|tags|] == tags;
  }

  /** `for k, v in fields.items():` a quoted condition for a string value, a bare one otherwise. */
  method AppendFieldConditions(text: string, fields: Dict<Value>) returns (r: string)
    ensures r == text + RenderAll(FieldConditions(fields))
  {
    r := text;
    assert FieldConditions(fields[..0]) == [];
    for i := 0 to |fields|
      invariant r == text + RenderAll(FieldConditions(fields[..i]))
    {
      var k, v := fields[i].0, fields[i].1;
      ghost var before := FieldConditions(fields[..i]);
      ghost var c := FieldCondition(k, v);
      assert FieldConditions(fields[..i + 1]) == before + [c];
      RenderAllAppend(before, [c]);
      assert RenderAll([c]) == Render(c) by {
        assert [Render(c)][..0] == [];
      }
      AppendAssoc(text, RenderAll(before), Render(c));
      if v.Str? {
        assert Condition(k, v.s, true) == c;
        r := r + Render(Condition(k, v.s, true));
      } else {
        r := r + Render(Condition(k, Repr(v), false));
      }
    }
    assert fields[..|fields|] == fields;
  }

  /** The predicate builder: the measurement clause, then the tag conditions when there are
      tags, then the field conditions when there are fields. */
  method BuildDeletePredicate(measurement: string, tags: Option<Dict<string>>, fields: Option<Dict<Value>>)
    returns (text: string)
    ensures text == Predicate(measurement, tags, fields)
  {
    ghost var tagConds := if tags.Some? then TagConditions(tags.value) else [];
    ghost var fieldConds := if fields.Some? then FieldConditions(fields.value) else [];
    text := MeasurementClause(measurement);
    if tags.Some? && |tags.value| > 0 {
      text := AppendTagConditions(text, tags.value);
    } else {
      assert RenderAll(tagConds) == "" by {
        assert tagConds == [];
      }
      AppendEmpty(text);
    }
    ghost var head := text;
    if fields.Some? && |fields.value| > 0 {
      text := AppendFieldConditions(text, fields.value);
    } else {
      assert RenderAll(fieldConds) == "" by {
        assert fieldConds == [];
      }
      AppendEmpty(text);
    }
    assert Conditions(tags, fields) == tagConds + fieldConds;
    RenderAllAppend(tagConds, fieldConds);
    AppendAssoc(MeasurementClause(measurement), RenderAll(tagConds), RenderAll(fieldConds));
  }
}
