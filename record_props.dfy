/**
 * What the record promises, proved about the functions that specify
 * src/model_data.rs: the dump is idempotent and has one entry per field, the
 * JSON dump reads back as the dict dump, attribute reads find their field, and
 * a concrete record validated from a host dict dumps as expected.
 */
module RecordProps {
  import opened Wrappers
  import opened Field
  import opened Errors
  import opened Schema
  import opened Validation
  import opened ModelValidatorProps
  import opened Record

  // ---------------------------------------------------------------------------
  // Reading JSON back

  /** A float that is not infinite or NaN: its exponent bits are not all set. */
  predicate Finite(f: F64) {
    (f.bits >> 52) & 0x7FF != 0x7FF
  }

  /**
   * The host value a generic JSON reader builds from the text serde_json writes
   * for `s`: sequences and tuples both become lists, a map becomes a dict
   * filled entry by entry, and a float that is not finite was written as `null`.
   */
  function ReadBack(s: Ser): (o: PyObject)
    ensures (s.SerSeq? || s.SerTuple?) ==> o.PyList? && |o.elems| == |s.elems|
    ensures s.SerMap? ==> o.PyDict?
    decreases s
  {
    match s
    case SerNone => PyNone
    case SerBool(b) => PyBool(b)
    case SerI64(i) => PyInt(i as int)
    case SerF64(f) => if Finite(f) then PyFloat(f) else PyNone
    case SerStr(str) => PyStr(str)
    case SerSeq(elems) => PyList(seq(|elems|, i requires 0 <= i < |elems| => ReadBack(elems[i])))
    case SerTuple(elems) => PyList(seq(|elems|, i requires 0 <= i < |elems| => ReadBack(elems[i])))
    case SerMap(entries) => PyDict(ReadBackEntries(entries))
  }

  function ReadBackEntries(entries: seq<SerEntry>): (items: seq<Item>)
    decreases entries
  {
    if |entries| == 0 then []
    else
      var last := entries[|entries| - 1];
      SetItem(ReadBackEntries(entries[..|entries| - 1]), PyStr(last.key), ReadBack(last.value))
  }

  /** A raw value with no float that is infinite or NaN, at any depth. */
  predicate RawFinite(r: RawData)
    decreases r
  {
    match r
    case Float(f) => Finite(f)
    case List(elems) => forall i | 0 <= i < |elems| :: RawFinite(elems[i])
    case Dict(entries) => forall i | 0 <= i < |entries| :: RawFinite(entries[i].value)
    case _ => true
  }

  /** A host value JSON can carry unchanged: finite floats, and dicts without repeated keys, at any depth. */
  predicate JsonLike(o: PyObject)
    decreases o
  {
    match o
    case PyFloat(f) => Finite(f)
    case PyList(elems) => forall i | 0 <= i < |elems| :: JsonLike(elems[i])
    case PyDict(items) => DistinctKeys(items) && forall i | 0 <= i < |items| :: JsonLikeItem(items[i])
    case _ => true
  }

  predicate JsonLikeItem(item: Item)
    decreases item
  {
    JsonLike(item.value)
  }

  // ---------------------------------------------------------------------------
  // Round trips

  /** A raw value, serialised and read back, is the host value `to_object` builds from it. */
  lemma {:induction false} ReadBackRaw(r: RawData)
    requires RawFinite(r)
    ensures ReadBack(r.Serialize()) == r.ToObject()
    decreases r, 1
  {
    match r
    case List(elems) =>
      forall i | 0 <= i < |elems|
        ensures ReadBack(SerializeList(elems)[i]) == ListToObject(elems)[i]
      {
        ReadBackRaw(elems[i]);
      }
    case Dict(entries) => ReadBackRawEntries(entries);
    case _ =>
  }

  lemma {:induction false} ReadBackRawEntries(entries: seq<Entry>)
    requires forall i | 0 <= i < |entries| :: RawFinite(entries[i].value)
    ensures ReadBackEntries(SerializeEntries(entries)) == DictToObject(entries)
    decreases entries, 0
  {
    if |entries| > 0 {
      var n := |entries| - 1;
      var ser := SerializeEntries(entries);
      ReadBackRawEntries(entries[..n]);
      ReadBackRaw(entries[n].value);
      assert ser[..n] == SerializeEntries(entries[..n]);
      assert ser[n] == SerEntry(entries[n].key, entries[n].value.Serialize());
      assert ReadBackEntries(ser) == SetItem(ReadBackEntries(ser[..n]), PyStr(entries[n].key), ReadBack(ser[n].value));
    }
  }

  /** Folding entries with distinct keys into a dict keeps every entry, in order. */
  lemma {:induction false} ReadBackEntriesDistinct(entries: seq<SerEntry>)
    requires forall i, j | 0 <= i < j < |entries| :: entries[i].key != entries[j].key
    ensures ReadBackEntries(entries) ==
      seq(|entries|, i requires 0 <= i < |entries| => Item(PyStr(entries[i].key), ReadBack(entries[i].value)))
  {
    var expected := seq(|entries|, i requires 0 <= i < |entries| => Item(PyStr(entries[i].key), ReadBack(entries[i].value)));
    if |entries| > 0 {
      var n := |entries| - 1;
      var prefix := entries[..n];
      ReadBackEntriesDistinct(prefix);
      var p := ReadBackEntries(prefix);
      forall i | 0 <= i < n
        ensures p[i] == expected[i]
      {
        assert prefix[i] == entries[i];
      }
      var k := PyStr(entries[n].key);
      SetItemAbsent(p, k, ReadBack(entries[n].value));
      assert ReadBackEntries(entries) == p + [expected[n]];
    }
  }

  /** A host value that serialises, read back, is the value itself, when JSON can carry it unchanged. */
  lemma {:induction false} ReadBackPy(o: PyObject)
    requires JsonLike(o) && SerializePy(o).Ok?
    ensures ReadBack(SerializePy(o).value) == o
    decreases o, 1
  {
    match o
    case PyList(elems) =>
      forall i | 0 <= i < |elems|
        ensures ReadBack(SerializeElems(elems).value[i]) == elems[i]
      {
        ReadBackPy(elems[i]);
      }
    case PyDict(items) =>
      ReadBackPyItems(items);
    case _ =>
  }

  lemma {:induction false} ReadBackPyItems(items: seq<Item>)
    requires DistinctKeys(items) && forall i | 0 <= i < |items| :: JsonLikeItem(items[i])
    requires SerializeItems(items).Ok?
    ensures ReadBackEntries(SerializeItems(items).value) == items
    decreases items, 0
  {
    var es := SerializeItems(items).value;
    forall i | 0 <= i < |items|
      ensures es[i] == SerEntry(items[i].key.s, SerializePy(items[i].value).value)
      ensures Item(PyStr(es[i].key), ReadBack(es[i].value)) == items[i]
    {
      ReadBackPyItem(items[i]);
    }
    ReadBackEntriesDistinct(es);
  }

  lemma {:induction false} ReadBackPyItem(item: Item)
    requires JsonLikeItem(item) && SerializeItem(item).Ok?
    ensures ReadBack(SerializeItem(item).value.value) == item.value
    decreases item
  {
    ReadBackPy(item.value);
  }

  /**
   * The round trip of the two dumps: when the JSON dump succeeds, reading its
   * output back gives the dict the dict dump returns, provided every default
   * used and every raw value is one JSON carries unchanged, and a `Both`
   * value's handle is its raw value's host counterpart.
   */
  lemma {:induction false} DumpJsonReadsBackAsDump(fields: seq<FieldInfo>, data: seq<Option<FieldValue>>)
    requires |fields| == |data| && DumpJson(fields, data).Ok?
    requires forall i | 0 <= i < |fields| && data[i].None? :: JsonLike(fields[i].default)
    requires forall i | 0 <= i < |fields| && data[i].Some? && (data[i].value.Raw? || data[i].value.Both?) ::
      RawFinite(data[i].value.raw)
    requires forall i | 0 <= i < |fields| && data[i].Some? && data[i].value.Both? ::
      data[i].value.obj == data[i].value.raw.ToObject()
    ensures ReadBack(DumpJson(fields, data).value) == PyDict(Dump(fields, data))
  {
    DumpJsonEntriesReadBack(fields, data);
  }

  lemma {:induction false} DumpJsonEntriesReadBack(fields: seq<FieldInfo>, data: seq<Option<FieldValue>>)
    requires |fields| == |data| && DumpJsonEntries(fields, data).Ok?
    requires forall i | 0 <= i < |fields| && data[i].None? :: JsonLike(fields[i].default)
    requires forall i | 0 <= i < |fields| && data[i].Some? && (data[i].value.Raw? || data[i].value.Both?) ::
      RawFinite(data[i].value.raw)
    requires forall i | 0 <= i < |fields| && data[i].Some? && data[i].value.Both? ::
      data[i].value.obj == data[i].value.raw.ToObject()
    ensures ReadBackEntries(DumpJsonEntries(fields, data).value) == Dump(fields, data)
  {
    if |fields| > 0 {
      var n := |fields| - 1;
      var es := DumpJsonEntries(fields, data).value;
      assert forall i | 0 <= i < n :: fields[..n][i] == fields[i] && data[..n][i] == data[i];
      DumpJsonEntriesReadBack(fields[..n], data[..n]);
      assert es[..n] == DumpJsonEntries(fields[..n], data[..n]).value;
      match data[n]
      case None => ReadBackPy(fields[n].default);
      case Some(fv) =>
        if fv.Raw? || fv.Both? {
          ReadBackRaw(fv.raw);
        }
    }
  }

  // ---------------------------------------------------------------------------
  // The dict dump

  /** Filling defaults a second time changes nothing. */
  lemma FilledIdempotent(fields: seq<FieldInfo>, data: seq<Option<FieldValue>>)
    requires |fields| == |data|
    ensures Filled(fields, Filled(fields, data)) == Filled(fields, data)
  {
  }

  /** The dump does not depend on whether the defaults were already filled in: dumping twice gives the same dict. */
  lemma {:induction false} DumpIdempotent(fields: seq<FieldInfo>, data: seq<Option<FieldValue>>)
    requires |fields| == |data|
    ensures Dump(fields, Filled(fields, data)) == Dump(fields, data)
  {
    if |fields| > 0 {
      var n := |fields| - 1;
      assert Filled(fields, data)[..n] == Filled(fields[..n], data[..n]);
      DumpIdempotent(fields[..n], data[..n]);
    }
  }

  /** With unique names, the dump holds exactly one entry per field, in schema order. */
  lemma {:induction false} DumpExact(fields: seq<FieldInfo>, data: seq<Option<FieldValue>>)
    requires |fields| == |data| && UniqueNames(fields)
    ensures |Dump(fields, data)| == |fields|
    ensures forall i | 0 <= i < |fields| ::
      Dump(fields, data)[i] == Item(PyStr(fields[i].name), DumpValue(fields[i], data[i]))
  {
    if |fields| > 0 {
      var n := |fields| - 1;
      var prefix, prefixData := fields[..n], data[..n];
      forall i, j | 0 <= i < j < n
        ensures prefix[i].name != prefix[j].name
      {
        assert prefix[i] == fields[i] && prefix[j] == fields[j];
      }
      DumpExact(prefix, prefixData);
      var p := Dump(prefix, prefixData);
      var k := PyStr(fields[n].name);
      forall i | 0 <= i < n
        ensures p[i] == Item(PyStr(fields[i].name), DumpValue(fields[i], data[i])) && p[i].key != k
      {
        assert prefix[i] == fields[i] && prefixData[i] == data[i];
      }
      SetItemAbsent(p, k, DumpValue(fields[n], data[n]));
    }
  }

  /**
   * Once `model_dump` has filled the defaults, `model_dump_json` succeeds only
   * if no slot had been empty: a filled default is a host handle, and
   * `raw_value` on a host handle is unimplemented.
   */
  lemma DumpJsonAfterDumpNeedsAllFields(fields: seq<FieldInfo>, data: seq<Option<FieldValue>>)
    requires |fields| == |data| && DumpJson(fields, Filled(fields, data)).Ok?
    ensures forall i | 0 <= i < |data| :: data[i].Some?
  {
    forall i | 0 <= i < |data|
      ensures data[i].Some?
    {
      assert DumpJsonValue(fields[i], Filled(fields, data)[i]).Ok?;
    }
  }

  // ---------------------------------------------------------------------------
  // Attribute reads

  /** With unique names, reading a field's name reads that field's slot. */
  lemma GetAttrField(md: ModelData, i: nat)
    requires md.Valid() && UniqueNames(md.fieldInfo) && i < |md.fieldInfo|
    ensures md.GetAttr(md.fieldInfo[i].name) ==
      Ok(if md.fieldData[i].Some? then md.fieldData[i].value.ToObject() else PyNone)
  {
    KeyLookupIndex(md.fieldInfo, i);
  }

  // ---------------------------------------------------------------------------
  // A concrete record

  /** `{"foo": "hi"}` validates against `FooBar` to a record with `bar` empty. */
  lemma FooBarFooOnly()
    ensures ModelValidate(FooBar(), PyDict([Item(PyStr("foo"), PyStr("hi"))])) ==
      Ok(FieldValue.Model(Instance(0, [Some(Py(PyStr("hi"))), None])))
  {
    FooBarOptionalLeftOut();
    UnknownKeyIgnored(FooBar(), [Item(PyStr("foo"), PyStr("hi"))], Item(PyStr("baz"), PyNone), []);
    FooBarLookup();
    assert [Item(PyStr("foo"), PyStr("hi"))] + [Item(PyStr("baz"), PyNone)] + [] ==
      [Item(PyStr("foo"), PyStr("hi")), Item(PyStr("baz"), PyNone)];
    assert [Item(PyStr("foo"), PyStr("hi"))] + [] == [Item(PyStr("foo"), PyStr("hi"))];
  }

  /** The record validated from `{"foo": "hi"}` dumps as `{"foo": "hi", "bar": 123}`. */
  lemma FooBarDump()
    ensures Dump(FooBar().fieldInfo, [Some(Py(PyStr("hi"))), None]) ==
      [Item(PyStr("foo"), PyStr("hi")), Item(PyStr("bar"), PyInt(123))]
  {
    var fields := FooBar().fieldInfo;
    var data: seq<Option<FieldValue>> := [Some(Py(PyStr("hi"))), None];
    assert UniqueNames(fields);
    DumpExact(fields, data);
  }

  /** The same record's JSON dump fails: its string is held as a host handle. */
  lemma FooBarDumpJson()
    ensures DumpJson(FooBar().fieldInfo, [Some(Py(PyStr("hi"))), None]) ==
      Err(Unimplemented("convert PyObject to RawData"))
  {
    var fields := FooBar().fieldInfo;
    var data: seq<Option<FieldValue>> := [Some(Py(PyStr("hi"))), None];
    assert fields[..1] == [fields[0]] && data[..1] == [data[0]];
    assert fields[..1][..0] == [] && data[..1][..0] == [];
    assert DumpJsonEntries(fields[..1], data[..1]) == Err(Unimplemented("convert PyObject to RawData"));
    DumpJsonEntriesStops(fields, data, 1);
  }

  /** Before the dump, the empty optional field reads as `None`; an unknown name is an `AttributeError`. */
  lemma FooBarAttributes(md: ModelData)
    requires md.Valid() && md.fieldInfo == FooBar().fieldInfo
    requires md.fieldData == [Some(Py(PyStr("hi"))), None]
    ensures md.GetAttr("foo") == Ok(PyStr("hi"))
    ensures md.GetAttr("bar") == Ok(PyNone)
    ensures md.GetAttr("baz") == Err(AttributeError("baz"))
  {
    FooBarLookup();
  }

  /**
   * The source's dict serialisation does not read back as a dict: the entries
   * come back as a list of two-element lists, where `to_object` builds a dict.
   */
  lemma AsWrittenDictReadsBackAsList()
    ensures ReadBack(SerializeAsWritten(Dict([Entry("a", Null)]))) == PyList([PyList([PyStr("a"), PyNone])])
    ensures Dict([Entry("a", Null)]).ToObject() == PyDict([Item(PyStr("a"), PyNone)])
    ensures ReadBack(Dict([Entry("a", Null)]).Serialize()) == Dict([Entry("a", Null)]).ToObject()
  {
    AsWrittenDictDoesNotRoundTrip();
    var t := [SerStr("a"), SerNone];
    assert ReadBack(SerTuple(t)) == PyList([PyStr("a"), PyNone]);
    assert ReadBack(SerSeq([SerTuple(t)])) == PyList([PyList([PyStr("a"), PyNone])]);
    ReadBackRaw(Dict([Entry("a", Null)]));
    var entries := [Entry("a", Null)];
    assert entries[..0] == [];
  }
}
