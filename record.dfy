/**
 * The validated record of src/model_data.rs: the schema's field list, the slot
 * buffer filled by validation and the name lookup. Attribute reads, the dict
 * dump (which fills empty slots with their defaults, in place) and the JSON
 * dump, whose serialisation of host values (`PyData`) is modelled here too.
 *
 * The JSON dump is modelled in serde's data model (`Ser`): the text
 * serde_json writes from it is not modelled.
 */
module Record {
  import opened Wrappers
  import opened Field
  import opened Schema

  // ---------------------------------------------------------------------------
  // Serialising host values (`PyData`)

  /** Why serialising a host value failed. */
  datatype SerError =
    | UnsupportedType
    | KeyNotString(key: PyObject)
    | IntOverflow(n: int)

  /**
   * `Serialize for PyData`: `None`, `bool`, `str`, `int` (which must fit 64
   * bits), `float`, `list` element by element and `dict` entry by entry, where
   * every key must be a string. Any other value is refused. The first failure,
   * in iteration order, is the result.
   */
  function SerializePy(o: PyObject): (r: Result<Ser, SerError>)
    ensures o.PyNone? ==> r == Ok(SerNone)
    ensures o.PyBool? ==> r == Ok(SerBool(o.b))
    ensures o.PyStr? ==> r == Ok(SerStr(o.s))
    ensures o.PyFloat? ==> r == Ok(SerF64(o.f))
    ensures o.PyInt? ==> (r.Ok? <==> InI64(o.n)) && (r.Ok? ==> r.value == SerI64(o.n as i64)) && (r.Err? ==> r.error == IntOverflow(o.n))
    ensures (o.Instance? || o.Opaque?) ==> r == Err(UnsupportedType)
    ensures r.Ok? && o.PyList? ==> r.value.SerSeq? && |r.value.elems| == |o.elems|
    ensures r.Ok? && o.PyDict? ==> r.value.SerMap? && |r.value.entries| == |o.items|
    decreases o
  {
    match o
    case PyNone => Ok(SerNone)
    case PyBool(b) => Ok(SerBool(b))
    case PyStr(s) => Ok(SerStr(s))
    case PyInt(n) => if InI64(n) then Ok(SerI64(n as i64)) else Err(IntOverflow(n))
    case PyFloat(f) => Ok(SerF64(f))
    case PyList(elems) =>
      (match SerializeElems(elems)
       case Ok(ss) => Ok(SerSeq(ss))
       case Err(e) => Err(e))
    case PyDict(items) =>
      (match SerializeItems(items)
       case Ok(es) => Ok(SerMap(es))
       case Err(e) => Err(e))
    case _ => Err(UnsupportedType)
  }

  /**
   * The host values the JSON dump can carry: `None`, `bool`, `str`, `float`,
   * an `int` that fits 64 bits, and lists and dicts of them whose dict keys
   * are strings, at any depth.
   */
  predicate Serializable(o: PyObject)
    decreases o
  {
    match o
    case PyInt(n) => InI64(n)
    case PyList(elems) => forall i | 0 <= i < |elems| :: Serializable(elems[i])
    case PyDict(items) => forall i | 0 <= i < |items| :: items[i].key.PyStr? && Serializable(items[i].value)
    case Instance(_, _) => false
    case Opaque(_) => false
    case _ => true
  }

  /** Serialising a host value fails exactly when it holds something the JSON dump cannot carry. */
  lemma {:induction false} SerializePyOkIff(o: PyObject)
    ensures SerializePy(o).Ok? <==> Serializable(o)
    decreases o
  {
    match o
    case PyList(elems) =>
      forall i | 0 <= i < |elems|
        ensures SerializePy(elems[i]).Ok? <==> Serializable(elems[i])
      {
        SerializePyOkIff(elems[i]);
      }
    case PyDict(items) =>
      forall i | 0 <= i < |items|
        ensures SerializeItem(items[i]).Ok? <==> items[i].key.PyStr? && Serializable(items[i].value)
      {
        SerializePyOkIff(items[i].value);
      }
    case _ =>
  }

  /** The elements of a list, in order; the first failing element fails the list. */
  function SerializeElems(elems: seq<PyObject>): (r: Result<seq<Ser>, SerError>)
    ensures r.Ok? ==> |r.value| == |elems|
    ensures r.Ok? <==> forall i | 0 <= i < |elems| :: SerializePy(elems[i]).Ok?
    ensures r.Ok? ==> forall i | 0 <= i < |elems| :: r.value[i] == SerializePy(elems[i]).value
    decreases elems
  {
    if |elems| == 0 then Ok([])
    else
      var n := |elems| - 1;
      assert forall i | 0 <= i < n :: elems[..n][i] == elems[i];
      match SerializeElems(elems[..n])
      case Err(e) => Err(e)
      case Ok(ss) =>
        match SerializePy(elems[n])
        case Err(e) => Err(e)
        case Ok(s) => Ok(ss + [s])
  }

  /** One dict entry: the key must be a string, then the value is serialised. */
  function SerializeItem(item: Item): (r: Result<SerEntry, SerError>)
    ensures r.Ok? <==> item.key.PyStr? && SerializePy(item.value).Ok?
    ensures !item.key.PyStr? ==> r == Err(KeyNotString(item.key))
    ensures r.Ok? ==> r.value == SerEntry(item.key.s, SerializePy(item.value).value)
    decreases item
  {
    if !item.key.PyStr? then Err(KeyNotString(item.key))
    else
      match SerializePy(item.value)
      case Err(e) => Err(e)
      case Ok(s) => Ok(SerEntry(item.key.s, s))
  }

  /** The entries of a dict, in order; the first failing entry fails the dict. */
  function SerializeItems(items: seq<Item>): (r: Result<seq<SerEntry>, SerError>)
    ensures r.Ok? ==> |r.value| == |items|
    ensures r.Ok? <==> forall i | 0 <= i < |items| :: SerializeItem(items[i]).Ok?
    ensures r.Ok? ==> forall i | 0 <= i < |items| :: r.value[i] == SerializeItem(items[i]).value
    decreases items
  {
    if |items| == 0 then Ok([])
    else
      var n := |items| - 1;
      assert forall i | 0 <= i < n :: items[..n][i] == items[i];
      match SerializeItems(items[..n])
      case Err(e) => Err(e)
      case Ok(es) =>
        match SerializeItem(items[n])
        case Err(e) => Err(e)
        case Ok(entry) => Ok(es + [entry])
  }

  lemma {:induction false} SerializeElemsStops(elems: seq<PyObject>, k: nat)
    requires k <= |elems| && SerializeElems(elems[..k]).Err?
    ensures SerializeElems(elems) == SerializeElems(elems[..k])
    decreases |elems| - k
  {
    if k < |elems| {
      assert elems[..k + 1][..k] == elems[..k];
      SerializeElemsStops(elems, k + 1);
    } else {
      assert elems[..k] == elems;
    }
  }

  lemma {:induction false} SerializeItemsStops(items: seq<Item>, k: nat)
    requires k <= |items| && SerializeItems(items[..k]).Err?
    ensures SerializeItems(items) == SerializeItems(items[..k])
    decreases |items| - k
  {
    if k < |items| {
      assert items[..k + 1][..k] == items[..k];
      SerializeItemsStops(items, k + 1);
    } else {
      assert items[..k] == items;
    }
  }

  /** `PyData::serialize`, step by step. */
  method PyDataSerialize(o: PyObject) returns (r: Result<Ser, SerError>)
    ensures r == SerializePy(o)
    decreases o
  {
    match o {
      case PyNone => r := Ok(SerNone);
      case PyBool(b) => r := Ok(SerBool(b));
      case PyStr(s) => r := Ok(SerStr(s));
      case PyInt(n) =>
        if InI64(n) {
          r := Ok(SerI64(n as i64));
        } else {
          r := Err(IntOverflow(n));
        }
      case PyFloat(f) => r := Ok(SerF64(f));
      case PyList(elems) =>
        var out := PyListSerialize(elems);
        r := if out.Ok? then Ok(SerSeq(out.value)) else Err(out.error);
      case PyDict(items) =>
        var out := PyDictSerialize(items);
        r := if out.Ok? then Ok(SerMap(out.value)) else Err(out.error);
      case _ => r := Err(UnsupportedType);
    }
  }

  /** The list arm of `PyData::serialize`: element by element, stopping at the first failure. */
  method PyListSerialize(elems: seq<PyObject>) returns (r: Result<seq<Ser>, SerError>)
    ensures r == SerializeElems(elems)
    decreases elems
  {
    var out: seq<Ser> := [];
    var i := 0;
    while i < |elems|
      invariant 0 <= i <= |elems|
      invariant SerializeElems(elems[..i]) == Ok(out)
    {
      assert elems[..i + 1][..i] == elems[..i];
      var s := PyDataSerialize(elems[i]);
      if s.Err? {
        SerializeElemsStops(elems, i + 1);
        return Err(s.error);
      }
      out := out + [s.value];
      i := i + 1;
    }
    assert elems[..i] == elems;
    r := Ok(out);
  }

  /** The dict arm of `PyData::serialize`: entry by entry, stopping at the first failure. */
  method PyDictSerialize(items: seq<Item>) returns (r: Result<seq<SerEntry>, SerError>)
    ensures r == SerializeItems(items)
    decreases items
  {
    var out: seq<SerEntry> := [];
    var i := 0;
    while i < |items|
      invariant 0 <= i <= |items|
      invariant SerializeItems(items[..i]) == Ok(out)
    {
      assert items[..i + 1][..i] == items[..i];
      var entry := PyDictEntrySerialize(items[i]);
      if entry.Err? {
        SerializeItemsStops(items, i + 1);
        return Err(entry.error);
      }
      out := out + [entry.value];
      i := i + 1;
    }
    assert items[..i] == items;
    r := Ok(out);
  }

  /** One entry of the dict arm: a key that is not a string fails before its value is looked at. */
  method PyDictEntrySerialize(item: Item) returns (r: Result<SerEntry, SerError>)
    ensures r == SerializeItem(item)
    decreases item
  {
    if !item.key.PyStr? {
      return Err(KeyNotString(item.key));
    }
    var s := PyDataSerialize(item.value);
    r := if s.Ok? then Ok(SerEntry(item.key.s, s.value)) else Err(s.error);
  }

  // ---------------------------------------------------------------------------
  // The record as values

  /**
   * What `items_update` leaves in the buffer: every empty slot filled with its
   * field's default as a host handle; filled slots kept.
   */
  function Filled(fields: seq<FieldInfo>, data: seq<Option<FieldValue>>): (r: seq<Option<FieldValue>>)
    requires |fields| == |data|
    ensures |r| == |data|
    ensures forall i | 0 <= i < |r| :: r[i].Some?
    ensures forall i | 0 <= i < |r| && data[i].Some? :: r[i] == data[i]
    ensures forall i | 0 <= i < |r| && data[i].None? :: r[i] == Some(Py(fields[i].default))
  {
    seq(|data|, i requires 0 <= i < |data| => if data[i].Some? then data[i] else Some(NewPy(fields[i].default)))
  }

  /** The host value a field shows in a dump: its slot's value, or its default when the slot is empty. */
  function DumpValue(field: FieldInfo, slot: Option<FieldValue>): (r: PyObject)
    ensures slot.None? ==> r == field.default
    ensures slot.Some? && !slot.value.Raw? ==> r == slot.value.obj
    ensures slot.Some? && slot.value.Raw? ==> r == slot.value.raw.ToObject()
  {
    match slot
    case Some(fv) => fv.ToObject()
    case None => field.default
  }

  /**
   * The dict `model_dump` returns: one `set_item` per field, in schema order,
   * under the field's name. A repeated name keeps its first position and its
   * last value.
   */
  function Dump(fields: seq<FieldInfo>, data: seq<Option<FieldValue>>): (r: seq<Item>)
    requires |fields| == |data|
    ensures |r| <= |fields|
  {
    if |fields| == 0 then []
    else
      var n := |fields| - 1;
      var prefix := Dump(fields[..n], data[..n]);
      SetItem(prefix, PyStr(fields[n].name), DumpValue(fields[n], data[n]))
  }

  /** How the JSON dump failed. */
  datatype DumpJsonError =
    /** A serde error, raised to the host as `ValueError` with the error's text. */
    | SerdeError(cause: SerError)
    /** `raw_value` on a `Py` or `Model` value is `todo!`: a panic, raised to the host as `PanicException`. */
    | Unimplemented(message: string)

  /** The serialised value of one field: its slot's raw value, or its default serialised as a host value. */
  function DumpJsonValue(field: FieldInfo, slot: Option<FieldValue>): (r: Result<Ser, DumpJsonError>)
    ensures slot.Some? && (slot.value.Py? || slot.value.Model?) ==> r.Err? && r.error.Unimplemented?
    ensures slot.Some? && (slot.value.Raw? || slot.value.Both?) ==> r == Ok(slot.value.raw.Serialize())
    ensures slot.None? ==> (r.Ok? <==> SerializePy(field.default).Ok?)
    ensures slot.None? && r.Ok? ==> r.value == SerializePy(field.default).value
    ensures slot.None? && r.Err? ==> r.error == SerdeError(SerializePy(field.default).error)
  {
    match slot
    case Some(Py(_)) => Err(Unimplemented("convert PyObject to RawData"))
    case Some(Model(_)) => Err(Unimplemented("convert Model PyObject to RawData"))
    case Some(fv) => Ok(fv.RawValue().Serialize())
    case None =>
      match SerializePy(field.default)
      case Ok(s) => Ok(s)
      case Err(e) => Err(SerdeError(e))
  }

  /** The map entries of the JSON dump, in schema order; the first failing field fails the dump. */
  function DumpJsonEntries(fields: seq<FieldInfo>, data: seq<Option<FieldValue>>): (r: Result<seq<SerEntry>, DumpJsonError>)
    requires |fields| == |data|
    ensures r.Ok? <==> forall i | 0 <= i < |fields| :: DumpJsonValue(fields[i], data[i]).Ok?
    ensures r.Ok? ==> |r.value| == |fields|
    ensures r.Ok? ==> forall i | 0 <= i < |fields| ::
      r.value[i] == SerEntry(fields[i].name, DumpJsonValue(fields[i], data[i]).value)
  {
    if |fields| == 0 then Ok([])
    else
      var n := |fields| - 1;
      assert forall i | 0 <= i < n :: fields[..n][i] == fields[i] && data[..n][i] == data[i];
      match DumpJsonEntries(fields[..n], data[..n])
      case Err(e) => Err(e)
      case Ok(es) =>
        match DumpJsonValue(fields[n], data[n])
        case Err(e) => Err(e)
        case Ok(s) => Ok(es + [SerEntry(fields[n].name, s)])
  }

  lemma {:induction false} DumpJsonEntriesStops(fields: seq<FieldInfo>, data: seq<Option<FieldValue>>, k: nat)
    requires |fields| == |data| && k <= |fields| && DumpJsonEntries(fields[..k], data[..k]).Err?
    ensures DumpJsonEntries(fields, data) == DumpJsonEntries(fields[..k], data[..k])
    decreases |fields| - k
  {
    if k < |fields| {
      assert fields[..k + 1][..k] == fields[..k];
      assert data[..k + 1][..k] == data[..k];
      DumpJsonEntriesStops(fields, data, k + 1);
    } else {
      assert fields[..k] == fields && data[..k] == data;
    }
  }

  /** What `model_dump_json` serialises: a map with one entry per field. */
  function DumpJson(fields: seq<FieldInfo>, data: seq<Option<FieldValue>>): (r: Result<Ser, DumpJsonError>)
    requires |fields| == |data|
    ensures r.Ok? ==> r.value.SerMap? && |r.value.entries| == |fields|
  {
    match DumpJsonEntries(fields, data)
    case Ok(es) => Ok(SerMap(es))
    case Err(e) => Err(e)
  }

  /** The loop of `model_dump`: one `set_item` per field, from the values `items_update` yields. */
  method DumpValues(fields: seq<FieldInfo>, data: seq<Option<FieldValue>>, values: seq<FieldValue>)
    returns (dict: seq<Item>)
    requires |fields| == |data| == |values|
    requires forall i | 0 <= i < |values| :: Filled(fields, data)[i] == Some(values[i])
    ensures dict == Dump(fields, data)
  {
    dict := [];
    var i := 0;
    while i < |fields|
      invariant 0 <= i <= |fields|
      invariant dict == Dump(fields[..i], data[..i])
    {
      assert fields[..i + 1][..i] == fields[..i];
      assert data[..i + 1][..i] == data[..i];
      assert values[i].ToObject() == DumpValue(fields[i], data[i]);
      dict := SetItem(dict, PyStr(fields[i].name), values[i].ToObject());
      i := i + 1;
    }
    assert fields[..i] == fields && data[..i] == data;
  }

  /** The loop of `ModelDataSerializer::serialize`: one map entry per field, stopping at the first failure. */
  method SerializeFields(fields: seq<FieldInfo>, data: seq<Option<FieldValue>>) returns (r: Result<Ser, DumpJsonError>)
    requires |fields| == |data|
    ensures r == DumpJson(fields, data)
  {
    var entries: seq<SerEntry> := [];
    var i := 0;
    while i < |fields|
      invariant 0 <= i <= |fields|
      invariant DumpJsonEntries(fields[..i], data[..i]) == Ok(entries)
    {
      assert fields[..i + 1][..i] == fields[..i];
      assert data[..i + 1][..i] == data[..i];
      var value: Result<Ser, DumpJsonError>;
      match data[i] {
        case Some(Py(_)) => value := Err(Unimplemented("convert PyObject to RawData"));
        case Some(Model(_)) => value := Err(Unimplemented("convert Model PyObject to RawData"));
        case Some(fv) => value := Ok(fv.RawValue().Serialize());
        case None =>
          var s := PyDataSerialize(fields[i].default);
          value := if s.Ok? then Ok(s.value) else Err(SerdeError(s.error));
      }
      assert value == DumpJsonValue(fields[i], data[i]);
      if value.Err? {
        DumpJsonEntriesStops(fields, data, i + 1);
        return Err(value.error);
      }
      entries := entries + [SerEntry(fields[i].name, value.value)];
      i := i + 1;
    }
    assert fields[..i] == fields && data[..i] == data;
    r := Ok(SerMap(entries));
  }

  // ---------------------------------------------------------------------------
  // The record as an object

  /** `ModelData`: shared schema parts and the buffer of field values, which `model_dump` updates. */
  class ModelData {
    const fieldInfo: seq<FieldInfo>
    var fieldData: seq<Option<FieldValue>>
    const keyLookup: map<string, nat>

    /** One slot per field, and the lookup built from the field list. */
    ghost predicate Valid()
      reads this
    {
      |fieldData| == |fieldInfo| && keyLookup == KeyLookup(fieldInfo)
    }

    /** `ModelData::new`, from the validator's shared parts and the buffer validation filled. */
    constructor (fieldInfo: seq<FieldInfo>, fieldData: seq<Option<FieldValue>>, keyLookup: map<string, nat>)
      requires |fieldData| == |fieldInfo| && keyLookup == KeyLookup(fieldInfo)
      ensures Valid()
      ensures this.fieldInfo == fieldInfo && this.fieldData == fieldData && this.keyLookup == keyLookup
    {
      this.fieldInfo := fieldInfo;
      this.fieldData := fieldData;
      this.keyLookup := keyLookup;
    }

    /**
     * `get_attr`: a name that is no field's is an `AttributeError` carrying
     * the name; a field's name reads that field's slot, and an empty slot
     * reads as `None` (the default is not consulted).
     */
    function GetAttr(key: string): (r: Result<PyObject, PyErr>)
      reads this
      requires Valid()
      ensures r.Err? <==> key !in keyLookup
      ensures r.Err? ==> r.error == AttributeError(key)
      ensures r.Ok? ==> exists i | 0 <= i < |fieldInfo| ::
        (fieldInfo[i].name == key && r.value == (if fieldData[i].Some? then fieldData[i].value.ToObject() else PyNone))
    {
      if key in keyLookup then
        var index := keyLookup[key];
        match fieldData[index]
        case Some(f) => Ok(f.ToObject())
        case None => Ok(PyNone)
      else Err(AttributeError(key))
    }

    /**
     * `items_update`: fills every empty slot with its field's default, in
     * place, and yields each field's value in schema order.
     */
    method ItemsUpdate() returns (values: seq<FieldValue>)
      requires Valid()
      modifies this
      ensures Valid()
      ensures fieldData == Filled(fieldInfo, old(fieldData))
      ensures |values| == |fieldInfo| && forall i | 0 <= i < |values| :: fieldData[i] == Some(values[i])
    {
      ghost var before := fieldData;
      values := [];
      var i := 0;
      while i < |fieldInfo|
        invariant 0 <= i <= |fieldInfo| == |fieldData| && |values| == i
        invariant forall j | 0 <= j < i :: fieldData[j] == Filled(fieldInfo, before)[j] == Some(values[j])
        invariant forall j | i <= j < |fieldData| :: fieldData[j] == before[j]
      {
        var value: FieldValue;
        match fieldData[i] {
          case Some(f) => value := f;
          case None =>
            value := NewPy(fieldInfo[i].default);
            fieldData := fieldData[i := Some(value)];
        }
        values := values + [value];
        i := i + 1;
      }
      assert fieldData == Filled(fieldInfo, before);
    }

    /**
     * `model_dump`: the dict of every field's value under its name, defaults
     * included; as a side effect every empty slot now holds its default.
     */
    method ModelDump() returns (r: PyObject)
      requires Valid()
      modifies this
      ensures Valid()
      ensures fieldData == Filled(fieldInfo, old(fieldData))
      ensures r == PyDict(Dump(fieldInfo, old(fieldData)))
    {
      var fields, before := fieldInfo, fieldData;
      var values := ItemsUpdate();
      var dict := DumpValues(fields, before, values);
      r := PyDict(dict);
    }

    /**
     * `model_dump_json`: the map of every field's serialised value under its
     * name, in schema order. The buffer is read, not updated.
     */
    method ModelDumpJson() returns (r: Result<Ser, DumpJsonError>)
      requires Valid()
      ensures r == DumpJson(fieldInfo, fieldData)
    {
      r := SerializeFields(fieldInfo, fieldData);
    }
  }
}
