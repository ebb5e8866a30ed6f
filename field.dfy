/**
 * The value representations of src/field.rs.
 *
 * - `PyObject`: a host (Python) value as the engine sees it. `Instance` is a
 *   model instance; it carries the slot buffer of the record it was built from.
 * - `RawData`: the native tagged value, with its structural conversion to a
 *   host value and its serialisation into serde's data model (`Ser`).
 * - `FieldValue`: what a validator returns: a host handle, a raw value or both.
 *
 * The three types refer to each other (an instance holds field values, a field
 * value holds host values), so they share one module.
 */
module Field {
  import opened Wrappers

  /** A signed 64-bit integer, as Rust's `i64`. */
  newtype i64 = x: int | -0x8000_0000_0000_0000 <= x < 0x8000_0000_0000_0000

  predicate InI64(n: int) {
    -0x8000_0000_0000_0000 <= n < 0x8000_0000_0000_0000
  }

  /** A 64-bit float kept as its bit pattern: nothing here computes with floats. */
  datatype F64 = F64(bits: bv64)

  /** The identity of the host class a model instance is created from. */
  type ClassId = nat

  /** A host value. `PyInt` is unbounded, as Python's `int` is. */
  datatype PyObject =
    | PyNone
    | PyBool(b: bool)
    | PyInt(n: int)
    | PyFloat(f: F64)
    | PyStr(s: string)
    | PyList(elems: seq<PyObject>)
    | PyDict(items: seq<Item>)
    | Instance(cls: ClassId, modelData: seq<Option<FieldValue>>)
    | Opaque(id: nat)

  /** One entry of a host dict. */
  datatype Item = Item(key: PyObject, value: PyObject)

  /** One entry of a raw dict. */
  datatype Entry = Entry(key: string, value: RawData)

  /** One entry of a serialised map. */
  datatype SerEntry = SerEntry(key: string, value: Ser)

  /** A host exception (`PyErr`). */
  datatype PyErr =
    | TypeError(message: string)
    | ValueError(message: string)
    | AttributeError(message: string)
    | JsonError(position: nat)

  // ---------------------------------------------------------------------------
  // Host dictionaries: an ordered list of entries, as Python's dict keeps them.

  /** `d.get(k)`: the value stored under `k`. */
  function Lookup(items: seq<Item>, k: PyObject): (r: Option<PyObject>)
    ensures r.None? <==> forall i | 0 <= i < |items| :: items[i].key != k
    ensures r.Some? ==> exists i | 0 <= i < |items| :: items[i] == Item(k, r.value)
  {
    if |items| == 0 then None
    else if items[0].key == k then Some(items[0].value)
    else Lookup(items[1..], k)
  }

  /** A dict never holds the same key twice. */
  predicate DistinctKeys(items: seq<Item>) {
    forall i, j | 0 <= i < j < |items| :: items[i].key != items[j].key
  }

  /** `d[k] = v`: a present key keeps its position and takes the new value; a new key goes last. */
  function SetItem(items: seq<Item>, k: PyObject, v: PyObject): (r: seq<Item>)
    ensures |r| == if Lookup(items, k).Some? then |items| else |items| + 1
    ensures Lookup(items, k).None? ==> r == items + [Item(k, v)]
  {
    if |items| == 0 then [Item(k, v)]
    else if items[0].key == k then [Item(k, v)] + items[1..]
    else [items[0]] + SetItem(items[1..], k, v)
  }

  /** After `d[k] = v`, `d.get(k)` is `v`, every other key reads as before, and keys stay distinct. */
  lemma {:induction false} SetItemLookup(items: seq<Item>, k: PyObject, v: PyObject)
    ensures Lookup(SetItem(items, k, v), k) == Some(v)
    ensures forall k' | k' != k :: Lookup(SetItem(items, k, v), k') == Lookup(items, k')
    ensures DistinctKeys(items) ==> DistinctKeys(SetItem(items, k, v))
  {
    if |items| > 0 && items[0].key != k {
      var rest := SetItem(items[1..], k, v);
      SetItemLookup(items[1..], k, v);
      assert SetItem(items, k, v)[1..] == rest;
      if DistinctKeys(items) {
        assert Lookup(items[1..], items[0].key).None?;
        assert Lookup(rest, items[0].key).None?;
      }
    }
  }

  /** Setting a key some entry carries keeps every key at its position. */
  lemma {:induction false} SetItemPresent(items: seq<Item>, k: PyObject, v: PyObject)
    requires Lookup(items, k).Some?
    ensures |SetItem(items, k, v)| == |items|
    ensures forall i | 0 <= i < |items| :: SetItem(items, k, v)[i].key == items[i].key
  {
    if items[0].key != k {
      SetItemPresent(items[1..], k, v);
      assert SetItem(items, k, v) == [items[0]] + SetItem(items[1..], k, v);
    }
  }

  /** Setting a key no entry carries appends one entry at the end. */
  lemma SetItemAbsent(items: seq<Item>, k: PyObject, v: PyObject)
    requires forall i | 0 <= i < |items| :: items[i].key != k
    ensures SetItem(items, k, v) == items + [Item(k, v)]
  {
    assert Lookup(items, k).None?;
  }

  // ---------------------------------------------------------------------------
  // serde's data model: what a `Serialize` implementation hands to the serializer.

  datatype Ser =
    | SerNone
    | SerBool(b: bool)
    | SerI64(i: i64)
    | SerF64(f: F64)
    | SerStr(s: string)
    | SerSeq(elems: seq<Ser>)
    | SerTuple(elems: seq<Ser>)
    | SerMap(entries: seq<SerEntry>)

  // ---------------------------------------------------------------------------
  // RawData

  /** The native tagged value. `Null` is the source's `RawData::None`. */
  datatype RawData =
    | Null
    | Bool(b: bool)
    | Int(i: i64)
    | Float(f: F64)
    | Str(s: string)
    | List(elems: seq<RawData>)
    | Dict(entries: seq<Entry>)
  {
    /** `to_object`: the host value with the same content, built structurally. */
    function ToObject(): (r: PyObject)
      ensures Null? <==> r.PyNone?
      ensures Bool? ==> r == PyBool(b)
      ensures Int? ==> r == PyInt(i as int)
      ensures Float? ==> r == PyFloat(f)
      ensures Str? ==> r == PyStr(s)
      ensures List? ==> r.PyList? && |r.elems| == |elems|
      ensures Dict? ==> r.PyDict? && |r.items| <= |entries|
    {
      match this
      case Null => PyNone
      case Bool(b) => PyBool(b)
      case Int(i) => PyInt(i as int)
      case Float(f) => PyFloat(f)
      case Str(s) => PyStr(s)
      case List(elems) => PyList(ListToObject(elems))
      case Dict(entries) => PyDict(DictToObject(entries))
    }

    /**
     * `Serialize`, as evidently intended: a `Dict` becomes a map whose entries
     * keep their stored order (see `SerializeAsWritten` for the source's code).
     */
    function Serialize(): (r: Ser)
      ensures Null? <==> r.SerNone?
      ensures Bool? ==> r == SerBool(b)
      ensures Int? ==> r == SerI64(i)
      ensures Float? ==> r == SerF64(f)
      ensures Str? ==> r == SerStr(s)
      ensures List? ==> r.SerSeq? && |r.elems| == |elems|
      ensures Dict? ==> r.SerMap? && |r.entries| == |entries|
    {
      match this
      case Null => SerNone
      case Bool(b) => SerBool(b)
      case Int(i) => SerI64(i)
      case Float(f) => SerF64(f)
      case Str(s) => SerStr(s)
      case List(elems) => SerSeq(SerializeList(elems))
      case Dict(entries) => SerMap(SerializeEntries(entries))
    }

    /** Every dict inside this value, at any depth, has distinct keys. */
    predicate WellKeyed()
    {
      match this
      case List(elems) => forall i | 0 <= i < |elems| :: elems[i].WellKeyed()
      case Dict(entries) =>
        && (forall i, j | 0 <= i < j < |entries| :: entries[i].key != entries[j].key)
        && (forall i | 0 <= i < |entries| :: entries[i].value.WellKeyed())
      case _ => true
    }
  }

  /** The `List` arm of `to_object`: element by element, in order. */
  function ListToObject(elems: seq<RawData>): (os: seq<PyObject>)
    decreases elems
  {
    seq(|elems|, i requires 0 <= i < |elems| => elems[i].ToObject())
  }

  /** The `Dict` arm of `to_object`: a fresh dict filled entry by entry, in stored order. */
  function DictToObject(entries: seq<Entry>): (items: seq<Item>)
    ensures |items| <= |entries|
    decreases entries
  {
    if |entries| == 0 then []
    else
      var last := entries[|entries| - 1];
      SetItem(DictToObject(entries[..|entries| - 1]), PyStr(last.key), last.value.ToObject())
  }

  function SerializeList(elems: seq<RawData>): seq<Ser>
    decreases elems
  {
    seq(|elems|, i requires 0 <= i < |elems| => elems[i].Serialize())
  }

  function SerializeEntries(entries: seq<Entry>): seq<SerEntry>
    decreases entries
  {
    seq(|entries|, i requires 0 <= i < |entries| => SerEntry(entries[i].key, entries[i].value.Serialize()))
  }

  /**
   * `Serialize for RawData` as the source writes it. The `Dict` arm hands the
   * stored `SmallVec<(String, RawData)>` to serde, which emits a sequence of
   * two-element tuples rather than a map.
   */
  function SerializeAsWritten(r: RawData): Ser
  {
    match r
    case Null => SerNone
    case Bool(b) => SerBool(b)
    case Int(i) => SerI64(i)
    case Float(f) => SerF64(f)
    case Str(s) => SerStr(s)
    case List(elems) => SerSeq(seq(|elems|, i requires 0 <= i < |elems| => SerializeAsWritten(elems[i])))
    case Dict(entries) =>
      SerSeq(seq(|entries|, i requires 0 <= i < |entries| =>
        SerTuple([SerStr(entries[i].key), SerializeAsWritten(entries[i].value)])))
  }

  /** No dict appears in this value, at any depth. */
  predicate DictFree(r: RawData)
  {
    match r
    case Dict(_) => false
    case List(elems) => forall i | 0 <= i < |elems| :: DictFree(elems[i])
    case _ => true
  }

  /** The corrected and the as-written serialisation differ only on dicts. */
  lemma {:induction false} SerializeAsWrittenWithoutDicts(r: RawData)
    requires DictFree(r)
    ensures r.Serialize() == SerializeAsWritten(r)
    decreases r
  {
    match r
    case List(elems) =>
      forall i | 0 <= i < |elems|
        ensures elems[i].Serialize() == SerializeAsWritten(elems[i])
      {
        SerializeAsWrittenWithoutDicts(elems[i]);
      }
    case _ =>
  }

  /**
   * Reads serialised data back as `RawData`. A tuple is not a `RawData`
   * shape, so it reads back as nothing.
   */
  function Deserialize(s: Ser): Option<RawData>
  {
    match s
    case SerNone => Some(Null)
    case SerBool(b) => Some(Bool(b))
    case SerI64(i) => Some(Int(i))
    case SerF64(f) => Some(Float(f))
    case SerStr(str) => Some(Str(str))
    case SerSeq(elems) =>
      (match DeserializeList(elems)
       case Some(rs) => Some(List(rs))
       case None => None)
    case SerTuple(_) => None
    case SerMap(entries) =>
      (match DeserializeEntries(entries)
       case Some(es) => Some(Dict(es))
       case None => None)
  }

  function DeserializeList(elems: seq<Ser>): Option<seq<RawData>>
    decreases elems
  {
    if |elems| == 0 then Some([])
    else
      match (DeserializeList(elems[..|elems| - 1]), Deserialize(elems[|elems| - 1]))
      case (Some(rs), Some(r)) => Some(rs + [r])
      case _ => None
  }

  function DeserializeEntries(entries: seq<SerEntry>): Option<seq<Entry>>
    decreases entries
  {
    if |entries| == 0 then Some([])
    else
      var last := entries[|entries| - 1];
      match (DeserializeEntries(entries[..|entries| - 1]), Deserialize(last.value))
      case (Some(es), Some(r)) => Some(es + [Entry(last.key, r)])
      case _ => None
  }

  // ---------------------------------------------------------------------------
  // FieldValue

  /** What a validator produces: an external handle, a raw value, or both. */
  datatype FieldValue =
    | Py(obj: PyObject)
    | Model(obj: PyObject)
    | Raw(raw: RawData)
    | Both(obj: PyObject, raw: RawData)
  {
    /** `raw_value`: the raw payload. The source leaves `Py` and `Model` unimplemented (`todo!`). */
    function RawValue(): (r: RawData)
      requires Raw? || Both?
      ensures r == raw
    {
      raw
    }

    /** `to_object` and `into_py`: the external handle when there is one, else the converted raw value. */
    function ToObject(): (r: PyObject)
      ensures !Raw? ==> r == obj
      ensures Raw? ==> r == raw.ToObject()
    {
      match this
      case Py(obj) => obj
      case Model(obj) => obj
      case Raw(raw) => raw.ToObject()
      case Both(obj, _) => obj
    }
  }

  /** The values `new_raw` accepts through `impl Into<RawData>`. */
  datatype RawInput = FromBool(b: bool) | FromI64(i: i64) | FromF64(f: F64) | FromString(s: string)
  {
    /** The matching `From` constructor of `RawData`. */
    function Into(): RawData
    {
      match this
      case FromBool(b) => Bool(b)
      case FromI64(i) => Int(i)
      case FromF64(f) => Float(f)
      case FromString(s) => Str(s)
    }
  }

  /** `new_py`: a value that is only a host handle. */
  function NewPy(obj: PyObject): (fv: FieldValue)
    ensures fv.Py? && fv.obj == obj
  {
    Py(obj)
  }

  /** `new_raw`: a value that is only a raw value, converted from its input. */
  function NewRaw(x: RawInput): (fv: FieldValue)
    ensures fv.Raw? && fv.raw == x.Into()
  {
    Raw(x.Into())
  }

  // ---------------------------------------------------------------------------
  // Properties

  /** `new_py` keeps the handle it is given; `new_raw` keeps the raw value of the matching variant. */
  lemma ConstructorsRoundTrip(obj: PyObject, x: RawInput)
    ensures NewPy(obj).ToObject() == obj
    ensures NewRaw(x).RawValue() == x.Into()
    ensures NewRaw(x).ToObject() == x.Into().ToObject()
    ensures x.FromBool? ==> x.Into() == Bool(x.b)
    ensures x.FromI64? ==> x.Into() == Int(x.i)
    ensures x.FromF64? ==> x.Into() == Float(x.f)
    ensures x.FromString? ==> x.Into() == Str(x.s)
  {
  }

  /**
   * When both sides of a `Both` hold the same content, converting the handle and
   * converting the raw value give the same host value.
   */
  lemma ConversionsAgree(fv: FieldValue)
    requires fv.Raw? || (fv.Both? && fv.obj == fv.raw.ToObject())
    ensures fv.ToObject() == fv.RawValue().ToObject()
  {
  }

  /** `to_object` on a list keeps its length and order. */
  lemma ListToObjectStructural(elems: seq<RawData>)
    ensures |List(elems).ToObject().elems| == |elems|
    ensures forall i | 0 <= i < |elems| :: List(elems).ToObject().elems[i] == elems[i].ToObject()
  {
  }

  /** The last stored value under key `k`, if any. */
  function LastValue(entries: seq<Entry>, k: string): Option<RawData>
  {
    if |entries| == 0 then None
    else if entries[|entries| - 1].key == k then Some(entries[|entries| - 1].value)
    else LastValue(entries[..|entries| - 1], k)
  }

  /**
   * The dict `to_object` builds has only string keys, and under each key the
   * value of that key's last entry: a later duplicate overwrites an earlier one.
   */
  lemma {:induction false} DictToObjectLookup(entries: seq<Entry>, key: PyObject)
    ensures !key.PyStr? ==> Lookup(DictToObject(entries), key).None?
    ensures key.PyStr? ==>
      Lookup(DictToObject(entries), key) ==
        (match LastValue(entries, key.s) case Some(v) => Some(v.ToObject()) case None => None)
  {
    if |entries| > 0 {
      var last := entries[|entries| - 1];
      DictToObjectLookup(entries[..|entries| - 1], key);
      SetItemLookup(DictToObject(entries[..|entries| - 1]), PyStr(last.key), last.value.ToObject());
    }
  }

  /** With distinct keys, the dict `to_object` builds has one entry per stored entry, in the same order. */
  lemma {:induction false} DictToObjectDistinct(entries: seq<Entry>)
    requires forall i, j | 0 <= i < j < |entries| :: entries[i].key != entries[j].key
    ensures DictToObject(entries) == seq(|entries|, i requires 0 <= i < |entries| => Item(PyStr(entries[i].key), entries[i].value.ToObject()))
  {
    if |entries| > 0 {
      var n := |entries| - 1;
      var prefix := entries[..n];
      DictToObjectDistinct(prefix);
      DictToObjectLookup(prefix, PyStr(entries[n].key));
      LastValueAbsent(prefix, entries[n].key);
    }
  }

  lemma {:induction false} LastValueAbsent(entries: seq<Entry>, k: string)
    requires forall i | 0 <= i < |entries| :: entries[i].key != k
    ensures LastValue(entries, k).None?
  {
    if |entries| > 0 {
      LastValueAbsent(entries[..|entries| - 1], k);
    }
  }

  /** What `Serialize` emits reads back as the value it came from: each variant maps to its own, in order. */
  lemma {:induction false} SerializeRoundTrip(r: RawData)
    ensures Deserialize(r.Serialize()) == Some(r)
    decreases r, 1
  {
    match r
    case List(elems) => SerializeListRoundTrip(elems);
    case Dict(entries) => SerializeEntriesRoundTrip(entries);
    case _ =>
  }

  lemma {:induction false} SerializeListRoundTrip(elems: seq<RawData>)
    ensures DeserializeList(SerializeList(elems)) == Some(elems)
    decreases elems, 0
  {
    if |elems| > 0 {
      var n := |elems| - 1;
      SerializeListRoundTrip(elems[..n]);
      SerializeRoundTrip(elems[n]);
      assert SerializeList(elems)[..n] == SerializeList(elems[..n]);
      assert elems[..n] + [elems[n]] == elems;
    }
  }

  lemma {:induction false} SerializeEntriesRoundTrip(entries: seq<Entry>)
    ensures DeserializeEntries(SerializeEntries(entries)) == Some(entries)
    decreases entries, 0
  {
    if |entries| > 0 {
      var n := |entries| - 1;
      SerializeEntriesRoundTrip(entries[..n]);
      SerializeRoundTrip(entries[n].value);
      assert SerializeEntries(entries)[..n] == SerializeEntries(entries[..n]);
      assert entries[..n] + [Entry(entries[n].key, entries[n].value)] == entries;
    }
  }

  /** As written, a one-entry dict serialises to a sequence holding a tuple, which does not read back. */
  lemma AsWrittenDictDoesNotRoundTrip()
    ensures SerializeAsWritten(Dict([Entry("a", Null)])) == SerSeq([SerTuple([SerStr("a"), SerNone])])
    ensures Deserialize(SerializeAsWritten(Dict([Entry("a", Null)]))) == None
    ensures Deserialize(Dict([Entry("a", Null)]).Serialize()) == Some(Dict([Entry("a", Null)]))
  {
    var s := SerializeAsWritten(Dict([Entry("a", Null)]));
    assert s.elems == [SerTuple([SerStr("a"), SerNone])];
    assert DeserializeList(s.elems) == None by {
      assert s.elems[..0] == [];
    }
    SerializeRoundTrip(Dict([Entry("a", Null)]));
  }
}
