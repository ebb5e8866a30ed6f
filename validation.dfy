/**
 * Validation: the scalar validators and the dispatch of src/validators.rs, and
 * the model walk of src/model_validator.rs. The dispatch calls the model walk
 * for a nested model and the walk calls the dispatch for each field, so both
 * live in this module.
 *
 * Each entry point is a function that specifies it (`Validate`, `ModelValidate`,
 * `WalkItems`, ...) and, where the source works step by step, a method proved
 * to compute the same result (`ValidatePython`, `ModelValidatePython`).
 */
module Validation {
  import opened Wrappers
  import opened Field
  import opened Errors
  import opened Schema
  import opened Tokens

  // ---------------------------------------------------------------------------
  // Scalar validators

  /**
   * pyo3's extraction of an `i64`: an `int` that fits 64 bits, or a `bool`
   * (a subclass of `int`) as 0 or 1; every other host value is refused.
   */
  function ExtractI64(o: PyObject): (r: Option<i64>)
    ensures r.Some? <==> (o.PyInt? && InI64(o.n)) || o.PyBool?
    ensures o.PyInt? && r.Some? ==> r.value as int == o.n
    ensures o.PyBool? ==> r == Some(if o.b then 1 else 0)
  {
    match o
    case PyInt(n) => if InI64(n) then Some(n as i64) else None
    case PyBool(b) => Some(if b then 1 else 0)
    case _ => None
  }

  /** `StringValidator::validate_python`: a string is kept as the same host object. */
  function StringValidatePython(o: PyObject): (r: ValResult<FieldValue>)
    ensures r.Ok? <==> o.PyStr?
    ensures r.Ok? ==> r.value == Py(o)
    ensures r.Err? ==> r.error == LineErrors([LineError(StringType, [])])
  {
    if o.PyStr? then Ok(NewPy(o)) else Err(FromErrorType(StringType))
  }

  /** `IntValidator::validate_python`: a value that converts to an `i64` becomes a raw integer. */
  function IntValidatePython(o: PyObject): (r: ValResult<FieldValue>)
    ensures r.Ok? <==> ExtractI64(o).Some?
    ensures r.Ok? ==> r.value == Raw(RawData.Int(ExtractI64(o).value))
    ensures r.Err? ==> r.error == LineErrors([LineError(IntType, [])])
  {
    match ExtractI64(o)
    case Some(i) => Ok(NewRaw(FromI64(i)))
    case None => Err(FromErrorType(IntType))
  }

  /**
   * `StringValidator::validate_json` on a cursor at `index`: the result and the
   * cursor after it. A token that is not a string is a fatal decode error.
   */
  function StringJson(tokens: seq<Token>, index: nat): (res: (ValResult<FieldValue>, nat))
    ensures res.0.Ok? <==> index < |tokens| && tokens[index].StrToken?
    ensures res.0.Ok? ==> res.0.value == Raw(Str(tokens[index].s)) && res.1 == index + 1
    ensures res.0.Err? ==> res.0.error == InternalError(JsonError(index)) && res.1 == index
  {
    var (s, next) := StrAt(tokens, index);
    match s
    case Ok(str) => (Ok(NewRaw(FromString(str))), next)
    case Err(e) => (Err(FromPyErr(e)), next)
  }

  /**
   * `IntValidator::validate_json` on a cursor at `index`. A number that does
   * not fit 64 bits is consumed and reported as `IntTooBig` with an empty
   * location; a token that is not a number is a fatal decode error.
   */
  function IntJson(tokens: seq<Token>, index: nat): (res: (ValResult<FieldValue>, nat))
    ensures res.0.Ok? <==> index < |tokens| && tokens[index].NumToken? && InI64(tokens[index].n)
    ensures res.0.Ok? ==> res.0.value == Raw(RawData.Int(tokens[index].n as i64))
    ensures index < |tokens| && tokens[index].NumToken? ==> res.1 == index + 1
    ensures index < |tokens| && tokens[index].NumToken? && !InI64(tokens[index].n) ==>
      res.0 == Err(LineErrors([LineError(IntTooBig, [])]))
    ensures !(index < |tokens| && tokens[index].NumToken?) ==>
      res.0 == Err(InternalError(JsonError(index))) && res.1 == index
  {
    var (n, next) := IntAt(tokens, index);
    match n
    case Ok(SmallInt(i)) => (Ok(NewRaw(FromI64(i))), next)
    case Ok(BigInt(_)) => (Err(FromErrorType(IntTooBig)), next)
    case Err(e) => (Err(FromPyErr(e)), next)
  }

  method StringValidateJson(jiter: Jiter) returns (r: ValResult<FieldValue>)
    requires jiter.Valid()
    modifies jiter
    ensures jiter.Valid()
    ensures (r, jiter.index) == StringJson(jiter.tokens, old(jiter.index))
  {
    var s := jiter.NextStr();
    match s
    case Ok(str) => r := Ok(NewRaw(FromString(str)));
    case Err(e) => r := Err(FromPyErr(e));
  }

  method IntValidateJson(jiter: Jiter) returns (r: ValResult<FieldValue>)
    requires jiter.Valid()
    modifies jiter
    ensures jiter.Valid()
    ensures (r, jiter.index) == IntJson(jiter.tokens, old(jiter.index))
  {
    var n := jiter.NextInt();
    match n
    case Ok(SmallInt(i)) => r := Ok(NewRaw(FromI64(i)));
    case Ok(BigInt(_)) => r := Err(FromErrorType(IntTooBig));
    case Err(e) => r := Err(FromPyErr(e));
  }

  // ---------------------------------------------------------------------------
  // Dispatch and the model walk, as functions

  /**
   * `CombinedValidator::validate_python`: the materialized-value entry point of
   * the variant the validator holds. Whatever the variant, a collectible
   * failure carries at least one error.
   */
  function Validate(v: CombinedValidator, o: PyObject): (r: ValResult<FieldValue>)
    requires WellFormed(v)
    ensures v.String? ==> r == StringValidatePython(o)
    ensures v.Int? ==> r == IntValidatePython(o)
    ensures v.Model? ==> r == ModelValidate(v.mv, o)
    ensures r.Err? && r.error.LineErrors? ==> |r.error.errors| > 0
    decreases v, 1
  {
    match v
    case String(_) => StringValidatePython(o)
    case Int(_) => IntValidatePython(o)
    case Model(mv) => ModelValidate(mv, o)
  }

  /** The working state of one model walk: the slot buffer, the found count and the errors so far. */
  datatype WalkState = WalkState(data: seq<Option<FieldValue>>, found: nat, errors: seq<LineError>)

  /** The field a dict key selects: only a string key that names a field selects one. */
  function FieldIndex(mv: ModelValidator, key: PyObject): (r: Option<nat>)
    requires ModelWellFormed(mv)
    ensures r.Some? ==> r.value < |mv.fieldInfo| && key == PyStr(mv.fieldInfo[r.value].name)
    ensures r.None? <==> !(key.PyStr? && key.s in mv.keyLookup)
  {
    if key.PyStr? && key.s in mv.keyLookup then Some(mv.keyLookup[key.s]) else None
  }

  /**
   * One iteration of the walk over the input dict. A key that selects no field
   * changes nothing; a success fills the field's slot and counts it; a
   * collectible failure appends its errors with the key pushed as their
   * outermost segment; an internal error stops the walk.
   */
  function Step(mv: ModelValidator, w: WalkState, item: Item): (r: Result<WalkState, PyErr>)
    requires ModelWellFormed(mv) && |w.data| == |mv.fieldInfo|
    ensures FieldIndex(mv, item.key).None? ==> r == Ok(w)
    ensures r.Ok? ==> |r.value.data| == |w.data| && w.found <= r.value.found <= w.found + 1
    ensures r.Ok? ==> |w.errors| <= |r.value.errors| && r.value.errors[..|w.errors|] == w.errors
    ensures r.Ok? ==> forall k | 0 <= k < |w.data| && w.data[k].Some? :: r.value.data[k].Some?
    decreases mv, 0, 0
  {
    match FieldIndex(mv, item.key)
    case None => Ok(w)
    case Some(index) =>
      match Validate(mv.fieldInfo[index].validator, item.value)
      case Ok(fv) => Ok(w.(data := w.data[index := Some(fv)], found := w.found + 1))
      case Err(LineErrors(es)) => Ok(w.(errors := w.errors + WithLocAll(es, S(item.key.s))))
      case Err(InternalError(e)) => Err(e)
  }

  /** The state after the walk has visited `items` in order, or the internal error that stopped it. */
  function WalkItems(mv: ModelValidator, items: seq<Item>): (r: Result<WalkState, PyErr>)
    requires ModelWellFormed(mv)
    ensures r.Ok? ==> |r.value.data| == |mv.fieldInfo| && r.value.found <= |items|
    decreases mv, 0, |items|
  {
    if |items| == 0 then Ok(WalkState(seq(|mv.fieldInfo|, _ => None), 0, []))
    else
      match WalkItems(mv, items[..|items| - 1])
      case Err(e) => Err(e)
      case Ok(w) => Step(mv, w, items[|items| - 1])
  }

  /** One `MissingField` error, located at the field's name, per required field whose slot is empty, in schema order. */
  function MissingErrors(fields: seq<FieldInfo>, data: seq<Option<FieldValue>>): (r: seq<LineError>)
    requires |fields| == |data|
    ensures |r| <= |fields|
    ensures forall e | e in r :: e.errorType == MissingField && |e.revLoc| == 1
  {
    if |fields| == 0 then []
    else
      var n := |fields| - 1;
      MissingErrors(fields[..n], data[..n]) +
        (if data[n].None? && fields[n].required then [NewLoc(MissingField, S(fields[n].name))] else [])
  }

  /**
   * `ModelValidator::validate_python`. Input that is not a dict fails at once
   * with one `DictType` error at the empty location. Otherwise every key is
   * walked; then, unless every field was found, the missing required fields
   * are reported after the walk's errors. With no error at all the result is
   * the model instance carrying the slot buffer.
   */
  function ModelValidate(mv: ModelValidator, o: PyObject): (r: ValResult<FieldValue>)
    requires ModelWellFormed(mv)
    ensures !o.PyDict? ==> r == Err(LineErrors([LineError(DictType, [])]))
    ensures r.Err? && r.error.LineErrors? ==> |r.error.errors| > 0
    ensures r.Ok? ==> r.value.Model? && r.value.obj.Instance? && r.value.obj.cls == mv.cls
    ensures r.Ok? ==> |r.value.obj.modelData| == |mv.fieldInfo|
    decreases mv, 1
  {
    if !o.PyDict? then Err(FromErrorType(DictType))
    else
      match WalkItems(mv, o.items)
      case Err(e) => Err(FromPyErr(e))
      case Ok(w) =>
        var errors := w.errors + (if w.found != |mv.fieldInfo| then MissingErrors(mv.fieldInfo, w.data) else []);
        if |errors| == 0 then Ok(FieldValue.Model(Instance(mv.cls, w.data)))
        else Err(FromLineErrors(errors))
  }

  /** Once an internal error stops the walk, visiting further items does not change the outcome. */
  lemma {:induction false} WalkStopsAtInternalError(mv: ModelValidator, items: seq<Item>, k: nat)
    requires ModelWellFormed(mv) && k <= |items|
    requires WalkItems(mv, items[..k]).Err?
    ensures WalkItems(mv, items) == WalkItems(mv, items[..k])
    decreases |items| - k
  {
    if k < |items| {
      assert items[..k + 1][..k] == items[..k];
      WalkStopsAtInternalError(mv, items, k + 1);
    } else {
      assert items[..k] == items;
    }
  }

  // ---------------------------------------------------------------------------
  // The same, step by step

  /** `CombinedValidator::validate_python`, dispatching to the variant it holds. */
  method ValidatePython(v: CombinedValidator, o: PyObject) returns (r: ValResult<FieldValue>)
    requires WellFormed(v)
    ensures r == Validate(v, o)
    decreases v, 1
  {
    match v
    case String(_) => r := StringValidatePython(o);
    case Int(_) => r := IntValidatePython(o);
    case Model(mv) => r := ModelValidatePython(mv, o);
  }

  /**
   * `ModelValidator::validate_python`: a slot buffer of `Option<FieldValue>`
   * filled in place while the dict is walked, a found count, and an error list
   * that is extended, never cut short.
   */
  method ModelValidatePython(mv: ModelValidator, o: PyObject) returns (r: ValResult<FieldValue>)
    requires ModelWellFormed(mv)
    ensures r == ModelValidate(mv, o)
    decreases mv, 2
  {
    if !o.PyDict? {
      return Err(FromErrorType(DictType));
    }
    var fieldCount := |mv.fieldInfo|;
    var data := new Option<FieldValue>[fieldCount](_ => None);
    var failure, fieldsFound, errors := WalkDict(mv, o.items, data);
    if failure.Some? {
      return Err(FromPyErr(failure.value));
    }
    ghost var walked := errors;
    if fieldsFound != fieldCount {
      errors := AppendMissing(mv.fieldInfo, data, errors);
    }
    assert errors == walked + (if fieldsFound != fieldCount then MissingErrors(mv.fieldInfo, data[..]) else []);
    if |errors| == 0 {
      r := Ok(FieldValue.Model(Instance(mv.cls, data[..])));
    } else {
      r := Err(FromLineErrors(errors));
    }
  }

  /**
   * The loop over the input dict (model_validator.rs, lines 54-68): fills the
   * slots of `data` in place and returns the found count and the errors, or
   * the internal error that stopped the walk.
   */
  method WalkDict(mv: ModelValidator, items: seq<Item>, data: array<Option<FieldValue>>)
    returns (failure: Option<PyErr>, fieldsFound: nat, errors: seq<LineError>)
    requires ModelWellFormed(mv) && data.Length == |mv.fieldInfo|
    requires forall k | 0 <= k < data.Length :: data[k].None?
    modifies data
    ensures failure.Some? ==> WalkItems(mv, items) == Err(failure.value)
    ensures failure.None? ==> WalkItems(mv, items) == Ok(WalkState(data[..], fieldsFound, errors))
    decreases mv, 1
  {
    fieldsFound, errors := 0, [];
    assert data[..] == seq(data.Length, _ => None);
    var i := 0;
    while i < |items|
      invariant 0 <= i <= |items|
      invariant WalkItems(mv, items[..i]) == Ok(WalkState(data[..], fieldsFound, errors))
    {
      assert items[..i + 1][..i] == items[..i];
      failure, fieldsFound, errors := VisitItem(mv, items[i], data, fieldsFound, errors);
      if failure.Some? {
        assert WalkItems(mv, items[..i + 1]) == Err(failure.value);
        WalkStopsAtInternalError(mv, items, i + 1);
        return;
      }
      i := i + 1;
    }
    assert items[..|items|] == items;
    failure := None;
  }

  /** One pass of the walk's loop body: `Step`, with the slot written in place. */
  method VisitItem(mv: ModelValidator, item: Item, data: array<Option<FieldValue>>, found: nat, errors: seq<LineError>)
    returns (failure: Option<PyErr>, found': nat, errors': seq<LineError>)
    requires ModelWellFormed(mv) && data.Length == |mv.fieldInfo|
    modifies data
    ensures failure.Some? ==> Step(mv, WalkState(old(data[..]), found, errors), item) == Err(failure.value)
    ensures failure.None? ==> Step(mv, WalkState(old(data[..]), found, errors), item) == Ok(WalkState(data[..], found', errors'))
    decreases mv, 0
  {
    failure, found', errors' := None, found, errors;
    var key, value := item.key, item.value;
    if key.PyStr? && key.s in mv.keyLookup {
      var index := mv.keyLookup[key.s];
      var result := ValidatePython(mv.fieldInfo[index].validator, value);
      match result {
        case Ok(fieldValue) =>
          data[index] := Some(fieldValue);
          found' := found + 1;
        case Err(e) =>
          var located := LineErrorsWithLoc(e, S(key.s));
          if located.Err? {
            failure := Some(located.error);
            return;
          }
          errors' := errors + located.value;
      }
    }
  }

  /**
   * The scan for missing fields (model_validator.rs, lines 70-79): `errors`
   * extended with one `MissingField` error per required field whose slot is empty.
   */
  method AppendMissing(fields: seq<FieldInfo>, data: array<Option<FieldValue>>, errors: seq<LineError>)
    returns (r: seq<LineError>)
    requires data.Length == |fields|
    ensures r == errors + MissingErrors(fields, data[..])
  {
    r := errors;
    var j := 0;
    while j < |fields|
      invariant 0 <= j <= |fields|
      invariant r == errors + MissingErrors(fields[..j], data[..j])
    {
      assert fields[..j + 1][..j] == fields[..j];
      assert data[..j + 1][..j] == data[..j];
      if data[j].None? && fields[j].required {
        r := r + [NewLoc(MissingField, S(fields[j].name))];
      }
      j := j + 1;
    }
    assert fields[..j] == fields;
    assert data[..j] == data[..];
  }

  /**
   * `CombinedValidator::validate_json` for the scalar variants. `ModelValidator`
   * has no streaming entry point, so the model variant is excluded.
   */
  method ValidateJson(v: CombinedValidator, jiter: Jiter) returns (r: ValResult<FieldValue>)
    requires !v.Model? && jiter.Valid()
    modifies jiter
    ensures jiter.Valid()
    ensures v.String? ==> (r, jiter.index) == StringJson(jiter.tokens, old(jiter.index))
    ensures v.Int? ==> (r, jiter.index) == IntJson(jiter.tokens, old(jiter.index))
  {
    match v
    case String(_) => r := StringValidateJson(jiter);
    case Int(_) => r := IntValidateJson(jiter);
  }
}
