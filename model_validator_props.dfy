/**
 * What `ModelValidator::validate_python` promises, proved about its
 * specification `Validation.ModelValidate`: when it succeeds, the found-count
 * shortcut is sound, keys that select no field are ignored, and concrete
 * inputs produce the expected instance or the expected located errors.
 */
module ModelValidatorProps {
  import opened Wrappers
  import opened Field
  import opened Errors
  import opened Schema
  import opened Validation

  /** The keys of a dict. */
  function Keys(items: seq<Item>): (ks: set<PyObject>)
    ensures forall j | 0 <= j < |items| :: items[j].key in ks
    ensures forall k | k in ks :: exists j | 0 <= j < |items| :: items[j].key == k
  {
    set j | 0 <= j < |items| :: items[j].key
  }

  /** The number of filled slots. */
  function CountSome(data: seq<Option<FieldValue>>): (c: nat)
    ensures c <= |data|
  {
    if |data| == 0 then 0
    else CountSome(data[..|data| - 1]) + (if data[|data| - 1].Some? then 1 else 0)
  }

  /** An item passes: either its key selects no field, or the selected field's validator accepts its value. */
  predicate ItemPasses(mv: ModelValidator, item: Item)
    requires ModelWellFormed(mv)
  {
    match FieldIndex(mv, item.key)
    case None => true
    case Some(index) => Validate(mv.fieldInfo[index].validator, item.value).Ok?
  }

  /** The value an item stores: the selected field's validated value, when the validator accepts it. */
  function Validated(mv: ModelValidator, item: Item): (r: Option<FieldValue>)
    requires ModelWellFormed(mv)
    ensures r.Some? <==> FieldIndex(mv, item.key).Some? && ItemPasses(mv, item)
  {
    match FieldIndex(mv, item.key)
    case None => None
    case Some(index) =>
      match Validate(mv.fieldInfo[index].validator, item.value)
      case Ok(fv) => Some(fv)
      case Err(_) => None
  }

  /**
   * The errors one item contributes: those its field's validator collected,
   * each with the key pushed as its outermost segment.
   */
  function ItemErrors(mv: ModelValidator, item: Item): (es: seq<LineError>)
    requires ModelWellFormed(mv)
    ensures es != [] ==> !ItemPasses(mv, item)
  {
    match FieldIndex(mv, item.key)
    case None => []
    case Some(index) =>
      match Validate(mv.fieldInfo[index].validator, item.value)
      case Err(LineErrors(errs)) => WithLocAll(errs, S(item.key.s))
      case _ => []
  }

  /** Every item's errors, concatenated in traversal order. */
  function CollectedErrors(mv: ModelValidator, items: seq<Item>): seq<LineError>
    requires ModelWellFormed(mv)
  {
    if |items| == 0 then []
    else CollectedErrors(mv, items[..|items| - 1]) + ItemErrors(mv, items[|items| - 1])
  }

  // ---------------------------------------------------------------------------
  // Counting filled slots

  lemma {:induction false} CountSomeEmpty(n: nat)
    ensures CountSome(seq(n, _ => None)) == 0
  {
    if n > 0 {
      var none: Option<FieldValue> := None;
      assert seq(n, _ => none)[..n - 1] == seq(n - 1, _ => none);
      CountSomeEmpty(n - 1);
    }
  }

  /** Filling an empty slot adds exactly one to the count. */
  lemma {:induction false} CountSomeFill(data: seq<Option<FieldValue>>, i: nat, x: FieldValue)
    requires i < |data| && data[i].None?
    ensures CountSome(data[i := Some(x)]) == CountSome(data) + 1
  {
    var n := |data| - 1;
    var d := data[i := Some(x)];
    if i == n {
      assert d[..n] == data[..n];
    } else {
      assert d[..n] == data[..n][i := Some(x)];
      CountSomeFill(data[..n], i, x);
    }
  }

  /** Only a buffer whose every slot is filled has as many filled slots as it has slots. */
  lemma {:induction false} CountSomeFull(data: seq<Option<FieldValue>>)
    requires CountSome(data) == |data|
    ensures forall i | 0 <= i < |data| :: data[i].Some?
  {
    if |data| > 0 {
      var n := |data| - 1;
      CountSomeFull(data[..n]);
      assert forall i | 0 <= i < n :: data[i] == data[..n][i];
    }
  }

  // ---------------------------------------------------------------------------
  // The walk

  /** A walk that succeeded succeeded on the prefix without its last key. */
  lemma {:induction false} WalkPrefixOk(mv: ModelValidator, items: seq<Item>)
    requires ModelWellFormed(mv) && |items| > 0 && WalkItems(mv, items).Ok?
    ensures WalkItems(mv, items[..|items| - 1]).Ok?
  {
  }

  /**
   * With distinct keys, the found count is the number of filled slots, and a
   * slot is filled only if its field's name is one of the keys.
   */
  lemma {:induction false} WalkSlots(mv: ModelValidator, items: seq<Item>)
    requires ModelWellFormed(mv) && DistinctKeys(items) && WalkItems(mv, items).Ok?
    ensures WalkItems(mv, items).value.found == CountSome(WalkItems(mv, items).value.data)
    ensures forall k | 0 <= k < |mv.fieldInfo| && WalkItems(mv, items).value.data[k].Some? ::
      PyStr(mv.fieldInfo[k].name) in Keys(items)
  {
    if |items| == 0 {
      CountSomeEmpty(|mv.fieldInfo|);
    } else {
      var n := |items| - 1;
      var prefix := items[..n];
      WalkPrefixOk(mv, items);
      WalkSlots(mv, prefix);
      KeysLast(items);
      forall j | 0 <= j < n
        ensures prefix[j].key != items[n].key
      {
        assert prefix[j] == items[j];
      }
      StepSlots(mv, WalkItems(mv, prefix).value, items[n], Keys(prefix));
    }
  }

  /** One step keeps the count of filled slots, and adds at most its own key to the names behind them. */
  lemma StepSlots(mv: ModelValidator, w: WalkState, item: Item, keys: set<PyObject>)
    requires ModelWellFormed(mv) && |w.data| == |mv.fieldInfo| && Step(mv, w, item).Ok?
    requires w.found == CountSome(w.data)
    requires forall k | 0 <= k < |mv.fieldInfo| && w.data[k].Some? :: PyStr(mv.fieldInfo[k].name) in keys
    requires item.key !in keys
    ensures Step(mv, w, item).value.found == CountSome(Step(mv, w, item).value.data)
    ensures forall k | 0 <= k < |mv.fieldInfo| && Step(mv, w, item).value.data[k].Some? ::
      PyStr(mv.fieldInfo[k].name) in keys + {item.key}
  {
    match FieldIndex(mv, item.key) {
      case None =>
      case Some(index) =>
        match Validate(mv.fieldInfo[index].validator, item.value) {
          case Ok(fv) =>
            CountSomeFill(w.data, index, fv);
          case Err(_) =>
        }
    }
  }

  lemma KeysLast(items: seq<Item>)
    requires |items| > 0
    ensures Keys(items) == Keys(items[..|items| - 1]) + {items[|items| - 1].key}
  {
    var n := |items| - 1;
    forall k | k in Keys(items)
      ensures k in Keys(items[..n]) + {items[n].key}
    {
      var j :| 0 <= j < |items| && items[j].key == k;
      if j < n {
        assert items[..n][j] == items[j];
      }
    }
    forall k | k in Keys(items[..n])
      ensures k in Keys(items)
    {
      var j :| 0 <= j < n && items[..n][j].key == k;
      assert items[j] == items[..n][j];
    }
  }

  /** One step appends its item's errors and, when the item passes, stores its validated value in the selected slot. */
  lemma StepEffect(mv: ModelValidator, w: WalkState, item: Item)
    requires ModelWellFormed(mv) && |w.data| == |mv.fieldInfo| && Step(mv, w, item).Ok?
    ensures Step(mv, w, item).value.errors == w.errors + ItemErrors(mv, item)
    ensures Step(mv, w, item).value.data ==
      if Validated(mv, item).Some? then w.data[FieldIndex(mv, item.key).value := Validated(mv, item)] else w.data
  {
  }

  /**
   * Every key whose value its field accepts leaves that field's slot filled;
   * with distinct keys the slot holds exactly the value that validator returned.
   */
  lemma {:induction false} WalkFills(mv: ModelValidator, items: seq<Item>)
    requires ModelWellFormed(mv) && WalkItems(mv, items).Ok?
    ensures forall j | 0 <= j < |items| && FieldIndex(mv, items[j].key).Some? ::
      ItemPasses(mv, items[j]) ==> WalkItems(mv, items).value.data[FieldIndex(mv, items[j].key).value].Some?
    ensures DistinctKeys(items) ==> forall j | 0 <= j < |items| && Validated(mv, items[j]).Some? ::
      WalkItems(mv, items).value.data[FieldIndex(mv, items[j].key).value] == Validated(mv, items[j])
  {
    if |items| > 0 {
      var n := |items| - 1;
      WalkPrefixOk(mv, items);
      WalkFills(mv, items[..n]);
      var w := WalkItems(mv, items[..n]).value;
      var data := WalkItems(mv, items).value.data;
      forall j | 0 <= j < |items| && FieldIndex(mv, items[j].key).Some? && ItemPasses(mv, items[j])
        ensures data[FieldIndex(mv, items[j].key).value].Some?
      {
        if j < n {
          assert items[..n][j] == items[j];
          assert w.data[FieldIndex(mv, items[j].key).value].Some?;
        }
      }
    }
    if DistinctKeys(items) {
      WalkStores(mv, items);
    }
  }

  /** With distinct keys, each accepted key's slot holds exactly the value its field's validator returned. */
  lemma {:induction false} WalkStores(mv: ModelValidator, items: seq<Item>)
    requires ModelWellFormed(mv) && DistinctKeys(items) && WalkItems(mv, items).Ok?
    ensures forall j | 0 <= j < |items| && Validated(mv, items[j]).Some? ::
      WalkItems(mv, items).value.data[FieldIndex(mv, items[j].key).value] == Validated(mv, items[j])
  {
    if |items| > 0 {
      var n := |items| - 1;
      WalkPrefixOk(mv, items);
      DistinctKeysPrefix(items, n);
      WalkStores(mv, items[..n]);
      var w := WalkItems(mv, items[..n]).value;
      var data := WalkItems(mv, items).value.data;
      StepEffect(mv, w, items[n]);
      forall j | 0 <= j < n && Validated(mv, items[j]).Some?
        ensures data[FieldIndex(mv, items[j].key).value] == Validated(mv, items[j])
      {
        assert items[..n][j] == items[j];
        assert items[j].key != items[n].key;
      }
    }
  }

  lemma DistinctKeysPrefix(items: seq<Item>, n: nat)
    requires DistinctKeys(items) && n <= |items|
    ensures DistinctKeys(items[..n])
  {
    forall a, b | 0 <= a < b < n
      ensures items[..n][a].key != items[..n][b].key
    {
      assert items[..n][a] == items[a] && items[..n][b] == items[b];
    }
  }

  /** A filled slot holds the validated value of some key that selected it. */
  lemma {:induction false} WalkSlotOrigin(mv: ModelValidator, items: seq<Item>)
    requires ModelWellFormed(mv) && WalkItems(mv, items).Ok?
    ensures forall k | 0 <= k < |mv.fieldInfo| && WalkItems(mv, items).value.data[k].Some? ::
      exists j | 0 <= j < |items| :: FieldIndex(mv, items[j].key) == Some(k) && WalkItems(mv, items).value.data[k] == Validated(mv, items[j])
  {
    if |items| > 0 {
      var n := |items| - 1;
      WalkPrefixOk(mv, items);
      WalkSlotOrigin(mv, items[..n]);
      var w := WalkItems(mv, items[..n]).value;
      var data := WalkItems(mv, items).value.data;
      StepEffect(mv, w, items[n]);
      forall k | 0 <= k < |mv.fieldInfo| && data[k].Some?
        ensures exists j | 0 <= j < |items| :: FieldIndex(mv, items[j].key) == Some(k) && data[k] == Validated(mv, items[j])
      {
        if !(Validated(mv, items[n]).Some? && FieldIndex(mv, items[n].key) == Some(k)) {
          var j :| 0 <= j < n && FieldIndex(mv, items[..n][j].key) == Some(k) && w.data[k] == Validated(mv, items[..n][j]);
          assert items[..n][j] == items[j];
        }
      }
    }
  }

  /**
   * The walk does not stop at the first failure: its errors are every item's
   * errors, each key's in turn, in traversal order.
   */
  lemma {:induction false} WalkErrors(mv: ModelValidator, items: seq<Item>)
    requires ModelWellFormed(mv) && WalkItems(mv, items).Ok?
    ensures WalkItems(mv, items).value.errors == CollectedErrors(mv, items)
  {
    if |items| > 0 {
      var n := |items| - 1;
      WalkPrefixOk(mv, items);
      WalkErrors(mv, items[..n]);
      StepEffect(mv, WalkItems(mv, items[..n]).value, items[n]);
    }
  }

  /** A failing key's errors are its validator's errors, same kinds in the same order, each emitted with the key in front. */
  lemma ItemErrorsLocated(mv: ModelValidator, item: Item)
    requires ModelWellFormed(mv) && FieldIndex(mv, item.key).Some?
    requires Validate(mv.fieldInfo[FieldIndex(mv, item.key).value].validator, item.value).Err?
    requires Validate(mv.fieldInfo[FieldIndex(mv, item.key).value].validator, item.value).error.LineErrors?
    ensures var errs := Validate(mv.fieldInfo[FieldIndex(mv, item.key).value].validator, item.value).error.errors;
      && |ItemErrors(mv, item)| == |errs| > 0
      && forall i | 0 <= i < |errs| ::
        ItemErrors(mv, item)[i].errorType == errs[i].errorType &&
        ItemErrors(mv, item)[i].Location() == [S(item.key.s)] + errs[i].Location()
  {
    var errs := Validate(mv.fieldInfo[FieldIndex(mv, item.key).value].validator, item.value).error.errors;
    WithLocAllLocations(errs, S(item.key.s));
  }

  /** The walk collected no error exactly when every item passed. */
  lemma {:induction false} WalkErrorsEmpty(mv: ModelValidator, items: seq<Item>)
    requires ModelWellFormed(mv) && WalkItems(mv, items).Ok?
    ensures WalkItems(mv, items).value.errors == [] <==> forall j | 0 <= j < |items| :: ItemPasses(mv, items[j])
  {
    if |items| > 0 {
      var n := |items| - 1;
      WalkPrefixOk(mv, items);
      WalkErrorsEmpty(mv, items[..n]);
      assert forall j | 0 <= j < n :: items[..n][j] == items[j];
    }
  }

  /** A walk stopped by an internal error was stopped by an item that did not pass. */
  lemma {:induction false} WalkErrNeedsFailingItem(mv: ModelValidator, items: seq<Item>)
    requires ModelWellFormed(mv) && WalkItems(mv, items).Err?
    ensures exists j | 0 <= j < |items| :: !ItemPasses(mv, items[j])
  {
    var n := |items| - 1;
    if WalkItems(mv, items[..n]).Err? {
      WalkErrNeedsFailingItem(mv, items[..n]);
      var j :| 0 <= j < n && !ItemPasses(mv, items[..n][j]);
      assert items[..n][j] == items[j];
    } else {
      assert !ItemPasses(mv, items[n]);
    }
  }

  // ---------------------------------------------------------------------------
  // The scan for missing fields

  /** No missing-field error exactly when every required field's slot is filled. */
  lemma {:induction false} MissingErrorsEmpty(fields: seq<FieldInfo>, data: seq<Option<FieldValue>>)
    requires |fields| == |data|
    ensures MissingErrors(fields, data) == [] <==> forall i | 0 <= i < |fields| && fields[i].required :: data[i].Some?
  {
    if |fields| > 0 {
      var n := |fields| - 1;
      MissingErrorsEmpty(fields[..n], data[..n]);
      assert forall i | 0 <= i < n :: fields[..n][i] == fields[i] && data[..n][i] == data[i];
    }
  }

  /** Each required field with an empty slot is reported, located at its name, and nothing else is reported. */
  lemma {:induction false} MissingErrorsReported(fields: seq<FieldInfo>, data: seq<Option<FieldValue>>)
    requires |fields| == |data|
    ensures forall i | 0 <= i < |fields| && fields[i].required && data[i].None? ::
      LineError(MissingField, [S(fields[i].name)]) in MissingErrors(fields, data)
    ensures forall e | e in MissingErrors(fields, data) ::
      exists i | 0 <= i < |fields| :: fields[i].required && data[i].None? && e == LineError(MissingField, [S(fields[i].name)])
  {
    if |fields| > 0 {
      var n := |fields| - 1;
      MissingErrorsReported(fields[..n], data[..n]);
      assert forall i | 0 <= i < n :: fields[..n][i] == fields[i] && data[..n][i] == data[i];
    }
  }

  /** The number of required fields before position `n` whose slots are empty. */
  function MissingBefore(fields: seq<FieldInfo>, data: seq<Option<FieldValue>>, n: nat): (c: nat)
    requires |fields| == |data| && n <= |fields|
    ensures c <= n
  {
    if n == 0 then 0
    else MissingBefore(fields, data, n - 1) + (if fields[n - 1].required && data[n - 1].None? then 1 else 0)
  }

  lemma {:induction false} MissingBeforePrefix(fields: seq<FieldInfo>, data: seq<Option<FieldValue>>, m: nat, i: nat)
    requires |fields| == |data| && i <= m <= |fields|
    ensures MissingBefore(fields[..m], data[..m], i) == MissingBefore(fields, data, i)
  {
    if i > 0 {
      MissingBeforePrefix(fields, data, m, i - 1);
    }
  }

  /** A required empty slot at `i` counts towards every later position. */
  lemma {:induction false} MissingBeforeGrows(fields: seq<FieldInfo>, data: seq<Option<FieldValue>>, i: nat, j: nat)
    requires |fields| == |data| && i < j <= |fields| && fields[i].required && data[i].None?
    ensures MissingBefore(fields, data, i) < MissingBefore(fields, data, j)
  {
    if j > i + 1 {
      MissingBeforeGrows(fields, data, i, j - 1);
    }
  }

  /** The scan reports as many errors as there are required fields with empty slots. */
  lemma {:induction false} MissingErrorsCount(fields: seq<FieldInfo>, data: seq<Option<FieldValue>>)
    requires |fields| == |data|
    ensures |MissingErrors(fields, data)| == MissingBefore(fields, data, |fields|)
  {
    if |fields| > 0 {
      var n := |fields| - 1;
      MissingErrorsCount(fields[..n], data[..n]);
      MissingBeforePrefix(fields, data, n, n);
    }
  }

  /** The error for required empty field `i` sits after those of the earlier such fields. */
  lemma {:induction false} MissingErrorsAt(fields: seq<FieldInfo>, data: seq<Option<FieldValue>>, i: nat)
    requires |fields| == |data| && i < |fields| && fields[i].required && data[i].None?
    ensures MissingBefore(fields, data, i) < |MissingErrors(fields, data)|
    ensures MissingErrors(fields, data)[MissingBefore(fields, data, i)] == LineError(MissingField, [S(fields[i].name)])
  {
    var n := |fields| - 1;
    var f, d := fields[..n], data[..n];
    var prev := MissingErrors(f, d);
    var tail := if data[n].None? && fields[n].required then [NewLoc(MissingField, S(fields[n].name))] else [];
    assert MissingErrors(fields, data) == prev + tail;
    MissingErrorsCount(f, d);
    MissingBeforePrefix(fields, data, n, n);
    if i < n {
      assert f[i] == fields[i] && d[i] == data[i];
      MissingErrorsAt(f, d, i);
      MissingBeforePrefix(fields, data, n, i);
      MissingBeforeGrows(fields, data, i, n);
      assert (prev + tail)[MissingBefore(fields, data, i)] == prev[MissingBefore(f, d, i)];
    } else {
      assert (prev + tail)[MissingBefore(fields, data, i)] == tail[0];
    }
  }

  /**
   * The scan reports exactly one error per required field whose slot is
   * empty: as many errors as there are such fields, and the error for field
   * `i`, located at its name, sits after those of the earlier such fields.
   */
  lemma MissingErrorsExact(fields: seq<FieldInfo>, data: seq<Option<FieldValue>>)
    requires |fields| == |data|
    ensures |MissingErrors(fields, data)| == MissingBefore(fields, data, |fields|)
    ensures forall i | 0 <= i < |fields| && fields[i].required && data[i].None? ::
      MissingBefore(fields, data, i) < |MissingErrors(fields, data)|
    ensures forall i | 0 <= i < |fields| && fields[i].required && data[i].None? ::
      MissingErrors(fields, data)[MissingBefore(fields, data, i)] == LineError(MissingField, [S(fields[i].name)])
  {
    MissingErrorsCount(fields, data);
    forall i | 0 <= i < |fields| && fields[i].required && data[i].None?
      ensures MissingBefore(fields, data, i) < |MissingErrors(fields, data)|
      ensures MissingErrors(fields, data)[MissingBefore(fields, data, i)] == LineError(MissingField, [S(fields[i].name)])
    {
      MissingErrorsAt(fields, data, i);
    }
  }

  /** The errors come in schema order: an earlier required empty field is reported at an earlier position. */
  lemma MissingErrorsInOrder(fields: seq<FieldInfo>, data: seq<Option<FieldValue>>)
    requires |fields| == |data|
    ensures forall i, j | 0 <= i < j < |fields| && fields[i].required && data[i].None? && fields[j].required && data[j].None? ::
      MissingBefore(fields, data, i) < MissingBefore(fields, data, j) < |MissingErrors(fields, data)|
  {
    MissingErrorsExact(fields, data);
    forall i, j | 0 <= i < j < |fields| && fields[i].required && data[i].None? && fields[j].required && data[j].None?
      ensures MissingBefore(fields, data, i) < MissingBefore(fields, data, j) < |MissingErrors(fields, data)|
    {
      MissingBeforeGrows(fields, data, i, j);
      MissingBeforeGrows(fields, data, j, |fields|);
    }
  }

  /**
   * The shortcut that skips the scan when every field was found is sound: with
   * distinct keys, a walk that found as many fields as there are has filled
   * every slot, so the scan would have reported nothing.
   */
  lemma FoundAllMeansNoMissing(mv: ModelValidator, items: seq<Item>)
    requires ModelWellFormed(mv) && DistinctKeys(items) && WalkItems(mv, items).Ok?
    requires WalkItems(mv, items).value.found == |mv.fieldInfo|
    ensures MissingErrors(mv.fieldInfo, WalkItems(mv, items).value.data) == []
  {
    var w := WalkItems(mv, items).value;
    WalkSlots(mv, items);
    CountSomeFull(w.data);
    MissingErrorsEmpty(mv.fieldInfo, w.data);
  }

  // ---------------------------------------------------------------------------
  // The whole validator

  /**
   * Validation of a model succeeds exactly when the input is a dict, every key
   * that names a field carries a value that field's validator accepts, and
   * every required field's name is among the keys. (Field names are unique in
   * the schema and keys in the dict.)
   */
  lemma ModelValidateOkIff(mv: ModelValidator, o: PyObject)
    requires ModelWellFormed(mv) && UniqueNames(mv.fieldInfo)
    requires o.PyDict? ==> DistinctKeys(o.items)
    ensures ModelValidate(mv, o).Ok? <==>
      && o.PyDict?
      && (forall j | 0 <= j < |o.items| :: ItemPasses(mv, o.items[j]))
      && (forall i | 0 <= i < |mv.fieldInfo| && mv.fieldInfo[i].required :: PyStr(mv.fieldInfo[i].name) in Keys(o.items))
  {
    if o.PyDict? {
      var items := o.items;
      if WalkItems(mv, items).Err? {
        WalkErrNeedsFailingItem(mv, items);
      } else {
        var w := WalkItems(mv, items).value;
        WalkErrorsEmpty(mv, items);
        WalkSlots(mv, items);
        WalkFills(mv, items);
        MissingErrorsEmpty(mv.fieldInfo, w.data);
        if w.found == |mv.fieldInfo| {
          FoundAllMeansNoMissing(mv, items);
        }
        if forall j | 0 <= j < |items| :: ItemPasses(mv, items[j]) {
          forall i | 0 <= i < |mv.fieldInfo| && PyStr(mv.fieldInfo[i].name) in Keys(items)
            ensures w.data[i].Some?
          {
            var j :| 0 <= j < |items| && items[j].key == PyStr(mv.fieldInfo[i].name);
            KeyLookupIndex(mv.fieldInfo, i);
            assert FieldIndex(mv, items[j].key) == Some(i);
          }
        }
      }
    }
  }

  /**
   * The outcome of validating a dict, in terms of its items: an internal error
   * is raised as it is; otherwise the errors are every item's errors in
   * traversal order followed, unless every field was found, by the missing
   * required fields; with no error the instance carries the walk's slots.
   */
  lemma ModelValidateOutcome(mv: ModelValidator, o: PyObject)
    requires ModelWellFormed(mv) && o.PyDict?
    ensures WalkItems(mv, o.items).Err? ==> ModelValidate(mv, o) == Err(InternalError(WalkItems(mv, o.items).error))
    ensures WalkItems(mv, o.items).Ok? ==>
      var w := WalkItems(mv, o.items).value;
      var errors := CollectedErrors(mv, o.items) + (if w.found != |mv.fieldInfo| then MissingErrors(mv.fieldInfo, w.data) else []);
      ModelValidate(mv, o) == if errors == [] then Ok(FieldValue.Model(Instance(mv.cls, w.data))) else Err(LineErrors(errors))
  {
    if WalkItems(mv, o.items).Ok? {
      WalkErrors(mv, o.items);
    }
  }

  /**
   * With distinct keys the found-count shortcut is invisible: a failure lists
   * every item's errors and then the full missing-field scan. A success holds
   * each accepted key's validated value in its field's slot.
   */
  lemma ModelValidateDistinct(mv: ModelValidator, o: PyObject)
    requires ModelWellFormed(mv) && o.PyDict? && DistinctKeys(o.items)
    ensures ModelValidate(mv, o).Err? && ModelValidate(mv, o).error.LineErrors? ==>
      ModelValidate(mv, o).error.errors == CollectedErrors(mv, o.items) + MissingErrors(mv.fieldInfo, WalkItems(mv, o.items).value.data)
    ensures ModelValidate(mv, o).Ok? ==>
      forall j | 0 <= j < |o.items| && Validated(mv, o.items[j]).Some? ::
        ModelValidate(mv, o).value.obj.modelData[FieldIndex(mv, o.items[j].key).value] == Validated(mv, o.items[j])
  {
    if WalkItems(mv, o.items).Ok? {
      var w := WalkItems(mv, o.items).value;
      WalkErrors(mv, o.items);
      WalkStores(mv, o.items);
      if w.found == |mv.fieldInfo| {
        FoundAllMeansNoMissing(mv, o.items);
      }
    }
  }

  /**
   * The validators store a raw value only through `new_raw` with an integer,
   * and never build `Both`, so a validated instance holds no raw dict: for
   * every raw slot the corrected and the as-written serialisation agree.
   */
  lemma ValidatedRawIsDictFree(mv: ModelValidator, o: PyObject)
    requires ModelWellFormed(mv) && ModelValidate(mv, o).Ok?
    ensures forall k | 0 <= k < |ModelValidate(mv, o).value.obj.modelData| && ModelValidate(mv, o).value.obj.modelData[k].Some? ::
      var fv := ModelValidate(mv, o).value.obj.modelData[k].value;
      && !fv.Both?
      && (fv.Raw? ==> fv.raw.Int? && DictFree(fv.raw) && fv.raw.Serialize() == SerializeAsWritten(fv.raw))
  {
    var w := WalkItems(mv, o.items).value;
    var data := ModelValidate(mv, o).value.obj.modelData;
    assert data == w.data;
    WalkSlotOrigin(mv, o.items);
    forall k | 0 <= k < |data| && data[k].Some?
      ensures !data[k].value.Both?
      ensures data[k].value.Raw? ==> data[k].value.raw.Int? && DictFree(data[k].value.raw)
      ensures data[k].value.Raw? ==> data[k].value.raw.Serialize() == SerializeAsWritten(data[k].value.raw)
    {
      var j :| 0 <= j < |o.items| && FieldIndex(mv, o.items[j].key) == Some(k) && w.data[k] == Validated(mv, o.items[j]);
      ValidatedShape(mv.fieldInfo[k].validator, o.items[j].value);
    }
  }

  /** A validator never returns `Both`, and the only raw value it returns is an integer. */
  lemma ValidatedShape(v: CombinedValidator, o: PyObject)
    requires WellFormed(v) && Validate(v, o).Ok?
    ensures !Validate(v, o).value.Both?
    ensures Validate(v, o).value.Raw? ==> Validate(v, o).value.raw.Int?
  {
  }

  /** A key that selects no field may be added anywhere in the dict without changing the walk. */
  lemma {:induction false} UnknownKeyIgnoredWalk(mv: ModelValidator, a: seq<Item>, u: Item, b: seq<Item>)
    requires ModelWellFormed(mv) && FieldIndex(mv, u.key).None?
    ensures WalkItems(mv, a + [u] + b) == WalkItems(mv, a + b)
    decreases |b|
  {
    if |b| == 0 {
      assert (a + [u] + b)[..|a + [u] + b| - 1] == a;
      assert a + b == a;
    } else {
      var m := |b| - 1;
      UnknownKeyIgnoredWalk(mv, a, u, b[..m]);
      assert (a + [u] + b)[..|a + [u] + b| - 1] == a + [u] + b[..m];
      assert (a + b)[..|a + b| - 1] == a + b[..m];
    }
  }

  /** A key that names no field, or is not a string, is ignored by the whole validator. */
  lemma UnknownKeyIgnored(mv: ModelValidator, a: seq<Item>, u: Item, b: seq<Item>)
    requires ModelWellFormed(mv) && !(u.key.PyStr? && u.key.s in mv.keyLookup)
    ensures ModelValidate(mv, PyDict(a + [u] + b)) == ModelValidate(mv, PyDict(a + b))
  {
    UnknownKeyIgnoredWalk(mv, a, u, b);
  }

  // ---------------------------------------------------------------------------
  // Concrete schemas

  /** `foo`: a required string; `bar`: an optional integer defaulting to 123. */
  function FooBar(): (mv: ModelValidator)
    ensures ModelWellFormed(mv) && |mv.fieldInfo| == 2
  {
    NewModelValidator([
      FieldInfo("foo", true, PyNone, String(StringValidator)),
      FieldInfo("bar", false, PyInt(123), CombinedValidator.Int(IntValidator))
    ], 0)
  }

  /** A model whose one required field `inner` holds a `FooBar`. */
  function Outer(): (mv: ModelValidator)
    ensures ModelWellFormed(mv) && |mv.fieldInfo| == 1
  {
    NewModelValidator([FieldInfo("inner", true, PyNone, CombinedValidator.Model(FooBar()))], 1)
  }

  /** The lookup of `FooBar`: each name to its own position. */
  lemma FooBarLookup()
    ensures FooBar().keyLookup == map["foo" := 0, "bar" := 1]
  {
    var fields := FooBar().fieldInfo;
    assert fields[..1][..0] == [];
  }

  /** A value for each field: both slots filled, the string kept as the host object, the integer as a raw value. */
  lemma FooBarBothFields()
    ensures ModelValidate(FooBar(), PyDict([Item(PyStr("foo"), PyStr("hi")), Item(PyStr("bar"), PyInt(7))])) ==
      Ok(FieldValue.Model(Instance(0, [Some(Py(PyStr("hi"))), Some(Raw(RawData.Int(7)))])))
  {
    var mv := FooBar();
    var items := [Item(PyStr("foo"), PyStr("hi")), Item(PyStr("bar"), PyInt(7))];
    FooBarLookup();
    var empty: seq<Option<FieldValue>> := seq(|mv.fieldInfo|, _ => None);
    var one := [Some(Py(PyStr("hi"))), None];
    var two := [Some(Py(PyStr("hi"))), Some(Raw(RawData.Int(7)))];
    assert empty == [None, None] && empty[0 := one[0]] == one && one[1 := two[1]] == two;
    assert items[..1][..0] == [];
    assert WalkItems(mv, items[..1]) == Step(mv, WalkState(empty, 0, []), items[0]) == Ok(WalkState(one, 1, []));
    assert WalkItems(mv, items) == Step(mv, WalkState(one, 1, []), items[1]) == Ok(WalkState(two, 2, []));
  }

  /** An optional field left out stays an empty slot; an unknown key is ignored. */
  lemma FooBarOptionalLeftOut()
    ensures ModelValidate(FooBar(), PyDict([Item(PyStr("foo"), PyStr("hi")), Item(PyStr("baz"), PyNone)])) ==
      Ok(FieldValue.Model(Instance(0, [Some(Py(PyStr("hi"))), None])))
  {
    var mv := FooBar();
    var items := [Item(PyStr("foo"), PyStr("hi")), Item(PyStr("baz"), PyNone)];
    FooBarLookup();
    var empty: seq<Option<FieldValue>> := seq(|mv.fieldInfo|, _ => None);
    var one := [Some(Py(PyStr("hi"))), None];
    assert empty == [None, None] && empty[0 := one[0]] == one;
    assert items[..1][..0] == [];
    assert WalkItems(mv, items[..1]) == Step(mv, WalkState(empty, 0, []), items[0]) == Ok(WalkState(one, 1, []));
    assert WalkItems(mv, items) == Ok(WalkState(one, 1, []));
    assert mv.fieldInfo[..1][..0] == [] && one[..1][..0] == [];
    assert MissingErrors(mv.fieldInfo, one) == [];
  }

  /** An empty dict: one error, the missing required field, located at its name. */
  lemma FooBarEmpty()
    ensures ModelValidate(FooBar(), PyDict([])) == Err(LineErrors([LineError(MissingField, [S("foo")])]))
  {
    var mv := FooBar();
    var empty: seq<Option<FieldValue>> := seq(|mv.fieldInfo|, _ => None);
    assert empty == [None, None];
    assert WalkItems(mv, []) == Ok(WalkState(empty, 0, []));
    assert mv.fieldInfo[..1][..0] == [] && empty[..1][..0] == [];
    assert MissingErrors(mv.fieldInfo, empty) == [LineError(MissingField, [S("foo")])];
    assert [] + MissingErrors(mv.fieldInfo, empty) == [LineError(MissingField, [S("foo")])];
  }

  /**
   * Wrong types for both fields: one error per field, in dict order, each
   * located at its key; then, because the rejected required field's slot is
   * still empty, the scan reports it missing as well.
   */
  lemma FooBarWrongTypes()
    ensures ModelValidate(FooBar(), PyDict([Item(PyStr("foo"), PyInt(1)), Item(PyStr("bar"), PyStr("x"))])) ==
      Err(LineErrors([LineError(StringType, [S("foo")]), LineError(IntType, [S("bar")]), LineError(MissingField, [S("foo")])]))
  {
    var mv := FooBar();
    var e1 := LineError(StringType, [S("foo")]);
    var e2 := LineError(IntType, [S("bar")]);
    var empty: seq<Option<FieldValue>> := [None, None];
    FooBarLookup();
    FooBarWrongTypesWalk();
    assert mv.fieldInfo[..1][..0] == [] && empty[..1][..0] == [];
    assert MissingErrors(mv.fieldInfo, empty) == [LineError(MissingField, [S("foo")])];
    assert [e1, e2] + [LineError(MissingField, [S("foo")])] == [e1, e2, LineError(MissingField, [S("foo")])];
  }

  /** The walk of `FooBar` over `{"foo": 1, "bar": "x"}`: both values rejected, each error under its key. */
  lemma FooBarWrongTypesWalk()
    ensures WalkItems(FooBar(), [Item(PyStr("foo"), PyInt(1)), Item(PyStr("bar"), PyStr("x"))]) ==
      Ok(WalkState([None, None], 0, [LineError(StringType, [S("foo")]), LineError(IntType, [S("bar")])]))
  {
    var mv := FooBar();
    var items := [Item(PyStr("foo"), PyInt(1)), Item(PyStr("bar"), PyStr("x"))];
    FooBarLookup();
    var empty: seq<Option<FieldValue>> := seq(|mv.fieldInfo|, _ => None);
    assert empty == [None, None];
    var e1 := LineError(StringType, [S("foo")]);
    var e2 := LineError(IntType, [S("bar")]);
    assert LineError(StringType, []).WithLoc(S("foo")) == e1;
    assert LineError(IntType, []).WithLoc(S("bar")) == e2;
    assert WithLocAll([LineError(StringType, [])], S("foo")) == [e1];
    assert WithLocAll([LineError(IntType, [])], S("bar")) == [e2];
    assert Validate(mv.fieldInfo[1].validator, PyStr("x")) == Err(LineErrors([LineError(IntType, [])]));
    assert items[..1][..0] == [];
    assert [] + [e1] == [e1] && [e1] + [e2] == [e1, e2];
    assert WalkItems(mv, items[..1]) == Step(mv, WalkState(empty, 0, []), items[0]) == Ok(WalkState(empty, 0, [e1]));
    assert WalkItems(mv, items) == Step(mv, WalkState(empty, 0, [e1]), items[1]) == Ok(WalkState(empty, 0, [e1, e2]));
  }

  /** Input that is not a dict fails with one `DictType` error at the empty location. */
  lemma FooBarNotADict()
    ensures ModelValidate(FooBar(), PyStr("foo")) == Err(LineErrors([LineError(DictType, [])]))
  {
  }

  /** The lookup of `Outer`. */
  lemma OuterLookup()
    ensures Outer().keyLookup == map["inner" := 0]
    ensures Outer().fieldInfo[0] == FieldInfo("inner", true, PyNone, CombinedValidator.Model(FooBar()))
  {
    assert Outer().fieldInfo[..0] == [];
  }

  /** The walk of `Outer` over `{"inner": {}}`: the inner failure, located under `inner`. */
  lemma OuterWalk()
    ensures WalkItems(Outer(), [Item(PyStr("inner"), PyDict([]))]) ==
      Ok(WalkState([None], 0, [LineError(MissingField, [S("foo"), S("inner")])]))
  {
    var mv := Outer();
    var items := [Item(PyStr("inner"), PyDict([]))];
    var e := LineError(MissingField, [S("foo"), S("inner")]);
    OuterLookup();
    FooBarEmpty();
    assert Validate(mv.fieldInfo[0].validator, PyDict([])) == Err(LineErrors([LineError(MissingField, [S("foo")])]));
    assert LineError(MissingField, [S("foo")]).WithLoc(S("inner")) == e;
    assert WithLocAll([LineError(MissingField, [S("foo")])], S("inner")) == [e];
    var empty: seq<Option<FieldValue>> := seq(|mv.fieldInfo|, _ => None);
    assert empty == [None];
    assert items[..0] == [];
    assert [] + [e] == [e];
    assert WalkItems(mv, items) == Step(mv, WalkState(empty, 0, []), items[0]);
  }

  /**
   * An error inside a nested model is emitted with the outer key first: a
   * missing `foo` inside `inner` is located at `["inner", "foo"]`. The
   * rejected `inner` leaves its own slot empty, so `inner` is then reported
   * missing too.
   */
  lemma NestedMissingLocated()
    ensures ModelValidate(Outer(), PyDict([Item(PyStr("inner"), PyDict([]))])) ==
      Err(LineErrors([LineError(MissingField, [S("foo"), S("inner")]), LineError(MissingField, [S("inner")])]))
    ensures LineError(MissingField, [S("foo"), S("inner")]).Location() == [S("inner"), S("foo")]
  {
    OuterMissing();
    LocationWithLoc(NewLoc(MissingField, S("foo")), S("inner"));
  }

  /** The scan after the walk of `{"inner": {}}` reports `inner` as missing. */
  lemma OuterMissing()
    ensures ModelValidate(Outer(), PyDict([Item(PyStr("inner"), PyDict([]))])) ==
      Err(LineErrors([LineError(MissingField, [S("foo"), S("inner")]), LineError(MissingField, [S("inner")])]))
  {
    var mv := Outer();
    var e := LineError(MissingField, [S("foo"), S("inner")]);
    var missing := LineError(MissingField, [S("inner")]);
    OuterLookup();
    OuterWalk();
    var empty: seq<Option<FieldValue>> := [None];
    assert mv.fieldInfo[..0] == [] && empty[..0] == [];
    assert MissingErrors(mv.fieldInfo, empty) == [missing];
    assert [e] + [missing] == [e, missing];
  }
}
