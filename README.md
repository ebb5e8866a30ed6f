# RustModel validation engine, in Dafny

A model of the schema-driven validation engine of RustModel, a Rust
extension for Python. The model covers five parts of the engine:

- The compiled schema: the closed set of validators (string, int, nested
  model), and a model's ordered field list with its name-to-index lookup.
- The model validator. It walks an input dict and dispatches each known key
  to its field's validator. It fills a slot buffer, counts the fields found
  and collects every error with the key as an outer location segment. Then
  it reports each required field whose slot is still empty.
- The error model. A `LineError` keeps its location path reversed: an outer
  frame pushes its segment, and the path is reversed when the error is
  emitted. `ValError` keeps collectible line errors apart from fatal errors.
- The value representations: `RawData` (the native tagged value), its
  conversion to a host value and its serialisation; `FieldValue` (a host
  handle, a raw value or both).
- The validated record (`ModelData`): attribute reads, the dict dump that
  fills defaults in place, and the JSON dump with its serialisation of host
  values (`PyData`).

Host (Python) values are the datatype `Field.PyObject`. A host dict is a
sequence of entries in insertion order, as Python keeps it. The JSON token
stream is a sequence of tokens under a cursor (`Tokens.Jiter`). Serialisation
is modelled in serde's data model (`Field.Ser`), not as JSON text.

Files:

- `wrappers.dfy`: `Option` and `Result`.
- `field.dfy`: host values, `RawData`, `FieldValue` (src/field.rs).
- `errors.dfy`: the error model (src/errors.rs).
- `schema.dfy`: field descriptors, validators and the key lookup.
- `tokens.dfy`: the token cursor.
- `validation.dfy`: the scalar validators, the dispatch and the model walk.
  Each is a specification function and, where the source loops, a method
  proved equal to it.
- `model_validator_props.dfy`: properties of the model walk, and concrete
  schemas and inputs.
- `record.dfy`: the record, the dumps and `PyData`.
- `record_props.dfy`: properties of the dumps.

Some behaviours of the code are easy to miss. The model keeps each of them:

- A required field whose value is rejected leaves its slot empty, so it is
  reported twice: once with its validator's error and once as `MissingField`.
  An input with two wrong-typed fields can therefore give three errors
  (`ModelValidatorProps.FooBarWrongTypes`). A nested model missing a field
  gives the nested error and a `MissingField` for the outer field
  (`ModelValidatorProps.NestedMissingLocated`).
- The validated record does not hold defaults. An empty slot reads as `None`
  through `get_attr` until `model_dump` fills it
  (`RecordProps.FooBarAttributes`).
- The JSON dump does not fall back from a host handle to its structure. For
  a `Py` or `Model` slot, `raw_value` is unimplemented (`todo!`), so the dump
  fails. That covers every string validated from a host value, and every
  default that `model_dump` has filled in
  (`RecordProps.FooBarDumpJson`, `RecordProps.DumpJsonAfterDumpNeedsAllFields`).
- `ErrorType` in src/errors.rs has no `IntTooBig`, but src/validators.rs:84
  raises it. The model's `Errors.ErrorType` includes it.

## Model

| member | source | states |
|---|---|---|
| Field.Lookup | src/field.rs:125-131 | reading a host dict (the dicts built by `set_item` here and at src/model_data.rs:36-39): a key reads as nothing exactly when no entry carries it, otherwise the value of an entry with that key |
| Field.SetItem | src/field.rs:128 | `d[k] = v` keeps the size when `k` is present and grows it by one otherwise; a new key is appended last (positions of a present key: `Field.SetItemPresent`; lookups after the update: `Field.SetItemLookup`) |
| Field.SetItemPresent | src/field.rs:128 | setting a key that is already present keeps the size and every key at its position |
| Field.SetItemLookup | src/field.rs:126-129 | after `d[k] = v`, looking up `k` gives `v`; every other key reads as before; distinct keys stay distinct |
| Field.SetItemAbsent | src/field.rs:126-129 | setting a key that no entry has appends one entry at the end |
| Field.ConstructorsRoundTrip | src/field.rs:48-54 | `new_py` keeps its handle; `new_raw` stores the `RawData` variant matching its input (bool, i64, f64, string) |
| Field.NewPy | src/field.rs:48-50 | `new_py` gives a `Py` value holding exactly the handle it is given |
| Field.NewRaw | src/field.rs:52-54 | `new_raw` gives a `Raw` value holding the `RawData` variant its input converts to |
| Field.FieldValue.RawValue | src/field.rs:56-63 | for `Raw` and `Both`, the stored raw value; `Py` and `Model` are outside its domain, as the source panics there |
| Field.FieldValue.ToObject | src/field.rs:66-85 | `to_object`/`into_py` return the handle for `Py`, `Model` and `Both`, whichever raw side `Both` holds, and convert the raw value only for `Raw` |
| Field.RawData.ToObject | src/field.rs:116-134 | each scalar becomes the host scalar of the same kind and content; a list keeps its length; a dict has at most one entry per stored pair (its content: `Field.DictToObjectLookup`) |
| Field.RawData.Serialize | src/field.rs:102-114 | each scalar maps to serde's scalar of the same kind and content; a list becomes a sequence and a dict a map, each of the same length (inverted by `Field.Deserialize`: `Field.SerializeRoundTrip`) |
| Field.ConversionsAgree | src/field.rs:66-85 | for `Raw`, or a `Both` whose handle is its raw side's conversion, `to_object` equals the raw side's conversion |
| Field.ListToObjectStructural | src/field.rs:124 | `to_object` on a list keeps its length and converts element by element, in order |
| Field.DictToObjectLookup | src/field.rs:125-131 | the dict `to_object` builds has only string keys; each key maps to its last stored entry's value, so a later duplicate overwrites an earlier one |
| Field.DictToObjectDistinct | src/field.rs:125-131 | with distinct keys, the dict has one entry per stored entry, in stored order |
| Field.SerializeRoundTrip | src/field.rs:102-114 | the corrected serialisation reads back as the value it came from: each variant maps to its own, lists and dicts in stored order |
| Field.SerializeListRoundTrip | src/field.rs:110 | a list's elements serialise and read back in order |
| Field.SerializeEntriesRoundTrip | src/field.rs:111 | a dict's entries, serialised as map entries, read back in order |
| Field.SerializeAsWrittenWithoutDicts | src/field.rs:102-114 | on a value with no dict at any depth, the corrected serialisation is exactly the code's |
| Field.AsWrittenDictDoesNotRoundTrip | src/field.rs:111 | as written, a one-entry dict serialises as a sequence of key-value tuples, which does not read back as a dict |
| Errors.Reverse | src/errors.rs:66 | the reversal has the same length, and element `i` is element `len-1-i` of the input |
| Errors.New | src/errors.rs:56-61 | `new(k)` has kind `k` and an empty location |
| Errors.NewLoc | src/errors.rs:49-54 | `new_loc(k, a)` has kind `k` and location exactly `[a]` |
| Errors.LineError.Location | src/errors.rs:66 | the emitted location has as many segments as the stored path, in reverse order |
| Errors.LineError.WithLoc | src/errors.rs:131 | pushing keeps the kind and the stored path, and adds the segment at the end of the stored path |
| Errors.LineError.ToObject | src/errors.rs:64-79 | the error's dict has exactly two entries: `error_type` with the kind's name, then `location` with the emitted segments in order |
| Errors.ValidationError.ErrorCount | src/errors.rs:28-30 | the count is the number of stored errors |
| Errors.LocationWithLoc | src/errors.rs:44-45 | pushing a segment onto the reversed path puts it first in the emitted location |
| Errors.NestedLocation | src/errors.rs:64-79 | `new_loc(k, a)` passed through a frame at `b` is emitted at `[b, a]`; its dict is `{"error_type": name, "location": [b, a]}` |
| Errors.NamesDistinct | src/errors.rs:90-94 | distinct error kinds are emitted under distinct names |
| Errors.FromPyErr | src/errors.rs:151-155 | a host exception becomes an internal error carrying it |
| Errors.FromDowncastError | src/errors.rs:157-161 | a failed downcast becomes an internal `TypeError` carrying its message |
| Errors.FromLineErrors | src/errors.rs:163-167 | a list of line errors is kept as it is |
| Errors.FromLineError | src/errors.rs:169-173 | one line error becomes a singleton list |
| Errors.FromErrorType | src/errors.rs:175-179 | an error kind becomes exactly one line error of that kind with an empty location |
| Errors.WithLocAll | src/errors.rs:128-133 | pushing a segment onto every error keeps their number, order and kinds |
| Errors.WithLocAllLocations | src/errors.rs:130-132 | after the push, each emitted location is the old one with the segment in front |
| Errors.LineErrorsWithLoc | src/errors.rs:125-137 | line errors come back with the segment pushed onto each, in place; an internal error comes back as the same failure |
| Errors.ValidationError.Errors | src/errors.rs:28-34 | `errors()` has `error_count()` entries, each the emitted dict of the stored error at that position |
| Errors.ToPyErr | src/errors.rs:139-146 | line errors are raised as one `ValidationError` holding all of them, in order; an internal error is raised unchanged |
| Schema.KeyLookup | src/model_validator.rs:28-32 | every name in the lookup maps to a field of that name; every field's name is in it, mapped to that field's index or a later one |
| Schema.KeyLookupIndex | src/model_validator.rs:28-32 | with unique names, the lookup maps `field_info[i].name` to exactly `i` |
| Schema.NewModelValidator | src/model_validator.rs:25-41 | the validator keeps the field list and class, and its lookup is the one built from its own fields |
| Schema.NewValidator | src/validators.rs:25-35 | "string", "int" and "model" give the matching variant; any other type string fails with `ValueError("Unknown validator: ...")` |
| Tokens.Jiter.NextStr | src/validators.rs:67 | reads one string token and moves past it, or fails with a decode error at the cursor and does not move |
| Tokens.Jiter.NextInt | src/validators.rs:82 | reads one number token, classified as fitting 64 bits or big, and moves past it; otherwise a decode error |
| Validation.ExtractI64 | src/validators.rs:77 | an `int` converts exactly when it fits 64 bits, to the same number; a `bool` converts to 0 or 1; nothing else converts |
| Validation.StringValidatePython | src/validators.rs:59-61 | succeeds exactly on a string and returns `Py` of that same object; otherwise one `StringType` error with an empty location |
| Validation.IntValidatePython | src/validators.rs:76-78 | succeeds exactly when the value converts to an i64 and returns `Raw(Int(i))`; otherwise one `IntType` error |
| Validation.StringJson | src/validators.rs:66-69 | a string token gives `Raw(Str(s))` and advances the cursor; any other token is an internal decode error, not a line error |
| Validation.StringValidateJson | src/validators.rs:66-69 | the result and the new cursor are those of `StringJson` |
| Validation.IntJson | src/validators.rs:81-86 | an in-range number gives `Raw(Int(i))`; a big number is consumed and gives one `IntTooBig` error with an empty location; a non-number is an internal decode error |
| Validation.IntValidateJson | src/validators.rs:81-86 | the result and the new cursor are those of `IntJson` |
| Validation.Validate | src/validators.rs:39-45 | dispatches to exactly the variant held; a collectible failure carries at least one error |
| Validation.ValidateJson | src/validators.rs:46-52 | the streaming entry point dispatches to the scalar variant held, with that variant's result and cursor |
| Validation.FieldIndex | src/model_validator.rs:55-57 | a key selects a field exactly when it is a string in the lookup, and then selects a field of that name |
| Validation.Step | src/model_validator.rs:55-66 | an unselected key changes nothing; one step keeps the buffer size, adds 0 or 1 to the count, keeps earlier errors as a prefix and keeps filled slots filled (what it appends and stores is `ModelValidatorProps.StepEffect`) |
| Validation.WalkItems | src/model_validator.rs:54-68 | the walk keeps one slot per field, and the found count is at most the number of keys (its errors and slot contents are `ModelValidatorProps.WalkErrors`, `WalkFills` and `WalkSlotOrigin`) |
| Validation.MissingErrors | src/model_validator.rs:71-78 | no more errors than fields, each a `MissingField` with a one-segment location (exactly one per required empty slot, in schema order: `ModelValidatorProps.MissingErrorsExact`, `MissingErrorsInOrder`) |
| Validation.ModelValidate | src/model_validator.rs:45-95 | a non-dict fails with exactly one `DictType` error at the empty location; a collectible failure is never empty; success is an instance of the validator's class with one slot per field (the full outcome is `ModelValidatorProps.ModelValidateOutcome`) |
| Validation.WalkStopsAtInternalError | src/model_validator.rs:64 | once an internal error stops the walk, later keys do not change the outcome |
| Validation.ValidatePython | src/validators.rs:39-45 | the dispatch method returns what `Validate` specifies |
| Validation.ModelValidatePython | src/model_validator.rs:45-95 | the slot-buffer method returns what `ModelValidate` specifies |
| Validation.WalkDict | src/model_validator.rs:54-68 | the loop over the dict, with slots written in place, ends in the state `WalkItems` specifies, or with the internal error that stops it |
| Validation.VisitItem | src/model_validator.rs:55-66 | one pass of the loop body does what `Step` specifies, writing the slot in the array |
| Validation.AppendMissing | src/model_validator.rs:70-79 | the scan appends exactly `MissingErrors` to the walk's errors |
| ModelValidatorProps.CountSomeEmpty | src/model_validator.rs:51-52 | the fresh buffer has no filled slot, matching the initial count of 0 |
| ModelValidatorProps.CountSomeFill | src/model_validator.rs:61-62 | filling an empty slot adds exactly one filled slot |
| ModelValidatorProps.CountSomeFull | src/model_validator.rs:70 | only a buffer with every slot filled has as many filled slots as slots |
| ModelValidatorProps.WalkSlots | src/model_validator.rs:51-63 | with distinct keys, the found count equals the number of filled slots, and a slot is filled only if its name is among the keys |
| ModelValidatorProps.StepSlots | src/model_validator.rs:57-63 | one step keeps the found count equal to the filled slots when its key is new |
| ModelValidatorProps.StepEffect | src/model_validator.rs:57-64 | one step appends exactly its key's located errors, and when the key's value passes it stores the validated value in the selected slot and changes no other slot |
| ModelValidatorProps.WalkFills | src/model_validator.rs:59-62 | every key whose value its field accepts leaves that field's slot filled; with distinct keys the slot holds exactly the value that field's validator returned |
| ModelValidatorProps.WalkStores | src/model_validator.rs:59-62 | with distinct keys, each accepted key's slot holds exactly the value its field's validator returned |
| ModelValidatorProps.WalkSlotOrigin | src/model_validator.rs:57-62 | every filled slot holds the validated value of some key that selected that slot |
| ModelValidatorProps.WalkErrors | src/model_validator.rs:54-68 | the walk does not stop at the first failure: its errors are every key's located errors, concatenated in traversal order |
| ModelValidatorProps.ItemErrorsLocated | src/model_validator.rs:64 | a failing key contributes its validator's errors, as many, same kinds, same order, each emitted with the key as its outermost segment |
| ModelValidatorProps.WalkErrorsEmpty | src/model_validator.rs:59-64 | the walk collects no error exactly when every key passes its field's validator |
| ModelValidatorProps.WalkErrNeedsFailingItem | src/model_validator.rs:64 | an internal error comes from a key whose value did not pass |
| ModelValidatorProps.MissingErrorsEmpty | src/model_validator.rs:70-79 | the scan reports nothing exactly when every required field's slot is filled |
| ModelValidatorProps.MissingErrorsReported | src/model_validator.rs:71-78 | each required empty slot is reported as `MissingField` at `[name]`, and nothing else is reported |
| ModelValidatorProps.MissingErrorsCount | src/model_validator.rs:71-78 | the scan reports exactly as many errors as there are required fields with empty slots |
| ModelValidatorProps.MissingErrorsAt | src/model_validator.rs:71-78 | for one required field `i` with an empty slot, the report holds `MissingField` at `[name]` at the position given by the number of such fields before `i` |
| ModelValidatorProps.MissingErrorsExact | src/model_validator.rs:71-78 | the scan reports as many errors as there are required fields with empty slots; the error for such a field `i` is `MissingField` at `[name]`, at the position given by the number of such fields before `i` |
| ModelValidatorProps.MissingErrorsInOrder | src/model_validator.rs:71-78 | of two required empty fields, the earlier in schema order is reported at the earlier position, and both positions are within the list |
| ModelValidatorProps.FoundAllMeansNoMissing | src/model_validator.rs:70 | with distinct keys, skipping the scan when every field was found loses no error |
| ModelValidatorProps.ModelValidateOkIff | src/model_validator.rs:83-94 | with unique names and keys, validation succeeds exactly when the input is a dict, every known key's value passes, and every required name is a key |
| ModelValidatorProps.ModelValidateOutcome | src/model_validator.rs:54-94 | for a dict: an internal error is raised unchanged; otherwise the errors are every key's located errors in order, then the missing required fields unless all fields were found, and with none the instance carries the walk's slots |
| ModelValidatorProps.ModelValidateDistinct | src/model_validator.rs:54-94 | with distinct keys, a failure lists every key's located errors and then the full missing-field scan, and a success holds each accepted key's validated value in its field's slot |
| ModelValidatorProps.ValidatedShape | src/validators.rs:39-78 | no validator returns `Both`, and the only raw value a validator returns from a host value is an integer |
| ModelValidatorProps.ValidatedRawIsDictFree | src/validators.rs:76-78 | no slot of a validated instance is `Both`, and every raw slot is an integer, so its corrected and as-written serialisations agree |
| ModelValidatorProps.UnknownKeyIgnoredWalk | src/model_validator.rs:55-57 | a key that selects no field, inserted anywhere, leaves the walk unchanged |
| ModelValidatorProps.UnknownKeyIgnored | src/model_validator.rs:55-57 | a non-string or unknown key, inserted anywhere, leaves the validation result unchanged |
| ModelValidatorProps.FooBarLookup | src/model_validator.rs:28-32 | the lookup of the fields `foo`, `bar` is `{foo: 0, bar: 1}` |
| ModelValidatorProps.FooBarBothFields | src/model_validator.rs:54-94 | `{"foo": "hi", "bar": 7}` gives an instance with `Py("hi")` and `Raw(Int(7))` |
| ModelValidatorProps.FooBarOptionalLeftOut | src/model_validator.rs:54-94 | `{"foo": "hi", "baz": None}` gives an instance with `bar` left empty; `baz` is ignored |
| ModelValidatorProps.FooBarEmpty | src/model_validator.rs:70-94 | `{}` gives exactly `[MissingField at ["foo"]]` |
| ModelValidatorProps.FooBarWrongTypes | src/model_validator.rs:54-94 | `{"foo": 1, "bar": "x"}` gives `StringType` at `foo`, `IntType` at `bar`, then `MissingField` at `foo` |
| ModelValidatorProps.FooBarWrongTypesWalk | src/model_validator.rs:54-68 | the walk over that input fills no slot and collects the two type errors in dict order |
| ModelValidatorProps.FooBarNotADict | src/model_validator.rs:46 | a non-dict input gives exactly one `DictType` error at the empty location |
| ModelValidatorProps.OuterLookup | src/model_validator.rs:28-32 | the outer model's lookup is `{inner: 0}` |
| ModelValidatorProps.OuterWalk | src/model_validator.rs:64 | the nested failure comes out with `inner` pushed onto its location |
| ModelValidatorProps.NestedMissingLocated | src/model_validator.rs:64-79 | `{"inner": {}}` gives `MissingField` emitted at `["inner", "foo"]`, then `MissingField` at `["inner"]` |
| Record.SerializePy | src/model_data.rs:114-148 | `None`, a bool, a string and a float serialise to serde's value of the same kind and content; an int serialises, as itself, exactly when it fits 64 bits; an instance or other object is unsupported; a list or dict keeps its length |
| Record.SerializePyOkIff | src/model_data.rs:114-148 | a host value serialises exactly when it holds no instance or other object at any depth, every int fits 64 bits, and every dict key is a string |
| Record.SerializeElems | src/model_data.rs:128-133 | a list serialises exactly when every element does, element by element, in order |
| Record.SerializeItem | src/model_data.rs:136-142 | an entry with a non-string key fails; otherwise the entry is the key and the serialised value |
| Record.SerializeItems | src/model_data.rs:134-144 | a dict serialises exactly when every entry does, entry by entry, in order |
| Record.SerializeElemsStops | src/model_data.rs:131 | after an element fails, later elements do not change the result |
| Record.SerializeItemsStops | src/model_data.rs:142 | after an entry fails, later entries do not change the result |
| Record.PyDataSerialize | src/model_data.rs:114-148 | the method returns what `SerializePy` specifies |
| Record.PyListSerialize | src/model_data.rs:128-133 | the list loop returns what `SerializeElems` specifies |
| Record.PyDictSerialize | src/model_data.rs:134-144 | the dict loop returns what `SerializeItems` specifies |
| Record.PyDictEntrySerialize | src/model_data.rs:136-142 | one dict entry returns what `SerializeItem` specifies |
| Record.Filled | src/model_data.rs:72-84 | after the fill, every slot is present; present slots are unchanged; empty ones hold `Py(default)` |
| Record.Dump | src/model_data.rs:33-42 | the dump has at most one entry per field |
| Record.DumpValue | src/model_data.rs:36-39 | an empty slot shows the field's default; a slot shows its handle for `Py`, `Model` and `Both`, and its converted raw value for `Raw` |
| Record.DumpJsonValue | src/model_data.rs:100-106 | a `Py` or `Model` slot fails as unimplemented; a `Raw` or `Both` slot serialises its raw value; an empty slot is exactly the default's serialisation, and fails with that serialisation's error when it fails |
| Record.DumpJsonEntries | src/model_data.rs:96-108 | succeeds exactly when every field does; one entry per field, in schema order, under the field's name |
| Record.DumpJsonEntriesStops | src/model_data.rs:102 | after a field fails, later fields do not change the result |
| Record.DumpJson | src/model_data.rs:94-110 | a successful JSON dump is a map with one entry per field |
| Record.DumpValues | src/model_data.rs:35-40 | the `set_item` loop over the filled values builds the dict `Dump` specifies |
| Record.SerializeFields | src/model_data.rs:94-110 | the serialiser loop returns what `DumpJson` specifies |
| Record.ModelData.constructor | src/model_data.rs:56-66 | the record keeps the field list, buffer and lookup it is given |
| Record.ModelData.GetAttr | src/model_data.rs:22-31 | an unknown name fails with `AttributeError(name)`; a known name reads a field of that name, and an empty slot reads as `None` |
| Record.ModelData.ItemsUpdate | src/model_data.rs:68-85 | the buffer becomes `Filled` of the old buffer, and the values yielded are the new slots, in schema order |
| Record.ModelData.ModelDump | src/model_data.rs:33-42 | returns the dict `Dump` of the old buffer, and leaves the buffer filled |
| Record.ModelData.ModelDumpJson | src/model_data.rs:44-52 | returns `DumpJson` of the buffer, which it does not change |
| RecordProps.ReadBackRaw | src/field.rs:102-134 | a raw value with finite floats, serialised and read back as JSON, is the host value `to_object` builds |
| RecordProps.ReadBackRawEntries | src/field.rs:125-131 | a raw dict's entries, serialised and read back, give the dict `to_object` builds, duplicates included |
| RecordProps.ReadBackPy | src/model_data.rs:114-148 | a host value that serialises, with finite floats and distinct dict keys, reads back as itself |
| RecordProps.ReadBackPyItems | src/model_data.rs:134-144 | a dict's entries, serialised and read back, are the same entries |
| RecordProps.DumpJsonReadsBackAsDump | src/model_data.rs:44-52 | a successful JSON dump reads back as the dict that `model_dump` builds from the same buffer |
| RecordProps.DumpJsonEntriesReadBack | src/model_data.rs:96-108 | the JSON dump's entries read back as the dict dump's entries |
| RecordProps.FilledIdempotent | src/model_data.rs:76-82 | filling defaults a second time changes nothing |
| RecordProps.DumpIdempotent | src/model_data.rs:33-42 | dumping after the defaults are filled gives the same dict, so dumping twice gives the same result |
| RecordProps.DumpExact | src/model_data.rs:35-40 | with unique names, the dump has exactly one entry per field, in schema order, keyed by name, with the slot's value or the default |
| RecordProps.DumpJsonAfterDumpNeedsAllFields | src/model_data.rs:100-102 | after `model_dump`, the JSON dump succeeds only if no slot had been empty |
| RecordProps.GetAttrField | src/model_data.rs:22-27 | with unique names, reading field `i`'s name reads slot `i`, or `None` when it is empty |
| RecordProps.FooBarFooOnly | src/model_validator.rs:54-94 | `{"foo": "hi"}` gives an instance with `foo` filled and `bar` empty |
| RecordProps.FooBarDump | src/model_data.rs:33-42 | that record dumps as `{"foo": "hi", "bar": 123}` |
| RecordProps.FooBarDumpJson | src/model_data.rs:100-102 | its JSON dump fails as unimplemented, because `foo` is held as a host handle |
| RecordProps.FooBarAttributes | src/model_data.rs:22-31 | before the dump, `foo` reads `"hi"`, `bar` reads `None`, and `baz` fails with `AttributeError` |
| RecordProps.AsWrittenDictReadsBackAsList | src/field.rs:111 | as written, a raw dict reads back from JSON as a list of pairs, where `to_object` gives a dict; the corrected form reads back as the dict |

## Left out

- Instance creation (`create_class`, `force_setattr`) is an unsafe CPython call. It is modelled as building `Instance(cls, slots)`, which carries the slot buffer in place of a `ModelData` attribute, and it never fails.
- `to_str` on a host string can fail on invalid UTF-8 (model_validator.rs:56, model_data.rs:122 and 140). Host strings here are always valid.
- Validation.ExtractI64: pyo3's `i64` extraction also accepts objects with `__index__`. Only `int` and `bool` are modelled.
- `ModelValidator` has no `validate_json`, yet the dispatch at validators.rs:50 calls one. `Validation.ValidateJson` therefore requires a scalar validator.
- Field.FieldValue.RawValue: requires `Raw` or `Both`: for `Py` and `Model` the source panics (`todo!`). The JSON dump models that panic as the error `Unimplemented`, since a panic raised into Python surfaces as `PanicException`.
- The jiter scanner is not modelled. The input is already tokens, and a token that is not the expected kind is a decode error at the cursor.
- Floats are opaque 64-bit patterns. serde_json writes a non-finite float as `null`; the read-back lemmas require finite floats.
- JSON text, escaping and error-message text are not modelled. The JSON dump is modelled in serde's data model, and a serde error is kept as its cause.
- `items_update` is a lazy iterator that fills each slot as it is reached. The model fills eagerly and then builds the dict. The two give the same result because the `set_item` loop consumes every value before returning.
- `dict.set_item` failing in `model_dump` (a key that cannot be hashed) cannot happen with string keys and is not modelled.
- `get_as_req` and `parse_fields` are not part of this model. `Schema.NewValidator` starts from the already parsed type string, field list and class.
- `ValidationError::new_err` failing to allocate, and `__str__` (Debug formatting), are not modelled.
- `Arc` sharing, `clone_ref` and `intern!` have no behaviour to model.
- `FieldValue::python_value`, called at model_data.rs:25 and 38, is not defined in src/field.rs. `Record.DumpValue` and `Record.ModelData.GetAttr` model it as `to_object`/`into_py` (`FieldValue.ToObject`): the handle when there is one, else the converted raw value.
- Record.DumpJsonValue: a `Raw` or `Both` slot is serialised with the corrected `RawData.Serialize`, which writes a dict as a map; the code writes it as a list of pairs (see "## Findings"). No code builds a raw dict or a `Both`: `new_raw` is called only with an integer or a string. `ModelValidatorProps.ValidatedRawIsDictFree` and `Field.SerializeAsWrittenWithoutDicts` show that for every record validation produces, the two serialisations agree.
- Record.Dump: the function's own contract states only the size bound. The exact content, one entry per field in schema order, is `RecordProps.DumpExact`, which needs unique names.

## Findings

| source | as written | input that shows it | evidently intended | confidence | as-written member | corrected member |
|---|---|---|---|---|---|---|
| src/field.rs:111 | `RawData::Dict` serialises its `SmallVec<(String, RawData)>` directly, which serde emits as a sequence of two-element tuples (modelled as `Field.SerializeAsWritten`) | `Dict([("a", None)])` is written as `[["a", null]]` and reads back as a list, not `{"a": null}` | a map with one entry per stored pair, in order, as `to_object` builds a dict (modelled as `Field.RawData.Serialize`, which the rest of the model uses) | not executed | Field.AsWrittenDictDoesNotRoundTrip | Field.SerializeRoundTrip |
