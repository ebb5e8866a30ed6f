/**
 * The compiled schema: the closed set of validators (`CombinedValidator`,
 * src/validators.rs), a model's ordered field list with its name-to-index
 * lookup (`ModelValidator`, src/model_validator.rs) and the field descriptor
 * (`FieldInfo`, src/field.rs). The three refer to each other, so they share
 * one module. A schema is never changed once built.
 */
module Schema {
  import opened Wrappers
  import opened Field

  /** One field of a model: its name, whether it is required, its default and its validator. */
  datatype FieldInfo = FieldInfo(name: string, required: bool, default: PyObject, validator: CombinedValidator)

  datatype StringValidator = StringValidator

  datatype IntValidator = IntValidator

  /** The closed set of validators. */
  datatype CombinedValidator =
    | String(sv: StringValidator)
    | Int(iv: IntValidator)
    | Model(mv: ModelValidator)

  /** A model's validator; `cls` is the host class its instances are created from. */
  datatype ModelValidator = ModelValidator(fieldInfo: seq<FieldInfo>, keyLookup: map<string, nat>, cls: ClassId)

  /**
   * The `key_lookup` that `ModelValidator::new` collects from the enumerated
   * field list: a name maps to the index of its last occurrence.
   */
  function KeyLookup(fields: seq<FieldInfo>): (m: map<string, nat>)
    ensures forall name | name in m :: m[name] < |fields| && fields[m[name]].name == name
    ensures forall i | 0 <= i < |fields| :: fields[i].name in m && i <= m[fields[i].name]
  {
    if |fields| == 0 then map[]
    else
      var n := |fields| - 1;
      KeyLookup(fields[..n])[fields[n].name := n]
  }

  predicate UniqueNames(fields: seq<FieldInfo>) {
    forall i, j | 0 <= i < j < |fields| :: fields[i].name != fields[j].name
  }

  /** With unique names, the lookup sends each field's name to exactly that field's index. */
  lemma KeyLookupIndex(fields: seq<FieldInfo>, i: nat)
    requires UniqueNames(fields) && i < |fields|
    ensures KeyLookup(fields)[fields[i].name] == i
  {
  }

  /** Every model validator at any depth carries the lookup built from its own fields. */
  predicate WellFormed(v: CombinedValidator)
    decreases v
  {
    match v
    case Model(mv) => ModelWellFormed(mv)
    case _ => true
  }

  predicate ModelWellFormed(mv: ModelValidator)
    decreases mv
  {
    && mv.keyLookup == KeyLookup(mv.fieldInfo)
    && forall i | 0 <= i < |mv.fieldInfo| :: WellFormed(mv.fieldInfo[i].validator)
  }

  /** `ModelValidator::new`, from the already parsed field list and class. */
  function NewModelValidator(fields: seq<FieldInfo>, cls: ClassId): (mv: ModelValidator)
    ensures mv.fieldInfo == fields && mv.cls == cls
    ensures (forall i | 0 <= i < |fields| :: WellFormed(fields[i].validator)) ==> ModelWellFormed(mv)
  {
    ModelValidator(fields, KeyLookup(fields), cls)
  }

  /** The entries of a schema dict that `CombinedValidator::new` reads. */
  datatype SchemaDict = SchemaDict(schemaType: string, fields: seq<FieldInfo>, cls: ClassId)

  /** `CombinedValidator::new`: the type string chooses the variant; any other string is refused. */
  function NewValidator(schema: SchemaDict): (r: Result<CombinedValidator, PyErr>)
    ensures r.Ok? <==> schema.schemaType in {"string", "int", "model"}
    ensures schema.schemaType == "string" ==> r == Ok(String(StringValidator))
    ensures schema.schemaType == "int" ==> r == Ok(CombinedValidator.Int(IntValidator))
    ensures schema.schemaType == "model" ==> r.Ok? && r.value.Model? && r.value.mv.fieldInfo == schema.fields && r.value.mv.cls == schema.cls
    ensures r.Err? ==> r.error == ValueError("Unknown validator: " + schema.schemaType)
    ensures r.Ok? && (forall i | 0 <= i < |schema.fields| :: WellFormed(schema.fields[i].validator)) ==> WellFormed(r.value)
  {
    match schema.schemaType
    case "string" => Ok(String(StringValidator))
    case "int" => Ok(CombinedValidator.Int(IntValidator))
    case "model" => Ok(CombinedValidator.Model(NewModelValidator(schema.fields, schema.cls)))
    case _ => Err(ValueError("Unknown validator: " + schema.schemaType))
  }
}
