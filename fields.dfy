/**
 * Field descriptors: each turns a raw value into a typed value or an error, and may point
 * at a related model.
 */
module Fields {
  import opened Values
  import opened Numerals

  /** The value types a field coerces to: int or str. */
  datatype FieldType = IntType | StrType

  /**
   * The related_model argument: absent, a model class, or a class given by name as a
   * string (the marker "self" or any other name).
   */
  datatype RelatedModel = NoRelated | ModelClass(target: TypeName) | ModelName(name: string)

  /**
   * A field descriptor. maxLength is set only by StringField and is already normalised:
   * None means no limit.
   */
  datatype Field = Field(fieldType: FieldType, nullable: bool, isKey: bool,
                         related: RelatedModel, maxLength: Option<nat>)

  /** ModelField(field_type, nullable, is_key, related_model). Key fields are always nullable. */
  function ModelField(fieldType: FieldType, nullable: bool := false, isKey: bool := false,
                      related: RelatedModel := NoRelated): (f: Field)
    ensures f.fieldType == fieldType && f.isKey == isKey && f.related == related
    ensures f.nullable <==> isKey || nullable
    ensures f.maxLength == None
  {
    Field(fieldType, isKey || nullable, isKey, related, None)
  }

  /** StringField: a str field whose max_length is no limit when absent or not positive. */
  function StringField(nullable: bool := false, isKey: bool := false, related: RelatedModel := NoRelated,
                       maxLength: Option<int> := None): (f: Field)
    ensures f.fieldType == StrType && f.isKey == isKey && f.related == related
    ensures f.nullable <==> isKey || nullable
    ensures f.maxLength.Some? <==> maxLength.Some? && maxLength.value > 0
    ensures f.maxLength.Some? ==> f.maxLength.value == maxLength.value
  {
    var limit := if maxLength.Some? && maxLength.value > 0 then Some(maxLength.value as nat) else None;
    ModelField(StrType, nullable, isKey, related).(maxLength := limit)
  }

  /** IntegerField: an int field. */
  function IntegerField(nullable: bool := false, isKey: bool := false, related: RelatedModel := NoRelated): (f: Field)
    ensures f.fieldType == IntType && f.isKey == isKey && f.related == related
    ensures f.nullable <==> isKey || nullable
    ensures f.maxLength == None
  {
    ModelField(IntType, nullable, isKey, related)
  }

  /** RelatedModelField: a field with a related model, of type int unless told otherwise. */
  function RelatedModelField(related: RelatedModel, fieldType: FieldType := IntType, nullable: bool := false,
                             isKey: bool := false): (f: Field)
    ensures f.fieldType == fieldType && f.isKey == isKey && f.related == related
    ensures f.nullable <==> isKey || nullable
    ensures f.maxLength == None
  {
    ModelField(fieldType, nullable, isKey, related)
  }

  /** field_type(v) for a non-None raw value: int(v) or str(v). */
  function Coerce(t: FieldType, name: string, raw: Raw): Result<Value>
    requires raw != RNone
  {
    match (t, raw)
    case (IntType, RInt(n)) => Ok(I(n))
    case (IntType, RStr(s)) =>
      (match ParseInt(s)
       case Some(n) => Ok(I(n))
       case None => Err(InvalidValue(name)))
    case (StrType, RInt(n)) => Ok(S(IntToString(n)))
    case (StrType, RStr(s)) => Ok(S(s))
  }

  /** A value a field may hold once its value has been validated. */
  predicate Admissible(f: Field, v: Value)
  {
    match v
    case Null => f.nullable
    case I(_) => f.fieldType == IntType
    case S(s) => f.fieldType == StrType && (f.maxLength.Some? ==> |s| <= f.maxLength.value)
    case M(_) => false
  }

  /** The raw value a caller would pass to obtain an admissible scalar value. */
  function ToRaw(v: Value): Raw
  {
    match v
    case Null => RNone
    case I(n) => RInt(n)
    case S(s) => RStr(s)
    case M(_) => RNone
  }

  /**
   * get_value(v) of the field named `name`: None is accepted only by a nullable field, any
   * other value is coerced to the field type, and a StringField then checks max_length.
   */
  function GetValue(f: Field, name: string, raw: Raw): (r: Result<Value>)
    ensures raw == RNone ==> (r.Ok? <==> f.nullable)
    ensures r.Ok? ==> Admissible(f, r.value)
    ensures r.Ok? && r.value == Null ==> raw == RNone
    ensures r.Err? ==> r.error == NotNullable(name) || r.error == InvalidValue(name)
    ensures r.Err? && raw == RNone ==> r.error == NotNullable(name)
    ensures r.Err? && raw != RNone ==> r.error == InvalidValue(name)
  {
    if raw == RNone then
      if f.nullable then Ok(Null) else Err(NotNullable(name))
    else
      match Coerce(f.fieldType, name, raw)
      case Err(e) => Err(e)
      case Ok(v) =>
        if v.S? && f.maxLength.Some? && |v.s| > f.maxLength.value then Err(InvalidValue(name)) else Ok(v)
  }

  /** A str longer than a StringField's max_length is refused, naming the field. */
  lemma MaxLengthEnforced(f: Field, name: string, s: string)
    requires f.fieldType == StrType && f.maxLength.Some? && |s| > f.maxLength.value
    ensures GetValue(f, name, RStr(s)) == Err(InvalidValue(name))
  {
  }

  /** Coercion is the identity on a value the field already admits. */
  lemma GetValueOfAdmissible(f: Field, name: string, v: Value)
    requires Admissible(f, v)
    ensures GetValue(f, name, ToRaw(v)) == Ok(v)
  {
  }

  /** Validation is idempotent: feeding back a validated value yields it unchanged. */
  lemma GetValueIdempotent(f: Field, name: string, raw: Raw)
    requires GetValue(f, name, raw).Ok?
    ensures GetValue(f, name, ToRaw(GetValue(f, name, raw).value)) == GetValue(f, name, raw)
  {
    GetValueOfAdmissible(f, name, GetValue(f, name, raw).value);
  }

  /**
   * An int fed to a str field is rendered as its decimal numeral, refused when that numeral is
   * longer than max_length; a stored numeral parses back to the int.
   */
  lemma StrFieldRendersInts(f: Field, name: string, n: int)
    requires f.fieldType == StrType
    ensures GetValue(f, name, RInt(n)) ==
      if f.maxLength.Some? && |IntToString(n)| > f.maxLength.value then Err(InvalidValue(name))
      else Ok(S(IntToString(n)))
    ensures GetValue(f, name, RInt(n)).Ok? ==> ParseInt(GetValue(f, name, RInt(n)).value.s) == Some(n)
  {
    ParseIntToString(n);
  }

  /** A str fed to an int field is read as a decimal numeral; one that does not parse is refused. */
  lemma IntFieldParsesStrings(f: Field, name: string, s: string)
    requires f.fieldType == IntType
    ensures GetValue(f, name, RStr(s)) ==
      if ParseInt(s).Some? then Ok(I(ParseInt(s).value)) else Err(InvalidValue(name))
  {
  }

  /** A key field accepts None whatever nullable was passed to any of the constructors. */
  lemma KeyFieldsAcceptNone(t: FieldType, nullable: bool, related: RelatedModel, maxLength: Option<int>, name: string)
    ensures GetValue(ModelField(t, nullable, true, related), name, RNone) == Ok(Null)
    ensures GetValue(StringField(nullable, true, related, maxLength), name, RNone) == Ok(Null)
    ensures GetValue(IntegerField(nullable, true, related), name, RNone) == Ok(Null)
    ensures GetValue(RelatedModelField(related, t, nullable, true), name, RNone) == Ok(Null)
  {
  }

  /**
   * get_related_model_field_type(owner): the class a field relates to. A missing or empty
   * related_model is an error, "self" names the owner, any other name is not implemented.
   */
  function RelatedType(f: Field, owner: TypeName, name: string): (r: Result<TypeName>)
    ensures r.Ok? <==> f.related.ModelClass? || f.related == ModelName("self")
    ensures r.Ok? ==> (if f.related.ModelClass? then r.value == f.related.target else r.value == owner)
    ensures r.Err? ==> (if f.related.ModelName? && f.related.name != "" then r.error == LazyReferenceNotImplemented
                        else r.error == NoRelatedModel(owner, name))
  {
    match f.related
    case NoRelated => Err(NoRelatedModel(owner, name))
    case ModelClass(t) => Ok(t)
    case ModelName(n) =>
      if n == "" then Err(NoRelatedModel(owner, name))
      else if n == "self" then Ok(owner)
      else Err(LazyReferenceNotImplemented)
  }
}
