/** Values, instances and errors shared by every part of the object mapper. */
module Values {

  /** The name of a model class (Office, Department, Employee, ...). */
  type TypeName = string

  datatype Option<+T> = None | Some(value: T)

  /** One constructor per exception the mapper raises. */
  datatype Error =
    | NotNullable(field: string)                        // get_value(None) on a non-nullable field
    | InvalidValue(field: string)                       // coercion or max_length failure
    | NoRelatedModel(model: TypeName, field: string)    // field without related_model
    | LazyReferenceNotImplemented                       // related_model given as a name other than 'self'
    | NoKey                                             // schema without key field
    | MultipleKeys                                      // schema with more than one key field
    | UndefinedField(model: TypeName, names: set<string>) // unknown argument or path head
    | IncorrectModelType(model: TypeName)               // mixed classes given to the resolver
    | KeyNotFound                                       // a dictionary lookup that raises KeyError
    | NotImplemented                                    // abstract accessor operation
    | InvalidInt                                        // int() of a query parameter failed

  datatype Result<+T> = Ok(value: T) | Err(error: Error)

  /** A raw value as a caller or a JSON document supplies it, before coercion. */
  datatype Raw = RNone | RInt(n: int) | RStr(s: string)

  /** A typed field value: null, an int, a str, or a resolved related instance. */
  datatype Value = Null | I(i: int) | S(s: string) | M(inst: Instance)

  /** A model instance: its class and the value of each of its fields. */
  datatype Instance = Instance(ty: TypeName, fields: map<string, Value>)

  /** getattr: the value of a field (instances carry every field of their schema). */
  function Get(o: Instance, f: string): Value
  {
    if f in o.fields then o.fields[f] else Null
  }

  /** setattr on a value-semantics instance. */
  function Set(o: Instance, f: string, v: Value): (r: Instance)
    ensures r.ty == o.ty && Get(r, f) == v
    ensures forall g :: g != f ==> Get(r, g) == Get(o, g)
  {
    o.(fields := o.fields[f := v])
  }

  /** Python truthiness: None, 0 and "" are false; a model object is true. */
  predicate Truthy(v: Value)
  {
    match v
    case Null => false
    case I(n) => n != 0
    case S(s) => s != ""
    case M(_) => true
  }

  /** A raw value as Python holds it before any coercion (used where the source compares raw values). */
  function AsValue(r: Raw): Value
  {
    match r
    case RNone => Null
    case RInt(n) => I(n)
    case RStr(s) => S(s)
  }
}
