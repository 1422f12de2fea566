/**
 * Models: schemas with exactly one key field, validated construction, business-key
 * identity and the dictionary form of an instance.
 */
module Models {
  import opened Values
  import opened Fields

  predicate Distinct<T(==)>(s: seq<T>)
  {
    forall i, j :: 0 <= i < j < |s| ==> s[i] != s[j]
  }

  /** The fields a model class declares, in declaration order, with their descriptors. */
  datatype SchemaShape = Schema(names: seq<string>, fields: map<string, Field>)

  /** A class body declares each attribute once, so names are distinct and cover the fields. */
  type Schema = s: SchemaShape | Distinct(s.names) && s.fields.Keys == (set n | n in s.names)
    witness Schema([], map[])

  /** The schema of every model class, keyed by class name. */
  type Registry = map<TypeName, Schema>

  /** Every related model class named by a field is itself registered. */
  ghost predicate Closed(reg: Registry)
  {
    forall t, f :: t in reg && f in reg[t].fields && reg[t].fields[f].related.ModelClass? ==>
      reg[t].fields[f].related.target in reg
  }

  /** The names among `names` whose descriptor is a key field, in order. */
  function FilterKeys(fields: map<string, Field>, names: seq<string>): (ks: seq<string>)
    requires forall n :: n in names ==> n in fields
    ensures forall k :: k in ks <==> k in names && fields[k].isKey
    ensures |ks| <= |names|
    ensures ks != [] && names != [] && fields[names[0]].isKey ==> ks[0] == names[0]
    ensures ks != [] && names != [] && !fields[names[0]].isKey ==> ks == FilterKeys(fields, names[1..])
  {
    if names == [] then []
    else (if fields[names[0]].isKey then [names[0]] else []) + FilterKeys(fields, names[1..])
  }

  /** The key fields of a schema in declaration order. */
  function KeyFields(s: Schema): seq<string>
  {
    FilterKeys(s.fields, s.names)
  }

  /** key_field_name(): the first key field in declaration order, if any. */
  function KeyFieldName(s: Schema): (r: Option<string>)
    ensures r.Some? <==> exists f :: f in s.fields && s.fields[f].isKey
    ensures r.Some? ==> r.value in s.fields && s.fields[r.value].isKey
    ensures |KeyFields(s)| == 1 ==> r == Some(KeyFields(s)[0])
  {
    var ks := KeyFields(s);
    if ks == [] then None
    else
      assert ks[0] in ks;
      Some(ks[0])
  }

  /** `key`: the value of the instance's key field. */
  function Key(reg: Registry, o: Instance): Value
  {
    if o.ty !in reg then Null
    else match KeyFieldName(reg[o.ty])
      case None => Null
      case Some(k) => Get(o, k)
  }

  /** field_values.get(name): an omitted argument reads as None. */
  function ArgOf(values: map<string, Raw>, f: string): Raw
  {
    if f in values then values[f] else RNone
  }

  /** get_value of the i-th declared field applied to its argument. */
  function FieldValue(s: Schema, values: map<string, Raw>, i: nat): Result<Value>
    requires i < |s.names|
  {
    assert s.names[i] in s.fields;
    GetValue(s.fields[s.names[i]], s.names[i], ArgOf(values, s.names[i]))
  }

  /** The first n declared fields assigned in declaration order, stopping at the first error. */
  function SetFields(s: Schema, ty: TypeName, values: map<string, Raw>, n: nat): Result<Instance>
    requires n <= |s.names|
  {
    if n == 0 then Ok(Instance(ty, map[]))
    else
      match SetFields(s, ty, values, n - 1)
      case Err(e) => Err(e)
      case Ok(o) =>
        match FieldValue(s, values, n - 1)
        case Err(e) => Err(e)
        case Ok(v) => Ok(Set(o, s.names[n - 1], v))
  }

  /** Assignment succeeds exactly when every field's get_value does. */
  lemma {:induction false} SetFieldsSucceeds(s: Schema, ty: TypeName, values: map<string, Raw>, n: nat)
    requires n <= |s.names|
    ensures SetFields(s, ty, values, n).Ok? <==> forall i :: 0 <= i < n ==> FieldValue(s, values, i).Ok?
  {
    if n > 0 {
      SetFieldsSucceeds(s, ty, values, n - 1);
    }
  }

  /** On success the instance holds, for each assigned field, the value get_value returned. */
  lemma {:induction false} SetFieldsContents(s: Schema, ty: TypeName, values: map<string, Raw>, n: nat)
    requires n <= |s.names| && SetFields(s, ty, values, n).Ok?
    ensures SetFields(s, ty, values, n).value.ty == ty
    ensures SetFields(s, ty, values, n).value.fields.Keys <= s.fields.Keys
    ensures forall i :: 0 <= i < n ==>
              s.names[i] in SetFields(s, ty, values, n).value.fields &&
              FieldValue(s, values, i) == Ok(SetFields(s, ty, values, n).value.fields[s.names[i]])
  {
    if n > 0 {
      SetFieldsContents(s, ty, values, n - 1);
      var prev := SetFields(s, ty, values, n - 1).value;
      var o := SetFields(s, ty, values, n).value;
      var f := s.names[n - 1];
      assert o.fields == prev.fields[f := FieldValue(s, values, n - 1).value];
      forall i | 0 <= i < n ensures FieldValue(s, values, i) == Ok(o.fields[s.names[i]]) {
        if i < n - 1 {
          assert s.names[i] != f;
        }
      }
    }
  }

  /** On failure the error is that of the first field, in declaration order, that fails. */
  lemma {:induction false} SetFieldsFirstError(s: Schema, ty: TypeName, values: map<string, Raw>, n: nat)
    requires n <= |s.names| && SetFields(s, ty, values, n).Err?
    ensures exists i :: 0 <= i < n && FieldValue(s, values, i) == Err(SetFields(s, ty, values, n).error) &&
                        forall j :: 0 <= j < i ==> FieldValue(s, values, j).Ok?
  {
    if SetFields(s, ty, values, n - 1).Err? {
      SetFieldsFirstError(s, ty, values, n - 1);
    } else {
      SetFieldsSucceeds(s, ty, values, n - 1);
    }
  }

  /** Once a field fails, assigning further fields keeps that error. */
  lemma {:induction false} SetFieldsKeepsError(s: Schema, ty: TypeName, values: map<string, Raw>, i: nat, n: nat)
    requires i <= n <= |s.names| && SetFields(s, ty, values, i).Err?
    ensures SetFields(s, ty, values, n) == SetFields(s, ty, values, i)
  {
    if n > i {
      SetFieldsKeepsError(s, ty, values, i, n - 1);
    }
  }

  /**
   * Model(**values): the key-count check comes first, then every unknown argument name is
   * reported in one error, then each declared field is assigned get_value of its argument.
   */
  function New(s: Schema, ty: TypeName, values: map<string, Raw>): Result<Instance>
  {
    var keyCount := |KeyFields(s)|;
    if keyCount != 1 then Err(if keyCount > 0 then MultipleKeys else NoKey)
    else if !(values.Keys <= s.fields.Keys) then Err(UndefinedField(ty, values.Keys - s.fields.Keys))
    else SetFields(s, ty, values, |s.names|)
  }

  /** What construction promises: its errors in order, and on success every field validated. */
  lemma {:induction false} NewSpec(s: Schema, ty: TypeName, values: map<string, Raw>)
    ensures |KeyFields(s)| == 0 ==> New(s, ty, values) == Err(NoKey)
    ensures |KeyFields(s)| > 1 ==> New(s, ty, values) == Err(MultipleKeys)
    ensures |KeyFields(s)| == 1 && !(values.Keys <= s.fields.Keys) ==>
              New(s, ty, values) == Err(UndefinedField(ty, values.Keys - s.fields.Keys))
    ensures |KeyFields(s)| == 1 && values.Keys <= s.fields.Keys ==>
              (New(s, ty, values).Ok? <==> forall i :: 0 <= i < |s.names| ==> FieldValue(s, values, i).Ok?)
    ensures New(s, ty, values).Ok? ==>
              New(s, ty, values).value.ty == ty && New(s, ty, values).value.fields.Keys == s.fields.Keys
    ensures New(s, ty, values).Ok? ==> forall f :: f in s.fields ==>
              GetValue(s.fields[f], f, ArgOf(values, f)) == Ok(New(s, ty, values).value.fields[f])
    ensures New(s, ty, values).Err? && |KeyFields(s)| == 1 && values.Keys <= s.fields.Keys ==>
              exists i :: 0 <= i < |s.names| && FieldValue(s, values, i) == Err(New(s, ty, values).error) &&
                          forall j :: 0 <= j < i ==> FieldValue(s, values, j).Ok?
  {
    var n := |s.names|;
    if |KeyFields(s)| == 1 && values.Keys <= s.fields.Keys {
      assert New(s, ty, values) == SetFields(s, ty, values, n);
      SetFieldsSucceeds(s, ty, values, n);
      if SetFields(s, ty, values, n).Ok? {
        SetFieldsAll(s, ty, values);
      } else {
        SetFieldsFirstError(s, ty, values, n);
      }
    }
  }

  /** Once every declared field is assigned, the instance holds each field's validated value. */
  lemma {:induction false} SetFieldsAll(s: Schema, ty: TypeName, values: map<string, Raw>)
    requires SetFields(s, ty, values, |s.names|).Ok?
    ensures var o := SetFields(s, ty, values, |s.names|).value;
      o.ty == ty && o.fields.Keys == s.fields.Keys &&
      forall f :: f in s.fields ==> GetValue(s.fields[f], f, ArgOf(values, f)) == Ok(o.fields[f])
  {
    var n := |s.names|;
    SetFieldsContents(s, ty, values, n);
    var o := SetFields(s, ty, values, n).value;
    forall f | f in s.fields
      ensures f in o.fields && GetValue(s.fields[f], f, ArgOf(values, f)) == Ok(o.fields[f])
    {
      var i :| 0 <= i < n && s.names[i] == f;
      assert FieldValue(s, values, i) == Ok(o.fields[s.names[i]]);
    }
  }

  /** The field loop of Model.__init__: assign get_value of each argument, in declaration order. */
  method AssignFields(s: Schema, ty: TypeName, values: map<string, Raw>) returns (r: Result<Instance>)
    ensures r == SetFields(s, ty, values, |s.names|)
  {
    var o := Instance(ty, map[]);
    var i := 0;
    while i < |s.names|
      invariant 0 <= i <= |s.names|
      invariant SetFields(s, ty, values, i) == Ok(o)
    {
      var name := s.names[i];
      var v := GetValue(s.fields[name], name, ArgOf(values, name));
      if v.Err? {
        assert FieldValue(s, values, i) == v;
        assert SetFields(s, ty, values, i + 1) == Err(v.error);
        SetFieldsKeepsError(s, ty, values, i + 1, |s.names|);
        return Err(v.error);
      }
      assert SetFields(s, ty, values, i + 1) == Ok(Set(o, name, v.value));
      o := Set(o, name, v.value);
      i := i + 1;
    }
    r := Ok(o);
  }

  /** Model.__init__: the key-count check, the check for unknown arguments, then the field loop. */
  method Init(s: Schema, ty: TypeName, values: map<string, Raw>) returns (r: Result<Instance>)
    ensures r == New(s, ty, values)
  {
    var keys := KeyFields(s);
    if |keys| != 1 {
      return Err(if |keys| > 0 then MultipleKeys else NoKey);
    }
    var undefined := values.Keys - s.fields.Keys;
    if undefined != {} {
      return Err(UndefinedField(ty, undefined));
    }
    assert forall k :: k in values.Keys ==> k in undefined || k in s.fields.Keys;
    r := AssignFields(s, ty, values);
  }

  /** Instances equal by business key: same class, a truthy key, equal keys. */
  predicate Eq(reg: Registry, a: Instance, b: Instance)
  {
    a.ty == b.ty && Truthy(Key(reg, a)) && Key(reg, a) == Key(reg, b)
  }

  /** Only the key is compared: two instances of a class that share a truthy key are equal. */
  lemma {:induction false} EqIgnoresNonKeyFields(reg: Registry, a: Instance, b: Instance)
    requires a.ty == b.ty && a.ty in reg && KeyFieldName(reg[a.ty]).Some?
    requires Get(a, KeyFieldName(reg[a.ty]).value) == Get(b, KeyFieldName(reg[a.ty]).value)
    ensures Eq(reg, a, b) <==> Truthy(Get(a, KeyFieldName(reg[a.ty]).value))
  {
  }

  /** An instance whose key is None, 0 or "" equals nothing, not even itself. */
  lemma {:induction false} EqNeedsTruthyKey(reg: Registry, a: Instance, b: Instance)
    requires !Truthy(Key(reg, a))
    ensures !Eq(reg, a, b) && !Eq(reg, b, a)
  {
  }

  lemma {:induction false} EqSymmetric(reg: Registry, a: Instance, b: Instance)
    ensures Eq(reg, a, b) <==> Eq(reg, b, a)
  {
  }

  lemma {:induction false} EqTransitive(reg: Registry, a: Instance, b: Instance, c: Instance)
    requires Eq(reg, a, b) && Eq(reg, b, c)
    ensures Eq(reg, a, c)
  {
  }

  /** The dictionary form of a value: what to_dict puts under a field name. */
  datatype Plain = PNull | PInt(i: int) | PStr(s: string) | PDict(d: map<string, Plain>)

  function ToPlain(v: Value, excludeNone: bool): Plain
    decreases v
  {
    match v
    case Null => PNull
    case I(n) => PInt(n)
    case S(s) => PStr(s)
    case M(x) => PDict(ToDict(x, excludeNone))
  }

  /** to_dict(exclude_none): every field, resolved models converted recursively, None dropped on request. */
  function ToDict(o: Instance, excludeNone: bool): (d: map<string, Plain>)
    ensures d.Keys == set f | f in o.fields && (!excludeNone || o.fields[f] != Null)
    decreases o
  {
    map f | f in o.fields && (!excludeNone || o.fields[f] != Null) :: ToPlain(o.fields[f], excludeNone)
  }

  /** A raw JSON scalar as to_dict would print it when it needs no coercion. */
  function RawToPlain(r: Raw): Plain
  {
    match r
    case RNone => PNull
    case RInt(n) => PInt(n)
    case RStr(s) => PStr(s)
  }

  /** A field argument that validation keeps exactly as given. */
  predicate Canonical(s: Schema, values: map<string, Raw>)
  {
    forall f :: f in s.fields ==> GetValue(s.fields[f], f, ArgOf(values, f)) == Ok(AsValue(ArgOf(values, f)))
  }

  /** Arguments that need no coercion are stored as given; omitted fields hold None. */
  lemma {:induction false} NewOfCanonical(s: Schema, ty: TypeName, values: map<string, Raw>)
    requires |KeyFields(s)| == 1 && values.Keys <= s.fields.Keys && Canonical(s, values)
    ensures New(s, ty, values).Ok?
    ensures New(s, ty, values).value.fields == map f | f in s.fields :: AsValue(ArgOf(values, f))
  {
    forall i | 0 <= i < |s.names|
      ensures FieldValue(s, values, i).Ok?
    {
      assert s.names[i] in s.fields;
    }
    NewSpec(s, ty, values);
  }

  /** to_dict() of an instance holding scalars prints each scalar. */
  lemma {:induction false} ToDictOfScalars(o: Instance, values: map<string, Raw>, names: set<string>)
    requires o.fields == map f | f in names :: AsValue(ArgOf(values, f))
    ensures ToDict(o, false) == map f | f in names :: RawToPlain(ArgOf(values, f))
  {
    forall f | f in names
      ensures ToPlain(o.fields[f], false) == RawToPlain(ArgOf(values, f))
    {
      match ArgOf(values, f)
      case RNone =>
      case RInt(n) =>
      case RStr(t) =>
    }
  }

  /** to_dict(exclude_none=True) of an instance holding scalars prints the non-None arguments. */
  lemma {:induction false} ToDictOfScalarsExcludingNone(o: Instance, values: map<string, Raw>, names: set<string>)
    requires values.Keys <= names
    requires o.fields == map f | f in names :: AsValue(ArgOf(values, f))
    ensures ToDict(o, true) == map f | f in values && values[f] != RNone :: RawToPlain(values[f])
  {
    var given := map f | f in values && values[f] != RNone :: RawToPlain(values[f]);
    forall f | f in o.fields && o.fields[f] != Null
      ensures f in given && ToPlain(o.fields[f], true) == given[f]
    {
      match ArgOf(values, f)
      case RNone =>
      case RInt(n) =>
      case RStr(t) =>
    }
    forall f | f in given
      ensures f in o.fields && o.fields[f] != Null
    {
      assert ArgOf(values, f) == values[f];
    }
  }

  /**
   * Constructing from arguments that need no coercion and printing the instance gives the
   * arguments back: omitted fields appear as None, or are left out with exclude_none.
   */
  lemma {:induction false} ToDictOfNew(s: Schema, ty: TypeName, values: map<string, Raw>)
    requires |KeyFields(s)| == 1 && values.Keys <= s.fields.Keys && Canonical(s, values)
    ensures New(s, ty, values).Ok?
    ensures ToDict(New(s, ty, values).value, false) == map f | f in s.fields :: RawToPlain(ArgOf(values, f))
    ensures ToDict(New(s, ty, values).value, true) == map f | f in values && values[f] != RNone :: RawToPlain(values[f])
  {
    NewOfCanonical(s, ty, values);
    ToDictOfScalars(New(s, ty, values).value, values, s.fields.Keys);
    ToDictOfScalarsExcludingNone(New(s, ty, values).value, values, s.fields.Keys);
  }

  /** A resolved relationship prints as the nested dictionary, an unresolved one as its raw key. */
  lemma {:induction false} ToDictOfField(o: Instance, f: string, excludeNone: bool)
    requires f in o.fields && o.fields[f] != Null
    ensures f in ToDict(o, excludeNone)
    ensures o.fields[f].M? ==> ToDict(o, excludeNone)[f] == PDict(ToDict(o.fields[f].inst, excludeNone))
    ensures o.fields[f].I? ==> ToDict(o, excludeNone)[f] == PInt(o.fields[f].i)
    ensures o.fields[f].S? ==> ToDict(o, excludeNone)[f] == PStr(o.fields[f].s)
  {
  }
}
