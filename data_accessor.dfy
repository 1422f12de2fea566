/**
 * The accessor contract (DataAccessor): fetch a page of a model class's objects, or the
 * objects with given keys; get_by_key is defined on top of get_by_keys.
 */
module DataAccessor {
  import opened Values

  /**
   * A data accessor bound to one model class: get(limit, offset) and get_by_keys(*keys). An
   * exception the accessor raises is an Err result.
   */
  datatype Accessor = Accessor(get: (Option<int>, Option<int>) -> Result<seq<Instance>>,
                               getByKeys: seq<Value> -> Result<seq<Instance>>)

  /** get_by_key(k): one get_by_keys call with the single key; its first object, or None. */
  function GetByKey(a: Accessor, k: Value): (r: Result<Option<Instance>>)
    ensures a.getByKeys([k]).Err? <==> r.Err?
    ensures r.Err? ==> r.error == a.getByKeys([k]).error
    ensures r.Ok? ==> (r.value == None <==> a.getByKeys([k]).value == [])
    ensures r.Ok? && r.value.Some? ==> r.value.value == a.getByKeys([k]).value[0]
  {
    match a.getByKeys([k])
    case Err(e) => Err(e)
    case Ok(xs) => Ok(if xs == [] then None else Some(xs[0]))
  }

  /** The base class: both operations are abstract and raise NotImplementedError. */
  const Base: Accessor := Accessor((limit: Option<int>, offset: Option<int>) => Err(NotImplemented),
                                   (keys: seq<Value>) => Err(NotImplemented))

  /** Every operation of the base accessor, get_by_key included, raises NotImplementedError. */
  lemma BaseNotImplemented(limit: Option<int>, offset: Option<int>, keys: seq<Value>, k: Value)
    ensures Base.get(limit, offset) == Err(NotImplemented)
    ensures Base.getByKeys(keys) == Err(NotImplemented)
    ensures GetByKey(Base, k) == Err(NotImplemented)
  {
  }
}
