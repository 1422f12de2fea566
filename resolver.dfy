/**
 * The relationship resolver (Model.get_related_models and the fetch methods around it):
 * validate first, then copy each distinct input object once, build per requested field a
 * fan-in index from foreign key to owning keys, fetch each field's keys in one batched
 * get_by_keys call, and write every fetched object into each copy that referenced it.
 */
module Resolver {
  import opened Values
  import opened Fields
  import opened Models
  import opened Paths
  import opened Validation
  import opened DataAccessor

  /**
   * One accessor call: get_by_keys with its keys, or get with its limit and offset,
   * together with the calls the resolution of the objects it returned went on to make.
   */
  datatype Call =
    | ByKeys(ty: TypeName, keys: seq<Value>, nested: seq<Call>)
    | Page(ty: TypeName, limit: Option<int>, offset: Option<int>, nested: seq<Call>)

  /** What an operation returns, or the exception it raises, and the accessor calls it made. */
  datatype Outcome<+T> = Outcome(result: Result<T>, calls: seq<Call>)

  /** The _data_accessor of each model class. */
  type Accessors = map<TypeName, Accessor>

  /** Every registered model class has an accessor. */
  predicate Bound(reg: Registry, acc: Accessors)
  {
    reg.Keys <= acc.Keys
  }

  /** A field value the resolver fetches: neither None nor an already resolved model. */
  predicate Followable(v: Value)
  {
    !v.Null? && !v.M?
  }

  /**
   * fetch_keys[field_name]: the foreign keys to fetch in first-occurrence order, and for each
   * the keys of the objects that hold it.
   */
  datatype FanIn = FanIn(keys: seq<Value>, owners: map<Value, set<Value>>)

  /** The state of the scan over the input objects: new_objects in insertion order, and fetch_keys. */
  datatype Scan = Scan(order: seq<Value>, copies: map<Value, Instance>, fanIn: seq<FanIn>)

  /** Record that the object with key k holds foreign key v. */
  function AddOwner(fi: FanIn, v: Value, k: Value): (r: FanIn)
    ensures fi.owners.Keys <= r.owners.Keys
    ensures forall u :: u in r.owners ==> r.owners[u] <= (if u in fi.owners then fi.owners[u] else {}) + {k}
  {
    if !Followable(v) then fi
    else if v in fi.owners then FanIn(fi.keys, fi.owners[v := fi.owners[v] + {k}])
    else FanIn(fi.keys + [v], fi.owners[v := {k}])
  }

  /** The fan-in of every requested field after entering the object o with key k. */
  function Enter(reqs: seq<Request>, fanIn: seq<FanIn>, o: Instance, k: Value): (r: seq<FanIn>)
    requires |fanIn| == |reqs|
    ensures |r| == |reqs|
  {
    seq(|reqs|, i requires 0 <= i < |reqs| => AddOwner(fanIn[i], Get(o, reqs[i].field), k))
  }

  /** A scan whose order and fan-in refer only to copied objects. */
  ghost predicate ScanWf(reqs: seq<Request>, sc: Scan)
  {
    |sc.fanIn| == |reqs| &&
    (forall k :: k in sc.order ==> k in sc.copies) &&
    (forall i, v :: 0 <= i < |reqs| && v in sc.fanIn[i].owners ==> sc.fanIn[i].owners[v] <= sc.copies.Keys)
  }

  /** The fan-in before any object: no keys for any field. */
  function NoFanIn(reqs: seq<Request>): (r: seq<FanIn>)
    ensures |r| == |reqs|
  {
    seq(|reqs|, i => FanIn([], map[]))
  }

  /** One pass of the scan: the class check, then, for an object with a new key, copy and index it. */
  function ScanObject(reg: Registry, ty: TypeName, reqs: seq<Request>, sc: Scan, o: Instance): Result<Scan>
    requires |sc.fanIn| == |reqs|
  {
    if o.ty != ty then Err(IncorrectModelType(ty))
    else
      var k := Key(reg, o);
      if k in sc.copies then Ok(sc)
      else Ok(Scan(sc.order + [k], sc.copies[k := o], Enter(reqs, sc.fanIn, o, k)))
  }

  /** The scan over the input objects, in order, stopping at the first object of another class. */
  function ScanAll(reg: Registry, ty: TypeName, reqs: seq<Request>, objs: seq<Instance>): (r: Result<Scan>)
    ensures r.Ok? ==> ScanWf(reqs, r.value)
    ensures r.Ok? && objs != [] ==> r.value.order != []
  {
    if objs == [] then Ok(Scan([], map[], NoFanIn(reqs)))
    else
      match ScanAll(reg, ty, reqs, objs[..|objs| - 1])
      case Err(e) => Err(e)
      case Ok(sc) => ScanObject(reg, ty, reqs, sc, objs[|objs| - 1])
  }

  /** setattr(new_objects[k], f, x) for every owner k. */
  function AssignOne(copies: map<Value, Instance>, f: string, ks: set<Value>, x: Instance): (r: map<Value, Instance>)
    ensures r.Keys == copies.Keys
  {
    map k | k in copies :: if k in ks then Set(copies[k], f, M(x)) else copies[k]
  }

  /**
   * The assignment loop over the fetched objects xs of field f: each is written into every
   * owner of its key; a key nobody asked for raises KeyError.
   */
  function AssignAll(reg: Registry, copies: map<Value, Instance>, f: string, owners: map<Value, set<Value>>,
                     xs: seq<Instance>): (r: Result<map<Value, Instance>>)
    ensures r.Ok? ==> r.value.Keys == copies.Keys
  {
    if xs == [] then Ok(copies)
    else
      match AssignAll(reg, copies, f, owners, xs[..|xs| - 1])
      case Err(e) => Err(e)
      case Ok(c) =>
        var x := xs[|xs| - 1];
        if Key(reg, x) !in owners then Err(KeyNotFound)
        else Ok(AssignOne(c, f, owners[Key(reg, x)], x))
  }

  /** The requests whose groups are made of paths shorter than h, with registered classes. */
  ghost predicate Below(reg: Registry, reqs: seq<Request>, h: nat)
  {
    forall i :: 0 <= i < |reqs| ==> reqs[i].target in reg && Height(reqs[i].next) < h
  }

  /**
   * One iteration of the fetch loop: one get_by_keys call for the collected keys of the field,
   * nested relationships resolved inside it, then the assignment loop over what it returned.
   */
  function FetchField(reg: Registry, acc: Accessors, req: Request, fi: FanIn, copies: map<Value, Instance>, h: nat)
    : (r: Outcome<map<Value, Instance>>)
    requires Closed(reg) && Bound(reg, acc) && req.target in reg && Height(req.next) < h
    ensures r.result.Ok? ==> r.result.value.Keys == copies.Keys
    decreases h, 0, 0
  {
    var fetched := FetchedByKeys(reg, acc, req.target, fi.keys, req.next);
    match fetched.result
    case Err(e) => Outcome(Err(e), fetched.calls)
    case Ok(xs) => Outcome(AssignAll(reg, copies, req.field, fi.owners, xs), fetched.calls)
  }

  /** The fetch loop over the first n requested fields, stopping at the first exception. */
  function FetchFields(reg: Registry, acc: Accessors, reqs: seq<Request>, sc: Scan, n: nat, h: nat)
    : (r: Outcome<map<Value, Instance>>)
    requires Closed(reg) && Bound(reg, acc) && n <= |reqs| && ScanWf(reqs, sc) && Below(reg, reqs, h)
    ensures r.result.Ok? ==> r.result.value.Keys == sc.copies.Keys
    decreases h, 1, n
  {
    if n == 0 then Outcome(Ok(sc.copies), [])
    else
      var prev := FetchFields(reg, acc, reqs, sc, n - 1, h);
      if prev.result.Err? then prev
      else
        var out := FetchField(reg, acc, reqs[n - 1], sc.fanIn[n - 1], prev.result.value, h);
        Outcome(out.result, prev.calls + out.calls)
  }

  /** list(new_objects.values()). */
  function Collected(order: seq<Value>, copies: map<Value, Instance>): (r: seq<Instance>)
    requires forall k :: k in order ==> k in copies
    ensures |r| == |order|
  {
    seq(|order|, i requires 0 <= i < |order| => copies[order[i]])
  }

  /** get_related_models(objects, *paths) for the model class ty. */
  function Resolved(reg: Registry, acc: Accessors, ty: TypeName, objects: seq<Instance>, paths: seq<string>)
    : (r: Outcome<seq<Instance>>)
    requires Closed(reg) && ty in reg && Bound(reg, acc)
    ensures r.result.Ok? && objects != [] ==> r.result.value != []
    decreases Height(paths), 2, 0
  {
    match Validated(reg, ty, paths)
    case Err(e) => Outcome(Err(e), [])
    case Ok(reqs) =>
      if objects == [] || paths == [] then Outcome(Ok(objects), [])
      else
        match ScanAll(reg, ty, reqs, objects)
        case Err(e) => Outcome(Err(e), [])
        case Ok(sc) =>
          ValidatedBounds(reg, ty, paths);
          Completed(reg, acc, reqs, sc, Height(paths))
  }

  /** The end of get_related_models: the fetch loop, then the copies in first-occurrence order. */
  function Completed(reg: Registry, acc: Accessors, reqs: seq<Request>, sc: Scan, h: nat): (r: Outcome<seq<Instance>>)
    requires Closed(reg) && Bound(reg, acc) && ScanWf(reqs, sc) && Below(reg, reqs, h)
    ensures r.result.Ok? ==> |r.result.value| == |sc.order|
    decreases h, 1, |reqs| + 1
  {
    var out := FetchFields(reg, acc, reqs, sc, |reqs|, h);
    match out.result
    case Err(e) => Outcome(Err(e), out.calls)
    case Ok(copies) => Outcome(Ok(Collected(sc.order, copies)), out.calls)
  }

  /**
   * Model.get_by_keys(*keys, with_related=paths): no call at all for no keys; otherwise one
   * get_by_keys call whose objects are then resolved.
   */
  function FetchedByKeys(reg: Registry, acc: Accessors, ty: TypeName, keys: seq<Value>, paths: seq<string>)
    : (r: Outcome<seq<Instance>>)
    requires Closed(reg) && ty in reg && Bound(reg, acc)
    decreases Height(paths), 3, 0
  {
    if keys == [] then Outcome(Ok([]), [])
    else
      match acc[ty].getByKeys(keys)
      case Err(e) => Outcome(Err(e), [ByKeys(ty, keys, [])])
      case Ok(xs) =>
        var out := Resolved(reg, acc, ty, xs, paths);
        Outcome(out.result, [ByKeys(ty, keys, out.calls)])
  }

  /** Model.get(limit, offset, with_related=paths): one get call whose objects are then resolved. */
  function Fetched(reg: Registry, acc: Accessors, ty: TypeName, limit: Option<int>, offset: Option<int>,
                   paths: seq<string>): (r: Outcome<seq<Instance>>)
    requires Closed(reg) && ty in reg && Bound(reg, acc)
  {
    match acc[ty].get(limit, offset)
    case Err(e) => Outcome(Err(e), [Page(ty, limit, offset, [])])
    case Ok(xs) =>
      var out := Resolved(reg, acc, ty, xs, paths);
      Outcome(out.result, [Page(ty, limit, offset, out.calls)])
  }

  /** obj.get_related(*paths): element 0 of the resolution of [obj]. */
  function GetRelated(reg: Registry, acc: Accessors, o: Instance, paths: seq<string>): (r: Outcome<Instance>)
    requires Closed(reg) && o.ty in reg && Bound(reg, acc)
  {
    var out := Resolved(reg, acc, o.ty, [o], paths);
    match out.result
    case Err(e) => Outcome(Err(e), out.calls)
    case Ok(xs) => Outcome(Ok(xs[0]), out.calls)
  }

  /**
   * Model.get_by_key(k, with_related=paths): the accessor's get_by_key, then get_related on
   * the object found when paths were requested.
   */
  function FetchedByKey(reg: Registry, acc: Accessors, ty: TypeName, k: Value, paths: seq<string>)
    : (r: Outcome<Option<Instance>>)
    requires Closed(reg) && ty in reg && Bound(reg, acc)
  {
    match GetByKey(acc[ty], k)
    case Err(e) => Outcome(Err(e), [ByKeys(ty, [k], [])])
    case Ok(None) => Outcome(Ok(None), [ByKeys(ty, [k], [])])
    case Ok(Some(o)) =>
      if paths == [] then Outcome(Ok(Some(o)), [ByKeys(ty, [k], [])])
      else
        var out := Resolved(reg, acc, ty, [o], paths);
        match out.result
        case Err(e) => Outcome(Err(e), [ByKeys(ty, [k], out.calls)])
        case Ok(xs) => Outcome(Ok(Some(xs[0])), [ByKeys(ty, [k], out.calls)])
  }

  /** Once an object of another class is met, the objects after it are not looked at. */
  lemma {:induction false} ScanAllKeepsError(reg: Registry, ty: TypeName, reqs: seq<Request>, objs: seq<Instance>, n: nat)
    requires n <= |objs| && ScanAll(reg, ty, reqs, objs[..n]).Err?
    ensures ScanAll(reg, ty, reqs, objs) == ScanAll(reg, ty, reqs, objs[..n])
  {
    if n < |objs| {
      assert objs[..|objs| - 1][..n] == objs[..n];
      ScanAllKeepsError(reg, ty, reqs, objs[..|objs| - 1], n);
    } else {
      assert objs[..n] == objs;
    }
  }

  /** Once a fetched object has a key nobody asked for, the objects after it are not stored. */
  lemma {:induction false} AssignAllKeepsError(reg: Registry, copies: map<Value, Instance>, f: string,
                                               owners: map<Value, set<Value>>, xs: seq<Instance>, n: nat)
    requires n <= |xs| && AssignAll(reg, copies, f, owners, xs[..n]).Err?
    ensures AssignAll(reg, copies, f, owners, xs) == AssignAll(reg, copies, f, owners, xs[..n])
  {
    if n < |xs| {
      assert xs[..|xs| - 1][..n] == xs[..n];
      AssignAllKeepsError(reg, copies, f, owners, xs[..|xs| - 1], n);
    } else {
      assert xs[..n] == xs;
    }
  }

  /** Once a field fails, the fields after it are not fetched: no further call is made. */
  lemma {:induction false} FetchFieldsKeepsError(reg: Registry, acc: Accessors, reqs: seq<Request>, sc: Scan,
                                                 n: nat, m: nat, h: nat)
    requires Closed(reg) && Bound(reg, acc) && n <= m <= |reqs| && ScanWf(reqs, sc) && Below(reg, reqs, h)
    requires FetchFields(reg, acc, reqs, sc, n, h).result.Err?
    ensures FetchFields(reg, acc, reqs, sc, m, h) == FetchFields(reg, acc, reqs, sc, n, h)
  {
    if m > n {
      FetchFieldsKeepsError(reg, acc, reqs, sc, n, m - 1, h);
    }
  }

  /** The fetch loop over n + 1 fields is the loop over n fields followed by the n-th field's fetch. */
  lemma {:induction false} FetchFieldsNext(reg: Registry, acc: Accessors, reqs: seq<Request>, sc: Scan, n: nat, h: nat,
                                           copies: map<Value, Instance>, calls: seq<Call>,
                                           fetched: Outcome<map<Value, Instance>>)
    requires Closed(reg) && Bound(reg, acc) && n < |reqs| && ScanWf(reqs, sc) && Below(reg, reqs, h)
    requires FetchFields(reg, acc, reqs, sc, n, h) == Outcome(Ok(copies), calls)
    requires fetched == FetchField(reg, acc, reqs[n], sc.fanIn[n], copies, h)
    ensures FetchFields(reg, acc, reqs, sc, n + 1, h) == Outcome(fetched.result, calls + fetched.calls)
  {
  }

  /** The inner loop of the scan, as written: index the object with key k under every requested field. */
  method IndexObject(reqs: seq<Request>, fanIn: seq<FanIn>, o: Instance, k: Value) returns (r: seq<FanIn>)
    requires |fanIn| == |reqs|
    ensures r == Enter(reqs, fanIn, o, k)
  {
    r := fanIn;
    var j := 0;
    while j < |reqs|
      invariant j <= |reqs| && |r| == |reqs|
      invariant forall i :: 0 <= i < j ==> r[i] == AddOwner(fanIn[i], Get(o, reqs[i].field), k)
      invariant forall i :: j <= i < |reqs| ==> r[i] == fanIn[i]
    {
      var v := Get(o, reqs[j].field);
      if v != Null && !v.M? {
        var fi := r[j];
        if v !in fi.owners {
          fi := FanIn(fi.keys + [v], fi.owners[v := {}]);
        }
        fi := fi.(owners := fi.owners[v := fi.owners[v] + {k}]);
        assert fi.owners == AddOwner(fanIn[j], v, k).owners by {
          if v !in fanIn[j].owners {
            var none: set<Value> := {};
            assert none + {k} == {k};
          }
        }
        r := r[j := fi];
      }
      j := j + 1;
    }
  }

  /** Scanning one more object is one pass of ScanObject over the scan so far. */
  lemma {:induction false} ScanPrefixStep(reg: Registry, ty: TypeName, reqs: seq<Request>, objs: seq<Instance>, n: nat)
    requires n < |objs| && ScanAll(reg, ty, reqs, objs[..n]).Ok?
    ensures ScanAll(reg, ty, reqs, objs[..n + 1]) == ScanObject(reg, ty, reqs, ScanAll(reg, ty, reqs, objs[..n]).value, objs[n])
  {
    assert objs[..n + 1][..n] == objs[..n];
  }

  /** The scan loop of get_related_models, as written. */
  method ScanObjects(reg: Registry, ty: TypeName, reqs: seq<Request>, objects: seq<Instance>) returns (r: Result<Scan>)
    ensures r == ScanAll(reg, ty, reqs, objects)
  {
    var order: seq<Value> := [];
    var copies: map<Value, Instance> := map[];
    var fanIn := NoFanIn(reqs);
    var n := 0;
    while n < |objects|
      invariant n <= |objects|
      invariant ScanAll(reg, ty, reqs, objects[..n]) == Ok(Scan(order, copies, fanIn))
    {
      ScanPrefixStep(reg, ty, reqs, objects, n);
      var o := objects[n];
      if o.ty != ty {
        ScanAllKeepsError(reg, ty, reqs, objects, n + 1);
        return Err(IncorrectModelType(ty));
      }
      var k := Key(reg, o);
      if k !in copies {
        order := order + [k];
        copies := copies[k := o];
        fanIn := IndexObject(reqs, fanIn, o, k);
      }
      n := n + 1;
    }
    assert objects[..n] == objects;
    return Ok(Scan(order, copies, fanIn));
  }

  /** The innermost loop, as written: set the fetched object x on every owner in ks. */
  method SetOwners(copies: map<Value, Instance>, f: string, ks: set<Value>, x: Instance) returns (r: map<Value, Instance>)
    requires ks <= copies.Keys
    ensures r == AssignOne(copies, f, ks, x)
  {
    r := copies;
    var remaining := ks;
    while remaining != {}
      invariant remaining <= ks
      invariant r.Keys == copies.Keys
      invariant forall k :: k in copies ==>
                  r[k] == if k in ks && k !in remaining then Set(copies[k], f, M(x)) else copies[k]
      decreases remaining
    {
      var k :| k in remaining;
      r := r[k := Set(r[k], f, M(x))];
      remaining := remaining - {k};
    }
  }

  /** The assignment loop over the fetched objects of one field, as written. */
  method AssignFetched(reg: Registry, copies: map<Value, Instance>, f: string, owners: map<Value, set<Value>>,
                       xs: seq<Instance>) returns (r: Result<map<Value, Instance>>)
    requires forall v :: v in owners ==> owners[v] <= copies.Keys
    ensures r == AssignAll(reg, copies, f, owners, xs)
  {
    var c := copies;
    var m := 0;
    while m < |xs|
      invariant m <= |xs|
      invariant AssignAll(reg, copies, f, owners, xs[..m]) == Ok(c)
    {
      assert xs[..m + 1][..m] == xs[..m];
      var x := xs[m];
      var kx := Key(reg, x);
      if kx !in owners {
        AssignAllKeepsError(reg, copies, f, owners, xs, m + 1);
        return Err(KeyNotFound);
      }
      c := SetOwners(c, f, owners[kx], x);
      m := m + 1;
    }
    assert xs[..m] == xs;
    return Ok(c);
  }

  /** One iteration of the fetch loop, as written. */
  method FetchOne(reg: Registry, acc: Accessors, req: Request, fi: FanIn, copies: map<Value, Instance>, h: nat)
    returns (out: Outcome<map<Value, Instance>>)
    requires Closed(reg) && Bound(reg, acc) && req.target in reg && Height(req.next) < h
    requires forall v :: v in fi.owners ==> fi.owners[v] <= copies.Keys
    ensures out == FetchField(reg, acc, req, fi, copies, h)
    decreases h, 0
  {
    var fetched := GetByKeys(reg, acc, req.target, fi.keys, req.next);
    if fetched.result.Err? {
      return Outcome(Err(fetched.result.error), fetched.calls);
    }
    var stored := AssignFetched(reg, copies, req.field, fi.owners, fetched.result.value);
    return Outcome(stored, fetched.calls);
  }

  /** The fetch loop of get_related_models, as written: one get_by_keys per requested field. */
  method FetchRelated(reg: Registry, acc: Accessors, reqs: seq<Request>, sc: Scan, h: nat)
    returns (out: Outcome<map<Value, Instance>>)
    requires Closed(reg) && Bound(reg, acc) && ScanWf(reqs, sc) && Below(reg, reqs, h)
    ensures out == FetchFields(reg, acc, reqs, sc, |reqs|, h)
    decreases h, 1
  {
    var copies := sc.copies;
    var calls: seq<Call> := [];
    var i := 0;
    while i < |reqs|
      invariant i <= |reqs|
      invariant FetchFields(reg, acc, reqs, sc, i, h) == Outcome(Ok(copies), calls)
    {
      var fetched := FetchOne(reg, acc, reqs[i], sc.fanIn[i], copies, h);
      FetchFieldsNext(reg, acc, reqs, sc, i, h, copies, calls, fetched);
      calls := calls + fetched.calls;
      if fetched.result.Err? {
        FetchFieldsKeepsError(reg, acc, reqs, sc, i + 1, |reqs|, h);
        return Outcome(fetched.result, calls);
      }
      copies := fetched.result.value;
      i := i + 1;
    }
    return Outcome(Ok(copies), calls);
  }

  /** list(new_objects.values()), as written. */
  method CollectCopies(order: seq<Value>, copies: map<Value, Instance>) returns (r: seq<Instance>)
    requires forall k :: k in order ==> k in copies
    ensures r == Collected(order, copies)
  {
    r := [];
    var j := 0;
    while j < |order|
      invariant j <= |order|
      invariant r == Collected(order[..j], copies)
    {
      r := r + [copies[order[j]]];
      j := j + 1;
    }
    assert order[..j] == order;
  }

  /** Model.get_related_models as written: validate, return early, scan, fetch, collect. */
  method GetRelatedModels(reg: Registry, acc: Accessors, ty: TypeName, objects: seq<Instance>, paths: seq<string>)
    returns (out: Outcome<seq<Instance>>)
    requires Closed(reg) && ty in reg && Bound(reg, acc)
    ensures out == Resolved(reg, acc, ty, objects, paths)
    decreases Height(paths), 2
  {
    var validated := GetValidatedRelationships(reg, ty, paths);
    if validated.Err? {
      return Outcome(Err(validated.error), []);
    }
    if objects == [] || paths == [] {
      return Outcome(Ok(objects), []);
    }
    var reqs := validated.value;
    var scan := ScanObjects(reg, ty, reqs, objects);
    if scan.Err? {
      return Outcome(Err(scan.error), []);
    }
    ValidatedBounds(reg, ty, paths);
    var fetched := FetchRelated(reg, acc, reqs, scan.value, Height(paths));
    if fetched.result.Err? {
      return Outcome(Err(fetched.result.error), fetched.calls);
    }
    var result := CollectCopies(scan.value.order, fetched.result.value);
    return Outcome(Ok(result), fetched.calls);
  }

  /** Model.get_by_keys as written. */
  method GetByKeys(reg: Registry, acc: Accessors, ty: TypeName, keys: seq<Value>, paths: seq<string>)
    returns (out: Outcome<seq<Instance>>)
    requires Closed(reg) && ty in reg && Bound(reg, acc)
    ensures out == FetchedByKeys(reg, acc, ty, keys, paths)
    decreases Height(paths), 3
  {
    if keys == [] {
      return Outcome(Ok([]), []);
    }
    var xs := acc[ty].getByKeys(keys);
    if xs.Err? {
      return Outcome(Err(xs.error), [ByKeys(ty, keys, [])]);
    }
    var resolved := GetRelatedModels(reg, acc, ty, xs.value, paths);
    return Outcome(resolved.result, [ByKeys(ty, keys, resolved.calls)]);
  }
}
