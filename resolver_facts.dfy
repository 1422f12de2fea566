/**
 * What get_related_models guarantees, stated against reference definitions: one copy per
 * distinct input key in first-occurrence order, one batched get_by_keys per requested field
 * with the distinct foreign keys, each fetched object written into every copy that refers
 * to it, nothing else changed, and nothing fetched before validation has passed.
 */
module ResolverFacts {
  import opened Values
  import opened Models
  import opened Paths
  import opened Validation
  import opened DataAccessor
  import opened Resolver

  /** Some object of objs has key k. */
  predicate HasKey(reg: Registry, objs: seq<Instance>, k: Value)
  {
    exists i :: 0 <= i < |objs| && Key(reg, objs[i]) == k
  }

  /** objs[i] is the first object of objs with its key. */
  predicate FirstOfKey(reg: Registry, objs: seq<Instance>, i: nat)
    requires i < |objs|
  {
    forall j :: 0 <= j < i ==> Key(reg, objs[j]) != Key(reg, objs[i])
  }

  /** Reference definition of the deduplication: the first object of each key, in order. */
  function Dedup(reg: Registry, objs: seq<Instance>): seq<Instance>
  {
    if objs == [] then []
    else
      var d := Dedup(reg, objs[..|objs| - 1]);
      var o := objs[|objs| - 1];
      if HasKey(reg, d, Key(reg, o)) then d else d + [o]
  }

  /** One step of the deduplication: the last object is kept exactly when its key is new. */
  lemma {:induction false} DedupStep(reg: Registry, objs: seq<Instance>)
    requires objs != []
    ensures var d := Dedup(reg, objs[..|objs| - 1]); var o := objs[|objs| - 1];
      Dedup(reg, objs) == if HasKey(reg, d, Key(reg, o)) then d else d + [o]
  {
  }

  /** A deduplication holds no two objects with the same key. */
  lemma {:induction false} DedupDistinct(reg: Registry, objs: seq<Instance>)
    ensures var d := Dedup(reg, objs);
      forall a, b :: 0 <= a < b < |d| ==> Key(reg, d[a]) != Key(reg, d[b])
  {
    if objs != [] {
      DedupDistinct(reg, objs[..|objs| - 1]);
      DedupStep(reg, objs);
    }
  }

  /** The keys of s + [o] are those of s and the key of o. */
  lemma {:induction false} HasKeySnoc(reg: Registry, s: seq<Instance>, o: Instance, k: Value)
    ensures HasKey(reg, s + [o], k) <==> HasKey(reg, s, k) || Key(reg, o) == k
  {
    if HasKey(reg, s, k) {
      var j :| 0 <= j < |s| && Key(reg, s[j]) == k;
      assert (s + [o])[j] == s[j];
    }
    if HasKey(reg, s + [o], k) && Key(reg, o) != k {
      var j :| 0 <= j < |s| + 1 && Key(reg, (s + [o])[j]) == k;
      assert j < |s| && (s + [o])[j] == s[j];
    }
    assert (s + [o])[|s|] == o;
  }

  /** A deduplication loses no key and adds none. */
  lemma {:induction false} DedupKeys(reg: Registry, objs: seq<Instance>, k: Value)
    ensures HasKey(reg, Dedup(reg, objs), k) <==> HasKey(reg, objs, k)
  {
    if objs != [] {
      var p := objs[..|objs| - 1];
      var o := objs[|objs| - 1];
      DedupKeys(reg, p, k);
      DedupStep(reg, objs);
      DedupKeys(reg, p, Key(reg, o));
      assert objs == p + [o];
      HasKeySnoc(reg, p, o, k);
      HasKeySnoc(reg, Dedup(reg, p), o, k);
    }
  }

  /** Every object a deduplication keeps is the first input object of its key. */
  lemma {:induction false} DedupFirst(reg: Registry, objs: seq<Instance>, j: nat)
    requires j < |Dedup(reg, objs)|
    ensures exists i :: 0 <= i < |objs| && objs[i] == Dedup(reg, objs)[j] && FirstOfKey(reg, objs, i)
  {
    var p := objs[..|objs| - 1];
    var o := objs[|objs| - 1];
    DedupStep(reg, objs);
    var d := Dedup(reg, p);
    if j < |d| {
      DedupFirst(reg, p, j);
      var i :| 0 <= i < |p| && p[i] == d[j] && FirstOfKey(reg, p, i);
      assert objs[i] == p[i] && Dedup(reg, objs)[j] == d[j];
      assert FirstOfKey(reg, objs, i) by {
        forall i' | 0 <= i' < i ensures Key(reg, objs[i']) != Key(reg, objs[i]) {
          assert objs[i'] == p[i'];
        }
      }
    } else {
      DedupKeys(reg, p, Key(reg, o));
      assert FirstOfKey(reg, objs, |objs| - 1) by {
        forall i' | 0 <= i' < |objs| - 1 ensures Key(reg, objs[i']) != Key(reg, o) {
          assert objs[i'] == p[i'];
        }
      }
    }
  }

  /** Reference fan-in of field f: AddOwner over the deduplicated objects, one at a time. */
  function FanInOf(reg: Registry, f: string, d: seq<Instance>): FanIn
  {
    if d == [] then FanIn([], map[])
    else AddOwner(FanInOf(reg, f, d[..|d| - 1]), Get(d[|d| - 1], f), Key(reg, d[|d| - 1]))
  }

  /** Some object of d holds v in field f. */
  predicate HasValue(d: seq<Instance>, f: string, v: Value)
  {
    exists j :: 0 <= j < |d| && Get(d[j], f) == v
  }

  /** Some object of d with key k holds v in field f. */
  predicate Holds(reg: Registry, d: seq<Instance>, f: string, v: Value, k: Value)
  {
    exists j :: 0 <= j < |d| && Key(reg, d[j]) == k && Get(d[j], f) == v
  }

  /** The values of field f in s + [o] are those in s and the one in o. */
  lemma {:induction false} HasValueSnoc(s: seq<Instance>, o: Instance, f: string, v: Value)
    ensures HasValue(s + [o], f, v) <==> HasValue(s, f, v) || Get(o, f) == v
  {
    if HasValue(s, f, v) {
      var j :| 0 <= j < |s| && Get(s[j], f) == v;
      assert (s + [o])[j] == s[j];
    }
    if HasValue(s + [o], f, v) && Get(o, f) != v {
      var j :| 0 <= j < |s| + 1 && Get((s + [o])[j], f) == v;
      assert j < |s| && (s + [o])[j] == s[j];
    }
    assert (s + [o])[|s|] == o;
  }

  /** The key and field f pairs of s + [o] are those of s and the one of o. */
  lemma {:induction false} HoldsSnoc(reg: Registry, s: seq<Instance>, o: Instance, f: string, v: Value, k: Value)
    ensures Holds(reg, s + [o], f, v, k) <==> Holds(reg, s, f, v, k) || (Key(reg, o) == k && Get(o, f) == v)
  {
    if Holds(reg, s, f, v, k) {
      var j :| 0 <= j < |s| && Key(reg, s[j]) == k && Get(s[j], f) == v;
      assert (s + [o])[j] == s[j];
    }
    if Holds(reg, s + [o], f, v, k) && !(Key(reg, o) == k && Get(o, f) == v) {
      var j :| 0 <= j < |s| + 1 && Key(reg, (s + [o])[j]) == k && Get((s + [o])[j], f) == v;
      assert j < |s| && (s + [o])[j] == s[j];
    }
    assert (s + [o])[|s|] == o;
  }

  /** Holding a value in field f means holding it, whatever the key. */
  lemma {:induction false} HoldsHasValue(reg: Registry, d: seq<Instance>, f: string, v: Value, k: Value)
    requires Holds(reg, d, f, v, k)
    ensures HasValue(d, f, v)
  {
  }

  /** The batch keys of field f are the foreign keys d holds there, minus None and models, and are the owners' keys. */
  lemma {:induction false} FanInKeys(reg: Registry, f: string, d: seq<Instance>, v: Value)
    ensures var fi := FanInOf(reg, f, d);
      (v in fi.keys <==> Followable(v) && HasValue(d, f, v)) &&
      (v in fi.owners <==> v in fi.keys)
  {
    if d != [] {
      var p := d[..|d| - 1];
      var o := d[|d| - 1];
      FanInKeys(reg, f, p, v);
      assert d == p + [o];
      HasValueSnoc(p, o, f, v);
    }
  }

  /** The batch keys of field f are distinct. */
  lemma {:induction false} FanInDistinct(reg: Registry, f: string, d: seq<Instance>)
    ensures var ks := FanInOf(reg, f, d).keys; forall a, b :: 0 <= a < b < |ks| ==> ks[a] != ks[b]
  {
    if d != [] {
      var p := d[..|d| - 1];
      FanInDistinct(reg, f, p);
      FanInKeys(reg, f, p, Get(d[|d| - 1], f));
    }
  }

  /** AddOwner adds k to the owners of a followable v and changes nothing else. */
  lemma {:induction false} AddOwnerOwners(fi: FanIn, u: Value, k: Value, v: Value)
    ensures var r := AddOwner(fi, u, k);
      (v in r.owners <==> v in fi.owners || (Followable(u) && u == v)) &&
      (v in r.owners ==>
         r.owners[v] == (if v in fi.owners then fi.owners[v] else {}) + (if Followable(u) && u == v then {k} else {}))
  {
  }

  /** The owners of a batch key of field f are exactly the keys of the objects holding it there. */
  lemma {:induction false} FanInOwners(reg: Registry, f: string, d: seq<Instance>, v: Value, k: Value)
    requires v in FanInOf(reg, f, d).owners
    ensures k in FanInOf(reg, f, d).owners[v] <==> Holds(reg, d, f, v, k)
  {
    var p := d[..|d| - 1];
    var o := d[|d| - 1];
    assert d == p + [o];
    var prev := FanInOf(reg, f, p);
    assert FanInOf(reg, f, d) == AddOwner(prev, Get(o, f), Key(reg, o));
    AddOwnerOwners(prev, Get(o, f), Key(reg, o), v);
    HoldsSnoc(reg, p, o, f, v, k);
    FanInKeys(reg, f, p, v);
    if v in prev.owners {
      FanInOwners(reg, f, p, v, k);
    } else {
      if Holds(reg, p, f, v, k) {
        HoldsHasValue(reg, p, f, v, k);
      }
    }
  }

  /** One step of the scan over a well-typed object: it is copied and indexed exactly when its key is new. */
  lemma {:induction false} ScanAllStep(reg: Registry, ty: TypeName, reqs: seq<Request>, objs: seq<Instance>)
    requires objs != [] && ScanAll(reg, ty, reqs, objs).Ok?
    ensures var sc := ScanAll(reg, ty, reqs, objs[..|objs| - 1]); var o := objs[|objs| - 1]; var k := Key(reg, o);
      sc.Ok? && o.ty == ty &&
      ScanAll(reg, ty, reqs, objs).value ==
        if k in sc.value.copies then sc.value
        else Scan(sc.value.order + [k], sc.value.copies[k := o], Enter(reqs, sc.value.fanIn, o, k))
  {
  }

  /**
   * The scan visits each distinct key once: its order is the keys of the deduplicated
   * objects, each copy is the first object of its key, and the fan-in of every field is
   * the one built over the deduplicated objects.
   */
  lemma {:induction false} ScanAllDedup(reg: Registry, ty: TypeName, reqs: seq<Request>, objs: seq<Instance>)
    requires ScanAll(reg, ty, reqs, objs).Ok?
    ensures var sc := ScanAll(reg, ty, reqs, objs).value; var d := Dedup(reg, objs);
      |sc.order| == |d| &&
      (forall j :: 0 <= j < |d| ==> sc.order[j] == Key(reg, d[j]) && sc.copies[sc.order[j]] == d[j]) &&
      sc.copies.Keys == (set k | k in sc.order) &&
      (forall i :: 0 <= i < |reqs| ==> sc.fanIn[i] == FanInOf(reg, reqs[i].field, d))
  {
    ScanAllOrder(reg, ty, reqs, objs);
    ScanAllFanIn(reg, ty, reqs, objs);
  }

  /** The scan's order and copies are the keys and objects of the deduplication. */
  lemma {:induction false} ScanAllOrder(reg: Registry, ty: TypeName, reqs: seq<Request>, objs: seq<Instance>)
    requires ScanAll(reg, ty, reqs, objs).Ok?
    ensures var sc := ScanAll(reg, ty, reqs, objs).value; var d := Dedup(reg, objs);
      |sc.order| == |d| &&
      (forall j :: 0 <= j < |d| ==> sc.order[j] == Key(reg, d[j]) && sc.copies[sc.order[j]] == d[j]) &&
      sc.copies.Keys == (set k | k in sc.order)
  {
    if objs != [] {
      var p := objs[..|objs| - 1];
      var o := objs[|objs| - 1];
      ScanAllOrder(reg, ty, reqs, p);
      ScanAllStep(reg, ty, reqs, objs);
      DedupStep(reg, objs);
      var sc := ScanAll(reg, ty, reqs, p).value;
      var d := Dedup(reg, p);
      var k := Key(reg, o);
      ScanNewKey(reg, sc, d, k);
      if k !in sc.copies {
        var d' := d + [o];
        var sc' := ScanAll(reg, ty, reqs, objs).value;
        forall j | 0 <= j < |d'|
          ensures sc'.order[j] == Key(reg, d'[j]) && sc'.copies[sc'.order[j]] == d'[j]
        {
          if j < |d| {
            assert d'[j] == d[j];
          }
        }
      }
    }
  }

  /** With the scan's order the keys of d, a key is among the copies exactly when d holds it. */
  lemma {:induction false} ScanNewKey(reg: Registry, sc: Scan, d: seq<Instance>, k: Value)
    requires |sc.order| == |d| && forall j :: 0 <= j < |d| ==> sc.order[j] == Key(reg, d[j])
    requires sc.copies.Keys == (set k | k in sc.order)
    ensures HasKey(reg, d, k) <==> k in sc.copies
  {
    if k in sc.copies {
      var j :| 0 <= j < |sc.order| && sc.order[j] == k;
    }
  }

  /** The scan's fan-in of every field is the one built over the deduplication. */
  lemma {:induction false} ScanAllFanIn(reg: Registry, ty: TypeName, reqs: seq<Request>, objs: seq<Instance>)
    requires ScanAll(reg, ty, reqs, objs).Ok?
    ensures var sc := ScanAll(reg, ty, reqs, objs).value; var d := Dedup(reg, objs);
      forall i :: 0 <= i < |reqs| ==> sc.fanIn[i] == FanInOf(reg, reqs[i].field, d)
  {
    if objs != [] {
      var p := objs[..|objs| - 1];
      var o := objs[|objs| - 1];
      ScanAllFanIn(reg, ty, reqs, p);
      ScanAllOrder(reg, ty, reqs, p);
      ScanAllStep(reg, ty, reqs, objs);
      DedupStep(reg, objs);
      var sc := ScanAll(reg, ty, reqs, p).value;
      var d := Dedup(reg, p);
      var k := Key(reg, o);
      ScanNewKey(reg, sc, d, k);
      if k !in sc.copies {
        var d' := d + [o];
        assert d'[..|d'| - 1] == d;
      }
    }
  }

  /** The last fetched object with key v: the one whose assignment no later one overwrites. */
  function LastWithKey(reg: Registry, xs: seq<Instance>, v: Value): (r: Option<Instance>)
    ensures r.Some? ==> r.value in xs && Key(reg, r.value) == v
  {
    if xs == [] then None
    else if Key(reg, xs[|xs| - 1]) == v then Some(xs[|xs| - 1])
    else LastWithKey(reg, xs[..|xs| - 1], v)
  }

  /**
   * Reference definition of the join: the value a field holding v ends up with once the
   * objects xs were fetched for it. None and models stay; a foreign key becomes the fetched
   * object with that key, and stays as it is when none came back.
   */
  function JoinValue(reg: Registry, xs: seq<Instance>, v: Value): Value
  {
    if !Followable(v) then v
    else match LastWithKey(reg, xs, v)
      case None => v
      case Some(x) => M(x)
  }

  /** One step of the assignment loop over the fetched objects. */
  lemma {:induction false} AssignAllStep(reg: Registry, copies: map<Value, Instance>, f: string,
                      owners: map<Value, set<Value>>, xs: seq<Instance>)
    requires xs != []
    ensures var prev := AssignAll(reg, copies, f, owners, xs[..|xs| - 1]); var x := xs[|xs| - 1];
      AssignAll(reg, copies, f, owners, xs) ==
        if prev.Err? then prev
        else if Key(reg, x) !in owners then Err(KeyNotFound)
        else Ok(AssignOne(prev.value, f, owners[Key(reg, x)], x))
  {
  }

  /** The assignment loop succeeds exactly when every fetched key was asked for; otherwise it raises KeyError. */
  lemma {:induction false} AssignAllSucceeds(reg: Registry, copies: map<Value, Instance>, f: string,
                                             owners: map<Value, set<Value>>, xs: seq<Instance>)
    ensures AssignAll(reg, copies, f, owners, xs).Ok? <==> forall i :: 0 <= i < |xs| ==> Key(reg, xs[i]) in owners
    ensures AssignAll(reg, copies, f, owners, xs).Err? ==> AssignAll(reg, copies, f, owners, xs).error == KeyNotFound
  {
    if xs != [] {
      var p := xs[..|xs| - 1];
      var x := xs[|xs| - 1];
      AssignAllSucceeds(reg, copies, f, owners, p);
      AssignAllStep(reg, copies, f, owners, xs);
      assert xs == p + [x];
      assert (forall i :: 0 <= i < |xs| ==> Key(reg, xs[i]) in owners) <==>
             (forall i :: 0 <= i < |p| ==> Key(reg, p[i]) in owners) && Key(reg, x) in owners;
    }
  }

  /** Setting a field twice keeps the second value only. */
  lemma {:induction false} SetSet(o: Instance, f: string, a: Value, b: Value)
    ensures Set(Set(o, f, a), f, b) == Set(o, f, b)
  {
    assert o.fields[f := a][f := b] == o.fields[f := b];
  }

  /**
   * The effect of the assignment loop on the copy with key k, whose field f holds v: it ends
   * up holding the last fetched object with key v when k owns v, and is left alone otherwise.
   */
  lemma {:induction false} AssignAllEffect(reg: Registry, copies: map<Value, Instance>, f: string,
                                           owners: map<Value, set<Value>>, xs: seq<Instance>, k: Value, v: Value)
    requires AssignAll(reg, copies, f, owners, xs).Ok? && k in copies
    requires forall u :: u in owners && k in owners[u] ==> u == v
    ensures AssignAll(reg, copies, f, owners, xs).value[k] ==
      if v in owners && k in owners[v] && LastWithKey(reg, xs, v).Some?
      then Set(copies[k], f, M(LastWithKey(reg, xs, v).value))
      else copies[k]
  {
    if xs != [] {
      var p := xs[..|xs| - 1];
      var x := xs[|xs| - 1];
      AssignAllStep(reg, copies, f, owners, xs);
      AssignAllEffect(reg, copies, f, owners, p, k, v);
      var c := AssignAll(reg, copies, f, owners, p).value;
      var kx := Key(reg, x);
      if k in owners[kx] {
        assert kx == v;
        if v in owners && k in owners[v] && LastWithKey(reg, p, v).Some? {
          SetSet(copies[k], f, M(LastWithKey(reg, p, v).value), M(x));
        }
      }
    }
  }

  /** Requested fields are pairwise different. */
  ghost predicate FieldsDistinct(reqs: seq<Request>)
  {
    forall a, b :: 0 <= a < b < |reqs| ==> reqs[a].field != reqs[b].field
  }

  /**
   * The fan-in of one field records exactly what the copy with key k holds there: only
   * followable values have owners, k owns nothing but v, and k owns v when v is followable.
   */
  ghost predicate OwnedAt(owners: map<Value, set<Value>>, k: Value, v: Value)
  {
    (forall u :: u in owners ==> Followable(u)) &&
    (forall u :: u in owners && k in owners[u] ==> u == v) &&
    (Followable(v) ==> v in owners && k in owners[v])
  }

  /** One step of the fetch loop that went through: the previous fields and this one succeeded. */
  lemma {:induction false} FetchFieldsStep(reg: Registry, acc: Accessors, reqs: seq<Request>, sc: Scan, n: nat, h: nat)
    requires Closed(reg) && Bound(reg, acc) && 0 < n <= |reqs| && ScanWf(reqs, sc) && Below(reg, reqs, h)
    requires FetchFields(reg, acc, reqs, sc, n, h).result.Ok?
    ensures var prev := FetchFields(reg, acc, reqs, sc, n - 1, h);
      var fetched := FetchedByKeys(reg, acc, reqs[n - 1].target, sc.fanIn[n - 1].keys, reqs[n - 1].next);
      prev.result.Ok? && fetched.result.Ok? &&
      FetchFields(reg, acc, reqs, sc, n, h) ==
        Outcome(AssignAll(reg, prev.result.value, reqs[n - 1].field, sc.fanIn[n - 1].owners, fetched.result.value),
                prev.calls + fetched.calls)
  {
  }

  /**
   * One field's assignment loop, seen from the copy with key k: field f becomes the join of
   * the value v the copy held there, and the class and every other field stay.
   */
  lemma {:induction false} JoinStep(reg: Registry, prev: map<Value, Instance>, f: string, owners: map<Value, set<Value>>,
                 xs: seq<Instance>, k: Value, v: Value)
    requires AssignAll(reg, prev, f, owners, xs).Ok? && k in prev && Get(prev[k], f) == v
    requires OwnedAt(owners, k, v)
    ensures var c := AssignAll(reg, prev, f, owners, xs).value[k];
      c.ty == prev[k].ty && Get(c, f) == JoinValue(reg, xs, v) &&
      forall g :: g != f ==> Get(c, g) == Get(prev[k], g)
  {
    AssignAllEffect(reg, prev, f, owners, xs, k, v);
  }

  /** The assignment loop of field f keeps the class of every copy and every other field. */
  lemma {:induction false} AssignAllFrame(reg: Registry, copies: map<Value, Instance>, f: string,
                                          owners: map<Value, set<Value>>, xs: seq<Instance>, k: Value, g: string)
    requires AssignAll(reg, copies, f, owners, xs).Ok? && k in copies
    ensures var c := AssignAll(reg, copies, f, owners, xs).value[k];
      c.ty == copies[k].ty && (g != f ==> Get(c, g) == Get(copies[k], g))
  {
    if xs != [] {
      AssignAllStep(reg, copies, f, owners, xs);
      AssignAllFrame(reg, copies, f, owners, xs[..|xs| - 1], k, g);
    }
  }

  /** The fetch loop over the first n fields keeps the class of every copy. */
  lemma {:induction false} FetchFieldsClass(reg: Registry, acc: Accessors, reqs: seq<Request>, sc: Scan,
                                            n: nat, h: nat, k: Value)
    requires Closed(reg) && Bound(reg, acc) && n <= |reqs| && ScanWf(reqs, sc) && Below(reg, reqs, h)
    requires k in sc.copies && FetchFields(reg, acc, reqs, sc, n, h).result.Ok?
    ensures FetchFields(reg, acc, reqs, sc, n, h).result.value[k].ty == sc.copies[k].ty
  {
    if n > 0 {
      FetchFieldsClassStep(reg, acc, reqs, sc, n, h, k);
      FetchFieldsClass(reg, acc, reqs, sc, n - 1, h, k);
    }
  }

  /** One step of the fetch loop keeps the class of every copy. */
  lemma {:induction false} FetchFieldsClassStep(reg: Registry, acc: Accessors, reqs: seq<Request>, sc: Scan,
                                                n: nat, h: nat, k: Value)
    requires Closed(reg) && Bound(reg, acc) && 0 < n <= |reqs| && ScanWf(reqs, sc) && Below(reg, reqs, h)
    requires k in sc.copies && FetchFields(reg, acc, reqs, sc, n, h).result.Ok?
    ensures FetchFields(reg, acc, reqs, sc, n - 1, h).result.Ok?
    ensures FetchFields(reg, acc, reqs, sc, n, h).result.value[k].ty ==
            FetchFields(reg, acc, reqs, sc, n - 1, h).result.value[k].ty
  {
    FetchFieldsStep(reg, acc, reqs, sc, n, h);
    var req := reqs[n - 1];
    var fi := sc.fanIn[n - 1];
    var xs := FetchedByKeys(reg, acc, req.target, fi.keys, req.next).result.value;
    AssignAllFrame(reg, FetchFields(reg, acc, reqs, sc, n - 1, h).result.value, req.field, fi.owners, xs, k, req.field);
  }

  /** The fetch loop over the first n fields keeps the class of every copy and each field none of them names. */
  lemma {:induction false} FetchFieldsFrame(reg: Registry, acc: Accessors, reqs: seq<Request>, sc: Scan,
                                            n: nat, h: nat, k: Value, g: string)
    requires Closed(reg) && Bound(reg, acc) && n <= |reqs| && ScanWf(reqs, sc) && Below(reg, reqs, h)
    requires k in sc.copies && forall i :: 0 <= i < n ==> reqs[i].field != g
    requires FetchFields(reg, acc, reqs, sc, n, h).result.Ok?
    ensures Get(FetchFields(reg, acc, reqs, sc, n, h).result.value[k], g) == Get(sc.copies[k], g)
  {
    if n > 0 {
      FetchFieldsFrameStep(reg, acc, reqs, sc, n, h, k, g);
      FetchFieldsFrame(reg, acc, reqs, sc, n - 1, h, k, g);
    }
  }

  /** The n-th field of the copy with key k, once the fetch loop reached it, holds its join. */
  lemma {:induction false} FetchFieldsJoinLast(reg: Registry, acc: Accessors, reqs: seq<Request>, sc: Scan, n: nat, h: nat, k: Value)
    requires Closed(reg) && Bound(reg, acc) && 0 < n <= |reqs| && ScanWf(reqs, sc) && Below(reg, reqs, h)
    requires FieldsDistinct(reqs) && k in sc.copies
    requires OwnedAt(sc.fanIn[n - 1].owners, k, Get(sc.copies[k], reqs[n - 1].field))
    requires FetchFields(reg, acc, reqs, sc, n, h).result.Ok?
    ensures var fetched := FetchedByKeys(reg, acc, reqs[n - 1].target, sc.fanIn[n - 1].keys, reqs[n - 1].next);
      fetched.result.Ok? &&
      Get(FetchFields(reg, acc, reqs, sc, n, h).result.value[k], reqs[n - 1].field) ==
        JoinValue(reg, fetched.result.value, Get(sc.copies[k], reqs[n - 1].field))
  {
    FetchFieldsStep(reg, acc, reqs, sc, n, h);
    var req := reqs[n - 1];
    var fi := sc.fanIn[n - 1];
    var v := Get(sc.copies[k], req.field);
    var xs := FetchedByKeys(reg, acc, req.target, fi.keys, req.next).result.value;
    var prev := FetchFields(reg, acc, reqs, sc, n - 1, h).result.value;
    assert forall i :: 0 <= i < n - 1 ==> reqs[i].field != req.field by {
      forall i | 0 <= i < n - 1 ensures reqs[i].field != req.field {
        assert i < n - 1 < |reqs|;
      }
    }
    FetchFieldsFrame(reg, acc, reqs, sc, n - 1, h, k, req.field);
    JoinStep(reg, prev, req.field, fi.owners, xs, k, v);
  }

  /** One step of the fetch loop leaves every field but the n-th one's of every copy as it was. */
  lemma {:induction false} FetchFieldsFrameStep(reg: Registry, acc: Accessors, reqs: seq<Request>, sc: Scan, n: nat, h: nat,
                             k: Value, g: string)
    requires Closed(reg) && Bound(reg, acc) && 0 < n <= |reqs| && ScanWf(reqs, sc) && Below(reg, reqs, h)
    requires k in sc.copies && g != reqs[n - 1].field
    requires FetchFields(reg, acc, reqs, sc, n, h).result.Ok?
    ensures FetchFields(reg, acc, reqs, sc, n - 1, h).result.Ok?
    ensures Get(FetchFields(reg, acc, reqs, sc, n, h).result.value[k], g) ==
            Get(FetchFields(reg, acc, reqs, sc, n - 1, h).result.value[k], g)
  {
    FetchFieldsStep(reg, acc, reqs, sc, n, h);
    var req := reqs[n - 1];
    var fi := sc.fanIn[n - 1];
    var xs := FetchedByKeys(reg, acc, req.target, fi.keys, req.next).result.value;
    AssignAllFrame(reg, FetchFields(reg, acc, reqs, sc, n - 1, h).result.value, req.field, fi.owners, xs, k, g);
  }

  /**
   * After the fetch loop over the first n fields, requested field i of the copy with key k
   * holds the join of its original value with the objects that field's get_by_keys returned.
   */
  lemma {:induction false} FetchFieldsJoin(reg: Registry, acc: Accessors, reqs: seq<Request>, sc: Scan,
                                           n: nat, h: nat, k: Value, i: nat)
    requires Closed(reg) && Bound(reg, acc) && i < n <= |reqs| && ScanWf(reqs, sc) && Below(reg, reqs, h)
    requires FieldsDistinct(reqs) && k in sc.copies
    requires OwnedAt(sc.fanIn[i].owners, k, Get(sc.copies[k], reqs[i].field))
    requires FetchFields(reg, acc, reqs, sc, n, h).result.Ok?
    ensures var fetched := FetchedByKeys(reg, acc, reqs[i].target, sc.fanIn[i].keys, reqs[i].next);
      fetched.result.Ok? &&
      Get(FetchFields(reg, acc, reqs, sc, n, h).result.value[k], reqs[i].field) ==
        JoinValue(reg, fetched.result.value, Get(sc.copies[k], reqs[i].field))
  {
    if i < n - 1 {
      FetchFieldsFrameStep(reg, acc, reqs, sc, n, h, k, reqs[i].field);
      FetchFieldsJoin(reg, acc, reqs, sc, n - 1, h, k, i);
    } else {
      FetchFieldsJoinLast(reg, acc, reqs, sc, n, h, k);
    }
  }

  /** After the scan, the fan-in of every field records exactly what each copy holds there. */
  lemma {:induction false} ScanOwned(reg: Registry, ty: TypeName, reqs: seq<Request>, objs: seq<Instance>, i: nat, k: Value)
    requires ScanAll(reg, ty, reqs, objs).Ok? && i < |reqs| && k in ScanAll(reg, ty, reqs, objs).value.copies
    ensures var sc := ScanAll(reg, ty, reqs, objs).value;
      OwnedAt(sc.fanIn[i].owners, k, Get(sc.copies[k], reqs[i].field))
  {
    var sc := ScanAll(reg, ty, reqs, objs).value;
    var d := Dedup(reg, objs);
    var f := reqs[i].field;
    ScanAllDedup(reg, ty, reqs, objs);
    DedupDistinct(reg, objs);
    var j :| 0 <= j < |sc.order| && sc.order[j] == k;
    var o := d[j];
    assert sc.copies[k] == o && Key(reg, o) == k;
    var fi := FanInOf(reg, f, d);
    forall u | u in fi.owners ensures Followable(u) {
      FanInKeys(reg, f, d, u);
    }
    forall u | u in fi.owners && k in fi.owners[u] ensures u == Get(o, f) {
      FanInOwners(reg, f, d, u, k);
      var j' :| 0 <= j' < |d| && Key(reg, d[j']) == k && Get(d[j'], f) == u;
      assert j' == j;
    }
    var v := Get(o, f);
    if Followable(v) {
      FanInKeys(reg, f, d, v);
      assert HasValue(d, f, v);
      assert Holds(reg, d, f, v, k);
      FanInOwners(reg, f, d, v, k);
    }
  }

  /**
   * A resolution that succeeds on objects and paths: validation passed, the scan passed,
   * the fetch loop over every requested field went through, and the result is its copies.
   */
  lemma {:induction false} ResolvedSteps(reg: Registry, acc: Accessors, ty: TypeName, objects: seq<Instance>, paths: seq<string>)
    requires Closed(reg) && ty in reg && Bound(reg, acc) && objects != [] && paths != []
    requires Resolved(reg, acc, ty, objects, paths).result.Ok?
    ensures Validated(reg, ty, paths).Ok?
    ensures var reqs := Validated(reg, ty, paths).value; var scan := ScanAll(reg, ty, reqs, objects);
      scan.Ok? && Below(reg, reqs, Height(paths)) && FieldsDistinct(reqs) &&
      FetchFields(reg, acc, reqs, scan.value, |reqs|, Height(paths)).result.Ok? &&
      Resolved(reg, acc, ty, objects, paths).result.value ==
        Collected(scan.value.order, FetchFields(reg, acc, reqs, scan.value, |reqs|, Height(paths)).result.value) &&
      Resolved(reg, acc, ty, objects, paths).calls ==
        FetchFields(reg, acc, reqs, scan.value, |reqs|, Height(paths)).calls
  {
    ValidatedBounds(reg, ty, paths);
    NormalizeGrouped(reg, ty, paths);
  }

  /** get_related_models returns one object per distinct input key, in first-occurrence order, of the same class. */
  lemma {:induction false} ResolvedDedup(reg: Registry, acc: Accessors, ty: TypeName, objects: seq<Instance>, paths: seq<string>)
    requires Closed(reg) && ty in reg && Bound(reg, acc) && objects != [] && paths != []
    requires Resolved(reg, acc, ty, objects, paths).result.Ok?
    ensures var out := Resolved(reg, acc, ty, objects, paths).result.value; var d := Dedup(reg, objects);
      |out| == |d| && forall j :: 0 <= j < |d| ==> out[j].ty == d[j].ty
  {
    ResolvedSteps(reg, acc, ty, objects, paths);
    var reqs := Validated(reg, ty, paths).value;
    var sc := ScanAll(reg, ty, reqs, objects).value;
    ScanAllDedup(reg, ty, reqs, objects);
    forall j | 0 <= j < |Dedup(reg, objects)|
      ensures Resolved(reg, acc, ty, objects, paths).result.value[j].ty == Dedup(reg, objects)[j].ty
    {
      FetchFieldsClass(reg, acc, reqs, sc, |reqs|, Height(paths), sc.order[j]);
    }
  }

  /**
   * Requested field i of the j-th returned object holds the join of what the j-th distinct
   * input object held there with the objects of that field's get_by_keys call, which was made
   * with the field's batch keys.
   */
  lemma {:induction false} ResolvedJoin(reg: Registry, acc: Accessors, ty: TypeName, objects: seq<Instance>, paths: seq<string>,
                     j: nat, i: nat)
    requires Closed(reg) && ty in reg && Bound(reg, acc) && objects != [] && paths != []
    requires Resolved(reg, acc, ty, objects, paths).result.Ok? && j < |Dedup(reg, objects)|
    requires Validated(reg, ty, paths).Ok? && i < |Validated(reg, ty, paths).value|
    ensures Validated(reg, ty, paths).value[i].target in reg
    ensures var req := Validated(reg, ty, paths).value[i]; var d := Dedup(reg, objects);
      var out := Resolved(reg, acc, ty, objects, paths).result.value;
      var fetched := FetchedByKeys(reg, acc, req.target, FanInOf(reg, req.field, d).keys, req.next);
      fetched.result.Ok? && j < |out| &&
      Get(out[j], req.field) == JoinValue(reg, fetched.result.value, Get(d[j], req.field))
  {
    ResolvedSteps(reg, acc, ty, objects, paths);
    var reqs := Validated(reg, ty, paths).value;
    var sc := ScanAll(reg, ty, reqs, objects).value;
    ScanAllDedup(reg, ty, reqs, objects);
    ScanOwned(reg, ty, reqs, objects, i, sc.order[j]);
    FetchFieldsJoin(reg, acc, reqs, sc, |reqs|, Height(paths), sc.order[j], i);
  }

  /** Every requested field is the head of one of the paths. */
  lemma {:induction false} RequestedHeads(reg: Registry, ty: TypeName, paths: seq<string>, g: string)
    requires Closed(reg) && ty in reg && Validated(reg, ty, paths).Ok?
    requires forall p :: p in paths ==> SplitPath(p).0 != g
    ensures forall i :: 0 <= i < |Validated(reg, ty, paths).value| ==> Validated(reg, ty, paths).value[i].field != g
  {
    ValidatedBounds(reg, ty, paths);
    NormalizeGrouped(reg, ty, paths);
    var reqs := Validated(reg, ty, paths).value;
    forall i | 0 <= i < |reqs| ensures reqs[i].field != g {
      var p :| p in paths && SplitPath(p).0 == reqs[i].field;
    }
  }

  /** A field no path starts with is the same in the j-th returned object as in the j-th distinct input object. */
  lemma {:induction false} ResolvedFrame(reg: Registry, acc: Accessors, ty: TypeName, objects: seq<Instance>, paths: seq<string>,
                      j: nat, g: string)
    requires Closed(reg) && ty in reg && Bound(reg, acc) && objects != [] && paths != []
    requires Resolved(reg, acc, ty, objects, paths).result.Ok? && j < |Dedup(reg, objects)|
    requires forall p :: p in paths ==> SplitPath(p).0 != g
    ensures var out := Resolved(reg, acc, ty, objects, paths).result.value;
      j < |out| && out[j].ty == Dedup(reg, objects)[j].ty && Get(out[j], g) == Get(Dedup(reg, objects)[j], g)
  {
    ResolvedSteps(reg, acc, ty, objects, paths);
    var reqs := Validated(reg, ty, paths).value;
    var sc := ScanAll(reg, ty, reqs, objects).value;
    ScanAllDedup(reg, ty, reqs, objects);
    RequestedHeads(reg, ty, paths, g);
    FetchFieldsFrame(reg, acc, reqs, sc, |reqs|, Height(paths), sc.order[j], g);
    FetchFieldsClass(reg, acc, reqs, sc, |reqs|, Height(paths), sc.order[j]);
  }

  /** The reference fan-in of every requested field over the objects d. */
  function FansOf(reg: Registry, reqs: seq<Request>, d: seq<Instance>): (r: seq<FanIn>)
    ensures |r| == |reqs| && forall i :: 0 <= i < |reqs| ==> r[i] == FanInOf(reg, reqs[i].field, d)
  {
    seq(|reqs|, i requires 0 <= i < |reqs| => FanInOf(reg, reqs[i].field, d))
  }

  /** The scan's fan-in is the reference fan-in over the deduplicated objects. */
  lemma {:induction false} ScanFans(reg: Registry, ty: TypeName, reqs: seq<Request>, objs: seq<Instance>)
    requires ScanAll(reg, ty, reqs, objs).Ok?
    ensures ScanAll(reg, ty, reqs, objs).value.fanIn == FansOf(reg, reqs, Dedup(reg, objs))
  {
    ScanAllDedup(reg, ty, reqs, objs);
  }

  /** What a call log says at its top level: the class of each call, and the keys of a get_by_keys. */
  function Head(c: Call): (TypeName, seq<Value>)
  {
    match c
    case ByKeys(t, ks, _) => (t, ks)
    case Page(t, _, _, _) => (t, [])
  }

  function Heads(calls: seq<Call>): (r: seq<(TypeName, seq<Value>)>)
    ensures |r| == |calls|
  {
    seq(|calls|, j requires 0 <= j < |calls| => Head(calls[j]))
  }

  lemma {:induction false} HeadsAppend(a: seq<Call>, b: seq<Call>)
    ensures Heads(a + b) == Heads(a) + Heads(b)
  {
    assert forall j :: 0 <= j < |a| + |b| ==> Heads(a + b)[j] == (Heads(a) + Heads(b))[j];
  }

  /**
   * Reference definition of the batching: for each of the first n requested fields that has
   * batch keys, in field order, one get_by_keys of its class with those keys.
   */
  function Issued(reqs: seq<Request>, fans: seq<FanIn>, n: nat): seq<(TypeName, seq<Value>)>
    requires n <= |reqs| && |fans| == |reqs|
  {
    if n == 0 then []
    else Issued(reqs, fans, n - 1) + (if fans[n - 1].keys == [] then [] else [(reqs[n - 1].target, fans[n - 1].keys)])
  }

  /** Model.get_by_keys makes no call at all for no keys, and otherwise exactly one get_by_keys call with them. */
  lemma {:induction false} FetchedByKeysCalls(reg: Registry, acc: Accessors, ty: TypeName, keys: seq<Value>, paths: seq<string>)
    requires Closed(reg) && ty in reg && Bound(reg, acc)
    ensures var out := FetchedByKeys(reg, acc, ty, keys, paths);
      (keys == [] ==> out == Outcome(Ok([]), [])) &&
      (keys != [] ==> |out.calls| == 1 && out.calls[0].ByKeys? && Head(out.calls[0]) == (ty, keys))
  {
  }

  /** The fetch loop over the first n fields makes exactly the batched calls of the reference, in order. */
  lemma {:induction false} FetchFieldsCalls(reg: Registry, acc: Accessors, reqs: seq<Request>, sc: Scan, n: nat, h: nat)
    requires Closed(reg) && Bound(reg, acc) && n <= |reqs| && ScanWf(reqs, sc) && Below(reg, reqs, h)
    requires FetchFields(reg, acc, reqs, sc, n, h).result.Ok?
    ensures var calls := FetchFields(reg, acc, reqs, sc, n, h).calls;
      Heads(calls) == Issued(reqs, sc.fanIn, n) && forall c :: c in calls ==> c.ByKeys?
  {
    if n > 0 {
      FetchFieldsStep(reg, acc, reqs, sc, n, h);
      FetchFieldsCalls(reg, acc, reqs, sc, n - 1, h);
      var req := reqs[n - 1];
      FetchedByKeysCalls(reg, acc, req.target, sc.fanIn[n - 1].keys, req.next);
      HeadsAppend(FetchFields(reg, acc, reqs, sc, n - 1, h).calls,
                  FetchedByKeys(reg, acc, req.target, sc.fanIn[n - 1].keys, req.next).calls);
    }
  }

  /**
   * A successful get_related_models makes, at its top level, exactly one get_by_keys per
   * requested field that has keys, in field order, with the field's class and batch keys.
   */
  lemma {:induction false} ResolvedCalls(reg: Registry, acc: Accessors, ty: TypeName, objects: seq<Instance>, paths: seq<string>)
    requires Closed(reg) && ty in reg && Bound(reg, acc) && objects != [] && paths != []
    requires Resolved(reg, acc, ty, objects, paths).result.Ok?
    ensures Validated(reg, ty, paths).Ok?
    ensures var reqs := Validated(reg, ty, paths).value; var d := Dedup(reg, objects);
      var calls := Resolved(reg, acc, ty, objects, paths).calls;
      Heads(calls) == Issued(reqs, FansOf(reg, reqs, d), |reqs|) &&
      forall c :: c in calls ==> c.ByKeys?
  {
    ResolvedSteps(reg, acc, ty, objects, paths);
    var reqs := Validated(reg, ty, paths).value;
    var sc := ScanAll(reg, ty, reqs, objects).value;
    ScanFans(reg, ty, reqs, objects);
    FetchFieldsCalls(reg, acc, reqs, sc, |reqs|, Height(paths));
  }

  /** The scan raises exactly when some object is of another class, and then IncorrectModelType. */
  lemma {:induction false} ScanAllFails(reg: Registry, ty: TypeName, reqs: seq<Request>, objs: seq<Instance>)
    ensures ScanAll(reg, ty, reqs, objs).Err? <==> exists i :: 0 <= i < |objs| && objs[i].ty != ty
    ensures ScanAll(reg, ty, reqs, objs).Err? ==> ScanAll(reg, ty, reqs, objs).error == IncorrectModelType(ty)
  {
    if objs != [] {
      var p := objs[..|objs| - 1];
      ScanAllFails(reg, ty, reqs, p);
      if exists i :: 0 <= i < |objs| && objs[i].ty != ty {
        var i :| 0 <= i < |objs| && objs[i].ty != ty;
        if i < |p| {
          assert p[i].ty != ty;
        }
      }
      if exists i :: 0 <= i < |p| && p[i].ty != ty {
        var i :| 0 <= i < |p| && p[i].ty != ty;
        assert objs[i].ty != ty;
      }
    }
  }

  /** Validation comes first: a path that does not validate fails the call before any fetch, even with no objects. */
  lemma {:induction false} ResolvedValidatesFirst(reg: Registry, acc: Accessors, ty: TypeName, objects: seq<Instance>, paths: seq<string>)
    requires Closed(reg) && ty in reg && Bound(reg, acc) && Validated(reg, ty, paths).Err?
    ensures Resolved(reg, acc, ty, objects, paths) == Outcome(Err(Validated(reg, ty, paths).error), [])
  {
  }

  /** No paths validate to no requests. */
  lemma {:induction false} ValidatedNoPaths(reg: Registry, ty: TypeName)
    requires Closed(reg) && ty in reg
    ensures Validated(reg, ty, []) == Ok([])
  {
  }

  /** With no paths, or valid paths and no objects, the input is returned as it is and nothing is fetched. */
  lemma {:induction false} ResolvedEarly(reg: Registry, acc: Accessors, ty: TypeName, objects: seq<Instance>, paths: seq<string>)
    requires Closed(reg) && ty in reg && Bound(reg, acc)
    requires paths == [] || (objects == [] && Validated(reg, ty, paths).Ok?)
    ensures Resolved(reg, acc, ty, objects, paths) == Outcome(Ok(objects), [])
  {
    ValidatedNoPaths(reg, ty);
  }

  /** With valid paths, an object of another class fails the call with IncorrectModelType before any fetch. */
  lemma {:induction false} ResolvedMixedTypes(reg: Registry, acc: Accessors, ty: TypeName, objects: seq<Instance>, paths: seq<string>)
    requires Closed(reg) && ty in reg && Bound(reg, acc) && paths != [] && Validated(reg, ty, paths).Ok?
    requires exists i :: 0 <= i < |objects| && objects[i].ty != ty
    ensures Resolved(reg, acc, ty, objects, paths) == Outcome(Err(IncorrectModelType(ty)), [])
  {
    ScanAllFails(reg, ty, Validated(reg, ty, paths).value, objects);
  }

  /** A single object deduplicates to itself. */
  lemma {:induction false} DedupOne(reg: Registry, o: Instance)
    ensures Dedup(reg, [o]) == [o]
  {
    assert [o][..0] == [];
  }

  /** obj.get_related(*paths) is the only object the resolution of [obj] returns, and makes its calls. */
  lemma {:induction false} GetRelatedSpec(reg: Registry, acc: Accessors, o: Instance, paths: seq<string>)
    requires Closed(reg) && o.ty in reg && Bound(reg, acc)
    ensures var out := Resolved(reg, acc, o.ty, [o], paths); var r := GetRelated(reg, acc, o, paths);
      r.calls == out.calls && (r.result.Ok? <==> out.result.Ok?) &&
      (out.result.Err? ==> r.result.error == out.result.error) &&
      (out.result.Ok? ==> out.result.value == [r.result.value])
    ensures paths == [] ==> GetRelated(reg, acc, o, paths) == Outcome(Ok(o), [])
  {
    ValidatedNoPaths(reg, o.ty);
    if paths != [] && Resolved(reg, acc, o.ty, [o], paths).result.Ok? {
      ResolvedDedup(reg, acc, o.ty, [o], paths);
      DedupOne(reg, o);
    }
  }

  /**
   * Model.get_by_key makes exactly one get_by_keys call with the single key, returns None when
   * it found nothing, and otherwise the first object found, resolved when paths were given.
   */
  lemma {:induction false} FetchedByKeySpec(reg: Registry, acc: Accessors, ty: TypeName, k: Value, paths: seq<string>)
    requires Closed(reg) && ty in reg && Bound(reg, acc)
    ensures var r := FetchedByKey(reg, acc, ty, k, paths); var found := acc[ty].getByKeys([k]);
      |r.calls| == 1 && Head(r.calls[0]) == (ty, [k]) &&
      (found.Err? ==> r.result == Err(found.error)) &&
      (found.Ok? && found.value == [] ==> r.result == Ok(None)) &&
      (found.Ok? && found.value != [] && paths == [] ==> r.result == Ok(Some(found.value[0]))) &&
      (found.Ok? && found.value != [] && paths != [] && found.value[0].ty == ty ==>
         var g := GetRelated(reg, acc, found.value[0], paths);
         r.calls == [ByKeys(ty, [k], g.calls)] &&
         (g.result.Ok? ==> r.result == Ok(Some(g.result.value))) &&
         (g.result.Err? ==> r.result == Err(g.result.error)))
  {
  }

  /**
   * Model.get makes one get call with the limit and offset as given, under which the
   * resolution of the page makes its calls; it returns the page resolved, or the first error.
   */
  lemma {:induction false} FetchedSpec(reg: Registry, acc: Accessors, ty: TypeName, limit: Option<int>, offset: Option<int>,
                                       paths: seq<string>)
    requires Closed(reg) && ty in reg && Bound(reg, acc)
    ensures var r := Fetched(reg, acc, ty, limit, offset, paths); var page := acc[ty].get(limit, offset);
      |r.calls| == 1 && r.calls[0].Page? && r.calls[0].ty == ty &&
      r.calls[0].limit == limit && r.calls[0].offset == offset &&
      (page.Err? ==> r == Outcome(Err(page.error), [Page(ty, limit, offset, [])])) &&
      (page.Ok? ==> var out := Resolved(reg, acc, ty, page.value, paths);
         r == Outcome(out.result, [Page(ty, limit, offset, out.calls)]))
    ensures acc[ty].get(limit, offset).Ok? && paths == [] ==>
      Fetched(reg, acc, ty, limit, offset, paths) ==
        Outcome(Ok(acc[ty].get(limit, offset).value), [Page(ty, limit, offset, [])])
  {
    if acc[ty].get(limit, offset).Ok? && paths == [] {
      ResolvedEarly(reg, acc, ty, acc[ty].get(limit, offset).value, paths);
    }
  }
}
