/**
 * The in-memory reference accessor (InMemoryJsonFileDataAccessor): records are kept raw
 * until the first access, which builds once an index from key to model object; pages are
 * slices of the index in insertion order, and key lookups keep request order and skip
 * unknown keys.
 */
module InMemoryJsonFile {
  import opened Values
  import opened Fields
  import opened Models
  import opened DataAccessor

  /** One JSON object of the data file: field name to raw value. */
  type Record = map<string, Raw>

  datatype IndexShape = Index(order: seq<Value>, byKey: map<Value, Instance>)

  /** _data: a dict from key to model object; order is its insertion order. */
  type Index = x: IndexShape | Distinct(x.order) && x.byKey.Keys == set k | k in x.order
    witness Index([], map[])

  /** The index after one more record: a new key is appended, a known key keeps its place and takes the new object. */
  function Insert(idx: Index, k: Value, o: Instance): (r: Index)
    ensures r.byKey == idx.byKey[k := o]
    ensures r.order == if k in idx.byKey then idx.order else idx.order + [k]
  {
    if k in idx.byKey then Index(idx.order, idx.byKey[k := o])
    else
      var r := Index(idx.order + [k], idx.byKey[k := o]);
      assert forall i :: 0 <= i < |idx.order| ==> r.order[i] == idx.order[i];
      r
  }

  /** What one record contributes: its key and the object built from it, or the error raised. */
  type Entry = Result<(Value, Instance)>

  /**
   * One record d of {d[key_field_name()]: model_type(**d) for d in raw}: the key lookup
   * (KeyError when the record lacks the key field kf), then the construction.
   */
  function RecordEntry(s: Schema, ty: TypeName, kf: string, d: Record): Entry
  {
    if kf !in d then Err(KeyNotFound)
    else
      match New(s, ty, d)
      case Err(e) => Err(e)
      case Ok(o) => Ok((AsValue(d[kf]), o))
  }

  /** The entry of every record, in file order. */
  function Entries(s: Schema, ty: TypeName, kf: string, raw: seq<Record>): (es: seq<Entry>)
    ensures |es| == |raw|
    ensures forall i :: 0 <= i < |raw| ==> es[i] == RecordEntry(s, ty, kf, raw[i])
  {
    seq(|raw|, i requires 0 <= i < |raw| => RecordEntry(s, ty, kf, raw[i]))
  }

  /** The dict the comprehension builds from the first n entries: the first error raised stops it. */
  function Fold(es: seq<Entry>, n: nat): Result<Index>
    requires n <= |es|
  {
    if n == 0 then Ok(Index([], map[]))
    else
      match Fold(es, n - 1)
      case Err(e) => Err(e)
      case Ok(idx) =>
        match es[n - 1]
        case Err(e) => Err(e)
        case Ok(entry) => Ok(Insert(idx, entry.0, entry.1))
  }

  /**
   * {d[key_field_name()]: model_type(**d) for d in raw}: a model without a key field raises
   * KeyError at the first record; otherwise the records' entries are folded in file order.
   */
  function BuildIndex(s: Schema, ty: TypeName, raw: seq<Record>): Result<Index>
  {
    match KeyFieldName(s)
    case None => if raw == [] then Ok(Index([], map[])) else Err(KeyNotFound)
    case Some(kf) => Fold(Entries(s, ty, kf, raw), |raw|)
  }

  /** The entry e carries key k. */
  predicate HasKey(e: Entry, k: Value)
  {
    e.Ok? && e.value.0 == k
  }

  /** The position of the last of the first n entries with key k, if any. */
  function LastPos(es: seq<Entry>, n: nat, k: Value): (r: Option<nat>)
    requires n <= |es|
    ensures r.Some? ==> r.value < n && HasKey(es[r.value], k)
    ensures r.Some? ==> forall j :: r.value < j < n ==> !HasKey(es[j], k)
    ensures r.None? ==> forall j :: 0 <= j < n ==> !HasKey(es[j], k)
  {
    if n == 0 then None
    else if HasKey(es[n - 1], k) then Some(n - 1)
    else LastPos(es, n - 1, k)
  }

  /** The position of the first of the first n entries with key k. */
  function FirstPos(es: seq<Entry>, n: nat, k: Value): (r: nat)
    requires n <= |es| && LastPos(es, n, k).Some?
    ensures r < n && HasKey(es[r], k)
    ensures forall j :: 0 <= j < r ==> !HasKey(es[j], k)
  {
    if LastPos(es, n - 1, k).Some? then FirstPos(es, n - 1, k) else n - 1
  }

  /** None of the first n entries is an error. */
  predicate AllOk(es: seq<Entry>, n: nat)
    requires n <= |es|
  {
    n == 0 || (AllOk(es, n - 1) && es[n - 1].Ok?)
  }

  /** AllOk says of each of the first n entries that it is not an error. */
  lemma {:induction false} AllOkEach(es: seq<Entry>, n: nat)
    requires n <= |es|
    ensures AllOk(es, n) <==> forall i :: 0 <= i < n ==> es[i].Ok?
  {
    if n > 0 {
      AllOkEach(es, n - 1);
    }
  }

  /** Folding n entries succeeds exactly when none of them is an error. */
  lemma {:induction false} FoldSucceeds(es: seq<Entry>, n: nat)
    requires n <= |es|
    ensures Fold(es, n).Ok? <==> forall i :: 0 <= i < n ==> es[i].Ok?
  {
    FoldAllOk(es, n);
    AllOkEach(es, n);
  }

  /** Folding n entries succeeds exactly when AllOk holds of them. */
  lemma {:induction false} FoldAllOk(es: seq<Entry>, n: nat)
    requires n <= |es|
    ensures Fold(es, n).Ok? <==> AllOk(es, n)
  {
    if n > 0 {
      FoldAllOk(es, n - 1);
    }
  }

  /** A fold holds exactly the keys of its entries, each with the object of its last entry. */
  lemma {:induction false} FoldContents(es: seq<Entry>, n: nat, k: Value)
    requires n <= |es| && Fold(es, n).Ok?
    ensures var idx := Fold(es, n).value;
      (k in idx.byKey <==> LastPos(es, n, k).Some?) &&
      (k in idx.byKey ==> es[LastPos(es, n, k).value].value.1 == idx.byKey[k])
  {
    if n > 0 {
      FoldContents(es, n - 1, k);
    }
  }

  /** A key already among the first n - 1 entries keeps its first position when the n-th comes. */
  lemma {:induction false} FirstPosGrow(es: seq<Entry>, n: nat, k: Value)
    requires 0 < n <= |es| && LastPos(es, n - 1, k).Some?
    ensures LastPos(es, n, k).Some? && FirstPos(es, n, k) == FirstPos(es, n - 1, k)
  {
  }

  /** A fold lists its keys in the order of their first entries. */
  lemma {:induction false} FoldOrder(es: seq<Entry>, n: nat, a: int, b: int)
    requires n <= |es| && Fold(es, n).Ok?
    requires 0 <= a < b < |Fold(es, n).value.order|
    ensures var idx := Fold(es, n).value;
      LastPos(es, n, idx.order[a]).Some? && LastPos(es, n, idx.order[b]).Some? &&
      FirstPos(es, n, idx.order[a]) < FirstPos(es, n, idx.order[b])
  {
    var pidx := Fold(es, n - 1).value;
    var entry := es[n - 1].value;
    var idx := Fold(es, n).value;
    assert idx == Insert(pidx, entry.0, entry.1);
    var ka, kb := idx.order[a], idx.order[b];
    if b < |pidx.order| {
      assert ka == pidx.order[a] && kb == pidx.order[b];
      FoldOrder(es, n - 1, a, b);
      FirstPosGrow(es, n, ka);
      FirstPosGrow(es, n, kb);
    } else {
      assert ka == pidx.order[a] && kb == entry.0 && kb !in pidx.byKey;
      assert ka in pidx.byKey;
      FoldContents(es, n - 1, ka);
      FoldContents(es, n - 1, kb);
      FirstPosGrow(es, n, ka);
      assert FirstPos(es, n - 1, ka) < n - 1;
      assert LastPos(es, n - 1, kb).None? && HasKey(es[n - 1], kb);
      assert FirstPos(es, n, kb) == n - 1;
    }
  }

  /** The record r has the key field kf and it holds k. */
  predicate RecordHasKey(kf: string, r: Record, k: Value)
  {
    kf in r && AsValue(r[kf]) == k
  }

  /** The record d has the key field kf and constructs an object of class ty. */
  predicate Loadable(s: Schema, ty: TypeName, kf: string, d: Record)
  {
    kf in d && New(s, ty, d).Ok?
  }

  /** A record's entry is no error exactly when the record loads. */
  lemma {:induction false} RecordEntryLoads(s: Schema, ty: TypeName, kf: string, d: Record)
    ensures RecordEntry(s, ty, kf, d).Ok? <==> Loadable(s, ty, kf, d)
  {
  }

  /** A record's entry, when no error, is the record's key and the object built from it. */
  lemma {:induction false} RecordEntryKey(s: Schema, ty: TypeName, kf: string, d: Record, k: Value)
    requires RecordEntry(s, ty, kf, d).Ok?
    ensures HasKey(RecordEntry(s, ty, kf, d), k) <==> RecordHasKey(kf, d, k)
    ensures New(s, ty, d) == Ok(RecordEntry(s, ty, kf, d).value.1)
  {
  }

  /**
   * Building the index succeeds exactly when there are no records, or the model has a key
   * field and every record has it and constructs.
   */
  lemma {:induction false} BuildIndexSucceeds(s: Schema, ty: TypeName, raw: seq<Record>)
    ensures BuildIndex(s, ty, raw).Ok? <==>
              raw == [] ||
              (KeyFieldName(s).Some? && forall i :: 0 <= i < |raw| ==> Loadable(s, ty, KeyFieldName(s).value, raw[i]))
  {
    match KeyFieldName(s)
    case None =>
    case Some(kf) =>
      var es := Entries(s, ty, kf, raw);
      assert BuildIndex(s, ty, raw) == Fold(es, |raw|);
      FoldSucceeds(es, |raw|);
      forall i | 0 <= i < |raw| ensures es[i].Ok? <==> Loadable(s, ty, kf, raw[i]) {
        RecordEntryLoads(s, ty, kf, raw[i]);
      }
  }

  /**
   * A built index holds exactly the keys of the records; each maps to the object built from
   * the last record with that key.
   */
  lemma {:induction false} BuildIndexContents(s: Schema, ty: TypeName, raw: seq<Record>, k: Value)
    requires BuildIndex(s, ty, raw).Ok? && KeyFieldName(s).Some?
    ensures var idx := BuildIndex(s, ty, raw).value; var kf := KeyFieldName(s).value;
      (k in idx.byKey <==> exists j :: 0 <= j < |raw| && RecordHasKey(kf, raw[j], k)) &&
      (k in idx.byKey ==> exists j :: 0 <= j < |raw| && RecordHasKey(kf, raw[j], k) &&
                           New(s, ty, raw[j]) == Ok(idx.byKey[k]) &&
                           forall j' :: j < j' < |raw| ==> !RecordHasKey(kf, raw[j'], k))
  {
    var kf := KeyFieldName(s).value;
    var es := Entries(s, ty, kf, raw);
    FoldSucceeds(es, |raw|);
    FoldContents(es, |raw|, k);
    forall j | 0 <= j < |raw| ensures HasKey(es[j], k) <==> RecordHasKey(kf, raw[j], k) {
      RecordEntryKey(s, ty, kf, raw[j], k);
    }
    var last := LastPos(es, |raw|, k);
    if last.Some? {
      RecordEntryKey(s, ty, kf, raw[last.value], k);
    }
  }

  /**
   * The index lists its keys in the order their first records come in: every record with
   * the later key is preceded by a record with the earlier one. A later record with a known
   * key replaces the object but keeps the key's place.
   */
  lemma {:induction false} BuildIndexOrder(s: Schema, ty: TypeName, raw: seq<Record>, a: int, b: int)
    requires BuildIndex(s, ty, raw).Ok? && KeyFieldName(s).Some?
    requires 0 <= a < b < |BuildIndex(s, ty, raw).value.order|
    ensures var idx := BuildIndex(s, ty, raw).value; var kf := KeyFieldName(s).value;
      forall j :: 0 <= j < |raw| && RecordHasKey(kf, raw[j], idx.order[b]) ==>
        exists i :: 0 <= i < j && RecordHasKey(kf, raw[i], idx.order[a])
  {
    var kf := KeyFieldName(s).value;
    var es := Entries(s, ty, kf, raw);
    var idx := BuildIndex(s, ty, raw).value;
    FoldSucceeds(es, |raw|);
    FoldOrder(es, |raw|, a, b);
    var fa := FirstPos(es, |raw|, idx.order[a]);
    RecordEntryKey(s, ty, kf, raw[fa], idx.order[a]);
    forall j | 0 <= j < |raw| && RecordHasKey(kf, raw[j], idx.order[b])
      ensures exists i :: 0 <= i < j && RecordHasKey(kf, raw[i], idx.order[a])
    {
      RecordEntryKey(s, ty, kf, raw[j], idx.order[b]);
      assert HasKey(es[j], idx.order[b]);
    }
  }

  /** list(_data.values()): the model objects in insertion order. */
  function Objects(idx: Index): (r: seq<Instance>)
    ensures |r| == |idx.order|
  {
    seq(|idx.order|, i requires 0 <= i < |idx.order| => idx.byKey[idx.order[i]])
  }

  /** A Python slice bound: a negative one counts from the end, and both are clipped to [0, n]. */
  function Bound(i: int, n: nat): (r: nat)
    ensures r <= n
  {
    if i < 0 then (if n + i < 0 then 0 else n + i) else if i > n then n else i
  }

  /** s[start:end] with Python slice semantics; an end of None is the length. */
  function Slice<T>(s: seq<T>, start: int, end: Option<int>): seq<T>
  {
    var st := Bound(start, |s|);
    var en := if end.None? then |s| else Bound(end.value, |s|);
    if st >= en then [] else s[st..en]
  }

  /** off: the offset when it is given and positive, else 0. */
  function Offset(offset: Option<int>): nat
  {
    if offset.Some? && offset.value > 0 then offset.value else 0
  }

  /** get(limit, offset): [off:off + limit] of the objects; a limit that is None or 0 means no end. */
  function Page(idx: Index, limit: Option<int>, offset: Option<int>): seq<Instance>
  {
    var off := Offset(offset);
    var lim := if limit.Some? && limit.value != 0 then Some(off + limit.value) else None;
    Slice(Objects(idx), off, lim)
  }

  /** [data_by_key[k] for k in keys if k in data_by_key]. */
  function Lookup(idx: Index, keys: seq<Value>): (r: seq<Instance>)
    ensures |r| <= |keys|
  {
    if keys == [] then []
    else
      var k := keys[|keys| - 1];
      Lookup(idx, keys[..|keys| - 1]) + (if k in idx.byKey then [idx.byKey[k]] else [])
  }

  /** A page of the index once built; a failed build is the error. */
  function PageOf(built: Result<Index>, limit: Option<int>, offset: Option<int>): Result<seq<Instance>>
  {
    match built
    case Err(e) => Err(e)
    case Ok(idx) => Ok(Page(idx, limit, offset))
  }

  /** A lookup in the index once built; a failed build is the error. */
  function KeysOf(built: Result<Index>, keys: seq<Value>): Result<seq<Instance>>
  {
    match built
    case Err(e) => Err(e)
    case Ok(idx) => Ok(Lookup(idx, keys))
  }

  /** get on the records raw: build the index, then take the page. */
  function GetPage(s: Schema, ty: TypeName, raw: seq<Record>, limit: Option<int>, offset: Option<int>): Result<seq<Instance>>
  {
    PageOf(BuildIndex(s, ty, raw), limit, offset)
  }

  /** get_by_keys on the records raw: build the index, then look the keys up. */
  function GetKeys(s: Schema, ty: TypeName, raw: seq<Record>, keys: seq<Value>): Result<seq<Instance>>
  {
    KeysOf(BuildIndex(s, ty, raw), keys)
  }

  /** The accessor over the records raw of model class ty: every operation builds the same index first. */
  function FileAccessor(s: Schema, ty: TypeName, raw: seq<Record>): (a: Accessor)
    ensures forall limit, offset :: a.get(limit, offset) == GetPage(s, ty, raw, limit, offset)
    ensures forall keys :: a.getByKeys(keys) == GetKeys(s, ty, raw, keys)
  {
    DataAccessor.Accessor(
      (limit: Option<int>, offset: Option<int>) => GetPage(s, ty, raw, limit, offset),
      (keys: seq<Value>) => GetKeys(s, ty, raw, keys))
  }

  /**
   * A page with a positive limit is the contiguous run of objects from the offset, as many as
   * the limit allows and the data holds; with no limit it runs to the end.
   */
  lemma {:induction false} PageWindow(idx: Index, limit: Option<int>, offset: Option<int>)
    ensures var n := |idx.order|; var off := Offset(offset); var st := if off < n then off else n;
      var p := Page(idx, limit, offset);
      (limit.None? || limit.value == 0 ==> p == Objects(idx)[st..]) &&
      (limit.Some? && limit.value >= 1 ==>
         p == Objects(idx)[st..if off + limit.value < n then off + limit.value else n] &&
         |p| == if limit.value < n - off then limit.value else if n - off > 0 then n - off else 0)
  {
  }

  /** With neither limit nor offset, get returns every object. */
  lemma {:induction false} PageAll(idx: Index)
    ensures Page(idx, None, None) == Objects(idx)
  {
    PageWindow(idx, None, None);
  }

  /** A negative limit counts from the end, as a slice does: limit -m with no offset drops the last m objects. */
  lemma {:induction false} PageNegativeLimit(idx: Index, m: nat)
    requires 0 < m <= |idx.order|
    ensures Page(idx, Some(-(m as int)), None) == Objects(idx)[..|idx.order| - m]
  {
  }

  /** A lookup returns the object of each requested key the index holds, and no other object. */
  lemma {:induction false} LookupMembers(idx: Index, keys: seq<Value>, x: Instance)
    ensures x in Lookup(idx, keys) <==> exists k :: k in keys && k in idx.byKey && idx.byKey[k] == x
  {
    if keys != [] {
      var p := keys[..|keys| - 1];
      LookupMembers(idx, p, x);
      assert keys == p + [keys[|keys| - 1]];
    }
  }

  /** When every requested key is held, a lookup returns their objects in request order, duplicates included. */
  lemma {:induction false} LookupAllFound(idx: Index, keys: seq<Value>)
    requires forall k :: k in keys ==> k in idx.byKey
    ensures |Lookup(idx, keys)| == |keys|
    ensures forall i :: 0 <= i < |keys| ==> Lookup(idx, keys)[i] == idx.byKey[keys[i]]
  {
    if keys != [] {
      var p := keys[..|keys| - 1];
      assert forall k :: k in p ==> k in keys;
      LookupAllFound(idx, p);
    }
  }

  /** A lookup of two runs of keys is the lookup of the first followed by that of the second. */
  lemma {:induction false} LookupAppend(idx: Index, a: seq<Value>, b: seq<Value>)
    ensures Lookup(idx, a + b) == Lookup(idx, a) + Lookup(idx, b)
  {
    if b == [] {
      assert a + b == a;
    } else {
      var p := b[..|b| - 1];
      assert (a + b)[..|a + b| - 1] == a + p;
      LookupAppend(idx, a, p);
    }
  }

  /** The lookup of a single key: its object when the index holds it, nothing otherwise. */
  lemma LookupSingle(idx: Index, k: Value)
    ensures Lookup(idx, [k]) == if k in idx.byKey then [idx.byKey[k]] else []
  {
    assert [k][..0] == [];
  }

  /** get_by_key on this accessor: the object of the key when the index holds it, else None. */
  lemma {:induction false} GetByKeyFound(s: Schema, ty: TypeName, raw: seq<Record>, k: Value)
    ensures var r := GetByKey(FileAccessor(s, ty, raw), k);
      (BuildIndex(s, ty, raw).Err? ==> r == Err(BuildIndex(s, ty, raw).error)) &&
      (BuildIndex(s, ty, raw).Ok? ==>
         var idx := BuildIndex(s, ty, raw).value;
         r == Ok(if k in idx.byKey then Some(idx.byKey[k]) else None))
  {
    if BuildIndex(s, ty, raw).Ok? {
      var idx := BuildIndex(s, ty, raw).value;
      assert [k][..0] == [];
      assert Lookup(idx, [k]) == if k in idx.byKey then [idx.byKey[k]] else [];
    }
  }

  /** The key of every record is one its key field stores unchanged (an int id in an IntegerField). */
  predicate KeysCanonical(s: Schema, raw: seq<Record>)
  {
    KeyFieldName(s).Some? &&
    forall i :: 0 <= i < |raw| && KeyFieldName(s).value in raw[i] ==>
      var kf := KeyFieldName(s).value;
      GetValue(s.fields[kf], kf, raw[i][kf]) == Ok(AsValue(raw[i][kf]))
  }

  /**
   * With canonical keys every indexed object's key is the key it is indexed under, so
   * get_by_keys returns only objects whose key was requested.
   */
  lemma {:induction false} IndexedKeys(reg: Registry, ty: TypeName, raw: seq<Record>, keys: seq<Value>, x: Instance)
    requires ty in reg && KeysCanonical(reg[ty], raw) && BuildIndex(reg[ty], ty, raw).Ok?
    requires x in Lookup(BuildIndex(reg[ty], ty, raw).value, keys)
    ensures Key(reg, x) in keys
  {
    var s := reg[ty];
    var idx := BuildIndex(s, ty, raw).value;
    LookupMembers(idx, keys, x);
    var k :| k in keys && k in idx.byKey && idx.byKey[k] == x;
    BuildIndexContents(s, ty, raw, k);
    var kf := KeyFieldName(s).value;
    var j :| 0 <= j < |raw| && RecordHasKey(kf, raw[j], k) && New(s, ty, raw[j]) == Ok(idx.byKey[k]);
    var d := raw[j];
    NewSpec(s, ty, d);
    assert ArgOf(d, kf) == d[kf];
  }

  /**
   * The accessor object: the records stay raw until the first access, which builds the index
   * once, drops the raw records and keeps the index for every later call. The model class of
   * the data is fixed when the accessor is made.
   */
  class InMemoryJsonFileAccessor {
    const schema: Schema
    const ty: TypeName
    ghost const source: seq<Record>
    /** What building the index from the records gives, an object index or the error raised. */
    ghost const index: Result<Index>
    var rawData: Option<seq<Record>>
    var data: Option<Index>

    /** Raw records are kept exactly until the index exists, and the index is the one they build. */
    ghost predicate Valid()
      reads this
    {
      index == BuildIndex(schema, ty, source) &&
      (data.None? <==> rawData.Some?) &&
      (rawData.Some? ==> rawData.value == source) &&
      (data.Some? ==> index == Ok(data.value))
    }

    constructor(schema: Schema, ty: TypeName, raw: seq<Record>)
      ensures Valid()
      ensures this.schema == schema && this.ty == ty && source == raw
      ensures rawData == Some(raw) && data == None
    {
      this.schema := schema;
      this.ty := ty;
      source := raw;
      index := BuildIndex(schema, ty, raw);
      rawData := Some(raw);
      data := None;
    }

    /** _get_data: build the index on first access; later accesses return it unchanged. */
    method GetData() returns (r: Result<Index>)
      requires Valid()
      modifies this
      ensures Valid()
      ensures r == index
      ensures old(data).Some? || r.Err? ==> data == old(data) && rawData == old(rawData)
      ensures old(data).None? && r.Ok? ==> data == Some(r.value) && rawData == None
    {
      if data.None? {
        var built := BuildIndex(schema, ty, rawData.value);
        if built.Err? {
          return built;
        }
        data := Some(built.value);
        rawData := None;
      }
      return Ok(data.value);
    }

    /** _get_data_as_list: the indexed objects in insertion order. */
    method GetDataAsList() returns (r: Result<seq<Instance>>)
      requires Valid()
      modifies this
      ensures Valid()
      ensures index.Err? ==> r == Err(index.error)
      ensures index.Ok? ==> r == Ok(Objects(index.value))
      ensures old(data).Some? || index.Err? ==> data == old(data) && rawData == old(rawData)
      ensures old(data).None? && index.Ok? ==> data == Some(index.value) && rawData == None
    {
      var d := GetData();
      if d.Err? {
        return Err(d.error);
      }
      return Ok(Objects(d.value));
    }

    /** get(limit, offset): the page of the stored objects. */
    method Get(limit: Option<int>, offset: Option<int>) returns (r: Result<seq<Instance>>)
      requires Valid()
      modifies this
      ensures Valid()
      ensures r == PageOf(index, limit, offset)
      ensures old(data).Some? || index.Err? ==> data == old(data) && rawData == old(rawData)
      ensures old(data).None? && index.Ok? ==> data == Some(index.value) && rawData == None
    {
      var built := GetData();
      if built.Err? {
        return Err(built.error);
      }
      return Ok(Page(built.value, limit, offset));
    }

    /** get_by_keys(*keys): the stored object of each requested key that exists, in request order. */
    method GetByKeys(keys: seq<Value>) returns (r: Result<seq<Instance>>)
      requires Valid()
      modifies this
      ensures Valid()
      ensures r == KeysOf(index, keys)
      ensures old(data).Some? || index.Err? ==> data == old(data) && rawData == old(rawData)
      ensures old(data).None? && index.Ok? ==> data == Some(index.value) && rawData == None
    {
      var d := GetData();
      if d.Err? {
        return Err(d.error);
      }
      var found: seq<Instance> := [];
      var i := 0;
      while i < |keys|
        invariant i <= |keys|
        invariant found == Lookup(d.value, keys[..i])
      {
        assert keys[..i + 1][..i] == keys[..i];
        if keys[i] in d.value.byKey {
          found := found + [d.value.byKey[keys[i]]];
        }
        i := i + 1;
      }
      assert keys[..i] == keys;
      return Ok(found);
    }

    /** get_by_key(k), inherited from the base accessor: the first object get_by_keys(k) returns, or None. */
    method GetByKey(k: Value) returns (r: Result<Option<Instance>>)
      requires Valid()
      modifies this
      ensures Valid()
      ensures r == DataAccessor.GetByKey(FileAccessor(schema, ty, source), k)
      ensures old(data).Some? || index.Err? ==> data == old(data) && rawData == old(rawData)
      ensures old(data).None? && index.Ok? ==> data == Some(index.value) && rawData == None
    {
      var results := GetByKeys([k]);
      if results.Err? {
        return Err(results.error);
      }
      return Ok(if results.value == [] then None else Some(results.value[0]));
    }
  }
}
