/**
 * Validation of relationship paths (Model._get_validated_relationships): each path is split
 * at its first separator, the remainders are grouped per head field without duplicates, every
 * head must be a field with a related model, and each group is validated against that model.
 * Nothing is fetched.
 */
module Validation {
  import opened Values
  import opened Fields
  import opened Models
  import opened Paths

  /** RelatedModelRequest: the related class of a requested field and the paths below it. */
  datatype Request = Request(field: string, target: TypeName, next: seq<string>)

  /** The position of the request for field f, or |reqs| when there is none (a dict lookup). */
  function FindField(reqs: seq<Request>, f: string): (i: nat)
    ensures i <= |reqs|
    ensures i < |reqs| ==> reqs[i].field == f
    ensures forall j :: 0 <= j < i ==> reqs[j].field != f
  {
    if reqs == [] then 0
    else if reqs[0].field == f then 0
    else 1 + FindField(reqs[1..], f)
  }

  /** next_level_relationships.append(rest) unless rest is empty or already listed. */
  function Extend(next: seq<string>, rest: string): (r: seq<string>)
    ensures forall x :: x in r <==> x in next || (rest != "" && x == rest)
    ensures Distinct(next) ==> Distinct(r)
  {
    if rest != "" && rest !in next then next + [rest] else next
  }

  /** The related class of a field of a closed registry is registered. */
  lemma {:induction false} TargetRegistered(reg: Registry, ty: TypeName, f: string)
    requires Closed(reg) && ty in reg && f in reg[ty].fields
    requires RelatedType(reg[ty].fields[f], ty, f).Ok?
    ensures RelatedType(reg[ty].fields[f], ty, f).value in reg
  {
  }

  /** The error the head of path p raises, if any: an unknown field, or one without a related model. */
  function HeadError(reg: Registry, ty: TypeName, p: string): Option<Error>
    requires ty in reg
  {
    var h := SplitPath(p).0;
    if h !in reg[ty].fields then Some(UndefinedField(ty, {h}))
    else match RelatedType(reg[ty].fields[h], ty, h)
      case Err(e) => Some(e)
      case Ok(_) => None
  }

  /** The class the head of a valid path relates to. */
  function HeadTarget(reg: Registry, ty: TypeName, p: string): (t: TypeName)
    requires Closed(reg) && ty in reg && HeadError(reg, ty, p) == None
    ensures t in reg
  {
    var h := SplitPath(p).0;
    TargetRegistered(reg, ty, h);
    RelatedType(reg[ty].fields[h], ty, h).value
  }

  /** One iteration of the grouping loop: the request list after path p. */
  function AddPath(reg: Registry, ty: TypeName, reqs: seq<Request>, p: string): Result<seq<Request>>
    requires ty in reg
  {
    var (h, rest) := SplitPath(p);
    if h !in reg[ty].fields then Err(UndefinedField(ty, {h}))
    else
      var i := FindField(reqs, h);
      if i < |reqs| then Ok(reqs[i := reqs[i].(next := Extend(reqs[i].next, rest))])
      else match RelatedType(reg[ty].fields[h], ty, h)
        case Err(e) => Err(e)
        case Ok(t) => Ok(reqs + [Request(h, t, Extend([], rest))])
  }

  /** The grouping loop over the paths, in order, stopping at the first error. */
  function Normalize(reg: Registry, ty: TypeName, ps: seq<string>): Result<seq<Request>>
    requires ty in reg
  {
    if ps == [] then Ok([])
    else
      match Normalize(reg, ty, ps[..|ps| - 1])
      case Err(e) => Err(e)
      case Ok(reqs) => AddPath(reg, ty, reqs, ps[|ps| - 1])
  }

  /** Each request names a field of ty and the class that field relates to. */
  ghost predicate Targets(reg: Registry, ty: TypeName, reqs: seq<Request>)
    requires ty in reg
  {
    forall i :: 0 <= i < |reqs| ==>
      (reqs[i].field in reg[ty].fields &&
       RelatedType(reg[ty].fields[reqs[i].field], ty, reqs[i].field) == Ok(reqs[i].target))
  }

  /** One request per field, and no remainder twice within a request. */
  ghost predicate NoDuplicates(reqs: seq<Request>)
  {
    (forall i, j :: 0 <= i < j < |reqs| ==> reqs[i].field != reqs[j].field) &&
    (forall i :: 0 <= i < |reqs| ==> Distinct(reqs[i].next))
  }

  /** Every request and every remainder in it comes from one of the paths. */
  ghost predicate FromPaths(ps: seq<string>, reqs: seq<Request>)
  {
    (forall i :: 0 <= i < |reqs| ==> exists p :: p in ps && SplitPath(p).0 == reqs[i].field) &&
    (forall i, x :: 0 <= i < |reqs| && x in reqs[i].next ==>
       x != "" && exists p :: p in ps && SplitPath(p) == (reqs[i].field, x))
  }

  /** Every path has a request for its head holding its non-empty remainder. */
  ghost predicate Covers(ps: seq<string>, reqs: seq<Request>)
  {
    forall p :: p in ps ==>
      FindField(reqs, SplitPath(p).0) < |reqs| &&
      (SplitPath(p).1 != "" ==> SplitPath(p).1 in reqs[FindField(reqs, SplitPath(p).0)].next)
  }

  /** The request list groups the paths by head field. */
  ghost predicate Grouped(reg: Registry, ty: TypeName, ps: seq<string>, reqs: seq<Request>)
    requires ty in reg
  {
    Targets(reg, ty, reqs) && NoDuplicates(reqs) && FromPaths(ps, reqs) && Covers(ps, reqs)
  }

  lemma {:induction false} AddPathTargets(reg: Registry, ty: TypeName, reqs: seq<Request>, p: string)
    requires ty in reg && Targets(reg, ty, reqs) && AddPath(reg, ty, reqs, p).Ok?
    ensures Targets(reg, ty, AddPath(reg, ty, reqs, p).value)
  {
  }

  lemma {:induction false} AddPathNoDuplicates(reg: Registry, ty: TypeName, reqs: seq<Request>, p: string)
    requires ty in reg && NoDuplicates(reqs) && AddPath(reg, ty, reqs, p).Ok?
    ensures NoDuplicates(AddPath(reg, ty, reqs, p).value)
  {
    var h := SplitPath(p).0;
    var i := FindField(reqs, h);
    if i == |reqs| {
      assert forall j :: 0 <= j < |reqs| ==> reqs[j].field != h;
    }
  }

  /** The requests after path p: the old ones, possibly with p's remainder added, and perhaps one new request for p's head. */
  ghost predicate ExtendsBy(reqs: seq<Request>, r: seq<Request>, p: string)
  {
    |reqs| <= |r| <= |reqs| + 1 &&
    (forall i :: 0 <= i < |reqs| ==> r[i].field == reqs[i].field) &&
    (|r| > |reqs| ==> r[|reqs|].field == SplitPath(p).0) &&
    (forall i, x :: 0 <= i < |r| && x in r[i].next ==>
       (i < |reqs| && x in reqs[i].next) || (x == SplitPath(p).1 && x != "" && r[i].field == SplitPath(p).0))
  }

  lemma {:induction false} AddPathExtends(reg: Registry, ty: TypeName, reqs: seq<Request>, p: string)
    requires ty in reg && AddPath(reg, ty, reqs, p).Ok?
    ensures ExtendsBy(reqs, AddPath(reg, ty, reqs, p).value, p)
  {
    var (h, rest) := SplitPath(p);
    var i := FindField(reqs, h);
    var r := AddPath(reg, ty, reqs, p).value;
    if i < |reqs| {
      assert r == reqs[i := reqs[i].(next := Extend(reqs[i].next, rest))];
    } else {
      assert r[|reqs|].next == Extend([], rest);
    }
  }

  /** Extending the requests by path p keeps them drawn from the paths, p included. */
  lemma {:induction false} ExtendsFromPaths(ps: seq<string>, reqs: seq<Request>, r: seq<Request>, p: string)
    requires FromPaths(ps, reqs) && ExtendsBy(reqs, r, p)
    ensures FromPaths(ps + [p], r)
  {
    assert p in ps + [p];
    forall i, x | 0 <= i < |r| && x in r[i].next
      ensures x != "" && exists q :: q in ps + [p] && SplitPath(q) == (r[i].field, x)
    {
      if i < |reqs| && x in reqs[i].next {
        var q :| q in ps && SplitPath(q) == (reqs[i].field, x);
        assert q in ps + [p];
      } else {
        assert SplitPath(p) == (r[i].field, x);
      }
    }
    forall i | 0 <= i < |r|
      ensures exists q :: q in ps + [p] && SplitPath(q).0 == r[i].field
    {
      if i < |reqs| {
        var q :| q in ps && SplitPath(q).0 == reqs[i].field;
        assert q in ps + [p];
      } else {
        assert SplitPath(p).0 == r[i].field;
      }
    }
  }

  lemma {:induction false} AddPathFromPaths(reg: Registry, ty: TypeName, ps: seq<string>, reqs: seq<Request>, p: string)
    requires ty in reg && FromPaths(ps, reqs) && AddPath(reg, ty, reqs, p).Ok?
    ensures FromPaths(ps + [p], AddPath(reg, ty, reqs, p).value)
  {
    AddPathExtends(reg, ty, reqs, p);
    ExtendsFromPaths(ps, reqs, AddPath(reg, ty, reqs, p).value, p);
  }

  lemma {:induction false} FindFieldUnique(reqs: seq<Request>, i: nat)
    requires i < |reqs| && forall a, b :: 0 <= a < b < |reqs| ==> reqs[a].field != reqs[b].field
    ensures FindField(reqs, reqs[i].field) == i
  {
  }

  lemma {:induction false} FindFieldKeep(reqs: seq<Request>, r: seq<Request>, f: string)
    requires |reqs| <= |r| && forall j :: 0 <= j < |reqs| ==> r[j].field == reqs[j].field
    requires FindField(reqs, f) < |reqs|
    ensures FindField(r, f) == FindField(reqs, f)
  {
    var i := FindField(reqs, f);
    FindFieldPosition(r, f, i);
  }

  lemma {:induction false} FindFieldPosition(r: seq<Request>, f: string, i: nat)
    requires i < |r| && r[i].field == f && forall j :: 0 <= j < i ==> r[j].field != f
    ensures FindField(r, f) == i
  {
    if i > 0 {
      FindFieldPosition(r[1..], f, i - 1);
    }
  }

  lemma {:induction false} AddPathCovers(reg: Registry, ty: TypeName, ps: seq<string>, reqs: seq<Request>, p: string)
    requires ty in reg && Covers(ps, reqs) && AddPath(reg, ty, reqs, p).Ok?
    ensures Covers(ps + [p], AddPath(reg, ty, reqs, p).value)
  {
    var r := AddPath(reg, ty, reqs, p).value;
    var h := SplitPath(p).0;
    var i := FindField(reqs, h);
    forall q | q in ps + [p]
      ensures FindField(r, SplitPath(q).0) < |r|
      ensures SplitPath(q).1 != "" ==> SplitPath(q).1 in r[FindField(r, SplitPath(q).0)].next
    {
      if q in ps {
        FindFieldKeep(reqs, r, SplitPath(q).0);
      } else {
        assert q == p;
        if i < |reqs| {
          FindFieldKeep(reqs, r, h);
        } else {
          FindFieldPosition(r, h, |reqs|);
        }
      }
    }
  }

  /** The grouping loop keeps the request list grouped by head field. */
  lemma {:induction false} NormalizeGrouped(reg: Registry, ty: TypeName, ps: seq<string>)
    requires ty in reg && Normalize(reg, ty, ps).Ok?
    ensures Grouped(reg, ty, ps, Normalize(reg, ty, ps).value)
  {
    if ps != [] {
      var init := ps[..|ps| - 1];
      var p := ps[|ps| - 1];
      assert ps == init + [p];
      NormalizeGrouped(reg, ty, init);
      var reqs := Normalize(reg, ty, init).value;
      AddPathTargets(reg, ty, reqs, p);
      AddPathNoDuplicates(reg, ty, reqs, p);
      AddPathFromPaths(reg, ty, init, reqs, p);
      AddPathCovers(reg, ty, init, reqs, p);
    }
  }

  /** A grouped path's head request relates to the class its head names. */
  lemma {:induction false} CoveredTarget(reg: Registry, ty: TypeName, ps: seq<string>, reqs: seq<Request>, p: string)
    requires ty in reg && Grouped(reg, ty, ps, reqs) && p in ps
    ensures HeadError(reg, ty, p) == None
    ensures reqs[FindField(reqs, SplitPath(p).0)].target == RelatedType(reg[ty].fields[SplitPath(p).0], ty, SplitPath(p).0).value
  {
    var i := FindField(reqs, SplitPath(p).0);
    assert reqs[i].field in reg[ty].fields;
  }

  /** The grouping loop only records fields of ty with the class each relates to. */
  lemma {:induction false} NormalizeTargets(reg: Registry, ty: TypeName, ps: seq<string>)
    requires ty in reg && Normalize(reg, ty, ps).Ok?
    ensures Targets(reg, ty, Normalize(reg, ty, ps).value)
  {
    if ps != [] {
      NormalizeTargets(reg, ty, ps[..|ps| - 1]);
      AddPathTargets(reg, ty, Normalize(reg, ty, ps[..|ps| - 1]).value, ps[|ps| - 1]);
    }
  }

  /** A path is accepted exactly when its head is valid (a repeated head was checked before). */
  lemma {:induction false} AddPathSucceeds(reg: Registry, ty: TypeName, reqs: seq<Request>, p: string)
    requires ty in reg && Targets(reg, ty, reqs)
    ensures AddPath(reg, ty, reqs, p).Ok? <==> HeadError(reg, ty, p) == None
    ensures AddPath(reg, ty, reqs, p).Err? ==> HeadError(reg, ty, p) == Some(AddPath(reg, ty, reqs, p).error)
  {
    var h := SplitPath(p).0;
    var i := FindField(reqs, h);
    if h in reg[ty].fields && i < |reqs| {
      assert reqs[i].field in reg[ty].fields;
    }
  }

  /** Every path's head is a field with a related model, checked from the last path back. */
  predicate HeadsValid(reg: Registry, ty: TypeName, ps: seq<string>)
    requires ty in reg
  {
    ps == [] || (HeadsValid(reg, ty, ps[..|ps| - 1]) && HeadError(reg, ty, ps[|ps| - 1]) == None)
  }

  /** HeadsValid says of each path that its head is valid. */
  lemma {:induction false} HeadsValidEach(reg: Registry, ty: TypeName, ps: seq<string>)
    requires ty in reg
    ensures HeadsValid(reg, ty, ps) <==> forall i :: 0 <= i < |ps| ==> HeadError(reg, ty, ps[i]) == None
  {
    if ps != [] {
      var init := ps[..|ps| - 1];
      assert forall i :: 0 <= i < |init| ==> init[i] == ps[i];
      HeadsValidEach(reg, ty, init);
    }
  }

  /** Grouping succeeds exactly when HeadsValid holds. */
  lemma {:induction false} NormalizeHeadsValid(reg: Registry, ty: TypeName, ps: seq<string>)
    requires ty in reg
    ensures Normalize(reg, ty, ps).Ok? <==> HeadsValid(reg, ty, ps)
  {
    if ps != [] {
      var init := ps[..|ps| - 1];
      NormalizeHeadsValid(reg, ty, init);
      if Normalize(reg, ty, init).Ok? {
        NormalizeTargets(reg, ty, init);
        AddPathSucceeds(reg, ty, Normalize(reg, ty, init).value, ps[|ps| - 1]);
        assert Normalize(reg, ty, ps) == AddPath(reg, ty, Normalize(reg, ty, init).value, ps[|ps| - 1]);
      } else {
        assert Normalize(reg, ty, ps).Err?;
      }
    }
  }

  /** Grouping succeeds exactly when every path's head is a field with a related model. */
  lemma {:induction false} NormalizeSucceeds(reg: Registry, ty: TypeName, ps: seq<string>)
    requires ty in reg
    ensures Normalize(reg, ty, ps).Ok? <==> forall i :: 0 <= i < |ps| ==> HeadError(reg, ty, ps[i]) == None
  {
    NormalizeHeadsValid(reg, ty, ps);
    HeadsValidEach(reg, ty, ps);
  }

  /** Grouping fails with the error of the first path whose head is invalid. */
  lemma {:induction false} NormalizeFirstError(reg: Registry, ty: TypeName, ps: seq<string>)
    requires ty in reg && Normalize(reg, ty, ps).Err?
    ensures exists k :: 0 <= k < |ps| && HeadError(reg, ty, ps[k]) == Some(Normalize(reg, ty, ps).error) &&
                        forall j :: 0 <= j < k ==> HeadError(reg, ty, ps[j]) == None
  {
    var init := ps[..|ps| - 1];
    assert forall i :: 0 <= i < |init| ==> init[i] == ps[i];
    if Normalize(reg, ty, init).Err? {
      NormalizeFirstError(reg, ty, init);
      var k :| 0 <= k < |init| && HeadError(reg, ty, init[k]) == Some(Normalize(reg, ty, init).error) &&
               forall j :: 0 <= j < k ==> HeadError(reg, ty, init[j]) == None;
      assert HeadError(reg, ty, ps[k]) == Some(Normalize(reg, ty, ps).error);
    } else {
      NormalizeSucceeds(reg, ty, init);
      NormalizeTargets(reg, ty, init);
      AddPathSucceeds(reg, ty, Normalize(reg, ty, init).value, ps[|ps| - 1]);
      assert HeadError(reg, ty, ps[|ps| - 1]) == Some(Normalize(reg, ty, ps).error);
    }
  }

  /** Once a path fails, the paths after it are not looked at. */
  lemma {:induction false} NormalizeKeepsError(reg: Registry, ty: TypeName, ps: seq<string>, n: nat)
    requires ty in reg && n <= |ps| && Normalize(reg, ty, ps[..n]).Err?
    ensures Normalize(reg, ty, ps) == Normalize(reg, ty, ps[..n])
  {
    if n < |ps| {
      assert ps[..|ps| - 1][..n] == ps[..n];
      NormalizeKeepsError(reg, ty, ps[..|ps| - 1], n);
    } else {
      assert ps[..n] == ps;
    }
  }

  /** Every remainder in a request is a non-empty tail of one of the paths, hence shorter. */
  lemma {:induction false} NormalizeBounds(reg: Registry, ty: TypeName, ps: seq<string>)
    requires Closed(reg) && ty in reg && Normalize(reg, ty, ps).Ok?
    ensures forall i :: 0 <= i < |Normalize(reg, ty, ps).value| ==>
              Normalize(reg, ty, ps).value[i].target in reg &&
              Height(Normalize(reg, ty, ps).value[i].next) < Height(ps)
  {
    NormalizeGrouped(reg, ty, ps);
    var reqs := Normalize(reg, ty, ps).value;
    forall i | 0 <= i < |reqs|
      ensures reqs[i].target in reg && Height(reqs[i].next) < Height(ps)
    {
      TargetRegistered(reg, ty, reqs[i].field);
      if reqs[i].next != [] {
        forall j | 0 <= j < |reqs[i].next|
          ensures |reqs[i].next[j]| < Height(ps) - 1
        {
          var x := reqs[i].next[j];
          var p :| p in ps && SplitPath(p) == (reqs[i].field, x);
          RemainderShorter(p);
        }
        HeightAtMost(reqs[i].next, Height(ps) - 1);
      }
    }
  }

  /** The recursive validation of the first n groups, in order, stopping at the first error. */
  function CheckNested(reg: Registry, reqs: seq<Request>, n: nat, h: nat): Option<Error>
    requires Closed(reg) && n <= |reqs|
    requires forall i :: 0 <= i < |reqs| ==> reqs[i].target in reg && Height(reqs[i].next) < h
    decreases h, 0, n
  {
    if n == 0 then None
    else
      match CheckNested(reg, reqs, n - 1, h)
      case Some(e) => Some(e)
      case None =>
        match Validated(reg, reqs[n - 1].target, reqs[n - 1].next)
        case Err(e) => Some(e)
        case Ok(_) => None
  }

  /** _get_validated_relationships(relationships): the grouped requests, once every group validates. */
  function Validated(reg: Registry, ty: TypeName, ps: seq<string>): Result<seq<Request>>
    requires Closed(reg) && ty in reg
    decreases Height(ps), 1, 0
  {
    match Normalize(reg, ty, ps)
    case Err(e) => Err(e)
    case Ok(reqs) =>
      NormalizeBounds(reg, ty, ps);
      match CheckNested(reg, reqs, |reqs|, Height(ps))
      case Some(e) => Err(e)
      case None => Ok(reqs)
  }

  /** Validated requests are the grouped ones, and each group is made of shorter paths. */
  lemma {:induction false} ValidatedBounds(reg: Registry, ty: TypeName, ps: seq<string>)
    requires Closed(reg) && ty in reg && Validated(reg, ty, ps).Ok?
    ensures Normalize(reg, ty, ps) == Validated(reg, ty, ps)
    ensures forall i :: 0 <= i < |Validated(reg, ty, ps).value| ==>
              Validated(reg, ty, ps).value[i].target in reg &&
              Height(Validated(reg, ty, ps).value[i].next) < Height(ps)
  {
    NormalizeBounds(reg, ty, ps);
  }

  /** The checks of the first n groups pass exactly when each of those groups validates. */
  lemma {:induction false} CheckNestedPasses(reg: Registry, reqs: seq<Request>, n: nat, h: nat)
    requires Closed(reg) && n <= |reqs|
    requires forall i :: 0 <= i < |reqs| ==> reqs[i].target in reg && Height(reqs[i].next) < h
    ensures CheckNested(reg, reqs, n, h).None? <==>
              forall i :: 0 <= i < n ==> Validated(reg, reqs[i].target, reqs[i].next).Ok?
  {
    if n > 0 {
      CheckNestedPasses(reg, reqs, n - 1, h);
      var last := Validated(reg, reqs[n - 1].target, reqs[n - 1].next);
      assert CheckNested(reg, reqs, n, h) ==
        if CheckNested(reg, reqs, n - 1, h).Some? then CheckNested(reg, reqs, n - 1, h)
        else if last.Err? then Some(last.error) else None;
    }
  }

  /** Once a group fails, the groups after it are not validated. */
  lemma {:induction false} CheckNestedKeepsError(reg: Registry, reqs: seq<Request>, n: nat, m: nat, h: nat)
    requires Closed(reg) && n <= m <= |reqs|
    requires forall i :: 0 <= i < |reqs| ==> reqs[i].target in reg && Height(reqs[i].next) < h
    requires CheckNested(reg, reqs, n, h).Some?
    ensures CheckNested(reg, reqs, m, h) == CheckNested(reg, reqs, n, h)
  {
    if m > n {
      CheckNestedKeepsError(reg, reqs, n, m - 1, h);
      assert CheckNested(reg, reqs, m, h) == CheckNested(reg, reqs, m - 1, h);
    }
  }

  /**
   * The reference meaning of a valid path: its head is a field with a related model and
   * its remainder, if any, is a valid path of that model.
   */
  ghost predicate PathValid(reg: Registry, ty: TypeName, p: string)
    requires Closed(reg) && ty in reg
    decreases |p|
  {
    HeadError(reg, ty, p) == None &&
    (SplitPath(p).1 != "" ==> PathValid(reg, HeadTarget(reg, ty, p), SplitPath(p).1))
  }

  /** A validated path list holds only valid paths. */
  lemma {:induction false} ValidatedPathsValid(reg: Registry, ty: TypeName, ps: seq<string>)
    requires Closed(reg) && ty in reg && Validated(reg, ty, ps).Ok?
    ensures forall i :: 0 <= i < |ps| ==> PathValid(reg, ty, ps[i])
    decreases Height(ps)
  {
    var reqs := Normalize(reg, ty, ps).value;
    ValidatedBounds(reg, ty, ps);
    NormalizeGrouped(reg, ty, ps);
    CheckNestedPasses(reg, reqs, |reqs|, Height(ps));
    forall k | 0 <= k < |ps|
      ensures PathValid(reg, ty, ps[k])
    {
      var p := ps[k];
      CoveredTarget(reg, ty, ps, reqs, p);
      var i := FindField(reqs, SplitPath(p).0);
      if SplitPath(p).1 != "" {
        ValidatedPathsValid(reg, reqs[i].target, reqs[i].next);
        var j :| 0 <= j < |reqs[i].next| && reqs[i].next[j] == SplitPath(p).1;
        assert PathValid(reg, reqs[i].target, SplitPath(p).1);
      }
    }
  }

  /** A list of valid paths validates. */
  lemma {:induction false} PathsValidValidate(reg: Registry, ty: TypeName, ps: seq<string>)
    requires Closed(reg) && ty in reg
    requires forall i :: 0 <= i < |ps| ==> PathValid(reg, ty, ps[i])
    ensures Validated(reg, ty, ps).Ok?
    decreases Height(ps)
  {
    NormalizeSucceeds(reg, ty, ps);
    var reqs := Normalize(reg, ty, ps).value;
    NormalizeGrouped(reg, ty, ps);
    NormalizeBounds(reg, ty, ps);
    forall i | 0 <= i < |reqs|
      ensures Validated(reg, reqs[i].target, reqs[i].next).Ok?
    {
      GroupPathsValid(reg, ty, ps, reqs, i);
      PathsValidValidate(reg, reqs[i].target, reqs[i].next);
    }
    CheckNestedPasses(reg, reqs, |reqs|, Height(ps));
  }

  /** When every path is valid, so is every remainder grouped under a head. */
  lemma {:induction false} GroupPathsValid(reg: Registry, ty: TypeName, ps: seq<string>, reqs: seq<Request>, i: nat)
    requires Closed(reg) && ty in reg && Grouped(reg, ty, ps, reqs) && i < |reqs| && reqs[i].target in reg
    requires forall k :: 0 <= k < |ps| ==> PathValid(reg, ty, ps[k])
    ensures forall j :: 0 <= j < |reqs[i].next| ==> PathValid(reg, reqs[i].target, reqs[i].next[j])
  {
    forall j | 0 <= j < |reqs[i].next|
      ensures PathValid(reg, reqs[i].target, reqs[i].next[j])
    {
      var x := reqs[i].next[j];
      var p :| p in ps && SplitPath(p) == (reqs[i].field, x);
      CoveredTarget(reg, ty, ps, reqs, p);
      FindFieldUnique(reqs, i);
      assert PathValid(reg, ty, p);
    }
  }

  /** Validation succeeds exactly when every requested path is valid, at every level. */
  lemma {:induction false} ValidatedIffPathsValid(reg: Registry, ty: TypeName, ps: seq<string>)
    requires Closed(reg) && ty in reg
    ensures Validated(reg, ty, ps).Ok? <==> forall i :: 0 <= i < |ps| ==> PathValid(reg, ty, ps[i])
  {
    if Validated(reg, ty, ps).Ok? {
      ValidatedPathsValid(reg, ty, ps);
    } else if forall i :: 0 <= i < |ps| ==> PathValid(reg, ty, ps[i]) {
      PathsValidValidate(reg, ty, ps);
    }
  }

  /** One pass of the grouping loop of _get_validated_relationships, as written. */
  method GroupPath(reg: Registry, ty: TypeName, reqs: seq<Request>, p: string) returns (r: Result<seq<Request>>)
    requires ty in reg
    ensures r == AddPath(reg, ty, reqs, p)
  {
    var (h, rest) := SplitPath(p);
    if h !in reg[ty].fields {
      return Err(UndefinedField(ty, {h}));
    }
    var grouped := reqs;
    var i := FindField(grouped, h);
    ghost var target := "";
    if i == |grouped| {
      var t := RelatedType(reg[ty].fields[h], ty, h);
      if t.Err? {
        return Err(t.error);
      }
      target := t.value;
      grouped := grouped + [Request(h, t.value, [])];
    }
    if rest != "" && rest !in grouped[i].next {
      grouped := grouped[i := grouped[i].(next := grouped[i].next + [rest])];
    }
    if i == |reqs| {
      assert grouped == reqs + [Request(h, target, Extend([], rest))];
    } else {
      assert grouped == reqs[i := reqs[i].(next := Extend(reqs[i].next, rest))];
    }
    return Ok(grouped);
  }

  /** The grouping loop of _get_validated_relationships, as written. */
  method GroupPaths(reg: Registry, ty: TypeName, ps: seq<string>) returns (r: Result<seq<Request>>)
    requires ty in reg
    ensures r == Normalize(reg, ty, ps)
  {
    var reqs: seq<Request> := [];
    var k := 0;
    while k < |ps|
      invariant k <= |ps|
      invariant Normalize(reg, ty, ps[..k]) == Ok(reqs)
    {
      assert ps[..k + 1][..k] == ps[..k];
      var step := GroupPath(reg, ty, reqs, ps[k]);
      if step.Err? {
        NormalizeKeepsError(reg, ty, ps, k + 1);
        return step;
      }
      reqs := step.value;
      k := k + 1;
    }
    assert ps[..k] == ps;
    return Ok(reqs);
  }

  /**
   * After n groups that validate, the result sub of validating the next one decides: an error
   * is the error of the whole check, success leaves n + 1 groups that validate.
   */
  lemma {:induction false} CheckNestedStep(reg: Registry, reqs: seq<Request>, n: nat, h: nat, sub: Result<seq<Request>>)
    requires Closed(reg) && n < |reqs|
    requires forall i :: 0 <= i < |reqs| ==> reqs[i].target in reg && Height(reqs[i].next) < h
    requires CheckNested(reg, reqs, n, h) == None
    requires sub == Validated(reg, reqs[n].target, reqs[n].next)
    ensures sub.Err? ==> CheckNested(reg, reqs, |reqs|, h) == Some(sub.error)
    ensures sub.Ok? ==> CheckNested(reg, reqs, n + 1, h) == None
  {
    if sub.Err? {
      CheckNestedKeepsError(reg, reqs, n + 1, |reqs|, h);
    }
  }

  /** The recursive validation loop of _get_validated_relationships, as written. */
  method ValidateGroups(reg: Registry, reqs: seq<Request>, h: nat) returns (e: Option<Error>)
    requires Closed(reg)
    requires forall i :: 0 <= i < |reqs| ==> reqs[i].target in reg && Height(reqs[i].next) < h
    ensures e == CheckNested(reg, reqs, |reqs|, h)
    decreases h, 0
  {
    var j := 0;
    while j < |reqs|
      invariant j <= |reqs|
      invariant CheckNested(reg, reqs, j, h) == None
    {
      var sub := GetValidatedRelationships(reg, reqs[j].target, reqs[j].next);
      CheckNestedStep(reg, reqs, j, h, sub);
      if sub.Err? {
        return Some(sub.error);
      }
      j := j + 1;
    }
    return None;
  }

  /**
   * _get_validated_relationships as written: a loop that fills the request list, then a loop
   * that validates each group recursively.
   */
  method GetValidatedRelationships(reg: Registry, ty: TypeName, ps: seq<string>) returns (r: Result<seq<Request>>)
    requires Closed(reg) && ty in reg
    ensures r == Validated(reg, ty, ps)
    decreases Height(ps), 1
  {
    var grouped := GroupPaths(reg, ty, ps);
    if grouped.Err? {
      return grouped;
    }
    var reqs := grouped.value;
    NormalizeBounds(reg, ty, ps);
    var failure := ValidateGroups(reg, reqs, Height(ps));
    if failure.Some? {
      return Err(failure.value);
    }
    return Ok(reqs);
  }
}
