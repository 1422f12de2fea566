/**
 * The view helpers that read query parameters: an int parameter with default, fallback and
 * clamping, and a list parameter with optional deduplication. The request's arguments are
 * passed in as a map from parameter name to its values, in the order they were given.
 */
module QueryParams {
  import opened Values
  import opened Numerals
  import opened Models

  /** request.args: every value of each parameter, in order. */
  type Args = map<string, seq<string>>

  /** request.args.get(name): the first value of the parameter, if it has one. */
  function First(args: Args, name: string): (r: Option<string>)
    ensures r.Some? <==> name in args && args[name] != []
    ensures r.Some? ==> r.value == args[name][0]
  {
    if name in args && args[name] != [] then Some(args[name][0]) else None
  }

  function Min(a: int, b: int): int
  {
    if a <= b then a else b
  }

  function Max(a: int, b: int): int
  {
    if a >= b then a else b
  }

  /**
   * The clamp as the helper writes it, min(max_value or v, max(min_value or v, v)): a missing
   * bound is replaced by the value itself, so a lone min_value never takes effect.
   */
  function ClampAsWritten(v: int, minValue: Option<int>, maxValue: Option<int>): int
  {
    Min(if maxValue.Some? then maxValue.value else v, Max(if minValue.Some? then minValue.value else v, v))
  }

  /** With min_value and no max_value the written clamp returns the value unchanged, below the minimum included. */
  lemma ClampAsWrittenIgnoresMin(v: int, lo: int)
    ensures ClampAsWritten(v, Some(lo), None) == v
  {
  }

  /** offset=-3 with min_value=0, as the list view asks for the offset, stays -3. */
  lemma ClampAsWrittenNegativeOffset()
    ensures ClampAsWritten(-3, Some(0), None) == -3 < 0
  {
  }

  /** The intended clamp: raise to min_value when one is given, then lower to max_value when one is given. */
  function Clamp(v: int, minValue: Option<int>, maxValue: Option<int>): (r: int)
    ensures maxValue.Some? ==> r <= maxValue.value
    ensures minValue.Some? && (maxValue.None? || minValue.value <= maxValue.value) ==> r >= minValue.value
    ensures (minValue.None? || minValue.value <= v) && (maxValue.None? || v <= maxValue.value) ==> r == v
  {
    var raised := if minValue.Some? then Max(minValue.value, v) else v;
    if maxValue.Some? then Min(maxValue.value, raised) else raised
  }

  /** The two clamps differ only when min_value is given without max_value. */
  lemma ClampAgrees(v: int, minValue: Option<int>, maxValue: Option<int>)
    requires maxValue.Some? || minValue.None?
    ensures Clamp(v, minValue, maxValue) == ClampAsWritten(v, minValue, maxValue)
  {
  }

  /**
   * get_int_query_param: the default, unclamped, when the parameter is absent; otherwise its
   * first value parsed, or on a parse failure an error (raise_error) or the default; a value
   * that is then present is clamped.
   */
  function GetIntQueryParam(args: Args, name: string, raiseError: bool, default: Option<int>,
                            minValue: Option<int>, maxValue: Option<int>): (r: Result<Option<int>>)
    ensures r.Err? ==> r.error == InvalidInt && raiseError
    ensures r.Ok? && r.value.Some? && First(args, name).Some? && maxValue.Some? ==> r.value.value <= maxValue.value
    ensures r.Ok? && r.value.Some? && First(args, name).Some? && minValue.Some? &&
              (maxValue.None? || minValue.value <= maxValue.value) ==>
              r.value.value >= minValue.value
  {
    match First(args, name)
    case None => Ok(default)
    case Some(v) =>
      var parsed := ParseInt(v);
      if parsed.None? && raiseError then Err(InvalidInt)
      else
        var value := if parsed.Some? then parsed else default;
        if value.None? then Ok(None) else Ok(Some(Clamp(value.value, minValue, maxValue)))
  }

  /**
   * get_int_query_param as the helper writes it: the same reading of the parameter, with the
   * written clamp, so a value read alongside a lone min_value is returned as parsed.
   */
  function GetIntQueryParamAsWritten(args: Args, name: string, raiseError: bool, default: Option<int>,
                                     minValue: Option<int>, maxValue: Option<int>): (r: Result<Option<int>>)
    ensures r.Err? ==> r.error == InvalidInt && raiseError
    ensures r.Ok? && r.value.Some? && First(args, name).Some? && maxValue.Some? ==> r.value.value <= maxValue.value
    ensures First(args, name).Some? && ParseInt(First(args, name).value).Some? && maxValue.None? ==>
              r == Ok(ParseInt(First(args, name).value))
  {
    match First(args, name)
    case None => Ok(default)
    case Some(v) =>
      var parsed := ParseInt(v);
      if parsed.None? && raiseError then Err(InvalidInt)
      else
        var value := if parsed.Some? then parsed else default;
        if value.None? then Ok(None) else Ok(Some(ClampAsWritten(value.value, minValue, maxValue)))
  }

  /** The helper as written and as intended agree unless min_value is given without max_value. */
  lemma GetIntQueryParamAgrees(args: Args, name: string, raiseError: bool, default: Option<int>,
                               minValue: Option<int>, maxValue: Option<int>)
    requires maxValue.Some? || minValue.None?
    ensures GetIntQueryParamAsWritten(args, name, raiseError, default, minValue, maxValue) ==
            GetIntQueryParam(args, name, raiseError, default, minValue, maxValue)
  {
    if First(args, name).Some? {
      var parsed := ParseInt(First(args, name).value);
      var value := if parsed.Some? then parsed else default;
      if value.Some? {
        ClampAgrees(value.value, minValue, maxValue);
      }
    }
  }

  /** ?offset=-3 read with min_value=0 and no max_value: -3 as written, 0 as intended. */
  lemma GetIntQueryParamNegativeOffset()
    ensures GetIntQueryParamAsWritten(map["offset" := ["-3"]], "offset", false, None, Some(0), None) == Ok(Some(-3))
    ensures GetIntQueryParam(map["offset" := ["-3"]], "offset", false, None, Some(0), None) == Ok(Some(0))
  {
    ParseIntToString(-3);
    assert IntToString(-3) == "-3";
  }

  /** The cases of get_int_query_param, one by one. */
  lemma GetIntQueryParamCases(args: Args, name: string, raiseError: bool, default: Option<int>,
                              minValue: Option<int>, maxValue: Option<int>)
    ensures var r := GetIntQueryParam(args, name, raiseError, default, minValue, maxValue);
      (First(args, name).None? ==> r == Ok(default)) &&
      (First(args, name).Some? && ParseInt(First(args, name).value).Some? ==>
         r == Ok(Some(Clamp(ParseInt(First(args, name).value).value, minValue, maxValue)))) &&
      (First(args, name).Some? && ParseInt(First(args, name).value).None? && raiseError ==> r == Err(InvalidInt)) &&
      (First(args, name).Some? && ParseInt(First(args, name).value).None? && !raiseError ==>
         r == Ok(if default.None? then None else Some(Clamp(default.value, minValue, maxValue))))
  {
  }

  /** With min_value above max_value the clamp always yields max_value. */
  lemma ClampCrossedBounds(v: int, lo: int, hi: int)
    requires hi < lo
    ensures Clamp(v, Some(lo), Some(hi)) == hi
  {
  }

  /** Clamping twice is clamping once. */
  lemma ClampIdempotent(v: int, minValue: Option<int>, maxValue: Option<int>)
    ensures Clamp(Clamp(v, minValue, maxValue), minValue, maxValue) == Clamp(v, minValue, maxValue)
  {
  }

  /** A parameter given as the rendering of an int n reads back as n, clamped. */
  lemma GetIntQueryParamOfInt(args: Args, name: string, n: int, raiseError: bool, default: Option<int>,
                              minValue: Option<int>, maxValue: Option<int>)
    requires name in args && args[name] != [] && args[name][0] == IntToString(n)
    ensures GetIntQueryParam(args, name, raiseError, default, minValue, maxValue) == Ok(Some(Clamp(n, minValue, maxValue)))
  {
    ParseIntToString(n);
  }

  /** The values in first-occurrence order, each once. */
  function Unique(xs: seq<string>): (r: seq<string>)
    ensures forall x :: x in r <==> x in xs
    ensures Distinct(r)
    ensures |r| <= |xs|
  {
    if xs == [] then []
    else
      var p := Unique(xs[..|xs| - 1]);
      var x := xs[|xs| - 1];
      assert forall y :: y in xs <==> y in xs[..|xs| - 1] || y == x;
      if x in p then p else p + [x]
  }

  /**
   * get_list_query_param: None when the parameter has no value; otherwise its values, or with
   * remove_duplicates each value once.
   */
  function GetListQueryParam(args: Args, name: string, removeDuplicates: bool): (r: Option<seq<string>>)
    ensures r.None? <==> name !in args || args[name] == []
    ensures r.Some? && !removeDuplicates ==> r.value == args[name]
    ensures r.Some? && removeDuplicates ==>
              Distinct(r.value) && (forall x :: x in r.value <==> x in args[name]) && r.value != []
  {
    var values := if name in args then args[name] else [];
    if values == [] then None
    else if removeDuplicates then Some(Unique(values))
    else Some(values)
  }

  /** Deduplicating values that are already distinct changes nothing. */
  lemma {:induction false} UniqueOfDistinct(xs: seq<string>)
    requires Distinct(xs)
    ensures Unique(xs) == xs
  {
    if xs != [] {
      var p := xs[..|xs| - 1];
      assert Distinct(p);
      UniqueOfDistinct(p);
      assert xs[|xs| - 1] !in p;
      assert p + [xs[|xs| - 1]] == xs;
    }
  }
}
