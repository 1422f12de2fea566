/**
 * Relationship paths: a path names a field, optionally followed by '.' and a path into the
 * related model ("manager.department.superdepartment").
 */
module Paths {

  /** The separator between the levels of a relationship path. */
  const Separator: char := '.'

  /**
   * r.split('.', 1) when the path holds a separator, [r, ''] otherwise: the field the path
   * starts with and the remainder after the first separator.
   */
  function SplitPath(p: string): (r: (string, string))
    ensures Separator in p ==> p == r.0 + [Separator] + r.1 && Separator !in r.0
    ensures Separator !in p ==> r == (p, "")
  {
    if p == [] then ("", "")
    else if p[0] == Separator then ("", p[1..])
    else
      var t := SplitPath(p[1..]);
      assert p == [p[0]] + p[1..];
      ([p[0]] + t.0, t.1)
  }

  /** A non-empty remainder is shorter than the path it was cut from. */
  lemma RemainderShorter(p: string)
    ensures SplitPath(p).1 == "" || |SplitPath(p).1| < |p|
  {
  }

  /** Splitting at the first separator inverts joining a separator-free head to a remainder. */
  lemma {:induction false} SplitJoin(head: string, rest: string)
    requires Separator !in head
    ensures SplitPath(head + [Separator] + rest) == (head, rest)
  {
    if head != [] {
      var p := head + [Separator] + rest;
      assert p[0] == head[0] && head[0] != Separator;
      assert p[1..] == head[1..] + [Separator] + rest;
      SplitJoin(head[1..], rest);
      assert head == [head[0]] + head[1..];
    } else {
      assert (head + [Separator] + rest)[1..] == rest;
    }
  }

  function Max(a: nat, b: nat): nat
  {
    if a < b then b else a
  }

  /** One more than the length of the longest path: the measure the resolver recursion descends on. */
  function Height(ps: seq<string>): (h: nat)
    ensures forall i :: 0 <= i < |ps| ==> |ps[i]| < h
  {
    if ps == [] then 0 else Max(|ps[|ps| - 1]| + 1, Height(ps[..|ps| - 1]))
  }

  /** Paths all shorter than b have a height of at most b. */
  lemma {:induction false} HeightAtMost(ps: seq<string>, b: nat)
    requires forall i :: 0 <= i < |ps| ==> |ps[i]| < b
    ensures Height(ps) <= b
  {
    if ps != [] {
      HeightAtMost(ps[..|ps| - 1], b);
    }
  }
}
