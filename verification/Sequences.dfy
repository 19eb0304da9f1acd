/** Filtering and first-match search on sequences. */
module Sequences {
  import opened Entities

  function Filter<T>(s: seq<T>, p: T -> bool): seq<T> {
    if s == [] then []
    else
      var init, last := s[..|s| - 1], s[|s| - 1];
      if p(last) then Filter(init, p) + [last] else Filter(init, p)
  }

  lemma {:induction false} FilterMember<T>(s: seq<T>, p: T -> bool, x: T)
    ensures x in Filter(s, p) <==> x in s && p(x)
  {
    if s != [] {
      FilterMember(s[..|s| - 1], p, x);
    }
  }

  /** The least index whose element satisfies `p`. */
  function FirstIndex<T(!new)>(s: seq<T>, p: T -> bool): (r: Option<nat>)
    ensures r.None? ==> forall x :: x in s ==> !p(x)
    ensures r.Some? ==> IsFirst(s, p, r.value)
  {
    if s == [] then None
    else
      var prior := FirstIndex(s[..|s| - 1], p);
      if prior.Some? then prior
      else if p(s[|s| - 1]) then Some(|s| - 1) else None
  }

  ghost predicate IsFirst<T>(s: seq<T>, p: T -> bool, k: nat) {
    k < |s| && p(s[k]) && forall i :: 0 <= i < k ==> !p(s[i])
  }

  lemma {:induction false} FirstIndexUnique<T(!new)>(s: seq<T>, p: T -> bool, k: nat)
    requires IsFirst(s, p, k)
    ensures FirstIndex(s, p) == Some(k)
  {
  }
  /** The lists that `f` gives for the elements, one after the other. */
  ghost function Flat<R, T>(xs: seq<R>, f: R -> seq<T>): seq<T> {
    if xs == [] then [] else Flat(xs[..|xs| - 1], f) + f(xs[|xs| - 1])
  }

  lemma {:induction false} FlatConcat<R, T>(xs: seq<R>, ys: seq<R>, f: R -> seq<T>)
    ensures Flat(xs + ys, f) == Flat(xs, f) + Flat(ys, f)
  {
    if ys == [] {
      assert xs + ys == xs;
    } else {
      var init, last := ys[..|ys| - 1], ys[|ys| - 1];
      assert (xs + ys)[..|xs + ys| - 1] == xs + init;
      FlatConcat(xs, init, f);
    }
  }

  /** Equal contributions make equal lists. */
  lemma {:induction false} FlatSame<R, S, T>(xs: seq<R>, f: R -> seq<T>, ys: seq<S>, g: S -> seq<T>)
    requires |xs| == |ys| && forall i :: 0 <= i < |xs| ==> f(xs[i]) == g(ys[i])
    ensures Flat(xs, f) == Flat(ys, g)
  {
    if xs != [] {
      var n := |xs| - 1;
      FlatSame(xs[..n], f, ys[..n], g);
    }
  }
}
