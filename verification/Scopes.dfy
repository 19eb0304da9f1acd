/** Path-prefix containment of scopes, and the order it induces. */
module Scopes {
  /** Strips every trailing slash. */
  function Normalize(scope: string): (r: string)
    ensures r <= scope
    ensures r == "" || r[|r| - 1] != '/'
    ensures forall i :: |r| <= i < |scope| ==> scope[i] == '/'
  {
    if scope != "" && scope[|scope| - 1] == '/' then Normalize(scope[..|scope| - 1]) else scope
  }

  predicate ScopeContains(parent: string, child: string) {
    parent == ""
    || child == Normalize(parent)
    || Normalize(parent) + "/" <= child
  }

  /** `Normalize` is the only prefix with no trailing slash and only slashes after it. */
  lemma {:induction false} NormalizeUnique(scope: string, r: string)
    requires r <= scope
    requires r == "" || r[|r| - 1] != '/'
    requires forall i :: |r| <= i < |scope| ==> scope[i] == '/'
    ensures Normalize(scope) == r
  {
  }

  lemma {:induction false} ScopeReflexive(scope: string)
    ensures ScopeContains(scope, scope)
  {
  }

  /** What a non-empty scope contains: its own normal form and everything below it. */
  lemma {:induction false} ContainsShape(parent: string, child: string)
    requires parent != ""
    ensures var n := Normalize(parent);
      ScopeContains(parent, child) <==> n <= child && (|child| == |n| || child[|n|] == '/')
  {
  }

  /** Normal forms are nested exactly as the scopes are. */
  lemma {:induction false} NormalizeMonotone(parent: string, child: string)
    requires parent != "" && child != "" && ScopeContains(parent, child)
    ensures var n, m := Normalize(parent), Normalize(child);
      n <= m && (|m| == |n| || m[|n|] == '/')
  {
    var n, m := Normalize(parent), Normalize(child);
    ContainsShape(parent, child);
    assert |n| <= |m|;
  }

  /** Containment is transitive through a middle scope exactly when the middle
      scope is not the empty one, or the outer scope is empty, or the path is
      empty or starts at the root. */
  lemma {:induction false} ScopeTransitive(outer: string, middle: string, path: string)
    requires ScopeContains(outer, middle) && ScopeContains(middle, path)
    ensures ScopeContains(outer, path) <==>
            middle != "" || outer == "" || path == "" || path[0] == '/'
  {
    if outer != "" {
      ContainsShape(outer, middle);
      ContainsShape(outer, path);
      if middle != "" {
        ContainsShape(middle, path);
        NormalizeMonotone(outer, middle);
        var n, m := Normalize(outer), Normalize(middle);
        assert m <= path;
        assert n <= m;
        assert n == path[..|n|];
      }
    }
  }

  /** The universal scope "" is the one place where transitivity breaks. */
  lemma {:induction false} EmptyMiddleBreaksTransitivity()
    ensures ScopeContains("/", "") && ScopeContains("", "data") && !ScopeContains("/", "data")
  {
    NormalizeUnique("/", "");
    ContainsShape("/", "");
    ContainsShape("/", "data");
  }

  /** Antisymmetry up to trailing slashes, in both directions. */
  lemma {:induction false} ScopeAntisymmetric(p: string, q: string)
    ensures ScopeContains(p, q) && ScopeContains(q, p) <==> Normalize(p) == Normalize(q)
  {
    if p != "" && q != "" {
      if ScopeContains(p, q) && ScopeContains(q, p) {
        NormalizeMonotone(p, q);
        NormalizeMonotone(q, p);
      }
      if Normalize(p) == Normalize(q) {
        ContainsShape(p, q);
        ContainsShape(q, p);
      }
    } else if p == "" && q != "" {
      ContainsShape(q, p);
    } else if p != "" {
      ContainsShape(p, q);
    }
  }

  /** The order is a tree: the scopes that contain one path form a chain. */
  lemma {:induction false} ContainersComparable(p: string, q: string, path: string)
    requires ScopeContains(p, path) && ScopeContains(q, path)
    ensures ScopeContains(p, q) || ScopeContains(q, p)
  {
    if p != "" && q != "" {
      ContainsShape(p, path);
      ContainsShape(q, path);
      if |Normalize(p)| <= |Normalize(q)| {
        ContainerOrder(p, q, path);
      } else {
        ContainerOrder(q, p, path);
      }
    }
  }

  lemma {:induction false} ContainerOrder(p: string, q: string, path: string)
    requires p != "" && q != "" && ScopeContains(p, path) && ScopeContains(q, path)
    requires |Normalize(p)| <= |Normalize(q)|
    ensures ScopeContains(p, q)
  {
    var n, m := Normalize(p), Normalize(q);
    ContainsShape(p, path);
    ContainsShape(q, path);
    ContainsShape(p, q);
    assert n == path[..|n|] && m == path[..|m|] && m == q[..|m|];
    assert n == m[..|n|] == q[..|n|];
    if |n| < |m| {
      assert q[|n|] == m[|n|] == path[|n|];
    }
  }

  /** The written rule of section 3 of the v0.2 specification, which compares the
      child with the unstripped parent. */
  predicate SpecifiedScopeContains(parent: string, child: string) {
    parent == "" || child == parent || Normalize(parent) + "/" <= child
  }

  /** The code and that rule part exactly on a parent with a trailing slash and
      the same path without it. */
  lemma {:induction false} CodeAgreesWithWrittenRule(parent: string, child: string)
    ensures (ScopeContains(parent, child) <==> SpecifiedScopeContains(parent, child))
            <==> parent == "" || child != Normalize(parent) || parent == Normalize(parent)
  {
  }
}
