/** Reachability in a directed graph given by its edges. */
module Graphs {
  type Edges<!T(!new)> = (T, T) -> bool

  ghost predicate IsPath<T(!new)>(e: Edges<T>, p: seq<T>) {
    |p| > 0 && forall i :: 0 <= i < |p| - 1 ==> e(p[i], p[i + 1])
  }

  /** b is a, or some number of edges from it. */
  ghost predicate Reaches<T(!new)>(e: Edges<T>, a: T, b: T) {
    exists p :: IsPath(e, p) && p[0] == a && p[|p| - 1] == b
  }

  /** b is one or more edges from a. */
  ghost predicate Follows<T(!new)>(e: Edges<T>, a: T, b: T) {
    exists d :: Reaches(e, a, d) && e(d, b)
  }

  lemma ReachSelf<T(!new)>(e: Edges<T>, a: T)
    ensures Reaches(e, a, a)
  {
    assert IsPath(e, [a]) && [a][0] == a && [a][|[a]| - 1] == a;
  }

  lemma ReachThen<T(!new)>(e: Edges<T>, a: T, b: T, c: T)
    requires Reaches(e, a, b) && Reaches(e, b, c)
    ensures Reaches(e, a, c)
  {
    var p :| IsPath(e, p) && p[0] == a && p[|p| - 1] == b;
    var q :| IsPath(e, q) && q[0] == b && q[|q| - 1] == c;
    var on := p + q[1..];
    forall i | 0 <= i < |on| - 1 ensures e(on[i], on[i + 1]) {
      if i >= |p| - 1 {
        assert on[i] == q[i - (|p| - 1)] && on[i + 1] == q[i + 1 - (|p| - 1)];
      }
    }
    assert IsPath(e, on) && on[0] == a && on[|on| - 1] == c;
  }

  lemma ReachEdge<T(!new)>(e: Edges<T>, a: T, b: T)
    requires e(a, b)
    ensures Reaches(e, a, b)
  {
    assert IsPath(e, [a, b]) && [a, b][0] == a && [a, b][|[a, b]| - 1] == b;
  }

  lemma ReachOn<T(!new)>(e: Edges<T>, a: T, b: T, c: T)
    requires Reaches(e, a, b) && e(b, c)
    ensures Reaches(e, a, c)
  {
    ReachEdge(e, b, c);
    ReachThen(e, a, b, c);
  }

  /** What holds of a and of both ends of an edge when of its start holds of all a reaches. */
  lemma {:induction false} ReachWithin<T(!new)>(e: Edges<T>, within: iset<T>, a: T, b: T)
    requires a in within && Reaches(e, a, b)
    requires forall x, y :: x in within && e(x, y) ==> y in within
    ensures b in within
  {
    var p :| IsPath(e, p) && p[0] == a && p[|p| - 1] == b;
    PathWithin(e, within, p, |p| - 1);
  }

  lemma {:induction false} PathWithin<T(!new)>(e: Edges<T>, within: iset<T>, p: seq<T>, n: nat)
    requires IsPath(e, p) && p[0] in within && n < |p|
    requires forall x, y :: x in within && e(x, y) ==> y in within
    ensures p[n] in within
  {
    if n > 0 {
      PathWithin(e, within, p, n - 1);
      assert e(p[n - 1], p[n - 1 + 1]);
    }
  }
}
