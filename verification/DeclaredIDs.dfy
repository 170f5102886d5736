/** The IDs a node declares, and whether one node declares any more often than another. */
module DeclaredIDs {
  import opened Values
  import opened Sequences

  /** An ID with its class, the name of the ID's type. */
  datatype ID = ID(kind: string, id: string)

  // ----- their order: by class, then by ID -----

  predicate Before(a: ID, b: ID) {
    if a.kind != b.kind then TextBefore(a.kind, b.kind) else TextBefore(a.id, b.id)
  }

  lemma BeforeIsTotal(a: ID, b: ID)
    ensures a == b || Before(a, b) || Before(b, a)
    ensures !(Before(a, b) && Before(b, a)) && !Before(a, a)
  {
    TextIsTotal(a.kind, b.kind);
    TextIsTotal(a.id, b.id);
    TextIsTotal(a.id, a.id);
  }

  lemma BeforeThen(a: ID, b: ID, c: ID)
    requires Before(a, b) && Before(b, c)
    ensures Before(a, c)
  {
    TextIsTotal(a.kind, b.kind);
    TextIsTotal(b.kind, c.kind);
    if a.kind != b.kind && b.kind != c.kind {
      TextThen(a.kind, b.kind, c.kind);
      TextIsTotal(a.kind, c.kind);
    } else if a.kind == b.kind && b.kind == c.kind {
      TextThen(a.id, b.id, c.id);
    }
  }

  predicate InOrder(s: seq<ID>) {
    forall i, j :: 0 <= i < j < |s| ==> s[i] == s[j] || Before(s[i], s[j])
  }

  lemma SortOrders(s: seq<ID>)
    ensures InOrder(Sort(Before, s)) && multiset(Sort(Before, s)) == multiset(s)
  {
    forall a, b, c ensures !(Before(a, b) && Before(b, a)) && (!Before(b, a) && !Before(c, b) ==> !Before(c, a)) {
      BeforeIsTotal(a, b);
      BeforeIsTotal(b, c);
      if Before(a, b) && Before(b, c) {
        BeforeThen(a, b, c);
        BeforeIsTotal(a, c);
      }
    }
    SortKeeps(Before, s);
    var sorted := Sort(Before, s);
    forall i, j | 0 <= i < j < |sorted| ensures sorted[i] == sorted[j] || Before(sorted[i], sorted[j]) {
      BeforeIsTotal(sorted[i], sorted[j]);
    }
  }

  // ----- the IDs a node declares -----

  /** A part of a node: the ID it declares, empty for none, and the parts in it, a part
      two paths reach standing on each. */
  datatype Part = Part(declares: Option<ID>, parts: seq<Part>)

  function Declared(p: Part): multiset<ID> {
    (if p.declares.Some? && p.declares.value.id != "" then multiset{p.declares.value} else multiset{}) + AllDeclared(p.parts)
  }

  function AllDeclared(ps: seq<Part>): multiset<ID> {
    if ps == [] then multiset{} else Declared(ps[0]) + AllDeclared(ps[1..])
  }

  function Count(p: Part): nat {
    1 + CountAll(p.parts)
  }

  function CountAll(ps: seq<Part>): nat {
    if ps == [] then 0 else Count(ps[0]) + CountAll(ps[1..])
  }

  lemma {:induction false} AllBoth(a: seq<Part>, b: seq<Part>)
    ensures AllDeclared(a + b) == AllDeclared(a) + AllDeclared(b) && CountAll(a + b) == CountAll(a) + CountAll(b)
  {
    if a == [] {
      assert a + b == b;
    } else {
      assert (a + b)[1..] == a[1..] + b;
      AllBoth(a[1..], b);
    }
  }

  /** Lists each ID root declares, as often as it does, entering each part once. */
  method Scan(root: Part) returns (list: seq<ID>)
    ensures multiset(list) == Declared(root)
  {
    var pending := [root];
    list := [];
    assert AllDeclared([root]) == Declared(root) + AllDeclared([root][1..]);
    while pending != []
      invariant multiset(list) + AllDeclared(pending) == Declared(root)
      decreases CountAll(pending)
    {
      var top := pending[|pending| - 1];
      var rest := pending[..|pending| - 1];
      assert pending == rest + [top];
      AllBoth(rest, [top]);
      AllBoth(rest, top.parts);
      assert AllDeclared([top]) == Declared(top) + AllDeclared([top][1..]);
      assert CountAll([top]) == Count(top) + CountAll([top][1..]);
      pending := rest + top.parts;
      if top.declares.Some? && top.declares.value.id != "" {
        list := list + [top.declares.value];
      }
    }
  }

  // ----- what one declares more often -----

  /** An ID declared more often than it was, with both counts. */
  datatype Over = Over(id: ID, was: nat, now: nat)

  // d runs from lo to hi in an ordered list.
  lemma RunIsCount(s: seq<ID>, d: ID, lo: nat, hi: nat)
    requires lo <= hi <= |s|
    requires forall k :: 0 <= k < lo ==> s[k] != d
    requires forall k :: lo <= k < hi ==> s[k] == d
    requires forall k :: hi <= k < |s| ==> s[k] != d
    ensures multiset(s)[d] == hi - lo
  {
    NoneIsZero(s[..lo], d);
    AllIsLength(s[lo..hi], d);
    NoneIsZero(s[hi..], d);
    assert s == s[..lo] + s[lo..hi] + s[hi..];
  }

  lemma NoneIsZero(s: seq<ID>, d: ID)
    requires forall k :: 0 <= k < |s| ==> s[k] != d
    ensures multiset(s)[d] == 0
  {
    assert d !in multiset(s);
  }

  lemma {:induction false} AllIsLength(s: seq<ID>, d: ID)
    requires forall k :: 0 <= k < |s| ==> s[k] == d
    ensures multiset(s)[d] == |s|
  {
    if s != [] {
      AllIsLength(s[1..], d);
      assert s == [s[0]] + s[1..];
    }
  }

  /** The least ID change declares more often than node, by class and then ID, with its
      counts: nothing exactly when every ID is declared as often in node. */
  method Excess(node: seq<ID>, change: seq<ID>) returns (over: Option<Over>)
    ensures over.None? <==> multiset(change) <= multiset(node)
    ensures over.Some? ==>
      var d := over.value.id;
      && over.value.was == multiset(node)[d] && over.value.now == multiset(change)[d] && over.value.now > over.value.was
      && forall x :: multiset(change)[x] > multiset(node)[x] ==> x == d || Before(d, x)
  {
    if node == change {
      return None;
    }
    var a, b := Sort(Before, node), Sort(Before, change);
    SortOrders(node);
    SortOrders(change);
    over := Merge(a, b);
  }

  method Merge(a: seq<ID>, b: seq<ID>) returns (over: Option<Over>)
    requires InOrder(a) && InOrder(b)
    ensures over.None? <==> multiset(b) <= multiset(a)
    ensures over.Some? ==>
      var d := over.value.id;
      && over.value.was == multiset(a)[d] && over.value.now == multiset(b)[d] && over.value.now > over.value.was
      && forall x :: multiset(b)[x] > multiset(a)[x] ==> x == d || Before(d, x)
  {
    hide Before, InOrder;
    var i, j := 0, 0;
    while j < |b|
      invariant i <= |a| && j <= |b|
      invariant forall k :: 0 <= k < j ==> multiset(b)[b[k]] <= multiset(a)[b[k]]
      invariant forall k, l :: 0 <= k < j <= l < |b| ==> b[k] != b[l]
      invariant forall k, l :: 0 <= k < i && j <= l < |b| ==> Before(a[k], b[l])
    {
      var d, first := b[j], j;
      while j < |b| && b[j] == d
        invariant first <= j <= |b|
        invariant forall k :: first <= k < j ==> b[k] == d
        decreases |b| - j
      {
        j := j + 1;
      }
      while i < |a| && Before(a[i], d)
        invariant i <= |a|
        invariant forall k :: 0 <= k < i ==> Before(a[k], d)
      {
        i := i + 1;
      }
      var run := i;
      while i < |a| && a[i] == d
        invariant run <= i <= |a|
        invariant forall k :: run <= k < i ==> a[k] == d
      {
        i := i + 1;
      }
      RunEnds(b, d, first, j);
      RunStarts(a, d, run, i);
      if j - first > i - run {
        LeastOver(a, b, d, first);
        return Some(Over(d, i - run, j - first));
      }
      PastRun(a, b, d, first, j, i);
    }
    forall x ensures multiset(b)[x] <= multiset(a)[x] {
      if x in multiset(b) {
        var k :| 0 <= k < |b| && b[k] == x;
      }
    }
    over := None;
  }

  lemma RunEnds(b: seq<ID>, d: ID, first: nat, j: nat)
    requires InOrder(b) && first < j <= |b| && (j < |b| ==> b[j] != d)
    requires forall k :: first <= k < j ==> b[k] == d
    requires forall k :: 0 <= k < first ==> b[k] != d
    ensures forall l :: j <= l < |b| ==> Before(d, b[l])
    ensures multiset(b)[d] == j - first
  {
    forall l | j <= l < |b| ensures Before(d, b[l]) && b[l] != d {
      assert b[first] == d;
      assert Before(d, b[j]);
      BeforeIsTotal(d, b[j]);
      BeforeIsTotal(d, b[l]);
      if l > j && b[j] != b[l] {
        BeforeThen(d, b[j], b[l]);
      }
    }
    RunIsCount(b, d, first, j);
  }

  lemma RunStarts(a: seq<ID>, d: ID, run: nat, i: nat)
    requires InOrder(a) && run <= i <= |a| && (i < |a| ==> a[i] != d) && (run < |a| ==> !Before(a[run], d))
    requires forall k :: 0 <= k < run ==> Before(a[k], d)
    requires forall k :: run <= k < i ==> a[k] == d
    ensures multiset(a)[d] == i - run
  {
    forall k | 0 <= k < run ensures a[k] != d {
      BeforeIsTotal(a[k], d);
    }
    forall k | i <= k < |a| ensures a[k] != d {
      BeforeIsTotal(a[i], d);
      if run < i {
        assert a[run] == d;
      }
      if a[k] != a[i] {
        BeforeThen(d, a[i], a[k]);
      }
      BeforeIsTotal(d, a[k]);
    }
    RunIsCount(a, d, run, i);
  }

  lemma LeastOver(a: seq<ID>, b: seq<ID>, d: ID, first: nat)
    requires InOrder(b) && first < |b| && b[first] == d
    requires forall k :: 0 <= k < first ==> multiset(b)[b[k]] <= multiset(a)[b[k]]
    ensures forall x :: multiset(b)[x] > multiset(a)[x] ==> x == d || Before(d, x)
  {
    forall x | multiset(b)[x] > multiset(a)[x] ensures x == d || Before(d, x) {
      assert x in multiset(b);
      var k :| 0 <= k < |b| && b[k] == x;
      assert k >= first;
    }
  }

  // What is read of a stays before what is left of b.
  lemma PastRun(a: seq<ID>, b: seq<ID>, d: ID, first: nat, j: nat, i: nat)
    requires first < j <= |b| && i <= |a|
    requires forall l :: j <= l < |b| ==> Before(d, b[l])
    requires forall k :: 0 <= k < i ==> a[k] == d || Before(a[k], d)
    ensures forall k, l :: 0 <= k < i && j <= l < |b| ==> Before(a[k], b[l])
  {
    forall k, l | 0 <= k < i && j <= l < |b| ensures Before(a[k], b[l]) {
      if a[k] != d {
        BeforeThen(a[k], d, b[l]);
      }
    }
  }
}
