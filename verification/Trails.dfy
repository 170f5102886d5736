/** The order a depth-first walk reads nodes in, told by what each node's entries lead to,
    first entries first. */
module Trails {
  import opened Values
  import opened Graphs

  type Id = string

  /** A node's entries, in order, each with the node it leads to, if any. */
  type Graph = Id -> seq<Option<Id>>

  ghost function Links(g: Graph): Edges<Id> {
    (a, b) => Some(b) in g(a)
  }

  // Links that do not leave a.
  ghost function Avoiding(g: Graph, a: Id): Edges<Id> {
    (x, y) => x != a && Some(y) in g(x)
  }

  /** Every way from root to x is through a. */
  ghost predicate Guards(g: Graph, root: Id, a: Id, x: Id) {
    x != a && !Reaches(Avoiding(g, a), root, x)
  }

  ghost predicate Before(out: seq<Id>, b: Id, c: Id) {
    exists p, q :: 0 <= p < q < |out| && out[p] == b && out[q] == c
  }

  /** None of the first entries of a, its i-th among them, leads to c but through a, which
      guards c: so the walk meets c by a later entry of a. */
  ghost predicate MetLater(g: Graph, root: Id, a: Id, i: nat, c: Id) {
    && Guards(g, root, a, c) && i < |g(a)|
    && forall k :: 0 <= k <= i ==> !LeadsOff(g, a, k, c)
  }

  ghost predicate LeadsOff(g: Graph, a: Id, k: nat, c: Id) {
    k < |g(a)| && g(a)[k].Some? && Reaches(Avoiding(g, a), g(a)[k].value, c)
  }

  /** And b, the i-th entry's, is read before it: b leads not back to a, or c leads to b
      and a guards it too. */
  ghost predicate ComesFirst(g: Graph, root: Id, a: Id, i: nat, b: Id, c: Id) {
    && MetLater(g, root, a, i, c) && g(a)[i] == Some(b)
    && (!Reaches(Links(g), b, a) || (Guards(g, root, a, b) && Reaches(Links(g), c, b)))
  }

  // ----- a walk under way -----

  /** A walk as far as order goes: the nodes met, those it is inside with how many entries
      of each it followed, those done and waiting for their component, and those read. */
  datatype Trail = Trail(met: set<Id>, path: seq<Id>, next: seq<nat>, waiting: seq<Id>, out: seq<Id>)

  // Entry n of x was followed.
  ghost predicate Done(g: Graph, t: Trail, x: Id, n: nat) {
    && x in t.met && n < |g(x)|
    && forall j :: 0 <= j < |t.path| && j < |t.next| && t.path[j] == x ==> n < t.next[j]
  }

  ghost function DoneEdges(g: Graph, t: Trail): Edges<Id> {
    (x, y) => exists n: nat :: Done(g, t, x, n) && g(x)[n] == Some(y)
  }

  // And the walk is back from it.
  ghost predicate Passed(g: Graph, t: Trail, x: Id, n: nat) {
    && x in t.met && n < |g(x)|
    && forall j :: 0 <= j < |t.path| && j < |t.next| && t.path[j] == x ==>
      n + 1 < t.next[j] || (j == |t.path| - 1 && n < t.next[j])
  }

  ghost predicate OnPath(g: Graph, root: Id, path: seq<Id>) {
    && (path != [] ==> path[0] == root)
    && (forall i, j :: 0 <= i < j < |path| ==> path[i] != path[j])
    && forall j :: 0 <= j < |path| - 1 ==> Links(g)(path[j], path[j + 1])
  }

  ghost predicate Covered(g: Graph, root: Id, t: Trail) {
    forall x :: x in t.met ==> Reaches(DoneEdges(g, t), root, x)
  }

  ghost predicate SettledAt(g: Graph, root: Id, t: Trail, a: Id, b: Id) {
    && (!Reaches(Links(g), b, a) ==> b in t.out)
    && (Guards(g, root, a, b) ==> b in t.out || b in t.waiting)
  }

  ghost predicate Settled(g: Graph, root: Id, t: Trail) {
    forall a, n: nat :: Passed(g, t, a, n) && g(a)[n].Some? ==> SettledAt(g, root, t, a, g(a)[n].value)
  }

  ghost predicate Ahead(g: Graph, t: Trail, b: Id, c: Id) {
    || (b in t.out && (c in t.out ==> Before(t.out, b, c)))
    || (b in t.waiting && c !in t.out && Reaches(Links(g), c, b) && (c in t.waiting ==> Before(t.waiting, b, c)))
  }

  ghost predicate AllAhead(g: Graph, root: Id, t: Trail) {
    forall a, i: nat, b, c :: ComesFirst(g, root, a, i, b, c) && c in t.met ==> Ahead(g, t, b, c)
  }

  ghost predicate AllWithin(g: Graph, root: Id, t: Trail) {
    forall a, x :: Guards(g, root, a, x) && x in t.met && a !in t.path ==> Ahead(g, t, x, a)
  }

  ghost predicate Shaped(t: Trail) {
    && |t.next| == |t.path|
    && (forall x :: x in t.out ==> x in t.met) && (forall x :: x in t.waiting ==> x in t.met && x !in t.out)
    && (forall x :: x in t.path ==> x in t.met && x !in t.out && x !in t.waiting)
    && (forall i, j :: 0 <= i < j < |t.waiting| ==> t.waiting[i] != t.waiting[j])
  }

  /** What holds of a walk between steps. */
  ghost predicate Ordered(g: Graph, root: Id, t: Trail) {
    && Shaped(t) && OnPath(g, root, t.path) && Covered(g, root, t) && Settled(g, root, t)
    && AllAhead(g, root, t) && AllWithin(g, root, t)
  }

  /** Whatever is met and leads not back to the node the walk is in is read, and whatever
      is not on the path is done. */
  ghost predicate TopSettles(g: Graph, t: Trail) {
    t.path != [] ==>
      forall b :: b in t.met ==>
        && (!Reaches(Links(g), b, t.path[|t.path| - 1]) ==> b in t.out)
        && (b in t.path || b in t.waiting || b in t.out)
  }

  // ----- what each step keeps -----

  lemma MoreReached(e: Edges<Id>, f: Edges<Id>, a: Id, b: Id)
    requires Reaches(e, a, b) && forall x, y :: e(x, y) ==> f(x, y)
    ensures Reaches(f, a, b)
  {
    var p :| IsPath(e, p) && p[0] == a && p[|p| - 1] == b;
    assert IsPath(f, p);
  }

  lemma CoveredOn(g: Graph, root: Id, s: Trail, t: Trail)
    requires Covered(g, root, s) && forall x, n: nat :: Done(g, s, x, n) ==> Done(g, t, x, n)
    requires forall x :: x in t.met ==> x in s.met || Reaches(DoneEdges(g, t), root, x)
    ensures Covered(g, root, t)
  {
    hide Reaches;
    forall x, y ensures DoneEdges(g, s)(x, y) ==> DoneEdges(g, t)(x, y) {
      if DoneEdges(g, s)(x, y) {
        var n: nat :| Done(g, s, x, n) && g(x)[n] == Some(y);
        assert Done(g, t, x, n);
      }
    }
    forall x | x in t.met ensures Reaches(DoneEdges(g, t), root, x) {
      if x in s.met {
        MoreReached(DoneEdges(g, s), DoneEdges(g, t), root, x);
      }
    }
  }

  // The node at j is reached by the path below it, and by no node above.
  lemma {:induction false} PathAvoids(g: Graph, root: Id, path: seq<Id>, j: nat, a: Id)
    requires OnPath(g, root, path) && j < |path| && forall k :: 0 <= k < j ==> path[k] != a
    ensures Reaches(Avoiding(g, a), root, path[j])
    decreases j
  {
    hide Reaches;
    if j == 0 {
      ReachSelf(Avoiding(g, a), root);
    } else {
      PathAvoids(g, root, path, j - 1, a);
      assert Links(g)(path[j - 1], path[j - 1 + 1]);
      ReachOn(Avoiding(g, a), root, path[j - 1], path[j]);
    }
  }

  // What an entry the walk is back from leads to is settled where the walk is.
  lemma TopIsSettled(g: Graph, root: Id, t: Trail, b: Id)
    requires Shaped(t) && OnPath(g, root, t.path) && TopSettles(g, t) && t.path != [] && b in t.met
    ensures SettledAt(g, root, t, t.path[|t.path| - 1], b)
  {
    hide Reaches;
    var last := |t.path| - 1;
    var a := t.path[last];
    if Guards(g, root, a, b) && b in t.path {
      var j :| 0 <= j < |t.path| && t.path[j] == b;
      PathAvoids(g, root, t.path, j, a);
    }
  }

  // c met, a later entry of a was followed.
  lemma MetThrough(g: Graph, root: Id, t: Trail, a: Id, i: nat, c: Id)
    requires Covered(g, root, t) && c in t.met && MetLater(g, root, a, i, c)
    ensures Passed(g, t, a, i)
  {
    hide Reaches;
    if !exists n: nat :: n > i && Done(g, t, a, n) {
      var within := iset y | y == a || Reaches(Avoiding(g, a), root, y) || exists k: nat :: k <= i && LeadsOff(g, a, k, y);
      ReachSelf(Avoiding(g, a), root);
      forall x, y | x in within && DoneEdges(g, t)(x, y) ensures y in within {
        var n: nat :| Done(g, t, x, n) && g(x)[n] == Some(y);
        if x == a {
          ReachSelf(Avoiding(g, a), y);
          assert LeadsOff(g, a, n, y);
        } else if Reaches(Avoiding(g, a), root, x) {
          ReachOn(Avoiding(g, a), root, x, y);
        } else {
          var k: nat :| k <= i && LeadsOff(g, a, k, x);
          ReachOn(Avoiding(g, a), g(a)[k].value, x, y);
          assert LeadsOff(g, a, k, y);
        }
      }
      ReachWithin(DoneEdges(g, t), within, root, c);
      assert false;
    }
  }

  // So it is behind b.
  lemma MetBehind(g: Graph, root: Id, t: Trail, a: Id, i: nat, b: Id, c: Id)
    requires Covered(g, root, t) && Settled(g, root, t) && c in t.met && ComesFirst(g, root, a, i, b, c)
    requires c !in t.out && c !in t.waiting
    ensures Ahead(g, t, b, c)
  {
    hide Reaches, Passed, MetLater;
    MetThrough(g, root, t, a, i, c);
    MetLaterHas(g, root, a, i, c);
    assert SettledAt(g, root, t, a, g(a)[i].value);
  }

  lemma MetLaterHas(g: Graph, root: Id, a: Id, i: nat, c: Id)
    requires MetLater(g, root, a, i, c)
    ensures i < |g(a)|
  {}

  lemma StartOrdered(g: Graph, root: Id)
    ensures Ordered(g, root, Trail({root}, [root], [0], [], []))
  {
    hide Reaches;
    var t := Trail({root}, [root], [0], [], []);
    ReachSelf(DoneEdges(g, t), root);
    forall a ensures !Guards(g, root, a, root) {
      ReachSelf(Avoiding(g, a), root);
    }
    assert t.path[0] == root;
  }

  // ----- what every way leads through -----

  // What a guards and the walk met is reached from a.
  lemma GuardsLead(g: Graph, root: Id, t: Trail, a: Id, x: Id)
    requires Covered(g, root, t) && Guards(g, root, a, x) && x in t.met
    ensures Reaches(Links(g), a, x)
  {
    hide Reaches;
    var within := iset y | Reaches(Avoiding(g, a), root, y) || Reaches(Links(g), a, y);
    ReachSelf(Avoiding(g, a), root);
    ReachSelf(Links(g), a);
    forall y, z | y in within && DoneEdges(g, t)(y, z) ensures z in within {
      var n: nat :| Done(g, t, y, n) && g(y)[n] == Some(z);
      assert Links(g)(y, z);
      if Reaches(Links(g), a, y) {
        ReachOn(Links(g), a, y, z);
      } else {
        assert y != a;
        ReachOn(Avoiding(g, a), root, y, z);
      }
    }
    ReachWithin(DoneEdges(g, t), within, root, x);
  }

  // The path to the top and on to x is a way to x.
  lemma GuardsOnPath(g: Graph, root: Id, path: seq<Id>, a: Id, x: Id)
    requires OnPath(g, root, path + [x]) && Guards(g, root, a, x)
    ensures a in path
  {
    hide Reaches;
    if a !in path {
      assert (path + [x])[|path|] == x;
      PathAvoids(g, root, path + [x], |path|, a);
    }
  }

  // The top done, what it guards is done before it.
  lemma TopWithin(g: Graph, root: Id, s: Trail, x: Id)
    requires Shaped(s) && OnPath(g, root, s.path) && s.path != [] && Covered(g, root, s) && TopSettles(g, s)
    requires Guards(g, root, s.path[|s.path| - 1], x) && x in s.met
    ensures Ahead(g, s, x, s.path[|s.path| - 1])
  {
    hide Reaches;
    var top := s.path[|s.path| - 1];
    GuardsLead(g, root, s, top, x);
    assert top in s.path;
    if x in s.path {
      var j :| 0 <= j < |s.path| && s.path[j] == x;
      PathAvoids(g, root, s.path, j, top);
      assert false;
    }
  }

  /** Following the last node's next entry to one met, or to none, keeps the order. */
  lemma FollowOrdered(g: Graph, root: Id, s: Trail, t: Trail)
    requires Ordered(g, root, s) && s.path != [] && TopSettles(g, t)
    requires var last := |s.path| - 1;
      && s.next[last] < |g(s.path[last])| && t == s.(next := s.next[last := s.next[last] + 1])
      && (g(s.path[last])[s.next[last]].Some? ==> g(s.path[last])[s.next[last]].value in s.met)
    ensures Ordered(g, root, t)
  {
    hide Reaches, Ahead, ComesFirst, AllWithin;
    var last := |s.path| - 1;
    CoveredOn(g, root, s, t);
    forall a, n: nat | Passed(g, t, a, n) && g(a)[n].Some? ensures SettledAt(g, root, t, a, g(a)[n].value) {
      if a == s.path[last] && n == s.next[last] {
        TopIsSettled(g, root, t, g(a)[n].value);
      } else {
        assert Passed(g, s, a, n);
        assert SettledAt(g, root, s, a, g(a)[n].value);
      }
    }
    forall a, i: nat, b, c | ComesFirst(g, root, a, i, b, c) && c in t.met ensures Ahead(g, t, b, c) {
      assert Ahead(g, s, b, c);
      AheadStill(g, s, t, b, c);
    }
    WithinStill(g, root, s, t);
  }

  lemma WithinStill(g: Graph, root: Id, s: Trail, t: Trail)
    requires AllWithin(g, root, s) && t.out == s.out && t.waiting == s.waiting && t.met == s.met && t.path == s.path
    ensures AllWithin(g, root, t)
  {
    hide Reaches, Ahead, Guards;
    forall a, x | Guards(g, root, a, x) && x in t.met && a !in t.path ensures Ahead(g, t, x, a) {
      AheadStill(g, s, t, x, a);
    }
  }

  lemma AheadStill(g: Graph, s: Trail, t: Trail, b: Id, c: Id)
    requires Ahead(g, s, b, c) && t.out == s.out && t.waiting == s.waiting
    ensures Ahead(g, t, b, c)
  {}

  /** Meeting the node it leads to keeps the order: that one comes behind. */
  lemma MeetOrdered(g: Graph, root: Id, s: Trail, t: Trail, x: Id)
    requires Ordered(g, root, s) && s.path != [] && x !in s.met
    requires var last := |s.path| - 1;
      && s.next[last] < |g(s.path[last])| && g(s.path[last])[s.next[last]] == Some(x)
      && t == s.(met := s.met + {x}, path := s.path + [x], next := s.next[last := s.next[last] + 1] + [0])
    ensures Ordered(g, root, t)
  {
    hide Reaches, Ahead, ComesFirst, AllWithin;
    var last := |s.path| - 1;
    var top := s.path[last];
    MeetPath(g, root, s.path, x);
    forall y, n: nat | Done(g, s, y, n) ensures Done(g, t, y, n) {}
    assert Done(g, t, top, s.next[last]);
    assert DoneEdges(g, t)(top, x);
    assert Reaches(DoneEdges(g, t), root, x) by {
      forall y, z ensures DoneEdges(g, s)(y, z) ==> DoneEdges(g, t)(y, z) {}
      MoreReached(DoneEdges(g, s), DoneEdges(g, t), root, top);
      ReachOn(DoneEdges(g, t), root, top, x);
    }
    CoveredOn(g, root, s, t);
    MeetSettled(g, root, s, t, x);
    forall a, i: nat, b, c | ComesFirst(g, root, a, i, b, c) && c in t.met ensures Ahead(g, t, b, c) {
      if c == x {
        MetBehind(g, root, t, a, i, b, c);
      } else {
        assert Ahead(g, s, b, c);
        AheadStill(g, s, t, b, c);
      }
    }
    MeetWithin(g, root, s, t, x);
  }

  lemma MeetWithin(g: Graph, root: Id, s: Trail, t: Trail, x: Id)
    requires AllWithin(g, root, s) && t.out == s.out && t.waiting == s.waiting && t.met == s.met + {x} && t.path == s.path + [x]
    requires OnPath(g, root, t.path)
    ensures AllWithin(g, root, t)
  {
    hide Reaches, Ahead, Guards, OnPath;
    forall a, y | Guards(g, root, a, y) && y in t.met && a !in t.path ensures Ahead(g, t, y, a) {
      assert a !in s.path;
      if y == x {
        GuardsOnPath(g, root, s.path, a, x);
      }
      AheadStill(g, s, t, y, a);
    }
  }

  lemma MeetPath(g: Graph, root: Id, path: seq<Id>, x: Id)
    requires OnPath(g, root, path) && path != [] && x !in path && Links(g)(path[|path| - 1], x)
    ensures OnPath(g, root, path + [x])
  {
    var on := path + [x];
    forall j | 0 <= j < |on| - 1 ensures Links(g)(on[j], on[j + 1]) {
      if j < |path| - 1 {
        assert Links(g)(path[j], path[j + 1]);
      }
    }
  }

  lemma MeetSettled(g: Graph, root: Id, s: Trail, t: Trail, x: Id)
    requires Shaped(s) && Settled(g, root, s) && s.path != [] && x !in s.met
    requires var last := |s.path| - 1;
      t == s.(met := s.met + {x}, path := s.path + [x], next := s.next[last := s.next[last] + 1] + [0])
    ensures Settled(g, root, t)
  {
    hide Reaches;
    var last := |s.path| - 1;
    forall a, n: nat | Passed(g, t, a, n) && g(a)[n].Some? ensures SettledAt(g, root, t, a, g(a)[n].value) {
      assert t.path[last + 1] == x && t.next[last + 1] == 0;
      assert a != x;
      forall j | 0 <= j < |s.path| && s.path[j] == a ensures n + 1 < s.next[j] || (j == last && n < s.next[j]) {
        assert t.path[j] == a;
      }
      assert Passed(g, s, a, n);
      assert SettledAt(g, root, s, a, g(a)[n].value);
    }
  }

  // The last node off the path, with the rest of it settled.
  lemma PopSettled(g: Graph, root: Id, s: Trail, t: Trail)
    requires Shaped(s) && Shaped(t) && OnPath(g, root, t.path) && Settled(g, root, s) && s.path != [] && TopSettles(g, t)
    requires s.next[|s.path| - 1] == |g(s.path[|s.path| - 1])|
    requires t.met == s.met && t.path == s.path[..|s.path| - 1] && t.next == s.next[..|s.path| - 1]
    requires forall x :: x in s.out ==> x in t.out
    requires forall x :: x in s.waiting ==> x in t.waiting || x in t.out
    requires forall j, n :: 0 <= j < |t.path| && 0 <= n < t.next[j] && n < |g(t.path[j])| && g(t.path[j])[n].Some? ==>
      g(t.path[j])[n].value in t.met
    ensures Settled(g, root, t)
  {
    hide Reaches;
    var last := |s.path| - 1;
    forall a, n: nat | Passed(g, t, a, n) && g(a)[n].Some? ensures SettledAt(g, root, t, a, g(a)[n].value) {
      if last > 0 && a == t.path[last - 1] {
        assert n < t.next[last - 1];
        TopIsSettled(g, root, t, g(a)[n].value);
      } else {
        forall j | 0 <= j < |s.path| && s.path[j] == a ensures n + 1 < s.next[j] || (j == last && n < s.next[j]) {
          assert j < last ==> t.path[j] == a;
        }
        assert Passed(g, s, a, n);
        assert SettledAt(g, root, s, a, g(a)[n].value);
      }
    }
  }

  lemma PopCovered(g: Graph, root: Id, s: Trail, t: Trail)
    requires Covered(g, root, s) && s.path != [] && |s.next| == |s.path|
    requires t.met == s.met && t.path == s.path[..|s.path| - 1] && t.next == s.next[..|s.path| - 1]
    ensures Covered(g, root, t)
  {
    forall x, n: nat | Done(g, s, x, n) ensures Done(g, t, x, n) {}
    CoveredOn(g, root, s, t);
  }

  lemma PopPath(g: Graph, root: Id, path: seq<Id>)
    requires OnPath(g, root, path) && path != []
    ensures OnPath(g, root, path[..|path| - 1])
  {
    var front := path[..|path| - 1];
    forall j | 0 <= j < |front| - 1 ensures Links(g)(front[j], front[j + 1]) {
      assert Links(g)(path[j], path[j + 1]);
    }
  }

  /** The last node done and waiting keeps the order. */
  lemma FinishOrdered(g: Graph, root: Id, s: Trail, t: Trail)
    requires Ordered(g, root, s) && s.path != [] && TopSettles(g, s) && TopSettles(g, t)
    requires var last := |s.path| - 1;
      && s.next[last] == |g(s.path[last])|
      && t == s.(path := s.path[..last], next := s.next[..last], waiting := s.waiting + [s.path[last]])
    requires forall j, n :: 0 <= j < |t.path| && 0 <= n < t.next[j] && n < |g(t.path[j])| && g(t.path[j])[n].Some? ==>
      g(t.path[j])[n].value in t.met
    ensures Ordered(g, root, t)
  {
    hide Reaches, ComesFirst, Covered, Settled, OnPath, AllWithin;
    PopPath(g, root, s.path);
    PopCovered(g, root, s, t);
    FinishShaped(g, root, s, t);
    PopSettled(g, root, s, t);
    forall a, i: nat, b, c | ComesFirst(g, root, a, i, b, c) && c in t.met ensures Ahead(g, t, b, c) {
      assert Ahead(g, s, b, c);
      WaitingOn(g, s, t, s.path[|s.path| - 1], b, c);
    }
    FinishWithin(g, root, s, t);
  }

  lemma FinishWithin(g: Graph, root: Id, s: Trail, t: Trail)
    requires Ordered(g, root, s) && s.path != [] && TopSettles(g, s)
    requires t.path == s.path[..|s.path| - 1] && t.met == s.met
    requires t.out == s.out && t.waiting == s.waiting + [s.path[|s.path| - 1]]
    ensures AllWithin(g, root, t)
  {
    hide Reaches, Covered, Settled, OnPath, Ahead, Guards, TopSettles;
    var top := s.path[|s.path| - 1];
    assert s.path == t.path + [top];
    forall a, x | Guards(g, root, a, x) && x in t.met && a !in t.path ensures Ahead(g, t, x, a) {
      if a == top {
        TopWithin(g, root, s, x);
      } else {
        assert Ahead(g, s, x, a);
      }
      WaitingOn(g, s, t, top, x, a);
    }
  }

  lemma FinishShaped(g: Graph, root: Id, s: Trail, t: Trail)
    requires Shaped(s) && OnPath(g, root, s.path) && s.path != []
    requires var last := |s.path| - 1;
      t == s.(path := s.path[..last], next := s.next[..last], waiting := s.waiting + [s.path[last]])
    ensures Shaped(t)
  {
    assert s.path[|s.path| - 1] in s.path;
  }

  lemma WaitingOn(g: Graph, s: Trail, t: Trail, top: Id, b: Id, c: Id)
    requires Ahead(g, s, b, c) && t.out == s.out && t.waiting == s.waiting + [top] && top !in s.waiting
    ensures Ahead(g, t, b, c)
  {
    hide Reaches;
    if b in s.waiting && !(b in s.out) {
      var p :| 0 <= p < |s.waiting| && s.waiting[p] == b;
      assert t.waiting[p] == b;
      if c in s.waiting {
        var m, n :| 0 <= m < n < |s.waiting| && s.waiting[m] == b && s.waiting[n] == c;
        assert t.waiting[m] == b && t.waiting[n] == c;
      } else if c == top {
        assert t.waiting[|s.waiting|] == c;
      }
    }
  }

  /** Reading a component, all that waits from n on and the last node, keeps the order. */
  lemma CloseOrdered(g: Graph, root: Id, s: Trail, t: Trail, n: nat)
    requires Ordered(g, root, s) && s.path != [] && TopSettles(g, s) && TopSettles(g, t) && n <= |s.waiting|
    requires var last := |s.path| - 1;
      && s.next[last] == |g(s.path[last])|
      && t == s.(path := s.path[..last], next := s.next[..last], waiting := s.waiting[..n],
                 out := s.out + (s.waiting[n..] + [s.path[last]]))
    requires forall j, n :: 0 <= j < |t.path| && 0 <= n < t.next[j] && n < |g(t.path[j])| && g(t.path[j])[n].Some? ==>
      g(t.path[j])[n].value in t.met
    requires forall x, y :: x in t.out && Links(g)(x, y) ==> y in t.out
    requires forall i, j :: 0 <= i < j < |t.out| ==> t.out[i] != t.out[j]
    ensures Ordered(g, root, t)
  {
    hide Reaches, ComesFirst, Covered, Settled, OnPath, Ahead, AllWithin;
    var last := |s.path| - 1;
    PopPath(g, root, s.path);
    PopCovered(g, root, s, t);
    CloseShaped(g, root, s, t, n);
    CloseHas(s, t, n);
    PopSettled(g, root, s, t);
    forall a, i: nat, b, c | ComesFirst(g, root, a, i, b, c) && c in t.met ensures Ahead(g, t, b, c) {
      assert Ahead(g, s, b, c);
      ReadTogether(g, s, t, n, b, c);
    }
    CloseWithin(g, root, s, t, n);
  }

  lemma CloseWithin(g: Graph, root: Id, s: Trail, t: Trail, n: nat)
    requires Ordered(g, root, s) && s.path != [] && TopSettles(g, s) && n <= |s.waiting|
    requires t.path == s.path[..|s.path| - 1] && t.met == s.met && t.waiting == s.waiting[..n]
    requires t.out == s.out + (s.waiting[n..] + [s.path[|s.path| - 1]])
    requires forall x, y :: x in t.out && Links(g)(x, y) ==> y in t.out
    ensures AllWithin(g, root, t)
  {
    hide Reaches, Covered, Settled, OnPath, Ahead, Guards, TopSettles;
    var top := s.path[|s.path| - 1];
    assert s.path == t.path + [top];
    forall a, x | Guards(g, root, a, x) && x in t.met && a !in t.path ensures Ahead(g, t, x, a) {
      if a == top {
        TopWithin(g, root, s, x);
      } else {
        assert Ahead(g, s, x, a);
      }
      ReadTogether(g, s, t, n, x, a);
    }
  }

  lemma CloseHas(s: Trail, t: Trail, n: nat)
    requires s.path != [] && n <= |s.waiting| && t.waiting == s.waiting[..n]
    requires t.out == s.out + (s.waiting[n..] + [s.path[|s.path| - 1]])
    ensures forall x :: x in s.out ==> x in t.out
    ensures forall x :: x in s.waiting ==> x in t.waiting || x in t.out
    ensures forall x :: x in t.out ==> x in s.out || x in s.waiting || x in s.path
  {
    assert s.waiting == s.waiting[..n] + s.waiting[n..];
  }

  lemma CloseShaped(g: Graph, root: Id, s: Trail, t: Trail, n: nat)
    requires Shaped(s) && OnPath(g, root, s.path) && s.path != [] && n <= |s.waiting|
    requires var last := |s.path| - 1;
      t == s.(path := s.path[..last], next := s.next[..last], waiting := s.waiting[..n],
              out := s.out + (s.waiting[n..] + [s.path[last]]))
    ensures Shaped(t)
  {
    CloseHas(s, t, n);
    assert s.path[|s.path| - 1] in s.path;
    forall x | x in t.waiting ensures x !in t.out {
      var k :| 0 <= k < n && s.waiting[k] == x;
      assert x in s.waiting && forall m :: n <= m < |s.waiting| ==> s.waiting[m] != x;
    }
    forall x | x in t.path ensures x !in t.out {
      var k :| 0 <= k < |s.path| - 1 && s.path[k] == x;
      assert x in s.path && forall m :: n <= m < |s.waiting| ==> s.waiting[m] in s.waiting;
    }
  }

  lemma InOutStill(out: seq<Id>, on: seq<Id>, b: Id, c: Id)
    requires b in out && out <= on && (c in out ==> Before(out, b, c))
    ensures b in on && (c in on ==> Before(on, b, c))
  {
    var p :| 0 <= p < |out| && out[p] == b;
    assert on[p] == b;
    if c in out {
      var m, n :| 0 <= m < n < |out| && out[m] == b && out[n] == c;
      assert on[m] == b && on[n] == c;
    } else if c in on {
      var q :| 0 <= q < |on| && on[q] == c;
      assert forall k :: 0 <= k < |out| ==> on[k] in out;
    }
  }

  lemma LedOut(g: Graph, out: seq<Id>, c: Id, b: Id)
    requires c in out && Reaches(Links(g), c, b) && forall x, y :: x in out && Links(g)(x, y) ==> y in out
    ensures b in out
  {
    hide Reaches;
    var within := iset x | x in out;
    ReachWithin(Links(g), within, c, b);
  }

  // b, not read yet, is read with c: among those waiting, before it.
  lemma ComponentKeeps(waiting: seq<Id>, n: nat, top: Id, b: Id, c: Id)
    requires n <= |waiting| && b in waiting && b in waiting[n..] + [top] && c in waiting[n..] + [top] && top !in waiting
    requires forall i, j :: 0 <= i < j < |waiting| ==> waiting[i] != waiting[j]
    requires c in waiting ==> Before(waiting, b, c)
    ensures Before(waiting[n..] + [top], b, c)
  {
    var comp := waiting[n..] + [top];
    var p :| 0 <= p < |comp| && comp[p] == b;
    assert p < |comp| - 1 && waiting[n + p] == b;
    var q :| 0 <= q < |comp| && comp[q] == c;
    if q < |comp| - 1 {
      assert waiting[n + q] == c;
      var m, k :| 0 <= m < k < |waiting| && waiting[m] == b && waiting[k] == c;
      assert m == n + p && k == n + q;
    }
  }

  lemma WaitingStill(waiting: seq<Id>, n: nat, b: Id, c: Id)
    requires n <= |waiting| && b in waiting[..n] && c in waiting[..n] && Before(waiting, b, c)
    requires forall i, j :: 0 <= i < j < |waiting| ==> waiting[i] != waiting[j]
    ensures Before(waiting[..n], b, c)
  {
    var m, k :| 0 <= m < k < |waiting| && waiting[m] == b && waiting[k] == c;
    var q :| 0 <= q < n && waiting[..n][q] == c;
    assert waiting[q] == c && q == k;
    assert waiting[..n][m] == b && waiting[..n][k] == c;
  }

  // A component read together keeps its order.
  lemma ReadTogether(g: Graph, s: Trail, t: Trail, n: nat, b: Id, c: Id)
    requires Shaped(s) && s.path != [] && n <= |s.waiting| && t.waiting == s.waiting[..n] && Ahead(g, s, b, c)
    requires t.out == s.out + (s.waiting[n..] + [s.path[|s.path| - 1]])
    requires forall x, y :: x in t.out && Links(g)(x, y) ==> y in t.out
    ensures Ahead(g, t, b, c)
  {
    hide Before, Reaches;
    if b in s.out {
      InOutStill(s.out, t.out, b, c);
    } else {
      if c in t.out {
        LedOut(g, t.out, c, b);
      }
      TopWaitsNot(s);
      PartsStill(s.out, s.waiting, n, s.path[|s.path| - 1], b, c);
    }
  }

  lemma TopWaitsNot(s: Trail)
    requires Shaped(s) && s.path != []
    ensures s.path[|s.path| - 1] !in s.waiting
  {
    assert s.path[|s.path| - 1] in s.path;
  }

  lemma PartsStill(out: seq<Id>, waiting: seq<Id>, n: nat, top: Id, b: Id, c: Id)
    requires n <= |waiting| && b in waiting && b !in out && c !in out && top !in waiting && (c in waiting ==> Before(waiting, b, c))
    requires forall i, j :: 0 <= i < j < |waiting| ==> waiting[i] != waiting[j]
    requires c in out + (waiting[n..] + [top]) ==> b in out + (waiting[n..] + [top])
    ensures if b in out + (waiting[n..] + [top]) then c in out + (waiting[n..] + [top]) ==> Before(out + (waiting[n..] + [top]), b, c)
      else b in waiting[..n] && (c in waiting[..n] ==> Before(waiting[..n], b, c))
  {
    var comp := waiting[n..] + [top];
    assert waiting == waiting[..n] + waiting[n..];
    if c in out + comp {
      ComponentKeeps(waiting, n, top, b, c);
      var p, q :| 0 <= p < q < |comp| && comp[p] == b && comp[q] == c;
      assert (out + comp)[|out| + p] == b && (out + comp)[|out| + q] == c;
    } else if b !in out + comp && c in waiting[..n] {
      WaitingStill(waiting, n, b, c);
    }
  }

  // ----- a walk over -----

  /** out is in the order a depth-first walk from root is to read it: a node before each met
      by a later entry, and before each node that guards it. */
  ghost predicate InTrailOrder(g: Graph, root: Id, out: seq<Id>) {
    && (forall a, i: nat, b, c :: ComesFirst(g, root, a, i, b, c) && c in out ==> Before(out, b, c))
    && (forall a, x :: Guards(g, root, a, x) && x in out ==> Before(out, x, a))
  }

  lemma GuardIsMet(g: Graph, root: Id, t: Trail, a: Id, x: Id)
    requires Covered(g, root, t) && Guards(g, root, a, x) && x in t.met
    ensures a in t.met
  {
    hide Reaches;
    if a !in t.met {
      forall y, z | DoneEdges(g, t)(y, z) ensures Avoiding(g, a)(y, z) {
        var n: nat :| Done(g, t, y, n) && g(y)[n] == Some(z);
        assert Done(g, t, y, n);
      }
      MoreReached(DoneEdges(g, t), Avoiding(g, a), root, x);
    }
  }

  lemma OrderedThrough(g: Graph, root: Id, t: Trail)
    requires Ordered(g, root, t) && t.path == [] && t.waiting == [] && forall x :: x in t.met <==> x in t.out
    ensures InTrailOrder(g, root, t.out)
  {
    hide Reaches, ComesFirst, Covered, Settled, OnPath, Guards;
    forall a, i: nat, b, c | ComesFirst(g, root, a, i, b, c) && c in t.out ensures Before(t.out, b, c) {
      assert Ahead(g, t, b, c);
    }
    forall a, x | Guards(g, root, a, x) && x in t.out ensures Before(t.out, x, a) {
      GuardIsMet(g, root, t, a, x);
      assert Ahead(g, t, x, a);
    }
  }
}
