/** What one visitor's walk tells it, call by call, said of the values alone: which values
    the walk comes to and by which way, in which order, and where a cycle is told. */
module WalkTrace {
  import opened Values
  import opened Walk

  /** From a value to the n-th it holds.  A pointer and an interface add no step. */
  datatype Hop = Hop(n: nat, step: Option<Step>, to: Value)

  /** A way through the values from the root's. */
  type Route = seq<Hop>

  predicate HopsTo(h: Heap, v: Value, hop: Hop) {
    match v
    case Pointer(_, ptr) => ptr != 0 && hop == Hop(0, None, Target(h, v.Key()))
    case Iface(dynamic) => dynamic.Some? && hop == Hop(0, None, dynamic.value)
    case Struct(t, fields) => hop.n < |fields| && hop == Hop(hop.n, Some(Field(t, hop.n)), fields[hop.n])
    case Array(_, bytes, items) => !bytes && IsElement(items, hop)
    case Slice(_, bytes, _, _) => !bytes && IsElement(Items(h, v.Key()), hop)
    case Map(_, _) => IsInEntry(Entries(h, v.Key()), hop)
    case _ => false
  }

  predicate IsElement(items: seq<Value>, hop: Hop) {
    hop.n < |items| && hop == Hop(hop.n, Some(Element(hop.n)), items[hop.n])
  }

  // An entry's key comes before its value.
  predicate IsInEntry(entries: seq<Entry>, hop: Hop) {
    && hop.n / 2 < |entries|
    && var e := entries[hop.n / 2];
    hop == if hop.n % 2 == 0 then Hop(hop.n, Some(MapKey(e.name)), e.key) else Hop(hop.n, Some(MapValue(e.name)), e.value)
  }

  ghost predicate HoldsAny(h: Heap, v: Value) {
    exists hop :: HopsTo(h, v, hop)
  }

  function End(root: Value, r: Route): Value {
    if r == [] then root else r[|r| - 1].to
  }

  function StepsOf(r: Route): seq<Step> {
    if r == [] then []
    else
      var front, last := r[..|r| - 1], r[|r| - 1];
      StepsOf(front) + if last.step.Some? then [last.step.value] else []
  }

  function PathOf(path: string, r: Route): Path {
    Path(path, StepsOf(r))
  }

  /** What r passes on its way at k is a reference with this key. */
  predicate PassesAt(root: Value, r: Route, k: nat, key: RefKey) {
    k < |r| && End(root, r[..k]).IsReference() && End(root, r[..k]).Key() == key
  }

  /** r ends in a reference that it passed. */
  ghost predicate Recurs(root: Value, r: Route) {
    End(root, r).IsReference() && exists k: nat :: PassesAt(root, r, k, End(root, r).Key())
  }

  /** A value the walk came to: by which way, whether the visitor asked for what it
      holds, and the calls made of it. */
  datatype Visit = Visit(route: Route, goes: bool, told: seq<Event>)

  function LogOf(visits: seq<Visit>): seq<Event> {
    if visits == [] then [] else LogOf(visits[..|visits| - 1]) + visits[|visits| - 1].told
  }

  /** a is read before b: b goes on from a, or where they part a goes to an earlier value. */
  ghost predicate Earlier(a: Route, b: Route) {
    a < b || exists k: nat :: PartsAt(a, b, k)
  }

  predicate PartsAt(a: Route, b: Route, k: nat) {
    k < |a| && k < |b| && a[..k] == b[..k] && a[k].n < b[k].n
  }

  ghost predicate Sorted(visits: seq<Visit>) {
    forall i, j :: 0 <= i < j < |visits| ==> Earlier(visits[i].route, visits[j].route)
  }

  /** The walk asked to go on into this non-nil pointer. */
  predicate GoesToPointer(root: Value, v: Visit, key: RefKey) {
    v.goes && End(root, v.route).Pointer? && End(root, v.route).ptr != 0 && End(root, v.route).Key() == key
  }

  /** The walk goes on into what its i-th value holds: asked to, and not again into a
      reference it is inside, nor into a pointer any earlier value took it to. */
  ghost predicate GoesInto(root: Value, visits: seq<Visit>, i: nat) {
    && i < |visits| && visits[i].goes && !Recurs(root, visits[i].route)
    && (End(root, visits[i].route).Pointer? ==>
      forall k :: 0 <= k < i ==> !GoesToPointer(root, visits[k], End(root, visits[i].route).Key()))
  }

  ghost predicate Comes(visits: seq<Visit>, r: Route) {
    exists i :: 0 <= i < |visits| && visits[i].route == r
  }

  ghost predicate LeadsAt(h: Heap, root: Value, visits: seq<Visit>, i: nat, r: Route) {
    r != [] && GoesInto(root, visits, i) && visits[i].route == r[..|r| - 1] && HopsTo(h, End(root, r[..|r| - 1]), r[|r| - 1])
  }

  /** The walk went into the value before the last of r, which holds the last one, a value. */
  ghost predicate Led(h: Heap, root: Value, visits: seq<Visit>, r: Route) {
    && r != [] && |r| <= MAX_WALK_DEPTH && !End(root, r).Invalid?
    && exists i: nat :: LeadsAt(h, root, visits, i, r)
  }

  /** The outermost of what r passes with this key is at k. */
  ghost predicate PassesFirst(root: Value, r: Route, k: nat, key: RefKey) {
    PassesAt(root, r, k, key) && forall j :: 0 <= j < k ==> !PassesAt(root, r, j, key)
  }

  /** A value is shown where it is, and where it is a reference the walk is to go into
      that its way passed already, a visitor that hears cycles is told of one, entered
      where the outermost was. */
  ghost predicate Tells(h: Heap, root: Value, path: string, vis: Visitor, v: Visit)
    requires vis.Visitor?
  {
    var end := End(root, v.route);
    var shown := Shown(end, PathOf(path, v.route));
    if v.goes && vis.hearsCycles && HoldsAny(h, end) && Recurs(root, v.route) then
      exists k: nat :: PassesFirst(root, v.route, k, end.Key()) &&
        v.told == [shown, Cycle(PathOf(path, v.route), PathOf(path, v.route[..k]), end.Key())]
    else v.told == [shown]
  }

  ghost predicate Asked(root: Value, path: string, vis: Visitor, visits: seq<Visit>, i: nat)
    requires vis.Visitor? && i < |visits|
  {
    visits[i].goes == vis.asks(LogOf(visits[..i]), End(root, visits[i].route), PathOf(path, visits[i].route))
  }

  /** The walk one visitor makes: it comes to the root and to all it is led to, in reading
      order, asks of each as it comes, and tells of each what is to be told. */
  ghost predicate IsWalk(h: Heap, root: Value, path: string, vis: Visitor, visits: seq<Visit>)
    requires vis.Visitor?
  {
    && Sorted(visits)
    && (forall r :: Comes(visits, r) <==> if r == [] then !root.Invalid? else Led(h, root, visits, r))
    && (forall i :: 0 <= i < |visits| ==> Asked(root, path, vis, visits, i))
    && (forall i :: 0 <= i < |visits| ==> Tells(h, root, path, vis, visits[i]))
  }

  /** The depth cap keeps the walk from what its i-th value holds. */
  ghost predicate CutsAt(h: Heap, root: Value, visits: seq<Visit>, i: nat) {
    GoesInto(root, visits, i) && |visits[i].route| == MAX_WALK_DEPTH && HoldsAny(h, End(root, visits[i].route))
  }

  // ----- reading order -----

  lemma EarlierNot(a: Route, b: Route)
    requires Earlier(a, b)
    ensures a != b && !(b <= a) && !Earlier(b, a)
  {
    forall k: nat, j: nat | PartsAt(a, b, k) ensures !PartsAt(b, a, j) {
      PartOnce(a, b, k, j);
    }
    forall k: nat | PartsAt(a, b, k) ensures !(a <= b) && !(b <= a) {
    }
    forall k: nat | PartsAt(b, a, k) ensures !(a <= b) {
    }
  }

  lemma PartOnce(a: Route, b: Route, k: nat, j: nat)
    requires PartsAt(a, b, k)
    ensures !PartsAt(b, a, j)
  {
    if j < k {
      assert a[..k][j] == b[..k][j];
    } else if k < j && j <= |a| && j <= |b| {
      assert a[..j][k] == a[k] && b[..j][k] == b[k];
    }
  }

  lemma EarlierOn(a: Route, b: Route, c: Route)
    requires Earlier(a, b) && b <= c
    ensures Earlier(a, c)
  {
    if !(a < b) {
      var k: nat :| PartsAt(a, b, k);
      assert c[..k] == b[..k];
      assert PartsAt(a, c, k);
    }
  }

  lemma SiblingsEarlier(p: Route, x: Hop, y: Hop, r: Route)
    requires x.n < y.n && p + [x] <= r
    ensures Earlier(r, p + [y])
  {
    assert r[|p|] == (p + [x])[|p|];
    assert r[..|p|] == (p + [x])[..|p|] == p == (p + [y])[..|p|];
    assert PartsAt(r, p + [y], |p|);
  }

  // ----- what a part of the walk reads -----

  ghost predicate Good(h: Heap, root: Value, path: string, vis: Visitor, visits: seq<Visit>)
    requires vis.Visitor?
  {
    && Sorted(visits)
    && (forall i :: 0 <= i < |visits| ==> Asked(root, path, vis, visits, i))
    && (forall i :: 0 <= i < |visits| ==> Tells(h, root, path, vis, visits[i]))
  }

  // All was read before p.
  ghost predicate AllEarlier(visits: seq<Visit>, p: Route) {
    forall i :: 0 <= i < |visits| ==> Earlier(visits[i].route, p)
  }

  // From p on the walk came to all it was led to.
  ghost predicate Settled(h: Heap, root: Value, visits: seq<Visit>, p: Route) {
    forall r :: p <= r ==>
      (Comes(visits, r) <==> if r == p then !End(root, p).Invalid? && |p| <= MAX_WALK_DEPTH else Led(h, root, visits, r))
  }

  ghost predicate ReadUnder(h: Heap, root: Value, path: string, vis: Visitor, was: seq<Visit>, all: seq<Visit>, p: Route)
    requires vis.Visitor?
  {
    && was <= all && Good(h, root, path, vis, all) && Settled(h, root, all, p)
    && forall i :: |was| <= i < |all| ==> p <= all[i].route
  }

  predicate UnderFirst(p: Route, hops: seq<Hop>, n: nat, r: Route) {
    exists m :: 0 <= m < n && m < |hops| && p + [hops[m]] <= r
  }

  // The first n values held at p were read.
  ghost predicate ReadFirst(h: Heap, root: Value, path: string, vis: Visitor, was: seq<Visit>, all: seq<Visit>,
                            p: Route, hops: seq<Hop>, n: nat)
    requires vis.Visitor? && n <= |hops|
  {
    && was <= all && Good(h, root, path, vis, all)
    && (forall m :: 0 <= m < n ==> Settled(h, root, all, p + [hops[m]]))
    && forall i :: |was| <= i < |all| ==> UnderFirst(p, hops, n, all[i].route)
  }

  lemma GoesIntoStays(root: Value, was: seq<Visit>, all: seq<Visit>, i: nat)
    requires was <= all && i < |was|
    ensures GoesInto(root, was, i) <==> GoesInto(root, all, i)
  {
  }

  lemma LedStays(h: Heap, root: Value, was: seq<Visit>, all: seq<Visit>, p: Route, r: Route)
    requires was <= all && p < r && forall i :: |was| <= i < |all| ==> !(p <= all[i].route)
    ensures Led(h, root, was, r) <==> Led(h, root, all, r)
  {
    hide GoesInto;
    forall i: nat ensures LeadsAt(h, root, was, i, r) <==> LeadsAt(h, root, all, i, r) {
      if i < |was| {
        GoesIntoStays(root, was, all, i);
      } else {
        NotPast(root, was, i);
        if i < |all| {
          assert p <= r[..|r| - 1];
        } else {
          NotPast(root, all, i);
        }
      }
    }
  }

  lemma NotPast(root: Value, visits: seq<Visit>, i: nat)
    requires |visits| <= i
    ensures !GoesInto(root, visits, i)
  {
  }

  lemma SettledStays(h: Heap, root: Value, was: seq<Visit>, all: seq<Visit>, p: Route)
    requires Settled(h, root, was, p) && was <= all && forall i :: |was| <= i < |all| ==> !(p <= all[i].route)
    ensures Settled(h, root, all, p)
  {
    hide Led;
    forall r | p <= r
      ensures Comes(all, r) <==> if r == p then !End(root, p).Invalid? && |p| <= MAX_WALK_DEPTH else Led(h, root, all, r)
    {
      ComesStays(was, all, r);
      if p < r {
        LedStays(h, root, was, all, p, r);
      }
    }
  }

  lemma ComesStays(was: seq<Visit>, all: seq<Visit>, r: Route)
    requires was <= all && forall i :: |was| <= i < |all| ==> all[i].route != r
    ensures Comes(was, r) <==> Comes(all, r)
  {
    if i :| 0 <= i < |was| && was[i].route == r {
      assert all[i].route == r;
    }
  }

  // One more visit, after all.
  lemma GoodOn(h: Heap, root: Value, path: string, vis: Visitor, visits: seq<Visit>, me: Visit)
    requires vis.Visitor? && Good(h, root, path, vis, visits) && AllEarlier(visits, me.route) && Tells(h, root, path, vis, me)
    requires me.goes == vis.asks(LogOf(visits), End(root, me.route), PathOf(path, me.route))
    ensures Good(h, root, path, vis, visits + [me])
  {
    hide Tells, Earlier;
    var all := visits + [me];
    forall i | 0 <= i < |all| ensures Asked(root, path, vis, all, i) {
      if i < |visits| {
        assert Asked(root, path, vis, visits, i) && all[..i] == visits[..i];
      } else {
        assert all[..i] == visits;
      }
    }
  }

  // Nothing is read at p, or from it.
  lemma NothingSettled(h: Heap, root: Value, visits: seq<Visit>, p: Route)
    requires AllEarlier(visits, p) && (End(root, p).Invalid? || |p| > MAX_WALK_DEPTH)
    ensures Settled(h, root, visits, p)
  {
    hide Earlier;
    forall r | p <= r ensures !Comes(visits, r) && (p < r ==> !Led(h, root, visits, r)) {
      forall i | 0 <= i < |visits| ensures !(p <= visits[i].route) {
        EarlierNot(visits[i].route, p);
      }
      assert p < r ==> p <= r[..|r| - 1];
    }
  }

  // The walk reads p and does not go on from it, or it holds nothing.
  lemma LeafSettled(h: Heap, root: Value, visits: seq<Visit>, me: Visit)
    requires AllEarlier(visits, me.route) && !End(root, me.route).Invalid? && |me.route| <= MAX_WALK_DEPTH
    requires !GoesInto(root, visits + [me], |visits|) || !HoldsAny(h, End(root, me.route))
    ensures Settled(h, root, visits + [me], me.route)
  {
    hide Earlier, GoesInto;
    var p, all := me.route, visits + [me];
    assert all[|visits|] == me;
    forall i | 0 <= i < |visits| ensures !(p <= visits[i].route) {
      EarlierNot(visits[i].route, p);
    }
    forall r | p < r ensures !Comes(all, r) && !Led(h, root, all, r) {
      forall i: nat ensures !LeadsAt(h, root, all, i, r) {
        assert p <= r[..|r| - 1];
        if i >= |all| {
          NotPast(root, all, i);
        }
      }
    }
  }

  // ----- a value and the values it holds -----

  // The hops are all there are from v, in order.
  ghost predicate AllHops(h: Heap, v: Value, hops: seq<Hop>) {
    forall hop: Hop :: HopsTo(h, v, hop) <==> hop.n < |hops| && hops[hop.n] == hop
  }

  predicate InOrder(hops: seq<Hop>) {
    forall m :: 0 <= m < |hops| ==> hops[m].n == m
  }

  lemma ReadNext(h: Heap, root: Value, path: string, vis: Visitor, was: seq<Visit>, mid: seq<Visit>, all: seq<Visit>,
                 p: Route, hops: seq<Hop>, n: nat)
    requires vis.Visitor? && n < |hops| && InOrder(hops)
    requires ReadFirst(h, root, path, vis, was, mid, p, hops, n) && ReadUnder(h, root, path, vis, mid, all, p + [hops[n]])
    ensures ReadFirst(h, root, path, vis, was, all, p, hops, n + 1)
  {
    hide Good, Settled;
    forall m | 0 <= m < n ensures Settled(h, root, all, p + [hops[m]]) {
      forall i | |mid| <= i < |all| ensures !(p + [hops[m]] <= all[i].route) {
        assert all[i].route[|p|] == (p + [hops[n]])[|p|];
        assert (p + [hops[m]])[|p|].n == m;
      }
      SettledStays(h, root, mid, all, p + [hops[m]]);
    }
    forall i | |was| <= i < |all| ensures UnderFirst(p, hops, n + 1, all[i].route) {
      if i < |mid| {
        var m :| 0 <= m < n && p + [hops[m]] <= mid[i].route;
        assert p + [hops[m]] <= all[i].route;
      } else {
        assert p + [hops[n]] <= all[i].route;
      }
    }
  }

  lemma NextIsLast(was: seq<Visit>, mid: seq<Visit>, p: Route, hops: seq<Hop>, n: nat)
    requires n < |hops| && InOrder(hops) && was <= mid
    requires forall i :: 0 <= i < |was| ==> Earlier(was[i].route, p) || was[i].route == p
    requires forall i :: |was| <= i < |mid| ==> UnderFirst(p, hops, n, mid[i].route)
    ensures AllEarlier(mid, p + [hops[n]])
  {
    forall i | 0 <= i < |mid| ensures Earlier(mid[i].route, p + [hops[n]]) {
      if i < |was| {
        if was[i].route != p {
          EarlierOn(was[i].route, p, p + [hops[n]]);
        }
      } else {
        var m :| 0 <= m < n && p + [hops[m]] <= mid[i].route;
        SiblingsEarlier(p, hops[m], hops[n], mid[i].route);
      }
    }
  }

  // All it holds read, the value is.
  lemma ReadAll(h: Heap, root: Value, path: string, vis: Visitor, visits: seq<Visit>, me: Visit, all: seq<Visit>, hops: seq<Hop>)
    requires vis.Visitor? && AllEarlier(visits, me.route) && !End(root, me.route).Invalid? && |me.route| <= MAX_WALK_DEPTH
    requires AllHops(h, End(root, me.route), hops) && InOrder(hops) && GoesInto(root, visits + [me], |visits|)
    requires ReadFirst(h, root, path, vis, visits + [me], all, me.route, hops, |hops|)
    ensures ReadUnder(h, root, path, vis, visits, all, me.route)
  {
    hide Good, Earlier, GoesInto, AllHops, ReadFirst, HopsTo, Settled;
    FirstHas(h, root, path, vis, visits + [me], all, me.route, hops, |hops|);
    var p, at := me.route, |visits|;
    assert all[at] == me;
    GoesIntoStays(root, visits + [me], all, at);
    forall i | |visits| <= i < |all| ensures p <= all[i].route {
      if i > at {
        var m :| 0 <= m < |hops| && p + [hops[m]] <= all[i].route;
      }
    }
    assert Settled(h, root, all, p) by {
      AllSettled(h, root, visits, me, all, hops);
    }
  }

  lemma FirstHas(h: Heap, root: Value, path: string, vis: Visitor, was: seq<Visit>, all: seq<Visit>,
                 p: Route, hops: seq<Hop>, n: nat)
    requires vis.Visitor? && n <= |hops| && ReadFirst(h, root, path, vis, was, all, p, hops, n)
    ensures was <= all && Good(h, root, path, vis, all)
    ensures forall m :: 0 <= m < n ==> Settled(h, root, all, p + [hops[m]])
    ensures forall i :: |was| <= i < |all| ==> UnderFirst(p, hops, n, all[i].route)
  {
  }

  lemma AllSettled(h: Heap, root: Value, visits: seq<Visit>, me: Visit, all: seq<Visit>, hops: seq<Hop>)
    requires AllEarlier(visits, me.route) && !End(root, me.route).Invalid? && |me.route| <= MAX_WALK_DEPTH
    requires AllHops(h, End(root, me.route), hops) && InOrder(hops)
    requires visits + [me] <= all && GoesInto(root, all, |visits|)
    requires forall m :: 0 <= m < |hops| ==> Settled(h, root, all, me.route + [hops[m]])
    requires forall i :: |visits| < i < |all| ==> UnderFirst(me.route, hops, |hops|, all[i].route)
    ensures Settled(h, root, all, me.route)
  {
    hide Earlier, GoesInto, AllHops, HopsTo;
    var p, at := me.route, |visits|;
    assert all[at] == (visits + [me])[at];
    forall r | p < r ensures Comes(all, r) <==> Led(h, root, all, r) {
      var hop := r[|p|];
      assert p + [hop] <= r;
      if HopsTo(h, End(root, p), hop) {
        HopIs(h, End(root, p), hops, hop);
        if r == p + [hop] {
          assert r[..|r| - 1] == p;
          assert LeadsAt(h, root, all, at, r);
        }
      } else {
        NotHeld(h, root, visits, me, all, hops, r);
      }
    }
  }

  lemma HopIs(h: Heap, v: Value, hops: seq<Hop>, hop: Hop)
    requires AllHops(h, v, hops)
    ensures HopsTo(h, v, hop) <==> hop.n < |hops| && hops[hop.n] == hop
  {
  }

  // A way on by what is not held is come to by no visit.
  lemma NotHeld(h: Heap, root: Value, visits: seq<Visit>, me: Visit, all: seq<Visit>, hops: seq<Hop>, r: Route)
    requires AllEarlier(visits, me.route) && AllHops(h, End(root, me.route), hops) && InOrder(hops) && visits + [me] <= all
    requires forall i :: |visits| < i < |all| ==> UnderFirst(me.route, hops, |hops|, all[i].route)
    requires me.route < r && !HopsTo(h, End(root, me.route), r[|me.route|])
    ensures !Comes(all, r) && !Led(h, root, all, r)
  {
    hide Earlier, GoesInto, AllHops, HopsTo;
    var p, at := me.route, |visits|;
    assert all[at] == (visits + [me])[at];
    forall i, q | 0 <= i < |all| && p < q <= r && q[|p|] == r[|p|] ensures all[i].route != q {
      if i < at {
        assert all[i] == visits[i];
        EarlierNot(visits[i].route, p);
      } else if i > at {
        var m :| 0 <= m < |hops| && p + [hops[m]] <= all[i].route;
        assert all[i].route[|p|] == (p + [hops[m]])[|p|] == hops[m];
        HopIs(h, End(root, p), hops, hops[m]);
      }
    }
    forall i: nat ensures !LeadsAt(h, root, all, i, r) {
      var q := r[..|r| - 1];
      assert p <= q && (q == p ==> r[|r| - 1] == r[|p|]);
      if i >= |all| {
        NotPast(root, all, i);
      }
    }
  }

  // ----- the lone walk is one -----

  ghost predicate Entered(root: Value, visits: seq<Visit>, key: RefKey) {
    exists i :: 0 <= i < |visits| && GoesToPointer(root, visits[i], key)
  }

  // What the walk carries is what its visits left.
  ghost predicate Tracked(root: Value, s: Alone, visits: seq<Visit>) {
    s.log == LogOf(visits) && forall key :: key in s.entered <==> Entered(root, visits, key)
  }

  function InsideOf(root: Value, r: Route): seq<InsideRef>
    decreases |r|, 0
  {
    if r == [] then [] else InsideBelow(root, r[..|r| - 1])
  }

  // What a walk going on from r is inside.
  function InsideBelow(root: Value, r: Route): seq<InsideRef>
    decreases |r|, 1
  {
    var end := End(root, r);
    InsideOf(root, r) + if end.IsReference() then [InsideRef(end.Key(), |StepsOf(r)|)] else []
  }

  ghost predicate StandsAt(root: Value, path: string, at: Place, r: Route) {
    at.root == path && at.steps == StepsOf(r) && at.inside == InsideOf(root, r)
  }

  ghost predicate StandsBelow(root: Value, path: string, at: Place, r: Route) {
    at.root == path && at.steps == StepsOf(r) && at.inside == InsideBelow(root, r)
  }

  ghost predicate Came(visits: seq<Visit>, r: Route) {
    forall k :: 0 <= k < |r| ==> WentTo(visits, r[..k])
  }

  ghost predicate WentTo(visits: seq<Visit>, r: Route) {
    exists i :: 0 <= i < |visits| && visits[i].route == r && visits[i].goes
  }

  lemma EnteredAtOn(a: seq<InsideRef>, x: InsideRef, key: RefKey)
    requires Inside(a + [x], key)
    ensures Inside(a, key) || x.key == key
    ensures EnteredAt(a + [x], key) == if Inside(a, key) then EnteredAt(a, key) else x.depth
  {
    if a != [] {
      assert (a + [x])[1..] == a[1..] + [x];
      if a[0].key != key {
        EnteredAtOn(a[1..], x, key);
        assert Inside(a, key) <==> Inside(a[1..], key);
      }
    }
  }

  lemma {:induction false} StepsPrefix(r: Route, k: nat)
    requires k <= |r|
    ensures StepsOf(r[..k]) <= StepsOf(r)
    decreases |r|
  {
    if k < |r| {
      StepsPrefix(r[..|r| - 1], k);
      assert r[..|r| - 1][..k] == r[..k];
    } else {
      assert r[..k] == r;
    }
  }

  /** The walk is inside a reference just where its way passed it, entered first where it
      was passed first. */
  ghost predicate Lists(root: Value, r: Route, inside: seq<InsideRef>, key: RefKey) {
    && (Inside(inside, key) <==> exists k: nat :: PassesAt(root, r, k, key))
    && (Inside(inside, key) ==>
      exists k: nat :: PassesFirst(root, r, k, key) && EnteredAt(inside, key) == |StepsOf(r[..k])|)
  }

  lemma PassesOn(root: Value, r: Route, k: nat, key: RefKey)
    requires r != []
    ensures var front := r[..|r| - 1]; var end := End(root, front);
      PassesAt(root, r, k, key) <==> PassesAt(root, front, k, key) || (k == |front| && end.IsReference() && end.Key() == key)
  {
    var front := r[..|r| - 1];
    if k < |front| {
      assert front[..k] == r[..k];
    }
  }

  lemma PassedWithin(root: Value, r: Route, k: nat, key: RefKey)
    requires PassesAt(root, r, k, key)
    ensures k < |r|
  {
  }

  lemma FirstOn(root: Value, r: Route, k: nat, key: RefKey)
    requires r != [] && PassesFirst(root, r[..|r| - 1], k, key)
    ensures PassesFirst(root, r, k, key) && k < |r| - 1
  {
    hide PassesAt;
    PassedWithin(root, r[..|r| - 1], k, key);
    PassesOn(root, r, k, key);
    forall j: nat | j < k ensures !PassesAt(root, r, j, key) {
      PassesOn(root, r, j, key);
    }
  }

  lemma ListsStill(root: Value, r: Route, inside: seq<InsideRef>, key: RefKey)
    requires r != [] && Lists(root, r[..|r| - 1], inside, key)
    requires var end := End(root, r[..|r| - 1]); !end.IsReference() || end.Key() != key
    ensures Lists(root, r, inside, key)
  {
    hide PassesAt;
    var front := r[..|r| - 1];
    forall k: nat ensures PassesAt(root, r, k, key) <==> PassesAt(root, front, k, key) {
      PassesOn(root, r, k, key);
    }
    if Inside(inside, key) {
      FirstStill(root, r, inside, key);
    }
  }

  lemma FirstStill(root: Value, r: Route, inside: seq<InsideRef>, key: RefKey)
    requires r != [] && Lists(root, r[..|r| - 1], inside, key) && Inside(inside, key)
    ensures exists k: nat :: PassesFirst(root, r, k, key) && EnteredAt(inside, key) == |StepsOf(r[..k])|
  {
    hide StepsOf, EnteredAt;
    var front := r[..|r| - 1];
    var k: nat :| PassesFirst(root, front, k, key) && EnteredAt(inside, key) == |StepsOf(front[..k])|;
    FirstOn(root, r, k, key);
    assert front[..k] == r[..k];
  }

  // One more inside, listed last.
  lemma InsideOn(a: seq<InsideRef>, x: InsideRef, key: RefKey)
    ensures Inside(a + [x], key) <==> Inside(a, key) || x.key == key
  {
    if Inside(a, key) {
      var y :| y in a && y.key == key;
      assert y in a + [x];
    }
    assert x in a + [x];
  }

  lemma ListsOther(root: Value, r: Route, a: seq<InsideRef>, x: InsideRef, key: RefKey)
    requires Lists(root, r, a, key) && x.key != key
    ensures Lists(root, r, a + [x], key)
  {
    hide Inside, StepsOf;
    InsideOn(a, x, key);
    if Inside(a + [x], key) {
      EnteredAtOn(a, x, key);
      var k: nat :| PassesFirst(root, r, k, key) && EnteredAt(a, key) == |StepsOf(r[..k])|;
      assert EnteredAt(a + [x], key) == |StepsOf(r[..k])|;
    }
  }

  lemma ListsSame(root: Value, r: Route, a: seq<InsideRef>, x: InsideRef)
    requires r != [] && Lists(root, r[..|r| - 1], a, x.key) && x.depth == |StepsOf(r[..|r| - 1])|
    requires var end := End(root, r[..|r| - 1]); end.IsReference() && end.Key() == x.key
    ensures Lists(root, r, a + [x], x.key)
  {
    hide PassesAt, StepsOf, Inside, EnteredAt;
    var front := r[..|r| - 1];
    PassesOn(root, r, |front|, x.key);
    InsideOn(a, x, x.key);
    EnteredAtOn(a, x, x.key);
    if Inside(a, x.key) {
      FirstStill(root, r, a, x.key);
      var k: nat :| PassesFirst(root, r, k, x.key) && EnteredAt(a, x.key) == |StepsOf(r[..k])|;
    } else {
      forall j: nat | j < |front| ensures !PassesAt(root, r, j, x.key) {
        PassesOn(root, r, j, x.key);
      }
      assert PassesFirst(root, r, |front|, x.key);
    }
  }

  lemma {:induction false} InsideIsPassed(root: Value, r: Route, key: RefKey)
    ensures Lists(root, r, InsideOf(root, r), key)
    decreases |r|
  {
    if r != [] {
      var front := r[..|r| - 1];
      var end := End(root, front);
      InsideIsPassed(root, front, key);
      hide Lists, StepsOf;
      if end.IsReference() {
        var x := InsideRef(end.Key(), |StepsOf(front)|);
        if end.Key() == key {
          ListsSame(root, r, InsideOf(root, front), x);
        } else {
          ListsStill(root, r, InsideOf(root, front), key);
          ListsOther(root, r, InsideOf(root, front), x, key);
        }
      } else {
        ListsStill(root, r, InsideOf(root, front), key);
        assert InsideOf(root, r) == InsideOf(root, front);
      }
    }
  }

  // The path a cycle is told by leads to where the way first passed it.
  lemma EnteredWhere(root: Value, path: string, r: Route, at: Place, key: RefKey) returns (k: nat)
    requires StandsAt(root, path, at, r) && Inside(at.inside, key)
    ensures PassesFirst(root, r, k, key) && k < |r|
    ensures at.steps[..EnteredAt(at.inside, key)] == StepsOf(r[..k])
  {
    InsideIsPassed(root, r, key);
    k :| PassesFirst(root, r, k, key) && EnteredAt(at.inside, key) == |StepsOf(r[..k])|;
    StepsPrefix(r, k);
  }

  // What the walk hears of a reference it asks to go into.
  lemma MeetsTells(h: Heap, root: Value, path: string, vis: Visitor, s: Alone, v: Value, r: Route, at: Place)
    returns (me: Visit)
    requires vis.Visitor? && v == End(root, r) && v.IsReference() && HoldsAny(h, v) && StandsAt(root, path, at, r)
    ensures me.route == r && me.goes && Tells(h, root, path, vis, me)
    ensures AloneMeets(vis, AloneShows(s, v, at), v.Key(), at) == s.(log := s.log + me.told)
    ensures Inside(at.inside, v.Key()) <==> Recurs(root, r)
    ensures !Inside(at.inside, v.Key()) ==> me.told == [Shown(v, at.Here())]
  {
    hide PassesAt, StepsOf, InsideOf, EnteredAt, HoldsAny;
    InsideIsPassed(root, r, v.Key());
    var shown := Shown(v, PathOf(path, r));
    me := Visit(r, true, [shown]);
    if Inside(at.inside, v.Key()) && vis.hearsCycles {
      var k := EnteredWhere(root, path, r, at, v.Key());
      var cycle := Cycle(PathOf(path, r), PathOf(path, r[..k]), v.Key());
      me := Visit(r, true, [shown, cycle]);
      assert s.log + [shown] + [cycle] == s.log + [shown, cycle];
    }
  }

  // A visit after all others leaves what was tracked, and the pointer it goes to.
  lemma TrackedOn(root: Value, s: Alone, t: Alone, visits: seq<Visit>, me: Visit)
    requires Tracked(root, s, visits) && t.log == s.log + me.told
    requires forall key :: key in t.entered <==> key in s.entered || GoesToPointer(root, me, key)
    ensures Tracked(root, t, visits + [me])
  {
    hide GoesToPointer;
    var all := visits + [me];
    assert all[..|all| - 1] == visits;
    forall key ensures Entered(root, all, key) <==> Entered(root, visits, key) || GoesToPointer(root, me, key) {
      if i :| 0 <= i < |visits| && GoesToPointer(root, visits[i], key) {
        assert GoesToPointer(root, all[i], key);
      }
      if GoesToPointer(root, me, key) {
        assert GoesToPointer(root, all[|visits|], key);
      }
    }
  }

  ghost predicate NewCut(h: Heap, root: Value, n: nat, all: seq<Visit>) {
    exists i: nat :: n <= i < |all| && CutsAt(h, root, all, i)
  }

  /** What a walk from s at r reads, visits having been read before. */
  ghost predicate Walks(h: Heap, root: Value, path: string, vis: Visitor, s: Alone, t: Alone,
                        visits: seq<Visit>, all: seq<Visit>, r: Route)
    requires vis.Visitor?
  {
    && Tracked(root, t, all) && ReadUnder(h, root, path, vis, visits, all, r)
    && (t.cut <==> s.cut || NewCut(h, root, |visits|, all) || |r| > MAX_WALK_DEPTH)
  }

  ghost predicate Ready(h: Heap, root: Value, path: string, vis: Visitor, s: Alone, visits: seq<Visit>, r: Route)
    requires vis.Visitor?
  {
    Tracked(root, s, visits) && Good(h, root, path, vis, visits) && Came(visits, r) && AllEarlier(visits, r)
  }

  lemma {:induction false} WalkReads(h: Heap, root: Value, path: string, vis: Visitor, s: Alone, v: Value, r: Route, at: Place,
                                     visits: seq<Visit>) returns (all: seq<Visit>)
    requires vis.Visitor? && |r| <= MAX_WALK_DEPTH && v == End(root, r)
    requires Ready(h, root, path, vis, s, visits, r) && StandsAt(root, path, at, r)
    ensures Walks(h, root, path, vis, s, AloneWalk(h, vis, s, v, |r|, at), visits, all, r)
    decreases MAX_WALK_DEPTH + 1 - |r|, 2, 0
  {
    hide Good, Tracked, Came, Settled, GoesInto, Tells, Earlier, AllEarlier;
    var here := at.Here();
    assert here == PathOf(path, r);
    if v.Invalid? {
      all := visits;
      NothingSettled(h, root, visits, r);
    } else if vis.asks(s.log, v, here) {
      all := ChildrenRead(h, root, path, vis, s, v, r, at, visits);
    } else {
      var me := Visit(r, false, [Shown(v, here)]);
      UnaskedStays(h, root, path, vis, visits, me);
      all := LeafRead(h, root, path, vis, s, AloneShows(s, v, at), v, r, at, visits, me);
    }
  }

  lemma UnaskedStays(h: Heap, root: Value, path: string, vis: Visitor, visits: seq<Visit>, me: Visit)
    requires vis.Visitor? && !me.goes && me.told == [Shown(End(root, me.route), PathOf(path, me.route))]
    ensures Tells(h, root, path, vis, me) && !GoesInto(root, visits + [me], |visits|)
    ensures forall key :: !GoesToPointer(root, me, key)
  {
    assert (visits + [me])[|visits|] == me;
  }

  lemma LeafRead(h: Heap, root: Value, path: string, vis: Visitor, s: Alone, t: Alone, v: Value, r: Route, at: Place,
                 visits: seq<Visit>, me: Visit) returns (all: seq<Visit>)
    requires vis.Visitor? && |r| <= MAX_WALK_DEPTH && v == End(root, r) && !v.Invalid?
    requires Ready(h, root, path, vis, s, visits, r) && StandsAt(root, path, at, r)
    requires me.route == r && me.goes == vis.asks(s.log, v, at.Here()) && Tells(h, root, path, vis, me)
    requires t == s.(log := s.log + me.told) && forall key :: GoesToPointer(root, me, key) ==> key in s.entered
    requires !GoesInto(root, visits + [me], |visits|) || !HoldsAny(h, v)
    ensures Walks(h, root, path, vis, s, t, visits, all, r)
  {
    all := visits + [me];
    hide Good, Came, Settled, GoesInto, Tells, Earlier, AllEarlier, HoldsAny, GoesToPointer, StepsOf;
    TrackedOn(root, s, t, visits, me);
    GoodOn(h, root, path, vis, visits, me);
    LeafSettled(h, root, visits, me);
    forall i: nat | |visits| <= i < |all| ensures !CutsAt(h, root, all, i) {
      assert all[i] == me;
    }
  }

  lemma {:induction false} DescendReads(h: Heap, root: Value, path: string, vis: Visitor, s: Alone, v: Value, r: Route, at: Place,
                                        visits: seq<Visit>) returns (all: seq<Visit>)
    requires vis.Visitor? && |r| <= MAX_WALK_DEPTH + 1 && v == End(root, r)
    requires Ready(h, root, path, vis, s, visits, r) && StandsAt(root, path, at, r)
    ensures Walks(h, root, path, vis, s, AloneDescend(h, vis, s, v, |r|, at), visits, all, r)
    decreases MAX_WALK_DEPTH + 1 - |r|, 3, 0
  {
    if |r| > MAX_WALK_DEPTH {
      hide Good, Came, Settled, AllEarlier;
      all := visits;
      NothingSettled(h, root, visits, r);
    } else {
      all := WalkReads(h, root, path, vis, s, v, r, at, visits);
    }
  }

  lemma {:induction false} ChildrenRead(h: Heap, root: Value, path: string, vis: Visitor, s: Alone, v: Value, r: Route, at: Place,
                                        visits: seq<Visit>) returns (all: seq<Visit>)
    requires vis.Visitor? && |r| <= MAX_WALK_DEPTH && v == End(root, r) && !v.Invalid? && vis.asks(s.log, v, at.Here())
    requires Ready(h, root, path, vis, s, visits, r) && StandsAt(root, path, at, r)
    ensures Walks(h, root, path, vis, s, AloneChildren(h, vis, AloneShows(s, v, at), v, |r|, at), visits, all, r)
    decreases MAX_WALK_DEPTH + 1 - |r|, 1, 2
  {
    hide Ready, Walks, StandsAt, StandsBelow, Tells, GoesInto;
    match v {
      case Pointer(_, _) => all := PointerRead(h, root, path, vis, s, v, r, at, visits);
      case Iface(None) => all := NothingRead(h, root, path, vis, s, v, r, at, visits);
      case Iface(Some(d)) => all := IfaceRead(h, root, path, vis, s, v, r, at, visits);
      case Invalid =>
      case _ => all := HeldRead(h, root, path, vis, s, v, r, at, visits);
    }
  }

  // A value that holds nothing.
  lemma NothingRead(h: Heap, root: Value, path: string, vis: Visitor, s: Alone, v: Value, r: Route, at: Place,
                    visits: seq<Visit>) returns (all: seq<Visit>)
    requires vis.Visitor? && |r| <= MAX_WALK_DEPTH && v == End(root, r) && !v.Invalid? && vis.asks(s.log, v, at.Here())
    requires Ready(h, root, path, vis, s, visits, r) && StandsAt(root, path, at, r) && !HoldsAny(h, v)
    ensures Walks(h, root, path, vis, s, AloneShows(s, v, at), visits, all, r)
  {
    hide Ready, Walks, GoesInto, HoldsAny, Recurs, StepsOf, InsideOf;
    var me := Visit(r, true, [Shown(v, at.Here())]);
    assert Tells(h, root, path, vis, me);
    if v.Pointer? && v.ptr != 0 {
      NonNilHolds(h, v);
    }
    all := LeafRead(h, root, path, vis, s, AloneShows(s, v, at), v, r, at, visits, me);
  }

  lemma NonNilHolds(h: Heap, v: Value)
    requires v.Pointer? && v.ptr != 0
    ensures HoldsAny(h, v) && AllHops(h, v, [Hop(0, None, Target(h, v.Key()))])
  {
    assert HopsTo(h, v, Hop(0, None, Target(h, v.Key())));
  }

  lemma {:induction false} IfaceRead(h: Heap, root: Value, path: string, vis: Visitor, s: Alone, v: Value, r: Route, at: Place,
                                     visits: seq<Visit>) returns (all: seq<Visit>)
    requires vis.Visitor? && |r| <= MAX_WALK_DEPTH && v == End(root, r) && vis.asks(s.log, v, at.Here())
    requires v.Iface? && v.dynamic.Some?
    requires Ready(h, root, path, vis, s, visits, r) && StandsAt(root, path, at, r)
    ensures Walks(h, root, path, vis, s, AloneDescend(h, vis, AloneShows(s, v, at), v.dynamic.value, |r| + 1, at), visits, all, r)
    decreases MAX_WALK_DEPTH + 1 - |r|, 1, 1
  {
    hide Ready, Walks, StepsOf, InsideOf;
    var me, e := Visit(r, true, [Shown(v, at.Here())]), AloneShows(s, v, at);
    ReadyTracked(h, root, path, vis, s, e, visits, me);
    assert StandsBelow(root, path, at, r);
    all := OneRead(h, root, path, vis, s, e, v.dynamic.value, r, at, visits, me);
  }

  lemma ReadyTracked(h: Heap, root: Value, path: string, vis: Visitor, s: Alone, e: Alone, visits: seq<Visit>, me: Visit)
    requires vis.Visitor? && Ready(h, root, path, vis, s, visits, me.route) && e.log == s.log + me.told
    requires forall key :: key in e.entered <==> key in s.entered || GoesToPointer(root, me, key)
    ensures Tracked(root, e, visits + [me])
  {
    hide GoesToPointer;
    TrackedOn(root, s, e, visits, me);
  }

  // The walk goes on from r to all it holds.
  ghost predicate Going(h: Heap, root: Value, path: string, vis: Visitor, s: Alone, e: Alone, visits: seq<Visit>, me: Visit)
    requires vis.Visitor?
  {
    && Ready(h, root, path, vis, s, visits, me.route) && |me.route| <= MAX_WALK_DEPTH && !End(root, me.route).Invalid?
    && me.goes && vis.asks(s.log, End(root, me.route), PathOf(path, me.route)) && Tells(h, root, path, vis, me)
    && Tracked(root, e, visits + [me]) && e.cut == s.cut && GoesInto(root, visits + [me], |visits|)
  }

  lemma GoingHas(h: Heap, root: Value, path: string, vis: Visitor, s: Alone, e: Alone, visits: seq<Visit>, me: Visit)
    requires vis.Visitor? && Going(h, root, path, vis, s, e, visits, me)
    ensures Tracked(root, e, visits + [me]) && Good(h, root, path, vis, visits + [me]) && AllEarlier(visits, me.route)
    ensures Came(visits, me.route) && WentTo(visits + [me], me.route)
  {
    hide Good, Came, Tells, Earlier, GoesInto, Tracked, AllEarlier;
    assert LogOf(visits) == s.log by { TrackedLog(root, s, visits); }
    GoodOn(h, root, path, vis, visits, me);
    assert (visits + [me])[|visits|] == me;
  }

  lemma TrackedLog(root: Value, s: Alone, visits: seq<Visit>)
    requires Tracked(root, s, visits)
    ensures s.log == LogOf(visits)
  {
  }

  // A value held is next, whichever were read before it.
  lemma HeldIsReady(h: Heap, root: Value, path: string, vis: Visitor, s: Alone, e: Alone, visits: seq<Visit>, me: Visit,
                    before: Alone, mid: seq<Visit>, hops: seq<Hop>, n: nat)
    requires vis.Visitor? && Going(h, root, path, vis, s, e, visits, me) && n < |hops| && InOrder(hops)
    requires ReadFirst(h, root, path, vis, visits + [me], mid, me.route, hops, n) && Tracked(root, before, mid)
    ensures Ready(h, root, path, vis, before, mid, me.route + [hops[n]])
  {
    hide Good, Tells, GoesInto, Tracked, Settled, Earlier;
    GoingHas(h, root, path, vis, s, e, visits, me);
    NextIsLast(visits + [me], mid, me.route, hops, n);
    var r := me.route + [hops[n]];
    forall k | 0 <= k < |r| ensures WentTo(mid, r[..k]) {
      if k < |me.route| {
        assert r[..k] == me.route[..k];
        WentStill(visits, mid, r[..k]);
      } else {
        assert r[..k] == me.route;
        WentStill(visits + [me], mid, r[..k]);
      }
    }
  }

  lemma WentStill(was: seq<Visit>, all: seq<Visit>, r: Route)
    requires WentTo(was, r) && was <= all
    ensures WentTo(all, r)
  {
    var i :| 0 <= i < |was| && was[i].route == r && was[i].goes;
    assert all[i] == was[i];
  }

  lemma HopStands(root: Value, path: string, at: Place, r: Route, hop: Hop)
    requires StandsBelow(root, path, at, r)
    ensures End(root, r + [hop]) == hop.to
    ensures StandsAt(root, path, if hop.step.Some? then Take(at, hop.step.value) else at, r + [hop])
  {
    assert (r + [hop])[..|r|] == r;
  }

  lemma CutsStay(h: Heap, root: Value, n: nat, mid: seq<Visit>, all: seq<Visit>)
    requires mid <= all && n <= |mid|
    ensures NewCut(h, root, n, all) <==> NewCut(h, root, n, mid) || NewCut(h, root, |mid|, all)
  {
    hide GoesInto, HoldsAny;
    forall i: nat | i < |mid| ensures CutsAt(h, root, mid, i) <==> CutsAt(h, root, all, i) {
      GoesIntoStays(root, mid, all, i);
    }
    if NewCut(h, root, n, mid) {
      var i: nat :| n <= i < |mid| && CutsAt(h, root, mid, i);
      assert CutsAt(h, root, all, i);
    }
    if NewCut(h, root, n, all) {
      var i: nat :| n <= i < |all| && CutsAt(h, root, all, i);
      assert i < |mid| ==> CutsAt(h, root, mid, i);
    }
  }

  // All it holds read, so is the value.
  lemma AllRead(h: Heap, root: Value, path: string, vis: Visitor, s: Alone, e: Alone, t: Alone, visits: seq<Visit>, me: Visit,
                all: seq<Visit>, hops: seq<Hop>)
    requires vis.Visitor? && Going(h, root, path, vis, s, e, visits, me)
    requires hops != [] && InOrder(hops) && AllHops(h, End(root, me.route), hops)
    requires ReadFirst(h, root, path, vis, visits + [me], all, me.route, hops, |hops|) && Tracked(root, t, all)
    requires t.cut <==> e.cut || |me.route| == MAX_WALK_DEPTH || NewCut(h, root, |visits| + 1, all)
    ensures Walks(h, root, path, vis, s, t, visits, all, me.route)
  {
    hide Good, Tells, GoesInto, Tracked, Settled, Earlier, AllHops, HoldsAny;
    GoingHas(h, root, path, vis, s, e, visits, me);
    ReadAll(h, root, path, vis, visits, me, all, hops);
    GoesIntoStays(root, visits + [me], all, |visits|);
    FirstHolds(h, End(root, me.route), hops);
    assert all[|visits|] == (visits + [me])[|visits|] == me;
    assert CutsAt(h, root, all, |visits|) <==> |me.route| == MAX_WALK_DEPTH;
  }

  lemma FirstHolds(h: Heap, v: Value, hops: seq<Hop>)
    requires AllHops(h, v, hops) && InOrder(hops) && hops != []
    ensures HoldsAny(h, v)
  {
    HopIs(h, v, hops, hops[0]);
  }

  lemma {:induction false} OneRead(h: Heap, root: Value, path: string, vis: Visitor, s: Alone, e: Alone, d: Value, r: Route, at: Place,
                                   visits: seq<Visit>, me: Visit) returns (all: seq<Visit>)
    requires vis.Visitor? && Going(h, root, path, vis, s, e, visits, me) && me.route == r && StandsBelow(root, path, at, r)
    requires AllHops(h, End(root, r), [Hop(0, None, d)])
    ensures |r| <= MAX_WALK_DEPTH && Walks(h, root, path, vis, s, AloneDescend(h, vis, e, d, |r| + 1, at), visits, all, r)
    decreases MAX_WALK_DEPTH + 1 - |r|, 1, 0
  {
    hide Good, Tells, GoesInto, Tracked, Settled, Earlier, AllHops, Ready, StandsAt, StandsBelow, ReadFirst, AllEarlier, Going;
    var hop := Hop(0, None, d);
    var hops, was := [hop], visits + [me];
    NoneRead(h, root, path, vis, s, e, visits, me, hops);
    HeldIsReady(h, root, path, vis, s, e, visits, me, e, was, hops, 0);
    HopStands(root, path, at, r, hop);
    all := DescendReads(h, root, path, vis, e, d, r + [hop], at, was);
    ReadNext(h, root, path, vis, was, was, all, r, hops, 0);
    AllRead(h, root, path, vis, s, e, AloneDescend(h, vis, e, d, |r| + 1, at), visits, me, all, hops);
  }

  lemma NoneRead(h: Heap, root: Value, path: string, vis: Visitor, s: Alone, e: Alone, visits: seq<Visit>, me: Visit, hops: seq<Hop>)
    requires vis.Visitor? && Going(h, root, path, vis, s, e, visits, me)
    ensures ReadFirst(h, root, path, vis, visits + [me], visits + [me], me.route, hops, 0) && Tracked(root, e, visits + [me])
    ensures |me.route| <= MAX_WALK_DEPTH
  {
    hide Good, Tells, GoesInto, Tracked, Earlier;
    GoingHas(h, root, path, vis, s, e, visits, me);
  }

  function HeldHops(held: seq<(Step, Value)>): (r: seq<Hop>)
    ensures |r| == |held| && forall i :: 0 <= i < |held| ==> r[i] == Hop(i, Some(held[i].0), held[i].1)
  {
    seq(|held|, i requires 0 <= i < |held| => Hop(i, Some(held[i].0), held[i].1))
  }

  /** What a struct, sequence or map holds, in field, element and entry order. */
  lemma HeldAreHops(h: Heap, v: Value)
    requires !v.Pointer? && !v.Iface?
    ensures InOrder(HeldHops(Held(h, v))) && AllHops(h, v, HeldHops(Held(h, v)))
    ensures HoldsAny(h, v) <==> Held(h, v) != []
  {
    var hops := HeldHops(Held(h, v));
    forall hop: Hop ensures HopsTo(h, v, hop) <==> hop.n < |hops| && hops[hop.n] == hop {
      HeldAt(h, v, hop);
    }
    hide HopsTo, Held;
    if hops != [] {
      FirstHolds(h, v, hops);
    }
  }

  lemma HeldAt(h: Heap, v: Value, hop: Hop)
    requires !v.Pointer? && !v.Iface?
    ensures HopsTo(h, v, hop) <==>
      hop.n < |Held(h, v)| && hop == Hop(hop.n, Some(Held(h, v)[hop.n].0), Held(h, v)[hop.n].1)
  {
    if v.Map? {
      EntryAt(Entries(h, v.Key()), hop);
    }
  }

  lemma EntryAt(entries: seq<Entry>, hop: Hop)
    ensures IsInEntry(entries, hop) <==>
      hop.n < |Pairs(entries)| && hop == Hop(hop.n, Some(Pairs(entries)[hop.n].0), Pairs(entries)[hop.n].1)
  {
    var i := hop.n / 2;
    assert hop.n == 2 * i + hop.n % 2;
    if i < |entries| {
      assert Pairs(entries)[2 * i].1 == entries[i].key && Pairs(entries)[2 * i + 1].1 == entries[i].value;
    }
  }

  // What the first n values held, read from e, leave.
  ghost predicate Reads(h: Heap, root: Value, path: string, vis: Visitor, e: Alone, t: Alone, was: seq<Visit>, all: seq<Visit>,
                        r: Route, hops: seq<Hop>, n: nat)
    requires vis.Visitor? && n <= |hops|
  {
    && Tracked(root, t, all) && ReadFirst(h, root, path, vis, was, all, r, hops, n)
    && (t.cut <==> e.cut || (n > 0 && |r| == MAX_WALK_DEPTH) || NewCut(h, root, |was|, all))
  }

  lemma ReadsOn(h: Heap, root: Value, path: string, vis: Visitor, e: Alone, before: Alone, t: Alone, was: seq<Visit>, mid: seq<Visit>,
                all: seq<Visit>, r: Route, hops: seq<Hop>, n: nat)
    requires vis.Visitor? && n < |hops| && InOrder(hops) && Reads(h, root, path, vis, e, before, was, mid, r, hops, n)
    requires Walks(h, root, path, vis, before, t, mid, all, r + [hops[n]]) && |r| <= MAX_WALK_DEPTH
    ensures Reads(h, root, path, vis, e, t, was, all, r, hops, n + 1)
  {
    hide Good, Tracked, Settled, ReadFirst, NewCut;
    ReadNext(h, root, path, vis, was, mid, all, r, hops, n);
    FirstIsOn(h, root, path, vis, was, mid, r, hops, n);
    CutsStay(h, root, |was|, mid, all);
  }

  lemma {:induction false} EachReads(h: Heap, root: Value, path: string, vis: Visitor, s: Alone, e: Alone, held: seq<(Step, Value)>, n: nat,
                                     r: Route, at: Place, visits: seq<Visit>, me: Visit) returns (all: seq<Visit>)
    requires vis.Visitor? && Going(h, root, path, vis, s, e, visits, me) && me.route == r && StandsBelow(root, path, at, r)
    requires n <= |held| && InOrder(HeldHops(held)) && |r| <= MAX_WALK_DEPTH
    ensures Reads(h, root, path, vis, e, AloneEach(h, vis, e, held, n, |r|, at), visits + [me], all, r, HeldHops(held), n)
    decreases MAX_WALK_DEPTH + 1 - |r|, 0, n
  {
    hide StandsBelow, InOrder, HeldHops, AloneDescend;
    if n == 0 {
      hide Going, Tracked, ReadFirst;
      all := visits + [me];
      NoneRead(h, root, path, vis, s, e, visits, me, HeldHops(held));
    } else {
      hide Going, Reads;
      var mid := EachReads(h, root, path, vis, s, e, held, n - 1, r, at, visits, me);
      all := NextReads(h, root, path, vis, s, e, AloneEach(h, vis, e, held, n - 1, |r|, at), held, n - 1, r, at, visits, me, mid);
    }
  }

  lemma {:induction false} NextReads(h: Heap, root: Value, path: string, vis: Visitor, s: Alone, e: Alone, before: Alone,
                                     held: seq<(Step, Value)>, n: nat, r: Route, at: Place, visits: seq<Visit>, me: Visit, mid: seq<Visit>)
    returns (all: seq<Visit>)
    requires vis.Visitor? && Going(h, root, path, vis, s, e, visits, me) && me.route == r && StandsBelow(root, path, at, r)
    requires n < |held| && InOrder(HeldHops(held)) && |r| <= MAX_WALK_DEPTH
    requires Reads(h, root, path, vis, e, before, visits + [me], mid, r, HeldHops(held), n)
    ensures Reads(h, root, path, vis, e, AloneDescend(h, vis, before, held[n].1, |r| + 1, Take(at, held[n].0)),
                  visits + [me], all, r, HeldHops(held), n + 1)
    decreases MAX_WALK_DEPTH + 1 - |r|, 0, n
  {
    var hops := HeldHops(held);
    HeldIsReady(h, root, path, vis, s, e, visits, me, before, mid, hops, n);
    hide Going, Ready, StandsAt, StandsBelow, InOrder, Reads, Walks, AloneDescend;
    HopStands(root, path, at, r, hops[n]);
    all := DescendReads(h, root, path, vis, before, held[n].1, r + [hops[n]], Take(at, held[n].0), mid);
    ReadsOn(h, root, path, vis, e, before, AloneDescend(h, vis, before, held[n].1, |r| + 1, Take(at, held[n].0)),
      visits + [me], mid, all, r, hops, n);
  }

  lemma FirstIsOn(h: Heap, root: Value, path: string, vis: Visitor, was: seq<Visit>, all: seq<Visit>,
                  p: Route, hops: seq<Hop>, n: nat)
    requires vis.Visitor? && n <= |hops| && ReadFirst(h, root, path, vis, was, all, p, hops, n)
    ensures was <= all
  {
  }

  lemma {:induction false} HeldRead(h: Heap, root: Value, path: string, vis: Visitor, s: Alone, v: Value, r: Route, at: Place,
                                    visits: seq<Visit>) returns (all: seq<Visit>)
    requires vis.Visitor? && |r| <= MAX_WALK_DEPTH && v == End(root, r) && !v.Invalid? && vis.asks(s.log, v, at.Here())
    requires Ready(h, root, path, vis, s, visits, r) && StandsAt(root, path, at, r) && !v.Pointer? && !v.Iface?
    ensures Walks(h, root, path, vis, s, AloneHeld(h, vis, AloneShows(s, v, at), v, |r|, at), visits, all, r)
    decreases MAX_WALK_DEPTH + 1 - |r|, 1, 1
  {
    hide Ready, Walks, StepsOf, InsideOf, HoldsAny, Tells, AllHops, Recurs, Held;
    HeldAreHops(h, v);
    var held, e := Held(h, v), AloneShows(s, v, at);
    if held == [] {
      all := NothingRead(h, root, path, vis, s, v, r, at, visits);
    } else if !v.IsReference() {
      var me := Visit(r, true, [Shown(v, at.Here())]);
      NoReferenceTells(h, root, path, vis, v, me);
      all := EachRead(h, root, path, vis, s, e, held, r, at, at, visits, me);
    } else {
      var me := MeetsTells(h, root, path, vis, s, v, r, at);
      if Inside(at.inside, v.Key()) {
        all := LeafRead(h, root, path, vis, s, AloneMeets(vis, e, v.Key(), at), v, r, at, visits, me);
      } else {
        all := EachRead(h, root, path, vis, s, e, held, r, at, Enter(at, v.Key()), visits, me);
      }
    }
  }

  lemma NoReferenceTells(h: Heap, root: Value, path: string, vis: Visitor, v: Value, me: Visit)
    requires vis.Visitor? && v == End(root, me.route) && !v.IsReference() && me.told == [Shown(v, PathOf(path, me.route))]
    ensures Tells(h, root, path, vis, me) && !Recurs(root, me.route)
  {
  }

  lemma {:induction false} EachRead(h: Heap, root: Value, path: string, vis: Visitor, s: Alone, e: Alone, held: seq<(Step, Value)>,
                                    r: Route, here: Place, at: Place, visits: seq<Visit>, me: Visit) returns (all: seq<Visit>)
    requires vis.Visitor? && |r| <= MAX_WALK_DEPTH && Ready(h, root, path, vis, s, visits, r) && me.route == r && me.goes
    requires held == Held(h, End(root, r)) != [] && me.told == [Shown(End(root, r), here.Here())]
    requires !End(root, r).Pointer? && !End(root, r).Iface? && !End(root, r).Invalid?
    requires e == AloneShows(s, End(root, r), here) && vis.asks(s.log, End(root, r), here.Here())
    requires at == if End(root, r).IsReference() then Enter(here, End(root, r).Key()) else here
    requires StandsAt(root, path, here, r) && Tells(h, root, path, vis, me) && !Recurs(root, r)
    ensures Walks(h, root, path, vis, s, AloneEach(h, vis, e, held, |held|, |r|, at), visits, all, r)
    decreases MAX_WALK_DEPTH + 1 - |r|, 1, 0
  {
    hide Ready, Walks, StepsOf, InsideOf, HoldsAny, Tells, AllHops, Recurs, Held;
    HeldAreHops(h, End(root, r));
    ReadyTracked(h, root, path, vis, s, e, visits, me);
    assert StandsBelow(root, path, at, r);
    assert (visits + [me])[|visits|] == me;
    assert Going(h, root, path, vis, s, e, visits, me);
    hide Going, StandsBelow, StandsAt;
    all := EachReads(h, root, path, vis, s, e, held, |held|, r, at, visits, me);
    AllRead(h, root, path, vis, s, e, AloneEach(h, vis, e, held, |held|, |r|, at), visits, me, all, HeldHops(held));
  }

  // A pointer no value took the walk to is none it passed.
  lemma AnewIsNotPassed(h: Heap, root: Value, path: string, vis: Visitor, s: Alone, v: Value, r: Route, visits: seq<Visit>)
    requires vis.Visitor? && Ready(h, root, path, vis, s, visits, r) && v == End(root, r) && v.Pointer? && v.ptr != 0
    ensures v.Key() !in s.entered ==> !Recurs(root, r) && GoesInto(root, visits + [Visit(r, true, [])], |visits|)
    ensures v.Key() in s.entered ==> !GoesInto(root, visits + [Visit(r, true, [])], |visits|)
  {
    hide Good, AllEarlier;
    var all := visits + [Visit(r, true, [])];
    assert all[|visits|].route == r;
    assert v.Key() in s.entered <==> Entered(root, visits, v.Key());
    forall k: nat | PassesAt(root, r, k, v.Key()) ensures Entered(root, visits, v.Key()) {
      var i :| 0 <= i < |visits| && visits[i].route == r[..k] && visits[i].goes;
      assert GoesToPointer(root, visits[i], v.Key());
    }
    forall i | 0 <= i < |visits| ensures all[i] == visits[i] {
    }
  }

  lemma ToldIsNoMatter(root: Value, visits: seq<Visit>, me: Visit, you: Visit)
    requires me.route == you.route && me.goes == you.goes
    ensures GoesInto(root, visits + [me], |visits|) <==> GoesInto(root, visits + [you], |visits|)
  {
    var a, b := visits + [me], visits + [you];
    assert a[|visits|] == me && b[|visits|] == you;
    assert forall k :: 0 <= k < |visits| ==> a[k] == visits[k] == b[k];
  }

  lemma {:induction false} PointerRead(h: Heap, root: Value, path: string, vis: Visitor, s: Alone, v: Value, r: Route, at: Place,
                                       visits: seq<Visit>) returns (all: seq<Visit>)
    requires vis.Visitor? && |r| <= MAX_WALK_DEPTH && v == End(root, r) && v.Pointer? && vis.asks(s.log, v, at.Here())
    requires Ready(h, root, path, vis, s, visits, r) && StandsAt(root, path, at, r)
    ensures Walks(h, root, path, vis, s, AlonePointer(h, vis, AloneShows(s, v, at), v, |r|, at), visits, all, r)
    decreases MAX_WALK_DEPTH + 1 - |r|, 1, 1
  {
    hide Ready, Walks, StepsOf, InsideOf, HoldsAny, Tells, AllHops, Recurs, GoesInto;
    var key := v.Key();
    if v.ptr == 0 {
      NilHolds(h, v);
      all := NothingRead(h, root, path, vis, s, v, r, at, visits);
      return;
    }
    NonNilHolds(h, v);
    var me := MeetsTells(h, root, path, vis, s, v, r, at);
    AnewIsNotPassed(h, root, path, vis, s, v, r, visits);
    ToldIsNoMatter(root, visits, me, Visit(r, true, []));
    var shown := AloneShows(s, v, at);
    if key in s.entered {
      all := LeafRead(h, root, path, vis, s, AloneMeets(vis, shown, key, at), v, r, at, visits, me);
    } else {
      var e := shown.(entered := shown.entered + {key});
      ReadyTracked(h, root, path, vis, s, e, visits, me);
      assert StandsBelow(root, path, Enter(at, key), r);
      all := OneRead(h, root, path, vis, s, e, Target(h, key), r, Enter(at, key), visits, me);
    }
  }

  lemma NilHolds(h: Heap, v: Value)
    requires v.Pointer? && v.ptr == 0
    ensures !HoldsAny(h, v)
  {
  }

  // ----- the walk as a whole -----

  /** t is what the walk of visits leaves: what they told, in order, and cut where the cap
      kept one from what it holds. */
  ghost predicate Leaves(h: Heap, root: Value, path: string, vis: Visitor, visits: seq<Visit>, t: Alone)
    requires vis.Visitor?
  {
    IsWalk(h, root, path, vis, visits) && t.log == LogOf(visits) && (t.cut <==> exists i: nat :: CutsAt(h, root, visits, i))
  }

  lemma UnderEmpty(h: Heap, root: Value, path: string, vis: Visitor, all: seq<Visit>)
    requires vis.Visitor? && ReadUnder(h, root, path, vis, [], all, [])
    ensures IsWalk(h, root, path, vis, all)
  {
    hide Asked, Tells, Led, Sorted;
    forall r: Route ensures Comes(all, r) <==> if r == [] then !root.Invalid? else Led(h, root, all, r) {
      assert [] <= r;
    }
  }

  /** The walk a visitor makes alone comes to what it is to, in reading order, and tells what
      is to be told of each. */
  lemma WalkIsRead(h: Heap, root: Value, path: string, vis: Visitor)
    requires vis.Visitor?
    ensures exists visits :: Leaves(h, root, path, vis, visits, WalkAlone(h, root, path, vis))
  {
    hide ReadUnder, CutsAt;
    var s := Alone([], {}, false);
    var all := WalkReads(h, root, path, vis, s, root, [], Place(path, [], []), []);
    UnderEmpty(h, root, path, vis, all);
    forall i: nat | CutsAt(h, root, all, i) ensures i < |all| {
      CutsWithin(h, root, all, i);
    }
    assert Leaves(h, root, path, vis, all, WalkAlone(h, root, path, vis));
  }

  lemma CutsWithin(h: Heap, root: Value, visits: seq<Visit>, i: nat)
    requires CutsAt(h, root, visits, i)
    ensures i < |visits|
  {
  }

  // What is read at i of one walk, another that is the same up to it reads there or later.
  lemma ReadLater(h: Heap, root: Value, path: string, vis: Visitor, a: seq<Visit>, b: seq<Visit>, i: nat) returns (m: nat)
    requires vis.Visitor? && IsWalk(h, root, path, vis, a) && IsWalk(h, root, path, vis, b)
    requires i < |a| && i <= |b| && a[..i] == b[..i]
    ensures i <= m < |b| && b[m].route == a[i].route
  {
    hide Asked, Tells, GoesInto, Earlier, HopsTo;
    var r := a[i].route;
    assert Comes(a, r);
    if r != [] {
      var k: nat :| LeadsAt(h, root, a, k, r);
      if k >= |a| {
        NotPast(root, a, k);
      }
      ParentEarlier(a, k, i);
      GoesIntoStays(root, a[..i], a, k);
      GoesIntoStays(root, b[..i], b, k);
      assert a[..i][k] == b[..i][k];
      assert LeadsAt(h, root, b, k, r);
    }
    assert Comes(b, r);
    m :| 0 <= m < |b| && b[m].route == r;
    if m < i {
      assert a[..i][m] == b[..i][m];
      EarlierNot(a[m].route, a[i].route);
    }
  }

  lemma ParentEarlier(a: seq<Visit>, k: nat, i: nat)
    requires Sorted(a) && k < |a| && i < |a| && a[k].route < a[i].route
    ensures k < i
  {
    if k > i {
      EarlierNot(a[i].route, a[k].route);
    }
  }

  lemma SameVisit(h: Heap, root: Value, path: string, vis: Visitor, a: seq<Visit>, b: seq<Visit>, i: nat)
    requires vis.Visitor? && IsWalk(h, root, path, vis, a) && IsWalk(h, root, path, vis, b)
    requires i < |a| && i < |b| && a[..i] == b[..i]
    ensures a[i] == b[i]
  {
    var m := ReadLater(h, root, path, vis, a, b, i);
    var n := ReadLater(h, root, path, vis, b, a, i);
    assert m > i ==> Earlier(b[i].route, b[m].route);
    assert n > i ==> Earlier(a[i].route, a[n].route);
    hide Tells, Asked, Earlier, GoesInto, HopsTo;
    if a[i].route != b[i].route {
      EarlierNot(b[i].route, a[i].route);
    }
    SameAsked(root, path, vis, a, b, i);
    ToldOnce(h, root, path, vis, a[i], b[i]);
  }

  lemma SameAsked(root: Value, path: string, vis: Visitor, a: seq<Visit>, b: seq<Visit>, i: nat)
    requires vis.Visitor? && i < |a| && i < |b| && a[..i] == b[..i] && a[i].route == b[i].route
    requires Asked(root, path, vis, a, i) && Asked(root, path, vis, b, i)
    ensures a[i].goes == b[i].goes
  {
  }

  lemma ToldOnce(h: Heap, root: Value, path: string, vis: Visitor, v: Visit, w: Visit)
    requires vis.Visitor? && Tells(h, root, path, vis, v) && Tells(h, root, path, vis, w)
    requires v.route == w.route && v.goes == w.goes
    ensures v == w
  {
    hide PassesAt, StepsOf, HoldsAny;
  }

  lemma {:induction false} SameVisits(h: Heap, root: Value, path: string, vis: Visitor, a: seq<Visit>, b: seq<Visit>, n: nat)
    requires vis.Visitor? && IsWalk(h, root, path, vis, a) && IsWalk(h, root, path, vis, b) && n <= |a|
    ensures n <= |b| && a[..n] == b[..n]
  {
    hide IsWalk;
    if n > 0 {
      SameVisits(h, root, path, vis, a, b, n - 1);
      var _ := ReadLater(h, root, path, vis, a, b, n - 1);
      SameVisit(h, root, path, vis, a, b, n - 1);
      assert a[..n] == a[..n - 1] + [a[n - 1]] && b[..n] == b[..n - 1] + [b[n - 1]];
    }
  }

  /** There is one such walk: what it comes to, in what order, and what it tells are settled
      by the values and the visitor's answers. */
  lemma WalkIsOne(h: Heap, root: Value, path: string, vis: Visitor, a: seq<Visit>, b: seq<Visit>)
    requires vis.Visitor? && IsWalk(h, root, path, vis, a) && IsWalk(h, root, path, vis, b)
    ensures a == b
  {
    hide IsWalk;
    SameVisits(h, root, path, vis, a, b, |a|);
    SameVisits(h, root, path, vis, b, a, |b|);
  }

  // ----- what a reader of the calls may rely on -----

  /** Each hop of r is to a value the one before holds. */
  ghost predicate IsRoute(h: Heap, root: Value, r: Route) {
    forall k :: 0 <= k < |r| ==> HopsTo(h, End(root, r[..k]), r[k])
  }

  lemma {:induction false} ComesByRoute(h: Heap, root: Value, path: string, vis: Visitor, visits: seq<Visit>, r: Route)
    requires vis.Visitor? && IsWalk(h, root, path, vis, visits) && Comes(visits, r)
    ensures IsRoute(h, root, r)
    decreases |r|
  {
    hide Asked, Tells, GoesInto, Earlier, HopsTo;
    if r != [] {
      var front := r[..|r| - 1];
      var i: nat :| LeadsAt(h, root, visits, i, r);
      if i >= |visits| {
        NotPast(root, visits, i);
      }
      assert Comes(visits, front);
      ComesByRoute(h, root, path, vis, visits, front);
      forall k | 0 <= k < |r| ensures HopsTo(h, End(root, r[..k]), r[k]) {
        if k < |front| {
          assert front[..k] == r[..k] && HopsTo(h, End(root, front[..k]), front[k]);
        }
      }
    }
  }

  // The calls of the j-th visit begin where those before it end.
  lemma {:induction false} CallsOf(visits: seq<Visit>, j: nat)
    requires j < |visits|
    ensures LogOf(visits[..j]) + visits[j].told <= LogOf(visits)
    decreases |visits|
  {
    var front := visits[..|visits| - 1];
    if j < |front| {
      CallsOf(front, j);
      assert front[..j] == visits[..j];
    } else {
      assert front == visits[..j];
    }
  }

  lemma {:induction false} VisitOf(visits: seq<Visit>, i: nat) returns (j: nat)
    requires i < |LogOf(visits)|
    ensures j < |visits| && |LogOf(visits[..j])| <= i < |LogOf(visits[..j])| + |visits[j].told|
    ensures LogOf(visits)[i] == visits[j].told[i - |LogOf(visits[..j])|]
  {
    var front := visits[..|visits| - 1];
    if i < |LogOf(front)| {
      j := VisitOf(front, i);
      assert front[..j] == visits[..j];
    } else {
      j := |visits| - 1;
    }
  }

  /** A value shown is one the path leads to from the root, through the values held. */
  lemma ShownIsThere(h: Heap, root: Value, path: string, vis: Visitor, v: Value, at: Path)
    requires vis.Visitor? && Shown(v, at) in WalkAlone(h, root, path, vis).log
    ensures exists r: Route :: IsRoute(h, root, r) && End(root, r) == v && at == PathOf(path, r)
  {
    hide CutsAt, HopsTo, GoesInto, Earlier, Recurs, HoldsAny;
    WalkIsRead(h, root, path, vis);
    var t := WalkAlone(h, root, path, vis);
    var visits: seq<Visit> :| Leaves(h, root, path, vis, visits, t);
    var i :| 0 <= i < |t.log| && t.log[i] == Shown(v, at);
    var j := VisitOf(visits, i);
    assert Tells(h, root, path, vis, visits[j]) && Comes(visits, visits[j].route);
    ComesByRoute(h, root, path, vis, visits, visits[j].route);
  }

  /** r comes back at its end to the reference with this key that it passed at k first. */
  ghost predicate ComesBack(h: Heap, root: Value, r: Route, k: nat, key: RefKey) {
    IsRoute(h, root, r) && End(root, r).IsReference() && End(root, r).Key() == key && PassesFirst(root, r, k, key) && k < |r|
  }

  /** A cycle told is one: both paths lead to a reference with its key, the one it was
      entered at on the way to the other. */
  lemma CycleIsThere(h: Heap, root: Value, path: string, vis: Visitor, at: Path, entered: Path, key: RefKey)
    requires vis.Visitor? && Cycle(at, entered, key) in WalkAlone(h, root, path, vis).log
    ensures exists r: Route, k: nat :: ComesBack(h, root, r, k, key) && at == PathOf(path, r) && entered == PathOf(path, r[..k])
    ensures entered.root == at.root && entered.steps <= at.steps
  {
    hide CutsAt, HopsTo, GoesInto, Earlier, HoldsAny, StepsOf;
    WalkIsRead(h, root, path, vis);
    var t := WalkAlone(h, root, path, vis);
    var visits: seq<Visit> :| Leaves(h, root, path, vis, visits, t);
    var i :| 0 <= i < |t.log| && t.log[i] == Cycle(at, entered, key);
    var j := VisitOf(visits, i);
    var r := visits[j].route;
    assert Tells(h, root, path, vis, visits[j]) && Comes(visits, r);
    ComesByRoute(h, root, path, vis, visits, r);
    var k: nat :| PassesFirst(root, r, k, End(root, r).Key()) && visits[j].told[1] == Cycle(PathOf(path, r), PathOf(path, r[..k]), End(root, r).Key());
    assert ComesBack(h, root, r, k, key);
    StepsPrefix(r, k);
  }

  /** After a value is shown at i comes the cycle its way came back by, where the first
      reference with its key was passed; and none comes where it passed none. */
  ghost predicate TellsCycleAfter(h: Heap, root: Value, path: string, log: seq<Event>, i: nat, r: Route)
    requires End(root, r).IsReference()
  {
    && IsRoute(h, root, r) && i < |log| && log[i] == Shown(End(root, r), PathOf(path, r))
    && if Recurs(root, r) then
         exists k: nat :: ComesBack(h, root, r, k, End(root, r).Key())
           && i + 1 < |log| && log[i + 1] == Cycle(PathOf(path, r), PathOf(path, r[..k]), End(root, r).Key())
       else i + 1 < |log| ==> log[i + 1].Shown?
  }

  /** A visitor that hears cycles and asks by the value alone hears of each, right after the
      reference that closes it: one it asks about, that holds something, and that the way
      to it passed before. */
  lemma CycleIsTold(h: Heap, root: Value, path: string, vis: Visitor, asks: Value -> bool, i: nat)
    requires vis.Visitor? && vis.hearsCycles && forall log, v, at :: vis.asks(log, v, at) == asks(v)
    requires var log := WalkAlone(h, root, path, vis).log;
      i < |log| && log[i].Shown? && asks(log[i].v) && log[i].v.IsReference() && HoldsAny(h, log[i].v)
    ensures exists r: Route :: End(root, r).IsReference() && TellsCycleAfter(h, root, path, WalkAlone(h, root, path, vis).log, i, r)
  {
    hide WalkAlone, IsWalk, TellsCycleAfter, HoldsAny;
    WalkIsRead(h, root, path, vis);
    var t := WalkAlone(h, root, path, vis);
    var visits: seq<Visit> :| Leaves(h, root, path, vis, visits, t);
    var _ := EventTellsCycle(h, root, path, vis, asks, visits, i);
  }

  lemma EventTellsCycle(h: Heap, root: Value, path: string, vis: Visitor, asks: Value -> bool, visits: seq<Visit>, i: nat)
    returns (r: Route)
    requires vis.Visitor? && vis.hearsCycles && forall log, v, at :: vis.asks(log, v, at) == asks(v)
    requires IsWalk(h, root, path, vis, visits) && i < |LogOf(visits)| && LogOf(visits)[i].Shown?
    requires asks(LogOf(visits)[i].v) && LogOf(visits)[i].v.IsReference() && HoldsAny(h, LogOf(visits)[i].v)
    ensures End(root, r).IsReference() && TellsCycleAfter(h, root, path, LogOf(visits), i, r)
  {
    hide HoldsAny, StepsOf, Sorted, Comes, Led, TellsCycleAfter;
    var j := VisitOf(visits, i);
    r := visits[j].route;
    assert Tells(h, root, path, vis, visits[j]) && Asked(root, path, vis, visits, j);
    hide Tells, IsWalk;
    ShownFirst(h, root, path, vis, visits[j], i - |LogOf(visits[..j])|);
    VisitTellsCycle(h, root, path, vis, visits, j);
  }

  lemma ShownFirst(h: Heap, root: Value, path: string, vis: Visitor, v: Visit, i: nat)
    requires vis.Visitor? && Tells(h, root, path, vis, v) && i < |v.told| && v.told[i].Shown?
    ensures i == 0 && v.told[i] == Shown(End(root, v.route), PathOf(path, v.route))
  {
  }

  lemma ToldWhat(h: Heap, root: Value, path: string, vis: Visitor, v: Visit)
    requires vis.Visitor? && vis.hearsCycles && Tells(h, root, path, vis, v) && v.goes && HoldsAny(h, End(root, v.route))
    ensures |v.told| == (if Recurs(root, v.route) then 2 else 1) && v.told[0] == Shown(End(root, v.route), PathOf(path, v.route))
    ensures Recurs(root, v.route) ==> exists k: nat :: (
      && k < |v.route| && PassesFirst(root, v.route, k, End(root, v.route).Key())
      && v.told[1] == Cycle(PathOf(path, v.route), PathOf(path, v.route[..k]), End(root, v.route).Key()))
  {
    hide StepsOf, HoldsAny;
    if Recurs(root, v.route) {
      var key := End(root, v.route).Key();
      var k: nat :| PassesFirst(root, v.route, k, key)
        && v.told == [Shown(End(root, v.route), PathOf(path, v.route)), Cycle(PathOf(path, v.route), PathOf(path, v.route[..k]), key)];
      PassedWithin(root, v.route, k, key);
    }
  }

  lemma VisitTellsCycle(h: Heap, root: Value, path: string, vis: Visitor, visits: seq<Visit>, j: nat)
    requires vis.Visitor? && vis.hearsCycles && IsWalk(h, root, path, vis, visits) && j < |visits| && visits[j].goes
    requires End(root, visits[j].route).IsReference() && HoldsAny(h, End(root, visits[j].route))
    ensures TellsCycleAfter(h, root, path, LogOf(visits), |LogOf(visits[..j])|, visits[j].route)
  {
    hide StepsOf, PassesFirst, Recurs, IsRoute, Tells, Asked, HoldsAny, Led, Sorted, End;
    var v := visits[j];
    assert Tells(h, root, path, vis, v) && Comes(visits, v.route);
    ComesByRoute(h, root, path, vis, visits, v.route);
    CallsOf(visits, j);
    NextIsShown(h, root, path, vis, visits, j);
    hide IsWalk, LogOf;
    ToldWhat(h, root, path, vis, v);
    var n, log := |LogOf(visits[..j])|, LogOf(visits);
    assert log[n] == (LogOf(visits[..j]) + v.told)[n] == v.told[0];
    if Recurs(root, v.route) {
      assert log[n + 1] == (LogOf(visits[..j]) + v.told)[n + 1] == v.told[1];
      var k: nat :| k < |v.route| && PassesFirst(root, v.route, k, End(root, v.route).Key())
        && v.told[1] == Cycle(PathOf(path, v.route), PathOf(path, v.route[..k]), End(root, v.route).Key());
      assert ComesBack(h, root, v.route, k, End(root, v.route).Key());
    }
  }

  lemma NextIsShown(h: Heap, root: Value, path: string, vis: Visitor, visits: seq<Visit>, j: nat)
    requires vis.Visitor? && IsWalk(h, root, path, vis, visits) && j < |visits|
    ensures var n := |LogOf(visits[..j]) + visits[j].told|; n < |LogOf(visits)| ==> LogOf(visits)[n].Shown?
  {
    hide CutsAt, HopsTo, GoesInto, Earlier, HoldsAny, Recurs, StepsOf, Asked, Comes, Led;
    assert visits[..j + 1][..j] == visits[..j];
    if j + 1 < |visits| {
      CallsOf(visits, j + 1);
      assert Tells(h, root, path, vis, visits[j + 1]);
    } else {
      assert visits[..j + 1] == visits;
    }
  }

  /** A struct whose field points back to it: three values are shown, and the cycle the
      last closes is told, entered at the root. */
  lemma SelfPointerIsCycle(path: string)
    ensures var p, key := Pointer("*T", 1), RefKey(PointerRef, "*T", 1, 0);
      var held := Struct("T", [p]);
      var here, field := Path(path, []), Path(path, [Field("T", 0)]);
      WalkAlone(map[key := Cell(held)], p, path, Visitor((_, _, _) => true, true)).log
      == [Shown(p, here), Shown(held, here), Shown(p, field), Cycle(field, here, key)]
  {
    var p, key := Pointer("*T", 1), RefKey(PointerRef, "*T", 1, 0);
    var held := Struct("T", [p]);
    var h, vis := map[key := Cell(held)], Visitor((_, _, _) => true, true);
    var at := Place(path, [], []);
    var inner, s := Enter(at, key), AloneShows(Alone([], {}, false), p, at);
    var e := AloneShows(s.(entered := {key}), held, inner);
    var below := Take(inner, Field("T", 0));
    assert below.inside[0] in below.inside;
    var t := AloneShows(e, p, below);
    assert Held(h, held) == [(Field("T", 0), p)];
    assert AloneEach(h, vis, e, Held(h, held), 0, 1, inner) == e;
    assert AloneWalk(h, vis, e, p, 2, below) == AloneMeets(vis, t, key, below);
  }
}
