/** What one visitor's walk shows: for a visitor that asks for what a value
    holds by the value alone, a walk the depth cap does not cut shows exactly the
    values reached through the values it asks about. */
module WalkReach {
  import opened Values
  import opened Walk
  import Graphs

  /** v leads to w in one step of the walk. */
  ghost predicate Holds(h: Heap, v: Value, w: Value) {
    || (v.Pointer? && v.ptr != 0 && w == Target(h, v.Key()))
    || (v.Iface? && v.dynamic == Some(w))
    || (exists i :: 0 <= i < |Held(h, v)| && Held(h, v)[i].1 == w)
  }

  // A visitor asking by asks goes from v on to w.
  ghost function Onward(h: Heap, asks: Value -> bool): Graphs.Edges<Value> {
    (v, w) => asks(v) && Holds(h, v, w) && !w.Invalid?
  }

  /** root leads to v, a value, through values the visitor asks about. */
  ghost predicate Reaches(h: Heap, asks: Value -> bool, root: Value, v: Value) {
    !root.Invalid? && !v.Invalid? && Graphs.Reaches(Onward(h, asks), root, v)
  }

  ghost predicate ShownIn(log: seq<Event>, v: Value) {
    exists i :: 0 <= i < |log| && log[i].Shown? && log[i].v == v
  }

  /** vis decides by the value alone. */
  ghost predicate AsksBy(vis: Visitor, asks: Value -> bool) {
    vis.Visitor? && forall log, v, at :: vis.asks(log, v, at) == asks(v)
  }

  ghost predicate ShownOrNothing(log: seq<Event>, v: Value) {
    v.Invalid? || ShownIn(log, v)
  }

  ghost predicate Closed(h: Heap, log: seq<Event>, v: Value) {
    forall w :: Holds(h, v, w) ==> ShownOrNothing(log, w)
  }

  // What v holds is another frame's to show: v is a reference met before.
  ghost predicate Elsewhere(s: Alone, at: Place, v: Value) {
    v.IsReference() && (v.Key() in s.entered || Inside(at.inside, v.Key()))
  }

  /** What a part of an uncut walk from s to t leaves: every pointer it entered
      led to a value shown, and every value it showed has what it holds shown too,
      unless that was some other part's to show; every value it showed, root
      reaches. */
  ghost predicate Showed(h: Heap, asks: Value -> bool, root: Value, s: Alone, t: Alone, at: Place) {
    && s.log <= t.log && s.entered <= t.entered && (s.cut ==> t.cut)
    && (forall v :: ShownIn(t.log, v) ==> ShownIn(s.log, v) || Reaches(h, asks, root, v))
    && (!t.cut ==>
      && (forall k :: k in t.entered && k !in s.entered ==> ShownOrNothing(t.log, Target(h, k)))
      && (forall v :: ShownIn(t.log, v) && asks(v) && !ShownIn(s.log, v) && !Elsewhere(s, at, v) ==> Closed(h, t.log, v)))
  }

  ghost predicate FromRoot(h: Heap, asks: Value -> bool, root: Value, v: Value) {
    v.Invalid? || Reaches(h, asks, root, v)
  }

  lemma HeldFromRoot(h: Heap, asks: Value -> bool, root: Value, v: Value)
    requires Reaches(h, asks, root, v) && asks(v)
    ensures forall w :: Holds(h, v, w) ==> FromRoot(h, asks, root, w)
  {
    forall w | Holds(h, v, w) ensures FromRoot(h, asks, root, w) {
      if !w.Invalid? {
        Graphs.ReachOn(Onward(h, asks), root, v, w);
      }
    }
  }

  lemma ShownStays(a: seq<Event>, b: seq<Event>, v: Value)
    requires a <= b && ShownOrNothing(a, v)
    ensures ShownOrNothing(b, v)
  {
    if !v.Invalid? {
      var i :| 0 <= i < |a| && a[i].Shown? && a[i].v == v;
      assert b[i] == a[i];
    }
  }

  lemma ClosedStays(h: Heap, a: seq<Event>, b: seq<Event>, v: Value)
    requires a <= b && Closed(h, a, v)
    ensures Closed(h, b, v)
  {
    forall w | Holds(h, v, w) ensures ShownOrNothing(b, w) {
      ShownStays(a, b, w);
    }
  }

  // Only a pointer's identity is ever entered, so a lone walk holds no other.
  ghost predicate PointersOnly(s: Alone) {
    forall k :: k in s.entered ==> k.kind == PointerRef
  }

  lemma ShowedThen(h: Heap, asks: Value -> bool, root: Value, s: Alone, t: Alone, u: Alone, at: Place)
    requires Showed(h, asks, root, s, t, at) && Showed(h, asks, root, t, u, at) && PointersOnly(t)
    ensures Showed(h, asks, root, s, u, at)
  {
    if !u.cut {
      forall k | k in u.entered && k !in s.entered ensures ShownOrNothing(u.log, Target(h, k)) {
        if k in t.entered { ShownStays(t.log, u.log, Target(h, k)); }
      }
      forall v | ShownIn(u.log, v) && asks(v) && !ShownIn(s.log, v) && !Elsewhere(s, at, v) ensures Closed(h, u.log, v) {
        if ShownIn(t.log, v) {
          ClosedStays(h, t.log, u.log, v);
        } else if Elsewhere(t, at, v) {
          assert v.Pointer?;
          forall w | Holds(h, v, w) ensures ShownOrNothing(u.log, w) {
            assert Held(h, v) == [];
            ShownStays(t.log, u.log, w);
          }
        }
      }
    }
  }

  lemma {:induction false} WalkShows(h: Heap, asks: Value -> bool, root: Value, vis: Visitor, s: Alone, v: Value, depth: nat, at: Place)
    requires AsksBy(vis, asks) && depth <= MAX_WALK_DEPTH && PointersOnly(s)
    requires FromRoot(h, asks, root, v)
    ensures var t := AloneWalk(h, vis, s, v, depth, at);
      Showed(h, asks, root, s, t, at) && PointersOnly(t) && (!t.cut ==> ShownOrNothing(t.log, v))
    decreases MAX_WALK_DEPTH + 1 - depth, 2, 0
  {
    if !v.Invalid? {
      var shown := AloneShows(s, v, at);
      assert ShownIn(shown.log, v) by { assert shown.log[|s.log|] == Shown(v, at.Here()); }
      ShownStays(shown.log, shown.log, v);
      forall x | ShownIn(shown.log, x) && x != v ensures ShownIn(s.log, x) {
        var i :| 0 <= i < |shown.log| && shown.log[i].Shown? && shown.log[i].v == x;
        assert i < |s.log|;
      }
      assert vis.asks(s.log, v, at.Here()) == asks(v);
      if asks(v) {
        ChildrenShow(h, asks, root, vis, shown, v, depth, at);
        var t := AloneChildren(h, vis, shown, v, depth, at);
        assert s.log <= shown.log <= t.log;
        if !t.cut { ShownStays(shown.log, t.log, v); }
      }
    }
  }

  lemma {:induction false} DescendShows(h: Heap, asks: Value -> bool, root: Value, vis: Visitor, s: Alone, v: Value, depth: nat, at: Place)
    requires AsksBy(vis, asks) && depth <= MAX_WALK_DEPTH + 1 && PointersOnly(s)
    requires FromRoot(h, asks, root, v)
    ensures var t := AloneDescend(h, vis, s, v, depth, at);
      Showed(h, asks, root, s, t, at) && PointersOnly(t) && (!t.cut ==> ShownOrNothing(t.log, v))
    decreases MAX_WALK_DEPTH + 1 - depth, 3, 0
  {
    if depth <= MAX_WALK_DEPTH {
      WalkShows(h, asks, root, vis, s, v, depth, at);
    }
  }

  // v itself is now settled: unless it is elsewhere's, what it holds is shown.
  lemma {:induction false} ChildrenShow(h: Heap, asks: Value -> bool, root: Value, vis: Visitor, s: Alone, v: Value, depth: nat, at: Place)
    requires AsksBy(vis, asks) && depth <= MAX_WALK_DEPTH && PointersOnly(s)
    requires Reaches(h, asks, root, v) && asks(v)
    ensures var t := AloneChildren(h, vis, s, v, depth, at);
      Showed(h, asks, root, s, t, at) && PointersOnly(t) && (!t.cut && !Elsewhere(s, at, v) ==> Closed(h, t.log, v))
    decreases MAX_WALK_DEPTH + 1 - depth, 1, 2
  {
    HeldFromRoot(h, asks, root, v);
    match v
    case Pointer(_, _) => PointerShows(h, asks, root, vis, s, v, depth, at);
    case Iface(Some(d)) => DescendShows(h, asks, root, vis, s, d, depth + 1, at);
    case Iface(None) =>
    case Invalid =>
    case _ => HeldShows(h, asks, root, vis, s, v, depth, at);
  }

  lemma MeetsShows(h: Heap, asks: Value -> bool, root: Value, vis: Visitor, s: Alone, key: RefKey, at: Place)
    requires vis.Visitor? && PointersOnly(s)
    ensures var t := AloneMeets(vis, s, key, at); Showed(h, asks, root, s, t, at) && PointersOnly(t)
  {
    var t := AloneMeets(vis, s, key, at);
    forall v | ShownIn(t.log, v) ensures ShownIn(s.log, v) {
      var i :| 0 <= i < |t.log| && t.log[i].Shown? && t.log[i].v == v;
      assert i < |s.log| && s.log[i] == t.log[i];
    }
  }

  lemma {:induction false} PointerShows(h: Heap, asks: Value -> bool, root: Value, vis: Visitor, s: Alone, v: Value, depth: nat, at: Place)
    requires AsksBy(vis, asks) && depth <= MAX_WALK_DEPTH && PointersOnly(s) && v.Pointer?
    requires Reaches(h, asks, root, v) && asks(v)
    ensures var t := AlonePointer(h, vis, s, v, depth, at);
      Showed(h, asks, root, s, t, at) && PointersOnly(t) && (!t.cut && !Elsewhere(s, at, v) ==> Closed(h, t.log, v))
    decreases MAX_WALK_DEPTH + 1 - depth, 1, 1
  {
    HeldFromRoot(h, asks, root, v);
    assert Held(h, v) == [];
    if v.ptr == 0 {
    } else if v.Key() in s.entered {
      MeetsShows(h, asks, root, vis, s, v.Key(), at);
    } else {
      var key := v.Key();
      var e := s.(entered := s.entered + {key});
      DescendShows(h, asks, root, vis, e, Target(h, key), depth + 1, Enter(at, key));
      var t := AlonePointer(h, vis, s, v, depth, at);
      if !t.cut {
        SameKey(h, t.log, v);
        InsideEntered(at, key);
      }
    }
  }

  // A reference entered anew is settled once what its identity holds is shown.
  lemma SameKey(h: Heap, log: seq<Event>, v: Value)
    requires v.IsReference() && (v.Pointer? ==> ShownOrNothing(log, Target(h, v.Key())))
    requires forall i :: 0 <= i < |Held(h, v)| ==> ShownOrNothing(log, Held(h, v)[i].1)
    ensures forall x: Value :: x.IsReference() && x.Key() == v.Key() ==> Closed(h, log, x)
  {
    forall x: Value | x.IsReference() && x.Key() == v.Key() ensures Closed(h, log, x) {
      assert Held(h, x) == Held(h, v);
    }
  }

  lemma InsideEntered(at: Place, key: RefKey)
    ensures forall k :: Inside(Enter(at, key).inside, k) ==> k == key || Inside(at.inside, k)
  {
  }

  lemma {:induction false} HeldShows(h: Heap, asks: Value -> bool, root: Value, vis: Visitor, s: Alone, v: Value, depth: nat, at: Place)
    requires AsksBy(vis, asks) && depth <= MAX_WALK_DEPTH && PointersOnly(s) && !v.Pointer? && !v.Iface?
    requires Reaches(h, asks, root, v) && asks(v)
    ensures var t := AloneHeld(h, vis, s, v, depth, at);
      Showed(h, asks, root, s, t, at) && PointersOnly(t) && (!t.cut && !Elsewhere(s, at, v) ==> Closed(h, t.log, v))
    decreases MAX_WALK_DEPTH + 1 - depth, 1, 1
  {
    HeldFromRoot(h, asks, root, v);
    var held := Held(h, v);
    assert forall i :: 0 <= i < |held| ==> Holds(h, v, held[i].1);
    var t := AloneHeld(h, vis, s, v, depth, at);
    if held == [] {
    } else if !v.IsReference() {
      EachShows(h, asks, root, vis, s, held, |held|, depth, at);
    } else if Inside(at.inside, v.Key()) {
      MeetsShows(h, asks, root, vis, s, v.Key(), at);
    } else {
      EachShows(h, asks, root, vis, s, held, |held|, depth, Enter(at, v.Key()));
      HeldEntered(h, asks, root, s, t, v, at);
    }
  }

  // What is shown inside a reference entered settles it.
  lemma HeldEntered(h: Heap, asks: Value -> bool, root: Value, s: Alone, t: Alone, v: Value, at: Place)
    requires v.IsReference() && !v.Pointer? && Showed(h, asks, root, s, t, Enter(at, v.Key())) && !Inside(at.inside, v.Key())
    requires !t.cut ==> forall i :: 0 <= i < |Held(h, v)| ==> ShownOrNothing(t.log, Held(h, v)[i].1)
    ensures Showed(h, asks, root, s, t, at) && (!t.cut ==> Closed(h, t.log, v))
  {
    hide Held;
    if !t.cut {
      SameKey(h, t.log, v);
      InsideEntered(at, v.Key());
    }
  }

  lemma {:induction false} EachShows(h: Heap, asks: Value -> bool, root: Value, vis: Visitor, s: Alone, held: seq<(Step, Value)>, n: nat, depth: nat, at: Place)
    requires AsksBy(vis, asks) && depth <= MAX_WALK_DEPTH && PointersOnly(s) && n <= |held|
    requires forall i :: 0 <= i < n ==> FromRoot(h, asks, root, held[i].1)
    ensures var t := AloneEach(h, vis, s, held, n, depth, at);
      Showed(h, asks, root, s, t, at) && PointersOnly(t) &&
      (!t.cut ==> forall i :: 0 <= i < n ==> ShownOrNothing(t.log, held[i].1))
    decreases MAX_WALK_DEPTH + 1 - depth, 0, n
  {
    if n > 0 {
      var before := AloneEach(h, vis, s, held, n - 1, depth, at);
      var t := AloneEach(h, vis, s, held, n, depth, at);
      EachShows(h, asks, root, vis, s, held, n - 1, depth, at);
      var under := Take(at, held[n - 1].0);
      DescendShows(h, asks, root, vis, before, held[n - 1].1, depth + 1, under);
      assert under.inside == at.inside;
      assert Showed(h, asks, root, before, t, at);
      ShowedThen(h, asks, root, s, before, t, at);
      if !t.cut {
        forall i | 0 <= i < n - 1 ensures ShownOrNothing(t.log, held[i].1) {
          ShownStays(before.log, t.log, held[i].1);
        }
      }
    }
  }

  /** The values an uncut walk shows are exactly those root reaches through
      values the visitor asks about, however they share and close cycles. */
  lemma ShowsWhatRootReaches(h: Heap, asks: Value -> bool, root: Value, path: string, vis: Visitor)
    requires AsksBy(vis, asks)
    ensures var t := WalkAlone(h, root, path, vis);
      && (forall v :: ShownIn(t.log, v) ==> Reaches(h, asks, root, v))
      && (!t.cut ==> forall v :: Reaches(h, asks, root, v) ==> ShownIn(t.log, v))
  {
    var t := WalkAlone(h, root, path, vis);
    if !root.Invalid? {
      Graphs.ReachSelf(Onward(h, asks), root);
    }
    WalkShows(h, asks, root, vis, Alone([], {}, false), root, 0, Place(path, [], []));
    if !t.cut {
      var shown := iset v | ShownIn(t.log, v);
      forall v | Reaches(h, asks, root, v) ensures ShownIn(t.log, v) {
        Graphs.ReachWithin(Onward(h, asks), shown, root, v);
      }
    }
  }
}
