/** The relations composition defines, each walked afresh for one question with a
    worklist, and the same walks held to a limit of steps. */
module Composition {
  import opened Values
  import opened Graphs
  import opened Registry
  import opened Exposure

  const MAX_INT: int := 0x7FFF_FFFF_FFFF_FFFF

  // ----- steps -----

  /** left pays for n steps: a walk asks only before a step it takes. */
  predicate Affords(left: int, n: nat) {
    n == 0 || n <= left
  }

  /** What is left of left after n steps, or once they ran out. */
  function Spend(left: int, n: nat): int {
    if Affords(left, n) then left - n else if left < 0 then left else 0
  }

  method TakeStep(left: int) returns (ok: bool, rest: int)
    ensures ok == Affords(left, 1) && rest == Spend(left, 1)
  {
    if left <= 0 {
      return false, left;
    }
    return true, left - 1;
  }

  // ----- alias chains -----

  /** The plain reading of a chain with its visited set: where it stops, and at what
      cost in scalars. */
  function ChainStop(types: Types, id: TypeID, seen: set<TypeID>): (r: (TypeID, nat))
    decreases types.Keys - seen
  {
    var base := AliasBase(types, id);
    if base == None || id in seen then (id, 0)
    else
      assert id in types.Keys - seen;
      var r := ChainStop(types, base.value, seen + {id});
      (r.0, r.1 + 1)
  }

  method AliasTarget(types: Types, target: TypeID, left: int) returns (id: TypeID, ok: bool, rest: int)
    ensures var stop := ChainStop(types, target, {});
      ok == Affords(left, stop.1) && rest == Spend(left, stop.1) && (ok ==> id == stop.0)
  {
    id, rest := target, left;
    var seen: set<TypeID> := {};
    ghost var read := 0;
    while true
      invariant ChainStop(types, target, {}) == (ChainStop(types, id, seen).0, ChainStop(types, id, seen).1 + read)
      invariant Affords(left, read) && rest == left - read
      decreases types.Keys - seen
    {
      var base := AliasBase(types, id);
      if base == None || id in seen {
        return id, true, rest;
      }
      var took;
      took, rest := TakeStep(rest);
      if !took {
        return "", false, rest;
      }
      assert id in types.Keys - seen;
      seen := seen + {id};
      id := base.value;
      read := read + 1;
    }
  }

  /** A chain stops where the type it stands for is, or on its cycle. */
  lemma ChainStopResolves(types: Types, id: TypeID)
    ensures Resolves(types, id, ChainStop(types, id, {}).0)
  {
    assert ChainAt(types, id, 0) == id;
    StopResolves(types, id, id, {}, 0);
  }

  // s is an alias whose chain leads on to id.
  ghost predicate LeadsOnTo(types: Types, s: TypeID, id: TypeID) {
    AliasBase(types, s).Some? && exists m: nat :: m > 0 && ChainAt(types, s, m) == id
  }

  lemma {:induction false} StopResolves(types: Types, from: TypeID, id: TypeID, seen: set<TypeID>, n: nat)
    requires ChainAt(types, from, n) == id
    requires forall s :: s in seen ==> LeadsOnTo(types, s, id)
    ensures Resolves(types, from, ChainStop(types, id, seen).0)
    decreases types.Keys - seen
  {
    var base := AliasBase(types, id);
    if base.Some? && id !in seen {
      assert id in types.Keys - seen;
      assert ChainAt(types, id, 1) == base.value;
      ChainOn(types, from, n, 1);
      forall s | s in seen + {id} ensures LeadsOnTo(types, s, base.value) {
        if s in seen {
          var m: nat :| m > 0 && ChainAt(types, s, m) == id;
          ChainOn(types, s, m, 1);
          assert ChainAt(types, s, m + 1) == base.value;
        } else {
          assert ChainAt(types, s, 1) == base.value;
        }
      }
      StopResolves(types, from, base.value, seen + {id}, n + 1);
    }
  }

  // ----- supertypes -----

  /** The references Supertypes reads: a live model's base, then what it implements. */
  function SuperTargets(types: Types, id: TypeID): seq<TypeID> {
    if !IsModel(types, id) then []
    else (if types[id].base.Some? then [types[id].base.value] else []) + types[id].implemented
  }

  function StopsOf(types: Types, targets: seq<TypeID>): (r: seq<TypeID>)
    decreases |targets|
  {
    if targets == [] then []
    else
      var front := StopsOf(types, targets[..|targets| - 1]);
      var t := ChainStop(types, targets[|targets| - 1], {}).0;
      if t == "" then front else front + [t]
  }

  function CostOf(types: Types, targets: seq<TypeID>): nat {
    if targets == [] then 0
    else CostOf(types, targets[..|targets| - 1]) + ChainStop(types, targets[|targets| - 1], {}).1
  }

  /** The immediate supertypes of id, each read through its alias scalars. */
  function Supertypes(types: Types, id: TypeID): seq<TypeID> {
    StopsOf(types, SuperTargets(types, id))
  }

  ghost function Supers(types: Types): Edges<TypeID> {
    (a, b) => b in Supertypes(types, a)
  }

  method SupertypesWithin(types: Types, id: TypeID, left: int) returns (supers: seq<TypeID>, ok: bool, rest: int)
    ensures var cost := CostOf(types, SuperTargets(types, id));
      ok == Affords(left, cost) && rest == Spend(left, cost) && (ok ==> supers == Supertypes(types, id))
  {
    hide SuperTargets, ChainStop, CostOf, StopsOf;
    var targets := SuperTargets(types, id);
    supers, rest := [], left;
    NothingCosts(types);
    for i := 0 to |targets|
      invariant Affords(left, CostOf(types, targets[..i])) && rest == left - CostOf(types, targets[..i])
      invariant supers == StopsOf(types, targets[..i])
    {
      CostStep(types, targets, i);
      CostGrows(types, targets, i + 1);
      var t, found;
      t, found, rest := AliasTarget(types, targets[i], rest);
      if !found {
        return [], false, rest;
      }
      if t != "" {
        supers := supers + [t];
      }
    }
    assert targets[..|targets|] == targets;
    ok := true;
  }

  lemma NothingCosts(types: Types)
    ensures CostOf(types, []) == 0 && StopsOf(types, []) == []
  {}

  lemma CostStep(types: Types, targets: seq<TypeID>, i: nat)
    requires i < |targets|
    ensures CostOf(types, targets[..i + 1]) == CostOf(types, targets[..i]) + ChainStop(types, targets[i], {}).1
    ensures var t := ChainStop(types, targets[i], {}).0;
      StopsOf(types, targets[..i + 1]) == if t == "" then StopsOf(types, targets[..i]) else StopsOf(types, targets[..i]) + [t]
  {
    hide ChainStop;
    assert targets[..i + 1][..i] == targets[..i];
  }

  lemma {:induction false} CostGrows(types: Types, targets: seq<TypeID>, n: nat)
    requires n <= |targets|
    ensures CostOf(types, targets[..n]) <= CostOf(types, targets)
    decreases |targets|
  {
    if n < |targets| {
      CostGrows(types, targets[..|targets| - 1], n);
      assert targets[..|targets| - 1][..n] == targets[..n];
    } else {
      assert targets[..n] == targets;
    }
  }

  // ----- the subtype search -----

  function Models(types: Types): set<TypeID> {
    set id | id in types && types[id].Model?
  }

  /** Whether the search meets base, and the steps it takes, from where it stands. */
  function Search(types: Types, base: TypeID, queue: seq<TypeID>, seen: set<TypeID>): (r: (bool, nat))
    decreases Models(types) - seen, |queue|
  {
    if queue == [] then (false, 0)
    else
      var id, rest := queue[|queue| - 1], queue[..|queue| - 1];
      if id in seen then
        var r := Search(types, base, rest, seen);
        (r.0, r.1 + 1)
      else
        var supers, cost := Supertypes(types, id), CostOf(types, SuperTargets(types, id));
        if base in supers then (true, cost + 1)
        else
          assert IsModel(types, id) ==> id in Models(types) - seen;
          assert !IsModel(types, id) ==> supers == [] && Models(types) - (seen + {id}) == Models(types) - seen;
          var r := Search(types, base, rest + supers, seen + {id});
          (r.0, r.1 + cost + 1)
  }

  // Everything seen led on to the queue or to what was seen, and none to base.
  ghost predicate Swept(types: Types, base: TypeID, queue: seq<TypeID>, seen: set<TypeID>) {
    forall x, y :: x in seen && Supers(types)(x, y) ==> y != base && (y in seen || y in queue)
  }

  lemma SweptOn(types: Types, base: TypeID, queue: seq<TypeID>, seen: set<TypeID>)
    requires Swept(types, base, queue, seen) && queue != []
    ensures var id, rest := queue[|queue| - 1], queue[..|queue| - 1];
      if id in seen then Swept(types, base, rest, seen)
      else base !in Supertypes(types, id) ==> Swept(types, base, rest + Supertypes(types, id), seen + {id})
  {
    assert queue == queue[..|queue| - 1] + [queue[|queue| - 1]];
  }

  // Nothing swept leads to base once the queue is empty.
  lemma SweptMisses(types: Types, base: TypeID, seen: set<TypeID>, x: TypeID)
    requires Swept(types, base, [], seen) && x in seen
    ensures !Follows(Supers(types), x, base)
  {
    if Follows(Supers(types), x, base) {
      var d :| Reaches(Supers(types), x, d) && Supers(types)(d, base);
      var within := iset y | y in seen;
      ReachWithin(Supers(types), within, x, d);
    }
  }

  /** A search that finds base found it from the queue; one that does not rules out
      all it has seen and queued. */
  lemma {:induction false} SearchDecides(types: Types, base: TypeID, queue: seq<TypeID>, seen: set<TypeID>)
    requires Swept(types, base, queue, seen)
    ensures if Search(types, base, queue, seen).0 then exists x :: x in queue && Follows(Supers(types), x, base)
      else forall x :: x in seen || x in queue ==> !Follows(Supers(types), x, base)
    decreases Models(types) - seen, |queue|
  {
    hide Reaches;
    if queue == [] {
      forall x | x in seen ensures !Follows(Supers(types), x, base) {
        SweptMisses(types, base, seen, x);
      }
    } else {
      var id, rest := queue[|queue| - 1], queue[..|queue| - 1];
      assert queue == rest + [id];
      SweptOn(types, base, queue, seen);
      if id in seen {
        SearchDecides(types, base, rest, seen);
      } else if base in Supertypes(types, id) {
        ReachSelf(Supers(types), id);
        assert Supers(types)(id, base);
        assert Follows(Supers(types), id, base);
        assert id in queue;
      } else {
        assert IsModel(types, id) ==> id in Models(types) - seen;
        assert !IsModel(types, id) ==> Supertypes(types, id) == [] && Models(types) - (seen + {id}) == Models(types) - seen;
        SearchDecides(types, base, rest + Supertypes(types, id), seen + {id});
        if Search(types, base, rest + Supertypes(types, id), seen + {id}).0 {
          var x :| x in rest + Supertypes(types, id) && Follows(Supers(types), x, base);
          if x in Supertypes(types, id) {
            FollowsFrom(Supers(types), id, x, base);
          }
        }
      }
    }
  }

  lemma FollowsFrom(e: Edges<TypeID>, a: TypeID, b: TypeID, c: TypeID)
    requires e(a, b) && Follows(e, b, c)
    ensures Follows(e, a, c)
  {
    var d :| Reaches(e, b, d) && e(d, c);
    ReachEdge(e, a, b);
    ReachThen(e, a, b, d);
  }

  /** The budgeted search: it answers just when limit pays for the whole of the unlimited
      one, and then with the same answer and step count. */
  method IsSubtypeWithin(types: Types, target: TypeID, base: TypeID, limit: int) returns (sub: bool, spent: int, ok: bool)
    ensures var cost := Search(types, base, [target], {}).1;
      ok == Affords(limit, cost) && spent == limit - Spend(limit, cost)
    ensures ok ==> spent == Search(types, base, [target], {}).1
    ensures ok ==> (sub <==> Follows(Supers(types), target, base))
    ensures !ok ==> !sub
  {
    SearchIsFollows(types, base, target);
    hide Search, Models, Supertypes, CostOf, Follows, SuperTargets, Reaches, Supers, Affords, Spend;
    var left := limit;
    var seen: set<TypeID> := {};
    var queue := [target];
    ghost var found, total, taken: nat := Search(types, base, queue, seen).0, Search(types, base, queue, seen).1, 0;
    PaysNothing(limit);
    while |queue| > 0
      invariant taken <= total && Affords(limit, taken) && left == limit - taken
      invariant Search(types, base, queue, seen) == (found, total - taken)
      decreases Models(types) - seen, |queue|
    {
      var id, waiting := queue[|queue| - 1], queue[..|queue| - 1];
      var took;
      SearchTakes(types, base, queue, seen);
      PaysOn(limit, taken, 1, total);
      took, left := TakeStep(left);
      if !took {
        return false, limit - left, false;
      }
      taken := taken + 1;
      if id in seen {
        queue := waiting;
      } else {
        var supers, paid;
        SearchEnters(types, base, queue, seen);
        PaysOn(limit, taken, CostOf(types, SuperTargets(types, id)), total);
        supers, paid, left := SupertypesWithin(types, id, left);
        if !paid {
          return false, limit - left, false;
        }
        taken := taken + CostOf(types, SuperTargets(types, id));
        if base in supers {
          return true, limit - left, true;
        }
        SearchShrinks(types, id, seen);
        seen := seen + {id};
        queue := waiting + supers;
      }
    }
    SearchEnds(types, base, seen);
    return false, limit - left, true;
  }

  lemma PaysNothing(limit: int)
    ensures Affords(limit, 0) && forall n: nat :: Affords(limit, n) ==> Spend(limit, n) == limit - n
  {}

  // Paying n more of total either leaves what paying it at once does, or runs out as that does.
  lemma PaysOn(limit: int, taken: nat, n: nat, total: nat)
    requires Affords(limit, taken) && taken + n <= total
    ensures if Affords(limit - taken, n) then Affords(limit, taken + n) && Spend(limit - taken, n) == limit - taken - n
      else !Affords(limit, total) && Spend(limit - taken, n) == Spend(limit, total)
  {}

  lemma SearchIsFollows(types: Types, base: TypeID, target: TypeID)
    ensures Search(types, base, [target], {}).0 <==> Follows(Supers(types), target, base)
  {
    SearchDecides(types, base, [target], {});
    assert target in [target];
  }

  lemma SearchEnds(types: Types, base: TypeID, seen: set<TypeID>)
    ensures Search(types, base, [], seen) == (false, 0)
  {}

  // A search takes a step for each type it takes off the queue.
  lemma SearchTakes(types: Types, base: TypeID, queue: seq<TypeID>, seen: set<TypeID>)
    requires queue != []
    ensures Search(types, base, queue, seen).1 >= 1
    ensures queue[|queue| - 1] in seen ==>
      var r := Search(types, base, queue[..|queue| - 1], seen); Search(types, base, queue, seen) == (r.0, r.1 + 1)
  {}

  // A type not seen costs its supertypes too, which the search goes on to unless base is one.
  lemma SearchEnters(types: Types, base: TypeID, queue: seq<TypeID>, seen: set<TypeID>)
    requires queue != [] && queue[|queue| - 1] !in seen
    ensures var id := queue[|queue| - 1];
      var supers, cost := Supertypes(types, id), CostOf(types, SuperTargets(types, id));
      && Search(types, base, queue, seen).1 >= cost + 1
      && if base in supers then Search(types, base, queue, seen) == (true, cost + 1)
         else
           var r := Search(types, base, queue[..|queue| - 1] + supers, seen + {id});
           Search(types, base, queue, seen) == (r.0, r.1 + cost + 1)
  {}

  // A model entered is one fewer left, and nothing else has supertypes.
  lemma SearchShrinks(types: Types, id: TypeID, seen: set<TypeID>)
    requires id !in seen
    ensures Models(types) - (seen + {id}) < Models(types) - seen
         || (Supertypes(types, id) == [] && Models(types) - (seen + {id}) == Models(types) - seen)
  {
    assert IsModel(types, id) ==> id in Models(types);
    assert !IsModel(types, id) ==> Supertypes(types, id) == [];
  }

  /** The subtype relation: one or more supertype steps, however they cycle. */
  method IsSubtype(types: Types, target: TypeID, base: TypeID) returns (sub: bool)
    ensures Search(types, base, [target], {}).1 <= MAX_INT ==> (sub <==> Follows(Supers(types), target, base))
  {
    var spent, ok;
    sub, spent, ok := IsSubtypeWithin(types, target, base, MAX_INT);
  }

  // ----- the properties a type exposes -----

  /** What a walk over a type's parts finds: the properties it hands its visitor,
      whether the visitor stopped it, and the steps it takes. */
  datatype Hunted = Hunted(props: set<PropID>, stopped: bool, cost: nat)

  // A model's own properties, read up to the one stop names.
  function ReadOwn(ps: seq<Property>, stop: Option<PropID>): Hunted {
    if ps == [] then Hunted({}, false, 0)
    else if stop == Some(ps[0].id) then Hunted({ps[0].id}, true, 1)
    else
      var r := ReadOwn(ps[1..], stop);
      Hunted({ps[0].id} + r.props, r.stopped, r.cost + 1)
  }

  function OwnOf(types: Types, id: TypeID): seq<Property> {
    if IsModel(types, id) then types[id].properties else []
  }

  /** The walk from where it stands. */
  function Hunt(types: Types, stop: Option<PropID>, queue: seq<TypeID>, seen: set<TypeID>): Hunted
    decreases types.Keys - seen, |queue|
  {
    if queue == [] then Hunted({}, false, 0)
    else
      var id, rest := queue[|queue| - 1], queue[..|queue| - 1];
      if id in seen then
        var r := Hunt(types, stop, rest, seen);
        r.(cost := r.cost + 1)
      else
        var own := ReadOwn(OwnOf(types, id), stop);
        if own.stopped then own.(cost := own.cost + 1)
        else
          assert id in types ==> id in types.Keys - seen;
          assert id !in types ==> types.Keys - (seen + {id}) == types.Keys - seen;
          var r := Hunt(types, stop, rest + Sources(types, id), seen + {id});
          Hunted(own.props + r.props, r.stopped, own.cost + r.cost + 1)
  }

  lemma {:induction false} OwnRead(ps: seq<Property>, stop: Option<PropID>, p: PropID)
    requires stop == None || stop == Some(p)
    ensures var r := ReadOwn(ps, stop);
      var declared := exists i :: 0 <= i < |ps| && ps[i].id == p;
      && (stop == None ==> !r.stopped && (p in r.props <==> declared))
      && (stop == Some(p) ==> (r.stopped <==> declared))
  {
    if ps != [] {
      OwnRead(ps[1..], stop, p);
      if i :| 0 <= i < |ps| && ps[i].id == p {
        assert i > 0 ==> ps[1..][i - 1] == ps[i];
      }
      if i :| 0 <= i < |ps[1..]| && ps[1..][i].id == p {
        assert ps[i + 1].id == p;
      }
    }
  }

  // The walk found p: handed it on, or stopped at it.
  ghost predicate Found(r: Hunted, stop: Option<PropID>, p: PropID) {
    if stop == None then p in r.props else r.stopped
  }

  // What was seen led on to the queue or to what was seen, and declares no stop.
  ghost predicate Covered(types: Types, stop: Option<PropID>, queue: seq<TypeID>, seen: set<TypeID>) {
    && (forall x, y :: x in seen && Leads(types)(x, y) ==> y in seen || y in queue)
    && (stop.Some? ==> forall x :: x in seen ==> !DeclaresProp(types, x, stop.value))
  }

  ghost predicate DeclaredIn(types: Types, seen: set<TypeID>, p: PropID) {
    exists x :: x in seen && DeclaresProp(types, x, p)
  }

  ghost predicate ExposedFrom(types: Types, queue: seq<TypeID>, seen: set<TypeID>, p: PropID) {
    exists x :: (x in seen || x in queue) && Exposes(types, x, p)
  }

  lemma CoveredAll(types: Types, stop: Option<PropID>, seen: set<TypeID>, p: PropID)
    requires Covered(types, stop, [], seen)
    ensures ExposedFrom(types, [], seen, p) <==> DeclaredIn(types, seen, p)
  {
    if ExposedFrom(types, [], seen, p) {
      var x :| x in seen && Exposes(types, x, p);
      var y :| Reaches(Leads(types), x, y) && DeclaresProp(types, y, p);
      var within := iset z | z in seen;
      ReachWithin(Leads(types), within, x, y);
    }
    if DeclaredIn(types, seen, p) {
      var x :| x in seen && DeclaresProp(types, x, p);
      ReachSelf(Leads(types), x);
      assert Exposes(types, x, p);
    }
  }

  lemma ExposedOn(types: Types, rest: seq<TypeID>, seen: set<TypeID>, id: TypeID, p: PropID)
    ensures ExposedFrom(types, rest + [id], seen, p) <==> ExposedFrom(types, rest + Sources(types, id), seen + {id}, p)
  {
    if ExposedFrom(types, rest + [id], seen, p) {
      var x :| (x in seen || x in rest + [id]) && Exposes(types, x, p);
      assert x in seen + {id} || x in rest + Sources(types, id);
    }
    if ExposedFrom(types, rest + Sources(types, id), seen + {id}, p) {
      var x :| (x in seen + {id} || x in rest + Sources(types, id)) && Exposes(types, x, p);
      if x in Sources(types, id) {
        var y :| Reaches(Leads(types), x, y) && DeclaresProp(types, y, p);
        ReachEdge(Leads(types), id, x);
        ReachThen(Leads(types), id, x, y);
        assert Exposes(types, id, p);
        assert id in rest + [id];
      } else {
        assert x in seen || x in rest + [id];
      }
    }
  }

  lemma {:induction false} HuntDecides(types: Types, stop: Option<PropID>, queue: seq<TypeID>, seen: set<TypeID>, p: PropID)
    requires Covered(types, stop, queue, seen) && (stop == None || stop == Some(p))
    ensures Found(Hunt(types, stop, queue, seen), stop, p) || DeclaredIn(types, seen, p) <==> ExposedFrom(types, queue, seen, p)
    decreases types.Keys - seen, |queue|
  {
    hide Reaches, Exposes, DeclaresProp;
    if queue == [] {
      CoveredAll(types, stop, seen, p);
    } else {
      var id, rest := queue[|queue| - 1], queue[..|queue| - 1];
      assert queue == rest + [id];
      if id in seen {
        HuntDecides(types, stop, rest, seen, p);
        assert ExposedFrom(types, queue, seen, p) <==> ExposedFrom(types, rest, seen, p);
      } else {
        OwnDeclares(types, id, stop, p);
        ExposedOn(types, rest, seen, id, p);
        if ReadOwn(OwnOf(types, id), stop).stopped {
          SelfExposes(types, id, p);
        } else {
          assert id in types ==> id in types.Keys - seen;
          assert id !in types ==> types.Keys - (seen + {id}) == types.Keys - seen;
          HuntDecides(types, stop, rest + Sources(types, id), seen + {id}, p);
          assert DeclaredIn(types, seen + {id}, p) <==> DeclaredIn(types, seen, p) || DeclaresProp(types, id, p);
        }
      }
    }
  }

  lemma OwnDeclares(types: Types, id: TypeID, stop: Option<PropID>, p: PropID)
    requires stop == None || stop == Some(p)
    ensures Found(ReadOwn(OwnOf(types, id), stop), stop, p) <==> DeclaresProp(types, id, p)
    ensures stop == None ==> !ReadOwn(OwnOf(types, id), stop).stopped
  {
    OwnRead(OwnOf(types, id), stop, p);
  }

  lemma SelfExposes(types: Types, id: TypeID, p: PropID)
    requires DeclaresProp(types, id, p)
    ensures Exposes(types, id, p)
  {
    ReachSelf(Leads(types), id);
  }

  /** The walk from root alone finds p exactly when root exposes it. */
  lemma HuntFinds(types: Types, stop: Option<PropID>, root: TypeID, p: PropID)
    requires stop == None || stop == Some(p)
    ensures Found(Hunt(types, stop, [root], {}), stop, p) <==> Exposes(types, root, p)
  {
    hide Exposes;
    HuntDecides(types, stop, [root], {}, p);
    assert ExposedFrom(types, [root], {}, p) <==> Exposes(types, root, p) by {
      if Exposes(types, root, p) { assert root in [root]; }
    }
  }

  method ReadOwnWithin(ps: seq<Property>, stop: Option<PropID>, left: int) returns (r: Hunted, ok: bool, rest: int)
    ensures var own := ReadOwn(ps, stop);
      ok == Affords(left, own.cost) && rest == Spend(left, own.cost) && (ok ==> r == own)
  {
    var props: set<PropID> := {};
    rest := left;
    for i := 0 to |ps|
      invariant Affords(left, i) && rest == left - i
      invariant var own := ReadOwn(ps[i..], stop); ReadOwn(ps, stop) == Hunted(props + own.props, own.stopped, own.cost + i)
    {
      assert ps[i..][0] == ps[i] && ps[i..][1..] == ps[i + 1..];
      var took;
      took, rest := TakeStep(rest);
      if !took {
        return Hunted({}, false, 0), false, rest;
      }
      props := props + {ps[i].id};
      if stop == Some(ps[i].id) {
        return Hunted(props, true, i + 1), true, rest;
      }
    }
    return Hunted(props, false, |ps|), true, rest;
  }

  /** Walks a type's parts from root, taking steps from left, up to the property
      stop names: through just when left pays for the whole walk. */
  method ExposedWalk(types: Types, root: TypeID, stop: Option<PropID>, left: int) returns (r: Hunted, ok: bool, rest: int)
    ensures var whole := Hunt(types, stop, [root], {});
      ok == Affords(left, whole.cost) && rest == Spend(left, whole.cost) && (ok ==> r == whole)
  {
    var seen: set<TypeID> := {};
    var queue := [root];
    var props: set<PropID> := {};
    rest := left;
    ghost var taken: nat := 0;
    while |queue| > 0
      invariant Affords(left, taken) && rest == left - taken
      invariant var on := Hunt(types, stop, queue, seen);
        Hunt(types, stop, [root], {}) == Hunted(props + on.props, on.stopped, on.cost + taken)
      decreases types.Keys - seen, |queue|
    {
      var id := queue[|queue| - 1];
      var took;
      took, rest := TakeStep(rest);
      if !took {
        return Hunted({}, false, 0), false, rest;
      }
      queue := queue[..|queue| - 1];
      taken := taken + 1;
      if id !in seen {
        var own, read;
        own, read, rest := ReadOwnWithin(OwnOf(types, id), stop, rest);
        if !read {
          return Hunted({}, false, 0), false, rest;
        }
        taken := taken + own.cost;
        props := props + own.props;
        if own.stopped {
          return Hunted(props, true, left - rest), true, rest;
        }
        assert id in types ==> id in types.Keys - seen;
        assert id !in types ==> types.Keys - (seen + {id}) == types.Keys - seen;
        queue := queue + Sources(types, id);
        seen := seen + {id};
      }
    }
    return Hunted(props, false, left - rest), true, rest;
  }

  /** Whether root exposes prop, in at most limit steps. */
  method ExposesWithin(types: Types, root: TypeID, prop: PropID, limit: int) returns (exposed: bool, spent: int, ok: bool)
    ensures var cost := Hunt(types, Some(prop), [root], {}).cost;
      ok == Affords(limit, cost) && spent == limit - Spend(limit, cost)
    ensures ok ==> (exposed <==> Exposes(types, root, prop))
  {
    var r, left;
    r, ok, left := ExposedWalk(types, root, Some(prop), limit);
    HuntFinds(types, Some(prop), root, prop);
    exposed, spent := r.stopped, limit - left;
  }

  /** The properties root exposes. */
  method ExposedProps(types: Types, root: TypeID) returns (props: set<PropID>)
    ensures Hunt(types, None, [root], {}).cost <= MAX_INT ==> forall p :: p in props <==> Exposes(types, root, p)
  {
    var r, ok, left := ExposedWalk(types, root, None, MAX_INT);
    forall p ensures Found(Hunt(types, None, [root], {}), None, p) <==> Exposes(types, root, p) {
      HuntFinds(types, None, root, p);
    }
    props := r.props;
  }

  // ----- what a supertype is -----

  // t is named by the base of the model at id, or by what it implements.
  ghost predicate NamesSuper(types: Types, id: TypeID, t: TypeID) {
    IsModel(types, id) && (types[id].base == Some(t) || t in types[id].implemented)
  }

  lemma {:induction false} StopsHave(types: Types, targets: seq<TypeID>, b: TypeID)
    ensures b in StopsOf(types, targets) <==> b != "" && exists t :: t in targets && ChainStop(types, t, {}).0 == b
    decreases |targets|
  {
    hide ChainStop;
    if targets != [] {
      var front, last := targets[..|targets| - 1], targets[|targets| - 1];
      StopsHave(types, front, b);
      assert targets == front + [last];
      assert forall t :: t in targets <==> t in front || t == last;
      var stop := ChainStop(types, last, {}).0;
      assert StopsOf(types, targets) == if stop == "" then StopsOf(types, front) else StopsOf(types, front) + [stop];
      if exists t :: t in targets && ChainStop(types, t, {}).0 == b {
        var t :| t in targets && ChainStop(types, t, {}).0 == b;
        assert t in front || t == last;
      }
    }
  }

  /** A supertype step goes from a model to where the chain of its base stops, or of one
      it implements, unless that is unset.  A mixin is none. */
  lemma SuperStep(types: Types, a: TypeID, b: TypeID)
    ensures Supers(types)(a, b) <==>
      b != "" && exists t :: NamesSuper(types, a, t) && ChainStop(types, t, {}).0 == b
  {
    hide ChainStop;
    StopsHave(types, SuperTargets(types, a), b);
    if IsModel(types, a) {
      forall t ensures t in SuperTargets(types, a) <==> NamesSuper(types, a, t) {
        var first := if types[a].base.Some? then [types[a].base.value] else [];
        assert t in first + types[a].implemented <==> t in first || t in types[a].implemented;
      }
    }
  }

  lemma {:induction false} StopsInOrder(types: Types, targets: seq<TypeID>)
    requires forall i :: 0 <= i < |targets| ==> ChainStop(types, targets[i], {}).0 != ""
    ensures |StopsOf(types, targets)| == |targets|
    ensures forall i :: 0 <= i < |targets| ==> StopsOf(types, targets)[i] == ChainStop(types, targets[i], {}).0
    decreases |targets|
  {
    hide ChainStop;
    if targets != [] {
      StopsInOrder(types, targets[..|targets| - 1]);
    }
  }

  lemma TargetsInOrder(types: Types, id: TypeID)
    requires IsModel(types, id)
    ensures var m, targets := types[id], SuperTargets(types, id); var n := if m.base.Some? then 1 else 0;
      && |targets| == n + |m.implemented| && (m.base.Some? ==> targets[0] == m.base.value)
      && (forall i :: 0 <= i < |m.implemented| ==> targets[n + i] == m.implemented[i])
      && forall i :: 0 <= i < |targets| ==> NamesSuper(types, id, targets[i])
  {
    var m, targets := types[id], SuperTargets(types, id);
    var n := if m.base.Some? then 1 else 0;
    forall i | 0 <= i < |targets| ensures NamesSuper(types, id, targets[i]) {
      assert i >= n ==> targets[i] == m.implemented[i - n];
    }
  }

  /** A model's supertypes are listed where the chain of its base stops first, then of each
      type it implements, in order, when none is unset. */
  lemma SupertypesByEntry(types: Types, id: TypeID)
    requires IsModel(types, id) && forall t :: NamesSuper(types, id, t) ==> ChainStop(types, t, {}).0 != ""
    ensures var m, supers := types[id], Supertypes(types, id); var n := if m.base.Some? then 1 else 0;
      && |supers| == n + |m.implemented|
      && (m.base.Some? ==> supers[0] == ChainStop(types, m.base.value, {}).0)
      && forall i :: 0 <= i < |m.implemented| ==> supers[n + i] == ChainStop(types, m.implemented[i], {}).0
  {
    hide ChainStop, StopsOf, SuperTargets, NamesSuper;
    TargetsInOrder(types, id);
    StopsInOrder(types, SuperTargets(types, id));
  }

  /** A type that names no base and implements nothing is a subtype of nothing, whatever
      it mixes in. */
  lemma MixinsAreNoSupertypes(types: Types, a: TypeID, b: TypeID)
    requires forall t :: !NamesSuper(types, a, t)
    ensures !Follows(Supers(types), a, b)
  {
    hide Reaches, ChainStop;
    forall y ensures !Supers(types)(a, y) {
      SuperStep(types, a, y);
    }
    if Follows(Supers(types), a, b) {
      var d :| Reaches(Supers(types), a, d) && Supers(types)(d, b);
      ReachWithin(Supers(types), iset{a}, a, d);
    }
  }

  // q is p with other mixins, wherever a model is.
  ghost predicate SameButMixins(p: Types, q: Types) {
    && p.Keys == q.Keys
    && forall id :: id in p ==>
      if p[id].Model? then q[id].Model? && q[id] == p[id].(mixins := q[id].mixins) else q[id] == p[id]
  }

  lemma {:induction false} SameStops(p: Types, q: Types, id: TypeID, seen: set<TypeID>)
    requires SameButMixins(p, q)
    ensures ChainStop(p, id, seen) == ChainStop(q, id, seen)
    decreases p.Keys - seen
  {
    if AliasBase(p, id).Some? && id !in seen {
      assert id in p.Keys - seen;
      SameStops(p, q, AliasBase(p, id).value, seen + {id});
    }
  }

  /** What types mix in changes no answer about subtypes. */
  lemma MixinsChangeNoSubtype(p: Types, q: Types, a: TypeID, b: TypeID)
    requires SameButMixins(p, q)
    ensures Follows(Supers(p), a, b) <==> Follows(Supers(q), a, b)
  {
    SameFollows(p, q, a, b);
    SameFollows(q, p, a, b);
  }

  lemma SameFollows(p: Types, q: Types, a: TypeID, b: TypeID)
    requires SameButMixins(p, q)
    ensures Follows(Supers(p), a, b) ==> Follows(Supers(q), a, b)
  {
    hide Reaches, ChainStop;
    forall x, y ensures Supers(p)(x, y) ==> Supers(q)(x, y) {
      SuperStep(p, x, y);
      SuperStep(q, x, y);
      forall t ensures NamesSuper(p, x, t) <==> NamesSuper(q, x, t) && ChainStop(p, t, {}) == ChainStop(q, t, {}) {
        SameStops(p, q, t, {});
      }
    }
    if Follows(Supers(p), a, b) {
      var d :| Reaches(Supers(p), a, d) && Supers(p)(d, b);
      ReachSelf(Supers(q), a);
      forall x, y | Reaches(Supers(q), a, x) && Supers(p)(x, y) ensures Reaches(Supers(q), a, y) {
        ReachOn(Supers(q), a, x, y);
      }
      ReachWithin(Supers(p), (iset x | Reaches(Supers(q), a, x)), a, d);
    }
  }
}
