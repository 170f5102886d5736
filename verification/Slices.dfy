/** Services in memory: a node holds its slices by address, so slices can be shared, and
    writing one would show wherever it is held. */
module Slices {
  import opened Values
  import opened Services

  // A slice by the address of its array, or nil.
  type Slice = Option<nat>

  /** A node as a slice holds it. */
  datatype Elem = Elem(key: Key, data: string, groups: Slice, operations: Slice)

  /** What each array holds. */
  type Memory = map<nat, seq<Elem>>

  /** A pointer to an element. */
  datatype Ref = Ref(at: nat, i: nat)

  predicate Points(mem: Memory, r: Ref) {
    r.at in mem && r.i < |mem[r.at]|
  }

  function Deref(mem: Memory, r: Ref): Elem
    requires Points(mem, r)
  {
    mem[r.at][r.i]
  }

  function ElementsOf(mem: Memory, s: Slice): seq<Elem> {
    if s.Some? && s.value in mem then mem[s.value] else []
  }

  /** x is v as it stands in memory. */
  ghost predicate Spells(mem: Memory, x: Elem, v: Node)
    decreases v, 0
  {
    && x.key == v.key && x.data == v.data
    && SpellsAll(mem, x.groups, v.groups) && SpellsAll(mem, x.operations, v.operations)
  }

  ghost predicate SpellsAll(mem: Memory, s: Slice, vs: seq<Node>)
    decreases vs, 1
  {
    (s.Some? ==> s.value in mem) && SpellsEach(mem, ElementsOf(mem, s), vs)
  }

  ghost predicate SpellsEach(mem: Memory, xs: seq<Elem>, vs: seq<Node>)
    decreases vs, 0
  {
    |xs| == |vs| && forall i :: 0 <= i < |vs| ==> Spells(mem, xs[i], vs[i])
  }

  ghost predicate SpellsOne(mem: Memory, x: Option<Elem>, v: Option<Node>) {
    if v.None? then x.None? else x.Some? && Spells(mem, x.value, v.value)
  }

  /** Memory only grew: no array a held was written. */
  ghost predicate Grew(a: Memory, b: Memory) {
    forall p :: p in a ==> p in b && b[p] == a[p]
  }

  lemma GrewSelf(mem: Memory)
    ensures Grew(mem, mem)
  {}

  lemma GrewThen(a: Memory, b: Memory, c: Memory)
    requires Grew(a, b) && Grew(b, c)
    ensures Grew(a, c)
  {}

  lemma PointsStill(a: Memory, b: Memory, r: Ref)
    requires Grew(a, b) && Points(a, r)
    ensures Points(b, r) && Deref(b, r) == Deref(a, r)
  {}

  /** What is spelled stays so while memory only grows. */
  lemma {:induction false} SpellsStill(a: Memory, b: Memory, x: Elem, v: Node)
    requires Grew(a, b) && Spells(a, x, v)
    ensures Spells(b, x, v)
    decreases v, 0
  {
    SpellsAllStill(a, b, x.groups, v.groups);
    SpellsAllStill(a, b, x.operations, v.operations);
  }

  lemma {:induction false} SpellsAllStill(a: Memory, b: Memory, s: Slice, vs: seq<Node>)
    requires Grew(a, b) && SpellsAll(a, s, vs)
    ensures SpellsAll(b, s, vs)
    decreases vs, 1
  {
    SpellsEachStill(a, b, ElementsOf(a, s), vs);
  }

  lemma {:induction false} SpellsEachStill(a: Memory, b: Memory, xs: seq<Elem>, vs: seq<Node>)
    requires Grew(a, b) && SpellsEach(a, xs, vs)
    ensures SpellsEach(b, xs, vs)
    decreases vs, 0
  {
    forall i | 0 <= i < |vs| ensures Spells(b, xs[i], vs[i]) {
      SpellsStill(a, b, xs[i], vs[i]);
    }
  }

  lemma SpellsOneStill(a: Memory, b: Memory, x: Option<Elem>, v: Option<Node>)
    requires Grew(a, b) && SpellsOne(a, x, v)
    ensures SpellsOne(b, x, v)
  {
    if v.Some? {
      SpellsStill(a, b, x.value, v.value);
    }
  }

  lemma SpellsOneMore(mem: Memory, xs: seq<Elem>, vs: seq<Node>, x: Elem, v: Node)
    requires SpellsEach(mem, xs, vs) && Spells(mem, x, v)
    ensures SpellsEach(mem, xs + [x], vs + [v])
  {}

  lemma NothingSpelled(mem: Memory)
    ensures SpellsEach(mem, [], []) && SpellsAll(mem, None, [])
  {}

  lemma SpellsArray(mem: Memory, at: nat, vs: seq<Node>)
    requires at in mem && SpellsEach(mem, mem[at], vs)
    ensures SpellsAll(mem, Some(at), vs)
  {}

  // What an element says of its node.
  lemma SpelledParts(mem: Memory, x: Elem, v: Node)
    requires Spells(mem, x, v)
    ensures x.key == v.key && x.data == v.data
    ensures SpellsAll(mem, x.groups, v.groups) && SpellsAll(mem, x.operations, v.operations)
  {}

  lemma SpelledElement(mem: Memory, s: Slice, vs: seq<Node>)
    requires SpellsAll(mem, s, vs)
    ensures |ElementsOf(mem, s)| == |vs|
    ensures forall i :: 0 <= i < |vs| ==> SpelledIn(mem, s, i, vs[i])
  {}

  // The i-th element of s is v.
  ghost predicate SpelledIn(mem: Memory, s: Slice, i: nat, v: Node) {
    s.Some? && Points(mem, Ref(s.value, i)) && Spells(mem, Deref(mem, Ref(s.value, i)), v)
  }

  lemma SpellsGroups(mem: Memory, x: Elem, v: Node, s: Slice, vs: seq<Node>)
    requires Spells(mem, x, v) && SpellsAll(mem, s, vs)
    ensures Spells(mem, x.(groups := s), v.(groups := vs))
  {}

  lemma SpellsOperations(mem: Memory, x: Elem, v: Node, s: Slice, vs: seq<Node>)
    requires Spells(mem, x, v) && SpellsAll(mem, s, vs)
    ensures Spells(mem, x.(operations := s), v.(operations := vs))
  {}

  lemma SpellsData(mem: Memory, x: Elem, v: Node, data: string)
    requires Spells(mem, x, v)
    ensures Spells(mem, x.(data := data), v.(data := data))
  {}

  lemma SameElements(a: Memory, b: Memory, s: Slice, vs: seq<Node>)
    requires Grew(a, b) && SpellsAll(a, s, vs)
    ensures ElementsOf(b, s) == ElementsOf(a, s)
  {}

  // ----- slices that stay -----

  predicate InMemory(mem: Memory, s: Slice) {
    s.Some? ==> s.value in mem
  }

  /** An edit of nodes at these keys reaches something in vs. */
  ghost predicate Touched(vs: seq<Node>, level: nat, keys: set<Key>) {
    exists v :: v in AllVisible(vs, level) && v.key in keys
  }

  /** An edit of nodes at these keys, whose document held vs in s, holds them in t: in s
      itself where it reaches nothing in vs, and else in an array whose elements keep
      theirs alike, but for nodes at those keys that are gone. */
  ghost predicate Keeps(mem: Memory, s: Slice, vs: seq<Node>, t: Slice, level: nat, keys: set<Key>)
    decreases vs, 1
  {
    && InMemory(mem, s) && InMemory(mem, t)
    && if Touched(vs, level, keys) then KeepsEach(mem, ElementsOf(mem, s), vs, ElementsOf(mem, t), level, keys) else t == s
  }

  ghost predicate KeepsEach(mem: Memory, xs: seq<Elem>, vs: seq<Node>, ys: seq<Elem>, level: nat, keys: set<Key>)
    decreases vs, 0
  {
    && |xs| == |vs|
    && if vs == [] then ys == []
       else
         || (vs[0].key in keys && KeepsEach(mem, xs[1..], vs[1..], ys, level, keys))
         || (ys != [] && KeepsOne(mem, xs[0], vs[0], ys[0], level, keys) && KeepsEach(mem, xs[1..], vs[1..], ys[1..], level, keys))
  }

  ghost predicate KeepsOne(mem: Memory, x: Elem, v: Node, y: Elem, level: nat, keys: set<Key>)
    decreases v, 0
  {
    && y.key == x.key && KeepsGroups(mem, x, v, y, level, keys)
    && Keeps(mem, x.operations, v.operations, y.operations, level + 1, keys)
  }

  ghost predicate KeepsGroups(mem: Memory, x: Elem, v: Node, y: Elem, level: nat, keys: set<Key>)
    decreases v.groups, 2
  {
    if Reads(level) then Keeps(mem, x.groups, v.groups, y.groups, level + 1, keys) else y.groups == x.groups
  }

  lemma {:induction false} KeepsItself(mem: Memory, s: Slice, vs: seq<Node>, level: nat, keys: set<Key>)
    requires SpellsAll(mem, s, vs)
    ensures Keeps(mem, s, vs, s, level, keys)
    decreases vs, 1
  {
    hide Touched;
    EachKeepsItself(mem, ElementsOf(mem, s), vs, level, keys);
  }

  lemma {:induction false} EachKeepsItself(mem: Memory, xs: seq<Elem>, vs: seq<Node>, level: nat, keys: set<Key>)
    requires SpellsEach(mem, xs, vs)
    ensures KeepsEach(mem, xs, vs, xs, level, keys)
    decreases vs, 0
  {
    hide Touched, Keeps;
    if vs != [] {
      var x, v := xs[0], vs[0];
      assert Spells(mem, x, v);
      KeepsItself(mem, x.groups, v.groups, level + 1, keys);
      KeepsItself(mem, x.operations, v.operations, level + 1, keys);
      assert KeepsOne(mem, x, v, x, level, keys);
      EachKeepsItself(mem, xs[1..], vs[1..], level, keys);
    }
  }

  // A slice built of what is kept, where something was reached.
  lemma KeepsBuilt(mem: Memory, s: Slice, vs: seq<Node>, t: Slice, level: nat, keys: set<Key>)
    requires InMemory(mem, s) && InMemory(mem, t) && Touched(vs, level, keys)
    requires KeepsEach(mem, ElementsOf(mem, s), vs, ElementsOf(mem, t), level, keys)
    ensures Keeps(mem, s, vs, t, level, keys)
  {
    hide Touched, KeepsEach;
  }

  // Memory may grow.
  lemma {:induction false} KeepsStill(a: Memory, b: Memory, s: Slice, vs: seq<Node>, t: Slice, level: nat, keys: set<Key>)
    requires Grew(a, b) && Keeps(a, s, vs, t, level, keys)
    ensures Keeps(b, s, vs, t, level, keys)
    decreases vs, 1
  {
    if Touched(vs, level, keys) {
      KeepsEachStill(a, b, ElementsOf(a, s), vs, ElementsOf(a, t), level, keys);
    }
  }

  lemma {:induction false} KeepsEachStill(a: Memory, b: Memory, xs: seq<Elem>, vs: seq<Node>, ys: seq<Elem>, level: nat,
      keys: set<Key>)
    requires Grew(a, b) && KeepsEach(a, xs, vs, ys, level, keys)
    ensures KeepsEach(b, xs, vs, ys, level, keys)
    decreases vs, 0
  {
    hide Touched, Grew, Keeps;
    if vs != [] {
      if vs[0].key in keys && KeepsEach(a, xs[1..], vs[1..], ys, level, keys) {
        KeepsEachStill(a, b, xs[1..], vs[1..], ys, level, keys);
      } else {
        KeepsOneStill(a, b, xs[0], vs[0], ys[0], level, keys);
        KeepsEachStill(a, b, xs[1..], vs[1..], ys[1..], level, keys);
      }
    }
  }

  lemma {:induction false} KeepsOneStill(a: Memory, b: Memory, x: Elem, v: Node, y: Elem, level: nat, keys: set<Key>)
    requires Grew(a, b) && KeepsOne(a, x, v, y, level, keys)
    ensures KeepsOne(b, x, v, y, level, keys)
    decreases v, 0
  {
    hide Grew, Keeps;
    if Reads(level) {
      KeepsStill(a, b, x.groups, v.groups, y.groups, level + 1, keys);
    }
    KeepsStill(a, b, x.operations, v.operations, y.operations, level + 1, keys);
  }

  // More may be edited.
  lemma {:induction false} KeepsMore(mem: Memory, s: Slice, vs: seq<Node>, t: Slice, level: nat, keys: set<Key>, more: set<Key>)
    requires SpellsAll(mem, s, vs) && Keeps(mem, s, vs, t, level, keys) && keys <= more
    ensures Keeps(mem, s, vs, t, level, more)
    decreases vs, 1
  {
    TouchedMore(vs, level, keys, more);
    if Touched(vs, level, keys) {
      hide Touched;
      KeepsEachMore(mem, ElementsOf(mem, s), vs, ElementsOf(mem, t), level, keys, more);
    } else {
      KeepsItself(mem, s, vs, level, more);
    }
  }

  lemma TouchedMore(vs: seq<Node>, level: nat, keys: set<Key>, more: set<Key>)
    requires keys <= more
    ensures Touched(vs, level, keys) ==> Touched(vs, level, more)
  {}

  lemma {:induction false} KeepsEachMore(mem: Memory, xs: seq<Elem>, vs: seq<Node>, ys: seq<Elem>, level: nat, keys: set<Key>,
      more: set<Key>)
    requires SpellsEach(mem, xs, vs) && KeepsEach(mem, xs, vs, ys, level, keys) && keys <= more
    ensures KeepsEach(mem, xs, vs, ys, level, more)
    decreases vs, 0
  {
    hide Touched, Keeps;
    if vs != [] {
      if vs[0].key in keys && KeepsEach(mem, xs[1..], vs[1..], ys, level, keys) {
        KeepsEachMore(mem, xs[1..], vs[1..], ys, level, keys, more);
      } else {
        KeepsOneMore(mem, xs[0], vs[0], ys[0], level, keys, more);
        KeepsEachMore(mem, xs[1..], vs[1..], ys[1..], level, keys, more);
      }
    }
  }

  lemma {:induction false} KeepsOneMore(mem: Memory, x: Elem, v: Node, y: Elem, level: nat, keys: set<Key>, more: set<Key>)
    requires Spells(mem, x, v) && KeepsOne(mem, x, v, y, level, keys) && keys <= more
    ensures KeepsOne(mem, x, v, y, level, more)
    decreases v, 0
  {
    hide Keeps;
    if Reads(level) {
      KeepsMore(mem, x.groups, v.groups, y.groups, level + 1, keys, more);
    }
    KeepsMore(mem, x.operations, v.operations, y.operations, level + 1, keys, more);
  }
}
