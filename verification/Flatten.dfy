/** Model flattening: one iterative walk reads a model's whole composition in
    layout order, and gathers its members by wire name. */
module Flatten {
  import opened Values
  import opened Graphs
  import opened Registry
  import opened Exposure
  import opened Members
  import C = Components
  import T = Trails

  // What met holds for a model read, and for an entry's target naming no model.
  const MET_READ: int := -1
  const MET_UNFLATTENED: int := -2

  // The memo's mark of a scalar whose chain has not been read to its end.
  const ALIAS_ON_CHAIN: int := -1

  /** A frame of the explicit stack.  `num`, `low` and `since` are the depth-first search's
      own, which `Components` reasons about; `next` is the entry to follow on return. */
  datatype Frame = Frame(id: TypeID, next: nat, num: nat, low: nat, since: nat)

  function MarkOf(f: Frame): C.Mark {
    C.Mark(f.id, f.num, f.since)
  }

  ghost function Marks(fs: seq<Frame>): (r: seq<C.Mark>)
    ensures |r| == |fs| && forall i :: 0 <= i < |fs| ==> r[i] == MarkOf(fs[i])
  {
    seq(|fs|, i requires 0 <= i < |fs| => MarkOf(fs[i]))
  }

  ghost function Nexts(fs: seq<Frame>): (r: seq<nat>)
    ensures |r| == |fs| && forall i :: 0 <= i < |fs| ==> r[i] == fs[i].next
  {
    seq(|fs|, i requires 0 <= i < |fs| => fs[i].next)
  }

  ghost function Lows(fs: seq<Frame>): (r: seq<int>)
    ensures |r| == |fs| && forall i :: 0 <= i < |fs| ==> r[i] == fs[i].low
  {
    seq(|fs|, i requires 0 <= i < |fs| => fs[i].low)
  }

  /** The i-th composition entry's target: the base where there is one, then what
      the model implements, then its mixins. */
  function EntryAt(m: TypeDef, i: nat): (r: Option<TypeID>)
    requires m.Model?
    ensures r == if i < |Targets(m)| then Some(Targets(m)[i]) else None
  {
    if m.base.Some? && i == 0 then Some(m.base.value)
    else
      var j := if m.base.Some? then i - 1 else i;
      if j < |m.implemented| then Some(m.implemented[j])
      else if j - |m.implemented| < |m.mixins| then Some(m.mixins[j - |m.implemented|])
      else None
  }

  // ----- members by wire name -----

  /** members are the declarations ds holds, by wire name in the order names are
      first read, and index places each name. */
  ghost predicate Grouped(ds: seq<PropertyDecl>, members: seq<seq<PropertyDecl>>, index: map<string, nat>) {
    var names := Firsts(Wires(ds));
    && |members| == |names|
    && (forall i :: 0 <= i < |names| ==> members[i] != [] && members[i] == Of(ds, names[i]))
    && (forall i :: 0 <= i < |names| ==> names[i] in index && index[names[i]] == i)
    && (forall w :: w in index ==> w in names)
  }

  lemma FirstsOn(names: seq<string>, w: string)
    ensures Firsts(names + [w]) == if w in names then Firsts(names) else Firsts(names) + [w]
  {
    FirstsHold(names);
    assert (names + [w])[..|names|] == names;
  }

  lemma OfOn(ds: seq<PropertyDecl>, d: PropertyDecl, w: string)
    ensures Of(ds + [d], w) == if d.property.EffectiveWireName() == w then Of(ds, w) + [d] else Of(ds, w)
  {
    assert (ds + [d])[..|ds|] == ds;
  }

  lemma GroupedKnown(ds: seq<PropertyDecl>, members: seq<seq<PropertyDecl>>, index: map<string, nat>, d: PropertyDecl)
    requires Grouped(ds, members, index) && d.property.EffectiveWireName() in index
    ensures var w := d.property.EffectiveWireName();
      index[w] < |members| && Grouped(ds + [d], members[index[w] := members[index[w]] + [d]], index)
  {
    var w := d.property.EffectiveWireName();
    FirstsHold(Wires(ds));
    assert Wires(ds + [d]) == Wires(ds) + [w];
    FirstsOn(Wires(ds), w);
    hide Of, Firsts, Wires;
    var names := Firsts(Wires(ds));
    var at :| 0 <= at < |names| && names[at] == w;
    forall i | 0 <= i < |names| && i != at ensures members[i] == Of(ds + [d], names[i]) {
      OfOn(ds, d, names[i]);
      FirstsDiffer(Wires(ds), i, at);
    }
    OfOn(ds, d, w);
    GroupAgain(ds + [d], names, members, index, d, at);
  }

  // One declaration more of a name already grouped.
  lemma GroupAgain(ds: seq<PropertyDecl>, names: seq<string>, members: seq<seq<PropertyDecl>>, index: map<string, nat>,
      d: PropertyDecl, at: nat)
    requires |members| == |names| && Firsts(Wires(ds)) == names && at < |names|
    requires forall i :: 0 <= i < |names| ==> members[i] != [] && (i != at ==> members[i] == Of(ds, names[i]))
    requires Of(ds, names[at]) == members[at] + [d]
    requires forall i :: 0 <= i < |names| ==> names[i] in index && index[names[i]] == i
    requires forall x :: x in index ==> x in names
    ensures Grouped(ds, members[at := members[at] + [d]], index)
  {
    hide Of, Firsts, Wires;
  }

  lemma FirstsDiffer(names: seq<string>, i: nat, j: nat)
    requires i < |Firsts(names)| && j < |Firsts(names)| && i != j
    ensures Firsts(names)[i] != Firsts(names)[j]
  {
    FirstsHold(names);
  }

  lemma NoneOf(ds: seq<PropertyDecl>, w: string)
    requires w !in Wires(ds)
    ensures Of(ds, w) == []
  {
    if Of(ds, w) != [] {
      var d := Of(ds, w)[0];
      OfHas(ds, w, d);
      WireAt(ds, d);
    }
  }

  lemma GroupedNew(ds: seq<PropertyDecl>, members: seq<seq<PropertyDecl>>, index: map<string, nat>, d: PropertyDecl)
    requires Grouped(ds, members, index) && d.property.EffectiveWireName() !in index
    ensures Grouped(ds + [d], members + [[d]], index[d.property.EffectiveWireName() := |members|])
  {
    var w := d.property.EffectiveWireName();
    FirstsHold(Wires(ds));
    assert Wires(ds + [d]) == Wires(ds) + [w];
    FirstsOn(Wires(ds), w);
    var names := Firsts(Wires(ds));
    NotIndexed(ds, members, index, w);
    NoneOf(ds, w);
    OfOn(ds, d, w);
    hide Of, Firsts, Wires;
    forall i | 0 <= i < |names| ensures members[i] == Of(ds + [d], names[i]) {
      OfOn(ds, d, names[i]);
    }
    GroupMore(ds + [d], names, members, index, d, w);
  }

  lemma NotIndexed(ds: seq<PropertyDecl>, members: seq<seq<PropertyDecl>>, index: map<string, nat>, w: string)
    requires Grouped(ds, members, index) && w !in index
    ensures w !in Firsts(Wires(ds)) && w !in Wires(ds)
  {
    FirstsHold(Wires(ds));
    hide Of, Firsts, Wires;
    var names := Firsts(Wires(ds));
    assert forall i :: 0 <= i < |names| ==> names[i] in index;
  }

  // One name more, with one declaration, at the end of those grouped.
  lemma GroupMore(ds: seq<PropertyDecl>, names: seq<string>, members: seq<seq<PropertyDecl>>, index: map<string, nat>,
      d: PropertyDecl, w: string)
    requires |members| == |names| && Firsts(Wires(ds)) == names + [w] && w !in index && Of(ds, w) == [d]
    requires forall i :: 0 <= i < |names| ==> members[i] != [] && members[i] == Of(ds, names[i])
    requires forall i :: 0 <= i < |names| ==> names[i] in index && index[names[i]] == i
    requires forall x :: x in index ==> x in names
    ensures Grouped(ds, members + [[d]], index[w := |members|])
  {
    hide Of, Firsts, Wires;
  }

  // ----- alias chains -----

  // path is the chain of aliases from id up to cur.
  ghost predicate OnPath(types: Types, id: TypeID, path: seq<TypeID>, cur: TypeID) {
    && (forall i :: 0 <= i < |path| ==> AliasBase(types, path[i]).Some?)
    && (forall i :: 0 <= i < |path| ==> ChainAt(types, path[i], |path| - i) == cur)
    && ChainAt(types, id, |path|) == cur
  }

  // id and every alias on path stand for cur.
  ghost predicate AllResolve(types: Types, id: TypeID, path: seq<TypeID>, cur: TypeID) {
    Resolves(types, id, cur) && forall s :: s in path ==> Resolves(types, s, cur)
  }

  lemma NoPath(types: Types, id: TypeID)
    ensures OnPath(types, id, [], id)
  {
  }

  lemma PathOn(types: Types, id: TypeID, path: seq<TypeID>, cur: TypeID)
    requires OnPath(types, id, path, cur) && AliasBase(types, cur).Some?
    ensures OnPath(types, id, path + [cur], AliasBase(types, cur).value)
  {
    var base := AliasBase(types, cur).value;
    assert ChainAt(types, cur, 1) == base;
    forall i | 0 <= i < |path| ensures ChainAt(types, path[i], |path| + 1 - i) == base {
      ChainOn(types, path[i], |path| - i, 1);
    }
    ChainOn(types, id, |path|, 1);
  }

  lemma PathThen(types: Types, id: TypeID, path: seq<TypeID>, cur: TypeID, e: TypeID)
    requires OnPath(types, id, path, cur) && Resolves(types, cur, e)
    ensures AllResolve(types, id, path, e)
  {
    var n: nat :| ChainAt(types, cur, n) == e;
    forall s | s in path ensures Resolves(types, s, e) {
      var i :| 0 <= i < |path| && path[i] == s;
      ChainOn(types, s, |path| - i, n);
      assert ChainAt(types, s, |path| - i + n) == e;
    }
    ChainOn(types, id, |path|, n);
    assert ChainAt(types, id, |path| + n) == e;
  }

  lemma PathEnds(types: Types, id: TypeID, path: seq<TypeID>, cur: TypeID)
    requires OnPath(types, id, path, cur) && AliasBase(types, cur) == None
    ensures AllResolve(types, id, path, cur)
  {
    assert ChainAt(types, cur, 0) == cur;
    PathThen(types, id, path, cur, cur);
  }

  lemma PathCloses(types: Types, id: TypeID, path: seq<TypeID>, cur: TypeID)
    requires OnPath(types, id, path, cur) && cur in path
    ensures AllResolve(types, id, path, cur)
  {
    var i :| 0 <= i < |path| && path[i] == cur;
    assert ChainAt(types, cur, |path| - i) == cur;
    PathThen(types, id, path, cur, cur);
  }

  // ----- counting what a walk reads -----

  ghost function Sum(ns: seq<nat>): nat {
    if ns == [] then 0 else Sum(ns[..|ns| - 1]) + ns[|ns| - 1]
  }

  lemma SumOn(ns: seq<nat>, n: nat)
    ensures Sum(ns + [n]) == Sum(ns) + n
  {
    assert (ns + [n])[..|ns|] == ns;
  }

  /** How many composition entries the models ids name hold. */
  ghost function EntryCount(types: Types, ids: seq<TypeID>): nat {
    if ids == [] then 0
    else EntryCount(types, ids[..|ids| - 1]) + |Parents(types, ids[|ids| - 1])|
  }

  lemma {:induction false} EntryCountJoined(types: Types, a: seq<TypeID>, b: seq<TypeID>)
    ensures EntryCount(types, a + b) == EntryCount(types, a) + EntryCount(types, b)
  {
    if b == [] {
      assert a + b == a;
    } else {
      assert (a + b)[..|a + b| - 1] == a + b[..|b| - 1];
      EntryCountJoined(types, a, b[..|b| - 1]);
    }
  }

  function Aliases(types: Types): set<TypeID> {
    set id | id in types && AliasBase(types, id).Some?
  }

  // ----- the walk's fields, as Components proves them -----

  /** met, finished and unflattened are w's: each model met under its number, and
      apart from them each entry's target naming no model. */
  ghost predicate Tracks(types: Types, w: C.State, met: map<TypeID, int>, finished: seq<Frame>, unflattened: seq<TypeID>) {
    && w.finished == Marks(finished) && w.count == |met|
    && (forall x :: x in w.met <==> x in met && met[x] >= MET_READ)
    && (forall x :: x in w.met ==> w.met[x] == met[x] && IsModel(types, x))
    && (forall x :: x in unflattened <==> x in met && met[x] < MET_READ)
    && (forall x :: x in unflattened ==> x != "" && Parent(types, x) == None)
    && (forall i, j :: 0 <= i < j < |unflattened| ==> unflattened[i] != unflattened[j])
  }

  /** The walk's own stack is w's. */
  ghost predicate OnStack(w: C.State, stack: seq<Frame>) {
    w.stack == Marks(stack) && w.next == Nexts(stack) && w.low == Lows(stack)
  }

  lemma TracksMeet(types: Types, w: C.State, met: map<TypeID, int>, finished: seq<Frame>, unflattened: seq<TypeID>, x: TypeID)
    requires Tracks(types, w, met, finished, unflattened) && IsModel(types, x) && x !in met
    ensures Tracks(types, C.Push(w, x), met[x := |met|], finished, unflattened)
  {
  }

  lemma OnStackMeet(w: C.State, stack: seq<Frame>, x: TypeID)
    requires OnStack(w, stack) && stack != []
    ensures var top := stack[|stack| - 1];
      OnStack(C.Meet(w, x), C.Last(stack, top.(next := top.next + 1)) + [Frame(x, 0, w.count, w.count, |w.finished|)])
  {
  }

  lemma OnStackFollow(w: C.State, stack: seq<Frame>, low: nat)
    requires OnStack(w, stack) && stack != []
    ensures var top := stack[|stack| - 1];
      OnStack(C.Follow(w, low), C.Last(stack, top.(next := top.next + 1, low := C.Min(top.low, low))))
  {
  }

  // The stack below its top, whose low-link the next one takes when lower.
  function Popped(stack: seq<Frame>): seq<Frame>
    requires stack != []
  {
    var done, rest := stack[|stack| - 1], stack[..|stack| - 1];
    if rest == [] then []
    else
      var below := rest[|rest| - 1];
      C.Last(rest, below.(low := if done.low < below.low then done.low else below.low))
  }

  lemma OnStackPop(w: C.State, stack: seq<Frame>)
    requires OnStack(w, stack) && stack != []
    ensures OnStack(C.Finish(w), Popped(stack))
  {
  }

  lemma OnStackClose(w: C.State, stack: seq<Frame>)
    requires OnStack(w, stack) && stack != [] && w.stack[|w.stack| - 1].since <= |w.finished|
    ensures OnStack(C.Close(w), Popped(stack))
  {
    OnStackPop(w, stack);
  }

  lemma TracksFinish(types: Types, w: C.State, met: map<TypeID, int>, finished: seq<Frame>, unflattened: seq<TypeID>, stack: seq<Frame>)
    requires Tracks(types, w, met, finished, unflattened) && OnStack(w, stack) && stack != []
    ensures Tracks(types, C.Finish(w), met, finished + [stack[|stack| - 1]], unflattened)
  {
  }

  lemma ComponentUnread(w: C.State)
    requires w.stack != [] && C.Numbered(w.met, w.stack) && C.Numbered(w.met, w.finished)
    requires w.stack[|w.stack| - 1].since <= |w.finished|
    ensures forall x :: x in C.Ids(C.Component(w)) ==> x in w.met && w.met[x] >= 0
  {
    var comp, since := C.Component(w), w.stack[|w.stack| - 1].since;
    forall c | 0 <= c < |comp| ensures C.Ids(comp)[c] in w.met && w.met[C.Ids(comp)[c]] >= 0 {
      assert c < |comp| - 1 ==> comp[c] == w.finished[since + c];
    }
  }

  // Reading models met changes none of the rest.
  lemma TracksRead(types: Types, w: C.State, met: map<TypeID, int>, finished: seq<Frame>, unflattened: seq<TypeID>,
                   t: C.State, now: map<TypeID, int>, rest: seq<Frame>, ids: seq<TypeID>)
    requires Tracks(types, w, met, finished, unflattened)
    requires (forall x :: x in ids ==> x in w.met) && ReadAll(met, now, ids)
    requires t.finished == Marks(rest) && t.count == w.count && t.met.Keys == w.met.Keys
    requires forall x :: x in w.met ==> t.met[x] == if x in ids then C.READ else w.met[x]
    ensures Tracks(types, t, now, rest, unflattened)
  {
    assert now.Keys == met.Keys;
    assert |now| == |now.Keys| && |met| == |met.Keys|;
  }

  lemma TracksClose(types: Types, w: C.State, met: map<TypeID, int>, now: map<TypeID, int>, finished: seq<Frame>, unflattened: seq<TypeID>, stack: seq<Frame>)
    requires Tracks(types, w, met, finished, unflattened) && OnStack(w, stack) && stack != []
    requires C.Numbered(w.met, w.stack) && C.Numbered(w.met, w.finished) && stack[|stack| - 1].since <= |finished|
    requires ReadAll(met, now, C.Ids(Marks((finished + [stack[|stack| - 1]])[stack[|stack| - 1].since..])))
    ensures Tracks(types, C.Close(w), now, finished[..stack[|stack| - 1].since], unflattened)
  {
    C.CloseIs(w);
    ComponentUnread(w);
    var top := stack[|stack| - 1];
    assert Marks((finished + [top])[top.since..]) == C.Component(w);
    assert Marks(finished[..top.since]) == w.finished[..top.since];
    TracksRead(types, w, met, finished, unflattened, C.Close(w), now, finished[..top.since], C.Ids(C.Component(w)));
  }

  lemma TracksMark(types: Types, w: C.State, met: map<TypeID, int>, finished: seq<Frame>, unflattened: seq<TypeID>, t: TypeID)
    requires Tracks(types, w, met, finished, unflattened) && t != "" && Parent(types, t) == None && t !in met
    ensures Tracks(types, w.(count := |met| + 1), met[t := MET_UNFLATTENED], finished, unflattened + [t])
  {
    if IsModel(types, t) { ModelStandsForItself(types, t); }
    var w', met', un := w.(count := |met| + 1), met[t := MET_UNFLATTENED], unflattened + [t];
    assert forall x :: x in un <==> x in unflattened || x == t;
  }

  lemma NeverMarked(types: Types, w: C.State, met: map<TypeID, int>, finished: seq<Frame>, unflattened: seq<TypeID>, x: TypeID)
    requires Tracks(types, w, met, finished, unflattened) && IsModel(types, x)
    ensures x in met <==> x in w.met
  {
    if x in unflattened { ModelStandsForItself(types, x); }
  }

  lemma NoModelMet(types: Types, w: C.State, met: map<TypeID, int>, finished: seq<Frame>, unflattened: seq<TypeID>, t: TypeID)
    requires Tracks(types, w, met, finished, unflattened) && t != "" && Parent(types, t) == None
    ensures t in met <==> t in unflattened
  {
    if t in w.met { ModelStandsForItself(types, t); }
  }

  // An entry naming t composes a model in, names nothing, or is listed.
  ghost predicate Listed(types: Types, unflattened: seq<TypeID>, t: TypeID) {
    t == "" || Parent(types, t).Some? || t in unflattened
  }

  // t is listed now, added last when it was not.
  ghost predicate NewlyListed(types: Types, was: seq<TypeID>, now: seq<TypeID>, t: TypeID) {
    Listed(types, now, t) && (now == was || now == was + [t])
  }

  // ----- the entries followed so far -----

  function TargetsOf(types: Types, id: TypeID): (r: seq<TypeID>)
    ensures |r| == |Parents(types, id)|
  {
    if IsModel(types, id) then Targets(types[id]) else []
  }

  // The first n entries of the model id names that name no model are listed.
  ghost predicate ListedTo(types: Types, un: seq<TypeID>, id: TypeID, n: nat) {
    forall i :: 0 <= i < n && i < |TargetsOf(types, id)| ==> Listed(types, un, TargetsOf(types, id)[i])
  }

  ghost predicate AllListed(types: Types, un: seq<TypeID>, ids: seq<TypeID>) {
    forall k :: 0 <= k < |ids| ==> ListedTo(types, un, ids[k], |TargetsOf(types, ids[k])|)
  }

  ghost predicate TargetOfOne(types: Types, met: map<TypeID, int>, t: TypeID) {
    exists x :: x in met && t in TargetsOf(types, x)
  }

  /** un lists the targets naming no model of the entries followed, and only such. */
  ghost predicate Noted(types: Types, w: C.State, un: seq<TypeID>) {
    && |w.next| == |w.stack|
    && (forall j :: 0 <= j < |w.stack| ==> ListedTo(types, un, w.stack[j].id, w.next[j]))
    && AllListed(types, un, C.Ids(w.finished)) && AllListed(types, un, w.out)
    && (forall t :: t in un ==> TargetOfOne(types, w.met, t))
  }

  lemma ListedOn(types: Types, was: seq<TypeID>, now: seq<TypeID>, t: TypeID, id: TypeID, n: nat)
    requires ListedTo(types, was, id, n) && NewlyListed(types, was, now, t)
    ensures ListedTo(types, now, id, n)
  {
    forall i | 0 <= i < n && i < |TargetsOf(types, id)| ensures Listed(types, now, TargetsOf(types, id)[i]) {
      assert Listed(types, was, TargetsOf(types, id)[i]);
    }
  }

  lemma ListedNext(types: Types, was: seq<TypeID>, now: seq<TypeID>, t: TypeID, id: TypeID, n: nat, m: nat)
    requires ListedTo(types, was, id, n) && NewlyListed(types, was, now, t)
    requires m == n || (m == n + 1 && n < |TargetsOf(types, id)| && TargetsOf(types, id)[n] == t)
    ensures ListedTo(types, now, id, m)
  {
    hide Parent, TargetsOf;
    var targets := TargetsOf(types, id);
    forall i | 0 <= i < m && i < |targets| ensures Listed(types, now, targets[i]) {
      if i < n {
        assert Listed(types, was, targets[i]);
      } else {
        assert targets[i] == t;
      }
    }
  }

  lemma AllListedOn(types: Types, was: seq<TypeID>, now: seq<TypeID>, t: TypeID, ids: seq<TypeID>)
    requires AllListed(types, was, ids) && NewlyListed(types, was, now, t)
    ensures AllListed(types, now, ids)
  {
    forall k | 0 <= k < |ids| ensures ListedTo(types, now, ids[k], |TargetsOf(types, ids[k])|) {
      ListedOn(types, was, now, t, ids[k], |TargetsOf(types, ids[k])|);
    }
  }

  // The next entry the top of the stack follows names t.
  ghost predicate NextNames(types: Types, w: C.State, t: TypeID) {
    && w.stack != [] && |w.next| == |w.stack| && w.stack[|w.stack| - 1].id in w.met
    && var last := |w.stack| - 1;
       w.next[last] < |TargetsOf(types, w.stack[last].id)| && TargetsOf(types, w.stack[last].id)[w.next[last]] == t
  }

  lemma NotedOn(types: Types, w: C.State, was: seq<TypeID>, now: seq<TypeID>, t: TypeID)
    requires NextNames(types, w, t)
    requires Noted(types, w, was) && NewlyListed(types, was, now, t)
    ensures Noted(types, w.(next := C.Last(w.next, w.next[|w.next| - 1] + 1)), now)
  {
    hide ListedTo, AllListed, TargetOfOne, NewlyListed, Parents;
    var last := |w.stack| - 1;
    var next := C.Last(w.next, w.next[last] + 1);
    forall j | 0 <= j < |w.stack| ensures ListedTo(types, now, w.stack[j].id, next[j]) {
      ListedNext(types, was, now, t, w.stack[j].id, w.next[j], next[j]);
    }
    AllListedOn(types, was, now, t, C.Ids(w.finished));
    AllListedOn(types, was, now, t, w.out);
    TargetsOn(types, w.met, was, now, t, w.stack[last].id);
  }

  lemma TargetsOn(types: Types, met: map<TypeID, int>, was: seq<TypeID>, now: seq<TypeID>, t: TypeID, id: TypeID)
    requires (forall u :: u in was ==> TargetOfOne(types, met, u)) && NewlyListed(types, was, now, t)
    requires id in met && t in TargetsOf(types, id)
    ensures forall u :: u in now ==> TargetOfOne(types, met, u)
  {
  }

  lemma NotedMeet(types: Types, w: C.State, un: seq<TypeID>, x: TypeID)
    requires Noted(types, w, un) && w.stack != [] && x !in w.met
    ensures Noted(types, C.Push(w, x), un)
  {
    forall t | t in un ensures TargetOfOne(types, C.Push(w, x).met, t) {
      var y :| y in w.met && t in TargetsOf(types, y);
      assert y in C.Push(w, x).met;
    }
  }

  lemma NotedFinish(types: Types, w: C.State, un: seq<TypeID>)
    requires Noted(types, w, un) && C.Exhausted(Layout(types), w)
    ensures Noted(types, C.Finish(w), un)
  {
  }

  lemma NotedClose(types: Types, w: C.State, un: seq<TypeID>)
    requires Noted(types, w, un) && C.Exhausted(Layout(types), w) && w.stack[|w.stack| - 1].since <= |w.finished|
    ensures Noted(types, C.Close(w), un)
  {
    hide TargetOfOne;
    C.CloseIs(w);
    var t := C.Close(w);
    NotedComponent(types, w, un);
    hide ListedTo;
    assert forall k :: 0 <= k < |t.finished| ==> C.Ids(t.finished)[k] == C.Ids(w.finished)[k];
    forall u | u in un ensures TargetOfOne(types, t.met, u) {
      SameMet(types, w.met, t.met, u);
    }
  }

  lemma NotedComponent(types: Types, w: C.State, un: seq<TypeID>)
    requires Noted(types, w, un) && C.Exhausted(Layout(types), w) && w.stack[|w.stack| - 1].since <= |w.finished|
    ensures AllListed(types, un, C.Ids(C.Component(w)))
  {
    hide TargetOfOne;
    var comp := C.Component(w);
    assert forall c :: 0 <= c < |comp| - 1 ==> comp[c] == w.finished[w.stack[|w.stack| - 1].since + c];
    assert forall c :: 0 <= c < |comp| - 1 ==> comp[c].id == C.Ids(w.finished)[w.stack[|w.stack| - 1].since + c];
  }

  lemma SameMet(types: Types, a: map<TypeID, int>, b: map<TypeID, int>, t: TypeID)
    requires TargetOfOne(types, a, t) && a.Keys <= b.Keys
    ensures TargetOfOne(types, b, t)
  {
    var x :| x in a && t in TargetsOf(types, x);
    assert x in b.Keys;
  }

  /** n entries were followed: those passed on the stack, and all of each model
      finished or read. */
  ghost predicate Tallied(types: Types, w: C.State, n: nat) {
    n == Sum(w.next) + EntryCount(types, C.Ids(w.finished)) + EntryCount(types, w.out)
  }

  lemma SumLast(ns: seq<nat>, n: nat)
    requires ns != []
    ensures Sum(C.Last(ns, n)) == Sum(ns) - ns[|ns| - 1] + n
    ensures Sum(ns) == Sum(C.Front(ns)) + ns[|ns| - 1]
  {
    assert C.Last(ns, n)[..|ns| - 1] == ns[..|ns| - 1];
  }

  lemma IdsJoined(a: seq<C.Mark>, b: seq<C.Mark>)
    ensures C.Ids(a + b) == C.Ids(a) + C.Ids(b)
  {
  }

  lemma EntryCountOne(types: Types, id: TypeID)
    ensures EntryCount(types, [id]) == |Parents(types, id)|
  {
    assert [id][..0] == [];
  }

  lemma TalliedFinish(types: Types, w: C.State, n: nat)
    requires Tallied(types, w, n) && C.Exhausted(Layout(types), w)
    ensures Tallied(types, C.Finish(w), n)
  {
    var top := w.stack[|w.stack| - 1];
    SumLast(w.next, 0);
    IdsJoined(w.finished, [top]);
    assert C.Ids([top]) == [top.id];
    EntryCountJoined(types, C.Ids(w.finished), [top.id]);
    EntryCountOne(types, top.id);
  }

  lemma TalliedClose(types: Types, w: C.State, n: nat)
    requires Tallied(types, w, n) && C.Exhausted(Layout(types), w) && w.stack[|w.stack| - 1].since <= |w.finished|
    ensures Tallied(types, C.Close(w), n)
  {
    TalliedFinish(types, w, n);
    var f, since := C.Finish(w), w.stack[|w.stack| - 1].since;
    assert f.finished == f.finished[..since] + f.finished[since..];
    IdsJoined(f.finished[..since], f.finished[since..]);
    EntryCountJoined(types, C.Ids(f.finished[..since]), C.Ids(f.finished[since..]));
    EntryCountJoined(types, w.out, C.Ids(f.finished[since..]));
  }

  // ----- the walk's steps, over all its fields -----

  /** The fields stand where a walk from root that followed n entries leaves them. */
  ghost predicate Walking(types: Types, root: TypeID, w: C.State, stack: seq<Frame>, met: map<TypeID, int>,
                          finished: seq<Frame>, unflattened: seq<TypeID>, n: nat) {
    && OnStack(w, stack)
    && C.Sound(Layout(types), root, w)
    && Tracks(types, w, met, finished, unflattened)
    && Noted(types, w, unflattened)
    && Tallied(types, w, n)
  }

  // target is the next entry of the top model.
  ghost predicate NextEntry(types: Types, stack: seq<Frame>, target: TypeID) {
    stack != [] &&
    var top := stack[|stack| - 1];
    top.next < |TargetsOf(types, top.id)| && TargetsOf(types, top.id)[top.next] == target
  }

  lemma NextLeads(types: Types, w: C.State, stack: seq<Frame>, target: TypeID)
    requires OnStack(w, stack) && NextEntry(types, stack, target)
    ensures var last := |w.stack| - 1; var g := Layout(types);
      |w.next| == |w.stack| == |w.low| && w.next[last] < |g(w.stack[last].id)| && g(w.stack[last].id)[w.next[last]] == Parent(types, target)
  {
    var top := stack[|stack| - 1];
    assert w.next[|stack| - 1] == top.next && w.stack[|stack| - 1].id == top.id;
  }

  lemma TopMet(g: T.Graph, root: TypeID, w: C.State)
    requires C.Sound(g, root, w) && w.stack != []
    ensures w.stack[|w.stack| - 1].id in w.met && |w.next| == |w.stack| == |w.low|
  {
    assert C.Numbered(w.met, w.stack);
  }

  // What following an entry on to target shows the model holding it, whose
  // low-link is low: the number of a model met and unread.
  ghost function Seen(types: Types, met: map<TypeID, int>, target: TypeID, low: nat): nat {
    var p := Parent(types, target);
    if p.Some? && p.value in met && met[p.value] >= 0 then met[p.value] else low
  }

  // low, lowered to seen.
  function LowTo(low: nat, seen: nat): nat {
    if seen < low then seen else low
  }

  // The walk and its stack with the top model's next entry followed, which
  // showed it number seen, when met held count.
  ghost function Onward(w: C.State, count: nat, seen: nat): C.State {
    if w.next == [] || w.low == [] then w else C.Follow(w.(count := count), seen)
  }

  function Advanced(stack: seq<Frame>, seen: nat): seq<Frame> {
    if stack == [] then []
    else
      var top := stack[|stack| - 1];
      C.Last(stack, top.(next := top.next + 1, low := LowTo(top.low, seen)))
  }

  // The same, on to x, a model to meet.
  ghost function OnwardTo(w: C.State, count: nat, x: TypeID): C.State {
    if w.next == [] || w.low == [] then w else C.Meet(w.(count := count), x)
  }

  lemma OnwardLeaves(w: C.State, count: nat, seen: nat, x: TypeID)
    ensures var t := Onward(w, count, seen); t.out == w.out && t.finished == w.finished && t.met == w.met
    ensures var t := OnwardTo(w, count, x);
      t.out == w.out && t.finished == w.finished && (w.next != [] && w.low != [] ==> t.met == w.met[x := count])
  {
  }

  lemma AdvancedIs(stack: seq<Frame>, seen: nat)
    requires stack != []
    ensures var top := stack[|stack| - 1];
      Advanced(stack, seen) == stack[..|stack| - 1] + [top.(next := top.next + 1, low := LowTo(top.low, seen))]
    ensures LowTo(stack[|stack| - 1].low, stack[|stack| - 1].low) == stack[|stack| - 1].low
  {
  }

  lemma TracksCount(types: Types, w: C.State, met: map<TypeID, int>, finished: seq<Frame>, unflattened: seq<TypeID>)
    requires Tracks(types, w, met, finished, unflattened)
    ensures w.count == |met| && w.finished == Marks(finished) && |w.finished| == |finished|
  {
  }

  /** What is left of a walk: the models unmet, the stack, the top's entries. */
  ghost predicate GoesOn(types: Types, was: seq<Frame>, now: seq<Frame>, met: map<TypeID, int>, after: map<TypeID, int>) {
    || (exists x :: x in types && x !in met && after.Keys == met.Keys + {x})
    || (after.Keys == met.Keys && |now| == |was| > 0 && now[|now| - 1].id == was[|was| - 1].id && now[|now| - 1].next == was[|was| - 1].next + 1)
  }

  lemma FollowsSound(types: Types, root: TypeID, w: C.State, stack: seq<Frame>, target: TypeID, count: nat, seen: nat)
    requires OnStack(w, stack) && C.Sound(Layout(types), root, w) && NextEntry(types, stack, target) && w.count <= count
    requires Parent(types, target).Some? ==> Parent(types, target).value in w.met
    requires seen == Seen(types, w.met, target, stack[|stack| - 1].low)
    ensures C.Sound(Layout(types), root, Onward(w, count, seen))
  {
    hide Reaches, TargetsOf, C.Sound, Layout, Parent;
    NextLeads(types, w, stack, target);
    TopMet(Layout(types), root, w);
    C.CountOn(Layout(types), root, w, count);
    assert w.low[|stack| - 1] == stack[|stack| - 1].low;
    C.FollowSound(Layout(types), root, w.(count := count), seen);
  }

  lemma MeetsSound(types: Types, root: TypeID, w: C.State, stack: seq<Frame>, target: TypeID, count: nat, x: TypeID)
    requires OnStack(w, stack) && C.Sound(Layout(types), root, w) && NextEntry(types, stack, target) && w.count <= count
    requires Parent(types, target) == Some(x) && x !in w.met
    ensures C.Sound(Layout(types), root, OnwardTo(w, count, x))
  {
    hide Reaches, TargetsOf, C.Sound, Layout, Parent;
    NextLeads(types, w, stack, target);
    TopMet(Layout(types), root, w);
    C.CountOn(Layout(types), root, w, count);
    C.MeetSound(Layout(types), root, w.(count := count), x);
  }

  lemma FollowsNoted(types: Types, root: TypeID, w: C.State, stack: seq<Frame>, was: seq<TypeID>, un: seq<TypeID>, target: TypeID)
    requires OnStack(w, stack) && C.Sound(Layout(types), root, w) && NextEntry(types, stack, target)
    requires Noted(types, w, was) && NewlyListed(types, was, un, target)
    ensures w.next != [] && Noted(types, w.(next := C.Last(w.next, w.next[|w.next| - 1] + 1)), un)
  {
    NextLeads(types, w, stack, target);
    TopMet(Layout(types), root, w);
    var top := stack[|stack| - 1];
    assert w.next[|stack| - 1] == top.next && w.stack[|stack| - 1].id == top.id;
    NotedOn(types, w, was, un, target);
  }

  lemma WalkingHas(types: Types, root: TypeID, w: C.State, stack: seq<Frame>, met: map<TypeID, int>,
                   finished: seq<Frame>, un: seq<TypeID>, n: nat)
    requires Walking(types, root, w, stack, met, finished, un, n)
    ensures OnStack(w, stack) && C.Sound(Layout(types), root, w) && Tracks(types, w, met, finished, un)
    ensures Noted(types, w, un) && Tallied(types, w, n)
  {
    hide C.Sound, Noted, Tallied, Tracks, OnStack;
  }

  lemma WalkingIs(types: Types, root: TypeID, w: C.State, stack: seq<Frame>, met: map<TypeID, int>,
                  finished: seq<Frame>, un: seq<TypeID>, n: nat)
    requires OnStack(w, stack) && C.Sound(Layout(types), root, w) && Tracks(types, w, met, finished, un)
    requires Noted(types, w, un) && Tallied(types, w, n)
    ensures Walking(types, root, w, stack, met, finished, un, n)
  {
    hide C.Sound, Noted, Tallied, Tracks, OnStack;
  }

  // Following an entry leaves what it does not touch.
  lemma FollowsRest(types: Types, w: C.State, met: map<TypeID, int>, finished: seq<Frame>, un: seq<TypeID>, n: nat, count: nat, seen: nat)
    requires w.next != [] && w.low != [] && Tallied(types, w, n)
    requires Tracks(types, w.(count := count), met, finished, un)
    requires Noted(types, w.(next := C.Last(w.next, w.next[|w.next| - 1] + 1)), un)
    ensures var t := Onward(w, count, seen);
      Tallied(types, t, n + 1) && Tracks(types, t, met, finished, un) && Noted(types, t, un)
  {
    hide ListedTo, AllListed, TargetOfOne, Parent;
    SumLast(w.next, w.next[|w.next| - 1] + 1);
    NotedSame(types, w.(next := C.Last(w.next, w.next[|w.next| - 1] + 1)), Onward(w, count, seen), un);
    TracksSame(types, w.(count := count), Onward(w, count, seen), met, finished, un);
  }

  lemma FollowsStack(w: C.State, stack: seq<Frame>, seen: nat, count: nat)
    requires OnStack(w, stack) && stack != []
    ensures w.next != [] && w.low != [] && OnStack(Onward(w, count, seen), Advanced(stack, seen))
  {
    OnStackFollow(w.(count := count), stack, seen);
  }

  /** Following an entry leading to no model, or to one met, keeps the walk so. */
  lemma WalkFollows(types: Types, root: TypeID, w: C.State, stack: seq<Frame>, met: map<TypeID, int>, now: map<TypeID, int>,
                    finished: seq<Frame>, was: seq<TypeID>, un: seq<TypeID>, n: nat, target: TypeID, seen: nat)
    requires Walking(types, root, w, stack, met, finished, was, n) && stack != [] && NextEntry(types, stack, target)
    requires w.count <= |now| && Tracks(types, w.(count := |now|), now, finished, un) && NewlyListed(types, was, un, target)
    requires Parent(types, target).Some? ==> Parent(types, target).value in w.met
    requires seen == Seen(types, w.met, target, stack[|stack| - 1].low)
    ensures Walking(types, root, Onward(w, |now|, seen), Advanced(stack, seen), now, finished, un, n + 1)
  {
    hide *;
    WalkingHas(types, root, w, stack, met, finished, was, n);
    FollowsStack(w, stack, seen, |now|);
    FollowsSound(types, root, w, stack, target, |now|, seen);
    FollowsNoted(types, root, w, stack, was, un, target);
    FollowsRest(types, w, now, finished, un, n, |now|, seen);
    WalkingIs(types, root, Onward(w, |now|, seen), Advanced(stack, seen), now, finished, un, n + 1);
  }

  lemma MeetsTallied(types: Types, w: C.State, n: nat, count: nat, x: TypeID)
    requires w.next != [] && w.low != [] && Tallied(types, w, n)
    ensures Tallied(types, OnwardTo(w, count, x), n + 1)
  {
    SumLast(w.next, w.next[|w.next| - 1] + 1);
    SumOn(C.Last(w.next, w.next[|w.next| - 1] + 1), 0);
  }

  lemma MeetsNoted(types: Types, w: C.State, un: seq<TypeID>, count: nat, x: TypeID)
    requires w.next != [] && w.low != [] && w.stack != [] && x !in w.met
    requires Noted(types, w.(next := C.Last(w.next, w.next[|w.next| - 1] + 1)), un)
    ensures Noted(types, OnwardTo(w, count, x), un)
  {
    hide ListedTo, AllListed, TargetOfOne, Parent;
    var next := C.Last(w.next, w.next[|w.next| - 1] + 1);
    NotedSame(types, w.(next := next), w.(next := next, count := count), un);
    NotedMeet(types, w.(next := next, count := count), un, x);
  }

  lemma MeetsTracks(types: Types, w: C.State, met: map<TypeID, int>, finished: seq<Frame>, un: seq<TypeID>, x: TypeID)
    requires w.next != [] && w.low != [] && Tracks(types, w.(count := |met|), met, finished, un) && x !in met && IsModel(types, x)
    ensures Tracks(types, OnwardTo(w, |met|, x), met[x := |met|], finished, un)
  {
    TracksMeet(types, w.(count := |met|), met, finished, un, x);
    TracksSame(types, C.Push(w.(count := |met|), x), OnwardTo(w, |met|, x), met[x := |met|], finished, un);
  }

  lemma MeetsStack(w: C.State, stack: seq<Frame>, x: TypeID, count: nat)
    requires OnStack(w, stack) && stack != []
    ensures w.next != [] && w.low != [] && w.stack != []
    ensures OnStack(OnwardTo(w, count, x), Advanced(stack, stack[|stack| - 1].low) + [Frame(x, 0, count, count, |w.finished|)])
  {
    OnStackMeet(w.(count := count), stack, x);
  }

  /** Following an entry on to a model the walk is yet to meet keeps the walk so. */
  lemma WalkMeets(types: Types, root: TypeID, w: C.State, stack: seq<Frame>, met: map<TypeID, int>, now: map<TypeID, int>,
                  finished: seq<Frame>, was: seq<TypeID>, un: seq<TypeID>, n: nat, target: TypeID, x: TypeID)
    requires Walking(types, root, w, stack, met, finished, was, n) && stack != [] && NextEntry(types, stack, target)
    requires w.count <= |now| && Tracks(types, w.(count := |now|), now, finished, un) && NewlyListed(types, was, un, target)
    requires Parent(types, target) == Some(x) && x !in w.met && x !in now && IsModel(types, x)
    ensures Walking(types, root, OnwardTo(w, |now|, x),
                    Advanced(stack, stack[|stack| - 1].low) + [Frame(x, 0, |now|, |now|, |w.finished|)], now[x := |now|], finished, un, n + 1)
  {
    hide *;
    WalkingHas(types, root, w, stack, met, finished, was, n);
    MeetsStack(w, stack, x, |now|);
    MeetsSound(types, root, w, stack, target, |now|, x);
    FollowsNoted(types, root, w, stack, was, un, target);
    MeetsTallied(types, w, n, |now|, x);
    MeetsNoted(types, w, un, |now|, x);
    MeetsTracks(types, w, now, finished, un, x);
    WalkingIs(types, root, OnwardTo(w, |now|, x),
              Advanced(stack, stack[|stack| - 1].low) + [Frame(x, 0, |now|, |now|, |w.finished|)], now[x := |now|], finished, un, n + 1);
  }

  lemma NotedSame(types: Types, w: C.State, t: C.State, un: seq<TypeID>)
    requires Noted(types, w, un)
    requires t.met == w.met && t.stack == w.stack && t.next == w.next && t.finished == w.finished && t.out == w.out
    ensures Noted(types, t, un)
  {
  }

  lemma TracksSame(types: Types, w: C.State, t: C.State, met: map<TypeID, int>, finished: seq<Frame>, un: seq<TypeID>)
    requires Tracks(types, w, met, finished, un)
    requires t.met == w.met && t.count == w.count && t.finished == w.finished
    ensures Tracks(types, t, met, finished, un)
  {
  }

  // The top model has no entry left to follow.
  ghost predicate Spent(types: Types, stack: seq<Frame>) {
    stack != [] && stack[|stack| - 1].next == |TargetsOf(types, stack[|stack| - 1].id)|
  }

  lemma SpentExhausted(types: Types, root: TypeID, w: C.State, stack: seq<Frame>)
    requires OnStack(w, stack) && C.Sound(Layout(types), root, w) && Spent(types, stack)
    ensures C.Exhausted(Layout(types), w) && w.stack[|w.stack| - 1].since <= |w.finished|
    ensures var last, top := |w.stack| - 1, stack[|stack| - 1];
      w.stack[last] == MarkOf(top) && w.low[last] == top.low <= top.num
    ensures C.Numbered(w.met, w.stack) && C.Numbered(w.met, w.finished)
  {
    hide Reaches, C.StackFollowed, C.FinishedFollowed, C.LeadsUp, C.LeadsDown, C.LeadsTo, C.LaidOut, C.Split, C.AllPlaced;
    var last := |w.stack| - 1;
    assert w.stack[last] == MarkOf(stack[last]) && w.next[last] == stack[last].next && w.low[last] == stack[last].low;
  }

  lemma WalkingModels(types: Types, w: C.State, stack: seq<Frame>, met: map<TypeID, int>, finished: seq<Frame>, un: seq<TypeID>)
    requires OnStack(w, stack) && Tracks(types, w, met, finished, un) && stack != []
    requires C.Numbered(w.met, w.stack) && C.Numbered(w.met, w.finished)
    ensures IsModel(types, stack[|stack| - 1].id)
    ensures forall i :: 0 <= i < |finished| ==> IsModel(types, finished[i].id)
  {
    var last := |w.stack| - 1;
    assert w.stack[last].id in w.met;
    forall i | 0 <= i < |finished| ensures IsModel(types, finished[i].id) {
      assert w.finished[i].id in w.met;
    }
  }

  // The walk with its top model finished, and its component read when it is the
  // component's first.
  ghost function PoppedWalk(w: C.State, low: int, num: int): C.State {
    if w.stack == [] || w.next == [] || w.low == [] || w.stack[|w.stack| - 1].since > |w.finished| then w
    else if low < num then C.Finish(w) else C.Close(w)
  }

  ghost function PoppedFinished(finished: seq<Frame>, done: Frame): seq<Frame>
    requires done.since <= |finished|
  {
    if done.low < done.num then finished + [done] else finished[..done.since]
  }

  // What FinishModel leaves met and read.
  ghost predicate PoppedMet(w: C.State, met: map<TypeID, int>, now: map<TypeID, int>, finished: seq<Frame>, done: Frame)
    requires done.since <= |finished|
  {
    if done.low < done.num then now == met
    else ReadAll(met, now, C.Ids(Marks((finished + [done])[done.since..])))
  }

  lemma PopSound(types: Types, root: TypeID, w: C.State, stack: seq<Frame>)
    requires OnStack(w, stack) && C.Sound(Layout(types), root, w) && Spent(types, stack)
    ensures var done := stack[|stack| - 1]; C.Sound(Layout(types), root, PoppedWalk(w, done.low, done.num))
  {
    hide Reaches, Layout, C.Sound, TargetsOf;
    SpentExhausted(types, root, w, stack);
    if stack[|stack| - 1].low < stack[|stack| - 1].num {
      C.FinishSound(Layout(types), root, w);
    } else {
      C.CloseSound(Layout(types), root, w);
    }
  }

  lemma PopRest(types: Types, root: TypeID, w: C.State, stack: seq<Frame>, met: map<TypeID, int>, now: map<TypeID, int>,
                finished: seq<Frame>, un: seq<TypeID>, n: nat)
    requires OnStack(w, stack) && C.Sound(Layout(types), root, w) && Spent(types, stack)
    requires Tracks(types, w, met, finished, un) && Noted(types, w, un) && Tallied(types, w, n)
    requires stack[|stack| - 1].since <= |finished| && PoppedMet(w, met, now, finished, stack[|stack| - 1])
    ensures var done := stack[|stack| - 1]; var t := PoppedWalk(w, done.low, done.num);
      && OnStack(t, Popped(stack)) && Tracks(types, t, now, PoppedFinished(finished, done), un)
      && Noted(types, t, un) && Tallied(types, t, n)
  {
    hide Reaches, Layout, C.Sound, TargetsOf, Noted, Tallied, Tracks, OnStack, ReadAll;
    var done := stack[|stack| - 1];
    SpentExhausted(types, root, w, stack);
    if done.low < done.num {
      OnStackPop(w, stack);
      TracksFinish(types, w, met, finished, un, stack);
      NotedFinish(types, w, un);
      TalliedFinish(types, w, n);
    } else {
      OnStackClose(w, stack);
      TracksClose(types, w, met, now, finished, un, stack);
      NotedClose(types, w, un);
      TalliedClose(types, w, n);
    }
  }

  /** Finishing the top model, spent, keeps the walk so. */
  lemma WalkPops(types: Types, root: TypeID, w: C.State, stack: seq<Frame>, met: map<TypeID, int>, now: map<TypeID, int>,
                 finished: seq<Frame>, un: seq<TypeID>, n: nat)
    requires Walking(types, root, w, stack, met, finished, un, n) && stack != [] && Spent(types, stack)
    requires stack[|stack| - 1].since <= |finished| && PoppedMet(w, met, now, finished, stack[|stack| - 1])
    ensures var done := stack[|stack| - 1];
      Walking(types, root, PoppedWalk(w, done.low, done.num), Popped(stack), now, PoppedFinished(finished, done), un, n)
  {
    hide C.Sound, Noted, Tallied, Tracks, OnStack, PoppedMet, PoppedWalk, PoppedFinished, Popped, Spent;
    var done := stack[|stack| - 1];
    PopSound(types, root, w, stack);
    PopRest(types, root, w, stack, met, now, finished, un, n);
  }

  lemma PopReady(types: Types, root: TypeID, w: C.State, stack: seq<Frame>, met: map<TypeID, int>, finished: seq<Frame>, un: seq<TypeID>, n: nat)
    requires Walking(types, root, w, stack, met, finished, un, n) && stack != [] && Spent(types, stack)
    ensures var done := stack[|stack| - 1];
      && done.since <= |finished| && IsModel(types, done.id)
      && (forall i :: 0 <= i < |finished| ==> IsModel(types, finished[i].id))
  {
    hide C.Sound, Noted, Tallied, Tracks, OnStack, Spent, Reaches;
    SpentExhausted(types, root, w, stack);
    WalkingModels(types, w, stack, met, finished, un);
    TracksCount(types, w, met, finished, un);
  }

  // What popping leaves of out, finished and met.
  lemma PopLeaves(types: Types, root: TypeID, w: C.State, stack: seq<Frame>, met: map<TypeID, int>, finished: seq<Frame>, un: seq<TypeID>, n: nat)
    requires Walking(types, root, w, stack, met, finished, un, n) && stack != [] && Spent(types, stack)
    ensures var done := stack[|stack| - 1]; var t := PoppedWalk(w, done.low, done.num);
      && done.since <= |finished| && t.met.Keys == w.met.Keys
      && |t.finished| + |t.out| == |w.finished| + |w.out| + 1
      && t.out == if done.low < done.num then w.out else w.out + C.Ids(Marks((finished + [done])[done.since..]))
  {
    hide C.Sound, Noted, Tallied, Spent, Reaches;
    SpentExhausted(types, root, w, stack);
    var done := stack[|stack| - 1];
    TracksCount(types, w, met, finished, un);
    if done.low >= done.num {
      C.CloseIs(w);
      assert Marks((finished + [done])[done.since..]) == C.Component(w);
    }
  }

  lemma WalkingStarts(types: Types, root: TypeID)
    requires IsModel(types, root)
    ensures C.Started(root).out == [] && C.Started(root).finished == [] && AllModels(types, []) && ReadCount(types, []) == 0
    ensures Walking(types, root, C.Started(root), [Frame(root, 0, 0, 0, 0)], map[root := 0], [], [], 0)
  {
    hide C.Sound, Reaches;
    C.StartSound(Layout(types), root);
    var w := C.Started(root);
    assert w.next[..0] == [];
    assert Tallied(types, w, 0);
    assert Noted(types, w, []);
  }

  lemma WalkingTop(types: Types, root: TypeID, w: C.State, stack: seq<Frame>, met: map<TypeID, int>, finished: seq<Frame>, un: seq<TypeID>, n: nat)
    requires Walking(types, root, w, stack, met, finished, un, n) && stack != []
    ensures EntriesLeft(types, stack) >= 0
    ensures stack[|stack| - 1].id in types && types[stack[|stack| - 1].id].Model?
    ensures IsModel(types, stack[|stack| - 1].id) && stack[|stack| - 1].next <= |TargetsOf(types, stack[|stack| - 1].id)|
  {
    hide Reaches, C.FinishedFollowed, C.LeadsUp, C.LeadsDown, C.LeadsTo, C.LaidOut, C.Split, C.AllPlaced, Noted, Tallied;
    var last := |w.stack| - 1;
    assert w.stack[last] == MarkOf(stack[last]) && w.next[last] == stack[last].next;
    assert w.stack[last].id in w.met;
    assert w.next[last] <= |Layout(types)(w.stack[last].id)|;
  }

  /** un lists, once each, the targets of the models' entries that name no model. */
  ghost predicate UnflattenedOf(types: Types, ids: seq<TypeID>, un: seq<TypeID>) {
    && (forall t :: t in un <==> t != "" && Parent(types, t) == None && exists x :: x in ids && t in TargetsOf(types, x))
    && (forall i, j :: 0 <= i < j < |un| ==> un[i] != un[j])
  }

  lemma WalkingDone(types: Types, root: TypeID, w: C.State, met: map<TypeID, int>, finished: seq<Frame>, un: seq<TypeID>, n: nat)
    requires Walking(types, root, w, [], met, finished, un, n)
    ensures C.InLayoutOrder(Layout(types), root, w.out)
    ensures w.finished == [] && n == EntryCount(types, w.out)
    ensures UnflattenedOf(types, w.out, un)
  {
    hide C.Sound, Reaches, C.InLayoutOrder, Noted, Tracks;
    assert w.stack == [];
    C.DoneInLayoutOrder(Layout(types), root, w);
    DoneEmpty(Layout(types), root, w);
    assert C.Ids(w.finished) == [];
    DoneListed(types, w, met, finished, un);
  }

  lemma DoneEmpty(g: T.Graph, root: TypeID, w: C.State)
    requires C.Sound(g, root, w) && w.stack == []
    ensures w.finished == [] && w.next == [] && forall x :: x in w.met ==> x in w.out
  {
    hide Reaches;
    forall x | x in w.met ensures x in w.out {
      assert !C.Placed(w.stack, w.finished, x);
    }
  }

  lemma DoneListed(types: Types, w: C.State, met: map<TypeID, int>, finished: seq<Frame>, un: seq<TypeID>)
    requires Tracks(types, w, met, finished, un) && Noted(types, w, un)
    requires forall x :: x in w.met ==> x in w.out
    ensures UnflattenedOf(types, w.out, un)
  {
    forall t, x | t != "" && Parent(types, t) == None && x in w.out && t in TargetsOf(types, x) ensures t in un {
      var k :| 0 <= k < |w.out| && w.out[k] == x;
      var i :| 0 <= i < |TargetsOf(types, x)| && TargetsOf(types, x)[i] == t;
      assert ListedTo(types, un, w.out[k], |TargetsOf(types, x)|);
      assert Listed(types, un, TargetsOf(types, x)[i]);
    }
    forall t | t in un ensures exists x :: x in w.out && t in TargetsOf(types, x) {
      assert TargetOfOne(types, w.met, t);
    }
  }

  // ----- the members gathered so far -----

  /** The fields hold what the models ids name declare and require. */
  ghost predicate Emitted(types: Types, ids: seq<TypeID>, members: seq<seq<PropertyDecl>>, index: map<string, nat>,
                          wants: seq<string>, required: set<string>) {
    && AllModels(types, ids)
    && Grouped(Decls(types, ids), members, index)
    && wants == Firsts(Wanted(types, ids)) && (forall w :: w in required <==> w in wants)
  }

  // now is was with each of ids read.
  ghost predicate ReadAll(was: map<TypeID, int>, now: map<TypeID, int>, ids: seq<TypeID>) {
    && (forall x :: x in now <==> x in was || x in ids)
    && (forall x :: x in now ==> now[x] == if x in ids then MET_READ else was[x])
  }

  lemma ReadOne(was: map<TypeID, int>, now: map<TypeID, int>, ids: seq<TypeID>, id: TypeID)
    requires ReadAll(was, now, ids)
    ensures ReadAll(was, now[id := MET_READ], ids + [id])
  {
  }

  /** How many properties and Requires names the models ids name hold. */
  ghost function ReadCount(types: Types, ids: seq<TypeID>): nat
    requires AllModels(types, ids)
  {
    |Decls(types, ids)| + |Wanted(types, ids)|
  }

  lemma DeclsOn(types: Types, ids: seq<TypeID>, id: TypeID)
    requires AllModels(types, ids) && IsModel(types, id)
    ensures AllModels(types, ids + [id])
    ensures Decls(types, ids + [id]) == Decls(types, ids) + Own(types, id)
    ensures Wanted(types, ids + [id]) == Wanted(types, ids) + types[id].wants
  {
    assert (ids + [id])[..|ids|] == ids;
  }

  class Flattener {
    const types: Types
    var met: map<TypeID, int>
    var finished: seq<Frame>
    var members: seq<seq<PropertyDecl>>
    var index: map<string, nat>
    var wants: seq<string>                // in the order first read
    var required: set<string>
    var unflattened: seq<TypeID>
    var aliasOf: map<TypeID, int>
    var aliasEnds: seq<TypeID>
    var steps: nat
    ghost var walk: C.State               // the walk as Components proves it
    ghost var followed: nat               // entries followed

    constructor (types: Types)
      ensures this.types == types && met == map[] && finished == [] && members == [] && index == map[]
      ensures wants == [] && required == {} && unflattened == [] && aliasOf == map[] && aliasEnds == [] && steps == 0
    {
      this.types := types;
      met, finished, members, index := map[], [], [], map[];
      wants, required, unflattened, aliasOf, aliasEnds, steps := [], {}, [], map[], [], 0;
    }

    // ----- alias chains, each scalar read once -----

    /** The type id stands for, each alias scalar on the way read once per walk. */
    method Resolve(id: TypeID) returns (cur: TypeID)
      requires Remembers(types, aliasOf, aliasEnds)
      modifies `aliasOf, `aliasEnds, `steps
      ensures Remembers(types, aliasOf, aliasEnds) && Resolves(types, id, cur)
      ensures steps == old(steps) + 1 + |aliasOf| - old(|aliasOf|)
    {
      hide ChainAt, Resolves;
      var path;
      path, cur := Chase(id);
      if |path| > 0 {
        ghost var marks := aliasOf;
        aliasOf := map s | s in aliasOf :: if s in path then |aliasEnds| else aliasOf[s];
        assert aliasOf.Keys == marks.Keys;
        aliasEnds := aliasEnds + [cur];
      }
    }

    // Follows id's chain, marking its scalars, to one read before or its end.
    method Chase(id: TypeID) returns (path: seq<TypeID>, cur: TypeID)
      requires Remembers(types, aliasOf, aliasEnds)
      modifies `aliasOf, `steps
      ensures AllResolve(types, id, path, cur)
      ensures MarkedOn(types, old(aliasOf), path, aliasOf)
      ensures steps == old(steps) + 1 + |path|
    {
      hide *;
      ghost var was, ends := aliasOf, aliasEnds;
      path, cur := [], id;
      NoPath(types, id);
      NoMarks(types, aliasOf);
      while true
        invariant OnPath(types, id, path, cur)
        invariant MarkedOn(types, was, path, aliasOf)
        invariant steps == old(steps) + |path|
        decreases |types.Keys - aliasOf.Keys|
      {
        steps := steps + 1;
        if cur in aliasOf {
          Recalled(types, was, path, aliasOf, ends, cur);
          if aliasOf[cur] != ALIAS_ON_CHAIN {
            PathThen(types, id, path, cur, ends[aliasOf[cur]]);
            cur := aliasEnds[aliasOf[cur]];
          } else {
            PathCloses(types, id, path, cur);
          }
          return;
        }
        var base := AliasBase(types, cur);
        if base == None {
          PathEnds(types, id, path, cur);
          return;
        }
        PathOn(types, id, path, cur);
        Unmarked(types, aliasOf, cur);
        MarkOne(types, was, path, aliasOf, cur);
        aliasOf := aliasOf[cur := ALIAS_ON_CHAIN];
        path := path + [cur];
        cur := base.value;
      }
    }

    // ----- reading a model -----

    /** Reads the model id names, after those of ids. */
    method Emit(id: TypeID, ghost ids: seq<TypeID>)
      requires IsModel(types, id) && Emitted(types, ids, members, index, wants, required)
      modifies `members, `index, `wants, `required, `steps
      ensures Emitted(types, ids + [id], members, index, wants, required)
      ensures steps == old(steps) + |types[id].properties| + |types[id].wants|
    {
      DeclsOn(types, ids, id);
      EmitProperties(id, Decls(types, ids));
      EmitWants(types[id].wants, Wanted(types, ids));
    }

    method EmitProperties(id: TypeID, ghost ds: seq<PropertyDecl>)
      requires IsModel(types, id) && Grouped(ds, members, index)
      modifies `members, `index, `steps
      ensures Grouped(ds + Own(types, id), members, index)
      ensures steps == old(steps) + |types[id].properties|
    {
      var properties := types[id].properties;
      ghost var own := Own(types, id);
      assert ds + own[..0] == ds;
      for i := 0 to |properties|
        invariant Grouped(ds + own[..i], members, index) && steps == old(steps) + i
      {
        steps := steps + 1;
        EmitOne(PropertyDecl(id, properties[i]), ds + own[..i]);
        assert ds + own[..i] + [own[i]] == ds + own[..i + 1];
      }
      assert own[..|properties|] == own;
    }

    method EmitOne(d: PropertyDecl, ghost ds: seq<PropertyDecl>)
      requires Grouped(ds, members, index)
      modifies `members, `index
      ensures Grouped(ds + [d], members, index)
    {
      hide *;
      var wire := d.property.EffectiveWireName();
      if wire in index {
        GroupedKnown(ds, members, index, d);
        members := members[index[wire] := members[index[wire]] + [d]];
      } else {
        GroupedNew(ds, members, index, d);
        index := index[wire := |members|];
        members := members + [[d]];
      }
    }

    method EmitWants(names: seq<string>, ghost before: seq<string>)
      requires wants == Firsts(before) && forall w :: w in required <==> w in wants
      modifies `wants, `required, `steps
      ensures wants == Firsts(before + names) && forall w :: w in required <==> w in wants
      ensures steps == old(steps) + |names|
    {
      assert before + names[..0] == before;
      for i := 0 to |names|
        invariant wants == Firsts(before + names[..i]) && (forall w :: w in required <==> w in wants)
        invariant steps == old(steps) + i
      {
        steps := steps + 1;
        FirstsHold(before + names[..i]);
        FirstsOn(before + names[..i], names[i]);
        assert before + names[..i] + [names[i]] == before + names[..i + 1];
        if names[i] !in required {
          required := required + {names[i]};
          wants := wants + [names[i]];
        }
      }
      assert names[..|names|] == names;
    }

    // ----- following an entry -----

    /** Follows one entry: gives the model to meet, if that is what is left to do, and the
        low-link of the frame following it, which was `low`. */
    method ParentAt(target: TypeID, low: nat) returns (anew: Option<TypeID>, lowest: nat)
      requires Tracks(types, walk, met, finished, unflattened) && Remembers(types, aliasOf, aliasEnds)
      modifies `met, `unflattened, `aliasOf, `aliasEnds, `steps, `walk
      ensures Tracks(types, walk, met, finished, unflattened) && Remembers(types, aliasOf, aliasEnds)
      ensures walk == old(walk).(count := |met|) && old(|met|) <= |met|
      ensures NewlyListed(types, old(unflattened), unflattened, target)
      ensures var p := Parent(types, target);
        if anew.Some? then
          p == anew && anew.value !in walk.met && anew.value !in met && IsModel(types, anew.value) && lowest == low
        else
          (p.Some? ==> p.value in walk.met) && lowest == LowTo(low, Seen(types, walk.met, target, low))
      ensures steps <= old(steps) + 1 + |aliasOf| - old(|aliasOf|)
    {
      anew, lowest := None, low;
      if target == "" {
        return;
      }
      var id := Resolve(target);
      ResolvedModel(types, target, id);
      if !IsModel(types, id) {
        NoteUnflattened(target);
        return;
      }
      NeverMarked(types, walk, met, finished, unflattened, id);
      if id !in met {
        anew := Some(id);
      } else if met[id] != MET_READ {
        lowest := if met[id] < low then met[id] else low;
      }
    }

    // Lists target among those unflattened, once.
    method NoteUnflattened(target: TypeID)
      requires Tracks(types, walk, met, finished, unflattened) && target != "" && Parent(types, target) == None
      modifies `met, `unflattened, `walk
      ensures Tracks(types, walk, met, finished, unflattened)
      ensures walk == old(walk).(count := |met|) && old(|met|) <= |met|
      ensures NewlyListed(types, old(unflattened), unflattened, target)
    {
      NoModelMet(types, walk, met, finished, unflattened, target);
      if target !in met {
        TracksMark(types, walk, met, finished, unflattened, target);
        walk := walk.(count := |met| + 1);
        met := met[target := MET_UNFLATTENED];
        unflattened := unflattened + [target];
      }
    }

    // ----- finishing a model -----

    // Reads the models of comp, in order.
    method ReadComponent(comp: seq<Frame>, ghost ids: seq<TypeID>)
      requires forall i :: 0 <= i < |comp| ==> IsModel(types, comp[i].id)
      requires Emitted(types, ids, members, index, wants, required)
      modifies `met, `members, `index, `wants, `required, `steps
      ensures ReadAll(old(met), met, C.Ids(Marks(comp)))
      ensures Emitted(types, ids + C.Ids(Marks(comp)), members, index, wants, required)
      ensures steps - ReadCount(types, ids + C.Ids(Marks(comp))) == old(steps) - ReadCount(types, ids)
    {
      ghost var read := C.Ids(Marks(comp));
      assert ids + read[..0] == ids;
      for i := 0 to |comp|
        invariant Emitted(types, ids + read[..i], members, index, wants, required)
        invariant ReadAll(old(met), met, read[..i])
        invariant steps - ReadCount(types, ids + read[..i]) == old(steps) - ReadCount(types, ids)
      {
        assert read[..i + 1] == read[..i] + [comp[i].id];
        ReadOne(old(met), met, read[..i], comp[i].id);
        met := met[comp[i].id := MET_READ];
        DeclsOn(types, ids + read[..i], comp[i].id);
        Emit(comp[i].id, ids + read[..i]);
        assert ids + read[..i] + [comp[i].id] == ids + read[..i + 1];
      }
      assert read[..|comp|] == read;
    }

    /** Pops a frame: its model waits for its component, or closes it, and then the whole
        component is read. */
    method FinishModel(fr: Frame, ghost ids: seq<TypeID>)
      requires fr.since <= |finished| && forall i :: 0 <= i < |finished| ==> IsModel(types, finished[i].id)
      requires IsModel(types, fr.id) && Emitted(types, ids, members, index, wants, required)
      modifies `met, `finished, `members, `index, `wants, `required, `steps
      ensures if fr.low < fr.num then
          && finished == old(finished) + [fr] && met == old(met)
          && Emitted(types, ids, members, index, wants, required) && steps == old(steps)
        else
          var comp := (old(finished) + [fr])[fr.since..];
          && finished == old(finished)[..fr.since] && ReadAll(old(met), met, C.Ids(Marks(comp)))
          && Emitted(types, ids + C.Ids(Marks(comp)), members, index, wants, required)
          && steps - ReadCount(types, ids + C.Ids(Marks(comp))) == old(steps) - ReadCount(types, ids)
    {
      finished := finished + [fr];
      if fr.low < fr.num {
        return;
      }
      ReadComponent(finished[fr.since..], ids);
      finished := finished[..fr.since];
      assert finished == old(finished)[..fr.since];
    }

    // ----- the walk -----

    // Opens a frame for a model not met before.
    method Meet(id: TypeID) returns (fr: Frame)
      requires id !in met
      modifies `met
      ensures fr == Frame(id, 0, old(|met|), old(|met|), |finished|) && met == old(met)[id := old(|met|)]
    {
      var num := |met|;
      met := met[id := num];
      fr := Frame(id, 0, num, num, |finished|);
    }

    /** Follows the top model's next entry, on to target: meets the model it
        composes in, when there is one the walk is yet to meet. */
    method FollowEntry(stack: seq<Frame>, target: TypeID, ghost root: TypeID) returns (on: seq<Frame>)
      requires Walking(types, root, walk, stack, met, finished, unflattened, followed)
      requires stack != [] && NextEntry(types, stack, target) && Remembers(types, aliasOf, aliasEnds)
      modifies `met, `unflattened, `aliasOf, `aliasEnds, `steps, `walk, `followed
      ensures Walking(types, root, walk, on, met, finished, unflattened, followed)
      ensures Remembers(types, aliasOf, aliasEnds)
      ensures walk.out == old(walk).out && walk.finished == old(walk).finished && followed == old(followed) + 1
      ensures steps <= old(steps) + 2 + |aliasOf| - old(|aliasOf|)
      ensures GoesOn(types, stack, on, old(walk.met), walk.met)
    {
      hide *;
      ghost var was, now := walk, met;
      var top := stack[|stack| - 1];
      WalkingHas(types, root, walk, stack, met, finished, unflattened, followed);
      TracksCount(types, walk, met, finished, unflattened);
      steps := steps + 1;
      var anew, low := ParentAt(target, top.low);
      EntryFollowed(types, root, was, stack, now, met, finished, old(unflattened), unflattened, followed, target, anew, low);
      walk := Followed(types, was, |met|, target, anew, top.low);
      followed := followed + 1;
      on := stack[..|stack| - 1] + [top.(next := top.next + 1, low := low)];
      if anew.Some? {
        var fr := Meet(anew.value);
        on := on + [fr];
      }
    }

    // ----- the whole walk -----

    // Takes the top model off the stack, which has no entry left.
    method PopModel(stack: seq<Frame>, ghost root: TypeID) returns (on: seq<Frame>)
      requires Walking(types, root, walk, stack, met, finished, unflattened, followed) && stack != [] && Spent(types, stack)
      requires Emitted(types, walk.out, members, index, wants, required)
      modifies `met, `finished, `members, `index, `wants, `required, `steps, `walk
      ensures Walking(types, root, walk, on, met, finished, unflattened, followed)
      ensures AllModels(types, walk.out)
      ensures Emitted(types, walk.out, members, index, wants, required)
      ensures |walk.finished| + |walk.out| == old(|walk.finished| + |walk.out|) + 1
      ensures steps - ReadCount(types, walk.out) == old(steps - ReadCount(types, walk.out)) + 1
      ensures on == Popped(stack) && walk.met.Keys == old(walk.met.Keys)
    {
      hide Walking, Tracks, Emitted, C.Sound, Spent, ReadCount, PoppedWalk, C.Close, C.Finish, Popped;
      var done := stack[|stack| - 1];
      PopReady(types, root, walk, stack, met, finished, unflattened, followed);
      PopLeaves(types, root, walk, stack, met, finished, unflattened, followed);
      ghost var was, held := met, finished;
      steps := steps + 1;
      on := Popped(stack);
      FinishModel(done, walk.out);
      WalkPops(types, root, walk, stack, was, met, held, unflattened, followed);
      walk := PoppedWalk(walk, done.low, done.num);
    }

    /** The depth-first walk from root, leaving `ids` in layout order. */
    method Walk(root: TypeID)
      requires IsModel(types, root) && met == map[] && finished == [] && unflattened == []
      requires Emitted(types, [], members, index, wants, required) && Remembers(types, aliasOf, aliasEnds)
      requires steps == 1 + |aliasOf|
      modifies this
      ensures C.InLayoutOrder(Layout(types), root, walk.out)
      ensures AllModels(types, walk.out)
      ensures Emitted(types, walk.out, members, index, wants, required)
      ensures UnflattenedOf(types, walk.out, unflattened)
      ensures Remembers(types, aliasOf, aliasEnds)
      ensures steps <= 1 + |aliasOf| + 2 * EntryCount(types, walk.out) + |walk.out| + ReadCount(types, walk.out)
    {
      hide *;
      walk, followed := C.Started(root), 0;
      var fr := Meet(root);
      var stack := [fr];
      WalkingStarts(types, root);
      while |stack| > 0
        invariant Walking(types, root, walk, stack, met, finished, unflattened, followed)
        invariant AllModels(types, walk.out)
        invariant Emitted(types, walk.out, members, index, wants, required)
        invariant Remembers(types, aliasOf, aliasEnds)
        invariant steps <= 1 + |aliasOf| + 2 * followed + |walk.finished| + |walk.out| + ReadCount(types, walk.out)
        decreases Unmet(types, walk.met), |stack|, EntriesLeft(types, stack)
      {
        WalkingTop(types, root, walk, stack, met, finished, unflattened, followed);
        ghost var was := walk.met;
        var top := stack[|stack| - 1];
        var target := EntryAt(types[top.id], top.next);
        EntryNext(types, stack);
        if target.Some? {
          var on := FollowEntry(stack, target.value, root);
          FollowingLessens(types, stack, on, was, walk.met);
          stack := on;
        } else {
          var on := PopModel(stack, root);
          PoppingLessens(types, stack, was, walk.met);
          stack := on;
        }
      }
      WalkingDone(types, root, walk, met, finished, unflattened, followed);
    }

    // ----- the result -----

    /** The walk's members, the wanted names none carries, and the entries naming
        no model. */
    method Result(ghost ids: seq<TypeID>) returns (f: Flattening)
      requires Emitted(types, ids, members, index, wants, required)
      ensures AllModels(types, ids) && Flattens(types, ids, f) && f.unflattened == unflattened
    {
      var properties: seq<FlatProperty> := [];
      for i := 0 to |members|
        invariant |properties| == i
        invariant forall j :: 0 <= j < i ==> members[j] != [] && properties[j] == Flat(members[j], wants)
      {
        assert members[i] == Of(Decls(types, ids), Firsts(Wires(Decls(types, ids)))[i]);
        var p := FlatOf(members[i], required, wants);
        properties := properties + [p];
      }
      var undeclared := Undeclared(Firsts(Wires(Decls(types, ids))));
      f := Flattening(properties, undeclared, unflattened);
    }

    method Undeclared(ghost names: seq<string>) returns (undeclared: seq<string>)
      requires forall w :: w in index <==> w in names
      ensures undeclared == Without(wants, names)
    {
      undeclared := [];
      for i := 0 to |wants|
        invariant undeclared == Without(wants[..i], names)
      {
        assert wants[..i + 1][..i] == wants[..i];
        if wants[i] !in index {
          undeclared := undeclared + [wants[i]];
        }
      }
      assert wants[..|wants|] == wants;
    }

    // Computes Flat in one pass over the declarations.
    static method FlatOf(decls: seq<PropertyDecl>, required: set<string>, ghost wants: seq<string>) returns (fp: FlatProperty)
      requires decls != [] && forall w :: w in required <==> w in wants
      ensures fp == Flat(decls, wants)
    {
      var last := decls[|decls| - 1];
      var needed := last.property.EffectiveWireName() in required;
      var overridden, listed: set<PropID> := [], {};
      for i := 0 to |decls|
        invariant needed == (AnyRequired(decls[..i]) || last.property.EffectiveWireName() in wants)
        invariant overridden == Others(decls[..i], last.property.id)
        invariant forall p :: p in listed <==> Declared(overridden, p)
      {
        var d := decls[i];
        assert decls[..i + 1][..i] == decls[..i] && decls[..i + 1] == decls[..i] + [d];
        needed := needed || d.property.required;
        DeclaredAll(overridden, d);
        if d.property.id != last.property.id && d.property.id !in listed {
          listed := listed + {d.property.id};
          overridden := overridden + [d];
        }
      }
      assert decls[..|decls|] == decls;
      fp := FlatProperty(last, overridden, needed);
    }
  }

  lemma DeclaredAll(ds: seq<PropertyDecl>, d: PropertyDecl)
    ensures forall p :: Declared(ds + [d], p) <==> Declared(ds, p) || d.property.id == p
  {
    forall p { DeclaredOn(ds, d, p); }
  }

  lemma EntryNext(types: Types, stack: seq<Frame>)
    requires stack != [] && IsModel(types, stack[|stack| - 1].id)
    requires stack[|stack| - 1].next <= |TargetsOf(types, stack[|stack| - 1].id)|
    ensures var top := stack[|stack| - 1];
      match EntryAt(types[top.id], top.next)
      case Some(t) => NextEntry(types, stack, t)
      case None => Spent(types, stack)
  {
  }

  // How many types are yet to meet, and how many entries the top has left.
  ghost function Unmet(types: Types, met: map<TypeID, int>): nat {
    |types.Keys - met.Keys|
  }

  ghost function EntriesLeft(types: Types, stack: seq<Frame>): int {
    if stack == [] then 0 else |TargetsOf(types, stack[|stack| - 1].id)| - stack[|stack| - 1].next
  }

  lemma FollowingLessens(types: Types, was: seq<Frame>, now: seq<Frame>, met: map<TypeID, int>, after: map<TypeID, int>)
    requires GoesOn(types, was, now, met, after)
    ensures Unmet(types, after) < Unmet(types, met)
      || (Unmet(types, after) == Unmet(types, met) && |now| == |was| && EntriesLeft(types, now) < EntriesLeft(types, was))
  {
    if x :| x in types && x !in met && after.Keys == met.Keys + {x} {
      assert types.Keys - after.Keys == (types.Keys - met.Keys) - {x};
    }
  }

  lemma PoppingLessens(types: Types, stack: seq<Frame>, met: map<TypeID, int>, after: map<TypeID, int>)
    requires stack != [] && met.Keys == after.Keys
    ensures Unmet(types, after) == Unmet(types, met) && |Popped(stack)| < |stack|
  {
  }

  ghost function Followed(types: Types, w: C.State, count: nat, target: TypeID, anew: Option<TypeID>, low: nat): C.State {
    if anew.Some? then OnwardTo(w, count, anew.value) else Onward(w, count, Seen(types, w.met, target, low))
  }

  lemma EntryFollowed(types: Types, root: TypeID, w: C.State, stack: seq<Frame>, met: map<TypeID, int>, now: map<TypeID, int>,
                      finished: seq<Frame>, was: seq<TypeID>, un: seq<TypeID>, n: nat, target: TypeID, anew: Option<TypeID>, low: nat)
    requires Walking(types, root, w, stack, met, finished, was, n) && stack != [] && NextEntry(types, stack, target)
    requires w.count <= |now| && Tracks(types, w.(count := |now|), now, finished, un) && NewlyListed(types, was, un, target)
    requires var p := Parent(types, target); var held := stack[|stack| - 1].low;
      if anew.Some? then p == anew && anew.value !in w.met && anew.value !in now && IsModel(types, anew.value) && low == held
      else (p.Some? ==> p.value in w.met) && low == LowTo(held, Seen(types, w.met, target, held))
    ensures var top := stack[|stack| - 1];
      var t := Followed(types, w, |now|, target, anew, top.low);
      var up := stack[..|stack| - 1] + [top.(next := top.next + 1, low := low)];
      var on := if anew.Some? then up + [Frame(anew.value, 0, |now|, |now|, |finished|)] else up;
      && Walking(types, root, t, on, if anew.Some? then now[anew.value := |now|] else now, finished, un, n + 1)
      && t.out == w.out && t.finished == w.finished && GoesOn(types, stack, on, w.met, t.met)
  {
    hide Walking, Tracks, Parent, NextEntry, NewlyListed, Seen, Advanced, Onward, OnwardTo, OnStack, C.Sound, Noted, Tallied;
    WalkingHas(types, root, w, stack, met, finished, was, n);
    TracksCount(types, w, met, finished, was);
    FollowsStack(w, stack, 0, 0);
    if anew.Some? {
      WalkMeets(types, root, w, stack, met, now, finished, was, un, n, target, anew.value);
      OnwardLeaves(w, |now|, 0, anew.value);
      AdvancedIs(stack, stack[|stack| - 1].low);
    } else {
      var seen := Seen(types, w.met, target, stack[|stack| - 1].low);
      WalkFollows(types, root, w, stack, met, now, finished, was, un, n, target, seen);
      OnwardLeaves(w, |now|, seen, target);
      AdvancedIs(stack, seen);
    }
  }

  // Each alias remembered has the end its chain stands for.
  ghost predicate Remembers(types: Types, marks: map<TypeID, int>, ends: seq<TypeID>) {
    forall s :: s in marks ==>
      AliasBase(types, s).Some? && 0 <= marks[s] < |ends| && Resolves(types, s, ends[marks[s]])
  }

  lemma Recalled(types: Types, was: map<TypeID, int>, path: seq<TypeID>, marks: map<TypeID, int>, ends: seq<TypeID>, s: TypeID)
    requires Remembers(types, was, ends) && MarkedOn(types, was, path, marks) && s in marks
    ensures if marks[s] == ALIAS_ON_CHAIN then s in path else 0 <= marks[s] < |ends| && Resolves(types, s, ends[marks[s]])
  {
  }

  // marks is was with the aliases on path marked as on the chain being read.
  ghost predicate MarkedOn(types: Types, was: map<TypeID, int>, path: seq<TypeID>, marks: map<TypeID, int>) {
    && (forall s :: s in marks <==> s in was || s in path)
    && (forall s :: s in was ==> s !in path && marks[s] == was[s])
    && (forall s :: s in path ==> marks[s] == ALIAS_ON_CHAIN && AliasBase(types, s).Some?)
    && |marks| == |was| + |path|
  }

  lemma MarkOne(types: Types, was: map<TypeID, int>, path: seq<TypeID>, marks: map<TypeID, int>, s: TypeID)
    requires MarkedOn(types, was, path, marks) && s !in marks && AliasBase(types, s).Some?
    ensures MarkedOn(types, was, path + [s], marks[s := ALIAS_ON_CHAIN])
  {
  }

  lemma NoMarks(types: Types, marks: map<TypeID, int>)
    ensures MarkedOn(types, marks, [], marks)
  {
  }

  lemma Unmarked(types: Types, marks: map<TypeID, int>, s: TypeID)
    requires AliasBase(types, s).Some? && s !in marks
    ensures |types.Keys - marks[s := ALIAS_ON_CHAIN].Keys| < |types.Keys - marks.Keys|
  {
    assert types.Keys - marks[s := ALIAS_ON_CHAIN].Keys == (types.Keys - marks.Keys) - {s};
  }

  /** Flattens root: what its result is, over which order of models, and within how many
      steps.  A root that stands for no model gives nothing. */
  method FlattenedProperties(types: Types, root: TypeID) returns (f: Flattening, ghost order: seq<TypeID>, steps: nat)
    ensures AllModels(types, order) && Flattens(types, order, f)
    ensures UnflattenedOf(types, order, f.unflattened)
    ensures match ModelFor(types, root)
      case Some(m) => C.InLayoutOrder(Layout(types), m, order)
      case None => order == []
    ensures steps <= 1 + |Aliases(types)| + 2 * EntryCount(types, order) + |order| + ReadCount(types, order)
  {
    var fl := new Flattener(types);
    var id := fl.Resolve(root);
    ResolvedModel(types, root, id);
    if !IsModel(types, id) {
      order := [];
      f := Flattening([], [], []);
      steps := fl.steps;
      AliasesRead(types, fl.aliasOf);
      return;
    }
    fl.Walk(id);
    order := fl.walk.out;
    f := fl.Result(order);
    steps := fl.steps;
    AliasesRead(types, fl.aliasOf);
  }

  lemma AliasesRead(types: Types, aliasOf: map<TypeID, int>)
    requires forall s :: s in aliasOf ==> AliasBase(types, s).Some?
    ensures |aliasOf| <= |Aliases(types)|
  {
    Fewer(aliasOf.Keys, Aliases(types));
  }

  lemma {:induction false} Fewer<T>(a: set<T>, b: set<T>)
    requires a <= b
    ensures |a| <= |b|
  {
    if a != {} {
      var x :| x in a;
      Fewer(a - {x}, b - {x});
    }
  }
}
