/** The shared reflection walk: one traversal carries many visitors, and each
    sees exactly the walk it would see alone. */
module Walk {
  import opened Values

  const MAX_WALK_DEPTH: nat := 4096
  const MAX_SHARED_VISITORS: nat := 64

  /** One call a visitor gets. */
  datatype Event =
    | Shown(v: Value, at: Path)
    | Cycle(at: Path, entered: Path, ref: RefKey)

  /** A visitor with a state of its own.  Its answer may depend on every call it
      has had, which `asks` is handed as its log, so any deterministic visitor
      sharing no state with another is one of these. */
  datatype Visitor =
    | Nobody                                              // a nil visitor, skipped
    | Visitor(asks: (seq<Event>, Value, Path) -> bool, hearsCycles: bool)

  // An entry of the stack a cycle is looked up in; depth tells the path it was entered at.
  datatype InsideRef = InsideRef(key: RefKey, depth: nat)

  /** Where a walk is: the steps it took and the references it is inside. */
  datatype PlaceData = Place(root: string, steps: seq<Step>, inside: seq<InsideRef>) {
    function Here(): Path {
      Path(root, steps)
    }
  }

  predicate PlaceOk(p: PlaceData) {
    forall r :: r in p.inside ==> r.depth <= |p.steps|
  }

  type Place = p: PlaceData | PlaceOk(p) witness Place("", [], [])

  function Take(at: Place, s: Step): Place {
    at.(steps := at.steps + [s])
  }

  function Enter(at: Place, key: RefKey): Place {
    at.(inside := at.inside + [InsideRef(key, |at.steps|)])
  }

  predicate Inside(inside: seq<InsideRef>, key: RefKey) {
    exists r :: r in inside && r.key == key
  }

  /** Where the outermost of `inside` with identity `key` was entered. */
  function EnteredAt(inside: seq<InsideRef>, key: RefKey): (d: nat)
    requires Inside(inside, key)
    ensures exists r :: r in inside && r.key == key && r.depth == d
  {
    if inside[0].key == key then inside[0].depth else EnteredAt(inside[1..], key)
  }

  // ---------------------------------------------------------------------------
  // The walk one visitor makes alone: the reference every visitor is held to.
  // ---------------------------------------------------------------------------

  /** What a visitor's lone walk carries from call to call, and is compared by. */
  datatype Alone = Alone(log: seq<Event>, entered: set<RefKey>, cut: bool)

  // The values a struct, sequence or map holds, in walk order, by their steps.
  function Held(h: Heap, v: Value): seq<(Step, Value)> {
    match v
    case Struct(t, fields) => seq(|fields|, i requires 0 <= i < |fields| => (Field(t, i), fields[i]))
    case Array(_, bytes, items) => if bytes then [] else Elems(items)
    case Slice(_, bytes, _, len) => if bytes then [] else Elems(Items(h, v.Key()))
    case Map(_, _) => Pairs(Entries(h, v.Key()))
    case _ => []
  }

  function Elems(items: seq<Value>): seq<(Step, Value)> {
    seq(|items|, i requires 0 <= i < |items| => (Element(i), items[i]))
  }

  function Pairs(entries: seq<Entry>): (r: seq<(Step, Value)>)
    ensures |r| == 2 * |entries|
    ensures forall i :: 0 <= i < |entries| ==>
      r[2 * i] == (MapKey(entries[i].name), entries[i].key) &&
      r[2 * i + 1] == (MapValue(entries[i].name), entries[i].value)
  {
    if entries == [] then []
    else
      var last := entries[|entries| - 1];
      Pairs(entries[..|entries| - 1]) + [(MapKey(last.name), last.key), (MapValue(last.name), last.value)]
  }

  function AloneMeets(vis: Visitor, s: Alone, key: RefKey, at: Place): Alone
    requires vis.Visitor?
  {
    if Inside(at.inside, key) && vis.hearsCycles then
      s.(log := s.log + [Cycle(at.Here(), Path(at.root, at.steps[..EnteredAt(at.inside, key)]), key)])
    else s
  }

  function AloneShows(s: Alone, v: Value, at: Place): Alone {
    s.(log := s.log + [Shown(v, at.Here())])
  }

  function AloneWalk(h: Heap, vis: Visitor, s: Alone, v: Value, depth: nat, at: Place): Alone
    requires vis.Visitor? && depth <= MAX_WALK_DEPTH
    decreases MAX_WALK_DEPTH + 1 - depth, 2, 0
  {
    if v.Invalid? then s
    else if vis.asks(s.log, v, at.Here()) then AloneChildren(h, vis, AloneShows(s, v, at), v, depth, at)
    else AloneShows(s, v, at)
  }

  function AloneDescend(h: Heap, vis: Visitor, s: Alone, v: Value, depth: nat, at: Place): Alone
    requires vis.Visitor? && depth <= MAX_WALK_DEPTH + 1
    decreases MAX_WALK_DEPTH + 1 - depth, 3, 0
  {
    if depth > MAX_WALK_DEPTH then s.(cut := true) else AloneWalk(h, vis, s, v, depth, at)
  }

  function AloneChildren(h: Heap, vis: Visitor, s: Alone, v: Value, depth: nat, at: Place): Alone
    requires vis.Visitor? && depth <= MAX_WALK_DEPTH
    decreases MAX_WALK_DEPTH + 1 - depth, 1, 2
  {
    match v
    case Pointer(_, _) => AlonePointer(h, vis, s, v, depth, at)
    case Iface(None) => s
    case Iface(Some(d)) => AloneDescend(h, vis, s, d, depth + 1, at)
    case _ => AloneHeld(h, vis, s, v, depth, at)
  }

  function AlonePointer(h: Heap, vis: Visitor, s: Alone, v: Value, depth: nat, at: Place): Alone
    requires vis.Visitor? && depth <= MAX_WALK_DEPTH && v.Pointer?
    decreases MAX_WALK_DEPTH + 1 - depth, 1, 1
  {
    if v.ptr == 0 then s
    else if v.Key() in s.entered then AloneMeets(vis, s, v.Key(), at)
    else AloneDescend(h, vis, s.(entered := s.entered + {v.Key()}), Target(h, v.Key()), depth + 1, Enter(at, v.Key()))
  }

  function AloneHeld(h: Heap, vis: Visitor, s: Alone, v: Value, depth: nat, at: Place): Alone
    requires vis.Visitor? && depth <= MAX_WALK_DEPTH
    decreases MAX_WALK_DEPTH + 1 - depth, 1, 1
  {
    var held := Held(h, v);
    if held == [] then s
    else if !v.IsReference() then AloneEach(h, vis, s, held, |held|, depth, at)
    else if Inside(at.inside, v.Key()) then AloneMeets(vis, s, v.Key(), at)
    else AloneEach(h, vis, s, held, |held|, depth, Enter(at, v.Key()))
  }

  // The walk of the first n values held.
  function AloneEach(h: Heap, vis: Visitor, s: Alone, held: seq<(Step, Value)>, n: nat, depth: nat, at: Place): Alone
    requires vis.Visitor? && depth <= MAX_WALK_DEPTH && n <= |held|
    decreases MAX_WALK_DEPTH + 1 - depth, 0, n
  {
    if n == 0 then s
    else
      var before := AloneEach(h, vis, s, held, n - 1, depth, at);
      AloneDescend(h, vis, before, held[n - 1].1, depth + 1, Take(at, held[n - 1].0))
  }

  ghost function AllCut(alone: seq<Alone>, active: set<nat>): seq<Alone> {
    seq(|alone|, i requires 0 <= i < |alone| => if i in active then alone[i].(cut := true) else alone[i])
  }

  ghost function AllEntered(alone: seq<Alone>, active: set<nat>, key: RefKey): seq<Alone> {
    seq(|alone|, i requires 0 <= i < |alone| =>
      if i in active then alone[i].(entered := alone[i].entered + {key}) else alone[i])
  }

  /** The whole walk `vis` makes alone from `root`. */
  function WalkAlone(h: Heap, root: Value, path: string, vis: Visitor): Alone {
    if vis.Nobody? then Alone([], {}, false)
    else AloneWalk(h, vis, Alone([], {}, false), root, 0, Place(path, [], []))
  }

  // ---------------------------------------------------------------------------
  // The shared traversal.
  // ---------------------------------------------------------------------------

  /** One traversal's state.  `alone` is ghost: what each visitor's own walk
      would hold at this point. */
  class ValueWalk {
    const heap: Heap
    const root: string
    const visitors: seq<Visitor>
    var logs: seq<seq<Event>>             // the calls each visitor has had
    var seen: map<RefKey, set<nat>>       // which visitors entered each pointer
    var inside: seq<InsideRef>
    var steps: seq<Step>
    var truncated: bool
    ghost var alone: seq<Alone>

    ghost predicate Valid()
      reads this
    {
      && |logs| == |alone| == |visitors|
      && (forall i :: 0 <= i < |visitors| ==> logs[i] == alone[i].log)
      && (forall k, i :: 0 <= i < |visitors| ==> (k in alone[i].entered <==> k in seen && i in seen[k]))
      && (truncated <==> exists i :: 0 <= i < |visitors| && alone[i].cut)
      && PlaceOk(Place(root, steps, inside))
    }

    ghost function At(): Place
      requires Valid()
      reads this
    {
      Place(root, steps, inside)
    }

    /** `active` are visitors, and each has entered every pointer the walk is
        inside: what makes one traversal stand for all of theirs. */
    ghost predicate Carries(active: set<nat>)
      requires Valid()
      reads this
    {
      && (forall i :: i in active ==> i < |visitors| && visitors[i].Visitor?)
      && (forall i, r :: i in active && r in inside && r.key.kind == PointerRef ==> r.key in alone[i].entered)
    }

    /** The traversal went on from `was` for the visitors in `active` alone,
        entering no fewer pointers, and is back where it stood. */
    twostate predicate Kept()
      reads this
    {
      && steps == old(steps) && inside == old(inside)
      && |alone| == |old(alone)|
      && (forall i :: 0 <= i < |alone| ==> old(alone)[i].entered <= alone[i].entered)
    }

    constructor (heap: Heap, root: string, visitors: seq<Visitor>)
      ensures Valid() && this.heap == heap && this.root == root && this.visitors == visitors
      ensures steps == [] && inside == []
      ensures forall i :: 0 <= i < |visitors| ==> alone[i] == Alone([], {}, false)
    {
      this.heap, this.root, this.visitors := heap, root, visitors;
      logs := seq(|visitors|, _ => []);
      alone := seq(|visitors|, _ => Alone([], {}, false));
      seen, inside, steps, truncated := map[], [], [], false;
    }

    method Walk(v: Value, depth: nat, active: set<nat>)
      requires Valid() && Carries(active) && depth <= MAX_WALK_DEPTH
      modifies this
      ensures Valid() && Kept()
      ensures forall i :: 0 <= i < |visitors| ==>
        alone[i] == (if i in active then AloneWalk(heap, visitors[i], old(alone[i]), v, depth, old(At())) else old(alone[i]))
      decreases MAX_WALK_DEPTH + 1 - depth, 2, 0
    {
      if v.Invalid? {
        return;
      }
      var asking := Show(v, active);
      if asking != {} {
        Children(v, depth, asking);
      }
    }

    // Calls visitor i.
    method Record(i: nat, e: Event)
      requires Valid() && i < |visitors|
      modifies `logs, `alone
      ensures Valid() && alone == old(alone)[i := old(alone[i]).(log := old(alone[i].log) + [e])]
    {
      logs := logs[i := logs[i] + [e]];
      alone := alone[i := alone[i].(log := logs[i])];
      assert forall j :: 0 <= j < |alone| ==> alone[j].cut == old(alone[j]).cut;
    }

    // Shows v to one visitor, and asks it whether to go on.
    method Offer(i: nat, v: Value, here: Path) returns (asks: bool)
      requires Valid() && i < |visitors| && visitors[i].Visitor? && here == At().Here()
      modifies `logs, `alone
      ensures Valid() && alone == old(alone)[i := AloneShows(old(alone[i]), v, At())]
      ensures asks == visitors[i].asks(old(alone[i].log), v, here)
    {
      asks := visitors[i].asks(logs[i], v, here);
      Record(i, Shown(v, here));
    }

    // Shows v to each visitor in active and collects those asking for what it holds.
    method Show(v: Value, active: set<nat>) returns (asking: set<nat>)
      requires Valid() && Carries(active)
      modifies this
      ensures Valid() && Kept() && Carries(asking) && asking <= active
      ensures forall i :: 0 <= i < |visitors| ==>
        alone[i] == (if i in active then AloneShows(old(alone[i]), v, old(At())) else old(alone[i]))
      ensures forall i :: i in active ==> (i in asking <==> visitors[i].asks(old(alone[i].log), v, old(At()).Here()))
    {
      asking := {};
      var here := Path(root, steps);
      for i := 0 to |visitors|
        invariant Valid() && Kept() && Carries(active) && asking <= active
        invariant At() == old(At())
        invariant forall j :: 0 <= j < |visitors| ==>
        alone[j] == (if j < i && j in active then AloneShows(old(alone[j]), v, old(At())) else old(alone[j]))
        invariant forall j :: j in active ==>
          (j in asking <==> j < i && visitors[j].asks(old(alone[j].log), v, old(At()).Here()))
      {
        if i in active {
          var asks := Offer(i, v, here);
          if asks {
            asking := asking + {i};
          }
        }
      }
    }

    method Descend(v: Value, depth: nat, active: set<nat>)
      requires Valid() && Carries(active) && active != {} && depth <= MAX_WALK_DEPTH + 1
      modifies this
      ensures Valid() && Kept()
      ensures forall i :: 0 <= i < |visitors| ==>
        alone[i] == (if i in active then AloneDescend(heap, visitors[i], old(alone[i]), v, depth, old(At())) else old(alone[i]))
      decreases MAX_WALK_DEPTH + 1 - depth, 3, 0
    {
      if depth > MAX_WALK_DEPTH {
        truncated := true;
        alone := AllCut(alone, active);
        ghost var i :| i in active;
        assert alone[i].cut;
        return;
      }
      Walk(v, depth, active);
    }

    // What counts as held by v, and which step reaches each.
    method Children(v: Value, depth: nat, active: set<nat>)
      requires Valid() && Carries(active) && active != {} && depth <= MAX_WALK_DEPTH
      modifies this
      ensures Valid() && Kept()
      ensures forall i :: 0 <= i < |visitors| ==>
        alone[i] == (if i in active then AloneChildren(heap, visitors[i], old(alone[i]), v, depth, old(At())) else old(alone[i]))
      decreases MAX_WALK_DEPTH + 1 - depth, 1, 2
    {
      match v
      case Pointer(_, _) =>
        PointerTo(v, depth, active);
      case Iface(Some(d)) =>
        Descend(d, depth + 1, active);
      case Struct(typ, fields) =>
        FieldsOf(v, depth, active);
      case Array(_, _, _) =>
        Sequence(v, depth, active);
      case Slice(_, _, _, _) =>
        Sequence(v, depth, active);
      case Map(_, _) =>
        Mapping(v, depth, active);
      case _ =>
    }

    method FieldsOf(v: Value, depth: nat, active: set<nat>)
      requires Valid() && Carries(active) && active != {} && depth <= MAX_WALK_DEPTH && v.Struct?
      modifies this
      ensures Valid() && Kept()
      ensures forall i :: 0 <= i < |visitors| ==>
        alone[i] == (if i in active then AloneEach(heap, visitors[i], old(alone[i]), Held(heap, v), |v.fields|, depth, old(At())) else old(alone[i]))
      decreases MAX_WALK_DEPTH + 1 - depth, 1, 1
    {
      ghost var held := Held(heap, v);
      for n := 0 to |v.fields|
        invariant Valid() && Kept() && Carries(active)
        invariant forall i :: 0 <= i < |visitors| ==>
          alone[i] == (if i in active then AloneEach(heap, visitors[i], old(alone[i]), held, n, depth, old(At())) else old(alone[i]))
      {
        StepInto(Field(v.typ, n), v.fields[n], depth + 1, active);
      }
    }

    method StepInto(s: Step, child: Value, depth: nat, active: set<nat>)
      requires Valid() && Carries(active) && active != {} && 0 < depth <= MAX_WALK_DEPTH + 1
      modifies this
      ensures Valid() && Kept()
      ensures forall i :: 0 <= i < |visitors| ==>
        alone[i] == (if i in active then AloneDescend(heap, visitors[i], old(alone[i]), child, depth, Take(old(At()), s)) else old(alone[i]))
      decreases MAX_WALK_DEPTH + 1 - depth, 4, 0
    {
      steps := steps + [s];
      Descend(child, depth, active);
      steps := steps[..|steps| - 1];
    }

    // Records that the visitors in active enter key, and returns those entering
    // it for the first time.
    method EnterPointer(key: RefKey, active: set<nat>) returns (anew: set<nat>)
      requires Valid() && Carries(active)
      modifies `seen, `alone
      ensures Valid() && anew == (set i | i in active && key !in old(alone[i].entered))
      ensures alone == AllEntered(old(alone), anew, key)
    {
      var entered := if key in seen then seen[key] else {};
      anew := active - entered;
      if anew == {} {
        return;
      }
      seen := seen[key := entered + anew];
      alone := AllEntered(alone, anew, key);
      assert forall j :: 0 <= j < |alone| ==> alone[j].cut == old(alone[j]).cut;
    }

    // A pointer is entered once per visitor; met again while the walk is inside
    // it, it closes a cycle.
    method PointerTo(v: Value, depth: nat, active: set<nat>)
      requires v.Pointer? && Valid() && Carries(active) && active != {} && depth <= MAX_WALK_DEPTH
      modifies this
      ensures Valid() && Kept()
      ensures forall i :: 0 <= i < |visitors| ==>
        alone[i] == (if i in active then AlonePointer(heap, visitors[i], old(alone[i]), v, depth, old(At())) else old(alone[i]))
      decreases MAX_WALK_DEPTH + 1 - depth, 1, 1
    {
      if v.ptr == 0 {
        return;
      }
      var key := v.Key();
      var anew := EnterPointer(key, active);
      if anew == {} {
        var _ := ClosesCycle(key, active);
        return;
      }
      DescendInside(key, Target(heap, key), depth + 1, anew);
    }

    // Descends into v, which key leads to, inside key.
    method DescendInside(key: RefKey, v: Value, depth: nat, active: set<nat>)
      requires Valid() && Carries(active) && active != {} && 0 < depth <= MAX_WALK_DEPTH + 1
      requires forall i :: i in active ==> key in alone[i].entered
      modifies this
      ensures Valid() && Kept()
      ensures forall i :: 0 <= i < |visitors| ==>
        alone[i] == (if i in active then AloneDescend(heap, visitors[i], old(alone[i]), v, depth, Enter(old(At()), key)) else old(alone[i]))
      decreases MAX_WALK_DEPTH + 1 - depth, 4, 0
    {
      inside := inside + [InsideRef(key, |steps|)];
      Descend(v, depth, active);
      inside := inside[..|inside| - 1];
    }

    // Reports whether the walk is inside key already, telling the visitors that
    // hear of cycles.
    method ClosesCycle(key: RefKey, active: set<nat>) returns (closed: bool)
      requires Valid() && Carries(active)
      modifies this
      ensures Valid() && Kept()
      ensures closed == Inside(inside, key)
      ensures forall i :: 0 <= i < |visitors| ==>
        alone[i] == (if i in active then AloneMeets(visitors[i], old(alone[i]), key, old(At())) else old(alone[i]))
    {
      for n := 0 to |inside|
        invariant forall m :: 0 <= m < n ==> inside[m].key != key
      {
        if inside[n].key == key {
          FirstInside(inside, key, n);
          Tell(key, inside[n].depth, active);
          return true;
        }
      }
      return false;
    }

    method Tell(key: RefKey, depth: nat, active: set<nat>)
      requires Valid() && Carries(active) && depth <= |steps|
      requires Inside(inside, key) && depth == EnteredAt(inside, key)
      modifies this
      ensures Valid() && Kept()
      ensures forall i :: 0 <= i < |visitors| ==>
        alone[i] == (if i in active then AloneMeets(visitors[i], old(alone[i]), key, old(At())) else old(alone[i]))
    {
      var here, entered := Path(root, steps), Path(root, steps[..depth]);
      for i := 0 to |visitors|
        invariant Valid() && Kept()
        invariant forall j :: 0 <= j < |visitors| ==>
          alone[j] == (if j < i && j in active then AloneMeets(visitors[j], old(alone[j]), key, old(At())) else old(alone[j]))
      {
        if i in active && visitors[i].hearsCycles {
          Record(i, Cycle(here, entered, key));
        }
      }
    }

    // A slice is guarded against containing itself; an array, a value, cannot.
    method Sequence(v: Value, depth: nat, active: set<nat>)
      requires (v.Array? || v.Slice?) && Valid() && Carries(active) && active != {} && depth <= MAX_WALK_DEPTH
      modifies this
      ensures Valid() && Kept()
      ensures forall i :: 0 <= i < |visitors| ==>
        alone[i] == (if i in active then AloneHeld(heap, visitors[i], old(alone[i]), v, depth, old(At())) else old(alone[i]))
      decreases MAX_WALK_DEPTH + 1 - depth, 1, 1
    {
      var items := if v.Array? then v.items else Items(heap, v.Key());
      if v.bytes || |items| == 0 {
        return;
      }
      if v.Array? {
        ElementsOf(items, depth, active);
        return;
      }
      var closed := ClosesCycle(v.Key(), active);
      if !closed {
        ElementsInside(v.Key(), items, depth, active);
      }
    }

    method ElementsInside(key: RefKey, items: seq<Value>, depth: nat, active: set<nat>)
      requires Valid() && Carries(active) && active != {} && depth <= MAX_WALK_DEPTH && key.kind != PointerRef
      modifies this
      ensures Valid() && Kept()
      ensures forall i :: 0 <= i < |visitors| ==>
        alone[i] == (if i in active then AloneEach(heap, visitors[i], old(alone[i]), Elems(items), |items|, depth, Enter(old(At()), key)) else old(alone[i]))
      decreases MAX_WALK_DEPTH + 1 - depth, 1, 0, 1
    {
      inside := inside + [InsideRef(key, |steps|)];
      ElementsOf(items, depth, active);
      inside := inside[..|inside| - 1];
    }

    method ElementsOf(items: seq<Value>, depth: nat, active: set<nat>)
      requires Valid() && Carries(active) && active != {} && depth <= MAX_WALK_DEPTH
      modifies this
      ensures Valid() && Kept()
      ensures forall i :: 0 <= i < |visitors| ==>
        alone[i] == (if i in active then AloneEach(heap, visitors[i], old(alone[i]), Elems(items), |items|, depth, old(At())) else old(alone[i]))
      decreases MAX_WALK_DEPTH + 1 - depth, 1, 0, 0
    {
      for n := 0 to |items|
        invariant Valid() && Kept() && Carries(active)
        invariant forall i :: 0 <= i < |visitors| ==>
          alone[i] == (if i in active then AloneEach(heap, visitors[i], old(alone[i]), Elems(items), n, depth, old(At())) else old(alone[i]))
      {
        StepInto(Element(n), items[n], depth + 1, active);
      }
    }

    method Mapping(v: Value, depth: nat, active: set<nat>)
      requires v.Map? && Valid() && Carries(active) && active != {} && depth <= MAX_WALK_DEPTH
      modifies this
      ensures Valid() && Kept()
      ensures forall i :: 0 <= i < |visitors| ==>
        alone[i] == (if i in active then AloneHeld(heap, visitors[i], old(alone[i]), v, depth, old(At())) else old(alone[i]))
      decreases MAX_WALK_DEPTH + 1 - depth, 1, 1
    {
      var entries := Entries(heap, v.Key());
      if |entries| == 0 {
        return;
      }
      var closed := ClosesCycle(v.Key(), active);
      if !closed {
        EntriesInside(v.Key(), entries, depth, active);
      }
    }

    method EntriesInside(key: RefKey, entries: seq<Entry>, depth: nat, active: set<nat>)
      requires Valid() && Carries(active) && active != {} && depth <= MAX_WALK_DEPTH && key.kind != PointerRef
      modifies this
      ensures Valid() && Kept()
      ensures forall i :: 0 <= i < |visitors| ==>
        alone[i] == (if i in active then AloneEach(heap, visitors[i], old(alone[i]), Pairs(entries), 2 * |entries|, depth, Enter(old(At()), key)) else old(alone[i]))
      decreases MAX_WALK_DEPTH + 1 - depth, 1, 0, 1
    {
      inside := inside + [InsideRef(key, |steps|)];
      EntriesOf(entries, depth, active);
      inside := inside[..|inside| - 1];
    }

    method EntriesOf(entries: seq<Entry>, depth: nat, active: set<nat>)
      requires Valid() && Carries(active) && active != {} && depth <= MAX_WALK_DEPTH
      modifies this
      ensures Valid() && Kept()
      ensures forall i :: 0 <= i < |visitors| ==>
        alone[i] == (if i in active then AloneEach(heap, visitors[i], old(alone[i]), Pairs(entries), 2 * |entries|, depth, old(At())) else old(alone[i]))
      decreases MAX_WALK_DEPTH + 1 - depth, 1, 0, 0
    {
      hide AloneDescend, Held, Pairs;
      for n := 0 to |entries|
        invariant Valid() && Kept() && Carries(active)
        invariant forall i :: 0 <= i < |visitors| ==>
          alone[i] == (if i in active then AloneEach(heap, visitors[i], old(alone[i]), Pairs(entries), 2 * n, depth, old(At())) else old(alone[i]))
      {
        label entry:
        EntryOf(entries[n], depth, active);
        forall i | i in active {
          PairSteps(heap, visitors[i], old(alone[i]), entries, n, depth, old(At()));
        }
      }
    }

    method EntryOf(e: Entry, depth: nat, active: set<nat>)
      requires Valid() && Carries(active) && active != {} && depth <= MAX_WALK_DEPTH
      modifies this
      ensures Valid() && Kept()
      ensures forall i :: 0 <= i < |visitors| ==>
        alone[i] == (if i in active then AlonePair(heap, visitors[i], old(alone[i]), e, depth, old(At())) else old(alone[i]))
      decreases MAX_WALK_DEPTH + 1 - depth, 0
    {
      StepInto(MapKey(e.name), e.key, depth + 1, active);
      StepInto(MapValue(e.name), e.value, depth + 1, active);
    }
  }

  // A map entry's key, then its value.
  ghost function AlonePair(h: Heap, vis: Visitor, s: Alone, e: Entry, depth: nat, at: Place): Alone
    requires vis.Visitor? && depth <= MAX_WALK_DEPTH
  {
    var keyed := AloneDescend(h, vis, s, e.key, depth + 1, Take(at, MapKey(e.name)));
    AloneDescend(h, vis, keyed, e.value, depth + 1, Take(at, MapValue(e.name)))
  }

  lemma PairSteps(h: Heap, vis: Visitor, s: Alone, entries: seq<Entry>, n: nat, depth: nat, at: Place)
    requires vis.Visitor? && depth <= MAX_WALK_DEPTH && n < |entries|
    ensures AloneEach(h, vis, s, Pairs(entries), 2 * n + 2, depth, at)
      == AlonePair(h, vis, AloneEach(h, vis, s, Pairs(entries), 2 * n, depth, at), entries[n], depth, at)
  {
    var held := Pairs(entries);
    assert AloneEach(h, vis, s, held, 2 * n + 1, depth, at)
      == AloneDescend(h, vis, AloneEach(h, vis, s, held, 2 * n, depth, at), held[2 * n].1, depth + 1, Take(at, held[2 * n].0));
  }

  lemma {:induction false} FirstInside(inside: seq<InsideRef>, key: RefKey, n: nat)
    requires n < |inside| && inside[n].key == key
    requires forall m :: 0 <= m < n ==> inside[m].key != key
    ensures Inside(inside, key) && EnteredAt(inside, key) == inside[n].depth
  {
    assert inside[n] in inside;
    if n > 0 {
      FirstInside(inside[1..], key, n - 1);
    }
  }

  method WalkGroup(heap: Heap, root: Value, path: string, visitors: seq<Visitor>)
      returns (truncated: bool, logs: seq<seq<Event>>)
    ensures |logs| == |visitors|
    ensures forall i :: 0 <= i < |visitors| ==> logs[i] == WalkAlone(heap, root, path, visitors[i]).log
    ensures truncated <==> exists i :: 0 <= i < |visitors| && WalkAlone(heap, root, path, visitors[i]).cut
  {
    var w := new ValueWalk(heap, path, visitors);
    var all := set i | 0 <= i < |visitors| && visitors[i].Visitor?;
    w.Walk(root, 0, all);
    assert forall i :: 0 <= i < |visitors| ==> w.alone[i] == WalkAlone(heap, root, path, visitors[i]);
    return w.truncated, w.logs;
  }

  /** Walks root for any number of visitors, a traversal per 64 of them.  Each is
      called as it would be alone, and the walk reports the cap cutting it short
      just when it would cut one of those walks. */
  method WalkValues(heap: Heap, root: Value, path: string, visitors: seq<Visitor>)
      returns (truncated: bool, logs: seq<seq<Event>>)
    ensures |logs| == |visitors|
    ensures forall i :: 0 <= i < |visitors| ==> logs[i] == WalkAlone(heap, root, path, visitors[i]).log
    ensures truncated <==> exists i :: 0 <= i < |visitors| && WalkAlone(heap, root, path, visitors[i]).cut
  {
    hide WalkAlone;
    truncated, logs := false, [];
    var from := 0;
    while from < |visitors|
      invariant 0 <= from <= |visitors| && |logs| == from
      invariant forall i :: 0 <= i < from ==> logs[i] == WalkAlone(heap, root, path, visitors[i]).log
      invariant truncated <==> exists i :: 0 <= i < from && WalkAlone(heap, root, path, visitors[i]).cut
    {
      var upto := if from + MAX_SHARED_VISITORS < |visitors| then from + MAX_SHARED_VISITORS else |visitors|;
      var group := visitors[from..upto];
      var cut, called := WalkGroup(heap, root, path, group);
      assert forall i :: from <= i < upto ==> visitors[i] == group[i - from];
      assert forall i :: 0 <= i < |group| ==> group[i] == visitors[from + i];
      logs := logs + called;
      truncated := truncated || cut;
      from := upto;
    }
  }
}
