/** The deep copy of a node: it shares no reference with what it copies, and keeps
    its sharing and its cycles. */
module Clone {
  import opened Values
  import Walk

  // ----- a copy, by its references -----

  // A nil pointer, slice or map leads nowhere.
  predicate IsNil(v: Value) {
    v.IsReference() && v.Key().ptr == 0
  }

  // The kinds of value that are filled rather than assigned.
  predicate HoldsReference(v: Value) {
    v.Pointer? || v.Struct? || v.Slice? || v.Map?
  }

  function Repointed(v: Value, ptr: nat): Value
    requires v.IsReference()
  {
    match v
    case Pointer(t, _) => Pointer(t, ptr)
    case Slice(t, b, _, n) => Slice(t, b, ptr, n)
    case Map(t, _) => Map(t, ptr)
  }

  /** v with each reference in it the one copies made of it.  Interfaces and arrays
      stay as they are: a copy follows none. */
  function Rename(copies: map<RefKey, nat>, v: Value): Value {
    match v
    case Struct(t, fields) => Struct(t, RenameAll(copies, fields))
    case _ => if v.IsReference() && !IsNil(v) && v.Key() in copies then Repointed(v, copies[v.Key()]) else v
  }

  function RenameAll(copies: map<RefKey, nat>, vs: seq<Value>): (r: seq<Value>)
    ensures |r| == |vs| && forall i :: 0 <= i < |vs| ==> r[i] == Rename(copies, vs[i])
  {
    if vs == [] then [] else [Rename(copies, vs[0])] + RenameAll(copies, vs[1..])
  }

  /** Each reference in v has a copy. */
  predicate Known(copies: map<RefKey, nat>, v: Value) {
    match v
    case Struct(_, fields) => forall f :: f in fields ==> Known(copies, f)
    case _ => v.IsReference() && !IsNil(v) ==> v.Key() in copies
  }

  predicate AllKnown(copies: map<RefKey, nat>, vs: seq<Value>) {
    forall i :: 0 <= i < |vs| ==> Known(copies, vs[i])
  }

  function NewKey(copies: map<RefKey, nat>, key: RefKey): RefKey
    requires key in copies
  {
    key.(ptr := copies[key])
  }

  // The values a reference leads to.
  function Content(h: Heap, key: RefKey): seq<Value> {
    match key.kind
    case PointerRef => [Target(h, key)]
    case SliceRef(_) => Items(h, key)
    case MapRef => var es := Entries(h, key); seq(|es|, i requires 0 <= i < |es| => es[i].value)
  }

  function Rebuilt(es: seq<Entry>, vs: seq<Value>): seq<Entry>
    requires |vs| == |es|
  {
    seq(|es|, i requires 0 <= i < |es| => es[i].(value := vs[i]))
  }

  // What the copy of a reference leads to, with those values renamed.
  function CopyOf(h: Heap, key: RefKey, vs: seq<Value>): Object
    requires |vs| == |Content(h, key)|
  {
    match key.kind
    case PointerRef => Cell(vs[0])
    case SliceRef(_) => Elements(vs)
    case MapRef => Table(Rebuilt(Entries(h, key), vs))
  }

  /** The copy of key stands finished in heap. */
  ghost predicate CopiedAt(h: Heap, heap: Heap, copies: map<RefKey, nat>, key: RefKey) {
    && key in copies && AllKnown(copies, Content(h, key))
    && NewKey(copies, key) in heap
    && heap[NewKey(copies, key)] == CopyOf(h, key, RenameAll(copies, Content(h, key)))
  }

  ghost predicate Grows<K, V>(a: map<K, V>, b: map<K, V>) {
    forall k :: k in a ==> k in b && b[k] == a[k]
  }

  // ----- what copying more keeps -----

  lemma {:induction false} RenameStays(a: map<RefKey, nat>, b: map<RefKey, nat>, v: Value)
    requires Grows(a, b) && Known(a, v)
    ensures Known(b, v) && Rename(b, v) == Rename(a, v)
  {
    if v.Struct? {
      RenameAllStays(a, b, v.fields);
      forall f | f in v.fields ensures Known(b, f) {
        RenameStays(a, b, f);
      }
    }
  }

  lemma {:induction false} RenameAllStays(a: map<RefKey, nat>, b: map<RefKey, nat>, vs: seq<Value>)
    requires Grows(a, b) && forall v :: v in vs ==> Known(a, v)
    ensures RenameAll(b, vs) == RenameAll(a, vs) && AllKnown(b, vs)
  {
    forall i | 0 <= i < |vs| ensures Known(b, vs[i]) && RenameAll(b, vs)[i] == RenameAll(a, vs)[i] {
      assert vs[i] in vs;
      RenameStays(a, b, vs[i]);
    }
  }

  lemma GrowsHas<K, V>(a: map<K, V>, b: map<K, V>, k: K)
    requires Grows(a, b) && k in a
    ensures k in b && b[k] == a[k]
  {}

  lemma GrowsSelf<K, V>(a: map<K, V>)
    ensures Grows(a, a)
  {}

  lemma GrowsThen<K, V>(a: map<K, V>, b: map<K, V>, c: map<K, V>)
    requires Grows(a, b) && Grows(b, c)
    ensures Grows(a, c)
  {}

  lemma GrownHeap<K, V>(a: map<K, V>, b: map<K, V>)
    requires Grows(a, b)
    ensures forall k :: k in a ==> k in b
  {}

  lemma GrowsPast<K, V>(a: map<K, V>, b: map<K, V>, k: K, v: V)
    requires Grows(a, b) && k !in a
    ensures Grows(a, b[k := v])
  {}

  lemma AssignedAsItIs(copies: map<RefKey, nat>, v: Value)
    requires !HoldsReference(v)
    ensures Known(copies, v) && Rename(copies, v) == v
  {}

  lemma CopyStays(h: Heap, heap: Heap, later: Heap, a: map<RefKey, nat>, b: map<RefKey, nat>, key: RefKey)
    requires CopiedAt(h, heap, a, key) && Grows(a, b)
    requires NewKey(a, key) in later && later[NewKey(a, key)] == heap[NewKey(a, key)]
    ensures CopiedAt(h, later, b, key)
  {
    forall v | v in Content(h, key) ensures Known(a, v) {
      var i :| 0 <= i < |Content(h, key)| && Content(h, key)[i] == v;
    }
    RenameAllStays(a, b, Content(h, key));
  }

  /** Copying more leaves what was copied as it was. */
  lemma EachStays(h: Heap, was: Heap, now: Heap, met: map<RefKey, nat>, copies: map<RefKey, nat>,
      since: map<RefKey, nat>, vs: seq<Value>, out: seq<Value>)
    requires Grows(met, copies) && Grows(was, now) && |out| <= |vs|
    requires forall j :: 0 <= j < |out| ==> Known(met, vs[j]) && out[j] == Rename(met, vs[j])
    requires forall k :: k in met && k !in since ==> CopiedAt(h, was, met, k)
    ensures forall j :: 0 <= j < |out| ==> Known(copies, vs[j]) && out[j] == Rename(copies, vs[j])
    ensures forall k :: k in met && k !in since ==> CopiedAt(h, now, copies, k)
  {
    hide Known, Rename;
    forall j | 0 <= j < |out| ensures Known(copies, vs[j]) && out[j] == Rename(copies, vs[j]) {
      RenameStays(met, copies, vs[j]);
    }
    forall k | k in met && k !in since ensures CopiedAt(h, now, copies, k) {
      CopyStays(h, was, now, met, copies, k);
    }
  }

  /** Filling in the last copy leaves every copy finished. */
  lemma FillLast(h: Heap, heap: Heap, since: map<RefKey, nat>, copies: map<RefKey, nat>, key: RefKey)
    requires key in copies && AllKnown(copies, Content(h, key))
    requires forall j, k :: j in copies && k in copies && j != k ==> copies[j] != copies[k]
    requires forall k :: k in copies && k !in since && k != key ==> CopiedAt(h, heap, copies, k)
    ensures var filled := heap[NewKey(copies, key) := CopyOf(h, key, RenameAll(copies, Content(h, key)))];
      forall k :: k in copies && k !in since ==> CopiedAt(h, filled, copies, k)
  {
    hide CopyOf, RenameAll, AllKnown;
    var filled := heap[NewKey(copies, key) := CopyOf(h, key, RenameAll(copies, Content(h, key)))];
    forall k | k in copies && k !in since && k != key ensures CopiedAt(h, filled, copies, k) {
      assert NewKey(copies, k).ptr != NewKey(copies, key).ptr;
    }
  }

  // ----- paths through a value graph -----

  /** One step down.  A map's is by an entry's place, its rendered key and its key, and
      a copy follows none of the last two. */
  datatype Hop = FieldAt(i: nat) | Deref | ItemAt(i: nat) | ValueAt(i: nat, name: string, key: Value) | Inside | PlaceAt(i: nat)

  /** What one hop leads to, if it can be taken. */
  function Take(h: Heap, v: Value, hop: Hop): Option<Value> {
    match hop
    case FieldAt(i) => if v.Struct? && i < |v.fields| then Some(v.fields[i]) else None
    case Deref => if v.Pointer? && !IsNil(v) then Some(Target(h, v.Key())) else None
    case ItemAt(i) => if v.Slice? && !IsNil(v) && i < |Items(h, v.Key())| then Some(Items(h, v.Key())[i]) else None
    case ValueAt(i, name, key) =>
      if v.Map? && !IsNil(v) && i < |Entries(h, v.Key())| && IsAt(Entries(h, v.Key())[i], name, key)
      then Some(Entries(h, v.Key())[i].value) else None
    case Inside => if v.Iface? then v.dynamic else None
    case PlaceAt(i) => if v.Array? && i < |v.items| then Some(v.items[i]) else None
  }

  predicate IsAt(e: Entry, name: string, key: Value) {
    e.name == name && e.key == key
  }

  // A copy follows no interface and no array: it shares what they hold.
  predicate IsShared(hop: Hop) {
    hop.Inside? || hop.PlaceAt?
  }

  predicate Plain(path: seq<Hop>) {
    forall i :: 0 <= i < |path| ==> !IsShared(path[i])
  }

  function At(h: Heap, v: Value, path: seq<Hop>): Option<Value>
    decreases |path|
  {
    if path == [] then Some(v)
    else match Take(h, v, path[0]) case None => None case Some(w) => At(h, w, path[1..])
  }

  lemma {:induction false} AtThen(h: Heap, v: Value, path: seq<Hop>, hop: Hop)
    requires At(h, v, path).Some?
    ensures At(h, v, path + [hop]) == Take(h, At(h, v, path).value, hop)
    decreases |path|
  {
    if path == [] {
      assert [hop][1..] == [];
      assert path + [hop] == [hop];
    } else {
      assert (path + [hop])[1..] == path[1..] + [hop];
      AtThen(h, Take(h, v, path[0]).value, path[1..], hop);
    }
  }

  /** The references path goes through, from v on. */
  function Through(h: Heap, v: Value, path: seq<Hop>): seq<RefKey>
    decreases |path|
  {
    if path == [] then []
    else
      (if v.IsReference() && !IsNil(v) then [v.Key()] else [])
      + match Take(h, v, path[0]) case None => [] case Some(w) => Through(h, w, path[1..])
  }

  lemma {:induction false} ThroughThen(h: Heap, v: Value, path: seq<Hop>, hop: Hop)
    requires At(h, v, path).Some?
    ensures var w := At(h, v, path).value;
      Through(h, v, path + [hop]) == Through(h, v, path) + if w.IsReference() && !IsNil(w) then [w.Key()] else []
    decreases |path|
  {
    if path == [] {
      assert path + [hop] == [hop] && [hop][1..] == [];
    } else {
      assert (path + [hop])[1..] == path[1..] + [hop];
      ThroughThen(h, Take(h, v, path[0]).value, path[1..], hop);
    }
  }

  predicate Apart(keys: seq<RefKey>) {
    forall i, j :: 0 <= i < j < |keys| ==> keys[i] != keys[j]
  }

  /** path is one a copy could follow from root: it enters no reference twice, no
      interface and no array, and a field or an element only where it can hold a
      reference. */
  ghost predicate Followed(h: Heap, root: Value, path: seq<Hop>) {
    && Plain(path) && Apart(Through(h, root, path)) && At(h, root, path).Some?
    && (path != [] && (path[|path| - 1].FieldAt? || path[|path| - 1].ItemAt?) ==> HoldsReference(At(h, root, path).value))
  }

  // A copy is on its way along path, each reference on it met.
  ghost predicate OnItsWay(h: Heap, root: Value, path: seq<Hop>, copies: map<RefKey, nat>) {
    && Plain(path) && Apart(Through(h, root, path)) && At(h, root, path).Some?
    && forall k :: k in Through(h, root, path) ==> k in copies
  }

  lemma StillOnItsWay(h: Heap, root: Value, path: seq<Hop>, a: map<RefKey, nat>, b: map<RefKey, nat>)
    requires OnItsWay(h, root, path, a) && Grows(a, b)
    ensures OnItsWay(h, root, path, b)
  {}

  // A field is in no new reference.
  lemma OnToField(h: Heap, root: Value, path: seq<Hop>, copies: map<RefKey, nat>, i: nat)
    requires OnItsWay(h, root, path, copies) && At(h, root, path).value.Struct? && i < |At(h, root, path).value.fields|
    ensures OnItsWay(h, root, path + [FieldAt(i)], copies)
  {
    AtThen(h, root, path, FieldAt(i));
    ThroughThen(h, root, path, FieldAt(i));
  }

  // What a reference first met leads to is past it and no reference twice.
  lemma OnThrough(h: Heap, root: Value, path: seq<Hop>, was: map<RefKey, nat>, copies: map<RefKey, nat>, hop: Hop)
    requires OnItsWay(h, root, path, was) && Grows(was, copies) && !IsShared(hop)
    requires var v := At(h, root, path).value;
      v.IsReference() && !IsNil(v) && v.Key() !in was && v.Key() in copies && Take(h, v, hop).Some?
    ensures OnItsWay(h, root, path + [hop], copies)
  {
    AtThen(h, root, path, hop);
    ThroughThen(h, root, path, hop);
  }

  /** Some path a copy could follow goes deeper than a walk does. */
  ghost predicate NestsPastCap(h: Heap, root: Value) {
    exists path: seq<Hop> :: |path| > Walk.MAX_WALK_DEPTH && Followed(h, root, path)
  }

  /** Every reference in v has an address below base. */
  predicate Below(base: nat, v: Value) {
    match v
    case Struct(_, fields) => forall f :: f in fields ==> Below(base, f)
    case Array(_, _, items) => forall e :: e in items ==> Below(base, e)
    case Iface(Some(d)) => Below(base, d)
    case _ => v.IsReference() ==> v.Key().ptr < base
  }

  ghost predicate HeapBelow(base: nat, h: Heap) {
    && 0 < base
    && (forall k :: k in h ==> k.ptr < base)
    && (forall k, i :: k in h && 0 <= i < |Content(h, k)| ==> Below(base, Content(h, k)[i]))
  }

  lemma ContentBelow(base: nat, h: Heap, key: RefKey, i: nat)
    requires HeapBelow(base, h) && i < |Content(h, key)|
    ensures Below(base, Content(h, key)[i])
  {}

  // The hop from a reference to the i-th of its values.
  function HopTo(h: Heap, key: RefKey, i: nat): (hop: Hop)
    ensures !IsShared(hop)
  {
    match key.kind
    case PointerRef => Deref
    case SliceRef(_) => ItemAt(i)
    case MapRef =>
      if i < |Entries(h, key)| then ValueAt(i, Entries(h, key)[i].name, Entries(h, key)[i].key) else ValueAt(i, "", Invalid)
  }

  lemma StepIsFollowed(h: Heap, root: Value, path: seq<Hop>, copies: map<RefKey, nat>)
    requires path != [] && OnItsWay(h, root, path, copies)
    requires var hop := path[|path| - 1]; hop.Deref? || hop.ValueAt? || HoldsReference(At(h, root, path).value)
    ensures Followed(h, root, path)
  {}

  /** A path no longer than a walk follows leads to key. */
  ghost predicate Near(h: Heap, root: Value, key: RefKey) {
    exists path :: |path| <= Walk.MAX_WALK_DEPTH && LeadsTo(h, root, path, key)
  }

  lemma IsNear(h: Heap, root: Value, path: seq<Hop>, key: RefKey)
    requires |path| <= Walk.MAX_WALK_DEPTH && At(h, root, path).Some?
    requires var v := At(h, root, path).value; v.IsReference() && !IsNil(v) && v.Key() == key
    ensures Near(h, root, key)
  {
    assert LeadsTo(h, root, path, key);
  }

  ghost predicate LeadsTo(h: Heap, v: Value, path: seq<Hop>, key: RefKey) {
    match At(h, v, path)
    case None => false
    case Some(a) => a.IsReference() && !IsNil(a) && a.Key() == key
  }

  // ----- what a copy meets -----

  /** The references a copy has met, and whether the cap cut it. */
  datatype Met = Met(keys: set<RefKey>, cut: bool)

  /** What filling v, depth steps from the root, adds: each reference is entered where it
      is first met, fields and elements only where they can hold one, and anything past
      the cap cuts the copy. */
  function Filled(h: Heap, v: Value, depth: nat, m: Met): Met
    requires depth <= Walk.MAX_WALK_DEPTH + 1
    decreases Walk.MAX_WALK_DEPTH + 1 - depth, 2, 0
  {
    if depth > Walk.MAX_WALK_DEPTH then m.(cut := true)
    else if v.Struct? then EachFilled(h, v.fields, |v.fields|, depth, false, m)
    else if v.IsReference() && !IsNil(v) && v.Key() !in m.keys then
      EachFilled(h, Content(h, v.Key()), |Content(h, v.Key())|, depth, !v.Slice?, m.(keys := m.keys + {v.Key()}))
    else m
  }

  // The first n of vs filled in order, a step deeper.
  function EachFilled(h: Heap, vs: seq<Value>, n: nat, depth: nat, all: bool, m: Met): Met
    requires n <= |vs| && depth <= Walk.MAX_WALK_DEPTH
    decreases Walk.MAX_WALK_DEPTH + 1 - depth, 1, n
  {
    if n == 0 then m
    else
      var before := EachFilled(h, vs, n - 1, depth, all, m);
      if all || HoldsReference(vs[n - 1]) then Filled(h, vs[n - 1], depth + 1, before) else before
  }

  /** The cap cuts a copy of root. */
  predicate IsCut(h: Heap, root: Value) {
    Filled(h, root, 0, Met({}, false)).cut
  }

  // ----- copying -----

  /** One deep copy into heap, whose addresses from base on are the copy's.  `source` and
      `root` keep what was copied for the proof. */
  class Cloner {
    ghost const source: Heap
    ghost const base: nat
    ghost const root: Value
    var heap: Heap
    var next: nat
    var copies: map<RefKey, nat>
    var truncated: bool

    ghost predicate Valid()
      reads this
    {
      && HeapBelow(base, source) && base <= next
      && Grows(source, heap)
      && (forall k :: k in heap ==> k.ptr < next && (k.ptr < base ==> k in source))
      && (forall k :: k in copies ==> k.ptr < base && base <= copies[k] < next)
      && (forall j, k :: j in copies && k in copies && j != k ==> copies[j] != copies[k])
      && (forall k :: k in copies ==> Near(source, root, k))
      && (truncated ==> NestsPastCap(source, root))
    }

    constructor (heap: Heap, base: nat, ghost root: Value)
      requires HeapBelow(base, heap)
      ensures Valid() && this.heap == heap && source == heap && this.base == base && this.root == root
      ensures copies == map[] && !truncated
    {
      this.heap, this.source, this.base, this.next, this.root := heap, heap, base, base, root;
      copies, truncated := map[], false;
    }

    ghost function Now(): Met
      reads this`copies, this`truncated
    {
      Met(copies.Keys, truncated)
    }

    /** Copying went on: it only added, and only at addresses of its own. */
    twostate predicate Went()
      reads this
    {
      && Grows(old(copies), copies) && Grows(old(heap), heap)
      && (forall k :: k in heap && k !in old(heap) ==> k.ptr >= old(next))
      && old(next) <= next && (old(truncated) ==> truncated)
    }

    /** Each reference met since has its copy finished. */
    twostate predicate Finished()
      reads this
    {
      forall k :: k in copies && k !in old(copies) ==> CopiedAt(source, heap, copies, k)
    }

    /** The copy of v, which sits at path, depth steps from the root. */
    method Fill(v: Value, depth: nat, ghost path: seq<Hop>) returns (out: Value)
      requires Valid() && Below(base, v) && |path| == depth <= Walk.MAX_WALK_DEPTH + 1
      requires At(source, root, path) == Some(v) && Followed(source, root, path) && OnItsWay(source, root, path, copies)
      modifies this
      ensures Valid() && Went()
      ensures !truncated ==> Known(copies, v) && out == Rename(copies, v) && Finished()
      ensures Now() == Filled(source, v, depth, old(Now()))
      decreases Walk.MAX_WALK_DEPTH + 1 - depth, 2
    {
      if depth > Walk.MAX_WALK_DEPTH {
        truncated := true;
        return Invalid;
      }
      match v
      case Struct(typ, fields) =>
        forall i | 0 <= i < |fields|
          ensures At(source, root, path + [FieldAt(i)]) == Some(fields[i])
          ensures OnItsWay(source, root, path + [FieldAt(i)], copies)
        {
          AtThen(source, root, path, FieldAt(i));
          OnToField(source, root, path, copies, i);
        }
        var copied := Each(fields, depth, false, path, seq(|fields|, i requires 0 <= i => FieldAt(i)));
        out := Struct(typ, copied);
      case Pointer(_, _) => out := Reference(v, depth, path);
      case Slice(_, _, _, _) => out := Reference(v, depth, path);
      case Map(_, _) => out := Reference(v, depth, path);
      case _ => out := v;
    }

    /** Allocates the copy of key, empty yet, and records it. */
    method Make(key: RefKey) returns (made: RefKey)
      requires Valid() && key.ptr < base && key !in copies && Near(source, root, key)
      modifies this
      ensures Valid() && Went() && truncated == old(truncated)
      ensures copies == old(copies)[key := old(next)] && made == NewKey(copies, key)
      ensures made !in old(heap) && made in heap && base <= made.ptr < next == old(next) + 1
      ensures Went()
    {
      made := key.(ptr := next);
      copies := copies[key := next];
      heap := heap[made := CopyOf(heap, key, seq(|Content(heap, key)|, i => Invalid))];
      next := next + 1;
    }

    // Fills in an object the copy made.
    method Put(made: RefKey, o: Object)
      requires Valid() && base <= made.ptr < next && made in heap
      modifies this`heap
      ensures Valid() && heap == old(heap)[made := o]
    {
      heap := heap[made := o];
    }

    lemma CopiesApart()
      requires Valid()
      ensures forall j, k :: j in copies && k in copies && j != k ==> copies[j] != copies[k]
    {}

    /** What key leads to is as it was, one hop past path. */
    lemma ReadsSource(v: Value, path: seq<Hop>)
      requires Valid() && v.IsReference() && !IsNil(v) && v.Key().ptr < base && At(source, root, path) == Some(v)
      ensures Content(heap, v.Key()) == Content(source, v.Key())
      ensures forall vs :: |vs| == |Content(heap, v.Key())| ==> CopyOf(heap, v.Key(), vs) == CopyOf(source, v.Key(), vs)
      ensures forall i: nat :: i < |Content(heap, v.Key())| ==>
        && Take(source, v, HopTo(source, v.Key(), i)) == Some(Content(heap, v.Key())[i])
        && At(source, root, path + [HopTo(source, v.Key(), i)]) == Some(Content(heap, v.Key())[i])
        && Below(base, Content(heap, v.Key())[i])
    {
      forall i: nat | i < |Content(heap, v.Key())|
        ensures Take(source, v, HopTo(source, v.Key(), i)) == Some(Content(heap, v.Key())[i])
        ensures At(source, root, path + [HopTo(source, v.Key(), i)]) == Some(Content(heap, v.Key())[i])
        ensures Below(base, Content(heap, v.Key())[i])
      {
        AtThen(source, root, path, HopTo(source, v.Key(), i));
        ContentBelow(base, source, v.Key(), i);
      }
    }

    // The hops to what v leads to, on the way where v is met first.
    lemma Onward(v: Value, path: seq<Hop>, was: map<RefKey, nat>) returns (hops: seq<Hop>)
      requires Valid() && v.IsReference() && !IsNil(v) && v.Key().ptr < base && At(source, root, path) == Some(v)
      requires OnItsWay(source, root, path, was) && Grows(was, copies) && v.Key() !in was && v.Key() in copies
      ensures |hops| == |Content(heap, v.Key())|
      ensures forall i :: 0 <= i < |hops| ==> OnItsWay(source, root, path + [hops[i]], copies)
      ensures forall i :: 0 <= i < |hops| ==> At(source, root, path + [hops[i]]) == Some(Content(heap, v.Key())[i])
      ensures forall i :: 0 <= i < |hops| ==> v.Slice? || hops[i].Deref? || hops[i].ValueAt?
    {
      hide OnItsWay, At, Content, Take;
      ReadsSource(v, path);
      hops := seq(|Content(heap, v.Key())|, i requires 0 <= i => HopTo(source, v.Key(), i));
      forall i | 0 <= i < |hops| ensures OnItsWay(source, root, path + [hops[i]], copies) {
        OnThrough(source, root, path, was, copies, hops[i]);
      }
    }

    /** The copy of a reference, made where it is first met. */
    method Reference(v: Value, depth: nat, ghost path: seq<Hop>) returns (out: Value)
      requires Valid() && v.IsReference() && Below(base, v) && |path| == depth <= Walk.MAX_WALK_DEPTH
      requires At(source, root, path) == Some(v) && OnItsWay(source, root, path, copies)
      modifies this
      ensures Valid() && Went()
      ensures !truncated ==> Known(copies, v) && out == Rename(copies, v) && Finished()
      ensures Now() == Filled(source, v, depth, old(Now()))
      decreases Walk.MAX_WALK_DEPTH + 1 - depth, 1
    {
      if IsNil(v) {
        out := v;
      } else if v.Key() in copies {
        out := Repointed(v, copies[v.Key()]);
      } else {
        out := Repointed(v, next);
        CopyReference(v, depth, path);
      }
    }

    /** Copies what v leads to, into an object recorded as v's copy before any of it is
        filled: met again on the way down, v is renamed and not entered. */
    method CopyReference(v: Value, depth: nat, ghost path: seq<Hop>)
      requires Valid() && v.IsReference() && !IsNil(v) && v.Key().ptr < base && v.Key() !in copies
      requires At(source, root, path) == Some(v) && |path| == depth <= Walk.MAX_WALK_DEPTH
      requires OnItsWay(source, root, path, copies)
      modifies this
      ensures Valid() && Went() && v.Key() in copies && copies[v.Key()] == old(next)
      ensures !truncated ==> Finished()
      ensures Now() == Filled(source, v, depth, old(Now()))
      decreases Walk.MAX_WALK_DEPTH + 1 - depth, 1, 0
    {
      hide EachFilled, CopiedAt, At, NestsPastCap, Take, RenameAll, Content, HopTo, HeapBelow, Entries, AllKnown, Grows, Below, IsNil, CopyOf,
        Valid, OnItsWay, Near;
      var key := v.Key();
      IsNear(source, root, path, key);
      var made := Make(key);
      assert Now() == old(Now()).(keys := old(Now()).keys + {key});
      ghost var emptied, met := heap, copies;
      ReadsSource(v, path);
      var values := Content(heap, key);
      ghost var hops := Onward(v, path, old(copies));
      var copied := Each(values, depth, !key.kind.SliceRef?, path, hops);
      ReadsSource(v, path);
      ghost var before := heap;
      GrowsHas(emptied, heap, made);
      GrowsHas(met, copies, key);
      assert Went() by {
        GrowsThen(old(heap), emptied, heap);
        GrowsThen(old(copies), met, copies);
      }
      Put(made, CopyOf(heap, key, copied));
      GrowsPast(old(heap), before, made, heap[made]);
      if !truncated {
        CopiesApart();
        FillLast(source, before, old(copies), copies, key);
      }
    }

    // The copy of one value a step deeper, filled where it must be.
    method Held(v: Value, depth: nat, all: bool, ghost path: seq<Hop>, ghost hop: Hop) returns (out: Value)
      requires Valid() && Below(base, v) && |path| == depth <= Walk.MAX_WALK_DEPTH
      requires At(source, root, path + [hop]) == Some(v) && OnItsWay(source, root, path + [hop], copies)
      requires all ==> hop.Deref? || hop.ValueAt?
      modifies this
      ensures Valid() && Went()
      ensures !truncated ==> Known(copies, v) && out == Rename(copies, v) && Finished()
      ensures Now() == if all || HoldsReference(v) then Filled(source, v, depth + 1, old(Now())) else old(Now())
      decreases Walk.MAX_WALK_DEPTH + 1 - depth, 0, 0
    {
      hide Filled, EachFilled, Known, Rename, CopiedAt, At, NestsPastCap, HeapBelow, Below, OnItsWay, Followed, Near, HoldsReference;
      out := v;
      if all || HoldsReference(v) {
        StepIsFollowed(source, root, path + [hop], copies);
        out := Fill(v, depth + 1, path + [hop]);
      } else {
        AssignedAsItIs(copies, v);
      }
    }

    /** The copies of vs in order, each one step deeper.  Unless all are filled, a
        value that holds no reference is assigned as it is. */
    method Each(vs: seq<Value>, depth: nat, all: bool, ghost path: seq<Hop>, ghost hops: seq<Hop>)
        returns (out: seq<Value>)
      requires Valid() && |path| == depth <= Walk.MAX_WALK_DEPTH && |hops| == |vs|
      requires forall i :: 0 <= i < |vs| ==> Below(base, vs[i])
      requires forall i :: 0 <= i < |vs| ==> At(source, root, path + [hops[i]]) == Some(vs[i])
      requires forall i :: 0 <= i < |vs| ==> OnItsWay(source, root, path + [hops[i]], copies)
      requires all ==> forall i :: 0 <= i < |vs| ==> hops[i].Deref? || hops[i].ValueAt?
      modifies this
      ensures Valid() && Went() && |out| == |vs|
      ensures !truncated ==> AllKnown(copies, vs) && out == RenameAll(copies, vs) && Finished()
      ensures Now() == EachFilled(source, vs, |vs|, depth, all, old(Now()))
      decreases Walk.MAX_WALK_DEPTH + 1 - depth, 0, 1
    {
      hide Filled, Known, Rename, CopiedAt, Content, At, NestsPastCap, HeapBelow, RenameAll, HoldsReference, Below, OnItsWay, Followed,
        Near, Valid, Grows;
      out := [];
      GrowsSelf(copies);
      GrowsSelf(heap);
      for i := 0 to |vs|
        invariant Valid() && Went() && |out| == i
        invariant Now() == EachFilled(source, vs, i, depth, all, old(Now()))
        invariant !truncated ==> Finished()
        invariant !truncated ==> forall j :: 0 <= j < i ==> Known(copies, vs[j]) && out[j] == Rename(copies, vs[j])
      {
        ghost var met, made := copies, heap;
        StillOnItsWay(source, root, path + [hops[i]], old(copies), copies);
        var copied := Held(vs[i], depth, all, path, hops[i]);
        GrowsThen(old(copies), met, copies);
        GrowsThen(old(heap), made, heap);
        GrownHeap(made, heap);
        if !truncated {
          EachStays(source, made, heap, met, copies, old(copies), vs, out);
        }
        out := out + [copied];
      }
    }
  }

  // ----- what a finished copy is -----

  /** Every copy is finished, and stands at an address of its own, past the source's. */
  ghost predicate Complete(source: Heap, heap: Heap, copies: map<RefKey, nat>, base: nat) {
    && 0 < base
    && (forall k :: k in copies ==> CopiedAt(source, heap, copies, k) && base <= copies[k])
    && (forall j, k :: j in copies && k in copies && j != k ==> copies[j] != copies[k])
  }

  function Renamed(copies: map<RefKey, nat>, v: Option<Value>): Option<Value> {
    match v case None => None case Some(w) => Some(Rename(copies, w))
  }

  lemma {:induction false} TakeMirrors(source: Heap, heap: Heap, copies: map<RefKey, nat>, base: nat, v: Value, hop: Hop)
    requires Complete(source, heap, copies, base) && Known(copies, v) && !IsShared(hop)
    ensures Take(heap, Rename(copies, v), hop) == Renamed(copies, Take(source, v, hop))
    ensures Take(source, v, hop).Some? ==> Known(copies, Take(source, v, hop).value)
  {
    if v.IsReference() && !IsNil(v) {
      assert CopiedAt(source, heap, copies, v.Key());
      assert Rename(copies, v).Key() == NewKey(copies, v.Key());
      if hop.ValueAt? && v.Map? && hop.i < |Entries(source, v.Key())| {
        assert Content(source, v.Key())[hop.i] == Entries(source, v.Key())[hop.i].value;
      } else if v.Pointer? {
        assert Content(source, v.Key())[0] == Target(source, v.Key());
      }
    }
  }

  /** A plain path leads through the copy exactly where it led through the source, to
      the copy of what it led to. */
  lemma {:induction false} PathMirrors(source: Heap, heap: Heap, copies: map<RefKey, nat>, base: nat, v: Value,
      path: seq<Hop>)
    requires Complete(source, heap, copies, base) && Known(copies, v) && Plain(path)
    ensures At(heap, Rename(copies, v), path) == Renamed(copies, At(source, v, path))
    ensures At(source, v, path).Some? ==> Known(copies, At(source, v, path).value)
    decreases |path|
  {
    if path != [] {
      TakeMirrors(source, heap, copies, base, v, path[0]);
      if Take(source, v, path[0]).Some? {
        PathMirrors(source, heap, copies, base, Take(source, v, path[0]).value, path[1..]);
      }
    }
  }

  // heap holds source, and nothing else below base.
  ghost predicate Extends(source: Heap, heap: Heap, base: nat) {
    && HeapBelow(base, source) && Grows(source, heap)
    && forall k :: k in heap && k.ptr < base ==> k in source
  }

  // From a value of the source each path leads where it did.
  lemma {:induction false} PathStays(source: Heap, heap: Heap, base: nat, v: Value, path: seq<Hop>)
    requires Extends(source, heap, base) && Below(base, v)
    ensures At(heap, v, path) == At(source, v, path)
    decreases |path|
  {
    if path != [] {
      TakeStays(source, heap, base, v, path[0]);
      if Take(source, v, path[0]).Some? {
        PathStays(source, heap, base, Take(source, v, path[0]).value, path[1..]);
      }
    }
  }

  lemma TakeStays(source: Heap, heap: Heap, base: nat, v: Value, hop: Hop)
    requires Extends(source, heap, base) && Below(base, v)
    ensures Take(heap, v, hop) == Take(source, v, hop)
    ensures Take(source, v, hop).Some? ==> Below(base, Take(source, v, hop).value)
  {
    if v.IsReference() && !IsNil(v) && Take(source, v, hop).Some? {
      var i := if hop.Deref? then 0 else hop.i;
      ContentBelow(base, source, v.Key(), i);
    }
  }

  /** A path that enters an interface or an array leads just where it led: what those
      hold is shared, not copied. */
  lemma {:induction false} SharedPath(source: Heap, heap: Heap, copies: map<RefKey, nat>, base: nat, v: Value,
      path: seq<Hop>)
    requires Complete(source, heap, copies, base) && Extends(source, heap, base) && Known(copies, v) && Below(base, v)
    requires !Plain(path)
    ensures At(heap, Rename(copies, v), path) == At(source, v, path)
    decreases |path|
  {
    TakeStays(source, heap, base, v, path[0]);
    if IsShared(path[0]) {
      if Take(source, v, path[0]).Some? {
        PathStays(source, heap, base, Take(source, v, path[0]).value, path[1..]);
      }
    } else {
      TakeMirrors(source, heap, copies, base, v, path[0]);
      if Take(source, v, path[0]).Some? {
        SharedPath(source, heap, copies, base, Take(source, v, path[0]).value, path[1..]);
      }
    }
  }

  /** v without its addresses: all of a value but which references it holds. */
  function Shape(v: Value): Value {
    match v
    case Struct(t, fields) => Struct(t, Shapes(fields))
    case _ => if v.IsReference() && !IsNil(v) then Repointed(v, 1) else v
  }

  function Shapes(vs: seq<Value>): (r: seq<Value>)
    ensures |r| == |vs| && forall i :: 0 <= i < |vs| ==> r[i] == Shape(vs[i])
  {
    if vs == [] then [] else [Shape(vs[0])] + Shapes(vs[1..])
  }

  lemma {:induction false} RenameKeepsShape(copies: map<RefKey, nat>, v: Value)
    requires forall k :: k in copies ==> copies[k] > 0
    ensures Shape(Rename(copies, v)) == Shape(v)
  {
    if v.Struct? {
      forall i | 0 <= i < |v.fields| ensures Shape(RenameAll(copies, v.fields)[i]) == Shape(v.fields[i]) {
        RenameKeepsShape(copies, v.fields[i]);
      }
    }
  }

  /** One graph from v and from w: the same paths, to values equal but for addresses,
      a map's with its keys. */
  ghost predicate SamePaths(h: Heap, v: Value, g: Heap, w: Value) {
    forall path :: match At(h, v, path)
      case None => At(g, w, path).None?
      case Some(a) => At(g, w, path).Some? && Shape(At(g, w, path).value) == Shape(a)
  }

  // Plain paths p and q end in one reference.
  ghost predicate Meet(h: Heap, v: Value, p: seq<Hop>, q: seq<Hop>) {
    Plain(p) && Plain(q) && exists key :: LeadsTo(h, v, p, key) && LeadsTo(h, v, q, key)
  }

  /** Two paths meet from w exactly when they meet from v, so what was shared is
      shared, what was apart is apart, and a cycle is the same cycle. */
  ghost predicate SameSharing(h: Heap, v: Value, g: Heap, w: Value) {
    forall p, q :: Meet(h, v, p, q) <==> Meet(g, w, p, q)
  }

  /** No path from v ends in a reference below base, but where it enters an interface
      or an array. */
  ghost predicate AllFrom(base: nat, h: Heap, v: Value) {
    forall path, key :: Plain(path) && LeadsTo(h, v, path, key) ==> key.ptr >= base
  }

  /** What an interface or an array holds is the same from v and from w, addresses and
      all. */
  ghost predicate SharesInside(h: Heap, v: Value, g: Heap, w: Value) {
    forall path :: !Plain(path) ==> At(g, w, path) == At(h, v, path)
  }

  /** Each reference v leads to is no further than a walk follows. */
  ghost predicate Shallow(h: Heap, v: Value) {
    forall path, key :: Plain(path) && LeadsTo(h, v, path, key) ==> Near(h, v, key)
  }

  lemma LeadsForward(source: Heap, heap: Heap, copies: map<RefKey, nat>, base: nat, v: Value, path: seq<Hop>, key: RefKey)
    requires Complete(source, heap, copies, base) && Known(copies, v) && Plain(path) && LeadsTo(source, v, path, key)
    ensures key in copies && LeadsTo(heap, Rename(copies, v), path, NewKey(copies, key))
  {
    PathMirrors(source, heap, copies, base, v, path);
  }

  lemma LeadsBack(source: Heap, heap: Heap, copies: map<RefKey, nat>, base: nat, v: Value, path: seq<Hop>, made: RefKey)
      returns (key: RefKey)
    requires Complete(source, heap, copies, base) && Known(copies, v)
    requires Plain(path) && LeadsTo(heap, Rename(copies, v), path, made)
    ensures LeadsTo(source, v, path, key) && key in copies && made == NewKey(copies, key)
  {
    PathMirrors(source, heap, copies, base, v, path);
    key := At(source, v, path).value.Key();
  }

  lemma CopiesApart(source: Heap, heap: Heap, copies: map<RefKey, nat>, base: nat, a: RefKey, b: RefKey)
    requires Complete(source, heap, copies, base) && a in copies && b in copies && NewKey(copies, a) == NewKey(copies, b)
    ensures a == b && NewKey(copies, a).ptr >= base
  {}

  lemma MeetMirrors(source: Heap, heap: Heap, copies: map<RefKey, nat>, base: nat, v: Value, p: seq<Hop>, q: seq<Hop>)
    requires Complete(source, heap, copies, base) && Known(copies, v)
    ensures Meet(source, v, p, q) <==> Meet(heap, Rename(copies, v), p, q)
  {
    hide LeadsTo, Known, Rename, Complete, NewKey, Plain;
    var w := Rename(copies, v);
    if Meet(source, v, p, q) {
      var key :| LeadsTo(source, v, p, key) && LeadsTo(source, v, q, key);
      LeadsForward(source, heap, copies, base, v, p, key);
      LeadsForward(source, heap, copies, base, v, q, key);
    }
    if Meet(heap, w, p, q) {
      var made :| LeadsTo(heap, w, p, made) && LeadsTo(heap, w, q, made);
      var a := LeadsBack(source, heap, copies, base, v, p, made);
      var b := LeadsBack(source, heap, copies, base, v, q, made);
      CopiesApart(source, heap, copies, base, a, b);
    }
  }

  lemma SharingMirrors(source: Heap, heap: Heap, copies: map<RefKey, nat>, base: nat, v: Value)
    requires Complete(source, heap, copies, base) && Known(copies, v)
    ensures SameSharing(source, v, heap, Rename(copies, v)) && AllFrom(base, heap, Rename(copies, v))
  {
    hide LeadsTo, Known, Rename, Complete, Meet, NewKey, Plain;
    forall p, q ensures Meet(source, v, p, q) <==> Meet(heap, Rename(copies, v), p, q) {
      MeetMirrors(source, heap, copies, base, v, p, q);
    }
    forall path, made | Plain(path) && LeadsTo(heap, Rename(copies, v), path, made) ensures made.ptr >= base {
      var key := LeadsBack(source, heap, copies, base, v, path, made);
      CopiesApart(source, heap, copies, base, key, key);
    }
  }

  lemma PathsMirror(source: Heap, heap: Heap, copies: map<RefKey, nat>, base: nat, v: Value)
    requires Complete(source, heap, copies, base) && Extends(source, heap, base) && Known(copies, v) && Below(base, v)
    ensures SamePaths(source, v, heap, Rename(copies, v)) && SharesInside(source, v, heap, Rename(copies, v))
  {
    hide Known, Rename, Complete, Extends, Below, At, Shape, Plain;
    forall path ensures match At(source, v, path)
      case None => At(heap, Rename(copies, v), path).None?
      case Some(a) => At(heap, Rename(copies, v), path).Some? && Shape(At(heap, Rename(copies, v), path).value) == Shape(a)
    {
      PathMirrorsShape(source, heap, copies, base, v, path);
    }
    forall path | !Plain(path) ensures At(heap, Rename(copies, v), path) == At(source, v, path) {
      SharedPath(source, heap, copies, base, v, path);
    }
  }

  lemma PathMirrorsShape(source: Heap, heap: Heap, copies: map<RefKey, nat>, base: nat, v: Value, path: seq<Hop>)
    requires Complete(source, heap, copies, base) && Extends(source, heap, base) && Known(copies, v) && Below(base, v)
    ensures match At(source, v, path)
      case None => At(heap, Rename(copies, v), path).None?
      case Some(a) => At(heap, Rename(copies, v), path).Some? && Shape(At(heap, Rename(copies, v), path).value) == Shape(a)
  {
    hide Known, Rename, Extends, Below, At, Shape, CopiedAt;
    if Plain(path) {
      PathMirrors(source, heap, copies, base, v, path);
      if At(source, v, path).Some? {
        RenameKeepsShape(copies, At(source, v, path).value);
      }
    } else {
      SharedPath(source, heap, copies, base, v, path);
    }
  }

  lemma AllNear(source: Heap, heap: Heap, copies: map<RefKey, nat>, base: nat, v: Value)
    requires Complete(source, heap, copies, base) && Known(copies, v) && forall k :: k in copies ==> Near(source, v, k)
    ensures Shallow(source, v)
  {
    hide LeadsTo, Known, Rename, Complete, Near, Plain;
    forall path, key | Plain(path) && LeadsTo(source, v, path, key) ensures Near(source, v, key) {
      LeadsForward(source, heap, copies, base, v, path, key);
    }
  }

  /** Copies node, every reference of which has an address below base, into heap.
      A copy is the same graph as the node, sharing, cycles, map keys and all, on
      references none of which the heap held but those under an interface or an array,
      which it shares with the node, and all the heap held is as it was.  There is no
      copy exactly of a node the cap cuts: only of one with a path past it that enters no
      reference twice, and never of one with a reference no path within it leads to. */
  method CloneNode(heap: Heap, base: nat, node: Value) returns (copied: Option<Value>, after: Heap)
    requires HeapBelow(base, heap) && Below(base, node)
    ensures Grows(heap, after)
    ensures copied.None? <==> IsCut(heap, node)
    ensures copied.None? ==> NestsPastCap(heap, node)
    ensures copied.Some? ==>
      && SamePaths(heap, node, after, copied.value)
      && SameSharing(heap, node, after, copied.value)
      && AllFrom(base, after, copied.value)
      && SharesInside(heap, node, after, copied.value)
      && Shallow(heap, node)
  {
    hide Filled, EachFilled, SamePaths, SameSharing, AllFrom, SharesInside, Shallow;
    var c := new Cloner(heap, base, node);
    assert c.Now() == Met({}, false);
    var out := c.Fill(node, 0, []);
    after := c.heap;
    if c.truncated {
      return None, after;
    }
    PathsMirror(heap, after, c.copies, base, node);
    SharingMirrors(heap, after, c.copies, base, node);
    AllNear(heap, after, c.copies, base, node);
    copied := Some(out);
  }
}
