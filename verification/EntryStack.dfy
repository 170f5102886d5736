/** The map entries a traversal is ranging over, copied into storage that the maps of one
    type reuse. */
module EntryStack {
  import opened Values
  import opened Sequences

  /** A map's entry as read: its rendered key, its key and its value. */
  datatype Item = Item(name: string, key: string, value: string)

  /** An entry on the stack: a copy of its own, or a slot of a slab, read when asked for. */
  datatype Slot = Own(item: Item) | In(name: string, slab: nat, at: nat)

  // A slab's cells: a copied key beside its value.
  type Slab = seq<(string, string)>

  function NameOf(e: Slot): string {
    if e.Own? then e.item.name else e.name
  }

  /** What an entry reads now. */
  function Look(slabs: seq<Slab>, e: Slot): Item {
    match e
    case Own(item) => item
    case In(name, s, at) =>
      if s < |slabs| && at < |slabs[s]| then Item(name, slabs[s][at].0, slabs[s][at].1) else Item(name, "", "")
  }

  function LookAll(slabs: seq<Slab>, es: seq<Slot>): seq<Item> {
    seq(|es|, i requires 0 <= i < |es| => Look(slabs, es[i]))
  }

  // ----- rendered-key order -----

  predicate NameBefore(a: Item, b: Item) {
    TextBefore(a.name, b.name)
  }

  predicate SlotBefore(a: Slot, b: Slot) {
    TextBefore(NameOf(a), NameOf(b))
  }

  lemma {:induction false} InsertLooks(slabs: seq<Slab>, e: Slot, es: seq<Slot>)
    ensures LookAll(slabs, Insert(SlotBefore, e, es)) == Insert(NameBefore, Look(slabs, e), LookAll(slabs, es))
  {
    if es != [] && SlotBefore(es[0], e) {
      InsertLooks(slabs, e, es[1..]);
      assert LookAll(slabs, es)[1..] == LookAll(slabs, es[1..]);
    }
  }

  /** Sorting the slots sorts what they read. */
  lemma {:induction false} SortLooks(slabs: seq<Slab>, es: seq<Slot>)
    ensures LookAll(slabs, Sort(SlotBefore, es)) == Sort(NameBefore, LookAll(slabs, es))
  {
    if es != [] {
      SortLooks(slabs, es[1..]);
      InsertLooks(slabs, es[0], Sort(SlotBefore, es[1..]));
      assert LookAll(slabs, es)[1..] == LookAll(slabs, es[1..]);
    }
  }

  lemma SortSlotsKeeps(es: seq<Slot>)
    ensures |Sort(SlotBefore, es)| == |es| && forall e :: e in Sort(SlotBefore, es) <==> e in es
  {
    SlotsAreWeak();
    SortKeeps(SlotBefore, es);
    forall e ensures e in Sort(SlotBefore, es) <==> e in es {
      assert e in multiset(es) <==> e in multiset(Sort(SlotBefore, es));
    }
  }

  lemma NamesAreWeak(a: string, b: string, c: string)
    ensures !(TextBefore(a, b) && TextBefore(b, a))
    ensures !TextBefore(b, a) && !TextBefore(c, b) ==> !TextBefore(c, a)
  {
    TextIsTotal(a, b);
    TextIsTotal(b, c);
    TextIsTotal(a, c);
    if TextBefore(a, b) && TextBefore(b, c) {
      TextThen(a, b, c);
    }
  }

  lemma SlotsAreWeak()
    ensures IsWeak(SlotBefore)
  {
    forall a, b, c
      ensures !(SlotBefore(a, b) && SlotBefore(b, a)) && (!SlotBefore(b, a) && !SlotBefore(c, b) ==> !SlotBefore(c, a))
    {
      NamesAreWeak(NameOf(a), NameOf(b), NameOf(c));
    }
  }

  /** A frame's items are its map's, by rendered key. */
  lemma SortOrders(items: seq<Item>)
    ensures Ordered(NameBefore, Sort(NameBefore, items)) && multiset(Sort(NameBefore, items)) == multiset(items)
  {
    forall a, b, c
      ensures !(NameBefore(a, b) && NameBefore(b, a)) && (!NameBefore(b, a) && !NameBefore(c, b) ==> !NameBefore(c, a))
    {
      NamesAreWeak(a.name, b.name, c.name);
    }
    SortKeeps(NameBefore, items);
  }

  // No two items render alike.
  predicate NamesApart(items: seq<Item>) {
    forall x, y :: x in items && y in items && x.name == y.name ==> x == y
  }

  /** However a map's entries are met, they are stacked in one order, when no two of its
      keys render alike. */
  lemma OrderIsFixed(a: seq<Item>, b: seq<Item>)
    requires multiset(a) == multiset(b) && NamesApart(a)
    ensures Sort(NameBefore, a) == Sort(NameBefore, b)
  {
    SortOrders(a);
    SortOrders(b);
    var sorted := Sort(NameBefore, a);
    forall x, y | x in sorted && y in sorted && x != y ensures NameBefore(x, y) || NameBefore(y, x) {
      assert x in multiset(sorted) && y in multiset(sorted);
      TextIsTotal(x.name, y.name);
    }
    OneOrder(NameBefore, sorted, Sort(NameBefore, b));
  }

  // ----- frames -----

  /** The storage of one type: its slab, and how many of its cells live frames claim. */
  datatype Store = Store(slab: nat, used: nat)

  /** One map's entries on the stack, and where in its type's storage they were copied. */
  datatype Frame = Frame(base: nat, end: nat, store: Option<string>, slot: nat)

  /** A frame not yet popped, and what its map held. */
  datatype Live = Live(frame: Frame, items: seq<Item>)

  function Size(f: Frame): int {
    f.end - f.base
  }

  function EndOf(live: seq<Live>): nat {
    if live == [] then 0 else live[|live| - 1].frame.end
  }

  /** Live frames lie on the stack one after another. */
  ghost predicate Tiled(live: seq<Live>) {
    forall i :: 0 <= i < |live| ==> live[i].frame.base <= live[i].frame.end && live[i].frame.base == StartOf(live, i)
  }

  function StartOf(live: seq<Live>, i: nat): nat
    requires i < |live|
  {
    if i == 0 then 0 else live[i - 1].frame.end
  }

  lemma {:induction false} TiledWithin(live: seq<Live>, i: nat)
    requires Tiled(live) && i < |live|
    ensures live[i].frame.end <= EndOf(live)
    decreases |live| - i
  {
    if i + 1 < |live| {
      TiledWithin(live, i + 1);
    }
  }

  ghost predicate Stored(stores: map<string, Store>, slabs: seq<Slab>) {
    && (forall t :: t in stores ==> stores[t].slab < |slabs| && stores[t].used <= |slabs[stores[t].slab]|)
    && (forall t, u :: t in stores && u in stores && stores[t].slab == stores[u].slab ==> t == u)
  }

  /** The storage a frame claims: cells of its type's, none past those in use, in a slab no
      other type writes. */
  ghost predicate Claims(stores: map<string, Store>, slabs: seq<Slab>, entries: seq<Slot>, f: Frame) {
    && f.base <= f.end <= |entries|
    && (f.store.Some? ==> f.store.value in stores && f.slot + Size(f) <= stores[f.store.value].used)
    && (forall k :: f.base <= k < f.end ==> Claimed(stores, slabs, f, entries[k]))
  }

  ghost predicate Claimed(stores: map<string, Store>, slabs: seq<Slab>, f: Frame, e: Slot) {
    e.In? ==>
      && f.store.Some? && f.slot <= e.at < f.slot + Size(f) && e.slab < |slabs| && e.at < |slabs[e.slab]|
      && forall u :: u in stores && stores[u].slab == e.slab ==> u == f.store.value
  }

  /** No cell belongs to two frames: a frame claims cells past those of every frame of its
      type below it. */
  ghost predicate Apart(live: seq<Live>) {
    forall i, j :: 0 <= i < j < |live| && live[i].frame.store.Some? && live[i].frame.store == live[j].frame.store ==>
      live[i].frame.slot + Size(live[i].frame) <= live[j].frame.slot
  }

  ghost predicate Shows(slabs: seq<Slab>, entries: seq<Slot>, l: Live) {
    l.frame.base <= l.frame.end <= |entries| && LookAll(slabs, entries[l.frame.base..l.frame.end]) == l.items
  }

  ghost predicate Sound(stores: map<string, Store>, slabs: seq<Slab>, entries: seq<Slot>, live: seq<Live>) {
    && Tiled(live) && EndOf(live) == |entries| && Stored(stores, slabs) && Apart(live)
    && (forall i :: 0 <= i < |live| ==> Claims(stores, slabs, entries, live[i].frame) && Shows(slabs, entries, live[i]))
  }

  // b is a, but for cells of one slab from first on, and for slabs added.
  ghost predicate WritesPast(a: seq<Slab>, b: seq<Slab>, slab: nat, first: nat) {
    |a| <= |b| && forall s :: 0 <= s < |a| ==> SameBelow(a[s], b[s], if s == slab then first else |a[s]|)
  }

  predicate SameBelow(a: Slab, b: Slab, n: nat) {
    |a| == |b| && forall k :: 0 <= k < n && k < |a| ==> b[k] == a[k]
  }

  // ----- what a write leaves alone -----

  /** Live frames of a type claim no cell from first on. */
  ghost predicate FreeFrom(live: seq<Live>, typ: string, first: nat) {
    forall i :: 0 <= i < |live| && live[i].frame.store == Some(typ) ==> live[i].frame.slot + Size(live[i].frame) <= first
  }

  lemma LookStays(stores: map<string, Store>, a: seq<Slab>, b: seq<Slab>, f: Frame, e: Slot, typ: string, first: nat)
    requires Claimed(stores, a, f, e) && typ in stores && WritesPast(a, b, stores[typ].slab, first)
    requires f.store == Some(typ) ==> f.slot + Size(f) <= first
    ensures Look(b, e) == Look(a, e) && Claimed(stores, b, f, e)
  {
    if e.In? {
      assert SameBelow(a[e.slab], b[e.slab], if e.slab == stores[typ].slab then first else |a[e.slab]|);
    }
  }

  lemma FrameStays(stores: map<string, Store>, a: seq<Slab>, b: seq<Slab>, entries: seq<Slot>, l: Live, typ: string, first: nat)
    requires Claims(stores, a, entries, l.frame) && Shows(a, entries, l)
    requires typ in stores && WritesPast(a, b, stores[typ].slab, first)
    requires l.frame.store == Some(typ) ==> l.frame.slot + Size(l.frame) <= first
    ensures Claims(stores, b, entries, l.frame) && Shows(b, entries, l)
  {
    hide Claimed, WritesPast, Look;
    var es := entries[l.frame.base..l.frame.end];
    forall k | l.frame.base <= k < l.frame.end ensures Look(b, entries[k]) == Look(a, entries[k]) && Claimed(stores, b, l.frame, entries[k]) {
      LookStays(stores, a, b, l.frame, entries[k], typ, first);
    }
    forall k | 0 <= k < |es| ensures Look(b, es[k]) == Look(a, es[k]) {
      assert es[k] == entries[l.frame.base + k];
    }
    assert LookAll(b, es) == LookAll(a, es);
  }

  lemma StoredStays(stores: map<string, Store>, a: seq<Slab>, b: seq<Slab>, slab: nat, first: nat)
    requires Stored(stores, a) && WritesPast(a, b, slab, first)
    ensures Stored(stores, b)
  {
    forall t | t in stores ensures stores[t].slab < |b| && stores[t].used <= |b[stores[t].slab]| {
      var s := stores[t].slab;
      assert SameBelow(a[s], b[s], if s == slab then first else |a[s]|);
    }
  }

  /** Writing cells no live frame claims changes no frame's items. */
  lemma SoundWritten(stores: map<string, Store>, a: seq<Slab>, b: seq<Slab>, entries: seq<Slot>, live: seq<Live>, typ: string,
      first: nat)
    requires Sound(stores, a, entries, live) && typ in stores && WritesPast(a, b, stores[typ].slab, first)
    requires FreeFrom(live, typ, first)
    ensures Sound(stores, b, entries, live)
  {
    hide Claims, Shows, WritesPast, Tiled, Apart, Stored;
    StoredStays(stores, a, b, stores[typ].slab, first);
    forall i | 0 <= i < |live| ensures Claims(stores, b, entries, live[i].frame) && Shows(b, entries, live[i]) {
      FrameStays(stores, a, b, entries, live[i], typ, first);
    }
  }

  // More stores claim what the old ones did, and no type's slab passes to another.
  ghost predicate Widens(a: map<string, Store>, b: map<string, Store>, slabs: seq<Slab>) {
    forall t :: t in b ==>
      (if t in a && b[t].slab == a[t].slab then a[t].used <= b[t].used
       else b[t].slab >= |slabs| && (t in a ==> a[t].used <= b[t].used))
  }

  // One type's store widened, in its own slab or in one added.
  lemma WidensBy(a: map<string, Store>, slabs: seq<Slab>, more: seq<Slab>, typ: string, store: Store)
    requires Stored(a, slabs) && |slabs| <= |more| && more[..|slabs|] == slabs
    requires store.slab < |more| && store.used <= |more[store.slab]|
    requires typ in a ==> a[typ].used <= store.used
    requires store.slab >= |slabs| || (typ in a && store.slab == a[typ].slab)
    ensures Widens(a, a[typ := store], slabs) && Stored(a[typ := store], more)
  {
    forall t | t in a ensures a[t].slab < |more| && more[a[t].slab] == slabs[a[t].slab] {
      assert more[..|slabs|][a[t].slab] == slabs[a[t].slab];
    }
  }

  lemma FrameWidens(a: map<string, Store>, b: map<string, Store>, slabs: seq<Slab>, more: seq<Slab>, entries: seq<Slot>, l: Live)
    requires Claims(a, slabs, entries, l.frame) && Shows(slabs, entries, l)
    requires Widens(a, b, slabs) && a.Keys <= b.Keys && |slabs| <= |more| && more[..|slabs|] == slabs
    ensures Claims(b, more, entries, l.frame) && Shows(more, entries, l)
  {
    hide Widens;
    var es := entries[l.frame.base..l.frame.end];
    forall k | l.frame.base <= k < l.frame.end
      ensures Claimed(b, more, l.frame, entries[k]) && Look(more, entries[k]) == Look(slabs, entries[k])
    {
      assert Claimed(a, slabs, l.frame, entries[k]);
      EntryWidens(a, b, slabs, more, l.frame, entries[k]);
    }
    forall k | 0 <= k < |es| ensures Look(more, es[k]) == Look(slabs, es[k]) {
      assert es[k] == entries[l.frame.base + k];
    }
    assert LookAll(more, es) == LookAll(slabs, es);
    if l.frame.store.Some? {
      StoreWidens(a, b, slabs, l.frame.store.value);
    }
  }

  lemma StoreWidens(a: map<string, Store>, b: map<string, Store>, slabs: seq<Slab>, t: string)
    requires Widens(a, b, slabs) && a.Keys <= b.Keys && t in a
    ensures t in b && a[t].used <= b[t].used
  {}

  lemma EntryWidens(a: map<string, Store>, b: map<string, Store>, slabs: seq<Slab>, more: seq<Slab>, f: Frame, e: Slot)
    requires Claimed(a, slabs, f, e) && Widens(a, b, slabs) && |slabs| <= |more| && more[..|slabs|] == slabs
    ensures Claimed(b, more, f, e) && Look(more, e) == Look(slabs, e)
  {
    if e.In? {
      assert more[..|slabs|][e.slab] == more[e.slab];
      forall u | u in b && b[u].slab == e.slab ensures u == f.store.value {
        assert u in a && a[u].slab == e.slab;
      }
    }
  }

  lemma SoundWidens(a: map<string, Store>, b: map<string, Store>, slabs: seq<Slab>, more: seq<Slab>, entries: seq<Slot>,
      live: seq<Live>)
    requires Sound(a, slabs, entries, live) && Stored(b, more)
    requires Widens(a, b, slabs) && a.Keys <= b.Keys && |slabs| <= |more| && more[..|slabs|] == slabs
    ensures Sound(b, more, entries, live)
  {
    hide Claims, Shows, Widens, Tiled, Apart, Stored;
    forall i | 0 <= i < |live| ensures Claims(b, more, entries, live[i].frame) && Shows(more, entries, live[i]) {
      FrameWidens(a, b, slabs, more, entries, live[i]);
    }
  }

  /** What is stacked above the live frames is none of theirs. */
  lemma SoundBelow(stores: map<string, Store>, slabs: seq<Slab>, a: seq<Slot>, b: seq<Slot>, l: Live, n: nat)
    requires Claims(stores, slabs, a, l.frame) && Shows(slabs, a, l) && l.frame.end <= n <= |a| && n <= |b| && a[..n] == b[..n]
    ensures Claims(stores, slabs, b, l.frame) && Shows(slabs, b, l)
  {
    hide Claimed, Look;
    forall k | l.frame.base <= k < l.frame.end ensures b[k] == a[k] {
      assert a[..n][k] == b[..n][k];
    }
    assert b[l.frame.base..l.frame.end] == a[l.frame.base..l.frame.end];
  }

  lemma OneMoreFrame(live: seq<Live>, l: Live)
    requires Tiled(live) && Apart(live) && EndOf(live) == l.frame.base <= l.frame.end
    requires l.frame.store.Some? ==> FreeFrom(live, l.frame.store.value, l.frame.slot)
    ensures Tiled(live + [l]) && Apart(live + [l]) && EndOf(live + [l]) == l.frame.end
  {
    var more := live + [l];
    forall i | 0 <= i < |more|
      ensures more[i].frame.base <= more[i].frame.end && more[i].frame.base == StartOf(more, i)
    {
      if i < |live| {
        assert more[i] == live[i] && StartOf(more, i) == StartOf(live, i);
      }
    }
  }

  lemma OneFrameFewer(live: seq<Live>)
    requires Tiled(live) && Apart(live) && live != []
    ensures var rest := live[..|live| - 1];
      Tiled(rest) && Apart(rest) && EndOf(rest) == live[|live| - 1].frame.base
  {
    var rest := live[..|live| - 1];
    forall i | 0 <= i < |rest|
      ensures rest[i].frame.base <= rest[i].frame.end && rest[i].frame.base == StartOf(rest, i)
    {
      assert rest[i] == live[i] && StartOf(rest, i) == StartOf(live, i);
    }
    assert StartOf(live, |live| - 1) == live[|live| - 1].frame.base;
  }

  /** A frame on top of sound ones, its own entries in its own cells, keeps the stack sound. */
  lemma SoundPushed(stores: map<string, Store>, slabs: seq<Slab>, below: seq<Slot>, entries: seq<Slot>, live: seq<Live>, l: Live)
    requires Sound(stores, slabs, below, live) && |below| <= |entries| && entries[..|below|] == below
    requires l.frame.base == |below| && l.frame.end == |entries|
    requires Claims(stores, slabs, entries, l.frame) && Shows(slabs, entries, l)
    requires l.frame.store.Some? ==> FreeFrom(live, l.frame.store.value, l.frame.slot)
    ensures Sound(stores, slabs, entries, live + [l])
  {
    hide Claims, Shows, Stored;
    var more := live + [l];
    OneMoreFrame(live, l);
    assert l.frame.base <= l.frame.end;
    forall i | 0 <= i < |more| ensures Claims(stores, slabs, entries, more[i].frame) && Shows(slabs, entries, more[i]) {
      if i < |live| {
        TiledWithin(live, i);
        assert below[..|below|] == below;
        SoundBelow(stores, slabs, below, entries, live[i], |below|);
      }
    }
  }

  /** Popping the top frame frees only its own cells. */
  lemma SoundPopped(stores: map<string, Store>, slabs: seq<Slab>, entries: seq<Slot>, live: seq<Live>)
    requires Sound(stores, slabs, entries, live) && live != []
    ensures var f := live[|live| - 1].frame;
      && f.base <= |entries| && (f.store.Some? ==> f.store.value in stores)
      && Sound(Freed(stores, f), slabs, entries[..f.base], live[..|live| - 1])
  {
    var top := |live| - 1;
    var f, rest := live[top].frame, live[..top];
    assert Claims(stores, slabs, entries, f);
    OneFrameFewer(live);
    assert Stored(Freed(stores, f), slabs) by {
      FreedStored(stores, slabs, f);
    }
    forall i | 0 <= i < |rest|
      ensures Claims(Freed(stores, f), slabs, entries[..f.base], rest[i].frame) && Shows(slabs, entries[..f.base], rest[i])
    {
      assert rest[i] == live[i];
      TiledWithin(rest, i);
      PoppedKeeps(stores, slabs, entries, live, i);
    }
  }

  function Freed(stores: map<string, Store>, f: Frame): map<string, Store> {
    if f.store.Some? && f.store.value in stores then stores[f.store.value := stores[f.store.value].(used := f.slot)] else stores
  }

  lemma FreedStored(stores: map<string, Store>, slabs: seq<Slab>, f: Frame)
    requires Stored(stores, slabs) && Size(f) >= 0
    requires f.store.Some? ==> f.store.value in stores && f.slot + Size(f) <= stores[f.store.value].used
    ensures Stored(Freed(stores, f), slabs)
  {}

  lemma PoppedKeeps(stores: map<string, Store>, slabs: seq<Slab>, entries: seq<Slot>, live: seq<Live>, i: nat)
    requires Apart(live) && i < |live| - 1 && Claims(stores, slabs, entries, live[i].frame) && Shows(slabs, entries, live[i])
    requires Claims(stores, slabs, entries, live[|live| - 1].frame)
    requires live[i].frame.end <= live[|live| - 1].frame.base
    ensures var f := live[|live| - 1].frame;
      Claims(Freed(stores, f), slabs, entries[..f.base], live[i].frame) && Shows(slabs, entries[..f.base], live[i])
  {
    var f := live[|live| - 1].frame;
    SoundBelow(stores, slabs, entries, entries[..f.base], live[i], f.base);
    hide Look, Shows;
    forall k | live[i].frame.base <= k < live[i].frame.end
      ensures Claimed(Freed(stores, f), slabs, live[i].frame, entries[..f.base][k])
    {
      assert Claimed(stores, slabs, live[i].frame, entries[..f.base][k]);
    }
  }

  // ----- the stack -----

  /** A stack of frames over shared storage; `live` records for each frame what its map
      held. */
  class EntryStack {
    var entries: seq<Slot>
    var slabs: seq<Slab>
    var stores: map<string, Store>
    ghost var live: seq<Live>

    /** Each live frame's part of the stack reads what its map held, by rendered key. */
    ghost predicate Valid()
      reads this
    {
      Sound(stores, slabs, entries, live)
    }

    constructor ()
      ensures Valid() && live == []
    {
      entries, slabs, stores, live := [], [], map[], [];
    }

    /** Claims n cells of typ's storage after those in use, and gives the first.  Storage
        they do not fit is left to the frames that read it, for a slab twice the size. */
    method Reserve(typ: string, n: nat) returns (first: nat)
      requires Valid()
      modifies this`slabs, this`stores
      ensures Valid() && typ in stores && stores[typ].used == first + n && FreeFrom(live, typ, first)
    {
      hide Claims, Shows, Tiled, Apart, Sound, Widens;
      SoundEnds(stores, slabs, entries, live);
      var store := if typ in stores then stores[typ] else Store(|slabs|, 0);
      first := store.used;
      var size := if typ in stores then |slabs[store.slab]| else 0;
      ghost var was, had := slabs, stores;
      FreeOfUsed(stores, slabs, entries, live, typ);
      if typ !in stores {
        slabs := slabs + [[]];
      }
      if first + n > size {
        var more := if 2 * size > first + n then 2 * size else first + n;
        store := store.(slab := |slabs|);
        slabs := slabs + [seq(more, _ => ("", ""))];
      }
      stores := stores[typ := store.(used := first + n)];
      assert slabs[..|was|] == was;
      WidensBy(had, was, slabs, typ, stores[typ]);
      SoundWidens(had, stores, was, slabs, entries, live);
    }

    // Copies item into cell at of typ's storage, which no live frame claims.
    method WriteCell(typ: string, at: nat, ghost first: nat, item: Item, ghost below: seq<Slot>)
      requires Sound(stores, slabs, below, live) && typ in stores && first <= at < stores[typ].used
      requires FreeFrom(live, typ, first)
      modifies this`slabs
      ensures Sound(stores, slabs, below, live) && |slabs| == |old(slabs)|
      ensures var s := stores[typ].slab;
        s < |slabs| && |slabs[s]| == |old(slabs)[s]| && slabs == old(slabs)[s := old(slabs)[s][at := (item.key, item.value)]]
    {
      hide Claims, Shows, Tiled, Apart;
      var s := stores[typ].slab;
      ghost var was := slabs;
      slabs := slabs[s := slabs[s][at := (item.key, item.value)]];
      SoundWritten(stores, was, slabs, below, live, typ, first);
    }

    /** Stacks a map's entries, met in any order, by rendered key. */
    method Push(typ: string, items: seq<Item>, readable: bool) returns (f: Frame)
      requires Valid()
      modifies this
      ensures Valid() && live == old(live) + [Live(f, Sort(NameBefore, items))]
      ensures f.base == |old(entries)| && f.end == |entries| == f.base + |items|
    {
      hide Sound, FreeFrom, Sort;
      SoundEnds(stores, slabs, entries, live);
      var base, slot, kept := |entries|, 0, readable && items != [];
      ghost var below := entries;
      if kept {
        slot := Reserve(typ, |items|);
      }
      for i := 0 to |items|
        invariant Sound(stores, slabs, below, live) && live == old(live)
        invariant |entries| == |below| + i && entries[..|below|] == below
        invariant kept ==> typ in stores && stores[typ].used == slot + |items| && FreeFrom(live, typ, slot)
        invariant kept ==> forall k :: 0 <= k < i ==> CopiedTo(slabs, entries[|below| + k], stores[typ].slab, slot + k, items[k])
        invariant !kept ==> forall k :: 0 <= k < i ==> entries[|below| + k] == Own(items[k])
      {
        SoundEnds(stores, slabs, below, live);
        if kept {
          WriteCell(typ, slot + i, slot, items[i], below);
          entries := entries + [In(items[i].name, stores[typ].slab, slot + i)];
        } else {
          entries := entries + [Own(items[i])];
        }
      }
      f := Frame(base, |entries|, if kept then Some(typ) else None, slot);
      SoundEnds(stores, slabs, below, live);
      PushedLooks(stores, slabs, below, entries, f, items);
      entries := entries[..f.base] + Sort(SlotBefore, entries[f.base..]);
      SoundPushed(stores, slabs, below, entries, live, Live(f, Sort(NameBefore, items)));
      live := live + [Live(f, Sort(NameBefore, items))];
    }

    /** Takes the top frame's entries off the stack, and frees its cells. */
    method Pop(f: Frame)
      requires Valid() && live != [] && f == live[|live| - 1].frame
      modifies this
      ensures Valid() && live == old(live)[..|old(live)| - 1]
    {
      hide Sound;
      SoundPopped(stores, slabs, entries, live);
      entries := entries[..f.base];
      if f.store.Some? {
        var t := f.store.value;
        stores := stores[t := stores[t].(used := f.slot)];
      }
      live := live[..|live| - 1];
    }

    /** Reads the k-th entry of a live frame: its map's k-th by rendered key, whatever was
        pushed and popped above it since. */
    method Entry(ghost i: nat, f: Frame, k: nat) returns (item: Item)
      requires Valid() && i < |live| && f == live[i].frame && k < |live[i].items|
      ensures item == live[i].items[k]
    {
      hide Sound, Look;
      ShownAt(stores, slabs, entries, live, i, k);
      item := Look(slabs, entries[f.base + k]);
    }
  }

  lemma ShownAt(stores: map<string, Store>, slabs: seq<Slab>, entries: seq<Slot>, live: seq<Live>, i: nat, k: nat)
    requires Sound(stores, slabs, entries, live) && i < |live| && k < |live[i].items|
    ensures live[i].frame.base + k < |entries| && Look(slabs, entries[live[i].frame.base + k]) == live[i].items[k]
  {
    hide Claims, Stored, Apart, Tiled, Look;
    assert Shows(slabs, entries, live[i]);
    var f := live[i].frame;
    assert LookAll(slabs, entries[f.base..f.end])[k] == Look(slabs, entries[f.base..f.end][k]);
  }

  // An entry whose item was copied to a cell.
  predicate CopiedTo(slabs: seq<Slab>, e: Slot, slab: nat, at: nat, item: Item) {
    && e == In(item.name, slab, at) && slab < |slabs| && at < |slabs[slab]| && slabs[slab][at] == (item.key, item.value)
  }

  lemma SoundEnds(stores: map<string, Store>, slabs: seq<Slab>, entries: seq<Slot>, live: seq<Live>)
    requires Sound(stores, slabs, entries, live)
    ensures EndOf(live) == |entries| && Stored(stores, slabs)
    ensures forall t :: t in stores ==> stores[t].slab < |slabs| && stores[t].used <= |slabs[stores[t].slab]|
  {}

  lemma CellIsClaimed(stores: map<string, Store>, slabs: seq<Slab>, f: Frame, e: Slot, j: nat, item: Item)
    requires Stored(stores, slabs) && j < Size(f)
    requires if f.store.Some? then
               f.store.value in stores && CopiedTo(slabs, e, stores[f.store.value].slab, f.slot + j, item)
             else e == Own(item)
    ensures Claimed(stores, slabs, f, e)
  {}

  // The entries from f's base on are items, each in the cell f keeps for it or on its own.
  ghost predicate Copied(stores: map<string, Store>, slabs: seq<Slab>, entries: seq<Slot>, f: Frame, items: seq<Item>) {
    && |entries| == f.base + |items| && f.end == |entries|
    && if f.store.Some? then
         f.store.value in stores && stores[f.store.value].used == f.slot + |items|
         && forall k :: 0 <= k < |items| ==>
              CopiedTo(slabs, entries[f.base + k], stores[f.store.value].slab, f.slot + k, items[k])
       else forall k :: 0 <= k < |items| ==> entries[f.base + k] == Own(items[k])
  }

  lemma PushedShows(stores: map<string, Store>, slabs: seq<Slab>, entries: seq<Slot>, f: Frame, items: seq<Item>)
    requires Copied(stores, slabs, entries, f, items)
    ensures LookAll(slabs, Sort(SlotBefore, entries[f.base..])) == Sort(NameBefore, items)
  {
    hide Sort;
    SortLooks(slabs, entries[f.base..]);
    assert LookAll(slabs, entries[f.base..]) == items;
  }

  lemma PushedClaims(stores: map<string, Store>, slabs: seq<Slab>, entries: seq<Slot>, f: Frame, items: seq<Item>, e: Slot)
    requires Copied(stores, slabs, entries, f, items) && Stored(stores, slabs) && e in Sort(SlotBefore, entries[f.base..])
    ensures Claimed(stores, slabs, f, e)
  {
    hide Look, Stored, CopiedTo, Claimed, Sort;
    var es := entries[f.base..];
    SortSlotsKeeps(es);
    var j :| 0 <= j < |es| && es[j] == e;
    assert es[j] == entries[f.base + j];
    CellIsClaimed(stores, slabs, f, e, j, items[j]);
  }

  /** Entries copied in, sorted in place, read as their items in order, each from a cell
      the frame claims. */
  lemma PushedLooks(stores: map<string, Store>, slabs: seq<Slab>, below: seq<Slot>, entries: seq<Slot>, f: Frame,
      items: seq<Item>)
    requires Copied(stores, slabs, entries, f, items) && f.base == |below| && entries[..f.base] == below
    requires Stored(stores, slabs)
    ensures var sorted := below + Sort(SlotBefore, entries[f.base..]);
      |sorted| == |entries| && Claims(stores, slabs, sorted, f) && Shows(slabs, sorted, Live(f, Sort(NameBefore, items)))
  {
    hide Sort, Stored, Claimed, LookAll;
    var es := entries[f.base..];
    var sorted := below + Sort(SlotBefore, es);
    SortSlotsKeeps(es);
    PushedShows(stores, slabs, entries, f, items);
    assert sorted[f.base..f.end] == Sort(SlotBefore, es);
    forall k | f.base <= k < f.end ensures Claimed(stores, slabs, f, sorted[k]) {
      assert sorted[k] == Sort(SlotBefore, es)[k - f.base] && sorted[k] in Sort(SlotBefore, es);
      PushedClaims(stores, slabs, entries, f, items, sorted[k]);
    }
  }

  /** A type's live frames claim no cell past those in use. */
  lemma FreeOfUsed(stores: map<string, Store>, slabs: seq<Slab>, entries: seq<Slot>, live: seq<Live>, typ: string)
    requires Sound(stores, slabs, entries, live)
    ensures FreeFrom(live, typ, if typ in stores then stores[typ].used else 0)
  {
    forall i | 0 <= i < |live| && live[i].frame.store == Some(typ)
      ensures typ in stores && live[i].frame.slot + Size(live[i].frame) <= stores[typ].used
    {
      assert Claims(stores, slabs, entries, live[i].frame);
    }
  }
}
