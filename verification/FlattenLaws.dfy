/** What a flattening promises a reader, over the walk's order and the members
    gathered in it. */
module FlattenLaws {
  import opened Values
  import opened Graphs
  import opened Registry
  import opened Exposure
  import opened Members
  import C = Components
  import T = Trails
  import F = Flatten

  /** f is the flattening of root over the models of order. */
  ghost predicate FlatteningOf(types: Types, root: TypeID, order: seq<TypeID>, f: Flattening) {
    && AllModels(types, order) && Flattens(types, order, f)
    && match ModelFor(types, root)
       case Some(m) => C.InLayoutOrder(Layout(types), m, order)
       case None => order == []
  }

  /** Some model read has an entry naming the empty ID. */
  ghost predicate EntryIsEmptyIn(types: Types, order: seq<TypeID>) {
    exists i :: 0 <= i < |order| && EntryIsEmpty(types, order[i])
  }

  lemma InOrder(types: Types, root: TypeID, order: seq<TypeID>, f: Flattening, x: TypeID)
    requires FlatteningOf(types, root, order, f)
    ensures IsModel(types, x) && Reaches(Leads(types), root, x) <==>
      x in order || (IsModel(types, x) && EntryIsEmptyIn(types, order) && Reaches(Leads(types), "", x))
  {
    hide Reaches, Flattens, C.LaidOut;
    if x in order {
      var i :| 0 <= i < |order| && order[i] == x;
    }
    OrderNamesEmptyID(types, root, order, f);
    if IsModel(types, x) {
      ExposedModels(types, root, x);
    }
  }

  lemma OrderNamesEmptyID(types: Types, root: TypeID, order: seq<TypeID>, f: Flattening)
    requires FlatteningOf(types, root, order, f)
    ensures EntryIsEmptyIn(types, order) <==>
      ModelFor(types, root).Some? && NamesEmptyID(types, ModelFor(types, root).value)
  {
    hide Reaches, Flattens, C.LaidOut;
    if ModelFor(types, root).Some? && NamesEmptyID(types, ModelFor(types, root).value) {
      var a :| Reaches(Composes(types), ModelFor(types, root).value, a) && EntryIsEmpty(types, a);
      assert a in order;
    }
  }

  /** What root exposes by the registry's own references is what its flattening holds,
      each declaration taken by a member or overridden in one, and, just where a model
      read has an entry naming the empty ID, whatever the type there exposes. */
  lemma HoldsWhatIsExposed(types: Types, root: TypeID, order: seq<TypeID>, f: Flattening, p: PropID)
    requires FlatteningOf(types, root, order, f)
    ensures Exposes(types, root, p) <==>
      Holds(f, p) || (EntryIsEmptyIn(types, order) && Exposes(types, "", p))
  {
    hide Reaches, C.InLayoutOrder, Flattens, EntryIsEmptyIn;
    FlatteningHoldsAll(types, order, f, p);
    var ds := Decls(types, order);
    if Declared(ds, p) {
      var k :| 0 <= k < |ds| && ds[k].property.id == p;
      DeclOwner(types, order, ds[k]);
      var x := ds[k].owner;
      InOrder(types, root, order, f, x);
      var i :| 0 <= i < |Own(types, x)| && Own(types, x)[i] == ds[k];
      assert types[x].properties[i].id == p;
      assert DeclaresProp(types, x, p);
    }
    if EntryIsEmptyIn(types, order) && Exposes(types, "", p) {
      var x :| Reaches(Leads(types), "", x) && DeclaresProp(types, x, p);
      InOrder(types, root, order, f, x);
    }
    if Exposes(types, root, p) {
      var x :| Reaches(Leads(types), root, x) && DeclaresProp(types, x, p);
      InOrder(types, root, order, f, x);
      if x in order {
        var i :| 0 <= i < |types[x].properties| && types[x].properties[i].id == p;
        var d := Own(types, x)[i];
        DeclOwner(types, order, d);
        var k :| 0 <= k < |ds| && ds[k] == d;
      }
    }
  }

  /** Some model composed from m, itself among them, declares p. */
  ghost predicate ComposesProp(types: Types, m: TypeID, p: PropID) {
    exists x :: Reaches(Composes(types), m, x) && DeclaresProp(types, x, p)
  }

  /** A flattening holds just what the models its root's model composes declare. */
  lemma HoldsWhatIsComposed(types: Types, root: TypeID, order: seq<TypeID>, f: Flattening, p: PropID)
    requires FlatteningOf(types, root, order, f)
    ensures Holds(f, p) <==> ModelFor(types, root).Some? && ComposesProp(types, ModelFor(types, root).value, p)
  {
    hide Reaches, C.LaidOut, Flattens;
    FlatteningHoldsAll(types, order, f, p);
    var ds := Decls(types, order);
    if Declared(ds, p) {
      var k :| 0 <= k < |ds| && ds[k].property.id == p;
      DeclOwner(types, order, ds[k]);
      var x := ds[k].owner;
      var i :| 0 <= i < |Own(types, x)| && Own(types, x)[i] == ds[k];
      assert types[x].properties[i].id == p;
      assert Reaches(Composes(types), ModelFor(types, root).value, x) && DeclaresProp(types, x, p);
    }
    if ModelFor(types, root).Some? && ComposesProp(types, ModelFor(types, root).value, p) {
      var x :| Reaches(Composes(types), ModelFor(types, root).value, x) && DeclaresProp(types, x, p);
      assert x in order;
      var i :| 0 <= i < |types[x].properties| && types[x].properties[i].id == p;
      var d := Own(types, x)[i];
      DeclOwner(types, order, d);
      var k :| 0 <= k < |ds| && ds[k] == d;
    }
  }

  /** The registry flattens root to just what root exposes: no model composed names the
      empty ID in an entry, or one of them declares each property exposed there. */
  ghost predicate FlattensFaithfully(types: Types, root: TypeID) {
    match ModelFor(types, root)
    case None => true
    case Some(m) => !NamesEmptyID(types, m) || forall p :: Exposes(types, "", p) ==> ComposesProp(types, m, p)
  }

  /** A flattening holds just what its root exposes if and only if the registry, as it
      stands before, is one of those. */
  lemma HoldsExactlyWhen(types: Types, root: TypeID, order: seq<TypeID>, f: Flattening)
    requires FlatteningOf(types, root, order, f)
    ensures (forall p :: Holds(f, p) <==> Exposes(types, root, p)) <==> FlattensFaithfully(types, root)
  {
    hide Exposes, Holds, FlatteningOf, EntryIsEmptyIn, NamesEmptyID, ComposesProp;
    OrderNamesEmptyID(types, root, order, f);
    forall p
      ensures Exposes(types, root, p) <==> Holds(f, p) || (EntryIsEmptyIn(types, order) && Exposes(types, "", p))
      ensures Holds(f, p) <==> ModelFor(types, root).Some? && ComposesProp(types, ModelFor(types, root).value, p)
    {
      HoldsWhatIsExposed(types, root, order, f, p);
      HoldsWhatIsComposed(types, root, order, f, p);
    }
  }

  // A registry with no type at the empty ID exposes nothing there.
  lemma NothingAtEmptyID(types: Types, p: PropID)
    requires "" !in types
    ensures !Exposes(types, "", p)
  {
    hide Reaches;
    forall x | Reaches(Leads(types), "", x) ensures x == "" {
      ReachWithin(Leads(types), iset{""}, "", x);
    }
  }

  // f flattens root over order, lists what names no model there, and took so many steps.
  ghost predicate FlattenedOver(types: Types, root: TypeID, order: seq<TypeID>, f: Flattening, steps: nat) {
    && FlatteningOf(types, root, order, f) && F.UnflattenedOf(types, order, f.unflattened)
    && steps <= 1 + |F.Aliases(types)| + 2 * F.EntryCount(types, order) + |order| + F.ReadCount(types, order)
  }

  // What root exposes is what f holds, and what the empty ID exposes where it is named.
  ghost predicate HoldsExposed(types: Types, root: TypeID, order: seq<TypeID>, f: Flattening) {
    forall p :: Exposes(types, root, p) <==>
      Holds(f, p) || (EntryIsEmptyIn(types, order) && Exposes(types, "", p))
  }

  /** Flattening as a caller sees it: over some order of the models composed, and holding
      exactly the properties root exposes but those of a type at the empty ID that an
      entry read names. */
  method Flattened(types: Types, root: TypeID) returns (f: Flattening, steps: nat)
    ensures exists order :: FlattenedOver(types, root, order, f, steps) && HoldsExposed(types, root, order, f)
    ensures "" !in types ==> forall p :: Holds(f, p) <==> Exposes(types, root, p)
  {
    hide Holds, Exposes, C.InLayoutOrder, Flattens, F.UnflattenedOf, EntryIsEmptyIn;
    ghost var order;
    f, order, steps := F.FlattenedProperties(types, root);
    forall p
      ensures Exposes(types, root, p) <==> Holds(f, p) || (EntryIsEmptyIn(types, order) && Exposes(types, "", p))
      ensures "" !in types ==> (Holds(f, p) <==> Exposes(types, root, p))
    {
      HoldsWhatIsExposed(types, root, order, f, p);
      if "" !in types {
        NothingAtEmptyID(types, p);
      }
    }
    assert FlattenedOver(types, root, order, f, steps) && HoldsExposed(types, root, order, f);
  }

  /** An entry naming the empty ID composes nothing, though the registry may hold a
      type there, whose properties the root then exposes and no flattening of it holds. */
  lemma EmptyIDExposesMore(types: Types, p: PropID, order: seq<TypeID>, f: Flattening)
    requires types == map["" := Model(None, [], [], [Property(p, "p", "", false)], []),
                             "m" := Model(Some(""), [], [], [], [])]
    requires FlatteningOf(types, "m", order, f)
    ensures Exposes(types, "m", p) && !Holds(f, p)
  {
    hide Reaches, C.LaidOut, Flattens;
    assert types[""].properties[0].id == p;
    assert Sources(types, "m")[0] == "";
    ReachEdge(Leads(types), "m", "");
    assert DeclaresProp(types, "", p);
    ModelStandsForItself(types, "m");
    forall x | x in order ensures x == "m" {
      assert Reaches(Composes(types), "m", x);
      ReachWithin(Composes(types), iset{"m"}, "m", x);
    }
    FlatteningHoldsAll(types, order, f, p);
    assert Own(types, "m") == [];
    forall d ensures d !in Decls(types, order) {
      DeclOwner(types, order, d);
    }
    assert forall k :: 0 <= k < |Decls(types, order)| ==> Decls(types, order)[k] in Decls(types, order);
  }

  // ----- siblings -----

  // Composition that does not go on from a.
  ghost function ComposesPast(types: Types, a: TypeID): Edges<TypeID> {
    (x, y) => x != a && Composes(types)(x, y)
  }

  /** Every way from m to x is through a. */
  ghost predicate OnlyThrough(types: Types, m: TypeID, a: TypeID, x: TypeID) {
    x != a && !Reaches(ComposesPast(types, a), m, x)
  }

  /** And no entry of a up to e leads to x. */
  ghost predicate OnlyLater(types: Types, m: TypeID, a: TypeID, e: Slot, x: TypeID) {
    && OnlyThrough(types, m, a, x)
    && forall f, y :: NoLater(f, e) && ComposedBy(types, a, f) == Some(y) ==> !Reaches(ComposesPast(types, a), y, x)
  }

  lemma SamePast(types: Types, a: TypeID, x: TypeID, y: TypeID)
    ensures Reaches(ComposesPast(types, a), x, y) <==> Reaches(T.Avoiding(Layout(types), a), x, y)
  {
    var e, f := ComposesPast(types, a), T.Avoiding(Layout(types), a);
    forall x, y ensures e(x, y) <==> f(x, y) {
      assert T.Links(Layout(types))(x, y) <==> Some(y) in Layout(types)(x);
      assert Composes(types)(x, y) <==> T.Links(Layout(types))(x, y);
      assert e(x, y) <==> x != a && Composes(types)(x, y);
      assert f(x, y) <==> x != a && Some(y) in Layout(types)(x);
    }
    if Reaches(e, x, y) {
      T.MoreReached(e, f, x, y);
    }
    if Reaches(f, x, y) {
      T.MoreReached(f, e, x, y);
    }
  }

  lemma MetByLater(types: Types, m: TypeID, a: TypeID, e: Slot, c: TypeID)
    requires ComposedBy(types, a, e).Some? && OnlyLater(types, m, a, e, c)
    ensures T.MetLater(Layout(types), m, a, PlaceOf(types[a], e), c)
    ensures Layout(types)(a)[PlaceOf(types[a], e)] == ComposedBy(types, a, e)
  {
    hide Reaches;
    SamePast(types, a, m, c);
    PlacesInOrder(types[a], e);
    forall k: nat | k <= PlaceOf(types[a], e) ensures !T.LeadsOff(Layout(types), a, k, c) {
      var f := SlotOf(types[a], k);
      if ComposedBy(types, a, f).Some? {
        SamePast(types, a, ComposedBy(types, a, f).value, c);
      }
    }
  }

  /** A model's entries are read in the order of its base, what it implements, and its
      mixins: the one an entry composes before any that only later entries lead to, where
      it does not compose the model in turn, or is met inside it and composed by the other. */
  lemma SiblingsInOrder(types: Types, root: TypeID, order: seq<TypeID>, f: Flattening,
                        m: TypeID, a: TypeID, e: Slot, b: TypeID, c: TypeID)
    requires FlatteningOf(types, root, order, f) && ModelFor(types, root) == Some(m)
    requires ComposedBy(types, a, e) == Some(b) && OnlyLater(types, m, a, e, c) && c in order
    requires !Reaches(Composes(types), b, a) || (OnlyThrough(types, m, a, b) && Reaches(Composes(types), c, b))
    ensures T.Before(order, b, c)
  {
    hide Reaches, Flattens, T.MetLater;
    MetByLater(types, m, a, e, c);
    SamePast(types, a, m, b);
    assert T.ComesFirst(Layout(types), m, a, PlaceOf(types[a], e), b, c);
  }

  /** Inside a model everything is read before the model itself, whether or not it
      composes the model in turn. */
  lemma InsideFirst(types: Types, root: TypeID, order: seq<TypeID>, f: Flattening, m: TypeID, a: TypeID, x: TypeID)
    requires FlatteningOf(types, root, order, f) && ModelFor(types, root) == Some(m)
    requires OnlyThrough(types, m, a, x) && x in order
    ensures T.Before(order, x, a)
  {
    hide Reaches, Flattens;
    SamePast(types, a, m, x);
  }

  /** The root's model is read last of all. */
  lemma RootIsLast(types: Types, root: TypeID, order: seq<TypeID>, f: Flattening, m: TypeID)
    requires FlatteningOf(types, root, order, f) && ModelFor(types, root) == Some(m)
    ensures order != [] && order[|order| - 1] == m
  {
    hide Reaches, Flattens;
    ReachSelf(Composes(types), m);
    assert m in order;
    var x := order[|order| - 1];
    if x != m {
      forall y | y != m ensures OnlyThrough(types, m, m, y) {
        if Reaches(ComposesPast(types, m), m, y) {
          ReachWithin(ComposesPast(types, m), iset{m}, m, y);
        }
      }
      InsideFirst(types, root, order, f, m, m, x);
    }
  }

  /** No member takes a declaration of its name that another model read after declares. */
  lemma LastReadTakes(types: Types, root: TypeID, order: seq<TypeID>, f: Flattening, i: nat, d: PropertyDecl)
    requires FlatteningOf(types, root, order, f) && i < |f.properties|
    requires d.owner in order && d in Own(types, d.owner)
    requires d.property.EffectiveWireName() == WireOf(f, i)
    ensures f.properties[i].decl.owner in order && !T.Before(order, f.properties[i].decl.owner, d.owner)
  {
    hide Reaches;
    var ds := Decls(types, order);
    var names, wanted := Firsts(Wires(ds)), Firsts(Wanted(types, order));
    var m := f.properties[i].decl;
    var said := Of(ds, names[i]);
    assert f.properties[i] == Flat(said, wanted);
    OfHas(ds, names[i], said[|said| - 1]);
    hide Of, Firsts, Wires, Decls, Wanted, Flat;
    forall at | 0 <= at < |order| && order[at] == d.owner
      ensures exists j :: at <= j < |order| && order[j] == m.owner
    {
      var j := LastOwner(types, order, names[i], at, d);
    }
  }

  /** A member never takes a declaration that one of a model composing its owner,
      and not composed by it in turn, overrides. */
  lemma ComposerOverrides(types: Types, root: TypeID, order: seq<TypeID>, f: Flattening, i: nat, d: PropertyDecl)
    requires FlatteningOf(types, root, order, f) && i < |f.properties|
    requires var m := f.properties[i].decl;
      && d.owner in order && d in Own(types, d.owner)
      && d.property.EffectiveWireName() == m.property.EffectiveWireName()
    ensures var m := f.properties[i].decl;
      !(Reaches(Composes(types), d.owner, m.owner) && !Reaches(Composes(types), m.owner, d.owner))
  {
    hide Reaches, Flattens;
    LastReadTakes(types, root, order, f, i, d);
    var m := f.properties[i].decl;
    var p, q :| 0 <= p < |order| && 0 <= q < |order| && order[p] == d.owner && order[q] == m.owner;
  }

  /** So of two siblings that declare one name the later one's is taken: the model an entry
      of the root's composes takes no member whose name another declares, when no entry up
      to that one leads to the other, and it does not compose the root. */
  lemma LaterSiblingTakes(types: Types, root: TypeID, order: seq<TypeID>, f: Flattening,
                          m: TypeID, e: Slot, b: TypeID, i: nat, d: PropertyDecl)
    requires FlatteningOf(types, root, order, f) && ModelFor(types, root) == Some(m) && i < |f.properties|
    requires ComposedBy(types, m, e) == Some(b) && !Reaches(Composes(types), b, m)
    requires d.owner in order && d.owner != m && d in Own(types, d.owner)
    requires d.property.EffectiveWireName() == WireOf(f, i)
    requires forall g, y :: NoLater(g, e) && ComposedBy(types, m, g) == Some(y) ==> !Reaches(Composes(types), y, d.owner)
    ensures f.properties[i].decl.owner != b
  {
    hide Reaches, FlatteningOf;
    var c := d.owner;
    forall y | Reaches(ComposesPast(types, m), y, c) ensures Reaches(Composes(types), y, c) {
      T.MoreReached(ComposesPast(types, m), Composes(types), y, c);
    }
    if Reaches(ComposesPast(types, m), m, c) {
      ReachWithin(ComposesPast(types, m), iset{m}, m, c);
    }
    SiblingsInOrder(types, root, order, f, m, m, e, b, c);
    LastReadTakes(types, root, order, f, i, d);
  }

  // Wherever names read w they have read v before.
  ghost predicate ReadBefore(names: seq<string>, v: string, w: string) {
    forall k :: 0 <= k < |names| && names[k] == w ==> v in names[..k]
  }

  lemma {:induction false} FirstsInOrder(names: seq<string>, i: nat, j: nat)
    requires i < j < |Firsts(names)|
    ensures Firsts(names)[i] != Firsts(names)[j]
    ensures ReadBefore(names, Firsts(names)[i], Firsts(names)[j])
  {
    FirstsHold(names);
    var front, last := names[..|names| - 1], names[|names| - 1];
    FirstsHold(front);
    var r := Firsts(front);
    assert Firsts(names)[i] == r[i];
    if j < |r| {
      FirstsInOrder(front, i, j);
    }
    forall k | 0 <= k < |names| && names[k] == Firsts(names)[j] ensures r[i] in names[..k] {
      if k < |front| {
        assert front[k] == names[k] && names[..k] == front[..k];
      }
    }
  }

  /** Members are in the order their names turn up: one stands before each member whose
      name is read only later.  No two share a name. */
  lemma MembersByName(types: Types, order: seq<TypeID>, f: Flattening)
    requires AllModels(types, order) && Flattens(types, order, f)
    ensures forall i, j :: 0 <= i < j < |f.properties| ==>
      && WireOf(f, i) != WireOf(f, j)
      && ReadBefore(Wires(Decls(types, order)), WireOf(f, i), WireOf(f, j))
    ensures forall w :: w in Wires(Decls(types, order)) <==> NamesMember(f, w)
  {
    var ds := Decls(types, order);
    var names, wanted := Firsts(Wires(ds)), Firsts(Wanted(types, order));
    FirstsHold(Wires(ds));
    forall i | 0 <= i < |names| ensures WireOf(f, i) == names[i] {
      var said := Of(ds, names[i]);
      assert f.properties[i] == Flat(said, wanted) && said[|said| - 1] in said;
      OfHas(ds, names[i], said[|said| - 1]);
    }
    hide Firsts, Wires, Decls, Of, Flat, Wanted, ReadBefore;
    forall i, j | 0 <= i < j < |f.properties|
      ensures WireOf(f, i) != WireOf(f, j) && ReadBefore(Wires(ds), WireOf(f, i), WireOf(f, j))
    {
      FirstsInOrder(Wires(ds), i, j);
    }
    forall w | w in names ensures NamesMember(f, w) {
      var i :| 0 <= i < |names| && names[i] == w;
      assert WireOf(f, i) == w;
    }
    forall w | NamesMember(f, w) ensures w in names {
      var i :| 0 <= i < |f.properties| && WireOf(f, i) == w;
      assert names[i] == w;
    }
  }

  function WireOf(f: Flattening, i: nat): string
    requires i < |f.properties|
  {
    f.properties[i].decl.property.EffectiveWireName()
  }

  // Some member has wire name w.
  ghost predicate NamesMember(f: Flattening, w: string) {
    exists i :: 0 <= i < |f.properties| && WireOf(f, i) == w
  }

  /** A member is required just when some declaration of its name is, or some model
      along the walk lists the name in its Requires. */
  lemma RequiredWhen(types: Types, order: seq<TypeID>, f: Flattening, i: nat)
    requires AllModels(types, order) && Flattens(types, order, f) && i < |f.properties|
    ensures var w := f.properties[i].decl.property.EffectiveWireName();
      f.properties[i].required <==>
        || (exists d :: d in Decls(types, order) && d.property.EffectiveWireName() == w && d.property.required)
        || w in Wanted(types, order)
  {
    var ds := Decls(types, order);
    var names, wanted := Firsts(Wires(ds)), Firsts(Wanted(types, order));
    FirstsHold(Wanted(types, order));
    var said := Of(ds, names[i]);
    assert f.properties[i] == Flat(said, wanted);
    forall d ensures d in said <==> d in ds && d.property.EffectiveWireName() == names[i] {
      OfHas(ds, names[i], d);
    }
    assert said[|said| - 1] in said;
  }
}
