/** A flattening's members: the declarations of each wire name, in the order the
    walk decls them. */
module Members {
  import opened Registry

  /** A property as some model declares it. */
  datatype PropertyDecl = PropertyDecl(owner: TypeID, property: Property)

  datatype FlatProperty = FlatProperty(decl: PropertyDecl, overridden: seq<PropertyDecl>, required: bool)

  datatype Flattening = Flattening(properties: seq<FlatProperty>, undeclared: seq<string>, unflattened: seq<TypeID>)

  predicate AllModels(types: Types, ids: seq<TypeID>) {
    forall i :: 0 <= i < |ids| ==> IsModel(types, ids[i])
  }

  function Own(types: Types, id: TypeID): seq<PropertyDecl>
    requires IsModel(types, id)
  {
    var ps := types[id].properties;
    seq(|ps|, i requires 0 <= i < |ps| => PropertyDecl(id, ps[i]))
  }

  /** The declarations of the models ids name, in order. */
  function Decls(types: Types, ids: seq<TypeID>): seq<PropertyDecl>
    requires AllModels(types, ids)
  {
    if ids == [] then [] else Decls(types, ids[..|ids| - 1]) + Own(types, ids[|ids| - 1])
  }

  /** The names the models' Requires list, in order. */
  function Wanted(types: Types, ids: seq<TypeID>): seq<string>
    requires AllModels(types, ids)
  {
    if ids == [] then [] else Wanted(types, ids[..|ids| - 1]) + types[ids[|ids| - 1]].wants
  }

  // Each of names once, where it first stands.
  function Firsts(names: seq<string>): seq<string> {
    if names == [] then []
    else
      var r := Firsts(names[..|names| - 1]);
      if names[|names| - 1] in r then r else r + [names[|names| - 1]]
  }

  lemma {:induction false} FirstsHold(names: seq<string>)
    ensures var r := Firsts(names);
      (forall w :: w in r <==> w in names) && forall i, j :: 0 <= i < j < |r| ==> r[i] != r[j]
  {
    if names != [] {
      var front, last := names[..|names| - 1], names[|names| - 1];
      FirstsHold(front);
      assert names == front + [last];
      var r := Firsts(front);
      if last in r {
        assert Firsts(names) == r;
      } else {
        assert Firsts(names) == r + [last];
        assert forall w :: w in r + [last] <==> w in r || w == last;
      }
      assert forall w :: w in names <==> w in front || w == last;
    }
  }

  function Wires(ds: seq<PropertyDecl>): (r: seq<string>)
    ensures |r| == |ds|
  {
    seq(|ds|, i requires 0 <= i < |ds| => ds[i].property.EffectiveWireName())
  }

  /** The declarations of wire name w, in order. */
  function Of(ds: seq<PropertyDecl>, w: string): seq<PropertyDecl> {
    if ds == [] then []
    else
      var last := ds[|ds| - 1];
      var r := Of(ds[..|ds| - 1], w);
      if last.property.EffectiveWireName() == w then r + [last] else r
  }

  lemma {:induction false} OfHas(ds: seq<PropertyDecl>, w: string, d: PropertyDecl)
    ensures d in Of(ds, w) <==> d in ds && d.property.EffectiveWireName() == w
  {
    if ds != [] {
      OfHas(ds[..|ds| - 1], w, d);
      assert ds == ds[..|ds| - 1] + [ds[|ds| - 1]];
    }
  }

  /** One of ds has the ID p. */
  predicate Declared(ds: seq<PropertyDecl>, p: PropID) {
    exists i :: 0 <= i < |ds| && ds[i].property.id == p
  }

  // The declarations but those of id, each ID once, where it is first read.
  function Others(decls: seq<PropertyDecl>, id: PropID): seq<PropertyDecl> {
    if decls == [] then []
    else
      var last := decls[|decls| - 1];
      var r := Others(decls[..|decls| - 1], id);
      if last.property.id == id || Declared(r, last.property.id) then r else r + [last]
  }

  predicate AnyRequired(decls: seq<PropertyDecl>) {
    exists d :: d in decls && d.property.required
  }

  /** The member decls make: the last declaration takes it. */
  function Flat(decls: seq<PropertyDecl>, wanted: seq<string>): FlatProperty
    requires decls != []
  {
    var last := decls[|decls| - 1];
    FlatProperty(last, Others(decls, last.property.id),
                 AnyRequired(decls) || last.property.EffectiveWireName() in wanted)
  }

  /** f is the flattening of the models ids name, read in that order: a member per
      wire name, where the name is first read, and the wanted names none carries. */
  ghost predicate Flattens(types: Types, ids: seq<TypeID>, f: Flattening)
    requires AllModels(types, ids)
  {
    var ds := Decls(types, ids);
    var names, wanted := Firsts(Wires(ds)), Firsts(Wanted(types, ids));
    && |f.properties| == |names|
    && (forall i :: 0 <= i < |names| ==> Of(ds, names[i]) != [] && f.properties[i] == Flat(Of(ds, names[i]), wanted))
    && f.undeclared == Without(wanted, names)
  }

  // names but those in taken.
  function Without(names: seq<string>, taken: seq<string>): (r: seq<string>)
    ensures forall w :: w in r <==> w in names && w !in taken
  {
    if names == [] then []
    else
      var last := names[|names| - 1];
      var r := Without(names[..|names| - 1], taken);
      assert names == names[..|names| - 1] + [last];
      if last in taken then r else r + [last]
  }

  // ----- what a flattening holds -----

  lemma {:induction false} DeclOwner(types: Types, ids: seq<TypeID>, d: PropertyDecl)
    requires AllModels(types, ids)
    ensures d in Decls(types, ids) <==> d.owner in ids && d in Own(types, d.owner)
  {
    if ids != [] {
      var front, last := ids[..|ids| - 1], ids[|ids| - 1];
      assert ids == front + [last];
      DeclOwner(types, front, d);
      assert d in Own(types, last) ==> d.owner == last;
    }
  }

  lemma WireAt(ds: seq<PropertyDecl>, d: PropertyDecl)
    requires d in ds
    ensures d.property.EffectiveWireName() in Wires(ds)
  {
    var i :| 0 <= i < |ds| && ds[i] == d;
    assert Wires(ds)[i] == d.property.EffectiveWireName();
  }

  lemma DeclaredOn(ds: seq<PropertyDecl>, d: PropertyDecl, p: PropID)
    ensures Declared(ds + [d], p) <==> Declared(ds, p) || d.property.id == p
  {
    if Declared(ds, p) {
      var i :| 0 <= i < |ds| && ds[i].property.id == p;
      assert (ds + [d])[i] == ds[i];
    }
    assert (ds + [d])[|ds|] == d;
  }

  /** Overriding keeps each other ID, once. */
  lemma {:induction false} OthersHold(decls: seq<PropertyDecl>, id: PropID, p: PropID)
    ensures Declared(Others(decls, id), p) <==> p != id && Declared(decls, p)
    ensures var r := Others(decls, id); forall i, j :: 0 <= i < j < |r| ==> r[i].property.id != r[j].property.id
    ensures forall d :: d in Others(decls, id) ==> d in decls
  {
    if decls != [] {
      var front, last := decls[..|decls| - 1], decls[|decls| - 1];
      assert decls == front + [last];
      OthersHold(front, id, p);
      DeclaredOn(front, last, p);
      DeclaredOn(Others(front, id), last, p);
    }
  }

  ghost predicate MemberHolds(m: FlatProperty, p: PropID) {
    m.decl.property.id == p || Declared(m.overridden, p)
  }

  lemma FlatHolds(decls: seq<PropertyDecl>, wanted: seq<string>, p: PropID)
    requires decls != []
    ensures MemberHolds(Flat(decls, wanted), p) <==> Declared(decls, p)
  {
    OthersHold(decls, decls[|decls| - 1].property.id, p);
  }

  /** p is in f: taken by a member, or overridden in one. */
  ghost predicate Holds(f: Flattening, p: PropID) {
    exists i :: 0 <= i < |f.properties| && MemberHolds(f.properties[i], p)
  }

  /** A flattening drops no declaration's ID and adds none. */
  lemma FlatteningHoldsAll(types: Types, ids: seq<TypeID>, f: Flattening, p: PropID)
    requires AllModels(types, ids) && Flattens(types, ids, f)
    ensures Holds(f, p) <==> Declared(Decls(types, ids), p)
  {
    var ds := Decls(types, ids);
    var names, wanted := Firsts(Wires(ds)), Firsts(Wanted(types, ids));
    forall i | 0 <= i < |names| ensures MemberHolds(f.properties[i], p) <==> Declared(Of(ds, names[i]), p) {
      FlatHolds(Of(ds, names[i]), wanted, p);
    }
    FirstsHold(Wires(ds));
    if Declared(ds, p) {
      var k :| 0 <= k < |ds| && ds[k].property.id == p;
      WireAt(ds, ds[k]);
      var i :| 0 <= i < |names| && names[i] == ds[k].property.EffectiveWireName();
      OfHas(ds, names[i], ds[k]);
    }
    if Holds(f, p) {
      var i :| 0 <= i < |f.properties| && MemberHolds(f.properties[i], p);
      var k :| 0 <= k < |Of(ds, names[i])| && Of(ds, names[i])[k].property.id == p;
      OfHas(ds, names[i], Of(ds, names[i])[k]);
    }
  }

  // The last declaration of a name is by the last model declaring it.
  lemma {:induction false} LastOwner(types: Types, ids: seq<TypeID>, w: string, i: nat, d: PropertyDecl) returns (j: nat)
    requires AllModels(types, ids) && i < |ids|
    requires d in Own(types, ids[i]) && d.property.EffectiveWireName() == w
    ensures i <= j < |ids|
    ensures var decls := Of(Decls(types, ids), w); decls != [] && ids[j] == decls[|decls| - 1].owner
  {
    var n := |ids| - 1;
    var front := ids[..n];
    OfJoined(Decls(types, front), Own(types, ids[n]), w);
    if Of(Own(types, ids[n]), w) == [] {
      OfHas(Own(types, ids[n]), w, d);
      j := LastOwner(types, front, w, i, d);
    } else {
      j := n;
      LastOwn(types, ids[n], Decls(types, front), w);
    }
  }

  lemma {:induction false} OfJoined(a: seq<PropertyDecl>, b: seq<PropertyDecl>, w: string)
    ensures Of(a + b, w) == Of(a, w) + Of(b, w)
  {
    if b == [] {
      assert a + b == a;
    } else {
      assert (a + b)[..|a + b| - 1] == a + b[..|b| - 1];
      OfJoined(a, b[..|b| - 1], w);
    }
  }

  lemma LastOwn(types: Types, id: TypeID, before: seq<PropertyDecl>, w: string)
    requires IsModel(types, id) && Of(Own(types, id), w) != []
    ensures var all := Of(before, w) + Of(Own(types, id), w); all[|all| - 1].owner == id
  {
    var own := Of(Own(types, id), w);
    OfHas(Own(types, id), w, own[|own| - 1]);
  }
}
