/** Two readings of what a model composes: through its entries, read to the
    models they stand for, and through the registry's own references, alias
    scalars among them.  They reach the same models. */
module Exposure {
  import opened Values
  import opened Graphs
  import opened Registry
  import opened Trails

  // The model an entry naming t composes in; an unset entry names nothing.
  ghost function Parent(types: Types, t: TypeID): Option<TypeID> {
    if t == "" then None else ModelFor(types, t)
  }

  ghost function Parents(types: Types, id: TypeID): (r: seq<Option<TypeID>>) {
    if IsModel(types, id) then
      var targets := Targets(types[id]);
      seq(|targets|, i requires 0 <= i < |targets| => Parent(types, targets[i]))
    else []
  }

  /** Each model's composition entries, by the model each composes in. */
  ghost function Layout(types: Types): Graph {
    id => Parents(types, id)
  }

  /** a composes b through one entry. */
  ghost function Composes(types: Types): Edges<TypeID> {
    Links(Layout(types))
  }

  // The types a type's parts come from: a model's entries, an alias's base.
  function Sources(types: Types, id: TypeID): seq<TypeID> {
    if id !in types then []
    else match types[id]
      case Model(_, _, _, _, _) => Targets(types[id])
      case Scalar(Some(base)) => [base]
      case _ => []
  }

  ghost function Leads(types: Types): Edges<TypeID> {
    (a, b) => b in Sources(types, a)
  }

  /** root exposes p: some type its parts come from is a model declaring p. */
  ghost predicate Exposes(types: Types, root: TypeID, p: PropID) {
    exists x :: Reaches(Leads(types), root, x) && DeclaresProp(types, x, p)
  }

  predicate DeclaresProp(types: Types, x: TypeID, p: PropID) {
    IsModel(types, x) && exists i :: 0 <= i < |types[x].properties| && types[x].properties[i].id == p
  }

  lemma {:induction false} ChainLeads(types: Types, id: TypeID, n: nat)
    ensures Reaches(Leads(types), id, ChainAt(types, id, n))
    decreases n
  {
    ReachSelf(Leads(types), id);
    if n > 0 && AliasBase(types, id).Some? {
      var base := AliasBase(types, id).value;
      ChainLeads(types, base, n - 1);
      ReachEdge(Leads(types), id, base);
      ReachThen(Leads(types), id, base, ChainAt(types, base, n - 1));
    }
  }

  lemma StandsForLeads(types: Types, id: TypeID)
    ensures ModelFor(types, id).Some? ==> Reaches(Leads(types), id, ModelFor(types, id).value)
  {
    if ModelFor(types, id).Some? {
      var n: nat :| ChainAt(types, id, n) == ModelFor(types, id).value;
      ChainLeads(types, id, n);
    }
  }

  // A model composed is one the registry's references lead to.
  lemma ComposedLeads(types: Types, a: TypeID, b: TypeID)
    requires Composes(types)(a, b)
    ensures Reaches(Leads(types), a, b)
  {
    var targets := Targets(types[a]);
    var i :| 0 <= i < |targets| && Parent(types, targets[i]) == Some(b);
    StandsForLeads(types, targets[i]);
    ReachEdge(Leads(types), a, targets[i]);
    ReachThen(Leads(types), a, targets[i], b);
  }

  lemma ReachedLeads(types: Types, root: TypeID, x: TypeID)
    requires Reaches(Composes(types), root, x)
    ensures Reaches(Leads(types), root, x)
  {
    var within := iset y | Reaches(Leads(types), root, y);
    ReachSelf(Leads(types), root);
    forall y, z | y in within && Composes(types)(y, z) ensures z in within {
      ComposedLeads(types, y, z);
      ReachThen(Leads(types), root, y, z);
    }
    ReachWithin(Composes(types), within, root, x);
  }

  /** Some model the entries of m lead to has an entry naming the empty ID. */
  ghost predicate NamesEmptyID(types: Types, m: TypeID) {
    exists a :: Reaches(Composes(types), m, a) && EntryIsEmpty(types, a)
  }

  predicate EntryIsEmpty(types: Types, a: TypeID) {
    IsModel(types, a) && "" in Targets(types[a])
  }

  // Whatever y stands for is among the models reached, or y is past the empty ID.
  ghost predicate Covered(types: Types, reached: iset<TypeID>, y: TypeID) {
    || (ModelFor(types, y).Some? ==> ModelFor(types, y).value in reached)
    || ((exists a :: a in reached && EntryIsEmpty(types, a)) && Reaches(Leads(types), "", y))
  }

  lemma SourceCovered(types: Types, reached: iset<TypeID>, y: TypeID, z: TypeID)
    requires Covered(types, reached, y) && Leads(types)(y, z)
    requires forall a, b :: a in reached && Composes(types)(a, b) ==> b in reached
    ensures Covered(types, reached, z)
  {
    hide Reaches;
    ReachSelf(Leads(types), "");
    if Reaches(Leads(types), "", y) {
      ReachOn(Leads(types), "", y, z);
    }
    if IsModel(types, y) {
      ModelStandsForItself(types, y);
      if y in reached && z == "" {
        assert EntryIsEmpty(types, y);
      } else if y in reached && ModelFor(types, z).Some? {
        var targets := Targets(types[y]);
        var i :| 0 <= i < |targets| && targets[i] == z;
        assert Parents(types, y)[i] == ModelFor(types, z);
        assert Composes(types)(y, ModelFor(types, z).value);
      }
    } else {
      AliasStandsForBase(types, y);
    }
  }

  /** The models a root leads to are those its own model leads to by composition, none
      when it stands for no model, and where one of those has an entry naming the empty
      ID, whatever a type there leads to besides. */
  lemma ExposedModels(types: Types, root: TypeID, x: TypeID)
    requires IsModel(types, x)
    ensures Reaches(Leads(types), root, x) <==>
      && ModelFor(types, root).Some?
      && (|| Reaches(Composes(types), ModelFor(types, root).value, x)
          || (NamesEmptyID(types, ModelFor(types, root).value) && Reaches(Leads(types), "", x)))
  {
    hide Reaches;
    var m := ModelFor(types, root);
    if m.Some? {
      StandsForLeads(types, root);
      if Reaches(Composes(types), m.value, x) {
        ReachedLeads(types, m.value, x);
        ReachThen(Leads(types), root, m.value, x);
      }
      if NamesEmptyID(types, m.value) && Reaches(Leads(types), "", x) {
        var a :| Reaches(Composes(types), m.value, a) && EntryIsEmpty(types, a);
        ReachedLeads(types, m.value, a);
        ReachThen(Leads(types), root, m.value, a);
        ReachOn(Leads(types), root, a, "");
        ReachThen(Leads(types), root, "", x);
      }
    }
    if Reaches(Leads(types), root, x) {
      LeadsAreCovered(types, root, x);
      ModelStandsForItself(types, x);
    }
  }

  // Nothing is covered but by what is composed, or past an empty ID composed.
  lemma LeadsAreCovered(types: Types, root: TypeID, x: TypeID)
    requires Reaches(Leads(types), root, x)
    ensures var m := ModelFor(types, root);
      Covered(types, (iset y | m.Some? && Reaches(Composes(types), m.value, y)), x)
  {
    hide Reaches;
    var m := ModelFor(types, root);
    var reached := iset y | m.Some? && Reaches(Composes(types), m.value, y);
    forall a, b | a in reached && Composes(types)(a, b) ensures b in reached {
      ReachOn(Composes(types), m.value, a, b);
    }
    if m.Some? { ReachSelf(Composes(types), m.value); }
    var covered := iset y | Covered(types, reached, y);
    forall y, z | y in covered && Leads(types)(y, z) ensures z in covered {
      SourceCovered(types, reached, y, z);
    }
    ReachWithin(Leads(types), covered, root, x);
  }

  // ----- entries by the list they stand in -----

  /** Where a model names a type it composes. */
  datatype Slot = AtBase | AtImplemented(i: nat) | AtMixin(i: nat)

  function Named(m: TypeDef, e: Slot): Option<TypeID>
    requires m.Model?
  {
    match e
    case AtBase => m.base
    case AtImplemented(i) => if i < |m.implemented| then Some(m.implemented[i]) else None
    case AtMixin(i) => if i < |m.mixins| then Some(m.mixins[i]) else None
  }

  /** The base is read first, then what is implemented, then the mixins, each in order. */
  predicate NoLater(e: Slot, f: Slot) {
    match (e, f)
    case (AtBase, _) => true
    case (AtImplemented(i), AtImplemented(j)) => i <= j
    case (AtImplemented(_), AtMixin(_)) => true
    case (AtMixin(i), AtMixin(j)) => i <= j
    case (_, _) => false
  }

  /** The model that entry of a composes in. */
  ghost function ComposedBy(types: Types, a: TypeID, e: Slot): Option<TypeID> {
    if !IsModel(types, a) then None
    else
      match Named(types[a], e)
      case None => None
      case Some(t) => if t == "" then None else ModelFor(types, t)
  }

  function PlaceOf(m: TypeDef, e: Slot): nat
    requires m.Model?
  {
    var base := if m.base.Some? then 1 else 0;
    match e
    case AtBase => 0
    case AtImplemented(i) => base + i
    case AtMixin(i) => base + |m.implemented| + i
  }

  // The entry at k of Targets.
  function SlotOf(m: TypeDef, k: nat): (e: Slot)
    requires m.Model? && k < |Targets(m)|
    ensures PlaceOf(m, e) == k && Named(m, e) == Some(Targets(m)[k])
  {
    var base := if m.base.Some? then 1 else 0;
    if k < base then AtBase
    else if k < base + |m.implemented| then AtImplemented(k - base)
    else AtMixin(k - base - |m.implemented|)
  }

  lemma PlacesInOrder(m: TypeDef, e: Slot)
    requires m.Model? && Named(m, e).Some?
    ensures PlaceOf(m, e) < |Targets(m)| && Named(m, e) == Some(Targets(m)[PlaceOf(m, e)])
    ensures forall f :: Named(m, f).Some? ==> (NoLater(f, e) <==> PlaceOf(m, f) <= PlaceOf(m, e))
  {
    assert SlotOf(m, PlaceOf(m, e)) == e;
  }

  /** What an entry of a composes in, over the lists of a and not over one list of all. */
  lemma ComposesStep(types: Types, a: TypeID, b: TypeID)
    ensures Composes(types)(a, b) <==> exists e :: ComposedBy(types, a, e) == Some(b)
  {
    if Composes(types)(a, b) {
      var targets := Targets(types[a]);
      var k :| 0 <= k < |targets| && Parent(types, targets[k]) == Some(b);
      assert ComposedBy(types, a, SlotOf(types[a], k)) == Some(b);
    }
    if e :| ComposedBy(types, a, e) == Some(b) {
      var k := PlaceOf(types[a], e);
      PlacesInOrder(types[a], e);
      assert Layout(types)(a)[k] == Some(b);
    }
  }

  /** The registry's own references: to what a model names, or to what an alias stands for. */
  lemma LeadsStep(types: Types, a: TypeID, b: TypeID)
    ensures Leads(types)(a, b) <==>
      || (IsModel(types, a) && exists e :: Named(types[a], e) == Some(b))
      || AliasBase(types, a) == Some(b)
  {
    if IsModel(types, a) {
      if b in Sources(types, a) {
        var k :| 0 <= k < |Targets(types[a])| && Targets(types[a])[k] == b;
        assert Named(types[a], SlotOf(types[a], k)) == Some(b);
      }
      if e :| Named(types[a], e) == Some(b) {
        PlacesInOrder(types[a], e);
      }
    }
  }
}
