/** The type registry, as composition reads it: models with their entries and
    properties, and the alias scalars standing in for them. */
module Registry {
  import opened Values

  type TypeID = string
  type PropID = string

  datatype Property = Property(id: PropID, wireName: string, source: string, required: bool) {
    function EffectiveWireName(): string {
      if wireName != "" then wireName else source
    }
  }

  datatype TypeDef =
    | Model(base: Option<TypeID>, implemented: seq<TypeID>, mixins: seq<TypeID>,
            properties: seq<Property>, wants: seq<string>)
    | Scalar(base: Option<TypeID>)
    | Other                            // a kind that composes and stands for nothing
    | NilModel | NilScalar | NilOther  // typed nils

  type Types = map<TypeID, TypeDef>

  predicate IsModel(types: Types, id: TypeID) {
    id in types && types[id].Model?
  }

  /** One step of an alias chain, none where the chain ends. */
  function AliasBase(types: Types, id: TypeID): Option<TypeID> {
    if id in types && types[id].Scalar? then types[id].base else None
  }

  /** A model's composition entries: its base, what it implements, its mixins. */
  function Targets(m: TypeDef): seq<TypeID>
    requires m.Model?
  {
    (if m.base.Some? then [m.base.value] else []) + m.implemented + m.mixins
  }

  // ----- alias chains -----

  /** The type n aliases on from id, stopping at one that is no alias. */
  function ChainAt(types: Types, id: TypeID, n: nat): TypeID
    decreases n
  {
    if n == 0 || AliasBase(types, id) == None then id else ChainAt(types, AliasBase(types, id).value, n - 1)
  }

  /** id's chain of aliases ends at e. */
  ghost predicate EndsAt(types: Types, id: TypeID, e: TypeID) {
    AliasBase(types, e) == None && exists n :: ChainAt(types, id, n) == e
  }

  /** e is an alias scalar whose chain comes back to it. */
  ghost predicate OnCycle(types: Types, e: TypeID) {
    AliasBase(types, e).Some? && exists n :: n > 0 && ChainAt(types, e, n) == e
  }

  /** e is a fit end for id's chain: its last type, or for a chain without one, any scalar
      it keeps coming back to. */
  ghost predicate Resolves(types: Types, id: TypeID, e: TypeID) {
    EndsAt(types, id, e) || (OnCycle(types, e) && exists n :: ChainAt(types, id, n) == e)
  }

  /** The model id stands for, itself or at the end of its chain. */
  ghost function ModelFor(types: Types, id: TypeID): Option<TypeID> {
    if exists e :: EndsAt(types, id, e) && IsModel(types, e) then
      var e :| EndsAt(types, id, e) && IsModel(types, e); Some(e)
    else None
  }

  lemma {:induction false} ChainOn(types: Types, id: TypeID, n: nat, m: nat)
    ensures ChainAt(types, id, n + m) == ChainAt(types, ChainAt(types, id, n), m)
    decreases n
  {
    if n > 0 && AliasBase(types, id).Some? {
      ChainOn(types, AliasBase(types, id).value, n - 1, m);
    }
  }

  lemma EndIsOne(types: Types, id: TypeID, e: TypeID, f: TypeID)
    requires EndsAt(types, id, e) && EndsAt(types, id, f)
    ensures e == f
  {
    var n: nat :| ChainAt(types, id, n) == e;
    var m: nat :| ChainAt(types, id, m) == f;
    ChainOn(types, id, n, m);
    ChainOn(types, id, m, n);
  }

  lemma {:induction false} CycleReturns(types: Types, e: TypeID, n: nat, m: nat) returns (k: nat)
    requires n > 0 && ChainAt(types, e, n) == e
    ensures k >= m && ChainAt(types, e, k) == e
    decreases m
  {
    if m == 0 {
      k := 0;
    } else {
      k := CycleReturns(types, e, n, m - 1);
      ChainOn(types, e, n, k);
      k := n + k;
    }
  }

  lemma CycleHasNoEnd(types: Types, id: TypeID, e: TypeID, f: TypeID)
    requires OnCycle(types, e) && (exists n :: ChainAt(types, id, n) == e)
    ensures !EndsAt(types, id, f)
  {
    if EndsAt(types, id, f) {
      var n: nat :| ChainAt(types, id, n) == e;
      var m: nat :| ChainAt(types, id, m) == f;
      var c: nat :| c > 0 && ChainAt(types, e, c) == e;
      var k := CycleReturns(types, e, c, m);
      ChainOn(types, id, n, k);
      ChainOn(types, id, m, n + k - m);
      assert false;
    }
  }

  /** Resolving finds the model a type stands for, and no other. */
  lemma ResolvedModel(types: Types, id: TypeID, e: TypeID)
    requires Resolves(types, id, e)
    ensures ModelFor(types, id) == if IsModel(types, e) then Some(e) else None
  {
    forall f | EndsAt(types, id, f) ensures f == e {
      if EndsAt(types, id, e) {
        EndIsOne(types, id, e, f);
      } else {
        CycleHasNoEnd(types, id, e, f);
      }
    }
  }

  lemma ModelStandsForItself(types: Types, id: TypeID)
    requires IsModel(types, id)
    ensures ModelFor(types, id) == Some(id)
  {
    assert ChainAt(types, id, 0) == id;
    ResolvedModel(types, id, id);
  }

  lemma AliasStandsForBase(types: Types, id: TypeID)
    requires AliasBase(types, id).Some?
    ensures ModelFor(types, id) == ModelFor(types, AliasBase(types, id).value)
  {
    var base := AliasBase(types, id).value;
    forall e ensures EndsAt(types, id, e) <==> EndsAt(types, base, e) {
      if EndsAt(types, id, e) {
        var n: nat :| ChainAt(types, id, n) == e;
        assert n > 0;
        assert ChainAt(types, base, n - 1) == e;
      }
      if EndsAt(types, base, e) {
        var n: nat :| ChainAt(types, base, n) == e;
        assert ChainAt(types, id, n + 1) == e;
      }
    }
    if exists e :: EndsAt(types, id, e) && IsModel(types, e) {
      var e :| EndsAt(types, id, e) && IsModel(types, e);
      ResolvedModel(types, id, e);
      ResolvedModel(types, base, e);
    }
  }
}
