/** The references a walk reaches that resolve nowhere, gathered in one pass. */
module References {
  import opened Values
  import P = PathLog

  type Kind = string

  /** What a walk shows a visitor: a node, with the identity it declares if any, a string
      of some class, or a value that is neither. */
  datatype Shown = NodeOf(declares: Option<(Kind, string)>) | Text(kind: Kind, id: string) | Another

  datatype Visit = Visit(value: Shown, at: Path)

  datatype Site = Site(kind: Kind, id: string)

  datatype Reference = Reference(kind: Kind, id: string, at: Path)

  // ----- the two-pass definition -----

  /** What resolution needs of a document: the keys of each of its maps, by class, and
      which classes of string refer at all. */
  datatype Tables = Tables(keyed: map<Kind, set<string>>, labels: set<Kind>)

  predicate Declares(t: Tables, v: Shown, kind: Kind, id: string) {
    v.NodeOf? && v.declares == Some((kind, id)) && id != "" && kind !in t.keyed
  }

  /** Some node of the walk declares id as its identity of this class. */
  predicate DeclaredIn(t: Tables, visits: seq<Visit>, kind: Kind, id: string) {
    exists i :: 0 <= i < |visits| && Declares(t, visits[i].value, kind, id)
  }

  predicate Refers(t: Tables, v: Shown) {
    v.Text? && v.id != "" && v.kind in t.labels
  }

  /** Whether a reference resolves in no registry: its map when its class has one, and
      otherwise what the whole walk declares, of which a walk cut short says nothing. */
  predicate Dangles(t: Tables, visits: seq<Visit>, truncated: bool, s: Site) {
    if s.kind in t.keyed then s.id !in t.keyed[s.kind]
    else !truncated && !DeclaredIn(t, visits, s.kind, s.id)
  }

  /** The references among visits that dangle in the whole walk, in walk order. */
  function Dangling(t: Tables, whole: seq<Visit>, truncated: bool, visits: seq<Visit>): seq<Reference> {
    if visits == [] then []
    else
      var v := visits[0];
      (if Refers(t, v.value) && Dangles(t, whole, truncated, Site(v.value.kind, v.value.id))
       then [Reference(v.value.kind, v.value.id, v.at)] else [])
      + Dangling(t, whole, truncated, visits[1..])
  }

  // ----- one pass -----

  // Whether a reference resolves by what the walk declared before it.
  predicate Resolved(t: Tables, before: seq<Visit>, s: Site) {
    if s.kind in t.keyed then s.id in t.keyed[s.kind] else DeclaredIn(t, before, s.kind, s.id)
  }

  // The references the walk met unresolved.
  function Met(t: Tables, visits: seq<Visit>): seq<Reference> {
    if visits == [] then []
    else
      var before, v := visits[..|visits| - 1], visits[|visits| - 1];
      Met(t, before)
      + if Refers(t, v.value) && !Resolved(t, before, Site(v.value.kind, v.value.id))
        then [Reference(v.value.kind, v.value.id, v.at)] else []
  }

  function Sites(refs: seq<Reference>): seq<Site> {
    seq(|refs|, i requires 0 <= i < |refs| => Site(refs[i].kind, refs[i].id))
  }

  function Paths(refs: seq<Reference>): seq<Path> {
    seq(|refs|, i requires 0 <= i < |refs| => refs[i].at)
  }

  // Those of refs that dangle in the whole walk.
  function Left(t: Tables, whole: seq<Visit>, truncated: bool, refs: seq<Reference>): seq<Reference> {
    if refs == [] then []
    else (if Dangles(t, whole, truncated, Site(refs[0].kind, refs[0].id)) then [refs[0]] else [])
         + Left(t, whole, truncated, refs[1..])
  }

  lemma {:induction false} LeftBoth(t: Tables, whole: seq<Visit>, truncated: bool, a: seq<Reference>, b: seq<Reference>)
    ensures Left(t, whole, truncated, a + b) == Left(t, whole, truncated, a) + Left(t, whole, truncated, b)
  {
    if a == [] {
      assert a + b == b;
    } else {
      assert (a + b)[1..] == a[1..] + b;
      LeftBoth(t, whole, truncated, a[1..], b);
    }
  }

  lemma {:induction false} DanglingBoth(t: Tables, whole: seq<Visit>, truncated: bool, a: seq<Visit>, b: seq<Visit>)
    ensures Dangling(t, whole, truncated, a + b) == Dangling(t, whole, truncated, a) + Dangling(t, whole, truncated, b)
  {
    if a == [] {
      assert a + b == b;
    } else {
      assert (a + b)[1..] == a[1..] + b;
      DanglingBoth(t, whole, truncated, a[1..], b);
    }
  }

  /** A reference that resolves as the walk reaches it resolves once it is over, so
      sifting what was met unresolved is sifting the whole walk. */
  lemma {:induction false} MetIsEnough(t: Tables, whole: seq<Visit>, truncated: bool, visits: seq<Visit>)
    requires visits <= whole
    ensures Left(t, whole, truncated, Met(t, visits)) == Dangling(t, whole, truncated, visits)
  {
    if visits != [] {
      var before, v := visits[..|visits| - 1], visits[|visits| - 1];
      assert visits == before + [v];
      MetIsEnough(t, whole, truncated, before);
      DanglingBoth(t, whole, truncated, before, [v]);
      assert [v][1..] == [];
      if Refers(t, v.value) {
        var s := Site(v.value.kind, v.value.id);
        var one := Reference(s.kind, s.id, v.at);
        assert Dangling(t, whole, truncated, [v]) == if Dangles(t, whole, truncated, s) then [one] else [];
        if Resolved(t, before, s) {
          ResolvesStill(t, before, whole, truncated, s);
          assert Met(t, visits) == Met(t, before);
        } else {
          LeftBoth(t, whole, truncated, Met(t, before), [one]);
          assert [one][1..] == [];
          assert Met(t, visits) == Met(t, before) + [one];
        }
      } else {
        assert Dangling(t, whole, truncated, [v]) == [] && Met(t, visits) == Met(t, before);
      }
    }
  }

  lemma ResolvesStill(t: Tables, before: seq<Visit>, whole: seq<Visit>, truncated: bool, s: Site)
    requires before <= whole && Resolved(t, before, s)
    ensures !Dangles(t, whole, truncated, s)
  {
    if s.kind !in t.keyed {
      var i :| 0 <= i < |before| && Declares(t, before[i].value, s.kind, s.id);
      assert Declares(t, whole[i].value, s.kind, s.id);
    }
  }

  /** The references of one walk: what its nodes declared, and the references met
      unresolved, each with its path at the same position of paths. */
  class IDReferences {
    const tables: Tables
    var declared: set<(Kind, string)>
    var sites: seq<Site>
    const paths: P.Log
    ghost var visits: seq<Visit>

    ghost predicate Valid()
      reads this, paths
    {
      && paths.Valid()
      && (forall kind, id :: (kind, id) in declared <==> DeclaredIn(tables, visits, kind, id))
      && sites == Sites(Met(tables, visits)) && paths.recorded == Paths(Met(tables, visits))
    }

    constructor (tables: Tables)
      ensures Valid() && this.tables == tables && visits == [] && fresh(paths)
    {
      this.tables, declared, sites, visits := tables, {}, [], [];
      paths := new P.Log();
    }

    /** Records the identity v declares, or keeps v when it is a reference that does not
        resolve yet. */
    method Visited(v: Shown, at: Path)
      requires Valid()
      modifies this, paths
      ensures Valid() && visits == old(visits) + [Visit(v, at)]
    {
      hide P.Spells, Dangling;
      ghost var before := visits;
      visits := visits + [Visit(v, at)];
      assert visits[..|visits| - 1] == before;
      DeclaredNow(tables, before, Visit(v, at));
      match v
      case NodeOf(Some(named)) =>
        if named.1 != "" && named.0 !in tables.keyed {
          declared := declared + {named};
        }
      case Text(kind, id) =>
        if id != "" && kind in tables.labels {
          var resolves := if kind in tables.keyed then id in tables.keyed[kind] else (kind, id) in declared;
          if !resolves {
            sites := sites + [Site(kind, id)];
            paths.Record(at);
          }
        }
      case _ =>
    }

    /** The references that dangle, in walk order and with their paths: those of the
        whole walk, though a declaration may come after what names it. */
    method Unresolved(truncated: bool) returns (refs: seq<Reference>)
      requires Valid()
      ensures refs == Dangling(tables, visits, truncated, visits)
    {
      hide P.Spells, Dangling, Met;
      ghost var met := Met(tables, visits);
      MetIsEnough(tables, visits, truncated, visits);
      refs := [];
      var all := paths.All();
      for i := 0 to |sites|
        invariant refs == Left(tables, visits, truncated, met[..i])
      {
        LeftBoth(tables, visits, truncated, met[..i], [met[i]]);
        assert met[..i + 1] == met[..i] + [met[i]] && [met[i]][1..] == [];
        var s := sites[i];
        var dangles := if s.kind in tables.keyed then true else !truncated && (s.kind, s.id) !in declared;
        MetIsUnkeyed(tables, visits, i);
        if dangles {
          refs := refs + [Reference(s.kind, s.id, all[i])];
        }
      }
      assert met[..|met|] == met;
    }
  }

  lemma DeclaredNow(t: Tables, before: seq<Visit>, v: Visit)
    ensures forall kind, id :: DeclaredIn(t, before + [v], kind, id) <==>
      DeclaredIn(t, before, kind, id) || Declares(t, v.value, kind, id)
  {
    var now := before + [v];
    forall kind, id | DeclaredIn(t, before, kind, id) || Declares(t, v.value, kind, id) ensures DeclaredIn(t, now, kind, id) {
      if Declares(t, v.value, kind, id) {
        assert now[|before|] == v;
      } else {
        var i :| 0 <= i < |before| && Declares(t, before[i].value, kind, id);
        assert now[i] == before[i];
      }
    }
  }

  // A reference met of a keyed class is in no map.
  lemma {:induction false} MetIsUnkeyed(t: Tables, visits: seq<Visit>, i: nat)
    requires i < |Met(t, visits)|
    ensures var r := Met(t, visits)[i]; r.kind in t.keyed ==> r.id !in t.keyed[r.kind]
  {
    var before := visits[..|visits| - 1];
    if i < |Met(t, before)| {
      MetIsUnkeyed(t, before, i);
    }
  }

  /** The references of a whole walk that dangle, by one pass over its visits. */
  method UnresolvedIn(tables: Tables, visits: seq<Visit>, truncated: bool) returns (refs: seq<Reference>)
    ensures refs == Dangling(tables, visits, truncated, visits)
  {
    var r := new IDReferences(tables);
    for i := 0 to |visits|
      invariant fresh(r) && fresh(r.paths) && r.Valid() && r.tables == tables && r.visits == visits[..i]
    {
      r.Visited(visits[i].value, visits[i].at);
    }
    assert visits[..|visits|] == visits;
    refs := r.Unresolved(truncated);
  }

  /** A reference is reported exactly when some visit makes it and it dangles in the
      whole walk. */
  lemma {:induction false} DanglingHas(t: Tables, whole: seq<Visit>, truncated: bool, visits: seq<Visit>, r: Reference)
    ensures r in Dangling(t, whole, truncated, visits) <==>
      Visit(Text(r.kind, r.id), r.at) in visits && Refers(t, Text(r.kind, r.id)) && Dangles(t, whole, truncated, Site(r.kind, r.id))
  {
    if visits != [] {
      DanglingHas(t, whole, truncated, visits[1..], r);
      assert visits == [visits[0]] + visits[1..];
    }
  }

  /** What a report says of the document itself: text at that path that refers, its ID not
      a key of its class's map, or for a class without one declared by no node of a walk
      that was not cut short. */
  lemma ReportedWhen(t: Tables, visits: seq<Visit>, truncated: bool, r: Reference)
    ensures r in Dangling(t, visits, truncated, visits) <==>
      && Visit(Text(r.kind, r.id), r.at) in visits && r.id != "" && r.kind in t.labels
      && if r.kind in t.keyed then r.id !in t.keyed[r.kind]
         else !truncated && forall at, d :: Visit(NodeOf(d), at) in visits ==> d != Some((r.kind, r.id))
  {
    DanglingHas(t, visits, truncated, visits, r);
    if r.id != "" && r.kind !in t.keyed {
      forall i | 0 <= i < |visits| && Declares(t, visits[i].value, r.kind, r.id)
        ensures Visit(NodeOf(Some((r.kind, r.id))), visits[i].at) in visits
      {
        assert visits[i] == Visit(NodeOf(Some((r.kind, r.id))), visits[i].at);
      }
    }
  }

  /** Of a walk cut short nothing is reported for what it did not declare. */
  lemma CutShortIsSilent(t: Tables, visits: seq<Visit>, r: Reference)
    requires r in Dangling(t, visits, true, visits)
    ensures r.kind in t.keyed && r.id !in t.keyed[r.kind]
  {
    ReportedWhen(t, visits, true, r);
  }
}
