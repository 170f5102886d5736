/** The interning registry: one node per source coordinate, whatever order the
    coordinates are reached in. */
module Interning {
  import opened Values
  import opened Sequences
  import opened Graphs

  // ----- what a compile lowers -----

  /** One thing a build does: interns another coordinate, promises one, or mints a
      node (nothing for a nil one). */
  datatype Step = Interns(at: string) | Promises(at: string) | Mints(id: string, body: Option<string>)

  /** What a coordinate's build does, and whether it returns a nil node. */
  datatype Def = Def(steps: seq<Step>, isNil: bool)

  type Schema = map<string, Def>

  type Derive = string -> string

  datatype TypeDef = SourceNode(at: string, refs: seq<string>) | MintedNode(body: string)

  datatype Refusal =
    | OneIDTwice(id: string, owner: string, other: string)
    | SpaceBothWays(space: string, id: string)
    | InternRejected(at: string, id: string)
    | NilNode(at: string, id: string)
    | NoID
    | NilMinted(id: string)
    | AlreadyHeld(id: string)
    | Late(at: string)
    | PromiseRejected(at: string)
    | NothingBuilt(at: string)

  // ----- identifiers -----

  /** The segment after the kind prefix, empty when there is none. */
  function SpaceOf(id: string): string {
    match Cut(id, '/').1 case None => "" case Some(rest) => Cut(rest, '/').0
  }

  function Trimmed(path: string): string {
    if path != "" && path[0] == '/' then path[1..] else path
  }

  function TypeID(space: string, path: string): string {
    if Trimmed(path) == "" then "t/" + space else "t/" + space + "/" + Trimmed(path)
  }

  /** An ID built from a space and a path names the space, and two paths of a space
      share an ID exactly when a leading separator is all that tells them apart. */
  lemma TypeIDNamesBoth(space: string, a: string, b: string)
    requires '/' !in space
    ensures SpaceOf(TypeID(space, a)) == space
    ensures TypeID(space, a) == TypeID(space, b) <==> Trimmed(a) == Trimmed(b)
  {
    SpaceAndPath(space, a);
    SpaceAndPath(space, b);
  }

  lemma SpaceAndPath(space: string, path: string)
    requires '/' !in space
    ensures var rest := if Trimmed(path) == "" then space else space + "/" + Trimmed(path);
      TypeID(space, path) == "t/" + rest && Cut(TypeID(space, path), '/') == ("t", Some(rest))
    ensures SpaceOf(TypeID(space, path)) == space
    ensures Trimmed(path) != "" ==> Cut(Cut(TypeID(space, path), '/').1.value, '/') == (space, Some(Trimmed(path)))
    ensures Trimmed(path) == "" ==> Cut(Cut(TypeID(space, path), '/').1.value, '/') == (space, None)
  {
    var rest := if Trimmed(path) == "" then space else space + "/" + Trimmed(path);
    assert TypeID(space, path) == "t" + "/" + rest;
    CutAt("t", '/', rest);
    CutAt(space, '/', Trimmed(path));
  }

  // ----- what a compile reaches -----

  predicate Names(s: Step, q: string) {
    !s.Mints? && s.at == q
  }

  predicate RefersTo(schema: Schema, p: string, q: string) {
    p in schema && exists j :: 0 <= j < |schema[p].steps| && Names(schema[p].steps[j], q)
  }

  function Refs(schema: Schema): Edges<string> {
    (p, q) => RefersTo(schema, p, q)
  }

  /** One compile: what there is to lower, the caller's derivation of an ID from a
      coordinate, and the coordinates lowered or promised first. */
  datatype Plan = Plan(schema: Schema, derive: Derive, roots: set<string>)

  /** Some root reaches p through what builds intern and promise. */
  ghost predicate Reached(plan: Plan, p: string) {
    exists r :: r in plan.roots && Reaches(Refs(plan.schema), r, p)
  }

  ghost predicate Minted(plan: Plan, id: string, body: Option<string>) {
    exists p :: Reached(plan, p) && p in plan.schema && Mints(id, body) in plan.schema[p].steps
  }

  /** What a compile is held to: each coordinate it reaches can be built, no two share
      an ID, and a minted ID is one node in a space no coordinate's ID is in. */
  ghost predicate Legit(plan: Plan) {
    && (forall p :: Reached(plan, p) ==> p != "" && p in plan.schema && !plan.schema[p].isNil)
    && (forall p, q :: Reached(plan, p) && Reached(plan, q) && plan.derive(p) == plan.derive(q) ==> p == q)
    && (forall id, body :: Minted(plan, id, body) ==> id != "" && body.Some?)
    && (forall id, a, b :: Minted(plan, id, a) && Minted(plan, id, b) ==> a == b)
    && (forall p, id, body :: Reached(plan, p) && Minted(plan, id, body) ==> SpaceOf(plan.derive(p)) != SpaceOf(id))
  }

  /** An injective derivation does not make a plan legitimate: a build may return nil. */
  lemma NilBuildIsNotLegit(derive: Derive, p: string)
    ensures !Legit(Plan(map[p := Def([], true)], derive, {p}))
  {
    var plan := Plan(map[p := Def([], true)], derive, {p});
    hide Reaches;
    ReachSelf(Refs(plan.schema), p);
    assert Reached(plan, p);
  }

  /** Nor where every build returns a node: one may mint a node in a coordinate's space. */
  lemma SharedSpaceIsNotLegit(derive: Derive, p: string, id: string, body: string)
    requires SpaceOf(id) == SpaceOf(derive(p))
    ensures !Legit(Plan(map[p := Def([Mints(id, Some(body))], false)], derive, {p}))
  {
    var plan := Plan(map[p := Def([Mints(id, Some(body))], false)], derive, {p});
    hide Reaches, SpaceOf;
    ReachSelf(Refs(plan.schema), p);
    assert Reached(plan, p);
    assert Mints(id, Some(body)) in plan.schema[p].steps;
    assert Minted(plan, id, Some(body));
  }

  // Each coordinate mapped is one the compile reaches, to its own ID.
  ghost predicate Mapped(plan: Plan, byPointer: map<string, string>) {
    forall p :: p in byPointer ==> byPointer[p] == plan.derive(p) && Reached(plan, p)
  }

  lemma MapsMore(plan: Plan, byPointer: map<string, string>, p: string)
    requires Mapped(plan, byPointer) && Reached(plan, p)
    ensures Mapped(plan, byPointer[p := plan.derive(p)])
  {}

  // Every coordinate's ID has a space segment.
  ghost predicate Addressed(derive: Derive) {
    forall p :: SpaceOf(derive(p)) != ""
  }

  function RefOf(derive: Derive, s: Step): string {
    if s.Mints? then s.id else derive(s.at)
  }

  function RefsOf(derive: Derive, steps: seq<Step>): seq<string> {
    seq(|steps|, j requires 0 <= j < |steps| => RefOf(derive, steps[j]))
  }

  // The node at p, wherever it is built from.
  function NodeOf(plan: Plan, p: string): TypeDef
    requires p in plan.schema
  {
    SourceNode(p, RefsOf(plan.derive, plan.schema[p].steps))
  }

  type Registry = map<string, TypeDef>

  /** reg is what the roots determine: a node for each coordinate they reach under its
      ID, each minted node under its own, and no other. */
  ghost predicate Determined(plan: Plan, reg: Registry) {
    && (forall p :: Reached(plan, p) ==>
          p in plan.schema && plan.derive(p) in reg && reg[plan.derive(p)] == NodeOf(plan, p))
    && (forall id, body :: Minted(plan, id, body) ==> body.Some? && id in reg && reg[id] == MintedNode(body.value))
    && (forall id :: id in reg ==> IsDue(plan, id))
  }

  ghost predicate IsDue(plan: Plan, id: string) {
    (exists p :: Reached(plan, p) && plan.derive(p) == id) || (exists body :: Minted(plan, id, body))
  }

  /** The roots determine one registry. */
  lemma DeterminedOnce(plan: Plan, a: Registry, b: Registry)
    requires Determined(plan, a) && Determined(plan, b)
    ensures a == b
  {
    DeterminedWithin(plan, a, b);
    DeterminedWithin(plan, b, a);
  }

  lemma DeterminedWithin(plan: Plan, a: Registry, b: Registry)
    requires Determined(plan, a) && Determined(plan, b)
    ensures forall id :: id in a ==> id in b && a[id] == b[id]
  {
    forall id | id in a ensures id in b && a[id] == b[id] {
      assert IsDue(plan, id);
      if p :| Reached(plan, p) && plan.derive(p) == id {
      } else {
        var body :| Minted(plan, id, body);
      }
    }
  }

  // ----- what the registry keeps while it is not refused -----

  /** The two maps between coordinates and IDs are inverses. */
  ghost predicate Owned(plan: Plan, byPointer: map<string, string>, byID: map<string, string>) {
    && (forall p :: p in byPointer ==>
          p != "" && p in plan.schema && plan.derive(p) in byID && byID[plan.derive(p)] == p)
    && (forall id :: id in byID ==> byID[id] in byPointer && plan.derive(byID[id]) == id)
  }

  /** Each space is recorded for what it holds. */
  ghost predicate Spaced(plan: Plan, byPointer: map<string, string>, minted: map<string, string>, spaces: map<string, bool>) {
    && (forall p :: p in byPointer ==> SpaceOf(plan.derive(p)) in spaces && !spaces[SpaceOf(plan.derive(p))])
    && (forall id :: id in minted && SpaceOf(id) != "" ==> SpaceOf(id) in spaces && spaces[SpaceOf(id)])
    && (forall s :: s in spaces ==> if spaces[s] then MintSpace(plan, s) else SourceSpace(plan, s))
  }

  ghost predicate MintSpace(plan: Plan, s: string) {
    exists id, body :: Minted(plan, id, body) && SpaceOf(id) == s
  }

  ghost predicate SourceSpace(plan: Plan, s: string) {
    exists p :: Reached(plan, p) && SpaceOf(plan.derive(p)) == s
  }

  /** What has been interned, promised and minted so far. */
  datatype Seen = Seen(interned: set<string>, promised: set<string>, minted: map<string, string>)

  ghost predicate StepDone(seen: Seen, s: Step) {
    match s
    case Interns(q) => q in seen.interned
    case Promises(q) => q in seen.promised
    case Mints(id, body) => id in seen.minted && body == Some(seen.minted[id])
  }

  ghost predicate AllDone(seen: Seen, steps: seq<Step>) {
    forall j :: 0 <= j < |steps| ==> StepDone(seen, steps[j])
  }

  // All seen before is seen still.
  ghost predicate SeesMore(a: Seen, b: Seen) {
    && a.interned <= b.interned && a.promised <= b.promised
    && forall id :: id in a.minted ==> id in b.minted && b.minted[id] == a.minted[id]
  }

  lemma SeesMoreBy(a: Seen, b: Seen)
    requires a.interned <= b.interned && a.promised <= b.promised && a.minted == b.minted
    ensures SeesMore(a, b)
  {}

  lemma SeesThen(a: Seen, b: Seen, c: Seen)
    requires SeesMore(a, b) && SeesMore(b, c)
    ensures SeesMore(a, c)
  {}

  ghost predicate AtRest(plan: Plan, seen: Seen, reg: Registry, p: string) {
    && p in plan.schema && !plan.schema[p].isNil && AllDone(seen, plan.schema[p].steps)
    && plan.derive(p) in reg && reg[plan.derive(p)] == NodeOf(plan, p)
  }

  /** A coordinate at rest holds its node; one still building holds none. */
  ghost predicate Built(plan: Plan, seen: Seen, building: set<string>, reg: Registry) {
    && (forall p :: p in seen.interned && p !in building ==> AtRest(plan, seen, reg, p))
    && (forall p :: p in building ==> plan.derive(p) !in reg)
  }

  /** The registry holds minted nodes and nodes at rest, and nothing else. */
  ghost predicate Held(plan: Plan, minted: map<string, string>, byID: map<string, string>, building: set<string>,
      reg: Registry) {
    && (forall id :: id in minted ==>
          id != "" && id in reg && reg[id] == MintedNode(minted[id]) && Minted(plan, id, Some(minted[id])))
    && (forall id :: id in reg ==> id in minted || (id in byID && byID[id] !in building))
  }

  /** A registry's contents, with the coordinates building and the nodes minted. */
  datatype State = State(byPointer: map<string, string>, byID: map<string, string>, spaces: map<string, bool>,
    promised: set<string>, reg: Registry, building: set<string>, minted: map<string, string>)
  {
    function Sees(): Seen {
      Seen(byPointer.Keys, promised, minted)
    }
  }

  ghost predicate Clean(plan: Plan, s: State) {
    && Owned(plan, s.byPointer, s.byID) && Spaced(plan, s.byPointer, s.minted, s.spaces)
    && Built(plan, s.Sees(), s.building, s.reg) && Held(plan, s.minted, s.byID, s.building, s.reg)
  }

  /** Neither another coordinate's ID nor a minted node's space is in p's way. */
  predicate Free(plan: Plan, s: State, p: string) {
    && (plan.derive(p) in s.byID ==> s.byID[plan.derive(p)] == p)
    && (SpaceOf(plan.derive(p)) in s.spaces ==> !s.spaces[SpaceOf(plan.derive(p))])
  }

  function Claimed(plan: Plan, s: State, p: string): State {
    var id := plan.derive(p);
    s.(byPointer := s.byPointer[p := id], byID := s.byID[id := p], spaces := s.spaces[SpaceOf(id) := false],
    building := s.building + {p})
  }

  /** Claiming a new coordinate keeps the registry clean unless another's ID or space
      is in the way. */
  lemma ClaimKeeps(plan: Plan, s: State, p: string)
    requires Clean(plan, s) && Addressed(plan.derive) && Reached(plan, p)
    requires p != "" && p in plan.schema && p !in s.byPointer && Free(plan, s, p)
    ensures Clean(plan, Claimed(plan, s, p))
  {
    hide Owned, Spaced, Built, Held, Reached, Addressed, SpaceOf;
    ClaimOwns(plan, s.byPointer, s.byID, p);
    OwnsOnce(plan, s.byPointer, s.byID, p);
    ClaimSpaces(plan, s.byPointer, s.minted, s.spaces, p);
    ClaimBuilds(plan, s.Sees(), s.building, s.byID, s.reg, p);
    ClaimHolds(plan, s.minted, s.byID, s.building, s.reg, p);
    assert Claimed(plan, s, p).Sees() == s.Sees().(interned := s.Sees().interned + {p});
  }

  lemma {:induction false} ClaimRefuses(plan: Plan, s: State, p: string)
    requires Clean(plan, s) && Mapped(plan, s.byPointer)
    requires Legit(plan) && Reached(plan, p) && p !in s.byPointer
    ensures Free(plan, s, p)
  {
    hide Built, Held, Reached, SpaceOf;
  }

  lemma ClaimOwns(plan: Plan, byPointer: map<string, string>, byID: map<string, string>, p: string)
    requires Owned(plan, byPointer, byID) && p != "" && p in plan.schema && p !in byPointer
    requires plan.derive(p) in byID ==> byID[plan.derive(p)] == p
    ensures plan.derive(p) !in byID
    ensures Owned(plan, byPointer[p := plan.derive(p)], byID[plan.derive(p) := p])
  {}

  lemma OwnsOnce(plan: Plan, byPointer: map<string, string>, byID: map<string, string>, p: string)
    requires Owned(plan, byPointer, byID) && p !in byPointer
    ensures forall id :: id in byID ==> byID[id] != p
  {}

  lemma HasSpace(derive: Derive, p: string)
    requires Addressed(derive)
    ensures SpaceOf(derive(p)) != "" && derive(p) != ""
  {}

  lemma ClaimSpaces(plan: Plan, byPointer: map<string, string>, minted: map<string, string>, spaces: map<string, bool>,
      p: string)
    requires Spaced(plan, byPointer, minted, spaces) && Reached(plan, p) && Addressed(plan.derive)
    requires SpaceOf(plan.derive(p)) in spaces ==> !spaces[SpaceOf(plan.derive(p))]
    ensures plan.derive(p) !in minted
    ensures Spaced(plan, byPointer[p := plan.derive(p)], minted, spaces[SpaceOf(plan.derive(p)) := false])
  {
    hide SpaceOf, Addressed, Reached, MintSpace, SourceSpace;
    HasSpace(plan.derive, p);
    IsSourceSpace(plan, p);
  }

  lemma IsSourceSpace(plan: Plan, p: string)
    requires Reached(plan, p)
    ensures SourceSpace(plan, SpaceOf(plan.derive(p)))
  {
    hide Reached, SpaceOf;
  }

  lemma DoneStays(a: Seen, b: Seen, steps: seq<Step>)
    requires SeesMore(a, b) && AllDone(a, steps)
    ensures AllDone(b, steps)
  {
    forall j | 0 <= j < |steps| ensures StepDone(b, steps[j]) {
      assert StepDone(a, steps[j]);
    }
  }

  lemma ClaimBuilds(plan: Plan, seen: Seen, building: set<string>, byID: map<string, string>, reg: Registry, p: string)
    requires Built(plan, seen, building, reg) && Held(plan, seen.minted, byID, building, reg)
    requires plan.derive(p) !in byID && plan.derive(p) !in seen.minted
    ensures Built(plan, seen.(interned := seen.interned + {p}), building + {p}, reg)
  {
    hide Held;
    var more := seen.(interned := seen.interned + {p});
    forall q | q in more.interned && q !in building + {p} ensures AtRest(plan, more, reg, q) {
      assert AtRest(plan, seen, reg, q);
      DoneStays(seen, more, plan.schema[q].steps);
    }
    assert plan.derive(p) !in reg by {
      HasNone(plan, seen.minted, byID, building, reg, plan.derive(p));
    }
  }

  lemma HasNone(plan: Plan, minted: map<string, string>, byID: map<string, string>, building: set<string>, reg: Registry,
      id: string)
    requires Held(plan, minted, byID, building, reg) && id !in byID && id !in minted
    ensures id !in reg
  {}

  lemma ClaimHolds(plan: Plan, minted: map<string, string>, byID: map<string, string>, building: set<string>, reg: Registry,
      p: string)
    requires Held(plan, minted, byID, building, reg) && plan.derive(p) !in byID
    requires forall id :: id in byID ==> byID[id] != p
    ensures Held(plan, minted, byID[plan.derive(p) := p], building + {p}, reg)
  {}

  // ----- a node built, minted or promised -----

  function Rested(plan: Plan, s: State, p: string): State
    requires p in plan.schema
  {
    s.(reg := s.reg[plan.derive(p) := NodeOf(plan, p)], building := s.building - {p})
  }

  lemma RestHas(plan: Plan, seen: Seen, building: set<string>, reg: Registry, p: string)
    requires Built(plan, seen, building, reg) && p in seen.interned && p !in building
    ensures plan.derive(p) in reg
  {
    assert AtRest(plan, seen, reg, p);
  }

  lemma RestBuilds(plan: Plan, s: State, p: string)
    requires Owned(plan, s.byPointer, s.byID) && Built(plan, s.Sees(), s.building, s.reg)
    requires p in s.byPointer && !plan.schema[p].isNil && AllDone(s.Sees(), plan.schema[p].steps)
    requires s.building <= s.byPointer.Keys
    ensures Built(plan, s.Sees(), s.building - {p}, Rested(plan, s, p).reg)
  {
    hide AllDone, NodeOf;
  }

  lemma RestHolds(plan: Plan, s: State, p: string)
    requires Owned(plan, s.byPointer, s.byID) && Held(plan, s.minted, s.byID, s.building, s.reg)
    requires p in s.byPointer && plan.derive(p) !in s.reg
    ensures Held(plan, s.minted, s.byID, s.building - {p}, Rested(plan, s, p).reg)
  {
    hide NodeOf, Minted;
  }

  /** Storing the node of a coordinate whose build is done keeps the registry clean. */
  lemma RestKeeps(plan: Plan, s: State, p: string)
    requires Clean(plan, s) && p in s.building && s.building <= s.byPointer.Keys && p in plan.schema
    requires !plan.schema[p].isNil && AllDone(s.Sees(), plan.schema[p].steps)
    ensures Clean(plan, Rested(plan, s, p))
  {
    hide Owned, Spaced, Held, AllDone, NodeOf, AtRest;
    RestBuilds(plan, s, p);
    RestHolds(plan, s, p);
    assert Rested(plan, s, p).Sees() == s.Sees();
  }

  function Recorded(s: State, id: string, body: string): State {
    s.(reg := s.reg[id := MintedNode(body)], minted := s.minted[id := body],
    spaces := if SpaceOf(id) == "" then s.spaces else s.spaces[SpaceOf(id) := true])
  }

  // No coordinate holds an ID whose space is not a coordinate's.
  lemma NotSource(plan: Plan, s: State, id: string)
    requires Spaced(plan, s.byPointer, s.minted, s.spaces) && Addressed(plan.derive)
    requires SpaceOf(id) != "" && SpaceOf(id) in s.spaces ==> s.spaces[SpaceOf(id)]
    ensures forall p :: p in s.byPointer ==> plan.derive(p) != id
  {
    hide SpaceOf;
  }

  lemma MintSpaces(plan: Plan, s: State, id: string, body: string)
    requires Spaced(plan, s.byPointer, s.minted, s.spaces) && Minted(plan, id, Some(body))
    requires SpaceOf(id) != "" && SpaceOf(id) in s.spaces ==> s.spaces[SpaceOf(id)]
    ensures Spaced(plan, s.byPointer, Recorded(s, id, body).minted, Recorded(s, id, body).spaces)
  {
    hide SpaceOf, Minted;
    assert MintSpace(plan, SpaceOf(id));
  }

  lemma MintBuilds(plan: Plan, s: State, id: string, body: string)
    requires Built(plan, s.Sees(), s.building, s.reg) && s.building <= s.byPointer.Keys
    requires forall p :: p in s.byPointer ==> plan.derive(p) != id
    requires id in s.minted ==> s.minted[id] == body
    ensures Built(plan, Recorded(s, id, body).Sees(), s.building, Recorded(s, id, body).reg)
  {
    hide AllDone, NodeOf;
    var to := Recorded(s, id, body);
    forall p | p in s.byPointer && p !in s.building ensures AtRest(plan, to.Sees(), to.reg, p) {
      assert p in s.Sees().interned;
      DoneStays(s.Sees(), to.Sees(), plan.schema[p].steps);
    }
  }

  lemma MintHolds(plan: Plan, s: State, id: string, body: string)
    requires Held(plan, s.minted, s.byID, s.building, s.reg) && id != "" && Minted(plan, id, Some(body))
    ensures Held(plan, Recorded(s, id, body).minted, s.byID, s.building, Recorded(s, id, body).reg)
  {
    hide Minted, SpaceOf;
  }

  /** A node in reg that no coordinate has is the one minted there. */
  lemma HeldIsMinted(plan: Plan, s: State, id: string)
    requires Owned(plan, s.byPointer, s.byID) && Held(plan, s.minted, s.byID, s.building, s.reg)
    requires forall p :: p in s.byPointer ==> plan.derive(p) != id
    ensures id in s.reg <==> id in s.minted
    ensures id in s.reg ==> s.reg[id] == MintedNode(s.minted[id])
  {
    hide Minted;
  }

  /** Minting a node keeps the registry clean unless the space is a coordinate's or
      another node stands there. */
  lemma MintKeeps(plan: Plan, s: State, id: string, body: string)
    requires Clean(plan, s) && Addressed(plan.derive) && s.building <= s.byPointer.Keys
    requires id != "" && Minted(plan, id, Some(body))
    requires SpaceOf(id) != "" && SpaceOf(id) in s.spaces ==> s.spaces[SpaceOf(id)]
    requires id in s.reg ==> s.reg[id] == MintedNode(body)
    ensures Clean(plan, Recorded(s, id, body))
    ensures SeesMore(s.Sees(), Recorded(s, id, body).Sees())
  {
    hide Owned, Spaced, Built, Held, Addressed, SpaceOf, Minted;
    NotSource(plan, s, id);
    HeldIsMinted(plan, s, id);
    MintSpaces(plan, s, id, body);
    MintBuilds(plan, s, id, body);
    MintHolds(plan, s, id, body);
  }

  lemma MintRefuses(plan: Plan, s: State, id: string, body: string)
    requires Clean(plan, s) && Addressed(plan.derive) && Legit(plan) && Minted(plan, id, Some(body))
    requires Mapped(plan, s.byPointer)
    ensures SpaceOf(id) in s.spaces ==> s.spaces[SpaceOf(id)]
    ensures id in s.reg ==> s.reg[id] == MintedNode(body)
  {
    hide Built, Reached, SpaceOf, Minted;
    NotSource(plan, s, id);
    HeldIsMinted(plan, s, id);
  }

  lemma PromiseKeeps(plan: Plan, s: State, c: string)
    requires Clean(plan, s)
    ensures Clean(plan, s.(promised := s.promised + {c}))
  {
    hide Owned, Spaced, Held;
    var to := s.(promised := s.promised + {c});
    forall p | p in s.byPointer && p !in s.building ensures AtRest(plan, to.Sees(), to.reg, p) {
      assert p in s.Sees().interned;
      DoneStays(s.Sees(), to.Sees(), plan.schema[p].steps);
    }
  }

  lemma StepReaches(plan: Plan, p: string, step: Step)
    requires Reached(plan, p) && p in plan.schema && step in plan.schema[p].steps
    ensures if step.Mints? then Minted(plan, step.id, step.body) else Reached(plan, step.at)
  {
    if !step.Mints? {
      var r :| r in plan.roots && Reaches(Refs(plan.schema), r, p);
      var j :| 0 <= j < |plan.schema[p].steps| && plan.schema[p].steps[j] == step;
      assert Names(plan.schema[p].steps[j], step.at);
      ReachOn(Refs(plan.schema), r, p, step.at);
    }
  }

  // ----- the registry -----

  /** The registry of one compile. */
  class Types {
    const plan: Plan
    var reg: Registry
    var byPointer: map<string, string>
    var byID: map<string, string>
    var spaces: map<string, bool>
    var promised: set<string>
    var promises: set<string>
    var refused: seq<Refusal>
    var fulfilled: bool
    ghost var building: set<string>
    ghost var minted: map<string, string>

    ghost function Now(): State
      reads this
    {
      State(byPointer, byID, spaces, promised, reg, building, minted)
    }

    ghost predicate Inv()
      reads this
    {
      && Addressed(plan.derive) && building <= byPointer.Keys
      && Mapped(plan, byPointer) && (forall p :: p in promised ==> p in plan.schema && Reached(plan, p))
      && promises <= promised
      && (refused == [] ==> Clean(plan, Now()))
    }

    /** The registry only took more: what was claimed, promised and minted still is. */
    twostate predicate Went()
      reads this
    {
      && old(refused) <= refused && building == old(building) && fulfilled == old(fulfilled)
      && old(byPointer.Keys) <= byPointer.Keys && old(promised) <= promised
      && promises == old(promises) + (promised - old(promised))
      && (refused == [] ==> SeesMore(old(Now().Sees()), Now().Sees()))
    }

    constructor (plan: Plan)
      requires Addressed(plan.derive)
      ensures Inv() && this.plan == plan
      ensures refused == [] && !fulfilled && byPointer == map[] && promised == {} && promises == {} && building == {}
    {
      this.plan := plan;
      reg, byPointer, byID, spaces := map[], map[], map[], map[];
      promised, promises, refused, fulfilled := {}, {}, [], false;
      building, minted := {}, map[];
    }

    /** Records whether id's space holds minted nodes, refused when it holds the others. */
    method ClaimSpace(id: string, mint: bool)
      modifies this`spaces, this`refused
      ensures var s := SpaceOf(id);
        if s == "" then spaces == old(spaces) && refused == old(refused)
        else if s in old(spaces) && old(spaces)[s] != mint then
          spaces == old(spaces) && refused == old(refused) + [SpaceBothWays(s, id)]
        else spaces == old(spaces)[s := mint] && refused == old(refused)
    {
      var space := SpaceOf(id);
      if space == "" {
        return;
      }
      if space in spaces && spaces[space] != mint {
        refused := refused + [SpaceBothWays(space, id)];
        return;
      }
      spaces := spaces[space := mint];
    }

    /** Records which coordinate owns id, refused when another does. */
    method ClaimID(id: string, pointer: string)
      modifies this`byID, this`refused
      ensures if id in old(byID) && old(byID)[id] != pointer then
          byID == old(byID) && refused == old(refused) + [OneIDTwice(id, old(byID)[id], pointer)]
        else byID == old(byID)[id := pointer] && refused == old(refused)
    {
      if id in byID && byID[id] != pointer {
        refused := refused + [OneIDTwice(id, byID[id], pointer)];
        return;
      }
      byID := byID[id := pointer];
    }

    /** Claims a coordinate and its ID for a build about to run. */
    method Claim(pointer: string)
      requires Inv() && Reached(plan, pointer)
      requires pointer !in byPointer && pointer != "" && pointer in plan.schema
      modifies this`spaces, this`byID, this`byPointer, this`refused, this`building
      ensures Inv()
      ensures byPointer == old(byPointer)[pointer := plan.derive(pointer)] && building == old(building) + {pointer}
      ensures old(refused) <= refused && (refused == old(refused) <==> old(Free(plan, Now(), pointer)))
    {
      hide Clean, Reached, Addressed, SpaceOf, Mapped;
      ghost var was := Now();
      MapsMore(plan, byPointer, pointer);
      HasSpace(plan.derive, pointer);
      ClaimSpace(plan.derive(pointer), false);
      ClaimID(plan.derive(pointer), pointer);
      byPointer := byPointer[pointer := plan.derive(pointer)];
      building := building + {pointer};
      if refused == [] {
        ClaimKeeps(plan, was, pointer);
        assert Now() == Claimed(plan, was, pointer);
      }
    }

    /** Takes a build's node for a coordinate, or drops the claim of one that built none. */
    method Finished(pointer: string, td: Option<TypeDef>)
      requires Inv() && pointer in building && pointer in plan.schema
      requires td == (if plan.schema[pointer].isNil then None else Some(NodeOf(plan, pointer)))
      requires refused == [] ==> AllDone(Now().Sees(), plan.schema[pointer].steps)
      modifies this`reg, this`byPointer, this`byID, this`refused, this`building
      ensures Inv() && building == old(building) - {pointer}
      ensures old(refused) <= refused && (Legit(plan) && old(refused) == [] ==> refused == [])
      ensures byPointer.Keys == if td.Some? then old(byPointer.Keys) else old(byPointer.Keys) - {pointer}
      ensures td.None? ==> refused != []
      ensures refused == [] ==> SeesMore(old(Now().Sees()), Now().Sees())
    {
      hide Legit, Clean, Reached, Addressed, NodeOf, AllDone;
      ghost var was := Now();
      var id := plan.derive(pointer);
      building := building - {pointer};
      if td.None? {
        MustBuild(pointer);
        byPointer := byPointer - {pointer};
        byID := byID - {id};
        refused := refused + [NilNode(pointer, id)];
        return;
      }
      reg := reg[id := td.value];
      if refused == [] {
        RestKeeps(plan, was, pointer);
        assert Now() == Rested(plan, was, pointer);
        SeesMoreBy(was.Sees(), Now().Sees());
      }
    }

    lemma MapsIt(p: string)
      requires Inv()
      ensures Mapped(plan, byPointer) && (p in byPointer ==> byPointer[p] == plan.derive(p))
      ensures forall q :: q in building ==> Reached(plan, q)
    {}

    lemma MayClaim(p: string)
      requires Inv() && Reached(plan, p) && p !in byPointer
      ensures refused == [] && Legit(plan) ==> Free(plan, Now(), p)
    {
      if refused == [] && Legit(plan) {
        hide Legit, Clean, Free, Mapped;
        ClaimRefuses(plan, Now(), p);
      }
    }

    lemma MustBuild(p: string)
      requires Reached(plan, p)
      ensures Legit(plan) ==> p != "" && p in plan.schema && !plan.schema[p].isNil
    {}

    /** The ID of the coordinate, whose node is built on the first visit only. */
    method Intern(pointer: string) returns (id: string)
      requires Inv() && Reached(plan, pointer)
      modifies this
      ensures Inv() && Went() && id == plan.derive(pointer)
      ensures refused == [] ==> pointer in byPointer
      ensures Legit(plan) && !fulfilled && old(refused) == [] ==> refused == []
      decreases plan.schema.Keys - byPointer.Keys, 1
    {
      hide Legit, Clean, Reached, Addressed, SpaceOf, NodeOf, AllDone, SeesMore, Mapped, Free;
      ghost var saw := Now().Sees();
      SeesMoreBy(saw, saw);
      MapsIt(pointer);
      id := plan.derive(pointer);
      if pointer in byPointer {
        return byPointer[pointer];
      }
      MustBuild(pointer);
      if pointer == "" || id == "" || pointer !in plan.schema {
        HasSpace(plan.derive, pointer);
        refused := refused + [InternRejected(pointer, id)];
        return;
      }
      First(pointer);
    }

    /** Builds a coordinate no lowering has reached. */
    method First(pointer: string)
      requires Inv() && Reached(plan, pointer)
      requires pointer !in byPointer && pointer != "" && pointer in plan.schema
      modifies this
      ensures Inv() && Went()
      ensures refused == [] ==> pointer in byPointer
      ensures Legit(plan) && !fulfilled && old(refused) == [] ==> refused == []
      decreases plan.schema.Keys - byPointer.Keys, 0
    {
      hide Legit, Clean, Reached, Addressed, SpaceOf, NodeOf, AllDone, SeesMore, Mapped, Free;
      ghost var saw := Now().Sees();
      MustBuild(pointer);
      MayClaim(pointer);
      Claim(pointer);
      ghost var claimed := Now().Sees();
      var td := Build(pointer);
      ghost var built := Now().Sees();
      Finished(pointer, td);
      assert building == old(building);
      assert old(byPointer.Keys) <= byPointer.Keys;
      if refused == [] {
        SeesMoreBy(saw, claimed);
        SeesThen(saw, claimed, built);
        SeesThen(saw, built, Now().Sees());
      }
    }

    /** Lowers what pointer declares, in order, to its node. */
    method Build(pointer: string) returns (td: Option<TypeDef>)
      requires Inv() && pointer in building && pointer in plan.schema
      modifies this
      ensures Inv() && Went()
      ensures td == if plan.schema[pointer].isNil then None else Some(NodeOf(plan, pointer))
      ensures refused == [] ==> AllDone(Now().Sees(), plan.schema[pointer].steps)
      ensures Legit(plan) && !fulfilled && old(refused) == [] ==> refused == []
      decreases plan.schema.Keys - byPointer.Keys, 3
    {
      hide Legit, Clean, Reached, Addressed, SpaceOf;
      var refs := [];
      var steps := plan.schema[pointer].steps;
      for i := 0 to |steps|
        invariant Inv() && Went() && |refs| == i
        invariant forall j :: 0 <= j < i ==> refs[j] == RefOf(plan.derive, steps[j])
        invariant refused == [] ==> AllDone(Now().Sees(), steps[..i])
        invariant Legit(plan) && !fulfilled && old(refused) == [] ==> refused == []
      {
        ghost var saw := Now().Sees();
        var ref := Take(pointer, steps[i]);
        refs := refs + [ref];
        assert refused == [] ==> AllDone(Now().Sees(), steps[..i + 1]) by {
          if refused == [] {
            DoneStays(saw, Now().Sees(), steps[..i]);
          }
        }
      }
      assert steps[..|steps|] == steps;
      assert refs == RefsOf(plan.derive, steps);
      td := if plan.schema[pointer].isNil then None else Some(SourceNode(pointer, refs));
    }

    /** Takes one step of the build at from, and gives the ID it refers to. */
    method Take(ghost from: string, step: Step) returns (ref: string)
      requires Inv() && from in building && from in plan.schema && step in plan.schema[from].steps
      modifies this
      ensures Inv() && Went() && ref == RefOf(plan.derive, step)
      ensures refused == [] ==> StepDone(Now().Sees(), step)
      ensures Legit(plan) && !fulfilled && old(refused) == [] ==> refused == []
      decreases plan.schema.Keys - byPointer.Keys, 2
    {
      hide Legit, Clean, Reached, Addressed, SpaceOf, AllDone;
      StepReaches(plan, from, step);
      match step
      case Interns(q) => ref := Intern(q);
      case Promises(q) =>
        Promise(q);
        ref := plan.derive(q);
      case Mints(id, body) =>
        Register(id, body);
        ref := id;
    }

    /** Queues a coordinate for Fulfil, once. */
    method Promise(c: string)
      requires Inv() && Reached(plan, c)
      modifies this`promised, this`promises, this`refused
      ensures Inv() && Went()
      ensures refused == [] ==> c in promised
      ensures Legit(plan) && !fulfilled && old(refused) == [] ==> refused == []
      ensures var why := if fulfilled then [Late(c)] else if c == "" || c !in plan.schema then [PromiseRejected(c)] else [];
        && refused == old(refused) + why
        && promised == (if why == [] then old(promised) + {c} else old(promised))
        && promises == (if why == [] && c !in old(promised) then old(promises) + {c} else old(promises))
    {
      hide Legit, Clean, Reached, Addressed;
      MustBuild(c);
      if fulfilled {
        refused := refused + [Late(c)];
      } else if c == "" || c !in plan.schema {
        refused := refused + [PromiseRejected(c)];
      } else if c !in promised {
        ghost var was := Now();
        promised := promised + {c};
        promises := promises + {c};
        if refused == [] {
          PromiseKeeps(plan, was, c);
          assert Now() == was.(promised := was.promised + {c});
        }
      }
    }

    /** Why a registration is refused: no ID, no node, a space that holds nodes of
        coordinates, another node at the ID.  The space and the held node may both be why. */
    ghost function RegisterRefuses(id: string, body: Option<string>): seq<Refusal>
      reads this`reg, this`spaces
    {
      if id == "" then [NoID] else if body.None? then [NilMinted(id)] else MintRefusals(id, body.value)
    }

    ghost function MintRefusals(id: string, body: string): seq<Refusal>
      reads this`reg, this`spaces
    {
      var s := SpaceOf(id);
      (if s != "" && s in spaces && !spaces[s] then [SpaceBothWays(s, id)] else [])
      + if id in reg && reg[id] != MintedNode(body) then [AlreadyHeld(id)] else []
    }

    /** Records a minted node, which must be one node each time its ID is minted: what an
        ID holds stands, and only a node at an ID that held none is added. */
    method Register(id: string, body: Option<string>)
      requires Inv() && Minted(plan, id, body)
      modifies this`reg, this`spaces, this`refused, this`minted
      ensures Inv() && Went()
      ensures refused == [] ==> id in minted && body == Some(minted[id])
      ensures Legit(plan) && old(refused) == [] ==> refused == []
      ensures refused == old(refused) + old(RegisterRefuses(id, body))
      ensures reg == if id != "" && body.Some? && id !in old(reg) then old(reg)[id := MintedNode(body.value)] else old(reg)
    {
      hide Legit, Clean, Reached, Addressed, SpaceOf, Minted, Mapped, SeesMore;
      MustMint(id, body);
      SeesMoreBy(Now().Sees(), Now().Sees());
      if id == "" {
        refused := refused + [NoID];
        return;
      }
      if body.None? {
        refused := refused + [NilMinted(id)];
        return;
      }
      ghost var was := Now();
      if refused == [] && Legit(plan) {
        MintRefuses(plan, was, id, body.value);
      }
      Mint(id, body.value);
      if refused == [] {
        MintKeeps(plan, was, id, body.value);
      }
    }

    // Adds a minted node where its ID held none, whatever its space held.
    method Mint(id: string, body: string)
      modifies this`reg, this`spaces, this`refused, this`minted
      ensures refused == old(refused) + old(MintRefusals(id, body))
      ensures reg == if id in old(reg) then old(reg) else old(reg)[id := MintedNode(body)]
      ensures refused == old(refused) ==> Now() == Recorded(old(Now()), id, body)
    {
      hide SpaceOf;
      ClaimSpace(id, true);
      if id in reg {
        if reg[id] != MintedNode(body) {
          refused := refused + [AlreadyHeld(id)];
          return;
        }
      }
      reg := reg[id := MintedNode(body)];
      minted := minted[id := body];
    }

    lemma MustMint(id: string, body: Option<string>)
      requires Minted(plan, id, body)
      ensures Legit(plan) ==> id != "" && body.Some?
    {}

    /** Builds what was promised so far, in any order. */
    method Round()
      requires Inv() && building == {} && !fulfilled
      requires refused == [] ==> promised - promises <= byPointer.Keys
      modifies this
      ensures Inv() && building == {} && !fulfilled && old(refused) <= refused
      ensures old(byPointer.Keys) <= byPointer.Keys
      ensures old(promised) <= promised && promises == promised - old(promised)
      ensures refused == [] ==> promised - promises <= byPointer.Keys
      ensures Legit(plan) && old(refused) == [] ==> refused == []
    {
      hide Legit, Clean, Reached, Addressed;
      var round := promises;
      promises := {};
      while round != {}
        invariant Inv() && building == {} && !fulfilled && old(refused) <= refused
        invariant old(byPointer.Keys) <= byPointer.Keys && round <= old(promised)
        invariant old(promised) <= promised && promises == promised - old(promised)
        invariant refused == [] ==> promised - promises - round <= byPointer.Keys
        invariant Legit(plan) && old(refused) == [] ==> refused == []
        decreases round
      {
        var c :| c in round;
        round := round - {c};
        if c !in byPointer {
          Owed(c);
        }
      }
    }

    // Builds a promised coordinate, which must leave a node there.
    method Owed(c: string)
      requires Inv() && building == {} && !fulfilled && c in promised
      modifies this
      ensures Inv() && building == {} && !fulfilled && old(refused) <= refused
      ensures old(byPointer.Keys) <= byPointer.Keys
      ensures old(promised) <= promised && promises == old(promises) + (promised - old(promised))
      ensures refused == [] ==> c in byPointer
      ensures Legit(plan) && old(refused) == [] ==> refused == []
    {
      hide Legit, Clean, Reached, Addressed;
      var _ := Intern(c);
      if c !in byPointer {
        refused := refused + [NothingBuilt(c)];
      }
    }

    /** Takes rounds of promises until none is left: each round's builds may promise more,
        and it may take its own in any order. */
    method Fulfil()
      requires Inv() && building == {} && !fulfilled
      requires refused == [] ==> promised - promises <= byPointer.Keys
      modifies this
      ensures Inv() && building == {} && fulfilled && promises == {} && old(refused) <= refused
      ensures old(byPointer.Keys) <= byPointer.Keys && old(promised) <= promised
      ensures refused == [] ==> promised <= byPointer.Keys
      ensures Legit(plan) && old(refused) == [] ==> refused == []
    {
      hide Legit, Clean, Reached, Addressed;
      while promises != {}
        invariant Inv() && building == {} && old(refused) <= refused && !fulfilled
        invariant old(byPointer.Keys) <= byPointer.Keys && old(promised) <= promised
        invariant refused == [] ==> promised - promises <= byPointer.Keys
        invariant Legit(plan) && old(refused) == [] ==> refused == []
        decreases plan.schema.Keys - promised, |promises|
      {
        Round();
      }
      fulfilled := true;
    }

    /** The node interned at pointer.  A registry that has refused nothing holds one for
        exactly the coordinates interned and no longer building, and it is that
        coordinate's own. */
    method NodeAt(pointer: string) returns (node: Option<TypeDef>)
      requires Inv()
      ensures refused == [] ==> (node.Some? <==> pointer in byPointer && pointer !in building)
      ensures refused == [] && node.Some? ==> pointer in plan.schema && node.value == NodeOf(plan, pointer)
    {
      hide Spaced, Held, Owned, NodeOf, AllDone, Reached;
      if pointer in byPointer && byPointer[pointer] in reg {
        node := Some(reg[byPointer[pointer]]);
      } else {
        node := None;
      }
      assert pointer in byPointer ==> byPointer[pointer] == plan.derive(pointer);
    }

    /** Whether id names a coordinate still building. */
    method Building(id: string) returns (yes: bool)
      requires Inv()
      ensures refused == [] ==> (yes <==> exists p :: p in building && plan.derive(p) == id)
    {
      hide Spaced, NodeOf, AllDone, Reached;
      yes := id in byID && id !in reg;
      if refused == [] && id in byID && byID[id] !in building {
        RestHas(plan, Now().Sees(), building, reg, byID[id]);
      }
    }
  }

  // ----- a whole compile -----

  lemma AllSeen(plan: Plan, s: State, p: string)
    requires Clean(plan, s) && s.building == {} && plan.roots + s.promised <= s.byPointer.Keys
    requires Reached(plan, p)
    ensures p in s.byPointer
  {
    hide Owned, Spaced, Held, NodeOf;
    var r :| r in plan.roots && Reaches(Refs(plan.schema), r, p);
    var within := iset q | q in s.byPointer;
    forall x, y | x in within && Refs(plan.schema)(x, y) ensures y in within {
      assert AtRest(plan, s.Sees(), s.reg, x);
      var j :| 0 <= j < |plan.schema[x].steps| && Names(plan.schema[x].steps[j], y);
      assert StepDone(s.Sees(), plan.schema[x].steps[j]);
    }
    ReachWithin(Refs(plan.schema), within, r, p);
  }

  /** A registry with nothing left to build has interned just what the roots reach. */
  lemma SeenIsReached(plan: Plan, s: State)
    requires Clean(plan, s) && Mapped(plan, s.byPointer)
    requires s.building == {} && plan.roots + s.promised <= s.byPointer.Keys
    ensures forall p :: p in s.byPointer <==> Reached(plan, p)
    ensures forall p :: Reached(plan, p) ==> AtRest(plan, s.Sees(), s.reg, p)
  {
    hide Reached, AtRest, Owned, Spaced, Held;
    forall p ensures p in s.byPointer <==> Reached(plan, p) {
      if Reached(plan, p) {
        AllSeen(plan, s, p);
      }
    }
    assert forall p :: p in s.Sees().interned && p !in s.building ==> AtRest(plan, s.Sees(), s.reg, p);
  }

  lemma MintedIsHeld(plan: Plan, s: State, id: string, body: Option<string>)
    requires Clean(plan, s) && forall p :: Reached(plan, p) ==> AtRest(plan, s.Sees(), s.reg, p)
    requires Minted(plan, id, body)
    ensures id in s.minted && body == Some(s.minted[id]) && id != ""
    ensures id in s.reg && s.reg[id] == MintedNode(s.minted[id])
  {
    hide Reached, Owned, Spaced, Built, NodeOf;
    var p :| Reached(plan, p) && p in plan.schema && Mints(id, body) in plan.schema[p].steps;
    assert AtRest(plan, s.Sees(), s.reg, p);
    var j :| 0 <= j < |plan.schema[p].steps| && plan.schema[p].steps[j] == Mints(id, body);
    assert StepDone(s.Sees(), plan.schema[p].steps[j]);
  }

  lemma HeldIsDue(plan: Plan, s: State, id: string)
    requires Clean(plan, s) && Mapped(plan, s.byPointer) && id in s.reg
    ensures IsDue(plan, id)
  {
    hide Reached, Minted, Spaced, Built;
    if id in s.minted {
      assert Minted(plan, id, Some(s.minted[id]));
    } else {
      assert Reached(plan, s.byID[id]) && plan.derive(s.byID[id]) == id;
    }
  }

  lemma SettledIsDetermined(plan: Plan, s: State)
    requires Clean(plan, s) && Mapped(plan, s.byPointer)
    requires s.building == {} && plan.roots + s.promised <= s.byPointer.Keys
    ensures Determined(plan, s.reg)
  {
    hide Clean, Reached, NodeOf, AllDone, Minted, IsDue, Mapped;
    SeenIsReached(plan, s);
    forall id, body | Minted(plan, id, body)
      ensures body.Some? && id in s.reg && s.reg[id] == MintedNode(body.value)
    {
      MintedIsHeld(plan, s, id, body);
    }
    forall id | id in s.reg ensures IsDue(plan, id) {
      HeldIsDue(plan, s, id);
    }
  }

  // What one minting of an ID is, every other is; and its space is no coordinate's.
  lemma SettledMints(plan: Plan, s: State, id: string, body: Option<string>, p: string)
    requires Clean(plan, s) && Addressed(plan.derive) && forall q :: Reached(plan, q) ==> AtRest(plan, s.Sees(), s.reg, q)
    requires Minted(plan, id, body) && p in s.byPointer
    ensures id in s.minted && body == Some(s.minted[id]) && id != "" && SpaceOf(plan.derive(p)) != SpaceOf(id)
  {
    MintedIsHeld(plan, s, id, body);
    HasSpace(plan.derive, p);
    hide Reached, Built, Owned, Held, Minted, SpaceOf;
  }

  lemma SettledOnce(plan: Plan, s: State, p: string, q: string)
    requires Clean(plan, s) && p in s.byPointer && q in s.byPointer && plan.derive(p) == plan.derive(q)
    ensures p == q && p != ""
  {
    hide Spaced, Built, Held;
  }

  lemma SettledIsLegit(plan: Plan, s: State)
    requires Clean(plan, s) && Mapped(plan, s.byPointer) && Addressed(plan.derive)
    requires s.building == {} && plan.roots + s.promised <= s.byPointer.Keys
    ensures Legit(plan)
  {
    hide Clean, Reached, NodeOf, AllDone, Minted, SpaceOf, Mapped, Addressed;
    SeenIsReached(plan, s);
    forall p | Reached(plan, p) ensures p != "" {
      SettledOnce(plan, s, p, p);
    }
    forall p, q | Reached(plan, p) && Reached(plan, q) && plan.derive(p) == plan.derive(q) ensures p == q {
      SettledOnce(plan, s, p, q);
    }
    forall id, body | Minted(plan, id, body) ensures id in s.minted && body == Some(s.minted[id]) && id != "" {
      MintedIsHeld(plan, s, id, body);
    }
    forall p, id, body | Reached(plan, p) && Minted(plan, id, body) ensures SpaceOf(plan.derive(p)) != SpaceOf(id) {
      SettledMints(plan, s, id, body, p);
    }
  }

  /** A coordinate a compile starts from: lowered at once, or promised. */
  datatype Root = Lower(at: string) | Later(at: string)

  /** Two maps are inverses of each other. */
  ghost predicate Inverse(a: map<string, string>, b: map<string, string>) {
    && (forall p :: p in a ==> a[p] in b && b[a[p]] == p)
    && (forall id :: id in b ==> b[id] in a && a[b[id]] == id)
  }

  /** Compiles from the roots given, in that order.  Whatever the order, and whichever
      of them were promised, the compile is refused nothing exactly when the plan is
      legitimate, and the registry is then the one the plan determines. */
  method Compile(plan: Plan, roots: seq<Root>)
      returns (reg: Registry, byPointer: map<string, string>, byID: map<string, string>, refused: seq<Refusal>)
    requires Addressed(plan.derive) && plan.roots == set r | r in roots :: r.at
    ensures refused == [] <==> Legit(plan)
    ensures Legit(plan) ==> Determined(plan, reg) && Inverse(byPointer, byID)
    ensures Legit(plan) ==> forall p :: p in byPointer <==> Reached(plan, p)
  {
    hide Legit, Clean, Reached, Addressed, Determined;
    var types := new Types(plan);
    for i := 0 to |roots|
      invariant types.Inv() && types.plan == plan && types.building == {} && !types.fulfilled
      invariant types.promises == types.promised
      invariant types.refused == [] ==>
        forall j :: 0 <= j < i ==> roots[j].at in types.byPointer.Keys + types.promised
      invariant Legit(plan) ==> types.refused == []
    {
      assert roots[i] in roots;
      RootReached(plan, roots[i].at);
      match roots[i]
      case Lower(p) => var _ := types.Intern(p);
      case Later(p) => types.Promise(p);
    }
    types.Fulfil();
    if types.refused == [] {
      assert forall j :: 0 <= j < |roots| ==> roots[j].at in types.byPointer.Keys + types.promised;
      Settled(plan, types.Now(), roots);
    }
    reg, byPointer, byID, refused := types.reg, types.byPointer, types.byID, types.refused;
  }

  lemma RootReached(plan: Plan, r: string)
    requires r in plan.roots
    ensures Reached(plan, r)
  {
    ReachSelf(Refs(plan.schema), r);
  }

  lemma Settled(plan: Plan, s: State, roots: seq<Root>)
    requires Clean(plan, s) && Mapped(plan, s.byPointer) && Addressed(plan.derive) && s.building == {}
    requires plan.roots == set r | r in roots :: r.at
    requires s.promised <= s.byPointer.Keys && forall j :: 0 <= j < |roots| ==> roots[j].at in s.byPointer.Keys + s.promised
    ensures Legit(plan) && Determined(plan, s.reg) && Inverse(s.byPointer, s.byID)
    ensures forall p :: p in s.byPointer <==> Reached(plan, p)
  {
    hide *;
    assert plan.roots + s.promised <= s.byPointer.Keys;
    MapsInvert(plan, s);
    SettledIsLegit(plan, s);
    SettledIsDetermined(plan, s);
    SeenIsReached(plan, s);
  }

  lemma MapsInvert(plan: Plan, s: State)
    requires Clean(plan, s) && Mapped(plan, s.byPointer)
    ensures Inverse(s.byPointer, s.byID)
  {
    hide Built, Held, Spaced, Mapped;
    IsMapped(plan, s.byPointer);
  }

  lemma IsMapped(plan: Plan, byPointer: map<string, string>)
    requires Mapped(plan, byPointer)
    ensures forall p :: p in byPointer ==> byPointer[p] == plan.derive(p)
  {}
}
