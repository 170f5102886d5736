/** An edit of a document's types: copy-on-write, adding no ID, and refusing whatever
    would. */
module Editing {
  import opened Values
  import opened Sequences
  import opened DeclaredIDs

  const TYPE_ID := "TypeID"

  /** A type's data: its ID, the parts in it, and whether it nests past what an edit
      copies. */
  datatype TypeData = TypeNode(id: string, parts: seq<Part>, deep: bool)

  /** A type as an edit reads it: no part of one is a type, so none declares a type's ID. */
  type TypeNode = t: TypeData | HoldNoType(t.parts) witness TypeNode("", [], false)

  predicate HoldsNoType(p: Part) {
    !(p.declares.Some? && p.declares.value.kind == TYPE_ID) && HoldNoType(p.parts)
  }

  predicate HoldNoType(ps: seq<Part>) {
    forall p :: p in ps ==> HoldsNoType(p)
  }

  function Root(t: TypeNode): Part {
    Part(Some(ID(TYPE_ID, t.id)), t.parts)
  }

  /** Nodes by address.  A registry's nodes are shared with whoever built them. */
  type Cells = map<nat, TypeNode>

  // An entry holds the address of a node, or nil.
  type Types = map<string, Option<nat>>

  /** What a caller does: a call of the edit, a node built, or a node it kept altered. */
  datatype Call =
    | UpdateType(id: string, change: Option<Change>)
    | ReplaceType(td: Option<nat>)
    | RemoveType(id: string)
    | Finish
    | Build(node: TypeNode)
    | Alter(at: nat, to: TypeNode)

  /** What an update's change does: calls, and what it leaves of the node. */
  datatype Change = Change(calls: seq<Call>, leaves: TypeNode)

  // A call that alters a node, by itself or from inside a change.
  ghost predicate Alters(c: Call) {
    c.Alter? || (c.UpdateType? && c.change.Some? && ChangeAlters(c.change.value))
  }

  ghost predicate ChangeAlters(change: Change) {
    exists i :: 0 <= i < |change.calls| && Alters(change.calls[i])
  }

  // A call a change may not make.
  predicate Writes(c: Call) {
    !c.Build? && !c.Alter?
  }

  predicate Intrudes(change: Change) {
    exists i :: 0 <= i < |change.calls| && Writes(change.calls[i])
  }

  datatype Refusal =
    | AfterFinish | InsideChange | NoNode(id: string) | NilNode(id: string) | OffKey(id: string)
    | NoChange | TooDeep | Intruded | MovedNode(id: string) | AddsID(over: Over) | NilType | OwnNode(id: string)
    | MovedSince(id: string)

  // ----- what is reported -----

  /** An edit as a caller could see it before a call. */
  datatype View = View(doc: Types, cells: Cells, next: nat, out: Types, finished: bool, running: bool)

  // Why no write at id is taken, whatever it writes.
  function EntryCauses(w: View, id: string): seq<Refusal> {
    if w.finished then [AfterFinish] else if w.running then [InsideChange] else if id !in w.out then [NoNode(id)] else []
  }

  /** over names the least ID of now in excess of was, with both counts. */
  ghost predicate IsLeastExcess(was: multiset<ID>, now: multiset<ID>, over: Over) {
    && over.was == was[over.id] && over.now == now[over.id] && over.now > over.was
    && forall x :: now[x] > was[x] ==> x == over.id || Before(over.id, x)
  }

  ghost predicate ReportsExcess(was: multiset<ID>, now: multiset<ID>, added: seq<Refusal>) {
    if now <= was then added == [] else |added| == 1 && added[0].AddsID? && IsLeastExcess(was, now, added[0].over)
  }

  /** What an update adds to the refusals: the first cause there is against the call, what
      its change's own calls are refused for, and what its change did that it may not. */
  ghost predicate UpdateReports(w: View, id: string, change: Option<Change>, added: seq<Refusal>) {
    if EntryCauses(w, id) != [] then added == EntryCauses(w, id)
    else if w.out[id].None? || w.out[id].value !in w.cells then added == [NilNode(id)]
    else if w.cells[w.out[id].value].id != id then added == [OffKey(id)]
    else if change.None? then added == [NoChange]
    else if w.cells[w.out[id].value].deep then added == [TooDeep]
    else ChangeReports(w, id, w.cells[w.out[id].value], change.value, added)
  }

  ghost predicate ChangeReports(w: View, id: string, node: TypeNode, change: Change, added: seq<Refusal>) {
    if Intrudes(change) then added == RefusedInside(Addresses(w.cells.Keys + {w.next}, w.next + 1), change.calls) + [Intruded]
    else if change.leaves.id != id then added == [MovedNode(id)]
    else ReportsExcess(Declared(Root(node)), Declared(Root(change.leaves)), added)
  }

  /** What a replacement adds to them. */
  ghost predicate ReplaceReports(w: View, td: Option<nat>, added: seq<Refusal>) {
    if td.None? || td.value !in w.cells then added == [NilType]
    else
      var id := w.cells[td.value].id;
      if EntryCauses(w, id) != [] then added == EntryCauses(w, id)
      else if id in w.doc && w.doc[id] == td then added == [OwnNode(id)]
      else ReportsExcess(DeclaredAt(w.cells, w.out[id]), Without(Declared(Root(w.cells[td.value])), ID(TYPE_ID, id)), added)
  }

  // Which addresses hold a node, and the next free.
  datatype Addresses = Addresses(held: set<nat>, next: nat)

  function BuiltBy(a: Addresses, call: Call): Addresses {
    if call.Build? then Addresses(a.held + {a.next}, a.next + 1) else a
  }

  function AllBuiltBy(a: Addresses, calls: seq<Call>): Addresses {
    if calls == [] then a else BuiltBy(AllBuiltBy(a, calls[..|calls| - 1]), calls[|calls| - 1])
  }

  /** What a call made from inside a change is refused for. */
  function RefusedOne(a: Addresses, call: Call): seq<Refusal> {
    if !Writes(call) then []
    else if call.ReplaceType? && (call.td.None? || call.td.value !in a.held) then [NilType]
    else [InsideChange]
  }

  function RefusedInside(a: Addresses, calls: seq<Call>): seq<Refusal> {
    if calls == [] then []
    else
      var front := calls[..|calls| - 1];
      RefusedInside(a, front) + RefusedOne(AllBuiltBy(a, front), calls[|calls| - 1])
  }

  lemma NothingInside(a: Addresses)
    ensures RefusedInside(a, []) == [] && AllBuiltBy(a, []) == a
  {}

  lemma InsideOneMore(a: Addresses, calls: seq<Call>, i: nat)
    requires i < |calls|
    ensures RefusedInside(a, calls[..i + 1]) == RefusedInside(a, calls[..i]) + RefusedOne(AllBuiltBy(a, calls[..i]), calls[i])
    ensures AllBuiltBy(a, calls[..i + 1]) == BuiltBy(AllBuiltBy(a, calls[..i]), calls[i])
  {
    assert calls[..i + 1][..i] == calls[..i];
  }

  lemma {:induction false} NothingRefusedInside(a: Addresses, calls: seq<Call>)
    ensures RefusedInside(a, calls) == [] <==> forall i :: 0 <= i < |calls| ==> !Writes(calls[i])
  {
    if calls != [] {
      NothingRefusedInside(a, calls[..|calls| - 1]);
    }
  }

  /** What ending an edit adds: each key at which a node it took has moved off, in order. */
  function MovedReport(cells: Cells, doc: Types, was: Types, ids: seq<string>): seq<Refusal> {
    if ids == [] then []
    else
      var id := ids[|ids| - 1];
      MovedReport(cells, doc, was, ids[..|ids| - 1])
      + if id in was && MovedOff(cells, doc, id, was[id]) then [MovedSince(id)] else []
  }

  ghost predicate IsMovedReport(cells: Cells, doc: Types, was: Types, added: seq<Refusal>) {
    exists ids :: InOrderOf(was.Keys, ids) && added == MovedReport(cells, doc, was, ids)
  }

  // ids are those of s, each once, by their spelling.
  ghost predicate InOrderOf(s: set<string>, ids: seq<string>) {
    && (forall id :: id in ids <==> id in s)
    && forall i, j :: 0 <= i < j < |ids| ==> TextBefore(ids[i], ids[j])
  }

  lemma {:induction false} NoneMoved(cells: Cells, doc: Types, ids: seq<string>)
    ensures MovedReport(cells, doc, doc, ids) == []
  {
    if ids != [] {
      NoneMoved(cells, doc, ids[..|ids| - 1]);
    }
  }

  lemma MovedOneMore(cells: Cells, doc: Types, was: Types, ids: seq<string>, i: nat)
    requires i < |ids|
    ensures ids[i] in ids && ids[..i + 1] == ids[..i] + [ids[i]]
    ensures MovedReport(cells, doc, was, ids[..i + 1]) == MovedReport(cells, doc, was, ids[..i])
      + if ids[i] in was && MovedOff(cells, doc, ids[i], was[ids[i]]) then [MovedSince(ids[i])] else []
  {
    assert ids[..i + 1][..i] == ids[..i];
  }

  lemma NotYet(ids: seq<string>, i: nat)
    requires i < |ids| && forall j, k :: 0 <= j < k < |ids| ==> TextBefore(ids[j], ids[k])
    ensures ids[i] !in ids[..i]
  {
    hide TextBefore;
    TextIsTotal(ids[i], ids[i]);
  }

  /** So a key is reported exactly when its node is put back. */
  lemma {:induction false} MovedReportHas(cells: Cells, doc: Types, was: Types, ids: seq<string>, why: Refusal)
    ensures why in MovedReport(cells, doc, was, ids) <==>
      why.MovedSince? && why.id in ids && why.id in was && MovedOff(cells, doc, why.id, was[why.id])
  {
    if ids != [] {
      MovedReportHas(cells, doc, was, ids[..|ids| - 1], why);
      assert ids == ids[..|ids| - 1] + [ids[|ids| - 1]];
    }
  }

  lemma ExcessReported(was: multiset<ID>, now: multiset<ID>, over: Option<Over>)
    requires over.None? <==> now <= was
    requires over.Some? ==> IsLeastExcess(was, now, over.value)
    ensures ReportsExcess(was, now, if over.Some? then [AddsID(over.value)] else [])
  {}

  /** An update reports nothing exactly when it is taken. */
  lemma UpdateReportsNothing(w: View, id: string, change: Option<Change>, added: seq<Refusal>)
    requires UpdateReports(w, id, change, added)
    ensures added == [] <==>
      && !w.running && !w.finished && id in w.out && w.out[id].Some? && w.out[id].value in w.cells
      && w.cells[w.out[id].value].id == id && change.Some? && Takes(w.cells[w.out[id].value], id, change.value)
  {
    hide Declared, Root, RefusedInside;
  }

  /** And a replacement. */
  lemma ReplaceReportsNothing(w: View, td: Option<nat>, added: seq<Refusal>)
    requires ReplaceReports(w, td, added)
    ensures added == [] <==>
      && !w.running && !w.finished && td.Some? && td.value in w.cells && w.cells[td.value].id in w.out
      && !(w.cells[td.value].id in w.doc && w.doc[w.cells[td.value].id] == td)
      && MayReplace(w.cells, w.cells[td.value].id, w.out[w.cells[td.value].id], td.value)
  {
    hide Declared, Root, Without;
  }

  // ----- the IDs an entry declares -----

  function DeclaredAt(cells: Cells, at: Option<nat>): multiset<ID> {
    if at.Some? && at.value in cells then Declared(Root(cells[at.value])) else multiset{}
  }

  /** a declares no ID more often than b, but the one it is keyed by. */
  ghost predicate NoMoreThan(a: multiset<ID>, b: multiset<ID>, own: string) {
    forall x :: x != ID(TYPE_ID, own) ==> a[x] <= b[x]
  }

  ghost predicate Grows(a: Cells, b: Cells) {
    forall p :: p in a ==> p in b && b[p] == a[p]
  }

  /** An edit of one document's types. */
  class Editor {
    const doc: Types
    const original: Cells     // the document's own nodes, which nobody changes
    var cells: Cells
    var next: nat
    var out: Types
    var owns: bool
    var refused: seq<Refusal>
    var running: bool
    var intruded: bool
    var finished: bool
    // The keys a node the edit took was altered at, while it was held there.
    ghost var altered: set<string>

    ghost predicate Holds(id: string)
      reads this`out, this`cells
      requires id in out
    {
      id in doc && (out[id] == doc[id] || (out[id].Some? && out[id].value in cells))
    }

    /** A node taken stays at its ID, and declares no other ID more often than its
        document's node. */
    ghost predicate Kept(id: string)
      reads this`out, this`cells
      requires id in out && id in doc
    {
      out[id] != doc[id] && out[id].Some? && out[id].value in cells ==>
        && cells[out[id].value].id == id
        && NoMoreThan(Declared(Root(cells[out[id].value])), DeclaredAt(original, doc[id]), id)
    }

    // As Kept, unless a node was altered there.
    ghost predicate KeptUnaltered(id: string)
      reads this`out, this`cells, this`altered
      requires id in out && id in doc
    {
      id !in altered ==> Kept(id)
    }

    ghost predicate Valid()
      reads this`out, this`cells, this`next, this`owns, this`altered
    {
      && (forall id :: id in doc && doc[id].Some? ==> doc[id].value in original)
      && Grows(original, cells) && (forall p :: p in cells ==> p < next)
      && (!owns ==> out == doc)
      && (forall id :: id in out ==> Holds(id))
      && (forall id :: id in out ==> KeptUnaltered(id))
    }

    // What no call changes, or only in one direction.
    twostate predicate Went()
      reads this
    {
      && out.Keys <= old(out.Keys) && old(next) <= next && running == old(running)
      && (old(finished) ==> finished) && old(altered) <= altered && (old(owns) ==> owns)
      && old(cells.Keys) <= cells.Keys
    }

    constructor (doc: Types, original: Cells, next: nat)
      requires forall id :: id in doc && doc[id].Some? ==> doc[id].value in original
      requires forall p :: p in original ==> p < next
      ensures Valid() && this.doc == doc && this.original == original && out == doc && cells == original
      ensures !running && !finished && altered == {} && refused == [] && this.next == next
    {
      this.doc, this.original, this.cells, this.next, this.out := doc, original, original, next, doc;
      owns, refused, running, intruded, finished, altered := false, [], false, false, false, {};
    }

    ghost function Now(): View
      reads this
    {
      View(doc, cells, next, out, finished, running)
    }

    // The refusals added since.
    twostate function Added(): seq<Refusal>
      reads this
      requires old(refused) <= refused
    {
      refused[|old(refused)|..]
    }

    method Refuse(why: Refusal)
      modifies this`refused, this`intruded
      ensures refused == old(refused) + [why]
      ensures intruded == (old(intruded) || running)
    {
      refused := refused + [why];
      if running {
        intruded := true;
      }
    }

    /** Whether the edit takes a write, which it does not once finished nor inside a change. */
    method Open() returns (ok: bool)
      modifies this`refused, this`intruded
      ensures ok == (!finished && !running)
      ensures ok ==> refused == old(refused) && intruded == old(intruded)
      ensures !ok ==> refused == old(refused) + [if finished then AfterFinish else InsideChange]
      ensures !ok ==> intruded == (old(intruded) || running)
    {
      ok := !finished && !running;
      if finished {
        Refuse(AfterFinish);
      } else if running {
        Refuse(InsideChange);
      }
    }

    /** Whether the edit takes a write at id, where it must hold an entry. */
    method EntryAt(id: string) returns (ok: bool)
      modifies this`refused, this`intruded
      ensures ok == (!finished && !running && id in out)
      ensures refused == old(refused) + EntryCauses(Now(), id)
      ensures intruded == (old(intruded) || (!ok && running))
    {
      ok := Open();
      if ok && id !in out {
        Refuse(NoNode(id));
        ok := false;
      }
    }

    /** Writes an entry, the edit's map its own from the first write on. */
    method Write(id: string, at: nat)
      requires Valid() && id in out && at in cells
      requires id !in altered ==> cells[at].id == id
      requires id !in altered ==>
        NoMoreThan(Declared(Root(cells[at])), DeclaredAt(original, doc[id]), id)
      modifies this`out, this`owns
      ensures Valid() && out == old(out)[id := Some(at)] && owns
    {
      hide NoMoreThan, Declared, DeclaredAt, Grows, Root;
      assert Holds(id);
      owns := true;
      out := out[id := Some(at)];
    }

    // The bound carried over from the node replaced to the one that replaces it.
    lemma StartsWithin(id: string)
      requires Valid() && id !in altered && id in out
      ensures id in doc
      ensures NoMoreThan(DeclaredAt(cells, out[id]), DeclaredAt(original, doc[id]), id)
    {
      assert Holds(id) && KeptUnaltered(id);
    }

    // The keys the edit holds the node at an address at, having taken it.
    ghost function HeldAt(at: nat): set<string>
      reads this`out
    {
      set id | id in out && out[id] == Some(at) && id in doc && out[id] != doc[id]
    }

    // A caller alters a node it kept, which may be one the edit took.
    method AlterNode(at: nat, to: TypeNode)
      requires Valid()
      modifies this`cells, this`altered
      ensures Valid() && Went()
      ensures cells == if at in old(cells) && at !in original then old(cells)[at := to] else old(cells)
      ensures altered == old(altered) + if at in old(cells) && at !in original then HeldAt(at) else {}
    {
      hide NoMoreThan, Declared, DeclaredAt, Root;
      if at in original || at !in cells {
        return;
      }
      forall id | id in out ensures Holds(id) && KeptUnaltered(id) {}
      altered := altered + HeldAt(at);
      cells := cells[at := to];
    }

    // A caller builds a node.
    method BuildNode(node: TypeNode)
      requires Valid()
      modifies this`cells, this`next
      ensures Valid() && Went() && cells == old(cells)[old(next) := node] && next == old(next) + 1
      ensures old(next) !in original && forall id :: id in out ==> out[id] != Some(old(next))
    {
      hide NoMoreThan, Declared, DeclaredAt, Root;
      forall id | id in out ensures Holds(id) && KeptUnaltered(id) {}
      cells := cells[next := node];
      next := next + 1;
    }

    /** One thing a caller does. */
    method Do(call: Call) returns (diags: seq<Refusal>)
      requires Valid() && !(running && finished)
      modifies this
      ensures Valid() && Went()
      ensures running ==> refused == old(refused) + RefusedOne(old(Held()), call) && Held() == BuiltBy(old(Held()), call)
      ensures !running ==> old(refused) <= diags + refused && if call.Finish? then refused == [] else diags == []
      ensures !running ==> Steps(old(Now()), call, Now(), (diags + refused)[|old(refused)|..])
      ensures running ==> out == old(out) && finished == old(finished) && intruded == (old(intruded) || Writes(call))
      ensures !Alters(call) ==> altered == old(altered)
      ensures old(finished) ==> out == old(out) && (!Alters(call) ==> Grows(old(cells), cells))
      ensures finished && !old(finished) ==> call.Finish? && PutBack(cells, doc, old(out), out)
      decreases call, 2
    {
      hide Declared, Root, DeclaredAt, NoMoreThan, ReportsExcess, Takes, RefusedInside, IsMovedReport, PutBack, Valid,
        MayReplace, ChangeReports, Steps, UpdateReports, ReplaceReports, BuiltBy, RefusedOne;
      KeysAreDocs();
      NextIsFree();
      diags := [];
      match call {
        case UpdateType(id, change) =>
          var taken := Update(id, change);
          UpdateSteps(old(Now()), id, change, Now(), Added(), taken);
        case ReplaceType(td) =>
          var taken := Replace(td);
          ReplaceSteps(old(Now()), td, Now(), Added(), taken);
        case RemoveType(id) =>
          var _ := Remove(id);
          RemoveSteps(old(Now()), id, Now(), Added());
        case Finish =>
          var _, said := End();
          diags := if running then [] else said;
          FinishSteps(old(Now()), Now(), said[|old(refused)|..]);
          assert !running ==> diags + refused == diags;
        case Build(node) =>
          BuildNode(node);
          assert cells.Keys == old(cells).Keys + {old(next)};
          BuildSteps(old(Now()), node, Now());
        case Alter(at, to) =>
          AlterNode(at, to);
          assert cells.Keys == old(cells).Keys;
          AlterSteps(old(Now()), at, to, Now());
      }
      if !call.Finish? {
        assert refused == old(refused) + Added() && diags + refused == refused;
      }
    }

    lemma NextIsFree()
      requires Valid()
      ensures next !in cells
    {}

    ghost function Held(): Addresses
      reads this`cells, this`next
    {
      Addresses(cells.Keys, next)
    }

    /** Runs a change, the edit taking no write until it returns.  The change is handed a
        copy, and leaves it as it likes. */
    method Apply(change: Change, copy: nat)
      requires Valid() && !running && !finished && copy in cells && copy !in original
      requires forall id :: id in out ==> out[id] != Some(copy)
      modifies this
      ensures Valid() && Went() && out == old(out) && finished == old(finished)
      ensures copy in cells && cells[copy] == change.leaves && intruded == Intrudes(change)
      ensures refused == old(refused) + RefusedInside(old(Held()), change.calls)
      ensures !ChangeAlters(change) ==> altered == old(altered)
      decreases change, 3
    {
      hide Valid, Steps, UpdateReports, ReplaceReports, RefusedOne, PutBack, BuiltBy, EntryCauses, RefusedInside, AllBuiltBy,
        Grows, Alters, Writes;
      running, intruded := true, false;
      NothingInside(Held());
      for i := 0 to |change.calls|
        invariant Valid() && running && out == old(out) && finished == old(finished) && (old(owns) ==> owns)
        invariant old(next) <= next && old(cells.Keys) <= cells.Keys && old(altered) <= altered
        invariant intruded == exists j :: 0 <= j < i && Writes(change.calls[j])
        invariant !ChangeAlters(change) ==> altered == old(altered)
        invariant refused == old(refused) + RefusedInside(old(Held()), change.calls[..i])
        invariant Held() == AllBuiltBy(old(Held()), change.calls[..i])
      {
        InsideOneMore(old(Held()), change.calls, i);
        var _ := Do(change.calls[i]);
      }
      assert change.calls[..|change.calls|] == change.calls;
      AlterNode(copy, change.leaves);
      running := false;
    }

    /** What an update makes of the node at an address, when the edit takes it. */
    method Updated(id: string, at: nat, change: Option<Change>) returns (taken: Option<nat>)
      requires Valid() && !running && !finished && at in cells && cells[at].id == id
      modifies this
      ensures old(refused) <= refused
      ensures change.Some? && !old(cells)[at].deep ==> ChangeReports(old(Now()), id, old(cells)[at], change.value, Added())
      ensures change.None? ==> Added() == [NoChange]
      ensures change.Some? && old(cells)[at].deep ==> Added() == [TooDeep]
      ensures Valid() && Went() && out == old(out) && finished == old(finished)
      ensures taken.Some? <==> change.Some? && Takes(old(cells)[at], id, change.value)
      ensures taken.Some? ==> taken.value in cells && taken.value >= old(next) && cells[taken.value] == change.value.leaves
      ensures change.None? || !ChangeAlters(change.value) ==> altered == old(altered)
      decreases change, 0
    {
      hide NoMoreThan, Declared, DeclaredAt, Root, Valid, RefusedInside, ReportsExcess;
      taken := None;
      if change.None? {
        Refuse(NoChange);
        return;
      }
      if cells[at].deep {
        Refuse(TooDeep);
        return;
      }
      var copy := next;
      var had := Scan(Root(cells[at]));
      BuildNode(cells[at]);
      ghost var begun := Held();
      assert begun == Addresses(old(cells).Keys + {old(next)}, old(next) + 1);
      Apply(change.value, copy);
      ghost var inside := refused;
      NothingRefusedInside(begun, change.value.calls);
      var ok := Passes(id, had, cells[copy]);
      assert refused == inside + refused[|inside|..];
      assert Added() == RefusedInside(begun, change.value.calls) + refused[|inside|..];
      if ok {
        taken := Some(copy);
      }
    }

    // Whether what a change left is taken: it intruded nowhere, moved nothing and adds no ID.
    method Passes(id: string, had: seq<ID>, leaves: TypeNode) returns (ok: bool)
      modifies this`refused, this`intruded
      ensures old(refused) <= refused
      ensures if old(intruded) then Added() == [Intruded] else if leaves.id != id then Added() == [MovedNode(id)]
              else ReportsExcess(multiset(had), Declared(Root(leaves)), Added())
      ensures ok <==> !old(intruded) && leaves.id == id && Declared(Root(leaves)) <= multiset(had)
    {
      hide Declared, Root, ReportsExcess;
      ok := false;
      if intruded {
        Refuse(Intruded);
      } else if leaves.id != id {
        Refuse(MovedNode(id));
      } else {
        var has := Scan(Root(leaves));
        ok := AddsNone(had, has);
      }
    }

    /** Updates the entry at id through a change run on a copy, and says which copy, if
        any, the entry now is. */
    method Update(id: string, change: Option<Change>) returns (taken: Option<nat>)
      requires Valid()
      modifies this
      ensures Valid() && Went() && finished == old(finished)
      ensures running ==> out == old(out) && intruded
      ensures old(refused) <= refused && UpdateReports(old(Now()), id, change, Added())
      ensures taken.Some? <==> !running && old(!finished && id in out && out[id].Some? && out[id].value in cells
        && cells[out[id].value].id == id && change.Some? && Takes(cells[out[id].value], id, change.value))
      ensures out == if taken.Some? then old(out)[id := taken] else old(out)
      ensures running || old(finished) ==> cells == old(cells) && next == old(next)
      ensures taken.Some? ==> taken.value in cells && cells[taken.value] == change.value.leaves
      ensures change.None? || !ChangeAlters(change.value) ==> altered == old(altered)
      decreases change, 1
    {
      hide NoMoreThan, Declared, Root, Intrudes;
      taken := None;
      var ok := EntryAt(id);
      if !ok {
        return;
      }
      assert Holds(id);
      var current := out[id];
      if current.None? {
        Refuse(NilNode(id));
      } else if cells[current.value].id != id {
        Refuse(OffKey(id));
      } else {
        ghost var had := Declared(Root(cells[current.value]));
        if id !in altered {
          StartsWithin(id);
        }
        taken := Updated(id, current.value, change);
        if taken.Some? {
          if id !in altered {
            UpdatesWithin(Declared(Root(cells[taken.value])), had, DeclaredAt(original, doc[id]), id);
          }
          Write(id, taken.value);
        }
      }
    }

    /** Replaces the entry at td's own ID by td, under the conditions of `MayReplace`. */
    method Replace(td: Option<nat>) returns (taken: bool)
      requires Valid()
      modifies this
      ensures Valid() && Went() && finished == old(finished) && cells == old(cells) && next == old(next)
      ensures running ==> out == old(out) && intruded
      ensures old(refused) <= refused && ReplaceReports(old(Now()), td, Added())
      ensures taken == (!running && !finished && td.Some? && td.value in cells && cells[td.value].id in old(out)
        && cells[td.value].id in doc && doc[cells[td.value].id] != td
        && MayReplace(cells, cells[td.value].id, old(out)[cells[td.value].id], td.value))
      ensures out == if taken then old(out)[cells[td.value].id := td] else old(out)
      ensures altered == old(altered)
    {
      hide NoMoreThan, Declared, DeclaredAt, Root, Without;
      taken := false;
      if td.None? || td.value !in cells {
        Refuse(NilType);
        return;
      }
      var id := cells[td.value].id;
      var ok := EntryAt(id);
      if !ok {
        return;
      }
      assert Holds(id);
      if doc[id] == td {
        Refuse(OwnNode(id));
        return;
      }
      var fits := Fits(id, out[id], td.value);
      if !fits {
        return;
      }
      taken := true;
      if id !in altered {
        StartsWithin(id);
        ReplacesWithin(Declared(Root(cells[td.value])), DeclaredAt(cells, out[id]), DeclaredAt(original, doc[id]), id);
      }
      Write(id, td.value);
    }

    /** Whether the node at td declares no ID the entry it replaces does not, its own aside. */
    method Fits(id: string, current: Option<nat>, td: nat) returns (fits: bool)
      requires td in cells && !running && (current.Some? ==> current.value in cells)
      modifies this`refused, this`intruded
      ensures fits == MayReplace(cells, id, current, td) && intruded == old(intruded) && old(refused) <= refused
      ensures ReportsExcess(DeclaredAt(cells, current), Without(Declared(Root(cells[td])), ID(TYPE_ID, id)), Added())
    {
      hide Declared, Root, ReportsExcess;
      var had: seq<ID> := [];
      if current.Some? {
        had := Scan(Root(cells[current.value]));
      }
      var has := Scan(Root(cells[td]));
      has := DropFirst(has, ID(TYPE_ID, id));
      fits := AddsNone(had, has);
    }

    // Whether the second list has no ID more often than the first, refusing one that has.
    method AddsNone(had: seq<ID>, has: seq<ID>) returns (none: bool)
      modifies this`refused, this`intruded
      ensures none <==> multiset(has) <= multiset(had)
      ensures old(refused) <= refused && ReportsExcess(multiset(had), multiset(has), Added())
      ensures intruded == (old(intruded) || (running && !none))
    {
      hide ReportsExcess;
      var over := Excess(had, has);
      none := over.None?;
      ExcessReported(multiset(had), multiset(has), over);
      if over.Some? {
        Refuse(AddsID(over.value));
      }
      assert Added() == if over.Some? then [AddsID(over.value)] else [];
    }

    /** Removes the entry at id. */
    method Remove(id: string) returns (taken: bool)
      requires Valid()
      modifies this
      ensures Valid() && Went() && finished == old(finished) && cells == old(cells) && next == old(next)
      ensures running ==> out == old(out) && intruded
      ensures refused == old(refused) + EntryCauses(old(Now()), id)
      ensures taken <==> !running && !finished && id in old(out)
      ensures out == if taken then old(out) - {id} else old(out)
      ensures altered == old(altered)
    {
      hide NoMoreThan, Declared, DeclaredAt, Root;
      taken := EntryAt(id);
      if taken {
        forall k | k in out ensures Holds(k) && KeptUnaltered(k) {}
        owns := true;
        out := out - {id};
      }
    }

    /** Ends the edit.  A node it took that was moved off its ID since goes back to the
        document's own, and every other entry stays. */
    method End() returns (result: Types, diags: seq<Refusal>)
      requires Valid()
      modifies this
      ensures Valid() && Went() && cells == old(cells) && next == old(next) && result == out && out.Keys == old(out.Keys)
      ensures running ==> out == old(out) && intruded && finished == old(finished)
      ensures running ==> refused == diags == old(refused) + [InsideChange]
      ensures !running ==> finished && refused == [] && old(refused) <= diags
      ensures !running && old(finished) ==> diags == old(refused)
      ensures !running && !old(finished) ==> IsMovedReport(cells, doc, old(out), diags[|old(refused)|..])
      ensures !running && !old(finished) ==> PutBack(cells, doc, old(out), out)
      ensures old(finished) ==> out == old(out)
      ensures altered == old(altered)
    {
      if running {
        Refuse(InsideChange);
        return out, refused;
      }
      if !finished {
        finished := true;
        RefuseMoved();
      }
      diags := refused;
      refused := [];
      result := out;
    }

    lemma KeysAreDocs()
      requires Valid()
      ensures out.Keys <= doc.Keys && (!owns ==> out == doc)
    {
      assert forall id :: id in out ==> Holds(id);
    }

    // Restores the document's entry wherever `MovedOff` holds.
    method RefuseMoved()
      requires Valid() && !running
      modifies this`out, this`refused, this`intruded
      ensures Valid() && out.Keys == old(out.Keys) && PutBack(cells, doc, old(out), out)
      ensures old(refused) <= refused && IsMovedReport(cells, doc, old(out), Added())
    {
      hide NoMoreThan, Declared, DeclaredAt, Root, Grows, Valid, TextBefore, MovedOff, PartlyBack, MovedReport;
      KeysAreDocs();
      var ids := SortedKeys(out.Keys);
      if !owns {
        NoneMoved(cells, doc, ids);
        assert Added() == [];
        return;
      }
      PutAllBack(ids);
      AllBack(cells, doc, old(out), out, ids);
      assert Added() == MovedReport(cells, doc, old(out), ids);
    }

    // One key after another.
    method PutAllBack(ids: seq<string>)
      requires Valid() && owns && (forall id :: id in ids ==> id in out)
      requires forall i, j :: 0 <= i < j < |ids| ==> TextBefore(ids[i], ids[j])
      modifies this`out, this`refused, this`intruded
      ensures Valid() && out.Keys == old(out.Keys) && PartlyBack(cells, doc, old(out), out, ids)
      ensures refused == old(refused) + MovedReport(cells, doc, old(out), ids)
    {
      hide Valid, TextBefore, MovedOff, PartlyBack, MovedReport;
      KeysAreDocs();
      NoneBack(cells, doc, out);
      for i := 0 to |ids|
        invariant Valid() && owns && out.Keys == old(out.Keys) && PartlyBack(cells, doc, old(out), out, ids[..i])
        invariant refused == old(refused) + MovedReport(cells, doc, old(out), ids[..i])
      {
        NotYet(ids, i);
        MovedOneMore(cells, doc, old(out), ids, i);
        OneBack(cells, doc, old(out), out, ids[..i], ids[i]);
        PutBackAt(ids[i]);
      }
      assert ids[..|ids|] == ids;
    }

    // Puts the document's own node back at id, where the one the edit took is off its key.
    method PutBackAt(id: string)
      requires Valid() && owns && id in out
      modifies this`out, this`refused, this`intruded
      ensures Valid() && out == old(out)[id := if MovedOff(cells, doc, id, old(out)[id]) then doc[id] else old(out)[id]]
      ensures refused == old(refused) + if MovedOff(cells, doc, id, old(out)[id]) then [MovedSince(id)] else []
    {
      hide NoMoreThan, Declared, DeclaredAt, Root, Grows;
      assert Holds(id);
      forall k | k in out ensures Holds(k) && KeptUnaltered(k) {}
      if out[id] != doc[id] && cells[out[id].value].id != id {
        Refuse(MovedSince(id));
        out := out[id := doc[id]];
      }
    }

    /** Once the edit has ended, each node it took is at its key. */
    ghost predicate EndedAtKeys()
      reads this`finished, this`out, this`cells
    {
      finished ==> forall id :: id in out ==> IsAtKey(cells, doc, id, out[id])
    }

    /** Whatever a caller does, one call after another, the edit adds no key, and at a key
        where no node it took was altered, the node held declares no ID but its own more
        often than the document's. */
    method Run(calls: seq<Call>) returns (diags: seq<Refusal>, ghost views: seq<View>, ghost reports: seq<seq<Refusal>>)
      requires Valid() && !running && !finished
      modifies this
      ensures IsEdit(old(Now()), calls, views, reports) && views[|calls|] == Now()
      ensures diags + refused == old(refused) + Flat(reports)
      ensures calls != [] && calls[|calls| - 1].Finish? ==> refused == []
      ensures Valid() && out.Keys <= old(out.Keys) && !running
      ensures (forall i :: 0 <= i < |calls| ==> !Alters(calls[i])) ==> altered == old(altered)
      ensures !AltersOnceEnded(calls) ==> EndedAtKeys()
      ensures forall id :: id in out && id !in altered && out[id] != doc[id] ==> IsWithin(cells, original, doc, id, out[id])
    {
      hide NoMoreThan, Declared, DeclaredAt, Root, AltersOnceEnded, PutBack, IsAtKey, Alters, Steps;
      diags, views, reports := [], [Now()], [];
      for i := 0 to |calls|
        invariant IsEdit(old(Now()), calls[..i], views, reports) && views[i] == Now()
        invariant diags + refused == old(refused) + Flat(reports)
        invariant i > 0 && calls[i - 1].Finish? ==> refused == []
        invariant Valid() && out.Keys <= old(out.Keys) && !running
        invariant (forall j :: 0 <= j < |calls| ==> !Alters(calls[j])) ==> altered == old(altered)
        invariant finished ==> exists j :: 0 <= j < i && calls[j].Finish?
        invariant !AltersOnceEnded(calls) ==> EndedAtKeys()
      {
        assert calls[..i + 1][..i] == calls[..i];
        ghost var was, had, ended := out, cells, finished;
        ghost var unsaid, before := refused, diags;
        var said := Do(calls[i]);
        diags := diags + said;
        ghost var added := (said + refused)[|unsaid|..];
        assert diags + refused == before + unsaid + added;
        OneStepMore(calls[..i], views, reports, calls[i], Now(), added);
        views, reports := views + [Now()], reports + [added];
        if !AltersOnceEnded(calls) && finished {
          if ended {
            NotAltered(calls, i);
            AtKeysStill(had, cells, doc, was);
          } else {
            forall id | id in out && out[id] != doc[id] ensures out[id].Some? && out[id].value in cells {
              assert Holds(id);
            }
            PutBackIsAtKey(cells, doc, was, out);
          }
        }
      }
      assert calls[..|calls|] == calls;
      TakenAreWithin();
    }

    // A node the edit took and nobody altered adds none, but its own ID where the entry lacks it.
    lemma TakenAreWithin()
      requires Valid()
      ensures forall id :: id in out && id !in altered && out[id] != doc[id] ==> IsWithin(cells, original, doc, id, out[id])
    {
      hide NoMoreThan, Declared, DeclaredAt, Root;
      forall id | id in out && id !in altered && out[id] != doc[id] ensures IsWithin(cells, original, doc, id, out[id]) {
        assert Holds(id) && KeptUnaltered(id);
        AddsNoneWhenOnKey(original, id, doc[id], cells[out[id].value]);
      }
    }
  }

  // A node the edit took, at its key.
  ghost predicate IsAtKey(cells: Cells, doc: Types, id: string, at: Option<nat>) {
    id in doc && (at != doc[id] ==> at.Some? && at.value in cells && cells[at.value].id == id)
  }

  /** A caller alters some node after it ended the edit. */
  ghost predicate AltersOnceEnded(calls: seq<Call>) {
    exists i, j :: 0 <= i < j < |calls| && calls[i].Finish? && Alters(calls[j])
  }

  lemma NotAltered(calls: seq<Call>, i: nat)
    requires i < |calls| && !AltersOnceEnded(calls) && exists j :: 0 <= j < i && calls[j].Finish?
    ensures !Alters(calls[i])
  {}

  lemma AtKeysStill(was: Cells, now: Cells, doc: Types, out: Types)
    requires Grows(was, now) && forall id :: id in out ==> IsAtKey(was, doc, id, out[id])
    ensures forall id :: id in out ==> IsAtKey(now, doc, id, out[id])
  {}

  /** A change the edit takes: it wrote nothing else, and its node stays at its ID and
      declares no ID more often than it did. */
  ghost predicate Takes(node: TypeNode, id: string, change: Change) {
    && !node.deep && !Intrudes(change) && change.leaves.id == id
    && Declared(Root(change.leaves)) <= Declared(Root(node))
  }

  function Without(a: multiset<ID>, x: ID): multiset<ID> {
    a - multiset{x}
  }

  /** Whether the node at td may stand for the entry at id. */
  predicate MayReplace(cells: Cells, id: string, current: Option<nat>, td: nat)
    requires td in cells
  {
    Without(Declared(Root(cells[td])), ID(TYPE_ID, id)) <= DeclaredAt(cells, current)
  }

  function DropFirst(s: seq<ID>, x: ID): (r: seq<ID>)
    ensures multiset(r) == multiset(s) - multiset{x}
  {
    if s == [] then []
    else
      assert s == [s[0]] + s[1..];
      if s[0] == x then s[1..] else [s[0]] + DropFirst(s[1..], x)
  }

  lemma ReplacesWithin(a: multiset<ID>, b: multiset<ID>, c: multiset<ID>, id: string)
    requires Without(a, ID(TYPE_ID, id)) <= b && NoMoreThan(b, c, id)
    ensures NoMoreThan(a, c, id)
  {
    forall x | x != ID(TYPE_ID, id) ensures a[x] <= c[x] {
      assert Without(a, ID(TYPE_ID, id))[x] == a[x];
    }
  }

  lemma UpdatesWithin(a: multiset<ID>, b: multiset<ID>, c: multiset<ID>, id: string)
    requires a <= b && NoMoreThan(b, c, id)
    ensures NoMoreThan(a, c, id)
  {}

  // ----- a type's own ID -----

  lemma {:induction false} PartsDeclareNoType(ps: seq<Part>, id: string)
    requires HoldNoType(ps)
    ensures AllDeclared(ps)[ID(TYPE_ID, id)] == 0
    decreases ps
  {
    if ps != [] {
      assert HoldsNoType(ps[0]);
      PartsDeclareNoType(ps[0].parts, id);
      PartsDeclareNoType(ps[1..], id);
    }
  }

  /** A type declares its own ID once, and no other type's. */
  lemma TypeDeclaresItself(t: TypeNode, id: string)
    ensures Declared(Root(t))[ID(TYPE_ID, id)] == if id == t.id && id != "" then 1 else 0
  {
    PartsDeclareNoType(t.parts, id);
  }

  // An entry holding a node at its own ID.
  predicate IsOnKey(cells: Cells, id: string, at: Option<nat>) {
    at.Some? && at.value in cells && cells[at.value].id == id
  }

  // A node that adds nothing but its own ID adds none exactly where the entry has it.
  lemma AddsNoneWhenOnKey(cells: Cells, id: string, at: Option<nat>, t: TypeNode)
    requires t.id == id && NoMoreThan(Declared(Root(t)), DeclaredAt(cells, at), id)
    ensures Declared(Root(t)) <= DeclaredAt(cells, at) <==> id == "" || IsOnKey(cells, id, at)
  {
    hide Declared, Root;
    TypeDeclaresItself(t, id);
    if at.Some? && at.value in cells {
      TypeDeclaresItself(cells[at.value], id);
    }
  }

  /** A node that may stand for an entry's declares no ID more often than it if and only
      if the entry holds a node at its own ID, or the ID is empty and declares nothing. */
  lemma ReplacementAddsNone(cells: Cells, id: string, current: Option<nat>, td: nat)
    requires td in cells && cells[td].id == id && MayReplace(cells, id, current, td)
    ensures Declared(Root(cells[td])) <= DeclaredAt(cells, current) <==> id == "" || IsOnKey(cells, id, current)
  {
    var a, b := Declared(Root(cells[td])), DeclaredAt(cells, current);
    assert NoMoreThan(b, b, id);
    ReplacesWithin(a, b, b, id);
    AddsNoneWhenOnKey(cells, id, current, cells[td]);
  }

  /** It adds its own ID where an entry is nil, or holds a node off its key. */
  lemma ReplacementMayAddItsOwn(id: string, other: string, cells: Cells)
    requires id != "" && other != id
    requires cells == map[0 := TypeNode(id, [], false), 1 := TypeNode(other, [], false)]
    ensures MayReplace(cells, id, None, 0) && MayReplace(cells, id, Some(1), 0)
    ensures var own := ID(TYPE_ID, id);
      Declared(Root(cells[0]))[own] == 1 && DeclaredAt(cells, None)[own] == 0 && DeclaredAt(cells, Some(1))[own] == 0
  {
    TypeDeclaresItself(cells[0], id);
    TypeDeclaresItself(cells[1], id);
    assert Declared(Root(cells[0])) == multiset{ID(TYPE_ID, id)};
  }

  // An entry the edit took whose node is not at its key.
  predicate MovedOff(cells: Cells, doc: Types, id: string, at: Option<nat>) {
    id in doc && at != doc[id] && at.Some? && at.value in cells && cells[at.value].id != id
  }

  /** is holds what was held, but for nodes moved off their key: the document's own are back there. */
  ghost predicate PutBack(cells: Cells, doc: Types, was: Types, now: Types) {
    forall id :: id in now ==> id in was && id in doc && now[id] == if MovedOff(cells, doc, id, was[id]) then doc[id] else was[id]
  }

  // As PutBack, at those of ids.
  ghost predicate PartlyBack(cells: Cells, doc: Types, was: Types, now: Types, ids: seq<string>) {
    && now.Keys == was.Keys && was.Keys <= doc.Keys
    && forall id :: id in now ==>
      now[id] == if id in ids && MovedOff(cells, doc, id, was[id]) then doc[id] else was[id]
  }

  lemma NoneBack(cells: Cells, doc: Types, was: Types)
    requires was.Keys <= doc.Keys
    ensures PartlyBack(cells, doc, was, was, []) && MovedReport(cells, doc, was, []) == []
  {}

  lemma OneBack(cells: Cells, doc: Types, was: Types, now: Types, ids: seq<string>, id: string)
    requires PartlyBack(cells, doc, was, now, ids) && id in now && id !in ids
    ensures id in was && id in doc && now[id] == was[id]
    ensures PartlyBack(cells, doc, was, now[id := if MovedOff(cells, doc, id, now[id]) then doc[id] else now[id]], ids + [id])
  {
    hide MovedOff;
  }

  lemma AllBack(cells: Cells, doc: Types, was: Types, now: Types, ids: seq<string>)
    requires PartlyBack(cells, doc, was, now, ids) && forall id :: id in was ==> id in ids
    ensures PutBack(cells, doc, was, now) && now.Keys == was.Keys
  {
    hide MovedOff;
  }

  /** So no node the edit took is off its key. */
  lemma PutBackIsAtKey(cells: Cells, doc: Types, was: Types, now: Types)
    requires PutBack(cells, doc, was, now)
    requires forall id :: id in now && now[id] != doc[id] ==> now[id].Some? && now[id].value in cells
    ensures forall id :: id in now ==> IsAtKey(cells, doc, id, now[id])
  {}

  // ----- whole edits -----

  /** One call, and what it adds to what is reported: a write that adds nothing is taken,
      and any other leaves every entry as it was. */
  ghost predicate Steps(a: View, call: Call, b: View, added: seq<Refusal>) {
    && b.doc == a.doc && a.cells.Keys <= b.cells.Keys && b.running == a.running
    && match call
       case UpdateType(id, change) =>
         && UpdateReports(a, id, change, added) && b.finished == a.finished
         && (if added == [] then UpdatedTo(a, id, change, b) else b.out == a.out)
       case ReplaceType(td) =>
         && ReplaceReports(a, td, added) && b.finished == a.finished && b.cells == a.cells
         && (if added == [] then td.Some? && td.value in a.cells && b.out == a.out[a.cells[td.value].id := td] else b.out == a.out)
       case RemoveType(id) =>
         && added == EntryCauses(a, id) && b.finished == a.finished && b.cells == a.cells
         && b.out == (if added == [] then a.out - {id} else a.out)
       case Finish =>
         && b.finished && b.cells == a.cells
         && (if a.finished then added == [] && b.out == a.out
             else IsMovedReport(a.cells, a.doc, a.out, added) && PutBack(a.cells, a.doc, a.out, b.out))
       case Build(node) => added == [] && b == a.(cells := a.cells[a.next := node], next := a.next + 1)
       case Alter(at, to) => added == [] && b.out == a.out && b.finished == a.finished
  }

  // What calls come to, outside a change a step, and inside one refusals.
  lemma UpdateSteps(a: View, id: string, change: Option<Change>, b: View, added: seq<Refusal>, taken: Option<nat>)
    requires UpdateReports(a, id, change, added) && b.doc == a.doc && b.finished == a.finished && b.running == a.running
    requires !(a.running && a.finished) && a.cells.Keys <= b.cells.Keys && (a.running ==> b.cells == a.cells && b.next == a.next)
    requires b.out == if taken.Some? then a.out[id := taken] else a.out
    requires taken.Some? <==> (!a.running && !a.finished && id in a.out && a.out[id].Some? && a.out[id].value in a.cells
        && a.cells[a.out[id].value].id == id && change.Some? && Takes(a.cells[a.out[id].value], id, change.value))
    requires taken.Some? ==> taken.value in b.cells && b.cells[taken.value] == change.value.leaves
    ensures !a.running ==> Steps(a, UpdateType(id, change), b, added)
    ensures a.running ==> IsRefusedInside(a, UpdateType(id, change), b, added)
  {
    hide ChangeReports, Takes;
    UpdateReportsNothing(a, id, change, added);
  }

  // Made from inside a change, a call is refused, and may yet build a node.
  ghost predicate IsRefusedInside(a: View, call: Call, b: View, added: seq<Refusal>) {
    && added == RefusedOne(Addresses(a.cells.Keys, a.next), call)
    && Addresses(b.cells.Keys, b.next) == BuiltBy(Addresses(a.cells.Keys, a.next), call)
  }

  lemma ReplaceSteps(a: View, td: Option<nat>, b: View, added: seq<Refusal>, taken: bool)
    requires ReplaceReports(a, td, added) && b == a.(out := b.out) && !(a.running && a.finished) && a.out.Keys <= a.doc.Keys
    requires taken == (!a.running && !a.finished && td.Some? && td.value in a.cells && a.cells[td.value].id in a.out
        && a.cells[td.value].id in a.doc && a.doc[a.cells[td.value].id] != td
        && MayReplace(a.cells, a.cells[td.value].id, a.out[a.cells[td.value].id], td.value))
    requires b.out == if taken then a.out[a.cells[td.value].id := td] else a.out
    ensures !a.running ==> Steps(a, ReplaceType(td), b, added)
    ensures a.running ==> IsRefusedInside(a, ReplaceType(td), b, added)
  {
    hide MayReplace, ReportsExcess, Declared, Root, DeclaredAt;
    ReplaceReportsNothing(a, td, added);
  }

  lemma RemoveSteps(a: View, id: string, b: View, added: seq<Refusal>)
    requires added == EntryCauses(a, id) && b == a.(out := b.out) && !(a.running && a.finished)
    requires b.out == if !a.running && !a.finished && id in a.out then a.out - {id} else a.out
    ensures !a.running ==> Steps(a, RemoveType(id), b, added)
    ensures a.running ==> IsRefusedInside(a, RemoveType(id), b, added)
  {}

  lemma FinishSteps(a: View, b: View, added: seq<Refusal>)
    requires b == a.(out := b.out, finished := b.finished)
    requires a.running ==> added == [InsideChange]
    requires !a.running ==> b.finished && if a.finished then added == [] && b.out == a.out
      else IsMovedReport(a.cells, a.doc, a.out, added) && PutBack(a.cells, a.doc, a.out, b.out)
    ensures !a.running ==> Steps(a, Finish, b, added)
    ensures a.running ==> IsRefusedInside(a, Finish, b, added)
  {
    hide IsMovedReport, PutBack;
  }

  lemma BuildSteps(a: View, node: TypeNode, b: View)
    requires b == a.(cells := a.cells[a.next := node], next := a.next + 1)
    ensures !a.running ==> Steps(a, Build(node), b, [])
    ensures a.running ==> IsRefusedInside(a, Build(node), b, [])
  {
    assert b.cells.Keys == a.cells.Keys + {a.next};
  }

  lemma AlterSteps(a: View, at: nat, to: TypeNode, b: View)
    requires b == a.(cells := b.cells) && b.cells.Keys == a.cells.Keys
    ensures !a.running ==> Steps(a, Alter(at, to), b, [])
    ensures a.running ==> IsRefusedInside(a, Alter(at, to), b, [])
  {}

  // The entry at id is a copy, as the change left it.
  ghost predicate UpdatedTo(a: View, id: string, change: Option<Change>, b: View) {
    && change.Some? && id in b.out && b.out[id].Some? && b.out[id].value in b.cells
    && b.out == a.out[id := b.out[id]] && b.cells[b.out[id].value] == change.value.leaves
  }

  /** views are what an edit was before each call and after the last, and reports what each
      added. */
  ghost predicate IsEdit(start: View, calls: seq<Call>, views: seq<View>, reports: seq<seq<Refusal>>) {
    && |views| == |calls| + 1 && |reports| == |calls| && views[0] == start
    && forall i :: 0 <= i < |calls| ==> Steps(views[i], calls[i], views[i + 1], reports[i])
  }

  function Flat(reports: seq<seq<Refusal>>): seq<Refusal> {
    if reports == [] then [] else Flat(reports[..|reports| - 1]) + reports[|reports| - 1]
  }

  lemma {:induction false} FlatIsEmpty(reports: seq<seq<Refusal>>)
    ensures Flat(reports) == [] <==> forall i :: 0 <= i < |reports| ==> reports[i] == []
  {
    if reports != [] {
      FlatIsEmpty(reports[..|reports| - 1]);
    }
  }

  lemma OneStepMore(calls: seq<Call>, views: seq<View>, reports: seq<seq<Refusal>>, call: Call, now: View, added: seq<Refusal>)
    requires |views| == |calls| + 1 && IsEdit(views[0], calls, views, reports) && Steps(views[|calls|], call, now, added)
    ensures IsEdit(views[0], calls + [call], views + [now], reports + [added])
    ensures Flat(reports + [added]) == Flat(reports) + added
  {
    hide Steps;
    assert (reports + [added])[..|reports|] == reports;
  }

  // Ending an edit alters nothing.
  lemma AltersAsBefore(calls: seq<Call>)
    ensures AltersOnceEnded(calls + [Finish]) ==> AltersOnceEnded(calls)
    ensures (forall i :: 0 <= i < |calls| ==> !Alters(calls[i])) ==>
      forall i :: 0 <= i < |calls + [Finish]| ==> !Alters((calls + [Finish])[i])
  {
    if AltersOnceEnded(calls + [Finish]) {
      var i, j :| 0 <= i < j < |calls| + 1 && (calls + [Finish])[i].Finish? && Alters((calls + [Finish])[j]);
      assert j < |calls|;
      assert calls[i].Finish? && Alters(calls[j]);
    }
  }

  lemma LastFinishes(start: View, calls: seq<Call>, views: seq<View>, reports: seq<seq<Refusal>>)
    requires IsEdit(start, calls + [Finish], views, reports)
    ensures views[|calls| + 1].finished
  {
    assert (calls + [Finish])[|calls|] == Finish;
    assert Steps(views[|calls|], Finish, views[|calls| + 1], reports[|calls|]);
  }

  /** Edits a document's types by any calls, and ends the edit.  Every refusal is reported,
      in order, and nothing else: a caller told of none had every write taken and no node
      put back.  The edit leaves no key the document lacks, and unless a node was altered
      after the edit ended, none it took off its key.  At a key where no node the edit took
      was altered, the node declares no ID more often than the document's, but its own where
      the document's is nil or off its key. */
  method EditTypes(doc: Types, original: Cells, next: nat, calls: seq<Call>)
      returns (out: Types, cells: Cells, diags: seq<Refusal>, ghost altered: set<string>, ghost views: seq<View>,
               ghost reports: seq<seq<Refusal>>)
    requires forall id :: id in doc && doc[id].Some? ==> doc[id].value in original
    requires forall p :: p in original ==> p < next
    ensures out.Keys <= doc.Keys && Grows(original, cells)
    ensures IsEdit(View(doc, original, next, doc, false, false), calls + [Finish], views, reports)
    ensures diags == Flat(reports) && out == views[|calls| + 1].out
    ensures diags == [] <==> forall i :: 0 <= i <= |calls| ==> reports[i] == []
    ensures !AltersOnceEnded(calls) ==> forall id :: id in out ==> IsAtKey(cells, doc, id, out[id])
    ensures (forall i :: 0 <= i < |calls| ==> !Alters(calls[i])) ==> altered == {}
    ensures forall id :: id in out && id !in altered && out[id] != doc[id] ==>
      IsWithin(cells, original, doc, id, out[id])
  {
    hide NoMoreThan, Declared, DeclaredAt, Root, AltersOnceEnded, Steps, IsMovedReport, PutBack, IsWithin, Flat;
    var edit := new Editor(doc, original, next);
    assert edit.Now() == View(doc, original, next, doc, false, false);
    AltersAsBefore(calls);
    diags, views, reports := edit.Run(calls + [Finish]);
    assert (calls + [Finish])[|calls|] == Finish;
    assert diags + [] == diags && [] + Flat(reports) == Flat(reports);
    LastFinishes(View(doc, original, next, doc, false, false), calls, views, reports);
    FlatIsEmpty(reports);
    out, cells, altered := edit.out, edit.cells, edit.altered;
    forall id | id in out ensures id in doc {
      assert edit.Holds(id);
    }
    edit.TakenAreWithin();
  }

  // The node at an entry is at its key, and declares no ID but its own more often than the
  // document's there, nor its own exactly where the document's is at its key.
  ghost predicate IsWithin(cells: Cells, original: Cells, doc: Types, id: string, at: Option<nat>) {
    && id in doc && IsOnKey(cells, id, at)
    && NoMoreThan(Declared(Root(cells[at.value])), DeclaredAt(original, doc[id]), id)
    && (Declared(Root(cells[at.value])) <= DeclaredAt(original, doc[id]) <==> id == "" || IsOnKey(original, id, doc[id]))
  }
}
