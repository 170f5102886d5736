/** The settlements a registry takes once every promise is built: those that finish a
    node before those that only read or rewrite one, each held to the nodes it mints. */
module Settlements {
  import opened Values

  type Registry = map<string, string>

  /** What a settlement does: rewrites the registry it was handed, or registers a node,
      nothing for a nil one. */
  datatype Act = Rewrite(to: Registry -> Registry) | Register(id: string, node: Option<string>)

  type Settlement = seq<Act>

  datatype Refusal = Late | NilSettlement | EmptyID | NilNode(id: string) | HeldAlready(id: string)
    | Unaccounted(before: nat, after: nat, minted: nat)

  // ----- what settlements come to -----

  // Whether registering adds a node.
  predicate Adds(reg: Registry, a: Act) {
    a.Register? && a.id != "" && a.node.Some? && a.id !in reg
  }

  function Acted(reg: Registry, a: Act): Registry {
    if a.Rewrite? then a.to(reg) else if Adds(reg, a) then reg[a.id := a.node.value] else reg
  }

  /** The registry a settlement leaves, and how many nodes it registered. */
  function Left(reg: Registry, s: Settlement): (Registry, nat) {
    if s == [] then (reg, 0)
    else
      var front := Left(reg, s[..|s| - 1]);
      (Acted(front.0, s[|s| - 1]), front.1 + if Adds(front.0, s[|s| - 1]) then 1 else 0)
  }

  // By how many nodes a settlement's rewrites changed the registry in all.
  function Drift(reg: Registry, s: Settlement): int {
    if s == [] then 0
    else
      var front := Left(reg, s[..|s| - 1]).0;
      Drift(reg, s[..|s| - 1])
      + if s[|s| - 1].Rewrite? then |Acted(front, s[|s| - 1])| - |front| else 0
  }

  /** What a settlement does to the count is what it registered and what it rewrote. */
  lemma {:induction false} CountIsAccounted(reg: Registry, s: Settlement)
    ensures |Left(reg, s).0| == |reg| + Left(reg, s).1 + Drift(reg, s)
  {
    if s != [] {
      CountIsAccounted(reg, s[..|s| - 1]);
      var front, a := Left(reg, s[..|s| - 1]).0, s[|s| - 1];
      if Adds(front, a) {
        assert front[a.id := a.node.value].Keys == front.Keys + {a.id};
        assert |front[a.id := a.node.value]| == |front[a.id := a.node.value].Keys| == |front| + 1;
      }
    }
  }

  function Settled(reg: Registry, list: seq<Settlement>): Registry {
    if list == [] then reg else Left(Settled(reg, list[..|list| - 1]), list[|list| - 1]).0
  }

  /** A settlement that rewrites nodes and removes none, adding only by registering. */
  ghost predicate KeepsNodes(s: Settlement) {
    forall i, r: Registry :: 0 <= i < |s| && s[i].Rewrite? ==> s[i].to(r).Keys == r.Keys
  }

  /** Such a settlement keeps every node's ID, and its count is accounted for. */
  lemma {:induction false} KeepingIsAccounted(reg: Registry, s: Settlement)
    requires KeepsNodes(s)
    ensures reg.Keys <= Left(reg, s).0.Keys && Drift(reg, s) == 0
  {
    if s != [] {
      var front := Left(reg, s[..|s| - 1]).0;
      assert KeepsNodes(s[..|s| - 1]) by {
        forall i, r: Registry | 0 <= i < |s| - 1 && s[i].Rewrite? ensures s[..|s| - 1][i].to(r).Keys == r.Keys {}
      }
      KeepingIsAccounted(reg, s[..|s| - 1]);
      if s[|s| - 1].Rewrite? {
        assert s[|s| - 1].to(front).Keys == front.Keys;
        assert |Acted(front, s[|s| - 1]).Keys| == |front.Keys|;
      }
    }
  }

  /** The count alone does not tell a swap: one node leaves under another's ID, and
      nothing is refused. */
  lemma SwapIsAccounted(reg: Registry, to: Registry -> Registry, gone: string, come: string)
    requires gone in reg && come !in reg && to(reg).Keys == reg.Keys - {gone} + {come}
    ensures Drift(reg, [Rewrite(to)]) == 0 && Left(reg, [Rewrite(to)]).1 == 0
    ensures gone !in Left(reg, [Rewrite(to)]).0 && come in Left(reg, [Rewrite(to)]).0
  {
    var s: Settlement := [Rewrite(to)];
    assert s[..0] == [];
    assert Left(reg, s).0 == to(reg);
    assert |to(reg).Keys| == |reg.Keys|;
    assert |to(reg)| == |to(reg).Keys| && |reg| == |reg.Keys|;
  }

  // ----- taking them -----

  /** The settlements of one registry. */
  class Settling {
    var reg: Registry
    var minted: nat
    var completing: seq<Settlement>
    var pending: seq<Settlement>
    var refused: seq<Refusal>
    var settled: bool

    constructor (reg: Registry)
      ensures this.reg == reg && completing == [] && pending == [] && refused == [] && !settled
    {
      this.reg, minted, completing, pending, refused, settled := reg, 0, [], [], [], false;
    }

    /** Queues a settlement, before every deferred one when it completes a node; a nil
        one, and one that comes late, are refused. */
    method Queue(complete: bool, s: Option<Settlement>)
      modifies this`completing, this`pending, this`refused
      ensures var taken := !settled && s.Some?;
        && completing == (if taken && complete then old(completing) + [s.value] else old(completing))
        && pending == (if taken && !complete then old(pending) + [s.value] else old(pending))
        && |refused| == |old(refused)| + if taken then 0 else 1
    {
      if settled {
        refused := refused + [Late];
      } else if s.None? {
        refused := refused + [NilSettlement];
      } else if complete {
        completing := completing + [s.value];
      } else {
        pending := pending + [s.value];
      }
    }

    /** Takes one settlement, refused exactly when its rewrites changed how many nodes
        there are. */
    method Take(s: Settlement)
      modifies this`reg, this`minted, this`refused
      ensures reg == Left(old(reg), s).0 && minted == old(minted) + Left(old(reg), s).1
      ensures old(refused) <= refused
      ensures Drift(old(reg), s) != 0 ==>
        |refused| > |old(refused)| && refused[|refused| - 1] == Unaccounted(|old(reg)|, |reg|, Left(old(reg), s).1)
      ensures Drift(old(reg), s) == 0 ==> forall i :: |old(refused)| <= i < |refused| ==> !refused[i].Unaccounted?
    {
      ghost var was := reg;
      var before, had := |reg|, minted;
      for i := 0 to |s|
        invariant reg == Left(was, s[..i]).0 && minted == had + Left(was, s[..i]).1
        invariant old(refused) <= refused
        invariant forall j :: |old(refused)| <= j < |refused| ==> !refused[j].Unaccounted?
      {
        assert s[..i + 1][..i] == s[..i];
        match s[i]
        case Rewrite(to) => reg := to(reg);
        case Register(id, node) => Mint(id, node);
      }
      assert s[..|s|] == s;
      CountIsAccounted(was, s);
      if |reg| != before + minted - had {
        refused := refused + [Unaccounted(before, |reg|, minted - had)];
      }
    }

    // Registers a node for a settlement.
    method Mint(id: string, node: Option<string>)
      modifies this`reg, this`minted, this`refused
      ensures reg == Acted(old(reg), Register(id, node))
      ensures minted == old(minted) + if Adds(old(reg), Register(id, node)) then 1 else 0
      ensures old(refused) <= refused
      ensures forall j :: |old(refused)| <= j < |refused| ==> !refused[j].Unaccounted?
    {
      if id == "" {
        refused := refused + [EmptyID];
      } else if node.None? {
        refused := refused + [NilNode(id)];
      } else if id in reg {
        if reg[id] != node.value {
          refused := refused + [HeldAlready(id)];
        }
      } else {
        minted := minted + 1;
        reg := reg[id := node.value];
      }
    }

    /** Takes every settlement once: those completing a node first, whenever queued, each
        kind in order. */
    method Settle()
      modifies this
      ensures settled && completing == [] && pending == []
      ensures reg == Settled(old(reg), old(completing) + old(pending)) && old(refused) <= refused
    {
      settled := true;
      var list := completing + pending;
      completing, pending := [], [];
      for i := 0 to |list|
        invariant settled && completing == [] && pending == []
        invariant reg == Settled(old(reg), list[..i]) && old(refused) <= refused
      {
        assert list[..i + 1][..i] == list[..i];
        Take(list[i]);
      }
      assert list[..|list|] == list;
    }
  }
}
