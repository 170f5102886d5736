/** The service tree an edit holds apart from its document: nodes written one by one,
    and slices built anew only where a write went stale. */
module EditTree {
  import opened Values
  import opened Services
  import opened Slices

  // ----- the nodes -----

  /** The nodes one slice holds, and whether one of them changed since it was built. */
  datatype TreeList = TreeList(nodes: seq<nat>, stale: bool)

  datatype Place = InServices | InGroups(parent: nat) | InOperations(parent: nat)

  /** One node: the list holding it, what it holds as last written, the lists of the
      nodes in it, and whether the edit removed it. */
  datatype TreeNode = TreeNode(place: Place, value: Node, groups: TreeList, operations: TreeList, removed: bool)

  type Nodes = seq<TreeNode>

  /** How the nodes hang together, which no edit changes: a node's number, how far it
      is below the document, and every node index read in it. */
  datatype Skel = Skel(n: nat, level: nat, groups: seq<Skel>, operations: seq<Skel>)

  function ValueAt(nodes: Nodes, n: nat): Node {
    if n < |nodes| then nodes[n].value else Node(Key(AService, ""), "", [], [])
  }

  predicate IsRemoved(nodes: Nodes, n: nat) {
    n < |nodes| && nodes[n].removed
  }

  /** The node the edit holds at s: what was last written there, with the nodes not
      removed from it. */
  function Show(nodes: Nodes, s: Skel): Node {
    var v := ValueAt(nodes, s.n);
    Node(v.key, v.data, if Reads(s.level) then ShowAll(nodes, s.groups) else v.groups, ShowAll(nodes, s.operations))
  }

  function ShowAll(nodes: Nodes, ss: seq<Skel>): seq<Node> {
    if ss == [] then []
    else (if IsRemoved(nodes, ss[0].n) then [] else [Show(nodes, ss[0])]) + ShowAll(nodes, ss[1..])
  }

  function Numbers(ss: seq<Skel>): seq<nat> {
    seq(|ss|, i requires 0 <= i < |ss| => ss[i].n)
  }

  // Those of ns the edit has not removed.
  function Kept(nodes: Nodes, ns: seq<nat>): seq<nat> {
    if ns == [] then [] else (if IsRemoved(nodes, ns[0]) then [] else [ns[0]]) + Kept(nodes, ns[1..])
  }

  function Shows(nodes: Nodes, skels: seq<Skel>, ns: seq<nat>): seq<Node>
    requires forall i :: 0 <= i < |ns| ==> ns[i] < |skels|
  {
    seq(|ns|, i requires 0 <= i < |ns| => Show(nodes, skels[ns[i]]))
  }

  // ----- how nodes hang together -----

  predicate IsPart(skels: seq<Skel>, s: Skel) {
    s.n < |skels| && skels[s.n] == s
  }

  predicate HangsFrom(nodes: Nodes, skels: seq<Skel>, s: Skel, k: Skel, place: Place) {
    s.n < k.n < |nodes| && IsPart(skels, k) && nodes[k.n].place == place && k.level == s.level + 1
  }

  ghost predicate Hung(nodes: Nodes, skels: seq<Skel>, i: nat)
    requires i < |skels|
  {
    && skels[i].n == i
    && (forall j :: 0 <= j < |skels[i].groups| ==> HangsFrom(nodes, skels, skels[i], skels[i].groups[j], InGroups(i)))
    && (forall j :: 0 <= j < |skels[i].operations| ==>
          HangsFrom(nodes, skels, skels[i], skels[i].operations[j], InOperations(i)))
    && (!Reads(skels[i].level) ==> skels[i].groups == [])
    && (i < |nodes| && nodes[i].place.InGroups? ==> nodes[i].place.parent < |skels| && Reads(skels[nodes[i].place.parent].level))
  }

  predicate ParentFirst(nodes: Nodes) {
    forall i :: 0 <= i < |nodes| ==> nodes[i].place.InServices? || nodes[i].place.parent < i
  }

  ghost predicate Shaped(nodes: Nodes, skels: seq<Skel>) {
    && |skels| == |nodes| && ParentFirst(nodes)
    && forall i :: 0 <= i < |nodes| ==> Hung(nodes, skels, i)
  }

  ghost predicate Rooted(nodes: Nodes, skels: seq<Skel>, roots: seq<Skel>) {
    forall j :: 0 <= j < |roots| ==>
      IsPart(skels, roots[j]) && roots[j].n < |nodes| && nodes[roots[j].n].place == InServices && roots[j].level == 0
  }

  /** The list of ss shows the nodes of ss, and its slice what they show unless it is stale. */
  ghost predicate ListShows(nodes: Nodes, list: TreeList, slice: seq<Node>, ss: seq<Skel>) {
    && Kept(nodes, list.nodes) == Kept(nodes, Numbers(ss))
    && (!list.stale ==> slice == ShowAll(nodes, ss))
  }

  /** A node's slices that are not stale show what the edit holds. */
  ghost predicate Fits(nodes: Nodes, skels: seq<Skel>, i: nat)
    requires i < |nodes| == |skels|
  {
    var t := nodes[i];
    && (if Reads(skels[i].level) then ListShows(nodes, t.groups, t.value.groups, skels[i].groups)
        else t.groups == TreeList([], false))
    && ListShows(nodes, t.operations, t.value.operations, skels[i].operations)
  }

  ghost predicate AllFit(nodes: Nodes, skels: seq<Skel>)
    requires |nodes| == |skels|
  {
    forall i :: 0 <= i < |nodes| ==> Fits(nodes, skels, i)
  }

  // ----- building what is stale shows nothing new -----

  // b is a with slices built anew.
  ghost predicate Same(a: TreeNode, b: TreeNode, level: nat) {
    && a.place == b.place && a.removed == b.removed && a.value.key == b.value.key && a.value.data == b.value.data
    && (!Reads(level) ==> a.value.groups == b.value.groups)
  }

  ghost predicate Rebuilt(a: Nodes, b: Nodes, skels: seq<Skel>) {
    |a| == |b| == |skels| && forall i :: 0 <= i < |a| ==> Same(a[i], b[i], skels[i].level)
  }

  lemma {:induction false} ShowStays(a: Nodes, b: Nodes, skels: seq<Skel>, s: Skel)
    requires Shaped(a, skels) && Rebuilt(a, b, skels) && IsPart(skels, s)
    ensures Show(a, s) == Show(b, s)
    decreases s, 1
  {
    assert Hung(a, skels, s.n) && Same(a[s.n], b[s.n], skels[s.n].level);
    assert forall j :: 0 <= j < |s.groups| ==> IsPart(skels, s.groups[j]);
    assert forall j :: 0 <= j < |s.operations| ==> IsPart(skels, s.operations[j]);
    if s.groups != [] {
      ShowAllStays(a, b, skels, s.groups);
    }
    if s.operations != [] {
      ShowAllStays(a, b, skels, s.operations);
    }
  }

  lemma {:induction false} ShowAllStays(a: Nodes, b: Nodes, skels: seq<Skel>, ss: seq<Skel>)
    requires Shaped(a, skels) && Rebuilt(a, b, skels) && forall j :: 0 <= j < |ss| ==> IsPart(skels, ss[j])
    ensures ShowAll(a, ss) == ShowAll(b, ss)
    decreases ss, 0
  {
    if ss != [] {
      assert IsPart(skels, ss[0]) && Same(a[ss[0].n], b[ss[0].n], skels[ss[0].n].level);
      ShowStays(a, b, skels, ss[0]);
      ShowAllStays(a, b, skels, ss[1..]);
    }
  }

  lemma {:induction false} KeptStays(a: Nodes, b: Nodes, ns: seq<nat>)
    requires |a| == |b| && forall i :: 0 <= i < |a| ==> a[i].removed == b[i].removed
    ensures Kept(a, ns) == Kept(b, ns)
  {
    if ns != [] {
      KeptStays(a, b, ns[1..]);
    }
  }

  lemma {:induction false} KeptIsIn(nodes: Nodes, ns: seq<nat>)
    ensures forall k :: k in Kept(nodes, ns) <==> k in ns && !IsRemoved(nodes, k)
  {
    if ns != [] {
      KeptIsIn(nodes, ns[1..]);
      assert forall k :: k in ns <==> k == ns[0] || k in ns[1..];
    }
  }

  lemma NumbersAreParts(skels: seq<Skel>, ss: seq<Skel>, nodes: Nodes)
    requires forall j :: 0 <= j < |ss| ==> IsPart(skels, ss[j])
    ensures forall j :: 0 <= j < |Kept(nodes, Numbers(ss))| ==> Kept(nodes, Numbers(ss))[j] < |skels|
  {
    KeptIsIn(nodes, Numbers(ss));
    forall j | 0 <= j < |Kept(nodes, Numbers(ss))| ensures Kept(nodes, Numbers(ss))[j] < |skels| {
      assert Kept(nodes, Numbers(ss))[j] in Numbers(ss);
    }
  }

  /** What ss show is what its nodes not removed show. */
  lemma {:induction false} ShowAllIsShows(nodes: Nodes, skels: seq<Skel>, ss: seq<Skel>)
    requires forall j :: 0 <= j < |ss| ==> IsPart(skels, ss[j])
    ensures forall j :: 0 <= j < |Kept(nodes, Numbers(ss))| ==> Kept(nodes, Numbers(ss))[j] < |skels|
    ensures ShowAll(nodes, ss) == Shows(nodes, skels, Kept(nodes, Numbers(ss)))
  {
    hide Show, IsRemoved;
    NumbersAreParts(skels, ss, nodes);
    if ss != [] {
      var ns := Numbers(ss);
      assert ns[1..] == Numbers(ss[1..]) && skels[ns[0]] == ss[0];
      ShowAllIsShows(nodes, skels, ss[1..]);
      var rest := Kept(nodes, ns[1..]);
      if !IsRemoved(nodes, ns[0]) {
        assert Kept(nodes, ns) == [ns[0]] + rest;
        assert Shows(nodes, skels, [ns[0]] + rest) == [Show(nodes, ss[0])] + Shows(nodes, skels, rest);
      }
    }
  }

  lemma ListStays(a: Nodes, b: Nodes, skels: seq<Skel>, list: TreeList, slice: seq<Node>, ss: seq<Skel>)
    requires Shaped(a, skels) && Rebuilt(a, b, skels) && forall j :: 0 <= j < |ss| ==> IsPart(skels, ss[j])
    requires ListShows(a, list, slice, ss)
    ensures ListShows(b, list, slice, ss)
  {
    hide Hung, Show, ShowAll, IsPart, ParentFirst;
    ShowAllStays(a, b, skels, ss);
    assert forall i :: 0 <= i < |a| ==> Same(a[i], b[i], skels[i].level);
    KeptStays(a, b, list.nodes);
    KeptStays(a, b, Numbers(ss));
  }

  lemma FitStays(a: Nodes, b: Nodes, skels: seq<Skel>, i: nat)
    requires Shaped(a, skels) && Rebuilt(a, b, skels) && i < |a| && a[i] == b[i] && Fits(a, skels, i)
    ensures Fits(b, skels, i)
  {
    hide ListShows, Same, ParentFirst;
    assert Hung(a, skels, i);
    if Reads(skels[i].level) {
      ListStays(a, b, skels, a[i].groups, a[i].value.groups, skels[i].groups);
    }
    ListStays(a, b, skels, a[i].operations, a[i].value.operations, skels[i].operations);
  }

  lemma ShapeStays(a: Nodes, b: Nodes, skels: seq<Skel>)
    requires Shaped(a, skels) && |a| == |b| && forall i :: 0 <= i < |a| ==> a[i].place == b[i].place
    ensures Shaped(b, skels)
  {
    forall i | 0 <= i < |b| ensures Hung(b, skels, i) {
      assert Hung(a, skels, i);
    }
  }

  // ----- what a write changes -----

  /** k is n or holds it. */
  predicate OnPath(nodes: Nodes, n: nat, k: nat): (on: bool)
    requires ParentFirst(nodes)
    ensures on ==> k <= n < |nodes|
    decreases n
  {
    n < |nodes| && (k == n || (!nodes[n].place.InServices? && OnPath(nodes, nodes[n].place.parent, k)))
  }

  lemma {:induction false} PathGoesUp(nodes: Nodes, n: nat, k: nat)
    requires ParentFirst(nodes) && OnPath(nodes, n, k)
    ensures k <= n
    ensures !nodes[k].place.InServices? ==> OnPath(nodes, n, nodes[k].place.parent)
    decreases n
  {
    if k != n {
      PathGoesUp(nodes, nodes[n].place.parent, k);
    } else if !nodes[n].place.InServices? {
      assert OnPath(nodes, nodes[n].place.parent, nodes[n].place.parent);
    }
  }

  // b is a but for what n holds of its own and whether it is removed.
  ghost predicate SameBut(a: Nodes, b: Nodes, n: nat) {
    && |a| == |b|
    && forall i :: 0 <= i < |a| && i != n ==> b[i].value == a[i].value && b[i].removed == a[i].removed
  }

  /** A write leaves what a node off its path shows. */
  lemma {:induction false} ShowOff(a: Nodes, b: Nodes, skels: seq<Skel>, n: nat, s: Skel)
    requires Shaped(a, skels) && SameBut(a, b, n) && IsPart(skels, s) && !OnPath(a, n, s.n)
    ensures Show(a, s) == Show(b, s)
    decreases s, 1
  {
    assert Hung(a, skels, s.n);
    if n < |a| {
      assert OnPath(a, n, n);
    }
    forall j | 0 <= j < |s.groups| ensures IsPart(skels, s.groups[j]) && !OnPath(a, n, s.groups[j].n) {
      assert HangsFrom(a, skels, s, s.groups[j], InGroups(s.n));
      if OnPath(a, n, s.groups[j].n) {
        PathGoesUp(a, n, s.groups[j].n);
      }
    }
    forall j | 0 <= j < |s.operations| ensures IsPart(skels, s.operations[j]) && !OnPath(a, n, s.operations[j].n) {
      assert HangsFrom(a, skels, s, s.operations[j], InOperations(s.n));
      if OnPath(a, n, s.operations[j].n) {
        PathGoesUp(a, n, s.operations[j].n);
      }
    }
    if s.groups != [] {
      ShowAllOff(a, b, skels, n, s.groups);
    }
    if s.operations != [] {
      ShowAllOff(a, b, skels, n, s.operations);
    }
  }

  lemma {:induction false} ShowAllOff(a: Nodes, b: Nodes, skels: seq<Skel>, n: nat, ss: seq<Skel>)
    requires Shaped(a, skels) && SameBut(a, b, n)
    requires forall j :: 0 <= j < |ss| ==> IsPart(skels, ss[j]) && !OnPath(a, n, ss[j].n)
    ensures ShowAll(a, ss) == ShowAll(b, ss)
    decreases ss, 0
  {
    if ss != [] {
      assert IsPart(skels, ss[0]) && !OnPath(a, n, ss[0].n);
      if n < |a| {
        assert OnPath(a, n, n);
      }
      ShowOff(a, b, skels, n, ss[0]);
      ShowAllOff(a, b, skels, n, ss[1..]);
    }
  }

  /** n is in the edit's tree still: no removal took it or anything it sits in. */
  predicate Held(nodes: Nodes, n: nat)
    requires ParentFirst(nodes)
    decreases n
  {
    n < |nodes| && !nodes[n].removed && (nodes[n].place.InServices? || Held(nodes, nodes[n].place.parent))
  }

  // n is all the edit holds at key.
  ghost predicate OnlyAt(nodes: Nodes, key: Key, n: nat)
    requires ParentFirst(nodes)
  {
    && n < |nodes| && Held(nodes, n) && nodes[n].value.key == key
    && forall i :: 0 <= i < |nodes| && Held(nodes, i) && nodes[i].value.key == key ==> i == n
  }

  // b is a with what n holds of its own replaced.
  ghost predicate Rewritten(a: Nodes, b: Nodes, n: nat, data: string) {
    && n < |a| == |b|
    && (forall i :: 0 <= i < |a| ==> b[i].removed == a[i].removed && (i != n ==> b[i].value == a[i].value))
    && b[n].value == a[n].value.(data := data)
  }

  /** Writing the one node at key changes what is shown there, and nothing else. */
  lemma {:induction false} ShowRewritten(a: Nodes, b: Nodes, skels: seq<Skel>, key: Key, n: nat, data: string, s: Skel)
    requires Shaped(a, skels) && OnlyAt(a, key, n) && Rewritten(a, b, n, data)
    requires IsPart(skels, s) && Held(a, s.n)
    ensures Show(b, s) == Changed(Show(a, s), key, data, s.level)
    decreases s, 1
  {
    UnderSelf(a, skels, s);
    if s.groups != [] {
      ShowAllRewritten(a, b, skels, key, n, data, s.groups, s.level + 1);
    }
    if s.operations != [] {
      ShowAllRewritten(a, b, skels, key, n, data, s.operations, s.level + 1);
    }
  }

  // The nodes of ss sit in held nodes, at one level.
  ghost predicate Under(nodes: Nodes, skels: seq<Skel>, ss: seq<Skel>, level: nat)
    requires ParentFirst(nodes)
  {
    forall j :: 0 <= j < |ss| ==>
      && IsPart(skels, ss[j]) && ss[j].level == level && ss[j].n < |nodes|
      && (nodes[ss[j].n].place.InServices? || Held(nodes, nodes[ss[j].n].place.parent))
  }

  lemma {:induction false} ShowAllRewritten(a: Nodes, b: Nodes, skels: seq<Skel>, key: Key, n: nat, data: string,
      ss: seq<Skel>, level: nat)
    requires Shaped(a, skels) && OnlyAt(a, key, n) && Rewritten(a, b, n, data)
    requires Under(a, skels, ss, level)
    ensures ShowAll(b, ss) == AllChanged(ShowAll(a, ss), key, data, level)
    decreases ss, 0
  {
    if ss != [] {
      assert IsPart(skels, ss[0]);
      ShowAllRewritten(a, b, skels, key, n, data, ss[1..], level);
      if !IsRemoved(a, ss[0].n) {
        ShowRewritten(a, b, skels, key, n, data, ss[0]);
        assert ([Show(a, ss[0])] + ShowAll(a, ss[1..]))[1..] == ShowAll(a, ss[1..]);
      } else {
        assert ShowAll(a, ss) == ShowAll(a, ss[1..]) && ShowAll(b, ss) == ShowAll(b, ss[1..]);
      }
    }
  }

  // b is a with n removed.
  ghost predicate Dropped(a: Nodes, b: Nodes, n: nat) {
    && n < |a| == |b|
    && (forall i :: 0 <= i < |a| ==> b[i].value == a[i].value && (i != n ==> b[i].removed == a[i].removed))
    && b[n].removed
  }

  /** Removing the one node at key drops what is shown there, and nothing else. */
  lemma {:induction false} ShowDropped(a: Nodes, b: Nodes, skels: seq<Skel>, key: Key, n: nat, s: Skel)
    requires Shaped(a, skels) && OnlyAt(a, key, n) && Dropped(a, b, n)
    requires IsPart(skels, s) && Held(a, s.n)
    ensures Show(b, s) == Without(Show(a, s), key, s.level)
    decreases s, 1
  {
    UnderSelf(a, skels, s);
    if s.groups != [] {
      ShowAllDropped(a, b, skels, key, n, s.groups, s.level + 1);
    }
    if s.operations != [] {
      ShowAllDropped(a, b, skels, key, n, s.operations, s.level + 1);
    }
  }

  lemma UnderSelf(nodes: Nodes, skels: seq<Skel>, s: Skel)
    requires Shaped(nodes, skels) && IsPart(skels, s) && Held(nodes, s.n)
    ensures Under(nodes, skels, s.groups, s.level + 1) && Under(nodes, skels, s.operations, s.level + 1)
    ensures !Reads(s.level) ==> s.groups == []
  {
    assert Hung(nodes, skels, s.n);
    forall j | 0 <= j < |s.groups| ensures HangsFrom(nodes, skels, s, s.groups[j], InGroups(s.n)) {}
    forall j | 0 <= j < |s.operations| ensures HangsFrom(nodes, skels, s, s.operations[j], InOperations(s.n)) {}
  }

  lemma {:induction false} ShowAllDropped(a: Nodes, b: Nodes, skels: seq<Skel>, key: Key, n: nat, ss: seq<Skel>, level: nat)
    requires Shaped(a, skels) && OnlyAt(a, key, n) && Dropped(a, b, n)
    requires Under(a, skels, ss, level)
    ensures ShowAll(b, ss) == AllWithout(ShowAll(a, ss), key, level)
    decreases ss, 0
  {
    if ss != [] {
      assert IsPart(skels, ss[0]);
      ShowAllDropped(a, b, skels, key, n, ss[1..], level);
      if !IsRemoved(a, ss[0].n) {
        ShowDropped(a, b, skels, key, n, ss[0]);
        assert ShowAll(a, ss) == [Show(a, ss[0])] + ShowAll(a, ss[1..]);
        assert ([Show(a, ss[0])] + ShowAll(a, ss[1..]))[1..] == ShowAll(a, ss[1..]);
        assert ss[0].n == n <==> Show(a, ss[0]).key == key;
        if ss[0].n == n {
          assert ShowAll(b, ss) == ShowAll(b, ss[1..]);
        }
      } else {
        assert ShowAll(a, ss) == ShowAll(a, ss[1..]) && ShowAll(b, ss) == ShowAll(b, ss[1..]);
      }
    }
  }

  // ----- what the edit holds at an ID -----

  /** The numbers of s and what is in it, in the order index reads them. */
  function Flatten(s: Skel): seq<nat> {
    [s.n] + FlattenAll(s.operations) + FlattenAll(s.groups)
  }

  function FlattenAll(ss: seq<Skel>): seq<nat> {
    if ss == [] then [] else Flatten(ss[0]) + FlattenAll(ss[1..])
  }

  // Those of them no removal on the way cut off.
  function Live(nodes: Nodes, s: Skel): seq<nat> {
    [s.n] + LiveAll(nodes, s.operations) + LiveAll(nodes, s.groups)
  }

  function LiveAll(nodes: Nodes, ss: seq<Skel>): seq<nat> {
    if ss == [] then []
    else (if IsRemoved(nodes, ss[0].n) then [] else Live(nodes, ss[0])) + LiveAll(nodes, ss[1..])
  }

  function HeldIn(nodes: Nodes, ns: seq<nat>): seq<nat>
    requires ParentFirst(nodes)
  {
    if ns == [] then [] else (if Held(nodes, ns[0]) then [ns[0]] else []) + HeldIn(nodes, ns[1..])
  }

  function KeyedIn(nodes: Nodes, ns: seq<nat>, key: Key): seq<nat> {
    if ns == [] then []
    else (if ValueAt(nodes, ns[0]).key == key then [ns[0]] else []) + KeyedIn(nodes, ns[1..], key)
  }

  lemma NoneHeld(nodes: Nodes)
    requires ParentFirst(nodes)
    ensures HeldIn(nodes, []) == []
  {}

  lemma HeldInFirst(nodes: Nodes, n: nat, ns: seq<nat>)
    requires ParentFirst(nodes)
    ensures HeldIn(nodes, [n] + ns) == (if Held(nodes, n) then [n] else []) + HeldIn(nodes, ns)
  {
    hide Held, ParentFirst;
    assert ([n] + ns)[1..] == ns;
  }

  lemma {:induction false} HeldInBoth(nodes: Nodes, a: seq<nat>, b: seq<nat>)
    requires ParentFirst(nodes)
    ensures HeldIn(nodes, a + b) == HeldIn(nodes, a) + HeldIn(nodes, b)
  {
    hide Held, ParentFirst, HeldIn;
    if a == [] {
      assert a + b == b && HeldIn(nodes, []) == [] by {
        NoneHeld(nodes);
      }
    } else {
      HeldInBoth(nodes, a[1..], b);
      HeldInFirst(nodes, a[0], a[1..]);
      HeldInFirst(nodes, a[0], a[1..] + b);
      assert a == [a[0]] + a[1..] && a + b == [a[0]] + (a[1..] + b);
    }
  }

  lemma {:induction false} KeyedInBoth(nodes: Nodes, a: seq<nat>, b: seq<nat>, key: Key)
    ensures KeyedIn(nodes, a + b, key) == KeyedIn(nodes, a, key) + KeyedIn(nodes, b, key)
  {
    if a == [] {
      assert a + b == b;
    } else {
      assert (a + b)[1..] == a[1..] + b;
      KeyedInBoth(nodes, a[1..], b, key);
    }
  }

  lemma {:induction false} FilterEitherWay(nodes: Nodes, ns: seq<nat>, key: Key)
    requires ParentFirst(nodes)
    ensures KeyedIn(nodes, HeldIn(nodes, ns), key) == HeldIn(nodes, KeyedIn(nodes, ns, key))
  {
    if ns != [] {
      FilterEitherWay(nodes, ns[1..], key);
      KeyedInBoth(nodes, if Held(nodes, ns[0]) then [ns[0]] else [], HeldIn(nodes, ns[1..]), key);
      HeldInBoth(nodes, if ValueAt(nodes, ns[0]).key == key then [ns[0]] else [], KeyedIn(nodes, ns[1..], key));
    }
  }

  // The nodes of ss sit in s, at the level below it.
  ghost predicate In(nodes: Nodes, skels: seq<Skel>, ss: seq<Skel>, p: nat) {
    forall j :: 0 <= j < |ss| ==>
      IsPart(skels, ss[j]) && ss[j].n < |nodes| && !nodes[ss[j].n].place.InServices? && nodes[ss[j].n].place.parent == p
  }

  lemma HangsIn(nodes: Nodes, skels: seq<Skel>, s: Skel)
    requires Shaped(nodes, skels) && IsPart(skels, s)
    ensures In(nodes, skels, s.groups, s.n) && In(nodes, skels, s.operations, s.n)
    ensures forall j :: 0 <= j < |s.groups| ==> s.groups[j].level == s.level + 1
    ensures forall j :: 0 <= j < |s.operations| ==> s.operations[j].level == s.level + 1
    ensures !Reads(s.level) ==> s.groups == []
  {
    assert Hung(nodes, skels, s.n);
    forall j | 0 <= j < |s.groups| ensures HangsFrom(nodes, skels, s, s.groups[j], InGroups(s.n)) {}
    forall j | 0 <= j < |s.operations| ensures HangsFrom(nodes, skels, s, s.operations[j], InOperations(s.n)) {}
  }

  /** Walking down past removed nodes finds what walking up from each node does. */
  lemma {:induction false} LiveIsHeld(nodes: Nodes, skels: seq<Skel>, s: Skel)
    requires Shaped(nodes, skels) && IsPart(skels, s)
    ensures HeldIn(nodes, Flatten(s)) == if Held(nodes, s.n) then Live(nodes, s) else []
    decreases s, 1
  {
    HangsIn(nodes, skels, s);
    if s.operations != [] {
      LiveAllIsHeld(nodes, skels, s.operations, s.n);
    }
    if s.groups != [] {
      LiveAllIsHeld(nodes, skels, s.groups, s.n);
    }
    HeldInBoth(nodes, [s.n], FlattenAll(s.operations));
    HeldInBoth(nodes, [s.n] + FlattenAll(s.operations), FlattenAll(s.groups));
    assert HeldIn(nodes, [s.n]) == if Held(nodes, s.n) then [s.n] else [];
  }

  lemma {:induction false} LiveAllIsHeld(nodes: Nodes, skels: seq<Skel>, ss: seq<Skel>, p: nat)
    requires Shaped(nodes, skels) && In(nodes, skels, ss, p)
    ensures HeldIn(nodes, FlattenAll(ss)) == if Held(nodes, p) then LiveAll(nodes, ss) else []
    decreases ss, 0
  {
    if ss != [] {
      assert IsPart(skels, ss[0]);
      LiveIsHeld(nodes, skels, ss[0]);
      LiveAllIsHeld(nodes, skels, ss[1..], p);
      HeldInBoth(nodes, Flatten(ss[0]), FlattenAll(ss[1..]));
    }
  }

  lemma {:induction false} RootsLiveIsHeld(nodes: Nodes, skels: seq<Skel>, roots: seq<Skel>)
    requires Shaped(nodes, skels) && Rooted(nodes, skels, roots)
    ensures HeldIn(nodes, FlattenAll(roots)) == LiveAll(nodes, roots)
  {
    if roots != [] {
      assert IsPart(skels, roots[0]) && nodes[roots[0].n].place == InServices;
      LiveIsHeld(nodes, skels, roots[0]);
      assert Rooted(nodes, skels, roots[1..]);
      RootsLiveIsHeld(nodes, skels, roots[1..]);
      HeldInBoth(nodes, Flatten(roots[0]), FlattenAll(roots[1..]));
    }
  }

  lemma ShowsBoth(nodes: Nodes, skels: seq<Skel>, a: seq<nat>, b: seq<nat>)
    requires forall i :: 0 <= i < |a| ==> a[i] < |skels|
    requires forall i :: 0 <= i < |b| ==> b[i] < |skels|
    ensures Shows(nodes, skels, a + b) == Shows(nodes, skels, a) + Shows(nodes, skels, b)
  {
    hide Show;
  }

  lemma {:induction false} AllVisibleBoth(a: seq<Node>, b: seq<Node>, level: nat)
    ensures AllVisible(a + b, level) == AllVisible(a, level) + AllVisible(b, level)
  {
    if a == [] {
      assert a + b == b;
    } else {
      assert (a + b)[1..] == a[1..] + b;
      AllVisibleBoth(a[1..], b, level);
    }
  }

  ghost predicate InRange(skels: seq<Skel>, ns: seq<nat>) {
    forall i :: 0 <= i < |ns| ==> ns[i] < |skels|
  }

  /** What an edit can name in what s shows is what its live nodes show. */
  lemma {:induction false} VisibleIsLive(nodes: Nodes, skels: seq<Skel>, s: Skel)
    requires Shaped(nodes, skels) && IsPart(skels, s)
    ensures InRange(skels, Live(nodes, s))
    ensures Visible(Show(nodes, s), s.level) == Shows(nodes, skels, Live(nodes, s))
    decreases s, 1
  {
    hide Show;
    HangsIn(nodes, skels, s);
    if s.operations != [] {
      AllVisibleIsLive(nodes, skels, s.operations, s.level + 1);
    }
    if s.groups != [] {
      AllVisibleIsLive(nodes, skels, s.groups, s.level + 1);
    }
    VisibleStep(nodes, skels, s);
  }

  lemma VisibleStep(nodes: Nodes, skels: seq<Skel>, s: Skel)
    requires IsPart(skels, s) && (!Reads(s.level) ==> s.groups == [])
    requires InRange(skels, LiveAll(nodes, s.operations)) && InRange(skels, LiveAll(nodes, s.groups))
    requires AllVisible(ShowAll(nodes, s.operations), s.level + 1) == Shows(nodes, skels, LiveAll(nodes, s.operations))
    requires AllVisible(ShowAll(nodes, s.groups), s.level + 1) == Shows(nodes, skels, LiveAll(nodes, s.groups))
    ensures InRange(skels, Live(nodes, s))
    ensures Visible(Show(nodes, s), s.level) == Shows(nodes, skels, Live(nodes, s))
  {
    var v, ops, groups := Show(nodes, s), LiveAll(nodes, s.operations), LiveAll(nodes, s.groups);
    ShowHas(nodes, s);
    hide Show, AllVisible, ShowAll, LiveAll, Reads;
    ShowsBoth(nodes, skels, [s.n], ops);
    ShowsBoth(nodes, skels, [s.n] + ops, groups);
    assert Visible(v, s.level) == [v] + Shows(nodes, skels, ops) + Shows(nodes, skels, groups) by {
      if !Reads(s.level) {
        NoneLive(nodes);
      }
    }
    assert Shows(nodes, skels, [s.n]) == [v];
  }

  lemma NoneLive(nodes: Nodes)
    ensures LiveAll(nodes, []) == []
  {}

  lemma ShowHas(nodes: Nodes, s: Skel)
    ensures Show(nodes, s).operations == ShowAll(nodes, s.operations)
    ensures Reads(s.level) ==> Show(nodes, s).groups == ShowAll(nodes, s.groups)
    ensures Show(nodes, s).key == ValueAt(nodes, s.n).key && Show(nodes, s).data == ValueAt(nodes, s.n).data
  {}

  lemma {:induction false} AllVisibleIsLive(nodes: Nodes, skels: seq<Skel>, ss: seq<Skel>, level: nat)
    requires Shaped(nodes, skels)
    requires forall j :: 0 <= j < |ss| ==> IsPart(skels, ss[j]) && ss[j].level == level
    ensures InRange(skels, LiveAll(nodes, ss))
    ensures AllVisible(ShowAll(nodes, ss), level) == Shows(nodes, skels, LiveAll(nodes, ss))
    decreases ss, 0
  {
    hide Show, Live;
    if ss != [] {
      assert IsPart(skels, ss[0]);
      AllVisibleIsLive(nodes, skels, ss[1..], level);
      if !IsRemoved(nodes, ss[0].n) {
        VisibleIsLive(nodes, skels, ss[0]);
        AllVisibleStep(nodes, skels, ss, level);
      } else {
        assert LiveAll(nodes, ss) == LiveAll(nodes, ss[1..]) && ShowAll(nodes, ss) == ShowAll(nodes, ss[1..]);
      }
    }
  }

  lemma AllVisibleStep(nodes: Nodes, skels: seq<Skel>, ss: seq<Skel>, level: nat)
    requires ss != [] && !IsRemoved(nodes, ss[0].n)
    requires InRange(skels, LiveAll(nodes, ss[1..])) && InRange(skels, Live(nodes, ss[0]))
    requires AllVisible(ShowAll(nodes, ss[1..]), level) == Shows(nodes, skels, LiveAll(nodes, ss[1..]))
    requires Visible(Show(nodes, ss[0]), level) == Shows(nodes, skels, Live(nodes, ss[0]))
    ensures InRange(skels, LiveAll(nodes, ss))
    ensures AllVisible(ShowAll(nodes, ss), level) == Shows(nodes, skels, LiveAll(nodes, ss))
  {
    hide Show, Live, IsRemoved, Visible;
    assert LiveAll(nodes, ss) == Live(nodes, ss[0]) + LiveAll(nodes, ss[1..]);
    assert ShowAll(nodes, ss) == [Show(nodes, ss[0])] + ShowAll(nodes, ss[1..]);
    assert ShowAll(nodes, ss)[1..] == ShowAll(nodes, ss[1..]);
    ShowsBoth(nodes, skels, Live(nodes, ss[0]), LiveAll(nodes, ss[1..]));
  }

  lemma {:induction false} RootsVisibleIsLive(nodes: Nodes, skels: seq<Skel>, roots: seq<Skel>)
    requires Shaped(nodes, skels) && Rooted(nodes, skels, roots)
    ensures InRange(skels, LiveAll(nodes, roots))
    ensures AllVisible(ShowAll(nodes, roots), 0) == Shows(nodes, skels, LiveAll(nodes, roots))
  {
    hide Show, Live;
    if roots != [] {
      assert IsPart(skels, roots[0]);
      assert Rooted(nodes, skels, roots[1..]);
      RootsVisibleIsLive(nodes, skels, roots[1..]);
      if !IsRemoved(nodes, roots[0].n) {
        VisibleIsLive(nodes, skels, roots[0]);
        AllVisibleStep(nodes, skels, roots, 0);
      } else {
        assert LiveAll(nodes, roots) == LiveAll(nodes, roots[1..]) && ShowAll(nodes, roots) == ShowAll(nodes, roots[1..]);
      }
    }
  }

  lemma {:induction false} AtIsKeyed(nodes: Nodes, skels: seq<Skel>, ns: seq<nat>, key: Key)
    requires Shaped(nodes, skels) && InRange(skels, ns)
    ensures InRange(skels, KeyedIn(nodes, ns, key))
    ensures At(Shows(nodes, skels, ns), key) == Shows(nodes, skels, KeyedIn(nodes, ns, key))
  {
    hide Show, Shaped, Hung, ParentFirst, At;
    SameLength(nodes, skels);
    if ns == [] {
      AtFirst([], key);
    } else {
      var n, rest := ns[0], ns[1..];
      AtIsKeyed(nodes, skels, rest, key);
      IsItsPart(nodes, skels, n);
      ShowHas(nodes, skels[n]);
      AtFirst(Shows(nodes, skels, ns), key);
      assert Shows(nodes, skels, ns)[1..] == Shows(nodes, skels, rest);
      var here := if ValueAt(nodes, n).key == key then [n] else [];
      ShowsBoth(nodes, skels, here, KeyedIn(nodes, rest, key));
      assert Shows(nodes, skels, here) == if ValueAt(nodes, n).key == key then [Show(nodes, skels[n])] else [];
    }
  }

  lemma AtFirst(vs: seq<Node>, key: Key)
    ensures vs == [] ==> At(vs, key) == []
    ensures vs != [] ==> At(vs, key) == (if vs[0].key == key then [vs[0]] else []) + At(vs[1..], key)
  {}

  /** The nodes the edit holds at key, looked up and walked up from, are those its
      services show there. */
  lemma FoundIsShown(nodes: Nodes, skels: seq<Skel>, roots: seq<Skel>, key: Key)
    requires Shaped(nodes, skels) && Rooted(nodes, skels, roots)
    ensures var found := HeldIn(nodes, KeyedIn(nodes, FlattenAll(roots), key));
      InRange(skels, found) && At(AllVisible(ShowAll(nodes, roots), 0), key) == Shows(nodes, skels, found)
  {
    hide Show;
    RootsLiveIsHeld(nodes, skels, roots);
    RootsVisibleIsLive(nodes, skels, roots);
    AtIsKeyed(nodes, skels, LiveAll(nodes, roots), key);
    FilterEitherWay(nodes, FlattenAll(roots), key);
  }

  // ----- a write leaves every slice stale or showing -----

  // The list holding k is stale.
  predicate StaleAt(nodes: Nodes, services: TreeList, k: nat) {
    k < |nodes| &&
    match nodes[k].place
    case InServices => services.stale
    case InGroups(p) => p < |nodes| && nodes[p].groups.stale
    case InOperations(p) => p < |nodes| && nodes[p].operations.stale
  }

  predicate Staler(a: TreeList, b: TreeList) {
    b.nodes == a.nodes && (a.stale ==> b.stale)
  }

  // b is a with more lists stale.
  ghost predicate StalerAll(a: Nodes, b: Nodes) {
    && |a| == |b|
    && forall i :: 0 <= i < |a| ==>
      && b[i].place == a[i].place && b[i].value == a[i].value && b[i].removed == a[i].removed
      && Staler(a[i].groups, b[i].groups) && Staler(a[i].operations, b[i].operations)
  }

  /** b is a with node n written or removed, and every list on the path to it stale. */
  ghost predicate Written(a: Nodes, was: TreeList, b: Nodes, services: TreeList, n: nat) {
    && n < |a| == |b| && ParentFirst(a) && Staler(was, services)
    && (forall i :: 0 <= i < |a| ==>
          && b[i].place == a[i].place && (a[i].removed ==> b[i].removed)
          && (i != n ==> b[i].removed == a[i].removed && b[i].value == a[i].value)
          && b[i].value.groups == a[i].value.groups && b[i].value.operations == a[i].value.operations
          && Staler(a[i].groups, b[i].groups) && Staler(a[i].operations, b[i].operations))
    && (forall k :: OnPath(a, n, k) ==> StaleAt(b, services, k))
    && (forall i :: 0 <= i < |a| && b[i].groups.stale && !a[i].groups.stale ==> PathIn(a, n, InGroups(i)))
    && (forall i :: 0 <= i < |a| && b[i].operations.stale && !a[i].operations.stale ==> PathIn(a, n, InOperations(i)))
  }

  // A node on the path to n sits at place.
  ghost predicate PathIn(nodes: Nodes, n: nat, place: Place)
    requires ParentFirst(nodes)
  {
    exists k: nat :: OnPath(nodes, n, k) && nodes[k].place == place
  }

  lemma {:induction false} KeptTwice(a: Nodes, b: Nodes, ns: seq<nat>)
    requires |a| == |b| && forall i :: 0 <= i < |a| && a[i].removed ==> b[i].removed
    ensures Kept(b, ns) == Kept(b, Kept(a, ns))
  {
    if ns != [] {
      KeptTwice(a, b, ns[1..]);
      if !IsRemoved(a, ns[0]) {
        assert Kept(a, ns)[1..] == Kept(a, ns[1..]);
      } else {
        assert Kept(a, ns) == Kept(a, ns[1..]) && Kept(b, ns) == Kept(b, ns[1..]);
      }
    }
  }

  lemma ListWritten(a: Nodes, b: Nodes, skels: seq<Skel>, n: nat, was: TreeList, list: TreeList, slice: seq<Node>,
      ss: seq<Skel>)
    requires Shaped(a, skels) && SameBut(a, b, n) && forall i :: 0 <= i < |a| && a[i].removed ==> b[i].removed
    requires ListShows(a, was, slice, ss) && Staler(was, list) && forall j :: 0 <= j < |ss| ==> IsPart(skels, ss[j])
    requires !list.stale ==> forall j :: 0 <= j < |ss| ==> !OnPath(a, n, ss[j].n)
    ensures ListShows(b, list, slice, ss)
  {
    hide Shaped, Show, ShowAll, IsPart, OnPath;
    KeptTwice(a, b, was.nodes);
    KeptTwice(a, b, Numbers(ss));
    if !list.stale {
      ShowAllOff(a, b, skels, n, ss);
    }
  }

  lemma OffPath(a: Nodes, was: TreeList, b: Nodes, services: TreeList, skels: seq<Skel>, n: nat, s: Skel)
    requires Shaped(a, skels) && Written(a, was, b, services, n) && IsPart(skels, s)
    ensures !b[s.n].groups.stale ==> forall j :: 0 <= j < |s.groups| ==> !OnPath(a, n, s.groups[j].n)
    ensures !b[s.n].operations.stale ==> forall j :: 0 <= j < |s.operations| ==> !OnPath(a, n, s.operations[j].n)
    ensures forall j :: 0 <= j < |s.groups| ==> IsPart(skels, s.groups[j])
    ensures forall j :: 0 <= j < |s.operations| ==> IsPart(skels, s.operations[j])
  {
    hide OnPath;
    assert Hung(a, skels, s.n);
    forall j | 0 <= j < |s.groups| ensures HangsFrom(a, skels, s, s.groups[j], InGroups(s.n)) {}
    forall j | 0 <= j < |s.operations| ensures HangsFrom(a, skels, s, s.operations[j], InOperations(s.n)) {}
    forall k | OnPath(a, n, k) ensures StaleAt(b, services, k) {}
  }

  lemma PathReads(nodes: Nodes, skels: seq<Skel>, n: nat, i: nat)
    requires Shaped(nodes, skels) && PathIn(nodes, n, InGroups(i))
    ensures i < |skels| && Reads(skels[i].level)
  {
    var k: nat :| OnPath(nodes, n, k) && nodes[k].place == InGroups(i);
    assert Hung(nodes, skels, k);
  }

  lemma FitsWritten(a: Nodes, was: TreeList, b: Nodes, services: TreeList, skels: seq<Skel>, n: nat, i: nat)
    requires Shaped(a, skels) && Written(a, was, b, services, n) && i < |a| && Fits(a, skels, i)
    ensures Fits(b, skels, i)
  {
    hide OnPath, ListShows, Kept, StaleAt;
    OffPath(a, was, b, services, skels, n, skels[i]) by {
      assert Hung(a, skels, i);
    }
    assert Hung(a, skels, i);
    if Reads(skels[i].level) {
      ListWritten(a, b, skels, n, a[i].groups, b[i].groups, a[i].value.groups, skels[i].groups);
    } else {
      assert !PathIn(a, n, InGroups(i)) by {
        if PathIn(a, n, InGroups(i)) {
          PathReads(a, skels, n, i);
        }
      }
    }
    ListWritten(a, b, skels, n, a[i].operations, b[i].operations, a[i].value.operations, skels[i].operations);
  }

  // ----- building a list -----

  lemma RebuiltThen(a: Nodes, b: Nodes, c: Nodes, skels: seq<Skel>)
    requires Rebuilt(a, b, skels) && Rebuilt(b, c, skels)
    ensures Rebuilt(a, c, skels)
  {
    forall i | 0 <= i < |a| ensures Same(a[i], c[i], skels[i].level) {
      assert Same(a[i], b[i], skels[i].level) && Same(b[i], c[i], skels[i].level);
    }
  }

  lemma RebuiltSelf(a: Nodes, skels: seq<Skel>)
    requires |a| == |skels|
    ensures Rebuilt(a, a, skels)
  {}

  lemma RebuiltShape(a: Nodes, b: Nodes, skels: seq<Skel>)
    requires Shaped(a, skels) && Rebuilt(a, b, skels)
    ensures Shaped(b, skels)
  {
    assert forall i :: 0 <= i < |a| ==> Same(a[i], b[i], skels[i].level);
    ShapeStays(a, b, skels);
  }

  /** A node with nothing stale in it holds what it shows. */
  lemma ShownWhenFresh(nodes: Nodes, skels: seq<Skel>, n: nat)
    requires Shaped(nodes, skels) && AllFit(nodes, skels) && n < |nodes|
    requires !nodes[n].groups.stale && !nodes[n].operations.stale
    ensures nodes[n].value == Show(nodes, skels[n])
  {
    hide ShowAll, Kept;
    assert Hung(nodes, skels, n) && Fits(nodes, skels, n);
  }

  lemma ChildrenArePast(nodes: Nodes, skels: seq<Skel>, n: nat)
    requires Shaped(nodes, skels) && n < |nodes|
    ensures forall j :: 0 <= j < |skels[n].groups| ==> IsPart(skels, skels[n].groups[j]) && n < skels[n].groups[j].n
    ensures forall j :: 0 <= j < |skels[n].operations| ==>
      IsPart(skels, skels[n].operations[j]) && n < skels[n].operations[j].n
  {
    assert Hung(nodes, skels, n);
    var s := skels[n];
    forall j | 0 <= j < |s.groups| ensures HangsFrom(nodes, skels, s, s.groups[j], InGroups(n)) {}
    forall j | 0 <= j < |s.operations| ensures HangsFrom(nodes, skels, s, s.operations[j], InOperations(n)) {}
  }

  // A list built anew shows its nodes.
  lemma ListBuilt(a: Nodes, b: Nodes, skels: seq<Skel>, ns: seq<nat>, ss: seq<Skel>)
    requires Shaped(a, skels) && Rebuilt(a, b, skels) && forall j :: 0 <= j < |ss| ==> IsPart(skels, ss[j])
    requires Kept(a, ns) == Kept(a, Numbers(ss))
    ensures ListShows(b, TreeList(Kept(a, ns), false), ShowAll(a, ss), ss)
  {
    hide Hung, Show, ShowAll, IsPart, ParentFirst;
    assert forall i :: 0 <= i < |a| ==> Same(a[i], b[i], skels[i].level);
    ShowAllStays(a, b, skels, ss);
    KeptTwice(a, a, ns);
    KeptStays(a, b, Kept(a, ns));
    KeptStays(a, b, Numbers(ss));
  }

  lemma RestFits(a: Nodes, b: Nodes, skels: seq<Skel>, n: nat)
    requires |a| == |b| == |skels| && Shaped(a, skels) && AllFit(a, skels) && Rebuilt(a, b, skels)
    requires forall i :: 0 <= i < |a| && i != n ==> b[i] == a[i]
    requires n < |b| && Fits(b, skels, n)
    ensures AllFit(b, skels)
  {
    hide Shaped, Rebuilt, Fits;
    forall i | 0 <= i < |b| ensures Fits(b, skels, i) {
      if i != n {
        FitStays(a, b, skels, i);
      }
    }
  }

  function WithGroups(t: TreeNode, kept: seq<nat>, elems: seq<Node>): TreeNode {
    t.(value := t.value.(groups := elems), groups := TreeList(kept, false))
  }

  function WithOperations(t: TreeNode, kept: seq<nat>, elems: seq<Node>): TreeNode {
    t.(value := t.value.(operations := elems), operations := TreeList(kept, false))
  }

  lemma GroupsBuilt(a: Nodes, skels: seq<Skel>, n: nat)
    requires Shaped(a, skels) && AllFit(a, skels) && n < |a| && a[n].groups.stale
    ensures var b := a[n := WithGroups(a[n], Kept(a, a[n].groups.nodes), ShowAll(a, skels[n].groups))];
      Rebuilt(a, b, skels) && AllFit(b, skels)
  {
    assert Fits(a, skels, n);
    ChildrenArePast(a, skels, n);
    hide Shaped, ListShows, ShowAll, Kept;
    var b := a[n := WithGroups(a[n], Kept(a, a[n].groups.nodes), ShowAll(a, skels[n].groups))];
    assert Same(a[n], b[n], skels[n].level);
    ListBuilt(a, b, skels, a[n].groups.nodes, skels[n].groups) by { KeptAgree(a, a[n].groups, a[n].value.groups, skels[n].groups); }
    ListStays(a, b, skels, a[n].operations, a[n].value.operations, skels[n].operations);
    RestFits(a, b, skels, n);
  }

  lemma OperationsBuilt(a: Nodes, skels: seq<Skel>, n: nat)
    requires Shaped(a, skels) && AllFit(a, skels) && n < |a| && a[n].operations.stale
    ensures var b := a[n := WithOperations(a[n], Kept(a, a[n].operations.nodes), ShowAll(a, skels[n].operations))];
      Rebuilt(a, b, skels) && AllFit(b, skels)
  {
    assert Fits(a, skels, n);
    ChildrenArePast(a, skels, n);
    hide Shaped, ListShows, ShowAll, Kept;
    var b := a[n := WithOperations(a[n], Kept(a, a[n].operations.nodes), ShowAll(a, skels[n].operations))];
    assert Same(a[n], b[n], skels[n].level);
    ListBuilt(a, b, skels, a[n].operations.nodes, skels[n].operations) by { KeptAgree(a, a[n].operations, a[n].value.operations, skels[n].operations); }
    if Reads(skels[n].level) {
      ListStays(a, b, skels, a[n].groups, a[n].value.groups, skels[n].groups);
    }
    RestFits(a, b, skels, n);
  }

  lemma KeptAgree(nodes: Nodes, list: TreeList, slice: seq<Node>, ss: seq<Skel>)
    requires ListShows(nodes, list, slice, ss)
    ensures Kept(nodes, list.nodes) == Kept(nodes, Numbers(ss))
  {}

  lemma SameLength(nodes: Nodes, skels: seq<Skel>)
    requires Shaped(nodes, skels)
    ensures |nodes| == |skels| && ParentFirst(nodes)
  {}

  lemma IsItsPart(nodes: Nodes, skels: seq<Skel>, n: nat)
    requires Shaped(nodes, skels) && n < |nodes|
    ensures IsPart(skels, skels[n]) && skels[n].n == n
  {
    assert Hung(nodes, skels, n);
  }

  lemma KeptArePast(nodes: Nodes, skels: seq<Skel>, ss: seq<Skel>, lo: nat)
    requires forall j :: 0 <= j < |ss| ==> IsPart(skels, ss[j]) && lo <= ss[j].n
    ensures forall j :: 0 <= j < |Kept(nodes, Numbers(ss))| ==> lo <= Kept(nodes, Numbers(ss))[j] < |skels|
  {
    KeptIsIn(nodes, Numbers(ss));
    forall j | 0 <= j < |Kept(nodes, Numbers(ss))| ensures lo <= Kept(nodes, Numbers(ss))[j] < |skels| {
      assert Kept(nodes, Numbers(ss))[j] in Numbers(ss);
    }
  }

  lemma StaleListShows(nodes: Nodes, skels: seq<Skel>, n: nat)
    requires Shaped(nodes, skels) && AllFit(nodes, skels) && n < |nodes|
    ensures nodes[n].groups.stale ==> Kept(nodes, nodes[n].groups.nodes) == Kept(nodes, Numbers(skels[n].groups))
    ensures Kept(nodes, nodes[n].operations.nodes) == Kept(nodes, Numbers(skels[n].operations))
  {
    assert Fits(nodes, skels, n);
  }

  lemma NothingElse(a: Nodes, b: Nodes, skels: seq<Skel>, ns: seq<nat>, ss: seq<Skel>)
    requires Shaped(a, skels) && Rebuilt(a, b, skels) && forall j :: 0 <= j < |ss| ==> IsPart(skels, ss[j])
    ensures Kept(a, ns) == Kept(b, ns) && ShowAll(a, ss) == ShowAll(b, ss)
  {
    assert forall i :: 0 <= i < |a| ==> Same(a[i], b[i], skels[i].level);
    KeptStays(a, b, ns);
    ShowAllStays(a, b, skels, ss);
  }

  lemma StaysPut(a: Nodes, b: Nodes, skels: seq<Skel>, n: nat)
    requires Rebuilt(a, b, skels)
    ensures |a| == |b| == |skels|
  {}

  lemma StalerSelf(a: Nodes)
    ensures StalerAll(a, a)
  {}

  lemma StalerHas(a: Nodes, b: Nodes, m: nat)
    requires StalerAll(a, b) && m < |a|
    ensures |a| == |b| && b[m].place == a[m].place && (ParentFirst(a) ==> ParentFirst(b))
    ensures forall i :: 0 <= i < |a| ==> (a[i].groups.stale ==> b[i].groups.stale)
    ensures forall i :: 0 <= i < |a| ==> (a[i].operations.stale ==> b[i].operations.stale)
  {}

  lemma StalerThen(a: Nodes, b: Nodes, c: Nodes)
    requires StalerAll(a, b) && StalerAll(b, c)
    ensures StalerAll(a, c)
  {}

  lemma StaleStays(a: Nodes, was: TreeList, b: Nodes, list: TreeList, k: nat)
    requires StalerAll(a, b) && Staler(was, list) && StaleAt(a, was, k)
    ensures StaleAt(b, list, k)
  {}

  // ----- reading the tree -----

  /** Nodes lo on are read, every list of theirs showing what it holds. */
  ghost predicate Good(nodes: Nodes, skels: seq<Skel>, lo: nat, hi: nat) {
    && hi <= |nodes| == |skels|
    && (forall i :: lo <= i < hi ==> Hung(nodes, skels, i) && Fits(nodes, skels, i) && !nodes[i].removed)
  }

  // b goes on from a, nothing from lo on changed.
  ghost predicate GoesOn(a: Nodes, sa: seq<Skel>, b: Nodes, sb: seq<Skel>, lo: nat) {
    && |a| == |sa| <= |b| == |sb|
    && (forall i :: lo <= i < |a| ==> b[i] == a[i] && sb[i] == sa[i])
    && (forall i :: 0 <= i < |a| ==> sb[i].level == sa[i].level)
  }

  ghost predicate PartsFrom(skels: seq<Skel>, ss: seq<Skel>, lo: nat) {
    forall j :: 0 <= j < |ss| ==> IsPart(skels, ss[j]) && ss[j].n >= lo
  }

  lemma {:induction false} ShowGoesOn(a: Nodes, sa: seq<Skel>, b: Nodes, sb: seq<Skel>, lo: nat, s: Skel)
    requires Good(a, sa, lo, |a|) && GoesOn(a, sa, b, sb, lo) && IsPart(sa, s) && s.n >= lo
    ensures Show(a, s) == Show(b, s)
    decreases s, 1
  {
    PartsGoOn(a, sa, lo, s);
    if s.groups != [] {
      ShowAllGoesOn(a, sa, b, sb, lo, s.groups);
    }
    if s.operations != [] {
      ShowAllGoesOn(a, sa, b, sb, lo, s.operations);
    }
  }

  lemma PartsGoOn(nodes: Nodes, skels: seq<Skel>, lo: nat, s: Skel)
    requires Good(nodes, skels, lo, |nodes|) && IsPart(skels, s) && s.n >= lo
    ensures PartsFrom(skels, s.groups, lo) && PartsFrom(skels, s.operations, lo)
  {
    assert Hung(nodes, skels, s.n);
    forall j | 0 <= j < |s.groups| ensures HangsFrom(nodes, skels, s, s.groups[j], InGroups(s.n)) {}
    forall j | 0 <= j < |s.operations| ensures HangsFrom(nodes, skels, s, s.operations[j], InOperations(s.n)) {}
  }

  lemma {:induction false} ShowAllGoesOn(a: Nodes, sa: seq<Skel>, b: Nodes, sb: seq<Skel>, lo: nat, ss: seq<Skel>)
    requires Good(a, sa, lo, |a|) && GoesOn(a, sa, b, sb, lo) && PartsFrom(sa, ss, lo)
    ensures ShowAll(a, ss) == ShowAll(b, ss)
    decreases ss, 0
  {
    if ss != [] {
      assert IsPart(sa, ss[0]);
      ShowGoesOn(a, sa, b, sb, lo, ss[0]);
      ShowAllGoesOn(a, sa, b, sb, lo, ss[1..]);
    }
  }

  lemma HungGoesOn(a: Nodes, sa: seq<Skel>, b: Nodes, sb: seq<Skel>, lo: nat, i: nat)
    requires GoesOn(a, sa, b, sb, lo) && lo <= i < |a| && Hung(a, sa, i)
    ensures Hung(b, sb, i)
  {
    var s := sa[i];
    forall j | 0 <= j < |s.groups| ensures HangsFrom(b, sb, s, s.groups[j], InGroups(i)) {
      assert HangsFrom(a, sa, s, s.groups[j], InGroups(i));
    }
    forall j | 0 <= j < |s.operations| ensures HangsFrom(b, sb, s, s.operations[j], InOperations(i)) {
      assert HangsFrom(a, sa, s, s.operations[j], InOperations(i));
    }
  }

  /** A list none of whose nodes is removed shows them when it lists them all. */
  lemma {:induction false} KeptAll(nodes: Nodes, ns: seq<nat>)
    requires forall i :: 0 <= i < |ns| ==> !IsRemoved(nodes, ns[i])
    ensures Kept(nodes, ns) == ns
  {
    if ns != [] {
      KeptAll(nodes, ns[1..]);
    }
  }

  // Reading on takes no node out of a list.
  lemma {:induction false} KeptGoesOn(a: Nodes, b: Nodes, ns: seq<nat>)
    requires forall i :: 0 <= i < |ns| ==> IsRemoved(a, ns[i]) == IsRemoved(b, ns[i])
    ensures Kept(a, ns) == Kept(b, ns)
  {
    if ns != [] {
      KeptGoesOn(a, b, ns[1..]);
    }
  }

  lemma NoneRemoved(nodes: Nodes, ns: seq<nat>)
    requires forall i :: 0 <= i < |nodes| ==> !nodes[i].removed
    ensures Kept(nodes, ns) == ns
  {
    KeptAll(nodes, ns);
  }

  lemma ListGoesOn(a: Nodes, sa: seq<Skel>, b: Nodes, sb: seq<Skel>, lo: nat, list: TreeList, slice: seq<Node>, ss: seq<Skel>)
    requires Good(a, sa, lo, |a|) && GoesOn(a, sa, b, sb, lo) && PartsFrom(sa, ss, lo)
    requires forall i :: 0 <= i < |a| ==> !a[i].removed
    requires forall i :: 0 <= i < |b| ==> !b[i].removed
    requires ListShows(a, list, slice, ss)
    ensures ListShows(b, list, slice, ss)
  {
    hide Good, GoesOn, ShowAll, PartsFrom;
    ShowAllGoesOn(a, sa, b, sb, lo, ss);
    NoneRemoved(a, list.nodes);
    NoneRemoved(b, list.nodes);
    NoneRemoved(a, Numbers(ss));
    NoneRemoved(b, Numbers(ss));
  }

  lemma GoodGoesOn(a: Nodes, sa: seq<Skel>, b: Nodes, sb: seq<Skel>, lo: nat)
    requires Good(a, sa, lo, |a|) && GoesOn(a, sa, b, sb, lo)
    requires forall i :: 0 <= i < |a| ==> !a[i].removed
    requires forall i :: 0 <= i < |b| ==> !b[i].removed
    ensures Good(b, sb, lo, |a|)
  {
    hide ListShows, Hung;
    forall i | lo <= i < |a| ensures Hung(b, sb, i) && Fits(b, sb, i) {
      assert Hung(a, sa, i) && Fits(a, sa, i);
      HungGoesOn(a, sa, b, sb, lo, i);
      IsPartOf(a, sa, i);
      PartsGoOn(a, sa, lo, sa[i]);
      if Reads(sa[i].level) {
        ListGoesOn(a, sa, b, sb, lo, a[i].groups, a[i].value.groups, sa[i].groups);
      }
      ListGoesOn(a, sa, b, sb, lo, a[i].operations, a[i].value.operations, sa[i].operations);
    }
  }

  lemma IsPartOf(nodes: Nodes, skels: seq<Skel>, i: nat)
    requires i < |skels| && Hung(nodes, skels, i)
    ensures IsPart(skels, skels[i])
  {}

  lemma {:induction false} KeyedGoesOn(a: Nodes, b: Nodes, ns: seq<nat>, key: Key)
    requires forall i :: 0 <= i < |ns| ==> ValueAt(a, ns[i]).key == ValueAt(b, ns[i]).key
    ensures KeyedIn(a, ns, key) == KeyedIn(b, ns, key)
  {
    if ns != [] {
      KeyedGoesOn(a, b, ns[1..], key);
    }
  }

  lemma KeyedOne(nodes: Nodes, n: nat, key: Key)
    ensures KeyedIn(nodes, [n], key) == if ValueAt(nodes, n).key == key then [n] else []
  {
    assert [n][1..] == [];
  }

  lemma KeyedMore(nodes: Nodes, byID: map<Key, seq<nat>>, t: TreeNode)
    requires Keyed(nodes, byID)
    ensures Keyed(nodes + [t], byID[t.value.key := IDsAt(byID, t.value.key) + [|nodes|]])
  {
    hide KeyedIn;
    var b, n := nodes + [t], |nodes|;
    var more := byID[t.value.key := IDsAt(byID, t.value.key) + [n]];
    forall key ensures IDsAt(more, key) == KeyedIn(b, Range(0, |b|), key) {
      assert Range(0, |b|) == Range(0, n) + [n];
      KeyedGoesOn(nodes, b, Range(0, n), key);
      KeyedInBoth(b, Range(0, n), [n], key);
      KeyedOne(b, n, key);
      assert IDsAt(byID, key) == KeyedIn(nodes, Range(0, n), key);
    }
  }

  lemma KeyedStays(a: Nodes, b: Nodes, byID: map<Key, seq<nat>>)
    requires Keyed(a, byID) && |a| == |b| && forall i :: 0 <= i < |a| ==> b[i].value.key == a[i].value.key
    ensures Keyed(b, byID)
  {
    forall key ensures IDsAt(byID, key) == KeyedIn(b, Range(0, |b|), key) {
      KeyedGoesOn(a, b, Range(0, |a|), key);
      assert IDsAt(byID, key) == KeyedIn(a, Range(0, |a|), key);
    }
  }

  lemma {:induction false} ShowAllBoth(nodes: Nodes, a: seq<Skel>, b: seq<Skel>)
    ensures ShowAll(nodes, a + b) == ShowAll(nodes, a) + ShowAll(nodes, b)
  {
    if a == [] {
      assert a + b == b;
    } else {
      assert (a + b)[1..] == a[1..] + b;
      ShowAllBoth(nodes, a[1..], b);
    }
  }

  lemma {:induction false} FlattenAllBoth(a: seq<Skel>, b: seq<Skel>)
    ensures FlattenAll(a + b) == FlattenAll(a) + FlattenAll(b)
  {
    if a == [] {
      assert a + b == b;
    } else {
      assert (a + b)[1..] == a[1..] + b;
      FlattenAllBoth(a[1..], b);
    }
  }

  /** ss is the list read off vs, from node lo up to hi. */
  ghost predicate ReadAs(nodes: Nodes, skels: seq<Skel>, ss: seq<Skel>, vs: seq<Node>, place: Place, level: nat, lo: nat,
      hi: nat) {
    && lo <= hi <= |nodes| && PartsFrom(skels, ss, lo)
    && (forall j :: 0 <= j < |ss| ==> ss[j].n < hi && ss[j].level == level && nodes[ss[j].n].place == place)
    && ShowAll(nodes, ss) == vs && FlattenAll(ss) == Range(lo, hi)
  }

  ghost predicate Unremoved(nodes: Nodes) {
    forall i :: 0 <= i < |nodes| ==> !nodes[i].removed
  }

  lemma ReadAsGoesOn(a: Nodes, sa: seq<Skel>, b: Nodes, sb: seq<Skel>, ss: seq<Skel>, vs: seq<Node>, place: Place, level: nat,
      lo: nat, hi: nat)
    requires Good(a, sa, lo, |a|) && GoesOn(a, sa, b, sb, lo) && ReadAs(a, sa, ss, vs, place, level, lo, hi)
    ensures ReadAs(b, sb, ss, vs, place, level, lo, hi)
  {
    hide ShowAll, FlattenAll, Hung, Fits;
    ShowAllGoesOn(a, sa, b, sb, lo, ss);
    forall j | 0 <= j < |ss| ensures IsPart(sb, ss[j]) && SameAt(a, b, ss[j].n) {
      assert IsPart(sa, ss[j]) && ss[j].n >= lo;
    }
  }

  predicate SameAt(a: Nodes, b: Nodes, n: nat) {
    n < |a| <= |b| && a[n] == b[n]
  }

  lemma ReadOneMore(a: Nodes, sa: seq<Skel>, b: Nodes, sb: seq<Skel>, ss: seq<Skel>, vs: seq<Node>, place: Place, level: nat,
      lo: nat, v: Node)
    requires Good(a, sa, lo, |a|) && ReadAs(a, sa, ss, vs, place, level, lo, |a|)
    requires |a| == |sa| < |b| == |sb| && b[..|a|] == a && sb[..|a|] == sa && Unremoved(a) && Unremoved(b)
    requires Good(b, sb, |a|, |b|) && sb[|a|].n == |a| && sb[|a|].level == level && b[|a|].place == place
    requires Show(b, sb[|a|]) == v && Flatten(sb[|a|]) == Range(|a|, |b|)
    ensures Good(b, sb, lo, |b|) && ReadAs(b, sb, ss + [sb[|a|]], vs + [v], place, level, lo, |b|)
  {
    hide Show, ShowAll, Flatten, FlattenAll, Hung, Fits;
    assert GoesOn(a, sa, b, sb, lo);
    GoodGoesOn(a, sa, b, sb, lo);
    ReadAsGoesOn(a, sa, b, sb, ss, vs, place, level, lo, |a|);
    var s := sb[|a|];
    ShowAllBoth(b, ss, [s]);
    FlattenAllBoth(ss, [s]);
    ShowOne(b, s);
    assert Range(lo, |b|) == Range(lo, |a|) + Range(|a|, |b|);
    assert IsPart(sb, s);
  }

  lemma ShowOne(nodes: Nodes, s: Skel)
    requires !IsRemoved(nodes, s.n)
    ensures ShowAll(nodes, [s]) == [Show(nodes, s)] && FlattenAll([s]) == Flatten(s)
  {
    assert [s][1..] == [];
  }

  function Noted(t: TreeNode, groups: TreeList, operations: TreeList, removed: bool): TreeNode {
    t.(groups := groups, operations := operations, removed := removed)
  }

  // A node whose lists are read.
  function Listed(t: TreeNode, groups: seq<nat>, operations: seq<nat>): TreeNode {
    t.(groups := TreeList(groups, false), operations := TreeList(operations, false))
  }

  /** A node and both lists of it, read one after the other, are read as v. */
  lemma NodeRead(a: Nodes, sa: seq<Skel>, n: nat, v: Node, place: Place, level: nat, oss: seq<Skel>, gss: seq<Skel>, mid: nat)
    requires n < mid <= |a| == |sa| && Good(a, sa, n + 1, |a|) && Unremoved(a)
    requires a[n].place == place && a[n].value == v && sa[n].level == level && ParentFirst(a)
    requires place.InGroups? ==> place.parent < |sa| && Reads(sa[place.parent].level)
    requires ReadAs(a, sa, oss, v.operations, InOperations(n), level + 1, n + 1, mid)
    requires if Reads(level) then ReadAs(a, sa, gss, v.groups, InGroups(n), level + 1, mid, |a|) else gss == [] && mid == |a|
    ensures var s, b := Skel(n, level, gss, oss), a[n := Listed(a[n], Numbers(gss), Numbers(oss))];
      Good(b, sa[n := s], n, |b|) && Show(b, s) == v && Flatten(s) == Range(n, |b|)
  {
    hide ShowAll, FlattenAll, Fits, Good;
    var s, b := Skel(n, level, gss, oss), a[n := Listed(a[n], Numbers(gss), Numbers(oss))];
    var sb := sa[n := s];
    assert GoesOn(a, sa, b, sb, n + 1);
    GoodGoesOn(a, sa, b, sb, n + 1);
    ReadAsGoesOn(a, sa, b, sb, oss, v.operations, InOperations(n), level + 1, n + 1, mid);
    if Reads(level) {
      assert ReadAs(a, sa, gss, v.groups, InGroups(n), level + 1, mid, |a|);
      GroupsGoOn(a, sa, b, sb, gss, v.groups, n, level + 1, mid);
    }
    NodeFits(b, sb, n, v, level, oss, gss);
    NodeHangs(b, sb, n, level, oss, gss, mid);
    GoodFrom(b, sb, n);
    NodeFlattens(s, |b|, mid);
  }

  lemma GroupsGoOn(a: Nodes, sa: seq<Skel>, b: Nodes, sb: seq<Skel>, gss: seq<Skel>, vs: seq<Node>, n: nat, level: nat, mid: nat)
    requires n < mid && Good(a, sa, n + 1, |a|) && GoesOn(a, sa, b, sb, n + 1)
    requires ReadAs(a, sa, gss, vs, InGroups(n), level, mid, |a|)
    ensures ReadAs(b, sb, gss, vs, InGroups(n), level, mid, |a|)
  {
    assert Good(a, sa, mid, |a|) && GoesOn(a, sa, b, sb, mid);
    ReadAsGoesOn(a, sa, b, sb, gss, vs, InGroups(n), level, mid, |a|);
  }

  lemma NodeFits(b: Nodes, sb: seq<Skel>, n: nat, v: Node, level: nat, oss: seq<Skel>, gss: seq<Skel>)
    requires n < |b| == |sb| && Unremoved(b) && sb[n] == Skel(n, level, gss, oss) && b[n].value == v
    requires b[n].groups == TreeList(Numbers(gss), false) && b[n].operations == TreeList(Numbers(oss), false)
    requires ShowAll(b, oss) == v.operations && if Reads(level) then ShowAll(b, gss) == v.groups else gss == []
    ensures Fits(b, sb, n) && Show(b, sb[n]) == v
  {
    NoneRemoved(b, Numbers(gss));
    NoneRemoved(b, Numbers(oss));
  }

  lemma NodeHangs(b: Nodes, sb: seq<Skel>, n: nat, level: nat, oss: seq<Skel>, gss: seq<Skel>, mid: nat)
    requires n < mid <= |b| == |sb| && ParentFirst(b) && sb[n] == Skel(n, level, gss, oss)
    requires b[n].place.InGroups? ==> Reads(sb[b[n].place.parent].level)
    requires PartsFrom(sb, oss, n + 1) && forall j :: 0 <= j < |oss| ==>
      oss[j].n < |b| && oss[j].level == level + 1 && b[oss[j].n].place == InOperations(n)
    requires if !Reads(level) then gss == [] else PartsFrom(sb, gss, mid) && forall j :: 0 <= j < |gss| ==>
      gss[j].n < |b| && gss[j].level == level + 1 && b[gss[j].n].place == InGroups(n)
    ensures Hung(b, sb, n)
  {
    var s := sb[n];
    forall j | 0 <= j < |s.groups| ensures HangsFrom(b, sb, s, s.groups[j], InGroups(n)) {
      assert IsPart(sb, gss[j]) && gss[j].n >= mid;
    }
    forall j | 0 <= j < |s.operations| ensures HangsFrom(b, sb, s, s.operations[j], InOperations(n)) {
      assert IsPart(sb, oss[j]) && oss[j].n >= n + 1;
    }
  }

  lemma GoodFrom(b: Nodes, sb: seq<Skel>, n: nat)
    requires n < |b| == |sb| && Good(b, sb, n + 1, |b|) && Hung(b, sb, n) && Fits(b, sb, n) && !b[n].removed
    ensures Good(b, sb, n, |b|)
  {
    hide Hung, Fits;
  }

  lemma NodeFlattens(s: Skel, hi: nat, mid: nat)
    requires s.n < mid <= hi && FlattenAll(s.operations) == Range(s.n + 1, mid)
    requires if Reads(s.level) then FlattenAll(s.groups) == Range(mid, hi) else s.groups == [] && mid == hi
    ensures Flatten(s) == Range(s.n, hi)
  {
    assert Range(s.n, hi) == [s.n] + Range(s.n + 1, mid) + Range(mid, hi);
  }

  lemma NoneRead(nodes: Nodes, skels: seq<Skel>, place: Place, level: nat, lo: nat)
    requires lo == |nodes| == |skels|
    ensures Good(nodes, skels, lo, |nodes|) && ReadAs(nodes, skels, [], [], place, level, lo, |nodes|)
  {}

  // Where c starts with b, and b with a of length n, c starts with a and agrees with b after it.
  lemma FirstOf<T>(a: seq<T>, b: seq<T>, c: seq<T>, n: nat)
    requires n == |a| <= |b| <= |c| && b[..n] == a && c[..|b|] == b
    ensures c[..n] == a && (n < |b| ==> c[n] == b[n])
  {
    assert c[..n] == c[..|b|][..n];
  }

  // Both lists of node n are read, the operations first.
  lemma BothRead(a: Nodes, sa: seq<Skel>, b: Nodes, sb: seq<Skel>, oss: seq<Skel>, vs: seq<Node>, n: nat, level: nat)
    requires n < |a| && Good(a, sa, n + 1, |a|) && |a| == |sa| <= |b| == |sb| && b[..|a|] == a && sb[..|a|] == sa
    requires ReadAs(a, sa, oss, vs, InOperations(n), level + 1, n + 1, |a|) && Good(b, sb, |a|, |b|)
    requires Unremoved(a) && Unremoved(b)
    ensures Good(b, sb, n + 1, |b|) && ReadAs(b, sb, oss, vs, InOperations(n), level + 1, n + 1, |a|)
  {
    hide Hung, Fits, ReadAs;
    assert GoesOn(a, sa, b, sb, n + 1);
    GoodGoesOn(a, sa, b, sb, n + 1);
    ReadAsGoesOn(a, sa, b, sb, oss, vs, InOperations(n), level + 1, n + 1, |a|);
  }

  lemma NothingKeyed()
    ensures Keyed([], map[])
  {}

  lemma AllRead(nodes: Nodes, skels: seq<Skel>, roots: seq<Skel>, services: seq<Node>, byID: map<Key, seq<nat>>)
    requires ParentFirst(nodes) && |skels| == |nodes| && Good(nodes, skels, 0, |nodes|) && Unremoved(nodes)
    requires ReadAs(nodes, skels, roots, services, InServices, 0, 0, |nodes|) && Keyed(nodes, byID)
    ensures Sound(nodes, skels, roots, TreeList(Numbers(roots), false), services) && Indexed(nodes, byID, roots)
    ensures ShowAll(nodes, roots) == services
  {
    hide Keyed, ShowAll, FlattenAll, Hung, Fits;
    NoneRemoved(nodes, Numbers(roots));
  }

  lemma {:induction false} KeyedHas(nodes: Nodes, ns: seq<nat>, key: Key)
    ensures forall k :: k in KeyedIn(nodes, ns, key) <==> k in ns && ValueAt(nodes, k).key == key
  {
    if ns != [] {
      KeyedHas(nodes, ns[1..], key);
      assert forall k :: k in ns <==> k == ns[0] || k in ns[1..];
    }
  }

  lemma {:induction false} HeldHas(nodes: Nodes, ns: seq<nat>)
    requires ParentFirst(nodes)
    ensures forall k :: k in HeldIn(nodes, ns) <==> k in ns && Held(nodes, k)
  {
    if ns != [] {
      HeldHas(nodes, ns[1..]);
      assert forall k :: k in ns <==> k == ns[0] || k in ns[1..];
    }
  }

  lemma IDsAreKeyed(nodes: Nodes, byID: map<Key, seq<nat>>, roots: seq<Skel>, key: Key)
    requires Indexed(nodes, byID, roots)
    ensures IDsAt(byID, key) == KeyedIn(nodes, FlattenAll(roots), key)
    ensures forall i :: 0 <= i < |IDsAt(byID, key)| ==> IDsAt(byID, key)[i] < |nodes|
  {
    hide FlattenAll, KeyedIn;
    KeyedHas(nodes, FlattenAll(roots), key);
    forall i | 0 <= i < |IDsAt(byID, key)| ensures IDsAt(byID, key)[i] < |nodes| {
      assert IDsAt(byID, key)[i] in KeyedIn(nodes, FlattenAll(roots), key);
    }
  }

  lemma FoundIsOnly(nodes: Nodes, byID: map<Key, seq<nat>>, roots: seq<Skel>, key: Key, n: nat)
    requires ParentFirst(nodes) && Indexed(nodes, byID, roots)
    requires HeldIn(nodes, KeyedIn(nodes, FlattenAll(roots), key)) == [n]
    ensures OnlyAt(nodes, key, n)
  {
    hide FlattenAll, KeyedIn, HeldIn, Keyed, Held;
    var ids := KeyedIn(nodes, FlattenAll(roots), key);
    KeyedHas(nodes, FlattenAll(roots), key);
    HeldHas(nodes, ids);
    assert n in HeldIn(nodes, ids);
    forall i | 0 <= i < |nodes| && Held(nodes, i) && nodes[i].value.key == key ensures i == n {
      assert Range(0, |nodes|)[i] == i;
      assert i in HeldIn(nodes, ids);
    }
  }

  // ----- what each call keeps -----

  lemma ShownAsOut(nodes: Nodes, skels: seq<Skel>, roots: seq<Skel>, list: TreeList, services: seq<Node>)
    requires Sound(nodes, skels, roots, list, services) && !list.stale
    ensures services == ShowAll(nodes, roots)
  {}

  lemma OnlyIsAt(nodes: Nodes, key: Key, n: nat)
    requires ParentFirst(nodes) && OnlyAt(nodes, key, n)
    ensures n < |nodes| && nodes[n].value.key == key
  {}

  lemma SoundTree(nodes: Nodes, skels: seq<Skel>, roots: seq<Skel>, list: TreeList, services: seq<Node>)
    requires Sound(nodes, skels, roots, list, services)
    ensures |nodes| == |skels| && Shaped(nodes, skels) && Rooted(nodes, skels, roots) && AllFit(nodes, skels)
    ensures ListShows(nodes, list, services, roots)
  {}

  lemma RootedStays(a: Nodes, b: Nodes, skels: seq<Skel>, roots: seq<Skel>)
    requires Rooted(a, skels, roots) && |a| == |b| && forall i :: 0 <= i < |a| ==> b[i].place == a[i].place
    ensures Rooted(b, skels, roots)
    ensures forall j :: 0 <= j < |roots| ==> IsPart(skels, roots[j])
  {}

  lemma IndexedStays(a: Nodes, b: Nodes, byID: map<Key, seq<nat>>, roots: seq<Skel>)
    requires Indexed(a, byID, roots) && |a| == |b| && forall i :: 0 <= i < |a| ==> b[i].value.key == a[i].value.key
    ensures Indexed(b, byID, roots)
  {
    hide FlattenAll, Keyed;
    KeyedStays(a, b, byID);
  }

  lemma RebuiltHas(a: Nodes, b: Nodes, skels: seq<Skel>)
    requires Rebuilt(a, b, skels)
    ensures |a| == |b| == |skels|
    ensures forall i :: 0 <= i < |a| ==> b[i].place == a[i].place && b[i].value.key == a[i].value.key
  {
    assert forall i :: 0 <= i < |a| ==> Same(a[i], b[i], skels[i].level);
  }

  /** Building what was stale keeps the tree sound and showing the same. */
  lemma SoundRebuilt(a: Nodes, b: Nodes, skels: seq<Skel>, roots: seq<Skel>, list: TreeList, services: seq<Node>,
      byID: map<Key, seq<nat>>)
    requires Sound(a, skels, roots, list, services) && Rebuilt(a, b, skels) && |b| == |skels| && AllFit(b, skels)
    requires Indexed(a, byID, roots)
    ensures Sound(b, skels, roots, list, services) && Indexed(b, byID, roots)
    ensures ShowAll(b, roots) == ShowAll(a, roots)
  {
    hide Show, ShowAll, Rebuilt, Shaped, AllFit, Rooted, ListShows, Indexed;
    RebuiltHas(a, b, skels);
    RebuiltShape(a, b, skels);
    RootedStays(a, b, skels, roots);
    IndexedStays(a, b, byID, roots);
    ShowAllStays(a, b, skels, roots);
    ListStays(a, b, skels, list, services, roots);
  }

  lemma RootParts(nodes: Nodes, skels: seq<Skel>, roots: seq<Skel>)
    requires Rooted(nodes, skels, roots)
    ensures forall j :: 0 <= j < |roots| ==> IsPart(skels, roots[j])
  {}

  lemma SettledIsSound(a: Nodes, b: Nodes, skels: seq<Skel>, roots: seq<Skel>, was: TreeList, kept: seq<nat>, slice: seq<Node>,
      services: seq<Node>, byID: map<Key, seq<nat>>)
    requires Sound(a, skels, roots, was, services) && Rebuilt(a, b, skels) && |b| == |skels| && AllFit(b, skels)
    requires Indexed(a, byID, roots) && kept == Kept(a, was.nodes) && slice == ShowAll(a, roots)
    ensures Sound(b, skels, roots, TreeList(kept, false), slice) && Indexed(b, byID, roots)
    ensures ShowAll(b, roots) == slice
  {
    hide Show, ShowAll, Rebuilt, Shaped, AllFit, Rooted, Indexed, Kept;
    SoundRebuilt(a, b, skels, roots, was, services, byID);
    RootParts(a, skels, roots);
    ListBuilt(a, b, skels, was.nodes, roots);
  }

  /** A write, its path touched, keeps the tree sound. */
  lemma SoundWritten(a: Nodes, was: TreeList, b: Nodes, list: TreeList, skels: seq<Skel>, roots: seq<Skel>, n: nat,
      services: seq<Node>, byID: map<Key, seq<nat>>)
    requires Sound(a, skels, roots, was, services) && Written(a, was, b, list, n) && Indexed(a, byID, roots)
    requires b[n].value.key == a[n].value.key
    ensures Sound(b, skels, roots, list, services) && Indexed(b, byID, roots)
  {
    hide Show, ShowAll, OnPath, Indexed, ListShows, PathIn, StaleAt, Fits;
    ShapeStays(a, b, skels);
    RootedStays(a, b, skels, roots);
    IndexedStays(a, b, byID, roots);
    forall i | 0 <= i < |b| ensures Fits(b, skels, i) {
      FitsWritten(a, was, b, list, skels, n, i);
    }
    forall j | 0 <= j < |roots| && !list.stale ensures !OnPath(a, n, roots[j].n) {
      RootOffPath(a, was, b, list, n, roots[j].n);
    }
    ListWritten(a, b, skels, n, was, list, services, roots);
  }

  lemma RootOffPath(a: Nodes, was: TreeList, b: Nodes, list: TreeList, n: nat, k: nat)
    requires Written(a, was, b, list, n) && k < |a| && a[k].place == InServices && !list.stale
    ensures !OnPath(a, n, k)
  {
    hide OnPath, PathIn;
    assert OnPath(a, n, k) ==> StaleAt(b, list, k);
  }

  lemma {:induction false} PathSame(a: Nodes, b: Nodes, n: nat, k: nat)
    requires ParentFirst(a) && |a| == |b| && forall i :: 0 <= i < |a| ==> b[i].place == a[i].place
    ensures ParentFirst(b) && OnPath(a, n, k) == OnPath(b, n, k)
    decreases n
  {
    if n < |a| && !a[n].place.InServices? {
      PathSame(a, b, a[n].place.parent, k);
    }
  }

  lemma PathInSame(a: Nodes, b: Nodes, n: nat, place: Place)
    requires ParentFirst(a) && |a| == |b| && forall i :: 0 <= i < |a| ==> b[i].place == a[i].place
    ensures ParentFirst(b) && (PathIn(b, n, place) ==> PathIn(a, n, place))
  {
    PathSame(a, b, n, n);
    if PathIn(b, n, place) {
      var k: nat :| OnPath(b, n, k) && b[k].place == place;
      PathSame(a, b, n, k);
      assert OnPath(a, n, k) && a[k].place == place;
    }
  }

  // What a touch marks, of a node already written.
  ghost predicate Marked(put: Nodes, was: TreeList, b: Nodes, list: TreeList, n: nat)
    requires ParentFirst(put)
  {
    && StalerAll(put, b) && |b| == |put| && Staler(was, list)
    && (forall k :: OnPath(put, n, k) ==> StaleAt(b, list, k))
    && (forall i :: 0 <= i < |b| && b[i].groups.stale && !put[i].groups.stale ==> PathIn(put, n, InGroups(i)))
    && (forall i :: 0 <= i < |b| && b[i].operations.stale && !put[i].operations.stale ==> PathIn(put, n, InOperations(i)))
  }

  lemma WrittenByTouch(a: Nodes, put: Nodes, b: Nodes, was: TreeList, list: TreeList, n: nat)
    requires n < |a| == |put| && ParentFirst(a) && ParentFirst(put) && Marked(put, was, b, list, n)
    requires forall i :: 0 <= i < |a| && i != n ==> put[i] == a[i]
    requires put[n].(value := a[n].value, removed := a[n].removed) == a[n] && (a[n].removed ==> put[n].removed)
    requires put[n].value.groups == a[n].value.groups && put[n].value.operations == a[n].value.operations
    ensures Written(a, was, b, list, n)
    ensures forall i :: 0 <= i < |a| ==> b[i].value == put[i].value && b[i].removed == put[i].removed
  {
    hide OnPath, PathIn, StaleAt;
    forall i | 0 <= i < |a| ensures put[i].place == a[i].place && put[i].groups == a[i].groups && put[i].operations == a[i].operations {}
    forall k: nat | OnPath(a, n, k) ensures StaleAt(b, list, k) {
      PathSame(a, put, n, k);
    }
    forall i: nat | i < |a| && b[i].groups.stale && !a[i].groups.stale ensures PathIn(a, n, InGroups(i)) {
      PathInSame(a, put, n, InGroups(i));
    }
    forall i: nat | i < |a| && b[i].operations.stale && !a[i].operations.stale ensures PathIn(a, n, InOperations(i)) {
      PathInSame(a, put, n, InOperations(i));
    }
  }

  lemma ShowAllRewrittenRoots(a: Nodes, b: Nodes, skels: seq<Skel>, roots: seq<Skel>, key: Key, n: nat, data: string)
    requires Shaped(a, skels) && Rooted(a, skels, roots) && OnlyAt(a, key, n) && Rewritten(a, b, n, data)
    ensures ShowAll(b, roots) == AllChanged(ShowAll(a, roots), key, data, 0)
  {
    hide Show, ShowAll, OnlyAt, Hung, Held;
    ShowAllRewritten(a, b, skels, key, n, data, roots, 0);
  }

  lemma ShowAllDroppedRoots(a: Nodes, b: Nodes, skels: seq<Skel>, roots: seq<Skel>, key: Key, n: nat)
    requires Shaped(a, skels) && Rooted(a, skels, roots) && OnlyAt(a, key, n) && Dropped(a, b, n)
    ensures ShowAll(b, roots) == AllWithout(ShowAll(a, roots), key, 0)
  {
    hide Show, ShowAll, OnlyAt, Hung, Held;
    ShowAllDropped(a, b, skels, key, n, roots, 0);
  }

  // ----- what is read -----

  function Range(lo: nat, hi: nat): seq<nat>
    requires lo <= hi
  {
    seq(hi - lo, i requires 0 <= i < hi - lo => lo + i)
  }

  /** Each node is listed at its ID, in the order read. */
  ghost predicate Keyed(nodes: Nodes, byID: map<Key, seq<nat>>) {
    forall key :: IDsAt(byID, key) == KeyedIn(nodes, Range(0, |nodes|), key)
  }

  ghost predicate Indexed(nodes: Nodes, byID: map<Key, seq<nat>>, roots: seq<Skel>) {
    FlattenAll(roots) == Range(0, |nodes|) && Keyed(nodes, byID)
  }

  function IDsAt(byID: map<Key, seq<nat>>, key: Key): seq<nat> {
    if key in byID then byID[key] else []
  }

  /** The tree is read off services, and each slice shows its nodes unless it is stale. */
  ghost predicate Sound(nodes: Nodes, skels: seq<Skel>, roots: seq<Skel>, list: TreeList, services: seq<Node>) {
    && Shaped(nodes, skels) && Rooted(nodes, skels, roots) && AllFit(nodes, skels)
    && ListShows(nodes, list, services, roots)
  }

  // ----- the nodes in memory -----

  /** A node as the edit keeps it: what it holds is an element in memory, the edited
      document's own until the edit writes the node or builds a slice in it. */
  datatype NodeCell = NodeCell(place: Place, at: Ref, groups: TreeList, operations: TreeList, removed: bool)

  ghost predicate Mirrors(mem: Memory, c: NodeCell, t: TreeNode) {
    && c.place == t.place && c.groups == t.groups && c.operations == t.operations && c.removed == t.removed
    && Points(mem, c.at) && Spells(mem, Deref(mem, c.at), t.value)
  }

  ghost predicate AllMirror(mem: Memory, cells: seq<NodeCell>, nodes: Nodes) {
    |cells| == |nodes| && forall i :: 0 <= i < |nodes| ==> Mirrors(mem, cells[i], nodes[i])
  }

  lemma MirrorsAt(mem: Memory, cells: seq<NodeCell>, nodes: Nodes, n: nat)
    requires AllMirror(mem, cells, nodes) && n < |nodes|
    ensures |cells| == |nodes| && Mirrors(mem, cells[n], nodes[n])
  {}

  lemma MirrorsStill(a: Memory, b: Memory, cells: seq<NodeCell>, nodes: Nodes)
    requires AllMirror(a, cells, nodes) && Grew(a, b)
    ensures AllMirror(b, cells, nodes)
  {
    hide Spells;
    forall i | 0 <= i < |nodes| ensures Mirrors(b, cells[i], nodes[i]) {
      PointsStill(a, b, cells[i].at);
      SpellsStill(a, b, Deref(a, cells[i].at), nodes[i].value);
    }
  }

  lemma MirrorsPut(mem: Memory, cells: seq<NodeCell>, nodes: Nodes, n: nat, c: NodeCell, t: TreeNode)
    requires AllMirror(mem, cells, nodes) && n < |nodes| && Mirrors(mem, c, t)
    ensures AllMirror(mem, cells[n := c], nodes[n := t])
  {
    hide Mirrors;
  }

  // No list is stale.
  ghost predicate AllBuilt(nodes: Nodes) {
    forall i :: 0 <= i < |nodes| ==> !nodes[i].groups.stale && !nodes[i].operations.stale
  }

  lemma NoneStaleAt(nodes: Nodes, n: nat)
    requires AllBuilt(nodes) && n < |nodes|
    ensures !nodes[n].groups.stale && !nodes[n].operations.stale
  {}

  lemma BuiltMore(nodes: Nodes, t: TreeNode)
    requires AllBuilt(nodes) && !t.groups.stale && !t.operations.stale
    ensures AllBuilt(nodes + [t])
  {}

  lemma BuiltPut(nodes: Nodes, n: nat, t: TreeNode)
    requires AllBuilt(nodes) && n < |nodes| && !t.groups.stale && !t.operations.stale
    ensures AllBuilt(nodes[n := t])
  {}

  lemma NothingMirrored(mem: Memory)
    ensures AllMirror(mem, [], []) && AllBuilt([])
  {}

  lemma SameCount(mem: Memory, cells: seq<NodeCell>, nodes: Nodes)
    requires AllMirror(mem, cells, nodes)
    ensures |cells| == |nodes|
  {}

  lemma MirrorsMore(mem: Memory, cells: seq<NodeCell>, nodes: Nodes, c: NodeCell, t: TreeNode)
    requires AllMirror(mem, cells, nodes) && Mirrors(mem, c, t)
    ensures AllMirror(mem, cells + [c], nodes + [t])
  {
    hide Mirrors;
  }

  // ----- the tree -----

  // ----- where each slice came from -----

  // Node n was read off the element x, which spelled v.
  ghost predicate StandsFor(docs: seq<Elem>, vals: seq<Node>, n: nat, x: Elem, v: Node) {
    n < |docs| && n < |vals| && docs[n] == x && vals[n] == v
  }

  ghost predicate Lists(docs: seq<Elem>, vals: seq<Node>, ss: seq<Skel>, xs: seq<Elem>, vs: seq<Node>) {
    |ss| == |xs| == |vs| && forall j :: 0 <= j < |ss| ==> StandsFor(docs, vals, ss[j].n, xs[j], vs[j])
  }

  ghost predicate OriginAt(mem: Memory, docs: seq<Elem>, vals: seq<Node>, skels: seq<Skel>, i: nat)
    requires i < |docs| == |vals| == |skels|
  {
    var d, v, s := docs[i], vals[i], skels[i];
    && Spells(mem, d, v)
    && (if Reads(s.level) then Lists(docs, vals, s.groups, ElementsOf(mem, d.groups), v.groups) else s.groups == [])
    && Lists(docs, vals, s.operations, ElementsOf(mem, d.operations), v.operations)
  }

  /** Every node was read off its element of docs, which spelled vals, and its lists off
      the slices of that element. */
  ghost predicate Origin(mem: Memory, docs: seq<Elem>, vals: seq<Node>, skels: seq<Skel>) {
    |docs| == |vals| == |skels| && forall i :: 0 <= i < |docs| ==> OriginAt(mem, docs, vals, skels, i)
  }

  lemma OriginStill(a: Memory, b: Memory, docs: seq<Elem>, vals: seq<Node>, skels: seq<Skel>)
    requires Origin(a, docs, vals, skels) && Grew(a, b)
    ensures Origin(b, docs, vals, skels)
  {
    hide Lists, Spells, SpellsEach;
    forall i | 0 <= i < |docs| ensures OriginAt(b, docs, vals, skels, i) {
      assert OriginAt(a, docs, vals, skels, i);
      SpelledParts(a, docs[i], vals[i]);
      SpellsStill(a, b, docs[i], vals[i]);
      SameElements(a, b, docs[i].groups, vals[i].groups);
      SameElements(a, b, docs[i].operations, vals[i].operations);
    }
  }

  // ----- what a write reaches -----

  lemma {:induction false} FlattenHas(ss: seq<Skel>, m: nat) returns (j: nat)
    requires m in FlattenAll(ss)
    ensures j < |ss| && m in Flatten(ss[j])
  {
    if m in Flatten(ss[0]) {
      j := 0;
    } else {
      j := FlattenHas(ss[1..], m);
      j := j + 1;
    }
  }

  lemma {:induction false} FlattenAllHas(ss: seq<Skel>, j: nat, m: nat)
    requires j < |ss| && m in Flatten(ss[j])
    ensures m in FlattenAll(ss)
  {
    if j > 0 {
      FlattenAllHas(ss[1..], j - 1, m);
    }
  }

  /** The node a list's place names has it among its own. */
  ghost predicate IsListed(nodes: Nodes, skels: seq<Skel>, m: nat) {
    m < |nodes| && m < |skels| &&
    match nodes[m].place
    case InServices => true
    case InGroups(p) => p < |skels| && skels[m] in skels[p].groups
    case InOperations(p) => p < |skels| && skels[m] in skels[p].operations
  }

  lemma {:induction false} ListedUnder(nodes: Nodes, skels: seq<Skel>, s: Skel, m: nat)
    requires Shaped(nodes, skels) && IsPart(skels, s) && m in Flatten(s) && m != s.n
    ensures IsListed(nodes, skels, m)
    decreases s
  {
    assert Hung(nodes, skels, s.n);
    if m in FlattenAll(s.groups) {
      var j := FlattenHas(s.groups, m);
      assert HangsFrom(nodes, skels, s, s.groups[j], InGroups(s.n));
      if m != s.groups[j].n {
        ListedUnder(nodes, skels, s.groups[j], m);
      }
    } else {
      var j := FlattenHas(s.operations, m);
      assert HangsFrom(nodes, skels, s, s.operations[j], InOperations(s.n));
      if m != s.operations[j].n {
        ListedUnder(nodes, skels, s.operations[j], m);
      }
    }
  }

  lemma AllListed(nodes: Nodes, skels: seq<Skel>, roots: seq<Skel>, m: nat)
    requires Shaped(nodes, skels) && Rooted(nodes, skels, roots) && FlattenAll(roots) == Range(0, |nodes|) && m < |nodes|
    ensures IsListed(nodes, skels, m)
  {
    hide Shaped, Flatten;
    assert Range(0, |nodes|)[m] == m;
    SameLength(nodes, skels);
    var j := FlattenHas(roots, m);
    assert IsPart(skels, roots[j]);
    if m != roots[j].n {
      ListedUnder(nodes, skels, roots[j], m);
    }
  }

  // What is in a node in s is in s.
  lemma {:induction false} FlattenIn(nodes: Nodes, skels: seq<Skel>, s: Skel, p: nat, m: nat)
    requires Shaped(nodes, skels) && IsPart(skels, s) && p in Flatten(s) && p < |skels| && m in Flatten(skels[p])
    ensures m in Flatten(s)
    decreases s
  {
    assert Hung(nodes, skels, s.n);
    if p != s.n {
      if p in FlattenAll(s.groups) {
        var j := FlattenHas(s.groups, p);
        assert HangsFrom(nodes, skels, s, s.groups[j], InGroups(s.n));
        FlattenIn(nodes, skels, s.groups[j], p, m);
        FlattenAllHas(s.groups, j, m);
      } else {
        var j := FlattenHas(s.operations, p);
        assert HangsFrom(nodes, skels, s, s.operations[j], InOperations(s.n));
        FlattenIn(nodes, skels, s.operations[j], p, m);
        FlattenAllHas(s.operations, j, m);
      }
    }
  }

  lemma FlattenSelf(s: Skel)
    ensures s.n in Flatten(s)
  {}

  lemma InPart(s: Skel, k: Skel)
    requires k in s.groups || k in s.operations
    ensures k.n in Flatten(s)
  {
    FlattenSelf(k);
    if k in s.groups {
      var j :| 0 <= j < |s.groups| && s.groups[j] == k;
      FlattenAllHas(s.groups, j, k.n);
    } else {
      var j :| 0 <= j < |s.operations| && s.operations[j] == k;
      FlattenAllHas(s.operations, j, k.n);
    }
  }

  /** What holds n on its path has n in it. */
  lemma {:induction false} PathIsUnder(nodes: Nodes, skels: seq<Skel>, roots: seq<Skel>, n: nat, k: nat)
    requires Shaped(nodes, skels) && Rooted(nodes, skels, roots) && FlattenAll(roots) == Range(0, |nodes|)
    requires OnPath(nodes, n, k)
    ensures k < |skels| && n in Flatten(skels[k])
    decreases n
  {
    hide Shaped, Flatten, FlattenAll, Rooted;
    SameLength(nodes, skels);
    IsItsPart(nodes, skels, n);
    FlattenSelf(skels[n]);
    if k != n {
      var p := nodes[n].place.parent;
      PathIsUnder(nodes, skels, roots, p, k);
      AllListed(nodes, skels, roots, n);
      InPart(skels[p], skels[n]);
      IsItsPart(nodes, skels, k);
      FlattenIn(nodes, skels, skels[k], p, n);
    }
  }

  lemma {:induction false} VisibleHas(mem: Memory, docs: seq<Elem>, vals: seq<Node>, nodes: Nodes, skels: seq<Skel>, s: Skel,
      m: nat)
    requires Origin(mem, docs, vals, skels) && Shaped(nodes, skels) && IsPart(skels, s) && m in Flatten(s)
    ensures m < |vals| && vals[m] in Visible(vals[s.n], s.level)
    decreases s, 1
  {
    hide Shaped, Origin, Spells;
    OriginHas(mem, docs, vals, skels, s.n);
    HangsIn(nodes, skels, s);
    var v := vals[s.n];
    if m != s.n {
      if m in FlattenAll(s.groups) {
        AllVisibleHas(mem, docs, vals, nodes, skels, s.groups, ElementsOf(mem, docs[s.n].groups), v.groups, s.level + 1, m);
      } else {
        AllVisibleHas(mem, docs, vals, nodes, skels, s.operations, ElementsOf(mem, docs[s.n].operations), v.operations, s.level + 1, m);
      }
    }
  }

  lemma OriginHas(mem: Memory, docs: seq<Elem>, vals: seq<Node>, skels: seq<Skel>, n: nat)
    requires Origin(mem, docs, vals, skels) && n < |skels|
    ensures |docs| == |vals| == |skels| && OriginAt(mem, docs, vals, skels, n)
  {}

  lemma {:induction false} AllVisibleHas(mem: Memory, docs: seq<Elem>, vals: seq<Node>, nodes: Nodes, skels: seq<Skel>,
      ss: seq<Skel>, xs: seq<Elem>, vs: seq<Node>, level: nat, m: nat)
    requires Origin(mem, docs, vals, skels) && Shaped(nodes, skels) && Lists(docs, vals, ss, xs, vs)
    requires forall j :: 0 <= j < |ss| ==> IsPart(skels, ss[j]) && ss[j].level == level
    requires m in FlattenAll(ss)
    ensures m < |vals| && vals[m] in AllVisible(vs, level)
    decreases ss, 0
  {
    hide Shaped, Origin, Visible, Flatten;
    assert StandsFor(docs, vals, ss[0].n, xs[0], vs[0]);
    if m in Flatten(ss[0]) {
      VisibleHas(mem, docs, vals, nodes, skels, ss[0], m);
    } else {
      assert forall j :: 0 <= j < |ss| - 1 ==> StandsFor(docs, vals, ss[1..][j].n, xs[1..][j], vs[1..][j]);
      AllVisibleHas(mem, docs, vals, nodes, skels, ss[1..], xs[1..], vs[1..], level, m);
    }
  }

  /** The list holding m, and what an edit at these keys reaches in it. */
  ghost predicate TouchedAt(vals: seq<Node>, were: seq<Node>, nodes: Nodes, skels: seq<Skel>, m: nat, keys: set<Key>) {
    m < |nodes| &&
    match nodes[m].place
    case InServices => Touched(were, 0, keys)
    case InGroups(p) => p < |vals| && p < |skels| && Reads(skels[p].level) && Touched(vals[p].groups, skels[p].level + 1, keys)
    case InOperations(p) => p < |vals| && p < |skels| && Touched(vals[p].operations, skels[p].level + 1, keys)
  }

  /** A write at n reaches every list on the path to n. */
  lemma PathIsTouched(mem: Memory, docs: seq<Elem>, vals: seq<Node>, nodes: Nodes, skels: seq<Skel>, roots: seq<Skel>,
      xs: seq<Elem>, were: seq<Node>, n: nat, k: nat, keys: set<Key>)
    requires Origin(mem, docs, vals, skels) && Shaped(nodes, skels) && Rooted(nodes, skels, roots)
    requires Lists(docs, vals, roots, xs, were) && FlattenAll(roots) == Range(0, |nodes|)
    requires OnPath(nodes, n, k) && n < |vals| && vals[n].key in keys
    ensures TouchedAt(vals, were, nodes, skels, k, keys)
  {
    hide Shaped, Origin, Flatten, FlattenAll, Visible, AllVisible, OnPath, Spells;
    SameLength(nodes, skels);
    PathIsUnder(nodes, skels, roots, n, k);
    AllListed(nodes, skels, roots, k);
    match nodes[k].place {
      case InServices =>
        assert Range(0, |nodes|)[n] == n;
        AllVisibleHas(mem, docs, vals, nodes, skels, roots, xs, were, 0, n);
      case InGroups(p) =>
        OriginHas(mem, docs, vals, skels, p);
        HangsAt(nodes, skels, p);
        var j :| 0 <= j < |skels[p].groups| && skels[p].groups[j] == skels[k];
        FlattenAllHas(skels[p].groups, j, n);
        AllVisibleHas(mem, docs, vals, nodes, skels, skels[p].groups, ElementsOf(mem, docs[p].groups), vals[p].groups,
                      skels[p].level + 1, n);
      case InOperations(p) =>
        OriginHas(mem, docs, vals, skels, p);
        HangsAt(nodes, skels, p);
        var j :| 0 <= j < |skels[p].operations| && skels[p].operations[j] == skels[k];
        FlattenAllHas(skels[p].operations, j, n);
        AllVisibleHas(mem, docs, vals, nodes, skels, skels[p].operations, ElementsOf(mem, docs[p].operations),
                      vals[p].operations, skels[p].level + 1, n);
    }
  }

  lemma TouchedStill(vals: seq<Node>, were: seq<Node>, a: Nodes, b: Nodes, skels: seq<Skel>, m: nat, keys: set<Key>)
    requires TouchedAt(vals, were, a, skels, m, keys) && |a| == |b| && b[m].place == a[m].place
    ensures TouchedAt(vals, were, b, skels, m, keys)
  {
    hide Touched;
  }

  lemma StillTouched(vals: seq<Node>, were: seq<Node>, a: Nodes, b: Nodes, skels: seq<Skel>, n: nat, keys: set<Key>)
    requires ParentFirst(a) && |a| == |b| && forall i :: 0 <= i < |a| ==> b[i].place == a[i].place
    requires forall k :: OnPath(a, n, k) ==> TouchedAt(vals, were, a, skels, k, keys)
    ensures ParentFirst(b) && forall k :: OnPath(b, n, k) ==> TouchedAt(vals, were, b, skels, k, keys)
  {
    hide TouchedAt;
    forall k | OnPath(b, n, k) ensures TouchedAt(vals, were, b, skels, k, keys) {
      PathSame(a, b, n, k);
      TouchedStill(vals, were, a, b, skels, k, keys);
    }
  }

  lemma HangsAt(nodes: Nodes, skels: seq<Skel>, p: nat)
    requires Shaped(nodes, skels) && p < |skels|
    ensures In(nodes, skels, skels[p].groups, p) && In(nodes, skels, skels[p].operations, p)
    ensures forall j :: 0 <= j < |skels[p].groups| ==> skels[p].groups[j].level == skels[p].level + 1
    ensures forall j :: 0 <= j < |skels[p].operations| ==> skels[p].operations[j].level == skels[p].level + 1
    ensures !Reads(skels[p].level) ==> skels[p].groups == []
  {
    IsItsPart(nodes, skels, p);
    HangsIn(nodes, skels, skels[p]);
  }

  // ----- what each node keeps of its slices -----

  ghost predicate ListKeeps(stale: bool, mem: Memory, s: Slice, vs: seq<Node>, t: Slice, level: nat, keys: set<Key>) {
    if stale then Touched(vs, level, keys) else Keeps(mem, s, vs, t, level, keys)
  }

  /** A node read off d, which spelled v, now holding y: a slice of it that is not stale
      keeps d's as an edit at these keys does, and one that is stale was reached. */
  ghost predicate NodeKeeps(mem: Memory, t: TreeNode, y: Elem, d: Elem, v: Node, level: nat, keys: set<Key>) {
    && y.key == d.key && t.value.key == v.key && (t.removed ==> v.key in keys)
    && (if Reads(level) then ListKeeps(t.groups.stale, mem, d.groups, v.groups, y.groups, level + 1, keys) else y.groups == d.groups)
    && ListKeeps(t.operations.stale, mem, d.operations, v.operations, y.operations, level + 1, keys)
  }

  function ElemOf(mem: Memory, c: NodeCell): Elem {
    if Points(mem, c.at) then Deref(mem, c.at) else Elem(Key(AService, ""), "", None, None)
  }

  ghost predicate AllKeep(mem: Memory, cells: seq<NodeCell>, nodes: Nodes, docs: seq<Elem>, vals: seq<Node>, skels: seq<Skel>,
      keys: set<Key>) {
    && |cells| == |nodes| == |docs| == |vals| == |skels|
    && forall i :: 0 <= i < |nodes| ==> KeepsAt(mem, cells[i], nodes[i], docs[i], vals[i], skels[i].level, keys)
  }

  ghost predicate KeepsAt(mem: Memory, c: NodeCell, t: TreeNode, d: Elem, v: Node, level: nat, keys: set<Key>) {
    Points(mem, c.at) && NodeKeeps(mem, t, ElemOf(mem, c), d, v, level, keys)
  }

  lemma ListKeepsStill(stale: bool, a: Memory, b: Memory, s: Slice, vs: seq<Node>, t: Slice, level: nat, keys: set<Key>)
    requires ListKeeps(stale, a, s, vs, t, level, keys) && Grew(a, b)
    ensures ListKeeps(stale, b, s, vs, t, level, keys)
  {
    if !stale {
      KeepsStill(a, b, s, vs, t, level, keys);
    }
  }

  lemma ListKeepsMore(stale: bool, mem: Memory, s: Slice, vs: seq<Node>, t: Slice, level: nat, keys: set<Key>, more: set<Key>)
    requires ListKeeps(stale, mem, s, vs, t, level, keys) && SpellsAll(mem, s, vs) && keys <= more
    ensures ListKeeps(stale, mem, s, vs, t, level, more)
  {
    if stale {
      TouchedMore(vs, level, keys, more);
    } else {
      KeepsMore(mem, s, vs, t, level, keys, more);
    }
  }

  lemma NodeKeepsStill(a: Memory, b: Memory, t: TreeNode, y: Elem, d: Elem, v: Node, level: nat, keys: set<Key>)
    requires NodeKeeps(a, t, y, d, v, level, keys) && Grew(a, b)
    ensures NodeKeeps(b, t, y, d, v, level, keys)
  {
    hide ListKeeps, Grew;
    if Reads(level) {
      ListKeepsStill(t.groups.stale, a, b, d.groups, v.groups, y.groups, level + 1, keys);
    }
    ListKeepsStill(t.operations.stale, a, b, d.operations, v.operations, y.operations, level + 1, keys);
  }

  lemma NodeKeepsMore(mem: Memory, t: TreeNode, y: Elem, d: Elem, v: Node, level: nat, keys: set<Key>, more: set<Key>)
    requires NodeKeeps(mem, t, y, d, v, level, keys) && Spells(mem, d, v) && keys <= more
    ensures NodeKeeps(mem, t, y, d, v, level, more)
  {
    SpelledParts(mem, d, v);
    hide ListKeeps, Spells, SpellsAll;
    if Reads(level) {
      ListKeepsMore(t.groups.stale, mem, d.groups, v.groups, y.groups, level + 1, keys, more);
    }
    ListKeepsMore(t.operations.stale, mem, d.operations, v.operations, y.operations, level + 1, keys, more);
  }

  lemma AllKeepStill(a: Memory, b: Memory, cells: seq<NodeCell>, nodes: Nodes, docs: seq<Elem>, vals: seq<Node>,
      skels: seq<Skel>, keys: set<Key>)
    requires AllKeep(a, cells, nodes, docs, vals, skels, keys) && Grew(a, b)
    ensures AllKeep(b, cells, nodes, docs, vals, skels, keys)
  {
    hide NodeKeeps;
    forall i | 0 <= i < |nodes| ensures KeepsAt(b, cells[i], nodes[i], docs[i], vals[i], skels[i].level, keys) {
      assert KeepsAt(a, cells[i], nodes[i], docs[i], vals[i], skels[i].level, keys);
      PointsStill(a, b, cells[i].at);
      NodeKeepsStill(a, b, nodes[i], ElemOf(a, cells[i]), docs[i], vals[i], skels[i].level, keys);
    }
  }

  lemma AllKeepMore(mem: Memory, cells: seq<NodeCell>, nodes: Nodes, docs: seq<Elem>, vals: seq<Node>, skels: seq<Skel>,
      keys: set<Key>, more: set<Key>)
    requires AllKeep(mem, cells, nodes, docs, vals, skels, keys) && Origin(mem, docs, vals, skels) && keys <= more
    ensures AllKeep(mem, cells, nodes, docs, vals, skels, more)
  {
    hide NodeKeeps, Spells, Lists;
    forall i | 0 <= i < |nodes| ensures KeepsAt(mem, cells[i], nodes[i], docs[i], vals[i], skels[i].level, more) {
      assert KeepsAt(mem, cells[i], nodes[i], docs[i], vals[i], skels[i].level, keys) && OriginAt(mem, docs, vals, skels, i);
      NodeKeepsMore(mem, nodes[i], ElemOf(mem, cells[i]), docs[i], vals[i], skels[i].level, keys, more);
    }
  }

  lemma AllKeepPut(mem: Memory, cells: seq<NodeCell>, nodes: Nodes, docs: seq<Elem>, vals: seq<Node>, skels: seq<Skel>,
      keys: set<Key>, n: nat, c: NodeCell, t: TreeNode)
    requires AllKeep(mem, cells, nodes, docs, vals, skels, keys) && n < |nodes|
    requires KeepsAt(mem, c, t, docs[n], vals[n], skels[n].level, keys)
    ensures AllKeep(mem, cells[n := c], nodes[n := t], docs, vals, skels, keys)
  {
    hide KeepsAt;
  }

  lemma AllKeepHas(mem: Memory, cells: seq<NodeCell>, nodes: Nodes, docs: seq<Elem>, vals: seq<Node>, skels: seq<Skel>,
      keys: set<Key>, n: nat)
    requires AllKeep(mem, cells, nodes, docs, vals, skels, keys) && n < |nodes|
    ensures |cells| == |nodes| == |docs| == |vals| == |skels|
    ensures KeepsAt(mem, cells[n], nodes[n], docs[n], vals[n], skels[n].level, keys)
  {}

  // A node with nothing stale in it keeps what it was read off.
  lemma FreshKeeps(mem: Memory, t: TreeNode, y: Elem, d: Elem, v: Node, level: nat, keys: set<Key>)
    requires NodeKeeps(mem, t, y, d, v, level, keys) && !t.groups.stale && !t.operations.stale
    ensures KeepsOne(mem, d, v, y, level, keys)
  {
    hide Keeps;
  }

  /** A list built of what its nodes hold, those removed dropped, keeps what it was read off. */
  lemma {:induction false} BuiltKeeps(mem: Memory, nodes: Nodes, docs: seq<Elem>, vals: seq<Node>, ss: seq<Skel>, xs: seq<Elem>,
      vs: seq<Node>, ys: seq<Elem>, level: nat, keys: set<Key>)
    requires Lists(docs, vals, ss, xs, vs) && |ys| == |Kept(nodes, Numbers(ss))|
    requires forall j :: 0 <= j < |ys| ==> BuiltAt(mem, docs, vals, Kept(nodes, Numbers(ss))[j], ys[j], level, keys)
    requires forall j :: 0 <= j < |ss| && IsRemoved(nodes, ss[j].n) ==> vs[j].key in keys
    ensures KeepsEach(mem, xs, vs, ys, level, keys)
    decreases |ss|
  {
    hide KeepsOne, IsRemoved;
    if ss != [] {
      var ns := Numbers(ss);
      assert ns[1..] == Numbers(ss[1..]) && ns[0] == ss[0].n;
      var rest := Kept(nodes, ns[1..]);
      assert StandsFor(docs, vals, ss[0].n, xs[0], vs[0]);
      assert Lists(docs, vals, ss[1..], xs[1..], vs[1..]) by {
        forall j | 0 <= j < |ss| - 1 ensures StandsFor(docs, vals, ss[1..][j].n, xs[1..][j], vs[1..][j]) {
          assert StandsFor(docs, vals, ss[j + 1].n, xs[j + 1], vs[j + 1]);
        }
      }
      if IsRemoved(nodes, ns[0]) {
        assert Kept(nodes, ns) == rest;
        BuiltKeeps(mem, nodes, docs, vals, ss[1..], xs[1..], vs[1..], ys, level, keys);
      } else {
        assert Kept(nodes, ns) == [ns[0]] + rest;
        assert BuiltAt(mem, docs, vals, Kept(nodes, ns)[0], ys[0], level, keys);
        forall j | 0 <= j < |ys| - 1 ensures BuiltAt(mem, docs, vals, rest[j], ys[1..][j], level, keys) {
          assert BuiltAt(mem, docs, vals, Kept(nodes, ns)[j + 1], ys[j + 1], level, keys);
        }
        BuiltKeeps(mem, nodes, docs, vals, ss[1..], xs[1..], vs[1..], ys[1..], level, keys);
      }
    }
  }

  lemma BuiltStill(a: Memory, b: Memory, docs: seq<Elem>, vals: seq<Node>, ns: seq<nat>, ys: seq<Elem>, level: nat,
      keys: set<Key>)
    requires Grew(a, b) && |ys| <= |ns| && forall j :: 0 <= j < |ys| ==> BuiltAt(a, docs, vals, ns[j], ys[j], level, keys)
    ensures forall j :: 0 <= j < |ys| ==> BuiltAt(b, docs, vals, ns[j], ys[j], level, keys)
  {
    hide KeepsOne, Grew;
    forall j | 0 <= j < |ys| ensures BuiltAt(b, docs, vals, ns[j], ys[j], level, keys) {
      assert BuiltAt(a, docs, vals, ns[j], ys[j], level, keys);
      KeepsOneStill(a, b, docs[ns[j]], vals[ns[j]], ys[j], level, keys);
    }
  }

  lemma KeptLevels(nodes: Nodes, skels: seq<Skel>, ss: seq<Skel>, level: nat)
    requires forall j :: 0 <= j < |ss| ==> IsPart(skels, ss[j]) && ss[j].level == level
    ensures forall j :: 0 <= j < |Kept(nodes, Numbers(ss))| ==>
      Kept(nodes, Numbers(ss))[j] < |skels| && skels[Kept(nodes, Numbers(ss))[j]].level == level
  {
    KeptIsIn(nodes, Numbers(ss));
    forall j | 0 <= j < |Kept(nodes, Numbers(ss))|
      ensures Kept(nodes, Numbers(ss))[j] < |skels| && skels[Kept(nodes, Numbers(ss))[j]].level == level
    {
      var n := Kept(nodes, Numbers(ss))[j];
      assert n in Numbers(ss);
      var k :| 0 <= k < |ss| && Numbers(ss)[k] == n;
    }
  }

  lemma SameKept(a: Nodes, b: Nodes, skels: seq<Skel>, ss: seq<Skel>)
    requires Rebuilt(a, b, skels)
    ensures Kept(a, Numbers(ss)) == Kept(b, Numbers(ss))
  {
    assert forall i :: 0 <= i < |a| ==> Same(a[i], b[i], skels[i].level);
    KeptStays(a, b, Numbers(ss));
  }

  ghost predicate BuiltAt(mem: Memory, docs: seq<Elem>, vals: seq<Node>, n: nat, y: Elem, level: nat, keys: set<Key>) {
    n < |docs| && n < |vals| && KeepsOne(mem, docs[n], vals[n], y, level, keys)
  }

  // ----- nodes laid out as they are read -----

  ghost function ElemsOf(mem: Memory, cells: seq<NodeCell>): seq<Elem> {
    seq(|cells|, i requires 0 <= i < |cells| => ElemOf(mem, cells[i]))
  }

  ghost function ValuesOf(nodes: Nodes): seq<Node> {
    seq(|nodes|, i requires 0 <= i < |nodes| => nodes[i].value)
  }

  ghost predicate LaidAt(mem: Memory, cells: seq<NodeCell>, n: nat, x: Elem) {
    n < |cells| && Points(mem, cells[n].at) && ElemOf(mem, cells[n]) == x
  }

  // The nodes of ss point at the elements of s.
  ghost predicate LaidOut(mem: Memory, cells: seq<NodeCell>, ss: seq<Skel>, s: Slice) {
    && |ss| == |ElementsOf(mem, s)|
    && forall j :: 0 <= j < |ss| ==> LaidAt(mem, cells, ss[j].n, ElementsOf(mem, s)[j])
  }

  ghost predicate Laid(mem: Memory, cells: seq<NodeCell>, skels: seq<Skel>, i: nat)
    requires i < |cells| == |skels|
  {
    var x := ElemOf(mem, cells[i]);
    (Reads(skels[i].level) ==> LaidOut(mem, cells, skels[i].groups, x.groups)) && LaidOut(mem, cells, skels[i].operations, x.operations)
  }

  ghost predicate AllLaid(mem: Memory, cells: seq<NodeCell>, skels: seq<Skel>, lo: nat) {
    lo <= |cells| == |skels| && forall i :: lo <= i < |cells| ==> Laid(mem, cells, skels, i)
  }

  lemma NothingLaid(mem: Memory, cells: seq<NodeCell>, skels: seq<Skel>)
    requires |cells| == |skels|
    ensures AllLaid(mem, cells, skels, |cells|)
  {}

  // b goes on from a, pointing where it did.
  ghost predicate PointsOn(a: seq<NodeCell>, b: seq<NodeCell>) {
    |a| <= |b| && forall i :: 0 <= i < |a| ==> b[i].at == a[i].at
  }

  lemma PointsOnThen(a: seq<NodeCell>, b: seq<NodeCell>, c: seq<NodeCell>)
    requires PointsOn(a, b) && PointsOn(b, c)
    ensures PointsOn(a, c)
  {}

  lemma LaidOutOn(mem: Memory, a: seq<NodeCell>, b: seq<NodeCell>, ss: seq<Skel>, s: Slice)
    requires LaidOut(mem, a, ss, s) && PointsOn(a, b)
    ensures LaidOut(mem, b, ss, s)
  {
    forall j | 0 <= j < |ss| ensures LaidAt(mem, b, ss[j].n, ElementsOf(mem, s)[j]) {
      assert LaidAt(mem, a, ss[j].n, ElementsOf(mem, s)[j]);
    }
  }

  lemma AllLaidOn(mem: Memory, a: seq<NodeCell>, sa: seq<Skel>, b: seq<NodeCell>, sb: seq<Skel>, lo: nat)
    requires AllLaid(mem, a, sa, lo) && AllLaid(mem, b, sb, |a|) && PointsOn(a, b) && |sa| <= |sb| && sb[..|sa|] == sa
    ensures AllLaid(mem, b, sb, lo)
  {
    hide LaidOut;
    forall i | lo <= i < |a| ensures Laid(mem, b, sb, i) {
      assert Laid(mem, a, sa, i) && sb[i] == sb[..|sa|][i] == sa[i];
      if Reads(sa[i].level) {
        LaidOutOn(mem, a, b, sa[i].groups, ElemOf(mem, a[i]).groups);
      }
      LaidOutOn(mem, a, b, sa[i].operations, ElemOf(mem, a[i]).operations);
    }
  }

  // As many of the elements of s as ss has are laid out.
  ghost predicate SomeLaid(mem: Memory, cells: seq<NodeCell>, ss: seq<Skel>, s: Slice) {
    && |ss| <= |ElementsOf(mem, s)|
    && forall j :: 0 <= j < |ss| ==> LaidAt(mem, cells, ss[j].n, ElementsOf(mem, s)[j])
  }

  lemma SomeLaidNone(mem: Memory, cells: seq<NodeCell>, s: Slice)
    ensures SomeLaid(mem, cells, [], s)
  {}

  lemma SomeLaidMore(mem: Memory, a: seq<NodeCell>, b: seq<NodeCell>, ss: seq<Skel>, s: Slice, k: Skel)
    requires SomeLaid(mem, a, ss, s) && PointsOn(a, b) && |ss| < |ElementsOf(mem, s)| && s.Some?
    requires k.n < |b| && b[k.n].at == Ref(s.value, |ss|)
    ensures SomeLaid(mem, b, ss + [k], s)
  {
    forall j | 0 <= j < |ss| ensures LaidAt(mem, b, ss[j].n, ElementsOf(mem, s)[j]) {
      assert LaidAt(mem, a, ss[j].n, ElementsOf(mem, s)[j]);
    }
  }

  lemma AllAreLaid(mem: Memory, cells: seq<NodeCell>, ss: seq<Skel>, s: Slice)
    requires SomeLaid(mem, cells, ss, s) && |ss| == |ElementsOf(mem, s)|
    ensures LaidOut(mem, cells, ss, s)
  {}

  lemma NoneLaidOut(mem: Memory, cells: seq<NodeCell>, s: Slice)
    ensures ElementsOf(mem, s) == [] ==> LaidOut(mem, cells, [], s)
  {}

  lemma PointsOnSelf(a: seq<NodeCell>)
    ensures PointsOn(a, a)
  {}

  lemma PointsOnHas(a: seq<NodeCell>, b: seq<NodeCell>, n: nat)
    requires PointsOn(a, b) && n < |a|
    ensures n < |b| && b[n].at == a[n].at
  {}

  // A node hung with its lists is laid out as they are.
  lemma HungLaid(mem: Memory, a: seq<NodeCell>, sa: seq<Skel>, b: seq<NodeCell>, sb: seq<Skel>, n: nat)
    requires n < |a| && AllLaid(mem, a, sa, n + 1) && PointsOn(a, b) && |b| == |a| == |sb|
    requires forall i :: n < i < |a| ==> sb[i] == sa[i]
    requires var x := ElemOf(mem, a[n]);
      (Reads(sb[n].level) ==> LaidOut(mem, a, sb[n].groups, x.groups)) && LaidOut(mem, a, sb[n].operations, x.operations)
    ensures AllLaid(mem, b, sb, n)
  {
    hide LaidOut;
    forall i | n <= i < |b| ensures Laid(mem, b, sb, i) {
      assert i > n ==> Laid(mem, a, sa, i);
      if Reads(sb[i].level) {
        LaidOutOn(mem, a, b, sb[i].groups, ElemOf(mem, a[i]).groups);
      }
      LaidOutOn(mem, a, b, sb[i].operations, ElemOf(mem, a[i]).operations);
    }
  }

  lemma {:induction false} ShowAllFresh(nodes: Nodes, skels: seq<Skel>, ss: seq<Skel>)
    requires Shaped(nodes, skels) && AllFit(nodes, skels) && AllBuilt(nodes) && Unremoved(nodes)
    requires forall j :: 0 <= j < |ss| ==> IsPart(skels, ss[j])
    ensures |ShowAll(nodes, ss)| == |ss|
    ensures forall j :: 0 <= j < |ss| ==> ss[j].n < |nodes| && ShowAll(nodes, ss)[j] == nodes[ss[j].n].value
  {
    hide Shaped, AllFit, Show;
    SameLength(nodes, skels);
    if ss != [] {
      assert IsPart(skels, ss[0]);
      ShowAllFresh(nodes, skels, ss[1..]);
      ShownWhenFresh(nodes, skels, ss[0].n);
      assert ShowAll(nodes, ss) == [Show(nodes, ss[0])] + ShowAll(nodes, ss[1..]);
    }
  }

  // What a list as read stands for.
  lemma ListsBegin(mem: Memory, cells: seq<NodeCell>, nodes: Nodes, skels: seq<Skel>, docs: seq<Elem>, vals: seq<Node>,
      ss: seq<Skel>, s: Slice)
    requires Shaped(nodes, skels) && AllFit(nodes, skels) && AllBuilt(nodes) && Unremoved(nodes)
    requires forall j :: 0 <= j < |ss| ==> IsPart(skels, ss[j])
    requires |docs| == |vals| == |cells| == |nodes| && LaidOut(mem, cells, ss, s)
    requires forall i :: 0 <= i < |cells| ==> docs[i] == ElemOf(mem, cells[i]) && vals[i] == nodes[i].value
    ensures Lists(docs, vals, ss, ElementsOf(mem, s), ShowAll(nodes, ss))
  {
    hide Shaped, AllFit, AllBuilt, ShowAll;
    ShowAllFresh(nodes, skels, ss);
    forall j | 0 <= j < |ss| ensures StandsFor(docs, vals, ss[j].n, ElementsOf(mem, s)[j], ShowAll(nodes, ss)[j]) {
      assert LaidAt(mem, cells, ss[j].n, ElementsOf(mem, s)[j]);
    }
  }

  /** A tree just read keeps every slice as it is. */
  lemma TraceBegins(mem: Memory, cells: seq<NodeCell>, nodes: Nodes, skels: seq<Skel>, docs: seq<Elem>, vals: seq<Node>,
      keys: set<Key>)
    requires Shaped(nodes, skels) && AllFit(nodes, skels) && AllBuilt(nodes) && Unremoved(nodes)
    requires AllMirror(mem, cells, nodes) && AllLaid(mem, cells, skels, 0) && |docs| == |vals| == |cells|
    requires forall i :: 0 <= i < |cells| ==> docs[i] == ElemOf(mem, cells[i]) && vals[i] == nodes[i].value
    ensures Origin(mem, docs, vals, skels) && AllKeep(mem, cells, nodes, docs, vals, skels, keys)
  {
    hide Shaped, AllFit, AllBuilt, Unremoved, AllMirror, AllLaid, Lists, Spells, ShowAll, Keeps, LaidOut;
    SameLength(nodes, skels);
    SameCount(mem, cells, nodes);
    forall i | 0 <= i < |cells|
      ensures OriginAt(mem, docs, vals, skels, i) && KeepsAt(mem, cells[i], nodes[i], docs[i], vals[i], skels[i].level, keys)
    {
      NodeBegins(mem, cells, nodes, skels, docs, vals, keys, i);
    }
  }

  lemma NodeBegins(mem: Memory, cells: seq<NodeCell>, nodes: Nodes, skels: seq<Skel>, docs: seq<Elem>, vals: seq<Node>,
      keys: set<Key>, i: nat)
    requires Shaped(nodes, skels) && AllFit(nodes, skels) && AllBuilt(nodes) && Unremoved(nodes)
    requires AllMirror(mem, cells, nodes) && AllLaid(mem, cells, skels, 0) && |docs| == |vals| == |cells| && i < |cells|
    requires forall i :: 0 <= i < |cells| ==> docs[i] == ElemOf(mem, cells[i]) && vals[i] == nodes[i].value
    ensures |cells| == |nodes| == |skels|
    ensures OriginAt(mem, docs, vals, skels, i) && KeepsAt(mem, cells[i], nodes[i], docs[i], vals[i], skels[i].level, keys)
  {
    hide Shaped, AllFit, AllMirror, Lists, Spells, ShowAll, Keeps, LaidOut;
    SameLength(nodes, skels);
    MirrorsAt(mem, cells, nodes, i);
    assert Laid(mem, cells, skels, i);
    ChildrenArePast(nodes, skels, i);
    HangsAt(nodes, skels, i);
    ShownWhenFresh(nodes, skels, i);
    ShowHas(nodes, skels[i]);
    var d, v, s := docs[i], vals[i], skels[i];
    SpelledParts(mem, d, v);
    if Reads(s.level) {
      ListsBegin(mem, cells, nodes, skels, docs, vals, s.groups, d.groups);
    }
    ListsBegin(mem, cells, nodes, skels, docs, vals, s.operations, d.operations);
    KeepsItself(mem, d.groups, v.groups, s.level + 1, keys);
    KeepsItself(mem, d.operations, v.operations, s.level + 1, keys);
  }

  // ----- the calls of an edit -----

  datatype Call = ReadAt(key: Key) | UpdateAt(key: Key, change: Change) | RemoveAt(key: Key)

  function After(held: seq<Node>, call: Call): seq<Node> {
    match call
    case ReadAt(_) => held
    case UpdateAt(key, change) => Updated(held, key, change)
    case RemoveAt(key) => Removed(held, key)
  }

  function AnswerOf(held: seq<Node>, call: Call): Option<Node> {
    if call.ReadAt? then Read(held, call.key) else None
  }

  /** Whether a call writes a node: an update or removal at an ID the edit holds one node
      at, the update not refused. */
  predicate Writes(held: seq<Node>, call: Call) {
    match call
    case ReadAt(_) => false
    case UpdateAt(key, change) => Read(held, key).Some? && change(Read(held, key).value.data).Some?
    case RemoveAt(key) => Read(held, key).Some?
  }

  /** One edit's services: those of its document, as last built, and the nodes read off
      them when first needed. */
  class ServiceTree {
    var mem: Memory
    var next: nat
    var slice: Slice              // the document's services, as last built
    var read: bool
    var services: TreeList
    var cells: seq<NodeCell>
    var byID: map<Key, seq<nat>>
    ghost var out: seq<Node>      // what slice spells
    ghost var nodes: Nodes        // the cells, with what they hold spelled out
    ghost var skels: seq<Skel>
    ghost var roots: seq<Skel>
    ghost var origin: Slice       // the document's services as they were
    ghost var were: seq<Node>
    ghost var docs: seq<Elem>     // the element each node was read off, and what it spelled
    ghost var vals: seq<Node>
    ghost var keys: set<Key>      // what was written so far

    /** Each slice is the document's own unless a write reached it, and then keeps as much. */
    ghost predicate Traced()
      reads this`mem, this`cells, this`nodes, this`skels, this`roots, this`docs, this`vals, this`keys,
            this`services, this`slice, this`origin, this`were
    {
      && Origin(mem, docs, vals, skels) && AllKeep(mem, cells, nodes, docs, vals, skels, keys)
      && Lists(docs, vals, roots, ElementsOf(mem, origin), were) && SpellsAll(mem, origin, were)
      && ListKeeps(services.stale, mem, origin, were, slice, 0, keys)
    }

    ghost predicate Stored()
      reads this`mem, this`next, this`cells, this`nodes
    {
      (forall p :: p in mem ==> p < next) && AllMirror(mem, cells, nodes)
    }

    ghost predicate Valid()
      reads this
    {
      && Stored() && SpellsAll(mem, slice, out)
      && (read ==> Sound(nodes, skels, roots, services, out) && Indexed(nodes, byID, roots) && Traced())
      && (!read ==> slice == origin && out == were && keys == {})
    }

    /** No write was taken yet, so every slice is the document's own. */
    ghost predicate Untouched()
      reads this`read, this`services, this`nodes
    {
      read ==> !services.stale && AllBuilt(nodes)
    }

    /** The services the edit holds. */
    ghost function Shown(): seq<Node>
      reads this
    {
      if read then ShowAll(nodes, roots) else out
    }

    constructor (mem: Memory, next: nat, slice: Slice, ghost services: seq<Node>)
      requires SpellsAll(mem, slice, services) && forall p :: p in mem ==> p < next
      ensures Valid() && Untouched() && Shown() == services && this.mem == mem && this.slice == slice
      ensures origin == slice && were == services && keys == {}
    {
      this.mem, this.next, this.slice, out := mem, next, slice, services;
      read, this.services, cells, byID := false, TreeList([], false), [], map[];
      nodes, skels, roots := [], [], [];
      origin, were, docs, vals, keys := slice, services, [], [], {};
    }

    // Memory grew, and nothing else changed.
    twostate lemma TracedStill()
      requires old(Traced()) && Grew(old(mem), mem)
      requires cells == old(cells) && nodes == old(nodes) && skels == old(skels) && roots == old(roots) && docs == old(docs)
      requires vals == old(vals) && keys == old(keys) && services == old(services) && slice == old(slice)
      requires origin == old(origin) && were == old(were)
      ensures Traced()
    {
      hide Origin, AllKeep, Lists, ListKeeps, Grew;
      OriginStill(old(mem), mem, docs, vals, skels);
      AllKeepStill(old(mem), mem, cells, nodes, docs, vals, skels, keys);
      SameElements(old(mem), mem, origin, were);
      SpellsAllStill(old(mem), mem, origin, were);
      ListKeepsStill(services.stale, old(mem), mem, origin, were, slice, 0, keys);
    }

    /** Allocates an array. */
    method Allocate(xs: seq<Elem>) returns (at: nat)
      requires Stored()
      modifies this`mem, this`next
      ensures Stored() && Grew(old(mem), mem) && at in mem && mem[at] == xs
      ensures old(Traced()) ==> Traced()
    {
      hide Traced, AllMirror;
      at := next;
      ghost var was := mem;
      mem := mem[at := xs];
      next := next + 1;
      MirrorsStill(was, mem, cells, nodes);
      if old(Traced()) {
        TracedStill();
      }
    }

    // A node so held keeps what it was read off.
    ghost predicate MayHold(n: nat, x: Elem, t: TreeNode)
      reads this`mem, this`docs, this`vals, this`skels, this`keys
    {
      n < |docs| == |vals| == |skels| && NodeKeeps(mem, t, x, docs[n], vals[n], skels[n].level, keys)
    }

    lemma MayHoldStill(was: Memory, n: nat, x: Elem, t: TreeNode)
      requires n < |docs| == |vals| == |skels| && NodeKeeps(was, t, x, docs[n], vals[n], skels[n].level, keys)
      requires Grew(was, mem)
      ensures MayHold(n, x, t)
    {
      NodeKeepsStill(was, mem, t, x, docs[n], vals[n], skels[n].level, keys);
    }

    // Holds x at a node from now on, in place of what it held, which stays as it was.
    method Hold(n: nat, x: Elem, groups: TreeList, operations: TreeList, ghost t: TreeNode)
      requires Stored() && n < |nodes| && Spells(mem, x, t.value)
      requires t.groups == groups && t.operations == operations
      requires t.place == nodes[n].place && t.removed == nodes[n].removed
      requires Traced() && MayHold(n, x, t)
      modifies this`mem, this`next, this`cells, this`nodes
      ensures Stored() && Grew(old(mem), mem) && nodes == old(nodes)[n := t] && Traced()
    {
      hide AllMirror, Spells, Grew, Traced, NodeKeeps;
      var at := Allocate([x]);
      SpellsStill(old(mem), mem, x, t.value);
      MirrorsAt(mem, cells, nodes, n);
      var c := NodeCell(cells[n].place, Ref(at, 0), groups, operations, cells[n].removed);
      MirrorsPut(mem, cells, nodes, n, c, t);
      MayHoldStill(old(mem), n, x, t);
      PutKept(n, c, t);
      cells := cells[n := c];
      nodes := nodes[n := t];
      IsTraced();
    }

    lemma PutKept(n: nat, c: NodeCell, t: TreeNode)
      requires Traced() && n < |nodes| && Points(mem, c.at) && MayHold(n, Deref(mem, c.at), t)
      ensures |cells| == |nodes| && AllKeep(mem, cells[n := c], nodes[n := t], docs, vals, skels, keys)
      ensures Origin(mem, docs, vals, skels) && Lists(docs, vals, roots, ElementsOf(mem, origin), were)
      ensures SpellsAll(mem, origin, were) && ListKeeps(services.stale, mem, origin, were, slice, 0, keys)
    {
      hide NodeKeeps, Origin, Lists, SpellsAll, ListKeeps;
      AllKeepPut(mem, cells, nodes, docs, vals, skels, keys, n, c, t);
    }

    lemma IsTraced()
      requires Origin(mem, docs, vals, skels) && AllKeep(mem, cells, nodes, docs, vals, skels, keys)
      requires Lists(docs, vals, roots, ElementsOf(mem, origin), were) && SpellsAll(mem, origin, were)
      requires ListKeeps(services.stale, mem, origin, were, slice, 0, keys)
      ensures Traced()
    {}

    // What each node keeps.
    lemma TracedAt(n: nat)
      requires Stored() && Traced() && n < |nodes|
      ensures |cells| == |nodes| && Points(mem, cells[n].at) && MayHold(n, Deref(mem, cells[n].at), nodes[n])
      ensures OriginAt(mem, docs, vals, skels, n)
    {
      hide NodeKeeps, Spells, Lists;
      AllKeepHas(mem, cells, nodes, docs, vals, skels, keys, n);
      OriginHas(mem, docs, vals, skels, n);
    }

    // Keeps other lists at a node, or drops it.
    method Note(n: nat, groups: TreeList, operations: TreeList, removed: bool)
      requires Stored() && n < |nodes|
      modifies this`cells, this`nodes
      ensures Stored() && nodes == old(nodes)[n := Noted(old(nodes)[n], groups, operations, removed)]
      ensures PointsOn(old(cells), cells) && |cells| == |old(cells)|
      ensures old(NoteKeeps(n, groups, operations, removed)) ==> Traced()
    {
      hide AllMirror, Spells, Traced, NodeKeeps;
      MirrorsAt(mem, cells, nodes, n);
      var c := cells[n].(groups := groups, operations := operations, removed := removed);
      ghost var t := Noted(nodes[n], groups, operations, removed);
      MirrorsPut(mem, cells, nodes, n, c, t);
      if NoteKeeps(n, groups, operations, removed) {
        PutKept(n, c, t);
      }
      cells := cells[n := c];
      nodes := nodes[n := t];
      if old(NoteKeeps(n, groups, operations, removed)) {
        IsTraced();
      }
    }

    // So noted, a node keeps what it was read off.
    ghost predicate NoteKeeps(n: nat, groups: TreeList, operations: TreeList, removed: bool)
      reads this`mem, this`cells, this`nodes, this`skels, this`roots, this`docs, this`vals, this`keys,
            this`services, this`slice, this`origin, this`were
    {
      && Traced() && n < |nodes| == |cells|
      && MayHold(n, ElemOf(mem, cells[n]), Noted(nodes[n], groups, operations, removed))
    }

    /** Makes every list between n and the document one to build anew, and no other. */
    method Touch(n: nat)
      requires Stored() && ParentFirst(nodes) && n < |nodes|
      requires Traced() && forall k :: OnPath(nodes, n, k) ==> TouchedAt(vals, were, nodes, skels, k, keys)
      modifies this`cells, this`nodes, this`services
      ensures Stored() && Marked(old(nodes), old(services), nodes, services, n) && Traced()
    {
      hide StaleAt, StalerAll, AllMirror, Traced, TouchedAt;
      ghost var was := nodes;
      StalerSelf(was);
      var at: Option<nat> := Some(n);
      while at.Some?
        invariant Stored() && Traced() && StalerAll(was, nodes) && |nodes| == |was| && Staler(old(services), services)
        invariant at.Some? ==> at.value < |nodes| && OnPath(was, n, at.value)
        invariant forall k :: OnPath(was, n, k) ==>
          StaleAt(nodes, services, k) || (at.Some? && OnPath(was, at.value, k))
        invariant forall i :: 0 <= i < |nodes| && nodes[i].groups.stale && !was[i].groups.stale ==>
          PathIn(was, n, InGroups(i))
        invariant forall i :: 0 <= i < |nodes| && nodes[i].operations.stale && !was[i].operations.stale ==>
          PathIn(was, n, InOperations(i))
        decreases if at.Some? then at.value + 1 else 0
      {
        var m := at.value;
        PathGoesUp(was, n, m);
        StalerHas(was, nodes, m);
        TouchedStill(vals, were, was, nodes, skels, m, keys);
        ghost var before, list := nodes, services;
        at := Mark(m);
        StalerThen(was, before, nodes);
        forall k | OnPath(was, n, k) && StaleAt(before, list, k) ensures StaleAt(nodes, services, k) {
          StaleStays(before, list, nodes, services, k);
        }
      }
    }

    // Marks the list holding m stale, and gives the node that list is in.
    method Mark(m: nat) returns (holder: Option<nat>)
      requires Stored() && ParentFirst(nodes) && m < |nodes|
      requires Traced() && TouchedAt(vals, were, nodes, skels, m, keys)
      modifies this`cells, this`nodes, this`services
      ensures Stored() && StalerAll(old(nodes), nodes) && |nodes| == |old(nodes)| && Staler(old(services), services)
      ensures StaleAt(nodes, services, m) && Traced()
      ensures holder == if old(nodes)[m].place.InServices? then None else Some(old(nodes)[m].place.parent)
      ensures forall i :: 0 <= i < |nodes| && nodes[i].groups.stale && !old(nodes)[i].groups.stale ==>
        old(nodes)[m].place == InGroups(i)
      ensures forall i :: 0 <= i < |nodes| && nodes[i].operations.stale && !old(nodes)[i].operations.stale ==>
        old(nodes)[m].place == InOperations(i)
    {
      hide AllMirror, Spells, Traced, NodeKeeps, Touched;
      MirrorsAt(mem, cells, nodes, m);
      match cells[m].place
      case InServices =>
        MarkServicesKeeps();
        services := services.(stale := true);
        IsTraced();
        holder := None;
      case InGroups(p) =>
        MirrorsAt(mem, cells, nodes, p);
        MarkGroupsKeeps(p);
        Note(p, cells[p].groups.(stale := true), cells[p].operations, cells[p].removed);
        holder := Some(p);
      case InOperations(p) =>
        MirrorsAt(mem, cells, nodes, p);
        MarkOperationsKeeps(p);
        Note(p, cells[p].groups, cells[p].operations.(stale := true), cells[p].removed);
        holder := Some(p);
    }

    lemma MarkServicesKeeps()
      requires Traced() && Touched(were, 0, keys)
      ensures Origin(mem, docs, vals, skels) && AllKeep(mem, cells, nodes, docs, vals, skels, keys)
      ensures Lists(docs, vals, roots, ElementsOf(mem, origin), were) && SpellsAll(mem, origin, were)
      ensures ListKeeps(true, mem, origin, were, slice, 0, keys)
    {
      hide Touched, Origin, AllKeep, Lists, SpellsAll;
    }

    lemma MarkGroupsKeeps(p: nat)
      requires Stored() && Traced() && p < |nodes| && p < |vals| && p < |skels|
      requires Reads(skels[p].level) && Touched(vals[p].groups, skels[p].level + 1, keys)
      ensures NoteKeeps(p, nodes[p].groups.(stale := true), nodes[p].operations, nodes[p].removed)
    {
      hide Traced, Touched, AllMirror, Keeps;
      TracedAt(p);
    }

    lemma MarkOperationsKeeps(p: nat)
      requires Stored() && Traced() && p < |nodes| && p < |vals| && p < |skels|
      requires Touched(vals[p].operations, skels[p].level + 1, keys)
      ensures NoteKeeps(p, nodes[p].groups, nodes[p].operations.(stale := true), nodes[p].removed)
    {
      hide Traced, Touched, AllMirror, Keeps;
      TracedAt(p);
    }

    /** What the edit holds at n, its stale slices built anew first. */
    method ValueOf(n: nat) returns (x: Elem)
      requires Stored() && Shaped(nodes, skels) && AllFit(nodes, skels) && n < |nodes| && Traced()
      modifies this`mem, this`next, this`cells, this`nodes
      ensures Stored() && Grew(old(mem), mem)
      ensures Shaped(nodes, skels) && AllFit(nodes, skels) && Rebuilt(old(nodes), nodes, skels)
      ensures forall i :: 0 <= i < n ==> nodes[i] == old(nodes)[i]
      ensures Spells(mem, x, Show(nodes, skels[n]))
      ensures old(AllBuilt(nodes)) ==> nodes == old(nodes) && mem == old(mem)
      ensures Traced() && IsKept(n, x)
      decreases |nodes| - n, 1
    {
      hide Traced, NodeKeeps, KeepsOne, AllBuilt, Shaped, AllFit, Show, ShowAll, Rebuilt, AllMirror, Spells, Grew;
      SameLength(nodes, skels);
      RebuiltSelf(nodes, skels);
      GrewSelf(mem);
      MirrorsAt(mem, cells, nodes, n);
      if AllBuilt(nodes) {
        NoneStaleAt(nodes, n);
      }
      if cells[n].groups.stale {
        BuildGroups(n);
      }
      ghost var mid, had := nodes, mem;
      RebuiltSelf(nodes, skels);
      GrewSelf(mem);
      MirrorsAt(mem, cells, nodes, n);
      if cells[n].operations.stale {
        BuildOperations(n);
      }
      GrewThen(old(mem), had, mem);
      MirrorsAt(mem, cells, nodes, n);
      x := Deref(mem, cells[n].at);
      RebuiltThen(old(nodes), mid, nodes, skels);
      ShownWhenFresh(nodes, skels, n);
      TracedAt(n);
      FreshKeeps(mem, nodes[n], x, docs[n], vals[n], skels[n].level, keys);
    }

    // x keeps what node n was read off.
    ghost predicate IsKept(n: nat, x: Elem)
      reads this`mem, this`docs, this`vals, this`skels, this`keys
    {
      n < |skels| && BuiltAt(mem, docs, vals, n, x, skels[n].level, keys)
    }

    // The nodes of a list not removed.
    method DropRemoved(ns: seq<nat>) returns (kept: seq<nat>)
      requires Stored()
      ensures kept == Kept(nodes, ns)
    {
      hide AllMirror, Mirrors;
      kept := [];
      for i := |ns| downto 0
        invariant kept == Kept(nodes, ns[i..])
      {
        assert ns[i..][1..] == ns[i + 1..];
        var gone := Gone(ns[i]);
        if !gone {
          kept := [ns[i]] + kept;
        }
      }
    }

    method Gone(n: nat) returns (gone: bool)
      requires Stored()
      ensures gone == IsRemoved(nodes, n)
    {
      gone := n < |cells| && cells[n].removed;
      if n < |nodes| {
        MirrorsAt(mem, cells, nodes, n);
      }
    }

    /** Drops the removed nodes of a list, and builds a slice of the ones left, nil when
        there are none. */
    method Built(ns: seq<nat>, ghost ss: seq<Skel>, ghost lo: nat, ghost xs: seq<Elem>, ghost vs: seq<Node>, ghost level: nat)
        returns (kept: seq<nat>, built: Slice, ghost elems: seq<Node>)
      requires Stored() && Shaped(nodes, skels) && AllFit(nodes, skels) && Kept(nodes, ns) == Kept(nodes, Numbers(ss))
      requires lo <= |nodes| && forall j :: 0 <= j < |ss| ==> IsPart(skels, ss[j]) && lo <= ss[j].n
      requires Traced() && Lists(docs, vals, ss, xs, vs) && forall j :: 0 <= j < |ss| ==> ss[j].level == level
      modifies this`mem, this`next, this`cells, this`nodes
      ensures Stored() && Grew(old(mem), mem) && Traced()
      ensures Shaped(nodes, skels) && AllFit(nodes, skels) && Rebuilt(old(nodes), nodes, skels)
      ensures forall i :: 0 <= i < lo ==> nodes[i] == old(nodes)[i]
      ensures kept == old(Kept(nodes, ns)) && elems == old(ShowAll(nodes, ss)) && SpellsAll(mem, built, elems)
      ensures built.None? <==> elems == []
      ensures KeepsEach(mem, xs, vs, ElementsOf(mem, built), level, keys)
      decreases |nodes| - lo, 3
    {
      hide Shaped, AllFit, Show, ShowAll, Rebuilt, AllMirror, Spells, SpellsAll, SpellsEach, Grew, Traced, KeepsEach, Lists;
      kept := DropRemoved(ns);
      var ys;
      ys, elems := Elems(kept, ss, lo, xs, vs, level);
      NothingSpelled(mem);
      built := None;
      if |kept| > 0 {
        ghost var had := mem;
        var at := Allocate(ys);
        built := Some(at);
        SpellsEachStill(had, mem, ys, elems);
        SpellsArray(mem, at, elems);
        KeepsEachStill(had, mem, xs, vs, ys, level, keys);
        GrewThen(old(mem), had, mem);
      }
      assert ElementsOf(mem, built) == ys;
    }

    // What the nodes of a list hold, built one by one.
    method Elems(kept: seq<nat>, ghost ss: seq<Skel>, ghost lo: nat, ghost xs: seq<Elem>, ghost vs: seq<Node>, ghost level: nat)
        returns (ys: seq<Elem>, ghost elems: seq<Node>)
      requires Stored() && Shaped(nodes, skels) && AllFit(nodes, skels) && kept == Kept(nodes, Numbers(ss))
      requires lo <= |nodes| && forall j :: 0 <= j < |ss| ==> IsPart(skels, ss[j]) && lo <= ss[j].n
      requires Traced() && Lists(docs, vals, ss, xs, vs) && forall j :: 0 <= j < |ss| ==> ss[j].level == level
      modifies this`mem, this`next, this`cells, this`nodes
      ensures Stored() && Grew(old(mem), mem) && Traced()
      ensures Shaped(nodes, skels) && AllFit(nodes, skels) && Rebuilt(old(nodes), nodes, skels)
      ensures forall i :: 0 <= i < lo ==> nodes[i] == old(nodes)[i]
      ensures elems == old(ShowAll(nodes, ss)) && |ys| == |elems| == |kept| && SpellsEach(mem, ys, elems)
      ensures KeepsEach(mem, xs, vs, ys, level, keys)
      decreases |nodes| - lo, 2
    {
      hide Shaped, AllFit, Show, ShowAll, Rebuilt, AllMirror, Spells, SpellsEach, Grew, Traced, Lists, KeepsEach, BuiltAt, Kept;
      SameLength(nodes, skels);
      RebuiltSelf(nodes, skels);
      GrewSelf(mem);
      NothingSpelled(mem);
      ys, elems := [], [];
      KeptArePast(nodes, skels, ss, lo);
      KeptLevels(nodes, skels, ss, level);
      for i := 0 to |kept|
        invariant |nodes| == |skels| == |old(nodes)| && |ys| == |elems| == i
        invariant Stored() && Grew(old(mem), mem) && SpellsEach(mem, ys, elems) && Traced()
        invariant Shaped(nodes, skels) && AllFit(nodes, skels) && Rebuilt(old(nodes), nodes, skels)
        invariant forall j :: 0 <= j < lo ==> nodes[j] == old(nodes)[j]
        invariant forall j :: 0 <= j < i ==> elems[j] == Show(old(nodes), skels[kept[j]])
        invariant forall j :: 0 <= j < i ==> BuiltAt(mem, docs, vals, kept[j], ys[j], level, keys)
      {
        ghost var before, had := nodes, mem;
        var y := ValueOf(kept[i]);
        GrewThen(old(mem), had, mem);
        SpellsEachStill(had, mem, ys, elems);
        BuiltStill(had, mem, docs, vals, kept, ys, level, keys);
        RebuiltThen(old(nodes), before, nodes, skels);
        IsItsPart(nodes, skels, kept[i]);
        ShowStays(old(nodes), nodes, skels, skels[kept[i]]);
        SpellsOneMore(mem, ys, elems, y, Show(nodes, skels[kept[i]]));
        ys, elems := ys + [y], elems + [Show(nodes, skels[kept[i]])];
      }
      ShowAllIsShows(old(nodes), skels, ss);
      NothingElse(old(nodes), nodes, skels, kept, ss);
      SameKept(old(nodes), nodes, skels, ss);
      RemovedAreKeyed(ss, xs, vs);
      BuiltKeeps(mem, nodes, docs, vals, ss, xs, vs, ys, level, keys);
    }

    // A node gone from a list was written.
    lemma RemovedAreKeyed(ss: seq<Skel>, xs: seq<Elem>, vs: seq<Node>)
      requires Stored() && Traced() && Lists(docs, vals, ss, xs, vs)
      ensures |ss| == |vs| && forall j :: 0 <= j < |ss| && IsRemoved(nodes, ss[j].n) ==> vs[j].key in keys
    {
      hide Traced, AllMirror, Spells;
      forall j | 0 <= j < |ss| && IsRemoved(nodes, ss[j].n) ensures vs[j].key in keys {
        assert StandsFor(docs, vals, ss[j].n, xs[j], vs[j]);
        TracedAt(ss[j].n);
      }
    }

    lemma ListAtGroups(n: nat)
      requires Stored() && Traced() && Shaped(nodes, skels) && n < |nodes| && AllFit(nodes, skels) && nodes[n].groups.stale
      ensures n < |docs| == |vals| == |skels|
      ensures Spells(mem, docs[n], vals[n]) && Reads(skels[n].level)
      ensures Lists(docs, vals, skels[n].groups, ElementsOf(mem, docs[n].groups), vals[n].groups)
      ensures forall j :: 0 <= j < |skels[n].groups| ==> skels[n].groups[j].level == skels[n].level + 1
    {
      hide Traced, Shaped, Lists, Spells, AllMirror, ListShows;
      SameLength(nodes, skels);
      TracedAt(n);
      HangsAt(nodes, skels, n);
      assert Fits(nodes, skels, n);
    }

    lemma ListAtOperations(n: nat)
      requires Stored() && Traced() && Shaped(nodes, skels) && n < |nodes|
      ensures n < |docs| == |vals| == |skels|
      ensures Spells(mem, docs[n], vals[n])
      ensures Lists(docs, vals, skels[n].operations, ElementsOf(mem, docs[n].operations), vals[n].operations)
      ensures forall j :: 0 <= j < |skels[n].operations| ==> skels[n].operations[j].level == skels[n].level + 1
    {
      hide Traced, Shaped, Lists, Spells, AllMirror;
      SameLength(nodes, skels);
      TracedAt(n);
      HangsAt(nodes, skels, n);
    }

    // A stale list of a node, built anew, keeps what it was read off.
    lemma BuiltGroupsKeeps(was: Memory, had: Nodes, n: nat, kept: seq<nat>, built: Slice, elems: seq<Node>)
      requires Stored() && Traced() && n < |nodes| && n < |had| && nodes[n] == had[n] && had[n].groups.stale
      requires n < |docs| == |vals| == |skels| && Grew(was, mem) && Spells(was, docs[n], vals[n])
      requires Reads(skels[n].level) && SpellsAll(mem, built, elems)
      requires KeepsEach(mem, ElementsOf(was, docs[n].groups), vals[n].groups, ElementsOf(mem, built), skels[n].level + 1, keys)
      ensures |cells| == |nodes| && Points(mem, cells[n].at)
      ensures MayHold(n, Deref(mem, cells[n].at).(groups := built), WithGroups(nodes[n], kept, elems))
    {
      hide Traced, AllMirror, Touched, KeepsEach, SpellsEach, Grew, Keeps;
      TracedAt(n);
      SpelledParts(was, docs[n], vals[n]);
      SameElements(was, mem, docs[n].groups, vals[n].groups);
      SpelledParts(mem, docs[n], vals[n]);
      KeepsBuilt(mem, docs[n].groups, vals[n].groups, built, skels[n].level + 1, keys);
    }

    lemma BuiltOperationsKeeps(was: Memory, had: Nodes, n: nat, kept: seq<nat>, built: Slice, elems: seq<Node>)
      requires Stored() && Traced() && n < |nodes| && n < |had| && nodes[n] == had[n] && had[n].operations.stale
      requires n < |docs| == |vals| == |skels| && Grew(was, mem) && Spells(was, docs[n], vals[n])
      requires SpellsAll(mem, built, elems)
      requires KeepsEach(mem, ElementsOf(was, docs[n].operations), vals[n].operations, ElementsOf(mem, built), skels[n].level + 1,
                         keys)
      ensures |cells| == |nodes| && Points(mem, cells[n].at)
      ensures MayHold(n, Deref(mem, cells[n].at).(operations := built), WithOperations(nodes[n], kept, elems))
    {
      hide Traced, AllMirror, Touched, KeepsEach, SpellsEach, Grew, Keeps;
      TracedAt(n);
      SpelledParts(was, docs[n], vals[n]);
      SameElements(was, mem, docs[n].operations, vals[n].operations);
      SpelledParts(mem, docs[n], vals[n]);
      KeepsBuilt(mem, docs[n].operations, vals[n].operations, built, skels[n].level + 1, keys);
    }

    method BuildGroups(n: nat)
      requires Stored() && Shaped(nodes, skels) && AllFit(nodes, skels) && n < |nodes| && nodes[n].groups.stale && Traced()
      modifies this`mem, this`next, this`cells, this`nodes
      ensures Stored() && Grew(old(mem), mem) && Traced()
      ensures Shaped(nodes, skels) && AllFit(nodes, skels) && Rebuilt(old(nodes), nodes, skels)
      ensures |nodes| == |old(nodes)| && forall i :: 0 <= i < n ==> nodes[i] == old(nodes)[i]
      ensures !nodes[n].groups.stale && nodes[n].operations.stale == old(nodes)[n].operations.stale
      decreases |nodes| - n, 0
    {
      hide Shaped, AllFit, Show, ShowAll, Rebuilt, Kept, AllMirror, Spells, SpellsAll, Grew, Traced, Lists, KeepsEach, MayHold;
      SameLength(nodes, skels);
      StaleListShows(nodes, skels, n);
      ChildrenArePast(nodes, skels, n);
      MirrorsAt(mem, cells, nodes, n);
      ListAtGroups(n);
      var ns := cells[n].groups.nodes;
      var kept, built;
      ghost var elems;
      kept, built, elems := Built(ns, skels[n].groups, n + 1, ElementsOf(mem, docs[n].groups), vals[n].groups, skels[n].level + 1);
      ghost var mid, had := nodes, mem;
      SameLength(mid, skels);
      StaysPut(old(nodes), mid, skels, n);
      NothingElse(old(nodes), mid, skels, ns, skels[n].groups);
      GroupsBuilt(mid, skels, n);
      MirrorsAt(mem, cells, nodes, n);
      var x := Deref(mem, cells[n].at);
      SpellsGroups(mem, x, nodes[n].value, built, elems);
      BuiltGroupsKeeps(old(mem), old(nodes), n, kept, built, elems);
      Hold(n, x.(groups := built), TreeList(kept, false), cells[n].operations, WithGroups(nodes[n], kept, elems));
      GrewThen(old(mem), had, mem);
      RebuiltThen(old(nodes), mid, nodes, skels);
      RebuiltShape(mid, nodes, skels);
    }

    method BuildOperations(n: nat)
      requires Stored() && Shaped(nodes, skels) && AllFit(nodes, skels) && n < |nodes| && nodes[n].operations.stale && Traced()
      modifies this`mem, this`next, this`cells, this`nodes
      ensures Stored() && Grew(old(mem), mem) && Traced()
      ensures Shaped(nodes, skels) && AllFit(nodes, skels) && Rebuilt(old(nodes), nodes, skels)
      ensures |nodes| == |old(nodes)| && forall i :: 0 <= i < n ==> nodes[i] == old(nodes)[i]
      ensures !nodes[n].operations.stale && nodes[n].groups.stale == old(nodes)[n].groups.stale
      decreases |nodes| - n, 0
    {
      hide Shaped, AllFit, Show, ShowAll, Rebuilt, Kept, AllMirror, Spells, SpellsAll, Grew, Traced, Lists, KeepsEach, MayHold;
      SameLength(nodes, skels);
      StaleListShows(nodes, skels, n);
      ChildrenArePast(nodes, skels, n);
      MirrorsAt(mem, cells, nodes, n);
      ListAtOperations(n);
      var ns := cells[n].operations.nodes;
      var kept, built;
      ghost var elems;
      kept, built, elems := Built(ns, skels[n].operations, n + 1, ElementsOf(mem, docs[n].operations), vals[n].operations, skels[n].level + 1);
      ghost var mid, had := nodes, mem;
      SameLength(mid, skels);
      StaysPut(old(nodes), mid, skels, n);
      NothingElse(old(nodes), mid, skels, ns, skels[n].operations);
      OperationsBuilt(mid, skels, n);
      MirrorsAt(mem, cells, nodes, n);
      var x := Deref(mem, cells[n].at);
      SpellsOperations(mem, x, nodes[n].value, built, elems);
      BuiltOperationsKeeps(old(mem), old(nodes), n, kept, built, elems);
      Hold(n, x.(operations := built), cells[n].groups, TreeList(kept, false), WithOperations(nodes[n], kept, elems));
      GrewThen(old(mem), had, mem);
      RebuiltThen(old(nodes), mid, nodes, skels);
      RebuiltShape(mid, nodes, skels);
    }

    // While reading, no node is removed and each has a skeleton.
    ghost predicate Reading()
      reads this`mem, this`next, this`cells, this`nodes, this`skels, this`byID
    {
      && Stored() && |skels| == |nodes| == |cells| && ParentFirst(nodes) && Keyed(nodes, byID) && AllBuilt(nodes)
      && forall i :: 0 <= i < |nodes| ==> !nodes[i].removed
    }

    /** Records the node at an element, with no list read yet. */
    method Add(place: Place, at: Ref, ghost v: Node, ghost level: nat) returns (n: nat)
      requires Reading() && (place.InServices? || place.parent < |nodes|)
      requires Points(mem, at) && Spells(mem, Deref(mem, at), v)
      modifies this`cells, this`nodes, this`skels, this`byID
      ensures Reading() && n == |old(nodes)|
      ensures nodes == old(nodes) + [TreeNode(place, v, TreeList([], false), TreeList([], false), false)]
      ensures skels == old(skels) + [Skel(n, level, [], [])]
      ensures PointsOn(old(cells), cells) && cells[n].at == at
    {
      hide Keyed, AllMirror, AllBuilt;
      SameCount(mem, cells, nodes);
      n := |cells|;
      ghost var t := TreeNode(place, v, TreeList([], false), TreeList([], false), false);
      var c := NodeCell(place, at, TreeList([], false), TreeList([], false), false);
      var key := Deref(mem, at).key;
      KeyedMore(nodes, byID, t);
      MirrorsMore(mem, cells, nodes, c, t);
      BuiltMore(nodes, t);
      byID := byID[key := IDsAt(byID, key) + [n]];
      cells := cells + [c];
      nodes := nodes + [t];
      skels := skels + [Skel(n, level, [], [])];
    }

    /** Reads the node v at an element and what is in it. */
    method IndexNode(at: Ref, ghost v: Node, place: Place, level: nat) returns (n: nat)
      requires Reading() && (place.InServices? || place.parent < |nodes|)
      requires place.InGroups? ==> Reads(skels[place.parent].level)
      requires Points(mem, at) && Spells(mem, Deref(mem, at), v)
      modifies this`cells, this`nodes, this`skels, this`byID
      ensures Reading() && n == |old(nodes)| < |nodes|
      ensures nodes[..n] == old(nodes) && skels[..n] == old(skels)
      ensures Good(nodes, skels, n, |nodes|)
      ensures skels[n].n == n && skels[n].level == level && nodes[n].place == place
      ensures Show(nodes, skels[n]) == v && Flatten(skels[n]) == Range(n, |nodes|)
      ensures PointsOn(old(cells), cells) && cells[n].at == at && AllLaid(mem, cells, skels, n)
      decreases v, 2
    {
      hide PointsOn, AllLaid, LaidOut, Keyed, Good, ShowAll, Show, FlattenAll, Flatten, PartsFrom, ReadAs, AllMirror, AllBuilt,
        Spells, SpellsAll;
      n := Add(place, at, v, level);
      ghost var begun, had, grown := cells, nodes, skels;
      IndexUnder(n, at, v, level);
      assert had[..n] == old(nodes) && grown[..n] == old(skels);
      PointsOnHas(begun, cells, n);
      PointsOnThen(old(cells), begun, cells);
    }

    // Reads what is in the node just recorded.
    method IndexUnder(n: nat, at: Ref, ghost v: Node, level: nat)
      requires Reading() && |nodes| == n + 1 && cells[n].at == at && skels[n].level == level
      requires nodes[n].value == v && (nodes[n].place.InGroups? ==> Reads(skels[nodes[n].place.parent].level))
      requires Points(mem, at) && Spells(mem, Deref(mem, at), v)
      modifies this`cells, this`nodes, this`skels, this`byID
      ensures Reading() && n < |nodes|
      ensures nodes[..n] == old(nodes)[..n] && skels[..n] == old(skels)[..n]
      ensures Good(nodes, skels, n, |nodes|)
      ensures skels[n].n == n && skels[n].level == level && nodes[n].place == old(nodes)[n].place
      ensures Show(nodes, skels[n]) == v && Flatten(skels[n]) == Range(n, |nodes|)
      ensures PointsOn(old(cells), cells) && AllLaid(mem, cells, skels, n)
      decreases v, 1
    {
      hide PointsOn, AllLaid, LaidOut, Keyed, Good, ShowAll, Show, FlattenAll, Flatten, PartsFrom, ReadAs, AllMirror, AllBuilt,
        Spells, SpellsAll;
      var x := Deref(mem, at);
      SpelledParts(mem, x, v);
      SpelledElement(mem, x.operations, v.operations);
      SpelledElement(mem, x.groups, v.groups);
      var ops, groups := [], [];
      ghost var oss, gss := [], [];
      NoneRead(nodes, skels, InOperations(n), level + 1, n + 1);
      NothingLaid(mem, cells, skels);
      NoneLaidOut(mem, cells, x.operations);
      PointsOnSelf(cells);
      if ElementsOf(mem, x.operations) != [] {
        ops, oss := IndexAll(x.operations, v.operations, InOperations(n), level + 1);
      }
      ghost var read, saw, halfway := nodes, skels, cells;
      PointsOnHas(old(cells), cells, n);
      NoneRead(nodes, skels, InGroups(n), level + 1, |nodes|);
      NoneLaidOut(mem, cells, x.groups);
      PointsOnSelf(cells);
      NothingLaid(mem, cells, skels);
      FirstOf(old(nodes)[..n], old(nodes), nodes, n);
      FirstOf(old(skels)[..n], old(skels), skels, n);
      if ElementsOf(mem, x.groups) != [] && Reads(level) {
        groups, gss := IndexAll(x.groups, v.groups, InGroups(n), level + 1);
      }
      HangBoth(n, v, level, groups, ops, gss, oss, read, saw, halfway, x);
      PointsOnThen(old(cells), halfway, cells);
      FirstOf(old(nodes)[..n], read[..n], nodes, n);
      FirstOf(old(skels)[..n], saw[..n], skels, n);
    }

    // Gives a node its lists, the operations read first.
    method HangBoth(n: nat, ghost v: Node, ghost level: nat, groups: seq<nat>, ops: seq<nat>, ghost gss: seq<Skel>,
        ghost oss: seq<Skel>, ghost read: Nodes, ghost saw: seq<Skel>, ghost halfway: seq<NodeCell>, ghost x: Elem)
      requires Reading() && n < |read| == |saw| == |halfway| <= |nodes| && nodes[..|read|] == read && skels[..|saw|] == saw
      requires Unremoved(read) && Good(read, saw, n + 1, |read|) && Good(nodes, skels, |read|, |nodes|)
      requires read[n].value == v && saw[n].level == level
      requires read[n].place.InGroups? ==> Reads(skels[read[n].place.parent].level)
      requires groups == Numbers(gss) && ops == Numbers(oss)
      requires ReadAs(read, saw, oss, v.operations, InOperations(n), level + 1, n + 1, |read|)
      requires if Reads(level) then ReadAs(nodes, skels, gss, v.groups, InGroups(n), level + 1, |read|, |nodes|)
               else gss == [] && |read| == |nodes|
      requires AllLaid(mem, halfway, saw, n + 1) && AllLaid(mem, cells, skels, |read|) && PointsOn(halfway, cells)
      requires LaidOut(mem, halfway, oss, x.operations) && (Reads(level) ==> LaidOut(mem, cells, gss, x.groups))
      requires Points(mem, halfway[n].at) && Deref(mem, halfway[n].at) == x
      modifies this`cells, this`nodes, this`skels
      ensures Reading() && |nodes| == |old(nodes)|
      ensures nodes[..n] == read[..n] && skels[..n] == saw[..n]
      ensures Good(nodes, skels, n, |nodes|)
      ensures skels[n].n == n && skels[n].level == level && nodes[n].place == read[n].place
      ensures Show(nodes, skels[n]) == v && Flatten(skels[n]) == Range(n, |nodes|)
      ensures PointsOn(halfway, cells) && AllLaid(mem, cells, skels, n)
    {
      hide PointsOn, AllLaid, LaidOut, Keyed, Good, ShowAll, Show, FlattenAll, Flatten, PartsFrom, ReadAs, AllMirror, AllBuilt;
      BothRead(read, saw, nodes, skels, oss, v.operations, n, level);
      AllLaidOn(mem, halfway, saw, cells, skels, n + 1);
      LaidOutOn(mem, halfway, cells, oss, x.operations);
      PointsOnHas(halfway, cells, n);
      FirstOf(read[..n], read, nodes, n);
      FirstOf(saw[..n], saw, skels, n);
      ghost var last := cells;
      Hang(n, v, level, groups, ops, gss, oss, |read|);
      PointsOnThen(halfway, last, cells);
    }

    // Gives a node the lists read of it.
    method Hang(n: nat, ghost v: Node, ghost level: nat, groups: seq<nat>, ops: seq<nat>, ghost gss: seq<Skel>,
        ghost oss: seq<Skel>, ghost mid: nat)
      requires Reading() && n < mid <= |nodes| && Good(nodes, skels, n + 1, |nodes|)
      requires nodes[n].value == v && skels[n].level == level
      requires nodes[n].place.InGroups? ==> Reads(skels[nodes[n].place.parent].level)
      requires groups == Numbers(gss) && ops == Numbers(oss)
      requires ReadAs(nodes, skels, oss, v.operations, InOperations(n), level + 1, n + 1, mid)
      requires if Reads(level) then ReadAs(nodes, skels, gss, v.groups, InGroups(n), level + 1, mid, |nodes|)
               else gss == [] && mid == |nodes|
      requires AllLaid(mem, cells, skels, n + 1) && Points(mem, cells[n].at)
      requires Reads(level) ==> LaidOut(mem, cells, gss, Deref(mem, cells[n].at).groups)
      requires LaidOut(mem, cells, oss, Deref(mem, cells[n].at).operations)
      modifies this`cells, this`nodes, this`skels
      ensures PointsOn(old(cells), cells) && AllLaid(mem, cells, skels, n)
      ensures Reading() && |nodes| == |old(nodes)|
      ensures nodes[..n] == old(nodes)[..n] && skels[..n] == old(skels)[..n]
      ensures Good(nodes, skels, n, |nodes|)
      ensures skels[n].n == n && skels[n].level == level && nodes[n].place == old(nodes)[n].place
      ensures Show(nodes, skels[n]) == v && Flatten(skels[n]) == Range(n, |nodes|)
    {
      hide Keyed, Good, ShowAll, Show, FlattenAll, Flatten, PartsFrom, ReadAs, AllMirror, AllBuilt, PointsOn, AllLaid, LaidOut;
      NodeRead(nodes, skels, n, v, nodes[n].place, level, oss, gss, mid);
      KeyedStays(nodes, nodes[n := Listed(nodes[n], groups, ops)], byID);
      BuiltPut(nodes, n, Listed(nodes[n], groups, ops));
      ghost var before, had := cells, skels;
      Note(n, TreeList(groups, false), TreeList(ops, false), false);
      skels := skels[n := Skel(n, level, gss, oss)];
      HungLaid(mem, before, had, cells, skels, n);
    }

    /** Reads the nodes of one slice. */
    method IndexAll(slice: Slice, ghost vs: seq<Node>, place: Place, level: nat) returns (ns: seq<nat>, ghost ss: seq<Skel>)
      requires Reading() && (place.InServices? || place.parent < |nodes|)
      requires place.InGroups? ==> Reads(skels[place.parent].level)
      requires SpellsAll(mem, slice, vs)
      modifies this`cells, this`nodes, this`skels, this`byID
      ensures Reading() && |old(nodes)| <= |nodes|
      ensures nodes[..|old(nodes)|] == old(nodes) && skels[..|old(nodes)|] == old(skels)
      ensures Good(nodes, skels, |old(nodes)|, |nodes|)
      ensures ns == Numbers(ss) && ReadAs(nodes, skels, ss, vs, place, level, |old(nodes)|, |nodes|)
      ensures PointsOn(old(cells), cells) && AllLaid(mem, cells, skels, |old(nodes)|) && LaidOut(mem, cells, ss, slice)
      decreases vs, 3
    {
      hide PointsOn, AllLaid, LaidOut, Keyed, Good, ShowAll, Show, FlattenAll, Flatten, PartsFrom, ReadAs, AllMirror, AllBuilt, Spells, SpellsAll;
      ns, ss := [], [];
      NoneRead(nodes, skels, place, level, |nodes|);
      SpelledElement(mem, slice, vs);
      PointsOnSelf(cells);
      NothingLaid(mem, cells, skels);
      SomeLaidNone(mem, cells, slice);
      for i := 0 to |ElementsOf(mem, slice)|
        invariant Reading() && |old(nodes)| <= |nodes|
        invariant nodes[..|old(nodes)|] == old(nodes) && skels[..|old(nodes)|] == old(skels)
        invariant Good(nodes, skels, |old(nodes)|, |nodes|)
        invariant ns == Numbers(ss) && ReadAs(nodes, skels, ss, vs[..i], place, level, |old(nodes)|, |nodes|)
        invariant PointsOn(old(cells), cells) && AllLaid(mem, cells, skels, |old(nodes)|)
        invariant |ss| == i && SomeLaid(mem, cells, ss, slice)
      {
        ghost var a, sa, ca := nodes, skels, cells;
        assert SpelledIn(mem, slice, i, vs[i]);
        var n := IndexNode(Ref(slice.value, i), vs[i], place, level);
        ReadOneMore(a, sa, nodes, skels, ss, vs[..i], place, level, |old(nodes)|, vs[i]);
        AllLaidOn(mem, ca, sa, cells, skels, |old(nodes)|);
        PointsOnThen(old(cells), ca, cells);
        SomeLaidMore(mem, ca, cells, ss, slice, skels[n]);
        ns, ss := ns + [n], ss + [skels[n]];
        assert vs[..i + 1] == vs[..i] + [vs[i]];
      }
      AllAreLaid(mem, cells, ss, slice);
      assert vs[..|vs|] == vs;
    }

    /** Reads the tree off the services, the first time it is needed. */
    method Index()
      requires Valid()
      modifies this
      ensures Valid() && read && Shown() == old(Shown()) && mem == old(mem) && slice == old(slice) && SameOrigin()
      ensures keys == old(keys) && (old(Untouched()) ==> Untouched())
    {
      hide Traced, AllBuilt, ShowAll, SpellsAll, AllMirror, Sound, Indexed;
      if !read {
        ReadServices();
        read := true;
      }
    }

    // Reads the services as they are.
    method ReadServices()
      requires SpellsAll(mem, slice, out) && (forall p :: p in mem ==> p < next)
      requires slice == origin && out == were && keys == {}
      modifies this`cells, this`nodes, this`skels, this`byID, this`roots, this`services, this`docs, this`vals
      ensures Stored() && Sound(nodes, skels, roots, services, out) && Indexed(nodes, byID, roots) && Traced()
      ensures ShowAll(nodes, roots) == out && !services.stale && AllBuilt(nodes)
    {
      hide Traced, AllLaid, LaidOut, PointsOn, AllBuilt, Keyed, Good, ShowAll, FlattenAll, ReadAs, SpellsAll, AllMirror, Sound, Indexed;
      NothingMirrored(mem);
      cells, byID := [], map[];
      nodes, skels := [], [];
      NothingKeyed();
      var ns: seq<nat>;
      ns, roots := IndexAll(slice, out, InServices, 0);
      services := TreeList(ns, false);
      AllRead(nodes, skels, roots, out, byID);
      Trace();
    }

    // Notes what each node was read off.
    ghost method Trace()
      requires Reading() && Sound(nodes, skels, roots, services, out) && AllLaid(mem, cells, skels, 0)
      requires LaidOut(mem, cells, roots, slice) && slice == origin && out == were && ShowAll(nodes, roots) == out
      requires SpellsAll(mem, slice, out) && !services.stale && keys == {}
      modifies this`docs, this`vals
      ensures Traced()
    {
      hide Traced, AllLaid, LaidOut, AllBuilt, Keyed, ShowAll, SpellsAll, AllMirror, Sound;
      docs, vals := ElemsOf(mem, cells), ValuesOf(nodes);
      Begins();
    }

    // The document's services are as they were.
    twostate predicate SameOrigin()
      reads this
    {
      origin == old(origin) && were == old(were)
    }

    lemma Begins()
      requires Reading() && Sound(nodes, skels, roots, services, out) && AllLaid(mem, cells, skels, 0)
      requires LaidOut(mem, cells, roots, slice) && slice == origin && out == were && ShowAll(nodes, roots) == out
      requires SpellsAll(mem, slice, out) && !services.stale && docs == ElemsOf(mem, cells) && vals == ValuesOf(nodes)
      ensures Traced()
    {
      hide Origin, AllKeep, Lists, Shaped, AllFit, AllLaid, LaidOut, AllMirror, SpellsAll, ShowAll, AllBuilt, Keyed, ListShows;
      TraceBegins(mem, cells, nodes, skels, docs, vals, keys);
      RootParts(nodes, skels, roots);
      ListsBegin(mem, cells, nodes, skels, docs, vals, roots, slice);
      KeepsItself(mem, slice, out, 0, keys);
    }

    // Decides Held, walking up from n.
    method IsHeld(n: nat) returns (held: bool)
      requires Stored() && ParentFirst(nodes) && n < |nodes|
      ensures held == Held(nodes, n)
    {
      hide AllMirror, Spells;
      var at: Option<nat> := Some(n);
      while at.Some?
        invariant at.Some? ==> at.value < |nodes|
        invariant Held(nodes, n) == (at.Some? ==> Held(nodes, at.value))
        decreases if at.Some? then at.value + 1 else 0
      {
        MirrorsAt(mem, cells, nodes, at.value);
        if cells[at.value].removed {
          return false;
        }
        at := if cells[at.value].place.InServices? then None else Some(cells[at.value].place.parent);
      }
      held := true;
    }

    // How many of ids the edit holds, and the last of them.
    method CountHeld(ids: seq<nat>) returns (found: nat, held: nat)
      requires Stored() && ParentFirst(nodes) && forall i :: 0 <= i < |ids| ==> ids[i] < |nodes|
      ensures held == |HeldIn(nodes, ids)| && (held == 1 ==> HeldIn(nodes, ids) == [found])
    {
      hide AllMirror;
      found, held := 0, 0;
      for i := 0 to |ids|
        invariant held == |HeldIn(nodes, ids[..i])|
        invariant held > 0 ==> HeldIn(nodes, ids[..i])[held - 1] == found
      {
        HeldInBoth(nodes, ids[..i], [ids[i]]);
        assert ids[..i + 1] == ids[..i] + [ids[i]];
        var h := IsHeld(ids[i]);
        if h {
          found, held := ids[i], held + 1;
        }
      }
      assert ids[..|ids|] == ids;
    }

    /** How many nodes the edit holds at key, and the one it holds when it is one. */
    method Find(key: Key) returns (found: nat, held: nat)
      requires Valid() && read
      ensures held == |At(AllVisible(Shown(), 0), key)|
      ensures held == 1 ==> ParentFirst(nodes) && OnlyAt(nodes, key, found)
      ensures held == 1 ==> found < |skels| == |nodes| && Read(Shown(), key) == Some(Show(nodes, skels[found]))
    {
      hide Show, ShowAll, FlattenAll, Shaped, AllFit, Rooted, ListShows, HeldIn, KeyedIn, Indexed, OnlyAt, AllMirror, SpellsAll,
        Traced;
      SameLength(nodes, skels);
      IDsAreKeyed(nodes, byID, roots, key);
      FoundIsShown(nodes, skels, roots, key);
      found, held := CountHeld(if key in byID then byID[key] else []);
      if held == 1 {
        assert [found][0] == found;
        assert At(AllVisible(Shown(), 0), key) == Shows(nodes, skels, [found]);
        FoundIsOnly(nodes, byID, roots, key, found);
      }
    }

    /** The node the edit holds at key, when it holds one.  Reading it changes nothing
        the edit holds, and writes no array. */
    method Value(key: Key) returns (x: Option<Elem>)
      requires Valid()
      modifies this
      ensures Valid() && Shown() == old(Shown()) && Grew(old(mem), mem) && slice == old(slice)
      ensures SpellsOne(mem, x, Read(Shown(), key))
      ensures SameOrigin() && keys == old(keys) && (old(Untouched()) ==> Untouched() && mem == old(mem))
    {
      hide Traced, IsKept, AllBuilt, Show, ShowAll, Indexed, Sound, Rebuilt, OnlyAt, AllMirror, Spells, SpellsAll, Grew;
      GrewSelf(mem);
      Index();
      var n, held := Find(key);
      if held != 1 {
        return None;
      }
      ghost var was := nodes;
      SoundTree(nodes, skels, roots, services, out);
      IsItsPart(nodes, skels, n);
      var value := ValueOf(n);
      SpellsAllStill(old(mem), mem, slice, out);
      ShowStays(was, nodes, skels, skels[n]);
      SoundRebuilt(was, nodes, skels, roots, services, out, byID);
      x := Some(value);
    }

    /** Replaces what the one node at key holds of its own as change leaves it, unless
        change is refused.  What it held stays where it was. */
    method Update(key: Key, change: Change) returns (taken: bool)
      requires Valid()
      modifies this
      ensures Valid() && Shown() == Updated(old(Shown()), key, change) && Grew(old(mem), mem) && slice == old(slice)
      ensures old(Untouched()) && !taken ==> Untouched() && mem == old(mem)
      ensures SameOrigin() && keys == old(keys) + if taken then {key} else {}
      ensures taken == (Read(old(Shown()), key).Some? && change(Read(old(Shown()), key).value.data).Some?)
    {
      hide Traced, AllBuilt, Show, ShowAll, Indexed, Sound, OnlyAt, AllMirror, Spells, SpellsAll, Grew;
      GrewSelf(mem);
      Index();
      var n, held := Find(key);
      if held != 1 {
        return false;
      }
      MirrorsAt(mem, cells, nodes, n);
      var x := Deref(mem, cells[n].at);
      SpelledParts(mem, x, nodes[n].value);
      var data := change(x.data);
      ShowHas(nodes, skels[n]);
      SoundTree(nodes, skels, roots, services, out);
      IsItsPart(nodes, skels, n);
      if data.None? {
        return false;
      }
      SpellsData(mem, x, nodes[n].value, data.value);
      OnlyIsAt(nodes, key, n);
      Rewrite(n, x.(data := data.value), key);
      SpellsAllStill(old(mem), mem, slice, out);
      taken := true;
    }

    // n is at key, and in the tree.
    ghost predicate IsOnly(n: nat, key: Key)
      reads this`nodes
    {
      n < |nodes| && nodes[n].value.key == key
    }

    // x is what n holds but for its own data.
    ghost predicate SameButData(n: nat, x: Elem)
      reads this`mem, this`cells
    {
      n < |cells| && x == ElemOf(mem, cells[n]).(data := x.data)
    }

    lemma WritesKey(n: nat, key: Key)
      requires Stored() && Traced() && IsOnly(n, key)
      ensures n < |vals| == |docs| == |skels| == |nodes| && vals[n].key == key
    {
      SkelsAreAll();
      hide Traced, AllMirror, ListKeeps, Spells, Lists;
      TracedAt(n);
    }

    lemma SkelsAreAll()
      requires Traced()
      ensures |docs| == |vals| == |skels| == |nodes| == |cells|
    {}

    // One key more may be written.
    twostate lemma MoreKeys(key: Key)
      requires old(Traced()) && keys == old(keys) + {key}
      requires mem == old(mem) && cells == old(cells) && nodes == old(nodes) && skels == old(skels) && roots == old(roots)
      requires docs == old(docs) && vals == old(vals) && services == old(services) && slice == old(slice)
      requires origin == old(origin) && were == old(were)
      ensures Traced()
    {
      hide Origin, AllKeep, Lists, ListKeeps, SpellsAll;
      AllKeepMore(mem, cells, nodes, docs, vals, skels, old(keys), keys);
      ListKeepsMore(services.stale, mem, origin, were, slice, 0, old(keys), keys);
    }

    lemma DataKeeps(n: nat, x: Elem)
      requires Stored() && Traced() && n < |nodes| && SameButData(n, x)
      ensures MayHold(n, x, nodes[n].(value := nodes[n].value.(data := x.data)))
    {
      hide Traced, AllMirror, ListKeeps, Spells, Lists;
      TracedAt(n);
    }

    // Every list a write at n makes stale is one the keys reach.
    lemma PathsTouched(n: nat)
      requires Traced() && Shaped(nodes, skels) && Rooted(nodes, skels, roots) && Indexed(nodes, byID, roots)
      requires n < |vals| && n < |nodes| && vals[n].key in keys
      ensures ParentFirst(nodes) && forall k :: OnPath(nodes, n, k) ==> TouchedAt(vals, were, nodes, skels, k, keys)
    {
      hide Shaped, Rooted, AllKeep, Origin, Lists, OnPath, TouchedAt, FlattenAll, Keyed, SpellsAll, ListKeeps;
      SameLength(nodes, skels);
      forall k | OnPath(nodes, n, k) ensures TouchedAt(vals, were, nodes, skels, k, keys) {
        PathIsTouched(mem, docs, vals, nodes, skels, roots, ElementsOf(mem, origin), were, n, k, keys);
      }
    }

    // Holds x at n, which is as it was but for its own data.
    method Rewrite(n: nat, x: Elem, ghost key: Key)
      requires Stored() && Sound(nodes, skels, roots, services, out) && Indexed(nodes, byID, roots)
      requires Shaped(nodes, skels) && Rooted(nodes, skels, roots) && OnlyAt(nodes, key, n) && n < |nodes|
      requires Spells(mem, x, nodes[n].value.(data := x.data))
      requires Traced() && IsOnly(n, key) && SameButData(n, x)
      modifies this`mem, this`next, this`cells, this`nodes, this`services, this`keys
      ensures Stored() && Sound(nodes, skels, roots, services, out) && Indexed(nodes, byID, roots)
      ensures Traced() && keys == old(keys) + {key}
      ensures Grew(old(mem), mem) && ShowAll(nodes, roots) == AllChanged(old(ShowAll(nodes, roots)), key, x.data, 0)
    {
      hide Show, ShowAll, Indexed, Sound, OnlyAt, AllMirror, Spells, SpellsAll, Grew, AllChanged, Traced, MayHold, TouchedAt, OnPath,
        Shaped, Rooted;
      SameLength(nodes, skels);
      WritesKey(n, key);
      keys := keys + {key};
      MoreKeys(key);
      DataKeeps(n, x);
      PathsTouched(n);
      ghost var was, list := nodes, services;
      ghost var put := nodes[n].(value := nodes[n].value.(data := x.data));
      MirrorsAt(mem, cells, nodes, n);
      Hold(n, x, cells[n].groups, cells[n].operations, put);
      StillTouched(vals, were, was, nodes, skels, n, keys);
      Touch(n);
      WrittenByTouch(was, was[n := put], nodes, list, services, n);
      SoundWritten(was, list, nodes, services, skels, roots, n, out, byID);
      ShowAllRewrittenRoots(was, nodes, skels, roots, key, n, x.data);
    }

    /** Removes the one node at key, with what it holds. */
    method Remove(key: Key) returns (taken: bool)
      requires Valid()
      modifies this
      ensures Valid() && Shown() == Removed(old(Shown()), key) && mem == old(mem) && slice == old(slice)
      ensures old(Untouched()) && !taken ==> Untouched()
      ensures SameOrigin() && keys == old(keys) + if taken then {key} else {}
      ensures taken == Read(old(Shown()), key).Some?
    {
      hide Traced, AllBuilt, Show, ShowAll, Indexed, Sound, OnlyAt, AllMirror, Spells, SpellsAll;
      Index();
      var n, held := Find(key);
      if held != 1 {
        return false;
      }
      SoundTree(nodes, skels, roots, services, out);
      OnlyIsAt(nodes, key, n);
      Drop(n, key);
      taken := true;
    }

    // Removes node n.
    method Drop(n: nat, ghost key: Key)
      requires Stored() && Sound(nodes, skels, roots, services, out) && Indexed(nodes, byID, roots)
      requires Shaped(nodes, skels) && Rooted(nodes, skels, roots) && OnlyAt(nodes, key, n) && n < |nodes|
      requires Traced() && IsOnly(n, key)
      modifies this`cells, this`nodes, this`services, this`keys
      ensures Stored() && Sound(nodes, skels, roots, services, out) && Indexed(nodes, byID, roots)
      ensures Traced() && keys == old(keys) + {key}
      ensures ShowAll(nodes, roots) == AllWithout(old(ShowAll(nodes, roots)), key, 0)
    {
      hide Show, ShowAll, Indexed, Sound, OnlyAt, AllMirror, Spells, AllWithout, Traced, MayHold, TouchedAt, OnPath, Shaped, Rooted,
        NoteKeeps;
      SameLength(nodes, skels);
      WritesKey(n, key);
      keys := keys + {key};
      MoreKeys(key);
      PathsTouched(n);
      ghost var was, list := nodes, services;
      MirrorsAt(mem, cells, nodes, n);
      DropKeeps(n);
      Note(n, cells[n].groups, cells[n].operations, true);
      StillTouched(vals, were, was, nodes, skels, n, keys);
      Touch(n);
      WrittenByTouch(was, was[n := was[n].(removed := true)], nodes, list, services, n);
      SoundWritten(was, list, nodes, services, skels, roots, n, out, byID);
      ShowAllDroppedRoots(was, nodes, skels, roots, key, n);
    }

    lemma DropKeeps(n: nat)
      requires Stored() && Traced() && n < |nodes| && n < |vals| && vals[n].key in keys
      ensures NoteKeeps(n, nodes[n].groups, nodes[n].operations, true)
    {
      hide Traced, AllMirror, ListKeeps, Spells, Lists;
      TracedAt(n);
    }

    lemma TopKeeps()
      requires Traced() && Rooted(nodes, skels, roots)
      ensures Lists(docs, vals, roots, ElementsOf(mem, origin), were) && SpellsAll(mem, origin, were)
      ensures ListKeeps(services.stale, mem, origin, were, slice, 0, keys)
      ensures forall j :: 0 <= j < |roots| ==> roots[j].level == 0
    {
      hide Origin, AllKeep, Lists, SpellsAll, ListKeeps;
    }

    // The services, built anew, keep the document's.
    lemma TopBuilt(was: Memory, built: Slice, elems: seq<Node>)
      requires Traced() && services.stale && Grew(was, mem) && SpellsAll(was, origin, were) && SpellsAll(mem, built, elems)
      requires KeepsEach(mem, ElementsOf(was, origin), were, ElementsOf(mem, built), 0, keys)
      ensures Origin(mem, docs, vals, skels) && AllKeep(mem, cells, nodes, docs, vals, skels, keys)
      ensures Lists(docs, vals, roots, ElementsOf(mem, origin), were) && SpellsAll(mem, origin, were)
      ensures Keeps(mem, origin, were, built, 0, keys)
    {
      hide Origin, AllKeep, Lists, Keeps, KeepsEach, Touched, Grew, SpellsEach;
      SameElements(was, mem, origin, were);
      KeepsBuilt(mem, origin, were, built, 0, keys);
    }

    /** One call of an edit. */
    method Do(call: Call) returns (answer: Option<Elem>, wrote: bool)
      requires Valid()
      modifies this
      ensures Valid() && Shown() == After(old(Shown()), call) && Grew(old(mem), mem) && slice == old(slice)
      ensures SpellsOne(mem, answer, AnswerOf(old(Shown()), call)) && wrote == Writes(old(Shown()), call)
      ensures SameOrigin() && keys == old(keys) + if wrote then {call.key} else {}
      ensures old(Untouched()) && !wrote ==> Untouched() && mem == old(mem)
    {
      hide Traced, AllBuilt, Show, ShowAll, Indexed, Sound, AllMirror, Spells, SpellsAll, Grew, Updated, Removed, Read;
      answer, wrote := None, false;
      GrewSelf(mem);
      match call
      case ReadAt(key) => answer := Value(key);
      case UpdateAt(key, change) => wrote := Update(key, change);
      case RemoveAt(key) => wrote := Remove(key);
    }

    /** Builds the slice of services handed over, where a write was taken. */
    method Settle()
      requires Valid()
      modifies this
      ensures Valid() && Shown() == old(Shown()) && out == Shown() && Grew(old(mem), mem)
      ensures SpellsAll(mem, slice, Shown())
      ensures old(Untouched()) ==> mem == old(mem) && slice == old(slice)
      ensures SameOrigin() && keys == old(keys) && Keeps(mem, origin, were, slice, 0, keys)
    {
      hide Traced, Keeps, Lists, AllBuilt, Show, ShowAll, Indexed, Sound, AllMirror, SpellsAll, Grew;
      GrewSelf(mem);
      if !read {
        KeepsItself(mem, slice, out, 0, keys);
        return;
      }
      SoundTree(nodes, skels, roots, services, out);
      TopKeeps();
      if services.stale {
        BuildServices();
        TopKeeps();
      } else {
        ShownAsOut(nodes, skels, roots, services, out);
      }
    }

    method BuildServices()
      requires Stored() && Sound(nodes, skels, roots, services, out) && Indexed(nodes, byID, roots) && Traced() && services.stale
      modifies this`mem, this`next, this`cells, this`nodes, this`slice, this`services, this`out
      ensures Stored() && Sound(nodes, skels, roots, services, out) && Indexed(nodes, byID, roots) && Traced()
      ensures out == ShowAll(nodes, roots) == old(ShowAll(nodes, roots)) && !services.stale
      ensures Grew(old(mem), mem) && SpellsAll(mem, slice, out) && Rooted(nodes, skels, roots)
    {
      hide Show, ShowAll, Indexed, Rebuilt, Shaped, AllFit, Rooted, AllMirror, SpellsAll, Grew, Traced, Keeps, KeepsEach, Lists,
        Sound, ListShows;
      ghost var was := nodes;
      SoundTree(nodes, skels, roots, services, out);
      RootParts(nodes, skels, roots);
      TopKeeps();
      KeptAgree(nodes, services, out, roots);
      var kept, built;
      ghost var elems;
      kept, built, elems := Built(services.nodes, roots, 0, ElementsOf(mem, origin), were, 0);
      RebuiltHas(was, nodes, skels);
      TopBuilt(old(mem), built, elems);
      PutServices(kept, built, elems, was);
    }

    // Hands over the services just built.
    method PutServices(kept: seq<nat>, built: Slice, ghost elems: seq<Node>, ghost was: Nodes)
      requires Stored() && Sound(was, skels, roots, services, out) && Indexed(was, byID, roots) && Rebuilt(was, nodes, skels)
      requires |nodes| == |skels| && AllFit(nodes, skels) && kept == Kept(was, services.nodes) && elems == ShowAll(was, roots)
      requires SpellsAll(mem, built, elems) && Keeps(mem, origin, were, built, 0, keys)
      requires Origin(mem, docs, vals, skels) && AllKeep(mem, cells, nodes, docs, vals, skels, keys)
      requires Lists(docs, vals, roots, ElementsOf(mem, origin), were) && SpellsAll(mem, origin, were)
      modifies this`slice, this`services, this`out
      ensures Stored() && Sound(nodes, skels, roots, services, out) && Indexed(nodes, byID, roots) && Traced()
      ensures out == elems == ShowAll(nodes, roots) && !services.stale
      ensures SpellsAll(mem, slice, out) && Rooted(nodes, skels, roots)
    {
      hide Show, ShowAll, Indexed, Rebuilt, Shaped, AllFit, Rooted, AllMirror, SpellsAll, Traced, Keeps, Lists, Sound, ListShows,
        Origin, AllKeep, Kept;
      SettledIsSound(was, nodes, skels, roots, services, kept, elems, out, byID);
      slice, services, out := built, TreeList(kept, false), elems;
      IsTraced();
      SoundTree(nodes, skels, roots, services, out);
    }
  }

  // ----- whole edits -----

  /** The services an eager edit holds after these calls. */
  function Edited(services: seq<Node>, calls: seq<Call>): seq<Node> {
    if calls == [] then services else After(Edited(services, calls[..|calls| - 1]), calls[|calls| - 1])
  }

  /** What the i-th call reads, nothing for one that writes. */
  function Answer(services: seq<Node>, calls: seq<Call>, i: nat): Option<Node>
    requires i < |calls|
  {
    AnswerOf(Edited(services, calls[..i]), calls[i])
  }

  // The answers so far are those of the eager edit, as they stand in memory.
  ghost predicate Answered(mem: Memory, services: seq<Node>, calls: seq<Call>, answers: seq<Option<Elem>>) {
    && |answers| <= |calls|
    && forall i :: 0 <= i < |answers| ==> SpellsOne(mem, answers[i], Answer(services, calls, i))
  }

  lemma NoneAnswered(mem: Memory, services: seq<Node>, calls: seq<Call>)
    ensures Answered(mem, services, calls, [])
  {}

  // What was read stays as it was, and one answer more is as it should be.
  lemma AnsweredMore(was: Memory, mem: Memory, services: seq<Node>, calls: seq<Call>, answers: seq<Option<Elem>>,
      answer: Option<Elem>)
    requires |answers| < |calls| && Answered(was, services, calls, answers) && Grew(was, mem)
    requires SpellsOne(mem, answer, Answer(services, calls, |answers|))
    ensures Answered(mem, services, calls, answers + [answer])
  {
    hide Answer, SpellsOne, Grew;
    forall i | 0 <= i < |answers| ensures SpellsOne(mem, answers[i], Answer(services, calls, i)) {
      SpellsOneStill(was, mem, answers[i], Answer(services, calls, i));
    }
  }

  lemma AnsweredStill(was: Memory, mem: Memory, services: seq<Node>, calls: seq<Call>, answers: seq<Option<Elem>>)
    requires Answered(was, services, calls, answers) && Grew(was, mem)
    ensures Answered(mem, services, calls, answers)
  {
    hide Answer, SpellsOne, Grew;
    forall i | 0 <= i < |answers| ensures SpellsOne(mem, answers[i], Answer(services, calls, i)) {
      SpellsOneStill(was, mem, answers[i], Answer(services, calls, i));
    }
  }

  predicate Taken(services: seq<Node>, calls: seq<Call>, i: nat)
    requires i < |calls|
  {
    Writes(Edited(services, calls[..i]), calls[i])
  }

  /** The IDs written in these calls. */
  function TakenKeys(services: seq<Node>, calls: seq<Call>): set<Key> {
    if calls == [] then {}
    else
      var last := |calls| - 1;
      TakenKeys(services, calls[..last]) + if Taken(services, calls, last) then {calls[last].key} else {}
  }

  lemma NoneTaken(services: seq<Node>, calls: seq<Call>)
    ensures TakenKeys(services, calls[..0]) == {}
  {}

  lemma TakenMore(services: seq<Node>, calls: seq<Call>, i: nat)
    requires i < |calls|
    ensures TakenKeys(services, calls[..i + 1]) ==
      TakenKeys(services, calls[..i]) + if Taken(services, calls, i) then {calls[i].key} else {}
  {
    hide Edited, Read;
    assert calls[..i + 1][..i] == calls[..i];
  }

  /** Whatever reads, updates and removals are made of services, in whatever order, each
      read and the services handed over at the end are those of the eager edit.  No array
      of the edited document is written, nor any a read returned: at the end each read
      still spells what it did.  A slice with no node under it at an ID written is the very
      slice it was, at every depth of the services handed over; and where no write was taken
      nothing was allocated. */
  method EditServices(mem: Memory, next: nat, slice: Slice, ghost services: seq<Node>, calls: seq<Call>)
      returns (after: Memory, out: Slice, answers: seq<Option<Elem>>)
    requires SpellsAll(mem, slice, services) && forall p :: p in mem ==> p < next
    ensures Grew(mem, after) && SpellsAll(after, out, Edited(services, calls))
    ensures |answers| == |calls| && Answered(after, services, calls, answers)
    ensures Keeps(after, slice, services, out, 0, TakenKeys(services, calls))
    ensures (forall i :: 0 <= i < |calls| ==> !Taken(services, calls, i)) ==> out == slice && after == mem
  {
    hide Keeps, TakenKeys, After, AnswerOf, Writes, Answered, Grew, SpellsAll, Spells;
    var tree := new ServiceTree(mem, next, slice, services);
    answers := [];
    NoneAnswered(mem, services, calls);
    GrewSelf(mem);
    NoneTaken(services, calls);
    for i := 0 to |calls|
      invariant fresh(tree) && tree.Valid() && tree.Shown() == Edited(services, calls[..i]) && Grew(mem, tree.mem)
      invariant |answers| == i && Answered(tree.mem, services, calls, answers)
      invariant (forall j :: 0 <= j < i ==> !Taken(services, calls, j)) ==>
        tree.Untouched() && tree.slice == slice && tree.mem == mem
      invariant tree.origin == slice && tree.were == services && tree.keys == TakenKeys(services, calls[..i])
    {
      assert calls[..i + 1][..i] == calls[..i];
      ghost var was := tree.mem;
      GrewSelf(was);
      var answer, _ := tree.Do(calls[i]);
      TakenMore(services, calls, i);
      GrewThen(mem, was, tree.mem);
      AnsweredMore(was, tree.mem, services, calls, answers, answer);
      answers := answers + [answer];
    }
    assert calls[..|calls|] == calls;
    ghost var was := tree.mem;
    tree.Settle();
    GrewThen(mem, was, tree.mem);
    AnsweredStill(was, tree.mem, services, calls, answers);
    out, after := tree.slice, tree.mem;
  }
}
