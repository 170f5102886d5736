/** A document's services, with the operation groups and operations in them, and what
    an edit does to them at once: the eager form the edit's lazy tree is held to. */
module Services {
  import opened Values

  const MAX_GROUP_DEPTH: nat := 128

  datatype Class = AService | AGroup | AnOperation

  datatype Key = Key(kind: Class, id: string)

  /** A service, group or operation: what it holds of its own, and the groups and the
      operations in it.  A service holds no operation, and an operation holds neither. */
  datatype Node = Node(key: Key, data: string, groups: seq<Node>, operations: seq<Node>)

  // Whether an edit reads the groups of a node so many levels below the document.
  predicate Reads(level: nat) {
    level <= MAX_GROUP_DEPTH
  }

  /** What an edit can name in node: the node, then its operations, then its groups,
      none past the cap. */
  function Visible(node: Node, level: nat): seq<Node> {
    [node] + AllVisible(node.operations, level + 1) + if Reads(level) then AllVisible(node.groups, level + 1) else []
  }

  function AllVisible(nodes: seq<Node>, level: nat): seq<Node> {
    if nodes == [] then [] else Visible(nodes[0], level) + AllVisible(nodes[1..], level)
  }

  function At(nodes: seq<Node>, key: Key): seq<Node> {
    if nodes == [] then []
    else (if nodes[0].key == key then [nodes[0]] else []) + At(nodes[1..], key)
  }

  /** The node services hold at key, if they hold just one there. */
  function Read(services: seq<Node>, key: Key): Option<Node> {
    var found := At(AllVisible(services, 0), key);
    if |found| == 1 then Some(found[0]) else None
  }

  // node, with what is its own replaced wherever it or a node in it is at key.
  function Changed(node: Node, key: Key, data: string, level: nat): Node {
    Node(node.key, if node.key == key then data else node.data,
         if Reads(level) then AllChanged(node.groups, key, data, level + 1) else node.groups,
         AllChanged(node.operations, key, data, level + 1))
  }

  function AllChanged(nodes: seq<Node>, key: Key, data: string, level: nat): seq<Node> {
    if nodes == [] then [] else [Changed(nodes[0], key, data, level)] + AllChanged(nodes[1..], key, data, level)
  }

  // node, without any node in it at key.
  function Without(node: Node, key: Key, level: nat): Node {
    Node(node.key, node.data,
         if Reads(level) then AllWithout(node.groups, key, level + 1) else node.groups,
         AllWithout(node.operations, key, level + 1))
  }

  function AllWithout(nodes: seq<Node>, key: Key, level: nat): seq<Node> {
    if nodes == [] then []
    else (if nodes[0].key == key then [] else [Without(nodes[0], key, level)]) + AllWithout(nodes[1..], key, level)
  }

  /** What a change makes of a node's own, or nothing for one refused. */
  type Change = string -> Option<string>

  /** The services an update leaves: the one node at key as change leaves it, and the
      rest as they are.  It is refused at a key held by none, or by several. */
  function Updated(services: seq<Node>, key: Key, change: Change): seq<Node> {
    match Read(services, key)
    case None => services
    case Some(n) =>
      match change(n.data)
      case None => services
      case Some(data) => AllChanged(services, key, data, 0)
  }

  /** The services a removal leaves. */
  function Removed(services: seq<Node>, key: Key): seq<Node> {
    if Read(services, key).Some? then AllWithout(services, key, 0) else services
  }

  // ----- what an edit leaves alone -----

  /** What each node is called and holds of its own. */
  function Own(nodes: seq<Node>): seq<(Key, string)> {
    seq(|nodes|, i requires 0 <= i < |nodes| => (nodes[i].key, nodes[i].data))
  }

  function Rewrite(owns: seq<(Key, string)>, key: Key, data: string): seq<(Key, string)> {
    seq(|owns|, i requires 0 <= i < |owns| => if owns[i].0 == key then (key, data) else owns[i])
  }

  lemma {:induction false} ChangedOwn(node: Node, key: Key, data: string, level: nat)
    ensures Own(Visible(Changed(node, key, data, level), level)) == Rewrite(Own(Visible(node, level)), key, data)
    decreases node, 1
  {
    var c := Changed(node, key, data, level);
    if node.operations != [] {
      AllChangedOwn(node.operations, key, data, level + 1);
    }
    if node.groups != [] {
      AllChangedOwn(node.groups, key, data, level + 1);
    }
    OwnParts(node, key, data, level);
    OwnParts(c, key, data, level);
  }

  function GroupsSeen(node: Node, level: nat): seq<Node> {
    if Reads(level) then AllVisible(node.groups, level + 1) else []
  }

  lemma OwnParts(node: Node, key: Key, data: string, level: nat)
    ensures var ops, groups := AllVisible(node.operations, level + 1), GroupsSeen(node, level);
      && Own(Visible(node, level)) == [(node.key, node.data)] + Own(ops) + Own(groups)
      && Rewrite(Own(Visible(node, level)), key, data)
         == [(node.key, if node.key == key then data else node.data)] + Rewrite(Own(ops), key, data) + Rewrite(Own(groups), key, data)
  {
    var ops, groups := AllVisible(node.operations, level + 1), GroupsSeen(node, level);
    assert Visible(node, level) == [node] + ops + groups;
    hide Visible, AllVisible, GroupsSeen;
    assert Own([node] + ops + groups) == [(node.key, node.data)] + Own(ops) + Own(groups);
    RewriteThree((node.key, node.data), Own(ops), Own(groups), key, data);
  }

  lemma RewriteThree(own: (Key, string), a: seq<(Key, string)>, b: seq<(Key, string)>, key: Key, data: string)
    ensures Rewrite([own] + a + b, key, data)
         == [if own.0 == key then (key, data) else own] + Rewrite(a, key, data) + Rewrite(b, key, data)
  {}

  lemma KeyParts(node: Node, level: nat)
    ensures Keys(Visible(node, level)) == [node.key] + Keys(AllVisible(node.operations, level + 1)) + Keys(GroupsSeen(node, level))
  {
    var ops, groups := AllVisible(node.operations, level + 1), GroupsSeen(node, level);
    assert Visible(node, level) == [node] + ops + groups;
    hide Visible, AllVisible, GroupsSeen;
  }

  lemma {:induction false} AllChangedOwn(nodes: seq<Node>, key: Key, data: string, level: nat)
    ensures Own(AllVisible(AllChanged(nodes, key, data, level), level))
         == Rewrite(Own(AllVisible(nodes, level)), key, data)
    decreases nodes, 0
  {
    hide Visible, Changed;
    if nodes != [] {
      ChangedOwn(nodes[0], key, data, level);
      AllChangedOwn(nodes[1..], key, data, level);
      var a, b := Visible(nodes[0], level), AllVisible(nodes[1..], level);
      var c := AllChanged(nodes, key, data, level);
      assert c[1..] == AllChanged(nodes[1..], key, data, level);
      var x, y := Visible(c[0], level), AllVisible(c[1..], level);
      assert Own(x + y) == Own(x) + Own(y);
      assert Rewrite(Own(a + b), key, data) == Rewrite(Own(a), key, data) + Rewrite(Own(b), key, data);
    }
  }

  /** An update taken keeps every name in its place, and what every node but the one
      at key holds of its own; that node then holds what the change left. */
  lemma UpdateChangesOne(services: seq<Node>, key: Key, change: Change)
    requires Read(services, key).Some? && change(Read(services, key).value.data).Some?
    ensures OwnChanged(AllVisible(services, 0), AllVisible(Updated(services, key, change), 0), key,
                       change(Read(services, key).value.data).value)
  {
    var data := change(Read(services, key).value.data).value;
    AllChangedOwn(services, key, data, 0);
    var was, now := AllVisible(services, 0), AllVisible(Updated(services, key, change), 0);
    assert |Own(now)| == |Own(was)|;
    forall i | 0 <= i < |was|
      ensures now[i].key == was[i].key && now[i].data == if was[i].key == key then data else was[i].data
    {
      assert Own(now)[i] == Rewrite(Own(was), key, data)[i];
    }
  }

  predicate OwnChanged(was: seq<Node>, now: seq<Node>, key: Key, data: string) {
    && |now| == |was|
    && forall i :: 0 <= i < |was| ==> (now[i].key == was[i].key && now[i].data == if was[i].key == key then data else was[i].data)
  }

  function Keys(nodes: seq<Node>): seq<Key> {
    seq(|nodes|, i requires 0 <= i < |nodes| => nodes[i].key)
  }

  lemma {:induction false} WithoutKeys(node: Node, key: Key, level: nat)
    ensures multiset(Keys(Visible(Without(node, key, level), level))) <= multiset(Keys(Visible(node, level)))
    ensures node.key != key ==> key !in Keys(Visible(Without(node, key, level), level))
    decreases node, 1
  {
    hide Visible, AllVisible, AllWithout, Own, Rewrite;
    NothingWithout(key, level + 1);
    var c := Without(node, key, level);
    if node.operations != [] {
      AllWithoutKeys(node.operations, key, level + 1);
    }
    if node.groups != [] {
      AllWithoutKeys(node.groups, key, level + 1);
    }
    KeyParts(node, level);
    KeyParts(c, level);
    KeysOfThree(node.key, Keys(AllVisible(c.operations, level + 1)), Keys(GroupsSeen(c, level)),
                Keys(AllVisible(node.operations, level + 1)), Keys(GroupsSeen(node, level)), key);
  }

  lemma NothingWithout(key: Key, level: nat)
    ensures AllWithout([], key, level) == [] && AllVisible([], level) == []
  {}

  lemma KeysOfThree(k: Key, x: seq<Key>, y: seq<Key>, a: seq<Key>, b: seq<Key>, key: Key)
    requires multiset(x) <= multiset(a) && multiset(y) <= multiset(b) && key !in x && key !in y
    ensures multiset([k] + x + y) <= multiset([k] + a + b)
    ensures k != key ==> key !in [k] + x + y
  {}

  lemma {:induction false} AllWithoutKeys(nodes: seq<Node>, key: Key, level: nat)
    ensures multiset(Keys(AllVisible(AllWithout(nodes, key, level), level))) <= multiset(Keys(AllVisible(nodes, level)))
    ensures key !in Keys(AllVisible(AllWithout(nodes, key, level), level))
    decreases nodes, 0
  {
    hide Visible, Without;
    if nodes != [] {
      AllWithoutKeys(nodes[1..], key, level);
      var a, b := Visible(nodes[0], level), AllVisible(nodes[1..], level);
      assert Keys(a + b) == Keys(a) + Keys(b);
      var c, rest := AllWithout(nodes, key, level), AllWithout(nodes[1..], key, level);
      if nodes[0].key != key {
        WithoutKeys(nodes[0], key, level);
        assert c[1..] == rest;
        var x, y := Visible(c[0], level), AllVisible(rest, level);
        assert Keys(x + y) == Keys(x) + Keys(y);
      } else {
        assert c == rest;
      }
    }
  }

  /** A removal leaves no node at key, and adds none at any other. */
  lemma RemoveDropsIt(services: seq<Node>, key: Key)
    requires Read(services, key).Some?
    ensures Read(Removed(services, key), key).None?
    ensures multiset(Keys(AllVisible(Removed(services, key), 0))) <= multiset(Keys(AllVisible(services, 0)))
  {
    AllWithoutKeys(services, key, 0);
    var now := AllVisible(Removed(services, key), 0);
    if |At(now, key)| == 1 {
      AtIsHeld(now, key);
    }
  }

  lemma {:induction false} AtIsHeld(nodes: seq<Node>, key: Key)
    requires At(nodes, key) != []
    ensures key in Keys(nodes)
  {
    if nodes[0].key == key {
      assert Keys(nodes)[0] == key;
    } else {
      AtIsHeld(nodes[1..], key);
      var i :| 0 <= i < |nodes| - 1 && Keys(nodes[1..])[i] == key;
      assert Keys(nodes)[i + 1] == key;
    }
  }
}
