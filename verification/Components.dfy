/** The bookkeeping of the layout walk: Tarjan's strongly connected components,
    where a node done following its entries waits among the finished until its
    component's first node is done.  Each step the walk takes keeps `Sound`, and a
    state with nothing on the stack has every node in layout order. */
module Components {
  import opened Values
  import opened Graphs
  import opened Trails

  // What met holds for a node read.
  const READ: int := -1

  /** A node met: its number, and how many nodes were finished when it was met. */
  datatype Mark = Mark(id: Id, num: int, since: nat)

  /** The walk's state: the number of each node met, or READ; the number the next
      one gets; the nodes finished and unread, and those being followed, with the
      next entry and the low-link of each; and the nodes read, in order, with the
      number of the component each was read with. */
  datatype State = State(met: map<Id, int>, count: nat, finished: seq<Mark>,
                         stack: seq<Mark>, next: seq<nat>, low: seq<int>, out: seq<Id>, part: seq<nat>)

  // ----- what holds between steps -----

  // x sits on the stack or among the finished.
  ghost predicate Placed(stack: seq<Mark>, finished: seq<Mark>, x: Id) {
    || (exists j :: 0 <= j < |stack| && stack[j].id == x)
    || (exists k :: 0 <= k < |finished| && finished[k].id == x)
  }

  // ms are met and unread, under the numbers they say.
  ghost predicate Numbered(met: map<Id, int>, ms: seq<Mark>) {
    forall j :: 0 <= j < |ms| ==> ms[j].id in met && met[ms[j].id] == ms[j].num >= 0
  }

  ghost predicate AllPlaced(met: map<Id, int>, count: nat, stack: seq<Mark>, finished: seq<Mark>) {
    forall x :: x in met ==> READ <= met[x] < count && (met[x] >= 0 ==> Placed(stack, finished, x))
  }

  ghost predicate Rising(stack: seq<Mark>, n: nat) {
    && (forall j :: 0 <= j < |stack| ==> stack[j].since <= n)
    && (forall i, j :: 0 <= i < j < |stack| ==> stack[i].num < stack[j].num && stack[i].since <= stack[j].since)
    && (if stack == [] then n == 0 else stack[0].since == 0)
  }

  // The finished are told apart by number, and split where each node was met.
  ghost predicate Split(stack: seq<Mark>, finished: seq<Mark>) {
    && (forall i, k :: 0 <= i < k < |finished| ==> finished[i].num != finished[k].num)
    && (forall j, k :: 0 <= j < |stack| && 0 <= k < |finished| ==>
      (k >= stack[j].since <==> finished[k].num > stack[j].num) && finished[k].num != stack[j].num)
  }

  // A node on the stack leads to all above it and all finished since it was met.
  ghost predicate LeadsDown(g: Graph, stack: seq<Mark>, finished: seq<Mark>) {
    && (forall i, j :: 0 <= i < j < |stack| ==> Reaches(Links(g), stack[i].id, stack[j].id))
    && (forall j, k :: 0 <= j < |stack| && stack[j].since <= k < |finished| ==>
      Reaches(Links(g), stack[j].id, finished[k].id))
  }

  // x leads to a node on the stack met before more than n were finished.
  ghost predicate Climbs(g: Graph, stack: seq<Mark>, x: Id, n: nat) {
    exists j :: 0 <= j < |stack| && stack[j].since <= n && Reaches(Links(g), x, stack[j].id)
  }

  ghost predicate LeadsUp(g: Graph, stack: seq<Mark>, finished: seq<Mark>) {
    forall k :: 0 <= k < |finished| ==> Climbs(g, stack, finished[k].id, k)
  }

  // x leads to the unread node numbered n.
  ghost predicate LeadsTo(g: Graph, met: map<Id, int>, x: Id, n: int) {
    exists w :: w in met && met[w] == n && Reaches(Links(g), x, w)
  }

  ghost predicate LowsShown(g: Graph, met: map<Id, int>, stack: seq<Mark>, low: seq<int>) {
    && |low| == |stack|
    && forall j :: 0 <= j < |stack| ==> 0 <= low[j] <= stack[j].num && LeadsTo(g, met, stack[j].id, low[j])
  }

  // A low-link from j up is at most n.
  ghost predicate Bounds(low: seq<int>, j: nat, n: int) {
    exists i :: j <= i < |low| && low[i] <= n
  }

  // An entry followed leads to a node met, and to none unread below the
  // low-links from j up.
  ghost predicate Followed(met: map<Id, int>, low: seq<int>, j: nat, to: Option<Id>) {
    to.Some? ==> to.value in met && (met[to.value] >= 0 ==> Bounds(low, j, met[to.value]))
  }

  ghost predicate StackFollowed(g: Graph, met: map<Id, int>, stack: seq<Mark>, next: seq<nat>, low: seq<int>) {
    && |next| == |stack|
    && (forall j :: 0 <= j < |stack| ==> next[j] <= |g(stack[j].id)|)
    && (forall j, n :: 0 <= j < |stack| && 0 <= n < next[j] ==> Followed(met, low, j, g(stack[j].id)[n]))
  }

  ghost predicate AllFollowed(g: Graph, met: map<Id, int>, low: seq<int>, j: nat, x: Id) {
    forall n :: 0 <= n < |g(x)| ==> Followed(met, low, j, g(x)[n])
  }

  ghost predicate FinishedFollowed(g: Graph, met: map<Id, int>, stack: seq<Mark>, finished: seq<Mark>, low: seq<int>) {
    forall j, k :: 0 <= j < |stack| && stack[j].since <= k < |finished| ==> AllFollowed(g, met, low, j, finished[k].id)
  }

  // b was read no later than component n.
  ghost predicate ReadBy(out: seq<Id>, part: seq<nat>, n: nat, b: Id) {
    exists i :: 0 <= i < |out| && i < |part| && out[i] == b && part[i] <= n
  }

  /** out is in layout order: each node once, each component's nodes together,
      and a node only after all it leads to outside its component. */
  ghost predicate LaidOut(g: Graph, out: seq<Id>, part: seq<nat>) {
    && |out| == |part|
    && (forall i, j :: 0 <= i < j < |out| ==> out[i] != out[j] && part[i] <= part[j])
    && (forall i, j :: 0 <= i < |out| && 0 <= j < |out| && part[i] == part[j] ==> Reaches(Links(g), out[i], out[j]))
    && (forall i, b :: 0 <= i < |out| && Links(g)(out[i], b) ==> ReadBy(out, part, part[i], b))
    && (forall i :: 0 <= i < |part| ==> part[i] < |out|)
  }

  ghost predicate ReadSoFar(met: map<Id, int>, out: seq<Id>) {
    forall x :: x in out <==> x in met && met[x] == READ
  }

  ghost predicate FromRoot(g: Graph, root: Id, met: map<Id, int>) {
    root in met && forall x :: x in met ==> Reaches(Links(g), root, x)
  }

  ghost predicate Counted(g: Graph, root: Id, s: State) {
    && Numbered(s.met, s.stack) && Numbered(s.met, s.finished)
    && AllPlaced(s.met, s.count, s.stack, s.finished)
    && Rising(s.stack, |s.finished|) && Split(s.stack, s.finished)
    && LeadsDown(g, s.stack, s.finished) && LeadsUp(g, s.stack, s.finished)
    && LowsShown(g, s.met, s.stack, s.low)
    && StackFollowed(g, s.met, s.stack, s.next, s.low) && FinishedFollowed(g, s.met, s.stack, s.finished, s.low)
    && LaidOut(g, s.out, s.part) && ReadSoFar(s.met, s.out)
    && FromRoot(g, root, s.met)
  }

  // ----- the walk's steps -----

  function Started(root: Id): State {
    State(map[root := 0], 1, [], [Mark(root, 0, 0)], [0], [0], [], [])
  }

  function Min(a: int, b: int): int {
    if a < b then a else b
  }

  // The last of s made x.
  function Last<T>(s: seq<T>, x: T): seq<T>
    requires s != []
  {
    s[|s| - 1 := x]
  }

  // The top node's next entry followed, having seen number low.
  function Follow(s: State, low: int): State
    requires s.next != [] && s.low != []
  {
    s.(next := Last(s.next, s.next[|s.next| - 1] + 1), low := Last(s.low, Min(s.low[|s.low| - 1], low)))
  }

  // x met, and put on the stack.
  function Push(s: State, x: Id): State {
    s.(met := s.met[x := s.count], count := s.count + 1, stack := s.stack + [Mark(x, s.count, |s.finished|)],
       next := s.next + [0], low := s.low + [s.count])
  }

  // The top node's next entry followed to x, a node to meet.
  function Meet(s: State, x: Id): State
    requires s.next != []
  {
    Push(s.(next := Last(s.next, s.next[|s.next| - 1] + 1)), x)
  }

  function Front<T>(s: seq<T>): seq<T>
    requires s != []
  {
    s[..|s| - 1]
  }

  // The low-links below the top, the last of them lowered to the top's.
  function Lowered(low: seq<int>): seq<int>
    requires low != []
  {
    if |low| == 1 then [] else Last(Front(low), Min(low[|low| - 2], low[|low| - 1]))
  }

  // The top node finished, waiting for its component.
  function Finish(s: State): State
    requires s.stack != [] && s.next != [] && s.low != []
  {
    s.(stack := Front(s.stack), next := Front(s.next), low := Lowered(s.low), finished := s.finished + [s.stack[|s.stack| - 1]])
  }

  function Ids(ms: seq<Mark>): (r: seq<Id>)
    ensures |r| == |ms| && forall k :: 0 <= k < |ms| ==> r[k] == ms[k].id
  {
    seq(|ms|, k requires 0 <= k < |ms| => ms[k].id)
  }

  // The finished from n on read, as one component.
  function Read(s: State, n: nat): State
    requires n <= |s.finished|
  {
    var comp := Ids(s.finished[n..]);
    s.(met := map x | x in s.met :: if x in comp then READ else s.met[x],
       finished := s.finished[..n],
       out := s.out + comp,
       part := s.part + seq(|comp|, _ => |s.out|))
  }

  // ----- each step keeps Sound -----

  lemma StartCounted(g: Graph, root: Id)
    ensures Counted(g, root, Started(root))
  {
    var s := Started(root);
    ReachSelf(Links(g), root);
    assert s.stack[0].id == root;
    assert LeadsTo(g, s.met, root, 0);
  }

  // Numbers need not be consecutive.
  lemma NumberOn(g: Graph, root: Id, s: State, n: nat)
    requires Counted(g, root, s) && s.count <= n
    ensures Counted(g, root, s.(count := n))
  {
    assert AllPlaced(s.met, n, s.stack, s.finished);
  }

  // ----- following an entry -----

  // A lower low-link bounds what a higher one did.
  lemma LowerBounds(met: map<Id, int>, low: seq<int>, lower: seq<int>, j: nat, to: Option<Id>)
    requires Followed(met, low, j, to)
    requires |low| == |lower| && forall i :: 0 <= i < |low| ==> lower[i] <= low[i]
    ensures Followed(met, lower, j, to)
  {
    if to.Some? && met[to.value] >= 0 {
      var i :| j <= i < |low| && low[i] <= met[to.value];
      assert lower[i] <= met[to.value];
    }
  }

  // The top node's next entry leads nowhere, to a node read, or to one numbered n.
  ghost predicate FollowsTo(g: Graph, s: State, n: int) {
    && s.stack != [] && |s.next| == |s.low| == |s.stack|
    && var last := |s.stack| - 1;
    && s.next[last] < |g(s.stack[last].id)|
    && var to := g(s.stack[last].id)[s.next[last]];
    && (to.Some? ==> to.value in s.met)
    && if to.Some? && s.met[to.value] >= 0 then n == s.met[to.value] else n >= s.low[last]
  }

  lemma FollowLows(g: Graph, s: State, n: int)
    requires LowsShown(g, s.met, s.stack, s.low) && FollowsTo(g, s, n)
    ensures LowsShown(g, s.met, s.stack, Follow(s, n).low)
  {
    var last := |s.stack| - 1;
    var top := s.stack[last].id;
    if n < s.low[last] {
      var to := g(top)[s.next[last]].value;
      assert Links(g)(top, to);
      ReachEdge(Links(g), top, to);
      assert LeadsTo(g, s.met, top, n);
    }
  }

  lemma FollowStack(g: Graph, s: State, n: int)
    requires StackFollowed(g, s.met, s.stack, s.next, s.low) && FollowsTo(g, s, n)
    ensures StackFollowed(g, s.met, s.stack, Follow(s, n).next, Follow(s, n).low)
  {
    var t := Follow(s, n);
    forall j, i | 0 <= j < |s.stack| && 0 <= i < t.next[j] ensures Followed(s.met, t.low, j, g(s.stack[j].id)[i]) {
      if i < s.next[j] {
        LowerBounds(s.met, s.low, t.low, j, g(s.stack[j].id)[i]);
      } else {
        assert t.low[|s.stack| - 1] <= n;
      }
    }
  }

  lemma FinishedLower(g: Graph, met: map<Id, int>, stack: seq<Mark>, finished: seq<Mark>, low: seq<int>, lower: seq<int>)
    requires FinishedFollowed(g, met, stack, finished, low)
    requires |low| == |lower| && forall i :: 0 <= i < |low| ==> lower[i] <= low[i]
    ensures FinishedFollowed(g, met, stack, finished, lower)
  {
    forall j, k | 0 <= j < |stack| && stack[j].since <= k < |finished|
      ensures AllFollowed(g, met, lower, j, finished[k].id)
    {
      var x := finished[k].id;
      assert AllFollowed(g, met, low, j, x);
      forall i | 0 <= i < |g(x)| ensures Followed(met, lower, j, g(x)[i]) {
        LowerBounds(met, low, lower, j, g(x)[i]);
      }
    }
  }

  lemma FollowCounted(g: Graph, root: Id, s: State, n: int)
    requires Counted(g, root, s) && FollowsTo(g, s, n)
    ensures Counted(g, root, Follow(s, n))
  {
    hide Numbered, AllPlaced, Rising, Split, LeadsDown, LeadsUp, LowsShown, StackFollowed, FinishedFollowed, LaidOut,
      ReadSoFar, FromRoot;
    FollowLows(g, s, n);
    FollowStack(g, s, n);
    FinishedLower(g, s.met, s.stack, s.finished, s.low, Follow(s, n).low);
  }

  // ----- meeting a node -----

  // Numbering one more node, or lowering no number, keeps what was shown.
  lemma MeetKeeps(g: Graph, met: map<Id, int>, x: Id, n: nat, low: seq<int>, stack: seq<Mark>)
    requires x !in met && LowsShown(g, met, stack, low)
    ensures LowsShown(g, met[x := n], stack, low)
  {
    forall j | 0 <= j < |stack| ensures LeadsTo(g, met[x := n], stack[j].id, low[j]) {
      var w :| w in met && met[w] == low[j] && Reaches(Links(g), stack[j].id, w);
      assert w in met[x := n];
    }
  }

  // One more low-link on top, and one more node met, keeps what was followed.
  lemma MeetFollowed(met: map<Id, int>, low: seq<int>, j: nat, to: Option<Id>, x: Id, n: nat)
    requires Followed(met, low, j, to) && x !in met
    ensures Followed(met[x := n], low + [n], j, to)
  {
    if to.Some? && met[to.value] >= 0 {
      var i :| j <= i < |low| && low[i] <= met[to.value];
      assert (low + [n])[i] <= met[to.value];
    }
  }

  lemma MeetFinished(g: Graph, met: map<Id, int>, stack: seq<Mark>, finished: seq<Mark>, low: seq<int>, x: Id, n: nat)
    requires FinishedFollowed(g, met, stack, finished, low) && x !in met
    ensures FinishedFollowed(g, met[x := n], stack + [Mark(x, n, |finished|)], finished, low + [n])
  {
    var on := stack + [Mark(x, n, |finished|)];
    forall j, k | 0 <= j < |on| && on[j].since <= k < |finished|
      ensures AllFollowed(g, met[x := n], low + [n], j, finished[k].id)
    {
      var y := finished[k].id;
      assert AllFollowed(g, met, low, j, y);
      forall i | 0 <= i < |g(y)| ensures Followed(met[x := n], low + [n], j, g(y)[i]) {
        MeetFollowed(met, low, j, g(y)[i], x, n);
      }
    }
  }

  // The top node's next entry leads to x, yet to be met.
  ghost predicate Meets(g: Graph, s: State, x: Id) {
    && s.stack != [] && |s.next| == |s.stack|
    && var last := |s.stack| - 1;
    && s.next[last] < |g(s.stack[last].id)| && g(s.stack[last].id)[s.next[last]] == Some(x)
    && x !in s.met
  }

  lemma MeetStack(g: Graph, s: State, x: Id)
    requires StackFollowed(g, s.met, s.stack, s.next, s.low) && Meets(g, s, x) && |s.low| == |s.stack|
    ensures var t := Meet(s, x); StackFollowed(g, t.met, t.stack, t.next, t.low)
  {
    var t := Meet(s, x);
    forall j, i | 0 <= j < |t.stack| && 0 <= i < t.next[j] ensures Followed(t.met, t.low, j, g(t.stack[j].id)[i]) {
      if i < s.next[j] {
        MeetFollowed(s.met, s.low, j, g(s.stack[j].id)[i], x, s.count);
      } else {
        assert t.low[|s.low|] <= s.count;
      }
    }
  }

  lemma MeetPlaced(met: map<Id, int>, count: nat, stack: seq<Mark>, finished: seq<Mark>, x: Id)
    requires AllPlaced(met, count, stack, finished) && x !in met
    ensures AllPlaced(met[x := count], count + 1, stack + [Mark(x, count, |finished|)], finished)
  {
    var on := stack + [Mark(x, count, |finished|)];
    forall y | y in met[x := count] && met[x := count][y] >= 0 ensures Placed(on, finished, y) {
      if y == x {
        assert on[|stack|].id == x;
      } else if j :| 0 <= j < |stack| && stack[j].id == y {
        assert on[j].id == y;
      }
    }
  }

  lemma MeetNumbered(met: map<Id, int>, ms: seq<Mark>, x: Id, n: nat)
    requires Numbered(met, ms) && x !in met
    ensures Numbered(met[x := n], ms)
  {
  }

  lemma MeetSplit(met: map<Id, int>, count: nat, stack: seq<Mark>, finished: seq<Mark>, x: Id)
    requires AllPlaced(met, count, stack, finished) && Numbered(met, stack) && Numbered(met, finished)
    requires Rising(stack, |finished|) && Split(stack, finished) && stack != []
    ensures Rising(stack + [Mark(x, count, |finished|)], |finished|)
    ensures Split(stack + [Mark(x, count, |finished|)], finished)
  {
    assert forall k :: 0 <= k < |finished| ==> finished[k].num < count;
    assert forall k :: 0 <= k < |stack| ==> stack[k].num < count;
  }

  lemma MeetLeadsDown(g: Graph, stack: seq<Mark>, finished: seq<Mark>, m: Mark)
    requires LeadsDown(g, stack, finished) && stack != [] && m.since == |finished|
    requires Links(g)(stack[|stack| - 1].id, m.id)
    ensures LeadsDown(g, stack + [m], finished)
  {
    forall i | 0 <= i < |stack| ensures Reaches(Links(g), stack[i].id, m.id) {
      ReachSelf(Links(g), stack[i].id);
      ReachOn(Links(g), stack[i].id, stack[|stack| - 1].id, m.id);
    }
  }

  lemma MeetLeadsUp(g: Graph, stack: seq<Mark>, finished: seq<Mark>, m: Mark)
    requires LeadsUp(g, stack, finished)
    ensures LeadsUp(g, stack + [m], finished)
  {
    forall k | 0 <= k < |finished| ensures Climbs(g, stack + [m], finished[k].id, k) {
      assert Climbs(g, stack, finished[k].id, k);
      var j :| 0 <= j < |stack| && stack[j].since <= k && Reaches(Links(g), finished[k].id, stack[j].id);
      assert (stack + [m])[j] == stack[j];
    }
  }

  lemma MeetShown(g: Graph, s: State, x: Id)
    requires LowsShown(g, s.met, s.stack, s.low) && Meets(g, s, x)
    ensures var t := Meet(s, x); LowsShown(g, t.met, t.stack, t.low)
  {
    var t := Meet(s, x);
    MeetKeeps(g, s.met, x, s.count, s.low, s.stack);
    ReachSelf(Links(g), x);
    assert LeadsTo(g, t.met, x, s.count);
  }

  lemma MeetRest(g: Graph, root: Id, met: map<Id, int>, out: seq<Id>, top: Id, x: Id, n: nat)
    requires FromRoot(g, root, met) && ReadSoFar(met, out) && top in met && Links(g)(top, x) && x !in met
    ensures FromRoot(g, root, met[x := n]) && ReadSoFar(met[x := n], out)
  {
    ReachOn(Links(g), root, top, x);
  }

  lemma MeetPlaces(g: Graph, s: State, x: Id)
    requires Numbered(s.met, s.stack) && Numbered(s.met, s.finished)
    requires AllPlaced(s.met, s.count, s.stack, s.finished)
    requires Rising(s.stack, |s.finished|) && Split(s.stack, s.finished)
    requires Meets(g, s, x)
    ensures var t := Meet(s, x);
      && Numbered(t.met, t.stack) && Numbered(t.met, t.finished)
      && AllPlaced(t.met, t.count, t.stack, t.finished)
      && Rising(t.stack, |t.finished|) && Split(t.stack, t.finished)
  {
    MeetPlaced(s.met, s.count, s.stack, s.finished, x);
    MeetSplit(s.met, s.count, s.stack, s.finished, x);
    MeetNumbered(s.met, s.finished, x, s.count);
    MeetNumbered(s.met, s.stack, x, s.count);
  }

  lemma MeetLeads(g: Graph, s: State, x: Id)
    requires LeadsDown(g, s.stack, s.finished) && LeadsUp(g, s.stack, s.finished) && Meets(g, s, x)
    ensures var t := Meet(s, x); LeadsDown(g, t.stack, t.finished) && LeadsUp(g, t.stack, t.finished)
  {
    var m := Mark(x, s.count, |s.finished|);
    assert Links(g)(s.stack[|s.stack| - 1].id, x);
    MeetLeadsDown(g, s.stack, s.finished, m);
    MeetLeadsUp(g, s.stack, s.finished, m);
  }

  lemma MeetCounted(g: Graph, root: Id, s: State, x: Id)
    requires Counted(g, root, s) && Meets(g, s, x)
    ensures Counted(g, root, Meet(s, x))
  {
    var top := s.stack[|s.stack| - 1].id;
    assert Links(g)(top, x);
    MeetPlaces(g, s, x);
    MeetLeads(g, s, x);
    MeetStack(g, s, x);
    MeetShown(g, s, x);
    MeetFinished(g, s.met, s.stack, s.finished, s.low, x, s.count);
    MeetRest(g, root, s.met, s.out, top, x, s.count);
  }

  // ----- finishing a node -----

  // The top node has no entry left to follow.
  ghost predicate Exhausted(g: Graph, s: State) {
    s.stack != [] && |s.next| == |s.low| == |s.stack| && s.next[|s.stack| - 1] == |g(s.stack[|s.stack| - 1].id)|
  }

  lemma FinishPlaces(met: map<Id, int>, count: nat, stack: seq<Mark>, finished: seq<Mark>)
    requires AllPlaced(met, count, stack, finished) && Numbered(met, stack) && Numbered(met, finished) && stack != []
    ensures var top := stack[|stack| - 1];
      && AllPlaced(met, count, Front(stack), finished + [top])
      && Numbered(met, Front(stack)) && Numbered(met, finished + [top])
  {
    var top := stack[|stack| - 1];
    forall x | x in met && met[x] >= 0 ensures Placed(Front(stack), finished + [top], x) {
      if j :| 0 <= j < |stack| && stack[j].id == x {
        if j == |stack| - 1 {
          assert (finished + [top])[|finished|].id == x;
        } else {
          assert Front(stack)[j].id == x;
        }
      } else {
        var k :| 0 <= k < |finished| && finished[k].id == x;
        assert (finished + [top])[k].id == x;
      }
    }
  }

  // A node w, met before the top, leads to a node below the top.
  lemma EarlierClimbs(g: Graph, met: map<Id, int>, stack: seq<Mark>, finished: seq<Mark>, w: Id)
    requires stack != [] && Numbered(met, stack) && Numbered(met, finished) && Rising(stack, |finished|)
    requires Split(stack, finished) && LeadsUp(g, stack, finished)
    requires w in met && met[w] < stack[|stack| - 1].num && Placed(stack, finished, w)
    ensures Climbs(g, Front(stack), w, stack[|stack| - 1].since)
  {
    if j :| 0 <= j < |stack| && stack[j].id == w {
      assert Front(stack)[j] == stack[j];
      ReachSelf(Links(g), w);
    } else {
      var k :| 0 <= k < |finished| && finished[k].id == w;
      assert Climbs(g, stack, w, k);
      var j :| 0 <= j < |stack| && stack[j].since <= k && Reaches(Links(g), w, stack[j].id);
      assert Front(stack)[j] == stack[j];
    }
  }

  lemma ClimbsFrom(g: Graph, stack: seq<Mark>, x: Id, w: Id, n: nat)
    requires Climbs(g, stack, w, n) && Reaches(Links(g), x, w)
    ensures Climbs(g, stack, x, n)
  {
    var j :| 0 <= j < |stack| && stack[j].since <= n && Reaches(Links(g), w, stack[j].id);
    ReachThen(Links(g), x, w, stack[j].id);
  }

  // A node whose low-link is below its number leads to one lower on the stack.
  lemma TopClimbs(g: Graph, s: State)
    requires Numbered(s.met, s.stack) && Numbered(s.met, s.finished)
    requires AllPlaced(s.met, s.count, s.stack, s.finished)
    requires Rising(s.stack, |s.finished|) && Split(s.stack, s.finished) && LeadsUp(g, s.stack, s.finished)
    requires LowsShown(g, s.met, s.stack, s.low)
    requires s.stack != [] && s.low[|s.stack| - 1] < s.stack[|s.stack| - 1].num
    ensures var top := s.stack[|s.stack| - 1]; Climbs(g, Front(s.stack), top.id, top.since)
  {
    var last := |s.stack| - 1;
    var top := s.stack[last];
    assert LeadsTo(g, s.met, top.id, s.low[last]);
    var w :| w in s.met && s.met[w] == s.low[last] && Reaches(Links(g), top.id, w);
    EarlierClimbs(g, s.met, s.stack, s.finished, w);
    ClimbsFrom(g, Front(s.stack), top.id, w, top.since);
  }

  lemma FinishClimbs(g: Graph, stack: seq<Mark>, finished: seq<Mark>)
    requires stack != [] && LeadsUp(g, stack, finished) && Rising(stack, |finished|)
    requires var top := stack[|stack| - 1]; Climbs(g, Front(stack), top.id, top.since)
    ensures LeadsUp(g, Front(stack), finished + [stack[|stack| - 1]])
  {
    var last := |stack| - 1;
    var top := stack[last];
    var up :| 0 <= up < last && Front(stack)[up].since <= top.since && Reaches(Links(g), top.id, Front(stack)[up].id);
    forall k | 0 <= k < |finished| ensures Climbs(g, Front(stack), finished[k].id, k) {
      assert Climbs(g, stack, finished[k].id, k);
      var j :| 0 <= j < |stack| && stack[j].since <= k && Reaches(Links(g), finished[k].id, stack[j].id);
      if j == last {
        ReachThen(Links(g), finished[k].id, top.id, stack[up].id);
        assert Front(stack)[up].since <= k;
      } else {
        assert Front(stack)[j] == stack[j];
      }
    }
  }

  lemma FinishSplit(g: Graph, stack: seq<Mark>, finished: seq<Mark>)
    requires stack != [] && Rising(stack, |finished|) && Split(stack, finished) && LeadsDown(g, stack, finished)
    requires Front(stack) != []
    ensures var top := stack[|stack| - 1];
      Rising(Front(stack), |finished| + 1) && Split(Front(stack), finished + [top]) && LeadsDown(g, Front(stack), finished + [top])
  {
  }

  lemma LeadsFrom(g: Graph, met: map<Id, int>, x: Id, y: Id, n: int)
    requires LeadsTo(g, met, y, n) && Reaches(Links(g), x, y)
    ensures LeadsTo(g, met, x, n)
  {
    var w :| w in met && met[w] == n && Reaches(Links(g), y, w);
    ReachThen(Links(g), x, y, w);
  }

  lemma FinishShown(g: Graph, met: map<Id, int>, stack: seq<Mark>, low: seq<int>)
    requires stack != [] && LowsShown(g, met, stack, low)
    requires |stack| > 1 ==> Reaches(Links(g), stack[|stack| - 2].id, stack[|stack| - 1].id)
    ensures LowsShown(g, met, Front(stack), Lowered(low))
  {
    hide Reaches;
    var last := |stack| - 1;
    if last > 0 && low[last] < low[last - 1] {
      LeadsFrom(g, met, stack[last - 1].id, stack[last].id, low[last]);
    }
  }

  lemma LoweredBounds(met: map<Id, int>, low: seq<int>, j: nat, i: nat, to: Option<Id>)
    requires Followed(met, low, i, to) && j <= i && j < |low| - 1
    ensures Followed(met, Lowered(low), j, to)
  {
    if to.Some? && met[to.value] >= 0 {
      var m :| i <= m < |low| && low[m] <= met[to.value];
      var m' := if m == |low| - 1 then m - 1 else m;
      assert Lowered(low)[m'] <= met[to.value];
    }
  }

  lemma FinishFollowed(g: Graph, s: State)
    requires StackFollowed(g, s.met, s.stack, s.next, s.low) && FinishedFollowed(g, s.met, s.stack, s.finished, s.low)
    requires Exhausted(g, s)
    ensures var t := Finish(s);
      StackFollowed(g, t.met, t.stack, t.next, t.low) && FinishedFollowed(g, t.met, t.stack, t.finished, t.low)
  {
    var t := Finish(s);
    forall j, i | 0 <= j < |t.stack| && 0 <= i < t.next[j] ensures Followed(t.met, t.low, j, g(t.stack[j].id)[i]) {
      LoweredBounds(s.met, s.low, j, j, g(s.stack[j].id)[i]);
    }
    forall j, k | 0 <= j < |t.stack| && t.stack[j].since <= k < |t.finished|
      ensures AllFollowed(g, t.met, t.low, j, t.finished[k].id)
    {
      var x := t.finished[k].id;
      if k < |s.finished| {
        assert AllFollowed(g, s.met, s.low, j, x);
      }
      forall i | 0 <= i < |g(x)| ensures Followed(t.met, t.low, j, g(x)[i]) {
        LoweredBounds(s.met, s.low, j, if k < |s.finished| then j else |s.stack| - 1, g(x)[i]);
      }
    }
  }

  lemma SomeBelow(g: Graph, stack: seq<Mark>, x: Id, n: nat)
    requires Climbs(g, stack, x, n)
    ensures stack != []
  {
    hide Reaches;
  }

  lemma FinishLeads(g: Graph, s: State)
    requires Rising(s.stack, |s.finished|) && Split(s.stack, s.finished)
    requires LeadsDown(g, s.stack, s.finished) && LeadsUp(g, s.stack, s.finished)
    requires |s.low| == |s.next| == |s.stack| > 0
    requires var top := s.stack[|s.stack| - 1]; Climbs(g, Front(s.stack), top.id, top.since)
    ensures var t := Finish(s);
      && Rising(t.stack, |t.finished|) && Split(t.stack, t.finished)
      && LeadsDown(g, t.stack, t.finished) && LeadsUp(g, t.stack, t.finished)
  {
    hide Reaches;
    var top := s.stack[|s.stack| - 1];
    SomeBelow(g, Front(s.stack), top.id, top.since);
    FinishClimbs(g, s.stack, s.finished);
    FinishSplit(g, s.stack, s.finished);
  }

  /** A node not the first of its component waits among the finished. */
  lemma FinishCounted(g: Graph, root: Id, s: State)
    requires Counted(g, root, s) && Exhausted(g, s) && s.low[|s.stack| - 1] < s.stack[|s.stack| - 1].num
    ensures Counted(g, root, Finish(s))
  {
    hide Reaches;
    TopClimbs(g, s);
    FinishLeads(g, s);
    FinishPlaces(s.met, s.count, s.stack, s.finished);
    FinishShown(g, s.met, s.stack, s.low);
    FinishFollowed(g, s);
  }

  // ----- reading a component -----

  // The top node is the first of its component: all unread from its number up
  // is that component.
  ghost predicate Heads(g: Graph, s: State) {
    Exhausted(g, s) && s.low[|s.stack| - 1] == s.stack[|s.stack| - 1].num
  }

  function Component(s: State): seq<Mark>
    requires s.stack != [] && s.stack[|s.stack| - 1].since <= |s.finished|
  {
    s.finished[s.stack[|s.stack| - 1].since..] + [s.stack[|s.stack| - 1]]
  }

  // The step both Finish and Read.
  function Close(s: State): State
    requires s.stack != [] && s.next != [] && s.low != [] && s.stack[|s.stack| - 1].since <= |s.finished|
  {
    Read(Finish(s), s.stack[|s.stack| - 1].since)
  }

  lemma CloseIs(s: State)
    requires s.stack != [] && s.next != [] && s.low != [] && s.stack[|s.stack| - 1].since <= |s.finished|
    ensures var t := Close(s); var top := s.stack[|s.stack| - 1]; var comp := Ids(Component(s));
      && t.finished == s.finished[..top.since] && t.stack == Front(s.stack) && t.next == Front(s.next) && t.low == Lowered(s.low)
      && t.count == s.count && t.met.Keys == s.met.Keys
      && (forall x :: x in s.met ==> t.met[x] == if x in comp then READ else s.met[x])
      && t.out == s.out + comp && t.part == s.part + seq(|comp|, _ => |s.out|)
  {
    assert Finish(s).finished[s.stack[|s.stack| - 1].since..] == Component(s);
    assert Finish(s).finished[..s.stack[|s.stack| - 1].since] == s.finished[..s.stack[|s.stack| - 1].since];
  }

  // The component is what is unread from the top's number up.
  lemma ComponentNumbers(s: State)
    requires s.stack != [] && Numbered(s.met, s.stack) && Numbered(s.met, s.finished)
    requires Rising(s.stack, |s.finished|) && Split(s.stack, s.finished)
    ensures forall m :: m in Component(s) ==> m.id in s.met && s.met[m.id] == m.num >= s.stack[|s.stack| - 1].num
    ensures forall i, j :: 0 <= i < j < |Component(s)| ==> Component(s)[i].num != Component(s)[j].num
  {
    var top, comp := s.stack[|s.stack| - 1], Component(s);
    assert forall c :: 0 <= c < |comp| - 1 ==> comp[c] == s.finished[top.since + c];
  }

  lemma InComponent(s: State, x: Id)
    requires s.stack != [] && Numbered(s.met, s.stack) && Numbered(s.met, s.finished)
    requires Rising(s.stack, |s.finished|) && Split(s.stack, s.finished)
    requires Placed(s.stack, s.finished, x) && x in s.met && s.met[x] >= s.stack[|s.stack| - 1].num
    ensures x in Ids(Component(s))
  {
    var last := |s.stack| - 1;
    var top, comp := s.stack[last], Component(s);
    if j :| 0 <= j < |s.stack| && s.stack[j].id == x {
      assert j == last;
      assert Ids(comp)[|comp| - 1] == x;
    } else {
      var k :| 0 <= k < |s.finished| && s.finished[k].id == x;
      FinishedInComponent(s, k);
    }
  }

  lemma FinishedInComponent(s: State, k: nat)
    requires s.stack != [] && s.stack[|s.stack| - 1].since <= k < |s.finished|
    ensures s.finished[k].id in Ids(Component(s))
  {
    var comp, since := Component(s), s.stack[|s.stack| - 1].since;
    assert comp[k - since] == s.finished[k];
    assert Ids(comp)[k - since] == s.finished[k].id;
  }

  lemma ComponentIs(s: State)
    requires s.stack != [] && Numbered(s.met, s.stack) && Numbered(s.met, s.finished)
    requires AllPlaced(s.met, s.count, s.stack, s.finished)
    requires Rising(s.stack, |s.finished|) && Split(s.stack, s.finished)
    ensures forall x :: x in Ids(Component(s)) <==> x in s.met && s.met[x] >= s.stack[|s.stack| - 1].num
  {
    ComponentNumbers(s);
    var comp := Component(s);
    forall x | x in Ids(comp) ensures x in s.met && s.met[x] >= s.stack[|s.stack| - 1].num {
      var c :| 0 <= c < |comp| && Ids(comp)[c] == x;
      assert comp[c] in comp;
    }
    forall x | x in s.met && s.met[x] >= s.stack[|s.stack| - 1].num ensures x in Ids(comp) {
      InComponent(s, x);
    }
  }

  // met with everything numbered n or more read.
  ghost predicate ReadFrom(met: map<Id, int>, after: map<Id, int>, n: int) {
    after.Keys == met.Keys && forall x :: x in met ==> after[x] == if met[x] >= n then READ else met[x]
  }

  lemma CloseReads(s: State)
    requires s.stack != [] && |s.next| == |s.low| == |s.stack|
    requires Numbered(s.met, s.stack) && Numbered(s.met, s.finished)
    requires AllPlaced(s.met, s.count, s.stack, s.finished)
    requires Rising(s.stack, |s.finished|) && Split(s.stack, s.finished)
    ensures ReadFrom(s.met, Close(s).met, s.stack[|s.stack| - 1].num)
  {
    CloseIs(s);
    ComponentIs(s);
  }

  lemma StillPlaced(met: map<Id, int>, after: map<Id, int>, count: nat, stack: seq<Mark>, finished: seq<Mark>)
    requires stack != [] && Numbered(met, stack) && Numbered(met, finished) && AllPlaced(met, count, stack, finished)
    requires Rising(stack, |finished|) && Split(stack, finished)
    requires ReadFrom(met, after, stack[|stack| - 1].num)
    ensures AllPlaced(after, count, Front(stack), finished[..stack[|stack| - 1].since])
  {
    var top := stack[|stack| - 1];
    forall x | x in after && after[x] >= 0 ensures Placed(Front(stack), finished[..top.since], x) {
      assert after[x] == met[x] < top.num && Placed(stack, finished, x);
      PlacedBelow(met, stack, finished, x);
    }
  }

  // What is numbered below the top of the stack is placed below it.
  lemma PlacedBelow(met: map<Id, int>, stack: seq<Mark>, finished: seq<Mark>, x: Id)
    requires stack != [] && Numbered(met, stack) && Numbered(met, finished)
    requires Rising(stack, |finished|) && Split(stack, finished)
    requires x in met && 0 <= met[x] < stack[|stack| - 1].num && Placed(stack, finished, x)
    ensures Placed(Front(stack), finished[..stack[|stack| - 1].since], x)
  {
    var top := stack[|stack| - 1];
    if j :| 0 <= j < |stack| && stack[j].id == x {
      assert Front(stack)[j].id == x;
    } else {
      var k :| 0 <= k < |finished| && finished[k].id == x;
      assert finished[..top.since][k].id == x;
    }
  }

  lemma StillNumbered(met: map<Id, int>, after: map<Id, int>, stack: seq<Mark>, finished: seq<Mark>)
    requires stack != [] && Numbered(met, stack) && Numbered(met, finished)
    requires Rising(stack, |finished|) && Split(stack, finished)
    requires ReadFrom(met, after, stack[|stack| - 1].num)
    ensures Numbered(after, Front(stack)) && Numbered(after, finished[..stack[|stack| - 1].since])
  {
  }

  lemma ClosePlaces(s: State)
    requires s.stack != [] && |s.next| == |s.low| == |s.stack|
    requires Numbered(s.met, s.stack) && Numbered(s.met, s.finished)
    requires AllPlaced(s.met, s.count, s.stack, s.finished)
    requires Rising(s.stack, |s.finished|) && Split(s.stack, s.finished)
    ensures var t := Close(s);
      && Numbered(t.met, t.stack) && Numbered(t.met, t.finished)
      && AllPlaced(t.met, t.count, t.stack, t.finished)
      && Rising(t.stack, |t.finished|) && Split(t.stack, t.finished)
  {
    CloseIs(s);
    CloseReads(s);
    StillPlaced(s.met, Close(s).met, s.count, s.stack, s.finished);
    StillNumbered(s.met, Close(s).met, s.stack, s.finished);
    StillOrdered(s.stack, s.finished);
  }

  lemma StillOrdered(stack: seq<Mark>, finished: seq<Mark>)
    requires stack != [] && Rising(stack, |finished|) && Split(stack, finished)
    ensures var n := stack[|stack| - 1].since; Rising(Front(stack), n) && Split(Front(stack), finished[..n])
  {
  }

  lemma CloseLeads(g: Graph, s: State)
    requires s.stack != [] && |s.next| == |s.low| == |s.stack| && Rising(s.stack, |s.finished|)
    requires LeadsDown(g, s.stack, s.finished) && LeadsUp(g, s.stack, s.finished)
    ensures var t := Close(s); LeadsDown(g, t.stack, t.finished) && LeadsUp(g, t.stack, t.finished)
  {
    hide Reaches;
    CloseIs(s);
    var t := Close(s);
    forall k | 0 <= k < |t.finished| ensures Climbs(g, t.stack, t.finished[k].id, k) {
      assert Climbs(g, s.stack, s.finished[k].id, k);
      var j :| 0 <= j < |s.stack| && s.stack[j].since <= k && Reaches(Links(g), s.finished[k].id, s.stack[j].id);
      assert t.stack[j] == s.stack[j];
    }
  }

  // What was followed still is once all from number n up is read, when only the
  // last low-link is so high.
  lemma ReadFollowed(met: map<Id, int>, after: map<Id, int>, low: seq<int>, j: nat, to: Option<Id>)
    requires Followed(met, low, j, to) && low != [] && ReadFrom(met, after, low[|low| - 1])
    ensures Followed(after, Front(low), j, to)
  {
    if to.Some? && after[to.value] >= 0 {
      var i :| j <= i < |low| && low[i] <= met[to.value];
      assert Front(low)[i] <= after[to.value];
    }
  }

  lemma CloseShown(g: Graph, met: map<Id, int>, after: map<Id, int>, stack: seq<Mark>, low: seq<int>)
    requires LowsShown(g, met, stack, low) && stack != [] && Rising(stack, stack[|stack| - 1].since)
    requires ReadFrom(met, after, stack[|stack| - 1].num)
    ensures LowsShown(g, after, Front(stack), Front(low))
  {
    hide Reaches;
    forall j | 0 <= j < |stack| - 1 ensures LeadsTo(g, after, stack[j].id, low[j]) {
      assert LeadsTo(g, met, stack[j].id, low[j]);
      var w :| w in met && met[w] == low[j] && Reaches(Links(g), stack[j].id, w);
      assert after[w] == low[j];
    }
  }

  lemma CloseStack(g: Graph, s: State)
    requires StackFollowed(g, s.met, s.stack, s.next, s.low) && Heads(g, s)
    requires s.stack[|s.stack| - 1].since <= |s.finished|
    requires ReadFrom(s.met, Close(s).met, s.low[|s.stack| - 1]) && Lowered(s.low) == Front(s.low)
    ensures var t := Close(s); StackFollowed(g, t.met, t.stack, t.next, t.low)
  {
    CloseIs(s);
    var t := Close(s);
    forall j, i | 0 <= j < |t.stack| && 0 <= i < t.next[j] ensures Followed(t.met, t.low, j, g(t.stack[j].id)[i]) {
      ReadFollowed(s.met, t.met, s.low, j, g(s.stack[j].id)[i]);
    }
  }

  lemma CloseFinished(g: Graph, s: State)
    requires FinishedFollowed(g, s.met, s.stack, s.finished, s.low) && Heads(g, s)
    requires s.stack[|s.stack| - 1].since <= |s.finished|
    requires ReadFrom(s.met, Close(s).met, s.low[|s.stack| - 1]) && Lowered(s.low) == Front(s.low)
    ensures var t := Close(s); FinishedFollowed(g, t.met, t.stack, t.finished, t.low)
  {
    CloseIs(s);
    var t := Close(s);
    forall j, k | 0 <= j < |t.stack| && t.stack[j].since <= k < |t.finished|
      ensures AllFollowed(g, t.met, t.low, j, t.finished[k].id)
    {
      var x := s.finished[k].id;
      assert AllFollowed(g, s.met, s.low, j, x);
      forall i | 0 <= i < |g(x)| ensures Followed(t.met, t.low, j, g(x)[i]) {
        ReadFollowed(s.met, t.met, s.low, j, g(x)[i]);
      }
    }
  }

  // Every node of the component leads to its first, and back.
  lemma ComponentMutual(g: Graph, s: State)
    requires s.stack != [] && Rising(s.stack, |s.finished|)
    requires LeadsDown(g, s.stack, s.finished) && LeadsUp(g, s.stack, s.finished)
    ensures forall a, b :: a in Ids(Component(s)) && b in Ids(Component(s)) ==> Reaches(Links(g), a, b)
  {
    hide Reaches;
    var last := |s.stack| - 1;
    var top, comp := s.stack[last], Component(s);
    forall c | 0 <= c < |comp| ensures Reaches(Links(g), comp[c].id, top.id) && Reaches(Links(g), top.id, comp[c].id) {
      if c == |comp| - 1 {
        ReachSelf(Links(g), top.id);
      } else {
        var k := top.since + c;
        assert comp[c] == s.finished[k] && Climbs(g, s.stack, s.finished[k].id, k);
        var j :| 0 <= j < |s.stack| && s.stack[j].since <= k && Reaches(Links(g), s.finished[k].id, s.stack[j].id);
        if j < last {
          ReachThen(Links(g), comp[c].id, s.stack[j].id, top.id);
        }
      }
    }
    forall a, b | a in Ids(comp) && b in Ids(comp) ensures Reaches(Links(g), a, b) {
      var i, j :| 0 <= i < |comp| && Ids(comp)[i] == a && 0 <= j < |comp| && Ids(comp)[j] == b;
      ReachThen(Links(g), comp[i].id, top.id, comp[j].id);
    }
  }

  // No entry of the component leads to a node neither read nor in it.
  lemma ComponentClosed(g: Graph, s: State)
    requires Heads(g, s) && s.stack[|s.stack| - 1].since <= |s.finished|
    requires StackFollowed(g, s.met, s.stack, s.next, s.low) && FinishedFollowed(g, s.met, s.stack, s.finished, s.low)
    requires forall x :: x in Ids(Component(s)) <==> x in s.met && s.met[x] >= s.stack[|s.stack| - 1].num
    requires forall x :: x in s.met ==> s.met[x] >= READ
    ensures forall a, b :: a in Ids(Component(s)) && Links(g)(a, b) ==>
      b in Ids(Component(s)) || (b in s.met && s.met[b] == READ)
  {
    var last := |s.stack| - 1;
    var top, comp := s.stack[last], Component(s);
    forall a, b | a in Ids(comp) && Links(g)(a, b)
      ensures b in Ids(comp) || (b in s.met && s.met[b] == READ)
    {
      var c :| 0 <= c < |comp| && Ids(comp)[c] == a;
      var n :| 0 <= n < |g(a)| && g(a)[n] == Some(b);
      if c < |comp| - 1 {
        assert comp[c] == s.finished[top.since + c];
        assert AllFollowed(g, s.met, s.low, last, a);
      }
      assert Followed(s.met, s.low, last, g(a)[n]);
    }
  }

  // A component whose entries lead into it or to nodes read already comes next.
  lemma LaidOutOn(g: Graph, out: seq<Id>, part: seq<nat>, comp: seq<Id>)
    requires LaidOut(g, out, part) && comp != []
    requires forall i, j :: 0 <= i < j < |comp| ==> comp[i] != comp[j]
    requires forall x :: x in comp ==> x !in out
    requires forall a, b :: a in comp && b in comp ==> Reaches(Links(g), a, b)
    requires forall a, b :: a in comp && Links(g)(a, b) ==> b in comp || b in out
    ensures LaidOut(g, out + comp, part + seq(|comp|, _ => |out|))
  {
    hide Reaches, ReadBy;
    var on, parts := out + comp, part + seq(|comp|, _ => |out|);
    assert forall i :: 0 <= i < |out| ==> on[i] == out[i] && on[i] in out && parts[i] == part[i];
    assert forall i :: |out| <= i < |on| ==> on[i] == comp[i - |out|] && on[i] in comp && parts[i] == |out|;
    forall i, b | 0 <= i < |on| && Links(g)(on[i], b) ensures ReadBy(on, parts, parts[i], b) {
      if i < |out| {
        assert ReadBy(out, part, part[i], b);
        ReadStill(out, part, on, parts, part[i], b);
      } else {
        ReadNow(out, part, comp, b);
      }
    }
  }

  lemma ReadStill(out: seq<Id>, part: seq<nat>, on: seq<Id>, parts: seq<nat>, n: nat, b: Id)
    requires ReadBy(out, part, n, b) && |out| == |part| && out <= on && part <= parts
    ensures ReadBy(on, parts, n, b)
  {
    var m :| 0 <= m < |out| && m < |part| && out[m] == b && part[m] <= n;
    assert on[m] == b && parts[m] <= n;
  }

  lemma ReadNow(out: seq<Id>, part: seq<nat>, comp: seq<Id>, b: Id)
    requires |out| == |part| && (b in out || b in comp) && forall i :: 0 <= i < |part| ==> part[i] < |out|
    ensures ReadBy(out + comp, part + seq(|comp|, _ => |out|), |out|, b)
  {
    var on, parts := out + comp, part + seq(|comp|, _ => |out|);
    if b in out {
      var m :| 0 <= m < |out| && out[m] == b;
      assert on[m] == b && parts[m] <= |out|;
    } else {
      var m :| 0 <= m < |comp| && comp[m] == b;
      assert on[|out| + m] == b && parts[|out| + m] <= |out|;
    }
  }

  lemma CloseLaidOut(g: Graph, s: State)
    requires Heads(g, s) && |s.next| == |s.low| == |s.stack|
    requires Numbered(s.met, s.stack) && Numbered(s.met, s.finished)
    requires AllPlaced(s.met, s.count, s.stack, s.finished)
    requires Rising(s.stack, |s.finished|) && Split(s.stack, s.finished)
    requires LeadsDown(g, s.stack, s.finished) && LeadsUp(g, s.stack, s.finished)
    requires StackFollowed(g, s.met, s.stack, s.next, s.low) && FinishedFollowed(g, s.met, s.stack, s.finished, s.low)
    requires LaidOut(g, s.out, s.part) && ReadSoFar(s.met, s.out)
    ensures var t := Close(s); LaidOut(g, t.out, t.part)
  {
    hide Reaches;
    CloseIs(s);
    ComponentIs(s);
    ComponentNumbers(s);
    ComponentMutual(g, s);
    ComponentClosed(g, s);
    var comp := Component(s);
    forall i, j | 0 <= i < j < |comp| ensures Ids(comp)[i] != Ids(comp)[j] {
      assert comp[i] in comp && comp[j] in comp;
    }
    LaidOutOn(g, s.out, s.part, Ids(comp));
  }

  /** A component's first node done: the component is read. */
  lemma CloseCounted(g: Graph, root: Id, s: State)
    requires Counted(g, root, s) && Heads(g, s)
    ensures Counted(g, root, Close(s))
  {
    LowestHead(s);
    hide Reaches, Numbered, AllPlaced, Split, LeadsDown, LeadsUp, LowsShown, StackFollowed, FinishedFollowed, LaidOut,
      ReadSoFar, FromRoot, ReadFrom;
    CloseIs(s);
    CloseReads(s);
    ClosePlaces(s);
    CloseLeads(g, s);
    CloseLaidOut(g, s);
    CloseStack(g, s);
    CloseFinished(g, s);
    CloseLows(g, s);
    CloseRest(g, root, s);
  }

  lemma LowestHead(s: State)
    requires s.stack != [] && |s.low| == |s.stack| && s.low[|s.stack| - 1] == s.stack[|s.stack| - 1].num
    requires Rising(s.stack, |s.finished|) && forall j :: 0 <= j < |s.stack| ==> s.low[j] <= s.stack[j].num
    ensures Lowered(s.low) == Front(s.low)
  {
  }

  lemma CloseLows(g: Graph, s: State)
    requires LowsShown(g, s.met, s.stack, s.low) && s.stack != [] && |s.next| == |s.stack| && Rising(s.stack, |s.finished|)
    requires ReadFrom(s.met, Close(s).met, s.stack[|s.stack| - 1].num) && Lowered(s.low) == Front(s.low)
    ensures var t := Close(s); LowsShown(g, t.met, t.stack, t.low)
  {
    hide Reaches;
    CloseIs(s);
    CloseShown(g, s.met, Close(s).met, s.stack, s.low);
  }

  lemma CloseRest(g: Graph, root: Id, s: State)
    requires s.stack != [] && |s.next| == |s.low| == |s.stack| && s.stack[|s.stack| - 1].since <= |s.finished|
    requires Numbered(s.met, s.stack) && Numbered(s.met, s.finished) && AllPlaced(s.met, s.count, s.stack, s.finished)
    requires Rising(s.stack, |s.finished|) && Split(s.stack, s.finished)
    requires FromRoot(g, root, s.met) && ReadSoFar(s.met, s.out)
    ensures var t := Close(s); FromRoot(g, root, t.met) && ReadSoFar(t.met, t.out)
  {
    hide Reaches;
    CloseIs(s);
    ComponentIs(s);
    var t := Close(s);
    assert FromRoot(g, root, t.met);
  }

  // ----- the order nodes are read in -----

  ghost function TrailOf(s: State): Trail {
    Trail(s.met.Keys, Ids(s.stack), s.next, Ids(s.finished), s.out)
  }

  /** What holds between steps: the numbers and low-links show what they should, and the
      nodes done so far are in the order a depth-first walk is to read them. */
  ghost predicate Sound(g: Graph, root: Id, s: State) {
    Counted(g, root, s) && Ordered(g, root, TrailOf(s))
  }

  // What is met is read, waits, or is on the stack.
  lemma MetIsPlaced(s: State, b: Id)
    requires AllPlaced(s.met, s.count, s.stack, s.finished) && ReadSoFar(s.met, s.out) && b in s.met
    ensures b in s.out || Placed(s.stack, s.finished, b)
    ensures Placed(s.stack, s.finished, b) ==> b in Ids(s.stack) || b in Ids(s.finished)
  {
    if Placed(s.stack, s.finished, b) {
      if j :| 0 <= j < |s.stack| && s.stack[j].id == b {
        assert Ids(s.stack)[j] == b;
      } else {
        var k :| 0 <= k < |s.finished| && s.finished[k].id == b;
        assert Ids(s.finished)[k] == b;
      }
    }
  }

  lemma PlacedLeads(g: Graph, stack: seq<Mark>, finished: seq<Mark>, b: Id)
    requires LeadsDown(g, stack, finished) && LeadsUp(g, stack, finished) && Placed(stack, finished, b) && stack != []
    ensures Reaches(Links(g), b, stack[|stack| - 1].id)
  {
    hide Reaches;
    var last := |stack| - 1;
    ReachSelf(Links(g), b);
    if j :| 0 <= j < |stack| && stack[j].id == b {
      assert j < last ==> Reaches(Links(g), stack[j].id, stack[last].id);
    } else {
      var k :| 0 <= k < |finished| && finished[k].id == b;
      assert Climbs(g, stack, finished[k].id, k);
      var j :| 0 <= j < |stack| && stack[j].since <= k && Reaches(Links(g), b, stack[j].id);
      if j < last {
        ReachThen(Links(g), b, stack[j].id, stack[last].id);
      }
    }
  }

  lemma TopHasSettled(g: Graph, root: Id, s: State)
    requires Counted(g, root, s)
    ensures TopSettles(g, TrailOf(s))
  {
    hide Reaches, Numbered, AllPlaced, Rising, Split, LeadsDown, LeadsUp, LowsShown, StackFollowed, FinishedFollowed,
      LaidOut, ReadSoFar, FromRoot, Placed;
    if s.stack != [] {
      forall b | b in s.met
        ensures !Reaches(Links(g), b, s.stack[|s.stack| - 1].id) ==> b in s.out
        ensures b in Ids(s.stack) || b in Ids(s.finished) || b in s.out
      {
        MetIsPlaced(s, b);
        if Placed(s.stack, s.finished, b) {
          PlacedLeads(g, s.stack, s.finished, b);
        }
      }
    }
  }

  ghost predicate EntriesMet(g: Graph, t: Trail) {
    forall j, n :: 0 <= j < |t.path| && j < |t.next| && 0 <= n < t.next[j] && n < |g(t.path[j])| && g(t.path[j])[n].Some? ==>
      g(t.path[j])[n].value in t.met
  }

  lemma FollowedIsMet(g: Graph, s: State)
    requires StackFollowed(g, s.met, s.stack, s.next, s.low)
    ensures |s.next| == |s.stack| && EntriesMet(g, TrailOf(s))
  {
    forall j, n | 0 <= j < |s.stack| && 0 <= n < s.next[j] && n < |g(s.stack[j].id)| && g(s.stack[j].id)[n].Some?
      ensures g(s.stack[j].id)[n].value in s.met
    {
      assert Followed(s.met, s.low, j, g(s.stack[j].id)[n]);
    }
  }

  lemma ReadIsClosed(g: Graph, out: seq<Id>, part: seq<nat>)
    requires LaidOut(g, out, part)
    ensures forall x, y :: x in out && Links(g)(x, y) ==> y in out
    ensures forall i, j :: 0 <= i < j < |out| ==> out[i] != out[j]
  {
    hide Reaches;
    forall x, y | x in out && Links(g)(x, y) ensures y in out {
      var i :| 0 <= i < |out| && out[i] == x;
      assert ReadBy(out, part, part[i], y);
    }
  }

  lemma CountedHas(g: Graph, root: Id, s: State)
    requires Counted(g, root, s)
    ensures |s.next| == |s.low| == |s.stack| && EntriesMet(g, TrailOf(s))
    ensures s.stack != [] ==> s.stack[|s.stack| - 1].since <= |s.finished|
    ensures forall x, y :: x in s.out && Links(g)(x, y) ==> y in s.out
    ensures forall i, j :: 0 <= i < j < |s.out| ==> s.out[i] != s.out[j]
  {
    hide Reaches, Numbered, AllPlaced, Split, LeadsDown, LeadsUp, FinishedFollowed, LaidOut, ReadSoFar, FromRoot;
    FollowedIsMet(g, s);
    ReadIsClosed(g, s.out, s.part);
  }

  lemma StartSound(g: Graph, root: Id)
    ensures Sound(g, root, Started(root))
  {
    hide Counted, Ordered;
    StartCounted(g, root);
    StartOrdered(g, root);
    assert TrailOf(Started(root)) == Trail({root}, [root], [0], [], []);
  }

  // Numbers need not be consecutive.
  lemma CountOn(g: Graph, root: Id, s: State, n: nat)
    requires Sound(g, root, s) && s.count <= n
    ensures Sound(g, root, s.(count := n))
  {
    hide Counted, Ordered;
    NumberOn(g, root, s, n);
    assert TrailOf(s.(count := n)) == TrailOf(s);
  }

  lemma FollowSound(g: Graph, root: Id, s: State, n: int)
    requires Sound(g, root, s) && FollowsTo(g, s, n)
    ensures Sound(g, root, Follow(s, n))
  {
    hide Counted, Ordered, TopSettles;
    FollowCounted(g, root, s, n);
    TopHasSettled(g, root, Follow(s, n));
    FollowOrdered(g, root, TrailOf(s), TrailOf(Follow(s, n)));
  }

  lemma MeetSound(g: Graph, root: Id, s: State, x: Id)
    requires Sound(g, root, s) && Meets(g, s, x)
    ensures Sound(g, root, Meet(s, x))
  {
    hide Counted, Ordered;
    MeetCounted(g, root, s, x);
    var t := Meet(s, x);
    assert t.met.Keys == s.met.Keys + {x} && Ids(t.stack) == Ids(s.stack) + [x];
    MeetOrdered(g, root, TrailOf(s), TrailOf(t), x);
  }

  /** A node not the first of its component waits among the finished. */
  lemma FinishSound(g: Graph, root: Id, s: State)
    requires Sound(g, root, s) && Exhausted(g, s) && s.low[|s.stack| - 1] < s.stack[|s.stack| - 1].num
    ensures Sound(g, root, Finish(s))
  {
    hide Counted, Ordered, TopSettles;
    FinishCounted(g, root, s);
    TopHasSettled(g, root, s);
    TopHasSettled(g, root, Finish(s));
    CountedHas(g, root, Finish(s));
    var t, last := Finish(s), |s.stack| - 1;
    assert Ids(t.stack) == Ids(s.stack)[..last] && Ids(t.finished) == Ids(s.finished) + [Ids(s.stack)[last]];
    FinishOrdered(g, root, TrailOf(s), TrailOf(t));
  }

  /** A component's first node done: the component is read. */
  lemma CloseSound(g: Graph, root: Id, s: State)
    requires Sound(g, root, s) && Heads(g, s)
    ensures Sound(g, root, Close(s))
  {
    hide Counted, Ordered, TopSettles;
    CountedHas(g, root, s);
    CloseCounted(g, root, s);
    var t := Close(s);
    TopHasSettled(g, root, s);
    TopHasSettled(g, root, t);
    CountedHas(g, root, t);
    CloseTrail(s);
    CloseOrdered(g, root, TrailOf(s), TrailOf(t), s.stack[|s.stack| - 1].since);
  }

  lemma CloseTrail(s: State)
    requires s.stack != [] && |s.next| == |s.low| == |s.stack| && s.stack[|s.stack| - 1].since <= |s.finished|
    ensures var n, last, t := s.stack[|s.stack| - 1].since, |s.stack| - 1, TrailOf(s);
      TrailOf(Close(s)) == t.(path := t.path[..last], next := t.next[..last], waiting := t.waiting[..n],
        out := t.out + (t.waiting[n..] + [t.path[last]]))
  {
    CloseIs(s);
    var n, last, t := s.stack[|s.stack| - 1].since, |s.stack| - 1, Close(s);
    assert Ids(t.stack) == Ids(s.stack)[..last] && Ids(t.finished) == Ids(s.finished)[..n];
    assert Ids(Component(s)) == Ids(s.finished)[n..] + [Ids(s.stack)[last]];
  }

  // ----- what layout order means -----

  // What out[i] leads to was read no later than its component.
  lemma LeadsEarlier(g: Graph, out: seq<Id>, part: seq<nat>, i: nat, b: Id)
    requires LaidOut(g, out, part) && i < |out| && Reaches(Links(g), out[i], b)
    ensures ReadBy(out, part, part[i], b)
  {
    var within := iset x | ReadBy(out, part, part[i], x);
    forall x, y | x in within && Links(g)(x, y) ensures y in within {
      var m :| 0 <= m < |out| && m < |part| && out[m] == x && part[m] <= part[i];
      assert ReadBy(out, part, part[m], y);
      var k :| 0 <= k < |out| && k < |part| && out[k] == y && part[k] <= part[m];
    }
    assert ReadBy(out, part, part[i], out[i]);
    ReachWithin(Links(g), within, out[i], b);
  }

  /** out holds what root leads to, each node once; a node comes after every node
      it leads to that does not lead back, and nodes that lead to each other come
      together.  Nodes are met by the entries that lead to them first, in the order of
      the entries, and a node is done only after all that is met inside it. */
  ghost predicate InLayoutOrder(g: Graph, root: Id, out: seq<Id>) {
    && InTrailOrder(g, root, out)
    && (forall x :: x in out <==> Reaches(Links(g), root, x))
    && (forall i, j :: 0 <= i < j < |out| ==> out[i] != out[j])
    && (forall i, j :: 0 <= i < |out| && 0 <= j < |out| && Reaches(Links(g), out[i], out[j]) && !Reaches(Links(g), out[j], out[i]) ==> j < i)
    && (forall i, j, k :: 0 <= i < j < k < |out| && Reaches(Links(g), out[k], out[i]) && Reaches(Links(g), out[i], out[k]) ==>
      Reaches(Links(g), out[i], out[j]) && Reaches(Links(g), out[j], out[i]))
  }

  // With nothing left to follow, all met is read.
  lemma DoneReads(g: Graph, root: Id, s: State)
    requires Counted(g, root, s) && s.stack == []
    ensures forall x :: x in s.met <==> x in s.out
  {
    hide Reaches, LeadsDown, LeadsUp, LowsShown, StackFollowed, FinishedFollowed, LaidOut, FromRoot;
    assert s.finished == [];
    forall x | x in s.met ensures x in s.out {
      assert !Placed(s.stack, s.finished, x);
    }
  }

  lemma ReadsReached(g: Graph, root: Id, out: seq<Id>, part: seq<nat>)
    requires LaidOut(g, out, part) && root in out
    ensures forall x :: Reaches(Links(g), root, x) ==> x in out
    ensures forall i, j :: 0 <= i < j < |out| ==> out[i] != out[j]
  {
    hide Reaches;
    var at :| 0 <= at < |out| && out[at] == root;
    forall x | Reaches(Links(g), root, x) ensures x in out {
      LeadsEarlier(g, out, part, at, x);
    }
  }

  lemma DoneInLayoutOrder(g: Graph, root: Id, s: State)
    requires Sound(g, root, s) && s.stack == []
    ensures InLayoutOrder(g, root, s.out)
  {
    hide Reaches, LeadsDown, LeadsUp, LowsShown, StackFollowed, FinishedFollowed, Numbered, AllPlaced, Split, ReadSoFar,
      LaidOut, Ordered, InTrailOrder;
    DoneReads(g, root, s);
    ReadsReached(g, root, s.out, s.part);
    LaidOutOrder(g, s.out, s.part);
    assert s.finished == [];
    OrderedThrough(g, root, TrailOf(s));
  }

  lemma LaidOutOrder(g: Graph, out: seq<Id>, part: seq<nat>)
    requires LaidOut(g, out, part)
    ensures forall i, j :: 0 <= i < |out| && 0 <= j < |out| && Reaches(Links(g), out[i], out[j]) && !Reaches(Links(g), out[j], out[i]) ==> j < i
    ensures forall i, j, k :: 0 <= i < j < k < |out| && Reaches(Links(g), out[k], out[i]) && Reaches(Links(g), out[i], out[k]) ==>
      Reaches(Links(g), out[i], out[j]) && Reaches(Links(g), out[j], out[i])
  {
    hide Reaches;
    forall i, j | 0 <= i < |out| && 0 <= j < |out| && Reaches(Links(g), out[i], out[j]) ensures part[j] <= part[i] {
      LeadsEarlier(g, out, part, i, out[j]);
    }
  }
}
