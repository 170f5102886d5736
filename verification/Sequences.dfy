/** Orders of sequences, sorting by one, and cutting a sequence at a mark. */
module Sequences {
  import opened Values

  type Order<!T(!new)> = (T, T) -> bool

  /** Of two that differ one comes first, and what comes first does so of all that follow. */
  ghost predicate IsTotal<T(!new)>(before: Order<T>) {
    && (forall a, b :: !(before(a, b) && before(b, a)) && (a == b || before(a, b) || before(b, a)))
    && (forall a, b, c :: before(a, b) && before(b, c) ==> before(a, c))
  }

  /** An order that may leave two that differ as they are. */
  ghost predicate IsWeak<T(!new)>(before: Order<T>) {
    && (forall a, b :: !(before(a, b) && before(b, a)))
    && (forall a, b, c :: !before(b, a) && !before(c, b) ==> !before(c, a))
  }

  // ----- dictionary order -----

  predicate Less<T(==, !new)>(before: Order<T>, a: seq<T>, b: seq<T>) {
    b != [] && (a == [] || before(a[0], b[0]) || (a[0] == b[0] && Less(before, a[1..], b[1..])))
  }

  lemma {:induction false} LessIsTotal<T(!new)>(before: Order<T>, a: seq<T>, b: seq<T>)
    requires IsTotal(before)
    ensures a == b || Less(before, a, b) || Less(before, b, a)
    ensures !(Less(before, a, b) && Less(before, b, a)) && !Less(before, a, a)
  {
    if a != [] && b != [] && a[0] == b[0] {
      LessIsTotal(before, a[1..], b[1..]);
      assert a == [a[0]] + a[1..] && b == [b[0]] + b[1..];
    }
    if a != [] {
      LessIsTotal(before, a[1..], a[1..]);
    }
  }

  lemma {:induction false} LessThen<T(!new)>(before: Order<T>, a: seq<T>, b: seq<T>, c: seq<T>)
    requires IsTotal(before) && Less(before, a, b) && Less(before, b, c)
    ensures Less(before, a, c)
  {
    if a != [] && a[0] == b[0] == c[0] {
      LessThen(before, a[1..], b[1..], c[1..]);
    }
  }

  predicate CharBefore(a: char, b: char) {
    a < b
  }

  predicate TextBefore(a: string, b: string) {
    Less(CharBefore, a, b)
  }

  lemma TextIsTotal(a: string, b: string)
    ensures a == b || TextBefore(a, b) || TextBefore(b, a)
    ensures !(TextBefore(a, b) && TextBefore(b, a)) && !TextBefore(a, a)
  {
    LessIsTotal(CharBefore, a, b);
    LessIsTotal(CharBefore, a, a);
  }

  lemma TextThen(a: string, b: string, c: string)
    requires TextBefore(a, b) && TextBefore(b, c)
    ensures TextBefore(a, c)
  {
    LessThen(CharBefore, a, b, c);
  }

  predicate DiffersAt<T(==, !new)>(before: Order<T>, a: seq<T>, b: seq<T>, i: nat) {
    i < |a| && i < |b| && a[..i] == b[..i] && before(a[i], b[i])
  }

  /** One comes before another that goes on from it, or that has a later element where
      they first differ. */
  lemma {:induction false} LessReads<T(!new)>(before: Order<T>, a: seq<T>, b: seq<T>)
    ensures Less(before, a, b) <==> a < b || exists i: nat :: DiffersAt(before, a, b, i)
  {
    if a != [] && b != [] {
      var x, y := a[1..], b[1..];
      assert DiffersAt(before, a, b, 0) <==> before(a[0], b[0]);
      LessReads(before, x, y);
      assert a < b <==> a[0] == b[0] && x < y by {
        assert a == [a[0]] + x && b == [b[0]] + y;
      }
      if i: nat :| DiffersAt(before, a, b, i) {
        if i > 0 {
          DiffersOn(before, a, b, i - 1);
        }
      } else if a[0] == b[0] && Less(before, x, y) && !(x < y) {
        var j: nat :| DiffersAt(before, x, y, j);
        DiffersOn(before, a, b, j);
      }
    }
  }

  lemma DiffersOn<T(!new)>(before: Order<T>, a: seq<T>, b: seq<T>, i: nat)
    requires a != [] && b != []
    ensures DiffersAt(before, a, b, i + 1) <==> a[0] == b[0] && DiffersAt(before, a[1..], b[1..], i)
  {
    var x, y := a[1..], b[1..];
    if i < |x| && i < |y| {
      assert a[..i + 1] == [a[0]] + x[..i] && b[..i + 1] == [b[0]] + y[..i];
      assert ([a[0]] + x[..i])[1..] == x[..i] && ([b[0]] + y[..i])[1..] == y[..i];
      assert ([a[0]] + x[..i])[0] == a[0] && ([b[0]] + y[..i])[0] == b[0];
    }
  }

  /** Text is in the order of its characters' numbers. */
  lemma TextByCharacter(a: string, b: string)
    ensures TextBefore(a, b) <==>
      a < b || exists i :: 0 <= i < |a| && i < |b| && a[..i] == b[..i] && a[i] as int < b[i] as int
  {
    LessReads(CharBefore, a, b);
    if i :| 0 <= i < |a| && i < |b| && a[..i] == b[..i] && a[i] as int < b[i] as int {
      assert DiffersAt(CharBefore, a, b, i);
    }
  }

  // ----- sorting -----

  predicate Ordered<T(!new)>(before: Order<T>, s: seq<T>) {
    forall i, j :: 0 <= i < j < |s| ==> !before(s[j], s[i])
  }

  function Insert<T(!new)>(before: Order<T>, x: T, s: seq<T>): seq<T> {
    if s == [] || !before(s[0], x) then [x] + s else [s[0]] + Insert(before, x, s[1..])
  }

  function Sort<T(!new)>(before: Order<T>, s: seq<T>): seq<T> {
    if s == [] then [] else Insert(before, s[0], Sort(before, s[1..]))
  }

  lemma {:induction false} InsertHolds<T(!new)>(before: Order<T>, x: T, s: seq<T>)
    ensures multiset(Insert(before, x, s)) == multiset{x} + multiset(s) && |Insert(before, x, s)| == 1 + |s|
  {
    if s != [] && before(s[0], x) {
      InsertHolds(before, x, s[1..]);
      assert s == [s[0]] + s[1..];
    }
  }

  lemma {:induction false} InsertOrders<T(!new)>(before: Order<T>, x: T, s: seq<T>)
    requires IsWeak(before) && Ordered(before, s)
    ensures Ordered(before, Insert(before, x, s))
  {
    if s != [] && before(s[0], x) {
      InsertOrders(before, x, s[1..]);
      InsertHolds(before, x, s[1..]);
      var rest := Insert(before, x, s[1..]);
      forall j | 0 <= j < |rest| ensures !before(rest[j], s[0]) {
        assert rest[j] in multiset(rest);
        if rest[j] != x {
          var k :| 0 <= k < |s[1..]| && s[1..][k] == rest[j];
          assert s[k + 1] == rest[j];
        }
      }
    }
  }

  /** Sorting gives the same elements in order. */
  lemma {:induction false} SortKeeps<T(!new)>(before: Order<T>, s: seq<T>)
    requires IsWeak(before)
    ensures Ordered(before, Sort(before, s)) && multiset(Sort(before, s)) == multiset(s) && |Sort(before, s)| == |s|
  {
    if s != [] {
      SortKeeps(before, s[1..]);
      InsertOrders(before, s[0], Sort(before, s[1..]));
      InsertHolds(before, s[0], Sort(before, s[1..]));
      assert s == [s[0]] + s[1..];
    }
  }

  lemma TwiceCounts<T>(s: seq<T>, i: nat, j: nat)
    requires i < j < |s| && s[i] == s[j]
    ensures multiset(s)[s[i]] >= 2
  {
    assert s == s[..j] + [s[j]] + s[j + 1..];
    assert s[..j][i] == s[i] && s[i] in s[..j];
  }

  // No two elements that differ may stand either way.
  ghost predicate Decided<T(!new)>(before: Order<T>, s: seq<T>) {
    forall x, y :: x in s && y in s && x != y ==> before(x, y) || before(y, x)
  }

  lemma OrderedTail<T(!new)>(before: Order<T>, s: seq<T>)
    requires Ordered(before, s) && s != []
    ensures Ordered(before, s[1..]) && multiset(s[1..]) == multiset(s) - multiset{s[0]}
    ensures Decided(before, s) ==> Decided(before, s[1..])
  {
    assert s == [s[0]] + s[1..];
  }

  // Both of two orders of the same elements open with the least.
  lemma OneFirst<T(!new)>(before: Order<T>, a: seq<T>, b: seq<T>)
    requires Ordered(before, a) && Ordered(before, b) && multiset(a) == multiset(b) && a != [] && Decided(before, a)
    ensures b != [] && a[0] == b[0]
  {
    assert a[0] in multiset(b);
    var i :| 0 <= i < |b| && b[i] == a[0];
    assert b[0] in multiset(a);
    var j :| 0 <= j < |a| && a[j] == b[0];
  }

  /** Elements have one order, when no two of them may stand either way. */
  lemma {:induction false} OneOrder<T(!new)>(before: Order<T>, a: seq<T>, b: seq<T>)
    requires Ordered(before, a) && Ordered(before, b) && multiset(a) == multiset(b) && Decided(before, a)
    ensures a == b
  {
    hide Ordered, Decided;
    if a == [] {
      assert |multiset(b)| == 0;
    } else {
      OneFirst(before, a, b);
      assert a == [a[0]] + a[1..] && b == [b[0]] + b[1..];
      OrderedTail(before, a);
      OrderedTail(before, b);
      OneOrder(before, a[1..], b[1..]);
    }
  }

  // ----- the elements of a set, in order -----

  lemma TextIsWeak()
    ensures IsWeak(TextBefore)
  {
    hide TextBefore;
    forall a, b, c ensures !(TextBefore(a, b) && TextBefore(b, a)) && (!TextBefore(b, a) && !TextBefore(c, b) ==> !TextBefore(c, a)) {
      TextIsTotal(a, b);
      TextIsTotal(b, c);
      TextIsTotal(a, c);
      if TextBefore(a, b) && TextBefore(b, c) {
        TextThen(a, b, c);
      }
    }
  }

  /** The strings of s, each once, in order. */
  method SortedKeys(s: set<string>) returns (sorted: seq<string>)
    ensures forall x :: x in sorted <==> x in s
    ensures forall i, j :: 0 <= i < j < |sorted| ==> TextBefore(sorted[i], sorted[j])
  {
    hide TextBefore;
    var left, listed := s, [];
    while left != {}
      invariant left <= s && (forall x :: x in listed <==> x in s && x !in left)
      invariant forall i, j :: 0 <= i < j < |listed| ==> listed[i] != listed[j]
      decreases left
    {
      var x :| x in left;
      assert forall i :: 0 <= i < |listed| ==> listed[i] in listed;
      left, listed := left - {x}, listed + [x];
    }
    sorted := Sort(TextBefore, listed);
    SortedApart(listed, sorted);
  }

  lemma SortedApart(listed: seq<string>, sorted: seq<string>)
    requires forall i, j :: 0 <= i < j < |listed| ==> listed[i] != listed[j]
    requires sorted == Sort(TextBefore, listed)
    ensures forall x :: x in sorted <==> x in listed
    ensures forall i, j :: 0 <= i < j < |sorted| ==> TextBefore(sorted[i], sorted[j])
  {
    hide TextBefore;
    TextIsWeak();
    SortKeeps(TextBefore, listed);
    forall x ensures x in sorted <==> x in listed {
      assert x in multiset(sorted) <==> x in multiset(listed);
    }
    forall i, j | 0 <= i < j < |sorted| ensures TextBefore(sorted[i], sorted[j]) {
      TextIsTotal(sorted[i], sorted[j]);
      if sorted[i] == sorted[j] {
        TwiceCounts(sorted, i, j);
        OnceCounts(listed, sorted[i]);
      }
    }
  }

  lemma {:induction false} OnceCounts<T>(s: seq<T>, x: T)
    requires forall i, j :: 0 <= i < j < |s| ==> s[i] != s[j]
    ensures multiset(s)[x] <= 1 && (x !in s ==> multiset(s)[x] == 0)
  {
    if s != [] {
      assert s == [s[0]] + s[1..];
      OnceCounts(s[1..], x);
    }
  }

  // ----- cutting -----

  /** What comes before the first mark, and what comes after it, nothing when there is none. */
  function Cut<T(==)>(s: seq<T>, mark: T): (seq<T>, Option<seq<T>>) {
    if s == [] then ([], None)
    else if s[0] == mark then ([], Some(s[1..]))
    else var (head, tail) := Cut(s[1..], mark); ([s[0]] + head, tail)
  }

  lemma {:induction false} CutAt<T>(head: seq<T>, mark: T, tail: seq<T>)
    requires mark !in head
    ensures Cut(head + [mark] + tail, mark) == (head, Some(tail)) && Cut(head, mark) == (head, None)
  {
    if head == [] {
      assert head + [mark] + tail == [mark] + tail;
    } else {
      assert (head + [mark] + tail)[1..] == head[1..] + [mark] + tail;
      CutAt(head[1..], mark, tail);
      assert head == [head[0]] + head[1..];
    }
  }
}
