/** A log of paths, delta-compressed: a path is stored past what it has in common with its
    predecessor. */
module PathLog {
  import opened Values

  /** A stored path: `shared` counts the steps its predecessor supplies, and `end` bounds
      its own among the log's tails. */
  datatype Logged = Logged(root: string, shared: nat, end: nat)

  /** The length of the longest prefix common to a and b. */
  method SharedSteps(a: seq<Step>, b: seq<Step>) returns (n: nat)
    ensures n <= |a| && n <= |b| && a[..n] == b[..n]
    ensures forall m :: 0 <= m <= |a| && m <= |b| && a[..m] == b[..m] ==> m <= n
  {
    n := 0;
    while n < |a| && n < |b| && a[n] == b[n]
      invariant n <= |a| && n <= |b| && a[..n] == b[..n]
    {
      n := n + 1;
    }
    forall m | 0 <= m <= |a| && m <= |b| && a[..m] == b[..m] ensures m <= n {
      PrefixAgrees(a, b, m);
    }
  }

  lemma PrefixAgrees(a: seq<Step>, b: seq<Step>, m: nat)
    requires m <= |a| && m <= |b| && a[..m] == b[..m]
    ensures forall k :: 0 <= k < m ==> a[k] == b[k]
  {
    forall k | 0 <= k < m ensures a[k] == b[k] {
      assert a[..m][k] == b[..m][k];
    }
  }

  /** The paths entries spell over tails, the first after the steps before, its own
      steps from start on. */
  ghost predicate Spells(entries: seq<Logged>, tails: seq<Step>, start: nat, before: seq<Step>, paths: seq<Path>)
    decreases |entries|
  {
    |entries| == |paths| &&
    (entries != [] ==>
       var e := entries[0];
       && e.root == paths[0].root && e.shared <= |before| && start <= e.end <= |tails|
       && paths[0].steps == before[..e.shared] + tails[start..e.end]
       && Spells(entries[1..], tails, e.end, paths[0].steps, paths[1..]))
  }

  // Where the steps of the next path start, and the steps of the last path.
  function EndOf(entries: seq<Logged>, start: nat): nat {
    if entries == [] then start else entries[|entries| - 1].end
  }

  function LastOf(paths: seq<Path>, before: seq<Step>): seq<Step> {
    if paths == [] then before else paths[|paths| - 1].steps
  }

  lemma {:induction false} SpellsOneMore(entries: seq<Logged>, tails: seq<Step>, start: nat, before: seq<Step>,
      paths: seq<Path>, at: Path, shared: nat)
    requires Spells(entries, tails, start, before, paths) && EndOf(entries, start) == |tails|
    requires shared <= |LastOf(paths, before)| && shared <= |at.steps|
    requires at.steps[..shared] == LastOf(paths, before)[..shared]
    ensures Spells(entries + [Logged(at.root, shared, |tails| + |at.steps| - shared)], tails + at.steps[shared..], start, before,
                   paths + [at])
    decreases |entries|
  {
    var more := tails + at.steps[shared..];
    var added := Logged(at.root, shared, |more|);
    if entries == [] {
      assert more[start..|more|] == at.steps[shared..];
      assert at.steps == at.steps[..shared] + at.steps[shared..];
      assert ([added])[1..] == [] && ([at])[1..] == [];
      assert entries + [added] == [added] && paths + [at] == [at];
    } else {
      var e := entries[0];
      SpellsOneMore(entries[1..], tails, e.end, paths[0].steps, paths[1..], at, shared);
      assert (entries + [added])[1..] == entries[1..] + [added] && (paths + [at])[1..] == paths[1..] + [at];
      assert more[start..e.end] == tails[start..e.end];
    }
  }

  /** The paths recorded, kept as their differences. */
  class Log {
    var last: seq<Step>
    var tails: seq<Step>
    var entries: seq<Logged>
    ghost var recorded: seq<Path>

    ghost predicate Valid()
      reads this
    {
      && Spells(entries, tails, 0, [], recorded)
      && EndOf(entries, 0) == |tails| && last == LastOf(recorded, [])
    }

    constructor ()
      ensures Valid() && recorded == []
    {
      last, tails, entries, recorded := [], [], [], [];
    }

    /** Keeps at as the log's next path, storing only the steps it does not share with
        the path before. */
    method Record(at: Path)
      requires Valid()
      modifies this
      ensures Valid() && recorded == old(recorded) + [at]
      ensures |tails| - |old(tails)| <= |at.steps|
      ensures forall m :: 0 <= m <= |old(last)| && m <= |at.steps| && old(last)[..m] == at.steps[..m] ==>
        |tails| - |old(tails)| <= |at.steps| - m
    {
      var shared := SharedSteps(last, at.steps);
      SpellsOneMore(entries, tails, 0, [], recorded, at, shared);
      tails := tails + at.steps[shared..];
      entries := entries + [Logged(at.root, shared, |tails|)];
      last := last[..shared] + at.steps[shared..];
      recorded := recorded + [at];
      assert last == at.steps;
    }

    /** Replays the log: each path recorded, in order. */
    method All() returns (paths: seq<Path>)
      requires Valid()
      ensures paths == recorded
    {
      paths := [];
      var steps: seq<Step>, start: nat := [], 0;
      for i := 0 to |entries|
        invariant paths == recorded[..i] && i <= |recorded| == |entries|
        invariant Spells(entries[i..], tails, start, steps, recorded[i..])
      {
        assert entries[i..][0] == entries[i] && recorded[i..][0] == recorded[i];
        assert entries[i..][1..] == entries[i + 1..] && recorded[i..][1..] == recorded[i + 1..];
        var e := entries[i];
        steps := steps[..e.shared] + tails[start..e.end];
        start := e.end;
        paths := paths + [Path(e.root, steps)];
      }
    }
  }

  /** Recorded one by one and replayed, paths come back as they went in. */
  method Replay(paths: seq<Path>) returns (replayed: seq<Path>)
    ensures replayed == paths
  {
    var log := new Log();
    for i := 0 to |paths|
      invariant fresh(log) && log.Valid() && log.recorded == paths[..i]
    {
      log.Record(paths[i]);
    }
    replayed := log.All();
  }
}
