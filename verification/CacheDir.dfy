/** The directory the compile cache keeps entries in, and the bound on what it holds. */
module CacheDir {
  import opened Values
  import opened Numbers
  import opened Sequences
  import opened CacheKeys

  const RECORD_WIDTH: nat := 21
  const MAX_RECORDS: nat := 4096

  // ----- ledger records -----

  /** n in w decimal digits, its high digits dropped when there is no room. */
  function Padded(n: nat, w: nat): (r: Bytes)
    ensures |r| == w
  {
    if w == 0 then [] else Padded(n / 10, w - 1) + [(48 + n % 10) as byte]
  }

  predicate IsDigit(b: byte) {
    48 <= b <= 57
  }

  function Value(s: Bytes): nat {
    if s == [] then 0
    else 10 * Value(s[..|s| - 1]) + if IsDigit(s[|s| - 1]) then s[|s| - 1] as nat - 48 else 0
  }

  /** The integer a string spells in base ten, with a sign or without, nothing for another. */
  function Atoi(s: Bytes): Option<int> {
    var signed := s != [] && (s[0] == 43 || s[0] == 45);
    var digits := if signed then s[1..] else s;
    if digits == [] || exists i :: 0 <= i < |digits| && !IsDigit(digits[i]) then None
    else Some(if signed && s[0] == 45 then 0 - Value(digits) else Value(digits))
  }

  lemma {:induction false} PaddedReadsBack(n: nat, w: nat)
    requires n < Pow10(w)
    ensures Value(Padded(n, w)) == n && forall i :: 0 <= i < w ==> IsDigit(Padded(n, w)[i])
  {
    if w > 0 {
      PaddedReadsBack(n / 10, w - 1);
      assert Padded(n, w)[..w - 1] == Padded(n / 10, w - 1);
    }
  }

  /** The record a Store of size bytes appends. */
  function Record(size: nat): (r: Bytes)
    ensures |r| == RECORD_WIDTH
  {
    Padded(size, RECORD_WIDTH - 1) + [10]
  }

  /** What one record holds: a size up to limit, or nothing for what is no record. */
  function SizeIn(record: Bytes, limit: nat): Option<nat>
    requires |record| == RECORD_WIDTH
  {
    match Atoi(record[..RECORD_WIDTH - 1])
    case None => None
    case Some(n) => if n < 0 || n > limit || record[RECORD_WIDTH - 1] != 10 then None else Some(n)
  }

  lemma RecordReadsBack(size: nat, limit: nat)
    requires size <= limit < Pow10(RECORD_WIDTH - 1)
    ensures SizeIn(Record(size), limit) == Some(size)
  {
    PaddedReadsBack(size, RECORD_WIDTH - 1);
    assert Record(size)[..RECORD_WIDTH - 1] == Padded(size, RECORD_WIDTH - 1);
  }

  function Records(sizes: seq<nat>): Bytes {
    if sizes == [] then [] else Records(sizes[..|sizes| - 1]) + Record(sizes[|sizes| - 1])
  }

  function Sum(sizes: seq<nat>): nat {
    if sizes == [] then 0 else Sum(sizes[..|sizes| - 1]) + sizes[|sizes| - 1]
  }

  // The k-th record of a ledger.
  function Chunk(data: Bytes, k: nat): (r: Bytes)
    requires (k + 1) * RECORD_WIDTH <= |data|
    ensures |r| == RECORD_WIDTH
  {
    data[k * RECORD_WIDTH..(k + 1) * RECORD_WIDTH]
  }

  /** data is whole records of these sizes, each up to limit. */
  ghost predicate Holds(data: Bytes, sizes: seq<nat>, limit: nat) {
    && |data| == |sizes| * RECORD_WIDTH
    && forall k :: 0 <= k < |sizes| ==> (k + 1) * RECORD_WIDTH <= |data| && SizeIn(Chunk(data, k), limit) == Some(sizes[k])
  }

  lemma HoldsOneMore(data: Bytes, sizes: seq<nat>, size: nat, limit: nat)
    requires Holds(data, sizes, limit) && SizeIn(Record(size), limit) == Some(size)
    ensures Holds(data + Record(size), sizes + [size], limit)
  {
    hide SizeIn, Record;
    var more := data + Record(size);
    forall k | 0 <= k < |sizes| + 1
      ensures (k + 1) * RECORD_WIDTH <= |more| && SizeIn(Chunk(more, k), limit) == Some((sizes + [size])[k])
    {
      if k < |sizes| {
        assert Chunk(more, k) == Chunk(data, k);
      } else {
        assert Chunk(more, k) == Record(size);
      }
    }
  }

  lemma {:induction false} RecordsHold(sizes: seq<nat>, limit: nat)
    requires limit < Pow10(RECORD_WIDTH - 1) && forall k :: 0 <= k < |sizes| ==> sizes[k] <= limit
    ensures Holds(Records(sizes), sizes, limit)
  {
    hide SizeIn, Record, Pow10;
    if sizes != [] {
      var rest, last := sizes[..|sizes| - 1], sizes[|sizes| - 1];
      RecordsHold(rest, limit);
      RecordReadsBack(last, limit);
      HoldsOneMore(Records(rest), rest, last, limit);
      assert sizes == rest + [last];
    }
  }

  // No ledger is records of two lists of sizes.
  lemma HoldsOnce(data: Bytes, a: seq<nat>, b: seq<nat>, limit: nat)
    requires Holds(data, a, limit) && Holds(data, b, limit)
    ensures a == b
  {
    assert |a| == |b|;
    forall k | 0 <= k < |a| ensures a[k] == b[k] {
      assert SizeIn(Chunk(data, k), limit) == Some(a[k]);
    }
  }

  /** The ledger's bytes are whole records, few enough, that add up to an eighth of the
      limit at most. */
  ghost predicate Tallies(data: Bytes, limit: nat, sizes: seq<nat>) {
    Holds(data, sizes, limit) && |sizes| <= MAX_RECORDS && Sum(sizes) <= limit / 8
  }

  // A ledger with one record that is none holds no sizes.
  lemma BrokenHolds(data: Bytes, limit: nat, k: nat, sizes: seq<nat>)
    requires (k + 1) * RECORD_WIDTH <= |data| && SizeIn(Chunk(data, k), limit).None?
    ensures !Holds(data, sizes, limit)
  {
    hide SizeIn;
  }

  lemma HoldsTallies(data: Bytes, limit: nat, sizes: seq<nat>)
    requires Holds(data, sizes, limit) && |sizes| <= MAX_RECORDS
    ensures (exists other :: Tallies(data, limit, other)) <==> Sum(sizes) <= limit / 8
  {
    hide Sum, Holds;
    if other :| Tallies(data, limit, other) {
      HoldsOnce(data, other, sizes, limit);
    }
    assert Sum(sizes) <= limit / 8 ==> Tallies(data, limit, sizes);
  }

  /** A prune is due unless the ledger tallies. */
  method TallyDue(data: Bytes, limit: nat) returns (due: bool)
    ensures !due <==> exists sizes :: Tallies(data, limit, sizes)
  {
    hide SizeIn, Chunk;
    if |data| > MAX_RECORDS * RECORD_WIDTH || |data| % RECORD_WIDTH != 0 {
      return true;
    }
    var n := |data| / RECORD_WIDTH;
    var total: nat := 0;
    ghost var sizes: seq<nat> := [];
    for k := 0 to n
      invariant |sizes| == k && total == Sum(sizes)
      invariant forall j :: 0 <= j < k ==> SizeIn(Chunk(data, j), limit) == Some(sizes[j])
    {
      var size := SizeIn(Chunk(data, k), limit);
      if size.None? {
        forall other ensures !Holds(data, other, limit) {
          BrokenHolds(data, limit, k, other);
        }
        return true;
      }
      assert (sizes + [size.value])[..k] == sizes;
      total := total + size.value;
      sizes := sizes + [size.value];
    }
    HoldsTallies(data, limit, sizes);
    due := total > limit / 8;
  }

  // ----- pruning -----

  datatype File = File(name: Bytes, size: nat, modified: int)

  function Total(files: seq<File>): nat {
    if files == [] then 0 else files[0].size + Total(files[1..])
  }

  /** Unused longer, ties in name order. */
  predicate Before(a: File, b: File) {
    a.modified < b.modified || (a.modified == b.modified && BytesBefore(a.name, b.name))
  }

  lemma FilesAreWeak()
    ensures IsWeak(Before)
  {
    forall a, b, c ensures !(Before(a, b) && Before(b, a)) && (!Before(b, a) && !Before(c, b) ==> !Before(c, a)) {
      BytesIsTotal(a.name, b.name);
      BytesIsTotal(b.name, c.name);
      BytesIsTotal(a.name, c.name);
      if BytesBefore(a.name, b.name) && BytesBefore(b.name, c.name) {
        BytesThen(a.name, b.name, c.name);
      }
    }
  }

  lemma {:induction false} InsertTotal(f: File, files: seq<File>)
    ensures Total(Insert(Before, f, files)) == f.size + Total(files)
  {
    hide Before;
    if files != [] && Before(files[0], f) {
      InsertTotal(f, files[1..]);
    }
  }

  lemma {:induction false} SortTotal(files: seq<File>)
    ensures Total(Sort(Before, files)) == Total(files)
  {
    if files != [] {
      SortTotal(files[1..]);
      InsertTotal(files[0], Sort(Before, files[1..]));
    }
  }

  /** The files, unused longest first. */
  lemma SortFiles(files: seq<File>)
    ensures Ordered(Before, Sort(Before, files)) && multiset(Sort(Before, files)) == multiset(files)
    ensures Total(Sort(Before, files)) == Total(files) && |Sort(Before, files)| == |files|
  {
    FilesAreWeak();
    SortKeeps(Before, files);
    SortTotal(files);
  }

  /** Removes the files unused longest: the shortest run of them that makes the rest fit. */
  method Prune(files: seq<File>, limit: nat) returns (kept: seq<File>, ghost gone: nat)
    ensures gone <= |files| == |Sort(Before, files)| && kept == Sort(Before, files)[gone..]
    ensures Total(kept) <= limit
    ensures forall k :: 0 <= k < gone ==> Total(Sort(Before, files)[k..]) > limit
  {
    hide Sort, Before, Ordered;
    SortFiles(files);
    var sorted := Sort(Before, files);
    var total := Total(sorted);
    var i := 0;
    while i < |sorted| && total > limit
      invariant i <= |sorted| && total == Total(sorted[i..])
      invariant forall k :: 0 <= k < i ==> Total(sorted[k..]) > limit
    {
      assert sorted[i..][1..] == sorted[i + 1..];
      total := total - sorted[i].size;
      i := i + 1;
    }
    kept, gone := sorted[i..], i;
  }

  /** What a prune leaves of files: all but the shortest run of those unused longest that
      makes the rest fit. */
  ghost predicate Pruned(files: seq<File>, limit: nat, kept: seq<File>) {
    exists gone: nat :: PrunedBy(files, limit, kept, gone)
  }

  ghost predicate PrunedBy(files: seq<File>, limit: nat, kept: seq<File>, gone: nat) {
    && gone <= |Sort(Before, files)| && kept == Sort(Before, files)[gone..] && Total(kept) <= limit
    && forall k :: 0 <= k < gone ==> Total(Sort(Before, files)[k..]) > limit
  }

  // A removed file was not used after one kept.
  ghost predicate NoOlder(gone: multiset<File>, kept: seq<File>) {
    forall f, g :: f in gone && g in kept ==> f.modified <= g.modified && (f.modified == g.modified ==> !BytesBefore(g.name, f.name))
  }

  /** What fits stays whole.  Of what does not, only files go that were unused no less long
      than any kept, the last of them one that would not fit beside those. */
  lemma OldestGo(files: seq<File>, limit: nat, kept: seq<File>)
    requires Pruned(files, limit, kept)
    ensures multiset(kept) <= multiset(files) && NoOlder(multiset(files) - multiset(kept), kept)
    ensures Total(files) <= limit ==> multiset(kept) == multiset(files)
    ensures Total(files) > limit ==> exists f :: f in multiset(files) - multiset(kept) && Total(kept) + f.size > limit
  {
    hide Sort, Ordered, NoOlder, Before, Total;
    SortFiles(files);
    var sorted := Sort(Before, files);
    var gone: nat :| PrunedBy(files, limit, kept, gone);
    SplitIsOrdered(sorted, gone);
    SplitHolds(sorted, gone);
    assert sorted[0..] == sorted;
    if gone > 0 {
      LastGone(sorted, gone);
    }
  }

  lemma SplitHolds(sorted: seq<File>, gone: nat)
    requires gone <= |sorted|
    ensures multiset(sorted[gone..]) <= multiset(sorted)
    ensures multiset(sorted) - multiset(sorted[gone..]) == multiset(sorted[..gone])
  {
    assert sorted == sorted[..gone] + sorted[gone..];
  }

  lemma LastGone(sorted: seq<File>, gone: nat)
    requires 0 < gone <= |sorted|
    ensures sorted[gone - 1] in multiset(sorted[..gone])
    ensures Total(sorted[gone - 1..]) == sorted[gone - 1].size + Total(sorted[gone..])
  {
    assert sorted[gone - 1..][1..] == sorted[gone..];
    assert sorted[..gone][gone - 1] == sorted[gone - 1];
  }

  lemma SplitIsOrdered(sorted: seq<File>, gone: nat)
    requires Ordered(Before, sorted) && gone <= |sorted|
    ensures NoOlder(multiset(sorted[..gone]), sorted[gone..])
  {
    hide BytesBefore;
    forall f, g | f in multiset(sorted[..gone]) && g in sorted[gone..] ensures !Before(g, f) {
      var i :| 0 <= i < gone && sorted[..gone][i] == f;
      var j :| 0 <= j < |sorted| - gone && sorted[gone..][j] == g;
      assert sorted[i] == f && sorted[gone + j] == g;
    }
  }

  lemma NewestIsLast(sorted: seq<File>, f: File)
    requires Ordered(Before, sorted) && f in sorted && multiset(sorted)[f] == 1
    requires forall g :: g in sorted ==> g == f || Before(g, f)
    ensures sorted[|sorted| - 1] == f
  {
    hide Before;
    var at :| 0 <= at < |sorted| && sorted[at] == f;
    var last := |sorted| - 1;
    if at < last {
      assert sorted[last] in sorted && !Before(sorted[last], sorted[at]);
      TwiceCounts(sorted, at, last);
    }
  }

  /** A file every other comes before outlasts a prune, when it fits alone. */
  lemma NewestStays(files: seq<File>, limit: nat, gone: nat, f: File)
    requires f in files && f.size <= limit && multiset(files)[f] == 1
    requires forall g :: g in files ==> g == f || Before(g, f)
    requires gone <= |Sort(Before, files)| && forall k :: 0 <= k < gone ==> Total(Sort(Before, files)[k..]) > limit
    ensures f in Sort(Before, files)[gone..]
  {
    hide Before, Ordered, Sort;
    SortFiles(files);
    var sorted := Sort(Before, files);
    assert forall g :: g in sorted ==> g in multiset(files);
    assert f in multiset(sorted);
    NewestIsLast(sorted, f);
    var last := |sorted| - 1;
    assert sorted[last..] == [f] && [f][1..] == [];
    assert Total(sorted[last..]) <= limit;
    assert sorted[gone..][last - gone] == f;
  }

  // ----- the directory -----

  // No two files share a name.
  predicate OneEach(files: seq<File>) {
    forall i, j :: 0 <= i < j < |files| ==> files[i].name != files[j].name
  }

  lemma InsertOneEach(f: File, files: seq<File>)
    requires OneEach(files) && forall g :: g in files ==> g.name != f.name
    ensures OneEach(Insert(Before, f, files))
  {
    hide Before;
    if files != [] && Before(files[0], f) {
      InsertOneEach(f, files[1..]);
      InsertHolds(Before, f, files[1..]);
      var rest := Insert(Before, f, files[1..]);
      forall j | 0 <= j < |rest| ensures rest[j].name != files[0].name {
        assert rest[j] in multiset(rest);
        assert files[0] in files;
        if rest[j] != f {
          var k :| 0 <= k < |files[1..]| && files[1..][k] == rest[j];
          assert files[k + 1] == rest[j];
        }
      }
    }
  }

  lemma {:induction false} SortOneEach(files: seq<File>)
    requires OneEach(files)
    ensures OneEach(Sort(Before, files))
  {
    if files != [] {
      SortOneEach(files[1..]);
      SortFiles(files[1..]);
      forall g | g in Sort(Before, files[1..]) ensures g.name != files[0].name {
        assert g in multiset(files[1..]);
        var k :| 0 <= k < |files[1..]| && files[1..][k] == g;
        assert files[k + 1] == g;
      }
      InsertOneEach(files[0], Sort(Before, files[1..]));
    }
  }

  lemma OneMoreEach(a: seq<File>, f: File, b: seq<File>)
    requires OneEach(a + b) && forall g :: g in a + b ==> g.name != f.name
    ensures OneEach(a + [f] + b)
  {
    var s := a + [f] + b;
    forall i, j | 0 <= i < j < |s| ensures s[i].name != s[j].name {
      var k, l := if i <= |a| then i else i - 1, if j <= |a| then j else j - 1;
      if i == |a| {
        assert (a + b)[l] == s[j] && (a + b)[l] in a + b;
      } else if j == |a| {
        assert (a + b)[k] == s[i] && (a + b)[k] in a + b;
      } else {
        assert (a + b)[k] == s[i] && (a + b)[l] == s[j];
      }
    }
  }

  lemma OneOfEach(files: seq<File>)
    requires OneEach(files) && files != []
    ensures OneEach(files[1..]) && forall g :: g in files[1..] ==> g in files && g.name != files[0].name
  {
    forall g | g in files[1..] ensures g in files && g.name != files[0].name {
      var k :| 0 <= k < |files[1..]| && files[1..][k] == g;
      assert files[k + 1] == g;
    }
  }

  lemma {:induction false} OthersOneEach(files: seq<File>, name: Bytes)
    requires OneEach(files)
    ensures OneEach(Others(files, name))
  {
    if files != [] {
      OneOfEach(files);
      OthersOneEach(files[1..], name);
      hide OneEach;
      OthersFit(files[1..], name);
      var rest := Others(files[1..], name);
      assert [] + rest == rest && [] + [files[0]] + rest == [files[0]] + rest;
      if files[0].name != name {
        OneMoreEach([], files[0], rest);
      }
    }
  }

  lemma StoredOneEach(files: seq<File>, f: File)
    requires OneEach(files)
    ensures OneEach(Others(files, f.name) + [f])
  {
    var others := Others(files, f.name);
    OthersOneEach(files, f.name);
    OthersFit(files, f.name);
    assert others + [] == others && others + [f] + [] == others + [f];
    OneMoreEach(others, f, []);
  }

  function Others(files: seq<File>, name: Bytes): seq<File> {
    if files == [] then []
    else (if files[0].name == name then [] else [files[0]]) + Others(files[1..], name)
  }

  lemma {:induction false} OthersTotal(files: seq<File>, name: Bytes)
    ensures Total(Others(files, name)) <= Total(files)
  {
    if files != [] {
      OthersTotal(files[1..], name);
      if files[0].name != name {
        assert Others(files, name)[1..] == Others(files[1..], name);
      } else {
        assert Others(files, name) == Others(files[1..], name);
      }
    }
  }

  lemma {:induction false} OthersFit(files: seq<File>, name: Bytes)
    ensures Total(Others(files, name)) <= Total(files)
    ensures forall f :: f in Others(files, name) <==> f in files && f.name != name
  {
    hide Total;
    OthersTotal(files, name);
    if files != [] {
      OthersFit(files[1..], name);
      assert forall f :: f in files <==> f == files[0] || f in files[1..];
    }
  }

  lemma {:induction false} TotalBoth(a: seq<File>, b: seq<File>)
    ensures Total(a + b) == Total(a) + Total(b)
  {
    if a == [] {
      assert a + b == b;
    } else {
      assert (a + b)[1..] == a[1..] + b;
      TotalBoth(a[1..], b);
    }
  }

  lemma NoRecords()
    ensures Records([]) == []
  {}

  lemma StoredIsNewest(files: seq<File>, name: Bytes, size: nat, now: int)
    ensures (forall f :: f in files ==> f.name == name || f.modified < now) ==>
      forall g :: g in Others(files, name) ==> Before(g, File(name, size, now))
  {
    OthersFit(files, name);
  }

  /** A directory of entries, kept under limit by pruning when its ledger says. */
  class Dir {
    const limit: nat
    var files: seq<File>
    var ledger: Bytes
    // The sizes stored since the last prune.
    ghost var sizes: seq<nat>

    ghost predicate Valid()
      reads this
    {
      && limit < Pow10(RECORD_WIDTH - 1)
      && (forall f :: f in files ==> f.size <= limit)
      && ledger == Records(sizes) && (forall k :: 0 <= k < |sizes| ==> sizes[k] <= limit)
      && |sizes| <= MAX_RECORDS && Sum(sizes) <= limit / 8
      && Total(files) <= limit + Sum(sizes) && OneEach(files)
    }

    constructor (limit: nat)
      requires limit < Pow10(RECORD_WIDTH - 1)
      ensures Valid() && files == [] && this.limit == limit
    {
      this.limit, files, ledger, sizes := limit, [], [], [];
    }

    /** Keeps an entry, and prunes when the ledger calls for it.  Whatever was stored
        before, what the directory then holds is within an eighth of its limit, and
        within the limit after a prune. */
    method Store(name: Bytes, size: nat, now: int) returns (kept: bool, pruned: bool)
      requires Valid()
      modifies this
      ensures Valid() && kept == (size <= limit)
      ensures Total(files) <= limit + limit / 8
      ensures pruned ==> Total(files) <= limit
      ensures !kept ==> files == old(files) && ledger == old(ledger)
      ensures kept && !pruned ==> files == Others(old(files), name) + [File(name, size, now)]
      ensures pruned ==> Pruned(Others(old(files), name) + [File(name, size, now)], limit, files)
      ensures kept && (forall f :: f in old(files) ==> f.name == name || f.modified < now) ==> File(name, size, now) in files
    {
      hide Before, Total, Record, Records, Pow10, Others;
      pruned := false;
      if size > limit {
        return false, false;
      }
      kept := true;
      Publish(name, size, now);
      pruned := PruneDue();
      if !pruned {
        return;
      }
      ledger, sizes := [], [];
      NoRecords();
      StoredIsNewest(old(files), name, size, now);
      PruneFiles(Others(old(files), name), File(name, size, now));
    }

    // Whether the sizes stored since the last prune call for one.
    method PruneDue() returns (due: bool)
      requires limit < Pow10(RECORD_WIDTH - 1) && ledger == Records(sizes) && forall k :: 0 <= k < |sizes| ==> sizes[k] <= limit
      ensures due <==> |sizes| > MAX_RECORDS || Sum(sizes) > limit / 8
    {
      hide Records, Pow10, Sum;
      RecordsHold(sizes, limit);
      due := TallyDue(ledger, limit);
      if |sizes| <= MAX_RECORDS {
        HoldsTallies(ledger, limit, sizes);
      }
    }

    // Writes an entry, in place of any at its name, and records its size.
    method Publish(name: Bytes, size: nat, now: int)
      requires Valid() && size <= limit
      modifies this
      ensures files == Others(old(files), name) + [File(name, size, now)] && File(name, size, now) in files
      ensures File(name, size, now) !in Others(old(files), name)
      ensures forall f :: f in files ==> f.size <= limit
      ensures sizes == old(sizes) + [size] && ledger == Records(sizes) && forall k :: 0 <= k < |sizes| ==> sizes[k] <= limit
      ensures Total(files) <= limit + Sum(sizes) && OneEach(files)
    {
      hide Record, OneEach;
      var f := File(name, size, now);
      StoredOneEach(files, f);
      files := Others(files, name) + [f];
      OthersFit(old(files), name);
      TotalBoth(Others(old(files), name), [f]);
      assert [f][1..] == [];
      assert files[|files| - 1] == f;
      ledger := ledger + Record(size);
      sizes := sizes + [size];
      assert sizes[..|sizes| - 1] == old(sizes);
    }

    // Prunes the files, the last of them just stored.
    method PruneFiles(ghost before: seq<File>, ghost f: File)
      requires files == before + [f] && f !in before && forall g :: g in files ==> g.size <= limit
      requires OneEach(files)
      modifies this`files
      ensures OneEach(files) && Total(files) <= limit && forall g :: g in files ==> g.size <= limit
      ensures (forall g :: g in before ==> Before(g, f)) ==> f in files
      ensures Pruned(before + [f], limit, files)
    {
      hide Before, Sort, Total;
      ghost var was := files;
      SortFiles(files);
      SortOneEach(files);
      ghost var gone;
      files, gone := Prune(files, limit);
      assert PrunedBy(was, limit, files, gone);
      forall g | g in files ensures g.size <= limit {
        assert g in multiset(Sort(Before, was));
      }
      if forall g :: g in before ==> Before(g, f) {
        assert was[|before|] == f;
        assert multiset(was)[f] == 1;
        NewestStays(was, limit, gone, f);
      }
    }

    /** Finds an entry, and marks it used: nothing else tells what goes first. */
    method Load(name: Bytes, now: int) returns (size: Option<nat>)
      requires Valid()
      modifies this`files
      ensures Valid() && Total(files) == Total(old(files)) && files == Marked(old(files), name, now)
      ensures size.Some? <==> exists f :: f in old(files) && f.name == name
      ensures forall f :: f in old(files) && f.name == name ==> size == Some(f.size)
    {
      hide Records, Pow10, Sum, Total;
      size := None;
      for i := 0 to |files|
        invariant size.None? ==> forall j :: 0 <= j < i ==> files[j].name != name
        invariant size.Some? ==> exists f :: f in files && f.name == name
        invariant forall j :: 0 <= j < i && files[j].name == name ==> size == Some(files[j].size)
      {
        if files[i].name == name {
          assert files[i] in files;
          size := Some(files[i].size);
        }
      }
      MarkedFits(files, name, now, limit);
      files := Marked(files, name, now);
    }

    /** However many entries are stored and loaded, the directory never holds more than an
        eighth past its limit. */
    method Run(calls: seq<Call>)
      requires Valid()
      modifies this
      ensures Valid() && Total(files) <= limit + limit / 8
    {
      for i := 0 to |calls|
        invariant Valid()
      {
        match calls[i]
        case Stored(name, size, now) => var _, _ := Store(name, size, now);
        case Loaded(name, now) => var _ := Load(name, now);
      }
    }
  }

  datatype Call = Stored(name: Bytes, size: nat, now: int) | Loaded(name: Bytes, now: int)

  function Marked(files: seq<File>, name: Bytes, now: int): seq<File> {
    if files == [] then []
    else [if files[0].name == name then files[0].(modified := now) else files[0]] + Marked(files[1..], name, now)
  }

  lemma {:induction false} MarkedFits(files: seq<File>, name: Bytes, now: int, limit: nat)
    requires forall f :: f in files ==> f.size <= limit
    requires OneEach(files)
    ensures Total(Marked(files, name, now)) == Total(files) && OneEach(Marked(files, name, now))
    ensures |Marked(files, name, now)| == |files| && forall i :: 0 <= i < |files| ==> Marked(files, name, now)[i].name == files[i].name
    ensures forall f :: f in Marked(files, name, now) ==> f.size <= limit
  {
    if files != [] {
      MarkedFits(files[1..], name, now, limit);
      assert Marked(files, name, now)[1..] == Marked(files[1..], name, now);
    }
  }

  /** A load marks the entry at its name used at the time given, and changes nothing else. */
  lemma {:induction false} MarkedAt(files: seq<File>, name: Bytes, now: int, i: nat)
    requires i < |files|
    ensures |Marked(files, name, now)| == |files|
    ensures var f := Marked(files, name, now)[i];
      f.name == files[i].name && f.size == files[i].size && f.modified == if f.name == name then now else files[i].modified
  {
    if i > 0 {
      MarkedAt(files[1..], name, now, i - 1);
    } else if |files| > 1 {
      MarkedAt(files[1..], name, now, 0);
    }
  }

  /** So an entry just loaded outlasts the next prune, when it fits and none was used since. */
  lemma LoadedStays(files: seq<File>, name: Bytes, now: int, limit: nat, kept: seq<File>, i: nat)
    requires i < |files| && files[i].name == name && files[i].size <= limit && OneEach(files)
    requires forall f :: f in files ==> f.modified < now
    requires Pruned(Marked(files, name, now), limit, kept)
    ensures File(name, files[i].size, now) in kept
  {
    hide Sort, Total, Marked, BytesBefore;
    var marked, f := Marked(files, name, now), File(name, files[i].size, now);
    forall j | 0 <= j < |files|
      ensures |marked| == |files|
      ensures if j == i then marked[j] == f else marked[j].name == files[j].name != name && marked[j].modified < now
    {
      MarkedAt(files, name, now, j);
      assert files[j] in files;
    }
    NewestOnce(marked, i);
    var gone: nat :| PrunedBy(marked, limit, kept, gone);
    NewestStays(marked, limit, gone, f);
  }

  lemma NewestOnce(files: seq<File>, i: nat)
    requires i < |files| && forall j :: 0 <= j < |files| && j != i ==> files[j] != files[i]
    ensures files[i] in files && multiset(files)[files[i]] == 1
  {
    assert files == files[..i] + [files[i]] + files[i + 1..];
    assert files[i] !in files[..i] && files[i] !in files[i + 1..];
  }

  /** From an empty directory, whatever is stored and loaded leaves entries that total at
      most an eighth past the limit, none of them past it alone. */
  method Kept(limit: nat, calls: seq<Call>) returns (files: seq<File>)
    requires limit < Pow10(RECORD_WIDTH - 1)
    ensures Total(files) <= limit + limit / 8
    ensures forall f :: f in files ==> f.size <= limit
  {
    hide Total, Pow10, Records, Sum;
    var dir := new Dir(limit);
    dir.Run(calls);
    files := dir.files;
  }
}
