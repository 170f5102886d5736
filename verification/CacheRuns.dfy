/** Runs answered from the compile cache: a hit is what compiling would have produced. */
module CacheRuns {
  import opened Values
  import opened Sequences
  import opened CacheKeys
  import opened CacheEntries

  datatype Request = Request(location: Bytes, within: Bytes, limit: int)

  // The document read, or nothing for a read that failed.
  type Reply = Option<Bytes>

  datatype Exchange = Exchange(request: Request, reply: Reply)

  datatype Result = Result(document: Option<string>, format: string)

  datatype Action = Ask(request: Request) | Finish(result: Result)

  /** A compile: what it does next is decided by what its reads so far returned, and it
      asks no more than bound times. */
  datatype Compiler = Compiler(act: seq<Exchange> -> Action, bound: nat)

  ghost predicate Ends(c: Compiler) {
    forall t :: |t| >= c.bound ==> c.act(t).Finish?
  }

  /** What a compile produces over documents that stand still. */
  ghost function Run(c: Compiler, docs: Request -> Reply, t: seq<Exchange>): Result
    requires Ends(c)
    decreases c.bound - |t|
  {
    match c.act(t)
    case Finish(r) => r
    case Ask(q) => Run(c, docs, t + [Exchange(q, docs(q))])
  }

  // ----- recording -----

  /** A line of a listing: a request, and the hash its reply had. */
  datatype Read = Read(request: Request, hash: Bytes)

  /** t is what a compile asked, whatever it was answered. */
  ghost predicate Asked(c: Compiler, t: seq<Exchange>) {
    forall i :: 0 <= i < |t| ==> c.act(t[..i]) == Ask(t[i].request)
  }

  // Every read of a transcript returned, and a repeat returned the like.
  ghost predicate Steady(hash: Hash, t: seq<Exchange>) {
    && (forall i :: 0 <= i < |t| ==> t[i].reply.Some?)
    && (forall i, j :: 0 <= i < j < |t| && t[i].request == t[j].request ==> hash(t[i].reply.value) == hash(t[j].reply.value))
  }

  function HashOf(hash: Hash, r: Reply): Bytes {
    if r.Some? then hash(r.value) else []
  }

  // The requests noted are those of the log.
  ghost predicate Names(noted: map<Request, Bytes>, log: seq<Exchange>) {
    forall q :: q in noted <==> InLog(log, q)
  }

  ghost predicate InLog(log: seq<Exchange>, q: Request) {
    exists i :: 0 <= i < |log| && log[i].request == q
  }

  ghost predicate Agrees(hash: Hash, noted: map<Request, Bytes>, log: seq<Exchange>) {
    forall i :: 0 <= i < |log| ==> log[i].request in noted && noted[log[i].request] == HashOf(hash, log[i].reply)
  }

  lemma NamesMore(noted: map<Request, Bytes>, log: seq<Exchange>, e: Exchange, h: Bytes)
    requires Names(noted, log)
    ensures Names(noted[e.request := h], log + [e])
  {
    var more := log + [e];
    forall q ensures q in noted[e.request := h] <==> InLog(more, q) {
      if q == e.request {
        assert more[|log|] == e;
      } else if q in noted {
        assert InLog(log, q);
        var i :| 0 <= i < |log| && log[i].request == q;
        assert more[i] == log[i];
      }
    }
  }

  /** A read more is steady when it returned, and returned what any repeat of it did. */
  lemma SteadyMore(hash: Hash, noted: map<Request, Bytes>, log: seq<Exchange>, e: Exchange)
    requires Names(noted, log) && (Steady(hash, log) ==> Agrees(hash, noted, log))
    ensures Steady(hash, log + [e]) <==>
      Steady(hash, log) && e.reply.Some? && (e.request in noted ==> noted[e.request] == HashOf(hash, e.reply))
  {
    var more := log + [e];
    assert forall i :: 0 <= i < |log| ==> more[i] == log[i];
    assert more[|log|] == e;
    if Steady(hash, more) {
      assert Steady(hash, log);
      if e.request in noted {
        var i :| 0 <= i < |log| && log[i].request == e.request;
        assert more[i].request == more[|log|].request;
      }
    }
  }

  lemma AgreesMore(hash: Hash, noted: map<Request, Bytes>, log: seq<Exchange>, e: Exchange)
    requires Agrees(hash, noted, log) && (e.request in noted ==> noted[e.request] == HashOf(hash, e.reply))
    ensures Agrees(hash, noted[e.request := HashOf(hash, e.reply)], log + [e])
  {}

  /** Reads for a compile, noting what each returned. */
  class Recorder {
    const hash: Hash
    var noted: map<Request, Bytes>
    var unsound: bool
    ghost var log: seq<Exchange>

    ghost predicate Valid()
      reads this
    {
      && (unsound <==> !Steady(hash, log))
      && Names(noted, log) && (!unsound ==> Agrees(hash, noted, log))
    }

    constructor (hash: Hash)
      ensures Valid() && this.hash == hash && log == []
    {
      this.hash, noted, unsound, log := hash, map[], false, [];
    }

    /** Notes one read. */
    method Note(q: Request, reply: Reply)
      requires Valid()
      modifies this
      ensures Valid() && log == old(log) + [Exchange(q, reply)]
    {
      var h := HashOf(hash, reply);
      var repeated := q in noted;
      hide Names, Agrees, Steady;
      SteadyMore(hash, noted, log, Exchange(q, reply));
      NamesMore(noted, log, Exchange(q, reply), h);
      if !unsound && reply.Some? && (repeated ==> noted[q] == h) {
        AgreesMore(hash, noted, log, Exchange(q, reply));
      }
      log := log + [Exchange(q, reply)];
      unsound := unsound || reply.None? || (repeated && noted[q] != h);
      noted := noted[q := h];
    }

    /** Every read, by its request, and whether a replay could vouch for them. */
    method Settled() returns (list: seq<Read>, sound: bool)
      requires Valid()
      ensures sound <==> Steady(hash, log)
      ensures sound ==> IsListing(hash, list, log)
    {
      hide Steady, ReadBefore;
      var found: seq<Read> := [];
      var left := noted.Keys;
      while left != {}
        invariant left <= noted.Keys
        invariant forall r :: r in found <==> r.request in noted && r.request !in left && r.hash == noted[r.request]
        invariant Distinct(found)
        decreases left
      {
        var q :| q in left;
        DistinctMore(found, Read(q, noted[q]));
        left := left - {q};
        found := found + [Read(q, noted[q])];
      }
      list := Sort(ReadBefore, found);
      SortReads(found);
      sound := !unsound;
      if sound {
        NotedAreLogged(hash, noted, log, found);
      }
    }
  }

  /** A list names each read of a transcript once, by its request, with the hash of what
      it got, and nothing else. */
  ghost predicate IsListing(hash: Hash, list: seq<Read>, t: seq<Exchange>) {
    && (forall r :: r in list <==> WasRead(hash, t, r))
    && (forall i, j :: 0 <= i < j < |list| ==> ReadBefore(list[i], list[j]))
  }

  ghost predicate WasRead(hash: Hash, t: seq<Exchange>, r: Read) {
    exists i :: 0 <= i < |t| && r == Read(t[i].request, HashOf(hash, t[i].reply))
  }

  /** So a transcript has one listing. */
  lemma ListingIsOne(hash: Hash, t: seq<Exchange>, a: seq<Read>, b: seq<Read>)
    requires IsListing(hash, a, t) && IsListing(hash, b, t)
    ensures a == b
  {
    hide WasRead, ReadBefore;
    StrictIsOne(a, b);
  }

  predicate Distinct(found: seq<Read>) {
    forall i, j :: 0 <= i < j < |found| ==> found[i].request != found[j].request
  }

  lemma DistinctMore(found: seq<Read>, r: Read)
    requires Distinct(found) && forall x :: x in found ==> x.request != r.request
    ensures Distinct(found + [r])
  {
    forall i | 0 <= i < |found| ensures found[i].request != r.request {
      assert found[i] in found;
    }
  }

  // Noted reads are those of the log, while every repeat agreed.
  lemma NotedAreLogged(hash: Hash, noted: map<Request, Bytes>, log: seq<Exchange>, found: seq<Read>)
    requires Names(noted, log) && Agrees(hash, noted, log)
    requires forall r :: r in found <==> r.request in noted && r.hash == noted[r.request]
    ensures forall r :: r in found <==> WasRead(hash, log, r)
  {
    forall r ensures r in found <==> WasRead(hash, log, r) {
      if r in found {
        assert InLog(log, r.request);
        var i :| 0 <= i < |log| && log[i].request == r.request;
        assert r == Read(log[i].request, HashOf(hash, log[i].reply));
      }
    }
  }

  // ----- the order of a listing -----

  predicate RequestBefore(a: Request, b: Request) {
    if a.location != b.location then BytesBefore(a.location, b.location)
    else if a.within != b.within then BytesBefore(a.within, b.within)
    else a.limit < b.limit
  }

  predicate ReadBefore(a: Read, b: Read) {
    RequestBefore(a.request, b.request)
  }

  lemma RequestIsTotal(a: Request, b: Request)
    ensures a == b || RequestBefore(a, b) || RequestBefore(b, a)
    ensures !(RequestBefore(a, b) && RequestBefore(b, a))
  {
    BytesIsTotal(a.location, b.location);
    BytesIsTotal(a.within, b.within);
  }

  lemma RequestThen(a: Request, b: Request, c: Request)
    requires RequestBefore(a, b) && RequestBefore(b, c)
    ensures RequestBefore(a, c)
  {
    BytesIsTotal(a.location, b.location);
    BytesIsTotal(a.within, b.within);
    if a.location != b.location && b.location != c.location {
      BytesThen(a.location, b.location, c.location);
    }
    if a.within != b.within && b.within != c.within && a.location == b.location == c.location {
      BytesThen(a.within, b.within, c.within);
    }
    BytesIsTotal(a.location, c.location);
    BytesIsTotal(a.within, c.within);
  }

  lemma ReadsAreWeak()
    ensures IsWeak(ReadBefore)
  {
    hide RequestBefore;
    forall a, b, c
      ensures !(ReadBefore(a, b) && ReadBefore(b, a)) && (!ReadBefore(b, a) && !ReadBefore(c, b) ==> !ReadBefore(c, a))
    {
      RequestIsTotal(a.request, b.request);
      RequestIsTotal(b.request, c.request);
      RequestIsTotal(a.request, c.request);
      if RequestBefore(a.request, b.request) && RequestBefore(b.request, c.request) {
        RequestThen(a.request, b.request, c.request);
      }
    }
  }

  lemma SortReads(found: seq<Read>)
    requires Distinct(found)
    ensures var s := Sort(ReadBefore, found);
      && (forall r :: r in s <==> r in found)
      && forall i, j :: 0 <= i < j < |s| ==> ReadBefore(s[i], s[j])
  {
    hide RequestBefore;
    ReadsAreWeak();
    SortKeeps(ReadBefore, found);
    var s := Sort(ReadBefore, found);
    forall r ensures r in s <==> r in found {
      assert r in multiset(s) <==> r in multiset(found);
    }
    forall i, j | 0 <= i < j < |s| ensures ReadBefore(s[i], s[j]) {
      RequestIsTotal(s[i].request, s[j].request);
      if s[i].request == s[j].request {
        SameRequestTwice(found, s, i, j);
      }
    }
  }

  lemma SameRequestTwice(found: seq<Read>, s: seq<Read>, i: nat, j: nat)
    requires Distinct(found) && multiset(s) == multiset(found) && i < j < |s|
    ensures s[i].request != s[j].request
  {
    assert s[i] in multiset(found) && s[j] in multiset(found);
    var k :| 0 <= k < |found| && found[k] == s[i];
    var l :| 0 <= l < |found| && found[l] == s[j];
    DistinctCounts(found, s[i]);
    if s[i] == s[j] {
      TwiceCounts(s, i, j);
    }
  }

  lemma {:induction false} DistinctCounts(found: seq<Read>, r: Read)
    requires Distinct(found)
    ensures multiset(found)[r] <= 1
    ensures r !in found ==> multiset(found)[r] == 0
  {
    if found != [] {
      assert found == [found[0]] + found[1..];
      DistinctCounts(found[1..], r);
    }
  }

  // Two lists in order of the same reads are one.
  lemma {:induction false} StrictIsOne(a: seq<Read>, b: seq<Read>)
    requires forall i, j :: 0 <= i < j < |a| ==> ReadBefore(a[i], a[j])
    requires forall i, j :: 0 <= i < j < |b| ==> ReadBefore(b[i], b[j])
    requires forall r :: r in a <==> r in b
    ensures a == b
  {
    assert (a != [] ==> a[0] in b) && (b != [] ==> b[0] in a);
    if a != [] {
      StrictFirst(a, b);
      StrictTail(a);
      StrictTail(b);
      StrictIsOne(a[1..], b[1..]);
      assert a == [a[0]] + a[1..] && b == [b[0]] + b[1..];
    }
  }

  lemma StrictFirst(a: seq<Read>, b: seq<Read>)
    requires a != [] && b != []
    requires forall i, j :: 0 <= i < j < |a| ==> ReadBefore(a[i], a[j])
    requires forall i, j :: 0 <= i < j < |b| ==> ReadBefore(b[i], b[j])
    requires forall r :: r in a <==> r in b
    ensures a[0] == b[0]
  {
    hide RequestBefore;
    assert a[0] in b && b[0] in a;
    var i :| 0 <= i < |b| && b[i] == a[0];
    var j :| 0 <= j < |a| && a[j] == b[0];
    RequestIsTotal(a[0].request, b[0].request);
  }

  // What follows the first of an ordered list is the rest of it.
  lemma StrictTail(a: seq<Read>)
    requires a != [] && forall i, j :: 0 <= i < j < |a| ==> ReadBefore(a[i], a[j])
    ensures forall r :: r in a[1..] <==> r in a && r != a[0]
  {
    hide RequestBefore;
    forall r ensures r in a[1..] <==> r in a && r != a[0] {
      if r in a[1..] {
        var i :| 0 <= i < |a| - 1 && a[1..][i] == r;
        assert ReadBefore(a[0], a[i + 1]);
        RequestIsTotal(r.request, r.request);
      }
    }
  }

  // ----- a compile as it reads -----

  /** What each request returns, once so many reads of a run were made: documents may
      change as a run goes on. */
  type World = (nat, Request) -> Reply

  /** Reads made in a row from the from-th of a run got what the world held then. */
  ghost predicate AnsweredBy(world: World, from: nat, t: seq<Exchange>) {
    forall i :: 0 <= i < |t| ==> t[i].reply == world(from + i, t[i].request)
  }

  /** Runs a compile from the from-th read of a run on, and records its reads. */
  method Compile(c: Compiler, world: World, from: nat, hash: Hash) returns (result: Result, recorder: Recorder)
    requires Ends(c)
    ensures fresh(recorder) && recorder.Valid() && recorder.hash == hash
    ensures Asked(c, recorder.log) && c.act(recorder.log) == Finish(result)
    ensures AnsweredBy(world, from, recorder.log)
  {
    recorder := new Recorder(hash);
    var t: seq<Exchange> := [];
    while c.act(t).Ask?
      invariant fresh(recorder) && recorder.Valid() && recorder.hash == hash && recorder.log == t && Asked(c, t)
      invariant AnsweredBy(world, from, t)
      decreases c.bound - |t|
    {
      var q := c.act(t).request;
      var e := Exchange(q, world(from + |t|, q));
      recorder.Note(q, e.reply);
      AskedOneMore(c, t, e);
      t := t + [e];
    }
    result := c.act(t).result;
  }

  lemma AskedOneMore(c: Compiler, t: seq<Exchange>, e: Exchange)
    requires Asked(c, t) && c.act(t) == Ask(e.request)
    ensures Asked(c, t + [e])
  {
    forall i | 0 <= i < |t| + 1 ensures c.act((t + [e])[..i]) == Ask((t + [e])[i].request) {
      assert (t + [e])[..i] == t[..i] || i == |t|;
      assert t[..|t|] == t && (t + [e])[..|t|] == t;
    }
  }

  // ----- what a run's reads come to -----

  /** A result is what a compile produces when each read it makes gets a reply the log
      holds for it. */
  ghost predicate Explains(c: Compiler, log: seq<Exchange>, result: Result) {
    exists t :: Asked(c, t) && c.act(t) == Finish(result) && forall x :: x in t ==> x in log
  }

  lemma {:induction false} SameReadsSameRun(c: Compiler, docs: Request -> Reply, t: seq<Exchange>, result: Result, n: nat)
    requires Ends(c) && Asked(c, t) && c.act(t) == Finish(result) && n <= |t|
    requires forall i :: 0 <= i < |t| ==> docs(t[i].request) == t[i].reply
    ensures Run(c, docs, t[..n]) == result
    decreases |t| - n
  {
    if n < |t| {
      assert c.act(t[..n]) == Ask(t[n].request);
      assert t[..n] + [Exchange(t[n].request, docs(t[n].request))] == t[..n + 1];
      SameReadsSameRun(c, docs, t, result, n + 1);
    } else {
      assert t[..n] == t;
    }
  }

  /** Where documents stand still that is the one result compiling has. */
  lemma ExplainsStill(c: Compiler, docs: Request -> Reply, log: seq<Exchange>, result: Result)
    requires Ends(c) && Explains(c, log, result) && forall x :: x in log ==> x.reply == docs(x.request)
    ensures result == Run(c, docs, [])
  {
    var t: seq<Exchange> :| Asked(c, t) && c.act(t) == Finish(result) && forall x :: x in t ==> x in log;
    assert t[..0] == [];
    forall i | 0 <= i < |t| ensures docs(t[i].request) == t[i].reply {
      assert t[i] in t;
    }
    SameReadsSameRun(c, docs, t, result, 0);
  }

  ghost predicate RepliesIn(t: seq<Exchange>, hashed: iset<Bytes>) {
    forall x :: x in t && x.reply.Some? ==> x.reply.value in hashed
  }

  predicate Stands(hash: Hash, reply: Reply, r: Read) {
    reply.Some? && hash(reply.value) == r.hash
  }

  // The read r was made again in log, and stood.
  ghost predicate StoodIn(hash: Hash, log: seq<Exchange>, r: Read) {
    exists x :: x in log && x.request == r.request && Stands(hash, x.reply, r)
  }

  /** A sound recording vouches for its result, however the documents moved while it was
      made and have since: where each read it lists stands when made again, the compile
      cannot tell the replies apart, and its reads are those of the new log. */
  lemma RecordingVouches(c: Compiler, hash: Hash, hashed: iset<Bytes>, t: seq<Exchange>, list: seq<Read>,
      log: seq<Exchange>, result: Result)
    requires CollisionFree(hash, hashed) && Asked(c, t) && c.act(t) == Finish(result)
    requires Steady(hash, t) && IsListing(hash, list, t) && RepliesIn(t, hashed) && RepliesIn(log, hashed)
    requires forall r :: r in list ==> StoodIn(hash, log, r)
    ensures Explains(c, log, result)
  {
    forall x | x in t ensures x in log {
      var i :| 0 <= i < |t| && t[i] == x;
      var r := Read(x.request, HashOf(hash, x.reply));
      assert WasRead(hash, t, r);
      var y :| y in log && y.request == r.request && Stands(hash, y.reply, r);
      assert y == x;
    }
  }

  // ----- replaying -----

  /** Each read of a list, made again in its order, stands. */
  ghost predicate AllStand(hash: Hash, world: World, list: seq<Read>) {
    forall i :: 0 <= i < |list| ==> Stands(hash, world(i, list[i].request), list[i])
  }

  // The first reads of a list, made again.
  function Reread(world: World, list: seq<Read>, n: nat): seq<Exchange>
    requires n <= |list|
  {
    seq(n, i requires 0 <= i < n => Exchange(list[i].request, world(i, list[i].request)))
  }

  lemma RereadStood(hash: Hash, world: World, list: seq<Read>)
    requires AllStand(hash, world, list)
    ensures forall r :: r in list ==> StoodIn(hash, Reread(world, list, |list|), r)
  {
    var log := Reread(world, list, |list|);
    forall r | r in list ensures StoodIn(hash, log, r) {
      var i :| 0 <= i < |list| && list[i] == r;
      assert log[i] in log;
    }
  }

  /** Makes the reads of a list again until one does not stand. */
  method ReadsUnchanged(hash: Hash, world: World, list: seq<Read>) returns (same: bool, made: nat)
    ensures same <==> AllStand(hash, world, list)
    ensures made <= |list| && (same ==> made == |list|)
    ensures !same ==> made > 0 && !Stands(hash, world(made - 1, list[made - 1].request), list[made - 1])
  {
    for i := 0 to |list|
      invariant forall j :: 0 <= j < i ==> Stands(hash, world(j, list[j].request), list[j])
    {
      var data := world(i, list[i].request);
      if data.None? || hash(data.value) != list[i].hash {
        return false, i + 1;
      }
    }
    same, made := true, |list|;
  }

  // ----- entries -----

  datatype Head = Head(format: string, listed: seq<Read>)

  /** How heads and documents are written: what is written reads back, and a head is one line. */
  datatype Codec = Codec(writeHead: Head -> Bytes, readHead: Bytes -> Option<Head>, writeDoc: string -> Bytes,
    readDoc: Bytes -> Option<string>)

  ghost predicate Lawful(c: Codec) {
    && (forall h :: c.readHead(c.writeHead(h)) == Some(h) && NEWLINE !in c.writeHead(h))
    && (forall d :: c.readDoc(c.writeDoc(d)) == Some(d))
  }

  /** An engine: how it compiles a spec under a run's inputs, how it writes entries, and
      its hash. */
  datatype Engine = Engine(compiler: (Inputs, Bytes) -> Compiler, codec: Codec, hash: Hash)

  ghost predicate Works(e: Engine) {
    && Lawful(e.codec) && (forall s :: |e.hash(s)| == KEY_SIZE)
    && (forall x, spec :: Ends(e.compiler(x, spec)))
  }

  function OpenedHead(e: Engine, key: Bytes, entry: Bytes): Option<(Head, Bytes)> {
    match Opened(e.hash, key, entry)
    case None => None
    case Some((line, body)) => match e.codec.readHead(line) case None => None case Some(h) => Some((h, body))
  }

  /** What an entry answers under a key: its reads and its result, nothing when it does
      not open or does not decode. */
  function Answer(e: Engine, key: Bytes, entry: Bytes): Option<(seq<Read>, Result)> {
    match OpenedHead(e, key, entry)
    case None => None
    case Some((head, body)) =>
      match e.codec.readDoc(body)
      case None => None
      case Some(doc) => Some((head.listed, Result(Some(doc), head.format)))
  }

  /** An entry answers a run: it opens under the run's key, decodes, and its reads stand. */
  ghost predicate Answers(e: Engine, world: World, key: Bytes, entry: Bytes) {
    Answer(e, key, entry).Some? && AllStand(e.hash, world, Answer(e, key, entry).value.0)
  }

  function EntryFor(e: Engine, key: Bytes, list: seq<Read>, doc: string, format: string): Bytes {
    Sealed(e.hash, key, e.codec.writeHead(Head(format, list)), e.codec.writeDoc(doc))
  }

  /** What is kept is what is answered, under its key. */
  lemma AnswersAsKept(e: Engine, key: Bytes, list: seq<Read>, doc: string, format: string)
    requires Works(e)
    ensures Answer(e, key, EntryFor(e, key, list, doc, format)) == Some((list, Result(Some(doc), format)))
  {
    OpensToWhatWasSealed(e.hash, key, e.codec.writeHead(Head(format, list)), e.codec.writeDoc(doc));
  }

  /** Answers a run from an entry exactly when it opens, each read it lists stands and
      its document decodes. */
  method Fetch(e: Engine, key: Bytes, world: World, entry: Bytes)
      returns (hit: Option<Result>, ghost log: seq<Exchange>, made: nat)
    ensures hit.Some? <==> Answers(e, world, key, entry)
    ensures hit.Some? ==> hit.value == Answer(e, key, entry).value.1
    ensures hit.Some? ==> log == Reread(world, Answer(e, key, entry).value.0, |Answer(e, key, entry).value.0|)
    ensures AnsweredBy(world, 0, log) && |log| == made
  {
    hide Opened;
    log, made := [], 0;
    var open := OpenedHead(e, key, entry);
    if open.None? {
      return None, log, made;
    }
    var (head, body) := open.value;
    var same;
    same, made := ReadsUnchanged(e.hash, world, head.listed);
    log := Reread(world, head.listed, made);
    var doc := e.codec.readDoc(body);
    if !same || doc.None? {
      return None, log, made;
    }
    hit := Some(Result(Some(doc.value), head.format));
  }

  // ----- what was kept -----

  /** How an entry came to be: the run that kept it, and what its compile asked. */
  datatype Origin = Origin(key: Bytes, x: Inputs, spec: Bytes, t: seq<Exchange>, list: seq<Read>, doc: string, format: string)

  function EntryOf(e: Engine, o: Origin): Bytes {
    EntryFor(e, o.key, o.list, o.doc, o.format)
  }

  function ContentOf(e: Engine, list: seq<Read>, doc: string, format: string): Bytes {
    Content(e.codec.writeHead(Head(format, list)), e.codec.writeDoc(doc))
  }

  // What a run of x over spec hashes before it reads.
  ghost predicate InputsIn(e: Engine, x: Inputs, spec: Bytes, hashed: iset<Bytes>) {
    x.specHash == e.hash(spec) && spec in hashed && FramesSeen(x, hashed)
  }

  ghost predicate IsOrigin(e: Engine, o: Origin, hashed: iset<Bytes>) {
    && IsKey(e.hash, o.x, o.key) && InputsIn(e, o.x, o.spec, hashed)
    && Asked(e.compiler(o.x, o.spec), o.t) && e.compiler(o.x, o.spec).act(o.t) == Finish(Result(Some(o.doc), o.format))
    && Steady(e.hash, o.t) && IsListing(e.hash, o.list, o.t) && RepliesIn(o.t, hashed)
    && o.key + ContentOf(e, o.list, o.doc, o.format) in hashed
  }

  /** What runs came before: what each entry they kept came of, and all they hashed. */
  datatype Past = Past(kept: iset<Origin>, hashed: iset<Bytes>)

  ghost predicate IsPast(e: Engine, past: Past) {
    forall o :: o in past.kept ==> IsOrigin(e, o, past.hashed)
  }

  /** An entry filed at a key opens there only if some run kept it, perhaps for another key. */
  ghost predicate NoForgery(e: Engine, past: Past, key: Bytes, entry: Bytes) {
    Opened(e.hash, key, entry).Some? ==> exists o :: o in past.kept && entry == EntryOf(e, o)
  }

  ghost predicate NoneForged(e: Engine, past: Past, store: map<Bytes, Bytes>) {
    forall key :: key in store ==> NoForgery(e, past, key, store[key])
  }

  ghost predicate Follows(a: Past, b: Past) {
    a.kept <= b.kept && a.hashed <= b.hashed
  }

  lemma OriginStays(e: Engine, o: Origin, a: iset<Bytes>, b: iset<Bytes>)
    requires IsOrigin(e, o, a) && a <= b
    ensures IsOrigin(e, o, b)
  {
    hide IsKey, Asked, Steady, IsListing;
  }

  // What opens under a key is what was kept under that key.
  lemma OpensWhatWasKept(e: Engine, hashed: iset<Bytes>, o: Origin, key: Bytes)
    requires Works(e) && CollisionFree(e.hash, hashed) && IsOrigin(e, o, hashed) && |key| == KEY_SIZE
    requires key + Line(EntryOf(e, o)).1 in hashed && Opened(e.hash, key, EntryOf(e, o)).Some?
    ensures key == o.key && Answer(e, key, EntryOf(e, o)) == Some((o.list, Result(Some(o.doc), o.format)))
  {
    hide IsListing, Steady, Asked, FramesSeen, CollisionFree;
    var content := ContentOf(e, o.list, o.doc, o.format);
    HexSpells(e.hash(o.key + content));
    LineAt(SealOf(e.hash, o.key, content), content);
    KeySize(e, o.x, o.key);
    OpensOnlyIntact(e.hash, hashed, o.key, content, key, content);
    AnswersAsKept(e, o.key, o.list, o.doc, o.format);
  }

  lemma KeySize(e: Engine, x: Inputs, key: Bytes)
    requires Works(e) && IsKey(e.hash, x, key)
    ensures |key| == KEY_SIZE
  {}

  /** So an entry that answers a run gives what compiling would: its key was derived of
      the run's inputs and spec, and its reads, standing, are the compile's. */
  lemma HitIsRight(e: Engine, past: Past, x: Inputs, spec: Bytes, key: Bytes, world: World, entry: Bytes, hashed: iset<Bytes>)
    requires Works(e) && IsPast(e, past) && NoForgery(e, past, key, entry) && past.hashed <= hashed
    requires CollisionFree(e.hash, hashed) && InputsIn(e, x, spec, hashed) && IsKey(e.hash, x, key)
    requires Answers(e, world, key, entry) && key + Line(entry).1 in hashed
    requires RepliesIn(Reread(world, Answer(e, key, entry).value.0, |Answer(e, key, entry).value.0|), hashed)
    ensures Explains(e.compiler(x, spec), Reread(world, Answer(e, key, entry).value.0, |Answer(e, key, entry).value.0|),
                     Answer(e, key, entry).value.1)
  {
    hide CollisionFree, Explains, StoodIn, IsKey, FramesSeen, Asked, Steady, IsListing, RepliesIn, AllStand, EntryFor, Opened;
    var o :| o in past.kept && entry == EntryOf(e, o);
    OriginStays(e, o, past.hashed, hashed);
    KeySize(e, x, key);
    OpensWhatWasKept(e, hashed, o, key);
    KeysAreInjective(e.hash, hashed, x, o.x, key, o.key);
    SameHash(e.hash, hashed, spec, o.spec);
    RereadStood(e.hash, world, o.list);
    RecordingVouches(e.compiler(x, spec), e.hash, hashed, o.t, o.list, Reread(world, o.list, |o.list|),
                     Result(Some(o.doc), o.format));
  }

  lemma SameHash(hash: Hash, seen: iset<Bytes>, a: Bytes, b: Bytes)
    requires CollisionFree(hash, seen) && a in seen && b in seen
    ensures hash(a) == hash(b) ==> a == b
  {}

  // ----- whole runs -----

  // Some key of the inputs holds an entry that answers.
  ghost predicate IsAnswered(e: Engine, x: Inputs, world: World, store: map<Bytes, Bytes>) {
    exists key :: IsKey(e.hash, x, key) && key in store && Answers(e, world, key, store[key])
  }

  ghost predicate Compiled(c: Compiler, t: seq<Exchange>, result: Result) {
    Asked(c, t) && c.act(t) == Finish(result)
  }

  /** What a compile leaves: an entry listing its reads when they were steady and it
      produced a document, and nothing otherwise. */
  ghost predicate Keeps(e: Engine, x: Inputs, t: seq<Exchange>, result: Result, kept: Option<(Bytes, Bytes)>) {
    if Steady(e.hash, t) && result.document.Some? then
      kept.Some? && IsKey(e.hash, x, kept.value.0) && IsEntryOf(e, kept.value.0, t, result, kept.value.1)
    else kept.None?
  }

  ghost predicate IsEntryOf(e: Engine, key: Bytes, t: seq<Exchange>, result: Result, entry: Bytes) {
    && result.document.Some?
    && exists list :: IsListing(e.hash, list, t) && entry == EntryFor(e, key, list, result.document.value, result.format)
  }

  function Filed(store: map<Bytes, Bytes>, kept: Option<(Bytes, Bytes)>): map<Bytes, Bytes> {
    if kept.Some? then store[kept.value.0 := kept.value.1] else store
  }

  /** One run: answered from the store exactly when an entry there answers it, compiled
      and perhaps kept otherwise. */
  ghost predicate IsRun(e: Engine, x: Inputs, spec: Bytes, world: World, store: map<Bytes, Bytes>, log: seq<Exchange>,
      result: Result, kept: Option<(Bytes, Bytes)>)
  {
    && AnsweredBy(world, 0, log)
    && if IsAnswered(e, x, world, store) then kept.None? && exists key :: AnsweredAt(e, x, world, store, key, log, result)
       else exists made: nat :: made <= |log| && CompiledAfter(e, x, spec, log, made, result, kept)
  }

  // An entry at a key of the inputs answers with this result.
  ghost predicate IsAnswerOf(e: Engine, x: Inputs, world: World, store: map<Bytes, Bytes>, result: Result) {
    exists key :: IsKey(e.hash, x, key) && key in store && Answers(e, world, key, store[key])
      && result == Answer(e, key, store[key]).value.1
  }

  // The compile asked t from the from-th read of the run on, and left this.
  ghost predicate IsCompileOf(e: Engine, x: Inputs, spec: Bytes, world: World, t: seq<Exchange>, from: nat, result: Result,
      kept: Option<(Bytes, Bytes)>)
  {
    AnsweredBy(world, from, t) && Compiled(e.compiler(x, spec), t, result) && Keeps(e, x, t, result, kept)
  }

  // The result and reads are those of the entry at key.
  ghost predicate AnsweredAt(e: Engine, x: Inputs, world: World, store: map<Bytes, Bytes>, key: Bytes, log: seq<Exchange>,
      result: Result)
  {
    && IsKey(e.hash, x, key) && key in store && Answers(e, world, key, store[key])
    && var (list, answer) := Answer(e, key, store[key]).value;
      result == answer && log == Reread(world, list, |list|)
  }

  // The reads from the made-th on are a compile's.
  ghost predicate CompiledAfter(e: Engine, x: Inputs, spec: Bytes, log: seq<Exchange>, made: nat, result: Result,
      kept: Option<(Bytes, Bytes)>)
    requires made <= |log|
  {
    Compiled(e.compiler(x, spec), log[made..], result) && Keeps(e, x, log[made..], result, kept)
  }

  ghost predicate WasKept(e: Engine, past: Past, entry: Bytes) {
    exists o :: o in past.kept && entry == EntryOf(e, o)
  }

  // ----- what a run adds to the past -----

  ghost function InputsOf(x: Inputs, spec: Bytes): iset<Bytes> {
    iset{spec} + (iset fields | IsFields(x, fields) :: Frame(fields))
  }

  ghost function RepliesOf(log: seq<Exchange>): iset<Bytes> {
    iset x | x in log && x.reply.Some? :: x.reply.value
  }

  lemma MoreHashed(e: Engine, past: Past, more: iset<Bytes>) returns (now: Past)
    requires IsPast(e, past)
    ensures now == Past(past.kept, past.hashed + more) && IsPast(e, now) && Follows(past, now)
  {
    hide IsOrigin;
    now := Past(past.kept, past.hashed + more);
    forall o | o in now.kept ensures IsOrigin(e, o, now.hashed) {
      OriginStays(e, o, past.hashed, now.hashed);
    }
  }

  lemma KeptToo(e: Engine, past: Past, o: Origin) returns (now: Past)
    requires IsPast(e, past) && IsOrigin(e, o, past.hashed)
    ensures now == Past(past.kept + iset{o}, past.hashed) && IsPast(e, now) && Follows(past, now)
    ensures WasKept(e, now, EntryOf(e, o))
  {
    hide IsOrigin;
    now := Past(past.kept + iset{o}, past.hashed);
    assert o in now.kept;
  }

  lemma InputsHashed(e: Engine, x: Inputs, spec: Bytes, hashed: iset<Bytes>)
    requires x.specHash == e.hash(spec) && InputsOf(x, spec) <= hashed
    ensures InputsIn(e, x, spec, hashed)
  {
    forall fields | IsFields(x, fields) ensures Frame(fields) in hashed {
      assert Frame(fields) in InputsOf(x, spec);
    }
    assert spec in InputsOf(x, spec);
  }

  lemma InputsStay(e: Engine, x: Inputs, spec: Bytes, a: iset<Bytes>, b: iset<Bytes>)
    requires InputsIn(e, x, spec, a) && a <= b
    ensures InputsIn(e, x, spec, b)
  {}

  lemma RepliesHashed(log: seq<Exchange>, hashed: iset<Bytes>)
    requires RepliesOf(log) <= hashed
    ensures RepliesIn(log, hashed)
  {
    forall x | x in log && x.reply.Some? ensures x.reply.value in hashed {
      assert x.reply.value in RepliesOf(log);
    }
  }

  lemma NotForgedAt(e: Engine, past: Past, store: map<Bytes, Bytes>, key: Bytes)
    requires NoneForged(e, past, store) && key in store
    ensures NoForgery(e, past, key, store[key])
  {}

  lemma StillNoneForged(e: Engine, past: Past, now: Past, store: map<Bytes, Bytes>, kept: Option<(Bytes, Bytes)>)
    requires Follows(past, now) && (kept.Some? ==> WasKept(e, now, kept.value.1))
    ensures NoneForged(e, past, store) ==> NoneForged(e, now, Filed(store, kept))
  {
    hide Opened;
    if NoneForged(e, past, store) {
      forall key | key in Filed(store, kept) ensures NoForgery(e, now, key, Filed(store, kept)[key]) {
        if kept.None? || key != kept.value.0 {
          assert NoForgery(e, past, key, store[key]);
        }
      }
    }
  }

  // Inputs have one key.
  lemma OneKeyOnly(e: Engine, x: Inputs, world: World, store: map<Bytes, Bytes>, key: Bytes)
    requires IsKey(e.hash, x, key)
    ensures IsAnswered(e, x, world, store) <==> key in store && Answers(e, world, key, store[key])
  {
    hide IsFields, Answers;
    var f :| IsFields(x, f) && key == e.hash(Frame(f));
    forall other | IsKey(e.hash, x, other) ensures other == key {
      var g :| IsFields(x, g) && other == e.hash(Frame(g));
      FieldsAreInjective(x, x, f, g);
    }
  }

  lemma LogGoesOn(world: World, log: seq<Exchange>, t: seq<Exchange>)
    requires AnsweredBy(world, 0, log) && AnsweredBy(world, |log|, t)
    ensures AnsweredBy(world, 0, log + t) && (log + t)[|log|..] == t
  {
    forall i | 0 <= i < |log + t| ensures (log + t)[i].reply == world(0 + i, (log + t)[i].request) {
      if i >= |log| {
        assert t[i - |log|].reply == world(|log| + (i - |log|), t[i - |log|].request);
      }
    }
  }

  lemma CompileExplains(c: Compiler, log: seq<Exchange>, t: seq<Exchange>, result: Result)
    requires Compiled(c, t, result) && forall x :: x in t ==> x in log
    ensures Explains(c, log, result)
  {}

  lemma KeepsListed(e: Engine, x: Inputs, t: seq<Exchange>, result: Result, key: Bytes, list: seq<Read>)
    requires result.document.Some? && IsKey(e.hash, x, key) && Steady(e.hash, t) && IsListing(e.hash, list, t)
    ensures Keeps(e, x, t, result, Some((key, EntryFor(e, key, list, result.document.value, result.format))))
  {
    hide IsListing, Steady, IsKey;
  }

  lemma KeepsNothing(e: Engine, x: Inputs, t: seq<Exchange>, result: Result)
    requires !(Steady(e.hash, t) && result.document.Some?)
    ensures Keeps(e, x, t, result, None)
  {}

  /** Answers a run from a store, or compiles it and keeps what it compiled.  The
      documents may change as it goes on.  Unless two of the byte strings hashed collide
      or an entry was forged, the result is what compiling would produce of the replies
      this run got. */
  method CompileCached(e: Engine, x: Inputs, spec: Bytes, world: World, store: map<Bytes, Bytes>, ghost past: Past)
      returns (result: Result, kept: Option<(Bytes, Bytes)>, ghost log: seq<Exchange>, ghost now: Past)
    requires Works(e) && x.specHash == e.hash(spec) && IsPast(e, past)
    ensures IsRun(e, x, spec, world, store, log, result, kept)
    ensures IsAnswered(e, x, world, store) ==> kept.None? && IsAnswerOf(e, x, world, store, result)
    ensures !IsAnswered(e, x, world, store) ==> exists t, from :: IsCompileOf(e, x, spec, world, t, from, result, kept)
    ensures IsPast(e, now) && Follows(past, now)
    ensures NoneForged(e, past, store) ==> NoneForged(e, now, Filed(store, kept))
    ensures kept.Some? ==> WasKept(e, now, kept.value.1)
    ensures NoneForged(e, past, store) && CollisionFree(e.hash, now.hashed) ==> Explains(e.compiler(x, spec), log, result)
  {
    hide Keeps, IsKey, InputsIn, FramesSeen, CollisionFree, Answers, Explains, IsListing, IsPast, NoneForged, Asked, Steady,
      IsAnswered, AnsweredBy, AnsweredAt, WasKept, RepliesIn, IsOrigin, Opened, InputsOf, RepliesOf, EntryFor;
    kept := None;
    var key := DeriveKey(e.hash, x);
    OneKeyOnly(e, x, world, store, key);
    var made := 0;
    log := [];
    LogIsEmpty(world);
    now := MoreHashed(e, past, InputsOf(x, spec));
    InputsHashed(e, x, spec, now.hashed);
    if key in store {
      var hit;
      hit, log, made := Fetch(e, key, world, store[key]);
      ghost var before := now;
      now := MoreHashed(e, now, iset{key + Line(store[key]).1} + RepliesOf(log));
      InputsStay(e, x, spec, before.hashed, now.hashed);
      if hit.Some? {
        RepliesHashed(log, now.hashed);
        if NoneForged(e, past, store) && CollisionFree(e.hash, now.hashed) {
          NotForgedAt(e, past, store, key);
          HitIsRight(e, past, x, spec, key, world, store[key], now.hashed);
        }
        StillNoneForged(e, past, now, store, kept);
        FetchedAt(e, x, world, store, key, log, hit.value);
        return hit.value, kept, log, now;
      }
    }
    result, kept, log, now := CompileAndKeep(e, x, spec, world, key, made, log, now);
    StillNoneForged(e, past, now, store, kept);
  }

  lemma FetchedAt(e: Engine, x: Inputs, world: World, store: map<Bytes, Bytes>, key: Bytes, log: seq<Exchange>, result: Result)
    requires IsKey(e.hash, x, key) && key in store && Answers(e, world, key, store[key])
    requires result == Answer(e, key, store[key]).value.1
    requires log == Reread(world, Answer(e, key, store[key]).value.0, |Answer(e, key, store[key]).value.0|)
    ensures AnsweredAt(e, x, world, store, key, log, result) && IsAnswerOf(e, x, world, store, result)
  {}

  /** What a run kept answers the next run of its inputs, while what it read stands still. */
  lemma NextIsAnswered(e: Engine, x: Inputs, t: seq<Exchange>, result: Result, kept: Option<(Bytes, Bytes)>,
      store: map<Bytes, Bytes>, world: World)
    requires Works(e) && Keeps(e, x, t, result, kept) && kept.Some?
    requires forall i, y :: y in t ==> world(i, y.request) == y.reply
    ensures IsAnswered(e, x, world, Filed(store, kept))
    ensures var a := Answer(e, kept.value.0, kept.value.1); a.Some? && a.value.1 == result
  {
    hide IsKey, Opened;
    var (key, entry) := kept.value;
    var list: seq<Read> :| IsListing(e.hash, list, t) && entry == EntryFor(e, key, list, result.document.value, result.format);
    AnswersAsKept(e, key, list, result.document.value, result.format);
    forall i | 0 <= i < |list| ensures Stands(e.hash, world(i, list[i].request), list[i]) {
      assert list[i] in list && WasRead(e.hash, t, list[i]);
      var j :| 0 <= j < |t| && list[i] == Read(t[j].request, HashOf(e.hash, t[j].reply));
      assert t[j] in t;
    }
  }

  lemma LogIsEmpty(world: World)
    ensures AnsweredBy(world, 0, [])
  {}

  /** Compiles a run its store does not answer, and keeps what it compiled. */
  method CompileAndKeep(e: Engine, x: Inputs, spec: Bytes, world: World, key: Bytes, made: nat, ghost before: seq<Exchange>,
      ghost past: Past) returns (result: Result, kept: Option<(Bytes, Bytes)>, ghost log: seq<Exchange>, ghost now: Past)
    requires Works(e) && IsKey(e.hash, x, key) && IsPast(e, past) && InputsIn(e, x, spec, past.hashed)
    requires AnsweredBy(world, 0, before) && |before| == made
    ensures AnsweredBy(world, 0, log) && made <= |log| && CompiledAfter(e, x, spec, log, made, result, kept)
    ensures IsPast(e, now) && Follows(past, now) && (kept.Some? ==> WasKept(e, now, kept.value.1))
    ensures exists t, from :: IsCompileOf(e, x, spec, world, t, from, result, kept)
    ensures Explains(e.compiler(x, spec), log, result)
  {
    hide Keeps, IsKey, InputsIn, FramesSeen, Explains, IsListing, IsPast, Asked, Steady, AnsweredBy, WasKept, RepliesIn,
      RepliesOf, EntryFor;
    kept := None;
    var recorder;
    result, recorder := Compile(e.compiler(x, spec), world, made, e.hash);
    ghost var t := recorder.log;
    LogGoesOn(world, before, t);
    log := before + t;
    CompileExplains(e.compiler(x, spec), log, t, result);
    var list, steady := recorder.Settled();
    now := past;
    if steady && result.document.Some? {
      now := MoreHashed(e, past, RepliesOf(t) + iset{key + ContentOf(e, list, result.document.value, result.format)});
      RepliesHashed(t, now.hashed);
      InputsStay(e, x, spec, past.hashed, now.hashed);
      KeepsListed(e, x, t, result, key, list);
      ghost var o := Origin(key, x, spec, t, list, result.document.value, result.format);
      now := KeptToo(e, now, o);
      kept := Some((key, EntryFor(e, key, list, result.document.value, result.format)));
    } else {
      KeepsNothing(e, x, t, result);
    }
    assert IsCompileOf(e, x, spec, world, t, made, result, kept);
  }

  // ----- a history of runs -----

  /** What happens to a store: a run, an entry lost, or other bytes found at a key,
      damaged or some other key's. */
  datatype Event = Ran(x: Inputs, spec: Bytes, world: World) | Lost(key: Bytes) | Found(key: Bytes, entry: Bytes)

  /** No bytes found at a key were forged: they open there only where a run before kept them. */
  ghost predicate NoneFoundForged(e: Engine, events: seq<Event>, kept: seq<Option<(Bytes, Bytes)>>) {
    forall i :: 0 <= i < |events| && events[i].Found? ==> FoundNotForged(e, events[i], kept, i)
  }

  ghost predicate FoundNotForged(e: Engine, event: Event, kept: seq<Option<(Bytes, Bytes)>>, i: nat)
    requires event.Found?
  {
    Opened(e.hash, event.key, event.entry).Some? ==> KeptBefore(kept, i, event.entry)
  }

  ghost predicate KeptBefore(kept: seq<Option<(Bytes, Bytes)>>, i: nat, entry: Bytes) {
    exists j :: 0 <= j < i && j < |kept| && kept[j].Some? && kept[j].value.1 == entry
  }

  /** What the store holds after events, what each run kept among them. */
  ghost function StoreAfter(events: seq<Event>, kept: seq<Option<(Bytes, Bytes)>>, i: nat): map<Bytes, Bytes>
    requires i <= |events| && i <= |kept|
  {
    if i == 0 then map[] else Stepped(StoreAfter(events, kept, i - 1), events[i - 1], kept[i - 1])
  }

  // The i-th event was a run like any other over the store as it stood.
  ghost predicate RanAt(e: Engine, events: seq<Event>, kept: seq<Option<(Bytes, Bytes)>>, results: seq<Result>,
      logs: seq<seq<Exchange>>, i: nat)
    requires i < |events| && |events| == |kept| == |results| == |logs|
  {
    events[i].Ran? ==>
      IsRun(e, events[i].x, events[i].spec, events[i].world, StoreAfter(events, kept, i), logs[i], results[i], kept[i])
  }

  ghost predicate RightAt(e: Engine, event: Event, log: seq<Exchange>, result: Result) {
    event.Ran? ==> Explains(e.compiler(event.x, event.spec), log, result)
  }

  predicate HashesItsSpec(e: Engine, event: Event) {
    event.Ran? ==> event.x.specHash == e.hash(event.spec)
  }

  // ----- one event more -----

  ghost predicate AllKept(e: Engine, past: Past, kept: seq<Option<(Bytes, Bytes)>>) {
    forall j :: 0 <= j < |kept| && kept[j].Some? ==> WasKept(e, past, kept[j].value.1)
  }

  lemma NothingPast(e: Engine)
    ensures IsPast(e, Past(iset{}, iset{})) && NoneForged(e, Past(iset{}, iset{}), map[])
  {}

  lemma StoreAtFirst(events: seq<Event>, kept: seq<Option<(Bytes, Bytes)>>)
    ensures StoreAfter(events[..0], kept, 0) == map[]
  {}

  lemma IsRight(e: Engine, event: Event, log: seq<Exchange>, result: Result)
    requires event.Ran? ==> Explains(e.compiler(event.x, event.spec), log, result)
    ensures RightAt(e, event, log, result)
  {}

  lemma NoneKept(e: Engine, past: Past)
    ensures AllKept(e, past, [])
  {}

  lemma FewerHashed(hash: Hash, a: iset<Bytes>, b: iset<Bytes>)
    requires a <= b
    ensures CollisionFree(hash, b) ==> CollisionFree(hash, a)
  {}

  function Stepped(store: map<Bytes, Bytes>, event: Event, kept: Option<(Bytes, Bytes)>): map<Bytes, Bytes> {
    match event
    case Ran(_, _, _) => Filed(store, kept)
    case Lost(key) => store - {key}
    case Found(key, entry) => store[key := entry]
  }

  lemma {:induction false} StoreStays(events: seq<Event>, event: Event, kept: seq<Option<(Bytes, Bytes)>>,
      keep: Option<(Bytes, Bytes)>, i: nat)
    requires i <= |events| && i <= |kept|
    ensures StoreAfter(events + [event], kept + [keep], i) == StoreAfter(events, kept, i)
  {
    if i > 0 {
      StoreStays(events, event, kept, keep, i - 1);
    }
  }

  // What was run stays run, and the event more was.
  lemma OneMoreEvent(e: Engine, events: seq<Event>, event: Event, kept: seq<Option<(Bytes, Bytes)>>, keep: Option<(Bytes, Bytes)>,
      results: seq<Result>, result: Result, logs: seq<seq<Exchange>>, log: seq<Exchange>, store: map<Bytes, Bytes>)
    requires |events| == |kept| == |results| == |logs| && store == StoreAfter(events, kept, |events|)
    requires forall j :: 0 <= j < |events| ==> RanAt(e, events, kept, results, logs, j)
    requires event.Ran? ==> IsRun(e, event.x, event.spec, event.world, store, log, result, keep)
    ensures StoreAfter(events + [event], kept + [keep], |events| + 1) == Stepped(store, event, keep)
    ensures forall j :: 0 <= j < |events| + 1 ==> RanAt(e, events + [event], kept + [keep], results + [result], logs + [log], j)
  {
    hide IsRun;
    StoreStays(events, event, kept, keep, |events|);
    forall j | 0 <= j < |events| + 1 ensures RanAt(e, events + [event], kept + [keep], results + [result], logs + [log], j) {
      StoreStays(events, event, kept, keep, j);
      if j < |events| {
        assert RanAt(e, events, kept, results, logs, j);
      }
    }
  }

  // Nothing forged is found in fewer events.
  lemma FewerFound(e: Engine, events: seq<Event>, event: Event, kept: seq<Option<(Bytes, Bytes)>>, keep: Option<(Bytes, Bytes)>)
    requires |kept| == |events| && NoneFoundForged(e, events + [event], kept + [keep])
    ensures NoneFoundForged(e, events, kept) && (event.Found? ==> FoundNotForged(e, event, kept, |events|))
  {
    hide Opened;
    forall i | 0 <= i < |events| && events[i].Found? ensures FoundNotForged(e, events[i], kept, i) {
      assert (events + [event])[i] == events[i];
      KeptBeforeStays(kept, keep, i, events[i].entry);
    }
    if event.Found? {
      assert (events + [event])[|events|] == event;
      KeptBeforeStays(kept, keep, |events|, event.entry);
    }
  }

  lemma KeptBeforeStays(kept: seq<Option<(Bytes, Bytes)>>, keep: Option<(Bytes, Bytes)>, i: nat, entry: Bytes)
    requires i <= |kept|
    ensures KeptBefore(kept + [keep], i, entry) <==> KeptBefore(kept, i, entry)
  {
    if KeptBefore(kept, i, entry) {
      var j :| 0 <= j < i && j < |kept| && kept[j].Some? && kept[j].value.1 == entry;
      assert (kept + [keep])[j] == kept[j];
    }
  }

  // Nothing in the store was forged, nor anything found in it.
  lemma StillNotForged(e: Engine, event: Event, kept: seq<Option<(Bytes, Bytes)>>, keep: Option<(Bytes, Bytes)>, was: Past,
      now: Past, store: map<Bytes, Bytes>)
    requires AllKept(e, was, kept) && Follows(was, now) && NoneForged(e, was, store)
    requires event.Ran? ==> NoneForged(e, now, Filed(store, keep))
    requires event.Found? ==> FoundNotForged(e, event, kept, |kept|)
    ensures NoneForged(e, now, Stepped(store, event, keep))
  {
    hide Opened;
    if !event.Ran? {
      var after := Stepped(store, event, keep);
      forall key | key in after ensures NoForgery(e, now, key, after[key]) {
        if event.Lost? || key != event.key {
          assert NoForgery(e, was, key, store[key]);
        } else if KeptBefore(kept, |kept|, event.entry) {
          var j :| 0 <= j < |kept| && kept[j].Some? && kept[j].value.1 == event.entry;
          assert WasKept(e, was, kept[j].value.1);
        }
      }
    }
  }

  lemma AllKeptMore(e: Engine, was: Past, now: Past, kept: seq<Option<(Bytes, Bytes)>>, keep: Option<(Bytes, Bytes)>)
    requires AllKept(e, was, kept) && Follows(was, now) && (keep.Some? ==> WasKept(e, now, keep.value.1))
    ensures AllKept(e, now, kept + [keep])
  {
    forall j | 0 <= j < |kept| && kept[j].Some? ensures WasKept(e, now, kept[j].value.1) {
      assert WasKept(e, was, kept[j].value.1);
    }
  }

  /** Serves runs from a store that starts empty, loses entries, and finds them damaged or
      filed for other keys.  However the documents change, unless two of the byte strings
      hashed collide or an entry was forged, every result is what compiling would produce
      of the replies its run got. */
  method Serve(e: Engine, events: seq<Event>)
      returns (results: seq<Result>, kept: seq<Option<(Bytes, Bytes)>>, ghost logs: seq<seq<Exchange>>, ghost past: Past)
    requires Works(e) && forall i :: 0 <= i < |events| ==> HashesItsSpec(e, events[i])
    ensures |results| == |kept| == |logs| == |events|
    ensures forall i :: 0 <= i < |events| ==> RanAt(e, events, kept, results, logs, i)
    ensures IsPast(e, past)
    ensures CollisionFree(e.hash, past.hashed) && NoneFoundForged(e, events, kept) ==>
      forall i :: 0 <= i < |events| ==> RightAt(e, events[i], logs[i], results[i])
  {
    hide IsPast, CollisionFree, IsRun, NoneForged, RightAt, RanAt, NoneFoundForged, Explains, FoundNotForged, AllKept, WasKept,
      StoreAfter;
    results, kept, logs := [], [], [];
    past := Past(iset{}, iset{});
    var store: map<Bytes, Bytes> := map[];
    NothingPast(e);
    StoreAtFirst(events, kept);
    NoneKept(e, past);
    for i := 0 to |events|
      invariant |results| == |kept| == |logs| == i && IsPast(e, past)
      invariant store == StoreAfter(events[..i], kept, i)
      invariant forall j :: 0 <= j < i ==> RanAt(e, events[..i], kept, results, logs, j)
      invariant AllKept(e, past, kept)
      invariant NoneFoundForged(e, events[..i], kept) ==> NoneForged(e, past, store)
      invariant CollisionFree(e.hash, past.hashed) && NoneFoundForged(e, events[..i], kept) ==>
        forall j :: 0 <= j < i ==> RightAt(e, events[j], logs[j], results[j])
    {
      assert events[..i + 1] == events[..i] + [events[i]];
      ghost var was, had := past, store;
      var result, keep := Result(None, ""), None;
      ghost var log := [];
      match events[i] {
        case Ran(x, spec, world) =>
          assert HashesItsSpec(e, events[i]);
          result, keep, log, past := CompileCached(e, x, spec, world, store, past);
          store := Filed(store, keep);
        case Lost(key) =>
          store := store - {key};
        case Found(key, entry) =>
          store := store[key := entry];
      }
      OneMoreEvent(e, events[..i], events[i], kept, keep, results, result, logs, log, had);
      if NoneFoundForged(e, events[..i + 1], kept + [keep]) {
        FewerFound(e, events[..i], events[i], kept, keep);
        StillNotForged(e, events[i], kept, keep, was, past, had);
        if CollisionFree(e.hash, past.hashed) {
          IsRight(e, events[i], log, result);
        }
      }
      AllKeptMore(e, was, past, kept, keep);
      FewerHashed(e.hash, was.hashed, past.hashed);
      results, kept, logs := results + [result], kept + [keep], logs + [log];
    }
    assert events[..|events|] == events;
  }
}
