/** An entry of the compile cache: a head and a document, sealed to the key it answers. */
module CacheEntries {
  import opened Values
  import opened Sequences
  import opened CacheKeys

  const NEWLINE: byte := 10
  const KEY_SIZE: nat := 32

  // ----- hexadecimal -----

  function Digit(n: nat): byte
    requires n < 16
  {
    if n < 10 then (48 + n) as byte else (87 + n) as byte
  }

  function Hex(s: Bytes): Bytes {
    if s == [] then [] else [Digit(s[0] as nat / 16), Digit(s[0] as nat % 16)] + Hex(s[1..])
  }

  lemma {:induction false} HexSpells(s: Bytes)
    ensures |Hex(s)| == 2 * |s| && NEWLINE !in Hex(s)
  {
    if s != [] {
      HexSpells(s[1..]);
    }
  }

  lemma {:induction false} HexIsInjective(a: Bytes, b: Bytes)
    requires Hex(a) == Hex(b)
    ensures a == b
  {
    HexSpells(a);
    HexSpells(b);
    if a != [] {
      assert Hex(a)[0] == Hex(b)[0] && Hex(a)[1] == Hex(b)[1];
      assert Hex(a[1..]) == Hex(a)[2..] && Hex(b[1..]) == Hex(b)[2..];
      HexIsInjective(a[1..], b[1..]);
      assert a[0] as nat == 16 * (a[0] as nat / 16) + a[0] as nat % 16;
      assert b[0] as nat == 16 * (b[0] as nat / 16) + b[0] as nat % 16;
      assert a == [a[0]] + a[1..] && b == [b[0]] + b[1..];
    }
  }

  // ----- lines -----

  // What comes before the first newline, and what comes after it, nothing when there is none.
  function Line(s: Bytes): (Bytes, Bytes) {
    var (head, tail) := Cut(s, NEWLINE);
    (head, if tail.Some? then tail.value else [])
  }

  lemma LineAt(line: Bytes, rest: Bytes)
    requires NEWLINE !in line
    ensures Line(line + [NEWLINE] + rest) == (line, rest) && Line(line) == (line, [])
  {
    CutAt(line, NEWLINE, rest);
  }

  // ----- entries -----

  function SealOf(hash: Hash, key: Bytes, content: Bytes): Bytes {
    Hex(hash(key + content))
  }

  function Content(head: Bytes, body: Bytes): Bytes {
    head + [NEWLINE] + body
  }

  /** An entry for key: three lines, the first sealing the other two. */
  function Sealed(hash: Hash, key: Bytes, head: Bytes, body: Bytes): Bytes {
    SealOf(hash, key, Content(head, body)) + [NEWLINE] + Content(head, body)
  }

  /** What opening an entry under a key gives: two lines, when the first one seals them. */
  function Opened(hash: Hash, key: Bytes, entry: Bytes): Option<(Bytes, Bytes)> {
    var (seal, content) := Line(entry);
    if seal == SealOf(hash, key, content) then Some(Line(content)) else None
  }

  /** An entry opens under its own key to what was sealed. */
  lemma OpensToWhatWasSealed(hash: Hash, key: Bytes, head: Bytes, body: Bytes)
    requires NEWLINE !in head
    ensures Opened(hash, key, Sealed(hash, key, head, body)) == Some((head, body))
  {
    HexSpells(hash(key + Content(head, body)));
    LineAt(SealOf(hash, key, Content(head, body)), Content(head, body));
    LineAt(head, body);
  }

  lemma SplitsAtKey(a: Bytes, b: Bytes, x: Bytes, y: Bytes)
    requires |a| == |b| && a + x == b + y
    ensures a == b && x == y
  {
    assert a == (a + x)[..|a|] && b == (b + y)[..|b|];
    assert x == (a + x)[|a|..] && y == (b + y)[|b|..];
  }

  /** Bytes under the seal of a sound entry open only under its key and only unchanged,
      so an entry damaged past its seal, or filed under another key, is refused. */
  lemma OpensOnlyIntact(hash: Hash, seen: iset<Bytes>, key: Bytes, content: Bytes, otherKey: Bytes, other: Bytes)
    requires CollisionFree(hash, seen) && key + content in seen && otherKey + other in seen
    requires |key| == |otherKey| == KEY_SIZE
    ensures Opened(hash, otherKey, SealOf(hash, key, content) + [NEWLINE] + other).Some?
        <==> otherKey == key && other == content
  {
    HexSpells(hash(key + content));
    LineAt(SealOf(hash, key, content), other);
    if SealOf(hash, key, content) == SealOf(hash, otherKey, other) {
      HexIsInjective(hash(key + content), hash(otherKey + other));
      SplitsAtKey(key, otherKey, content, other);
    }
  }

  /** A damaged seal over sound content is refused. */
  lemma DamagedSealIsRefused(hash: Hash, key: Bytes, content: Bytes, seal: Bytes)
    requires NEWLINE !in seal && seal != SealOf(hash, key, content)
    ensures Opened(hash, key, seal + [NEWLINE] + content).None?
  {
    LineAt(seal, content);
  }

  /** An entry cut short anywhere is refused. */
  lemma CutShortIsRefused(hash: Hash, seen: iset<Bytes>, key: Bytes, head: Bytes, body: Bytes, n: nat)
    requires CollisionFree(hash, seen) && |key| == KEY_SIZE && forall s :: |hash(s)| == KEY_SIZE
    requires forall k :: 0 <= k <= |Content(head, body)| ==> key + Content(head, body)[..k] in seen
    requires n < |Sealed(hash, key, head, body)|
    ensures Opened(hash, key, Sealed(hash, key, head, body)[..n]).None?
  {
    var content := Content(head, body);
    var seal, entry := SealOf(hash, key, content), Sealed(hash, key, head, body);
    HexSpells(hash(key + content));
    assert content[..|content|] == content;
    if n > |seal| {
      var k := n - |seal| - 1;
      assert entry[..n] == seal + [NEWLINE] + content[..k];
      assert key + content[..k] in seen && key + content[..|content|] in seen;
      OpensOnlyIntact(hash, seen, key, content, key, content[..k]);
    } else {
      assert entry[..n] == seal[..n];
      NoNewlineIn(seal, n);
      LineAt(seal[..n], []);
      HexSpells(hash(key + []));
      if n == |seal| {
        assert seal[..n] == seal && content[..0] == [] && key + content[..0] in seen && key + content[..|content|] in seen;
        if seal == SealOf(hash, key, []) {
          HexIsInjective(hash(key + content), hash(key + []));
          SplitsAtKey(key, key, content, []);
        }
      }
    }
  }

  lemma NoNewlineIn(s: Bytes, n: nat)
    requires NEWLINE !in s && n <= |s|
    ensures NEWLINE !in s[..n]
  {}
}
