/** The keys of the compile cache: what a key covers, framed so that only equal inputs
    give equal bytes to hash. */
module CacheKeys {
  import opened Sequences

  newtype byte = x: int | 0 <= x < 256

  type Bytes = seq<byte>

  // ----- framing -----

  /** n as a variable-length integer: seven bits a byte, the least first, the top bit
      set on all but the last. */
  function Uvarint(n: nat): (r: Bytes)
    ensures |r| > 0
  {
    if n < 128 then [n as byte] else [(n % 128 + 128) as byte] + Uvarint(n / 128)
  }

  /** A length is read off the front of what follows it in one way only. */
  lemma {:induction false} UvarintReadsBack(a: nat, b: nat, x: Bytes, y: Bytes)
    requires Uvarint(a) + x == Uvarint(b) + y
    ensures a == b && x == y
  {
    assert (Uvarint(a) + x)[0] == (Uvarint(b) + y)[0];
    if a < 128 || b < 128 {
      assert x == (Uvarint(a) + x)[1..] && y == (Uvarint(b) + y)[1..];
    } else {
      assert Uvarint(a / 128) + x == (Uvarint(a) + x)[1..];
      assert Uvarint(b / 128) + y == (Uvarint(b) + y)[1..];
      UvarintReadsBack(a / 128, b / 128, x, y);
      assert a % 128 == b % 128;
    }
  }

  /** Each field after its length, back to back. */
  function Frame(fields: seq<Bytes>): Bytes {
    if fields == [] then [] else Uvarint(|fields[0]|) + fields[0] + Frame(fields[1..])
  }

  lemma {:induction false} FrameIsInjective(a: seq<Bytes>, b: seq<Bytes>)
    requires Frame(a) == Frame(b)
    ensures a == b
  {
    if a != [] && b != [] {
      assert Frame(a) == Uvarint(|a[0]|) + (a[0] + Frame(a[1..]));
      assert Frame(b) == Uvarint(|b[0]|) + (b[0] + Frame(b[1..]));
      UvarintReadsBack(|a[0]|, |b[0]|, a[0] + Frame(a[1..]), b[0] + Frame(b[1..]));
      var n := |a[0]|;
      assert a[0] == (a[0] + Frame(a[1..]))[..n] && b[0] == (b[0] + Frame(b[1..]))[..n];
      assert Frame(a[1..]) == (a[0] + Frame(a[1..]))[n..] && Frame(b[1..]) == (b[0] + Frame(b[1..]))[n..];
      FrameIsInjective(a[1..], b[1..]);
      assert a == [a[0]] + a[1..] && b == [b[0]] + b[1..];
    }
  }

  lemma {:induction false} FrameOneMore(fields: seq<Bytes>, field: Bytes)
    ensures Frame(fields + [field]) == Frame(fields) + Uvarint(|field|) + field
  {
    if fields == [] {
      assert fields + [field] == [field] && [field][1..] == [];
    } else {
      assert (fields + [field])[1..] == fields[1..] + [field];
      FrameOneMore(fields[1..], field);
    }
  }

  /** A hash of bytes, of whose width nothing here depends. */
  type Hash = Bytes -> Bytes

  /** No two of the byte strings seen hash alike. */
  ghost predicate CollisionFree(hash: Hash, seen: iset<Bytes>) {
    forall a, b :: a in seen && b in seen && hash(a) == hash(b) ==> a == b
  }

  /** The key of fields, framed one by one. */
  method KeyOf(hash: Hash, fields: seq<Bytes>) returns (key: Bytes)
    ensures key == hash(Frame(fields))
  {
    var framed: Bytes := [];
    for i := 0 to |fields|
      invariant framed == Frame(fields[..i])
    {
      assert fields[..i + 1] == fields[..i] + [fields[i]];
      FrameOneMore(fields[..i], fields[i]);
      framed := framed + Uvarint(|fields[i]|) + fields[i];
    }
    assert fields[..|fields|] == fields;
    key := hash(framed);
  }

  // ----- sorted settings -----

  predicate ByteBefore(a: byte, b: byte) {
    a < b
  }

  predicate BytesBefore(a: Bytes, b: Bytes) {
    Less(ByteBefore, a, b)
  }

  lemma BytesIsTotal(a: Bytes, b: Bytes)
    ensures a == b || BytesBefore(a, b) || BytesBefore(b, a)
    ensures !(BytesBefore(a, b) && BytesBefore(b, a)) && !BytesBefore(a, a)
  {
    LessIsTotal(ByteBefore, a, b);
    LessIsTotal(ByteBefore, a, a);
  }

  /** Bytes are in the order of their numbers. */
  lemma BytesByNumber(a: Bytes, b: Bytes)
    ensures BytesBefore(a, b) <==>
      a < b || exists i :: 0 <= i < |a| && i < |b| && a[..i] == b[..i] && a[i] as int < b[i] as int
  {
    LessReads(ByteBefore, a, b);
    if i :| 0 <= i < |a| && i < |b| && a[..i] == b[..i] && a[i] as int < b[i] as int {
      assert DiffersAt(ByteBefore, a, b, i);
    }
  }

  lemma BytesThen(a: Bytes, b: Bytes, c: Bytes)
    requires BytesBefore(a, b) && BytesBefore(b, c)
    ensures BytesBefore(a, c)
  {
    LessThen(ByteBefore, a, b, c);
  }

  ghost predicate IsLeast(s: set<Bytes>, x: Bytes) {
    x in s && forall y :: y in s ==> y == x || BytesBefore(x, y)
  }

  lemma {:induction false} HasLeast(s: set<Bytes>)
    requires s != {}
    ensures exists x :: IsLeast(s, x)
    decreases |s|
  {
    var y :| y in s;
    var rest := s - {y};
    if rest == {} {
      assert s == {y};
      assert IsLeast(s, y);
    } else {
      HasLeast(rest);
      var x :| IsLeast(rest, x);
      BytesIsTotal(x, y);
      if BytesBefore(x, y) {
        assert IsLeast(s, x);
      } else {
        forall z | z in s ensures z == y || BytesBefore(y, z) {
          if z in rest && z != x {
            BytesThen(y, x, z);
          }
        }
        assert IsLeast(s, y);
      }
    }
  }

  /** names is s in order. */
  ghost predicate InOrder(s: set<Bytes>, names: seq<Bytes>)
    decreases |names|
  {
    if names == [] then s == {} else IsLeast(s, names[0]) && InOrder(s - {names[0]}, names[1..])
  }

  /** A set has one order. */
  lemma {:induction false} OrderIsOne(s: set<Bytes>, a: seq<Bytes>, b: seq<Bytes>)
    requires InOrder(s, a) && InOrder(s, b)
    ensures a == b
    decreases |a|
  {
    if a != [] && b != [] {
      BytesIsTotal(a[0], b[0]);
      OrderIsOne(s - {a[0]}, a[1..], b[1..]);
      assert a == [a[0]] + a[1..] && b == [b[0]] + b[1..];
    }
  }

  lemma {:induction false} OrderHasAll(s: set<Bytes>, names: seq<Bytes>)
    requires InOrder(s, names)
    ensures forall x :: x in s <==> x in names
    decreases |names|
  {
    if names != [] {
      OrderHasAll(s - {names[0]}, names[1..]);
      assert forall x :: x in names <==> x == names[0] || x in names[1..];
    }
  }

  method Sorted(s: set<Bytes>) returns (names: seq<Bytes>)
    ensures InOrder(s, names)
    decreases |s|
  {
    if s == {} {
      return [];
    }
    HasLeast(s);
    var left := s;
    var x :| x in left;
    left := left - {x};
    while left != {}
      invariant x in s && left <= s && x !in left
      invariant forall y :: y in s && y !in left ==> y == x || BytesBefore(x, y)
      decreases left
    {
      var y :| y in left;
      left := left - {y};
      BytesIsTotal(x, y);
      if BytesBefore(y, x) {
        forall z | z in s && z !in left ensures z == y || BytesBefore(y, z) {
          if z != x && z != y {
            BytesThen(y, x, z);
          }
        }
        x := y;
      }
    }
    var rest := Sorted(s - {x});
    names := [x] + rest;
    assert names[1..] == rest;
  }

  // ----- what a run's key covers -----

  function Decimal(n: nat): (r: Bytes)
    ensures |r| > 0
  {
    if n < 10 then [(48 + n) as byte] else Decimal(n / 10) + [(48 + n % 10) as byte]
  }

  lemma {:induction false} DecimalIsInjective(a: nat, b: nat)
    requires Decimal(a) == Decimal(b)
    ensures a == b
  {
    assert Decimal(a)[|Decimal(a)| - 1] == Decimal(b)[|Decimal(b)| - 1];
    if a >= 10 && b >= 10 {
      assert Decimal(a / 10) == Decimal(a)[..|Decimal(a)| - 1];
      assert Decimal(b / 10) == Decimal(b)[..|Decimal(b)| - 1];
      DecimalIsInjective(a / 10, b / 10);
      assert a % 10 == b % 10;
    }
  }

  /** All that decides a run's result besides the documents: what a key must tell apart. */
  datatype Inputs = Inputs(build: Bytes, irVersion: Bytes, dir: Bytes, path: Bytes, specHash: Bytes, passes: seq<Bytes>,
    settings: map<Bytes, Bytes>)

  function Pairs(names: seq<Bytes>, settings: map<Bytes, Bytes>): seq<Bytes>
    requires forall i :: 0 <= i < |names| ==> names[i] in settings
  {
    if names == [] then [] else [names[0], settings[names[0]]] + Pairs(names[1..], settings)
  }

  function Leading(x: Inputs): seq<Bytes> {
    [x.build, x.irVersion, x.dir, x.path, x.specHash, Decimal(|x.passes|)]
  }

  // fields are those hashed for x, whatever order its settings were held in.
  ghost predicate IsFields(x: Inputs, fields: seq<Bytes>) {
    exists names :: InOrder(x.settings.Keys, names) && Named(x.settings, names)
      && fields == Leading(x) + x.passes + Pairs(names, x.settings)
  }

  ghost predicate Named(settings: map<Bytes, Bytes>, names: seq<Bytes>) {
    forall i :: 0 <= i < |names| ==> names[i] in settings
  }

  lemma {:induction false} PairsAgree(a: seq<Bytes>, b: seq<Bytes>, s: map<Bytes, Bytes>, t: map<Bytes, Bytes>)
    requires Named(s, a) && Named(t, b) && Pairs(a, s) == Pairs(b, t)
    ensures a == b && forall i :: 0 <= i < |a| ==> s[a[i]] == t[a[i]]
    decreases |a|
  {
    if a != [] && b != [] {
      var x, y := Pairs(a, s), Pairs(b, t);
      assert x[0] == y[0] && x[1] == y[1] && x[2..] == Pairs(a[1..], s) && y[2..] == Pairs(b[1..], t);
      PairsAgree(a[1..], b[1..], s, t);
      assert a == [a[0]] + a[1..] && b == [b[0]] + b[1..];
      forall i | 0 <= i < |a| ensures s[a[i]] == t[a[i]] {
        if i > 0 {
          assert a[i] == a[1..][i - 1];
        }
      }
    }
  }

  /** Inputs have one list of fields, and it names them. */
  lemma FieldsAreInjective(x: Inputs, y: Inputs, a: seq<Bytes>, b: seq<Bytes>)
    requires IsFields(x, a) && IsFields(y, b)
    ensures a == b <==> x == y
  {
    var m :| InOrder(x.settings.Keys, m) && Named(x.settings, m) && a == Leading(x) + x.passes + Pairs(m, x.settings);
    var n :| InOrder(y.settings.Keys, n) && Named(y.settings, n) && b == Leading(y) + y.passes + Pairs(n, y.settings);
    if x == y {
      OrderIsOne(x.settings.Keys, m, n);
    }
    if a == b {
      assert a[..6] == Leading(x) && b[..6] == Leading(y);
      DecimalIsInjective(|x.passes|, |y.passes|) by {
        assert Leading(x)[5] == Leading(y)[5];
      }
      assert Leading(x)[0] == Leading(y)[0] && Leading(x)[1] == Leading(y)[1] && Leading(x)[2] == Leading(y)[2]
          && Leading(x)[3] == Leading(y)[3] && Leading(x)[4] == Leading(y)[4];
      var k := 6 + |x.passes|;
      assert a[6..k] == x.passes && b[6..k] == y.passes;
      assert a[k..] == Pairs(m, x.settings) && b[k..] == Pairs(n, y.settings);
      PairsAgree(m, n, x.settings, y.settings);
      SettingsAgree(m, x.settings, y.settings);
    }
  }

  lemma SettingsAgree(names: seq<Bytes>, s: map<Bytes, Bytes>, t: map<Bytes, Bytes>)
    requires InOrder(s.Keys, names) && InOrder(t.Keys, names) && Named(s, names) && Named(t, names)
    requires forall i :: 0 <= i < |names| ==> s[names[i]] == t[names[i]]
    ensures s == t
  {
    OrderHasAll(s.Keys, names);
    OrderHasAll(t.Keys, names);
    forall x | x in s ensures x in t && s[x] == t[x] {
      assert x in s.Keys;
      var i :| 0 <= i < |names| && names[i] == x;
    }
    assert s.Keys == t.Keys;
  }

  /** The bytes a run's key hashes are those of its inputs and of no others. */
  ghost predicate IsKey(hash: Hash, x: Inputs, key: Bytes) {
    exists fields :: IsFields(x, fields) && key == hash(Frame(fields))
  }

  ghost predicate FramesSeen(x: Inputs, seen: iset<Bytes>) {
    forall fields :: IsFields(x, fields) ==> Frame(fields) in seen
  }

  /** Two runs share a key exactly when their inputs are the same. */
  lemma KeysAreInjective(hash: Hash, seen: iset<Bytes>, x: Inputs, y: Inputs, a: Bytes, b: Bytes)
    requires CollisionFree(hash, seen) && FramesSeen(x, seen) && FramesSeen(y, seen)
    requires IsKey(hash, x, a) && IsKey(hash, y, b)
    ensures a == b <==> x == y
  {
    hide IsFields;
    var f :| IsFields(x, f) && a == hash(Frame(f));
    var g :| IsFields(y, g) && b == hash(Frame(g));
    FieldsAreInjective(x, y, f, g);
    if a == b {
      FrameIsInjective(f, g);
    }
  }

  /** Derives the key of a run's inputs. */
  method DeriveKey(hash: Hash, x: Inputs) returns (key: Bytes)
    ensures IsKey(hash, x, key)
  {
    var fields := Leading(x) + x.passes;
    var names := Sorted(x.settings.Keys);
    OrderHasAll(x.settings.Keys, names);
    assert Named(x.settings, names) by {
      forall i | 0 <= i < |names| ensures names[i] in x.settings {
        assert names[i] in names;
      }
    }
    var pairs: seq<Bytes> := [];
    for i := 0 to |names|
      invariant pairs == Pairs(names[..i], x.settings)
    {
      PairsOneMore(names[..i], names[i], x.settings);
      assert names[..i + 1] == names[..i] + [names[i]];
      pairs := pairs + [names[i], x.settings[names[i]]];
    }
    assert names[..|names|] == names;
    assert IsFields(x, fields + pairs);
    key := KeyOf(hash, fields + pairs);
  }

  lemma {:induction false} PairsOneMore(names: seq<Bytes>, name: Bytes, settings: map<Bytes, Bytes>)
    requires Named(settings, names) && name in settings
    ensures Pairs(names + [name], settings) == Pairs(names, settings) + [name, settings[name]]
  {
    if names == [] {
      assert names + [name] == [name] && [name][1..] == [];
    } else {
      assert (names + [name])[1..] == names[1..] + [name];
      PairsOneMore(names[1..], name, settings);
    }
  }
}
