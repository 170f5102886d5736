/** The hints of entities no source names: neutral words, composed by joining. */
module Hints {
  import opened Naming

  // "empty", for what has no name at all.
  const EMPTY_NAME_HINT: Name := [0x65, 0x6D, 0x70, 0x74, 0x79]

  /** The tables read the minted hint as lowercase letters. */
  ghost predicate SpellsMinted(u: Unicode) {
    forall i :: 0 <= i < |EMPTY_NAME_HINT| ==>
      var r := EMPTY_NAME_HINT[i]; u.isLetter(r) && !u.isDigit(r) && u.toLower(r) == r
  }

  /** h is a neutral word sequence of at least one word. */
  ghost predicate Neutral(u: Unicode, h: Name) {
    h != [] && Canonical(u, h) == h
  }

  /** The neutral words of hint, or the minted hint where it holds none. */
  function NeutralHint(u: Unicode, hint: Name): Name {
    var words := Canonical(u, hint);
    if words != [] then words else EMPTY_NAME_HINT
  }

  /** One composition: a parent's hint and a suffix, each made neutral, joined. */
  function SubHint(u: Unicode, parent: Name, suffix: Name): Name {
    NeutralHint(u, parent) + [UNDERSCORE] + NeutralHint(u, suffix)
  }

  /** The fold that `SubHints` is held to. */
  function Composed(u: Unicode, parent: Name, suffixes: seq<Name>): Name {
    if suffixes == [] then parent
    else SubHint(u, Composed(u, parent, suffixes[..|suffixes| - 1]), suffixes[|suffixes| - 1])
  }

  lemma MintedNeutral(u: Unicode)
    requires Lawful(u) && SpellsMinted(u)
    ensures Neutral(u, EMPTY_NAME_HINT)
  {
    var h := EMPTY_NAME_HINT;
    assert Settled(u, h) by {
      assert forall i :: 0 <= i < |h| ==> u.isLetter(h[i]) && !u.isDigit(h[i]) && u.toLower(h[i]) == h[i];
    }
    AloneReads(u, h);
    LowerSettled(u, h);
  }

  /** A neutral hint is neutral, and neutralizing it again changes nothing. */
  lemma HintNeutral(u: Unicode, hint: Name)
    requires Lawful(u) && SpellsMinted(u)
    ensures Neutral(u, NeutralHint(u, hint))
    ensures Neutral(u, hint) ==> NeutralHint(u, hint) == hint
  {
    MintedNeutral(u);
    CanonicalIsFixed(u, hint);
  }

  lemma {:induction false} RenderJoined(u: Unicode, ws: seq<Name>, vs: seq<Name>)
    requires ws != [] && vs != []
    ensures Render(u, ws + vs) == Render(u, ws) + [UNDERSCORE] + Render(u, vs)
  {
    var n := |vs| - 1;
    assert (ws + vs)[..|ws + vs| - 1] == ws + vs[..n];
    if n == 0 {
      assert ws + vs[..n] == ws;
    } else {
      RenderJoined(u, ws, vs[..n]);
    }
  }

  lemma NeutralWords(u: Unicode, h: Name)
    requires Lawful(u) && Neutral(u, h)
    ensures Words(u, h) != [] && AllSettled(u, Words(u, h))
  {
    CanonicalIsFixed(u, h);
    WordsSettle(u, h);
  }

  /** Two neutral hints joined by "_" are neutral again. */
  lemma JoinNeutral(u: Unicode, x: Name, y: Name)
    requires Lawful(u) && Neutral(u, x) && Neutral(u, y)
    ensures Neutral(u, x + [UNDERSCORE] + y)
  {
    NeutralWords(u, x);
    NeutralWords(u, y);
    var ws := Words(u, x) + Words(u, y);
    RenderJoined(u, Words(u, x), Words(u, y));
    RenderedReads(u, ws);
    assert Words(u, x + [UNDERSCORE] + y) == ws;
  }

  lemma SubHintNeutral(u: Unicode, parent: Name, suffix: Name)
    requires Lawful(u) && SpellsMinted(u)
    ensures Neutral(u, SubHint(u, parent, suffix))
  {
    HintNeutral(u, parent);
    HintNeutral(u, suffix);
    JoinNeutral(u, NeutralHint(u, parent), NeutralHint(u, suffix));
  }

  /** The chain's hint with each part neutralized once: what composing it one
      suffix at a time gives. */
  method SubHints(u: Unicode, parent: Name, suffixes: seq<Name>) returns (hint: Name)
    requires Lawful(u) && SpellsMinted(u)
    ensures hint == Composed(u, parent, suffixes)
    ensures suffixes != [] ==> Neutral(u, hint)
  {
    if |suffixes| == 0 {
      return parent;
    }
    hint := NeutralHint(u, parent);
    for n := 0 to |suffixes|
      invariant hint == NeutralHint(u, Composed(u, parent, suffixes[..n]))
      invariant n > 0 ==> hint == Composed(u, parent, suffixes[..n]) && Neutral(u, hint)
    {
      assert suffixes[..n + 1][..n] == suffixes[..n];
      hint := hint + [UNDERSCORE];
      hint := hint + NeutralHint(u, suffixes[n]);
      SubHintNeutral(u, Composed(u, parent, suffixes[..n]), suffixes[n]);
      HintNeutral(u, hint);
    }
    assert suffixes[..|suffixes|] == suffixes;
  }

  // ----- namings -----

  datatype NamingOf = NamingOf(source: Name, canonical: Name, hint: Name)

  function NamingHint(u: Unicode, hint: Name): NamingOf {
    NamingOf([], [], NeutralHint(u, hint))
  }

  /** A naming from a declared name; the empty name counts as none. */
  function NamingFor(u: Unicode, source: Name): NamingOf {
    if source == [] then NamingHint(u, []) else NamingOf(source, Canonical(u, source), [])
  }

  /** Every naming names its entity: by the source's spelling beside the canonical form
      of it, or, where the source declares no name, by a hint that is neutral. */
  lemma NamingNames(u: Unicode, source: Name)
    requires Lawful(u) && SpellsMinted(u)
    ensures var n := NamingFor(u, source);
      && n.source == source && n.canonical == Canonical(u, source)
      && (n.canonical == [] || Neutral(u, n.canonical))
      && if source == [] then Neutral(u, n.hint) else n.hint == []
  {
    HintNeutral(u, []);
    CanonicalIsFixed(u, source);
  }
}
