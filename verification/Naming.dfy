/** The naming grammar: the words read in a name, and the neutral lower_snake
    sequence they render to. */
module Naming {
  type Rune = int

  const UNDERSCORE: Rune := 0x5F
  const RUNE_ERROR: Rune := 0xFFFD

  /** The character classes and lowercasing the grammar asks about. */
  datatype Unicode = Unicode(isLetter: Rune -> bool, isDigit: Rune -> bool, isMark: Rune -> bool,
                             isLower: Rune -> bool, isUpper: Rune -> bool, isTitle: Rune -> bool,
                             toLower: Rune -> Rune)

  /** What the tables keep to: lowercasing settles at once and keeps a rune's class,
      lowercase runes are letters, and neither "_" nor the error rune is in a word. */
  ghost predicate Lawful(u: Unicode) {
    && (forall r :: u.toLower(u.toLower(r)) == u.toLower(r))
    && (forall r :: u.isLetter(u.toLower(r)) == u.isLetter(r))
    && (forall r :: u.isDigit(u.toLower(r)) == u.isDigit(r))
    && (forall r :: u.isMark(u.toLower(r)) == u.isMark(r))
    && (forall r :: u.isLower(r) ==> u.isLetter(r))
    && !IsWordRune(u, UNDERSCORE) && !IsWordRune(u, RUNE_ERROR)
  }

  type Name = seq<Rune>

  // ----- the grammar -----

  predicate IsWordRune(u: Unicode, r: Rune) {
    u.isLetter(r) || u.isDigit(r) || u.isMark(r)
  }

  predicate CarriesCase(u: Unicode, r: Rune) {
    u.toLower(r) != r
  }

  predicate IsCapital(u: Unicode, r: Rune) {
    u.isUpper(r) || u.isTitle(r)
  }

  // The first rune of rest, the error rune when there is none.
  function FirstRune(rest: Name): Rune {
    if rest == [] then RUNE_ERROR else rest[0]
  }

  /** The second of two capitals before a lowercase letter starts a word, provided
      lowering changes one of the two. */
  predicate AcronymTail(u: Unicode, prev: Rune, r: Rune, rest: Name) {
    IsCapital(u, prev) && IsCapital(u, r) && (CarriesCase(u, prev) || CarriesCase(u, r)) && u.isLower(FirstRune(rest))
  }

  predicate LetterDigit(u: Unicode, prev: Rune, r: Rune) {
    (u.isLetter(prev) && u.isDigit(r)) || (u.isDigit(prev) && u.isLetter(r))
  }

  /** Whether a run of word runes is cut before r. */
  predicate WordBoundary(u: Unicode, prev: Rune, r: Rune, rest: Name) {
    (CarriesCase(u, r) && (u.isLower(prev) || u.isDigit(prev))) || AcronymTail(u, prev, r, rest) || LetterDigit(u, prev, r)
  }

  /** A word of s starts at i. */
  predicate StartsWord(u: Unicode, s: Name, i: nat)
    requires i < |s|
  {
    IsWordRune(u, s[i]) && (i == 0 || !IsWordRune(u, s[i - 1]) || WordBoundary(u, s[i - 1], s[i], s[i + 1..]))
  }

  /** The words of s met in its first n runes, the last as far as it goes. */
  function WordsTo(u: Unicode, s: Name, n: nat): (ws: seq<Name>)
    requires n <= |s|
    ensures n > 0 && IsWordRune(u, s[n - 1]) ==> ws != []
  {
    if n == 0 then []
    else
      var ws := WordsTo(u, s, n - 1);
      if !IsWordRune(u, s[n - 1]) then ws
      else if StartsWord(u, s, n - 1) then ws + [[s[n - 1]]]
      else ws[|ws| - 1 := ws[|ws| - 1] + [s[n - 1]]]
  }

  function Words(u: Unicode, s: Name): seq<Name> {
    WordsTo(u, s, |s|)
  }

  function Lower(u: Unicode, w: Name): (r: Name)
    ensures |r| == |w|
  {
    seq(|w|, i requires 0 <= i < |w| => u.toLower(w[i]))
  }

  /** The words lowercased, "_" between two. */
  function Render(u: Unicode, ws: seq<Name>): Name {
    if ws == [] then []
    else if |ws| == 1 then Lower(u, ws[0])
    else Render(u, ws[..|ws| - 1]) + [UNDERSCORE] + Lower(u, ws[|ws| - 1])
  }

  /** The neutral word sequence of s. */
  function Canonical(u: Unicode, s: Name): Name {
    Render(u, Words(u, s))
  }

  // ----- reading a name -----

  /** Cuts name into `Words`: maximal runs of word runes, further cut at boundaries. */
  method SourceWords(u: Unicode, name: Name) returns (words: seq<Name>)
    ensures words == Words(u, name)
  {
    words := [];
    var start, inWord := 0, false;
    var prev: Rune := 0;
    var i := 0;
    while i < |name|
      invariant 0 <= start <= i <= |name|
      invariant inWord <==> i > 0 && IsWordRune(u, name[i - 1])
      invariant i > 0 ==> prev == name[i - 1]
      invariant WordsTo(u, name, i) == if inWord then words + [name[start..i]] else words
    {
      var r := name[i];
      if !IsWordRune(u, r) {
        if inWord {
          words := words + [name[start..i]];
        }
        inWord := false;
      } else if !inWord {
        start, inWord := i, true;
        assert name[start..i + 1] == [r];
      } else if WordBoundary(u, prev, r, name[i + 1..]) {
        words := words + [name[start..i]];
        start := i;
        assert name[start..i + 1] == [r];
      } else {
        assert name[start..i + 1] == name[start..i] + [r];
      }
      prev := r;
      i := i + 1;
    }
    if inWord {
      words := words + [name[start..i]];
    }
  }

  /** name as the neutral word sequence; none of its word runes make "". */
  method CanonicalWords(u: Unicode, name: Name) returns (words: Name)
    ensures words == Canonical(u, name)
  {
    var source := SourceWords(u, name);
    words := [];
    for n := 0 to |source|
      invariant words == Render(u, source[..n])
    {
      assert source[..n + 1][..n] == source[..n];
      if n > 0 {
        words := words + [UNDERSCORE];
      }
      ghost var before := words;
      for i := 0 to |source[n]|
        invariant words == before + Lower(u, source[n])[..i]
      {
        words := words + [u.toLower(source[n][i])];
        assert Lower(u, source[n])[..i + 1] == Lower(u, source[n])[..i] + [u.toLower(source[n][i])];
      }
      assert Lower(u, source[n])[..|source[n]|] == Lower(u, source[n]);
    }
    assert source[..|source|] == source;
  }

  // The canonical runes of word n from rune i on, what HasCanonicalWords reads.
  function RestOf(u: Unicode, ws: seq<Name>): Name {
    if ws == [] then [] else [UNDERSCORE] + Lower(u, ws[0]) + RestOf(u, ws[1..])
  }

  lemma {:induction false} RenderFromFirst(u: Unicode, ws: seq<Name>)
    requires ws != []
    ensures Render(u, ws) == Lower(u, ws[0]) + RestOf(u, ws[1..])
  {
    if |ws| == 1 {
      assert RestOf(u, ws[1..]) == [];
    } else {
      var front, last := ws[..|ws| - 1], ws[|ws| - 1];
      RenderFromFirst(u, front);
      RestOn(u, front[1..], last);
      assert front[1..] + [last] == ws[1..];
    }
  }

  lemma {:induction false} RestOn(u: Unicode, ws: seq<Name>, w: Name)
    ensures RestOf(u, ws + [w]) == RestOf(u, ws) + [UNDERSCORE] + Lower(u, w)
  {
    if ws == [] {
      assert ws + [w] == [w];
      assert RestOf(u, [w][1..]) == [];
    } else {
      assert (ws + [w])[1..] == ws[1..] + [w];
      RestOn(u, ws[1..], w);
    }
  }

  // Compares the runes of expected with the front of text, returning the rest.
  method Consume(expected: Name, text: Name) returns (same: bool, rest: Name)
    requires RUNE_ERROR !in expected
    ensures same <==> expected <= text
    ensures same ==> text == expected + rest
  {
    rest := text;
    for i := 0 to |expected|
      invariant text == expected[..i] + rest
    {
      var got := FirstRune(rest);
      if got != expected[i] {
        assert |text| > i ==> text[i] == rest[0];
        return false, [];
      }
      rest := rest[1..];
      assert expected[..i + 1] == expected[..i] + [expected[i]];
    }
    assert expected[..|expected|] == expected;
    same := true;
  }

  lemma LowerNoError(u: Unicode, w: Name)
    requires Lawful(u) && forall i :: 0 <= i < |w| ==> IsWordRune(u, w[i])
    ensures RUNE_ERROR !in Lower(u, w)
  {
    forall i | 0 <= i < |w| ensures Lower(u, w)[i] != RUNE_ERROR {
      assert IsWordRune(u, u.toLower(w[i]));
    }
  }

  lemma {:induction false} WordsHoldWordRunes(u: Unicode, s: Name, n: nat)
    requires n <= |s|
    ensures forall k, i :: 0 <= k < |WordsTo(u, s, n)| && 0 <= i < |WordsTo(u, s, n)[k]| ==> IsWordRune(u, WordsTo(u, s, n)[k][i])
    ensures forall k :: 0 <= k < |WordsTo(u, s, n)| ==> WordsTo(u, s, n)[k] != []
  {
    if n > 0 {
      WordsHoldWordRunes(u, s, n - 1);
    }
  }

  /** Whether words is the canonical form of name, told as name is read. */
  method HasCanonicalWords(u: Unicode, name: Name, words: Name) returns (has: bool)
    requires Lawful(u)
    ensures has <==> words == Canonical(u, name)
  {
    hide WordsTo, Lower, IsWordRune, Lawful;
    var source := SourceWords(u, name);
    WordsHoldWordRunes(u, name, |name|);
    if source == [] {
      return words == [];
    }
    RenderFromFirst(u, source);
    LowerNoError(u, source[0]);
    var same, rest := Consume(Lower(u, source[0]), words);
    if !same {
      return false;
    }
    ghost var head := Lower(u, source[0]);
    for n := 1 to |source|
      invariant words == head + rest && Canonical(u, name) == head + RestOf(u, source[n..])
    {
      assert source[n..][0] == source[n] && source[n..][1..] == source[n + 1..];
      LowerNoError(u, source[n]);
      var expected := [UNDERSCORE] + Lower(u, source[n]);
      Cancels(head, rest, RestOf(u, source[n..]));
      same, rest := Consume(expected, rest);
      if !same {
        return false;
      }
      head := head + expected;
    }
    Cancels(head, rest, []);
    has := rest == [];
  }

  lemma Cancels(head: Name, a: Name, b: Name)
    ensures head + a == head + b <==> a == b
  {
    if head + a == head + b {
      assert a == (head + a)[|head|..] == (head + b)[|head|..] == b;
    }
  }

  // ----- the grammar's own output -----

  /** No word rune of t lowercases further. */
  ghost predicate Quiet(u: Unicode, t: Name) {
    forall i :: 0 <= i < |t| && IsWordRune(u, t[i]) ==> u.toLower(t[i]) == t[i]
  }

  /** A word the grammar leaves whole: word runes, no case left, and no letter beside
      a digit. */
  ghost predicate Settled(u: Unicode, w: Name) {
    && w != [] && Quiet(u, w)
    && (forall i :: 0 <= i < |w| ==> IsWordRune(u, w[i]))
    && (forall i :: 0 < i < |w| ==> !LetterDigit(u, w[i - 1], w[i]))
  }

  ghost predicate AllSettled(u: Unicode, ws: seq<Name>) {
    forall k :: 0 <= k < |ws| ==> Settled(u, ws[k])
  }

  lemma {:induction false} LowerSettled(u: Unicode, w: Name)
    requires Settled(u, w)
    ensures Lower(u, w) == w
  {
    assert forall i :: 0 <= i < |w| ==> Lower(u, w)[i] == w[i];
  }

  // With no case left, a boundary is a letter beside a digit and nothing else.
  lemma QuietBoundary(u: Unicode, t: Name, i: nat)
    requires Quiet(u, t) && 0 < i < |t| && IsWordRune(u, t[i - 1]) && IsWordRune(u, t[i])
    ensures WordBoundary(u, t[i - 1], t[i], t[i + 1..]) == LetterDigit(u, t[i - 1], t[i])
  {
  }

  // What follows a quiet text's front does not change the words in it.
  lemma {:induction false} WordsOfFront(u: Unicode, t: Name, n: nat, m: nat)
    requires Lawful(u) && Quiet(u, t) && n <= m <= |t|
    ensures WordsTo(u, t, n) == WordsTo(u, t[..m], n)
  {
    if n > 0 {
      WordsOfFront(u, t, n - 1, m);
      if n > 1 && IsWordRune(u, t[n - 2]) && IsWordRune(u, t[n - 1]) {
        QuietBoundary(u, t, n - 1);
        QuietBoundary(u, t[..m], n - 1);
      }
    }
  }

  // Past a separator, a settled word reads as itself.
  lemma {:induction false} WordReads(u: Unicode, t: Name, at: nat, n: nat)
    requires Lawful(u) && Quiet(u, t) && at < n <= |t| && Settled(u, t[at..])
    requires at == 0 || !IsWordRune(u, t[at - 1])
    ensures WordsTo(u, t, n) == WordsTo(u, t, at) + [t[at..n]]
  {
    assert t[at..][n - 1 - at] == t[n - 1];
    if n == at + 1 {
      assert t[at..n] == [t[at]];
    } else {
      WordReads(u, t, at, n - 1);
      assert t[at..][n - 2 - at] == t[n - 2];
      QuietBoundary(u, t, n - 1);
      assert t[at..n] == t[at..n - 1] + [t[n - 1]];
    }
  }

  // A settled word joined to a quiet text is its next word.
  lemma JoinedReads(u: Unicode, front: Name, w: Name)
    requires Lawful(u) && Quiet(u, front) && Settled(u, w)
    ensures var t := front + [UNDERSCORE] + w; Quiet(u, t) && Words(u, t) == Words(u, front) + [w]
  {
    var t := front + [UNDERSCORE] + w;
    var n := |front|;
    assert forall i :: 0 <= i < |t| ==> t[i] == if i < n then front[i] else if i == n then UNDERSCORE else w[i - n - 1];
    assert t[..n] == front && t[n + 1..] == w && t[n + 1..|t|] == w;
    WordsOfFront(u, t, n, n);
    WordReads(u, t, n + 1, |t|);
  }

  lemma AloneReads(u: Unicode, w: Name)
    requires Lawful(u) && Settled(u, w)
    ensures Words(u, w) == [w]
  {
    assert w[0..] == w && w[0..|w|] == w;
    WordReads(u, w, 0, |w|);
  }

  /** Settled words, rendered, read back as themselves. */
  lemma {:induction false} RenderedReads(u: Unicode, ws: seq<Name>)
    requires Lawful(u) && AllSettled(u, ws)
    ensures Quiet(u, Render(u, ws)) && Words(u, Render(u, ws)) == ws
  {
    if ws != [] {
      hide Lawful, Words;
      var front, w := ws[..|ws| - 1], ws[|ws| - 1];
      LowerSettled(u, w);
      RenderedReads(u, front);
      if front == [] {
        AloneReads(u, w);
      } else {
        JoinedReads(u, Render(u, front), w);
      }
      assert ws == front + [w];
    }
  }

  // ----- the words of any name settle once lowercased -----

  // No letter stands beside a digit in a word, and the words are contiguous.
  lemma {:induction false} WordsApart(u: Unicode, s: Name, n: nat)
    requires n <= |s|
    ensures forall k, i :: 0 <= k < |WordsTo(u, s, n)| && 0 < i < |WordsTo(u, s, n)[k]| ==>
      !LetterDigit(u, WordsTo(u, s, n)[k][i - 1], WordsTo(u, s, n)[k][i])
    ensures n > 0 && IsWordRune(u, s[n - 1]) ==>
      var ws := WordsTo(u, s, n); ws[|ws| - 1] != [] && ws[|ws| - 1][|ws[|ws| - 1]| - 1] == s[n - 1]
  {
    if n > 0 {
      WordsApart(u, s, n - 1);
      WordsHoldWordRunes(u, s, n - 1);
    }
  }

  lemma LowerSettles(u: Unicode, w: Name)
    requires Lawful(u) && w != []
    requires forall i :: 0 <= i < |w| ==> IsWordRune(u, w[i])
    requires forall i :: 0 < i < |w| ==> !LetterDigit(u, w[i - 1], w[i])
    ensures Settled(u, Lower(u, w))
  {
  }

  function Lowered(u: Unicode, ws: seq<Name>): (r: seq<Name>)
    ensures |r| == |ws|
  {
    seq(|ws|, k requires 0 <= k < |ws| => Lower(u, ws[k]))
  }

  lemma WordsSettle(u: Unicode, s: Name)
    requires Lawful(u)
    ensures AllSettled(u, Lowered(u, Words(u, s)))
  {
    WordsApart(u, s, |s|);
    WordsHoldWordRunes(u, s, |s|);
    forall k | 0 <= k < |Words(u, s)| ensures Settled(u, Lowered(u, Words(u, s))[k]) {
      LowerSettles(u, Words(u, s)[k]);
    }
  }

  lemma {:induction false} RenderLowered(u: Unicode, ws: seq<Name>)
    requires AllSettled(u, Lowered(u, ws))
    ensures Render(u, Lowered(u, ws)) == Render(u, ws)
  {
    if ws != [] {
      var n := |ws| - 1;
      assert Lowered(u, ws)[..n] == Lowered(u, ws[..n]);
      RenderLowered(u, ws[..n]);
      LowerSettled(u, Lowered(u, ws)[n]);
    }
  }

  /** One pass settles a name: its canonical form is its own, its words those of the
      name lowercased. */
  lemma CanonicalIsFixed(u: Unicode, s: Name)
    requires Lawful(u)
    ensures Words(u, Canonical(u, s)) == Lowered(u, Words(u, s))
    ensures Canonical(u, Canonical(u, s)) == Canonical(u, s)
  {
    WordsSettle(u, s);
    RenderLowered(u, Words(u, s));
    RenderedReads(u, Lowered(u, Words(u, s)));
  }

  // The word runes of s, lowercased.
  function WordRunes(u: Unicode, s: Name): Name {
    if s == [] then []
    else
      var front := WordRunes(u, s[..|s| - 1]);
      if IsWordRune(u, s[|s| - 1]) then front + [u.toLower(s[|s| - 1])] else front
  }

  lemma {:induction false} WordRunesJoined(u: Unicode, a: Name, b: Name)
    ensures WordRunes(u, a + b) == WordRunes(u, a) + WordRunes(u, b)
  {
    if b == [] {
      assert a + b == a;
    } else {
      assert (a + b)[..|a + b| - 1] == a + b[..|b| - 1];
      WordRunesJoined(u, a, b[..|b| - 1]);
    }
  }

  function Joined(ws: seq<Name>): Name {
    if ws == [] then [] else Joined(ws[..|ws| - 1]) + ws[|ws| - 1]
  }

  // Segmenting drops no word rune, and moves none.
  lemma {:induction false} WordsKeepRunes(u: Unicode, s: Name, n: nat)
    requires n <= |s|
    ensures WordRunes(u, s[..n]) == WordRunes(u, Joined(WordsTo(u, s, n)))
  {
    if n > 0 {
      WordsKeepRunes(u, s, n - 1);
      assert s[..n][..n - 1] == s[..n - 1];
      var was, now, r := WordsTo(u, s, n - 1), WordsTo(u, s, n), s[n - 1];
      if IsWordRune(u, r) {
        assert Joined(now) == Joined(was) + [r] by {
          if StartsWord(u, s, n - 1) {
            assert now[..|now| - 1] == was;
          } else {
            assert now[..|now| - 1] == was[..|was| - 1];
          }
        }
        WordRunesJoined(u, Joined(was), [r]);
        assert [r][..0] == [];
      }
    }
  }

  lemma {:induction false} RenderKeepsRunes(u: Unicode, ws: seq<Name>)
    requires Lawful(u)
    ensures WordRunes(u, Render(u, ws)) == WordRunes(u, Joined(ws))
  {
    if ws != [] {
      var front, last := ws[..|ws| - 1], ws[|ws| - 1];
      RenderKeepsRunes(u, front);
      LowerKeepsRunes(u, last);
      WordRunesJoined(u, Joined(front), last);
      if front == [] {
        assert Joined(ws) == last;
      } else {
        WordRunesJoined(u, Render(u, front) + [UNDERSCORE], Lower(u, last));
        WordRunesJoined(u, Render(u, front), [UNDERSCORE]);
        assert [UNDERSCORE][..0] == [];
      }
    }
  }

  lemma {:induction false} LowerKeepsRunes(u: Unicode, w: Name)
    requires Lawful(u)
    ensures WordRunes(u, Lower(u, w)) == WordRunes(u, w)
  {
    if w != [] {
      LowerKeepsRunes(u, w[..|w| - 1]);
      assert Lower(u, w)[..|w| - 1] == Lower(u, w[..|w| - 1]);
    }
  }

  /** A canonical form holds exactly the name's letters, digits and marks,
      lowercased and in order; so a name with none has the empty form. */
  lemma CanonicalKeepsRunes(u: Unicode, s: Name)
    requires Lawful(u)
    ensures WordRunes(u, Canonical(u, s)) == WordRunes(u, s)
    ensures Canonical(u, s) == [] <==> forall i :: 0 <= i < |s| ==> !IsWordRune(u, s[i])
  {
    WordsKeepRunes(u, s, |s|);
    assert s[..|s|] == s;
    RenderKeepsRunes(u, Words(u, s));
    NoRunes(u, s);
    WordsHoldWordRunes(u, s, |s|);
    if Words(u, s) != [] {
      RenderFromFirst(u, Words(u, s));
    }
    NoWords(u, s, |s|);
  }

  lemma {:induction false} NoRunes(u: Unicode, s: Name)
    ensures WordRunes(u, s) == [] <==> forall i :: 0 <= i < |s| ==> !IsWordRune(u, s[i])
  {
    if s != [] {
      NoRunes(u, s[..|s| - 1]);
      assert forall i :: 0 <= i < |s| - 1 ==> s[i] == s[..|s| - 1][i];
    }
  }

  lemma {:induction false} NoWords(u: Unicode, s: Name, n: nat)
    requires n <= |s|
    ensures WordsTo(u, s, n) == [] <==> forall i :: 0 <= i < n ==> !IsWordRune(u, s[i])
  {
    if n > 0 {
      NoWords(u, s, n - 1);
    }
  }

  // ----- where a name is cut -----

  // From one place in a name up to another.
  datatype Span = Span(from: nat, to: nat)

  predicate InSpan(spans: seq<Span>, k: nat, i: nat) {
    k < |spans| && spans[k].from <= i < spans[k].to
  }

  predicate Begins(spans: seq<Span>, i: nat) {
    exists k :: 0 <= k < |spans| && spans[k].from == i
  }

  /** ws are what the spans of s hold: every word rune of the first n and no other, one
      span after another. */
  ghost predicate Spanned(u: Unicode, s: Name, n: nat, ws: seq<Name>, spans: seq<Span>) {
    && n <= |s| && |ws| == |spans|
    && (forall k :: 0 <= k < |spans| ==> spans[k].from < spans[k].to <= n && ws[k] == s[spans[k].from..spans[k].to])
    && (forall j, k :: 0 <= j < k < |spans| ==> spans[j].to <= spans[k].from)
    && (forall i :: 0 <= i < n ==> (IsWordRune(u, s[i]) <==> exists k: nat :: InSpan(spans, k, i)))
  }

  /** Two word runes side by side are in words apart: a letter that carries case after a
      lowercase letter or a digit; the second of two capitals, one of them carrying case,
      before a lowercase letter; a letter and a digit. */
  predicate CutAt(u: Unicode, s: Name, i: nat)
    requires 0 < i < |s|
  {
    var prev, r := s[i - 1], s[i];
    || (u.toLower(r) != r && (u.isLower(prev) || u.isDigit(prev)))
    || ((u.isUpper(prev) || u.isTitle(prev)) && (u.isUpper(r) || u.isTitle(r))
        && (u.toLower(prev) != prev || u.toLower(r) != r) && i + 1 < |s| && u.isLower(s[i + 1]))
    || (u.isLetter(prev) && u.isDigit(r)) || (u.isDigit(prev) && u.isLetter(r))
  }

  // A span begins at each rune that starts a word, the last reaching the last word rune.
  ghost predicate Started(u: Unicode, s: Name, n: nat, spans: seq<Span>) {
    && n <= |s| && (forall i :: 0 <= i < n ==> (StartsWord(u, s, i) <==> Begins(spans, i)))
    && (n > 0 && IsWordRune(u, s[n - 1]) ==> spans != [] && spans[|spans| - 1].to == n)
  }

  lemma {:induction false} WordsSpan(u: Unicode, s: Name, n: nat) returns (spans: seq<Span>)
    requires n <= |s|
    ensures Spanned(u, s, n, WordsTo(u, s, n), spans) && Started(u, s, n, spans)
  {
    if n == 0 {
      spans := [];
    } else {
      var was := WordsSpan(u, s, n - 1);
      if !IsWordRune(u, s[n - 1]) {
        spans := was;
      } else if StartsWord(u, s, n - 1) {
        spans := was + [Span(n - 1, n)];
        SpanMore(u, s, n, was);
      } else {
        spans := was[|was| - 1 := Span(was[|was| - 1].from, n)];
        SpanOn(u, s, n, was);
      }
    }
  }

  lemma SpanMore(u: Unicode, s: Name, n: nat, was: seq<Span>)
    requires 0 < n <= |s| && IsWordRune(u, s[n - 1]) && StartsWord(u, s, n - 1)
    requires Spanned(u, s, n - 1, WordsTo(u, s, n - 1), was) && Started(u, s, n - 1, was)
    ensures Spanned(u, s, n, WordsTo(u, s, n), was + [Span(n - 1, n)]) && Started(u, s, n, was + [Span(n - 1, n)])
  {
    var spans := was + [Span(n - 1, n)];
    assert spans[|was|] == Span(n - 1, n) && s[n - 1..n] == [s[n - 1]];
    forall i: nat, k: nat ensures InSpan(spans, k, i) <==> InSpan(was, k, i) || (k == |was| && i == n - 1) {
    }
    forall i ensures Begins(spans, i) <==> Begins(was, i) || i == n - 1 {
      if k :| 0 <= k < |was| && was[k].from == i {
        assert spans[k].from == i;
      }
    }
    forall i | 0 <= i < n ensures IsWordRune(u, s[i]) <==> exists k: nat :: InSpan(spans, k, i) {
      assert i == n - 1 ==> InSpan(spans, |was|, i);
      if k: nat :| InSpan(was, k, i) {
        assert InSpan(spans, k, i);
      }
    }
  }

  lemma SpanOn(u: Unicode, s: Name, n: nat, was: seq<Span>)
    requires 0 < n <= |s| && IsWordRune(u, s[n - 1]) && !StartsWord(u, s, n - 1)
    requires Spanned(u, s, n - 1, WordsTo(u, s, n - 1), was) && Started(u, s, n - 1, was)
    ensures was != []
    ensures var spans := was[|was| - 1 := Span(was[|was| - 1].from, n)];
      Spanned(u, s, n, WordsTo(u, s, n), spans) && Started(u, s, n, spans)
  {
    SpansOn(was, n);
    var ws := WordsTo(u, s, n - 1);
    assert WordsTo(u, s, n) == ws[|ws| - 1 := ws[|ws| - 1] + [s[n - 1]]];
    SpannedOn(u, s, n, ws, was);
  }

  lemma SpannedOn(u: Unicode, s: Name, n: nat, ws: seq<Name>, was: seq<Span>)
    requires 0 < n <= |s| && IsWordRune(u, s[n - 1]) && Spanned(u, s, n - 1, ws, was) && was != [] && was[|was| - 1].to == n - 1
    ensures Spanned(u, s, n, ws[|ws| - 1 := ws[|ws| - 1] + [s[n - 1]]], was[|was| - 1 := Span(was[|was| - 1].from, n)])
  {
    hide IsWordRune;
    var last := was[|was| - 1];
    var spans := was[|was| - 1 := Span(last.from, n)];
    SpansOn(was, n);
    assert s[last.from..n] == s[last.from..n - 1] + [s[n - 1]];
    forall i | 0 <= i < n ensures IsWordRune(u, s[i]) <==> exists k: nat :: InSpan(spans, k, i) {
      assert i == n - 1 ==> InSpan(spans, |was| - 1, i);
      if k: nat :| InSpan(was, k, i) {
        assert InSpan(spans, k, i);
      }
    }
  }

  lemma SpansOn(was: seq<Span>, n: nat)
    requires was != [] && was[|was| - 1].from < was[|was| - 1].to == n - 1
    ensures var spans := was[|was| - 1 := Span(was[|was| - 1].from, n)];
      && (forall i: nat, k: nat :: InSpan(spans, k, i) <==> InSpan(was, k, i) || (k == |was| - 1 && i == n - 1))
      && (forall i: nat :: Begins(spans, i) <==> Begins(was, i))
  {
    var spans := was[|was| - 1 := Span(was[|was| - 1].from, n)];
    forall i: nat ensures Begins(spans, i) <==> Begins(was, i) {
      if k :| 0 <= k < |was| && was[k].from == i {
        assert spans[k].from == i;
      }
      if k :| 0 <= k < |spans| && spans[k].from == i {
        assert was[k].from == i;
      }
    }
  }

  /** A name's words are its word runes in the order they stand, and a word begins just
      where no word rune stands before or the two are cut apart. */
  lemma WordsAreCut(u: Unicode, s: Name)
    requires Lawful(u)
    ensures exists spans :: Spanned(u, s, |s|, Words(u, s), spans) && forall i :: 0 <= i < |s| ==>
      (Begins(spans, i) <==> IsWordRune(u, s[i]) && (i == 0 || !IsWordRune(u, s[i - 1]) || CutAt(u, s, i)))
  {
    hide Spanned;
    var spans := WordsSpan(u, s, |s|);
    assert Spanned(u, s, |s|, Words(u, s), spans);
    forall i | 0 <= i < |s|
      ensures Begins(spans, i) <==> IsWordRune(u, s[i]) && (i == 0 || !IsWordRune(u, s[i - 1]) || CutAt(u, s, i))
    {
      assert StartsWord(u, s, i) <==> Begins(spans, i);
      assert i + 1 < |s| ==> s[i + 1..][0] == s[i + 1];
    }
  }

  /** The tables as far as ASCII goes. */
  function Ascii(): Unicode {
    Unicode(r => 0x41 <= r <= 0x5A || 0x61 <= r <= 0x7A, r => 0x30 <= r <= 0x39, _ => false,
            r => 0x61 <= r <= 0x7A, r => 0x41 <= r <= 0x5A, _ => false,
            r => if 0x41 <= r <= 0x5A then r + 0x20 else r)
  }

  function Runes(s: string): (r: Name)
    ensures |r| == |s| && forall i :: 0 <= i < |s| ==> r[i] == s[i] as int
  {
    seq(|s|, i requires 0 <= i < |s| => s[i] as int)
  }

  /** A trailing acronym is a word of its own. */
  lemma UserID(i: nat)
    requires i < 6
    ensures StartsWord(Ascii(), Runes("userID"), i) <==> i == 0 || i == 4
  {
  }

  /** A leading one ends before the capital of the next word. */
  lemma HTTPServer(i: nat)
    requires i < 10
    ensures StartsWord(Ascii(), Runes("HTTPServer"), i) <==> i == 0 || i == 4
  {
  }
}
