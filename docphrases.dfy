/** The document-type phrases: `validar_tipo_documento` (app_OCR.py) anchors nine of them
    between `^` and `$`; the TIPO_DOC annotator (Treinando_TIPO_DOC.py) searches for six
    of them between word boundaries. Both run under IGNORECASE, so each phrase is a
    sequence of character classes over lower-case letters (`[ÓO]` becomes "óo"). */
module DocPhrases {
  import opened Wrappers
  import opened Chars

  /** A single word, or two words separated by `\s*`, the second optionally followed by
      one more `a` (the `M[ÉE]DICA?` of DECLARAÇÃO MÉDICA). */
  datatype Phrase =
    | Word(w: seq<string>)
    | Pair(first: seq<string>, second: seq<string>, optionalA: bool)

  const Relatorio: seq<string> := ["r", "e", "l", "a", "t", "óo", "r", "i", "o"]
  const Declaracao: seq<string> := ["d", "e", "c", "l", "a", "r", "a", "cç", "ãa", "o"]
  const DeclaracaoPlain: seq<string> := ["d", "e", "c", "l", "a", "r", "a", "c", "a", "o"]
  const Atestado: seq<string> := ["a", "t", "e", "s", "t", "a", "d", "o"]
  const Receituario: seq<string> := ["r", "e", "c", "e", "i", "t", "u", "aá", "r", "i", "o"]
  const Laudo: seq<string> := ["l", "a", "u", "d", "o"]
  const Medico: seq<string> := ["m", "ée", "d", "i", "c", "o"]
  const Medic: seq<string> := ["m", "ée", "d", "i", "c"]

  /** The alternatives of `validar_tipo_documento`, in order. */
  const AppDocPhrases: seq<Phrase> := [
    Pair(Relatorio, Medico, false),
    Pair(Declaracao, Medic, true),
    Pair(Atestado, Medico, false),
    Pair(Receituario, Medico, false),
    Pair(Laudo, Medico, false),
    Word(DeclaracaoPlain),
    Word(Atestado),
    Word(Relatorio),
    Word(Declaracao)
  ]

  /** The alternatives of the TIPO_DOC annotator, in order. */
  const TrainDocPhrases: seq<Phrase> := [
    Pair(Relatorio, Medico, false),
    Pair(Declaracao, Medic, true),
    Pair(Atestado, Medico, false),
    Pair(Receituario, Medico, false),
    Word(DeclaracaoPlain),
    Word(Atestado)
  ]

  // ------------------------------------------------ well-formed phrases

  predicate AllWordChars(x: string) {
    x == [] || (IsWord(x[0]) && AllWordChars(x[1..]))
  }

  /** The shape the proofs rely on: non-empty words, and in a pair the first and the last
      class of the second word admit only word characters. */
  predicate WellFormed(p: Phrase) {
    match p
    case Word(w) => w != []
    case Pair(f, g, _) => f != [] && g != [] && AllWordChars(g[0]) && AllWordChars(g[|g| - 1])
  }

  predicate AllWellFormed(ps: seq<Phrase>) {
    forall k :: 0 <= k < |ps| ==> WellFormed(ps[k])
  }

  lemma {:induction false} AppPhrasesWellFormed()
    ensures AllWellFormed(AppDocPhrases)
  {
  }

  lemma {:induction false} TrainPhrasesWellFormed()
    ensures AllWellFormed(TrainDocPhrases)
  {
  }

  lemma {:induction false} AllWordCharsAt(x: string, c: char)
    requires AllWordChars(x) && c in x
    ensures IsWord(c)
  {
    if x[0] != c {
      AllWordCharsAt(x[1..], c);
    }
  }

  /** A character admitted by a class of word characters is a word character. */
  lemma {:induction false} ClassesAtWord(s: string, i: nat, p: seq<string>, k: nat)
    requires ClassesAt(s, i, p) && k < |p| && AllWordChars(p[k])
    ensures IsWord(s[i + k])
  {
    ClassesAtChars(s, i, p);
    AllWordCharsAt(p[k], Lower(s[i + k]));
    LowerKeepsClass(s[i + k]);
  }

  // ------------------------------------------------ the language of a phrase

  ghost predicate SpacesBetween(s: string, x: nat, y: nat) {
    x <= y <= |s| && forall k :: x <= k < y ==> IsSpace(s[k])
  }

  /** The phrase p matches exactly s[i..j]. */
  ghost predicate PhraseMatch(s: string, i: nat, j: nat, p: Phrase) {
    match p
    case Word(w) => j == i + |w| && ClassesAt(s, i, w)
    case Pair(f, g, o) =>
      exists b: nat :: ClassesAt(s, i, f) && SpacesBetween(s, i + |f|, b) && ClassesAt(s, b, g)
        && (j == b + |g| || (o && j == b + |g| + 1 && j <= |s| && Lower(s[b + |g|]) == 'a'))
  }

  /** The ends at which p can match from i, in the order the engine tries them: the
      greedy `\s*` and then `A?` with and without the letter. */
  function PhraseEnds(s: string, i: nat, p: Phrase): (r: seq<nat>)
    ensures forall x :: 0 <= x < |r| ==> r[x] <= |s|
  {
    match p
    case Word(w) => if ClassesAt(s, i, w) then [i + |w|] else []
    case Pair(f, g, o) =>
      if !ClassesAt(s, i, f) then []
      else
        var b := RunEnd(s, i + |f|, IsSpace);
        if !ClassesAt(s, b, g) then []
        else
          var e := b + |g|;
          if o && e < |s| && Lower(s[e]) == 'a' then [e + 1, e] else [e]
  }

  lemma {:induction false} PairEndsSound(s: string, i: nat, j: nat, f: seq<string>, g: seq<string>, o: bool)
    requires j in PhraseEnds(s, i, Pair(f, g, o))
    ensures PhraseMatch(s, i, j, Pair(f, g, o))
  {
    var b := RunEnd(s, i + |f|, IsSpace);
    assert SpacesBetween(s, i + |f|, b);
  }

  lemma {:induction false} PairEndsComplete(s: string, i: nat, j: nat, b: nat, f: seq<string>, g: seq<string>, o: bool)
    requires WellFormed(Pair(f, g, o))
    requires ClassesAt(s, i, f) && SpacesBetween(s, i + |f|, b) && ClassesAt(s, b, g)
    requires j == b + |g| || (o && j == b + |g| + 1 && j <= |s| && Lower(s[b + |g|]) == 'a')
    ensures j in PhraseEnds(s, i, Pair(f, g, o))
  {
    ClassesAtWord(s, b, g, 0);
    RunEndUnique(s, i + |f|, IsSpace, b);
  }

  lemma {:induction false} PairEndsIff(s: string, i: nat, j: nat, f: seq<string>, g: seq<string>, o: bool)
    requires WellFormed(Pair(f, g, o))
    ensures j in PhraseEnds(s, i, Pair(f, g, o)) <==> PhraseMatch(s, i, j, Pair(f, g, o))
  {
    if j in PhraseEnds(s, i, Pair(f, g, o)) {
      PairEndsSound(s, i, j, f, g, o);
    }
    if PhraseMatch(s, i, j, Pair(f, g, o)) {
      var b: nat :| ClassesAt(s, i, f) && SpacesBetween(s, i + |f|, b) && ClassesAt(s, b, g)
        && (j == b + |g| || (o && j == b + |g| + 1 && j <= |s| && Lower(s[b + |g|]) == 'a'));
      PairEndsComplete(s, i, j, b, f, g, o);
    }
  }

  /** The compiled ends of a phrase are exactly the ends of its matches. */
  lemma {:induction false} PhraseEndsIff(s: string, i: nat, j: nat, p: Phrase)
    requires WellFormed(p)
    ensures j in PhraseEnds(s, i, p) <==> PhraseMatch(s, i, j, p)
  {
    if p.Pair? {
      PairEndsIff(s, i, j, p.first, p.second, p.optionalA);
    }
  }

  // ------------------------------------------------ anchored: ^(?:...)$

  /** `$` without MULTILINE: the end of the text, or just before a final newline. */
  predicate DollarAt(t: string, j: nat) {
    j == |t| || (j + 1 == |t| && t[j] == '\n')
  }

  predicate AnyDollar(t: string, ends: seq<nat>) {
    exists x :: 0 <= x < |ends| && DollarAt(t, ends[x])
  }

  /** `re.match('^(?:p0|p1|...)$', t)` succeeds. */
  predicate FullMatchAny(t: string, ps: seq<Phrase>) {
    exists k :: 0 <= k < |ps| && AnyDollar(t, PhraseEnds(t, 0, ps[k]))
  }

  ghost predicate FullMatchLang(t: string, ps: seq<Phrase>) {
    exists k, j: nat :: 0 <= k < |ps| && PhraseMatch(t, 0, j, ps[k]) && DollarAt(t, j)
  }

  lemma {:induction false} FullMatchAnyIff(t: string, ps: seq<Phrase>)
    requires AllWellFormed(ps)
    ensures FullMatchAny(t, ps) <==> FullMatchLang(t, ps)
  {
    if FullMatchAny(t, ps) {
      var k :| 0 <= k < |ps| && AnyDollar(t, PhraseEnds(t, 0, ps[k]));
      var ends := PhraseEnds(t, 0, ps[k]);
      var x :| 0 <= x < |ends| && DollarAt(t, ends[x]);
      PhraseEndsIff(t, 0, ends[x], ps[k]);
    }
    if FullMatchLang(t, ps) {
      var k, j: nat :| 0 <= k < |ps| && PhraseMatch(t, 0, j, ps[k]) && DollarAt(t, j);
      PhraseEndsIff(t, 0, j, ps[k]);
      var ends := PhraseEnds(t, 0, ps[k]);
      var x :| 0 <= x < |ends| && ends[x] == j;
      assert AnyDollar(t, ends);
    }
  }

  // ------------------------------------------------ bounded: \b(?:...)\b

  /** The first end of p at i that is followed by a word boundary. */
  function BoundedEndIn(s: string, ends: seq<nat>): (r: Option<nat>)
    requires forall x :: 0 <= x < |ends| ==> ends[x] <= |s|
    ensures r.Some? ==> r.value in ends && WordBoundary(s, r.value)
    ensures r.None? ==> forall x :: 0 <= x < |ends| ==> !WordBoundary(s, ends[x])
  {
    if ends == [] then None
    else if WordBoundary(s, ends[0]) then Some(ends[0])
    else BoundedEndIn(s, ends[1..])
  }

  function BoundedEnd(s: string, i: nat, p: Phrase): Option<nat> {
    BoundedEndIn(s, PhraseEnds(s, i, p))
  }

  /** Of the two ends of `M[ÉE]DICA?`, at most one is followed by a word boundary, so the
      end p reaches before `\b` does not depend on the engine's order. */
  lemma {:induction false} BoundedEndIff(s: string, i: nat, j: nat, p: Phrase)
    requires WellFormed(p)
    ensures BoundedEnd(s, i, p) == Some(j) <==> PhraseMatch(s, i, j, p) && WordBoundary(s, j)
  {
    PhraseEndsIff(s, i, j, p);
    var ends := PhraseEnds(s, i, p);
    if p.Pair? && |ends| == 2 {
      var e := ends[1];
      var g := p.second;
      ClassesAtWord(s, e - |g|, g, |g| - 1);
      assert IsWord(s[e]) by { LowerKeepsClass(s[e]); }
      assert !WordBoundary(s, e);
    }
  }

  /** The first phrase of ps that matches at i and ends at a word boundary. */
  function FirstBounded(s: string, i: nat, ps: seq<Phrase>): Option<nat> {
    if ps == [] then None
    else match BoundedEnd(s, i, ps[0])
      case Some(j) => Some(j)
      case None => FirstBounded(s, i, ps[1..])
  }

  /** Alternative k is the first of ps that matches at i before a word boundary, and ends at j. */
  ghost predicate FirstBoundedLang(s: string, i: nat, j: nat, ps: seq<Phrase>, k: nat) {
    k < |ps| && PhraseMatch(s, i, j, ps[k]) && WordBoundary(s, j)
    && forall k': nat, j': nat :: k' < k ==> !(PhraseMatch(s, i, j', ps[k']) && WordBoundary(s, j'))
  }

  lemma {:induction false} FirstBoundedIff(s: string, i: nat, j: nat, ps: seq<Phrase>)
    requires AllWellFormed(ps)
    ensures FirstBounded(s, i, ps) == Some(j) <==> exists k: nat :: FirstBoundedLang(s, i, j, ps, k)
    decreases |ps|
  {
    if ps != [] {
      BoundedEndIff(s, i, j, ps[0]);
      forall j': nat ensures BoundedEnd(s, i, ps[0]) == Some(j') <==> PhraseMatch(s, i, j', ps[0]) && WordBoundary(s, j') {
        BoundedEndIff(s, i, j', ps[0]);
      }
      FirstBoundedIff(s, i, j, ps[1..]);
      if BoundedEnd(s, i, ps[0]) == Some(j) {
        assert FirstBoundedLang(s, i, j, ps, 0);
      } else if BoundedEnd(s, i, ps[0]).None? {
        if FirstBounded(s, i, ps[1..]) == Some(j) {
          var k: nat :| FirstBoundedLang(s, i, j, ps[1..], k);
          assert FirstBoundedLang(s, i, j, ps, k + 1) by {
            forall k': nat, j': nat | k' < k + 1
              ensures !(PhraseMatch(s, i, j', ps[k']) && WordBoundary(s, j'))
            {
              if k' > 0 {
                assert ps[k'] == ps[1..][k' - 1];
              }
            }
          }
        }
        if exists k: nat :: FirstBoundedLang(s, i, j, ps, k) {
          var k: nat :| FirstBoundedLang(s, i, j, ps, k);
          assert k > 0;
          assert FirstBoundedLang(s, i, j, ps[1..], k - 1) by {
            forall k': nat, j': nat | k' < k - 1
              ensures !(PhraseMatch(s, i, j', ps[1..][k']) && WordBoundary(s, j'))
            {
              assert ps[1..][k'] == ps[k' + 1];
            }
          }
        }
      }
    }
  }
}
