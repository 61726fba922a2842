/** Treinando_TIPO_DOC.py: the TIPO_DOC annotator `ajustar_anotacoes_documento`, which
    labels every word-bounded match of its six document phrases, and the item loop of
    `carregar_dados_documento`, which recomputes the annotations of each text. */
module TrainTipoDoc {
  import opened Wrappers
  import opened Chars
  import opened Scan
  import opened DocPhrases
  import opened Json
  import opened Loader

  const DocLabel := "TIPO_DOC"

  /** `padrao_documento`: `\b`, the first of the six phrases that matches and is followed
      by `\b`. */
  function DocAt(s: string, i: nat): (r: Option<nat>) {
    if i <= |s| && WordBoundary(s, i) then FirstBounded(s, i, TrainDocPhrases) else None
  }

  function DocMatcher(): Matcher {
    (s: string, i: nat) => DocAt(s, i)
  }

  /** The language of the pattern at i: a word boundary, then alternative k is the first
      that matches s[i..j] before a word boundary. */
  ghost predicate DocMatch(s: string, i: nat, j: nat) {
    i <= |s| && WordBoundary(s, i) && exists k: nat :: FirstBoundedLang(s, i, j, TrainDocPhrases, k)
  }

  lemma {:induction false} DocAtIff(s: string, i: nat, j: nat)
    ensures DocAt(s, i) == Some(j) <==> DocMatch(s, i, j)
  {
    TrainPhrasesWellFormed();
    FirstBoundedIff(s, i, j, TrainDocPhrases);
  }

  // ------------------------------------------------ ajustar_anotacoes_documento

  function DocAnnots(ms: seq<(nat, nat)>): (r: seq<Annot>)
    ensures |r| == |ms| && forall x :: 0 <= x < |ms| ==> r[x] == Annot(ms[x].0, ms[x].1, DocLabel)
  {
    if ms == [] then [] else DocAnnots(ms[..|ms| - 1]) + [Annot(ms[|ms| - 1].0, ms[|ms| - 1].1, DocLabel)]
  }

  /** What `ajustar_anotacoes_documento(texto)` returns: one TIPO_DOC span per match of
      `finditer`. */
  function DocSpans(texto: string): seq<Annot> {
    DocAnnots(FindIter(DocMatcher(), texto, 0))
  }

  /** The annotator's loop over the matches of `finditer`. */
  method AnnotateMatches(matches: seq<(nat, nat)>) returns (entities: seq<Annot>)
    ensures entities == DocAnnots(matches)
  {
    entities := [];
    var i := 0;
    while i < |matches|
      invariant 0 <= i <= |matches|
      invariant entities == DocAnnots(matches[..i])
    {
      var (start, end) := matches[i];
      assert matches[..i + 1][..i] == matches[..i];
      entities := entities + [Annot(start, end, DocLabel)];
      i := i + 1;
    }
    assert matches[..|matches|] == matches;
  }

  method AjustarAnotacoesDocumento(texto: string) returns (entities: seq<Annot>)
    ensures entities == DocSpans(texto)
  {
    var matches := FindIter(DocMatcher(), texto, 0);
    entities := AnnotateMatches(matches);
  }

  /** Every span is labelled TIPO_DOC and is a word-bounded match of the phrase
      alternation, the first alternative that matches at its start. */
  lemma {:induction false} DocSpansExact(texto: string)
    ensures forall x :: 0 <= x < |DocSpans(texto)| ==>
      DocSpans(texto)[x].tag == DocLabel && DocMatch(texto, DocSpans(texto)[x].start, DocSpans(texto)[x].stop)
  {
    var ms := FindIter(DocMatcher(), texto, 0);
    forall x | 0 <= x < |DocSpans(texto)|
      ensures DocMatch(texto, DocSpans(texto)[x].start, DocSpans(texto)[x].stop)
    {
      assert DocAt(texto, ms[x].0) == Some(ms[x].1);
      DocAtIff(texto, ms[x].0, ms[x].1);
    }
  }

  /** The spans are non-empty, inside the text, in text order and never overlap. */
  lemma {:induction false} DocSpansOrdered(texto: string)
    ensures forall x :: 0 <= x < |DocSpans(texto)| ==>
      DocSpans(texto)[x].start < DocSpans(texto)[x].stop <= |texto|
    ensures forall x :: 0 <= x < |DocSpans(texto)| - 1 ==> DocSpans(texto)[x].stop <= DocSpans(texto)[x + 1].start
  {
    var ms := FindIter(DocMatcher(), texto, 0);
    forall x | 0 <= x < |DocSpans(texto)| - 1
      ensures DocSpans(texto)[x].stop <= DocSpans(texto)[x + 1].start
    {
      assert ms[x].1 <= ms[x + 1].0;
    }
  }

  /** No phrase is missed: every position where the pattern matches lies inside some
      span. */
  lemma {:induction false} DocSpansCover(texto: string, p: nat, j: nat)
    requires DocMatch(texto, p, j)
    ensures exists x :: 0 <= x < |DocSpans(texto)| && DocSpans(texto)[x].start <= p < DocSpans(texto)[x].stop
  {
    assert DocAt(texto, p) == Some(j) by {
      DocAtIff(texto, p, j);
    }
    PhraseEndsNonEmpty(texto, p, TrainDocPhrases[FirstPhraseOf(texto, p)]);
    assert MatchAt(DocMatcher(), texto, p).Some?;
    var ms := FindIter(DocMatcher(), texto, 0);
    FindIterCovers(DocMatcher(), texto, 0, p);
    var x :| 0 <= x < |ms| && ms[x].0 <= p < ms[x].1;
    assert DocSpans(texto)[x] == Annot(ms[x].0, ms[x].1, DocLabel);
  }

  /** The phrase `FirstBounded` settles on at i. */
  function FirstPhraseOf(s: string, i: nat): (k: nat)
    requires i <= |s| && DocAt(s, i).Some?
    ensures k < |TrainDocPhrases| && BoundedEnd(s, i, TrainDocPhrases[k]) == DocAt(s, i)
  {
    FirstIn(s, i, TrainDocPhrases)
  }

  function FirstIn(s: string, i: nat, ps: seq<Phrase>): (k: nat)
    requires FirstBounded(s, i, ps).Some?
    ensures k < |ps| && BoundedEnd(s, i, ps[k]) == FirstBounded(s, i, ps)
  {
    if BoundedEnd(s, i, ps[0]).Some? then 0 else 1 + FirstIn(s, i, ps[1..])
  }

  /** The annotator finds nothing exactly when the pattern matches nowhere. */
  lemma {:induction false} DocSpansEmptyIff(texto: string)
    ensures DocSpans(texto) == [] <==> forall p: nat :: DocAt(texto, p).None?
  {
    if DocSpans(texto) == [] {
      forall p: nat ensures DocAt(texto, p).None? {
        if DocAt(texto, p).Some? {
          var k := FirstPhraseOf(texto, p);
          PhraseEndsNonEmpty(texto, p, TrainDocPhrases[k]);
          FindIterCovers(DocMatcher(), texto, 0, p);
        }
      }
    } else {
      var m := FindIter(DocMatcher(), texto, 0)[0];
      assert DocAt(texto, m.0).Some?;
    }
  }

  /** Every phrase of the annotator is non-empty, so every match is. */
  lemma {:induction false} PhraseEndsNonEmpty(s: string, i: nat, p: Phrase)
    requires p in TrainDocPhrases && BoundedEnd(s, i, p).Some?
    ensures i < BoundedEnd(s, i, p).value
  {
    TrainPhrasesWellFormed();
    var j := BoundedEnd(s, i, p).value;
    BoundedEndIff(s, i, j, p);
    if p.Word? {
      assert |p.w| > 0;
    } else {
      var b: nat :| ClassesAt(s, i, p.first) && SpacesBetween(s, i + |p.first|, b) && ClassesAt(s, b, p.second)
        && (j == b + |p.second| || (p.optionalA && j == b + |p.second| + 1 && j <= |s| && Lower(s[b + |p.second|]) == 'a'));
      assert |p.first| > 0;
    }
  }

  lemma {:induction false} RelatorioWordClasses()
    ensures forall k :: 0 <= k < |Relatorio| ==> AllWordChars(Relatorio[k])
  {
    forall k | 0 <= k < |Relatorio| ensures AllWordChars(Relatorio[k]) {
      assert k in {0, 1, 2, 3, 4, 5, 6, 7, 8};
    }
  }

  /** The word a phrase starts with. */
  function Lead(p: Phrase): seq<string> {
    match p
    case Word(w) => w
    case Pair(f, _, _) => f
  }

  /** The first class of every phrase of the annotator: each starts with r, d or a. */
  lemma {:induction false} FirstClasses(p: Phrase)
    requires p in TrainDocPhrases
    ensures p.Word? ==> p.w != [] && p.w[0] in ["r", "d", "a"]
    ensures p.Pair? ==> p.first != [] && p.first[0] in ["r", "d", "a"]
  {
  }

  /** A text in which no word starts with r, d or a (in any case) yields no span. So
      "LAUDO MÉDICO", which the document-type validator of app_OCR.py accepts, is never
      annotated: this annotator has no LAUDO alternative. */
  lemma {:induction false} NoPhraseStartNoSpans(texto: string)
    requires forall p :: 0 <= p < |texto| && WordBoundary(texto, p) ==> Lower(texto[p]) !in "rda"
    ensures DocSpans(texto) == []
  {
    forall p: nat ensures DocAt(texto, p).None? {
      if p <= |texto| && WordBoundary(texto, p) {
        forall k | 0 <= k < |TrainDocPhrases| ensures BoundedEnd(texto, p, TrainDocPhrases[k]).None? {
          FirstClasses(TrainDocPhrases[k]);
        }
        NoneBounded(texto, p, TrainDocPhrases);
      }
    }
    DocSpansEmptyIff(texto);
  }

  lemma {:induction false} NoneBounded(s: string, i: nat, ps: seq<Phrase>)
    requires forall k :: 0 <= k < |ps| ==> BoundedEnd(s, i, ps[k]).None?
    ensures FirstBounded(s, i, ps).None?
    decreases |ps|
  {
    if ps != [] {
      assert forall k :: 0 <= k < |ps[1..]| ==> ps[1..][k] == ps[k + 1];
      NoneBounded(s, i, ps[1..]);
    }
  }

  lemma {:induction false} LaudoMedicoNoSpans()
    ensures DocSpans("LAUDO M\U{C9}DICO") == []
  {
    var t := "LAUDO M\U{C9}DICO";
    forall p | 0 <= p < |t| && WordBoundary(t, p) ensures Lower(t[p]) !in "rda" {
      assert p == 0 || p == 5 || p == 6;
    }
    NoPhraseStartNoSpans(t);
  }

  /** A text that is the bare word RELATÓRIO (or RELATORIO, in any case) yields no span:
      this annotator knows RELATÓRIO only when MÉDICO follows. */
  lemma {:induction false} BareRelatorioNoSpans(texto: string)
    requires |texto| == |Relatorio| && ClassesAt(texto, 0, Relatorio)
    ensures DocSpans(texto) == []
  {
    forall p: nat ensures DocAt(texto, p).None? {
      BareRelatorioNoMatch(texto, p);
    }
    DocSpansEmptyIff(texto);
  }

  lemma {:induction false} BareRelatorioNoMatch(texto: string, p: nat)
    requires |texto| == |Relatorio| && ClassesAt(texto, 0, Relatorio)
    ensures DocAt(texto, p).None?
  {
    if 0 < p < |texto| {
      BareRelatorioInside(texto, p);
    } else if p <= |texto| {
      BareRelatorioEnds(texto, p);
    }
  }

  /** Inside the word there is no word boundary. */
  lemma {:induction false} BareRelatorioInside(texto: string, p: nat)
    requires |texto| == |Relatorio| && ClassesAt(texto, 0, Relatorio) && 0 < p < |texto|
    ensures !WordBoundary(texto, p)
  {
    RelatorioWordClasses();
    ClassesAtWord(texto, 0, Relatorio, p - 1);
    ClassesAtWord(texto, 0, Relatorio, p);
  }

  lemma {:induction false} BareRelatorioEnds(texto: string, p: nat)
    requires |texto| == |Relatorio| && ClassesAt(texto, 0, Relatorio) && (p == 0 || p == |texto|)
    ensures FirstBounded(texto, p, TrainDocPhrases).None?
  {
    forall k | 0 <= k < |TrainDocPhrases| ensures BoundedEnd(texto, p, TrainDocPhrases[k]).None? {
      BareRelatorioNoPhrase(texto, p, k);
    }
    NoneBounded(texto, p, TrainDocPhrases);
  }

  /** At either end of the bare word, no phrase of the annotator matches. */
  lemma {:induction false} BareRelatorioNoPhrase(texto: string, p: nat, k: nat)
    requires |texto| == |Relatorio| && ClassesAt(texto, 0, Relatorio)
    requires (p == 0 || p == |texto|) && k < |TrainDocPhrases|
    ensures BoundedEnd(texto, p, TrainDocPhrases[k]).None?
  {
    if p == 0 {
      BareRelatorioNoPhraseAtStart(texto, k);
    } else {
      FirstClasses(TrainDocPhrases[k]);
      NoPhraseAtEnd(texto, TrainDocPhrases[k]);
    }
  }

  /** No phrase starts at the end of the text. */
  lemma {:induction false} NoPhraseAtEnd(s: string, p: Phrase)
    requires Lead(p) != []
    ensures BoundedEnd(s, |s|, p).None?
  {
    assert !ClassesAt(s, |s|, Lead(p));
    assert PhraseEnds(s, |s|, p) == [];
  }

  lemma {:induction false} BareRelatorioNoPhraseAtStart(texto: string, k: nat)
    requires |texto| == |Relatorio| && ClassesAt(texto, 0, Relatorio) && k < |TrainDocPhrases|
    ensures BoundedEnd(texto, 0, TrainDocPhrases[k]).None?
  {
    var ph := TrainDocPhrases[k];
    if k == 0 {
      assert RunEnd(texto, |Relatorio|, IsSpace) == |texto|;
      assert !ClassesAt(texto, |texto|, Medico);
    } else if k == 2 || k == 5 {
      ClassesAtChars(texto, 0, Relatorio);
      assert Lower(texto[0]) == 'r';
      assert !ClassesAt(texto, 0, Atestado);
    } else if k == 4 {
      ClassesAtChars(texto, 0, Relatorio);
      assert Lower(texto[0]) == 'r';
      assert !ClassesAt(texto, 0, DeclaracaoPlain);
    } else {
      assert !ClassesAt(texto, 0, ph.first);
    }
  }

  // ------------------------------------------------ carregar_dados_documento

  /** One item: skipped when shorter than 2; otherwise its text with the TIPO_DOC spans
      found in it, and skipped when there are none. The annotation the item carries is
      never read. */
  function DocItem(item: Json, pyStr: Json -> string): (r: Result<Option<(string, seq<Json>)>>)
  {
    match Len(item)
    case Err(e) => Err(e)
    case Ok(n) =>
      if n < 2 then Ok(None)
      else match TextOf(item, pyStr)
        case Err(e) => Err(e)
        case Ok(texto) =>
          var entities := DocSpans(texto);
          if entities == [] then Ok(None) else Ok(Some((texto, AnnotsJson(entities))))
  }

  function DocItemF(pyStr: Json -> string): Json -> Result<Option<(string, seq<Json>)>> {
    item => DocItem(item, pyStr)
  }

  /** A stored item holds exactly the JSON form of the spans found in its text, and the
      pattern matches somewhere in that text. */
  lemma {:induction false} DocItemStores(item: Json, pyStr: Json -> string)
    requires DocItem(item, pyStr).Ok? && DocItem(item, pyStr).value.Some?
    ensures var (texto, ents) := DocItem(item, pyStr).value.value;
      TextOf(item, pyStr) == Ok(texto) && ents == AnnotsJson(DocSpans(texto))
      && exists p: nat :: DocAt(texto, p).Some?
  {
    var texto := TextOf(item, pyStr).value;
    DocSpansEmptyIff(texto);
  }

  /** Two list items with the same text and at least two elements give the same result,
      whatever annotations they carry. */
  lemma {:induction false} DocItemIgnoresAnnotations(a: Json, b: Json, pyStr: Json -> string)
    requires a.JList? && b.JList? && |a.elems| >= 2 && |b.elems| >= 2
    requires a.elems[0] == b.elems[0]
    ensures DocItem(a, pyStr) == DocItem(b, pyStr)
  {
    assert Index(a, 0) == Index(b, 0);
  }

  method CarregarItem(item: Json, pyStr: Json -> string) returns (r: Result<Option<(string, seq<Json>)>>)
    ensures r == DocItem(item, pyStr)
  {
    var n := Len(item);
    if n.Err? { return Err(n.error); }
    if n.value < 2 { return Ok(None); }
    var t := ExtrairTexto(item, pyStr);
    if t.Err? { return Err(t.error); }
    var entities := AjustarAnotacoesDocumento(t.value);
    if entities == [] { return Ok(None); }
    return Ok(Some((t.value, AnnotsJson(entities))));
  }

  /** `carregar_dados_documento` over the parsed items. */
  method CarregarDadosDocumento(data: seq<Json>, pyStr: Json -> string) returns (r: Result<seq<(string, seq<Json>)>>)
    ensures r == LoadAll(data, DocItemF(pyStr))
  {
    var treinamentos: seq<(string, seq<Json>)> := [];
    var i := 0;
    while i < |data|
      invariant 0 <= i <= |data|
      invariant LoadAll(data[..i], DocItemF(pyStr)) == Ok(treinamentos)
    {
      assert data[..i + 1][..i] == data[..i];
      var x := CarregarItem(data[i], pyStr);
      if x.Err? {
        LoadAllErrPrefix(data, DocItemF(pyStr), i + 1);
        return Err(x.error);
      }
      if x.value.Some? {
        treinamentos := treinamentos + [x.value.value];
      }
      i := i + 1;
    }
    assert data[..|data|] == data;
    return Ok(treinamentos);
  }
}
