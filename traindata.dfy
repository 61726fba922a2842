/** Treinando_Data.py: the DATA annotator `ajustar_anotacoes_data`, which labels every
    match of the four-way date pattern; the item loop of `carregar_dados_data`, which
    recomputes the annotations of each text; and the entity pre-filter of `criar_docbin`
    that runs before spaCy aligns the spans. */
module TrainData {
  import opened Wrappers
  import opened Scan
  import opened Dates
  import opened Json
  import opened Loader

  const DataLabel := "DATA"

  /** `padrao_data`, compiled: its four alternatives tried in order at each start. */
  function DataMatcher(): Matcher {
    (s: string, i: nat) => DataDateAt(s, i)
  }

  // ------------------------------------------------ ajustar_anotacoes_data

  function DataAnnots(ms: seq<(nat, nat)>): (r: seq<Annot>)
    ensures |r| == |ms| && forall x :: 0 <= x < |ms| ==> r[x] == Annot(ms[x].0, ms[x].1, DataLabel)
  {
    if ms == [] then [] else DataAnnots(ms[..|ms| - 1]) + [Annot(ms[|ms| - 1].0, ms[|ms| - 1].1, DataLabel)]
  }

  /** What `ajustar_anotacoes_data(texto)` returns: one DATA span per match of `finditer`. */
  function DataSpans(texto: string): seq<Annot> {
    DataAnnots(FindIter(DataMatcher(), texto, 0))
  }

  /** The annotator's loop over the matches of `finditer`. */
  method AnnotateMatches(matches: seq<(nat, nat)>) returns (entities: seq<Annot>)
    ensures entities == DataAnnots(matches)
  {
    entities := [];
    var i := 0;
    while i < |matches|
      invariant 0 <= i <= |matches|
      invariant entities == DataAnnots(matches[..i])
    {
      var (start, end) := matches[i];
      assert matches[..i + 1][..i] == matches[..i];
      entities := entities + [Annot(start, end, DataLabel)];
      i := i + 1;
    }
    assert matches[..|matches|] == matches;
  }

  method AjustarAnotacoesData(texto: string) returns (entities: seq<Annot>)
    ensures entities == DataSpans(texto)
  {
    var matches := FindIter(DataMatcher(), texto, 0);
    entities := AnnotateMatches(matches);
  }

  /** Every span is labelled DATA and covers a text in the language of the pattern at its
      start: a mixed-separator numeric date, else a spelled-out date, else month and year,
      else day, month and year. */
  lemma {:induction false} DataSpansExact(texto: string)
    ensures forall x :: 0 <= x < |DataSpans(texto)| ==>
      DataSpans(texto)[x].tag == DataLabel && DataDate(texto, DataSpans(texto)[x].start, DataSpans(texto)[x].stop)
  {
    var ms := FindIter(DataMatcher(), texto, 0);
    forall x | 0 <= x < |DataSpans(texto)|
      ensures DataDate(texto, DataSpans(texto)[x].start, DataSpans(texto)[x].stop)
    {
      assert DataDateAt(texto, ms[x].0) == Some(ms[x].1);
      DataDateAtIff(texto, ms[x].0, ms[x].1);
    }
  }

  /** The spans are non-empty, inside the text, in text order and never overlap. */
  lemma {:induction false} DataSpansOrdered(texto: string)
    ensures forall x :: 0 <= x < |DataSpans(texto)| ==>
      DataSpans(texto)[x].start < DataSpans(texto)[x].stop <= |texto|
    ensures forall x :: 0 <= x < |DataSpans(texto)| - 1 ==> DataSpans(texto)[x].stop <= DataSpans(texto)[x + 1].start
  {
    var ms := FindIter(DataMatcher(), texto, 0);
    forall x | 0 <= x < |DataSpans(texto)| - 1
      ensures DataSpans(texto)[x].stop <= DataSpans(texto)[x + 1].start
    {
      assert ms[x].1 <= ms[x + 1].0;
    }
  }

  /** No date is missed: every position where a date starts lies inside some span. */
  lemma {:induction false} DataSpansCover(texto: string, p: nat, j: nat)
    requires DataDate(texto, p, j)
    ensures exists x :: 0 <= x < |DataSpans(texto)| && DataSpans(texto)[x].start <= p < DataSpans(texto)[x].stop
  {
    assert DataDateAt(texto, p) == Some(j) by {
      DataDateAtIff(texto, p, j);
    }
    assert MatchAt(DataMatcher(), texto, p).Some?;
    var ms := FindIter(DataMatcher(), texto, 0);
    FindIterCovers(DataMatcher(), texto, 0, p);
    var x :| 0 <= x < |ms| && ms[x].0 <= p < ms[x].1;
    assert DataSpans(texto)[x] == Annot(ms[x].0, ms[x].1, DataLabel);
  }

  /** The annotator finds nothing exactly when no date starts anywhere in the text. */
  lemma {:induction false} DataSpansEmptyIff(texto: string)
    ensures DataSpans(texto) == [] <==> forall p: nat, j: nat :: !DataDate(texto, p, j)
  {
    if DataSpans(texto) == [] {
      forall p: nat, j: nat ensures !DataDate(texto, p, j) {
        if DataDate(texto, p, j) {
          DataSpansCover(texto, p, j);
        }
      }
    } else {
      DataSpansExact(texto);
    }
  }

  // ------------------------------------------------ carregar_dados_data

  /** One item: skipped when shorter than 2; otherwise its text with the DATA spans found
      in it, and skipped when there are none. The annotation the item carries is never
      read. */
  function DataItem(item: Json, pyStr: Json -> string): (r: Result<Option<(string, seq<Json>)>>)
  {
    match Len(item)
    case Err(e) => Err(e)
    case Ok(n) =>
      if n < 2 then Ok(None)
      else match TextOf(item, pyStr)
        case Err(e) => Err(e)
        case Ok(texto) =>
          var entities := DataSpans(texto);
          if entities == [] then Ok(None) else Ok(Some((texto, AnnotsJson(entities))))
  }

  function DataItemF(pyStr: Json -> string): Json -> Result<Option<(string, seq<Json>)>> {
    item => DataItem(item, pyStr)
  }

  /** A stored item holds exactly the JSON form of the spans found in its text, and its
      text has a date. */
  lemma {:induction false} DataItemStores(item: Json, pyStr: Json -> string)
    requires DataItem(item, pyStr).Ok? && DataItem(item, pyStr).value.Some?
    ensures var (texto, ents) := DataItem(item, pyStr).value.value;
      TextOf(item, pyStr) == Ok(texto) && ents == AnnotsJson(DataSpans(texto))
      && exists p: nat, j: nat :: DataDate(texto, p, j)
  {
    var texto := TextOf(item, pyStr).value;
    DataSpansEmptyIff(texto);
  }

  /** Two list items with the same text and at least two elements give the same result,
      whatever annotations they carry. */
  lemma {:induction false} DataItemIgnoresAnnotations(a: Json, b: Json, pyStr: Json -> string)
    requires a.JList? && b.JList? && |a.elems| >= 2 && |b.elems| >= 2
    requires a.elems[0] == b.elems[0]
    ensures DataItem(a, pyStr) == DataItem(b, pyStr)
  {
    assert Index(a, 0) == Index(b, 0);
  }

  method CarregarItem(item: Json, pyStr: Json -> string) returns (r: Result<Option<(string, seq<Json>)>>)
    ensures r == DataItem(item, pyStr)
  {
    var n := Len(item);
    if n.Err? { return Err(n.error); }
    if n.value < 2 { return Ok(None); }
    var t := ExtrairTexto(item, pyStr);
    if t.Err? { return Err(t.error); }
    var entities := AjustarAnotacoesData(t.value);
    if entities == [] { return Ok(None); }
    return Ok(Some((t.value, AnnotsJson(entities))));
  }

  /** `carregar_dados_data` over the parsed items. */
  method CarregarDadosData(data: seq<Json>, pyStr: Json -> string) returns (r: Result<seq<(string, seq<Json>)>>)
    ensures r == LoadAll(data, DataItemF(pyStr))
  {
    var treinamentos: seq<(string, seq<Json>)> := [];
    var i := 0;
    while i < |data|
      invariant 0 <= i <= |data|
      invariant LoadAll(data[..i], DataItemF(pyStr)) == Ok(treinamentos)
    {
      assert data[..i + 1][..i] == data[..i];
      var x := CarregarItem(data[i], pyStr);
      if x.Err? {
        LoadAllErrPrefix(data, DataItemF(pyStr), i + 1);
        return Err(x.error);
      }
      if x.value.Some? {
        treinamentos := treinamentos + [x.value.value];
      }
      i := i + 1;
    }
    assert data[..|data|] == data;
    return Ok(treinamentos);
  }

  // ------------------------------------------------ criar_docbin, before alignment

  /** One entity of `criar_docbin`: `len(ent)` may raise; shorter than 3 it is skipped;
      otherwise `ent[0]`, `ent[1]`, `ent[2]` may raise, and the triple goes on to
      alignment when its label is one of `labels`. */
  function Candidate(ent: Json, labels: seq<Json>): (r: Result<Option<(Json, Json, Json)>>)
    ensures r.Ok? && r.value.Some? ==> r.value.value.2 in labels
  {
    match Len(ent)
    case Err(e) => Err(e)
    case Ok(n) =>
      if n < 3 then Ok(None)
      else match Index(ent, 0)
        case Err(e) => Err(e)
        case Ok(start) =>
          match Index(ent, 1)
          case Err(e) => Err(e)
          case Ok(end) =>
            match Index(ent, 2)
            case Err(e) => Err(e)
            case Ok(tag) => if tag in labels then Ok(Some((start, end, tag))) else Ok(None)
  }

  function Candidates(ents: seq<Json>, labels: seq<Json>): (r: Result<seq<(Json, Json, Json)>>)
    ensures r.Ok? ==> |r.value| <= |ents|
  {
    if ents == [] then Ok([])
    else match Candidates(ents[..|ents| - 1], labels)
      case Err(e) => Err(e)
      case Ok(acc) =>
        match Candidate(ents[|ents| - 1], labels)
        case Err(e) => Err(e)
        case Ok(None) => Ok(acc)
        case Ok(Some(c)) => Ok(acc + [c])
  }

  /** Every candidate carries one of the labels and is the first three elements of a list
      entity of at least three elements. */
  lemma {:induction false} CandidatesSound(ents: seq<Json>, labels: seq<Json>)
    requires Candidates(ents, labels).Ok?
    ensures forall x :: 0 <= x < |Candidates(ents, labels).value| ==>
      Candidates(ents, labels).value[x].2 in labels
      && exists k :: 0 <= k < |ents| && Candidate(ents[k], labels) == Ok(Some(Candidates(ents, labels).value[x]))
    decreases |ents|
  {
    if ents != [] {
      var init := ents[..|ents| - 1];
      CandidatesSound(init, labels);
      var acc := Candidates(init, labels).value;
      var r := Candidates(ents, labels).value;
      forall x | 0 <= x < |r|
        ensures r[x].2 in labels
        ensures exists k :: 0 <= k < |ents| && Candidate(ents[k], labels) == Ok(Some(r[x]))
      {
        if x < |acc| {
          assert r[x] == acc[x];
          var k :| 0 <= k < |init| && Candidate(init[k], labels) == Ok(Some(acc[x]));
          assert init[k] == ents[k];
        } else {
          assert Candidate(ents[|ents| - 1], labels) == Ok(Some(r[x]));
        }
      }
    }
  }

  /** A list entity of at least three elements with a listed label always reaches
      alignment, when the loop does not raise. */
  lemma {:induction false} CandidatesComplete(ents: seq<Json>, labels: seq<Json>, k: nat)
    requires Candidates(ents, labels).Ok? && k < |ents|
    requires ents[k].JList? && |ents[k].elems| >= 3 && ents[k].elems[2] in labels
    ensures (ents[k].elems[0], ents[k].elems[1], ents[k].elems[2]) in Candidates(ents, labels).value
    decreases |ents|
  {
    var init := ents[..|ents| - 1];
    if k < |ents| - 1 {
      assert init[k] == ents[k];
      CandidatesComplete(init, labels, k);
    }
  }

  /** A list entity shorter than 3, or one whose label is not listed, never reaches
      alignment. */
  lemma {:induction false} CandidateSkips(ent: Json, labels: seq<Json>)
    requires ent.JList? && (|ent.elems| < 3 || ent.elems[2] !in labels)
    ensures Candidate(ent, labels) == Ok(None)
  {
  }

  lemma {:induction false} CandidatesErrPrefix(ents: seq<Json>, labels: seq<Json>, i: nat)
    requires i <= |ents| && Candidates(ents[..i], labels).Err?
    ensures Candidates(ents, labels) == Candidates(ents[..i], labels)
    decreases |ents| - i
  {
    if i < |ents| {
      assert ents[..i + 1][..i] == ents[..i];
      CandidatesErrPrefix(ents, labels, i + 1);
    } else {
      assert ents[..i] == ents;
    }
  }

  /** The entity loop of `criar_docbin` up to `doc.char_span`. */
  method FilterCandidates(ents: seq<Json>, labels: seq<Json>) returns (r: Result<seq<(Json, Json, Json)>>)
    ensures r == Candidates(ents, labels)
  {
    var cands: seq<(Json, Json, Json)> := [];
    var i := 0;
    while i < |ents|
      invariant 0 <= i <= |ents|
      invariant Candidates(ents[..i], labels) == Ok(cands)
    {
      var ent := ents[i];
      assert ents[..i + 1][..i] == ents[..i];
      var c := Candidate(ent, labels);
      if c.Err? {
        CandidatesErrPrefix(ents, labels, i + 1);
        return Err(c.error);
      }
      if c.value.Some? {
        cands := cands + [c.value.value];
      }
      i := i + 1;
    }
    assert ents[..|ents|] == ents;
    return Ok(cands);
  }

  /** `anotacao["entities"]`: a dict's value, a KeyError when it lacks the key, and a
      TypeError on any other value (a list or string indexed by a string). */
  function EntitiesField(anotacao: Json): (r: Result<Json>)
    ensures anotacao.JDict? && !HasKey(anotacao.entries, "entities") ==> r == Err(KeyError)
    ensures !anotacao.JDict? ==> r == Err(TypeError)
  {
    if !anotacao.JDict? then Err(TypeError)
    else if HasKey(anotacao.entries, "entities") then Ok(Get(anotacao.entries, "entities"))
    else Err(KeyError)
  }

  /** The documents `criar_docbin` builds, each as its text with the candidate spans it
      hands to alignment; a pair whose text is not a string is skipped. */
  function DocCandidates(data: seq<(Json, Json)>, labels: seq<Json>): (r: Result<seq<(string, seq<(Json, Json, Json)>)>>)
    ensures r.Ok? ==> |r.value| <= |data|
  {
    if data == [] then Ok([])
    else match DocCandidates(data[..|data| - 1], labels)
      case Err(e) => Err(e)
      case Ok(acc) =>
        var (texto, anotacao) := data[|data| - 1];
        if !texto.JStr? then Ok(acc)
        else match EntitiesField(anotacao)
          case Err(e) => Err(e)
          case Ok(field) =>
            match Iter(field)
            case Err(e) => Err(e)
            case Ok(ents) =>
              match Candidates(ents, labels)
              case Err(e) => Err(e)
              case Ok(cs) => Ok(acc + [(texto.s, cs)])
  }

  lemma {:induction false} DocCandidatesErrPrefix(data: seq<(Json, Json)>, labels: seq<Json>, i: nat)
    requires i <= |data| && DocCandidates(data[..i], labels).Err?
    ensures DocCandidates(data, labels) == DocCandidates(data[..i], labels)
    decreases |data| - i
  {
    if i < |data| {
      assert data[..i + 1][..i] == data[..i];
      DocCandidatesErrPrefix(data, labels, i + 1);
    } else {
      assert data[..i] == data;
    }
  }

  /** `criar_docbin` up to alignment: the outer loop over the (text, annotation) pairs. */
  method CriarDocbin(data: seq<(Json, Json)>, labels: seq<Json>) returns (r: Result<seq<(string, seq<(Json, Json, Json)>)>>)
    ensures r == DocCandidates(data, labels)
  {
    var docs: seq<(string, seq<(Json, Json, Json)>)> := [];
    var i := 0;
    while i < |data|
      invariant 0 <= i <= |data|
      invariant DocCandidates(data[..i], labels) == Ok(docs)
    {
      var (texto, anotacao) := data[i];
      assert data[..i + 1][..i] == data[..i];
      if texto.JStr? {
        var field := EntitiesField(anotacao);
        if field.Err? {
          DocCandidatesErrPrefix(data, labels, i + 1);
          return Err(field.error);
        }
        var it := Iter(field.value);
        if it.Err? {
          DocCandidatesErrPrefix(data, labels, i + 1);
          return Err(it.error);
        }
        var cs := FilterCandidates(it.value, labels);
        if cs.Err? {
          DocCandidatesErrPrefix(data, labels, i + 1);
          return Err(cs.error);
        }
        docs := docs + [(texto.s, cs.value)];
      }
      i := i + 1;
    }
    assert data[..|data|] == data;
    return Ok(docs);
  }

  /** The pairs `carregar_dados_data` stores always reach `criar_docbin` whole: every DATA
      span is a candidate for the label list ["DATA"]. */
  lemma {:induction false} LoadedSpansAreCandidates(texto: string)
    ensures Candidates(AnnotsJson(DataSpans(texto)), [JStr(DataLabel)]).Ok?
    ensures |Candidates(AnnotsJson(DataSpans(texto)), [JStr(DataLabel)]).value| == |DataSpans(texto)|
  {
    var js := AnnotsJson(DataSpans(texto));
    CandidatesOfAnnots(js, [JStr(DataLabel)]);
  }

  lemma {:induction false} CandidatesOfAnnots(js: seq<Json>, labels: seq<Json>)
    requires forall k :: 0 <= k < |js| ==> js[k].JList? && |js[k].elems| == 3 && js[k].elems[2] in labels
    ensures Candidates(js, labels).Ok? && |Candidates(js, labels).value| == |js|
    decreases |js|
  {
    if js != [] {
      CandidatesOfAnnots(js[..|js| - 1], labels);
    }
  }
}
