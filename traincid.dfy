/** Treinando_CID.py: the CID annotator `ajustar_anotacoes_cid`, whose pattern
    `(CID[:\-]?\s*([A-Z][\d_.-]*))` runs under IGNORECASE, and the loader `carregar_dados`
    that keeps the CID entities of each item, re-annotating those whose text does not
    start like a code. */
module TrainCid {
  import opened Wrappers
  import opened Chars
  import opened Text
  import opened Scan
  import opened Json
  import opened Loader

  const CidLabel: string := "CID"

  /** `[A-Z]` under IGNORECASE. */
  predicate IsAsciiLetter(c: char) {
    ('A' <= c <= 'Z') || ('a' <= c <= 'z')
  }

  /** `[\d_.-]` */
  predicate IsCodeChar(c: char) {
    IsDigit(c) || c == '_' || c == '.' || c == '-'
  }

  predicate IsSeparator(c: char) {
    c == ':' || c == '-'
  }

  // ------------------------------------------------ the annotator's pattern

  /** Where the code group starts after "CID" at i: past the optional separator and
      the run of white space. The separator and the spaces cannot be a letter, so the
      engine never needs to give any of them back. */
  function CidCodeStart(s: string, i: nat): (c: nat)
    requires i + 3 <= |s|
    ensures i + 3 <= c <= |s|
  {
    var b := if i + 3 < |s| && IsSeparator(s[i + 3]) then i + 4 else i + 3;
    RunEnd(s, b, IsSpace)
  }

  /** The end of the match at i, if there is one. */
  function CidTrainAt(s: string, i: nat): (r: Option<nat>)
    ensures r.Some? ==> i + 3 <= |s| && CiLitAt(s, i, "cid") && CidCodeStart(s, i) < r.value <= |s|
  {
    if !CiLitAt(s, i, "cid") then None
    else
      var c := CidCodeStart(s, i);
      if c < |s| && IsAsciiLetter(s[c]) then Some(RunEnd(s, c + 1, IsCodeChar)) else None
  }

  function CidMatcher(): Matcher {
    (s: string, i: nat) => CidTrainAt(s, i)
  }

  /** White space only from b up to c. */
  predicate SpacesBetween(s: string, b: nat, c: nat) {
    b <= c <= |s| && forall m :: b <= m < c ==> IsSpace(s[m])
  }

  /** The pattern, read declaratively: "cid" in any case at i, an optional `:` or `-`,
      white space up to c, a letter at c, and the longest run of code characters after
      it, ending at e. */
  ghost predicate CidMatch(s: string, i: nat, c: nat, e: nat) {
    CiLitAt(s, i, "cid") && c < e <= |s|
    && (SpacesBetween(s, i + 3, c) || (i + 3 < |s| && IsSeparator(s[i + 3]) && SpacesBetween(s, i + 4, c)))
    && IsAsciiLetter(s[c])
    && (forall m :: c < m < e ==> IsCodeChar(s[m]))
    && (e == |s| || !IsCodeChar(s[e]))
  }

  lemma {:induction false} CidTrainAtSound(s: string, i: nat)
    requires CidTrainAt(s, i).Some?
    ensures CidMatch(s, i, CidCodeStart(s, i), CidTrainAt(s, i).value)
  {
  }

  lemma {:induction false} CidTrainAtComplete(s: string, i: nat, c: nat, e: nat)
    requires CidMatch(s, i, c, e)
    ensures CidTrainAt(s, i) == Some(e) && CidCodeStart(s, i) == c
  {
    assert i + 3 <= |s| by { CiLitAtChars(s, i, "cid"); }
    if i + 3 < |s| && IsSeparator(s[i + 3]) {
      assert !SpacesBetween(s, i + 3, c) by {
        if i + 3 < c {
          assert !IsSpace(s[i + 3]);
        }
      }
      RunEndUnique(s, i + 4, IsSpace, c);
    } else {
      RunEndUnique(s, i + 3, IsSpace, c);
    }
    RunEndUnique(s, c + 1, IsCodeChar, e);
  }

  lemma {:induction false} CidTrainAtIff(s: string, i: nat, c: nat, e: nat)
    ensures (CidTrainAt(s, i) == Some(e) && CidCodeStart(s, i) == c) <==> CidMatch(s, i, c, e)
  {
    if CidTrainAt(s, i) == Some(e) && CidCodeStart(s, i) == c {
      CidTrainAtSound(s, i);
    }
    if CidMatch(s, i, c, e) {
      CidTrainAtComplete(s, i, c, e);
    }
  }

  // ------------------------------------------------ ajustar_anotacoes_cid

  /** What the annotator relies on about a match: it starts with "CID" and its code
      group lies inside it. */
  predicate ValidCidMatch(texto: string, m: (nat, nat)) {
    m.0 + 3 <= |texto| && CidCodeStart(texto, m.0) < m.1 <= |texto|
  }

  /** The annotation of one match: `start_codigo = start + len(texto_completo) -
      len(codigo_cid)` is where the code group starts, and the span ends with the match. */
  function CidAnnot(texto: string, m: (nat, nat)): (a: Annot)
    requires ValidCidMatch(texto, m)
    ensures a.start == CidCodeStart(texto, m.0) && a.stop == m.1 && a.tag == CidLabel
  {
    var c := CidCodeStart(texto, m.0);
    Annot(m.0 + (m.1 - m.0) - (m.1 - c), (m.0 + (m.1 - m.0) - (m.1 - c)) + (m.1 - c), CidLabel)
  }

  predicate AllValid(texto: string, ms: seq<(nat, nat)>) {
    forall x :: 0 <= x < |ms| ==> ValidCidMatch(texto, ms[x])
  }

  function CidAnnots(texto: string, ms: seq<(nat, nat)>): (r: seq<Annot>)
    requires AllValid(texto, ms)
    ensures |r| == |ms| && forall x :: 0 <= x < |ms| ==> r[x] == CidAnnot(texto, ms[x])
  {
    if ms == [] then [] else CidAnnots(texto, ms[..|ms| - 1]) + [CidAnnot(texto, ms[|ms| - 1])]
  }

  lemma {:induction false} CidMatchesValid(texto: string)
    ensures AllValid(texto, FindIter(CidMatcher(), texto, 0))
  {
    var ms := FindIter(CidMatcher(), texto, 0);
    forall x | 0 <= x < |ms| ensures ValidCidMatch(texto, ms[x]) {
      assert CidTrainAt(texto, ms[x].0) == Some(ms[x].1);
    }
  }

  /** What `ajustar_anotacoes_cid(texto, entities)` returns: one span per match of
      `finditer`. */
  function CidSpans(texto: string): seq<Annot> {
    CidMatchesValid(texto);
    CidAnnots(texto, FindIter(CidMatcher(), texto, 0))
  }

  /** The annotator's loop over the matches of `finditer`. */
  method AnnotateMatches(texto: string, matches: seq<(nat, nat)>) returns (novasEntidades: seq<Annot>)
    requires AllValid(texto, matches)
    ensures novasEntidades == CidAnnots(texto, matches)
  {
    novasEntidades := [];
    var i := 0;
    while i < |matches|
      invariant 0 <= i <= |matches|
      invariant novasEntidades == CidAnnots(texto, matches[..i])
    {
      var start := matches[i].0;
      var end := matches[i].1;
      var codigo := end - CidCodeStart(texto, start);
      var startCodigo := start + (end - start) - codigo;
      assert matches[..i + 1][..i] == matches[..i];
      assert Annot(startCodigo, startCodigo + codigo, CidLabel) == CidAnnot(texto, matches[i]);
      novasEntidades := novasEntidades + [Annot(startCodigo, startCodigo + codigo, CidLabel)];
      i := i + 1;
    }
    assert matches[..|matches|] == matches;
  }

  /** `ajustar_anotacoes_cid`. Its `entities` argument is never read. */
  method AjustarAnotacoesCid(texto: string, entities: seq<Json>) returns (novasEntidades: seq<Annot>)
    ensures novasEntidades == CidSpans(texto)
  {
    var matches := FindIter(CidMatcher(), texto, 0);
    CidMatchesValid(texto);
    novasEntidades := AnnotateMatches(texto, matches);
  }

  /** Each span covers exactly the code group of one match: a letter and the code
      characters after it, preceded by "CID" in any case, an optional separator and
      white space. */
  lemma {:induction false} CidSpansExact(texto: string)
    ensures forall x :: 0 <= x < |CidSpans(texto)| ==>
      CidSpans(texto)[x].tag == CidLabel
      && exists i: nat :: CidMatch(texto, i, CidSpans(texto)[x].start, CidSpans(texto)[x].stop)
  {
    var ms := FindIter(CidMatcher(), texto, 0);
    forall x | 0 <= x < |CidSpans(texto)|
      ensures CidSpans(texto)[x].tag == CidLabel
      ensures exists i: nat :: CidMatch(texto, i, CidSpans(texto)[x].start, CidSpans(texto)[x].stop)
    {
      var (i, e) := ms[x];
      CidTrainAtIff(texto, i, CidCodeStart(texto, i), e);
    }
  }

  /** The spans come in text order and never overlap. */
  lemma {:induction false} CidSpansOrdered(texto: string)
    ensures forall x :: 0 <= x < |CidSpans(texto)| ==>
      CidSpans(texto)[x].start < CidSpans(texto)[x].stop <= |texto|
    ensures forall x :: 0 <= x < |CidSpans(texto)| - 1 ==> CidSpans(texto)[x].stop <= CidSpans(texto)[x + 1].start
  {
    var ms := FindIter(CidMatcher(), texto, 0);
    forall x | 0 <= x < |CidSpans(texto)| - 1
      ensures CidSpans(texto)[x].stop <= CidSpans(texto)[x + 1].start
    {
      assert ms[x].1 <= ms[x + 1].0;
    }
  }

  /** The annotator finds nothing exactly when "CID" followed by a code occurs nowhere. */
  lemma {:induction false} CidSpansEmptyIff(texto: string)
    ensures CidSpans(texto) == [] <==> forall p: nat :: CidTrainAt(texto, p).None?
  {
    if CidSpans(texto) == [] {
      forall p: nat ensures CidTrainAt(texto, p).None? {
        if CidTrainAt(texto, p).Some? {
          FindIterCovers(CidMatcher(), texto, 0, p);
        }
      }
    } else {
      var m := FindIter(CidMatcher(), texto, 0)[0];
      assert CidTrainAt(texto, m.0).Some?;
    }
  }

  /** "CID 10" yields nothing: the code must start with a letter. */
  lemma {:induction false} CidNeedsLetter(texto: string)
    requires texto == "CID 10"
    ensures CidSpans(texto) == []
  {
    forall p: nat ensures CidTrainAt(texto, p).None? {
      if p == 0 {
        assert IsSpace(texto[3]) && !IsSpace(texto[4]) && !IsAsciiLetter(texto[4]);
        RunEndUnique(texto, 3, IsSpace, 4);
      } else {
        assert !CiLitAt(texto, p, "cid") by {
          if p <= 3 {
            assert Lower(texto[p]) != 'c';
          }
        }
      }
    }
    CidSpansEmptyIff(texto);
  }

  // ------------------------------------------------ carregar_dados

  predicate IsCidEntity(ent: Json) {
    ent.JList? && |ent.elems| > 2 && ent.elems[2] == JStr(CidLabel)
  }

  /** `padrao_cid.match`: `[A-Z]\d+(\.\d+)?`, case-sensitive, at the start of the text,
      succeeds exactly when it starts with an upper-case letter and a digit. */
  predicate LooksLikeCid(t: string) {
    |t| >= 2 && IsAsciiUpper(t[0]) && IsDigit(t[1])
  }

  /** One entity of the loop, where `novos` is what the annotator returns for the text
      (it ignores the entity it is given): a CID entity is kept when its text looks like a
      code, and otherwise replaced by `novos`, or kept when that is empty. Other entities
      are dropped; a slice bound that is not an integer raises TypeError. */
  function CidStep(texto: string, novos: seq<Json>, acc: seq<Json>, ent: Json): (r: Result<seq<Json>>)
    ensures r.Ok? ==> |acc| <= |r.value| && r.value[..|acc|] == acc
  {
    if !IsCidEntity(ent) then Ok(acc)
    else match (SliceBound(ent.elems[0]), SliceBound(ent.elems[1]))
      case (Ok(lo), Ok(hi)) =>
        if !LooksLikeCid(PySlice(texto, lo, hi)) && novos != [] then Ok(acc + novos)
        else Ok(acc + [ent])
      case _ => Err(TypeError)
  }

  function CidEnts(texto: string, novos: seq<Json>, ents: seq<Json>): (r: Result<seq<Json>>)
  {
    if ents == [] then Ok([])
    else match CidEnts(texto, novos, ents[..|ents| - 1])
      case Err(e) => Err(e)
      case Ok(acc) => CidStep(texto, novos, acc, ents[|ents| - 1])
  }

  /** One item: skipped when shorter than 2, stored when some entity survives. */
  function CidItem(item: Json, pyStr: Json -> string): (r: Result<Option<(string, seq<Json>)>>)
    ensures r.Ok? && r.value.Some? ==> r.value.value.1 != []
  {
    match Len(item)
    case Err(e) => Err(e)
    case Ok(n) =>
      if n < 2 then Ok(None)
      else match TextOf(item, pyStr)
        case Err(e) => Err(e)
        case Ok(texto) =>
          match Index(item, 1)
          case Err(e) => Err(e)
          case Ok(anotacao) =>
            match Iter(EntitiesOf(anotacao))
            case Err(e) => Err(e)
            case Ok(ents) =>
              match CidEnts(texto, AnnotsJson(CidSpans(texto)), ents)
              case Err(e) => Err(e)
              case Ok(kept) => if kept == [] then Ok(None) else Ok(Some((texto, kept)))
  }

  function CidItemF(pyStr: Json -> string): Json -> Result<Option<(string, seq<Json>)>> {
    item => CidItem(item, pyStr)
  }

  lemma {:induction false} CidEntsErrPrefix(texto: string, novos: seq<Json>, ents: seq<Json>, i: nat)
    requires i <= |ents| && CidEnts(texto, novos, ents[..i]).Err?
    ensures CidEnts(texto, novos, ents) == CidEnts(texto, novos, ents[..i])
    decreases |ents| - i
  {
    if i < |ents| {
      assert ents[..i + 1][..i] == ents[..i];
      CidEntsErrPrefix(texto, novos, ents, i + 1);
    } else {
      assert ents[..i] == ents;
    }
  }

  /** e is a CID entity taken from ents or from novos. */
  ghost predicate Sourced(e: Json, ents: seq<Json>, novos: seq<Json>) {
    IsCidEntity(e) && (e in ents || e in novos)
  }

  lemma {:induction false} SourcedConcat(a: seq<Json>, b: seq<Json>, ents: seq<Json>, novos: seq<Json>)
    requires forall x :: 0 <= x < |a| ==> Sourced(a[x], ents, novos)
    requires forall x :: 0 <= x < |b| ==> Sourced(b[x], ents, novos)
    ensures forall x :: 0 <= x < |a + b| ==> Sourced((a + b)[x], ents, novos)
  {
    forall x | 0 <= x < |a + b| ensures Sourced((a + b)[x], ents, novos) {
      if x >= |a| {
        assert (a + b)[x] == b[x - |a|];
      }
    }
  }

  /** The annotator's spans are CID entities. */
  lemma {:induction false} AnnotsAreCid(texto: string)
    ensures forall x :: 0 <= x < |AnnotsJson(CidSpans(texto))| ==> IsCidEntity(AnnotsJson(CidSpans(texto))[x])
  {
  }

  /** Every stored entity is a CID entity, taken from the input or from the annotator's
      spans. */
  lemma {:induction false} CidEntsProvenance(texto: string, novos: seq<Json>, ents: seq<Json>)
    requires forall x :: 0 <= x < |novos| ==> IsCidEntity(novos[x])
    requires CidEnts(texto, novos, ents).Ok?
    ensures forall x :: 0 <= x < |CidEnts(texto, novos, ents).value| ==>
      Sourced(CidEnts(texto, novos, ents).value[x], ents, novos)
    decreases |ents|
  {
    if ents != [] {
      var init := ents[..|ents| - 1];
      var last := ents[|ents| - 1];
      CidEntsProvenance(texto, novos, init);
      var acc := CidEnts(texto, novos, init).value;
      var r := CidEnts(texto, novos, ents).value;
      assert r == CidStep(texto, novos, acc, last).value;
      forall x | 0 <= x < |acc| ensures Sourced(acc[x], ents, novos) {
        assert Sourced(acc[x], init, novos);
        assert acc[x] in init ==> acc[x] in ents;
      }
      if r == acc {
      } else if IsCidEntity(last) && r == acc + [last] {
        assert Sourced([last][0], ents, novos);
        SourcedConcat(acc, [last], ents, novos);
      } else {
        assert r == acc + novos;
        assert forall x :: 0 <= x < |novos| ==> Sourced(novos[x], ents, novos);
        SourcedConcat(acc, novos, ents, novos);
      }
    }
  }

  function CidOnly(ents: seq<Json>): (r: seq<Json>)
    ensures forall x :: 0 <= x < |r| ==> IsCidEntity(r[x]) && r[x] in ents
  {
    if ents == [] then []
    else CidOnly(ents[..|ents| - 1]) + (if IsCidEntity(ents[|ents| - 1]) then [ents[|ents| - 1]] else [])
  }

  /** When every CID entity already looks like a code, the loop keeps exactly the CID
      entities, in order. */
  lemma {:induction false} CidEntsKeepsCodes(texto: string, novos: seq<Json>, ents: seq<Json>)
    requires forall x :: 0 <= x < |ents| && IsCidEntity(ents[x]) ==>
      SliceBound(ents[x].elems[0]).Ok? && SliceBound(ents[x].elems[1]).Ok?
      && LooksLikeCid(PySlice(texto, SliceBound(ents[x].elems[0]).value, SliceBound(ents[x].elems[1]).value))
    ensures CidEnts(texto, novos, ents) == Ok(CidOnly(ents))
    decreases |ents|
  {
    if ents != [] {
      var init := ents[..|ents| - 1];
      assert forall x :: 0 <= x < |init| ==> init[x] == ents[x];
      CidEntsKeepsCodes(texto, novos, init);
      var last := ents[|ents| - 1];
      assert CidEnts(texto, novos, ents) == CidStep(texto, novos, CidOnly(init), last);
      if IsCidEntity(last) {
        var lo := SliceBound(last.elems[0]);
        var hi := SliceBound(last.elems[1]);
        assert lo.Ok? && hi.Ok? && LooksLikeCid(PySlice(texto, lo.value, hi.value));
        assert CidStep(texto, novos, CidOnly(init), last) == Ok(CidOnly(init) + [last]);
        assert CidOnly(ents) == CidOnly(init) + [last];
      } else {
        assert CidOnly(ents) == CidOnly(init) + [] == CidOnly(init);
        assert CidStep(texto, novos, CidOnly(init), last) == Ok(CidOnly(init));
      }
    }
  }

  /** Every entity an item stores is a CID entity. */
  lemma {:induction false} CidItemLabelled(item: Json, pyStr: Json -> string)
    requires CidItem(item, pyStr).Ok? && CidItem(item, pyStr).value.Some?
    ensures forall x :: 0 <= x < |CidItem(item, pyStr).value.value.1| ==>
      IsCidEntity(CidItem(item, pyStr).value.value.1[x])
  {
    var texto := TextOf(item, pyStr).value;
    var ents := Iter(EntitiesOf(Index(item, 1).value)).value;
    AnnotsAreCid(texto);
    CidEntsProvenance(texto, AnnotsJson(CidSpans(texto)), ents);
  }

  /** The entity loop of `carregar_dados`. */
  method AjustarEntidades(texto: string, ents: seq<Json>) returns (r: Result<seq<Json>>)
    ensures r == CidEnts(texto, AnnotsJson(CidSpans(texto)), ents)
  {
    ghost var novos := AnnotsJson(CidSpans(texto));
    var entidadesAjustadas: seq<Json> := [];
    var i := 0;
    while i < |ents|
      invariant 0 <= i <= |ents|
      invariant CidEnts(texto, novos, ents[..i]) == Ok(entidadesAjustadas)
    {
      var ent := ents[i];
      assert ents[..i + 1][..i] == ents[..i];
      if IsCidEntity(ent) {
        var lo := SliceBound(ent.elems[0]);
        var hi := SliceBound(ent.elems[1]);
        if lo.Err? || hi.Err? {
          CidEntsErrPrefix(texto, novos, ents, i + 1);
          return Err(TypeError);
        }
        var textoEntidade := PySlice(texto, lo.value, hi.value);
        var replaced := false;
        if !LooksLikeCid(textoEntidade) {
          var novosCids := AjustarAnotacoesCid(texto, [ent]);
          if novosCids != [] {
            entidadesAjustadas := entidadesAjustadas + AnnotsJson(novosCids);
            replaced := true;
          }
        }
        if !replaced {
          entidadesAjustadas := entidadesAjustadas + [ent];
        }
      }
      i := i + 1;
    }
    assert ents[..|ents|] == ents;
    return Ok(entidadesAjustadas);
  }

  method CarregarItem(item: Json, pyStr: Json -> string) returns (r: Result<Option<(string, seq<Json>)>>)
    ensures r == CidItem(item, pyStr)
  {
    var n := Len(item);
    if n.Err? { return Err(n.error); }
    if n.value < 2 { return Ok(None); }
    var t := ExtrairTexto(item, pyStr);
    if t.Err? { return Err(t.error); }
    var texto := t.value;
    var a := Index(item, 1);
    if a.Err? { return Err(a.error); }
    var entities := FindEntities(a.value);
    var it := Iter(entities);
    if it.Err? { return Err(it.error); }
    var kept := AjustarEntidades(texto, it.value);
    if kept.Err? { return Err(kept.error); }
    if kept.value == [] { return Ok(None); }
    return Ok(Some((texto, kept.value)));
  }

  /** `carregar_dados` over the parsed items. */
  method CarregarDados(data: seq<Json>, pyStr: Json -> string) returns (r: Result<seq<(string, seq<Json>)>>)
    ensures r == LoadAll(data, CidItemF(pyStr))
  {
    var treinamentos: seq<(string, seq<Json>)> := [];
    var i := 0;
    while i < |data|
      invariant 0 <= i <= |data|
      invariant LoadAll(data[..i], CidItemF(pyStr)) == Ok(treinamentos)
    {
      assert data[..i + 1][..i] == data[..i];
      var x := CarregarItem(data[i], pyStr);
      if x.Err? {
        LoadAllErrPrefix(data, CidItemF(pyStr), i + 1);
        return Err(x.error);
      }
      if x.value.Some? {
        treinamentos := treinamentos + [x.value.value];
      }
      i := i + 1;
    }
    assert data[..|data|] == data;
    return Ok(treinamentos);
  }
}
