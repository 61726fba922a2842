/** `extrair_entidades_multimodelo` (app_OCR.py): the entities every recogniser found,
    normalised and routed into one list per expected label. The recognisers are an input:
    for each model, in the order of the `modelos` dict, its key and the spans it found. */
module Fusion {
  import opened Wrappers
  import opened Chars
  import opened Text
  import opened Normalizers
  import opened Names
  import opened NameLists

  datatype Span = Span(text: string, tag: string)

  datatype ModelOutput = ModelOutput(key: string, ents: seq<Span>)

  type Entities = map<string, seq<string>>

  /** `ENTIDADES_ESPERADAS` */
  const Expected: seq<string> := [
    "NOME_PACIENTE", "CID", "DATA", "TIPO_DOC",
    "TEMPO_AFASTAMENTO", "CRM",
    "HORARIO_INICIO_ATENDIMENTO", "HORARIO_FIM_ATENDIMENTO"
  ]

  /** The map holds exactly the expected labels. */
  ghost predicate WellKeyed(m: Entities) {
    forall k :: k in m <==> k in Expected
  }

  /** `{ent: [] for ent in ENTIDADES_ESPERADAS}` */
  function InitialEntities(): (m: Entities)
    ensures WellKeyed(m) && "NOME_PACIENTE" in m
    ensures forall k :: k in m ==> m[k] == []
  {
    map k | k in Expected :: []
  }

  /** `if v not in m[key]: m[key].append(v)` */
  function AppendNew(m: Entities, key: string, v: string): Entities
    requires key in m
  {
    if v in m[key] then m else m[key := m[key] + [v]]
  }

  /** Where one span goes: the list, the value appended to it, and whether the append
      is guarded by `not in`. */
  datatype Placement = Placement(target: string, value: string, dedup: bool)

  /** The routing decision for a span of the model with key `key`: by the model key, and
      only for HORARIOS and the remaining models by the span's label (`ent.label_`). The
      value is the stripped text, normalised for CID and DATA. */
  function Place(key: string, sp: Span): (r: Option<Placement>)
    ensures r.Some? ==> (r.value.dedup <==> key != "TIPO_DOC")
    ensures r.Some? && key in ["CID", "DATA", "TIPO_DOC", "NOME_PACIENTE"] ==> r.value.target == key
    ensures r.Some? && key == "HORARIOS" ==>
      r.value.target in ["HORARIO_INICIO_ATENDIMENTO", "HORARIO_FIM_ATENDIMENTO"]
    ensures key == "CID" ==> (r.Some? <==> ProcessarCid(Strip(sp.text)).Some?)
    ensures r.Some? && key == "CID" ==>
      ProcessarCid(Strip(sp.text)) == Some(r.value.value) && CidCode(r.value.value)
    ensures key == "DATA" ==> (r.Some? <==> LimparData(Strip(sp.text)).Some?)
    ensures r.Some? && key == "DATA" ==>
      LimparData(Strip(sp.text)) == Some(r.value.value) && Contains(Strip(sp.text), r.value.value)
    ensures r.Some? && key != "CID" && key != "DATA" ==> r.value.value == Strip(sp.text)
  {
    var t := Strip(sp.text);
    if key == "CID" then
      match ProcessarCid(t)
      case Some(c) => Some(Placement("CID", c, true))
      case None => None
    else if key == "DATA" then
      match LimparData(t)
      case Some(d) => Some(Placement("DATA", d, true))
      case None => None
    else if key == "TIPO_DOC" then
      if ValidarTipoDocumento(t) then Some(Placement("TIPO_DOC", t, false)) else None
    else if key == "NOME_PACIENTE" then
      Some(Placement("NOME_PACIENTE", t, true))
    else if key == "HORARIOS" then
      if sp.tag in ["HORARIO_INICIO_ATENDIMENTO", "HORARIO_INICIO"] then
        Some(Placement("HORARIO_INICIO_ATENDIMENTO", t, true))
      else if sp.tag in ["HORARIO_FIM_ATENDIMENTO", "HORARIO_FIM"] then
        Some(Placement("HORARIO_FIM_ATENDIMENTO", t, true))
      else None
    else Some(Placement(sp.tag, t, true))
  }

  /** Carries out a placement: nothing when the list does not exist (a label outside the
      expected ones) or when a guarded value is already there. */
  function Apply(m: Entities, p: Placement): (r: Entities)
    ensures r.Keys == m.Keys
  {
    if p.target !in m || (p.dedup && p.value in m[p.target]) then m
    else m[p.target := m[p.target] + [p.value]]
  }

  /** One span of the model with key `key`. */
  function Route(m: Entities, key: string, sp: Span): (r: Entities)
    ensures r.Keys == m.Keys
  {
    match Place(key, sp)
    case None => m
    case Some(p) => Apply(m, p)
  }

  /** The spans of one model, in order. */
  function RouteAll(m: Entities, key: string, sps: seq<Span>): (r: Entities)
    ensures r.Keys == m.Keys
  {
    if sps == [] then m
    else Route(RouteAll(m, key, sps[..|sps| - 1]), key, sps[|sps| - 1])
  }

  /** One iteration of the loop over the models: its spans, then the name
      post-processing, which sits inside that loop. */
  function ModelStep(m: Entities, o: ModelOutput): (r: Entities)
    requires "NOME_PACIENTE" in m
    ensures r.Keys == m.Keys
  {
    var routed := RouteAll(m, o.key, o.ents);
    routed["NOME_PACIENTE" := PostProcess(routed["NOME_PACIENTE"])]
  }

  /** The whole fusion, over the models in order. */
  function Fuse(outputs: seq<ModelOutput>): (r: Entities)
    ensures r.Keys == InitialEntities().Keys && "NOME_PACIENTE" in r
  {
    if outputs == [] then InitialEntities()
    else ModelStep(Fuse(outputs[..|outputs| - 1]), outputs[|outputs| - 1])
  }

  /** The inner loop of `extrair_entidades_multimodelo`: the spans of one model. */
  method RouteSpans(m: Entities, entidade: string, ents: seq<Span>) returns (entidades: Entities)
    ensures entidades == RouteAll(m, entidade, ents)
  {
    entidades := m;
    var j := 0;
    while j < |ents|
      invariant 0 <= j <= |ents|
      invariant entidades == RouteAll(m, entidade, ents[..j])
    {
      RouteAllSnoc(m, entidade, ents, j);
      entidades := Route(entidades, entidade, ents[j]);
      j := j + 1;
    }
    assert ents[..|ents|] == ents;
  }

  /** `extrair_entidades_multimodelo`: the models in order, the spans of each, and after
      each model the post-processing of the patient names. */
  method ExtrairEntidadesMultimodelo(outputs: seq<ModelOutput>) returns (entidades: Entities)
    ensures entidades == Fuse(outputs)
  {
    entidades := InitialEntities();
    var i := 0;
    while i < |outputs|
      invariant 0 <= i <= |outputs|
      invariant entidades == Fuse(outputs[..i])
    {
      FuseSnoc(outputs, i);
      var routed := RouteSpans(entidades, outputs[i].key, outputs[i].ents);
      var nomesValidos := PostProcessNames(routed["NOME_PACIENTE"]);
      entidades := routed["NOME_PACIENTE" := nomesValidos];
      i := i + 1;
    }
    assert outputs[..|outputs|] == outputs;
  }

  lemma {:induction false} RouteAllSnoc(m: Entities, key: string, sps: seq<Span>, j: nat)
    requires j < |sps|
    ensures RouteAll(m, key, sps[..j + 1]) == Route(RouteAll(m, key, sps[..j]), key, sps[j])
  {
    assert sps[..j + 1][..j] == sps[..j];
  }

  lemma {:induction false} FuseSnoc(outputs: seq<ModelOutput>, i: nat)
    requires i < |outputs|
    ensures Fuse(outputs[..i + 1]) == ModelStep(Fuse(outputs[..i]), outputs[i])
  {
    assert outputs[..i + 1][..i] == outputs[..i];
  }

  // ------------------------------------------------ what the fusion guarantees

  /** The lists guarded by `not in`: every list except TIPO_DOC's. */
  predicate DuplicateFree(m: Entities) {
    forall k :: k in m && k != "TIPO_DOC" ==> Distinct(m[k])
  }

  /** A placement only ever appends one value to the end of its list, and leaves every
      other list as it was. */
  lemma {:induction false} ApplyAppends(m: Entities, p: Placement)
    ensures p.target !in m ==> Apply(m, p) == m
    ensures p.target in m ==>
      Apply(m, p)[p.target] == m[p.target] || Apply(m, p)[p.target] == m[p.target] + [p.value]
    ensures forall k :: k in m && k != p.target ==> Apply(m, p)[k] == m[k]
  {
  }

  /** A span changes at most one list, and that one only by appending one value. */
  lemma {:induction false} RouteAppends(m: Entities, key: string, sp: Span)
    requires WellKeyed(m)
    ensures exists v :: forall k :: k in m ==> Route(m, key, sp)[k] == m[k] || Route(m, key, sp)[k] == m[k] + [v]
    ensures forall k1, k2 :: k1 in m && k2 in m && k1 != k2 && Route(m, key, sp)[k1] != m[k1] ==> Route(m, key, sp)[k2] == m[k2]
  {
    match Place(key, sp)
    case None =>
      assert forall k :: k in m ==> Route(m, key, sp)[k] == m[k];
    case Some(p) =>
      ApplyAppends(m, p);
      assert forall k :: k in m ==> Route(m, key, sp)[k] == m[k] || Route(m, key, sp)[k] == m[k] + [p.value];
  }

  /** A guarded append keeps its list free of repeats. */
  lemma {:induction false} ApplyDuplicateFree(m: Entities, p: Placement)
    requires DuplicateFree(m) && (p.dedup || p.target == "TIPO_DOC")
    ensures DuplicateFree(Apply(m, p))
  {
    if p.target in m && !(p.dedup && p.value in m[p.target]) && p.target != "TIPO_DOC" {
      var xs := m[p.target];
      assert Distinct(xs + [p.value]) by {
        forall i, j | 0 <= i < j < |xs| + 1 ensures (xs + [p.value])[i] != (xs + [p.value])[j] {
          if j == |xs| {
            assert (xs + [p.value])[i] == xs[i];
          }
        }
      }
    }
  }

  lemma {:induction false} RouteDuplicateFree(m: Entities, key: string, sp: Span)
    requires WellKeyed(m) && DuplicateFree(m)
    ensures DuplicateFree(Route(m, key, sp))
  {
    match Place(key, sp)
    case None =>
    case Some(p) => ApplyDuplicateFree(m, p);
  }

  lemma {:induction false} RouteAllDuplicateFree(m: Entities, key: string, sps: seq<Span>)
    requires WellKeyed(m) && DuplicateFree(m)
    ensures DuplicateFree(RouteAll(m, key, sps))
    decreases |sps|
  {
    if sps != [] {
      RouteAllDuplicateFree(m, key, sps[..|sps| - 1]);
      RouteDuplicateFree(RouteAll(m, key, sps[..|sps| - 1]), key, sps[|sps| - 1]);
    }
  }

  /** The final patient names satisfy what the post-processing promises. */
  predicate NamesPostProcessed(names: seq<string>) {
    (forall x :: x in names ==> ValidarNomePaciente(x))
    && Distinct(names) && NoNested(names) && NonIncreasing(names)
  }

  /** After any sequence of models: exactly the expected labels; no repeats in any list
      but TIPO_DOC's; and the patient names are valid, none inside another, longest
      first. */
  lemma {:induction false} ModelStepInvariant(m: Entities, o: ModelOutput)
    requires WellKeyed(m) && DuplicateFree(m)
    ensures DuplicateFree(ModelStep(m, o))
    ensures NamesPostProcessed(ModelStep(m, o)["NOME_PACIENTE"])
  {
    var routed := RouteAll(m, o.key, o.ents);
    RouteAllDuplicateFree(m, o.key, o.ents);
    PostProcessSpec(routed["NOME_PACIENTE"]);
  }

  lemma {:induction false} FuseInvariant(outputs: seq<ModelOutput>)
    ensures WellKeyed(Fuse(outputs))
    ensures DuplicateFree(Fuse(outputs))
    ensures NamesPostProcessed(Fuse(outputs)["NOME_PACIENTE"])
    decreases |outputs|
  {
    if outputs != [] {
      FuseInvariant(outputs[..|outputs| - 1]);
      ModelStepInvariant(Fuse(outputs[..|outputs| - 1]), outputs[|outputs| - 1]);
    }
  }

  /** Where the patient names come from: a span keeps every earlier name; the names
      model adds its stripped text; and any new name is that text. */
  lemma {:induction false} RouteNames(m: Entities, key: string, sp: Span)
    requires "NOME_PACIENTE" in m
    ensures forall y :: y in m["NOME_PACIENTE"] ==> y in Route(m, key, sp)["NOME_PACIENTE"]
    ensures key == "NOME_PACIENTE" ==> Strip(sp.text) in Route(m, key, sp)["NOME_PACIENTE"]
    ensures forall y :: y in Route(m, key, sp)["NOME_PACIENTE"] ==>
      y in m["NOME_PACIENTE"] || y == Strip(sp.text)
  {
    match Place(key, sp)
    case None =>
    case Some(p) =>
      ApplyAppends(m, p);
      assert p.target == "NOME_PACIENTE" ==> p.value == Strip(sp.text);
  }

  /** The same over all the spans of one model. */
  lemma {:induction false} RouteAllNames(m: Entities, key: string, sps: seq<Span>)
    requires "NOME_PACIENTE" in m
    ensures forall y :: y in m["NOME_PACIENTE"] ==> y in RouteAll(m, key, sps)["NOME_PACIENTE"]
    ensures key == "NOME_PACIENTE" ==>
      forall sp :: sp in sps ==> Strip(sp.text) in RouteAll(m, key, sps)["NOME_PACIENTE"]
    ensures forall y :: y in RouteAll(m, key, sps)["NOME_PACIENTE"] ==>
      y in m["NOME_PACIENTE"] || exists sp :: sp in sps && Strip(sp.text) == y
    decreases |sps|
  {
    if sps != [] {
      var init := sps[..|sps| - 1];
      var last := sps[|sps| - 1];
      var prev := RouteAll(m, key, init);
      RouteAllNames(m, key, init);
      RouteNames(prev, key, last);
      assert forall sp :: sp in sps ==> sp in init || sp == last;
      forall y | y in RouteAll(m, key, sps)["NOME_PACIENTE"]
        ensures y in m["NOME_PACIENTE"] || exists sp :: sp in sps && Strip(sp.text) == y
      {
        if y != Strip(last.text) && y !in m["NOME_PACIENTE"] {
          var sp :| sp in init && Strip(sp.text) == y;
          assert sp in sps;
        }
      }
    }
  }

  /** One model keeps a valid name it or an earlier model collected, as long as none of
      the model's other span texts and none of the earlier names contains it. */
  lemma {:induction false} ModelStepKeepsName(m: Entities, o: ModelOutput, x: string)
    requires "NOME_PACIENTE" in m
    requires x in m["NOME_PACIENTE"] ||
      (o.key == "NOME_PACIENTE" && exists sp :: sp in o.ents && Strip(sp.text) == x)
    requires ValidarNomePaciente(x)
    requires forall y :: y in m["NOME_PACIENTE"] && y != x ==> !Contains(y, x)
    requires forall sp :: sp in o.ents && Strip(sp.text) != x ==> !Contains(Strip(sp.text), x)
    ensures x in ModelStep(m, o)["NOME_PACIENTE"]
  {
    var names := RouteAll(m, o.key, o.ents)["NOME_PACIENTE"];
    RouteAllNames(m, o.key, o.ents);
    PostProcessKeeps(names, x);
  }

  /** y is the stripped text of a span one of the models found. */
  ghost predicate FoundBy(y: string, outputs: seq<ModelOutput>) {
    exists j, sp :: 0 <= j < |outputs| && sp in outputs[j].ents && Strip(sp.text) == y
  }

  /** A model's final names are earlier names or its own span texts. */
  lemma {:induction false} ModelStepNames(m: Entities, o: ModelOutput)
    requires "NOME_PACIENTE" in m
    ensures forall y :: y in ModelStep(m, o)["NOME_PACIENTE"] ==>
      y in m["NOME_PACIENTE"] || exists sp :: sp in o.ents && Strip(sp.text) == y
  {
    var names := RouteAll(m, o.key, o.ents)["NOME_PACIENTE"];
    RouteAllNames(m, o.key, o.ents);
    PostProcessOrigin(names);
  }

  /** Every final patient name is the stripped text of a span some model found. */
  lemma {:induction false} FuseNamesFromSpans(outputs: seq<ModelOutput>)
    ensures forall y :: y in Fuse(outputs)["NOME_PACIENTE"] ==> FoundBy(y, outputs)
    decreases |outputs|
  {
    if outputs != [] {
      var n := |outputs| - 1;
      var prev := outputs[..n];
      var m := Fuse(prev);
      FuseNamesFromSpans(prev);
      ModelStepNames(m, outputs[n]);
      forall y | y in Fuse(outputs)["NOME_PACIENTE"] ensures FoundBy(y, outputs) {
        if y in m["NOME_PACIENTE"] {
          var j, sp :| 0 <= j < n && sp in prev[j].ents && Strip(sp.text) == y;
          assert outputs[j] == prev[j];
        } else {
          var sp :| sp in outputs[n].ents && Strip(sp.text) == y;
          assert 0 <= n < |outputs|;
        }
      }
    }
  }

  /** What an earlier part of the models found, all of them found. */
  lemma {:induction false} FoundByPrefix(outputs: seq<ModelOutput>, n: nat)
    requires n <= |outputs|
    ensures forall y :: FoundBy(y, outputs[..n]) ==> FoundBy(y, outputs)
    ensures n < |outputs| ==> forall sp :: sp in outputs[n].ents ==> FoundBy(Strip(sp.text), outputs)
  {
    forall y | FoundBy(y, outputs[..n]) ensures FoundBy(y, outputs) {
      var j, sp :| 0 <= j < n && sp in outputs[..n][j].ents && Strip(sp.text) == y;
      assert outputs[..n][j] == outputs[j];
    }
  }

  /** A valid name that the names model found ends up in the final list, provided no
      other text that any model found contains it. */
  lemma {:induction false} FuseKeepsName(outputs: seq<ModelOutput>, i: nat, sp: Span)
    requires i < |outputs| && outputs[i].key == "NOME_PACIENTE" && sp in outputs[i].ents
    requires ValidarNomePaciente(Strip(sp.text))
    requires forall y :: FoundBy(y, outputs) && y != Strip(sp.text) ==> !Contains(y, Strip(sp.text))
    ensures Strip(sp.text) in Fuse(outputs)["NOME_PACIENTE"]
    decreases |outputs|
  {
    var x := Strip(sp.text);
    var n := |outputs| - 1;
    var prev := outputs[..n];
    var m := Fuse(prev);
    var o := outputs[n];
    FuseNamesFromSpans(prev);
    FoundByPrefix(outputs, n);
    if i < n {
      assert prev[i] == outputs[i];
      FuseKeepsName(prev, i, sp);
    } else {
      assert i == n;
    }
    ModelStepKeepsName(m, o, x);
  }

  /** Every entry of the CID list is a code in the sense of `processar_cid`. */
  ghost predicate CidCodes(m: Entities) {
    "CID" in m ==> forall c :: c in m["CID"] ==> CidCode(c)
  }

  /** A model whose spans reach the CID list only through `processar_cid`: one of the
      keyed models, or another model none of whose spans is labelled "CID". */
  predicate CidNormalised(o: ModelOutput) {
    o.key in ["CID", "DATA", "TIPO_DOC", "NOME_PACIENTE", "HORARIOS"]
    || forall sp :: sp in o.ents ==> sp.tag != "CID"
  }

  lemma {:induction false} RouteCidCodes(m: Entities, key: string, sp: Span)
    requires CidCodes(m)
    requires key in ["CID", "DATA", "TIPO_DOC", "NOME_PACIENTE", "HORARIOS"] || sp.tag != "CID"
    ensures CidCodes(Route(m, key, sp))
  {
    match Place(key, sp)
    case None =>
    case Some(p) =>
      ApplyAppends(m, p);
      if p.target == "CID" {
        PlaceCidOnlyFromCid(key, sp);
      }
  }

  /** Only the CID model, or a span labelled "CID", is placed in the CID list. */
  lemma {:induction false} PlaceCidOnlyFromCid(key: string, sp: Span)
    requires Place(key, sp).Some? && Place(key, sp).value.target == "CID"
    ensures key == "CID" || (key !in ["DATA", "TIPO_DOC", "NOME_PACIENTE", "HORARIOS"] && sp.tag == "CID")
  {
    if key != "CID" && key != "DATA" && key != "TIPO_DOC" && key != "NOME_PACIENTE" && key != "HORARIOS" {
      assert Place(key, sp).value.target == sp.tag;
    }
  }

  lemma {:induction false} RouteAllCidCodes(m: Entities, key: string, sps: seq<Span>)
    requires CidCodes(m)
    requires key in ["CID", "DATA", "TIPO_DOC", "NOME_PACIENTE", "HORARIOS"]
      || forall sp :: sp in sps ==> sp.tag != "CID"
    ensures CidCodes(RouteAll(m, key, sps))
    decreases |sps|
  {
    if sps != [] {
      var init := sps[..|sps| - 1];
      assert forall sp :: sp in init ==> sp in sps;
      RouteAllCidCodes(m, key, init);
      assert sps[|sps| - 1] in sps;
      RouteCidCodes(RouteAll(m, key, init), key, sps[|sps| - 1]);
    }
  }

  lemma {:induction false} ModelStepCidCodes(m: Entities, o: ModelOutput)
    requires "NOME_PACIENTE" in m && CidCodes(m) && CidNormalised(o)
    ensures CidCodes(ModelStep(m, o))
  {
    RouteAllCidCodes(m, o.key, o.ents);
  }

  /** The CID list holds only codes as long as every model that can reach it goes
      through `processar_cid`; `OtherModelsByLabel` shows the way around it. */
  lemma {:induction false} FuseCidCodes(outputs: seq<ModelOutput>)
    requires forall o :: o in outputs ==> CidNormalised(o)
    ensures "CID" in Fuse(outputs) && CidCodes(Fuse(outputs))
    decreases |outputs|
  {
    if outputs != [] {
      var prev := outputs[..|outputs| - 1];
      assert forall o' :: o' in prev ==> o' in outputs;
      FuseCidCodes(prev);
      ModelStepCidCodes(Fuse(prev), outputs[|outputs| - 1]);
    }
  }

  /** A TIPO_DOC span that validates is appended even when the same text is already in
      the list: that list has no duplicate guard. */
  lemma {:induction false} TipoDocRepeats(m: Entities, sp: Span)
    requires WellKeyed(m) && ValidarTipoDocumento(Strip(sp.text))
    ensures Route(m, "TIPO_DOC", sp)["TIPO_DOC"] == m["TIPO_DOC"] + [Strip(sp.text)]
  {
  }

  /** Names are collected without validation: the NOME_PACIENTE model's spans are added
      whatever they are, and only the post-processing filters them. */
  lemma {:induction false} NamesCollectedUnvalidated(m: Entities, sp: Span)
    requires WellKeyed(m) && Strip(sp.text) !in m["NOME_PACIENTE"]
    ensures Route(m, "NOME_PACIENTE", sp)["NOME_PACIENTE"] == m["NOME_PACIENTE"] + [Strip(sp.text)]
  {
  }

  /** For the HORARIOS model the label picks the list: both spellings of each label go to
      the canonical list, and any other label is dropped. */
  lemma {:induction false} HorariosAliases(m: Entities, sp: Span)
    requires WellKeyed(m)
    ensures sp.tag in ["HORARIO_INICIO_ATENDIMENTO", "HORARIO_INICIO"] ==>
      Route(m, "HORARIOS", sp) == AppendNew(m, "HORARIO_INICIO_ATENDIMENTO", Strip(sp.text))
    ensures sp.tag in ["HORARIO_FIM_ATENDIMENTO", "HORARIO_FIM"] ==>
      Route(m, "HORARIOS", sp) == AppendNew(m, "HORARIO_FIM_ATENDIMENTO", Strip(sp.text))
    ensures sp.tag !in ["HORARIO_INICIO_ATENDIMENTO", "HORARIO_INICIO", "HORARIO_FIM_ATENDIMENTO", "HORARIO_FIM"] ==>
      Route(m, "HORARIOS", sp) == m
  {
  }

  /** The four normalising models ignore the span's label. */
  lemma {:induction false} RoutedByModelKey(m: Entities, key: string, t: string, l1: string, l2: string)
    requires WellKeyed(m) && key in ["CID", "DATA", "TIPO_DOC", "NOME_PACIENTE"]
    ensures Route(m, key, Span(t, l1)) == Route(m, key, Span(t, l2))
  {
    PlaceIgnoresTag(key, t, l1, l2);
  }

  lemma {:induction false} PlaceIgnoresTag(key: string, t: string, l1: string, l2: string)
    requires key in ["CID", "DATA", "TIPO_DOC", "NOME_PACIENTE"]
    ensures Place(key, Span(t, l1)) == Place(key, Span(t, l2))
  {
    if key == "CID" {
    } else if key == "DATA" {
    } else if key == "TIPO_DOC" {
    } else {
      assert key == "NOME_PACIENTE";
    }
  }

  /** Any other model's span goes, unnormalised, to the list its label names, when that
      is an expected label; a span with a label such as "CID" thus bypasses
      `processar_cid`. */
  lemma {:induction false} OtherModelsByLabel(m: Entities, key: string, sp: Span)
    requires WellKeyed(m) && key !in ["CID", "DATA", "TIPO_DOC", "NOME_PACIENTE", "HORARIOS"]
    ensures sp.tag in Expected ==> Route(m, key, sp) == AppendNew(m, sp.tag, Strip(sp.text))
    ensures sp.tag !in Expected ==> Route(m, key, sp) == m
  {
  }
}
