/** Treinando_horarios.py: `carregar_dados_horarios`, which finds the entities of each
    item, keeps those labelled with one of the two opening-hours labels, and converts the
    dict form `{"start", "end", "label"}` into a triple. */
module TrainHorarios {
  import opened Wrappers
  import opened Json
  import opened Loader

  const Labels: seq<Json> := [JStr("HORARIO_INICIO_ATENDIMENTO"), JStr("HORARIO_FIM_ATENDIMENTO")]

  // ------------------------------------------------ the entities of an annotation

  /** The last element of elems that is a list. */
  function LastList(elems: seq<Json>): (r: Option<nat>)
    ensures r.Some? ==> r.value < |elems| && elems[r.value].JList?
    ensures r.Some? ==> forall k :: r.value < k < |elems| ==> !elems[k].JList?
    ensures r.None? ==> forall k :: 0 <= k < |elems| ==> !elems[k].JList?
  {
    if elems == [] then None
    else if elems[|elems| - 1].JList? then Some(|elems| - 1)
    else LastList(elems[..|elems| - 1])
  }

  /** The lookup of this loader: in a list annotation, the 'entities' of its first dict
      that has them (the scan stops there), else its last element that is a list; in a
      dict, its 'entities'; else []. The source's third branch, for a list annotation,
      can never be reached, since the first branch already takes every list. */
  function HorEntitiesOf(anotacao: Json): Json {
    if anotacao.JList? then
      match FirstEntitiesDict(anotacao.elems)
      case Some(k) => Get(anotacao.elems[k].entries, "entities")
      case None =>
        match LastList(anotacao.elems)
        case Some(k) => anotacao.elems[k]
        case None => JList([])
    else if DictWith(anotacao, "entities") then Get(anotacao.entries, "entities")
    else JList([])
  }

  /** The scan of a list annotation up to i: no dict with 'entities' seen yet, so the
      entities are the last list seen. */
  function ScannedSoFar(elems: seq<Json>): Json {
    match LastList(elems)
    case Some(k) => elems[k]
    case None => JList([])
  }

  method FindHorEntities(anotacao: Json) returns (entities: Json)
    ensures entities == HorEntitiesOf(anotacao)
  {
    entities := JList([]);
    if anotacao.JList? {
      var i := 0;
      while i < |anotacao.elems|
        invariant 0 <= i <= |anotacao.elems|
        invariant forall k :: 0 <= k < i ==> !DictWith(anotacao.elems[k], "entities")
        invariant entities == ScannedSoFar(anotacao.elems[..i])
      {
        var elem := anotacao.elems[i];
        assert anotacao.elems[..i + 1][..i] == anotacao.elems[..i];
        if DictWith(elem, "entities") {
          entities := Get(elem.entries, "entities");
          FirstEntitiesDictIs(anotacao.elems, i);
          return;
        } else if elem.JList? {
          entities := elem;
        }
        i := i + 1;
      }
      assert anotacao.elems[..|anotacao.elems|] == anotacao.elems;
      FirstEntitiesDictNone(anotacao.elems);
    } else if DictWith(anotacao, "entities") {
      entities := Get(anotacao.entries, "entities");
    }
  }

  /** A dict holding 'entities' wins over every list element, wherever those lists are. */
  lemma {:induction false} DictWinsOverLists(elems: seq<Json>, k: nat)
    requires k < |elems| && DictWith(elems[k], "entities")
    requires forall j :: 0 <= j < k ==> !DictWith(elems[j], "entities")
    ensures HorEntitiesOf(JList(elems)) == Get(elems[k].entries, "entities")
  {
    FirstEntitiesDictIs(elems, k);
  }

  /** Without such a dict, the last list element is taken, whatever lists precede it. */
  lemma {:induction false} LastListWins(elems: seq<Json>, k: nat)
    requires forall j :: 0 <= j < |elems| ==> !DictWith(elems[j], "entities")
    requires k < |elems| && elems[k].JList?
    requires forall j :: k < j < |elems| ==> !elems[j].JList?
    ensures HorEntitiesOf(JList(elems)) == elems[k]
  {
    FirstEntitiesDictNone(elems);
  }

  // ------------------------------------------------ the entity filter

  predicate IsDictEntity(ent: Json) {
    ent.JDict? && HasKey(ent.entries, "label") && HasKey(ent.entries, "start") && HasKey(ent.entries, "end")
  }

  /** What one entity contributes: a list of at least three elements whose label is one
      of the two is kept as it is; a dict with label, start and end whose label is one of
      them becomes `[start, end, label]`; anything else is dropped. */
  function Valid(ent: Json): Option<Json> {
    if ent.JList? && |ent.elems| >= 3 then
      if ent.elems[2] in Labels then Some(ent) else None
    else if IsDictEntity(ent) then
      if Get(ent.entries, "label") in Labels then
        Some(JList([Get(ent.entries, "start"), Get(ent.entries, "end"), Get(ent.entries, "label")]))
      else None
    else None
  }

  function ValidEnts(ents: seq<Json>): (r: seq<Json>)
    ensures |r| <= |ents|
  {
    if ents == [] then []
    else
      var init := ValidEnts(ents[..|ents| - 1]);
      match Valid(ents[|ents| - 1])
      case Some(v) => init + [v]
      case None => init
  }

  /** An accepted entity: a list of at least three elements labelled with one of the two
      labels. */
  predicate IsHorarioEntity(ent: Json) {
    ent.JList? && |ent.elems| >= 3 && ent.elems[2] in Labels
  }

  /** Every kept entity is a labelled triple, taken from a list entity of the input or
      converted from a dict entity of the input. */
  lemma {:induction false} ValidEntsSound(ents: seq<Json>)
    ensures forall x :: 0 <= x < |ValidEnts(ents)| ==>
      IsHorarioEntity(ValidEnts(ents)[x])
      && (ValidEnts(ents)[x] in ents
          || exists d :: d in ents && IsDictEntity(d)
               && ValidEnts(ents)[x] == JList([Get(d.entries, "start"), Get(d.entries, "end"), Get(d.entries, "label")]))
    decreases |ents|
  {
    if ents != [] {
      var init := ents[..|ents| - 1];
      var last := ents[|ents| - 1];
      ValidEntsSound(init);
      var acc := ValidEnts(init);
      var r := ValidEnts(ents);
      forall x | 0 <= x < |r|
        ensures IsHorarioEntity(r[x])
          && (r[x] in ents
              || exists d :: d in ents && IsDictEntity(d)
                   && r[x] == JList([Get(d.entries, "start"), Get(d.entries, "end"), Get(d.entries, "label")]))
      {
        if x < |acc| {
          assert r[x] == acc[x];
          assert forall e :: e in init ==> e in ents;
        } else {
          assert r[x] == Valid(last).value;
          if !(last.JList? && |last.elems| >= 3) {
            assert last in ents && IsDictEntity(last);
          }
        }
      }
    }
  }

  /** Every entity of the two accepted forms with an accepted label is kept, in order. */
  lemma {:induction false} ValidEntsComplete(ents: seq<Json>, k: nat)
    requires k < |ents| && Valid(ents[k]).Some?
    ensures Valid(ents[k]).value in ValidEnts(ents)
    decreases |ents|
  {
    var init := ents[..|ents| - 1];
    if k < |ents| - 1 {
      assert init[k] == ents[k];
      ValidEntsComplete(init, k);
    }
  }

  /** Entities that are already labelled triples come out unchanged. */
  lemma {:induction false} ValidEntsKeepsTriples(ents: seq<Json>)
    requires forall x :: 0 <= x < |ents| ==> IsHorarioEntity(ents[x])
    ensures ValidEnts(ents) == ents
    decreases |ents|
  {
    if ents != [] {
      var init := ents[..|ents| - 1];
      assert forall x :: 0 <= x < |init| ==> init[x] == ents[x];
      ValidEntsKeepsTriples(init);
      assert ents == init + [ents[|ents| - 1]];
    }
  }

  /** The entity loop of `carregar_dados_horarios`. */
  method FilterEntities(ents: seq<Json>) returns (entidadesValidas: seq<Json>)
    ensures entidadesValidas == ValidEnts(ents)
  {
    entidadesValidas := [];
    var i := 0;
    while i < |ents|
      invariant 0 <= i <= |ents|
      invariant entidadesValidas == ValidEnts(ents[..i])
    {
      var ent := ents[i];
      assert ents[..i + 1][..i] == ents[..i];
      if ent.JList? && |ent.elems| >= 3 {
        if ent.elems[2] in Labels {
          entidadesValidas := entidadesValidas + [ent];
        }
      } else if IsDictEntity(ent) {
        if Get(ent.entries, "label") in Labels {
          entidadesValidas := entidadesValidas + [JList([Get(ent.entries, "start"), Get(ent.entries, "end"), Get(ent.entries, "label")])];
        }
      }
      i := i + 1;
    }
    assert ents[..|ents|] == ents;
  }

  // ------------------------------------------------ the item loop

  /** One item: skipped unless a list of at least two elements, stored when some entity
      is valid. */
  function HorItem(item: Json, pyStr: Json -> string): (r: Result<Option<(string, seq<Json>)>>)
    ensures !item.JList? || |item.elems| < 2 ==> r == Ok(None)
    ensures r.Ok? && r.value.Some? ==> r.value.value.1 != []
  {
    if !item.JList? || |item.elems| < 2 then Ok(None)
    else match TextOf(item, pyStr)
      case Err(e) => Err(e)
      case Ok(texto) =>
        match Iter(HorEntitiesOf(item.elems[1]))
        case Err(e) => Err(e)
        case Ok(ents) =>
          var validas := ValidEnts(ents);
          if validas == [] then Ok(None) else Ok(Some((texto, validas)))
  }

  function HorItemF(pyStr: Json -> string): Json -> Result<Option<(string, seq<Json>)>> {
    item => HorItem(item, pyStr)
  }

  method CarregarItem(item: Json, pyStr: Json -> string) returns (r: Result<Option<(string, seq<Json>)>>)
    ensures r == HorItem(item, pyStr)
  {
    if !item.JList? || |item.elems| < 2 {
      return Ok(None);
    }
    var t := ExtrairTexto(item, pyStr);
    if t.Err? { return Err(t.error); }
    var anotacao := item.elems[1];
    var entities := FindHorEntities(anotacao);
    var it := Iter(entities);
    if it.Err? { return Err(it.error); }
    var validas := FilterEntities(it.value);
    if validas == [] { return Ok(None); }
    return Ok(Some((t.value, validas)));
  }

  /** `carregar_dados_horarios` over the parsed items. */
  method CarregarDadosHorarios(data: seq<Json>, pyStr: Json -> string) returns (r: Result<seq<(string, seq<Json>)>>)
    ensures r == LoadAll(data, HorItemF(pyStr))
  {
    var treinamentos: seq<(string, seq<Json>)> := [];
    var i := 0;
    while i < |data|
      invariant 0 <= i <= |data|
      invariant LoadAll(data[..i], HorItemF(pyStr)) == Ok(treinamentos)
    {
      assert data[..i + 1][..i] == data[..i];
      var x := CarregarItem(data[i], pyStr);
      if x.Err? {
        LoadAllErrPrefix(data, HorItemF(pyStr), i + 1);
        return Err(x.error);
      }
      if x.value.Some? {
        treinamentos := treinamentos + [x.value.value];
      }
      i := i + 1;
    }
    assert data[..|data|] == data;
    return Ok(treinamentos);
  }

  /** Every stored entity is a labelled triple. */
  lemma {:induction false} HorItemLabelled(item: Json, pyStr: Json -> string)
    requires HorItem(item, pyStr).Ok? && HorItem(item, pyStr).value.Some?
    ensures forall x :: 0 <= x < |HorItem(item, pyStr).value.value.1| ==>
      IsHorarioEntity(HorItem(item, pyStr).value.value.1[x])
  {
    ValidEntsSound(Iter(HorEntitiesOf(item.elems[1])).value);
  }
}
