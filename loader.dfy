/** What the six training scripts share when they read their JSON data: `extrair_texto`
    (the same function in Treinando_TEMPO_AFASTAMENTO.py, Treinando_CID.py,
    Treinando_horarios.py, Treinando_Data.py and Treinando_TIPO_DOC.py), the lookup of the
    `entities` list inside an annotation, the annotation triples the annotators emit, and
    the item loop whose first exception ends the load. Python's `str()` of a value that is
    not a string is the parameter `pyStr`. */
module Loader {
  import opened Wrappers
  import opened Text
  import opened Json

  /** An annotation `[start, end, label]` as emitted by the annotators. */
  datatype Annot = Annot(start: nat, stop: nat, tag: string)

  /** The annotation as the JSON list the loaders store. */
  function AnnotJson(a: Annot): (j: Json)
    ensures j.JList? && |j.elems| == 3 && j.elems[2] == JStr(a.tag)
  {
    JList([JInt(a.start), JInt(a.stop), JStr(a.tag)])
  }

  /** A list of annotations as the JSON lists the loaders store, in order. */
  function AnnotsJson(xs: seq<Annot>): (js: seq<Json>)
    ensures |js| == |xs| && forall k :: 0 <= k < |xs| ==> js[k] == AnnotJson(xs[k])
  {
    if xs == [] then [] else AnnotsJson(xs[..|xs| - 1]) + [AnnotJson(xs[|xs| - 1])]
  }

  // ------------------------------------------------ extrair_texto

  /** What the loop of `extrair_texto` appends for one element: the string itself, the
      value under 'text' of a dict that has one (whatever its type), or `str(el)`. */
  function Part(el: Json, pyStr: Json -> string): Json {
    if el.JStr? then el
    else if DictWith(el, "text") then Get(el.entries, "text")
    else JStr(pyStr(el))
  }

  function Parts(els: seq<Json>, pyStr: Json -> string): (ps: seq<Json>)
    ensures |ps| == |els|
    ensures forall k :: 0 <= k < |els| ==> ps[k] == Part(els[k], pyStr)
  {
    if els == [] then [] else Parts(els[..|els| - 1], pyStr) + [Part(els[|els| - 1], pyStr)]
  }

  predicate AllStr(ps: seq<Json>) {
    forall k :: 0 <= k < |ps| ==> ps[k].JStr?
  }

  function Strs(ps: seq<Json>): (r: seq<string>)
    requires AllStr(ps)
    ensures |r| == |ps| && forall k :: 0 <= k < |ps| ==> r[k] == ps[k].s
  {
    if ps == [] then [] else Strs(ps[..|ps| - 1]) + [ps[|ps| - 1].s]
  }

  /** `" ".join(partes)`: a TypeError when a part is not a string. */
  function JoinParts(ps: seq<Json>): (r: Result<string>)
    ensures r.Err? <==> !AllStr(ps)
    ensures r.Err? ==> r.error == TypeError
  {
    if AllStr(ps) then Ok(JoinSpaces(Strs(ps))) else Err(TypeError)
  }

  /** `extrair_texto(item)`: `item[0]` when it is a string, its parts joined by single
      spaces when it is a list, `str(item[0])` otherwise. */
  function TextOf(item: Json, pyStr: Json -> string): (r: Result<string>)
  {
    match Index(item, 0)
    case Err(e) => Err(e)
    case Ok(t) =>
      if t.JStr? then Ok(t.s)
      else if t.JList? then JoinParts(Parts(t.elems, pyStr))
      else Ok(pyStr(t))
  }

  method ExtrairTexto(item: Json, pyStr: Json -> string) returns (r: Result<string>)
    ensures r == TextOf(item, pyStr)
  {
    var first := Index(item, 0);
    if first.Err? {
      return Err(first.error);
    }
    var texto := first.value;
    if texto.JStr? {
      return Ok(texto.s);
    }
    if texto.JList? {
      var partesTexto: seq<Json> := [];
      var i := 0;
      while i < |texto.elems|
        invariant 0 <= i <= |texto.elems|
        invariant partesTexto == Parts(texto.elems[..i], pyStr)
      {
        var elemento := texto.elems[i];
        PartsSnoc(texto.elems, i, pyStr);
        if elemento.JStr? {
          partesTexto := partesTexto + [elemento];
        } else if DictWith(elemento, "text") {
          partesTexto := partesTexto + [Get(elemento.entries, "text")];
        } else {
          partesTexto := partesTexto + [JStr(pyStr(elemento))];
        }
        i := i + 1;
      }
      assert texto.elems[..|texto.elems|] == texto.elems;
      return JoinParts(partesTexto);
    }
    return Ok(pyStr(texto));
  }

  lemma {:induction false} PartsSnoc(els: seq<Json>, i: nat, pyStr: Json -> string)
    requires i < |els|
    ensures Parts(els[..i + 1], pyStr) == Parts(els[..i], pyStr) + [Part(els[i], pyStr)]
  {
    assert els[..i + 1][..i] == els[..i];
  }

  /** A string item text comes back unchanged. */
  lemma {:induction false} TextOfString(item: Json, pyStr: Json -> string)
    requires item.JList? && |item.elems| > 0 && item.elems[0].JStr?
    ensures TextOf(item, pyStr) == Ok(item.elems[0].s)
  {
  }

  /** A list text whose parts are strings, or dicts whose 'text' is a string, is those
      strings joined by single spaces, in order. */
  lemma {:induction false} TextOfParts(item: Json, pyStr: Json -> string)
    requires item.JList? && |item.elems| > 0 && item.elems[0].JList?
    requires forall k :: 0 <= k < |item.elems[0].elems| ==>
      item.elems[0].elems[k].JStr? || (DictWith(item.elems[0].elems[k], "text") && Get(item.elems[0].elems[k].entries, "text").JStr?)
    ensures TextOf(item, pyStr).Ok?
    ensures exists words: seq<string> ::
      |words| == |item.elems[0].elems|
      && TextOf(item, pyStr).value == JoinSpaces(words)
      && forall k :: 0 <= k < |words| ==>
           (item.elems[0].elems[k].JStr? ==> words[k] == item.elems[0].elems[k].s)
  {
    var ps := Parts(item.elems[0].elems, pyStr);
    assert AllStr(ps);
    var words := Strs(ps);
    assert forall k :: 0 <= k < |words| ==>
           (item.elems[0].elems[k].JStr? ==> words[k] == item.elems[0].elems[k].s);
  }

  /** A dict 'text' value that is not a string makes the join raise TypeError. */
  lemma {:induction false} TextOfBadPart(item: Json, pyStr: Json -> string, k: nat)
    requires item.JList? && |item.elems| > 0 && item.elems[0].JList?
    requires k < |item.elems[0].elems| && !item.elems[0].elems[k].JStr?
    requires DictWith(item.elems[0].elems[k], "text") && !Get(item.elems[0].elems[k].entries, "text").JStr?
    ensures TextOf(item, pyStr) == Err(TypeError)
  {
    assert !Parts(item.elems[0].elems, pyStr)[k].JStr?;
  }

  // ------------------------------------------------ the entities of an annotation

  /** The first element of a list annotation that is a dict holding 'entities'. */
  function FirstEntitiesDict(elems: seq<Json>): (r: Option<nat>)
    ensures r.Some? ==> r.value < |elems| && DictWith(elems[r.value], "entities")
    ensures r.Some? ==> forall k :: 0 <= k < r.value ==> !DictWith(elems[k], "entities")
    ensures r.None? ==> forall k :: 0 <= k < |elems| ==> !DictWith(elems[k], "entities")
  {
    if elems == [] then None
    else if DictWith(elems[0], "entities") then Some(0)
    else match FirstEntitiesDict(elems[1..])
      case Some(k) => Some(k + 1)
      case None => None
  }

  /** The lookup of Treinando_TEMPO_AFASTAMENTO.py and Treinando_CID.py: in a list, the
      'entities' of its first dict that has them; in a dict, its 'entities'; else []. */
  function EntitiesOf(anotacao: Json): Json {
    if anotacao.JList? then
      match FirstEntitiesDict(anotacao.elems)
      case Some(k) => Get(anotacao.elems[k].entries, "entities")
      case None => JList([])
    else if DictWith(anotacao, "entities") then Get(anotacao.entries, "entities")
    else JList([])
  }

  method FindEntities(anotacao: Json) returns (entities: Json)
    ensures entities == EntitiesOf(anotacao)
  {
    entities := JList([]);
    if anotacao.JList? {
      var i := 0;
      while i < |anotacao.elems|
        invariant 0 <= i <= |anotacao.elems|
        invariant forall k :: 0 <= k < i ==> !DictWith(anotacao.elems[k], "entities")
        invariant entities == JList([])
      {
        var elem := anotacao.elems[i];
        if DictWith(elem, "entities") {
          entities := Get(elem.entries, "entities");
          FirstEntitiesDictIs(anotacao.elems, i);
          return;
        }
        i := i + 1;
      }
      FirstEntitiesDictNone(anotacao.elems);
    } else if DictWith(anotacao, "entities") {
      entities := Get(anotacao.entries, "entities");
    }
  }

  lemma {:induction false} FirstEntitiesDictIs(elems: seq<Json>, i: nat)
    requires i < |elems| && DictWith(elems[i], "entities")
    requires forall k :: 0 <= k < i ==> !DictWith(elems[k], "entities")
    ensures FirstEntitiesDict(elems) == Some(i)
  {
    if i > 0 {
      FirstEntitiesDictIs(elems[1..], i - 1);
    }
  }

  lemma {:induction false} FirstEntitiesDictNone(elems: seq<Json>)
    requires forall k :: 0 <= k < |elems| ==> !DictWith(elems[k], "entities")
    ensures FirstEntitiesDict(elems) == None
  {
    if elems != [] {
      FirstEntitiesDictNone(elems[1..]);
    }
  }

  // ------------------------------------------------ the item loop

  /** The loop `for item in data` of a loader: each item yields a training pair, is
      skipped, or raises, which ends the load. */
  function LoadAll<T>(items: seq<Json>, f: Json -> Result<Option<T>>): (r: Result<seq<T>>)
    ensures r.Ok? ==> |r.value| <= |items|
  {
    if items == [] then Ok([])
    else match LoadAll(items[..|items| - 1], f)
      case Err(e) => Err(e)
      case Ok(acc) =>
        match f(items[|items| - 1])
        case Err(e) => Err(e)
        case Ok(None) => Ok(acc)
        case Ok(Some(x)) => Ok(acc + [x])
  }

  /** A load that succeeds keeps, in input order, exactly the pairs of the items that
      yield one, and no item raised. */
  lemma {:induction false} LoadAllKeeps<T>(items: seq<Json>, f: Json -> Result<Option<T>>)
    requires LoadAll(items, f).Ok?
    ensures forall k :: 0 <= k < |items| ==> f(items[k]).Ok?
    ensures LoadAll(items, f).value == Yields(items, f)
    decreases |items|
  {
    if items != [] {
      var init := items[..|items| - 1];
      LoadAllKeeps(init, f);
      assert forall k :: 0 <= k < |init| ==> init[k] == items[k];
    }
  }

  /** The pairs the items yield, in order, when none raises. */
  function Yields<T>(items: seq<Json>, f: Json -> Result<Option<T>>): seq<T>
    requires forall k :: 0 <= k < |items| ==> f(items[k]).Ok?
  {
    if items == [] then []
    else
      var init := Yields(items[..|items| - 1], f);
      match f(items[|items| - 1]).value
      case None => init
      case Some(x) => init + [x]
  }

  /** The load raises exactly when some item raises; the first such error is the result. */
  lemma {:induction false} LoadAllRaises<T>(items: seq<Json>, f: Json -> Result<Option<T>>, k: nat)
    requires k < |items| && f(items[k]).Err?
    requires forall j :: 0 <= j < k ==> f(items[j]).Ok?
    ensures LoadAll(items, f) == Err(f(items[k]).error)
    decreases |items|
  {
    if k < |items| - 1 {
      LoadAllRaises(items[..|items| - 1], f, k);
    } else {
      LoadAllNoError(items[..k], f);
    }
  }

  lemma {:induction false} LoadAllNoError<T>(items: seq<Json>, f: Json -> Result<Option<T>>)
    requires forall j :: 0 <= j < |items| ==> f(items[j]).Ok?
    ensures LoadAll(items, f).Ok?
    decreases |items|
  {
    if items != [] {
      LoadAllNoError(items[..|items| - 1], f);
    }
  }

  /** Once an item has raised, the load has raised with that error. */
  lemma {:induction false} LoadAllErrPrefix<T>(items: seq<Json>, f: Json -> Result<Option<T>>, i: nat)
    requires i <= |items| && LoadAll(items[..i], f).Err?
    ensures LoadAll(items, f) == LoadAll(items[..i], f)
    decreases |items| - i
  {
    if i < |items| {
      assert items[..i + 1][..i] == items[..i];
      LoadAllErrPrefix(items, f, i + 1);
    } else {
      assert items[..i] == items;
    }
  }
}
