/** Treinando_NOME_PACIENTE.py: the span filter `is_valid_span`, the integer counts of
    `avaliar`, and the item filter of `carregar_dados`. */
module TrainNome {
  import opened Wrappers
  import opened Chars
  import opened Text
  import opened Json
  import opened Loader

  // ------------------------------------------------ is_valid_span

  /** `proibidos` as the source file spells it: the accented letters of "clínica" and
      "laboratório" are stored as the two-character sequences `√≠` and `√≥`. */
  const Forbidden: seq<string> := [
    "cl\U{221A}\U{2260}nica", "hospital", "laborat\U{221A}\U{2265}rio", "CID", "CRM",
    "atendimento", "consulta"
  ]

  /** The list the authors evidently meant. */
  const ForbiddenIntended: seq<string> := [
    "cl\U{ED}nica", "hospital", "laborat\U{F3}rio", "CID", "CRM", "atendimento", "consulta"
  ]

  predicate HasDigit(s: string) {
    exists k :: 0 <= k < |s| && IsDigit(s[k])
  }

  /** `any(p.lower() in span.lower() for p in terms)` */
  predicate HasTerm(span: string, terms: seq<string>) {
    exists t :: 0 <= t < |terms| && Contains(LowerStr(span), LowerStr(terms[t]))
  }

  /** The three checks of `is_valid_span` on the span text, in order. */
  predicate SpanPasses(span: string, terms: seq<string>) {
    if HasDigit(span) then false
    else if HasTerm(span, terms) then false
    else if |Split(span)| < 2 then false
    else true
  }

  /** `is_valid_span(text, start, end)` */
  predicate IsValidSpan(text: string, start: int, end: int) {
    SpanPasses(PySlice(text, Some(start), Some(end)), Forbidden)
  }

  /** `is_valid_span` with the forbidden terms spelt as intended. */
  predicate IsValidSpanIntended(text: string, start: int, end: int) {
    SpanPasses(PySlice(text, Some(start), Some(end)), ForbiddenIntended)
  }

  /** A span passes exactly when it holds no digit, none of the lower-cased terms occurs
      anywhere in the lower-cased span, and it splits into at least two words. */
  lemma {:induction false} SpanPassesIff(span: string, terms: seq<string>)
    ensures SpanPasses(span, terms) <==>
      (forall k :: 0 <= k < |span| ==> !IsDigit(span[k]))
      && (forall t, p: nat :: 0 <= t < |terms| ==> !OccursAt(LowerStr(span), LowerStr(terms[t]), p))
      && |Split(span)| >= 2
  {
    if !HasTerm(span, terms) {
      forall t, p: nat | 0 <= t < |terms| ensures !OccursAt(LowerStr(span), LowerStr(terms[t]), p) {
        assert !Contains(LowerStr(span), LowerStr(terms[t]));
      }
    }
    if exists t, p: nat :: 0 <= t < |terms| && OccursAt(LowerStr(span), LowerStr(terms[t]), p) {
      var t, p: nat :| 0 <= t < |terms| && OccursAt(LowerStr(span), LowerStr(terms[t]), p);
      assert Contains(LowerStr(span), LowerStr(terms[t]));
    }
  }

  /** A span with a digit is rejected. */
  lemma {:induction false} DigitRejects(text: string, start: int, end: int, k: nat)
    requires k < |PySlice(text, Some(start), Some(end))| && IsDigit(PySlice(text, Some(start), Some(end))[k])
    ensures !IsValidSpan(text, start, end)
  {
  }

  /** A span in which a forbidden term occurs, in any case, is rejected. */
  lemma {:induction false} TermRejects(text: string, start: int, end: int, t: nat, p: nat)
    requires t < |Forbidden|
    requires OccursAt(LowerStr(PySlice(text, Some(start), Some(end))), LowerStr(Forbidden[t]), p)
    ensures !IsValidSpan(text, start, end)
  {
    SpanPassesIff(PySlice(text, Some(start), Some(end)), Forbidden);
  }

  lemma {:induction false} LowerIdempotent(s: string)
    ensures LowerStr(LowerStr(s)) == LowerStr(s)
  {
  }

  lemma {:induction false} RunEndSame(s: string, u: string, k: nat, P: char -> bool)
    requires |s| == |u| && k <= |s|
    requires forall m :: k <= m < |s| ==> P(s[m]) == P(u[m])
    ensures RunEnd(s, k, P) == RunEnd(u, k, P)
    decreases |s| - k
  {
    if k < |s| && P(s[k]) {
      RunEndSame(s, u, k + 1, P);
    }
  }

  /** Lower-casing does not change how many words a string splits into. */
  lemma {:induction false} SplitLowerCount(s: string)
    ensures |Split(LowerStr(s))| == |Split(s)|
  {
    var u := LowerStr(s);
    forall m | 0 <= m < |s| ensures IsSpace(s[m]) == IsSpace(u[m]) {
      LowerKeepsClass(s[m]);
    }
    assert SameSpaces(s, u);
    SplitSameSpaces(s, u);
  }

  predicate SameSpaces(s: string, u: string) {
    |s| == |u| && forall m :: 0 <= m < |s| ==> IsSpace(s[m]) == IsSpace(u[m])
  }

  /** Two strings with white space at the same places split into as many words. */
  lemma {:induction false} SplitSameSpaces(s: string, u: string)
    requires SameSpaces(s, u)
    ensures |Split(u)| == |Split(s)|
    decreases |s|
  {
    var a := RunEnd(s, 0, IsSpace);
    FirstRunsAgree(s, u);
    if a == |s| {
      SplitNil(s);
      SplitNil(u);
    } else {
      var b := RunEnd(s, a, NotSpace);
      SplitCons(s, a, b);
      SplitCons(u, a, b);
      SameSpacesSuffix(s, u, b);
      SplitSameSpaces(s[b..], u[b..]);
    }
  }

  lemma {:induction false} FirstRunsAgree(s: string, u: string)
    requires SameSpaces(s, u)
    ensures RunEnd(s, 0, IsSpace) == RunEnd(u, 0, IsSpace)
    ensures RunEnd(s, 0, IsSpace) < |s| ==>
      RunEnd(s, RunEnd(s, 0, IsSpace), NotSpace) == RunEnd(u, RunEnd(s, 0, IsSpace), NotSpace)
  {
    RunEndSame(s, u, 0, IsSpace);
    var a := RunEnd(s, 0, IsSpace);
    if a < |s| {
      RunEndSame(s, u, a, NotSpace);
    }
  }

  lemma {:induction false} SameSpacesSuffix(s: string, u: string, b: nat)
    requires SameSpaces(s, u) && b <= |s|
    ensures SameSpaces(s[b..], u[b..])
  {
    assert forall m :: 0 <= m < |s| - b ==> s[b..][m] == s[b + m] && u[b..][m] == u[b + m];
  }

  lemma {:induction false} SpanPassesLower(span: string, terms: seq<string>)
    ensures SpanPasses(LowerStr(span), terms) == SpanPasses(span, terms)
  {
    var u := LowerStr(span);
    assert HasDigit(u) == HasDigit(span) by {
      forall k | 0 <= k < |span| ensures IsDigit(u[k]) == IsDigit(span[k]) {
        LowerKeepsClass(span[k]);
      }
    }
    assert HasTerm(u, terms) == HasTerm(span, terms) by {
      LowerIdempotent(span);
    }
    SplitLowerCount(span);
  }

  /** The verdict does not depend on the case of the text. */
  lemma {:induction false} IsValidSpanIgnoresCase(text: string, start: int, end: int)
    ensures IsValidSpan(LowerStr(text), start, end) == IsValidSpan(text, start, end)
  {
    var span := PySlice(text, Some(start), Some(end));
    var ab := SliceBounds(|text|, Some(start), Some(end));
    LowerSlice(text, ab.0, ab.1);
    SpanPassesLower(span, Forbidden);
  }

  /** A string misses the lower-cased form of a character of t, so the lower-cased t
      does not occur in it. */
  lemma {:induction false} MissingChar(s: string, t: string, j: nat, c: char)
    requires j < |t| && Lower(t[j]) == c
    requires forall k :: 0 <= k < |s| ==> s[k] != c
    ensures !Contains(s, LowerStr(t))
  {
    forall p: nat ensures !OccursAt(s, LowerStr(t), p) {
      assert p + j < |s| ==> s[p + j] != LowerStr(t)[j];
    }
  }

  /** As written, the filter lets a clinic's name through: no term of the list can
      occur in a span of Latin-1 text, and the other terms are absent. */
  lemma {:induction false} ClinicAccepted(text: string)
    requires text == "Cl\U{ED}nica Sul"
    ensures IsValidSpan(text, 0, 11)
  {
    var span := PySlice(text, Some(0), Some(11));
    assert span == text;
    assert !HasDigit(span);
    assert forall k :: 0 <= k < |span| ==> Lower(span[k]) in "cl\U{ED}nia su";
    ClinicHasNoTerm(span);
    ClinicHasTwoWords(span);
  }

  /** A span written with the letters of "clínica sul", in any case, holds no term. */
  lemma {:induction false} ClinicHasNoTerm(span: string)
    requires forall k :: 0 <= k < |span| ==> Lower(span[k]) in "cl\U{ED}nia su"
    ensures !HasTerm(span, Forbidden)
  {
    var u := LowerStr(span);
    var letters := "cl\U{ED}nia su";
    assert forall k :: 0 <= k < |u| ==> u[k] in letters;
    // for each term, a position of a character the span lacks
    var missing: seq<(nat, char)> :=
      [(2, '\U{221A}'), (0, 'h'), (7, '\U{221A}'), (2, 'd'), (1, 'r'), (1, 't'), (1, 'o')];
    forall t | 0 <= t < |Forbidden| ensures !Contains(u, LowerStr(Forbidden[t])) {
      MissingChar(u, Forbidden[t], missing[t].0, missing[t].1);
    }
  }

  lemma {:induction false} ClinicHasTwoWords(span: string)
    requires span == "Cl\U{ED}nica Sul"
    ensures |Split(span)| >= 2
  {
    RunEndUnique(span, 0, IsSpace, 0);
    RunEndUnique(span, 0, NotSpace, 7);
    var rest := span[7..];
    assert rest == " Sul";
    RunEndUnique(rest, 0, IsSpace, 1);
    assert Split(span) == [span[0..7]] + Split(rest);
    assert Split(rest) != [];
  }

  /** With the intended spelling the same span is rejected, as is any span in which
      "clínica" occurs in any case. */
  lemma {:induction false} ClinicRejectedIntended(text: string, start: int, end: int, p: nat)
    requires OccursAt(LowerStr(PySlice(text, Some(start), Some(end))), "cl\U{ED}nica", p)
    ensures !IsValidSpanIntended(text, start, end)
  {
    assert LowerStr(ForbiddenIntended[0]) == "cl\U{ED}nica";
    SpanPassesIff(PySlice(text, Some(start), Some(end)), ForbiddenIntended);
  }

  lemma {:induction false} ClinicRejected(text: string)
    requires text == "Cl\U{ED}nica Sul"
    ensures !IsValidSpanIntended(text, 0, 11)
  {
    var span := PySlice(text, Some(0), Some(11));
    assert span == text;
    var u := LowerStr(span);
    assert u[0] == 'c';
    assert forall k :: 1 <= k < 7 ==> u[k] == span[k];
    assert u[0..7] == "cl\U{ED}nica";
    ClinicRejectedIntended(text, 0, 11, 0);
  }

  // ------------------------------------------------ avaliar

  /** How many elements of xs, counted with repetition, occur in ys. */
  function CountIn<T(==)>(xs: seq<T>, ys: seq<T>): (n: nat)
    ensures n <= |xs|
  {
    if xs == [] then 0
    else CountIn(xs[..|xs| - 1], ys) + (if xs[|xs| - 1] in ys then 1 else 0)
  }

  /** How many elements of xs, counted with repetition, do not occur in ys. */
  function CountNotIn<T(==)>(xs: seq<T>, ys: seq<T>): (n: nat)
    ensures n <= |xs|
  {
    if xs == [] then 0
    else CountNotIn(xs[..|xs| - 1], ys) + (if xs[|xs| - 1] in ys then 0 else 1)
  }

  /** The true positives over the documents, each a pair (predicted, gold). */
  function TruePositives<T(==)>(docs: seq<(seq<T>, seq<T>)>): nat {
    if docs == [] then 0
    else TruePositives(docs[..|docs| - 1]) + CountIn(docs[|docs| - 1].0, docs[|docs| - 1].1)
  }

  function FalsePositives<T(==)>(docs: seq<(seq<T>, seq<T>)>): nat {
    if docs == [] then 0
    else FalsePositives(docs[..|docs| - 1]) + CountNotIn(docs[|docs| - 1].0, docs[|docs| - 1].1)
  }

  function FalseNegatives<T(==)>(docs: seq<(seq<T>, seq<T>)>): nat {
    if docs == [] then 0
    else FalseNegatives(docs[..|docs| - 1]) + CountNotIn(docs[|docs| - 1].1, docs[|docs| - 1].0)
  }

  function TotalPredicted<T>(docs: seq<(seq<T>, seq<T>)>): nat {
    if docs == [] then 0 else TotalPredicted(docs[..|docs| - 1]) + |docs[|docs| - 1].0|
  }

  function TotalGold<T>(docs: seq<(seq<T>, seq<T>)>): nat {
    if docs == [] then 0 else TotalGold(docs[..|docs| - 1]) + |docs[|docs| - 1].1|
  }

  /** The counting loops of `avaliar`, over the predicted and gold triples of each
      document. */
  method Avaliar<T(==)>(docs: seq<(seq<T>, seq<T>)>) returns (tp: nat, fp: nat, fn: nat)
    ensures tp == TruePositives(docs) && fp == FalsePositives(docs) && fn == FalseNegatives(docs)
  {
    tp, fp, fn := 0, 0, 0;
    var i := 0;
    while i < |docs|
      invariant 0 <= i <= |docs|
      invariant tp == TruePositives(docs[..i]) && fp == FalsePositives(docs[..i]) && fn == FalseNegatives(docs[..i])
    {
      var predicted := docs[i].0;
      var gold := docs[i].1;
      assert docs[..i + 1][..i] == docs[..i];
      var j := 0;
      while j < |predicted|
        invariant 0 <= j <= |predicted|
        invariant tp == TruePositives(docs[..i]) + CountIn(predicted[..j], gold)
        invariant fp == FalsePositives(docs[..i]) + CountNotIn(predicted[..j], gold)
      {
        assert predicted[..j + 1][..j] == predicted[..j];
        if predicted[j] in gold {
          tp := tp + 1;
        } else {
          fp := fp + 1;
        }
        j := j + 1;
      }
      assert predicted[..|predicted|] == predicted;
      var k := 0;
      while k < |gold|
        invariant 0 <= k <= |gold|
        invariant fn == FalseNegatives(docs[..i]) + CountNotIn(gold[..k], predicted)
      {
        assert gold[..k + 1][..k] == gold[..k];
        if gold[k] !in predicted {
          fn := fn + 1;
        }
        k := k + 1;
      }
      assert gold[..|gold|] == gold;
      i := i + 1;
    }
    assert docs[..|docs|] == docs;
  }

  lemma {:induction false} CountSplit<T>(xs: seq<T>, ys: seq<T>)
    ensures CountIn(xs, ys) + CountNotIn(xs, ys) == |xs|
    decreases |xs|
  {
    if xs != [] {
      CountSplit(xs[..|xs| - 1], ys);
    }
  }

  /** Every prediction is either a true or a false positive. */
  lemma {:induction false} PositivesArePredictions<T>(docs: seq<(seq<T>, seq<T>)>)
    ensures TruePositives(docs) + FalsePositives(docs) == TotalPredicted(docs)
    decreases |docs|
  {
    if docs != [] {
      PositivesArePredictions(docs[..|docs| - 1]);
      CountSplit(docs[|docs| - 1].0, docs[|docs| - 1].1);
    }
  }

  /** No element of xs is missing from ys exactly when the count of missing ones is 0. */
  lemma {:induction false} CountNotInZero<T>(xs: seq<T>, ys: seq<T>)
    ensures CountNotIn(xs, ys) == 0 <==> forall x :: x in xs ==> x in ys
    decreases |xs|
  {
    if xs != [] {
      var init := xs[..|xs| - 1];
      CountNotInZero(init, ys);
      assert xs == init + [xs[|xs| - 1]];
    }
  }

  /** The false negatives are the gold triples missing from the predictions: none at
      all exactly when every document's gold triples were all predicted. */
  lemma {:induction false} FalseNegativesZero<T>(docs: seq<(seq<T>, seq<T>)>)
    ensures FalseNegatives(docs) <= TotalGold(docs)
    ensures FalseNegatives(docs) == 0 <==> forall i :: 0 <= i < |docs| ==> forall x :: x in docs[i].1 ==> x in docs[i].0
    decreases |docs|
  {
    if docs != [] {
      var init := docs[..|docs| - 1];
      FalseNegativesZero(init);
      CountNotInZero(docs[|docs| - 1].1, docs[|docs| - 1].0);
      assert forall i :: 0 <= i < |init| ==> init[i] == docs[i];
    }
  }

  // ------------------------------------------------ carregar_dados

  /** One item: kept as (text, entities) when it is a list of at least two elements whose
      first is a string and second a dict; the entities default to the empty list. */
  function NomeItem(item: Json): (r: Option<(string, Json)>)
    ensures r.Some? <==> item.JList? && |item.elems| >= 2 && item.elems[0].JStr? && item.elems[1].JDict?
    ensures r.Some? ==> r.value.0 == item.elems[0].s
    ensures r.Some? && HasKey(item.elems[1].entries, "entities") ==>
      r.value.1 == Get(item.elems[1].entries, "entities")
    ensures r.Some? && !HasKey(item.elems[1].entries, "entities") ==> r.value.1 == JList([])
  {
    if !item.JList? || |item.elems| < 2 then None
    else
      var texto := item.elems[0];
      var anotacao := item.elems[1];
      if !texto.JStr? || !anotacao.JDict? then None
      else Some((texto.s, if HasKey(anotacao.entries, "entities") then Get(anotacao.entries, "entities") else JList([])))
  }

  function NomeItemF(): Json -> Result<Option<(string, Json)>> {
    item => Ok(NomeItem(item))
  }

  /** `carregar_dados` over the parsed items: it never raises. */
  method CarregarDados(data: seq<Json>) returns (treinamentos: seq<(string, Json)>)
    ensures LoadAll(data, NomeItemF()) == Ok(treinamentos)
  {
    treinamentos := [];
    var i := 0;
    while i < |data|
      invariant 0 <= i <= |data|
      invariant LoadAll(data[..i], NomeItemF()) == Ok(treinamentos)
    {
      assert data[..i + 1][..i] == data[..i];
      var item := data[i];
      if item.JList? && |item.elems| >= 2 {
        var texto := item.elems[0];
        var anotacao := item.elems[1];
        if texto.JStr? && anotacao.JDict? {
          var entities := if HasKey(anotacao.entries, "entities") then Get(anotacao.entries, "entities") else JList([]);
          treinamentos := treinamentos + [(texto.s, entities)];
        }
      }
      i := i + 1;
    }
    assert data[..|data|] == data;
  }

  /** The kept items are, in input order, exactly those that pass the filter. */
  lemma {:induction false} NomeLoadKeeps(data: seq<Json>)
    ensures LoadAll(data, NomeItemF()).Ok?
    ensures LoadAll(data, NomeItemF()).value == Yields(data, NomeItemF())
  {
    LoadAllNoError(data, NomeItemF());
    LoadAllKeeps(data, NomeItemF());
  }
}
