/** `validar_nome_paciente` (app_OCR.py): a chain of rejections that a patient name must
    pass, checked in the source's order. */
module Names {
  import opened Chars
  import opened Text

  // ------------------------------------------------ word-bounded alternations

  /** One of the words ws, compared case-insensitively, starts at i with a word boundary
      before and after it: `\b(?:w0|w1|...)\b` under IGNORECASE matches at i. The words
      are written in lower case. */
  predicate BoundedWordAt(s: string, i: nat, ws: seq<string>) {
    i <= |s| && WordBoundary(s, i)
    && exists k :: 0 <= k < |ws| && CiLitAt(s, i, ws[k]) && WordBoundary(s, i + |ws[k]|)
  }

  /** `re.search` of the bounded alternation succeeds. */
  predicate HasBoundedWord(s: string, ws: seq<string>) {
    exists i :: 0 <= i <= |s| && BoundedWordAt(s, i, ws)
  }

  /** The professional titles and council abbreviations of the first check. */
  const Titles: seq<string> :=
    ["dr", "dra", "drª", "dr.", "dra.", "crm", "crf", "enf", "fisioter", "nutr"]

  /** `termos_invalidos`, as written: "indicado" appears twice and "CID" is upper case. */
  const InvalidTerms: seq<string> :=
    ["afastamento", "indicado", "necessário", "tratamento", "diagnóstico", "repouso"] +
    ["paciente", "compareceu", "atendimento", "consult", "avaliação", "clínica", "hospital"] +
    ["unidade", "serviço", "período", "dias", "dia", "CID", "crm", "código", "documento"] +
    ["declaro", "consta", "confirmo", "atesto", "realizou", "avaliado", "diagnosticado"] +
    ["recomendado", "indicado", "necessario", "realizado", "acompanhamento", "cuidados"] +
    ["dieta", "protocolo", "fins", "devidos", "fim", "inicio", "manhã", "tarde", "noite"] +
    ["horário", "cpf", "laudo", "atestado", "declaração", "relatório", "receituário"]

  /** The class `[.:;?!@#$%^&*()_+=|<>/\\{}\[\]~-]` */
  const Specials: string := ".:;?!@#$%^&*()_+=|<>/\\{}[]~-"

  const Prepositions: seq<string> := ["de", "do", "da", "dos", "das", "e"]

  const SrTitles: seq<string> := ["sr", "sra", "srta", "sr.", "sra.", "srta."]

  /** `partes_invalidas` */
  const InvalidParts: seq<string> :=
    ["cidade", "estado", "país", "rua", "avenida", "bairro", "nº", "número"]

  /** `any(t in nome.lower() for t in ts)` */
  predicate ContainsAnyLower(s: string, ts: seq<string>) {
    exists k :: 0 <= k < |ts| && Contains(LowerStr(s), ts[k])
  }

  predicate HasDigit(s: string) {
    exists k :: 0 <= k < |s| && IsDigit(s[k])
  }

  predicate HasSpecial(s: string) {
    exists k :: 0 <= k < |s| && s[k] in Specials
  }

  /** `validar_nome_paciente`: false at the first check that fails, true when all pass. */
  predicate ValidarNomePaciente(s: string) {
    if HasBoundedWord(s, Titles) then false
    else if ContainsAnyLower(s, InvalidTerms) then false
    else if HasDigit(s) then false
    else if HasSpecial(s) then false
    else if HasBoundedWord(s, Prepositions) then false
    else if HasBoundedWord(s, SrTitles) then false
    else
      var parts := Split(s);
      if |parts| < 2 then false
      else if ContainsAnyLower(s, InvalidParts) then false
      else if exists x :: 0 <= x < |parts| && |parts[x]| < 2 then false
      else forall x :: 0 <= x < |parts| && |parts[x]| > 1 ==> IsUpper(parts[x][0])
  }

  /** An accepted name holds no digit, no special character and no stand-alone
      preposition; it has at least two words, and every word (every maximal run of
      characters that are not white space) is at least two characters long and starts
      with an upper-case letter. */
  lemma {:induction false} ValidNameShape(s: string)
    requires ValidarNomePaciente(s)
    ensures forall k :: 0 <= k < |s| ==> !IsDigit(s[k]) && s[k] !in Specials
    ensures forall i :: 0 <= i <= |s| ==> !BoundedWordAt(s, i, Prepositions)
    ensures |Split(s)| >= 2
    ensures forall a: nat, b: nat :: IsRun(s, a, b) ==> b - a >= 2 && IsUpper(s[a])
  {
    RunsAreSplitWords(s);
    forall a: nat, b: nat | IsRun(s, a, b) ensures b - a >= 2 && IsUpper(s[a]) {
      var x :| 0 <= x < |Split(s)| && Split(s)[x] == s[a..b];
      assert s[a..b][0] == s[a];
    }
  }

  // ------------------------------------------------ an accepted name

  /** The characters of "maria silva santos": the lower-cased example name below. */
  predicate ExampleLetter(c: char) {
    c == 'm' || c == 'a' || c == 'r' || c == 'i' || c == 's' || c == 'l'
    || c == 'v' || c == 'n' || c == 't' || c == 'o' || c == ' '
  }

  /** Some character of t at or after i is not one of those letters. */
  predicate LeavesExample(t: string, i: nat)
    decreases |t| - i
  {
    i < |t| && (!ExampleLetter(t[i]) || LeavesExample(t, i + 1))
  }

  lemma {:induction false} LeavesExampleAt(t: string, i: nat)
    requires LeavesExample(t, i)
    ensures exists j :: i <= j < |t| && !ExampleLetter(t[j])
    decreases |t| - i
  {
    if ExampleLetter(t[i]) {
      LeavesExampleAt(t, i + 1);
    }
  }

  /** A word with a character outside a text's letters does not occur in it. */
  lemma {:induction false} LeavesExampleAbsent(s: string, t: string)
    requires forall k :: 0 <= k < |s| ==> ExampleLetter(Lower(s[k]))
    requires LeavesExample(t, 0)
    ensures !Contains(LowerStr(s), t)
  {
    LeavesExampleAt(t, 0);
    var j :| 0 <= j < |t| && !ExampleLetter(t[j]);
    forall p: nat ensures !OccursAt(LowerStr(s), t, p) {
      if p + |t| <= |s| {
        assert LowerStr(s)[p..p + |t|][j] == Lower(s[p + j]);
      }
    }
  }

  /** ... nor, case-insensitively, at a word boundary. */
  lemma {:induction false} LeavesExampleUnbounded(s: string, ws: seq<string>)
    requires forall k :: 0 <= k < |s| ==> ExampleLetter(Lower(s[k]))
    requires forall k :: 0 <= k < |ws| ==> LeavesExample(ws[k], 0)
    ensures !HasBoundedWord(s, ws)
  {
    if HasBoundedWord(s, ws) {
      var i :| 0 <= i <= |s| && BoundedWordAt(s, i, ws);
      var k :| 0 <= k < |ws| && CiLitAt(s, i, ws[k]) && WordBoundary(s, i + |ws[k]|);
      CiLitAtChars(s, i, ws[k]);
      LeavesExampleAt(ws[k], 0);
    }
  }

  /** The terms of the first three source lines of `termos_invalidos` ... */
  lemma {:induction false} TermsLeaveExampleHead()
    ensures forall k :: 0 <= k < 22 ==> LeavesExample(InvalidTerms[k], 0)
  {
  }

  /** ... of the next two ... */
  lemma {:induction false} TermsLeaveExampleMiddle()
    ensures forall k :: 22 <= k < 35 ==> LeavesExample(InvalidTerms[k], 0)
  {
  }

  /** ... and of the last two. */
  lemma {:induction false} TermsLeaveExampleTail()
    ensures forall k :: 35 <= k < |InvalidTerms| ==> LeavesExample(InvalidTerms[k], 0)
  {
  }

  /** The example name is made of those letters, upper or lower case. */
  lemma {:induction false} ExampleLetters(s: string)
    requires s == "Maria Silva Santos"
    ensures forall k :: 0 <= k < |s| ==> ExampleLetter(Lower(s[k]))
  {
  }

  /** So it holds no digit and no special character. */
  lemma {:induction false} ExampleLetterPlain(c: char)
    requires ExampleLetter(Lower(c))
    ensures !IsDigit(c) && c !in Specials
  {
  }

  /** No invalid term occurs in the example name. */
  lemma {:induction false} ExampleHasNoTerm(s: string)
    requires forall k :: 0 <= k < |s| ==> ExampleLetter(Lower(s[k]))
    ensures !ContainsAnyLower(s, InvalidTerms)
  {
    TermsLeaveExampleHead();
    TermsLeaveExampleMiddle();
    TermsLeaveExampleTail();
    forall k | 0 <= k < |InvalidTerms| ensures !Contains(LowerStr(s), InvalidTerms[k]) {
      LeavesExampleAbsent(s, InvalidTerms[k]);
    }
  }

  /** Every title and every preposition holds a character the name lacks ... */
  lemma {:induction false} ExampleHasNoTitle(s: string)
    requires forall k :: 0 <= k < |s| ==> ExampleLetter(Lower(s[k]))
    ensures !HasBoundedWord(s, Titles) && !HasBoundedWord(s, Prepositions)
  {
    assert forall k :: 0 <= k < |Titles| ==> LeavesExample(Titles[k], 0);
    assert forall k :: 0 <= k < |Prepositions| ==> LeavesExample(Prepositions[k], 0);
    LeavesExampleUnbounded(s, Titles);
    LeavesExampleUnbounded(s, Prepositions);
  }

  /** ... and so does every invalid part ... */
  lemma {:induction false} ExampleHasNoPart(s: string)
    requires forall k :: 0 <= k < |s| ==> ExampleLetter(Lower(s[k]))
    ensures !ContainsAnyLower(s, InvalidParts)
  {
    assert forall k :: 0 <= k < |InvalidParts| ==> LeavesExample(InvalidParts[k], 0);
    forall k | 0 <= k < |InvalidParts| ensures !Contains(LowerStr(s), InvalidParts[k]) {
      LeavesExampleAbsent(s, InvalidParts[k]);
    }
  }

  /** ... while "sr", "sra" and "srta" do not, but no "s" of the name is followed by an
      "r". */
  lemma {:induction false} ExampleHasNoSr(s: string)
    requires s == "Maria Silva Santos"
    ensures !HasBoundedWord(s, SrTitles)
  {
    assert forall k :: 0 <= k < |SrTitles| ==> SrTitles[k][..2] == "sr";
    forall i | 0 <= i <= |s| ensures !BoundedWordAt(s, i, SrTitles) {
      if i + 1 < |s| {
        assert Lower(s[i]) != 's' || Lower(s[i + 1]) != 'r';
      }
      forall k | 0 <= k < |SrTitles| ensures !CiLitAt(s, i, SrTitles[k]) {
        if i + |SrTitles[k]| <= |s| {
          SrPrefix(s, i, SrTitles[k]);
        }
      }
    }
  }

  /** A case-insensitive match of a word starting "sr" puts an "s" and an "r" in s. */
  lemma {:induction false} SrPrefix(s: string, i: nat, w: string)
    requires |w| >= 2 && w[..2] == "sr"
    ensures CiLitAt(s, i, w) ==> Lower(s[i]) == 's' && Lower(s[i + 1]) == 'r'
  {
    if CiLitAt(s, i, w) {
      CiLitAtChars(s, i, w);
      assert w[0] == 's' && w[1] == 'r';
    }
  }

  /** The only white space of the example name is at 5 and 11, and each word starts
      upper case and is longer than one character. */
  lemma {:induction false} ExampleRuns(s: string)
    requires s == "Maria Silva Santos"
    ensures forall a: nat, b: nat :: IsRun(s, a, b) ==> b - a >= 2 && IsUpper(s[a])
    ensures IsRun(s, 0, 5) && IsRun(s, 6, 11)
  {
    assert forall k :: 0 <= k < |s| ==> (IsSpace(s[k]) <==> k == 5 || k == 11);
    forall a: nat, b: nat | IsRun(s, a, b) ensures b - a >= 2 && IsUpper(s[a]) {
      assert a == 0 || IsSpace(s[a - 1]);
      assert a == 0 || a == 6 || a == 12;
      assert NotSpace(s[a + 1]);
    }
  }

  /** So `split()` gives at least two words, each long enough and capitalised. */
  lemma {:induction false} ExampleWords(s: string)
    requires s == "Maria Silva Santos"
    ensures |Split(s)| >= 2
    ensures forall x :: 0 <= x < |Split(s)| ==> |Split(s)[x]| >= 2 && IsUpper(Split(s)[x][0])
  {
    var parts := Split(s);
    ExampleRuns(s);
    RunsAreSplitWords(s);
    assert s[0..5] in parts && s[6..11] in parts && s[0..5][0] != s[6..11][0];
    forall x | 0 <= x < |parts| ensures |parts[x]| >= 2 && IsUpper(parts[x][0]) {
      SplitWordsAreRuns(s, x);
      var a: nat, b: nat :| IsRun(s, a, b) && parts[x] == s[a..b];
      assert parts[x][0] == s[a];
    }
  }

  /** A plain three-word name passes every check. */
  lemma {:induction false} FullNameAccepted(s: string)
    requires s == "Maria Silva Santos"
    ensures ValidarNomePaciente(s)
  {
    ExampleLetters(s);
    forall k | 0 <= k < |s| ensures !IsDigit(s[k]) && s[k] !in Specials {
      ExampleLetterPlain(s[k]);
    }
    ExampleHasNoTitle(s);
    ExampleHasNoTerm(s);
    ExampleHasNoSr(s);
    ExampleHasNoPart(s);
    ExampleWords(s);
  }

  /** A name with a stand-alone preposition is rejected, whatever its case: the patient
      name of the first example text of app_OCR.py is one. */
  lemma {:induction false} NameWithPrepositionRejected()
    ensures !ValidarNomePaciente("FLAVIO AUGUSTO BERNASKI DA SILVA")
  {
    var s := "FLAVIO AUGUSTO BERNASKI DA SILVA";
    assert CiLitAt(s, 24, Prepositions[2]);
    assert BoundedWordAt(s, 24, Prepositions);
  }

  /** The terms are searched for as substrings, so a name that merely contains one is
      rejected: "dia" occurs in CLAUDIA. */
  lemma {:induction false} NameWithTermInsideRejected(s: string)
    requires s == "CLAUDIA SOUZA"
    ensures !ValidarNomePaciente(s)
  {
    var t := LowerStr(s);
    assert t[4] == 'd' && t[5] == 'i' && t[6] == 'a';
    assert t[4..7] == "dia";
    assert OccursAt(t, InvalidTerms[17], 4);
    assert ContainsAnyLower(s, InvalidTerms);
    TermRejects(s);
  }

  lemma {:induction false} TermRejects(s: string)
    requires ContainsAnyLower(s, InvalidTerms)
    ensures !ValidarNomePaciente(s)
  {
  }

  /** The term "CID" of the list can never match: it is searched for in the lower-cased
      name, which holds no upper-case letter. */
  lemma {:induction false} CidTermIsDead(s: string)
    ensures InvalidTerms[18] == "CID"
    ensures !Contains(LowerStr(s), InvalidTerms[18])
  {
    LowerStrNoUpper(s, "CID", 0);
  }
}
