/** The field normalisers of app_OCR.py: `limpar_data`, `processar_cid` and
    `validar_tipo_documento`. Each is a pure function of the span text. */
module Normalizers {
  import opened Wrappers
  import opened Chars
  import opened Text
  import opened Scan
  import opened Dates
  import opened DocPhrases

  // ================================================ limpar_data

  /** The pattern of `limpar_data` and its fallback, as matchers for the scanner. */
  function AppDateMatcher(): Matcher {
    (s: string, i: nat) => AppDateAt(s, i)
  }

  function MixedDateMatcher(): Matcher {
    (s: string, i: nat) => MixedNumDateAt(s, i)
  }

  /** `limpar_data`: the first match of `findall`, or else the fallback `search`, or None. */
  function LimparData(s: string): (r: Option<string>)
    ensures r.Some? ==> r.value != [] && Contains(s, r.value)
  {
    var found := FindIter(AppDateMatcher(), s, 0);
    if found != [] then
      ContainsSlice(s, found[0].0, found[0].1);
      Some(s[found[0].0..found[0].1])
    else
      match Search(MixedDateMatcher(), s, 0)
      case Some((a, b)) =>
        ContainsSlice(s, a, b);
        Some(s[a..b])
      case None => None
  }

  /** [i, j) is the leftmost match of the `limpar_data` alternation. */
  ghost predicate LeftmostAppDate(s: string, i: nat, j: nat) {
    AppDate(s, i, j) && forall p: nat :: p < i ==> NoAppDateAt(s, p)
  }

  /** The alternation matches nowhere at p. */
  ghost predicate NoAppDateAt(s: string, p: nat) {
    forall j: nat :: !AppDate(s, p, j)
  }

  ghost predicate NoAppDate(s: string) {
    forall p: nat :: NoAppDateAt(s, p)
  }

  /** [i, j) is the leftmost match of the mixed-separator fallback. */
  ghost predicate LeftmostMixedDate(s: string, i: nat, j: nat) {
    MixedNumDate(s, i, j) && forall p: nat :: p < i ==> NoNumDate(s, p, "/-.", "/-.")
  }

  ghost predicate NoMixedDate(s: string) {
    forall p: nat :: NoNumDate(s, p, "/-.", "/-.")
  }

  /** Where the alternation's matcher fails, no alternative matches. */
  lemma {:induction false} AppMatcherNone(s: string, p: nat)
    requires MatchAt(AppDateMatcher(), s, p).None?
    ensures NoAppDateAt(s, p)
  {
    forall j: nat ensures !AppDate(s, p, j) {
      AppDateAtIff(s, p, j);
    }
  }

  lemma {:induction false} MixedMatcherNone(s: string, p: nat)
    requires MatchAt(MixedDateMatcher(), s, p).None?
    ensures NoNumDate(s, p, "/-.", "/-.")
  {
    MixedNumDateAtNone(s, p);
  }

  /** The leftmost match the scanner finds is the leftmost match of the language. */
  lemma {:induction false} AppSearchLeftmost(s: string)
    ensures Search(AppDateMatcher(), s, 0).Some? ==>
      var (i, j) := Search(AppDateMatcher(), s, 0).value; LeftmostAppDate(s, i, j)
    ensures Search(AppDateMatcher(), s, 0).None? ==> NoAppDate(s)
    ensures Search(AppDateMatcher(), s, 0).Some? ==> !NoAppDate(s)
  {
    var r := Search(AppDateMatcher(), s, 0);
    if r.Some? {
      var (i, j) := r.value;
      AppDateAtIff(s, i, j);
      assert !NoAppDateAt(s, i);
      forall p: nat | p < i ensures NoAppDateAt(s, p) {
        AppMatcherNone(s, p);
      }
    } else {
      forall p: nat ensures NoAppDateAt(s, p) {
        AppMatcherNone(s, p);
      }
    }
  }

  lemma {:induction false} MixedSearchLeftmost(s: string)
    ensures Search(MixedDateMatcher(), s, 0).Some? ==>
      var (i, j) := Search(MixedDateMatcher(), s, 0).value; LeftmostMixedDate(s, i, j)
    ensures Search(MixedDateMatcher(), s, 0).None? ==> NoMixedDate(s)
  {
    var r := Search(MixedDateMatcher(), s, 0);
    if r.Some? {
      var (i, j) := r.value;
      MixedNumDateAtIff(s, i, j);
      forall p: nat | p < i ensures NoNumDate(s, p, "/-.", "/-.") {
        MixedMatcherNone(s, p);
      }
    } else {
      forall p: nat ensures NoNumDate(s, p, "/-.", "/-.") {
        MixedMatcherNone(s, p);
      }
    }
  }

  /** `limpar_data` in terms of the two leftmost searches. */
  lemma {:induction false} LimparDataBySearch(s: string)
    ensures Search(AppDateMatcher(), s, 0).Some? ==>
      var (i, j) := Search(AppDateMatcher(), s, 0).value; LimparData(s) == Some(s[i..j])
    ensures Search(AppDateMatcher(), s, 0).None? && Search(MixedDateMatcher(), s, 0).Some? ==>
      var (i, j) := Search(MixedDateMatcher(), s, 0).value; LimparData(s) == Some(s[i..j])
    ensures Search(AppDateMatcher(), s, 0).None? && Search(MixedDateMatcher(), s, 0).None? ==>
      LimparData(s).None?
  {
  }

  /** The date `limpar_data` returns is the text of the leftmost match of its pattern,
      or, when the pattern matches nowhere, of the leftmost mixed-separator date. */
  lemma {:induction false} LimparDataSome(s: string)
    ensures LimparData(s).Some? ==>
      exists i: nat, j: nat :: i < j <= |s| && LimparData(s).value == s[i..j]
        && (LeftmostAppDate(s, i, j) || (NoAppDate(s) && LeftmostMixedDate(s, i, j)))
  {
    AppSearchLeftmost(s);
    MixedSearchLeftmost(s);
    LimparDataBySearch(s);
    if Search(AppDateMatcher(), s, 0).Some? {
      var (i, j) := Search(AppDateMatcher(), s, 0).value;
      assert LeftmostAppDate(s, i, j);
    } else if Search(MixedDateMatcher(), s, 0).Some? {
      var (i, j) := Search(MixedDateMatcher(), s, 0).value;
      assert LeftmostMixedDate(s, i, j);
    }
  }

  /** It returns None exactly when neither pattern matches anywhere. */
  lemma {:induction false} LimparDataNone(s: string)
    ensures LimparData(s).None? <==> NoAppDate(s) && NoMixedDate(s)
  {
    AppSearchLeftmost(s);
    MixedSearchLeftmost(s);
    LimparDataBySearch(s);
    if Search(AppDateMatcher(), s, 0).Some? {
      var (i, j) := Search(AppDateMatcher(), s, 0).value;
      assert !NoAppDateAt(s, i);
    } else if Search(MixedDateMatcher(), s, 0).Some? {
      var (i, j) := Search(MixedDateMatcher(), s, 0).value;
      assert !NoNumDate(s, i, "/-.", "/-.");
    }
  }

  /** The leftmost match of the language is the one returned. */
  lemma {:induction false} LimparDataLeftmost(s: string, i: nat, j: nat)
    requires i <= j <= |s|
    ensures LeftmostAppDate(s, i, j) ==> LimparData(s) == Some(s[i..j])
    ensures NoAppDate(s) && LeftmostMixedDate(s, i, j) ==> LimparData(s) == Some(s[i..j])
  {
    if LeftmostAppDate(s, i, j) {
      LeftmostAppReturned(s, i, j);
    }
    if NoAppDate(s) && LeftmostMixedDate(s, i, j) {
      LeftmostMixedReturned(s, i, j);
    }
  }

  /** Two-digit years are accepted: a whole text of the form dd/mm/yy comes back whole. */
  lemma {:induction false} TwoDigitYearAccepted(s: string)
    requires |s| == 8 && s[2] == '/' && s[5] == '/'
    requires forall k :: 0 <= k < 8 && k != 2 && k != 5 ==> IsDigit(s[k])
    ensures LimparData(s) == Some(s)
  {
    assert NumDateSplit(s, 0, 2, 5, 8, "/", "/");
    assert AppDate(s, 0, 8);
    assert LeftmostAppDate(s, 0, 8);
    LeftmostAppReturned(s, 0, 8);
    assert s[0..8] == s;
  }

  lemma {:induction false} LeftmostAppReturned(s: string, i: nat, j: nat)
    requires LeftmostAppDate(s, i, j)
    ensures LimparData(s) == Some(s[i..j])
  {
    AppSearchLeftmost(s);
    LimparDataBySearch(s);
    assert !NoAppDateAt(s, i);
    var (a, b) := Search(AppDateMatcher(), s, 0).value;
    LeftmostAppUnique(s, i, j, a, b);
  }

  /** The leftmost match of the alternation is unique. */
  lemma {:induction false} LeftmostAppUnique(s: string, i: nat, j: nat, a: nat, b: nat)
    requires LeftmostAppDate(s, i, j) && LeftmostAppDate(s, a, b)
    ensures i == a && j == b
  {
    assert !NoAppDateAt(s, i);
    assert !NoAppDateAt(s, a);
    AppDateAtIff(s, a, b);
    AppDateAtIff(s, i, j);
  }

  lemma {:induction false} LeftmostMixedReturned(s: string, i: nat, j: nat)
    requires NoAppDate(s) && LeftmostMixedDate(s, i, j)
    ensures LimparData(s) == Some(s[i..j])
  {
    AppSearchLeftmost(s);
    MixedSearchLeftmost(s);
    LimparDataBySearch(s);
    assert !NoNumDate(s, i, "/-.", "/-.");
    var (a, b) := Search(MixedDateMatcher(), s, 0).value;
    assert !NoNumDate(s, a, "/-.", "/-.");
    MixedNumDateAtIff(s, a, b);
    MixedNumDateAtIff(s, i, j);
  }

  // ================================================ processar_cid

  /** End of the marker `^(CID[:\-]?\s*|\(|\))` that `re.sub` removes under IGNORECASE,
      or 0 when there is none. The anchor admits at most one removal. */
  function MarkerEnd(s: string): (m: nat)
    ensures m <= |s|
  {
    if CiLitAt(s, 0, "cid") then
      var c := if 3 < |s| && s[3] in ":-" then 4 else 3;
      RunEnd(s, c, IsSpace)
    else if 0 < |s| && s[0] in "()" then 1
    else 0
  }

  /** The marker the regex removes ends at m: `CID` with its optional separator and all
      the white space after it, else one bracket, else nothing. */
  ghost predicate Marker(s: string, m: nat) {
    if CiLitAt(s, 0, "cid") then
      var c: nat := if 3 < |s| && s[3] in ":-" then 4 else 3;
      c <= m <= |s| && (forall k :: c <= k < m ==> IsSpace(s[k])) && (m == |s| || !IsSpace(s[m]))
    else if 0 < |s| && s[0] in "()" then m == 1
    else m == 0
  }

  lemma {:induction false} MarkerEndIff(s: string, m: nat)
    ensures MarkerEnd(s) == m <==> Marker(s, m)
  {
    if CiLitAt(s, 0, "cid") {
      CiLitAtChars(s, 0, "cid");
      var c: nat := if 3 < |s| && s[3] in ":-" then 4 else 3;
      if Marker(s, m) {
        RunEndUnique(s, c, IsSpace, m);
      }
    }
  }

  ghost predicate AllDigits(t: string, x: nat, y: nat) {
    x <= y <= |t| && forall k :: x <= k < y ==> IsDigit(t[k])
  }

  /** The language of `^[A-Z]\d+(\.\d+)?$`: the digits of the code end at a and the
      whole match at e. */
  ghost predicate CidCode(t: string) {
    exists a: nat, e: nat :: 1 < a <= e <= |t| && DollarAt(t, e) && IsAsciiUpper(t[0]) && AllDigits(t, 1, a)
      && (a == e || (t[a] == '.' && a + 1 < e && AllDigits(t, a + 1, e)))
  }

  /** The compiled pattern: each greedy digit run is followed by a non-digit, so the
      maximal runs decide it. */
  function MatchCidCode(t: string): bool {
    if |t| < 2 || !IsAsciiUpper(t[0]) then false
    else
      var a := RunEnd(t, 1, IsDigit);
      if a == 1 then false
      else if DollarAt(t, a) then true
      else if t[a] != '.' then false
      else
        var e := RunEnd(t, a + 1, IsDigit);
        e > a + 1 && DollarAt(t, e)
  }

  lemma {:induction false} MatchCidCodeIff(t: string)
    ensures MatchCidCode(t) <==> CidCode(t)
  {
    if MatchCidCode(t) {
      var a := RunEnd(t, 1, IsDigit);
      if DollarAt(t, a) {
        assert 1 < a <= a <= |t| && DollarAt(t, a) && IsAsciiUpper(t[0]) && AllDigits(t, 1, a);
      } else {
        var e := RunEnd(t, a + 1, IsDigit);
        assert AllDigits(t, a + 1, e);
      }
    }
    if CidCode(t) {
      var a: nat, e: nat :| 1 < a <= e <= |t| && DollarAt(t, e) && IsAsciiUpper(t[0]) && AllDigits(t, 1, a)
        && (a == e || (t[a] == '.' && a + 1 < e && AllDigits(t, a + 1, e)));
      RunEndUnique(t, 1, IsDigit, a);
      if a < e {
        RunEndUnique(t, a + 1, IsDigit, e);
      }
    }
  }

  /** `processar_cid` */
  function ProcessarCid(s: string): (r: Option<string>)
    ensures r.Some? ==> |r.value| >= 2 && IsAsciiUpper(r.value[0])
    ensures r.Some? ==> CidCode(r.value)
  {
    var t := Strip(s[MarkerEnd(s)..]);
    MatchCidCodeIff(t);
    if MatchCidCode(t) then Some(t) else None
  }

  /** The code returned is the trimmed rest after the marker, exactly when that rest is
      a whole code. */
  lemma {:induction false} ProcessarCidSpec(s: string, t: string)
    ensures ProcessarCid(s) == Some(t) <==>
      exists m: nat :: Marker(s, m) && t == Strip(s[m..]) && CidCode(t)
  {
    MarkerEndIff(s, MarkerEnd(s));
    MatchCidCodeIff(Strip(s[MarkerEnd(s)..]));
    if exists m: nat :: Marker(s, m) && t == Strip(s[m..]) && CidCode(t) {
      var m: nat :| Marker(s, m) && t == Strip(s[m..]) && CidCode(t);
      MarkerEndIff(s, m);
    }
  }

  /** Only "CID" with one optional separator is removed: after "CID-" the rest starts
      with the "10" of "CID-10", so the code is rejected. */
  lemma {:induction false} CidTenMarkerRejected(s: string)
    requires s == "CID-10: M54.5"
    ensures ProcessarCid(s) == None
  {
    assert CiLitAt(s, 0, "cid");
    assert MarkerEnd(s) == 4;
    var rest := s[4..];
    assert rest[0] == '1' && rest[|rest| - 1] == '5';
    StripNoEdges(rest);
  }

  /** A code carries no marker of its own: it starts with a letter and then a digit. */
  lemma {:induction false} CodeHasNoMarker(t: string)
    requires MatchCidCode(t)
    ensures MarkerEnd(t) == 0
  {
    if CiLitAt(t, 0, "cid") {
      CiLitAtChars(t, 0, "cid");
      assert false;
    }
  }

  /** Cleaning a cleaned code gives it back. */
  lemma {:induction false} ProcessarCidIdempotent(s: string)
    requires ProcessarCid(s).Some?
    ensures ProcessarCid(ProcessarCid(s).value) == ProcessarCid(s)
  {
    var t := ProcessarCid(s).value;
    assert MatchCidCode(t);
    CodeHasNoMarker(t);
    assert t[0..] == t;
    StripNoEdges(t);
  }

  /** The result is a piece of the input. */
  lemma {:induction false} ProcessarCidInside(s: string)
    requires ProcessarCid(s).Some?
    ensures Contains(s, ProcessarCid(s).value)
  {
    StripInside(s, MarkerEnd(s));
  }

  // ================================================ validar_tipo_documento

  /** The trimmed rest of s after m is a piece of s. */
  lemma {:induction false} StripInside(s: string, m: nat)
    requires m <= |s|
    ensures Contains(s, Strip(s[m..]))
  {
    var ab := StripBounds(s[m..]);
    assert s[m..][ab.0..ab.1] == s[m + ab.0..m + ab.1];
    ContainsSlice(s, m + ab.0, m + ab.1);
  }

  /** `validar_tipo_documento` */
  function ValidarTipoDocumento(s: string): (r: bool)
    ensures r ==> Strip(s) != []
  {
    FullMatchAny(Strip(s), AppDocPhrases)
  }

  /** It accepts exactly the texts whose trimmed form is, from start to end, one of
      the phrases: a phrase followed by anything else is rejected. */
  lemma {:induction false} ValidarTipoDocumentoIff(s: string)
    ensures ValidarTipoDocumento(s) <==>
      exists k: nat :: k < |AppDocPhrases| && PhraseMatch(Strip(s), 0, |Strip(s)|, AppDocPhrases[k])
  {
    AppPhrasesWellFormed();
    FullMatchStripped(Strip(s), AppDocPhrases);
  }

  /** On a text without trailing white space, `$` can only match at the very end. */
  lemma {:induction false} FullMatchStripped(t: string, ps: seq<Phrase>)
    requires AllWellFormed(ps) && (t == [] || NotSpace(t[|t| - 1]))
    ensures FullMatchAny(t, ps) <==> exists k: nat :: k < |ps| && PhraseMatch(t, 0, |t|, ps[k])
  {
    FullMatchAnyIff(t, ps);
    if FullMatchLang(t, ps) {
      DollarAtStrippedEnd(t, ps);
    }
    if exists k: nat :: k < |ps| && PhraseMatch(t, 0, |t|, ps[k]) {
      var k: nat :| k < |ps| && PhraseMatch(t, 0, |t|, ps[k]);
      assert DollarAt(t, |t|);
    }
  }

  lemma {:induction false} DollarAtStrippedEnd(t: string, ps: seq<Phrase>)
    requires FullMatchLang(t, ps) && (t == [] || NotSpace(t[|t| - 1]))
    ensures exists k: nat :: k < |ps| && PhraseMatch(t, 0, |t|, ps[k])
  {
    var k, j: nat :| 0 <= k < |ps| && PhraseMatch(t, 0, j, ps[k]) && DollarAt(t, j);
    assert IsSpace('\n');
  }

  /** Surrounding white space never matters. */
  lemma {:induction false} ValidarTipoDocumentoStrip(s: string)
    ensures ValidarTipoDocumento(s) == ValidarTipoDocumento(Strip(s))
  {
    StripIdempotent(s);
  }
}
