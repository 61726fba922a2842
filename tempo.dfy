/** Treinando_TEMPO_AFASTAMENTO.py: the regexes that find a leave duration, the repair or
    inference of the TEMPO_AFASTAMENTO span from the "afastamento de ..." anchor, and the
    per-item loop of `carregar_dados`. */
module Tempo {
  import opened Wrappers
  import opened Chars
  import opened Text
  import opened Scan
  import opened Json
  import opened Loader

  const TempoLabel: string := "TEMPO_AFASTAMENTO"

  // ------------------------------------------------ PADRAO_NUM_UNID_RE

  predicate IsWordOrDot(c: char) {
    IsWord(c) || c == '.'
  }

  /** The units `dia(?:s)?`, `hora(?:s)?`, `semana(?:s)?`, `m[êe]s(?:es)?`, each as its
      classes and the optional plural ending. */
  const Units: seq<(seq<string>, seq<string>)> := [
    (["d", "i", "a"], ["s"]),
    (["h", "o", "r", "a"], ["s"]),
    (["s", "e", "m", "a", "n", "a"], ["s"]),
    (["m", "êe", "s"], ["e", "s"])
  ]

  /** One unit followed by `\b`: the greedy plural ending is tried first, then the unit
      alone. */
  function UnitAltAt(s: string, u: nat, w: seq<string>, suf: seq<string>): (r: Option<nat>)
    ensures r.Some? ==> u + |w| <= r.value <= |s| && ClassesAt(s, u, w) && WordBoundary(s, r.value)
  {
    if !ClassesAt(s, u, w) then None
    else
      ClassesAtChars(s, u, w);
      if ClassesAt(s, u + |w|, suf) && WordBoundary(s, u + |w| + |suf|) then Some(u + |w| + |suf|)
      else if WordBoundary(s, u + |w|) then Some(u + |w|)
      else None
  }

  /** The unit alternation and the closing `\b`: the first alternative that matches. */
  function UnitFrom(s: string, u: nat, k: nat): (r: Option<nat>)
    requires k <= |Units|
    ensures r.Some? ==> u < r.value <= |s| && WordBoundary(s, r.value)
    decreases |Units| - k
  {
    if k == |Units| then None
    else match UnitAltAt(s, u, Units[k].0, Units[k].1)
      case Some(e) => Some(e)
      case None => UnitFrom(s, u, k + 1)
  }

  /** `\s*` then a unit. */
  function UnitAfter(s: string, p: nat): (r: Option<nat>)
    requires p <= |s|
    ensures r.Some? ==> p < r.value <= |s|
  {
    UnitFrom(s, RunEnd(s, p, IsSpace), 0)
  }

  /** The optional `\s*\([\w\.]+?\)`: spaces, an opening bracket, a non-empty run of word
      characters and dots, and the closing bracket (the lazy run can only stop at the
      first character outside its class, which must be the bracket). */
  function ParenEnd(s: string, d: nat): (r: Option<nat>)
    requires d <= |s|
    ensures r.Some? ==> d < r.value <= |s| && s[r.value - 1] == ')'
  {
    var sp := RunEnd(s, d, IsSpace);
    if sp < |s| && s[sp] == '(' then
      var w := RunEnd(s, sp + 1, IsWordOrDot);
      if sp + 1 < w < |s| && s[w] == ')' then Some(w + 1) else None
    else None
  }

  /** PADRAO_NUM_UNID_RE at i: `\b`, one to three digits (a fourth digit, or fewer, leave
      a digit where no later part can start), the bracketed variant when the rest matches
      after it, otherwise none, then `\s*`, a unit and `\b`. */
  function NumUnitAt(s: string, i: nat): (r: Option<nat>)
    ensures r.Some? ==> i < r.value <= |s|
  {
    if i > |s| || !WordBoundary(s, i) then None
    else
      var d := RunEnd(s, i, IsDigit);
      if d == i || d - i > 3 then None
      else match ParenEnd(s, d)
        case Some(g) =>
          (match UnitAfter(s, g)
           case Some(e) => Some(e)
           case None => UnitAfter(s, d))
        case None => UnitAfter(s, d)
  }

  function NumUnitMatcher(): Matcher {
    (s: string, i: nat) => NumUnitAt(s, i)
  }

  /** What a number-and-unit match is: a word boundary, one to three digits not followed
      by another digit, and a unit ending at a word boundary. */
  ghost predicate NumUnit(s: string, i: nat, j: nat) {
    i < j <= |s| && WordBoundary(s, i) && WordBoundary(s, j)
    && exists d: nat :: i < d <= i + 3 && d <= |s| && (forall m :: i <= m < d ==> IsDigit(s[m]))
         && (d == |s| || !IsDigit(s[d]))
         && exists u: nat, k: nat :: d <= u < j && k < |Units| && ClassesAt(s, u, Units[k].0)
  }

  lemma {:induction false} UnitFromSound(s: string, u: nat, k: nat)
    requires k <= |Units| && UnitFrom(s, u, k).Some?
    ensures exists k': nat :: k <= k' < |Units| && ClassesAt(s, u, Units[k'].0) && u + |Units[k'].0| <= UnitFrom(s, u, k).value
    decreases |Units| - k
  {
    if UnitAltAt(s, u, Units[k].0, Units[k].1).None? {
      UnitFromSound(s, u, k + 1);
    }
  }

  lemma {:induction false} NumUnitAtSound(s: string, i: nat)
    requires NumUnitAt(s, i).Some?
    ensures NumUnit(s, i, NumUnitAt(s, i).value)
  {
    var j := NumUnitAt(s, i).value;
    var d := RunEnd(s, i, IsDigit);
    var p := if ParenEnd(s, d).Some? && UnitAfter(s, ParenEnd(s, d).value).Some? then ParenEnd(s, d).value else d;
    assert UnitAfter(s, p) == Some(j);
    var u := RunEnd(s, p, IsSpace);
    UnitFromSound(s, u, 0);
  }

  // ------------------------------------------------ PADRAO_TEXTO

  /** The seven textual periods, as case-insensitive character classes. */
  const Periods: seq<seq<string>> := [
    ["p", "e", "r", "ií", "o", "d", "o", " ", "d", "a", " ", "m", "a", "n", "h", "ãa"],
    ["p", "e", "r", "ií", "o", "d", "o", " ", "d", "a", " ", "t", "a", "r", "d", "e"],
    ["p", "e", "r", "ií", "o", "d", "o", " ", "d", "a", " ", "n", "o", "i", "t", "e"],
    ["t", "u", "r", "n", "o", " ", "d", "a", " ", "m", "a", "n", "h", "ãa"],
    ["t", "u", "r", "n", "o", " ", "d", "a", " ", "t", "a", "r", "d", "e"],
    ["t", "u", "r", "n", "o", " ", "d", "a", " ", "n", "o", "i", "t", "e"],
    ["p", "e", "r", "ií", "o", "d", "o", " ", "i", "n", "t", "e", "g", "r", "a", "l"]
  ]

  function PeriodFrom(s: string, i: nat, k: nat): (r: Option<nat>)
    requires k <= |Periods|
    ensures r.Some? ==> exists k': nat :: k <= k' < |Periods| && ClassesAt(s, i, Periods[k']) && r.value == i + |Periods[k']|
    ensures r.None? ==> forall k': nat :: k <= k' < |Periods| ==> !ClassesAt(s, i, Periods[k'])
    decreases |Periods| - k
  {
    if k == |Periods| then None
    else if ClassesAt(s, i, Periods[k]) then Some(i + |Periods[k]|)
    else PeriodFrom(s, i, k + 1)
  }

  /** PADRAO_TEXTO at i: the first period that occurs there. */
  function PeriodAt(s: string, i: nat): (r: Option<nat>)
    ensures r.Some? ==> i < r.value <= |s|
  {
    var r := PeriodFrom(s, i, 0);
    if r.Some? then
      var k' :| 0 <= k' < |Periods| && ClassesAt(s, i, Periods[k']) && r.value == i + |Periods[k']|;
      ClassesAtChars(s, i, Periods[k']);
      r
    else r
  }

  function PeriodMatcher(): Matcher {
    (s: string, i: nat) => PeriodAt(s, i)
  }

  // ------------------------------------------------ PADRAO_ANCORA

  /** The closing group `(?:\s+de\s+suas\s+atividades|[\.\n]|$)` at j, with the end of
      the alternative that matches first. */
  function CloseAt(s: string, j: nat): (r: Option<nat>)
    requires j <= |s|
    ensures r.Some? ==> j <= r.value <= |s|
  {
    var p1 := RunEnd(s, j, IsSpace);
    var words := if p1 > j && CiLitAt(s, p1, "de") then
        var p2 := RunEnd(s, p1 + 2, IsSpace);
        if p2 > p1 + 2 && CiLitAt(s, p2, "suas") then
          var p3 := RunEnd(s, p2 + 4, IsSpace);
          if p3 > p2 + 4 && CiLitAt(s, p3, "atividades") then Some(p3 + 10) else None
        else None
      else None;
    if words.Some? then words
    else if j < |s| && (s[j] == '.' || s[j] == '\n') then Some(j + 1)
    else if j == |s| || (j + 1 == |s| && s[j] == '\n') then Some(j)
    else None
  }

  /** The lazy `(.{1,80}?)` started at g: the shortest length, from k up to 80, after
      which the closing group matches. Gives the end of the group and of the match. */
  function LazyWindow(s: string, g: nat, k: nat): (r: Option<(nat, nat)>)
    requires 1 <= k
    ensures r.Some? ==> g + k <= r.value.0 <= g + 80 && r.value.0 <= r.value.1 <= |s|
    ensures r.Some? ==> CloseAt(s, r.value.0) == Some(r.value.1)
    decreases 81 - k
  {
    if k > 80 || g + k > |s| then None
    else match CloseAt(s, g + k)
      case Some(e) => Some((g + k, e))
      case None => LazyWindow(s, g, k + 1)
  }

  /** The greedy `\s+` before the group gives back one space at a time: the group starts
      at g, then g - 1, ..., down to b + 1. */
  function WindowFrom(s: string, b: nat, g: nat): (r: Option<(nat, nat, nat)>)
    requires b < g
    ensures r.Some? ==> b < r.value.0 <= g && r.value.0 < r.value.1 <= r.value.0 + 80
    ensures r.Some? ==> r.value.1 <= r.value.2 <= |s| && CloseAt(s, r.value.1) == Some(r.value.2)
    decreases g
  {
    match LazyWindow(s, g, 1)
    case Some((ge, e)) => Some((g, ge, e))
    case None => if g - 1 > b then WindowFrom(s, b, g - 1) else None
  }

  /** PADRAO_ANCORA at i: the bounds of group 1 (the window) and the end of the match. */
  function AnchorMatch(s: string, i: nat): (r: Option<(nat, nat, nat)>)
    ensures r.Some? ==> i < r.value.0 < r.value.1 <= r.value.2 <= |s|
    ensures r.Some? ==> r.value.1 - r.value.0 <= 80
  {
    if !CiLitAt(s, i, "afastamento") then None else AnchorAfter(s, i + 11)
  }

  /** `\s+de` from a, in any case: the end of "de", when a non-empty run of white space
      and "de" follow a. */
  function DeEnd(s: string, a: nat): (r: Option<nat>)
    requires a <= |s|
    ensures r.Some? ==> a + 3 <= r.value <= |s|
  {
    var e1 := RunEnd(s, a, IsSpace);
    if e1 == a || !CiLitAt(s, e1, "de") then None else Some(e1 + 2)
  }

  /** The rest of PADRAO_ANCORA after "afastamento", from a: `\s+de`, then the window
      search over the run of white space that follows. */
  function AnchorAfter(s: string, a: nat): (r: Option<(nat, nat, nat)>)
    requires a <= |s|
    ensures r.Some? ==> a < r.value.0 < r.value.1 <= r.value.2 <= |s|
    ensures r.Some? ==> r.value.1 - r.value.0 <= 80
  {
    match DeEnd(s, a)
    case None => None
    case Some(b) =>
      var e2 := RunEnd(s, b, IsSpace);
      if e2 == b then None else WindowFrom(s, b, e2)
  }

  function AnchorMatcher(): Matcher {
    (s: string, i: nat) => match AnchorMatch(s, i) case Some(t) => Some(t.2) case None => None
  }

  /** `PADRAO_ANCORA.search(texto)`, group 1: the bounds of the window. */
  function Window(texto: string): (r: Option<(nat, nat)>)
    ensures r.Some? ==> r.value.0 < r.value.1 <= |texto| && r.value.1 - r.value.0 <= 80
  {
    match Search(AnchorMatcher(), texto, 0)
    case None => None
    case Some((i, _)) =>
      match AnchorMatch(texto, i)
      case Some(t) => Some((t.0, t.1))
      case None => None
  }

  /** `\s+` from a to b: a non-empty run of white space. */
  ghost predicate SpacesBetween(s: string, a: nat, b: nat) {
    a < b <= |s| && forall k :: a <= k < b ==> IsSpace(s[k])
  }

  /** `\s+de\s+`, in any case, from a up to g. */
  ghost predicate DeBetween(s: string, a: nat, g: nat) {
    exists d: nat :: SpacesBetween(s, a, d) && CiLitAt(s, d, "de") && SpacesBetween(s, d + 2, g)
  }

  /** The part of PADRAO_ANCORA before the group: "afastamento", `\s+`, "de" and `\s+`,
      in any case, from i up to g. */
  ghost predicate AnchorPrefix(s: string, i: nat, g: nat) {
    CiLitAt(s, i, "afastamento") && DeBetween(s, i + 11, g)
  }

  /** The group `(.{1,80}?)` from g to ge (under DOTALL any character), then the closing
      group at ge, ending at e. */
  predicate WindowCloses(s: string, g: nat, ge: nat, e: nat) {
    g < ge <= g + 80 && ge <= |s| && CloseAt(s, ge) == Some(e)
  }

  /** No window that starts at g' closes. */
  predicate NoWindowFrom(s: string, g': nat) {
    forall m :: g' < m <= g' + 80 && m <= |s| ==> CloseAt(s, m).None?
  }

  /** "de" starts with a letter, so it never continues a run of white space. */
  lemma {:induction false} DeNotSpace(s: string, d: nat)
    requires CiLitAt(s, d, "de")
    ensures d + 2 <= |s| && !IsSpace(s[d])
  {
    LowerKeepsClass(s[d]);
  }

  /** The space runs are forced by the literal between them: the first is the longest run
      from a, and the group may start anywhere in the second run. */
  lemma {:induction false} DeBetweenIff(s: string, a: nat, g: nat)
    requires a <= |s|
    ensures DeBetween(s, a, g) <==>
      DeEnd(s, a).Some? && DeEnd(s, a).value < g <= RunEnd(s, DeEnd(s, a).value, IsSpace)
  {
    if DeBetween(s, a, g) {
      var d: nat :| SpacesBetween(s, a, d) && CiLitAt(s, d, "de") && SpacesBetween(s, d + 2, g);
      DeNotSpace(s, d);
      RunEndUnique(s, a, IsSpace, d);
    }
    if DeEnd(s, a).Some? && DeEnd(s, a).value < g <= RunEnd(s, DeEnd(s, a).value, IsSpace) {
      var e1 := RunEnd(s, a, IsSpace);
      assert SpacesBetween(s, a, e1) && SpacesBetween(s, e1 + 2, g);
    }
  }

  /** The lazy group tries lengths k, k + 1, ... in turn: what it finds is the shortest
      window from that length on, and when it finds none, no window of those lengths
      closes. */
  lemma {:induction false} LazyWindowSpec(s: string, g: nat, k: nat)
    requires 1 <= k
    ensures LazyWindow(s, g, k).Some? ==>
      var (ge, e) := LazyWindow(s, g, k).value;
      WindowCloses(s, g, ge, e) && forall m :: g + k <= m < ge ==> CloseAt(s, m).None?
    ensures LazyWindow(s, g, k).None? ==>
      forall m :: g + k <= m <= g + 80 && m <= |s| ==> CloseAt(s, m).None?
    decreases 81 - k
  {
    if k <= 80 && g + k <= |s| {
      if CloseAt(s, g + k).None? {
        assert LazyWindow(s, g, k) == LazyWindow(s, g, k + 1);
        LazyWindowSpec(s, g, k + 1);
      } else {
        assert LazyWindow(s, g, k) == Some((g + k, CloseAt(s, g + k).value));
      }
    }
  }

  /** The greedy `\s+` gives back one space at a time: the group starts at the latest
      position from g down to b + 1 where some window closes, and the window is the
      shortest one from there. */
  lemma {:induction false} WindowFromSpec(s: string, b: nat, g: nat)
    requires b < g
    ensures WindowFrom(s, b, g).Some? ==>
      var (g0, ge, e) := WindowFrom(s, b, g).value;
      WindowCloses(s, g0, ge, e) && (forall m :: g0 < m < ge ==> CloseAt(s, m).None?)
      && forall g' :: g0 < g' <= g ==> NoWindowFrom(s, g')
    ensures WindowFrom(s, b, g).None? ==> forall g' :: b < g' <= g ==> NoWindowFrom(s, g')
    decreases g
  {
    LazyWindowSpec(s, g, 1);
    if LazyWindow(s, g, 1).None? && g - 1 > b {
      WindowFromSpec(s, b, g - 1);
    }
  }

  /** AnchorAfter is the window search over the second run of white space. */
  lemma {:induction false} AnchorAfterUnfold(s: string, a: nat)
    requires a <= |s| && DeEnd(s, a).Some?
    ensures var b := DeEnd(s, a).value;
      AnchorAfter(s, a) == if RunEnd(s, b, IsSpace) == b then None else WindowFrom(s, b, RunEnd(s, b, IsSpace))
  {
  }

  /** What the rest of PADRAO_ANCORA matches from a: `\s+de\s+` up to the group, a window
      that closes, no shorter window from the same start (the lazy group), and no window
      at all from a later start (the greedy `\s+`). */
  lemma {:induction false} AnchorAfterSound(s: string, a: nat)
    requires a <= |s| && AnchorAfter(s, a).Some?
    ensures var (g, ge, e) := AnchorAfter(s, a).value;
      DeBetween(s, a, g) && WindowCloses(s, g, ge, e)
      && (forall m :: g < m < ge ==> CloseAt(s, m).None?)
      && forall g' :: g < g' && DeBetween(s, a, g') ==> NoWindowFrom(s, g')
  {
    var b := DeEnd(s, a).value;
    var e2 := RunEnd(s, b, IsSpace);
    AnchorAfterUnfold(s, a);
    WindowFromSpec(s, b, e2);
    var g := AnchorAfter(s, a).value.0;
    DeBetweenIff(s, a, g);
    forall g' | g < g' && DeBetween(s, a, g')
      ensures NoWindowFrom(s, g')
    {
      DeBetweenIff(s, a, g');
    }
  }

  /** AnchorMatch is AnchorAfter behind the literal "afastamento". */
  lemma {:induction false} AnchorMatchAfter(s: string, i: nat)
    ensures AnchorMatch(s, i).Some? ==> CiLitAt(s, i, "afastamento")
    ensures CiLitAt(s, i, "afastamento") ==> i + 11 <= |s| && AnchorMatch(s, i) == AnchorAfter(s, i + 11)
  {
  }

  /** What PADRAO_ANCORA matches at i, as Python's backtracking engine chooses it: the
      prefix up to the group, a window that closes, no shorter window from the same start
      (the lazy group), and no window at all from a later start (the greedy `\s+`). */
  lemma {:induction false} AnchorMatchSound(s: string, i: nat)
    requires AnchorMatch(s, i).Some?
    ensures AnchorPrefix(s, i, AnchorMatch(s, i).value.0)
    ensures WindowCloses(s, AnchorMatch(s, i).value.0, AnchorMatch(s, i).value.1, AnchorMatch(s, i).value.2)
    ensures forall m :: AnchorMatch(s, i).value.0 < m < AnchorMatch(s, i).value.1 ==> CloseAt(s, m).None?
    ensures forall g' :: AnchorMatch(s, i).value.0 < g' && AnchorPrefix(s, i, g') ==> NoWindowFrom(s, g')
  {
    AnchorMatchAfter(s, i);
    AnchorAfterSound(s, i + 11);
  }

  /** Conversely, whenever the language has a match at i, the matcher finds one. */
  lemma {:induction false} AnchorMatchComplete(s: string, i: nat, g: nat, ge: nat, e: nat)
    requires AnchorPrefix(s, i, g) && WindowCloses(s, g, ge, e)
    ensures AnchorMatch(s, i).Some?
  {
    AnchorAfterCompleteAt(s, i, g, ge, e);
    AnchorMatchAfter(s, i);
  }

  /** Behind the prefix, a window that closes is enough for the window search to succeed. */
  lemma {:induction false} AnchorAfterCompleteAt(s: string, i: nat, g: nat, ge: nat, e: nat)
    requires AnchorPrefix(s, i, g) && WindowCloses(s, g, ge, e)
    ensures CiLitAt(s, i, "afastamento") && i + 11 <= |s| && AnchorAfter(s, i + 11).Some?
  {
    AnchorPrefixParts(s, i, g);
    var a := i + 11;
    DeBetweenIff(s, a, g);
    var b := DeEnd(s, a).value;
    AnchorAfterUnfold(s, a);
    WindowFromSpec(s, b, RunEnd(s, b, IsSpace));
    assert !NoWindowFrom(s, g);
  }

  lemma {:induction false} AnchorPrefixParts(s: string, i: nat, g: nat)
    requires AnchorPrefix(s, i, g)
    ensures CiLitAt(s, i, "afastamento") && i + 11 <= |s| && DeBetween(s, i + 11, g)
  {
    AnchorMatchAfter(s, i);
  }

  /** The pattern's language has a match that starts at i. */
  ghost predicate AnchorAt(s: string, i: nat) {
    exists g, ge, e :: AnchorPrefix(s, i, g) && WindowCloses(s, g, ge, e)
  }

  lemma {:induction false} AnchorMatchSomeIff(s: string, i: nat)
    ensures AnchorMatch(s, i).Some? <==> AnchorAt(s, i)
  {
    if AnchorMatch(s, i).Some? {
      var t := AnchorMatch(s, i).value;
      AnchorMatchSound(s, i);
      assert AnchorPrefix(s, i, t.0) && WindowCloses(s, t.0, t.1, t.2);
    }
    if AnchorAt(s, i) {
      var g, ge, e :| AnchorPrefix(s, i, g) && WindowCloses(s, g, ge, e);
      AnchorMatchComplete(s, i, g, ge, e);
    }
  }

  /** Window reads group 1 off the leftmost match of the matcher. */
  lemma {:induction false} WindowBySearch(texto: string)
    ensures Window(texto).None? <==> Search(AnchorMatcher(), texto, 0).None?
    ensures Window(texto).Some? ==>
      var i := Search(AnchorMatcher(), texto, 0).value.0;
      AnchorMatch(texto, i).Some?
      && Window(texto).value == (AnchorMatch(texto, i).value.0, AnchorMatch(texto, i).value.1)
  {
  }

  /** The compiled matcher, as the search driver sees it, matches at i exactly when the
      language has a match that starts there. */
  lemma {:induction false} AnchorMatcherIff(s: string, i: nat)
    ensures MatchAt(AnchorMatcher(), s, i).Some? <==> AnchorAt(s, i)
  {
    AnchorMatchSomeIff(s, i);
  }

  /** The matcher's search fails exactly when the language has no match anywhere. */
  lemma {:induction false} AnchorSearchNone(texto: string)
    ensures Search(AnchorMatcher(), texto, 0).None? <==> forall i :: !AnchorAt(texto, i)
  {
    if Search(AnchorMatcher(), texto, 0).None? {
      forall i | AnchorAt(texto, i) ensures false {
        AnchorMatcherIff(texto, i);
      }
    } else {
      AnchorMatcherIff(texto, Search(AnchorMatcher(), texto, 0).value.0);
    }
  }

  /** Otherwise the search from k stops where the language's first match from k starts. */
  lemma {:induction false} AnchorSearchLeftmost(texto: string, k: nat)
    requires Search(AnchorMatcher(), texto, k).Some?
    ensures forall i :: k <= i < Search(AnchorMatcher(), texto, k).value.0 ==> !AnchorAt(texto, i)
  {
    forall i | k <= i < Search(AnchorMatcher(), texto, k).value.0 ensures !AnchorAt(texto, i) {
      AnchorMatcherIff(texto, i);
    }
  }

  /** `PADRAO_ANCORA.search` finds no window exactly when the pattern's language has no
      match anywhere in the text. */
  lemma {:induction false} WindowNoneIff(texto: string)
    ensures Window(texto).None? <==> forall i :: !AnchorAt(texto, i)
  {
    WindowBySearch(texto);
    AnchorSearchNone(texto);
  }

  /** The window found is group 1 of a match of the pattern's language, at the leftmost
      position where the language has a match. */
  lemma {:induction false} WindowSound(texto: string)
    requires Window(texto).Some?
    ensures exists i, e ::
      AnchorPrefix(texto, i, Window(texto).value.0)
      && WindowCloses(texto, Window(texto).value.0, Window(texto).value.1, e)
      && (forall i' :: i' < i ==> !AnchorAt(texto, i'))
  {
    WindowBySearch(texto);
    var i := Search(AnchorMatcher(), texto, 0).value.0;
    AnchorSearchLeftmost(texto, 0);
    AnchorMatchSound(texto, i);
  }

  // ------------------------------------------------ localizar_span, corrigir_ou_inferir_tempo

  /** `localizar_span`: the bounds of the first occurrence of the snippet, if any. */
  function LocalizarSpan(texto: string, trecho: string): (r: Option<(nat, nat)>)
    ensures r.None? <==> forall p: nat :: !OccursAt(texto, trecho, p)
    ensures r.Some? ==> r.value.1 == r.value.0 + |trecho| <= |texto|
    ensures r.Some? ==> texto[r.value.0..r.value.1] == trecho
    ensures r.Some? ==> forall p: nat :: p < r.value.0 ==> !OccursAt(texto, trecho, p)
  {
    match Find(texto, trecho)
    case None => None
    case Some(p) => Some((p, p + |trecho|))
  }

  /** The text of the leftmost match of a matcher in the window. */
  function Snippet(m: Matcher, janela: string): (r: Option<string>)
    ensures r.Some? ==> exists a: nat, b: nat :: a <= b <= |janela| && r.value == janela[a..b]
  {
    match Search(m, janela, 0)
    case Some((a, b)) => Some(janela[a..b])
    case None => None
  }

  /** The last resort: the stripped window, when 1 to 60 characters long. */
  function Fallback(janela: string): (r: Option<string>)
    ensures r.Some? ==> 1 <= |r.value| <= 60 && r.value == Strip(janela)
  {
    var t := Strip(janela);
    if 1 <= |t| <= 60 then Some(t) else None
  }

  /** One level of the cascade: the snippet located in the text, when there is one. */
  function Locate(texto: string, trecho: Option<string>): (r: Option<Annot>)
    ensures r.Some? ==> trecho.Some? && r.value.tag == TempoLabel
    ensures r.Some? ==> r.value.start <= r.value.stop <= |texto| && texto[r.value.start..r.value.stop] == trecho.value
  {
    match trecho
    case None => None
    case Some(t) =>
      match LocalizarSpan(texto, t)
      case Some(pos) => Some(Annot(pos.0, pos.1, TempoLabel))
      case None => None
  }

  /** `corrigir_ou_inferir_tempo`: nothing without the anchor; otherwise the first level
      of the cascade (number and unit, textual period, stripped window) whose snippet is
      located in the text. */
  function CorrigirOuInferirTempo(texto: string): (r: seq<Annot>)
    ensures |r| <= 1
    ensures Window(texto).None? ==> r == []
    ensures forall x :: 0 <= x < |r| ==> r[x].tag == TempoLabel && r[x].start <= r[x].stop <= |texto|
  {
    match Window(texto)
    case None => []
    case Some((g, ge)) =>
      var janela := texto[g..ge];
      var num := Locate(texto, Snippet(NumUnitMatcher(), janela));
      var tx := Locate(texto, Snippet(PeriodMatcher(), janela));
      var fb := Locate(texto, Fallback(janela));
      if num.Some? then [num.value]
      else if tx.Some? then [tx.value]
      else if fb.Some? then [fb.value]
      else []
  }

  /** A slice of a slice of the text occurs in the text, so `localizar_span` finds every
      snippet taken from the window. */
  lemma {:induction false} LocateSlice(texto: string, g: nat, ge: nat, a: nat, b: nat)
    requires g <= ge <= |texto| && a <= b <= ge - g
    ensures Locate(texto, Some(texto[g..ge][a..b])).Some?
  {
    assert forall k :: 0 <= k < b - a ==> texto[g..ge][a..b][k] == texto[g + a..g + b][k];
    assert texto[g..ge][a..b] == texto[g + a..g + b];
    assert OccursAt(texto, texto[g + a..g + b], g + a);
  }

  lemma {:induction false} LocateSnippet(texto: string, g: nat, ge: nat, m: Matcher)
    requires g <= ge <= |texto|
    ensures Snippet(m, texto[g..ge]).Some? ==> Locate(texto, Snippet(m, texto[g..ge])).Some?
  {
    if Snippet(m, texto[g..ge]).Some? {
      var a: nat, b: nat :| a <= b <= ge - g && Snippet(m, texto[g..ge]).value == texto[g..ge][a..b];
      LocateSlice(texto, g, ge, a, b);
    }
  }

  lemma {:induction false} LocateFallback(texto: string, g: nat, ge: nat)
    requires g <= ge <= |texto|
    ensures Fallback(texto[g..ge]).Some? ==> Locate(texto, Fallback(texto[g..ge])).Some?
  {
    var j := texto[g..ge];
    var (a, b) := StripBounds(j);
    LocateSlice(texto, g, ge, a, b);
  }

  /** The snippet the cascade settles on: a number with its unit in the window, else a
      textual period, else the stripped window when it is 1 to 60 characters long. */
  function Chosen(janela: string): Option<string> {
    if Snippet(NumUnitMatcher(), janela).Some? then Snippet(NumUnitMatcher(), janela)
    else if Snippet(PeriodMatcher(), janela).Some? then Snippet(PeriodMatcher(), janela)
    else Fallback(janela)
  }

  /** A located snippet is its first occurrence in the text. */
  lemma {:induction false} LocateFirst(texto: string, t: string)
    requires Locate(texto, Some(t)).Some?
    ensures var a := Locate(texto, Some(t)).value;
      texto[a.start..a.stop] == t && a.stop == a.start + |t|
      && forall p: nat :: p < a.start ==> !OccursAt(texto, t, p)
  {
  }

  /** First match wins: the span is the first occurrence in the text of the chosen
      snippet, and there is none when no level yields one. */
  lemma {:induction false} CorrigirPrecedence(texto: string)
    requires Window(texto).Some?
    ensures var (g, ge) := Window(texto).value;
      var chosen := Chosen(texto[g..ge]);
      (chosen.None? ==> CorrigirOuInferirTempo(texto) == [])
      && (chosen.Some? ==>
            |CorrigirOuInferirTempo(texto)| == 1
            && var a := CorrigirOuInferirTempo(texto)[0];
            texto[a.start..a.stop] == chosen.value
            && a.stop == a.start + |chosen.value|
            && forall p: nat :: p < a.start ==> !OccursAt(texto, chosen.value, p))
  {
    var (g, ge) := Window(texto).value;
    var janela := texto[g..ge];
    LocateSnippet(texto, g, ge, NumUnitMatcher());
    LocateSnippet(texto, g, ge, PeriodMatcher());
    LocateFallback(texto, g, ge);
    var chosen := Chosen(janela);
    if chosen.Some? {
      assert CorrigirOuInferirTempo(texto) == [Locate(texto, chosen).value];
      LocateFirst(texto, chosen.value);
    }
  }

  /** With the anchor present, the result is empty exactly when the window holds neither
      a number with its unit nor a textual period and its stripped text is empty or longer
      than 60 characters. */
  lemma {:induction false} CorrigirEmptyIff(texto: string)
    requires Window(texto).Some?
    ensures var (g, ge) := Window(texto).value;
      var janela := texto[g..ge];
      CorrigirOuInferirTempo(texto) == [] <==>
        Snippet(NumUnitMatcher(), janela).None? && Snippet(PeriodMatcher(), janela).None?
        && !(1 <= |Strip(janela)| <= 60)
  {
    var (g, ge) := Window(texto).value;
    LocateSnippet(texto, g, ge, NumUnitMatcher());
    LocateSnippet(texto, g, ge, PeriodMatcher());
    LocateFallback(texto, g, ge);
  }

  /** Without a match of the anchor pattern anywhere in the text, the rule finds no span. */
  lemma CorrigirNoAnchor(texto: string)
    requires forall i: nat :: !AnchorAt(texto, i)
    ensures CorrigirOuInferirTempo(texto) == []
  {
    WindowNoneIff(texto);
  }

  // ------------------------------------------------ carregar_dados

  /** The sanity check on an existing span: a duration or a textual period occurs in it. */
  predicate LooksLikeDuration(trecho: string) {
    Search(NumUnitMatcher(), trecho, 0).Some? || Search(PeriodMatcher(), trecho, 0).Some?
  }

  predicate IsTempoEntity(ent: Json) {
    ent.JList? && |ent.elems| >= 3 && ent.elems[2] == JStr(TempoLabel)
  }

  /** One entity of the loop: kept when its text looks like a duration, replaced by the
      inferred span otherwise; other entities are ignored. Slicing with a bound that is
      not an integer raises TypeError. */
  function TempoStep(texto: string, acc: seq<Json>, ent: Json): (r: Result<seq<Json>>)
    ensures r.Ok? ==> |acc| <= |r.value| <= |acc| + 1 && r.value[..|acc|] == acc
  {
    if !IsTempoEntity(ent) then Ok(acc)
    else match (SliceBound(ent.elems[0]), SliceBound(ent.elems[1]))
      case (Ok(lo), Ok(hi)) =>
        if LooksLikeDuration(PySlice(texto, lo, hi)) then Ok(acc + [ent])
        else Ok(acc + AnnotsJson(CorrigirOuInferirTempo(texto)))
      case _ => Err(TypeError)
  }

  function TempoEnts(texto: string, ents: seq<Json>): (r: Result<seq<Json>>)
  {
    if ents == [] then Ok([])
    else match TempoEnts(texto, ents[..|ents| - 1])
      case Err(e) => Err(e)
      case Ok(acc) => TempoStep(texto, acc, ents[|ents| - 1])
  }

  /** One item of `carregar_dados`: skipped when shorter than 2; otherwise its TEMPO spans,
      or the inferred one when none survives, and skipped when that is empty too. */
  function TempoItem(item: Json, pyStr: Json -> string): (r: Result<Option<(string, seq<Json>)>>)
    ensures r.Ok? && r.value.Some? ==> r.value.value.1 != []
  {
    match Len(item)
    case Err(e) => Err(e)
    case Ok(n) =>
      if n < 2 then Ok(None)
      else match TextOf(item, pyStr)
        case Err(e) => Err(e)
        case Ok(texto) =>
          match Index(item, 1)
          case Err(e) => Err(e)
          case Ok(anotacao) =>
            match Iter(EntitiesOf(anotacao))
            case Err(e) => Err(e)
            case Ok(ents) =>
              match TempoEnts(texto, ents)
              case Err(e) => Err(e)
              case Ok(kept) =>
                var final := if kept == [] then AnnotsJson(CorrigirOuInferirTempo(texto)) else kept;
                if final == [] then Ok(None) else Ok(Some((texto, final)))
  }

  lemma {:induction false} TempoEntsErrPrefix(texto: string, ents: seq<Json>, i: nat)
    requires i <= |ents| && TempoEnts(texto, ents[..i]).Err?
    ensures TempoEnts(texto, ents) == TempoEnts(texto, ents[..i])
    decreases |ents| - i
  {
    if i < |ents| {
      assert ents[..i + 1][..i] == ents[..i];
      TempoEntsErrPrefix(texto, ents, i + 1);
    } else {
      assert ents[..i] == ents;
    }
  }

  function TempoItemF(pyStr: Json -> string): Json -> Result<Option<(string, seq<Json>)>> {
    item => TempoItem(item, pyStr)
  }

  /** Every stored entity is a TEMPO_AFASTAMENTO list: kept entities are filtered on their
      label and inferred ones carry it. */
  lemma {:induction false} TempoEntsLabelled(texto: string, ents: seq<Json>)
    requires TempoEnts(texto, ents).Ok?
    ensures forall x :: 0 <= x < |TempoEnts(texto, ents).value| ==> IsTempoEntity(TempoEnts(texto, ents).value[x])
    decreases |ents|
  {
    if ents != [] {
      TempoEntsLabelled(texto, ents[..|ents| - 1]);
      var acc := TempoEnts(texto, ents[..|ents| - 1]).value;
      var r := TempoEnts(texto, ents).value;
      forall x | 0 <= x < |r| ensures IsTempoEntity(r[x]) {
        if x < |acc| {
          assert r[x] == r[..|acc|][x];
        }
      }
    }
  }

  lemma {:induction false} TempoItemLabelled(item: Json, pyStr: Json -> string)
    requires TempoItem(item, pyStr).Ok? && TempoItem(item, pyStr).value.Some?
    ensures forall x :: 0 <= x < |TempoItem(item, pyStr).value.value.1| ==>
      IsTempoEntity(TempoItem(item, pyStr).value.value.1[x])
  {
    var texto := TextOf(item, pyStr).value;
    var ents := Iter(EntitiesOf(Index(item, 1).value)).value;
    TempoEntsLabelled(texto, ents);
  }

  /** When no entity of the item survives, the span is inferred from the anchor. */
  lemma {:induction false} TempoItemInfers(item: Json, pyStr: Json -> string)
    requires Len(item).Ok? && Len(item).value >= 2 && TextOf(item, pyStr).Ok?
    requires Index(item, 1).Ok? && Iter(EntitiesOf(Index(item, 1).value)).Ok?
    requires TempoEnts(TextOf(item, pyStr).value, Iter(EntitiesOf(Index(item, 1).value)).value) == Ok([])
    ensures var texto := TextOf(item, pyStr).value;
      TempoItem(item, pyStr) ==
        if CorrigirOuInferirTempo(texto) == [] then Ok(None)
        else Ok(Some((texto, AnnotsJson(CorrigirOuInferirTempo(texto)))))
  {
  }

  /** The entity loop of `carregar_dados`. */
  method FilterTempoEnts(texto: string, ents: seq<Json>) returns (r: Result<seq<Json>>)
    ensures r == TempoEnts(texto, ents)
  {
    var entsTempo: seq<Json> := [];
    var i := 0;
    while i < |ents|
      invariant 0 <= i <= |ents|
      invariant TempoEnts(texto, ents[..i]) == Ok(entsTempo)
    {
      var ent := ents[i];
      assert ents[..i + 1][..i] == ents[..i];
      if IsTempoEntity(ent) {
        var lo := SliceBound(ent.elems[0]);
        var hi := SliceBound(ent.elems[1]);
        if lo.Err? || hi.Err? {
          TempoEntsErrPrefix(texto, ents, i + 1);
          return Err(TypeError);
        }
        var trecho := PySlice(texto, lo.value, hi.value);
        if LooksLikeDuration(trecho) {
          entsTempo := entsTempo + [ent];
        } else {
          var reparo := CorrigirOuInferirTempo(texto);
          entsTempo := entsTempo + AnnotsJson(reparo);
        }
      }
      i := i + 1;
    }
    assert ents[..|ents|] == ents;
    return Ok(entsTempo);
  }

  method CarregarItem(item: Json, pyStr: Json -> string) returns (r: Result<Option<(string, seq<Json>)>>)
    ensures r == TempoItem(item, pyStr)
  {
    var n := Len(item);
    if n.Err? { return Err(n.error); }
    if n.value < 2 { return Ok(None); }
    var t := ExtrairTexto(item, pyStr);
    if t.Err? { return Err(t.error); }
    var texto := t.value;
    var a := Index(item, 1);
    if a.Err? { return Err(a.error); }
    var entities := FindEntities(a.value);
    var it := Iter(entities);
    if it.Err? { return Err(it.error); }
    var ents := it.value;
    var kept := FilterTempoEnts(texto, ents);
    if kept.Err? { return Err(kept.error); }
    var entsTempo := kept.value;
    if entsTempo == [] {
      var inferidas := CorrigirOuInferirTempo(texto);
      assert entsTempo + AnnotsJson(inferidas) == AnnotsJson(inferidas);
      entsTempo := entsTempo + AnnotsJson(inferidas);
    }
    assert entsTempo == (if kept.value == [] then AnnotsJson(CorrigirOuInferirTempo(texto)) else kept.value);
    assert TempoItem(item, pyStr) == (if entsTempo == [] then Ok(None) else Ok(Some((texto, entsTempo))));
    if entsTempo == [] { return Ok(None); }
    return Ok(Some((texto, entsTempo)));
  }

  /** `carregar_dados` over the parsed items. */
  method CarregarDados(data: seq<Json>, pyStr: Json -> string) returns (r: Result<seq<(string, seq<Json>)>>)
    ensures r == LoadAll(data, TempoItemF(pyStr))
  {
    var saida: seq<(string, seq<Json>)> := [];
    var i := 0;
    while i < |data|
      invariant 0 <= i <= |data|
      invariant LoadAll(data[..i], TempoItemF(pyStr)) == Ok(saida)
    {
      assert data[..i + 1][..i] == data[..i];
      var x := CarregarItem(data[i], pyStr);
      if x.Err? {
        LoadAllErrPrefix(data, TempoItemF(pyStr), i + 1);
        return Err(x.error);
      }
      if x.value.Some? {
        saida := saida + [x.value.value];
      }
      i := i + 1;
    }
    assert data[..|data|] == data;
    return Ok(saida);
  }
}
