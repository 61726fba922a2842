/** The date patterns shared by `limpar_data` (app_OCR.py) and the DATA annotator
    (Treinando_Data.py), each compiled by hand into a matcher that gives the end of the
    match the regex engine reports at a start position, and each proved equal to a
    declarative description of the pattern's language. All of them run under
    IGNORECASE except the numeric fallback, which has no letters. */
module Dates {
  import opened Wrappers
  import opened Chars

  /** Every position of [x, y) holds a digit. */
  ghost predicate Digits(s: string, x: nat, y: nat) {
    x <= y <= |s| && forall k :: x <= k < y ==> IsDigit(s[k])
  }

  /** A set of separator characters, none of them a digit. */
  predicate NoDigitIn(seps: string) {
    forall k :: 0 <= k < |seps| ==> !IsDigit(seps[k])
  }

  /** The end of a run that is followed by a word boundary, when the run's last
      character is a word character, is where the run's class stops. */
  lemma {:induction false} BoundaryEndsRun(s: string, x: nat, j: nat)
    requires Digits(s, x, j) && x < j && WordBoundary(s, j)
    ensures RunEnd(s, x, IsDigit) == j
  {
    assert IsDigit(s[j - 1]);
    RunEndUnique(s, x, IsDigit, j);
  }

  // ------------------------------------------------ \b\d{1,2}S1\d{1,2}S2\d{2,4}\b

  /** The split points of a numeric date `\b\d{1,2}S1\d{1,2}S2\d{2,4}\b` spanning [i, j):
      the separators sit at a and b. */
  ghost predicate NumDateSplit(s: string, i: nat, a: nat, b: nat, j: nat, sep1: string, sep2: string) {
    i < a && a + 1 < b && b + 2 < j <= |s|
    && WordBoundary(s, i) && WordBoundary(s, j)
    && Digits(s, i, a) && a - i <= 2 && s[a] in sep1
    && Digits(s, a + 1, b) && b - a - 1 <= 2 && s[b] in sep2
    && Digits(s, b + 1, j) && j - b - 1 <= 4
  }

  ghost predicate NumDate(s: string, i: nat, j: nat, sep1: string, sep2: string) {
    exists a: nat, b: nat :: NumDateSplit(s, i, a, b, j, sep1, sep2)
  }

  /** The compiled numeric date: each `\d{m,n}` is followed by a non-digit (a separator
      or the final boundary), so a greedy digit run decides it without backtracking. */
  function NumDateAt(s: string, i: nat, sep1: string, sep2: string): (r: Option<nat>)
    ensures r.Some? ==> i < r.value <= |s|
  {
    if i >= |s| || !WordBoundary(s, i) then None
    else
      var a := RunEnd(s, i, IsDigit);
      if a == i || a - i > 2 || a == |s| || s[a] !in sep1 then None
      else
        var b := RunEnd(s, a + 1, IsDigit);
        if b == a + 1 || b - a - 1 > 2 || b == |s| || s[b] !in sep2 then None
        else
          var j := RunEnd(s, b + 1, IsDigit);
          if j - b - 1 < 2 || j - b - 1 > 4 || !WordBoundary(s, j) then None
          else Some(j)
  }

  lemma {:induction false} NumDateAtNone(s: string, i: nat, sep1: string, sep2: string)
    requires NoDigitIn(sep1) && NoDigitIn(sep2)
    ensures NumDateAt(s, i, sep1, sep2).None? <==> NoNumDate(s, i, sep1, sep2)
  {
    forall j: nat ensures NumDateAt(s, i, sep1, sep2) == Some(j) <==> NumDate(s, i, j, sep1, sep2) {
      NumDateAtIff(s, i, j, sep1, sep2);
    }
  }

  lemma {:induction false} NumDateAtIff(s: string, i: nat, j: nat, sep1: string, sep2: string)
    requires NoDigitIn(sep1) && NoDigitIn(sep2)
    ensures NumDateAt(s, i, sep1, sep2) == Some(j) <==> NumDate(s, i, j, sep1, sep2)
  {
    if NumDateAt(s, i, sep1, sep2) == Some(j) {
      var a := RunEnd(s, i, IsDigit);
      var b := RunEnd(s, a + 1, IsDigit);
      assert NumDateSplit(s, i, a, b, j, sep1, sep2);
    }
    if NumDate(s, i, j, sep1, sep2) {
      var a: nat, b: nat :| NumDateSplit(s, i, a, b, j, sep1, sep2);
      RunEndUnique(s, i, IsDigit, a);
      RunEndUnique(s, a + 1, IsDigit, b);
      BoundaryEndsRun(s, b + 1, j);
    }
  }

  // ------------------------------------- \b\d{1,2}\s+de\s+[a-zç]{3,9}\s+de\s+\d{4}\b

  /** `[a-zç]` under IGNORECASE */
  predicate IsMonthNameChar(c: char) {
    ('a' <= Lower(c) <= 'z') || Lower(c) == 'ç'
  }

  ghost predicate Spaces(s: string, x: nat, y: nat) {
    x < y <= |s| && forall k :: x <= k < y ==> IsSpace(s[k])
  }

  /** `\s+de\s+` spanning [x, c), with "de" at b. */
  ghost predicate SpacedDeSplit(s: string, x: nat, b: nat, c: nat) {
    Spaces(s, x, b) && CiLitAt(s, b, "de") && Spaces(s, b + 2, c)
  }

  ghost predicate SpacedDe(s: string, x: nat, c: nat) {
    exists b: nat :: SpacedDeSplit(s, x, b, c)
  }

  function SpacedDeAt(s: string, x: nat): (r: Option<nat>)
    requires x <= |s|
    ensures r.Some? ==> x < r.value <= |s|
  {
    var b := RunEnd(s, x, IsSpace);
    if b == x || !CiLitAt(s, b, "de") then None
    else
      var c := RunEnd(s, b + 2, IsSpace);
      if c == b + 2 then None else Some(c)
  }

  lemma {:induction false} SpacedDeAtSound(s: string, x: nat)
    requires x <= |s| && SpacedDeAt(s, x).Some?
    ensures SpacedDe(s, x, SpacedDeAt(s, x).value)
    ensures var c := SpacedDeAt(s, x).value; c == |s| || !IsSpace(s[c])
  {
    var b := RunEnd(s, x, IsSpace);
    assert SpacedDeSplit(s, x, b, SpacedDeAt(s, x).value);
  }

  /** Followed by a character that is not white space, the gap is the one the greedy
      `\s+` runs find. */
  lemma {:induction false} SpacedDeAtComplete(s: string, x: nat, c: nat)
    requires SpacedDe(s, x, c) && (c == |s| || !IsSpace(s[c]))
    ensures SpacedDeAt(s, x) == Some(c)
  {
    var b: nat :| SpacedDeSplit(s, x, b, c);
    CiLitAtChars(s, b, "de");
    LowerKeepsClass(s[b]);
    RunEndUnique(s, x, IsSpace, b);
    RunEndUnique(s, b + 2, IsSpace, c);
  }

  /** The split points of a spelled-out date `15 de setembro de 2025` spanning [i, j):
      day [i, a), ` de ` [a, c), month name [c, d), ` de ` [d, f), year [f, j). */
  ghost predicate TextDateSplit(s: string, i: nat, a: nat, c: nat, d: nat, f: nat, j: nat) {
    i < a <= i + 2 && a < c && c + 3 <= d <= c + 9 && d < f && j == f + 4 && j <= |s|
    && WordBoundary(s, i) && WordBoundary(s, j)
    && Digits(s, i, a) && SpacedDe(s, a, c)
    && (forall k :: c <= k < d ==> IsMonthNameChar(s[k]))
    && SpacedDe(s, d, f) && Digits(s, f, j)
  }

  ghost predicate TextDate(s: string, i: nat, j: nat) {
    exists a: nat, c: nat, d: nat, f: nat :: TextDateSplit(s, i, a, c, d, f, j)
  }

  /** The compiled spelled-out date. Each greedy piece is followed by a character of a
      disjoint class, so the maximal runs are the only candidates. */
  function TextDateAt(s: string, i: nat): (r: Option<nat>)
    ensures r.Some? ==> i < r.value <= |s|
  {
    if i >= |s| || !WordBoundary(s, i) then None
    else
      var a := RunEnd(s, i, IsDigit);
      if a == i || a - i > 2 then None
      else match SpacedDeAt(s, a)
        case None => None
        case Some(c) =>
          var d := RunEnd(s, c, IsMonthNameChar);
          if d - c < 3 || d - c > 9 then None
          else match SpacedDeAt(s, d)
            case None => None
            case Some(f) =>
              var j := RunEnd(s, f, IsDigit);
              if j - f != 4 || !WordBoundary(s, j) then None
              else Some(j)
  }

  lemma {:induction false} TextDateAtSound(s: string, i: nat, j: nat)
    requires TextDateAt(s, i) == Some(j)
    ensures TextDate(s, i, j)
  {
    var a := RunEnd(s, i, IsDigit);
    SpacedDeAtSound(s, a);
    var c := SpacedDeAt(s, a).value;
    var d := RunEnd(s, c, IsMonthNameChar);
    SpacedDeAtSound(s, d);
    var f := SpacedDeAt(s, d).value;
    assert TextDateSplit(s, i, a, c, d, f, j);
  }

  lemma {:induction false} TextDateAtComplete(s: string, i: nat, j: nat, a: nat, c: nat, d: nat, f: nat)
    requires TextDateSplit(s, i, a, c, d, f, j)
    ensures TextDateAt(s, i) == Some(j)
  {
    var b :| SpacedDeSplit(s, a, b, c);
    assert !IsDigit(s[a]);
    RunEndUnique(s, i, IsDigit, a);
    assert !IsSpace(s[c]) by { LowerKeepsClass(s[c]); }
    SpacedDeAtComplete(s, a, c);
    var e :| SpacedDeSplit(s, d, e, f);
    assert !IsMonthNameChar(s[d]) by { LowerKeepsClass(s[d]); }
    RunEndUnique(s, c, IsMonthNameChar, d);
    assert !IsSpace(s[f]);
    SpacedDeAtComplete(s, d, f);
    BoundaryEndsRun(s, f, j);
  }

  lemma {:induction false} TextDateAtIff(s: string, i: nat, j: nat)
    ensures TextDateAt(s, i) == Some(j) <==> TextDate(s, i, j)
  {
    if TextDateAt(s, i) == Some(j) {
      TextDateAtSound(s, i, j);
    }
    if TextDate(s, i, j) {
      var a: nat, c: nat, d: nat, f: nat :| TextDateSplit(s, i, a, c, d, f, j);
      TextDateAtComplete(s, i, j, a, c, d, f);
    }
  }

  /** No spelled-out date starts at i exactly when the matcher fails there. */
  lemma {:induction false} TextDateAtNone(s: string, i: nat)
    ensures TextDateAt(s, i).None? <==> forall j: nat :: !TextDate(s, i, j)
  {
    forall j: nat ensures TextDateAt(s, i) == Some(j) <==> TextDate(s, i, j) {
      TextDateAtIff(s, i, j);
    }
  }

  // ------------------------------ (?:Jan|Fev|...|Dez)[a-z]*[-/]\d{4}\b

  const Months: seq<string> :=
    ["jan", "fev", "mar", "abr", "mai", "jun", "jul", "ago", "set", "out", "nov", "dez"]

  /** One of the twelve month abbreviations, in any case, starts at i. */
  predicate MonthAt(s: string, i: nat) {
    exists k :: 0 <= k < |Months| && CiLitAt(s, i, Months[k])
  }

  /** `[a-z]` under IGNORECASE */
  predicate IsAsciiLetterCi(c: char) {
    'a' <= Lower(c) <= 'z'
  }

  predicate IsDateDash(c: char) {
    c == '-' || c == '/'
  }

  /** The split point of `Mmm[a-z]*[-/]\d{4}\b` spanning [i, j): the separator sits at l. */
  ghost predicate MonthTailSplit(s: string, i: nat, l: nat, j: nat) {
    i + 3 <= l && j == l + 5 && j <= |s|
    && MonthAt(s, i)
    && (forall k :: i + 3 <= k < l ==> IsAsciiLetterCi(s[k]))
    && IsDateDash(s[l]) && Digits(s, l + 1, j) && WordBoundary(s, j)
  }

  ghost predicate MonthTail(s: string, i: nat, j: nat) {
    exists l: nat :: MonthTailSplit(s, i, l, j)
  }

  function MonthTailAt(s: string, i: nat): (r: Option<nat>)
    ensures r.Some? ==> i < r.value <= |s|
  {
    if i + 3 > |s| || !MonthAt(s, i) then None
    else
      var l := RunEnd(s, i + 3, IsAsciiLetterCi);
      if l == |s| || !IsDateDash(s[l]) then None
      else
        var j := RunEnd(s, l + 1, IsDigit);
        if j - l - 1 != 4 || !WordBoundary(s, j) then None
        else Some(j)
  }

  lemma {:induction false} MonthTailAtIff(s: string, i: nat, j: nat)
    ensures MonthTailAt(s, i) == Some(j) <==> MonthTail(s, i, j)
  {
    if MonthTailAt(s, i) == Some(j) {
      var l := RunEnd(s, i + 3, IsAsciiLetterCi);
      assert MonthTailSplit(s, i, l, j);
    }
    if MonthTail(s, i, j) {
      var l: nat :| MonthTailSplit(s, i, l, j);
      RunEndUnique(s, i + 3, IsAsciiLetterCi, l);
      BoundaryEndsRun(s, l + 1, j);
    }
  }

  /** `\b` followed by the month tail: the third DATA alternative, `Set-2025`. */
  function MonthYearDateAt(s: string, i: nat): (r: Option<nat>)
    ensures r.Some? ==> i < r.value <= |s|
  {
    if i > |s| || !WordBoundary(s, i) then None else MonthTailAt(s, i)
  }

  ghost predicate MonthYearDate(s: string, i: nat, j: nat) {
    i <= |s| && WordBoundary(s, i) && MonthTail(s, i, j)
  }

  lemma {:induction false} MonthYearDateAtIff(s: string, i: nat, j: nat)
    ensures MonthYearDateAt(s, i) == Some(j) <==> MonthYearDate(s, i, j)
  {
    MonthTailAtIff(s, i, j);
  }

  lemma {:induction false} MonthYearDateAtNone(s: string, i: nat)
    ensures MonthYearDateAt(s, i).None? <==> forall j: nat :: !MonthYearDate(s, i, j)
  {
    forall j: nat ensures MonthYearDateAt(s, i) == Some(j) <==> MonthYearDate(s, i, j) {
      MonthYearDateAtIff(s, i, j);
    }
  }

  /** `\b\d{1,2}[-/]` followed by the month tail: `15/Set/2025`. */
  function MonthDayDateAt(s: string, i: nat): (r: Option<nat>)
    ensures r.Some? ==> i < r.value <= |s|
  {
    if i >= |s| || !WordBoundary(s, i) then None
    else
      var a := RunEnd(s, i, IsDigit);
      if a == i || a - i > 2 || a == |s| || !IsDateDash(s[a]) then None
      else MonthTailAt(s, a + 1)
  }

  ghost predicate MonthDayDate(s: string, i: nat, j: nat) {
    exists a: nat :: i < a <= i + 2 && a < |s| && WordBoundary(s, i) && Digits(s, i, a)
      && IsDateDash(s[a]) && MonthTail(s, a + 1, j)
  }

  lemma {:induction false} MonthDayDateAtIff(s: string, i: nat, j: nat)
    ensures MonthDayDateAt(s, i) == Some(j) <==> MonthDayDate(s, i, j)
  {
    if MonthDayDateAt(s, i) == Some(j) {
      var a := RunEnd(s, i, IsDigit);
      MonthTailAtIff(s, a + 1, j);
    }
    if MonthDayDate(s, i, j) {
      var a: nat :| i < a <= i + 2 && a < |s| && WordBoundary(s, i) && Digits(s, i, a)
        && IsDateDash(s[a]) && MonthTail(s, a + 1, j);
      RunEndUnique(s, i, IsDigit, a);
      MonthTailAtIff(s, a + 1, j);
    }
  }

  // ------------------------------------------------ the two alternations

  /** The six alternatives of the pattern in `limpar_data`, tried in order at i. The fourth
      repeats the first. */
  function AppDateAt(s: string, i: nat): (r: Option<nat>)
    ensures r.Some? ==> i < r.value <= |s|
  {
    var r1 := NumDateAt(s, i, "/", "/");
    if r1.Some? then r1
    else
      var r2 := NumDateAt(s, i, "-", "-");
      if r2.Some? then r2
      else
        var r3 := NumDateAt(s, i, ".", ".");
        if r3.Some? then r3
        else
          var r4 := NumDateAt(s, i, "/", "/");
          if r4.Some? then r4
          else
            var r5 := TextDateAt(s, i);
            if r5.Some? then r5 else MonthDayDateAt(s, i)
  }

  ghost predicate NoNumDate(s: string, i: nat, sep1: string, sep2: string) {
    forall j: nat :: !NumDate(s, i, j, sep1, sep2)
  }

  /** The alternation's match at i ends at j: the first alternative that matches at i
      ends there. */
  ghost predicate AppDate(s: string, i: nat, j: nat) {
    NumDate(s, i, j, "/", "/")
    || (NoNumDate(s, i, "/", "/") &&
       (NumDate(s, i, j, "-", "-")
        || (NoNumDate(s, i, "-", "-") &&
           (NumDate(s, i, j, ".", ".")
            || (NoNumDate(s, i, ".", ".") &&
               (TextDate(s, i, j)
                || ((forall j': nat :: !TextDate(s, i, j')) && MonthDayDate(s, i, j))))))))
  }

  lemma {:induction false} AppDateAtIff(s: string, i: nat, j: nat)
    ensures AppDateAt(s, i) == Some(j) <==> AppDate(s, i, j)
  {
    assert NoDigitIn("/") && NoDigitIn("-") && NoDigitIn(".");
    NumDateAtIff(s, i, j, "/", "/");
    NumDateAtIff(s, i, j, "-", "-");
    NumDateAtIff(s, i, j, ".", ".");
    NumDateAtNone(s, i, "/", "/");
    NumDateAtNone(s, i, "-", "-");
    NumDateAtNone(s, i, ".", ".");
    TextDateAtIff(s, i, j);
    TextDateAtNone(s, i);
    MonthDayDateAtIff(s, i, j);
  }

  /** The repeated `/` alternative can never be the one that matches. */
  lemma {:induction false} AppDateRepeatIsDead(s: string, i: nat)
    ensures AppDateAt(s, i) ==
      (var r1 := NumDateAt(s, i, "/", "/");
       if r1.Some? then r1
       else
         var r2 := NumDateAt(s, i, "-", "-");
         if r2.Some? then r2
         else
           var r3 := NumDateAt(s, i, ".", ".");
           if r3.Some? then r3
           else
             var r5 := TextDateAt(s, i);
             if r5.Some? then r5 else MonthDayDateAt(s, i))
  {
  }

  /** The fallback `\b\d{1,2}[/\-.]\d{1,2}[/\-.]\d{2,4}\b` of `limpar_data`, which is also
      the first alternative of the DATA annotator: any of the three separators, mixed. */
  function MixedNumDateAt(s: string, i: nat): (r: Option<nat>)
    ensures r.Some? ==> i < r.value <= |s|
  {
    NumDateAt(s, i, "/-.", "/-.")
  }

  ghost predicate MixedNumDate(s: string, i: nat, j: nat) {
    NumDate(s, i, j, "/-.", "/-.")
  }

  lemma {:induction false} MixedNumDateAtIff(s: string, i: nat, j: nat)
    ensures MixedNumDateAt(s, i) == Some(j) <==> MixedNumDate(s, i, j)
  {
    assert NoDigitIn("/-.");
    NumDateAtIff(s, i, j, "/-.", "/-.");
  }

  lemma {:induction false} MixedNumDateAtNone(s: string, i: nat)
    ensures MixedNumDateAt(s, i).None? <==> NoNumDate(s, i, "/-.", "/-.")
  {
    assert NoDigitIn("/-.");
    NumDateAtNone(s, i, "/-.", "/-.");
  }

  /** The four alternatives of the DATA annotator's pattern, tried in order at i. */
  function DataDateAt(s: string, i: nat): (r: Option<nat>)
    ensures r.Some? ==> i < r.value <= |s|
  {
    var r1 := MixedNumDateAt(s, i);
    if r1.Some? then r1
    else
      var r2 := TextDateAt(s, i);
      if r2.Some? then r2
      else
        var r3 := MonthYearDateAt(s, i);
        if r3.Some? then r3 else MonthDayDateAt(s, i)
  }

  ghost predicate DataDate(s: string, i: nat, j: nat) {
    MixedNumDate(s, i, j)
    || (NoNumDate(s, i, "/-.", "/-.") &&
       (TextDate(s, i, j)
        || ((forall j': nat :: !TextDate(s, i, j')) &&
           (MonthYearDate(s, i, j)
            || ((forall j': nat :: !MonthYearDate(s, i, j')) && MonthDayDate(s, i, j))))))
  }

  lemma {:induction false} DataDateAtIff(s: string, i: nat, j: nat)
    ensures DataDateAt(s, i) == Some(j) <==> DataDate(s, i, j)
  {
    MixedNumDateAtIff(s, i, j);
    MixedNumDateAtNone(s, i);
    TextDateAtIff(s, i, j);
    TextDateAtNone(s, i);
    MonthYearDateAtIff(s, i, j);
    MonthYearDateAtNone(s, i);
    MonthDayDateAtIff(s, i, j);
  }
}
