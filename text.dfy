/** The Python string built-ins the modelled code relies on: `strip`, `split()`,
    `lower`, `find`, the `in` substring test, `" ".join` and slicing. */
module Text {
  import opened Wrappers
  import opened Chars

  predicate AllSpace(s: string) {
    forall k :: 0 <= k < |s| ==> IsSpace(s[k])
  }

  // ---------------------------------------------------------------- strip

  /** End of the stripped part: the largest b' <= b above a whose last character is
      not white space (or a itself). */
  function StripEnd(s: string, a: nat, b: nat): (r: nat)
    requires a <= b <= |s|
    ensures a <= r <= b
    ensures forall k :: r <= k < b ==> IsSpace(s[k])
    ensures r == a || !IsSpace(s[r - 1])
    decreases b
  {
    if b > a && IsSpace(s[b - 1]) then StripEnd(s, a, b - 1) else b
  }

  /** The bounds of `s.strip()` inside s. */
  function StripBounds(s: string): (ab: (nat, nat))
    ensures ab.0 <= ab.1 <= |s|
    ensures forall k :: 0 <= k < ab.0 ==> IsSpace(s[k])
    ensures forall k :: ab.1 <= k < |s| ==> IsSpace(s[k])
    ensures ab.0 < ab.1 ==> NotSpace(s[ab.0]) && NotSpace(s[ab.1 - 1])
    ensures ab.0 == ab.1 ==> AllSpace(s)
  {
    var a := RunEnd(s, 0, IsSpace);
    (a, StripEnd(s, a, |s|))
  }

  /** `s.strip()`: s without its leading and trailing white space. */
  function Strip(s: string): (r: string)
    ensures |r| <= |s|
    ensures r == [] || (NotSpace(r[0]) && NotSpace(r[|r| - 1]))
    ensures r == [] <==> AllSpace(s)
  {
    s[StripBounds(s).0..StripBounds(s).1]
  }

  /** Any string that carries no white space at either end is left alone. */
  lemma {:induction false} StripNoEdges(s: string)
    requires s == [] || (NotSpace(s[0]) && NotSpace(s[|s| - 1]))
    ensures Strip(s) == s
  {
    var ab := StripBounds(s);
    if s != [] {
      assert ab.0 == 0;
      assert ab.1 == |s|;
    }
  }

  /** Stripping twice is stripping once. */
  lemma {:induction false} StripIdempotent(s: string)
    ensures Strip(Strip(s)) == Strip(s)
  {
    StripNoEdges(Strip(s));
  }

  // ---------------------------------------------------------------- split

  /** [a, b) is a maximal run of non-space characters of s: a word of `s.split()`. */
  ghost predicate IsRun(s: string, a: nat, b: nat) {
    a < b <= |s| && NotSpace(s[a])
    && (forall k :: a <= k < b ==> NotSpace(s[k]))
    && (a == 0 || IsSpace(s[a - 1]))
    && (b == |s| || IsSpace(s[b]))
  }

  /** `s.split()` with no separator: the maximal runs of non-space characters, in order. */
  function Split(s: string): (parts: seq<string>)
    decreases |s|
  {
    var a := RunEnd(s, 0, IsSpace);
    if a == |s| then []
    else
      var b := RunEnd(s, a, NotSpace);
      [s[a..b]] + Split(s[b..])
  }

  lemma {:induction false} RunStart(s: string, a: nat, b: nat)
    requires IsRun(s, a, b)
    ensures NotSpace(s[a]) && (a == 0 || IsSpace(s[a - 1]))
  {
  }

  /** A run lying after position d, where d is white space, is a run of the suffix from d. */
  lemma {:induction false} RunInSuffix(s: string, d: nat, a: nat, b: nat)
    requires d < a && d < |s| && IsSpace(s[d])
    requires IsRun(s, a, b)
    ensures IsRun(s[d..], a - d, b - d) && s[d..][a - d..b - d] == s[a..b]
  {
  }

  /** A run of the suffix from d, where d is white space, is a run of s. */
  lemma {:induction false} RunFromSuffix(s: string, d: nat, a: nat, b: nat)
    requires d < |s| && IsSpace(s[d])
    requires IsRun(s[d..], a, b)
    ensures IsRun(s, d + a, d + b) && s[d + a..d + b] == s[d..][a..b]
  {
  }

  /** No word: the text is all white space. */
  lemma {:induction false} SplitNil(s: string)
    requires RunEnd(s, 0, IsSpace) == |s|
    ensures Split(s) == []
  {
  }

  /** The first word of `split()`, when there is one, is the first run [a, b). */
  lemma {:induction false} SplitCons(s: string, a: nat, b: nat)
    requires a == RunEnd(s, 0, IsSpace) && a < |s| && b == RunEnd(s, a, NotSpace)
    ensures Split(s) == [s[a..b]] + Split(s[b..])
  {
  }

  /** That first word is a maximal run. */
  lemma {:induction false} FirstRun(s: string, a: nat, b: nat)
    requires a == RunEnd(s, 0, IsSpace) && a < |s| && b == RunEnd(s, a, NotSpace)
    ensures IsRun(s, a, b)
  {
  }

  /** Each word of `split()` is a maximal run of non-space characters of s. */
  lemma {:induction false} SplitWordsAreRuns(s: string, x: nat)
    requires x < |Split(s)|
    ensures exists a: nat, b: nat :: IsRun(s, a, b) && Split(s)[x] == s[a..b]
    decreases |s|
  {
    var a0 := RunEnd(s, 0, IsSpace);
    if a0 == |s| {
      SplitNil(s);
    } else {
      var b0 := RunEnd(s, a0, NotSpace);
      var t := s[b0..];
      SplitCons(s, a0, b0);
      if x == 0 {
        FirstRun(s, a0, b0);
        assert Split(s)[0] == s[a0..b0];
      } else {
        SplitWordsAreRuns(t, x - 1);
        LaterWord(s, a0, b0, x);
      }
    }
  }

  /** A later word of the split is a word of the split of the suffix after the first. */
  lemma {:induction false} LaterWord(s: string, a0: nat, b0: nat, x: nat)
    requires a0 == RunEnd(s, 0, IsSpace) && a0 < |s| && b0 == RunEnd(s, a0, NotSpace)
    requires 0 < x < |Split(s)|
    requires x - 1 < |Split(s[b0..])|
    requires exists a: nat, b: nat :: IsRun(s[b0..], a, b) && Split(s[b0..])[x - 1] == s[b0..][a..b]
    ensures exists a: nat, b: nat :: IsRun(s, a, b) && Split(s)[x] == s[a..b]
  {
    SplitCons(s, a0, b0);
    var rest := Split(s[b0..]);
    assert Split(s)[x] == rest[x - 1];
    SplitWordFromSuffix(s, b0, rest[x - 1]);
  }

  /** A run of the suffix after the first run is a run of s. */
  lemma {:induction false} SplitWordFromSuffix(s: string, d: nat, word: string)
    requires d <= |s| && (d == |s| || IsSpace(s[d]))
    requires exists a: nat, b: nat :: IsRun(s[d..], a, b) && word == s[d..][a..b]
    ensures exists a: nat, b: nat :: IsRun(s, a, b) && word == s[a..b]
  {
    var t := s[d..];
    var a': nat, b': nat :| IsRun(t, a', b') && word == t[a'..b'];
    RunFromSuffix(s, d, a', b');
  }

  /** Each maximal run of non-space characters of s is a word of `split()`. */
  lemma {:induction false} RunsAreSplitWords(s: string)
    ensures forall a: nat, b: nat :: IsRun(s, a, b) ==> s[a..b] in Split(s)
    decreases |s|
  {
    var a0 := RunEnd(s, 0, IsSpace);
    if a0 < |s| {
      var b0 := RunEnd(s, a0, NotSpace);
      var t := s[b0..];
      RunsAreSplitWords(t);
      assert Split(s) == [s[a0..b0]] + Split(t);
      forall a: nat, b: nat | IsRun(s, a, b) ensures s[a..b] in Split(s) {
        if a == a0 {
          RunEndUnique(s, a0, NotSpace, b);
        } else if a > b0 {
          RunInSuffix(s, b0, a, b);
        } else {
          RunStart(s, a, b);
          assert false;
        }
      }
    }
  }

  // ---------------------------------------------------------------- lower

  /** `s.lower()` */
  function LowerStr(s: string): (r: string)
    ensures |r| == |s|
    ensures forall k :: 0 <= k < |s| ==> r[k] == Lower(s[k])
  {
    if s == [] then [] else [Lower(s[0])] + LowerStr(s[1..])
  }

  /** Lower-casing commutes with slicing. */
  lemma {:induction false} LowerSlice(s: string, a: nat, b: nat)
    requires a <= b <= |s|
    ensures LowerStr(s)[a..b] == LowerStr(s[a..b])
  {
    var l := LowerStr(s)[a..b];
    var m := LowerStr(s[a..b]);
    forall k | 0 <= k < b - a ensures l[k] == m[k] {
      assert l[k] == LowerStr(s)[a + k];
      assert m[k] == Lower(s[a..b][k]);
    }
  }

  // ---------------------------------------------------------------- find / in

  /** t occurs in s starting at p. */
  predicate OccursAt(s: string, t: string, p: nat) {
    p + |t| <= |s| && s[p..p + |t|] == t
  }

  /** `s.find(t, k)`: the first occurrence of t at or after k. */
  function FindFrom(s: string, t: string, k: nat): (r: Option<nat>)
    ensures r.Some? ==> k <= r.value && OccursAt(s, t, r.value)
    ensures r.Some? ==> forall p :: k <= p < r.value ==> !OccursAt(s, t, p)
    ensures r.None? ==> forall p :: k <= p ==> !OccursAt(s, t, p)
    decreases |s| + 1 - k
  {
    if k + |t| > |s| then None
    else if s[k..k + |t|] == t then Some(k)
    else FindFrom(s, t, k + 1)
  }

  /** `s.find(t)`, with -1 as None. */
  function Find(s: string, t: string): (r: Option<nat>)
    ensures r.Some? ==> OccursAt(s, t, r.value) && forall p: nat :: p < r.value ==> !OccursAt(s, t, p)
    ensures r.None? <==> forall p: nat :: !OccursAt(s, t, p)
  {
    FindFrom(s, t, 0)
  }

  /** `t in s` for strings. */
  predicate Contains(s: string, t: string) {
    Find(s, t).Some?
  }

  /** A slice of s occurs in s, so `find` succeeds on it. */
  lemma {:induction false} ContainsSlice(s: string, a: nat, b: nat)
    requires a <= b <= |s|
    ensures Contains(s, s[a..b])
  {
    assert OccursAt(s, s[a..b], a);
  }

  /** The lower-cased text holds no upper-case character, so no literal that has one
      can occur in it. */
  lemma {:induction false} LowerStrNoUpper(s: string, t: string, k: nat)
    requires k < |t| && IsUpper(t[k])
    ensures !Contains(LowerStr(s), t)
  {
  }

  // ---------------------------------------------------------------- join

  /** `" ".join(parts)` */
  function JoinSpaces(parts: seq<string>): string
  {
    if |parts| == 0 then []
    else if |parts| == 1 then parts[0]
    else parts[0] + " " + JoinSpaces(parts[1..])
  }

  /** RunEnd from d + k in s is RunEnd from k in the suffix of s from d, shifted by d. */
  lemma {:induction false} RunEndShift(s: string, d: nat, k: nat, P: char -> bool)
    requires d + k <= |s|
    ensures RunEnd(s, d + k, P) == d + RunEnd(s[d..], k, P)
    decreases |s| - d - k
  {
    if d + k < |s| && P(s[d + k]) {
      assert s[d..][k] == s[d + k];
      RunEndShift(s, d, k + 1, P);
    }
  }

  /** A leading white-space character does not change the words of a string. */
  lemma {:induction false} SplitSkipsSpace(s: string)
    requires s != [] && IsSpace(s[0])
    ensures Split(s) == Split(s[1..])
  {
    SkipSpaceRuns(s);
    if RunEnd(s[1..], 0, IsSpace) == |s| - 1 {
      SplitNil(s);
      SplitNil(s[1..]);
    } else {
      SkipSpaceWord(s);
    }
  }

  lemma {:induction false} SkipSpaceWord(s: string)
    requires s != [] && IsSpace(s[0])
    requires RunEnd(s, 0, IsSpace) == 1 + RunEnd(s[1..], 0, IsSpace) < |s|
    requires RunEnd(s, RunEnd(s, 0, IsSpace), NotSpace) == 1 + RunEnd(s[1..], RunEnd(s[1..], 0, IsSpace), NotSpace)
    ensures Split(s) == Split(s[1..])
  {
    var t := s[1..];
    var a := RunEnd(t, 0, IsSpace);
    var b := RunEnd(t, a, NotSpace);
    SliceShift(s, a, b);
    SplitCons(s, 1 + a, 1 + b);
    SplitCons(t, a, b);
    var w := t[a..b];
    var rest := Split(t[b..]);
    assert Split(s) == [w] + rest;
  }

  lemma {:induction false} SliceShift(s: string, a: nat, b: nat)
    requires a <= b < |s|
    ensures s[1 + a..1 + b] == s[1..][a..b] && s[1 + b..] == s[1..][b..]
  {
    var t := s[1..];
    assert |s[1 + a..1 + b]| == |t[a..b]|;
    assert forall k :: 0 <= k < b - a ==> s[1 + a..1 + b][k] == s[1 + a + k] == t[a + k] == t[a..b][k];
    assert forall k :: 0 <= k < |s| - 1 - b ==> s[1 + b..][k] == s[1 + b + k] == t[b + k] == t[b..][k];
  }

  /** After a leading white-space character the runs are those of the rest, shifted by one. */
  lemma {:induction false} SkipSpaceRuns(s: string)
    requires s != [] && IsSpace(s[0])
    ensures RunEnd(s, 0, IsSpace) == 1 + RunEnd(s[1..], 0, IsSpace)
    ensures RunEnd(s[1..], 0, IsSpace) < |s| - 1 ==>
      RunEnd(s, 1 + RunEnd(s[1..], 0, IsSpace), NotSpace) == 1 + RunEnd(s[1..], RunEnd(s[1..], 0, IsSpace), NotSpace)
  {
    RunEndShift(s, 1, 0, IsSpace);
    var a := RunEnd(s[1..], 0, IsSpace);
    if a < |s| - 1 {
      RunEndShift(s, 1, a, NotSpace);
    }
  }

  /** A word followed by nothing or by white space is the first word of the split. */
  lemma {:induction false} SplitWordThen(w: string, rest: string)
    requires w != [] && forall k :: 0 <= k < |w| ==> NotSpace(w[k])
    requires rest == [] || IsSpace(rest[0])
    ensures Split(w + rest) == [w] + Split(rest)
  {
    var s := w + rest;
    assert forall m :: 0 <= m < |w| ==> s[m] == w[m];
    RunEndUnique(s, 0, IsSpace, 0);
    RunEndUnique(s, 0, NotSpace, |w|);
    SplitCons(s, 0, |w|);
    assert s[0..|w|] == w;
    assert s[|w|..] == rest;
  }

  /** Joining words with single spaces and splitting again gives back the words. */
  lemma {:induction false} SplitJoin(parts: seq<string>)
    requires forall x :: 0 <= x < |parts| ==> parts[x] != []
    requires forall x, k :: 0 <= x < |parts| && 0 <= k < |parts[x]| ==> NotSpace(parts[x][k])
    ensures Split(JoinSpaces(parts)) == parts
    decreases |parts|
  {
    if parts == [] {
      SplitNil([]);
    } else if |parts| == 1 {
      SplitWordThen(parts[0], []);
      SplitNil([]);
      assert parts[0] + [] == parts[0];
    } else {
      var tail := parts[1..];
      var j := JoinSpaces(tail);
      JoinCons(parts);
      WordsOfTail(parts);
      SplitWordThen(parts[0], [' '] + j);
      assert ([' '] + j)[1..] == j;
      SplitSkipsSpace([' '] + j);
      SplitJoin(tail);
      assert parts == [parts[0]] + tail;
    }
  }

  lemma {:induction false} JoinCons(parts: seq<string>)
    requires |parts| > 1
    ensures JoinSpaces(parts) == parts[0] + ([' '] + JoinSpaces(parts[1..]))
  {
  }

  lemma {:induction false} WordsOfTail(parts: seq<string>)
    requires parts != []
    requires forall x :: 0 <= x < |parts| ==> parts[x] != []
    requires forall x, k :: 0 <= x < |parts| && 0 <= k < |parts[x]| ==> NotSpace(parts[x][k])
    ensures forall x :: 0 <= x < |parts[1..]| ==> parts[1..][x] != []
    ensures forall x, k :: 0 <= x < |parts[1..]| && 0 <= k < |parts[1..][x]| ==> NotSpace(parts[1..][x][k])
  {
    assert forall x :: 0 <= x < |parts[1..]| ==> parts[1..][x] == parts[x + 1];
  }

  // ---------------------------------------------------------------- slicing

  /** One slice bound as Python normalises it for a sequence of length n. */
  function SliceIndex(x: int, n: nat): (r: nat)
    ensures r <= n
    ensures 0 <= x <= n ==> r == x
    ensures x < 0 && x + n >= 0 ==> r == x + n
    ensures x + n < 0 ==> r == 0
    ensures x > n ==> r == n
  {
    if x < 0 then (if x + n < 0 then 0 else x + n) else if x > n then n else x
  }

  /** The bounds of `s[lo:hi]` for a sequence of length n; a missing bound is None. */
  function SliceBounds(n: nat, lo: Option<int>, hi: Option<int>): (ab: (nat, nat))
    ensures ab.0 <= ab.1 <= n
    ensures lo == None ==> ab.0 == 0
    ensures lo.Some? ==> ab.0 == SliceIndex(lo.value, n)
    ensures ab.1 == ab.0 || ab.1 == (if hi == None then n else SliceIndex(hi.value, n))
  {
    var a := if lo == None then 0 else SliceIndex(lo.value, n);
    var b := if hi == None then n else SliceIndex(hi.value, n);
    if b < a then (a, a) else (a, b)
  }

  /** `s[lo:hi]` */
  function PySlice(s: string, lo: Option<int>, hi: Option<int>): (r: string)
    ensures |r| <= |s|
    ensures lo.Some? && hi.Some? && 0 <= lo.value <= hi.value <= |s| ==> r == s[lo.value..hi.value]
  {
    var ab := SliceBounds(|s|, lo, hi);
    s[ab.0..ab.1]
  }
}
