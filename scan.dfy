/** The driver behind `re.search`, `re.findall` and `re.finditer`: a compiled pattern is a
    matcher giving, for a start position of a text, the end of the match the regex engine
    reports there (or None). Every pattern of this model matches at least one character,
    so the driver only ever sees non-empty matches. */
module Scan {
  import opened Wrappers

  type Matcher = (string, nat) -> Option<nat>

  /** The match of m at k, kept only when it is non-empty and inside the text. */
  function MatchAt(m: Matcher, s: string, k: nat): (r: Option<nat>)
    ensures r.Some? ==> k < r.value <= |s|
  {
    match m(s, k)
    case Some(e) => if k < e <= |s| then Some(e) else None
    case None => None
  }

  /** `re.search(p, s, pos=k)`: the leftmost match at or after k. */
  function Search(m: Matcher, s: string, k: nat): (r: Option<(nat, nat)>)
    ensures r.Some? ==> k <= r.value.0 && MatchAt(m, s, r.value.0) == Some(r.value.1)
    ensures r.Some? ==> forall p :: k <= p < r.value.0 ==> MatchAt(m, s, p).None?
    ensures r.None? ==> forall p :: k <= p ==> MatchAt(m, s, p).None?
    decreases |s| + 1 - k
  {
    if k > |s| then None
    else match MatchAt(m, s, k)
      case Some(e) => Some((k, e))
      case None => Search(m, s, k + 1)
  }

  /** `re.finditer(p, s)` resumed at k: the leftmost match, then the matches of the rest
      of the text after its end. */
  function FindIter(m: Matcher, s: string, k: nat): (r: seq<(nat, nat)>)
    ensures forall x :: 0 <= x < |r| ==> k <= r[x].0 && MatchAt(m, s, r[x].0) == Some(r[x].1)
    ensures forall x :: 0 <= x < |r| - 1 ==> r[x].1 <= r[x + 1].0
    ensures r == [] <==> Search(m, s, k).None?
    ensures r != [] ==> r[0] == Search(m, s, k).value
    decreases |s| + 1 - k
  {
    match Search(m, s, k)
    case None => []
    case Some((a, b)) => [(a, b)] + FindIter(m, s, b)
  }

  /** No match is skipped: every position at or after k where the pattern matches lies
      inside one of the reported matches. */
  lemma {:induction false} FindIterCovers(m: Matcher, s: string, k: nat, p: nat)
    requires k <= p && MatchAt(m, s, p).Some?
    ensures exists x :: 0 <= x < |FindIter(m, s, k)| && FindIter(m, s, k)[x].0 <= p < FindIter(m, s, k)[x].1
    decreases |s| + 1 - k
  {
    var r := FindIter(m, s, k);
    var (a, b) := Search(m, s, k).value;
    assert r == [(a, b)] + FindIter(m, s, b);
    if p >= b {
      FindIterCovers(m, s, b, p);
      var x :| 0 <= x < |FindIter(m, s, b)| && FindIter(m, s, b)[x].0 <= p < FindIter(m, s, b)[x].1;
      assert r[x + 1] == FindIter(m, s, b)[x];
    } else {
      assert r[0].0 <= p < r[0].1;
    }
  }

  /** One step of the finditer loop: a match at k is reported and scanning resumes at
      its end; otherwise scanning resumes at k + 1. */
  lemma {:induction false} FindIterStep(m: Matcher, s: string, k: nat)
    requires k <= |s|
    ensures MatchAt(m, s, k).Some? ==>
      FindIter(m, s, k) == [(k, MatchAt(m, s, k).value)] + FindIter(m, s, MatchAt(m, s, k).value)
    ensures MatchAt(m, s, k).None? ==> FindIter(m, s, k) == FindIter(m, s, k + 1)
  {
  }

  /** Past the end of the text nothing is found. */
  lemma {:induction false} FindIterEnd(m: Matcher, s: string, k: nat)
    requires k > |s|
    ensures FindIter(m, s, k) == []
  {
  }
}
