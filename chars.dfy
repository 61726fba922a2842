/** Python's character predicates and case mapping, exact on the Latin-1 range
    U+0000..U+00FF. Characters above U+00FF are treated as uncased, and as neither
    word characters, white space nor digits. */
module Chars {

  /** `\d` (a Unicode decimal digit): in Latin-1 only the ASCII digits. */
  predicate IsDigit(c: char) {
    '0' <= c <= '9'
  }

  /** `\s` and `str.isspace`: tab to carriage return, the four separators
      U+001C..U+001F, space, NEL and no-break space. */
  predicate IsSpace(c: char) {
    ('\t' <= c <= '\r') || ('\U{1C}' <= c <= ' ') || c == '\U{85}' || c == '\U{A0}'
  }

  predicate NotSpace(c: char) {
    !IsSpace(c)
  }

  /** The case-sensitive class `[A-Z]`. */
  predicate IsAsciiUpper(c: char) {
    'A' <= c <= 'Z'
  }

  /** `str.isupper` on one character: an upper-case letter. */
  predicate IsUpper(c: char) {
    IsAsciiUpper(c) || ('\U{C0}' <= c <= '\U{DE}' && c != '\U{D7}')
  }

  /** `\w`: letters, digits and the underscore, together with the Latin-1 characters
      that `str.isalnum` accepts (ª ² ³ µ ¹ º ¼ ½ ¾ and the accented letters). */
  predicate IsWord(c: char) {
    IsDigit(c) || ('a' <= c <= 'z') || IsAsciiUpper(c) || c == '_'
    || c == '\U{AA}' || c == '\U{B2}' || c == '\U{B3}' || c == '\U{B5}'
    || c == '\U{B9}' || c == '\U{BA}' || ('\U{BC}' <= c <= '\U{BE}')
    || ('\U{C0}' <= c <= '\U{FF}' && c != '\U{D7}' && c != '\U{F7}')
  }

  /** `str.lower` on one character. */
  function Lower(c: char): (r: char)
    ensures IsUpper(c) ==> r as int == c as int + 32
    ensures !IsUpper(c) ==> r == c
    ensures !IsUpper(r)
  {
    if IsUpper(c) then (c as int + 32) as char else c
  }

  /** Lower-casing keeps a character's class, so a class test may be made on either. */
  lemma {:induction false} LowerKeepsClass(c: char)
    ensures IsWord(Lower(c)) == IsWord(c)
    ensures IsSpace(Lower(c)) == IsSpace(c)
    ensures IsDigit(Lower(c)) == IsDigit(c)
  {
  }

  /** `\b` at position i of s: exactly one of the two neighbours is a word character. */
  predicate WordBoundary(s: string, i: nat)
    requires i <= |s|
  {
    (i > 0 && IsWord(s[i - 1])) != (i < |s| && IsWord(s[i]))
  }

  /** The end of the longest run of characters satisfying P that starts at k; a greedy
      quantifier over a single class stops exactly here. */
  function RunEnd(s: string, k: nat, P: char -> bool): (r: nat)
    requires k <= |s|
    ensures k <= r <= |s|
    ensures forall m :: k <= m < r ==> P(s[m])
    ensures r == |s| || !P(s[r])
    decreases |s| - k
  {
    if k == |s| || !P(s[k]) then k else RunEnd(s, k + 1, P)
  }

  /** A run that cannot be extended is the one RunEnd finds. */
  lemma {:induction false} RunEndUnique(s: string, k: nat, P: char -> bool, j: nat)
    requires k <= j <= |s|
    requires forall m :: k <= m < j ==> P(s[m])
    requires j == |s| || !P(s[j])
    ensures RunEnd(s, k, P) == j
  {
  }

  /** The case-insensitive literal w (given in lower case) occurs at i of s. */
  predicate CiLitAt(s: string, i: nat, w: string)
    decreases |w|
  {
    i + |w| <= |s| && (w == [] || (Lower(s[i]) == w[0] && CiLitAt(s, i + 1, w[1..])))
  }

  /** The case-insensitive sequence of classes p occurs at i of s: the k-th character,
      lower-cased, is one of the characters listed in p[k]. */
  predicate ClassesAt(s: string, i: nat, p: seq<string>)
    decreases |p|
  {
    i + |p| <= |s| && (p == [] || (Lower(s[i]) in p[0] && ClassesAt(s, i + 1, p[1..])))
  }

  lemma {:induction false} CiLitAtChars(s: string, i: nat, w: string)
    requires CiLitAt(s, i, w)
    ensures i + |w| <= |s|
    ensures forall k :: 0 <= k < |w| ==> Lower(s[i + k]) == w[k]
    decreases |w|
  {
    if w != [] {
      CiLitAtChars(s, i + 1, w[1..]);
      assert forall k :: 1 <= k < |w| ==> w[k] == w[1..][k - 1];
    }
  }

  lemma {:induction false} ClassesAtChars(s: string, i: nat, p: seq<string>)
    requires ClassesAt(s, i, p)
    ensures i + |p| <= |s|
    ensures forall k :: 0 <= k < |p| ==> Lower(s[i + k]) in p[k]
    decreases |p|
  {
    if p != [] {
      ClassesAtChars(s, i + 1, p[1..]);
      assert forall k :: 1 <= k < |p| ==> p[k] == p[1..][k - 1];
    }
  }

  /** Whether a literal occurs depends only on the characters it covers. */
  lemma {:induction false} CiLitAtSame(s: string, i: nat, t: string, j: nat, w: string)
    requires i + |w| <= |s| && j + |w| <= |t|
    requires s[i..i + |w|] == t[j..j + |w|]
    ensures CiLitAt(s, i, w) == CiLitAt(t, j, w)
    decreases |w|
  {
    if w != [] {
      assert s[i] == s[i..i + |w|][0];
      assert t[j] == t[j..j + |w|][0];
      assert s[i + 1..i + 1 + |w[1..]|] == s[i..i + |w|][1..];
      assert t[j + 1..j + 1 + |w[1..]|] == t[j..j + |w|][1..];
      CiLitAtSame(s, i + 1, t, j + 1, w[1..]);
    }
  }
}
