/** The name post-processing of `extrair_entidades_multimodelo` (app_OCR.py): sort the
    collected names by decreasing length (`sorted(..., key=len, reverse=True)`, a stable
    sort), keep each name that is not part of a longer name already kept, and keep the
    survivors that pass `validar_nome_paciente`. */
module NameLists {
  import opened Chars
  import opened Text
  import opened Names

  // ------------------------------------------------ list vocabulary

  predicate Distinct(xs: seq<string>) {
    forall i, j :: 0 <= i < j < |xs| ==> xs[i] != xs[j]
  }

  predicate NonIncreasing(xs: seq<string>) {
    forall i, j :: 0 <= i < j < |xs| ==> |xs[i]| >= |xs[j]|
  }

  /** No name of xs occurs inside a different name of xs. */
  predicate NoNested(xs: seq<string>) {
    forall x, y :: x in xs && y in xs && x != y ==> !Contains(y, x)
  }

  /** a is a subsequence of b: b with some elements left out. */
  predicate Subseq(a: seq<string>, b: seq<string>)
    decreases |b|
  {
    if a == [] then true
    else if b == [] then false
    else (a[|a| - 1] == b[|b| - 1] && Subseq(a[..|a| - 1], b[..|b| - 1])) || Subseq(a, b[..|b| - 1])
  }

  /** The names of xs whose length is n, in order. */
  function WithLength(xs: seq<string>, n: nat): seq<string>
  {
    if xs == [] then []
    else WithLength(xs[..|xs| - 1], n) + (if |xs[|xs| - 1]| == n then [xs[|xs| - 1]] else [])
  }

  // ------------------------------------------------ subsequences

  lemma {:induction false} SubseqSnoc(a: seq<string>, b: seq<string>, x: string)
    requires Subseq(a, b)
    ensures Subseq(a, b + [x]) && Subseq(a + [x], b + [x])
  {
    assert (b + [x])[..|b|] == b;
    assert (a + [x])[..|a|] == a;
  }

  lemma {:induction false} SubseqRefl(a: seq<string>)
    ensures Subseq(a, a)
    decreases |a|
  {
    if a != [] {
      SubseqRefl(a[..|a| - 1]);
    }
  }

  lemma {:induction false} SubseqMembers(a: seq<string>, b: seq<string>)
    requires Subseq(a, b)
    ensures forall x :: x in a ==> x in b
    decreases |b|
  {
    if a != [] {
      var a', b' := a[..|a| - 1], b[..|b| - 1];
      assert b == b' + [b[|b| - 1]];
      if a[|a| - 1] == b[|b| - 1] && Subseq(a', b') {
        SubseqMembers(a', b');
        assert a == a' + [a[|a| - 1]];
      } else {
        SubseqMembers(a, b');
      }
    }
  }

  lemma {:induction false} SubseqTrans(a: seq<string>, b: seq<string>, c: seq<string>)
    requires Subseq(a, b) && Subseq(b, c)
    ensures Subseq(a, c)
    decreases |c|
  {
    if a != [] {
      var b', c' := b[..|b| - 1], c[..|c| - 1];
      if Subseq(b, c') {
        SubseqTrans(a, b, c');
      } else {
        var a' := a[..|a| - 1];
        if a[|a| - 1] == b[|b| - 1] && Subseq(a', b') {
          if a' != [] {
            SubseqTrans(a', b', c');
          }
        } else {
          SubseqTrans(a, b', c');
        }
      }
    }
  }

  lemma {:induction false} SubseqDistinct(a: seq<string>, b: seq<string>)
    requires Subseq(a, b) && Distinct(b)
    ensures Distinct(a)
    decreases |b|
  {
    if a != [] {
      var a', b' := a[..|a| - 1], b[..|b| - 1];
      if a[|a| - 1] == b[|b| - 1] && Subseq(a', b') {
        SubseqDistinct(a', b');
        SubseqMembers(a', b');
        assert b[|b| - 1] !in b';
        assert a[|a| - 1] !in a';
      } else {
        SubseqDistinct(a, b');
      }
    }
  }

  lemma {:induction false} SubseqNonIncreasing(a: seq<string>, b: seq<string>)
    requires Subseq(a, b) && NonIncreasing(b)
    ensures NonIncreasing(a)
    decreases |b|
  {
    if a != [] {
      var a', b' := a[..|a| - 1], b[..|b| - 1];
      NonIncreasingPrefix(b);
      if a[|a| - 1] == b[|b| - 1] && Subseq(a', b') {
        SubseqNonIncreasing(a', b');
        SubseqMembers(a', b');
        NonIncreasingLast(b);
        NonIncreasingSnoc(a', a[|a| - 1]);
        assert a == a' + [a[|a| - 1]];
      } else {
        SubseqNonIncreasing(a, b');
      }
    }
  }

  lemma {:induction false} NonIncreasingPrefix(b: seq<string>)
    requires NonIncreasing(b) && b != []
    ensures NonIncreasing(b[..|b| - 1])
  {
    assert forall i :: 0 <= i < |b| - 1 ==> b[..|b| - 1][i] == b[i];
  }

  /** The last name of a list sorted longest first is its shortest. */
  lemma {:induction false} NonIncreasingLast(b: seq<string>)
    requires NonIncreasing(b) && b != []
    ensures forall y :: y in b[..|b| - 1] ==> |y| >= |b[|b| - 1]|
  {
    assert forall i :: 0 <= i < |b| - 1 ==> b[..|b| - 1][i] == b[i];
  }

  lemma {:induction false} NonIncreasingSnoc(a: seq<string>, y: string)
    requires NonIncreasing(a) && forall z :: z in a ==> |z| >= |y|
    ensures NonIncreasing(a + [y])
  {
    var r := a + [y];
    forall i, j | 0 <= i < j < |r| ensures |r[i]| >= |r[j]| {
      assert r[i] == a[i];
      if j == |a| {
        assert a[i] in a;
      } else {
        assert r[j] == a[j];
      }
    }
  }

  lemma {:induction false} WithLengthSnoc(xs: seq<string>, x: string, n: nat)
    ensures WithLength(xs + [x], n) == WithLength(xs, n) + (if |x| == n then [x] else [])
  {
    assert (xs + [x])[..|xs|] == xs;
  }

  /** Dropping names keeps the relative order of the names of each length. */
  lemma {:induction false} SubseqWithLength(a: seq<string>, b: seq<string>, n: nat)
    requires Subseq(a, b)
    ensures Subseq(WithLength(a, n), WithLength(b, n))
    decreases |b|
  {
    if a != [] {
      var a', b' := a[..|a| - 1], b[..|b| - 1];
      var y := b[|b| - 1];
      assert b == b' + [y];
      WithLengthSnoc(b', y, n);
      if a[|a| - 1] == y && Subseq(a', b') {
        SubseqWithLength(a', b', n);
        assert a == a' + [y];
        WithLengthSnoc(a', y, n);
        if |y| == n {
          SubseqSnoc(WithLength(a', n), WithLength(b', n), y);
          assert WithLength(a, n) == WithLength(a', n) + [y];
          assert WithLength(b, n) == WithLength(b', n) + [y];
        } else {
          assert WithLength(a, n) == WithLength(a', n);
          assert WithLength(b, n) == WithLength(b', n);
        }
      } else {
        SubseqWithLength(a, b', n);
        if |y| == n {
          SubseqSnoc(WithLength(a, n), WithLength(b', n), y);
          assert WithLength(b, n) == WithLength(b', n) + [y];
        } else {
          assert WithLength(b, n) == WithLength(b', n);
        }
      }
    }
  }

  // ------------------------------------------------ the stable sort

  /** Insert x after every name at least as long as it. */
  function InsertByLength(s: seq<string>, x: string): (r: seq<string>)
    ensures |r| == |s| + 1
  {
    if s == [] then [x]
    else if |x| > |s[0]| then [x] + s
    else [s[0]] + InsertByLength(s[1..], x)
  }

  /** `sorted(xs, key=len, reverse=True)` */
  function SortByLength(xs: seq<string>): (r: seq<string>)
    ensures |r| == |xs|
  {
    if xs == [] then []
    else InsertByLength(SortByLength(xs[..|xs| - 1]), xs[|xs| - 1])
  }

  /** Inserting adds exactly x. */
  lemma {:induction false} InsertPerm(s: seq<string>, x: string)
    ensures multiset(InsertByLength(s, x)) == multiset(s) + multiset{x}
    decreases |s|
  {
    if s != [] && |x| <= |s[0]| {
      InsertPerm(s[1..], x);
      assert s == [s[0]] + s[1..];
    }
  }

  /** The sort is a permutation. */
  lemma {:induction false} SortPerm(xs: seq<string>)
    ensures multiset(SortByLength(xs)) == multiset(xs)
    decreases |xs|
  {
    if xs != [] {
      SortPerm(xs[..|xs| - 1]);
      InsertPerm(SortByLength(xs[..|xs| - 1]), xs[|xs| - 1]);
      assert xs == xs[..|xs| - 1] + [xs[|xs| - 1]];
    }
  }

  lemma {:induction false} InsertBounded(s: seq<string>, x: string, m: nat)
    requires forall i :: 0 <= i < |s| ==> |s[i]| <= m
    requires |x| <= m
    ensures forall i :: 0 <= i < |InsertByLength(s, x)| ==> |InsertByLength(s, x)[i]| <= m
    decreases |s|
  {
    if s != [] && |x| <= |s[0]| {
      InsertBounded(s[1..], x, m);
    }
  }

  lemma {:induction false} InsertKeepsOrder(s: seq<string>, x: string)
    requires NonIncreasing(s)
    ensures NonIncreasing(InsertByLength(s, x))
    decreases |s|
  {
    if s == [] {
    } else if |x| > |s[0]| {
      var r := [x] + s;
      assert forall j :: 0 < j < |r| ==> r[j] == s[j - 1];
    } else {
      var t := s[1..];
      assert forall i :: 0 <= i < |t| ==> t[i] == s[i + 1];
      InsertKeepsOrder(t, x);
      InsertBounded(t, x, |s[0]|);
      var u := InsertByLength(t, x);
      var r := [s[0]] + u;
      assert forall j :: 0 < j < |r| ==> r[j] == u[j - 1];
    }
  }

  lemma {:induction false} SortSorted(xs: seq<string>)
    ensures NonIncreasing(SortByLength(xs))
    decreases |xs|
  {
    if xs != [] {
      SortSorted(xs[..|xs| - 1]);
      InsertKeepsOrder(SortByLength(xs[..|xs| - 1]), xs[|xs| - 1]);
    }
  }

  lemma {:induction false} WithLengthAppend(a: seq<string>, b: seq<string>, n: nat)
    ensures WithLength(a + b, n) == WithLength(a, n) + WithLength(b, n)
    decreases |b|
  {
    if b == [] {
      assert a + b == a;
    } else {
      var b' := b[..|b| - 1];
      var y := b[|b| - 1];
      var e := if |y| == n then [y] else [];
      assert a + b == (a + b') + [y];
      assert b == b' + [y];
      WithLengthAppend(a, b', n);
      WithLengthSnoc(a + b', y, n);
      WithLengthSnoc(b', y, n);
      assert WithLength(a + b, n) == WithLength(a + b', n) + e;
      assert WithLength(b, n) == WithLength(b', n) + e;
    }
  }

  lemma {:induction false} WithLengthNone(s: seq<string>, n: nat)
    requires forall i :: 0 <= i < |s| ==> |s[i]| != n
    ensures WithLength(s, n) == []
    decreases |s|
  {
    if s != [] {
      WithLengthNone(s[..|s| - 1], n);
    }
  }

  lemma {:induction false} WithLengthOne(x: string, n: nat)
    ensures WithLength([x], n) == (if |x| == n then [x] else [])
  {
    WithLengthSnoc([], x, n);
    assert [] + [x] == [x];
  }

  lemma {:induction false} InsertStable(s: seq<string>, x: string, n: nat)
    requires NonIncreasing(s)
    ensures WithLength(InsertByLength(s, x), n) == WithLength(s, n) + WithLength([x], n)
    decreases |s|
  {
    if s == [] {
      WithLengthOne(x, n);
      assert InsertByLength(s, x) == [x];
    } else if |x| > |s[0]| {
      InsertStableFront(s, x, n);
    } else {
      var t := s[1..];
      assert NonIncreasing(t) by {
        assert forall i :: 0 <= i < |t| ==> t[i] == s[i + 1];
      }
      InsertStable(t, x, n);
      InsertStableBehind(s, x, n);
    }
  }

  /** A name longer than every other goes in front, and is the only one of its length. */
  lemma {:induction false} InsertStableFront(s: seq<string>, x: string, n: nat)
    requires NonIncreasing(s) && s != [] && |x| > |s[0]|
    ensures WithLength(InsertByLength(s, x), n) == WithLength(s, n) + WithLength([x], n)
  {
    WithLengthOne(x, n);
    assert InsertByLength(s, x) == [x] + s;
    WithLengthAppend([x], s, n);
    if |x| == n {
      assert forall i :: 0 <= i < |s| ==> |s[i]| <= |s[0]|;
      WithLengthNone(s, n);
    }
  }

  /** A name no longer than the first goes behind it. */
  lemma {:induction false} InsertStableBehind(s: seq<string>, x: string, n: nat)
    requires s != [] && |x| <= |s[0]|
    requires WithLength(InsertByLength(s[1..], x), n) == WithLength(s[1..], n) + WithLength([x], n)
    ensures WithLength(InsertByLength(s, x), n) == WithLength(s, n) + WithLength([x], n)
  {
    var t := s[1..];
    assert s == [s[0]] + t;
    assert InsertByLength(s, x) == [s[0]] + InsertByLength(t, x);
    WithLengthAppend([s[0]], t, n);
    WithLengthAppend([s[0]], InsertByLength(t, x), n);
  }

  /** The sort is stable: the names of each length keep their order. */
  lemma {:induction false} SortStable(xs: seq<string>, n: nat)
    ensures WithLength(SortByLength(xs), n) == WithLength(xs, n)
    decreases |xs|
  {
    if xs != [] {
      var xs' := xs[..|xs| - 1];
      var x := xs[|xs| - 1];
      var sorted' := SortByLength(xs');
      SortStable(xs', n);
      SortSorted(xs');
      InsertStable(sorted', x, n);
      WithLengthOne(x, n);
      var e := if |x| == n then [x] else [];
      assert WithLength(SortByLength(xs), n) == WithLength(sorted', n) + e;
      assert WithLength(xs, n) == WithLength(xs', n) + e;
    }
  }

  /** Sorting what is already in order changes nothing. */
  lemma {:induction false} InsertShortest(s: seq<string>, x: string)
    requires forall i :: 0 <= i < |s| ==> |s[i]| >= |x|
    ensures InsertByLength(s, x) == s + [x]
    decreases |s|
  {
    if s != [] {
      var t := s[1..];
      assert forall i :: 0 <= i < |t| ==> t[i] == s[i + 1];
      InsertShortest(t, x);
      assert s + [x] == [s[0]] + (t + [x]);
    }
  }

  lemma {:induction false} SortOfSorted(xs: seq<string>)
    requires NonIncreasing(xs)
    ensures SortByLength(xs) == xs
    decreases |xs|
  {
    if xs != [] {
      var xs' := xs[..|xs| - 1];
      var x := xs[|xs| - 1];
      assert forall i :: 0 <= i < |xs'| ==> xs'[i] == xs[i];
      SortOfSorted(xs');
      InsertShortest(xs', x);
      assert xs == xs' + [x];
    }
  }

  // ------------------------------------------------ dropping names inside longer ones

  /** `any(nome != outro and nome in outro for outro in kept)` */
  predicate PartOfKept(nome: string, kept: seq<string>) {
    exists outro :: outro in kept && nome != outro && Contains(outro, nome)
  }

  /** The `nomes_finais` loop over the sorted names, as a function of the prefix seen. */
  function KeepMaximal(xs: seq<string>): (r: seq<string>)
  {
    if xs == [] then []
    else
      var kept := KeepMaximal(xs[..|xs| - 1]);
      var nome := xs[|xs| - 1];
      if PartOfKept(nome, kept) then kept else kept + [nome]
  }

  lemma {:induction false} KeepMaximalSubseq(xs: seq<string>)
    ensures Subseq(KeepMaximal(xs), xs)
    decreases |xs|
  {
    if xs != [] {
      var xs' := xs[..|xs| - 1];
      KeepMaximalSubseq(xs');
      SubseqSnoc(KeepMaximal(xs'), xs', xs[|xs| - 1]);
      assert xs == xs' + [xs[|xs| - 1]];
    }
  }

  /** A string occurs inside one no longer than itself only when the two are equal. */
  lemma {:induction false} ContainsNotLonger(y: string, x: string)
    requires Contains(y, x) && |x| >= |y|
    ensures x == y
  {
    var p := Find(y, x).value;
    assert y[p..p + |x|] == x;
  }

  /** On names sorted by decreasing length with no repeats, what survives holds no name
      inside another. */
  lemma {:induction false} KeepMaximalNoNested(xs: seq<string>)
    requires NonIncreasing(xs) && Distinct(xs)
    ensures NoNested(KeepMaximal(xs))
    decreases |xs|
  {
    if xs != [] {
      var xs' := xs[..|xs| - 1];
      var nome := xs[|xs| - 1];
      var kept := KeepMaximal(xs');
      KeepMaximalNoNested(xs');
      KeepMaximalSubseq(xs');
      SubseqMembers(kept, xs');
      if !PartOfKept(nome, kept) {
        var r := kept + [nome];
        forall x, y | x in r && y in r && x != y ensures !Contains(y, x) {
          if x == nome {
            assert y in kept;
          } else if y == nome {
            assert x in xs';
            if Contains(y, x) {
              ContainsNotLonger(y, x);
            }
          } else {
            assert x in kept && y in kept;
          }
        }
      }
    }
  }

  /** Names that already hold no name inside another all survive. */
  lemma {:induction false} KeepMaximalOfNoNested(xs: seq<string>)
    requires NoNested(xs) && Distinct(xs)
    ensures KeepMaximal(xs) == xs
    decreases |xs|
  {
    if xs != [] {
      var xs' := xs[..|xs| - 1];
      var x := xs[|xs| - 1];
      NoNestedPrefix(xs);
      KeepMaximalOfNoNested(xs');
      NoNestedLast(xs);
      assert xs == xs' + [x];
    }
  }

  lemma {:induction false} NoNestedPrefix(xs: seq<string>)
    requires NoNested(xs) && Distinct(xs) && xs != []
    ensures NoNested(xs[..|xs| - 1]) && Distinct(xs[..|xs| - 1])
  {
    var xs' := xs[..|xs| - 1];
    assert forall i :: 0 <= i < |xs'| ==> xs'[i] == xs[i];
    assert forall y :: y in xs' ==> y in xs;
  }

  lemma {:induction false} NoNestedLast(xs: seq<string>)
    requires NoNested(xs) && xs != []
    ensures !PartOfKept(xs[|xs| - 1], xs[..|xs| - 1])
  {
    var xs' := xs[..|xs| - 1];
    var x := xs[|xs| - 1];
    assert x in xs;
    forall o | o in xs' && x != o ensures !Contains(o, x) {
      assert o in xs;
    }
  }

  // ------------------------------------------------ validation

  /** `[x for x in xs if p(x)]` */
  function Filter(xs: seq<string>, p: string -> bool): (r: seq<string>)
    ensures forall x :: x in r ==> p(x)
  {
    if xs == [] then []
    else Filter(xs[..|xs| - 1], p) + (if p(xs[|xs| - 1]) then [xs[|xs| - 1]] else [])
  }

  lemma {:induction false} FilterSubseq(xs: seq<string>, p: string -> bool)
    ensures Subseq(Filter(xs, p), xs)
    decreases |xs|
  {
    if xs != [] {
      var xs' := xs[..|xs| - 1];
      FilterSubseq(xs', p);
      var r := Filter(xs, p);
      if p(xs[|xs| - 1]) {
        assert r[..|r| - 1] == Filter(xs', p);
      } else {
        assert r == Filter(xs', p);
      }
    }
  }

  lemma {:induction false} FilterAll(xs: seq<string>, p: string -> bool)
    requires forall x :: x in xs ==> p(x)
    ensures Filter(xs, p) == xs
    decreases |xs|
  {
    if xs != [] {
      var xs' := xs[..|xs| - 1];
      assert forall y :: y in xs' ==> y in xs;
      FilterAll(xs', p);
      assert p(xs[|xs| - 1]);
      assert xs == xs' + [xs[|xs| - 1]];
    }
  }

  /** `[nome for nome in xs if validar_nome_paciente(nome)]` */
  function FilterValid(xs: seq<string>): seq<string> {
    Filter(xs, ValidarNomePaciente)
  }

  // ------------------------------------------------ the whole block

  /** The three steps of the block, as a function. */
  function PostProcess(names: seq<string>): seq<string> {
    FilterValid(KeepMaximal(SortByLength(names)))
  }

  /** On distinct names: every name kept is a valid name; no kept name occurs inside
      another; the names come longest first; names of equal length keep the order in
      which they were collected; and nothing is kept that was not collected. */
  lemma {:induction false} PostProcessSpec(names: seq<string>)
    requires Distinct(names)
    ensures forall x :: x in PostProcess(names) ==> ValidarNomePaciente(x)
    ensures Distinct(PostProcess(names)) && NoNested(PostProcess(names))
    ensures NonIncreasing(PostProcess(names))
    ensures forall n: nat :: Subseq(WithLength(PostProcess(names), n), WithLength(names, n))
    ensures forall x :: x in PostProcess(names) ==> x in names
  {
    PostProcessShape(names);
    PostProcessOrigin(names);
  }

  lemma {:induction false} PostProcessShape(names: seq<string>)
    requires Distinct(names)
    ensures Distinct(PostProcess(names)) && NoNested(PostProcess(names))
    ensures NonIncreasing(PostProcess(names))
  {
    var sorted := SortByLength(names);
    var kept := KeepMaximal(sorted);
    var r := FilterValid(kept);
    SortSorted(names);
    SortDistinct(names);
    KeepMaximalSubseq(sorted);
    KeepMaximalNoNested(sorted);
    FilterSubseq(kept, ValidarNomePaciente);
    SubseqTrans(r, kept, sorted);
    SubseqDistinct(r, sorted);
    SubseqNonIncreasing(r, sorted);
    SubseqMembers(r, kept);
  }

  lemma {:induction false} PostProcessOrigin(names: seq<string>)
    ensures forall n: nat :: Subseq(WithLength(PostProcess(names), n), WithLength(names, n))
    ensures forall x :: x in PostProcess(names) ==> x in names
  {
    var sorted := SortByLength(names);
    var kept := KeepMaximal(sorted);
    var r := FilterValid(kept);
    KeepMaximalSubseq(sorted);
    FilterSubseq(kept, ValidarNomePaciente);
    SubseqTrans(r, kept, sorted);
    SubseqMembers(r, sorted);
    SortPerm(names);
    forall x | x in r ensures x in names {
      assert x in multiset(sorted);
    }
    forall n: nat ensures Subseq(WithLength(r, n), WithLength(names, n)) {
      SubseqWithLength(r, sorted, n);
      SortStable(names, n);
    }
  }

  /** A name that lies inside no other collected name is kept by the `nomes_finais` loop,
      whatever the order of the names. */
  lemma {:induction false} KeepMaximalKeeps(xs: seq<string>, x: string)
    requires x in xs
    requires forall y :: y in xs && y != x ==> !Contains(y, x)
    ensures x in KeepMaximal(xs)
    decreases |xs|
  {
    var init := xs[..|xs| - 1];
    KeepMaximalSubseq(init);
    SubseqMembers(KeepMaximal(init), init);
    if x in init {
      assert forall y :: y in init ==> y in xs;
      KeepMaximalKeeps(init, x);
    } else {
      assert x == xs[|xs| - 1];
      assert forall y :: y in KeepMaximal(init) ==> y in xs;
      assert !PartOfKept(x, KeepMaximal(init));
    }
  }

  /** The comprehension keeps every element that satisfies the condition. */
  lemma {:induction false} FilterKeeps(xs: seq<string>, p: string -> bool, x: string)
    requires x in xs && p(x)
    ensures x in Filter(xs, p)
    decreases |xs|
  {
    var init := xs[..|xs| - 1];
    if x in init {
      FilterKeeps(init, p, x);
    } else {
      assert x == xs[|xs| - 1];
    }
  }

  /** The converse of `PostProcessSpec`: a valid collected name that lies inside no other
      collected name survives the post-processing. */
  lemma {:induction false} PostProcessKeeps(names: seq<string>, x: string)
    requires x in names && ValidarNomePaciente(x)
    requires forall y :: y in names && y != x ==> !Contains(y, x)
    ensures x in PostProcess(names)
  {
    var sorted := SortByLength(names);
    SortPerm(names);
    assert x in multiset(sorted);
    assert forall y :: y in sorted ==> y in multiset(names);
    KeepMaximalKeeps(sorted, x);
    FilterKeeps(KeepMaximal(sorted), ValidarNomePaciente, x);
  }

  /** When every collected name lies inside one valid name, that name alone is kept. */
  lemma {:induction false} ContainingNameKept(names: seq<string>, long: string)
    requires Distinct(names) && long in names && ValidarNomePaciente(long)
    requires forall y :: y in names && y != long ==> Contains(long, y) && !Contains(y, long)
    ensures PostProcess(names) == [long]
  {
    PostProcessKeeps(names, long);
    PostProcessSpec(names);
    var r := PostProcess(names);
    assert forall x :: x in r ==> x == long;
    assert |r| > 0 && r[0] in r && Distinct(r);
    assert forall j :: 0 <= j < |r| ==> r[j] in r && j == 0;
    assert r[|r| - 1] in r;
  }

  /** "Maria Silva" lies inside "Maria Silva Santos", which is kept alone. */
  lemma {:induction false} LongerNameKept(short: string, long: string)
    requires short == "Maria Silva" && long == "Maria Silva Santos"
    ensures PostProcess([short, long]) == [long]
  {
    FullNameAccepted(long);
    assert forall p: nat :: !OccursAt(short, long, p);
    ContainsSlice(long, 0, 11);
    assert long[0..11] == short;
    ContainingNameKept([short, long], long);
  }

  /** Sorting distinct names leaves them distinct. */
  lemma {:induction false} SortDistinct(names: seq<string>)
    requires Distinct(names)
    ensures Distinct(SortByLength(names))
    decreases |names|
  {
    if names != [] {
      var xs' := names[..|names| - 1];
      var x := names[|names| - 1];
      assert Distinct(xs');
      SortDistinct(xs');
      assert x !in xs';
      SortPerm(xs');
      assert x !in multiset(SortByLength(xs'));
      InsertDistinct(SortByLength(xs'), x);
    }
  }

  lemma {:induction false} InsertDistinct(s: seq<string>, x: string)
    requires Distinct(s) && x !in s
    ensures Distinct(InsertByLength(s, x))
    decreases |s|
  {
    if s == [] {
    } else if |x| > |s[0]| {
      DistinctCons(x, s);
    } else {
      var t := s[1..];
      assert s == [s[0]] + t;
      DistinctCons(s[0], t);
      InsertDistinct(t, x);
      var u := InsertByLength(t, x);
      InsertPerm(t, x);
      assert s[0] !in multiset(u);
      DistinctCons(s[0], u);
    }
  }

  lemma {:induction false} DistinctCons(y: string, t: seq<string>)
    ensures Distinct([y] + t) <==> y !in t && Distinct(t)
  {
    var r := [y] + t;
    assert forall j :: 0 < j < |r| ==> r[j] == t[j - 1];
    if y !in t && Distinct(t) {
      forall i, j | 0 <= i < j < |r| ensures r[i] != r[j] {
        if i == 0 {
          assert r[j] in t;
        }
      }
    }
    if Distinct(r) {
      assert forall i :: 0 <= i < |t| ==> t[i] == r[i + 1];
      forall k | 0 <= k < |t| ensures t[k] != y {
        assert r[0] == y && t[k] == r[k + 1];
      }
    }
  }

  /** Post-processing what post-processing produced changes nothing. */
  lemma {:induction false} PostProcessIdempotent(names: seq<string>)
    requires Distinct(names)
    ensures PostProcess(PostProcess(names)) == PostProcess(names)
  {
    var r := PostProcess(names);
    PostProcessSpec(names);
    SortOfSorted(r);
    KeepMaximalOfNoNested(r);
    FilterAll(r, ValidarNomePaciente);
  }

  /** The loop that builds `nomes_finais`. */
  method RemoveNestedNames(sorted: seq<string>) returns (finals: seq<string>)
    ensures finals == KeepMaximal(sorted)
  {
    finals := [];
    var i := 0;
    while i < |sorted|
      invariant 0 <= i <= |sorted|
      invariant finals == KeepMaximal(sorted[..i])
    {
      var nome := sorted[i];
      assert sorted[..i + 1][..i] == sorted[..i];
      if !PartOfKept(nome, finals) {
        finals := finals + [nome];
      }
      i := i + 1;
    }
    assert sorted[..|sorted|] == sorted;
  }
  /** The name post-processing of `extrair_entidades_multimodelo`: sort longest first,
      drop names inside kept ones, keep the valid ones. */
  method PostProcessNames(names: seq<string>) returns (nomesValidos: seq<string>)
    ensures nomesValidos == PostProcess(names)
  {
    var ordenados := SortByLength(names);
    var nomesFinais := RemoveNestedNames(ordenados);
    nomesValidos := FilterValid(nomesFinais);
  }

}
