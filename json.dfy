/** The values `json.load` produces, with the few Python operations the loaders apply
    to them: `len`, indexing with a literal non-negative index, iteration, `isinstance`,
    the `in` test on a dict, and their use as slice bounds. Objects are lists of
    key/value pairs in the order the file gives them; a key the file repeats is one
    entry of the dict, at its first position and with its last value. */
module Json {
  import opened Wrappers

  datatype Json =
    | JNull
    | JBool(b: bool)
    | JInt(n: int)
    | JStr(s: string)
    | JList(elems: seq<Json>)
    | JDict(entries: seq<(string, Json)>)

  /** `len(j)`: defined on strings, lists and dicts (one per distinct key); anything else
      raises TypeError. */
  function Len(j: Json): (r: Result<nat>)
    ensures r.Err? <==> !(j.JStr? || j.JList? || j.JDict?)
    ensures r.Err? ==> r.error == TypeError
    ensures j.JList? ==> r == Ok(|j.elems|)
    ensures j.JStr? ==> r == Ok(|j.s|)
    ensures j.JDict? ==> r == Ok(|DictKeys(j.entries)|) && r.value <= |j.entries|
    ensures j.JDict? && DistinctPairs(j.entries) ==> r == Ok(|j.entries|)
  {
    match j
    case JStr(s) => Ok(|s|)
    case JList(l) => Ok(|l|)
    case JDict(d) => DictKeysCount(d); Ok(|DictKeys(d)|)
    case _ => Err(TypeError)
  }

  /** `j[n]` for a literal n >= 0: a list element, a one-character string, a KeyError on
      a dict (whose keys are strings), a TypeError on a scalar. */
  function Index(j: Json, n: nat): (r: Result<Json>)
    ensures j.JList? && n < |j.elems| ==> r == Ok(j.elems[n])
    ensures j.JList? && n >= |j.elems| ==> r == Err(IndexError)
    ensures j.JDict? ==> r == Err(KeyError)
    ensures r.Ok? ==> j.JList? || j.JStr?
  {
    match j
    case JList(l) => if n < |l| then Ok(l[n]) else Err(IndexError)
    case JStr(s) => if n < |s| then Ok(JStr([s[n]])) else Err(IndexError)
    case JDict(_) => Err(KeyError)
    case _ => Err(TypeError)
  }

  predicate NoRepeats(ks: seq<string>) {
    forall a, b :: 0 <= a < b < |ks| ==> ks[a] != ks[b]
  }

  /** No key of the file's pairs is repeated. */
  predicate DistinctPairs(d: seq<(string, Json)>) {
    forall a, b :: 0 <= a < b < |d| ==> d[a].0 != d[b].0
  }

  /** The index of the first pair with this key. */
  function FirstAt(d: seq<(string, Json)>, key: string): (k: nat)
    requires HasKey(d, key)
    ensures k < |d| && d[k].0 == key && forall k' :: 0 <= k' < k ==> d[k'].0 != key
  {
    if d[0].0 == key then 0
    else
      assert HasKey(d[1..], key) by {
        var k :| 0 <= k < |d| && d[k].0 == key;
        assert d[1..][k - 1].0 == key;
      }
      1 + FirstAt(d[1..], key)
  }

  /** The keys of the dict `json.load` builds: each distinct key once, in the order of
      its first occurrence (`DictKeysOrder`). */
  function DictKeys(d: seq<(string, Json)>): (ks: seq<string>)
    ensures forall key :: key in ks <==> HasKey(d, key)
    ensures NoRepeats(ks)
    decreases |d|
  {
    if d == [] then []
    else
      var init := d[..|d| - 1];
      var ks := DictKeys(init);
      var key := d[|d| - 1].0;
      assert forall k :: k in ks ==> HasKey(d, k) by {
        forall k | k in ks ensures HasKey(d, k) {
          var i :| 0 <= i < |init| && init[i].0 == k;
          assert d[i] == init[i];
        }
      }
      assert forall k :: HasKey(d, k) && k != key ==> k in ks by {
        forall k | HasKey(d, k) && k != key ensures k in ks {
          var i :| 0 <= i < |d| && d[i].0 == k;
          assert init[i] == d[i];
        }
      }
      if key in ks then ks else ks + [key]
  }

  lemma {:induction false} DictKeysOrder(d: seq<(string, Json)>)
    ensures forall a, b :: 0 <= a < b < |DictKeys(d)| ==> FirstAt(d, DictKeys(d)[a]) < FirstAt(d, DictKeys(d)[b])
    decreases |d|
  {
    if d != [] {
      var init := d[..|d| - 1];
      DictKeysOrder(init);
      DictKeysFirst(d, DictKeys(init));
    }
  }

  /** A dict has at most as many keys as the file has pairs, and exactly as many when
      no key is repeated. */
  lemma {:induction false} DictKeysCount(d: seq<(string, Json)>)
    ensures |DictKeys(d)| <= |d|
    ensures DistinctPairs(d) ==> |DictKeys(d)| == |d|
    decreases |d|
  {
    if d != [] {
      var init := d[..|d| - 1];
      var key := d[|d| - 1].0;
      DictKeysCount(init);
      if DistinctPairs(d) {
        forall a, b | 0 <= a < b < |init| ensures init[a].0 != init[b].0 {
          assert init[a] == d[a] && init[b] == d[b];
        }
        forall k | 0 <= k < |init| ensures init[k].0 != key {
          assert init[k] == d[k];
        }
        assert key !in DictKeys(init);
      }
    }
  }

  /** `for x in j`: a list gives its elements, a string its characters as one-character
      strings, a dict its distinct keys in order of first occurrence; anything else
      raises TypeError. */
  function Iter(j: Json): (r: Result<seq<Json>>)
    ensures r.Err? <==> !(j.JStr? || j.JList? || j.JDict?)
    ensures j.JList? ==> r == Ok(j.elems)
    ensures j.JStr? ==> r.Ok? && |r.value| == |j.s| && forall k :: 0 <= k < |j.s| ==> r.value[k] == JStr([j.s[k]])
    ensures j.JDict? ==> r.Ok? && (forall x :: x in r.value <==> x.JStr? && HasKey(j.entries, x.s))
    ensures j.JDict? ==> r.Ok? && forall a, b :: 0 <= a < b < |r.value| ==>
      r.value[a].JStr? && r.value[b].JStr? && FirstAt(j.entries, r.value[a].s) < FirstAt(j.entries, r.value[b].s)
  {
    match j
    case JList(l) => Ok(l)
    case JStr(s) => Ok(seq(|s|, k requires 0 <= k < |s| => JStr([s[k]])))
    case JDict(d) =>
      var ks := DictKeys(d);
      var r := seq(|ks|, k requires 0 <= k < |ks| => JStr(ks[k]));
      DictKeysOrder(d);
      assert forall x :: x in r <==> x.JStr? && x.s in ks by {
        forall x ensures x in r <==> x.JStr? && x.s in ks {
          if x.JStr? && x.s in ks {
            var k :| 0 <= k < |ks| && ks[k] == x.s;
            assert r[k] == x;
          }
        }
      }
      Ok(r)
    case _ => Err(TypeError)
  }

  /** `key in d` for a dict */
  predicate HasKey(d: seq<(string, Json)>, key: string) {
    exists k :: 0 <= k < |d| && d[k].0 == key
  }

  /** `d[key]`, the value bound to a key that is present. When the file repeats a key,
      `json.load` keeps the last of its values. */
  function Get(d: seq<(string, Json)>, key: string): (v: Json)
    requires HasKey(d, key)
    ensures exists k ::
      0 <= k < |d| && d[k] == (key, v) && forall k' :: k < k' < |d| ==> d[k'].0 != key
  {
    var n := |d| - 1;
    if d[n].0 == key then d[n].1
    else
      assert HasKey(d[..n], key) by {
        var k :| 0 <= k < |d| && d[k].0 == key;
        assert d[..n][k].0 == key;
      }
      Get(d[..n], key)
  }

  /** Appending a pair keeps the first occurrences of the keys already present. */
  lemma {:induction false} DictKeysFirst(d: seq<(string, Json)>, ks: seq<string>)
    requires d != [] && forall key :: key in ks <==> HasKey(d[..|d| - 1], key)
    ensures forall key :: key in ks ==> HasKey(d, key) && FirstAt(d, key) == FirstAt(d[..|d| - 1], key)
    ensures d[|d| - 1].0 !in ks ==> HasKey(d, d[|d| - 1].0) && FirstAt(d, d[|d| - 1].0) == |d| - 1
  {
    var init := d[..|d| - 1];
    forall key | key in ks ensures HasKey(d, key) && FirstAt(d, key) == FirstAt(init, key) {
      var f := FirstAt(init, key);
      assert d[f] == init[f];
      assert forall k' :: 0 <= k' < f ==> d[k'] == init[k'];
      var g := FirstAt(d, key);
      assert g <= f;
      assert g < |init| && init[g] == d[g];
    }
    var key := d[|d| - 1].0;
    if key !in ks {
      assert HasKey(d, key);
      forall k' | 0 <= k' < |d| - 1 ensures d[k'].0 != key {
        assert d[k'] == init[k'];
      }
    }
  }

  /** A key the file repeats is one entry: `{"a": 1, "a": 2}` has length 1. */
  lemma {:induction false} RepeatedKeyCountsOnce(a: string)
    ensures Len(JDict([(a, JInt(1)), (a, JInt(2))])) == Ok(1)
    ensures Iter(JDict([(a, JInt(1)), (a, JInt(2))])) == Ok([JStr(a)])
  {
    var d := [(a, JInt(1)), (a, JInt(2))];
    assert d[..1] == [(a, JInt(1))] && d[..1][..0] == [];
    assert DictKeys(d[..1]) == DictKeys([]) + [a];
    assert DictKeys(d) == [a];
    assert Iter(JDict(d)).value == [JStr(a)];
  }

  /** `isinstance(j, dict) and key in j` */
  predicate DictWith(j: Json, key: string) {
    j.JDict? && HasKey(j.entries, key)
  }

  /** A JSON value used as a slice bound: None is a missing bound, a bool counts as 0 or 1,
      an int is itself, and any other value raises TypeError. */
  function SliceBound(j: Json): (r: Result<Option<int>>)
    ensures j.JInt? ==> r == Ok(Some(j.n))
    ensures j.JNull? ==> r == Ok(None)
    ensures r.Err? <==> !(j.JInt? || j.JNull? || j.JBool?)
  {
    match j
    case JNull => Ok(None)
    case JBool(b) => Ok(Some(if b then 1 else 0))
    case JInt(n) => Ok(Some(n))
    case _ => Err(TypeError)
  }
}
