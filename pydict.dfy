/** A Python `dict` as the list of its entries in insertion order.

    Python dictionaries remember insertion order, and the core depends on it
    (`list(profiles.keys())[0]` picks the first profile; a renamed profile moves to
    the end). Assigning to an existing key keeps its position, assigning to a new key
    appends, and `del`/`pop` remove the entry. */
module PyDict {
  import opened Wrappers

  type Dict<K, V> = seq<(K, V)>

  /** `list(d.keys())`. */
  function Keys<K, V>(d: Dict<K, V>): seq<K> {
    seq(|d|, i requires 0 <= i < |d| => d[i].0)
  }

  /** No element occurs twice. */
  predicate Distinct<T(==)>(s: seq<T>) {
    forall i, j :: 0 <= i < j < |s| ==> s[i] != s[j]
  }

  /** No key occurs twice: every value of Python's `dict` type has this shape. */
  predicate DistinctKeys<K(==), V>(d: Dict<K, V>) {
    Distinct(Keys(d))
  }

  lemma DistinctCons<T>(x: T, s: seq<T>)
    ensures Distinct([x] + s) <==> x !in s && Distinct(s)
  {
    var t := [x] + s;
    assert forall i :: 0 <= i < |s| ==> t[i + 1] == s[i];
    if x !in s && Distinct(s) {
      forall i, j | 0 <= i < j < |t| ensures t[i] != t[j] {
        if i > 0 { assert t[i] == s[i - 1]; }
        assert t[j] == s[j - 1];
      }
    }
    if x in s {
      var m :| 0 <= m < |s| && s[m] == x;
      assert t[0] == t[m + 1];
    }
    if !Distinct(s) {
      var i, j :| 0 <= i < j < |s| && s[i] == s[j];
      assert t[i + 1] == t[j + 1];
    }
  }

  lemma DistinctSnoc<T>(s: seq<T>, x: T)
    ensures Distinct(s + [x]) <==> x !in s && Distinct(s)
  {
    var t := s + [x];
    assert forall i :: 0 <= i < |s| ==> t[i] == s[i];
    if x in s {
      var m :| 0 <= m < |s| && s[m] == x;
      assert t[m] == t[|s|];
    }
    if !Distinct(s) {
      var i, j :| 0 <= i < j < |s| && s[i] == s[j];
      assert t[i] == t[j];
    }
  }

  lemma KeysTail<K, V>(d: Dict<K, V>)
    requires d != []
    ensures Keys(d) == [d[0].0] + Keys(d[1..])
  {
  }

  lemma KeysAppend<K, V>(a: Dict<K, V>, b: Dict<K, V>)
    ensures Keys(a + b) == Keys(a) + Keys(b)
  {
  }

  /** `d.get(k)`: present exactly when `k` is a key, and then the value stored with it. */
  function Get<K(==,!new), V>(d: Dict<K, V>, k: K): (r: Option<V>)
    ensures r.Some? <==> k in Keys(d)
    ensures r.Some? ==> (k, r.value) in d
  {
    if d == [] then None
    else
      KeysTail(d);
      if d[0].0 == k then Some(d[0].1) else Get(d[1..], k)
  }

  /** In a dictionary with distinct keys, looking up the key of entry `i` finds that entry. */
  lemma {:induction false} GetAt<K(!new), V>(d: Dict<K, V>, i: nat)
    requires DistinctKeys(d) && i < |d|
    ensures Get(d, d[i].0) == Some(d[i].1)
  {
    if i > 0 {
      KeysTail(d);
      DistinctCons(d[0].0, Keys(d[1..]));
      assert d[1..][i - 1] == d[i];
      assert Keys(d)[i] == d[i].0;
      GetAt(d[1..], i - 1);
    }
  }

  /** `d[k] = v` for a key `d` already has: the entry keeps its place and
      only `k` changes its value. */
  function Replace<K(==,!new), V>(d: Dict<K, V>, k: K, v: V): (r: Dict<K, V>)
    requires k in Keys(d)
    ensures Keys(r) == Keys(d)
    ensures Get(r, k) == Some(v)
    ensures forall j :: j != k ==> Get(r, j) == Get(d, j)
  {
    KeysTail(d);
    if d[0].0 == k then
      var r := [(k, v)] + d[1..];
      assert r[1..] == d[1..];
      r
    else
      var rest := Replace(d[1..], k, v);
      var r := [d[0]] + rest;
      assert r[1..] == rest;
      r
  }

  /** `d[k] = v`: an existing key keeps its place, a new key goes to the end;
      only `k` changes its value. */
  function Put<K(==,!new), V>(d: Dict<K, V>, k: K, v: V): (r: Dict<K, V>)
    ensures Keys(r) == if k in Keys(d) then Keys(d) else Keys(d) + [k]
    ensures Get(r, k) == Some(v)
    ensures forall j :: j != k ==> Get(r, j) == Get(d, j)
    ensures DistinctKeys(d) ==> DistinctKeys(r)
    ensures k !in Keys(d) ==> r == d + [(k, v)]
    ensures |r| == if k in Keys(d) then |d| else |d| + 1
  {
    if k in Keys(d) then
      var r := Replace(d, k, v);
      assert |Keys(r)| == |r|;
      r
    else
      KeysAppend(d, [(k, v)]);
      AppendGet(d, k, v);
      DistinctSnoc(Keys(d), k);
      d + [(k, v)]
  }

  /** `del d[k]` (or `d.pop(k)`): the key disappears, every other key keeps its value,
      and the remaining entries keep their order. */
  function Remove<K(==,!new), V>(d: Dict<K, V>, k: K): (r: Dict<K, V>)
    ensures k !in Keys(r)
    ensures forall j :: j != k ==> Get(r, j) == Get(d, j)
    ensures forall j :: j in Keys(r) <==> j in Keys(d) && j != k
    ensures k !in Keys(d) ==> r == d
    ensures DistinctKeys(d) ==> DistinctKeys(r)
    ensures DistinctKeys(d) && k in Keys(d) ==> |r| == |d| - 1
  {
    if d == [] then []
    else
      KeysTail(d);
      var rest := Remove(d[1..], k);
      var r := if d[0].0 == k then rest else [d[0]] + rest;
      DistinctCons(d[0].0, Keys(d[1..]));
      if d[0].0 == k then r
      else
        KeysTail(r);
        assert r[1..] == rest;
        DistinctCons(d[0].0, Keys(rest));
        r
  }

  /** With distinct keys, removing the key of entry `i` cuts exactly that entry out. */
  lemma {:induction false} RemoveAt<K(!new), V>(d: Dict<K, V>, i: nat)
    requires DistinctKeys(d) && i < |d|
    ensures Remove(d, d[i].0) == d[..i] + d[i + 1..]
  {
    KeysTail(d);
    DistinctCons(d[0].0, Keys(d[1..]));
    if i > 0 {
      var tail := d[1..];
      assert tail[i - 1] == d[i];
      assert Keys(d)[i] == d[i].0;
      RemoveAt(tail, i - 1);
      assert d[0].0 != d[i].0;
      assert [d[0]] + (tail[..i - 1] + tail[i..]) == d[..i] + d[i + 1..];
    }
  }

  /** Python's
        `for k, v in defaults.items():`
        `    if k not in skip and k not in d: d[k] = v`
      (defaults processed front to back). It only appends, never overwrites, and
      afterwards every non-skipped default key is present. */
  function WithDefaults<K(==,!new), V>(d: Dict<K, V>, defaults: Dict<K, V>, skip: set<K>): (r: Dict<K, V>)
    ensures |d| <= |r| && r[..|d|] == d
    ensures forall j :: j in Keys(d) ==> Get(r, j) == Get(d, j)
    ensures forall j :: j in Keys(r) <==> j in Keys(d) || (j in Keys(defaults) && j !in skip)
    ensures DistinctKeys(d) ==> DistinctKeys(r)
    ensures r == d <==> forall j :: j in Keys(defaults) && j !in skip ==> j in Keys(d)
    decreases |defaults|
  {
    if defaults == [] then d
    else
      var front := defaults[..|defaults| - 1];
      var prev := WithDefaults(d, front, skip);
      var (k, v) := defaults[|defaults| - 1];
      assert Keys(defaults) == Keys(front) + [k];
      var r := if k in skip || k in Keys(prev) then prev else prev + [(k, v)];
      KeysAppend(prev, [(k, v)]);
      DistinctSnoc(Keys(prev), k);
      assert Keys(r) == if r == prev then Keys(prev) else Keys(prev) + [k];
      assert forall j :: j != k ==> Get(r, j) == Get(prev, j) by {
        if r != prev { AppendGet(prev, k, v); }
      }
      r
  }

  /** With distinct default keys, a key that `WithDefaults` adds holds its default. */
  lemma {:induction false} WithDefaultsGet<K(!new), V>(d: Dict<K, V>, defaults: Dict<K, V>, skip: set<K>, k: K)
    requires DistinctKeys(defaults)
    requires k in Keys(defaults) && k !in Keys(d) && k !in skip
    ensures Get(WithDefaults(d, defaults, skip), k) == Get(defaults, k)
    decreases |defaults|
  {
    var front := defaults[..|defaults| - 1];
    var (last, v) := defaults[|defaults| - 1];
    assert defaults == front + [(last, v)];
    assert Keys(defaults) == Keys(front) + [last];
    DistinctSnoc(Keys(front), last);
    AppendGet(front, last, v);
    var prev := WithDefaults(d, front, skip);
    if k == last {
      assert k !in Keys(prev);
      AppendGet(prev, last, v);
    } else {
      WithDefaultsGet(d, front, skip, k);
      if last !in skip && last !in Keys(prev) {
        AppendGet(prev, last, v);
      }
    }
  }

  lemma AppendGet<K(!new), V>(d: Dict<K, V>, k: K, v: V)
    requires k !in Keys(d)
    ensures Get(d + [(k, v)], k) == Some(v)
    ensures forall j :: j != k ==> Get(d + [(k, v)], j) == Get(d, j)
  {
    if d != [] {
      assert (d + [(k, v)])[1..] == d[1..] + [(k, v)];
      KeysTail(d);
      AppendGet(d[1..], k, v);
    }
  }

  /** Storing the value a key already holds changes nothing. */
  lemma {:induction false} PutSame<K(!new), V>(d: Dict<K, V>, k: K, v: V)
    requires Get(d, k) == Some(v)
    ensures Put(d, k, v) == d
  {
    ReplaceSame(d, k, v);
  }

  lemma {:induction false} ReplaceSame<K(!new), V>(d: Dict<K, V>, k: K, v: V)
    requires Get(d, k) == Some(v)
    ensures Replace(d, k, v) == d
  {
    KeysTail(d);
    if d[0].0 != k {
      ReplaceSame(d[1..], k, v);
    }
  }

  /** A second assignment to the same key overrides the first. */
  lemma {:induction false} PutTwice<K(!new), V>(d: Dict<K, V>, k: K, v: V, w: V)
    ensures Put(Put(d, k, v), k, w) == Put(d, k, w)
  {
    if k in Keys(d) {
      ReplaceTwice(d, k, v, w);
    } else {
      var e := d + [(k, v)];
      KeysAppend(d, [(k, v)]);
      ReplaceLast(d, k, v, w);
    }
  }

  lemma {:induction false} ReplaceTwice<K(!new), V>(d: Dict<K, V>, k: K, v: V, w: V)
    requires k in Keys(d)
    ensures Replace(Replace(d, k, v), k, w) == Replace(d, k, w)
  {
    KeysTail(d);
    var r := Replace(d, k, v);
    KeysTail(r);
    if d[0].0 != k {
      ReplaceTwice(d[1..], k, v, w);
    }
  }

  lemma {:induction false} ReplaceLast<K(!new), V>(d: Dict<K, V>, k: K, v: V, w: V)
    requires k !in Keys(d)
    ensures k in Keys(d + [(k, v)]) && Replace(d + [(k, v)], k, w) == d + [(k, w)]
  {
    KeysAppend(d, [(k, v)]);
    assert Keys([(k, v)]) == [k];
    var e := d + [(k, v)];
    if d == [] {
      assert e == [(k, v)] && e[1..] == [];
      assert Replace(e, k, w) == [(k, w)] + e[1..];
    } else {
      KeysTail(d);
      KeysTail(e);
      assert e[0] == d[0] && d[0].0 != k;
      assert e[1..] == d[1..] + [(k, v)];
      ReplaceLast(d[1..], k, v, w);
      assert Replace(e, k, w) == [d[0]] + Replace(e[1..], k, w);
      assert [d[0]] + (d[1..] + [(k, w)]) == d + [(k, w)];
    }
  }

  /** Deleting the key that was appended last restores the dictionary. */
  lemma {:induction false} RemoveLast<K(!new), V>(d: Dict<K, V>, k: K, v: V)
    requires k !in Keys(d)
    ensures Remove(d + [(k, v)], k) == d
  {
    if d != [] {
      KeysTail(d);
      assert (d + [(k, v)])[1..] == d[1..] + [(k, v)];
      RemoveLast(d[1..], k, v);
    }
  }

  /** `d` with `pairs` assigned in order, as `dict(pairs)`, a dict
      comprehension or `{**d, **pairs}` build it: a later pair overrides the
      value of an earlier one and keeps its place. */
  function PutAll<K(==,!new), V>(d: Dict<K, V>, pairs: seq<(K, V)>): (r: Dict<K, V>)
    ensures DistinctKeys(d) ==> DistinctKeys(r)
  {
    if pairs == [] then d
    else
      var n := |pairs| - 1;
      var front := PutAll(d, pairs[..n]);
      Put(front, pairs[n].0, pairs[n].1)
  }

  /** When no key repeats, assigning the pairs simply appends them. */
  lemma {:induction false} PutAllFresh<K(!new), V>(d: Dict<K, V>, pairs: seq<(K, V)>)
    requires Distinct(Keys(d) + Keys(pairs))
    ensures PutAll(d, pairs) == d + pairs
  {
    if pairs != [] {
      var n := |pairs| - 1;
      assert Keys(pairs) == Keys(pairs[..n]) + [pairs[n].0];
      assert Keys(d) + Keys(pairs) == (Keys(d) + Keys(pairs[..n])) + [pairs[n].0];
      DistinctSnoc(Keys(d) + Keys(pairs[..n]), pairs[n].0);
      PutAllFresh(d, pairs[..n]);
      KeysAppend(d, pairs[..n]);
      assert pairs == pairs[..n] + [pairs[n]];
    }
  }
}
