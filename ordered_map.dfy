/** Insertion-ordered maps with string keys: the JavaScript `Map` and the
    key order of a plain object, as association lists.  Setting an existing
    key replaces its value in place; a new key goes last. */
module OrderedMap {
  import opened Wrappers

  function Keys<V>(m: seq<(string, V)>): (ks: seq<string>)
    ensures |ks| == |m|
    ensures forall i :: 0 <= i < |m| ==> ks[i] == m[i].0
  {
    seq(|m|, i requires 0 <= i < |m| => m[i].0)
  }

  predicate Distinct<T(==)>(s: seq<T>)
  {
    forall i, j :: 0 <= i < j < |s| ==> s[i] != s[j]
  }

  predicate DistinctKeys<V>(m: seq<(string, V)>) { Distinct(Keys(m)) }

  /** Map.prototype.has */
  predicate Has<V>(m: seq<(string, V)>, k: string) { k in Keys(m) }

  /** Map.prototype.get */
  function Get<V>(m: seq<(string, V)>, k: string): (r: Option<V>)
    ensures r.None? <==> !Has(m, k)
    ensures r.Some? ==> (k, r.value) in m
    decreases |m|
  {
    if m == [] then None
    else if m[0].0 == k then Some(m[0].1)
    else
      assert Keys(m) == [m[0].0] + Keys(m[1..]);
      Get(m[1..], k)
  }

  /** Map.prototype.set, and assignment to a property of a plain object */
  function Put<V>(m: seq<(string, V)>, k: string, v: V): (r: seq<(string, V)>)
    ensures Keys(r) == if Has(m, k) then Keys(m) else Keys(m) + [k]
    ensures forall k' :: Get(r, k') == if k' == k then Some(v) else Get(m, k')
    decreases |m|
  {
    if m == [] then [(k, v)]
    else if m[0].0 == k then [(k, v)] + m[1..]
    else
      var r := [m[0]] + Put(m[1..], k, v);
      assert Keys(m) == [m[0].0] + Keys(m[1..]);
      assert Keys(r) == [m[0].0] + Keys(Put(m[1..], k, v));
      r
  }

  lemma PutKeepsDistinct<V>(m: seq<(string, V)>, k: string, v: V)
    requires DistinctKeys(m)
    ensures DistinctKeys(Put(m, k, v))
  {
  }

  /** In a map with distinct keys, the entry at position i is what Get finds. */
  lemma {:induction false} GetAt<V>(m: seq<(string, V)>, i: nat)
    requires DistinctKeys(m) && i < |m|
    ensures Get(m, m[i].0) == Some(m[i].1)
    decreases i
  {
    if i > 0 {
      assert Keys(m[1..]) == Keys(m)[1..];
      GetAt(m[1..], i - 1);
    }
  }

  /** Setting a new key appends the entry. */
  lemma {:induction false} PutNew<V>(m: seq<(string, V)>, k: string, v: V)
    requires !Has(m, k)
    ensures Put(m, k, v) == m + [(k, v)]
    decreases |m|
  {
    if m != [] {
      PutBehind(m, k, v);
      PutNew(m[1..], k, v);
      assert [m[0]] + (m[1..] + [(k, v)]) == m + [(k, v)];
    }
  }

  /** A key other than the first is set in the rest of the map. */
  lemma PutBehind<V>(m: seq<(string, V)>, k: string, v: V)
    requires m != [] && !Has(m, k)
    ensures !Has(m[1..], k) && Put(m, k, v) == [m[0]] + Put(m[1..], k, v)
  {
    assert Keys(m) == [m[0].0] + Keys(m[1..]);
  }

  /** Every entry after a Put was there before or is the new one. */
  lemma {:induction false} PutEntries<V>(m: seq<(string, V)>, k: string, v: V)
    ensures forall x :: x in Put(m, k, v) ==> x in m || x == (k, v)
    decreases |m|
  {
    if m != [] && m[0].0 != k {
      PutEntries(m[1..], k, v);
      assert forall x :: x in m[1..] ==> x in m;
    }
  }

  /** An entry of a map that grew by appending keeps its value. */
  lemma PrefixGet<V>(a: seq<(string, V)>, b: seq<(string, V)>, k: string)
    requires DistinctKeys(b) && |a| <= |b| && b[..|a|] == a && Has(a, k)
    ensures Get(b, k) == Get(a, k)
  {
    var i :| 0 <= i < |a| && Keys(a)[i] == k;
    assert Keys(a) == Keys(b)[..|a|];
    assert DistinctKeys(a);
    GetAt(a, i);
    GetAt(b, i);
  }

  /** With distinct keys, the key at position i is not among the earlier ones. */
  lemma FreshKeyAt<V>(m: seq<(string, V)>, i: nat)
    requires DistinctKeys(m) && i < |m|
    ensures !Has(m[..i], m[i].0)
  {
    assert Keys(m[..i]) == Keys(m)[..i];
  }

  /** Setting a key to the value it already has changes nothing, not even the order. */
  lemma {:induction false} PutSame<V>(m: seq<(string, V)>, i: nat)
    requires DistinctKeys(m) && i < |m|
    ensures Put(m, m[i].0, m[i].1) == m
    decreases i
  {
    if i > 0 {
      assert Keys(m)[0] != Keys(m)[i];
      assert Keys(m[1..]) == Keys(m)[1..];
      PutSame(m[1..], i - 1);
      assert m[1..][i - 1] == m[i];
    }
  }

  /** Map.prototype.values, in insertion order. */
  function Values<V>(m: seq<(string, V)>): (vs: seq<V>)
    ensures |vs| == |m|
    ensures forall i :: 0 <= i < |m| ==> vs[i] == m[i].1
  {
    seq(|m|, i requires 0 <= i < |m| => m[i].1)
  }

  /** A Put of a key not among the first n entries leaves those entries alone. */
  lemma {:induction false} PutKeepsPrefix<V>(m: seq<(string, V)>, n: nat, k: string, v: V)
    requires n <= |m| && !Has(m[..n], k)
    ensures n <= |Put(m, k, v)| && Put(m, k, v)[..n] == m[..n]
    decreases n
  {
    if n > 0 {
      assert Keys(m[..n])[0] == m[0].0;
      assert m[1..][..n - 1] == m[..n][1..];
      assert Keys(m[1..][..n - 1]) == Keys(m[..n])[1..];
      PutKeepsPrefix(m[1..], n - 1, k, v);
    }
  }
}
