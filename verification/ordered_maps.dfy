/**
  A C# `Dictionary<K, V>` that is only ever added to, modelled as the sequence
  of its entries in insertion order (which is then also its enumeration order).
 */
module OrderedMaps {
  import opened Wrappers

  type Entries<K, V> = seq<(K, V)>

  /** The keys of the entries, in order. */
  function Keys<K, V>(m: Entries<K, V>): (ks: seq<K>)
    ensures |ks| == |m|
    ensures forall i :: 0 <= i < |m| ==> ks[i] == m[i].0
  {
    seq(|m|, i requires 0 <= i < |m| => m[i].0)
  }

  /** The values of the entries, in order. */
  function Values<K, V>(m: Entries<K, V>): (vs: seq<V>)
    ensures |vs| == |m|
    ensures forall i :: 0 <= i < |m| ==> vs[i] == m[i].1
  {
    seq(|m|, i requires 0 <= i < |m| => m[i].1)
  }

  /** No two positions of `s` hold the same element. */
  predicate Distinct<T(==)>(s: seq<T>) {
    forall i, j :: 0 <= i < j < |s| ==> s[i] != s[j]
  }

  /** Appending an element keeps a sequence repetition-free exactly when the element is new. */
  lemma DistinctSnoc<T>(s: seq<T>, x: T)
    ensures Distinct(s + [x]) <==> Distinct(s) && x !in s
  {
    assert forall i :: 0 <= i < |s| ==> (s + [x])[i] == s[i];
    assert (s + [x])[|s|] == x;
  }

  /**
    `k` is the first element of `s` that repeats an earlier one: it sits at a
    position `j` whose prefix has no repetition but already holds `k`.
   */
  predicate FirstRepeat<T(==)>(s: seq<T>, k: T) {
    exists j :: 0 <= j < |s| && s[j] == k && k in s[..j] && Distinct(s[..j])
  }

  /** The invariant every `Dictionary` keeps: no key occurs twice. */
  predicate DistinctKeys<K(==), V>(m: Entries<K, V>) {
    Distinct(Keys(m))
  }

  /**
    `Dictionary.Add`: appends the entry, or fails (the source's
    ArgumentException) when the key is already present.
   */
  function Add<K(==), V>(m: Entries<K, V>, k: K, v: V): (r: Option<Entries<K, V>>)
    ensures r.Some? <==> k !in Keys(m)
    ensures r.Some? ==> |r.value| == |m| + 1 && r.value[..|m|] == m && r.value[|m|] == (k, v)
    ensures r.Some? && DistinctKeys(m) ==> DistinctKeys(r.value)
  {
    if k in Keys(m) then None
    else
      var m' := m + [(k, v)];
      assert Keys(m') == Keys(m) + [k];
      Some(m')
  }

  /**
    A new dictionary filled by one `Add` per entry, in order. It reproduces
    the entries exactly when their keys are distinct, and otherwise fails with
    the key of the first entry whose `Add` meets an equal earlier key.
   */
  function FromEntries<K(==), V>(es: Entries<K, V>): (r: Result<Entries<K, V>, K>)
    ensures r.Success? <==> DistinctKeys(es)
    ensures r.Success? ==> r.value == es
    ensures r.Failure? ==> FirstRepeat(Keys(es), r.error)
  {
    if |es| == 0 then Success([])
    else
      var n := |es| - 1;
      var (k, v) := es[n];
      assert Keys(es) == Keys(es[..n]) + [k];
      DistinctSnoc(Keys(es[..n]), k);
      var copy := FromEntries(es[..n]);
      if copy.Failure? then
        FirstRepeatExtend(Keys(es[..n]), k, copy.error);
        copy
      else
        var added := Add(copy.value, k, v);
        if added.None? then
          FirstRepeatAtEnd(Keys(es[..n]), k);
          Failure(k)
        else
          assert es == es[..n] + [(k, v)];
          Success(added.value)
  }

  /** The first repetition of `s` stays the first one when `s` grows at the end. */
  lemma FirstRepeatExtend<T>(s: seq<T>, x: T, k: T)
    requires FirstRepeat(s, k)
    ensures FirstRepeat(s + [x], k)
  {
    var j :| 0 <= j < |s| && s[j] == k && k in s[..j] && Distinct(s[..j]);
    assert (s + [x])[..j] == s[..j] && (s + [x])[j] == k;
  }

  /** An element added after a repetition-free prefix that already holds it is the first repetition. */
  lemma FirstRepeatAtEnd<T>(s: seq<T>, k: T)
    requires Distinct(s) && k in s
    ensures FirstRepeat(s + [k], k)
  {
    assert (s + [k])[..|s|] == s && (s + [k])[|s|] == k;
  }

  /** At most one element is the first repetition, so a failure reporting it names a single key. */
  lemma FirstRepeatUnique<T>(s: seq<T>, k1: T, k2: T)
    requires FirstRepeat(s, k1) && FirstRepeat(s, k2)
    ensures k1 == k2
  {
    var j1 :| 0 <= j1 < |s| && s[j1] == k1 && k1 in s[..j1] && Distinct(s[..j1]);
    var j2 :| 0 <= j2 < |s| && s[j2] == k2 && k2 in s[..j2] && Distinct(s[..j2]);
    RepeatNotBeforeDistinct(s, j1, j2);
    RepeatNotBeforeDistinct(s, j2, j1);
  }

  /** A position that repeats an earlier element lies at or after the end of every repetition-free prefix. */
  lemma RepeatNotBeforeDistinct<T>(s: seq<T>, a: nat, b: nat)
    requires a < |s| && b <= |s| && s[a] in s[..a] && Distinct(s[..b])
    ensures b <= a
  {
    if a < b {
      assert false;
    }
  }

  /**
    The indexer `dict[k]`: the value stored under `k`; `None` stands for the
    KeyNotFoundException it throws for a missing key.
   */
  function Lookup<K(==), V>(m: Entries<K, V>, k: K): (r: Option<V>)
    ensures r.None? <==> k !in Keys(m)
    ensures r.Some? ==> exists i :: 0 <= i < |m| && m[i].0 == k && m[i].1 == r.value
  {
    if |m| == 0 then None
    else if m[0].0 == k then Some(m[0].1)
    else
      assert Keys(m) == [m[0].0] + Keys(m[1..]);
      var r := Lookup(m[1..], k);
      assert r.Some? ==> exists i :: 0 <= i < |m[1..]| && m[1..][i].0 == k && m[1..][i].1 == r.value;
      r
  }

  /** With distinct keys, looking up the key at `i` gives the value at `i`. */
  lemma LookupDistinct<K, V>(m: Entries<K, V>, i: nat)
    requires i < |m| && DistinctKeys(m)
    ensures Lookup(m, m[i].0) == Some(m[i].1)
  {
    var r := Lookup(m, m[i].0);
    assert Keys(m)[i] == m[i].0;
    var j :| 0 <= j < |m| && m[j].0 == m[i].0 && m[j].1 == r.value;
    assert Keys(m)[j] == Keys(m)[i];
  }

  /**
    The position of the first entry, at or after `from`, whose value is `v`;
    `None` when no such entry exists.
   */
  function FirstIndexFrom<K, V(==)>(m: Entries<K, V>, v: V, from: nat): (r: Option<nat>)
    requires from <= |m|
    ensures r.None? <==> forall j :: from <= j < |m| ==> m[j].1 != v
    ensures r.Some? ==> from <= r.value < |m| && m[r.value].1 == v
    ensures r.Some? ==> forall j :: from <= j < r.value ==> m[j].1 != v
    decreases |m| - from
  {
    if from == |m| then None
    else if m[from].1 == v then Some(from)
    else FirstIndexFrom(m, v, from + 1)
  }

  /**
    `First(x => x.Value == v).Key`: the key of the first entry whose value is
    `v`; `None` stands for the InvalidOperationException `First` throws when no
    entry matches.
   */
  function FirstKeyOf<K, V(==)>(m: Entries<K, V>, v: V): (r: Option<K>)
    ensures r.None? <==> v !in Values(m)
    ensures r.Some? ==> exists i :: 0 <= i < |m| && m[i].0 == r.value && m[i].1 == v && forall j :: 0 <= j < i ==> m[j].1 != v
  {
    var i := FirstIndexFrom(m, v, 0);
    if i.None? then
      assert forall j :: 0 <= j < |m| ==> Values(m)[j] != v;
      None
    else
      assert Values(m)[i.value] == v;
      Some(m[i.value].0)
  }

  /** When values are distinct, the first match of the value at `i` is the key at `i`. */
  lemma FirstKeyOfDistinct<K, V>(m: Entries<K, V>, i: nat)
    requires i < |m| && Distinct(Values(m))
    ensures FirstKeyOf(m, m[i].1) == Some(m[i].0)
  {
    assert Values(m[..i]) == Values(m)[..i];
  }
}
