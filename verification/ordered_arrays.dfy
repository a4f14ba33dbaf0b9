/** PHP arrays with keys: the entries in insertion order, each key at most once.
    Assigning to an existing key replaces its value in place; assigning to a
    new key appends an entry. */
module OrderedArrays {
  import opened Php

  /** The keys of an array, in order. */
  function KeysOf<K, V>(a: seq<(K, V)>): seq<K> {
    seq(|a|, i requires 0 <= i < |a| => a[i].0)
  }

  function KeySet<K, V>(a: seq<(K, V)>): set<K> {
    set i | 0 <= i < |a| :: a[i].0
  }

  /** The representation invariant of a PHP array: no key occurs twice. */
  predicate DistinctKeys<K(==), V>(a: seq<(K, V)>) {
    forall i, j :: 0 <= i < j < |a| ==> a[i].0 != a[j].0
  }

  /** The position of key `k` in `a`. */
  function IndexOfKey<K(==), V>(a: seq<(K, V)>, k: K): (i: nat)
    requires k in KeySet(a)
    ensures i < |a| && a[i].0 == k
  {
    if a[0].0 == k then 0
    else
      assert k in KeySet(a[1..]) by {
        var j :| 0 <= j < |a| && a[j].0 == k;
        assert a[1..][j - 1].0 == k;
      }
      1 + IndexOfKey(a[1..], k)
  }

  /** `$a[$k]` for a key that exists. */
  function Get<K(==), V>(a: seq<(K, V)>, k: K): (v: V)
    requires k in KeySet(a)
    ensures (k, v) in a
  {
    a[IndexOfKey(a, k)].1
  }

  /** `$a[$k] = $v`. */
  function Put<K(==), V>(a: seq<(K, V)>, k: K, v: V): (r: seq<(K, V)>)
    requires DistinctKeys(a)
    ensures DistinctKeys(r)
    ensures KeySet(r) == KeySet(a) + {k}
    ensures (k, v) in r
    ensures forall e :: e in r ==> e == (k, v) || (e in a && e.0 != k)
    ensures forall e :: e in a && e.0 != k ==> e in r
    ensures KeysOf(r) == if k in KeySet(a) then KeysOf(a) else KeysOf(a) + [k]
  {
    if k in KeySet(a) then
      var i := IndexOfKey(a, k);
      var r := a[i := (k, v)];
      assert forall j :: 0 <= j < |a| ==> r[j].0 == a[j].0;
      assert KeysOf(r) == KeysOf(a);
      assert forall e :: e in a && e.0 != k ==> e in r by {
        forall e | e in a && e.0 != k ensures e in r {
          var j :| 0 <= j < |a| && a[j] == e;
          assert r[j] == e;
        }
      }
      r
    else
      var r := a + [(k, v)];
      assert KeysOf(r) == KeysOf(a) + [k];
      assert KeySet(r) == KeySet(a) + {k} by {
        forall x | x in KeySet(r) ensures x in KeySet(a) + {k} {
          var j :| 0 <= j < |r| && r[j].0 == x;
          if j < |a| { assert a[j].0 == x; }
        }
        forall x | x in KeySet(a) ensures x in KeySet(r) {
          var j :| 0 <= j < |a| && a[j].0 == x;
          assert r[j].0 == x;
        }
        assert r[|a|].0 == k;
      }
      r
  }

  lemma KeySetCons<K, V>(a: seq<(K, V)>)
    requires |a| > 0
    ensures KeySet(a) == {a[0].0} + KeySet(a[1..])
  {
    forall x | x in KeySet(a) ensures x in {a[0].0} + KeySet(a[1..]) {
      var i :| 0 <= i < |a| && a[i].0 == x;
      if i > 0 { assert a[1..][i - 1].0 == x; }
    }
  }

  /** An array is well formed exactly when its tail is and its first key
      does not recur. */
  lemma DistinctKeysCons<K, V>(a: seq<(K, V)>)
    requires |a| > 0
    ensures DistinctKeys(a) <==> DistinctKeys(a[1..]) && a[0].0 !in KeySet(a[1..])
  {
    var t := a[1..];
    if DistinctKeys(a) {
      forall i, j | 0 <= i < j < |t| ensures t[i].0 != t[j].0 {
        assert t[i] == a[i + 1] && t[j] == a[j + 1];
      }
      forall x | x in KeySet(t) ensures x != a[0].0 {
        var i :| 0 <= i < |t| && t[i].0 == x;
        assert t[i] == a[i + 1];
      }
    }
    if DistinctKeys(t) && a[0].0 !in KeySet(t) {
      forall i, j | 0 <= i < j < |a| ensures a[i].0 != a[j].0 {
        assert a[j] == t[j - 1];
        if i > 0 { assert a[i] == t[i - 1]; }
      }
    }
  }

  /** In a well-formed array there are as many keys as entries. */
  lemma {:induction false} KeyCount<K, V>(a: seq<(K, V)>)
    requires DistinctKeys(a)
    ensures |KeySet(a)| == |a|
  {
    if |a| > 0 {
      var t := a[1..];
      KeyCount(t);
      KeySetCons(a);
      assert a[0].0 !in KeySet(t) by {
        forall i | 0 <= i < |t| ensures t[i].0 != a[0].0 {
          assert t[i] == a[i + 1];
        }
      }
    }
  }

  /** The parts of a well-formed array on either side of a cut share no key. */
  lemma KeySetSplitDisjoint<K, V>(a: seq<(K, V)>, n: nat)
    requires n <= |a| && DistinctKeys(a)
    ensures KeySet(a[..n]) !! KeySet(a[n..])
  {
    forall x | x in KeySet(a[..n]) ensures x !in KeySet(a[n..]) {
      var i :| 0 <= i < n && a[..n][i].0 == x;
      forall j | 0 <= j < |a| - n ensures a[n..][j].0 != x {
        assert a[n..][j] == a[n + j];
      }
    }
  }

  // ---------------------------------------------------------------------
  // foreach ($list as $x) { $out[key($x)] = value($x); }

  /** The key of every element of a list, in order. */
  function Project<T, K>(s: seq<T>, key: T -> K): (r: seq<K>)
    ensures |r| == |s|
    ensures forall i :: 0 <= i < |s| ==> r[i] == key(s[i])
  {
    seq(|s|, i requires 0 <= i < |s| => key(s[i]))
  }

  /** Some element of `s` has key `e.0` and value `e.1`. */
  ghost predicate FromList<T, K, V>(e: (K, V), s: seq<T>, key: T -> K, value: T -> V) {
    exists i :: 0 <= i < |s| && key(s[i]) == e.0 && value(s[i]) == e.1
  }

  /** The array built by assigning each element of a list under its key: the
      keys in order of first appearance, and for each key the value of its
      last element. */
  function IndexBy<T, K(==), V>(s: seq<T>, key: T -> K, value: T -> V): (r: seq<(K, V)>)
    ensures DistinctKeys(r)
    ensures KeySet(r) == Elements(Project(s, key))
    ensures KeysOf(r) == Unique(Project(s, key))
    ensures forall e :: e in r ==> FromList(e, s, key, value)
    ensures forall i :: 0 <= i < |s| && key(s[i]) !in Project(s, key)[i + 1..] ==> (key(s[i]), value(s[i])) in r
  {
    if |s| == 0 then []
    else
      var n := |s| - 1;
      var a := IndexBy(s[..n], key, value);
      IndexStepKeys(s, key, value, a);
      IndexStepEntries(s, key, value, a);
      IndexStepLast(s, key, value, a);
      Put(a, key(s[n]), value(s[n]))
  }

  /** The step of `IndexBy` for the keys: assigning one more element keeps
      them in order of first appearance. */
  lemma IndexStepKeys<T, K, V>(s: seq<T>, key: T -> K, value: T -> V, a: seq<(K, V)>)
    requires |s| > 0 && DistinctKeys(a)
    requires KeySet(a) == Elements(Project(s[..|s| - 1], key))
    requires KeysOf(a) == Unique(Project(s[..|s| - 1], key))
    ensures KeySet(Put(a, key(s[|s| - 1]), value(s[|s| - 1]))) == Elements(Project(s, key))
    ensures KeysOf(Put(a, key(s[|s| - 1]), value(s[|s| - 1]))) == Unique(Project(s, key))
  {
    var n := |s| - 1;
    var keys := Project(s, key);
    assert keys[..n] == Project(s[..n], key);
    ElementsSnoc(keys);
    PutFollowsUnique(keys, a, value(s[n]));
  }

  /** The step of `IndexBy` for the entries: each comes from an element. */
  lemma IndexStepEntries<T, K, V>(s: seq<T>, key: T -> K, value: T -> V, a: seq<(K, V)>)
    requires |s| > 0 && DistinctKeys(a)
    requires forall e :: e in a ==> FromList(e, s[..|s| - 1], key, value)
    ensures forall e :: e in Put(a, key(s[|s| - 1]), value(s[|s| - 1])) ==> FromList(e, s, key, value)
  {
    var n := |s| - 1;
    var r := Put(a, key(s[n]), value(s[n]));
    forall e | e in r ensures FromList(e, s, key, value) {
      if e != (key(s[n]), value(s[n])) {
        var i :| 0 <= i < n && key(s[..n][i]) == e.0 && value(s[..n][i]) == e.1;
        assert s[..n][i] == s[i];
      }
    }
  }

  /** The step of `IndexBy` for the values: every last occurrence's value
      is there. */
  lemma IndexStepLast<T, K, V>(s: seq<T>, key: T -> K, value: T -> V, a: seq<(K, V)>)
    requires |s| > 0 && DistinctKeys(a)
    requires var init := s[..|s| - 1];
      forall i :: 0 <= i < |init| && key(init[i]) !in Project(init, key)[i + 1..] ==> (key(init[i]), value(init[i])) in a
    ensures forall i :: 0 <= i < |s| && key(s[i]) !in Project(s, key)[i + 1..] ==>
      (key(s[i]), value(s[i])) in Put(a, key(s[|s| - 1]), value(s[|s| - 1]))
  {
    var n := |s| - 1;
    var init := s[..n];
    var r := Put(a, key(s[n]), value(s[n]));
    var keys := Project(s, key);
    forall i | 0 <= i < n && key(s[i]) !in keys[i + 1..]
      ensures (key(s[i]), value(s[i])) in r
    {
      assert init[i] == s[i];
      assert keys[n] == key(s[n]);
      assert Project(init, key)[i + 1..] == keys[i + 1..n];
    }
  }

  /** One more assignment keeps the keys in order of first appearance. */
  lemma PutFollowsUnique<K, V>(keys: seq<K>, a: seq<(K, V)>, v: V)
    requires |keys| > 0 && DistinctKeys(a)
    requires KeySet(a) == Elements(keys[..|keys| - 1])
    requires KeysOf(a) == Unique(keys[..|keys| - 1])
    ensures KeysOf(Put(a, keys[|keys| - 1], v)) == Unique(keys)
  {
    var n := |keys| - 1;
    var init := keys[..n];
    var u := Unique(init);
    assert Unique(keys) == if keys[n] in u then u else u + [keys[n]];
    if keys[n] in init {
      var i :| 0 <= i < n && init[i] == keys[n];
      assert keys[n] in u;
      assert keys[n] in KeySet(a);
    } else {
      assert keys[n] !in u;
      assert keys[n] !in KeySet(a);
    }
  }

}
