/**
 * Python list and dict operations used by msml.py, on sequences. An
 * insertion-ordered dict is a sequence of (key, value) pairs.
 */
module Lists {

  /** No element occurs twice. */
  ghost predicate Distinct<T>(s: seq<T>)
  {
    forall i, j :: 0 <= i < j < |s| ==> s[i] != s[j]
  }

  lemma DistinctConcat<T>(a: seq<T>, b: seq<T>)
    ensures Distinct(a + b) <==> Distinct(a) && Distinct(b) && forall x :: x in a ==> x !in b
  {
    if Distinct(a) && Distinct(b) && forall x :: x in a ==> x !in b {
      forall i, j | 0 <= i < j < |a + b|
        ensures (a + b)[i] != (a + b)[j]
      {
        if j >= |a| && i < |a| {
          assert (a + b)[i] in a;
          assert (a + b)[j] == b[j - |a|];
        }
      }
    }
    if Distinct(a + b) {
      assert forall i :: 0 <= i < |a| ==> (a + b)[i] == a[i];
      assert forall j :: 0 <= j < |b| ==> (a + b)[|a| + j] == b[j];
      forall x | x in a
        ensures x !in b
      {
        var i :| 0 <= i < |a| && a[i] == x;
        forall j | 0 <= j < |b|
          ensures b[j] != x
        {
          assert (a + b)[i] == x && (a + b)[|a| + j] == b[j];
        }
      }
    }
  }

  function Keys<K, V>(d: seq<(K, V)>): seq<K>
  {
    seq(|d|, i requires 0 <= i < |d| => d[i].0)
  }

  function Values<K, V>(d: seq<(K, V)>): seq<V>
  {
    seq(|d|, i requires 0 <= i < |d| => d[i].1)
  }

  /** Python's `s.remove(x)`: drops the first occurrence of x. (Python raises ValueError when x is absent; this total version leaves s alone then.) */
  function RemoveFirst<T(==)>(s: seq<T>, x: T): (r: seq<T>)
  {
    if s == [] then []
    else if s[0] == x then s[1..]
    else [s[0]] + RemoveFirst(s[1..], x)
  }

  /** list.remove takes away exactly one occurrence of x, and nothing when there is none. */
  lemma {:induction false} RemoveFirstMultiset<T>(s: seq<T>, x: T)
    ensures x in s ==> multiset(RemoveFirst(s, x)) == multiset(s) - multiset{x}
    ensures x !in s ==> RemoveFirst(s, x) == s
  {
    if s != [] {
      assert s == [s[0]] + s[1..];
      if s[0] != x {
        RemoveFirstMultiset(s[1..], x);
      }
    }
  }

  lemma RemoveFirstSubset<T>(s: seq<T>, x: T, y: T)
    ensures y in RemoveFirst(s, x) ==> y in s
  {
    RemoveFirstMultiset(s, x);
    if x in s && y in RemoveFirst(s, x) {
      assert multiset(RemoveFirst(s, x))[y] > 0;
    }
  }

  /** Removing x leaves every other element in place. */
  lemma RemoveFirstKeeps<T>(s: seq<T>, x: T, y: T)
    requires y in s && y != x
    ensures y in RemoveFirst(s, x)
  {
    RemoveFirstMultiset(s, x);
    if x in s {
      assert multiset(s)[y] > 0;
      assert multiset(RemoveFirst(s, x))[y] == multiset(s)[y];
    }
  }

  lemma RemoveFirstLength<T>(s: seq<T>, x: T)
    requires x in s
    ensures |RemoveFirst(s, x)| == |s| - 1
  {
    RemoveFirstMultiset(s, x);
    assert |multiset(RemoveFirst(s, x))| == |multiset(s)| - 1;
  }

  /** Removing x where its first occurrence sits between u and w leaves u + w. */
  lemma {:induction false} RemoveFirstSplit<T>(u: seq<T>, x: T, w: seq<T>)
    requires x !in u
    ensures RemoveFirst(u + [x] + w, x) == u + w
  {
    var s := u + [x] + w;
    if u == [] {
      assert s == [x] + w && s[0] == x && s[1..] == w;
    } else {
      assert s[0] == u[0] != x;
      assert s[1..] == u[1..] + [x] + w;
      RemoveFirstSplit(u[1..], x, w);
      assert u + w == [u[0]] + (u[1..] + w);
    }
  }

  lemma RemoveFirstDistinct<T>(s: seq<T>, x: T)
    requires Distinct(s) && x in s
    ensures Distinct(RemoveFirst(s, x)) && x !in RemoveFirst(s, x)
  {
    var i :| 0 <= i < |s| && s[i] == x;
    assert s == s[..i] + [x] + s[i + 1..];
    assert x !in s[..i];
    RemoveFirstSplit(s[..i], x, s[i + 1..]);
    DistinctConcat(s[..i] + [x], s[i + 1..]);
    DistinctConcat(s[..i], [x]);
    DistinctConcat(s[..i], s[i + 1..]);
  }

  /** Python's `d[k] = v` on an insertion-ordered dict: a new key goes last, an existing one keeps its place. */
  function Put<K(==), V>(d: seq<(K, V)>, k: K, v: V): (r: seq<(K, V)>)
    ensures k !in Keys(d) ==> r == d + [(k, v)]
    ensures k in Keys(d) ==> Keys(r) == Keys(d) && (k, v) in r
    ensures k in Keys(r)
  {
    if d == [] then
      assert Keys([(k, v)])[0] == k;
      [(k, v)]
    else if d[0].0 == k then
      assert Keys(d)[0] == k;
      [(k, v)] + d[1..]
    else
      assert Keys(d) == [d[0].0] + Keys(d[1..]);
      var r := [d[0]] + Put(d[1..], k, v);
      assert Keys(r) == [d[0].0] + Keys(Put(d[1..], k, v));
      r
  }

  /** Python's `d[k]` for a key that is present. */
  function Get<K(==), V>(d: seq<(K, V)>, k: K): (v: V)
    requires k in Keys(d)
    ensures (k, v) in d
  {
    if d[0].0 == k then d[0].1
    else
      assert Keys(d) == [d[0].0] + Keys(d[1..]);
      Get(d[1..], k)
  }

  /** Python's `d[k] = v` again, now for a key that is present in a dict whose keys are distinct: only its value changes. */
  lemma {:induction false} PutExisting<K, V>(d: seq<(K, V)>, k: K, v: V)
    requires Distinct(Keys(d)) && k in Keys(d)
    ensures |Put(d, k, v)| == |d|
    ensures forall i :: 0 <= i < |d| ==> Put(d, k, v)[i] == if d[i].0 == k then (k, v) else d[i]
  {
    assert Keys(d) == [d[0].0] + Keys(d[1..]);
    if d[0].0 != k {
      DistinctConcat([d[0].0], Keys(d[1..]));
      PutExisting(d[1..], k, v);
    } else {
      forall i | 0 < i < |d| ensures d[i].0 != k {
        assert Keys(d)[0] == k && Keys(d)[i] == d[i].0;
      }
    }
  }

  /** The values of a dict of lists, concatenated in key order: `[x for l in d.values() for x in l]`. */
  function Flatten<K, V>(d: seq<(K, seq<V>)>): seq<V>
  {
    if d == [] then [] else Flatten(d[..|d| - 1]) + d[|d| - 1].1
  }

  /** Flatten taken around one entry. */
  lemma {:induction false} FlattenSplit<K, V>(d: seq<(K, seq<V>)>, i: nat)
    requires i < |d|
    ensures Flatten(d) == Flatten(d[..i]) + d[i].1 + Flatten(d[i + 1..])
  {
    if i < |d| - 1 {
      var init := d[..|d| - 1];
      FlattenSplit(init, i);
      assert init[..i] == d[..i];
      assert d[i + 1..][..|d[i + 1..]| - 1] == init[i + 1..];
    } else {
      assert d[..|d| - 1] == d[..i];
      assert d[i + 1..] == [];
    }
  }

  /** The elements of s that are in keep, in the order of s. */
  function Only<T(==,!new)>(s: seq<T>, keep: seq<T>): (r: seq<T>)
    ensures |r| <= |s|
  {
    if s == [] then []
    else Only(s[..|s| - 1], keep) + (if s[|s| - 1] in keep then [s[|s| - 1]] else [])
  }

  /** The elements of s that are not in drop, in the order of s. */
  function Except<T(==,!new)>(s: seq<T>, drop: seq<T>): (r: seq<T>)
    ensures |r| <= |s|
  {
    if s == [] then []
    else Except(s[..|s| - 1], drop) + (if s[|s| - 1] !in drop then [s[|s| - 1]] else [])
  }

  lemma {:induction false} OnlyExceptMember<T(!new)>(s: seq<T>, k: seq<T>, x: T)
    ensures x in Only(s, k) <==> x in s && x in k
    ensures x in Except(s, k) <==> x in s && x !in k
  {
    if s != [] {
      OnlyExceptMember(s[..|s| - 1], k, x);
      assert s == s[..|s| - 1] + [s[|s| - 1]];
    }
  }

  /** Only and Except split s: together they keep every element exactly as often as s has it. */
  lemma {:induction false} OnlyExceptPartition<T(!new)>(s: seq<T>, k: seq<T>)
    ensures multiset(Only(s, k)) + multiset(Except(s, k)) == multiset(s)
  {
    if s != [] {
      var init, last := s[..|s| - 1], s[|s| - 1];
      var o, e := Only(init, k), Except(init, k);
      assert multiset(o) + multiset(e) == multiset(init) by {
        OnlyExceptPartition(init, k);
      }
      assert multiset(s) == multiset(init) + multiset{last} by {
        assert s == init + [last];
      }
      if last in k {
        assert Only(s, k) == o + [last] && Except(s, k) == e;
      } else {
        assert Only(s, k) == o && Except(s, k) == e + [last];
      }
    }
  }

  lemma {:induction false} OnlyExceptDistinct<T(!new)>(s: seq<T>, k: seq<T>)
    requires Distinct(s)
    ensures Distinct(Only(s, k)) && Distinct(Except(s, k))
  {
    if s != [] {
      var init, last := s[..|s| - 1], s[|s| - 1];
      assert s == init + [last];
      DistinctConcat(init, [last]);
      OnlyExceptDistinct(init, k);
      OnlyExceptMember(init, k, last);
      DistinctConcat(Only(init, k), if last in k then [last] else []);
      DistinctConcat(Except(init, k), if last !in k then [last] else []);
    }
  }

  /** Only and Except look at keep/drop only through the elements of s. */
  lemma {:induction false} OnlyExceptAgree<T(!new)>(s: seq<T>, k1: seq<T>, k2: seq<T>)
    requires forall x :: x in s ==> (x in k1 <==> x in k2)
    ensures Only(s, k1) == Only(s, k2) && Except(s, k1) == Except(s, k2)
  {
    if s != [] {
      OnlyExceptAgree(s[..|s| - 1], k1, k2);
    }
  }

  lemma KeysValuesConcat<K, V>(a: seq<(K, V)>, b: seq<(K, V)>)
    ensures Keys(a + b) == Keys(a) + Keys(b) && Values(a + b) == Values(a) + Values(b)
  {
  }

  /** In a dict without repeated keys, the key at index m does not occur before m. */
  lemma DistinctKeysPrefix<K, V>(d: seq<(K, V)>, m: nat)
    requires Distinct(Keys(d)) && m < |d|
    ensures d[m].0 !in Keys(d[..m])
  {
    forall j | 0 <= j < m
      ensures Keys(d[..m])[j] != d[m].0
    {
      assert Keys(d[..m])[j] == Keys(d)[j] && Keys(d)[m] == d[m].0;
    }
  }

  lemma {:induction false} ExceptConcat<T(!new)>(a: seq<T>, b: seq<T>, drop: seq<T>)
    ensures Except(a + b, drop) == Except(a, drop) + Except(b, drop)
  {
    if b != [] {
      ExceptConcat(a, b[..|b| - 1], drop);
      assert (a + b)[..|a + b| - 1] == a + b[..|b| - 1];
    } else {
      assert a + b == a;
    }
  }

  lemma {:induction false} ExceptNothing<T(!new)>(s: seq<T>, drop: seq<T>)
    requires forall x :: x in s ==> x !in drop
    ensures Except(s, drop) == s
  {
    if s != [] {
      ExceptNothing(s[..|s| - 1], drop);
    }
  }

  /** Extending s by one element x that keep/drop contains. */
  lemma OnlyExceptSnocIn<T(!new)>(s: seq<T>, x: T, k: seq<T>)
    requires x in k
    ensures Only(s + [x], k) == Only(s, k) + [x] && Except(s + [x], k) == Except(s, k)
  {
    assert (s + [x])[..|s|] == s;
  }

  /** Extending s by one element x that keep/drop lacks. */
  lemma OnlyExceptSnocOut<T(!new)>(s: seq<T>, x: T, k: seq<T>)
    requires x !in k
    ensures Only(s + [x], k) == Only(s, k) && Except(s + [x], k) == Except(s, k) + [x]
  {
    assert (s + [x])[..|s|] == s;
  }

  lemma {:induction false} ExceptEverything<T(!new)>(s: seq<T>, drop: seq<T>)
    requires forall x :: x in s ==> x in drop
    ensures Except(s, drop) == []
  {
    if s != [] {
      ExceptEverything(s[..|s| - 1], drop);
    }
  }
}
