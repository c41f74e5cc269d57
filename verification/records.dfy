/**
 * The adjacency dictionaries of a state (`Record<string, Transition>`) file
 * every transition under its own id, so such a dictionary is determined by
 * its keys in the order `Object.keys` lists them: insertion order, where
 * assigning to a present key keeps its place and `delete` removes it.
 */
module Records {

  /** `s` without the elements in `ks`, in the same order. */
  function Without(s: seq<string>, ks: set<string>): (r: seq<string>)
    ensures |r| <= |s|
    ensures forall x :: x in r <==> x in s && x !in ks
  {
    if s == [] then []
    else (if s[0] in ks then [] else [s[0]]) + Without(s[1..], ks)
  }

  /** No element of `s` occurs twice: the first is not among the rest,
      and the rest has no repetition either. */
  ghost predicate Distinct(s: seq<string>) {
    s == [] || (s[0] !in s[1..] && Distinct(s[1..]))
  }

  /** Two positions of a list without repetitions hold different elements. */
  lemma {:induction false} DistinctAt(s: seq<string>, i: nat, j: nat)
    requires Distinct(s) && i < j < |s|
    ensures s[i] != s[j]
  {
    if i == 0 {
      assert s[j] == s[1..][j - 1];
    } else {
      DistinctAt(s[1..], i - 1, j - 1);
    }
  }

  /** Appending a new element keeps a list free of repetitions. */
  lemma {:induction false} DistinctSnoc(s: seq<string>, x: string)
    requires x !in s
    ensures Distinct(s) ==> Distinct(s + [x])
  {
    if s != [] && Distinct(s) {
      assert (s + [x])[1..] == s[1..] + [x];
      DistinctSnoc(s[1..], x);
    }
  }

  /** Two lists joined repeat nothing exactly when neither does and they
      share no element. */
  lemma {:induction false} DistinctAppend(a: seq<string>, b: seq<string>)
    ensures Distinct(a + b) <==> Distinct(a) && Distinct(b) && forall x | x in a :: x !in b
  {
    if a != [] {
      assert (a + b)[0] == a[0] && (a + b)[1..] == a[1..] + b;
      DistinctAppend(a[1..], b);
    } else {
      assert a + b == b;
    }
  }

  /** A prefix of a list without repetitions has none either. */
  lemma DistinctPrefix(s: seq<string>, t: seq<string>)
    requires t <= s && Distinct(s)
    ensures Distinct(t)
  {
    assert s == t + s[|t|..];
    DistinctAppend(t, s[|t|..]);
  }

  /** The elements of a list, as a set. */
  function Elements(s: seq<string>): (r: set<string>)
    ensures forall x :: x in r <==> x in s
  {
    set x | x in s
  }

  /** A longer prefix holds one more element. */
  lemma ElementsPrefix(s: seq<string>, i: nat)
    requires i < |s|
    ensures Elements(s[..i + 1]) == Elements(s[..i]) + {s[i]}
  {
    assert s[..i + 1] == s[..i] + [s[i]];
  }

  lemma {:induction false} WithoutDistinct(s: seq<string>, ks: set<string>)
    requires Distinct(s)
    ensures Distinct(Without(s, ks))
  {
    if s != [] {
      WithoutDistinct(s[1..], ks);
      var r := Without(s, ks);
      var tail := Without(s[1..], ks);
      if s[0] !in ks {
        assert r == [s[0]] + tail;
        assert r[0] == s[0] && r[1..] == tail && s[0] !in tail;
      } else {
        assert r == tail;
      }
    }
  }

  /** Removing one set of keys and then another is removing their union. */
  lemma {:induction false} WithoutWithout(s: seq<string>, a: set<string>, b: set<string>)
    ensures Without(Without(s, a), b) == Without(s, a + b)
  {
    if s != [] {
      WithoutWithout(s[1..], a, b);
      if s[0] in a {
        assert Without(s, a) == Without(s[1..], a);
      } else {
        assert Without(s, a) == [s[0]] + Without(s[1..], a);
        assert Without(s, a)[1..] == Without(s[1..], a);
      }
    }
  }

  /** Removing keys that are absent changes nothing. */
  lemma {:induction false} WithoutNone(s: seq<string>, ks: set<string>)
    requires forall x :: x in s ==> x !in ks
    ensures Without(s, ks) == s
  {
    if s != [] {
      WithoutNone(s[1..], ks);
    }
  }

  /** Removing from an extended list. */
  lemma {:induction false} WithoutSnoc(s: seq<string>, x: string, ks: set<string>)
    ensures Without(s + [x], ks) == Without(s, ks) + (if x in ks then [] else [x])
  {
    if s == [] {
      assert [] + [x] == [x];
    } else {
      assert (s + [x])[1..] == s[1..] + [x];
      WithoutSnoc(s[1..], x, ks);
    }
  }

  /** Only the keys present in the list matter. */
  lemma {:induction false} WithoutPresent(s: seq<string>, ks: set<string>, present: set<string>)
    requires forall x :: x in s ==> (x in ks <==> x in present)
    ensures Without(s, ks) == Without(s, present)
  {
    if s != [] {
      WithoutPresent(s[1..], ks, present);
    }
  }

  /** A non-empty list has its head among its elements. */
  lemma ElementsHead(s: seq<string>)
    ensures s != [] ==> s[0] in Elements(s)
  {
  }

  /** Removing every element of a list leaves nothing. */
  lemma WithoutAll(s: seq<string>)
    ensures Without(s, Elements(s)) == []
  {
    var r := Without(s, Elements(s));
    ElementsHead(r);
  }

  /** The elements of `a` and of `b` without them are those of `a` and `b`. */
  lemma ElementsUnionWithout(a: seq<string>, b: seq<string>)
    ensures Elements(a) + Elements(Without(b, Elements(a))) == Elements(a) + Elements(b)
  {
  }

  /** Deleting keys that are absent from a dictionary changes nothing. */
  lemma MapMinusAbsent<V>(m: map<string, V>, ks: set<string>)
    requires forall k | k in ks :: k !in m
    ensures m - ks == m
  {
  }

  /** Deleting one set of keys and then another is deleting their union. */
  lemma MapMinusTwice<V>(m: map<string, V>, a: set<string>, b: set<string>)
    ensures m - a - b == m - (a + b)
  {
  }

  /** Updating a key twice keeps the second value. */
  lemma MapOverwrite<V>(m: map<string, V>, k: string, a: V, b: V)
    ensures m[k := a][k := b] == m[k := b]
  {
  }

  /** Writing three distinct keys and then writing them again keeps only
      the second writes. */
  lemma MapOverwriteThree<V>(m: map<string, V>, k1: string, k2: string, k3: string, a1: V, a2: V, a3: V, b1: V, b2: V, b3: V)
    requires k1 != k2 && k1 != k3 && k2 != k3
    ensures m[k1 := a1][k2 := a2][k3 := a3][k1 := b1][k2 := b2][k3 := b3] == m[k1 := b1][k2 := b2][k3 := b3]
  {
  }

  lemma AppendAssoc<T>(a: seq<T>, b: seq<T>, c: seq<T>)
    ensures a + b + c == a + (b + c)
  {
  }

  /** `obj[k] = v`: a new key goes to the end, a present key keeps its place. */
  function Insert(keys: seq<string>, k: string): (r: seq<string>)
    ensures forall x :: x in r <==> x in keys || x == k
    ensures k in keys ==> r == keys
    ensures k !in keys ==> r == keys + [k]
    ensures Distinct(keys) ==> Distinct(r)
  {
    if k in keys then keys else DistinctSnoc(keys, k); keys + [k]
  }

  /** `delete obj[k]`. */
  function Remove(keys: seq<string>, k: string): (r: seq<string>)
    ensures forall x :: x in r <==> x in keys && x != k
  {
    Without(keys, {k})
  }
}
