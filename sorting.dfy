/**
 * The stable `Array.prototype.sort` the source calls with comparators that
 * chain numeric differences and `localeCompare` with `||`. A comparator of
 * that shape orders elements lexicographically by a tuple of numbers and
 * strings, so each call site gives a key function into `seq<SortAtom>` and
 * sorts with `SortBy`.
 */
module Sorting {
  import opened Strings

  /** One component of a sort key: a number or a string. */
  datatype SortAtom = IntAtom(i: int) | StrAtom(s: string)

  predicate AtomLe(a: SortAtom, b: SortAtom)
  {
    match a
    case IntAtom(x) => (b.IntAtom? && x <= b.i) || b.StrAtom?
    case StrAtom(x) => b.StrAtom? && StrLe(x, b.s)
  }

  predicate AtomLt(a: SortAtom, b: SortAtom)
  {
    AtomLe(a, b) && a != b
  }

  lemma AtomLeTotal(a: SortAtom, b: SortAtom)
    ensures AtomLe(a, b) || AtomLe(b, a)
  {
    if a.StrAtom? && b.StrAtom? {
      StrLeTotal(a.s, b.s);
    }
  }

  lemma AtomLeRefl(a: SortAtom)
    ensures AtomLe(a, a)
  {
    if a.StrAtom? {
      StrLeRefl(a.s);
    }
  }

  lemma AtomLeTrans(a: SortAtom, b: SortAtom, c: SortAtom)
    requires AtomLe(a, b) && AtomLe(b, c)
    ensures AtomLe(a, c)
  {
    if a.StrAtom? {
      StrLeTrans(a.s, b.s, c.s);
    }
  }

  lemma AtomLeAntisym(a: SortAtom, b: SortAtom)
    requires AtomLe(a, b) && AtomLe(b, a)
    ensures a == b
  {
    if a.StrAtom? {
      StrLeAntisym(a.s, b.s);
    }
  }

  /** The comparator chain `c1 || c2 || …` returns a value <= 0. */
  predicate KeyLe(a: seq<SortAtom>, b: seq<SortAtom>)
    decreases |a|
  {
    |a| == 0 || (|b| > 0 && (AtomLt(a[0], b[0]) || (a[0] == b[0] && KeyLe(a[1..], b[1..]))))
  }

  predicate KeyLt(a: seq<SortAtom>, b: seq<SortAtom>)
  {
    KeyLe(a, b) && a != b
  }

  lemma {:induction false} KeyLeRefl(a: seq<SortAtom>)
    ensures KeyLe(a, a)
    decreases |a|
  {
    if |a| > 0 {
      KeyLeRefl(a[1..]);
    }
  }

  lemma {:induction false} KeyLeTotal(a: seq<SortAtom>, b: seq<SortAtom>)
    ensures KeyLe(a, b) || KeyLe(b, a)
    decreases |a|
  {
    if |a| > 0 && |b| > 0 {
      AtomLeTotal(a[0], b[0]);
      if a[0] == b[0] {
        KeyLeTotal(a[1..], b[1..]);
      }
    }
  }

  lemma {:induction false} KeyLeTrans(a: seq<SortAtom>, b: seq<SortAtom>, c: seq<SortAtom>)
    requires KeyLe(a, b) && KeyLe(b, c)
    ensures KeyLe(a, c)
    decreases |a|
  {
    if |a| > 0 {
      if a[0] == b[0] && b[0] == c[0] {
        KeyLeTrans(a[1..], b[1..], c[1..]);
      } else {
        if a[0] == b[0] {
          AtomLeRefl(a[0]);
        }
        if b[0] == c[0] {
          AtomLeRefl(b[0]);
        }
        AtomLeTrans(a[0], b[0], c[0]);
        if a[0] == c[0] {
          AtomLeAntisym(a[0], b[0]);
        }
      }
    }
  }

  lemma {:induction false} KeyLeAntisym(a: seq<SortAtom>, b: seq<SortAtom>)
    requires KeyLe(a, b) && KeyLe(b, a)
    ensures a == b
    decreases |a|
  {
    if |a| > 0 {
      if a[0] != b[0] {
        AtomLeAntisym(a[0], b[0]);
      }
      KeyLeAntisym(a[1..], b[1..]);
      assert a == [a[0]] + a[1..];
      assert b == [b[0]] + b[1..];
    }
  }

  /** `s` is in ascending order of `key`. */
  predicate Sorted<T>(s: seq<T>, key: T -> seq<SortAtom>)
  {
    forall i, j :: 0 <= i < j < |s| ==> KeyLe(key(s[i]), key(s[j]))
  }

  /**
   * Places `x` before the first element whose key is not below its own;
   * elements with an equal key therefore keep `x` first, which is what a
   * stable sort does with an element that came earlier in the input.
   */
  function Insert<T>(x: T, s: seq<T>, key: T -> seq<SortAtom>): (r: seq<T>)
    ensures |r| == |s| + 1
    ensures multiset(r) == multiset(s) + multiset{x}
  {
    if s == [] || KeyLe(key(x), key(s[0])) then [x] + s
    else
      assert s == [s[0]] + s[1..];
      [s[0]] + Insert(x, s[1..], key)
  }

  /** The stable sort of `s` by `key`. */
  function SortBy<T>(s: seq<T>, key: T -> seq<SortAtom>): (r: seq<T>)
    ensures |r| == |s|
    ensures multiset(r) == multiset(s)
  {
    if s == [] then [] else
      assert s == [s[0]] + s[1..];
      Insert(s[0], SortBy(s[1..], key), key)
  }

  lemma {:induction false} InsertSorted<T>(x: T, s: seq<T>, key: T -> seq<SortAtom>)
    requires Sorted(s, key)
    ensures Sorted(Insert(x, s, key), key)
    decreases |s|
  {
    if s == [] || KeyLe(key(x), key(s[0])) {
      var r := [x] + s;
      forall i, j | 0 <= i < j < |r| ensures KeyLe(key(r[i]), key(r[j])) {
        if i == 0 && j > 1 {
          KeyLeTrans(key(x), key(s[0]), key(s[j - 1]));
        }
      }
    } else {
      var t := Insert(x, s[1..], key);
      InsertSorted(x, s[1..], key);
      KeyLeTotal(key(x), key(s[0]));
      var r := [s[0]] + t;
      forall i, j | 0 <= i < j < |r| ensures KeyLe(key(r[i]), key(r[j])) {
        if i == 0 {
          assert r[j] in multiset(t);
          assert r[j] in multiset(s[1..]) + multiset{x};
          if r[j] in multiset(s[1..]) {
            var k :| 0 <= k < |s[1..]| && s[1..][k] == r[j];
            assert s[k + 1] == r[j];
          }
        }
      }
    }
  }

  lemma {:induction false} SortBySorted<T>(s: seq<T>, key: T -> seq<SortAtom>)
    ensures Sorted(SortBy(s, key), key)
    decreases |s|
  {
    if s != [] {
      SortBySorted(s[1..], key);
      InsertSorted(s[0], SortBy(s[1..], key), key);
    }
  }

  /** No two different elements of `s` share a key. */
  predicate KeysDistinct<T(==)>(s: seq<T>, key: T -> seq<SortAtom>)
  {
    forall i, j :: 0 <= i < |s| && 0 <= j < |s| && key(s[i]) == key(s[j]) ==> s[i] == s[j]
  }

  lemma SortedHeadLeast<T>(s: seq<T>, key: T -> seq<SortAtom>, y: T)
    requires Sorted(s, key) && y in s
    ensures KeyLe(key(s[0]), key(y))
  {
    var k :| 0 <= k < |s| && s[k] == y;
    if k == 0 {
      KeyLeRefl(key(y));
    }
  }

  /** Two key-sorted arrangements of the same distinct-keyed elements start with the same element. */
  lemma SortedHeadsEqual<T>(s: seq<T>, t: seq<T>, key: T -> seq<SortAtom>)
    requires Sorted(s, key) && Sorted(t, key)
    requires multiset(s) == multiset(t) && s != []
    requires KeysDistinct(s, key)
    ensures t != [] && s[0] == t[0]
  {
    assert s[0] in multiset(t) && t[0] in multiset(s);
    SortedHeadLeast(t, key, s[0]);
    SortedHeadLeast(s, key, t[0]);
    KeyLeAntisym(key(s[0]), key(t[0]));
    var k :| 0 <= k < |s| && s[k] == t[0];
    assert key(s[0]) == key(s[k]);
  }

  /**
   * Two key-sorted arrangements of the same elements are identical when
   * distinct elements have distinct keys: the sorted result does not depend
   * on the input order.
   */
  lemma {:induction false} SortedUnique<T>(s: seq<T>, t: seq<T>, key: T -> seq<SortAtom>)
    requires Sorted(s, key) && Sorted(t, key)
    requires multiset(s) == multiset(t)
    requires KeysDistinct(s, key)
    ensures s == t
    decreases |s|
  {
    if s == [] {
      assert |t| == |multiset(t)| == 0;
    } else {
      SortedHeadsEqual(s, t, key);
      TailFacts(s, key);
      TailFacts(t, key);
      SortedUnique(s[1..], t[1..], key);
      SameHeadSameTail(s, t);
    }
  }

  lemma SameHeadSameTail<T>(s: seq<T>, t: seq<T>)
    requires s != [] && t != [] && s[0] == t[0] && s[1..] == t[1..]
    ensures s == t
  {
    assert s == [s[0]] + s[1..] && t == [t[0]] + t[1..];
  }

  /** Dropping the head keeps a list sorted and its keys distinct, and removes one copy of the head. */
  lemma TailFacts<T>(s: seq<T>, key: T -> seq<SortAtom>)
    requires s != []
    ensures Sorted(s, key) ==> Sorted(s[1..], key)
    ensures KeysDistinct(s, key) ==> KeysDistinct(s[1..], key)
    ensures multiset(s[1..]) == multiset(s) - multiset{s[0]}
  {
    if Sorted(s, key) {
      TailSorted(s, key);
    }
    if KeysDistinct(s, key) {
      TailKeysDistinct(s, key);
    }
    assert s == [s[0]] + s[1..];
  }

  lemma TailSorted<T>(s: seq<T>, key: T -> seq<SortAtom>)
    requires s != [] && Sorted(s, key)
    ensures Sorted(s[1..], key)
  {
    var t := s[1..];
    forall i, j | 0 <= i < j < |t| ensures KeyLe(key(t[i]), key(t[j])) {
      assert t[i] == s[i + 1] && t[j] == s[j + 1];
    }
  }

  lemma TailKeysDistinct<T>(s: seq<T>, key: T -> seq<SortAtom>)
    requires s != [] && KeysDistinct(s, key)
    ensures KeysDistinct(s[1..], key)
  {
    var t := s[1..];
    forall i, j | 0 <= i < |t| && 0 <= j < |t| && key(t[i]) == key(t[j]) ensures t[i] == t[j] {
      assert t[i] == s[i + 1] && t[j] == s[j + 1];
    }
  }

  /** Sorting two orderings of the same distinct-keyed elements gives one result. */
  lemma SortByPermutationInvariant<T>(s: seq<T>, t: seq<T>, key: T -> seq<SortAtom>)
    requires multiset(s) == multiset(t)
    requires KeysDistinct(s, key)
    ensures SortBy(s, key) == SortBy(t, key)
  {
    var a, b := SortBy(s, key), SortBy(t, key);
    SortBySorted(s, key);
    SortBySorted(t, key);
    KeysDistinctPermuted(s, a, key);
    SortedUnique(a, b, key);
  }

  /** Rearranging the elements keeps their keys distinct. */
  lemma KeysDistinctPermuted<T>(s: seq<T>, a: seq<T>, key: T -> seq<SortAtom>)
    requires multiset(s) == multiset(a) && KeysDistinct(s, key)
    ensures KeysDistinct(a, key)
  {
    forall i, j | 0 <= i < |a| && 0 <= j < |a| && key(a[i]) == key(a[j]) ensures a[i] == a[j] {
      assert a[i] in multiset(s) && a[j] in multiset(s);
      var p :| 0 <= p < |s| && s[p] == a[i];
      var q :| 0 <= q < |s| && s[q] == a[j];
    }
  }
}
