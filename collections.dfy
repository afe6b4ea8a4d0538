/** Generic facts about sequences and sets that the model of the recipe
    store leans on: distinctness (Python's `len(s) != len(set(s))` test),
    filtering a table, and enumerating a finite set of ids in a fixed order
    (the ORDER BY of a query). */
module Collections {

  /** The elements of a sequence, as Python's `set(s)`. */
  function Elems<T(==,!new)>(s: seq<T>): (r: set<T>)
    ensures forall x :: x in r <==> x in s
  {
    set x | x in s
  }

  /** No element occurs twice. */
  predicate Distinct<T(==)>(s: seq<T>) {
    forall i, j | 0 <= i < |s| && 0 <= j < |s| && i != j :: s[i] != s[j]
  }

  /** A sequence has no repeats exactly when its set of elements is as large
      as the sequence: the test `len(tags) != len(set(tags))` is a test for
      repeats. */
  lemma {:induction false} DistinctIffElemsSize<T(!new)>(s: seq<T>)
    ensures Distinct(s) <==> |Elems(s)| == |s|
  {
    if s == [] {
    } else {
      var t := s[..|s| - 1];
      var x := s[|s| - 1];
      assert s == t + [x];
      DistinctIffElemsSize(t);
      assert Elems(s) == Elems(t) + {x};
      assert |Elems(t)| <= |t| by { ElemsSizeBound(t); }
      if x in t {
        var k :| 0 <= k < |t| && t[k] == x;
        assert s[k] == s[|s| - 1];
        assert Elems(s) == Elems(t);
      } else {
        assert |Elems(s)| == |Elems(t)| + 1;
        if Distinct(t) {
          forall i, j | 0 <= i < |s| && 0 <= j < |s| && i != j ensures s[i] != s[j] {
            if i < |t| && j < |t| {
              assert s[i] == t[i] && s[j] == t[j];
            } else if i < |t| {
              assert s[i] == t[i];
            } else {
              assert s[j] == t[j];
            }
          }
        } else {
          var i, j :| 0 <= i < |t| && 0 <= j < |t| && i != j && t[i] == t[j];
          assert s[i] == s[j];
        }
      }
    }
  }

  lemma {:induction false} ElemsSizeBound<T(!new)>(s: seq<T>)
    ensures |Elems(s)| <= |s|
  {
    if s != [] {
      var t := s[..|s| - 1];
      assert s == t + [s[|s| - 1]];
      assert Elems(s) == Elems(t) + {s[|s| - 1]};
      ElemsSizeBound(t);
    }
  }

  /** Putting an element in front keeps a sequence repeat-free exactly when
      the element is new. */
  lemma DistinctCons<T>(x: T, s: seq<T>)
    ensures Distinct([x] + s) <==> x !in s && Distinct(s)
  {
    var t := [x] + s;
    if x !in s && Distinct(s) {
      forall i, j | 0 <= i < |t| && 0 <= j < |t| && i != j ensures t[i] != t[j] {
        if i > 0 && j > 0 { assert t[i] == s[i - 1] && t[j] == s[j - 1]; }
        else if i > 0 { assert t[i] == s[i - 1]; }
        else { assert t[j] == s[j - 1]; }
      }
    }
    if Distinct(t) {
      forall i, j | 0 <= i < |s| && 0 <= j < |s| && i != j ensures s[i] != s[j] {
        assert s[i] == t[i + 1] && s[j] == t[j + 1];
      }
      forall k | 0 <= k < |s| ensures s[k] != x {
        assert t[k + 1] == s[k] && t[0] == x;
      }
    }
  }

  /** Appending a new element keeps a sequence repeat-free. */
  lemma DistinctSnoc<T>(s: seq<T>, x: T)
    requires Distinct(s) && x !in s
    ensures Distinct(s + [x])
  {
    var t := s + [x];
    forall i, j | 0 <= i < |t| && 0 <= j < |t| && i != j ensures t[i] != t[j] {
      if i < |s| && j < |s| { assert t[i] == s[i] && t[j] == s[j]; }
      else if i < |s| { assert t[i] == s[i]; }
      else { assert t[j] == s[j]; }
    }
  }

  /** `order` lists every element of `keys` exactly once. */
  predicate IsEnumeration<T(==,!new)>(order: seq<T>, keys: set<T>) {
    Distinct(order) && Elems(order) == keys
  }

  /** Two enumerations of the same set are permutations of each other. */
  lemma {:induction false} EnumerationsArePermutations<T(!new)>(a: seq<T>, b: seq<T>, keys: set<T>)
    requires IsEnumeration(a, keys) && IsEnumeration(b, keys)
    ensures multiset(a) == multiset(b)
  {
    forall x ensures multiset(a)[x] == multiset(b)[x] {
      DistinctMultiplicity(a, x);
      DistinctMultiplicity(b, x);
    }
  }

  lemma {:induction false} DistinctMultiplicity<T>(s: seq<T>, x: T)
    requires Distinct(s)
    ensures multiset(s)[x] == if x in s then 1 else 0
  {
    if s != [] {
      var t := s[1..];
      assert s == [s[0]] + t;
      assert Distinct(t) by {
        forall i, j | 0 <= i < |t| && 0 <= j < |t| && i != j ensures t[i] != t[j] {
          assert t[i] == s[i + 1] && t[j] == s[j + 1];
        }
      }
      DistinctMultiplicity(t, x);
    }
  }

  /** Mapping a function over two permutations of each other yields two
      permutations of each other. */
  lemma {:induction false} MapPreservesPermutation<T, U>(f: T -> U, a: seq<T>, b: seq<T>)
    requires multiset(a) == multiset(b)
    ensures multiset(MapSeq(f, a)) == multiset(MapSeq(f, b))
  {
    if a == [] {
      assert b == [] by { assert |multiset(b)| == |b|; }
    } else {
      var x := a[0];
      assert x in multiset(b);
      var k :| 0 <= k < |b| && b[k] == x;
      var rest := b[..k] + b[k + 1..];
      RemoveOne(f, b, k);
      assert a == [x] + a[1..];
      assert multiset(a) == multiset(a[1..]) + multiset{x};
      assert multiset(a[1..]) == multiset(a) - multiset{x};
      assert multiset(rest) == multiset(b) - multiset{x};
      MapPreservesPermutation(f, a[1..], rest);
      MapConcat(f, [x], a[1..]);
      assert MapSeq(f, [x]) == [f(x)];
      assert MapSeq(f, a) == [f(x)] + MapSeq(f, a[1..]);
      assert multiset(MapSeq(f, a)) == multiset{f(x)} + multiset(MapSeq(f, a[1..]));
    }
  }

  lemma {:induction false} RemoveOne<T, U>(f: T -> U, b: seq<T>, k: nat)
    requires k < |b|
    ensures multiset(b) == multiset(b[..k] + b[k + 1..]) + multiset{b[k]}
    ensures multiset(MapSeq(f, b)) == multiset(MapSeq(f, b[..k] + b[k + 1..])) + multiset{f(b[k])}
  {
    assert b == b[..k] + [b[k]] + b[k + 1..];
    MapConcat(f, b[..k] + [b[k]], b[k + 1..]);
    MapConcat(f, b[..k], [b[k]]);
    MapConcat(f, b[..k], b[k + 1..]);
  }

  /** `[f(x) for x in s]` */
  function MapSeq<T, U>(f: T -> U, s: seq<T>): (r: seq<U>)
    ensures |r| == |s|
    ensures forall i | 0 <= i < |s| :: r[i] == f(s[i])
  {
    seq(|s|, i requires 0 <= i < |s| => f(s[i]))
  }

  lemma MapConcat<T, U>(f: T -> U, a: seq<T>, b: seq<T>)
    ensures MapSeq(f, a + b) == MapSeq(f, a) + MapSeq(f, b)
  {
  }

  /** Lexicographic order on (key, id): ties of the key are broken by id. */
  predicate Precedes(key: nat -> int, a: nat, b: nat) {
    key(a) < key(b) || (key(a) == key(b) && a < b)
  }

  /** The element of a non-empty finite set that comes first by `key` then id. */
  ghost function Least(s: set<nat>, key: nat -> int): (m: nat)
    requires s != {}
    ensures m in s
    ensures forall x | x in s && x != m :: Precedes(key, m, x)
    decreases |s|
  {
    var x :| x in s;
    if s == {x} then x
    else
      var m' := Least(s - {x}, key);
      assert forall y | y in s && y != x :: y in s - {x};
      if Precedes(key, x, m') then x else m'
  }

  /** The elements of `s` listed by ascending `key`, ties by ascending id:
      the order in which a query with that ORDER BY returns them. */
  ghost function SortedBy(s: set<nat>, key: nat -> int): (r: seq<nat>)
    ensures IsEnumeration(r, s)
    ensures forall i, j | 0 <= i < j < |r| :: Precedes(key, r[i], r[j])
    decreases |s|
  {
    if s == {} then []
    else
      var m := Least(s, key);
      var rest := SortedBy(s - {m}, key);
      SortedCons(s, m, rest, key);
      [m] + rest
  }

  /** The first element by `key` in front of the rest in order is the whole
      set in order. */
  lemma SortedCons(s: set<nat>, m: nat, rest: seq<nat>, key: nat -> int)
    requires m in s && forall x | x in s && x != m :: Precedes(key, m, x)
    requires IsEnumeration(rest, s - {m})
    requires forall i, j | 0 <= i < j < |rest| :: Precedes(key, rest[i], rest[j])
    ensures IsEnumeration([m] + rest, s)
    ensures forall i, j | 0 <= i < j < |[m] + rest| :: Precedes(key, ([m] + rest)[i], ([m] + rest)[j])
  {
    var r := [m] + rest;
    DistinctCons(m, rest);
    assert Elems(r) == s by {
      forall x ensures x in Elems(r) <==> x in s {
        assert x in r <==> x == m || x in rest;
      }
    }
    forall i, j | 0 <= i < j < |r| ensures Precedes(key, r[i], r[j]) {
      assert r[j] == rest[j - 1] && r[j] in rest;
      if i > 0 {
        assert r[i] == rest[i - 1];
      }
    }
  }
}
