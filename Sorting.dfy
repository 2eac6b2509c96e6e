/**
 * The two library sorts the sources call: list.sort(key=..., reverse=True)
 * (a stable sort on a numeric key, largest first) and sorted() on strings
 * (ascending code-point order).  Both are modelled as insertion sorts.
 */
module Sorting {

  // ---------------------------------------------------------------------
  // Stable descending sort on a numeric key
  // ---------------------------------------------------------------------

  ghost predicate SortedDesc<T>(xs: seq<T>, key: T -> real) {
    forall i, j :: 0 <= i < j < |xs| ==> key(xs[i]) >= key(xs[j])
  }

  /** Inserts x after every element whose key is at least key(x). */
  function InsertDesc<T>(x: T, xs: seq<T>, key: T -> real): (r: seq<T>)
    ensures multiset(r) == multiset(xs) + multiset{x}
    ensures |r| == |xs| + 1
  {
    if xs == [] then [x]
    else if key(xs[0]) >= key(x) then
      assert xs == [xs[0]] + xs[1..];
      [xs[0]] + InsertDesc(x, xs[1..], key)
    else [x] + xs
  }

  lemma InsertDescAfter<T>(x: T, xs: seq<T>, key: T -> real)
    requires xs != [] && key(xs[0]) >= key(x)
    ensures InsertDesc(x, xs, key) == [xs[0]] + InsertDesc(x, xs[1..], key)
  {
  }

  lemma {:induction false} InsertDescSorted<T>(x: T, xs: seq<T>, key: T -> real)
    requires SortedDesc(xs, key)
    ensures SortedDesc(InsertDesc(x, xs, key), key)
  {
    if xs != [] && key(xs[0]) >= key(x) {
      var tail := xs[1..];
      var r := InsertDesc(x, tail, key);
      InsertDescSorted(x, tail, key);
      forall j | 0 <= j < |r| ensures key(r[j]) <= key(xs[0]) {
        assert r[j] in multiset(r);
        if r[j] != x {
          assert r[j] in multiset(tail);
          var m :| 0 <= m < |tail| && tail[m] == r[j];
          assert tail[m] == xs[m + 1];
        }
      }
      assert InsertDesc(x, xs, key) == [xs[0]] + r;
    }
  }

  /** list.sort(key=key, reverse=True): stable, largest key first. */
  function SortDesc<T>(xs: seq<T>, key: T -> real): (r: seq<T>)
    ensures |r| == |xs|
    ensures multiset(r) == multiset(xs)
    ensures SortedDesc(r, key)
  {
    if xs == [] then []
    else
      assert xs == xs[..|xs| - 1] + [xs[|xs| - 1]];
      InsertDescSorted(xs[|xs| - 1], SortDesc(xs[..|xs| - 1], key), key);
      InsertDesc(xs[|xs| - 1], SortDesc(xs[..|xs| - 1], key), key)
  }

  lemma {:induction false} InsertDescEqualKeys<T>(x: T, xs: seq<T>, key: T -> real)
    requires forall k :: 0 <= k < |xs| ==> key(xs[k]) == key(x)
    ensures InsertDesc(x, xs, key) == xs + [x]
  {
    if xs != [] {
      InsertDescEqualKeys(x, xs[1..], key);
    }
  }

  /** Stability: when all keys are equal, the order is left as it was. */
  lemma {:induction false} SortDescEqualKeys<T>(xs: seq<T>, key: T -> real)
    requires forall i, j :: 0 <= i < |xs| && 0 <= j < |xs| ==> key(xs[i]) == key(xs[j])
    ensures SortDesc(xs, key) == xs
  {
    if xs != [] {
      var init := xs[..|xs| - 1];
      SortDescEqualKeys(init, key);
      InsertDescEqualKeys(xs[|xs| - 1], init, key);
      assert init + [xs[|xs| - 1]] == xs;
    }
  }

  /** The elements of xs whose key is v, in the order of xs. */
  function KeyClass<T>(xs: seq<T>, key: T -> real, v: real): (r: seq<T>)
    ensures |r| <= |xs|
  {
    if xs == [] then []
    else (if key(xs[0]) == v then [xs[0]] else []) + KeyClass(xs[1..], key, v)
  }

  /** An element is in a key class iff it is in xs and has that key. */
  lemma {:induction false} KeyClassExact<T>(xs: seq<T>, key: T -> real, v: real, y: T)
    ensures y in KeyClass(xs, key, v) <==> y in xs && key(y) == v
  {
    if xs != [] {
      KeyClassExact(xs[1..], key, v, y);
      assert xs == [xs[0]] + xs[1..];
    }
  }

  lemma {:induction false} KeyClassConcat<T>(a: seq<T>, b: seq<T>, key: T -> real, v: real)
    ensures KeyClass(a + b, key, v) == KeyClass(a, key, v) + KeyClass(b, key, v)
  {
    if a == [] {
      assert a + b == b;
    } else {
      var h := if key(a[0]) == v then [a[0]] else [];
      assert (a + b)[0] == a[0];
      assert (a + b)[1..] == a[1..] + b;
      assert KeyClass(a + b, key, v) == h + KeyClass(a[1..] + b, key, v);
      KeyClassConcat(a[1..], b, key, v);
      assert h + (KeyClass(a[1..], key, v) + KeyClass(b, key, v))
          == (h + KeyClass(a[1..], key, v)) + KeyClass(b, key, v);
    }
  }

  lemma {:induction false} KeyClassNone<T>(xs: seq<T>, key: T -> real, v: real)
    requires forall k :: 0 <= k < |xs| ==> key(xs[k]) != v
    ensures KeyClass(xs, key, v) == []
  {
    if xs != [] {
      KeyClassNone(xs[1..], key, v);
    }
  }

  /** Inserting into a sorted list puts x behind every element of its own key. */
  lemma {:induction false} InsertDescClass<T>(x: T, xs: seq<T>, key: T -> real, v: real)
    requires SortedDesc(xs, key)
    ensures KeyClass(InsertDesc(x, xs, key), key, v) == KeyClass(xs, key, v) + KeyClass([x], key, v)
  {
    if xs == [] {
    } else if key(xs[0]) >= key(x) {
      var tail := xs[1..];
      assert SortedDesc(tail, key) by {
        forall i, j | 0 <= i < j < |tail| ensures key(tail[i]) >= key(tail[j]) {
          assert tail[i] == xs[i + 1] && tail[j] == xs[j + 1];
        }
      }
      InsertDescClass(x, tail, key, v);
      InsertDescAfter(x, xs, key);
      ClassBehind(xs[0], InsertDesc(x, tail, key), tail, x, key, v);
      assert [xs[0]] + tail == xs;
    } else {
      InsertAhead(x, xs, key, v);
    }
  }

  /** The step of InsertDescClass where x goes behind the head h. */
  lemma ClassBehind<T>(h: T, r: seq<T>, tail: seq<T>, x: T, key: T -> real, v: real)
    requires KeyClass(r, key, v) == KeyClass(tail, key, v) + KeyClass([x], key, v)
    ensures KeyClass([h] + r, key, v) == KeyClass([h] + tail, key, v) + KeyClass([x], key, v)
  {
    var head := KeyClass([h], key, v);
    KeyClassConcat([h], r, key, v);
    KeyClassConcat([h], tail, key, v);
    assert head + (KeyClass(tail, key, v) + KeyClass([x], key, v))
        == (head + KeyClass(tail, key, v)) + KeyClass([x], key, v);
  }

  /** The step of InsertDescClass where x goes in front: nothing behind it has its key. */
  lemma InsertAhead<T>(x: T, xs: seq<T>, key: T -> real, v: real)
    requires SortedDesc(xs, key) && xs != [] && key(xs[0]) < key(x)
    ensures KeyClass(InsertDesc(x, xs, key), key, v) == KeyClass(xs, key, v) + KeyClass([x], key, v)
  {
    assert InsertDesc(x, xs, key) == [x] + xs;
    KeyClassConcat([x], xs, key, v);
    if key(x) == v {
      forall k | 0 <= k < |xs| ensures key(xs[k]) != v {
        if k > 0 { assert key(xs[0]) >= key(xs[k]); }
      }
      KeyClassNone(xs, key, v);
    } else {
      assert KeyClass([x], key, v) == [];
    }
  }

  /**
   * Stability: for every key, the elements of the sorted list with that key
   * are those of xs with that key, in the order of xs.
   */
  lemma {:induction false} SortDescStable<T>(xs: seq<T>, key: T -> real, v: real)
    ensures KeyClass(SortDesc(xs, key), key, v) == KeyClass(xs, key, v)
  {
    if xs != [] {
      var init := xs[..|xs| - 1];
      var x := xs[|xs| - 1];
      assert init + [x] == xs;
      assert SortDesc(xs, key) == InsertDesc(x, SortDesc(init, key), key);
      SortDescStable(init, key, v);
      InsertDescClass(x, SortDesc(init, key), key, v);
      KeyClassConcat(init, [x], key, v);
    }
  }

  // ---------------------------------------------------------------------
  // Ascending sort of strings
  // ---------------------------------------------------------------------

  /** Python's a <= b on str: lexicographic by code point, prefixes first. */
  predicate StrLe(a: string, b: string) {
    if a == [] then true
    else if b == [] then false
    else if a[0] != b[0] then a[0] < b[0]
    else StrLe(a[1..], b[1..])
  }

  lemma StrLeTotal(a: string, b: string)
    ensures StrLe(a, b) || StrLe(b, a)
  {
  }

  lemma StrLeAntisymmetric(a: string, b: string)
    requires StrLe(a, b) && StrLe(b, a)
    ensures a == b
  {
    if a != [] && b != [] {
      StrLeAntisymmetric(a[1..], b[1..]);
      assert a == [a[0]] + a[1..] && b == [b[0]] + b[1..];
    }
  }

  lemma StrLeTransitive(a: string, b: string, c: string)
    requires StrLe(a, b) && StrLe(b, c)
    ensures StrLe(a, c)
  {
  }

  /** Strictly ascending, hence also free of duplicates. */
  ghost predicate StrictlyAscending(xs: seq<string>) {
    forall i, j :: 0 <= i < j < |xs| ==> StrLe(xs[i], xs[j]) && xs[i] != xs[j]
  }

  ghost predicate Ascending(xs: seq<string>) {
    forall i, j :: 0 <= i < j < |xs| ==> StrLe(xs[i], xs[j])
  }

  function InsertAsc(x: string, xs: seq<string>): (r: seq<string>)
    ensures multiset(r) == multiset(xs) + multiset{x}
    ensures |r| == |xs| + 1
  {
    if xs == [] then [x]
    else if StrLe(x, xs[0]) then [x] + xs
    else
      assert xs == [xs[0]] + xs[1..];
      [xs[0]] + InsertAsc(x, xs[1..])
  }

  lemma {:induction false} InsertAscSorted(x: string, xs: seq<string>)
    requires Ascending(xs)
    ensures Ascending(InsertAsc(x, xs))
  {
    if xs == [] {
    } else if StrLe(x, xs[0]) {
      forall j | 0 <= j < |xs| ensures StrLe(x, xs[j]) {
        if j > 0 { StrLeTransitive(x, xs[0], xs[j]); }
      }
      assert InsertAsc(x, xs) == [x] + xs;
    } else {
      StrLeTotal(x, xs[0]);
      var tail := xs[1..];
      var r := InsertAsc(x, tail);
      InsertAscSorted(x, tail);
      forall j | 0 <= j < |r| ensures StrLe(xs[0], r[j]) {
        assert r[j] in multiset(r);
        if r[j] != x {
          assert r[j] in multiset(tail);
          var m :| 0 <= m < |tail| && tail[m] == r[j];
          assert tail[m] == xs[m + 1];
        }
      }
      assert InsertAsc(x, xs) == [xs[0]] + r;
    }
  }

  /** sorted(xs) on strings. */
  function SortStrings(xs: seq<string>): (r: seq<string>)
    ensures |r| == |xs|
    ensures multiset(r) == multiset(xs)
    ensures Ascending(r)
  {
    if xs == [] then []
    else
      assert xs == xs[..|xs| - 1] + [xs[|xs| - 1]];
      InsertAscSorted(xs[|xs| - 1], SortStrings(xs[..|xs| - 1]));
      InsertAsc(xs[|xs| - 1], SortStrings(xs[..|xs| - 1]))
  }

  /** A sorted list of distinct strings is strictly ascending. */
  lemma AscendingDistinct(xs: seq<string>)
    requires Ascending(xs)
    requires forall i, j :: 0 <= i < j < |xs| ==> xs[i] != xs[j]
    ensures StrictlyAscending(xs)
  {
  }

  // ---------------------------------------------------------------------
  // sorted(list(a_set))[:n]
  // ---------------------------------------------------------------------

  function Min(a: nat, b: nat): nat { if a <= b then a else b }

  ghost predicate Distinct<T>(xs: seq<T>) {
    forall i, j :: 0 <= i < j < |xs| ==> xs[i] != xs[j]
  }

  function Elems<T>(xs: seq<T>): set<T> {
    set x | x in xs
  }

  /** Two positions holding the same element make it occur twice. */
  lemma TwiceCount<T>(ys: seq<T>, a: nat, b: nat)
    requires a < b < |ys| && ys[a] == ys[b]
    ensures multiset(ys)[ys[a]] >= 2
  {
    assert ys == ys[..b] + [ys[b]] + ys[b + 1..];
    assert ys[a] in ys[..b];
  }

  lemma {:induction false} DistinctOnce<T>(xs: seq<T>, x: T)
    requires Distinct(xs)
    ensures multiset(xs)[x] <= 1
  {
    if xs != [] {
      var init := xs[..|xs| - 1];
      assert xs == init + [xs[|xs| - 1]];
      assert forall k :: 0 <= k < |init| ==> init[k] == xs[k];
      DistinctOnce(init, x);
      if xs[|xs| - 1] == x {
        assert x !in init;
      }
    }
  }

  /** A permutation of a duplicate-free list is duplicate-free. */
  lemma DistinctPermutation<T>(xs: seq<T>, ys: seq<T>)
    requires multiset(ys) == multiset(xs) && Distinct(xs)
    ensures Distinct(ys)
  {
    forall a, b | 0 <= a < b < |ys| ensures ys[a] != ys[b] {
      if ys[a] == ys[b] {
        TwiceCount(ys, a, b);
        DistinctOnce(xs, ys[a]);
        assert false;
      }
    }
  }

  lemma {:induction false} DistinctCard<T>(xs: seq<T>)
    requires Distinct(xs)
    ensures |Elems(xs)| == |xs|
  {
    if xs != [] {
      var init := xs[..|xs| - 1];
      var last := xs[|xs| - 1];
      assert forall k :: 0 <= k < |init| ==> init[k] == xs[k];
      DistinctCard(init);
      assert Elems(xs) == Elems(init) + {last};
      assert last !in Elems(init);
    }
  }

  lemma {:induction false} SubsetCard<T>(a: set<T>, b: set<T>)
    requires a <= b
    ensures |a| <= |b|
    decreases |b|
  {
    if b != {} {
      var x :| x in b;
      SubsetCard(a - {x}, b - {x});
    }
  }

  lemma SubsetSameCard<T>(a: set<T>, b: set<T>)
    requires a <= b && |a| == |b|
    ensures a == b
  {
    if a != b {
      var x :| x in b && x !in a;
      SubsetCard(a, b - {x});
    }
  }

  /** List the elements of a set in its (unspecified) iteration order: list(s). */
  method SetToSeq<T>(s: set<T>) returns (xs: seq<T>)
    ensures |xs| == |s| && Elems(xs) == s && Distinct(xs)
  {
    xs := [];
    var rest := s;
    while rest != {}
      invariant rest <= s
      invariant Elems(xs) == s - rest
      invariant |xs| + |rest| == |s|
      invariant Distinct(xs)
      decreases |rest|
    {
      var x := PickAny(rest);
      assert Elems(xs + [x]) == Elems(xs) + {x};
      xs := xs + [x];
      rest := rest - {x};
    }
  }

  /** The next element of a set in its (unspecified) iteration order. */
  method PickAny<T>(s: set<T>) returns (x: T)
    requires s != {}
    ensures x in s
  {
    if forall y :: y !in s {
      assert false;
    }
    x :| x in s;
  }

  /**
   * xs is sorted(list(s))[:n]: strictly ascending, drawn from s, of length
   * min(n, |s|), and no element of s it leaves out sorts before one it keeps.
   */
  ghost predicate TopSorted(xs: seq<string>, s: set<string>, n: nat) {
    && StrictlyAscending(xs)
    && |xs| == Min(n, |s|)
    && (forall x :: x in xs ==> x in s)
    && (forall x, y :: x in s && x !in xs && y in xs ==> StrLe(y, x))
  }

  /** sorted(list(s))[:n] */
  method SortedPrefix(s: set<string>, n: nat) returns (xs: seq<string>)
    ensures TopSorted(xs, s, n)
  {
    var listed := SetToSeq(s);
    SortedListTop(listed, s, n);
    var sorted := SortStrings(listed);
    xs := sorted[..Min(n, |sorted|)];
  }

  /** The first n of any listing of s, once sorted, are the top n of s. */
  lemma SortedListTop(listed: seq<string>, s: set<string>, n: nat)
    requires |listed| == |s| && Elems(listed) == s && Distinct(listed)
    ensures TopSorted(SortStrings(listed)[..Min(n, |listed|)], s, n)
  {
    var sorted := SortStrings(listed);
    var xs := sorted[..Min(n, |sorted|)];
    DistinctPermutation(listed, sorted);
    AscendingDistinct(sorted);
    assert forall x :: x in sorted <==> x in s by {
      forall x ensures x in sorted <==> x in listed {
        assert x in sorted <==> x in multiset(sorted);
      }
    }
    forall x, y | x in s && x !in xs && y in xs ensures StrLe(y, x) {
      var p :| 0 <= p < |sorted| && sorted[p] == x;
      var q :| 0 <= q < |xs| && xs[q] == y;
      assert p >= |xs|;
    }
  }

  /** Some duplicate-free listing of a set. */
  ghost function SetList<T>(s: set<T>): (xs: seq<T>)
    ensures |xs| == |s| && Elems(xs) == s && Distinct(xs)
    decreases |s|
  {
    if s == {} then []
    else
      var x :| x in s;
      var rest := SetList(s - {x});
      assert Elems([x] + rest) == {x} + Elems(rest);
      [x] + rest
  }

  /** The top n elements of s: what SortedPrefix returns, as a function. */
  ghost function TopOf(s: set<string>, n: nat): (xs: seq<string>)
    ensures TopSorted(xs, s, n)
  {
    SortedListTop(SetList(s), s, n);
    SortStrings(SetList(s))[..Min(n, |s|)]
  }

  lemma StrLeReflexive(a: string)
    ensures StrLe(a, a)
  {
  }

  /** The head of a strictly ascending list is its least element. */
  lemma HeadLeast(a: seq<string>, x: string)
    requires StrictlyAscending(a) && x in a
    ensures StrLe(a[0], x)
  {
    var i :| 0 <= i < |a| && a[i] == x;
    if i == 0 { StrLeReflexive(x); }
  }

  /** Dropping the head of a strictly ascending list removes exactly that element. */
  lemma TailElems(a: seq<string>, x: string)
    requires StrictlyAscending(a) && a != []
    ensures x in a[1..] <==> x in a && x != a[0]
  {
    assert a == [a[0]] + a[1..];
    if x in a[1..] {
      var k :| 0 <= k < |a[1..]| && a[1..][k] == x;
      assert a[k + 1] == x;
    }
  }

  /** Two strictly ascending lists with the same elements are equal. */
  lemma {:induction false} StrictlyAscendingUnique(a: seq<string>, b: seq<string>)
    requires StrictlyAscending(a) && StrictlyAscending(b) && |a| == |b|
    requires forall x :: x in a <==> x in b
    ensures a == b
  {
    if a != [] {
      assert a[0] in b;
      assert b[0] in a;
      HeadLeast(a, b[0]);
      HeadLeast(b, a[0]);
      StrLeAntisymmetric(a[0], b[0]);
      forall x ensures x in a[1..] <==> x in b[1..] {
        TailElems(a, x);
        TailElems(b, x);
      }
      assert StrictlyAscending(a[1..]) && StrictlyAscending(b[1..]);
      StrictlyAscendingUnique(a[1..], b[1..]);
      assert a == [a[0]] + a[1..] && b == [b[0]] + b[1..];
    }
  }

  /** sorted(list(s))[:n] is determined by s and n alone. */
  lemma TopSortedUnique(a: seq<string>, b: seq<string>, s: set<string>, n: nat)
    requires TopSorted(a, s, n) && TopSorted(b, s, n)
    ensures a == b
  {
    assert Distinct(a) && Distinct(b);
    DistinctCard(a);
    DistinctCard(b);
    if !(Elems(b) <= Elems(a)) {
      // x is in s but left out of a, so it sorts after all of a; as |a| == |b|
      // some z of a is left out of b, and it sorts after all of b
      var x :| x in Elems(b) && x !in Elems(a);
      if Elems(a) <= Elems(b) {
        SubsetSameCard(Elems(a), Elems(b));
        assert false;
      }
      var z :| z in Elems(a) && z !in Elems(b);
      assert StrLe(z, x);
      assert StrLe(x, z);
      StrLeAntisymmetric(x, z);
      assert false;
    }
    SubsetSameCard(Elems(b), Elems(a));
    assert forall x :: x in a <==> x in Elems(a);
    StrictlyAscendingUnique(a, b);
  }

  /** When s has at most n elements, sorted(list(s))[:n] lists all of s. */
  lemma TopSortedComplete(xs: seq<string>, s: set<string>, n: nat)
    requires TopSorted(xs, s, n) && |s| <= n
    ensures forall x :: x in xs <==> x in s
  {
    assert Distinct(xs);
    DistinctCard(xs);
    assert Elems(xs) <= s;
    SubsetSameCard(Elems(xs), s);
  }
}
