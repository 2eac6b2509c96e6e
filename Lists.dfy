/**
 * Order-preserving list idioms the Python sources spell out with loops: the
 * subsequence relation, and de-duplication by a key through a `seen` set
 * that keeps the first element of each key.
 */
module Lists {

  // ---------------------------------------------------------------------
  // Subsequences
  // ---------------------------------------------------------------------

  /** r is xs with some elements left out, the rest in their order. */
  predicate Subseq<T(==)>(r: seq<T>, xs: seq<T>)
    decreases |xs|
  {
    if r == [] then true
    else if xs == [] then false
    else if r[|r| - 1] == xs[|xs| - 1] then Subseq(r[..|r| - 1], xs[..|xs| - 1])
    else Subseq(r, xs[..|xs| - 1])
  }

  lemma {:induction false} SubseqDropLast<T>(r: seq<T>, xs: seq<T>)
    requires r != [] && Subseq(r, xs)
    ensures Subseq(r[..|r| - 1], xs)
    decreases |xs|, 0
  {
    var ri := r[..|r| - 1];
    var xi := xs[..|xs| - 1];
    if r[|r| - 1] == xs[|xs| - 1] {
      if ri != [] {
        SubseqDropLast(ri, xi);
        SubseqSnoc(ri[..|ri| - 1], xi, xs[|xs| - 1]);
        assert xi + [xs[|xs| - 1]] == xs;
      }
    } else {
      SubseqDropLast(r, xi);
      SubseqSnoc(ri, xi, xs[|xs| - 1]);
      assert xi + [xs[|xs| - 1]] == xs;
    }
  }

  /** Appending to xs keeps every subsequence a subsequence. */
  lemma {:induction false} SubseqSnoc<T>(r: seq<T>, xs: seq<T>, x: T)
    requires Subseq(r, xs)
    ensures Subseq(r, xs + [x])
    decreases |xs|, 1
  {
    var ys := xs + [x];
    assert ys[..|ys| - 1] == xs;
    if r != [] && r[|r| - 1] == x {
      SubseqDropLast(r, xs);
    }
  }

  lemma SubseqElems<T>(r: seq<T>, xs: seq<T>, y: T)
    requires Subseq(r, xs) && y in r
    ensures y in xs
    decreases |xs|
  {
    if r[|r| - 1] == xs[|xs| - 1] {
      if y != r[|r| - 1] {
        assert y in r[..|r| - 1];
        SubseqElems(r[..|r| - 1], xs[..|xs| - 1], y);
      }
    } else {
      SubseqElems(r, xs[..|xs| - 1], y);
    }
  }

  /** [f(x) for x in xs] */
  function Map<T, U>(xs: seq<T>, f: T -> U): (ys: seq<U>)
    ensures |ys| == |xs|
    ensures forall k :: 0 <= k < |xs| ==> ys[k] == f(xs[k])
  {
    seq(|xs|, k requires 0 <= k < |xs| => f(xs[k]))
  }

  /** [f(i, x) for i, x in enumerate(xs, 1)] */
  function Numbered<T, U>(xs: seq<T>, f: (nat, T) -> U): (ys: seq<U>)
    ensures |ys| == |xs|
    ensures forall k :: 0 <= k < |xs| ==> ys[k] == f(k + 1, xs[k])
  {
    seq(|xs|, k requires 0 <= k < |xs| => f(k + 1, xs[k]))
  }

  lemma NumberedSnoc<T, U>(xs: seq<T>, i: nat, f: (nat, T) -> U)
    requires i < |xs|
    ensures Numbered(xs[..i + 1], f) == Numbered(xs[..i], f) + [f(i + 1, xs[i])]
  {
  }

  // ---------------------------------------------------------------------
  // De-duplication by key, keeping the first of each key
  // ---------------------------------------------------------------------

  /** The keys of the elements of xs. */
  function Keys<T(==)>(xs: seq<T>, key: T -> string): (ks: set<string>)
  {
    set x | x in xs :: key(x)
  }

  /** The elements whose key was not seen earlier, in order. */
  function DedupBy<T(==)>(xs: seq<T>, key: T -> string): (r: seq<T>)
  {
    if xs == [] then []
    else
      var init := xs[..|xs| - 1];
      var last := xs[|xs| - 1];
      DedupBy(init, key) + (if key(last) in Keys(init, key) then [] else [last])
  }

  lemma KeysSnoc<T>(xs: seq<T>, x: T, key: T -> string)
    ensures Keys(xs + [x], key) == Keys(xs, key) + {key(x)}
  {
    var ys := xs + [x];
    forall k | k in Keys(ys, key) ensures k in Keys(xs, key) + {key(x)} {
      var y :| y in ys && key(y) == k;
      if y != x {
        assert y in xs;
      }
    }
    forall k | k in Keys(xs, key) ensures k in Keys(ys, key) {
      var y :| y in xs && key(y) == k;
      assert y in ys;
    }
  }

  /** The loop: each element is kept unless its key is already in `seen`. */
  method Dedup<T(==)>(xs: seq<T>, key: T -> string) returns (out: seq<T>)
    ensures out == DedupBy(xs, key)
  {
    out := [];
    var seen: set<string> := {};
    for i := 0 to |xs|
      invariant seen == Keys(xs[..i], key)
      invariant out == DedupBy(xs[..i], key)
    {
      var x := xs[i];
      var k := key(x);
      assert xs[..i + 1] == xs[..i] + [x];
      assert xs[..i + 1][..i] == xs[..i];
      KeysSnoc(xs[..i], x, key);
      if k in seen {
        continue;
      }
      seen := seen + {k};
      out := out + [x];
    }
    assert xs[..|xs|] == xs;
  }

  /**
   * The same loop emitting an image of each kept element:
   * `if key(x) in seen: continue; seen.add(key(x)); out.append(f(x))`.
   */
  method DedupMap<T(==), U>(xs: seq<T>, key: T -> string, f: T -> U) returns (out: seq<U>)
    ensures out == Map(DedupBy(xs, key), f)
  {
    out := [];
    var seen: set<string> := {};
    for i := 0 to |xs|
      invariant seen == Keys(xs[..i], key)
      invariant out == Map(DedupBy(xs[..i], key), f)
    {
      var k := key(xs[i]);
      DedupMapSnoc(xs, i, key, f);
      if k in seen {
        continue;
      }
      seen := seen + {k};
      out := out + [f(xs[i])];
    }
    assert xs[..|xs|] == xs;
  }

  /** De-duplication keeps order and every key, and no key twice. */
  lemma {:induction false} DedupFacts<T>(xs: seq<T>, key: T -> string)
    ensures Subseq(DedupBy(xs, key), xs)
    ensures Keys(DedupBy(xs, key), key) == Keys(xs, key)
    ensures forall i, j :: 0 <= i < j < |DedupBy(xs, key)| ==> key(DedupBy(xs, key)[i]) != key(DedupBy(xs, key)[j])
  {
    if xs != [] {
      var init := xs[..|xs| - 1];
      var last := xs[|xs| - 1];
      var d := DedupBy(init, key);
      DedupFacts(init, key);
      assert xs == init + [last];
      KeysSnoc(init, last, key);
      if key(last) in Keys(init, key) {
        assert DedupBy(xs, key) == d;
        SubseqSnoc(d, init, last);
      } else {
        assert DedupBy(xs, key) == d + [last];
        KeysSnoc(d, last, key);
        assert (d + [last])[..|d|] == d;
        assert Subseq(d + [last], xs);
        forall i | 0 <= i < |d| ensures key(d[i]) != key(last) {
          assert d[i] in d;
        }
      }
    }
  }

  /** Each element kept is the first element of xs with its key. */
  lemma {:induction false} DedupKeepsFirst<T>(xs: seq<T>, key: T -> string, y: T)
    requires y in DedupBy(xs, key)
    ensures exists i :: 0 <= i < |xs| && xs[i] == y && forall j :: 0 <= j < i ==> key(xs[j]) != key(y)
  {
    var init := xs[..|xs| - 1];
    var last := xs[|xs| - 1];
    if y in DedupBy(init, key) {
      DedupKeepsFirst(init, key, y);
      var i :| 0 <= i < |init| && init[i] == y && forall j :: 0 <= j < i ==> key(init[j]) != key(y);
      assert xs[i] == y;
      assert forall j :: 0 <= j < i ==> xs[j] == init[j];
    } else {
      assert y == last && key(last) !in Keys(init, key);
      forall j | 0 <= j < |xs| - 1 ensures key(xs[j]) != key(y) {
        assert init[j] == xs[j] && init[j] in init;
      }
    }
  }

  /** Keys that are pairwise distinct are as many as the elements. */
  lemma {:induction false} DistinctKeysCard<T>(d: seq<T>, key: T -> string)
    requires forall i, j :: 0 <= i < j < |d| ==> key(d[i]) != key(d[j])
    ensures |Keys(d, key)| == |d|
  {
    if d != [] {
      var init := d[..|d| - 1];
      var last := d[|d| - 1];
      DistinctKeysCard(init, key);
      KeysSnoc(init, last, key);
      assert init + [last] == d;
      forall y | y in init ensures key(y) != key(last) {
        var m :| 0 <= m < |init| && init[m] == y;
        assert d[m] == y;
      }
    }
  }

  /** One more element: its image is added exactly when its key is new. */
  lemma DedupMapSnoc<T, U>(xs: seq<T>, i: nat, key: T -> string, f: T -> U)
    requires i < |xs|
    ensures Map(DedupBy(xs[..i + 1], key), f) ==
      Map(DedupBy(xs[..i], key), f) + (if key(xs[i]) in Keys(xs[..i], key) then [] else [f(xs[i])])
    ensures Keys(xs[..i + 1], key) == Keys(xs[..i], key) + {key(xs[i])}
  {
    assert xs[..i + 1] == xs[..i] + [xs[i]];
    assert xs[..i + 1][..i] == xs[..i];
    KeysSnoc(xs[..i], xs[i], key);
    var d := DedupBy(xs[..i], key);
    var e := if key(xs[i]) in Keys(xs[..i], key) then [] else [xs[i]];
    assert DedupBy(xs[..i + 1], key) == d + e;
    assert Map(d + e, f) == Map(d, f) + Map(e, f);
  }

  /** xs[i] is the first element of xs with its key. */
  predicate FirstOfKey<T>(xs: seq<T>, i: nat, key: T -> string)
    requires i < |xs|
  {
    forall j :: 0 <= j < i ==> key(xs[j]) != key(xs[i])
  }

  /**
   * The images of the de-duplicated elements: one per distinct key, each the
   * image of the first element with that key.
   */
  lemma MapDedupFacts<T, U>(xs: seq<T>, key: T -> string, f: T -> U)
    ensures forall k :: 0 <= k < |Map(DedupBy(xs, key), f)| ==>
      exists i :: 0 <= i < |xs| && Map(DedupBy(xs, key), f)[k] == f(xs[i]) && FirstOfKey(xs, i, key)
    ensures |Map(DedupBy(xs, key), f)| == |Keys(xs, key)|
  {
    var d := DedupBy(xs, key);
    DedupFacts(xs, key);
    forall k | 0 <= k < |d|
      ensures exists i :: 0 <= i < |xs| && f(d[k]) == f(xs[i]) && FirstOfKey(xs, i, key)
    {
      DedupKeepsFirst(xs, key, d[k]);
    }
    DistinctKeysCard(d, key);
  }
}
