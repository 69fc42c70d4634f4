/** Stable sorting in non-increasing order of a key.

    The scheduler sorts with JavaScript's `Array.prototype.sort` and a
    comparator `(a, b) => key(b) - key(a)`. That sort is stable, so elements
    with equal keys keep their relative order. `SortDesc` is that sort as a
    function (an insertion sort from the left) and `SortInPlace` is the same
    sort done in place on an array. */
module StableSort {

  /** Non-increasing by key. */
  ghost predicate SortedDesc<T>(s: seq<T>, key: T -> real)
  {
    forall i, j :: 0 <= i < j < |s| ==> key(s[i]) >= key(s[j])
  }

  /** Puts `x` directly after the last element whose key is at least `key(x)`. */
  function Insert<T>(s: seq<T>, x: T, key: T -> real): (r: seq<T>)
    decreases |s|
    ensures |r| == |s| + 1
  {
    if s == [] then [x]
    else if key(s[|s| - 1]) >= key(x) then s + [x]
    else Insert(s[..|s| - 1], x, key) + [s[|s| - 1]]
  }

  /** Stable sort, highest key first. */
  function SortDesc<T>(s: seq<T>, key: T -> real): (r: seq<T>)
    decreases |s|
    ensures |r| == |s|
  {
    if s == [] then [] else Insert(SortDesc(s[..|s| - 1], key), s[|s| - 1], key)
  }

  /** The elements whose key is `k`, in order. */
  function KeyFilter<T>(s: seq<T>, key: T -> real, k: real): seq<T>
    decreases |s|
  {
    if s == [] then []
    else KeyFilter(s[..|s| - 1], key, k) + (if key(s[|s| - 1]) == k then [s[|s| - 1]] else [])
  }

  function MapSeq<A, B>(s: seq<A>, f: A -> B): (r: seq<B>)
    decreases |s|
    ensures |r| == |s|
  {
    if s == [] then [] else MapSeq(s[..|s| - 1], f) + [f(s[|s| - 1])]
  }

  /** The first element with the largest key. */
  function FirstMax<T>(s: seq<T>, key: T -> real): T
    requires |s| > 0
    decreases |s|
  {
    if |s| == 1 then s[0]
    else
      var m := FirstMax(s[..|s| - 1], key);
      if key(s[|s| - 1]) > key(m) then s[|s| - 1] else m
  }

  lemma {:induction false} InsertPermutes<T>(s: seq<T>, x: T, key: T -> real)
    ensures multiset(Insert(s, x, key)) == multiset(s) + multiset{x}
    decreases |s|
  {
    if s != [] && key(s[|s| - 1]) < key(x) {
      var init := s[..|s| - 1];
      InsertPermutes(init, x, key);
      assert s == init + [s[|s| - 1]];
    }
  }

  lemma {:induction false} InsertMapsPermute<T, K>(s: seq<T>, x: T, key: T -> real, f: T -> K)
    ensures multiset(MapSeq(Insert(s, x, key), f)) == multiset(MapSeq(s, f)) + multiset{f(x)}
    decreases |s|
  {
    var r := Insert(s, x, key);
    if s == [] {
    } else if key(s[|s| - 1]) >= key(x) {
      assert r[..|r| - 1] == s;
    } else {
      var init := s[..|s| - 1];
      InsertMapsPermute(init, x, key, f);
      assert r[..|r| - 1] == Insert(init, x, key);
      assert MapSeq(s, f) == MapSeq(init, f) + [f(s[|s| - 1])];
    }
  }

  lemma {:induction false} InsertKeepsSorted<T>(s: seq<T>, x: T, key: T -> real)
    requires SortedDesc(s, key)
    ensures SortedDesc(Insert(s, x, key), key)
    decreases |s|
  {
    if s != [] && key(s[|s| - 1]) < key(x) {
      var init := s[..|s| - 1];
      var last := s[|s| - 1];
      InsertKeepsSorted(init, x, key);
      InsertPermutes(init, x, key);
      var r := Insert(init, x, key);
      forall i | 0 <= i < |r|
        ensures key(r[i]) >= key(last)
      {
        assert r[i] in multiset(r);
        if r[i] != x {
          assert r[i] in multiset(init);
          var k :| 0 <= k < |init| && init[k] == r[i];
          assert s[k] == r[i];
        }
      }
    }
  }

  lemma {:induction false} InsertKeyFilter<T>(s: seq<T>, x: T, key: T -> real, k: real)
    ensures KeyFilter(Insert(s, x, key), key, k)
         == KeyFilter(s, key, k) + (if key(x) == k then [x] else [])
    decreases |s|
  {
    var r := Insert(s, x, key);
    if s == [] {
      assert r[..0] == [];
    } else if key(s[|s| - 1]) >= key(x) {
      assert r[..|r| - 1] == s;
    } else {
      var init := s[..|s| - 1];
      InsertKeyFilter(init, x, key, k);
      assert r[..|r| - 1] == Insert(init, x, key);
    }
  }

  lemma {:induction false} InsertHead<T>(s: seq<T>, x: T, key: T -> real)
    requires |s| > 0 && SortedDesc(s, key)
    ensures Insert(s, x, key)[0] == if key(x) > key(s[0]) then x else s[0]
    decreases |s|
  {
    if key(s[|s| - 1]) < key(x) && |s| > 1 {
      InsertHead(s[..|s| - 1], x, key);
    }
  }

  /** The sorted sequence is a permutation of the input, non-increasing by key,
      and equal-key elements keep their input order. */
  lemma SortDescCorrect<T>(s: seq<T>, key: T -> real)
    ensures |SortDesc(s, key)| == |s|
    ensures multiset(SortDesc(s, key)) == multiset(s)
    ensures SortedDesc(SortDesc(s, key), key)
    ensures forall k :: KeyFilter(SortDesc(s, key), key, k) == KeyFilter(s, key, k)
  {
    SortDescPermutes(s, key);
    SortDescSorted(s, key);
    forall k ensures KeyFilter(SortDesc(s, key), key, k) == KeyFilter(s, key, k) {
      SortDescKeyFilter(s, key, k);
    }
  }

  /** Sorting is a permutation. */
  lemma {:induction false} SortDescPermutes<T>(s: seq<T>, key: T -> real)
    ensures multiset(SortDesc(s, key)) == multiset(s)
    decreases |s|
  {
    if s != [] {
      var init := s[..|s| - 1];
      var last := s[|s| - 1];
      SortDescPermutes(init, key);
      assert SortDesc(s, key) == Insert(SortDesc(init, key), last, key);
      InsertPermutes(SortDesc(init, key), last, key);
      assert s == init + [last];
    }
  }

  /** The sorted sequence is non-increasing by key. */
  lemma {:induction false} SortDescSorted<T>(s: seq<T>, key: T -> real)
    ensures SortedDesc(SortDesc(s, key), key)
    decreases |s|
  {
    if s != [] {
      var init := s[..|s| - 1];
      SortDescSorted(init, key);
      InsertKeepsSorted(SortDesc(init, key), s[|s| - 1], key);
    }
  }

  /** Sorting keeps the order of the elements of each key. */
  lemma {:induction false} SortDescKeyFilter<T>(s: seq<T>, key: T -> real, k: real)
    ensures KeyFilter(SortDesc(s, key), key, k) == KeyFilter(s, key, k)
    decreases |s|
  {
    if s != [] {
      var init := s[..|s| - 1];
      var last := s[|s| - 1];
      SortDescKeyFilter(init, key, k);
      assert SortDesc(s, key) == Insert(SortDesc(init, key), last, key);
      InsertKeyFilter(SortDesc(init, key), last, key, k);
    }
  }

  /** Sorting does not change the multiset of any projection of the elements. */
  lemma {:induction false} SortDescMapsPermute<T, K>(s: seq<T>, key: T -> real, f: T -> K)
    ensures multiset(MapSeq(SortDesc(s, key), f)) == multiset(MapSeq(s, f))
    decreases |s|
  {
    if s != [] {
      var init := s[..|s| - 1];
      SortDescMapsPermute(init, key, f);
      InsertMapsPermute(SortDesc(init, key), s[|s| - 1], key, f);
    }
  }

  /** The head of the stable descending sort is the first element with the
      largest key. */
  lemma {:induction false} SortDescHeadIsFirstMax<T>(s: seq<T>, key: T -> real)
    requires |s| > 0
    ensures |SortDesc(s, key)| == |s|
    ensures SortDesc(s, key)[0] == FirstMax(s, key)
    decreases |s|
  {
    SortDescCorrect(s, key);
    var init := s[..|s| - 1];
    if |s| > 1 {
      SortDescHeadIsFirstMax(init, key);
      SortDescCorrect(init, key);
      InsertHead(SortDesc(init, key), s[|s| - 1], key);
    }
  }

  /** `FirstMax` picks an element whose key no element exceeds and that every
      earlier element falls strictly short of. */
  lemma {:induction false} FirstMaxIndex<T>(s: seq<T>, key: T -> real) returns (i: nat)
    requires |s| > 0
    ensures i < |s| && s[i] == FirstMax(s, key)
    ensures forall j :: 0 <= j < |s| ==> key(s[j]) <= key(s[i])
    ensures forall j :: 0 <= j < i ==> key(s[j]) < key(s[i])
    decreases |s|
  {
    if |s| == 1 {
      i := 0;
    } else {
      var init := s[..|s| - 1];
      var i' := FirstMaxIndex(init, key);
      if key(s[|s| - 1]) > key(FirstMax(init, key)) {
        i := |s| - 1;
      } else {
        i := i';
      }
    }
  }

  /** One step of the insertion loop: `x` moves past `t[j - 1]`. */
  lemma InsertMovesPast<T>(t: seq<T>, j: nat, x: T, key: T -> real)
    requires 0 < j <= |t| && key(t[j - 1]) < key(x)
    ensures Insert(t[..j], x, key) + t[j..] == Insert(t[..j - 1], x, key) + t[j - 1..]
  {
    assert t[..j][..j - 1] == t[..j - 1];
    assert t[j - 1..] == [t[j - 1]] + t[j..];
  }

  /** Where the insertion loop stops, `x` goes right after `t[..j]`. */
  lemma InsertStops<T>(t: seq<T>, j: nat, x: T, key: T -> real)
    requires j <= |t| && (j == 0 || key(t[j - 1]) >= key(x))
    ensures Insert(t[..j], x, key) == t[..j] + [x]
  {
    assert j > 0 ==> t[..j][..j - 1] == t[..j - 1];
  }

  /** The last write of the insertion: `x` goes into the gap at `j`. */
  method Place<T>(a: array<T>, i: nat, j: nat, x: T, ghost t: seq<T>)
    requires j <= i < a.Length && |t| == i
    requires forall k {:trigger a[k]} :: 0 <= k < j ==> a[k] == t[k]
    requires forall k {:trigger a[k]} :: j < k <= i ==> a[k] == t[k - 1]
    modifies a
    ensures a[..i + 1] == t[..j] + [x] + t[j..]
    ensures a[i + 1..] == old(a[i + 1..])
  {
    a[j] := x;
    assert a[..i + 1] == t[..j] + [x] + t[j..];
  }

  /** Moves `a[i]` leftwards into the sorted prefix `a[..i]`. */
  method InsertAt<T>(a: array<T>, i: nat, key: T -> real)
    requires i < a.Length
    modifies a
    ensures a[..i + 1] == Insert(old(a[..i]), old(a[i]), key)
    ensures a[i + 1..] == old(a[i + 1..])
  {
    var x := a[i];
    ghost var t := a[..i];
    var j := i;
    assert t[..j] == t && t[j..] == [];
    while j > 0 && key(a[j - 1]) < key(x)
      invariant 0 <= j <= i
      invariant forall k {:trigger a[k]} :: 0 <= k < j ==> a[k] == t[k]
      invariant forall k {:trigger a[k]} :: j < k <= i ==> a[k] == t[k - 1]
      invariant a[i + 1..] == old(a[i + 1..])
      invariant Insert(t, x, key) == Insert(t[..j], x, key) + t[j..]
    {
      InsertMovesPast(t, j, x, key);
      a[j] := a[j - 1];
      j := j - 1;
    }
    InsertStops(t, j, x, key);
    Place(a, i, j, x, t);
  }

  lemma SortDescSnoc<T>(s: seq<T>, i: nat, key: T -> real)
    requires i < |s|
    ensures SortDesc(s[..i + 1], key) == Insert(SortDesc(s[..i], key), s[i], key)
  {
    assert s[..i + 1][..i] == s[..i];
  }

  /** In-place stable insertion sort, highest key first. */
  method SortInPlace<T>(a: array<T>, key: T -> real)
    modifies a
    ensures a[..] == SortDesc(old(a[..]), key)
  {
    ghost var orig := a[..];
    var i := 0;
    while i < a.Length
      invariant 0 <= i <= a.Length
      invariant a[..i] == SortDesc(orig[..i], key)
      invariant a[i..] == orig[i..]
    {
      ghost var before := a[..];
      assert before[..i] == SortDesc(orig[..i], key);
      assert before[i] == orig[i] by {
        assert before[i..][0] == orig[i..][0];
      }
      assert before[i + 1..] == orig[i + 1..] by {
        assert before[i + 1..] == before[i..][1..];
        assert orig[i + 1..] == orig[i..][1..];
      }
      InsertAt(a, i, key);
      SortDescSnoc(orig, i, key);
      i := i + 1;
    }
    assert orig[..a.Length] == orig;
    assert a[..a.Length] == a[..];
  }
}
