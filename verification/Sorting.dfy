/** Sorting by packet id. `sort.Sort` is modelled by the insertion sort that the Go library
    runs on slices of at most twelve elements; callers rely only on the result being a sorted
    permutation. */
module Sorting {
  import opened Bytes

  ghost predicate Ascending(s: seq<UInt32>) {
    forall i, j :: 0 <= i < j < |s| ==> s[i] < s[j]
  }

  ghost predicate SortedBy<T>(s: seq<T>, key: T -> int) {
    forall i, j :: 0 <= i < j < |s| ==> key(s[i]) <= key(s[j])
  }

  ghost predicate StrictlyBy<T>(s: seq<T>, key: T -> int) {
    forall i, j :: 0 <= i < j < |s| ==> key(s[i]) < key(s[j])
  }

  lemma TailElements<T>(s: seq<T>)
    requires s != []
    ensures multiset(s[1..]) == multiset(s) - multiset{s[0]}
  {
    assert s == [s[0]] + s[1..];
  }

  lemma SameHead<T>(s: seq<T>, t: seq<T>, key: T -> int)
    requires SortedBy(s, key) && StrictlyBy(t, key) && multiset(s) == multiset(t) && s != []
    ensures t != [] && s[0] == t[0]
  {
    assert s[0] in multiset(t);
    assert s[0] in t;
    assert t[0] in multiset(s);
    assert t[0] in s;
  }

  /** Sorting a permutation of a strictly ascending sequence gives that sequence. */
  lemma {:induction false} SortedPermutation<T>(s: seq<T>, t: seq<T>, key: T -> int)
    requires SortedBy(s, key) && StrictlyBy(t, key) && multiset(s) == multiset(t)
    ensures s == t
  {
    assert |s| == |multiset(s)| && |t| == |multiset(t)|;
    if s != [] {
      SameHead(s, t, key);
      TailElements(s);
      TailElements(t);
      SortedPermutation(s[1..], t[1..], key);
      assert s == [s[0]] + s[1..] && t == [t[0]] + t[1..];
    }
  }

  ghost function ToSet<T>(s: seq<T>): set<T> {
    set x | x in s
  }

  lemma AscendingTail(s: seq<UInt32>)
    requires Ascending(s) && s != []
    ensures Ascending(s[1..]) && s[0] !in s[1..] && ToSet(s[1..]) == ToSet(s) - {s[0]}
  {
    assert s == [s[0]] + s[1..];
    assert forall x :: x in s[1..] ==> x in s;
  }

  /** An ascending sequence is determined by its elements. */
  lemma {:induction false} AscendingUnique(s: seq<UInt32>, t: seq<UInt32>)
    requires Ascending(s) && Ascending(t) && ToSet(s) == ToSet(t)
    ensures s == t
  {
    assert |t| > 0 ==> t[0] in ToSet(t);
    if s == [] {
    } else {
      assert s[0] in ToSet(s);
      assert s[0] in t;
      assert t[0] in ToSet(t);
      assert t[0] in s;
      assert s[0] == t[0];
      AscendingTail(s);
      AscendingTail(t);
      AscendingUnique(s[1..], t[1..]);
      assert s == [s[0]] + s[1..] && t == [t[0]] + t[1..];
    }
  }

  lemma AscendingSplit(s: seq<UInt32>, t: seq<UInt32>)
    requires Ascending(s + t)
    ensures Ascending(s) && Ascending(t)
    ensures ToSet(t) == ToSet(s + t) - ToSet(s)
  {
    var e := s + t;
    assert forall i :: 0 <= i < |t| ==> t[i] == e[|s| + i];
    assert forall i :: 0 <= i < |s| ==> s[i] == e[i];
    forall x | x in s
      ensures x !in t
    {
      var i :| 0 <= i < |s| && s[i] == x;
    }
  }

  ghost predicate IsMin(m: UInt32, s: set<UInt32>) {
    m in s && forall x :: x in s ==> m <= x
  }

  lemma {:induction false} HasMin(s: set<UInt32>)
    requires s != {}
    ensures exists m :: IsMin(m, s)
  {
    assert (forall y: UInt32 :: y !in s) ==> s == {};
    var y :| y in s;
    if s == {y} {
      assert IsMin(y, s);
    } else {
      assert s - {y} == {} ==> s == {y};
      HasMin(s - {y});
      var n :| IsMin(n, s - {y});
      assert forall x :: x in s ==> x == y || x in s - {y};
      assert IsMin(if n < y then n else y, s);
    }
  }

  ghost function Min(s: set<UInt32>): (m: UInt32)
    requires s != {}
    ensures IsMin(m, s)
  {
    HasMin(s);
    var m :| IsMin(m, s);
    m
  }

  lemma AscendingCons(m: UInt32, t: seq<UInt32>)
    requires Ascending(t) && forall x :: x in t ==> m < x
    ensures Ascending([m] + t) && ToSet([m] + t) == {m} + ToSet(t)
  {
    var r := [m] + t;
    assert forall i :: 0 < i < |r| ==> r[i] == t[i - 1] && r[i] in t;
    assert forall x :: x in r <==> x == m || x in t;
  }

  /** The elements of a set in ascending order. */
  ghost function Enumerate(s: set<UInt32>): (r: seq<UInt32>)
    ensures Ascending(r) && ToSet(r) == s && |r| == |s|
  {
    if s == {} then []
    else
      var m := Min(s);
      var t := Enumerate(s - {m});
      EnumerateCons(s, m, t);
      [m] + t
  }

  lemma EnumerateCons(s: set<UInt32>, m: UInt32, t: seq<UInt32>)
    requires IsMin(m, s) && Ascending(t) && ToSet(t) == s - {m}
    ensures Ascending([m] + t) && ToSet([m] + t) == s
  {
    assert forall x :: x in t ==> x in ToSet(t);
    AscendingCons(m, t);
  }

  // ------------------------------------------------------------- multiplicity

  lemma CountedTwice<T>(s: seq<T>, i: nat, j: nat)
    requires i < j < |s|
    ensures s[i] == s[j] ==> multiset(s)[s[j]] >= 2
  {
    assert s == s[..j] + [s[j]] + s[j + 1..];
    assert s[i] in s[..j];
  }

  lemma {:induction false} DistinctCounts<T>(s: seq<T>)
    requires forall i, j :: 0 <= i < j < |s| ==> s[i] != s[j]
    ensures forall x :: multiset(s)[x] <= 1
  {
    if s != [] {
      var init, last := s[..|s| - 1], s[|s| - 1];
      DistinctCounts(init);
      assert s == init + [last];
      assert last !in init;
    }
  }

  // ------------------------------------------------------------- sort.Sort

  method Swap<T>(a: array<T>, i: nat, j: nat)
    requires i < a.Length && j < a.Length
    modifies a
    ensures a[i] == old(a[j]) && a[j] == old(a[i])
    ensures forall k :: 0 <= k < a.Length && k != i && k != j ==> a[k] == old(a[k])
  {
    a[i], a[j] := a[j], a[i];
  }

  lemma SwapKeepsElements<T>(s: seq<T>, t: seq<T>, i: nat)
    requires |s| == |t| && i + 1 < |s|
    requires t[i] == s[i + 1] && t[i + 1] == s[i]
    requires forall k :: 0 <= k < |s| && k != i && k != i + 1 ==> t[k] == s[k]
    ensures multiset(t) == multiset(s)
  {
    var x, y, a, b := s[..i], s[i + 2..], s[i], s[i + 1];
    assert s == x + [a, b] + y;
    assert t == x + [b, a] + y;
    assert multiset([a, b]) == multiset([b, a]);
  }

  /** The inner loop: moves element `i` left to its place in the sorted prefix. */
  method SinkLeft<T>(a: array<T>, i: nat, key: T -> int)
    requires i < a.Length
    requires forall p, q :: 0 <= p < q < i ==> key(a[p]) <= key(a[q])
    modifies a
    ensures forall p, q :: 0 <= p < q <= i ==> key(a[p]) <= key(a[q])
    ensures multiset(a[..]) == multiset(old(a[..]))
    ensures forall k :: i < k < a.Length ==> a[k] == old(a[k])
  {
    var j := i;
    while j > 0 && key(a[j]) < key(a[j - 1])
      invariant 0 <= j <= i
      invariant multiset(a[..]) == multiset(old(a[..]))
      invariant forall k :: i < k < a.Length ==> a[k] == old(a[k])
      invariant forall p, q :: 0 <= p < q <= i && p != j && q != j ==> key(a[p]) <= key(a[q])
      invariant forall k :: j < k <= i ==> key(a[j]) <= key(a[k])
    {
      ghost var before := a[..];
      Swap(a, j, j - 1);
      SwapKeepsElements(before, a[..], j - 1);
      j := j - 1;
    }
  }

  lemma PrefixElements<T>(s: seq<T>, t: seq<T>, n: nat)
    requires n <= |s| == |t| && s[n..] == t[n..] && multiset(s) == multiset(t)
    ensures multiset(s[..n]) == multiset(t[..n])
  {
    assert s == s[..n] + s[n..] && t == t[..n] + t[n..];
    assert multiset(s[..n]) == multiset(s) - multiset(s[n..]);
    assert multiset(t[..n]) == multiset(t) - multiset(t[n..]);
  }

  method InsertionSort<T>(a: array<T>, n: nat, key: T -> int)
    requires n <= a.Length
    modifies a
    ensures SortedBy(a[..n], key)
    ensures multiset(a[..n]) == multiset(old(a[..n]))
    ensures a[n..] == old(a[n..])
  {
    var i := 0;
    while i < n
      invariant 0 <= i <= n
      invariant forall p, q :: 0 <= p < q < i ==> key(a[p]) <= key(a[q])
      invariant multiset(a[..]) == multiset(old(a[..]))
      invariant forall k :: n <= k < a.Length ==> a[k] == old(a[k])
    {
      SinkLeft(a, i, key);
      i := i + 1;
    }
    ghost var was := old(a[..]);
    assert old(a[..n]) == was[..n] && a[..n] == a[..][..n];
    PrefixElements(a[..], was, n);
  }
}
