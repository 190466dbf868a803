/** The two-way randomised quicksort, in place on an array. */
module QuickSort {

  /** t is s with the elements between lo and hi (not included) put in another order. */
  ghost predicate Rearranged(s: seq<int>, t: seq<int>, lo: int, hi: int) {
    && |t| == |s| && multiset(t) == multiset(s)
    && forall k :: 0 <= k < |s| && !(lo <= k < hi) ==> t[k] == s[k]
  }

  function Swapped(s: seq<int>, i: nat, j: nat): seq<int>
    requires i < |s| && j < |s|
  {
    s[i := s[j]][j := s[i]]
  }

  lemma SwappedRearranged(s: seq<int>, t: seq<int>, i: nat, j: nat, lo: int, hi: int)
    requires Rearranged(s, t, lo, hi) && i < |s| && j < |s| && lo <= i < hi && lo <= j < hi
    ensures Rearranged(s, Swapped(t, i, j), lo, hi)
  {
    assert multiset(t[i := t[j]]) == multiset(t) - multiset{t[i]} + multiset{t[j]};
  }

  lemma CountsSplit(s: seq<int>, lo: nat, hi: nat, x: int)
    requires lo <= hi <= |s|
    ensures multiset(s)[x] == multiset(s[..lo])[x] + multiset(s[lo..hi])[x] + multiset(s[hi..])[x]
  {
    assert s[..lo] + s[lo..hi] + s[hi..] == s;
  }

  /** What holds of every element of the range before holds of every one after. */
  lemma RearrangedWithin(s: seq<int>, t: seq<int>, lo: nat, hi: nat, least: int, most: int)
    requires Rearranged(s, t, lo, hi) && lo <= hi <= |s|
    requires forall k :: lo <= k < hi ==> least <= s[k] <= most
    ensures forall k :: lo <= k < hi ==> least <= t[k] <= most
  {
    forall k | lo <= k < hi ensures least <= t[k] <= most {
      ElementWithin(s, t, lo, hi, k);
    }
  }

  lemma ElementWithin(s: seq<int>, t: seq<int>, lo: nat, hi: nat, k: nat)
    requires Rearranged(s, t, lo, hi) && lo <= k < hi <= |s|
    ensures t[k] in s[lo..hi]
  {
    CountsSplit(s, lo, hi, t[k]);
    CountsSplit(t, lo, hi, t[k]);
    assert s[..lo] == t[..lo] && s[hi..] == t[hi..];
    assert t[lo..hi][k - lo] in multiset(t[lo..hi]);
    assert multiset(s[lo..hi])[t[k]] > 0;
  }

  ghost predicate SortedRange(s: seq<int>, lo: int, hi: int) {
    forall i, j :: 0 <= lo <= i < j < hi <= |s| ==> s[i] <= s[j]
  }

  /** rand() % n: any number below n. */
  method Random(n: nat) returns (r: nat)
    requires n > 0
    ensures r < n
  {
    var x: int := *;
    r := x % n;
  }

  /** std::swap of two elements of a range; s is what the array held at the start. */
  method Swap(a: array<int>, i: nat, j: nat, ghost s: seq<int>, ghost lo: int, ghost hi: int)
    requires i < a.Length && j < a.Length && lo <= i < hi && lo <= j < hi
    requires Rearranged(s, a[..], lo, hi)
    modifies a
    ensures a[i] == old(a[j]) && a[j] == old(a[i])
    ensures forall k :: 0 <= k < a.Length && k != i && k != j ==> a[k] == old(a[k])
    ensures Rearranged(s, a[..], lo, hi)
  {
    SwappedRearranged(s, a[..], i, j, lo, hi);
    var t := a[i];
    a[i] := a[j];
    a[j] := t;
    assert a[..] == Swapped(old(a[..]), i, j);
  }

  /** partition2.  The two scans may overshoot each other on equal keys, and still j is a
      final position for the pivot: nothing left of it is larger, nothing right smaller. */
  method Partition2(a: array<int>, start: nat, end: nat) returns (j: nat)
    requires start <= end < a.Length
    modifies a
    ensures start <= j <= end
    ensures forall k :: start <= k < j ==> a[k] <= a[j]
    ensures forall k :: j < k <= end ==> a[k] >= a[j]
    ensures Rearranged(old(a[..]), a[..], start, end + 1)
  {
    ghost var s := a[..];
    assert Rearranged(s, a[..], start, end + 1);
    hide Rearranged;
    var index := Random(end - start + 1);
    index := index + start;
    Swap(a, index, start, s, start, end + 1);
    var pivot := a[start];
    var i := start + 1;
    j := end;
    while true
      invariant start < i <= j + 1 && j <= end
      invariant a[start] == pivot && Rearranged(s, a[..], start, end + 1)
      invariant forall k :: start < k < i ==> a[k] <= pivot
      invariant forall k :: j < k <= end ==> a[k] >= pivot
      decreases j + 1 - i
    {
      while i <= end && a[i] <= pivot
        invariant start < i <= end + 1
        invariant forall k :: start < k < i ==> a[k] <= pivot
      {
        i := i + 1;
      }
      while j >= start + 1 && a[j] >= pivot
        invariant start <= j <= end
        invariant forall k :: j < k <= end ==> a[k] >= pivot
      {
        j := j - 1;
      }
      if i > j {
        break;
      }
      Swap(a, i, j, s, start, end + 1);
      i := i + 1;
      j := j - 1;
    }
    Swap(a, start, j, s, start, end + 1);
  }

  /** partition, the one-way scan: it separates strictly smaller elements from the rest. */
  method Partition(a: array<int>, start: nat, end: nat) returns (small: nat)
    requires start <= end < a.Length
    modifies a
    ensures start <= small <= end
    ensures forall k :: start <= k < small ==> a[k] < a[small]
    ensures forall k :: small < k <= end ==> a[k] >= a[small]
    ensures Rearranged(old(a[..]), a[..], start, end + 1)
  {
    ghost var s := a[..];
    var index := Random(end - start + 1);
    index := index + start;
    Swap(a, index, start, s, start, end + 1);
    var pivot := a[start];
    small := start;
    for i := start + 1 to end + 1
      invariant start <= small < i
      invariant a[start] == pivot && Rearranged(s, a[..], start, end + 1)
      invariant forall k :: start < k <= small ==> a[k] < pivot
      invariant forall k :: small < k < i ==> a[k] >= pivot
    {
      if a[i] < pivot {
        Swap(a, small + 1, i, s, start, end + 1);
        small := small + 1;
      }
    }
    Swap(a, small, start, s, start, end + 1);
  }

  /** quickSortOffer sorts the range, permutes it and touches nothing else. */
  method QuickSortOffer(a: array<int>, start: int, end: int)
    requires start <= end ==> 0 <= start && end < a.Length
    modifies a
    ensures SortedRange(a[..], start, end + 1)
    ensures Rearranged(old(a[..]), a[..], start, end + 1)
    decreases if start <= end then end - start + 1 else 0
  {
    if start == end {
      return;
    }
    if start < end {
      ghost var s := a[..];
      var index: int := Partition2(a, start, end);
      ghost var t := a[..];
      QuickSortOffer(a, start, index - 1);
      ghost var u := a[..];
      QuickSortOffer(a, index + 1, end);
      Conquer(s, t, u, a[..], start, index, end);
    }
  }

  /** Two sorted halves around the pivot make a sorted range. */
  lemma Conquer(s: seq<int>, t: seq<int>, u: seq<int>, v: seq<int>, start: nat, index: nat, end: nat)
    requires start <= index <= end < |s| && Rearranged(s, t, start, end + 1)
    requires forall k :: start <= k < index ==> t[k] <= t[index]
    requires forall k :: index < k <= end ==> t[k] >= t[index]
    requires Rearranged(t, u, start, index) && SortedRange(u, start, index)
    requires Rearranged(u, v, index + 1, end + 1) && SortedRange(v, index + 1, end + 1)
    ensures Rearranged(s, v, start, end + 1) && SortedRange(v, start, end + 1)
  {
    var p := t[index];
    var least, most := Least(t), Most(t);
    RearrangedWithin(t, u, start, index, least, p);
    RearrangedWithin(u, v, index + 1, end + 1, p, most);
    forall i, j | start <= i < j < end + 1 ensures v[i] <= v[j] {
      if j < index {
        assert v[i] == u[i] && v[j] == u[j];
      } else if i <= index {
        assert v[index] == p && (i < index ==> v[i] == u[i]);
      }
    }
  }

  /** A lower and an upper bound of all elements. */
  ghost function Least(s: seq<int>): (m: int)
    ensures forall k :: 0 <= k < |s| ==> m <= s[k]
  {
    if s == [] then 0 else var m := Least(s[1..]); if s[0] < m then s[0] else m
  }

  ghost function Most(s: seq<int>): (m: int)
    ensures forall k :: 0 <= k < |s| ==> s[k] <= m
  {
    if s == [] then 0 else var m := Most(s[1..]); if s[0] > m then s[0] else m
  }

  lemma SameTails(s: seq<int>, t: seq<int>)
    requires s != [] && t != [] && s[0] == t[0] && multiset(s) == multiset(t)
    ensures multiset(s[1..]) == multiset(t[1..])
  {
    assert s == [s[0]] + s[1..] && t == [t[0]] + t[1..];
    assert multiset(s[1..]) == multiset(s) - multiset{s[0]};
    assert multiset(t[1..]) == multiset(t) - multiset{t[0]};
  }

  lemma FirstIsLeast(s: seq<int>, x: int)
    requires SortedRange(s, 0, |s|) && x in multiset(s)
    ensures s != [] && s[0] <= x
  {
    var k :| 0 <= k < |s| && s[k] == x;
  }

  /** The outcome does not depend on the pivots: a sorted rearrangement is unique. */
  lemma {:induction false} SortedIsUnique(s: seq<int>, t: seq<int>)
    requires SortedRange(s, 0, |s|) && SortedRange(t, 0, |t|) && multiset(s) == multiset(t)
    ensures s == t
  {
    if s == [] {
      assert |multiset(s)| == |s| && |multiset(t)| == |t|;
    } else {
      assert s[0] in multiset(t);
      FirstIsLeast(t, s[0]);
      FirstIsLeast(s, t[0]);
      SameTails(s, t);
      SortedIsUnique(s[1..], t[1..]);
    }
  }
}
