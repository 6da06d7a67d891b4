/** In-place quick sort of a stretch of an array, with its last element as the pivot. */
module QuickSort {

  predicate SortedBetween(s: seq<int>, low: int, high: int)
    requires 0 <= low && high < |s|
  {
    forall i, j :: low <= i < j <= high ==> s[i] <= s[j]
  }

  /** t has the elements of s from low to high in some order, and the others where they are in s. */
  ghost predicate Rearranged(s: seq<int>, t: seq<int>, low: int, high: int) {
    && |s| == |t| && multiset(s) == multiset(t)
    && forall i :: 0 <= i < |s| && !(low <= i <= high) ==> t[i] == s[i]
  }

  lemma RearrangedTwice(s: seq<int>, t: seq<int>, u: seq<int>, low: int, high: int, low': int, high': int)
    requires Rearranged(s, t, low, high) && Rearranged(t, u, low', high') && low <= low' && high' <= high
    ensures Rearranged(s, u, low, high)
  {
  }

  /** Whatever holds of all elements of the stretch still does. */
  lemma StillAll(s: seq<int>, t: seq<int>, low: int, high: int, lower: int, upper: int)
    requires Rearranged(s, t, low, high) && 0 <= low && high < |s|
    requires forall i :: low <= i <= high ==> lower <= s[i] <= upper
    ensures forall i :: low <= i <= high ==> lower <= t[i] <= upper
  {
    if low <= high {
      var end := high + 1;
      Parts(s, low, end);
      Parts(t, low, end);
      assert s[..low] == t[..low] && s[end..] == t[end..];
      forall i | low <= i <= high ensures lower <= t[i] <= upper {
        assert t[low..end][i - low] == t[i];
        InPart(s[low..end], t[low..end], multiset(s[..low]), multiset(s[end..]), t[i]);
        var k :| 0 <= k < end - low && s[low..end][k] == t[i];
        assert s[low + k] == t[i];
      }
    }
  }

  lemma Parts(s: seq<int>, low: int, end: int)
    requires 0 <= low <= end <= |s|
    ensures multiset(s) == multiset(s[..low]) + multiset(s[low..end]) + multiset(s[end..])
  {
    assert s == s[..low] + s[low..end] + s[end..];
  }

  lemma InPart(a: seq<int>, b: seq<int>, before: multiset<int>, after: multiset<int>, x: int)
    requires before + multiset(a) + after == before + multiset(b) + after && x in b
    ensures exists k :: 0 <= k < |a| && a[k] == x
  {
    assert multiset(b)[x] > 0;
    assert (before + multiset(a) + after)[x] == (before + multiset(b) + after)[x];
    assert x in multiset(a);
  }

  /** The stretch has the same elements. */
  lemma SameElements(s: seq<int>, t: seq<int>, low: int, end: int)
    requires 0 <= low <= end <= |s| && Rearranged(s, t, low, end - 1)
    ensures forall x :: x in s[low..end] <==> x in t[low..end]
  {
    Parts(s, low, end);
    Parts(t, low, end);
    assert s[..low] == t[..low] && s[end..] == t[end..];
    forall x ensures x in s[low..end] <==> x in t[low..end] {
      if x in t[low..end] { InPart(s[low..end], t[low..end], multiset(s[..low]), multiset(s[end..]), x); }
      if x in s[low..end] { InPart(t[low..end], s[low..end], multiset(s[..low]), multiset(s[end..]), x); }
    }
  }

  lemma SameArranged(s: seq<int>, low: int, high: int)
    ensures Rearranged(s, s, low, high)
  {
  }

  method Swap(a: array<int>, i: int, j: int, ghost low: int, ghost high: int)
    requires 0 <= low <= i <= high < a.Length && low <= j <= high
    modifies a
    ensures Rearranged(old(a[..]), a[..], low, high) && a[i] == old(a[j]) && a[j] == old(a[i])
    ensures forall k :: 0 <= k < a.Length && k != i && k != j ==> a[k] == old(a[k])
  {
    a[i], a[j] := a[j], a[i];
    assert a[..] == old(a[..])[i := old(a[j])][j := old(a[i])];
  }

  /** The pivot goes to its final place, with the smaller elements before it and the others after it. */
  method Partition(a: array<int>, low: int, high: int) returns (pi: int)
    requires 0 <= low <= high < a.Length
    modifies a
    ensures low <= pi <= high && Rearranged(old(a[..]), a[..], low, high) && a[pi] == old(a[high])
    ensures forall k :: low <= k < pi ==> a[k] < a[pi]
    ensures forall k :: pi < k <= high ==> a[pi] <= a[k]
  {
    hide Rearranged;
    var pivot := a[high];
    SameArranged(a[..], low, high);
    var i := low - 1;
    var j := low;
    while j <= high - 1
      invariant low - 1 <= i < j <= high && a[high] == pivot
      invariant Rearranged(old(a[..]), a[..], low, high)
      invariant forall k :: low <= k <= i ==> a[k] < pivot
      invariant forall k :: i < k < j ==> pivot <= a[k]
    {
      if a[j] < pivot {
        i := i + 1;
        ghost var before := a[..];
        Swap(a, i, j, low, high);
        RearrangedTwice(old(a[..]), before, a[..], low, high, low, high);
      }
      j := j + 1;
    }
    ghost var before := a[..];
    Swap(a, i + 1, high, low, high);
    RearrangedTwice(old(a[..]), before, a[..], low, high, low, high);
    pi := i + 1;
  }

  /** quick_sort. */
  method Sort(a: array<int>, low: int, high: int)
    requires 0 <= low && high < a.Length && low <= high + 1
    modifies a
    ensures SortedBetween(a[..], low, high) && Rearranged(old(a[..]), a[..], low, high)
    decreases high - low + 1
  {
    if low < high {
      var pi := Partition(a, low, high);
      ghost var s1, p := a[..], a[pi];
      ghost var least, most := Bounds(s1);
      Sort(a, low, pi - 1);
      ghost var s2 := a[..];
      StillAll(s1, s2, low, pi - 1, least, p);
      Sort(a, pi + 1, high);
      StillAll(s2, a[..], pi + 1, high, p, most);
      RearrangedTwice(old(a[..]), s1, s2, low, high, low, pi - 1);
      RearrangedTwice(old(a[..]), s2, a[..], low, high, pi + 1, high);
      Joined(a[..], s2, low, pi, high);
    }
  }

  lemma Joined(t: seq<int>, s: seq<int>, low: int, pi: int, high: int)
    requires 0 <= low <= pi <= high < |t| && Rearranged(s, t, pi + 1, high)
    requires SortedBetween(s, low, pi - 1) && SortedBetween(t, pi + 1, high)
    requires forall k :: low <= k <= pi ==> s[k] <= s[pi]
    requires forall k :: pi < k <= high ==> s[pi] <= t[k]
    ensures SortedBetween(t, low, high)
  {
  }

  lemma {:induction false} Bounds(s: seq<int>) returns (least: int, most: int)
    ensures forall i :: 0 <= i < |s| ==> least <= s[i] <= most
  {
    least, most := 0, 0;
    if s != [] {
      least, most := Bounds(s[1..]);
      assert forall i :: 1 <= i < |s| ==> s[i] == s[1..][i - 1];
      if s[0] < least { least := s[0]; }
      if s[0] > most { most := s[0]; }
    }
  }
}
