/** The in-place partition step of the parallel quicksort. */
module Partition {
  import opened Bits

  // ----- swapping -----

  function Swapped(s: seq<int>, i: nat, j: nat): (r: seq<int>)
    requires i < |s| && j < |s|
    ensures |r| == |s|
  {
    s[i := s[j]][j := s[i]]
  }

  lemma SwappedRegion(s: seq<int>, i: nat, j: nat, lo: nat, hi: nat)
    requires lo <= i < hi <= |s| && lo <= j < hi
    ensures multiset(Swapped(s, i, j)[lo..hi]) == multiset(s[lo..hi])
    ensures forall k :: 0 <= k < |s| && !(lo <= k < hi) ==> Swapped(s, i, j)[k] == s[k]
  {
    var region := s[lo..hi];
    assert Swapped(s, i, j)[lo..hi] == region[i - lo := s[j]][j - lo := s[i]];
  }

  method Swap(a: array<int>, i: nat, j: nat)
    requires i < a.Length && j < a.Length
    modifies a
    ensures a[..] == Swapped(old(a[..]), i, j)
  {
    var tmp := a[i];
    a[i] := a[j];
    a[j] := tmp;
  }

  // ----- partition -----

  ghost predicate SameOutside(s: seq<int>, t: seq<int>, lo: nat, hi: nat) {
    |s| == |t| && forall k :: 0 <= k < |s| && !(lo <= k < hi) ==> s[k] == t[k]
  }

  /** `t` is `s` with the elements of [lo, hi) rearranged. */
  ghost predicate Rearranged(s: seq<int>, t: seq<int>, lo: nat, hi: nat) {
    SameOutside(s, t, lo, hi) && lo <= hi <= |s| && multiset(s[lo..hi]) == multiset(t[lo..hi])
  }

  /** Smaller elements left of `mid`, greater or equal ones right of it. */
  ghost predicate IsPartition(s: seq<int>, lo: nat, hi: nat, mid: nat) {
    && lo <= mid < hi <= |s|
    && (forall k :: lo <= k < mid ==> s[k] < s[mid])
    && (forall k :: mid < k < hi ==> s[k] >= s[mid])
  }

  /** Unsigned 64-bit decrement. */
  function Dec(x: nat): nat
    requires x < TWO64
  {
    (x + TWO64 - 1) % TWO64
  }

  /** Unsigned 64-bit increment. */
  function Inc(x: nat): nat
    requires x < TWO64
  {
    (x + 1) % TWO64
  }

  /** The loop invariant: the pivot is stashed at the end, both partitions are final, and the
      right index is one below the right partition, in 64-bit arithmetic. */
  ghost predicate Partitioned(s: seq<int>, lo: nat, hi: nat, pivot: int, left: nat, right: nat) {
    && lo + 2 <= hi <= |s| < TWO64 - 1
    && right < TWO64
    && lo <= left <= Inc(right) < hi
    && s[hi - 1] == pivot
    && (forall k :: lo <= k < left ==> s[k] < pivot)
    && (forall k :: Inc(right) <= k < hi - 1 ==> s[k] >= pivot)
  }

  ghost predicate NothingBelow(s: seq<int>, lo: nat, hi: nat, x: int)
    requires hi <= |s|
  {
    forall k :: lo <= k < hi ==> s[k] >= x
  }

  lemma ExtendLeft(s: seq<int>, lo: nat, hi: nat, pivot: int, left: nat, right: nat)
    requires Partitioned(s, lo, hi, pivot, left, right) && left <= right && s[left] < pivot
    ensures Partitioned(s, lo, hi, pivot, left + 1, right) && right < hi - 1
  {
  }

  lemma ExtendRight(s: seq<int>, lo: nat, hi: nat, pivot: int, left: nat, right: nat)
    requires Partitioned(s, lo, hi, pivot, left, right) && left <= right < |s|
    requires s[left] >= pivot && s[right] >= pivot
    ensures Partitioned(s, lo, hi, pivot, left, Dec(right)) && right < hi - 1
    ensures right > 0 ==> Dec(right) == right - 1
  {
    assert Inc(right) == right + 1;
    assert Inc(Dec(right)) == right;
  }

  lemma ExchangeBoth(s: seq<int>, lo: nat, hi: nat, pivot: int, left: nat, right: nat)
    requires Partitioned(s, lo, hi, pivot, left, right) && left <= right < |s|
    requires s[left] >= pivot && s[right] < pivot
    ensures right < hi - 1
    ensures Partitioned(Swapped(s, left, right), lo, hi, pivot, left, right)
    ensures Swapped(s, left, right)[left] < pivot
    ensures Rearranged(s, Swapped(s, left, right), lo, hi)
  {
    assert Inc(right) == right + 1;
    SwappedRegion(s, left, right, lo, hi);
  }

  /** When the indices have crossed, putting the pivot at the left index completes the partition. */
  lemma PlacePivot(s: seq<int>, lo: nat, hi: nat, pivot: int, left: nat, right: nat)
    requires Partitioned(s, lo, hi, pivot, left, right) && left > right
    ensures IsPartition(Swapped(s, left, hi - 1), lo, hi, left)
    ensures Swapped(s, left, hi - 1)[left] == pivot
    ensures Rearranged(s, Swapped(s, left, hi - 1), lo, hi)
    ensures lo > 0 || s[0] < pivot
  {
    assert Inc(right) == right + 1;
    SwappedRegion(s, left, hi - 1, lo, hi);
  }

  /** The right index leaves the array only from a region at the start of the array with
      nothing below the pivot. */
  lemma OnlyAtTheStart(s: seq<int>, lo: nat, hi: nat, pivot: int, left: nat, right: nat)
    requires Partitioned(s, lo, hi, pivot, left, right) && right >= |s|
    ensures lo == left == 0 && right == TWO64 - 1 && NothingBelow(s, 0, hi, pivot)
  {
  }

  lemma StashPivot(s: seq<int>, lo: nat, hi: nat, p: nat)
    requires lo + 2 <= hi <= |s| < TWO64 - 1 && lo <= p < hi
    ensures Rearranged(s, Swapped(s, p, hi - 1), lo, hi)
    ensures Partitioned(Swapped(s, p, hi - 1), lo, hi, s[p], lo, hi - 2)
  {
    SwappedRegion(s, p, hi - 1, lo, hi);
    AllOpen(Swapped(s, p, hi - 1), lo, hi);
  }

  /** Before the first step nothing is known but the pivot. */
  lemma AllOpen(s: seq<int>, lo: nat, hi: nat)
    requires lo + 2 <= hi <= |s| < TWO64 - 1
    ensures Partitioned(s, lo, hi, s[hi - 1], lo, hi - 2)
  {
    assert Inc(hi - 2) == hi - 1;
  }

  lemma RearrangedTwice(s: seq<int>, t: seq<int>, u: seq<int>, lo: nat, hi: nat)
    requires Rearranged(s, t, lo, hi) && Rearranged(t, u, lo, hi)
    ensures Rearranged(s, u, lo, hi)
  {
  }

  /** In [lo, hi) as many elements come before index m as after it, or one more. */
  predicate IsMiddle(lo: nat, hi: nat, m: nat) {
    lo <= m < hi && 0 <= (m - lo) - (hi - 1 - m) <= 1
  }

  /** The index of the pivot. */
  function Middle(start: nat, end: nat): (m: nat)
    requires start < end
    ensures IsMiddle(start, end, m)
  {
    start + (end - start) / 2
  }

  datatype Split = Pivot(index: nat) | OutOfBounds

  /** Partition [start, end) around its middle element.  The right index is unsigned: when the
      region starts the array and holds nothing below the pivot, it is decremented past zero
      and the next read is outside the array. */
  method PartitionRegion(a: array<int>, start: nat, end: nat) returns (r: Split)
    requires start + 2 <= end <= a.Length < TWO64 - 1
    modifies a
    ensures r.Pivot? ==> Completes(old(a[..]), a[..], start, end, r.index)
    ensures r.OutOfBounds? ==> Rearranged(old(a[..]), a[..], start, end)
    ensures r.OutOfBounds? <==> start == 0 && NothingBelow(old(a[..]), 0, end, old(a[end / 2]))
  {
    ghost var s0 := a[..];
    var left, right := Arrange(a, start, end);
    if left <= right {
      return OutOfBounds;
    }
    PlaceLast(a, s0, start, end, left);
    return Pivot(left);
  }

  method PlaceLast(a: array<int>, ghost s0: seq<int>, start: nat, end: nat, left: nat)
    requires left < end <= a.Length == |s0| && start < end
    requires Completes(s0, Swapped(a[..], left, end - 1), start, end, left)
    modifies a
    ensures Completes(s0, a[..], start, end, left)
  {
    ghost var t := Swapped(a[..], left, end - 1);
    Swap(a, left, end - 1);
    assert a[..] == t;
  }

  /** Everything up to the last exchange, which puts the pivot between the two partitions. */
  method Arrange(a: array<int>, start: nat, end: nat) returns (left: nat, right: nat)
    requires start + 2 <= end <= a.Length < TWO64 - 1
    modifies a
    ensures left <= right <==> start == 0 && NothingBelow(old(a[..]), 0, end, old(a[end / 2]))
    ensures left <= right ==> Rearranged(old(a[..]), a[..], start, end)
    ensures left > right ==> left < end
                             && Completes(old(a[..]), Swapped(a[..], left, end - 1), start, end, left)
  {
    ghost var s0 := a[..];
    var pivotIndex := Middle(start, end);
    var pivot := a[pivotIndex];
    Swap(a, pivotIndex, end - 1);
    ghost var s1 := Swapped(s0, pivotIndex, end - 1);
    StashPivot(s0, start, end, pivotIndex);
    assert a[..] == s1;
    left, right := Converge(a, start, end, pivot);
    Converged(s0, s1, a[..], start, end, pivot, left, right);
  }

  lemma Converged(s0: seq<int>, s1: seq<int>, s: seq<int>, lo: nat, hi: nat, pivot: int, left: nat, right: nat)
    requires Rearranged(s0, s1, lo, hi) && Rearranged(s1, s, lo, hi)
    requires Partitioned(s, lo, hi, pivot, left, right) && pivot == s0[Middle(lo, hi)]
    requires left <= right ==> right >= |s|
    ensures left <= right <==> lo == 0 && NothingBelow(s0, 0, hi, s0[hi / 2])
    ensures left <= right ==> Rearranged(s0, s, lo, hi)
    ensures left > right ==> left < hi && Completes(s0, Swapped(s, left, hi - 1), lo, hi, left)
  {
    RearrangedTwice(s0, s1, s, lo, hi);
    if left <= right {
      RanOut(s0, s, lo, hi, pivot, left, right);
    } else {
      Crossed(s0, s, lo, hi, pivot, left, right);
    }
  }

  /** `t` is `s` with [lo, hi) partitioned at `mid` around the middle element of `s`. */
  ghost predicate Completes(s: seq<int>, t: seq<int>, lo: nat, hi: nat, mid: nat)
    requires lo < hi <= |s|
  {
    && Rearranged(s, t, lo, hi) && IsPartition(t, lo, hi, mid)
    && forall m: nat :: IsMiddle(lo, hi, m) ==> t[mid] == s[m]
  }

  lemma RanOut(s0: seq<int>, s: seq<int>, lo: nat, hi: nat, pivot: int, left: nat, right: nat)
    requires Rearranged(s0, s, lo, hi) && Partitioned(s, lo, hi, pivot, left, right)
    requires left <= right && right >= |s|
    ensures lo == 0 && NothingBelow(s0, 0, hi, pivot)
  {
    OnlyAtTheStart(s, lo, hi, pivot, left, right);
    SmallerSurvives(s0, s, lo, hi, pivot);
  }

  lemma Crossed(s0: seq<int>, s: seq<int>, lo: nat, hi: nat, pivot: int, left: nat, right: nat)
    requires Rearranged(s0, s, lo, hi) && Partitioned(s, lo, hi, pivot, left, right) && left > right
    requires pivot == s0[Middle(lo, hi)]
    ensures Completes(s0, Swapped(s, left, hi - 1), lo, hi, left)
    ensures lo == 0 ==> !NothingBelow(s0, 0, hi, pivot)
  {
    PlacePivot(s, lo, hi, pivot, left, right);
    RearrangedTwice(s0, s, Swapped(s, left, hi - 1), lo, hi);
    SmallerSurvives(s0, s, lo, hi, pivot);
  }

  /** The partition loop.  It ends when the indices have crossed, or on a read outside the
      array.  An exchange moves neither index, but the element it brings to the left is below
      the pivot, so the next step moves. */
  method Converge(a: array<int>, start: nat, end: nat, pivot: int) returns (left: nat, right: nat)
    requires start + 2 <= end <= a.Length && Partitioned(a[..], start, end, pivot, start, end - 2)
    modifies a
    ensures Partitioned(a[..], start, end, pivot, left, right)
    ensures Rearranged(old(a[..]), a[..], start, end)
    ensures left <= right ==> right >= a.Length
  {
    ghost var s0 := a[..];
    left, right := start, end - 2;
    while left <= right
      invariant Partitioned(a[..], start, end, pivot, left, right)
      invariant Rearranged(s0, a[..], start, end)
      decreases if right == TWO64 - 1 then 0 else right + 2 - left,
                if left < a.Length && a[left] < pivot then 0 else 1
    {
      ghost var s := a[..];
      if a[left] < pivot {
        ExtendLeft(s, start, end, pivot, left, right);
        left := left + 1;
      } else if right >= a.Length {
        return;
      } else if a[right] >= pivot {
        ExtendRight(s, start, end, pivot, left, right);
        right := Dec(right);
      } else {
        ExchangeBoth(s, start, end, pivot, left, right);
        Swap(a, left, right);
        assert a[left] == a[..][left];
        RearrangedTwice(s0, s, a[..], start, end);
      }
    }
  }

  /** Rearranging a region keeps whether some element of it is below a value. */
  lemma SmallerSurvives(s: seq<int>, t: seq<int>, lo: nat, hi: nat, x: int)
    requires Rearranged(s, t, lo, hi)
    ensures NothingBelow(s, lo, hi, x) <==> NothingBelow(t, lo, hi, x)
  {
    if NothingBelow(s, lo, hi, x) { AllAtLeast(s, t, lo, hi, x); }
    if NothingBelow(t, lo, hi, x) { AllAtLeast(t, s, lo, hi, x); }
  }

  lemma AllAtLeast(s: seq<int>, t: seq<int>, lo: nat, hi: nat, x: int)
    requires Rearranged(s, t, lo, hi) && NothingBelow(s, lo, hi, x)
    ensures NothingBelow(t, lo, hi, x)
  {
    forall k | lo <= k < hi ensures t[k] >= x {
      assert t[lo..hi][k - lo] in multiset(t[lo..hi]);
      assert t[k] in s[lo..hi];
    }
  }
}
