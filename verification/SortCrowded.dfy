/** A condition to be read off the input: from index 0, an array whose smallest value occurs more
    often than the threshold is never sorted.  Every partition sends all its occurrences to the
    left, until some middle element is one of them. */
module SortCrowded {
  import opened Wrappers
  import opened Bits
  import opened Partition
  import opened ParallelSort

  /** The smallest value of [0, hi) is m, and there are more of it than the threshold, or than one. */
  ghost predicate Crowded(t: nat, s: seq<int>, hi: nat, m: int) {
    && hi <= |s| && NothingBelow(s, 0, hi, m)
    && multiset(s[0..hi])[m] > t && multiset(s[0..hi])[m] > 1
  }

  lemma CrowdedIsLong(t: nat, s: seq<int>, hi: nat, m: int)
    requires Crowded(t, s, hi, m)
    ensures hi > t && hi >= 2
  {
    assert |multiset(s[0..hi])| == |s[0..hi]| == hi;
    AtMostAll(s[0..hi], m);
  }

  lemma {:induction false} AtMostAll(s: seq<int>, m: int)
    ensures multiset(s)[m] <= |s|
  {
    if s != [] {
      assert s == s[..|s| - 1] + [s[|s| - 1]];
      AtMostAll(s[..|s| - 1], m);
    }
  }

  lemma CrowdedRearranged(t: nat, s: seq<int>, s': seq<int>, hi: nat, m: int)
    requires Crowded(t, s, hi, m) && Rearranged(s, s', 0, hi)
    ensures Crowded(t, s', hi, m)
  {
    SmallerSurvives(s, s', 0, hi, m);
  }

  /** Around a pivot above m, everything equal to m is on the left. */
  lemma CrowdedLeft(t: nat, s: seq<int>, hi: nat, mid: nat, m: int)
    requires Crowded(t, s, hi, m) && IsPartition(s, 0, hi, mid) && s[mid] > m
    ensures Crowded(t, s, mid, m)
  {
    assert s[0..hi] == s[0..mid] + s[mid..hi];
    assert m !in s[mid..hi];
  }

  /** The processes along the left edge have all the smallest values before them. */
  ghost predicate Stuck(t: nat, s: seq<int>, p: Proc, m: int) {
    match p
    case Absent => false
    case Begin(lo, hi) => lo == 0 && Crowded(t, s, hi, m)
    case Partitioning(lo, hi, _, _, _) => lo == 0 && Crowded(t, s, hi, m)
    case Divided(lo, hi, mid) => lo == 0 && Crowded(t, s, mid, m)
    case Node(_, _, _, _, left, _) => Stuck(t, s, left, m)
    case Exit(_, _, status) => !status.Success?
  }

  lemma {:induction false} StuckFrame(t: nat, s: seq<int>, s': seq<int>, p: Proc, m: int)
    requires Ok(t, s, p) && Stuck(t, s, p, m) && |s| == |s'|
    requires forall k :: p.lo <= k < p.hi ==> s[k] == s'[k]
    ensures Stuck(t, s', p, m)
  {
    match p {
      case Begin(lo, hi) => SameCrowd(t, s, s', hi, m);
      case Partitioning(lo, hi, _, _, _) => SameCrowd(t, s, s', hi, m);
      case Divided(lo, hi, mid) => SameCrowd(t, s, s', mid, m);
      case Node(_, _, _, _, left, _) => StuckFrame(t, s, s', left, m);
      case Exit(_, _, _) =>
    }
  }

  lemma SameCrowd(t: nat, s: seq<int>, s': seq<int>, hi: nat, m: int)
    requires Crowded(t, s, hi, m) && |s| == |s'| && forall k :: 0 <= k < hi ==> s[k] == s'[k]
    ensures Crowded(t, s', hi, m)
  {
    assert s[0..hi] == s'[0..hi];
  }

  lemma OwnStepKeepsStuck(t: nat, f: bool, s: seq<int>, p: Proc, s': seq<int>, p': Proc, m: int)
    requires Ok(t, s, p) && Stuck(t, s, p, m) && OwnStep(t, f, s, p, s', p')
    ensures Stuck(t, s', p', m)
  {
    match p {
      case Begin(_, _) => BeginKeepsStuck(t, f, s, p, s', p', m);
      case Partitioning(_, _, _, _, _) => LoopKeepsStuck(t, f, s, p, s', p', m);
      case Divided(_, _, _) =>
      case Node(_, _, _, _, _, _) =>
    }
  }

  lemma BeginKeepsStuck(t: nat, f: bool, s: seq<int>, p: Proc, s': seq<int>, p': Proc, m: int)
    requires p.Begin? && Ok(t, s, p) && Stuck(t, s, p, m) && OwnStep(t, f, s, p, s', p')
    ensures Stuck(t, s', p', m)
  {
    CrowdedIsLong(t, s, p.hi, m);
    StashPivot(s, p.lo, p.hi, Middle(p.lo, p.hi));
    CrowdedRearranged(t, s, s', p.hi, m);
  }

  lemma LoopKeepsStuck(t: nat, f: bool, s: seq<int>, p: Proc, s': seq<int>, p': Proc, m: int)
    requires p.Partitioning? && Ok(t, s, p) && Stuck(t, s, p, m) && OwnStep(t, f, s, p, s', p')
    ensures Stuck(t, s', p', m)
  {
    var Partitioning(lo, hi, pivot, left, right) := p;
    if left > right {
      PlacePivot(s, lo, hi, pivot, left, right);
      CrowdedRearranged(t, s, s', hi, m);
      assert s[0] >= m;
      CrowdedLeft(t, s', hi, left, m);
    } else if s[left] >= pivot && right < |s| && s[right] < pivot {
      ExchangeBoth(s, lo, hi, pivot, left, right);
      CrowdedRearranged(t, s, s', hi, m);
    }
  }

  lemma {:induction false} StepKeepsStuck(t: nat, f: bool, s: seq<int>, p: Proc, s': seq<int>, p': Proc, m: int)
    requires Ok(t, s, p) && Stuck(t, s, p, m) && Step(t, f, s, p, s', p')
    ensures Stuck(t, s', p', m)
  {
    if OwnStep(t, f, s, p, s', p') {
      OwnStepKeepsStuck(t, f, s, p, s', p', m);
    } else if p' == p.(leftChild := p'.leftChild) && Step(t, f, s, p.leftChild, s', p'.leftChild) {
      StepKeepsStuck(t, f, s, p.leftChild, s', p'.leftChild, m);
    } else {
      StepKeepsOk(t, f, s, p.rightChild, s', p'.rightChild);
      StuckFrame(t, s, s', p.leftChild, m);
    }
  }

  lemma {:induction false} StuckNeverSucceeds(t: nat, s: seq<int>, p: Proc, m: int)
    requires Ok(t, s, p) && Stuck(t, s, p, m)
    ensures Result(p) != Some(Success)
  {
    if p.Node? {
      StuckNeverSucceeds(t, s, p.leftChild, m);
    }
  }

  /** Sorting from index 0, if the smallest value occurs more than max(threshold, 1) times, then no
      run, whatever the schedule and whichever calls fail, ever returns success. */
  lemma {:induction false} CrowdedIsNeverSorted(t: nat, f: bool, run: seq<Config>, s: seq<int>, hi: nat, m: int)
    requires IsRun(t, f, run, s, 0, hi) && Crowded(t, s, hi, m)
    ensures Stuck(t, Last(run).mem, Last(run).root, m) && Result(Last(run).root) != Some(Success)
  {
    RunIsOk(t, f, run, s, 0, hi);
    if |run| > 1 {
      var n := |run| - 2;
      CrowdedIsNeverSorted(t, f, run[..n + 1], s, hi, m);
      RunIsOk(t, f, run[..n + 1], s, 0, hi);
      StepKeepsStuck(t, f, run[n].mem, run[n].root, run[n + 1].mem, run[n + 1].root, m);
    }
    StuckNeverSucceeds(t, Last(run).mem, Last(run).root, m);
  }
}
