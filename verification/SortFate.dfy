/** Exactly which inputs the parallel quicksort fails on when no system call fails.  Partitioning
    reads outside the array only from index 0, so only the processes along the left edge of the
    tree matter; what they do is determined by the input, whatever the other processes do. */
module SortFate {
  import opened Wrappers
  import opened Bits
  import opened Partition
  import opened ParallelSort

  datatype Ending = Outside | Parted(mem: seq<int>, mid: nat)

  /** Where the partition loop ends, from [0, hi) and two indices. */
  ghost function LoopEnd(s: seq<int>, hi: nat, pivot: int, left: nat, right: nat): (r: Ending)
    requires Partitioned(s, 0, hi, pivot, left, right)
    ensures r.Parted? ==> |r.mem| == |s| && r.mid < hi
    decreases if right == TWO64 - 1 then 0 else right + 2 - left, if s[left] < pivot then 0 else 1
  {
    if left > right then Parted(Swapped(s, left, hi - 1), left)
    else if s[left] < pivot then
      ExtendLeft(s, 0, hi, pivot, left, right);
      LoopEnd(s, hi, pivot, left + 1, right)
    else if right >= |s| then Outside
    else if s[right] >= pivot then
      ExtendRight(s, 0, hi, pivot, left, right);
      LoopEnd(s, hi, pivot, left, Dec(right))
    else
      ExchangeBoth(s, 0, hi, pivot, left, right);
      LoopEnd(Swapped(s, left, right), hi, pivot, left, right)
  }

  ghost function SplitFront(s: seq<int>, hi: nat): (r: Ending)
    requires 2 <= hi <= |s| < TWO64 - 1
    ensures r.Parted? ==> |r.mem| == |s| && r.mid < hi
  {
    var m := Middle(0, hi);
    StashPivot(s, 0, hi, m);
    LoopEnd(Swapped(s, m, hi - 1), hi, s[m], 0, hi - 2)
  }

  /** Partitioning the front of the array over and over, down to the threshold, never finds a
      middle element with nothing below it. */
  ghost predicate Survives(t: nat, s: seq<int>, hi: nat)
    requires hi <= |s| < TWO64 - 1
    decreases hi
  {
    hi < 2 || hi <= t || (SplitFront(s, hi).Parted? && Survives(t, SplitFront(s, hi).mem, SplitFront(s, hi).mid))
  }

  lemma {:induction false} LoopFails(s: seq<int>, hi: nat, pivot: int, left: nat, right: nat)
    requires Partitioned(s, 0, hi, pivot, left, right)
    ensures LoopEnd(s, hi, pivot, left, right).Outside? <==> NothingBelow(s, 0, hi, pivot)
    decreases if right == TWO64 - 1 then 0 else right + 2 - left, if s[left] < pivot then 0 else 1
  {
    if left > right {
      PlacePivot(s, 0, hi, pivot, left, right);
    } else if s[left] < pivot {
      ExtendLeft(s, 0, hi, pivot, left, right);
      LoopFails(s, hi, pivot, left + 1, right);
    } else if right >= |s| {
      OnlyAtTheStart(s, 0, hi, pivot, left, right);
    } else if s[right] >= pivot {
      ExtendRight(s, 0, hi, pivot, left, right);
      LoopFails(s, hi, pivot, left, Dec(right));
    } else {
      ExchangeBoth(s, 0, hi, pivot, left, right);
      LoopFails(Swapped(s, left, right), hi, pivot, left, right);
      SmallerSurvives(s, Swapped(s, left, right), 0, hi, pivot);
    }
  }

  /** A partition fails exactly when nothing is below the middle element. */
  lemma SplitFrontFails(s: seq<int>, hi: nat)
    requires 2 <= hi <= |s| < TWO64 - 1
    ensures SplitFront(s, hi).Outside? <==> NothingBelow(s, 0, hi, s[hi / 2])
  {
    var m := Middle(0, hi);
    StashPivot(s, 0, hi, m);
    LoopFails(Swapped(s, m, hi - 1), hi, s[m], 0, hi - 2);
    SmallerSurvives(s, Swapped(s, m, hi - 1), 0, hi, s[m]);
  }

  lemma {:induction false} LoopParts(s: seq<int>, hi: nat, pivot: int, left: nat, right: nat)
    requires Partitioned(s, 0, hi, pivot, left, right)
    ensures var r := LoopEnd(s, hi, pivot, left, right);
            r.Parted? ==> Rearranged(s, r.mem, 0, hi) && IsPartition(r.mem, 0, hi, r.mid) && r.mem[r.mid] == pivot
    decreases if right == TWO64 - 1 then 0 else right + 2 - left, if s[left] < pivot then 0 else 1
  {
    if left > right {
      PlacePivot(s, 0, hi, pivot, left, right);
    } else if s[left] < pivot {
      ExtendLeft(s, 0, hi, pivot, left, right);
      LoopParts(s, hi, pivot, left + 1, right);
    } else if right >= |s| {
    } else if s[right] >= pivot {
      ExtendRight(s, 0, hi, pivot, left, right);
      LoopParts(s, hi, pivot, left, Dec(right));
    } else {
      ExchangeBoth(s, 0, hi, pivot, left, right);
      LoopParts(Swapped(s, left, right), hi, pivot, left, right);
    }
  }

  /** Otherwise it partitions the front around its middle element. */
  lemma SplitFrontParts(s: seq<int>, hi: nat)
    requires 2 <= hi <= |s| < TWO64 - 1
    ensures var r := SplitFront(s, hi); r.Parted? ==> Completes(s, r.mem, 0, hi, r.mid)
  {
    var m := Middle(0, hi);
    StashPivot(s, 0, hi, m);
    LoopParts(Swapped(s, m, hi - 1), hi, s[m], 0, hi - 2);
  }

  // ----- only the region matters -----

  ghost predicate SameFront(s: seq<int>, s': seq<int>, hi: nat) {
    hi <= |s| == |s'| && forall k :: 0 <= k < hi ==> s[k] == s'[k]
  }

  lemma {:induction false} LoopFrame(s: seq<int>, s': seq<int>, hi: nat, pivot: int, left: nat, right: nat)
    requires Partitioned(s, 0, hi, pivot, left, right) && SameFront(s, s', hi)
    ensures Partitioned(s', 0, hi, pivot, left, right)
    ensures var r, r' := LoopEnd(s, hi, pivot, left, right), LoopEnd(s', hi, pivot, left, right);
            && (r.Parted? <==> r'.Parted?)
            && (r.Parted? ==> r'.mid == r.mid && SameFront(r.mem, r'.mem, hi))
    decreases if right == TWO64 - 1 then 0 else right + 2 - left, if s[left] < pivot then 0 else 1
  {
    assert Partitioned(s', 0, hi, pivot, left, right);
    if left > right {
    } else if s[left] < pivot {
      ExtendLeft(s, 0, hi, pivot, left, right);
      LoopFrame(s, s', hi, pivot, left + 1, right);
    } else if right >= |s| {
    } else if s[right] >= pivot {
      ExtendRight(s, 0, hi, pivot, left, right);
      LoopFrame(s, s', hi, pivot, left, Dec(right));
    } else {
      ExchangeBoth(s, 0, hi, pivot, left, right);
      LoopFrame(Swapped(s, left, right), Swapped(s', left, right), hi, pivot, left, right);
    }
  }

  lemma {:induction false} SurvivesFrame(t: nat, s: seq<int>, s': seq<int>, hi: nat)
    requires |s| < TWO64 - 1 && SameFront(s, s', hi)
    ensures Survives(t, s, hi) <==> Survives(t, s', hi)
    decreases hi
  {
    if hi >= 2 && hi > t {
      var m := Middle(0, hi);
      StashPivot(s, 0, hi, m);
      LoopFrame(Swapped(s, m, hi - 1), Swapped(s', m, hi - 1), hi, s[m], 0, hi - 2);
      if SplitFront(s, hi).Parted? {
        SurvivesFrame(t, SplitFront(s, hi).mem, SplitFront(s', hi).mem, SplitFront(s, hi).mid);
      }
    }
  }

  // ----- the fate of a process tree -----

  /** Whether the processes along the left edge will stay inside the array. */
  ghost predicate Fate(t: nat, s: seq<int>, p: Proc)
    requires Ok(t, s, p)
  {
    match p
    case Absent => true
    case Exit(_, _, status) => !status.Killed?
    case Begin(lo, hi) => lo > 0 || Survives(t, s, hi)
    case Partitioning(lo, hi, pivot, left, right) => lo > 0 || LoopSurvives(t, s, hi, pivot, left, right)
    case Divided(lo, hi, mid) => lo > 0 || Survives(t, s, mid)
    case Node(_, _, _, _, left, _) => Fate(t, s, left)
  }

  ghost predicate LoopSurvives(t: nat, s: seq<int>, hi: nat, pivot: int, left: nat, right: nat)
    requires Partitioned(s, 0, hi, pivot, left, right)
  {
    var r := LoopEnd(s, hi, pivot, left, right);
    r.Parted? && Survives(t, r.mem, r.mid)
  }

  lemma {:induction false} FateFrame(t: nat, s: seq<int>, s': seq<int>, p: Proc)
    requires Ok(t, s, p) && Ok(t, s', p) && |s| == |s'|
    requires !p.Absent? ==> forall k :: p.lo <= k < p.hi ==> s[k] == s'[k]
    ensures Fate(t, s', p) == Fate(t, s, p)
  {
    match p {
      case Begin(lo, hi) =>
        if lo == 0 { SurvivesFrame(t, s, s', hi); }
      case Partitioning(lo, hi, pivot, left, right) =>
        if lo == 0 {
          LoopFrame(s, s', hi, pivot, left, right);
          var r, r' := LoopEnd(s, hi, pivot, left, right), LoopEnd(s', hi, pivot, left, right);
          if r.Parted? { SurvivesFrame(t, r.mem, r'.mem, r.mid); }
        }
      case Divided(lo, hi, mid) =>
        if lo == 0 { SurvivesFrame(t, s, s', mid); }
      case Node(_, _, _, _, left, _) =>
        FateFrame(t, s, s', left);
      case _ =>
    }
  }

  lemma OwnStepKeepsFate(t: nat, s: seq<int>, p: Proc, s': seq<int>, p': Proc)
    requires Ok(t, s, p) && OwnStep(t, false, s, p, s', p') && Ok(t, s', p')
    ensures Fate(t, s', p') == Fate(t, s, p)
  {
    match p {
      case Begin(lo, hi) =>
      case Partitioning(_, _, _, _, _) => LoopKeepsFate(t, s, p, s', p');
      case Divided(_, _, _) =>
      case Node(_, _, _, _, _, _) =>
    }
  }

  lemma LoopKeepsFate(t: nat, s: seq<int>, p: Proc, s': seq<int>, p': Proc)
    requires p.Partitioning? && Ok(t, s, p) && OwnStep(t, false, s, p, s', p') && Ok(t, s', p')
    ensures Fate(t, s', p') == Fate(t, s, p)
  {
    var Partitioning(lo, hi, pivot, left, right) := p;
    if lo > 0 && left <= right && right >= |s| {
      OnlyAtTheStart(s, lo, hi, pivot, left, right);
    }
  }

  /** No step of any process changes the fate of the tree. */
  lemma {:induction false} StepKeepsFate(t: nat, s: seq<int>, p: Proc, s': seq<int>, p': Proc)
    requires Ok(t, s, p) && Step(t, false, s, p, s', p')
    ensures Ok(t, s', p') && Fate(t, s', p') == Fate(t, s, p)
  {
    StepKeepsOk(t, false, s, p, s', p');
    if OwnStep(t, false, s, p, s', p') {
      OwnStepKeepsFate(t, s, p, s', p');
    } else if p' == p.(leftChild := p'.leftChild) && Step(t, false, s, p.leftChild, s', p'.leftChild) {
      StepKeepsFate(t, s, p.leftChild, s', p'.leftChild);
    } else {
      StepKeepsOk(t, false, s, p.rightChild, s', p'.rightChild);
      FateFrame(t, s, s', p.leftChild);
    }
  }

  lemma {:induction false} FateIsResult(t: nat, s: seq<int>, p: Proc)
    requires Ok(t, s, p) && Faithful(p) && Result(p).Some?
    ensures Result(p) == Some(Success) <==> Fate(t, s, p)
  {
    if p.Node? {
      FateIsResult(t, s, p.leftChild);
      FaithfulMeansOnlyKills(p.rightChild);
      if AnyKilled(p.rightChild) {
        KilledStartsAtZero(t, s, p.rightChild);
      }
    }
  }

  lemma {:induction false} RunKeepsFate(t: nat, run: seq<Config>, s: seq<int>, lo: nat, hi: nat)
    requires IsRun(t, false, run, s, lo, hi)
    ensures Ok(t, Last(run).mem, Last(run).root)
    ensures Fate(t, Last(run).mem, Last(run).root) <==> lo > 0 || Survives(t, s, hi)
  {
    if |run| > 1 {
      var n := |run| - 2;
      RunKeepsFate(t, run[..n + 1], s, lo, hi);
      StepKeepsFate(t, run[n].mem, run[n].root, run[n + 1].mem, run[n + 1].root);
    }
  }

  /** When no call fails, a run that cannot go on has returned, and it has returned success, with
      the region sorted, exactly when the region does not start the array or its front
      survives; otherwise it returns failure or is killed. */
  lemma SortsExactlyWhen(t: nat, run: seq<Config>, s: seq<int>, lo: nat, hi: nat)
    requires IsRun(t, false, run, s, lo, hi)
    requires forall s', p' :: !Step(t, false, Last(run).mem, Last(run).root, s', p')
    ensures Result(Last(run).root).Some?
    ensures Result(Last(run).root) == Some(Success) <==> lo > 0 || Survives(t, s, hi)
    ensures lo > 0 || Survives(t, s, hi) ==> Sorted(Last(run).mem, lo, hi)
  {
    QuicksortSucceeds(t, run, s, lo, hi);
    RunIsFaithful(t, run, s, lo, hi);
    RunKeepsFate(t, run, s, lo, hi);
    FateIsResult(t, Last(run).mem, Last(run).root);
    QuicksortIsSafe(t, false, run, s, lo, hi);
  }

  /** One input it fails on: two equal elements, no call failing. */
  lemma TwoEqualElements() returns (run: seq<Config>)
    ensures IsRun(0, false, run, [7, 7], 0, 2) && Result(Last(run).root) == Some(Killed)
    ensures !Survives(0, [7, 7], 2)
  {
    var s := [7, 7];
    assert Swapped(s, 1, 1) == s;
    run := [Config(s, Begin(0, 2)), Config(s, Partitioning(0, 2, 7, 0, 0)),
            Config(s, Partitioning(0, 2, 7, 0, TWO64 - 1)), Config(s, Exit(0, 2, Killed))];
    forall i | 0 <= i < 3 ensures Step(0, false, run[i].mem, run[i].root, run[i + 1].mem, run[i + 1].root) {
      assert OwnStep(0, false, run[i].mem, run[i].root, run[i + 1].mem, run[i + 1].root);
    }
    SplitFrontFails(s, 2);
  }

  /** One it does not fail on: three elements already in order. */
  lemma ThreeInOrder(run: seq<Config>)
    requires IsRun(0, false, run, [1, 5, 9], 0, 3)
    requires forall s', p' :: !Step(0, false, Last(run).mem, Last(run).root, s', p')
    ensures Result(Last(run).root) == Some(Success) && Last(run).mem == [1, 5, 9]
  {
    var s, m := [1, 5, 9], Last(run).mem;
    StashPivot(s, 0, 3, 1);
    var t := Swapped(s, 1, 2);
    assert t == [1, 9, 5];
    ExtendLeft(t, 0, 3, 5, 0, 1);
    ExtendRight(t, 0, 3, 5, 1, 1);
    assert LoopEnd(t, 3, 5, 1, 0) == Parted(Swapped(t, 1, 2), 1);
    assert LoopEnd(t, 3, 5, 1, 1) == LoopEnd(t, 3, 5, 1, 0);
    assert Survives(0, s, 3);
    SortsExactlyWhen(0, run, s, 0, 3);
    QuicksortIsSafe(0, false, run, s, 0, 3);
    OnlyOneOrder(m);
  }

  lemma OnlyOneOrder(m: seq<int>)
    requires Rearranged([1, 5, 9], m, 0, 3) && Sorted(m, 0, 3)
    ensures m == [1, 5, 9]
  {
    assert m[0..3] == [m[0], m[1], m[2]];
    assert [1, 5, 9][0..3] == [1, 5, 9];
    var a, b := multiset{m[0], m[1], m[2]}, multiset{1, 5, 9};
    assert a == b;
    assert 1 in a && 5 in a && 9 in a;
  }
}
