/** The parallel quicksort as a tree of processes over one shared array.  A step of the system
    is a step of any one process: a swap, one iteration of the partition loop, a fork, a wait.
    Forks and waits may fail.  A process whose wait fails returns without reaping its children,
    which then go on running. */
module ParallelSort {
  import opened Wrappers
  import opened Bits
  import opened Partition

  datatype Status = Success | Failure | Killed

  datatype Phase =
    | ForkRight                  // the left child is running
    | WaitLeft                   // both children are running
    | WaitRight(leftOk: bool)    // the left child has been reaped
    | WaitLeftOnly               // the right fork failed
    | Returned(status: Status)

  datatype Proc =
    | Absent
    | Begin(lo: nat, hi: nat)
    | Partitioning(lo: nat, hi: nat, pivot: int, left: nat, right: nat)
    | Divided(lo: nat, hi: nat, mid: nat)
    | Node(lo: nat, hi: nat, mid: nat, phase: Phase, leftChild: Proc, rightChild: Proc)
    | Exit(lo: nat, hi: nat, status: Status)

  /** What the process has returned or exited with. */
  function Result(p: Proc): Option<Status> {
    match p
    case Exit(_, _, status) => Some(status)
    case Node(_, _, _, Returned(status), _, _) => Some(status)
    case _ => None
  }

  ghost predicate Sorted(s: seq<int>, lo: nat, hi: nat) {
    hi <= |s| && forall i, j :: lo <= i < j < hi ==> s[i] <= s[j]
  }

  // ----- steps -----

  /** A process's own next action; `t` is the parallel threshold, `f` whether a fork or a wait
      may fail. */
  ghost predicate OwnStep(t: nat, f: bool, s: seq<int>, p: Proc, s': seq<int>, p': Proc) {
    match p
    case Absent => false
    case Exit(_, _, _) => false
    case Begin(lo, hi) =>
      lo <= hi <= |s|
      && if hi - lo < 2 then
           s' == s && p' == Exit(lo, hi, Success)
         else if hi - lo <= t then
           Rearranged(s, s', lo, hi) && Sorted(s', lo, hi) && p' == Exit(lo, hi, Success)
         else
           var m := Middle(lo, hi);
           s' == Swapped(s, m, hi - 1) && p' == Partitioning(lo, hi, s[m], lo, hi - 2)
    case Partitioning(lo, hi, pivot, left, right) =>
      left < |s| && right < TWO64 && 0 < hi <= |s|
      && if left > right then
           s' == Swapped(s, left, hi - 1) && p' == Divided(lo, hi, left)
         else if s[left] < pivot then
           s' == s && p' == p.(left := left + 1)
         else if right >= |s| then
           s' == s && p' == Exit(lo, hi, Killed)
         else if s[right] >= pivot then
           s' == s && p' == p.(right := Dec(right))
         else
           s' == Swapped(s, left, right) && p' == p
    case Divided(lo, hi, mid) =>
      s' == s && ((f && p' == Exit(lo, hi, Failure))
                  || p' == Node(lo, hi, mid, ForkRight, Begin(lo, mid), Absent))
    case Node(lo, hi, mid, phase, left, right) =>
      s' == s
      && match phase
         case ForkRight =>
           (f && p' == p.(phase := WaitLeftOnly))
           || p' == p.(phase := WaitLeft, rightChild := Begin(mid + 1, hi))
         case WaitLeft =>
           (f && p' == p.(phase := Returned(Failure)))
           || (Result(left).Some? && p' == p.(phase := WaitRight(Result(left) == Some(Success))))
         case WaitRight(leftOk) =>
           (f && p' == p.(phase := Returned(Failure)))
           || (Result(right).Some?
               && p' == p.(phase := Returned(if leftOk && Result(right) == Some(Success) then Success else Failure)))
         case WaitLeftOnly =>
           (f || Result(left).Some?) && p' == p.(phase := Returned(Failure))
         case Returned(_) => false
  }

  /** One step of any process in the tree. */
  ghost predicate Step(t: nat, f: bool, s: seq<int>, p: Proc, s': seq<int>, p': Proc) {
    || OwnStep(t, f, s, p, s', p')
    || (p.Node? && p'.Node? && p' == p.(leftChild := p'.leftChild)
        && Step(t, f, s, p.leftChild, s', p'.leftChild))
    || (p.Node? && p'.Node? && p' == p.(rightChild := p'.rightChild)
        && Step(t, f, s, p.rightChild, s', p'.rightChild))
  }

  // ----- the invariant -----

  /** A process works on its own region; its children on the two sides of its pivot. */
  ghost predicate Ok(t: nat, s: seq<int>, p: Proc) {
    |s| < TWO64 - 1
    && match p
       case Absent => true
       case Begin(lo, hi) => lo <= hi <= |s|
       case Partitioning(lo, hi, pivot, left, right) =>
         hi - lo > t && Partitioned(s, lo, hi, pivot, left, right)
       case Divided(lo, hi, mid) => hi - lo > t && hi - lo >= 2 && IsPartition(s, lo, hi, mid)
       case Node(lo, hi, mid, phase, left, right) =>
         && hi - lo > t && hi - lo >= 2 && IsPartition(s, lo, hi, mid)
         && !left.Absent? && left.lo == lo && left.hi == mid
         && (!right.Absent? ==> right.lo == mid + 1 && right.hi == hi)
         && Ok(t, s, left) && Ok(t, s, right)
         && (phase.ForkRight? || phase.WaitLeftOnly? ==> right.Absent?)
         && (phase.WaitLeft? || phase.WaitRight? ==> !right.Absent?)
         && (phase == WaitRight(true) ==> Result(left) == Some(Success))
         && (phase == Returned(Success) ==> Result(left) == Some(Success) && Result(right) == Some(Success))
         && phase != Returned(Killed)
       case Exit(lo, hi, status) =>
         lo <= hi <= |s| && (status.Success? ==> Sorted(s, lo, hi)) && (status.Killed? ==> lo == 0)
  }

  /** The invariant of a process speaks of its region only. */
  lemma {:induction false} Frame(t: nat, s: seq<int>, s': seq<int>, p: Proc)
    requires Ok(t, s, p) && |s| == |s'|
    requires !p.Absent? ==> forall k :: p.lo <= k < p.hi ==> s[k] == s'[k]
    ensures Ok(t, s', p)
  {
    if p.Node? {
      Frame(t, s, s', p.leftChild);
      Frame(t, s, s', p.rightChild);
    }
  }

  /** Rearranging inside the left or the right part keeps a partition. */
  lemma PartitionSurvives(s: seq<int>, s': seq<int>, lo: nat, hi: nat, mid: nat, a: nat, b: nat)
    requires IsPartition(s, lo, hi, mid) && Rearranged(s, s', a, b)
    requires (a == lo && b == mid) || (a == mid + 1 && b == hi)
    ensures IsPartition(s', lo, hi, mid)
  {
    forall k | a <= k < b ensures s'[k] in s[a..b] {
      assert s'[a..b][k - a] in multiset(s'[a..b]);
    }
  }

  lemma Widen(s: seq<int>, s': seq<int>, a: nat, b: nat, lo: nat, hi: nat)
    requires Rearranged(s, s', a, b) && lo <= a <= b <= hi <= |s|
    ensures Rearranged(s, s', lo, hi)
  {
    assert s[lo..hi] == s[lo..a] + s[a..b] + s[b..hi];
    assert s'[lo..hi] == s'[lo..a] + s'[a..b] + s'[b..hi];
    assert s[lo..a] == s'[lo..a] && s[b..hi] == s'[b..hi];
  }

  lemma PartitionOfSorted(s: seq<int>, lo: nat, hi: nat, mid: nat)
    requires IsPartition(s, lo, hi, mid) && Sorted(s, lo, mid) && Sorted(s, mid + 1, hi)
    ensures Sorted(s, lo, hi)
  {
  }

  /** Success means the region is sorted now. */
  lemma {:induction false} SuccessIsSorted(t: nat, s: seq<int>, p: Proc)
    requires Ok(t, s, p) && Result(p) == Some(Success)
    ensures Sorted(s, p.lo, p.hi)
  {
    if p.Node? {
      SuccessIsSorted(t, s, p.leftChild);
      SuccessIsSorted(t, s, p.rightChild);
      PartitionOfSorted(s, p.lo, p.hi, p.mid);
    }
  }

  ghost predicate Confined(s: seq<int>, p: Proc, s': seq<int>, p': Proc) {
    && !p.Absent? && !p'.Absent? && p'.lo == p.lo && p'.hi == p.hi
    && Rearranged(s, s', p.lo, p.hi)
    && (Result(p).Some? ==> Result(p') == Result(p))
  }

  lemma OwnStepKeepsOk(t: nat, f: bool, s: seq<int>, p: Proc, s': seq<int>, p': Proc)
    requires Ok(t, s, p) && OwnStep(t, f, s, p, s', p')
    ensures Ok(t, s', p') && Confined(s, p, s', p')
  {
    match p {
      case Begin(_, _) => BeginStepKeepsOk(t, f, s, p, s', p');
      case Partitioning(_, _, _, _, _) => PartitionStepKeepsOk(t, f, s, p, s', p');
      case Divided(_, _, _) => DividedStepKeepsOk(t, f, s, p, s', p');
      case Node(_, _, _, _, _, _) => NodeStepKeepsOk(t, f, s, p, s', p');
    }
  }

  lemma BeginStepKeepsOk(t: nat, f: bool, s: seq<int>, p: Proc, s': seq<int>, p': Proc)
    requires p.Begin? && Ok(t, s, p) && OwnStep(t, f, s, p, s', p')
    ensures Ok(t, s', p') && Confined(s, p, s', p')
  {
    if p.hi - p.lo >= 2 && p.hi - p.lo > t {
      StashPivot(s, p.lo, p.hi, Middle(p.lo, p.hi));
    }
  }

  lemma DividedStepKeepsOk(t: nat, f: bool, s: seq<int>, p: Proc, s': seq<int>, p': Proc)
    requires p.Divided? && Ok(t, s, p) && OwnStep(t, f, s, p, s', p')
    ensures Ok(t, s', p') && Confined(s, p, s', p')
  {
  }

  lemma NodeStepKeepsOk(t: nat, f: bool, s: seq<int>, p: Proc, s': seq<int>, p': Proc)
    requires p.Node? && Ok(t, s, p) && OwnStep(t, f, s, p, s', p')
    ensures Ok(t, s', p') && Confined(s, p, s', p')
  {
    assert Ok(t, s', p'.rightChild);
  }

  lemma PartitionStepKeepsOk(t: nat, f: bool, s: seq<int>, p: Proc, s': seq<int>, p': Proc)
    requires p.Partitioning? && Ok(t, s, p) && OwnStep(t, f, s, p, s', p')
    ensures Ok(t, s', p') && Confined(s, p, s', p')
  {
    var Partitioning(lo, hi, pivot, left, right) := p;
    if left > right {
      PlacePivot(s, lo, hi, pivot, left, right);
    } else if s[left] < pivot {
      ExtendLeft(s, lo, hi, pivot, left, right);
    } else if right >= |s| {
      OnlyAtTheStart(s, lo, hi, pivot, left, right);
    } else if s[right] >= pivot {
      ExtendRight(s, lo, hi, pivot, left, right);
    } else {
      ExchangeBoth(s, lo, hi, pivot, left, right);
    }
  }

  lemma LeftChildMoved(t: nat, s: seq<int>, p: Proc, s': seq<int>, c: Proc)
    requires p.Node? && Ok(t, s, p) && Ok(t, s', c) && Confined(s, p.leftChild, s', c)
    ensures Ok(t, s', p.(leftChild := c)) && Confined(s, p, s', p.(leftChild := c))
  {
    PartitionSurvives(s, s', p.lo, p.hi, p.mid, p.lo, p.mid);
    Widen(s, s', p.lo, p.mid, p.lo, p.hi);
    Frame(t, s, s', p.rightChild);
  }

  lemma RightChildMoved(t: nat, s: seq<int>, p: Proc, s': seq<int>, c: Proc)
    requires p.Node? && Ok(t, s, p) && Ok(t, s', c) && Confined(s, p.rightChild, s', c)
    ensures Ok(t, s', p.(rightChild := c)) && Confined(s, p, s', p.(rightChild := c))
  {
    PartitionSurvives(s, s', p.lo, p.hi, p.mid, p.mid + 1, p.hi);
    Widen(s, s', p.mid + 1, p.hi, p.lo, p.hi);
    Frame(t, s, s', p.leftChild);
  }

  /** Whatever process moves, the invariant is kept and the array is rearranged inside the
      region of the tree. */
  lemma {:induction false} StepKeepsOk(t: nat, f: bool, s: seq<int>, p: Proc, s': seq<int>, p': Proc)
    requires Ok(t, s, p) && Step(t, f, s, p, s', p')
    ensures Ok(t, s', p') && Confined(s, p, s', p')
  {
    if OwnStep(t, f, s, p, s', p') {
      OwnStepKeepsOk(t, f, s, p, s', p');
    } else if p' == p.(leftChild := p'.leftChild) && Step(t, f, s, p.leftChild, s', p'.leftChild) {
      StepKeepsOk(t, f, s, p.leftChild, s', p'.leftChild);
      LeftChildMoved(t, s, p, s', p'.leftChild);
    } else {
      StepKeepsOk(t, f, s, p.rightChild, s', p'.rightChild);
      RightChildMoved(t, s, p, s', p'.rightChild);
    }
  }

  // ----- failures -----

  /** Some process of the tree has failed or was killed, or a fork failed. */
  predicate AnyFailure(p: Proc) {
    match p
    case Exit(_, _, status) => !status.Success?
    case Node(_, _, _, phase, left, right) =>
      phase.WaitLeftOnly? || (phase.Returned? && !phase.status.Success?) || AnyFailure(left) || AnyFailure(right)
    case _ => false
  }

  lemma {:induction false} FailureIsSticky(t: nat, f: bool, s: seq<int>, p: Proc, s': seq<int>, p': Proc)
    requires Ok(t, s, p) && Step(t, f, s, p, s', p') && AnyFailure(p)
    ensures AnyFailure(p')
  {
    if OwnStep(t, f, s, p, s', p') {
    } else if p' == p.(leftChild := p'.leftChild) && Step(t, f, s, p.leftChild, s', p'.leftChild) {
      if AnyFailure(p.leftChild) { FailureIsSticky(t, f, s, p.leftChild, s', p'.leftChild); }
    } else {
      if AnyFailure(p.rightChild) { FailureIsSticky(t, f, s, p.rightChild, s', p'.rightChild); }
    }
  }

  lemma {:induction false} SuccessMeansNoFailure(t: nat, s: seq<int>, p: Proc)
    requires Ok(t, s, p) && Result(p) == Some(Success)
    ensures !AnyFailure(p)
  {
    if p.Node? {
      SuccessMeansNoFailure(t, s, p.leftChild);
      SuccessMeansNoFailure(t, s, p.rightChild);
    }
  }

  // ----- progress and termination -----

  function Square(n: nat): nat {
    if n == 0 then 0 else Square(n - 1) + 2 * n - 1
  }

  lemma {:induction false} SquareIsProduct(n: nat)
    ensures Square(n) == n * n
  {
    if n != 0 {
      SquareIsProduct(n - 1);
      assert n * n == (n - 1) * (n - 1) + 2 * n - 1;
    }
  }

  lemma {:induction false} SquareSplits(a: nat, b: nat)
    ensures Square(a) + Square(b) <= Square(a + b)
  {
    if b != 0 {
      SquareSplits(a, b - 1);
    }
  }

  /** Steps a process that has yet to start on n elements can still take with its descendants,
      at most. */
  function Work(n: nat): nat {
    4 * Square(n) + 20 * n + 20
  }

  lemma WorkSplits(a: nat, b: nat)
    requires a + b >= 1
    ensures Work(a) + Work(b) + 2 * (a + b + 1) + 8 <= Work(a + b + 1)
  {
    SquareSplits(a, b);
  }

  /** An upper bound on the steps the tree can still take. */
  ghost function Remaining(s: seq<int>, p: Proc): nat {
    match p
    case Absent => 0
    case Exit(_, _, _) => 0
    case Begin(lo, hi) => if lo <= hi then Work(hi - lo) else 0
    case Partitioning(lo, hi, pivot, left, right) =>
      if lo + 2 <= hi then Work(hi - lo) - 2 * (hi - lo) - 1 + LoopMeasure(s, p) else 0
    case Divided(lo, hi, mid) => if lo <= mid < hi then 5 + Work(mid - lo) + Work(hi - mid - 1) else 0
    case Node(lo, hi, mid, phase, left, right) =>
      Remaining(s, left)
      + match phase
        case ForkRight => 4 + (if mid < hi then Work(hi - mid - 1) else 0)
        case WaitLeft => 3 + Remaining(s, right)
        case WaitRight(_) => 2 + Remaining(s, right)
        case WaitLeftOnly => 1 + Remaining(s, right)
        case Returned(_) => Remaining(s, right)
  }

  /** The lexicographic measure of the partition loop as one number. */
  function LoopMeasure(s: seq<int>, p: Proc): (m: nat)
    requires p.Partitioning? && p.lo + 2 <= p.hi
    ensures m <= 2 * (p.hi - p.lo)
  {
    var gap := if p.right >= |s| || p.right + 1 < p.left then 0 else p.right + 1 - p.left;
    var bounded := if gap < p.hi - p.lo then gap else p.hi - p.lo - 1;
    2 * bounded + (if p.left < |s| && s[p.left] < p.pivot then 0 else 1)
  }

  lemma {:induction false} RemainingFrame(t: nat, s: seq<int>, s': seq<int>, p: Proc)
    requires Ok(t, s, p) && |s| == |s'|
    requires !p.Absent? ==> forall k :: p.lo <= k < p.hi ==> s[k] == s'[k]
    ensures Remaining(s', p) == Remaining(s, p)
  {
    if p.Node? {
      RemainingFrame(t, s, s', p.leftChild);
      RemainingFrame(t, s, s', p.rightChild);
    }
  }

  lemma OwnStepWorks(t: nat, f: bool, s: seq<int>, p: Proc, s': seq<int>, p': Proc)
    requires Ok(t, s, p) && OwnStep(t, f, s, p, s', p')
    ensures Remaining(s', p') < Remaining(s, p)
  {
    match p {
      case Begin(_, _) => BeginWorks(t, f, s, p, s', p');
      case Partitioning(_, _, _, _, _) => LoopWorks(t, f, s, p, s', p');
      case Divided(_, _, _) => DividedWorks(t, f, s, p, s', p');
      case Node(_, _, _, _, _, _) => NodeWorks(t, f, s, p, s', p');
    }
  }

  lemma BeginWorks(t: nat, f: bool, s: seq<int>, p: Proc, s': seq<int>, p': Proc)
    requires p.Begin? && Ok(t, s, p) && OwnStep(t, f, s, p, s', p')
    ensures Remaining(s', p') < Remaining(s, p)
  {
    if p'.Partitioning? {
      assert LoopMeasure(s', p') <= 2 * (p.hi - p.lo - 2) + 3;
    }
  }

  lemma DividedWorks(t: nat, f: bool, s: seq<int>, p: Proc, s': seq<int>, p': Proc)
    requires p.Divided? && Ok(t, s, p) && OwnStep(t, f, s, p, s', p')
    ensures Remaining(s', p') < Remaining(s, p)
  {
    if p'.Node? {
      assert Remaining(s', p'.leftChild) == Work(p.mid - p.lo);
    }
  }

  lemma NodeWorks(t: nat, f: bool, s: seq<int>, p: Proc, s': seq<int>, p': Proc)
    requires p.Node? && Ok(t, s, p) && OwnStep(t, f, s, p, s', p')
    ensures Remaining(s', p') < Remaining(s, p)
  {
    if p.phase.ForkRight? {
      assert Remaining(s', p.rightChild) == 0;
    }
  }

  lemma LoopWorks(t: nat, f: bool, s: seq<int>, p: Proc, s': seq<int>, p': Proc)
    requires p.Partitioning? && Ok(t, s, p) && OwnStep(t, f, s, p, s', p')
    ensures Remaining(s', p') < Remaining(s, p)
  {
    if p.left > p.right {
      LastSwapWorks(t, f, s, p, s', p');
    } else if p'.Partitioning? {
      IterationWorks(t, f, s, p, s', p');
    }
  }

  lemma LastSwapWorks(t: nat, f: bool, s: seq<int>, p: Proc, s': seq<int>, p': Proc)
    requires p.Partitioning? && Ok(t, s, p) && OwnStep(t, f, s, p, s', p') && p.left > p.right
    ensures Remaining(s', p') < Remaining(s, p)
  {
    var a, b := p.left - p.lo, p.hi - p.left - 1;
    WorkSplits(a, b);
    assert Remaining(s', p') == 5 + Work(a) + Work(b);
    assert Remaining(s, p) >= Work(a + b + 1) - 2 * (a + b + 1) - 1;
  }

  lemma IterationWorks(t: nat, f: bool, s: seq<int>, p: Proc, s': seq<int>, p': Proc)
    requires p.Partitioning? && Ok(t, s, p) && OwnStep(t, f, s, p, s', p')
    requires p'.Partitioning?
    ensures p'.lo == p.lo && p'.hi == p.hi && p.lo + 2 <= p.hi && LoopMeasure(s', p') < LoopMeasure(s, p)
  {
    var Partitioning(lo, hi, pivot, left, right) := p;
    if s[left] < pivot {
      ExtendLeft(s, lo, hi, pivot, left, right);
    } else if s[right] >= pivot {
      ExtendRight(s, lo, hi, pivot, left, right);
    } else {
      ExchangeBoth(s, lo, hi, pivot, left, right);
    }
  }

  lemma {:induction false} StepWorks(t: nat, f: bool, s: seq<int>, p: Proc, s': seq<int>, p': Proc)
    requires Ok(t, s, p) && Step(t, f, s, p, s', p')
    ensures Remaining(s', p') < Remaining(s, p)
  {
    if OwnStep(t, f, s, p, s', p') {
      OwnStepWorks(t, f, s, p, s', p');
    } else if p' == p.(leftChild := p'.leftChild) && Step(t, f, s, p.leftChild, s', p'.leftChild) {
      StepWorks(t, f, s, p.leftChild, s', p'.leftChild);
      StepKeepsOk(t, f, s, p.leftChild, s', p'.leftChild);
      RemainingFrame(t, s, s', p.rightChild);
    } else {
      StepWorks(t, f, s, p.rightChild, s', p'.rightChild);
      StepKeepsOk(t, f, s, p.rightChild, s', p'.rightChild);
      RemainingFrame(t, s, s', p.leftChild);
    }
  }

  // ----- sorting sequentially -----

  function Inserted(x: int, s: seq<int>): (r: seq<int>)
    ensures multiset(r) == multiset{x} + multiset(s)
  {
    if s == [] || x <= s[0] then
      [x] + s
    else
      assert s == [s[0]] + s[1..];
      [s[0]] + Inserted(x, s[1..])
  }

  lemma {:induction false} InsertedIsSorted(x: int, s: seq<int>)
    requires Sorted(s, 0, |s|)
    ensures Sorted(Inserted(x, s), 0, |Inserted(x, s)|)
  {
    if s != [] && x > s[0] {
      var r := Inserted(x, s[1..]);
      assert Sorted(s[1..], 0, |s| - 1);
      InsertedIsSorted(x, s[1..]);
      forall k | 0 <= k < |r| ensures s[0] <= r[k] {
        assert r[k] in multiset{x} + multiset(s[1..]);
        assert r[k] == x || r[k] in s[1..];
      }
      ConsIsSorted(s[0], r);
    } else {
      ConsIsSorted(x, s);
    }
  }

  lemma ConsIsSorted(x: int, s: seq<int>)
    requires Sorted(s, 0, |s|) && forall k :: 0 <= k < |s| ==> x <= s[k]
    ensures Sorted([x] + s, 0, |s| + 1)
  {
    var whole := [x] + s;
    forall i, j | 0 <= i < j < |whole| ensures whole[i] <= whole[j] {
      assert whole[j] == s[j - 1];
      assert i > 0 ==> whole[i] == s[i - 1];
    }
  }

  lemma {:induction false} SortedCopy(s: seq<int>) returns (r: seq<int>)
    ensures multiset(r) == multiset(s) && Sorted(r, 0, |r|)
  {
    if s == [] {
      r := [];
    } else {
      var tail := SortedCopy(s[1..]);
      r := Inserted(s[0], tail);
      InsertedIsSorted(s[0], tail);
      assert s == [s[0]] + s[1..];
    }
  }

  lemma SortedRegion(s: seq<int>, lo: nat, hi: nat) returns (s': seq<int>)
    requires lo <= hi <= |s|
    ensures Rearranged(s, s', lo, hi) && Sorted(s', lo, hi)
  {
    var r := SortedCopy(s[lo..hi]);
    assert |r| == |multiset(r)| == |multiset(s[lo..hi])| == hi - lo;
    s' := s[..lo] + r + s[hi..];
    assert s'[lo..hi] == r;
    assert forall i | lo <= i < hi :: s'[i] == r[i - lo];
  }

  /** As long as a process has not returned, some process of its tree can move without any
      call failing. */
  lemma {:induction false} SomeoneCanMove(t: nat, s: seq<int>, p: Proc) returns (s': seq<int>, p': Proc)
    requires Ok(t, s, p) && !p.Absent? && Result(p).None?
    ensures Step(t, false, s, p, s', p')
  {
    match p {
      case Begin(lo, hi) =>
        s', p' := s, Exit(lo, hi, Success);
        if 2 <= hi - lo <= t {
          s' := SortedRegion(s, lo, hi);
        } else if hi - lo >= 2 {
          s', p' := Swapped(s, Middle(lo, hi), hi - 1), Partitioning(lo, hi, s[Middle(lo, hi)], lo, hi - 2);
        }
      case Partitioning(lo, hi, pivot, left, right) =>
        s' := if left > right then Swapped(s, left, hi - 1)
              else if s[left] < pivot || right >= |s| || s[right] >= pivot then s
              else Swapped(s, left, right);
        p' := if left > right then Divided(lo, hi, left)
              else if s[left] < pivot then p.(left := left + 1)
              else if right >= |s| then Exit(lo, hi, Killed)
              else if s[right] >= pivot then p.(right := Dec(right))
              else p;
      case Divided(lo, hi, mid) =>
        s', p' := s, Node(lo, hi, mid, ForkRight, Begin(lo, mid), Absent);
      case Node(lo, hi, mid, phase, left, right) =>
        s', p' := s, p;
        if phase.ForkRight? {
          p' := p.(phase := WaitLeft, rightChild := Begin(mid + 1, hi));
        } else if !phase.WaitRight? && Result(left).None? {
          var c;
          s', c := SomeoneCanMove(t, s, left);
          p' := p.(leftChild := c);
        } else if phase.WaitLeft? {
          p' := p.(phase := WaitRight(Result(left) == Some(Success)));
        } else if phase.WaitLeftOnly? {
          p' := p.(phase := Returned(Failure));
        } else if Result(right).None? {
          var c;
          s', c := SomeoneCanMove(t, s, right);
          p' := p.(rightChild := c);
        } else {
          p' := p.(phase := Returned(if phase.leftOk && Result(right) == Some(Success) then Success else Failure));
        }
    }
  }

  // ----- runs -----

  datatype Config = Config(mem: seq<int>, root: Proc)

  /** A run from a process about to sort [lo, hi): any interleaving of any processes' steps. */
  ghost predicate IsRun(t: nat, f: bool, run: seq<Config>, s: seq<int>, lo: nat, hi: nat) {
    && run != [] && run[0] == Config(s, Begin(lo, hi)) && lo <= hi <= |s| < TWO64 - 1
    && forall i :: 0 <= i < |run| - 1 ==> Step(t, f, run[i].mem, run[i].root, run[i + 1].mem, run[i + 1].root)
  }

  function Last(run: seq<Config>): Config
    requires run != []
  {
    run[|run| - 1]
  }

  lemma {:induction false} RunIsOk(t: nat, f: bool, run: seq<Config>, s: seq<int>, lo: nat, hi: nat)
    requires IsRun(t, f, run, s, lo, hi)
    ensures var c := Last(run);
            && Ok(t, c.mem, c.root) && !c.root.Absent? && c.root.lo == lo && c.root.hi == hi
            && Rearranged(s, c.mem, lo, hi)
            && |run| - 1 + Remaining(c.mem, c.root) <= Work(hi - lo)
  {
    if |run| > 1 {
      var a := Earlier(t, f, run, s, lo, hi);
      var b := Last(run);
      RunIsOk(t, f, run[..|run| - 1], s, lo, hi);
      StepKeepsOk(t, f, a.mem, a.root, b.mem, b.root);
      StepWorks(t, f, a.mem, a.root, b.mem, b.root);
      RearrangedTwice(s, a.mem, b.mem, lo, hi);
    }
  }

  /** A run without its last state is a run, and a step leads to that state. */
  lemma Earlier(t: nat, f: bool, run: seq<Config>, s: seq<int>, lo: nat, hi: nat) returns (a: Config)
    requires IsRun(t, f, run, s, lo, hi) && |run| > 1
    ensures IsRun(t, f, run[..|run| - 1], s, lo, hi) && a == run[|run| - 2] == Last(run[..|run| - 1])
    ensures Step(t, f, a.mem, a.root, Last(run).mem, Last(run).root)
  {
    a := run[|run| - 2];
    var n := |run| - 2;
    assert Step(t, f, run[n].mem, run[n].root, run[n + 1].mem, run[n + 1].root);
  }

  /** Safety, for every schedule and every pattern of failing calls: at any moment the array is
      the input rearranged inside [lo, hi), and if the root has returned success the region is
      sorted and nothing in the tree has failed.  Every run is shorter than `Work(hi - lo)`. */
  lemma QuicksortIsSafe(t: nat, f: bool, run: seq<Config>, s: seq<int>, lo: nat, hi: nat)
    requires IsRun(t, f, run, s, lo, hi)
    ensures Rearranged(s, Last(run).mem, lo, hi)
    ensures Result(Last(run).root) == Some(Success) ==>
              Sorted(Last(run).mem, lo, hi) && !AnyFailure(Last(run).root)
    ensures |run| - 1 <= Work(hi - lo)
  {
    RunIsOk(t, f, run, s, lo, hi);
    var c := Last(run);
    if Result(c.root) == Some(Success) {
      SuccessIsSorted(t, c.mem, c.root);
      SuccessMeansNoFailure(t, c.mem, c.root);
    }
  }

  lemma {:induction false} FailureStays(t: nat, f: bool, run: seq<Config>, s: seq<int>, lo: nat, hi: nat, i: nat)
    requires IsRun(t, f, run, s, lo, hi) && i < |run| && AnyFailure(run[i].root)
    ensures AnyFailure(Last(run).root)
  {
    if i < |run| - 1 {
      var a := Earlier(t, f, run, s, lo, hi);
      FailureStays(t, f, run[..|run| - 1], s, lo, hi, i);
      RunIsOk(t, f, run[..|run| - 1], s, lo, hi);
      FailureIsSticky(t, f, a.mem, a.root, Last(run).mem, Last(run).root);
    }
  }

  /** After a failure anywhere in the process tree the root never returns success: if it has
      returned it has returned failure, or was killed itself, which needs a region from index 0. */
  lemma FailureReachesTheRoot(t: nat, f: bool, run: seq<Config>, s: seq<int>, lo: nat, hi: nat, i: nat)
    requires IsRun(t, f, run, s, lo, hi) && i < |run| && AnyFailure(run[i].root)
    ensures var r := Result(Last(run).root);
            r == None || r == Some(Failure) || (r == Some(Killed) && lo == 0)
  {
    FailureStays(t, f, run, s, lo, hi, i);
    QuicksortIsSafe(t, f, run, s, lo, hi);
    RunIsOk(t, f, run, s, lo, hi);
    match Result(Last(run).root) {
      case None =>
      case Some(Failure) =>
      case Some(Killed) => OnlyExitsAreKilled(t, Last(run).mem, Last(run).root);
      case Some(Success) =>
    }
  }

  lemma OnlyExitsAreKilled(t: nat, s: seq<int>, p: Proc)
    requires Ok(t, s, p) && Result(p) == Some(Killed)
    ensures p.Exit? && p.lo == 0
  {
  }

  /** A step without failing calls is a step whether or not calls may fail. */
  lemma {:induction false} StepMayNotFail(t: nat, f: bool, s: seq<int>, p: Proc, s': seq<int>, p': Proc)
    requires Step(t, false, s, p, s', p')
    ensures Step(t, f, s, p, s', p')
  {
    if OwnStep(t, false, s, p, s', p') {
      OwnStepMayNotFail(t, f, s, p, s', p');
    } else {
      if p' == p.(leftChild := p'.leftChild) && Step(t, false, s, p.leftChild, s', p'.leftChild) {
        StepMayNotFail(t, f, s, p.leftChild, s', p'.leftChild);
      } else {
        StepMayNotFail(t, f, s, p.rightChild, s', p'.rightChild);
      }
    }
  }

  lemma OwnStepMayNotFail(t: nat, f: bool, s: seq<int>, p: Proc, s': seq<int>, p': Proc)
    requires OwnStep(t, false, s, p, s', p')
    ensures OwnStep(t, f, s, p, s', p')
  {
    match p {
      case Begin(_, _) =>
      case Partitioning(_, _, _, _, _) =>
      case Divided(_, _, _) =>
      case Node(_, _, _, _, _, _) =>
    }
  }

  /** A run that cannot go on has returned, whatever calls have failed; and if anything has failed,
      it has returned failure or was killed. */
  lemma EveryRunReturns(t: nat, f: bool, run: seq<Config>, s: seq<int>, lo: nat, hi: nat)
    requires IsRun(t, f, run, s, lo, hi)
    requires forall s', p' :: !Step(t, f, Last(run).mem, Last(run).root, s', p')
    ensures Result(Last(run).root).Some?
    ensures (exists i :: 0 <= i < |run| && AnyFailure(run[i].root)) ==>
              Result(Last(run).root) == Some(Failure) || (Result(Last(run).root) == Some(Killed) && lo == 0)
  {
    var c := Last(run);
    RunIsOk(t, f, run, s, lo, hi);
    if Result(c.root).None? {
      var s', p' := SomeoneCanMove(t, c.mem, c.root);
      StepMayNotFail(t, f, c.mem, c.root, s', p');
    }
    if i :| 0 <= i < |run| && AnyFailure(run[i].root) {
      FailureReachesTheRoot(t, f, run, s, lo, hi, i);
    }
  }

  // ----- when no call fails -----

  /** Some process read outside the array. */
  predicate AnyKilled(p: Proc) {
    match p
    case Exit(_, _, status) => status.Killed?
    case Node(_, _, _, _, left, right) => AnyKilled(left) || AnyKilled(right)
    case _ => false
  }

  lemma {:induction false} KilledStartsAtZero(t: nat, s: seq<int>, p: Proc)
    requires Ok(t, s, p) && AnyKilled(p)
    ensures p.lo == 0
  {
    if p.Node? {
      if AnyKilled(p.leftChild) { KilledStartsAtZero(t, s, p.leftChild); }
      if AnyKilled(p.rightChild) { KilledStartsAtZero(t, s, p.rightChild); }
    }
  }

  /** All failures come from a killed process. */
  predicate OnlyKills(p: Proc) {
    AnyFailure(p) ==> AnyKilled(p)
  }

  /** The results reaped so far are those of the children, and only a kill is a failure. */
  ghost predicate Faithful(p: Proc) {
    match p
    case Exit(_, _, status) => !status.Failure?
    case Node(_, _, _, phase, left, right) =>
      && Faithful(left) && Faithful(right)
      && !phase.WaitLeftOnly?
      && (phase.WaitRight? ==> Result(left).Some? && phase.leftOk == (Result(left) == Some(Success)))
      && (phase.Returned? ==> Result(left).Some? && Result(right).Some?)
      && (phase.Returned? ==>
            (phase.status.Success? <==> Result(left) == Some(Success) && Result(right) == Some(Success)))
    case _ => true
  }

  lemma {:induction false} StepKeepsFaithful(t: nat, s: seq<int>, p: Proc, s': seq<int>, p': Proc)
    requires Ok(t, s, p) && Faithful(p) && Step(t, false, s, p, s', p')
    ensures Faithful(p')
  {
    if OwnStep(t, false, s, p, s', p') {
    } else if p' == p.(leftChild := p'.leftChild) && Step(t, false, s, p.leftChild, s', p'.leftChild) {
      StepKeepsFaithful(t, s, p.leftChild, s', p'.leftChild);
      StepKeepsOk(t, false, s, p.leftChild, s', p'.leftChild);
    } else {
      StepKeepsFaithful(t, s, p.rightChild, s', p'.rightChild);
      StepKeepsOk(t, false, s, p.rightChild, s', p'.rightChild);
    }
  }

  lemma {:induction false} FaithfulMeansOnlyKills(p: Proc)
    requires Faithful(p)
    ensures OnlyKills(p)
    ensures Result(p).Some? && !AnyKilled(p) ==> Result(p) == Some(Success)
  {
    if p.Node? {
      FaithfulMeansOnlyKills(p.leftChild);
      FaithfulMeansOnlyKills(p.rightChild);
    }
  }

  lemma {:induction false} RunIsFaithful(t: nat, run: seq<Config>, s: seq<int>, lo: nat, hi: nat)
    requires IsRun(t, false, run, s, lo, hi)
    ensures Faithful(Last(run).root)
  {
    if |run| > 1 {
      var n := |run| - 2;
      RunIsFaithful(t, run[..n + 1], s, lo, hi);
      RunIsOk(t, false, run[..n + 1], s, lo, hi);
      StepKeepsFaithful(t, run[n].mem, run[n].root, run[n + 1].mem, run[n + 1].root);
    }
  }

  /** When no call fails, every run that cannot go on has returned, and it has sorted the
      region unless a process read outside the array, which happens only from a region that
      starts at index 0. */
  lemma QuicksortSucceeds(t: nat, run: seq<Config>, s: seq<int>, lo: nat, hi: nat)
    requires IsRun(t, false, run, s, lo, hi)
    requires forall s', p' :: !Step(t, false, Last(run).mem, Last(run).root, s', p')
    ensures Result(Last(run).root).Some?
    ensures AnyKilled(Last(run).root) ==> lo == 0
    ensures !AnyKilled(Last(run).root) ==>
              Result(Last(run).root) == Some(Success) && Sorted(Last(run).mem, lo, hi)
  {
    var c := Last(run);
    RunIsOk(t, false, run, s, lo, hi);
    RunIsFaithful(t, run, s, lo, hi);
    FaithfulMeansOnlyKills(c.root);
    if Result(c.root).None? {
      var s', p' := SomeoneCanMove(t, c.mem, c.root);
    }
    if AnyKilled(c.root) {
      KilledStartsAtZero(t, c.mem, c.root);
    } else {
      SuccessIsSorted(t, c.mem, c.root);
    }
  }

  /** The first process of a sort from index 0 whose middle element is a minimum. */
  ghost predicate Doomed(s: seq<int>, hi: nat, p: Proc) {
    0 < hi <= |s|
    && match p
       case Begin(lo, h) => lo == 0 && h == hi && NothingBelow(s, 0, hi, s[hi / 2])
       case Partitioning(lo, h, pivot, left, right) =>
         lo == left == 0 && h == hi && NothingBelow(s, 0, hi, pivot)
       case Exit(_, _, status) => status.Killed?
       case _ => false
  }

  lemma {:induction false} DoomedStaysDoomed(t: nat, f: bool, s: seq<int>, hi: nat, p: Proc, s': seq<int>, p': Proc)
    requires hi > t && hi >= 2 && Ok(t, s, p) && Doomed(s, hi, p) && Step(t, f, s, p, s', p')
    ensures Doomed(s', hi, p')
  {
    if p.Begin? {
      StashPivot(s, 0, hi, Middle(0, hi));
      SmallerSurvives(s, s', 0, hi, s[hi / 2]);
    } else {
      assert p.Partitioning? && OwnStep(t, f, s, p, s', p');
      if p.right < |s| {
        ExtendRight(s, 0, hi, p.pivot, 0, p.right);
      }
    }
  }

  /** The sort does fail without any call failing: started at index 0 above the threshold with a
      minimum in the middle (all elements equal, for one), it never returns success. */
  lemma {:induction false} MinimumInTheMiddleIsFatal(t: nat, f: bool, run: seq<Config>, s: seq<int>, hi: nat)
    requires IsRun(t, f, run, s, 0, hi) && hi > t && hi >= 2
    requires NothingBelow(s, 0, hi, s[hi / 2])
    ensures Doomed(Last(run).mem, hi, Last(run).root) && Result(Last(run).root) != Some(Success)
  {
    if |run| > 1 {
      var n := |run| - 2;
      MinimumInTheMiddleIsFatal(t, f, run[..n + 1], s, hi);
      RunIsOk(t, f, run[..n + 1], s, 0, hi);
      DoomedStaysDoomed(t, f, run[n].mem, hi, run[n].root, run[n + 1].mem, run[n + 1].root);
    }
  }

  // ----- counting forks -----

  /** Successful forks in the tree. */
  function Forks(p: Proc): nat {
    if p.Node? then (if p.rightChild.Absent? then 1 else 2) + Forks(p.leftChild) + Forks(p.rightChild) else 0
  }

  function ForkBound(n: nat, t: nat): nat {
    var m := if t > 1 then t else 1;
    if n <= m then 0 else 2 * (n - m)
  }

  lemma {:induction false} TreeForksAreBounded(t: nat, s: seq<int>, p: Proc)
    requires Ok(t, s, p) && !p.Absent?
    ensures Forks(p) <= ForkBound(p.hi - p.lo, t)
  {
    if p.Node? {
      TreeForksAreBounded(t, s, p.leftChild);
      if !p.rightChild.Absent? {
        TreeForksAreBounded(t, s, p.rightChild);
      }
    }
  }

  /** No schedule forks more than twice for every element above the threshold. */
  lemma ForksAreBounded(t: nat, f: bool, run: seq<Config>, s: seq<int>, lo: nat, hi: nat)
    requires IsRun(t, f, run, s, lo, hi)
    ensures Forks(Last(run).root) <= ForkBound(hi - lo, t)
  {
    RunIsOk(t, f, run, s, lo, hi);
    TreeForksAreBounded(t, Last(run).mem, Last(run).root);
  }
}
