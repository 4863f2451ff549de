/** First-in-first-out replacement.  The same scan over time stamps that serves LRU acts, when
    hits leave the stamps alone, as a circular pointer: the n-th fill of a set lands in slot
    n mod ways. */
module CacheFifo {
  import opened Bits
  import opened CacheModel

  function SlotOf(n: nat, ways: nat): (i: nat)
    requires ways > 0
    ensures i < ways
  {
    n % ways
  }

  /** The index of the oldest fill still resident after n fills. */
  function Start(n: nat, ways: nat): nat {
    if n < ways then 0 else n - ways
  }

  /** The last `ways` fills. */
  function Resident(fills: seq<nat>, ways: nat): seq<nat> {
    fills[Start(|fills|, ways)..]
  }

  /** The slots of `row` are the circular buffer of the fill history. */
  ghost predicate IsRing(row: seq<Slot>, fills: seq<nat>)
    requires row != []
  {
    var n, w := |fills|, |row|;
    && FirstInvalid(row) == (if n < w then n else w)
    && (forall m :: Start(n, w) <= m < n ==> row[SlotOf(m, w)].tag == fills[m])
    && (forall m, m' :: Start(n, w) <= m < m' < n ==>
          row[SlotOf(m, w)].lastUsed < row[SlotOf(m', w)].lastUsed)
  }

  lemma SlotOfSmall(n: nat, w: nat)
    requires n < w
    ensures SlotOf(n, w) == n
  {
  }

  lemma SlotOfShift(n: nat, w: nat)
    requires w > 0
    ensures SlotOf(n + w, w) == SlotOf(n, w)
  {
    assert n + w == w * (n / w + 1) + n % w;
    DivModUnique(n + w, w, n / w + 1, n % w);
  }

  /** Among any `w` consecutive numbers one falls on slot i. */
  lemma SomeSlot(lo: nat, w: nat, i: nat) returns (m: nat)
    requires i < w
    ensures lo <= m < lo + w && SlotOf(m, w) == i
  {
    var q := lo / w;
    assert lo == w * q + lo % w;
    m := w * q + i;
    DivModUnique(m, w, q, i);
    if m < lo {
      SlotOfShift(m, w);
      m := m + w;
    }
  }

  lemma SlotInUse(row: seq<Slot>, fills: seq<nat>, i: nat) returns (m: nat)
    requires row != [] && IsRing(row, fills) && i < FirstInvalid(row)
    ensures Start(|fills|, |row|) <= m < |fills| && SlotOf(m, |row|) == i
  {
    if |fills| < |row| {
      m := i;
      SlotOfSmall(i, |row|);
    } else {
      m := SomeSlot(|fills| - |row|, |row|, i);
    }
  }

  lemma ValidMeansUsed(row: seq<Slot>, i: nat)
    requires Prefixed(row) && i < |row|
    ensures row[i].valid <==> i < FirstInvalid(row)
  {
  }

  lemma HitIsResident(row: seq<Slot>, fills: seq<nat>, tag: nat)
    requires row != [] && Prefixed(row) && IsRing(row, fills)
    ensures FindTag(row, tag) < |row| <==> tag in Resident(fills, |row|)
  {
    if FindTag(row, tag) < |row| {
      FoundIsResident(row, fills, tag);
    }
    if tag in Resident(fills, |row|) {
      var p :| 0 <= p < |Resident(fills, |row|)| && Resident(fills, |row|)[p] == tag;
      ResidentIsFound(row, fills, tag, Start(|fills|, |row|) + p);
    }
  }

  lemma FoundIsResident(row: seq<Slot>, fills: seq<nat>, tag: nat)
    requires row != [] && Prefixed(row) && IsRing(row, fills) && FindTag(row, tag) < |row|
    ensures tag in Resident(fills, |row|)
  {
    ValidMeansUsed(row, FindTag(row, tag));
    var m := SlotInUse(row, fills, FindTag(row, tag));
    assert Resident(fills, |row|)[m - Start(|fills|, |row|)] == tag;
  }

  lemma ResidentIsFound(row: seq<Slot>, fills: seq<nat>, tag: nat, m: nat)
    requires row != [] && Prefixed(row) && IsRing(row, fills)
    requires Start(|fills|, |row|) <= m < |fills| && fills[m] == tag
    ensures FindTag(row, tag) < |row|
  {
    var j := SlotOf(m, |row|);
    if |fills| < |row| { SlotOfSmall(m, |row|); }
    ValidMeansUsed(row, j);
    assert Matches(row[j], tag);
  }

  /** The slot the scan replaces is the one after the last fill, around the ring. */
  lemma VictimIsNextSlot(row: seq<Slot>, fills: seq<nat>)
    requires row != [] && IsRing(row, fills)
    ensures Victim(row) == SlotOf(|fills|, |row|)
  {
    var n, w := |fills|, |row|;
    if n < w {
      SlotOfSmall(n, w);
    } else {
      var v := Oldest(row);
      var m := SlotInUse(row, fills, v);
      SlotOfShift(n - w, w);
      var first := SlotOf(n - w, w);
      assert row[v].lastUsed <= row[first].lastUsed;
    }
  }

  /** One access to the fill history of a set. */
  function Insert(fills: seq<nat>, ways: nat, tag: nat, allocates: bool): seq<nat> {
    if tag in Resident(fills, ways) || !allocates then fills else fills + [tag]
  }

  lemma FillRefines(row: seq<Slot>, fills: seq<nat>, row': seq<Slot>, now: nat)
    requires row != [] && Prefixed(row) && NoStampAfter(row, now) && IsRing(row, fills)
    requires |row'| == |row|
    requires var v := Victim(row); row' == row[v := row'[v]] && row'[v].valid && row'[v].lastUsed > now
    ensures IsRing(row', fills + [row'[Victim(row)].tag])
  {
    var n, w, v := |fills|, |row|, Victim(row);
    VictimIsNextSlot(row, fills);
    FirstInvalidIs(row', if n + 1 < w then n + 1 else w) by {
      if n < w { SlotOfSmall(n, w); }
      assert forall j | 0 <= j < w && j < n :: row[j].valid;
    }
    forall m | Start(n + 1, w) <= m < n
      ensures row'[SlotOf(m, w)] == row[SlotOf(m, w)] && row[SlotOf(m, w)].lastUsed <= now
    {
      OtherFills(row, fills, m, now);
    }
    var fills' := fills + [row'[v].tag];
    assert forall m | Start(n + 1, w) <= m < n :: fills'[m] == fills[m];
    if n + 1 > w { assert Start(n + 1, w) == n + 1 - w; }
  }

  /** A fill that stays resident is not in the slot being replaced, and is not newer than now. */
  lemma OtherFills(row: seq<Slot>, fills: seq<nat>, m: nat, now: nat)
    requires row != [] && Prefixed(row) && NoStampAfter(row, now) && IsRing(row, fills)
    requires Start(|fills| + 1, |row|) <= m < |fills|
    ensures SlotOf(m, |row|) != Victim(row) && row[SlotOf(m, |row|)].lastUsed <= now
  {
    var n, w := |fills|, |row|;
    VictimIsNextSlot(row, fills);
    ValidMeansUsed(row, SlotOf(m, w));
    if n < w {
      SlotOfSmall(m, w);
      SlotOfSmall(n, w);
    } else {
      SlotOfShift(n - w, w);
      assert row[SlotOf(n - w, w)].lastUsed < row[SlotOf(m, w)].lastUsed;
    }
  }

  lemma HitRefines(row: seq<Slot>, fills: seq<nat>, i: nat, row': seq<Slot>)
    requires row != [] && i < |row| && IsRing(row, fills) && row[i].valid
    requires |row'| == |row| && row' == row[i := row[i].(dirty := row'[i].dirty)]
    ensures IsRing(row', fills)
  {
    assert forall j | 0 <= j < |row| :: row'[j].valid == row[j].valid;
    var f := FirstInvalid(row');
    assert f < |row| ==> !row'[f].valid;
    assert FirstInvalid(row) < |row| ==> !row'[FirstInvalid(row)].valid;
  }

  /** Every access to a set acts on its fill history as `Insert`, and hits exactly on the last
      `ways` fills. */
  lemma RowRefines(cfg: Config, row: seq<Slot>, fills: seq<nat>, tag: nat, isStore: bool, now: nat)
    requires cfg.replacement.Fifo? && row != [] && now > 0
    requires RowOk(cfg, row, now - 1) && IsRing(row, fills)
    ensures var r := AccessRow(cfg, row, tag, isStore, now);
            && r.hit == (tag in Resident(fills, |row|))
            && IsRing(r.row, Insert(fills, |row|, tag, !(isStore && cfg.allocation.NoWriteAllocate?)))
  {
    var row' := AccessRow(cfg, row, tag, isStore, now).row;
    HitIsResident(row, fills, tag);
    if tag in Resident(fills, |row|) {
      HitRefines(row, fills, FindTag(row, tag), row');
    } else if !(isStore && cfg.allocation.NoWriteAllocate?) {
      FillRefines(row, fills, row', now - 1);
    }
  }

  function InsertAll(cfg: Config, h: seq<seq<nat>>, a: Access): (r: seq<seq<nat>>)
    requires Runnable(cfg) && |h| == cfg.numSets
    ensures |r| == cfg.numSets
  {
    if a.op.Other? then h
    else
      var s := Index(cfg, a.address);
      var allocates := !(a.op.Store? && cfg.allocation.NoWriteAllocate?);
      h[s := Insert(h[s], cfg.numBlocks, Tag(cfg, a.address), allocates)]
  }

  /** The fill history of every set after a trace. */
  function History(cfg: Config, trace: seq<Access>): (r: seq<seq<nat>>)
    requires Runnable(cfg)
    ensures |r| == cfg.numSets
  {
    if trace == [] then seq(cfg.numSets, s => [])
    else InsertAll(cfg, History(cfg, trace[..|trace| - 1]), trace[|trace| - 1])
  }

  /** After every trace each set is the circular buffer of its own fills. */
  lemma {:induction false} StampsRefineRing(cfg: Config, trace: seq<Access>)
    requires Runnable(cfg) && cfg.replacement.Fifo? && |trace| < TWO32
    ensures forall s :: 0 <= s < cfg.numSets ==> IsRing(Run(cfg, trace).sets[s], History(cfg, trace)[s])
  {
    if trace != [] {
      var before, a := trace[..|trace| - 1], trace[|trace| - 1];
      StampsRefineRing(cfg, before);
      RunKeepsRowOk(cfg, before);
      if !a.op.Other? {
        var st, s := Run(cfg, before), Index(cfg, a.address);
        RowRefines(cfg, st.sets[s], History(cfg, before)[s], Tag(cfg, a.address), a.op.Store?, Tick(st.now));
      }
    }
  }

  /** An access hits exactly when its tag is among the last `ways` fills of its set. */
  lemma HitsAreResident(cfg: Config, trace: seq<Access>, n: nat)
    requires Runnable(cfg) && cfg.replacement.Fifo? && n < |trace| && n < TWO32
    ensures HitAt(cfg, trace, n) <==>
            Tag(cfg, trace[n].address)
              in Resident(History(cfg, trace[..n])[Index(cfg, trace[n].address)], cfg.numBlocks)
  {
    StampsRefineRing(cfg, trace[..n]);
    RunKeepsRowOk(cfg, trace[..n]);
    var s := Index(cfg, trace[n].address);
    HitIsResident(Run(cfg, trace[..n]).sets[s], History(cfg, trace[..n])[s], Tag(cfg, trace[n].address));
  }
}
