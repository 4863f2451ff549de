/** Conservation laws of the printed statistics: hits and misses add up, dirty blocks are
    neither lost nor invented, and the cycle count is a closed form of the other counters. */
module CacheCycles {
  import opened Bits
  import opened CacheModel
  import opened CacheSimulator
  import CacheLru

  // ----- counting dirty slots -----

  function DirtyIn(row: seq<Slot>): nat {
    if row == [] then 0 else (if row[0].dirty then 1 else 0) + DirtyIn(row[1..])
  }

  lemma {:induction false} DirtyInUpdate(row: seq<Slot>, i: nat, slot: Slot)
    requires i < |row|
    ensures DirtyIn(row[i := slot]) + (if row[i].dirty then 1 else 0)
            == DirtyIn(row) + (if slot.dirty then 1 else 0)
  {
    if i == 0 {
      assert row[i := slot][1..] == row[1..];
    } else {
      assert row[i := slot][1..] == row[1..][i - 1 := slot];
      DirtyInUpdate(row[1..], i - 1, slot);
    }
  }

  function ResidentDirty(sets: seq<seq<Slot>>): nat {
    if sets == [] then 0 else DirtyIn(sets[0]) + ResidentDirty(sets[1..])
  }

  lemma {:induction false} ResidentDirtyUpdate(sets: seq<seq<Slot>>, s: nat, row: seq<Slot>)
    requires s < |sets|
    ensures ResidentDirty(sets[s := row]) + DirtyIn(sets[s]) == ResidentDirty(sets) + DirtyIn(row)
  {
    if s == 0 {
      assert sets[s := row][1..] == sets[1..];
    } else {
      assert sets[s := row][1..] == sets[1..][s - 1 := row];
      ResidentDirtyUpdate(sets[1..], s - 1, row);
    }
  }

  lemma {:induction false} NothingDirty(sets: seq<seq<Slot>>)
    requires forall s :: 0 <= s < |sets| ==> DirtyIn(sets[s]) == 0
    ensures ResidentDirty(sets) == 0
  {
    if sets != [] {
      NothingDirty(sets[1..]);
    }
  }

  lemma {:induction false} CleanRow(row: seq<Slot>)
    requires Clean(row)
    ensures DirtyIn(row) == 0
  {
    if row != [] {
      CleanRow(row[1..]);
    }
  }

  // ----- dirty evictions and clean-to-dirty transitions -----

  /** The access misses, allocates, and throws a dirty block out. */
  predicate EvictsDirty(cfg: Config, st: State, a: Access)
    requires Shaped(cfg, st)
  {
    !a.op.Other?
    && var row := st.sets[Index(cfg, a.address)];
       FindTag(row, Tag(cfg, a.address)) == |row|
       && !(a.op.Store? && cfg.allocation.NoWriteAllocate?) && Evicts(cfg, row)
  }

  /** The access makes dirty a block that was not. */
  predicate MakesDirty(cfg: Config, st: State, a: Access)
    requires Shaped(cfg, st)
  {
    a.op.Store? && cfg.mode.WriteBack?
    && var row := st.sets[Index(cfg, a.address)];
       var i := FindTag(row, Tag(cfg, a.address));
       if i < |row| then !row[i].dirty else cfg.allocation.WriteAllocate?
  }

  function DirtyEvictions(cfg: Config, trace: seq<Access>): nat
    requires Runnable(cfg)
  {
    if trace == [] then 0
    else
      var before := trace[..|trace| - 1];
      DirtyEvictions(cfg, before) + (if EvictsDirty(cfg, Run(cfg, before), trace[|trace| - 1]) then 1 else 0)
  }

  function Dirtied(cfg: Config, trace: seq<Access>): nat
    requires Runnable(cfg)
  {
    if trace == [] then 0
    else
      var before := trace[..|trace| - 1];
      Dirtied(cfg, before) + (if MakesDirty(cfg, Run(cfg, before), trace[|trace| - 1]) then 1 else 0)
  }

  lemma StepBalancesDirty(cfg: Config, st: State, a: Access)
    requires Shaped(cfg, st) && forall s :: 0 <= s < cfg.numSets ==> RowShape(cfg, st.sets[s])
    ensures ResidentDirty(Step(cfg, st, a).sets) + (if EvictsDirty(cfg, st, a) then 1 else 0)
            == ResidentDirty(st.sets) + (if MakesDirty(cfg, st, a) then 1 else 0)
  {
    if !a.op.Other? {
      var s, tag := Index(cfg, a.address), Tag(cfg, a.address);
      var row := st.sets[s];
      var row' := Answer(cfg, st, a.address, a.op.Store?).row;
      ResidentDirtyUpdate(st.sets, s, row');
      var i, v := FindTag(row, tag), Victim(row);
      if i < |row| {
        DirtyInUpdate(row, i, row'[i]);
      } else if !(a.op.Store? && cfg.allocation.NoWriteAllocate?) {
        DirtyInUpdate(row, v, row'[v]);
      }
    }
  }

  /** Every block made dirty is still resident and dirty or has been written back, once. */
  lemma {:induction false} DirtyBlocksAreConserved(cfg: Config, trace: seq<Access>)
    requires Runnable(cfg)
    ensures DirtyEvictions(cfg, trace) + ResidentDirty(Run(cfg, trace).sets) == Dirtied(cfg, trace)
  {
    if trace == [] {
      var st := Initial(cfg);
      forall s | 0 <= s < |st.sets| ensures DirtyIn(st.sets[s]) == 0 {
        CleanRow(st.sets[s]);
      }
      NothingDirty(st.sets);
    } else {
      var before := trace[..|trace| - 1];
      DirtyBlocksAreConserved(cfg, before);
      RunKeepsRowShape(cfg, before);
      StepBalancesDirty(cfg, Run(cfg, before), trace[|trace| - 1]);
    }
  }

  // ----- cycles -----

  /** The largest block size whose cost fits the program's 32-bit arithmetic. */
  function Limit(cfg: Config): nat {
    if cfg.mode.WriteBack? then 0x400_0000 else 0x800_0000
  }

  /** What an access is meant to cost. */
  function Nominal(cfg: Config, isStore: bool, hit: bool, extra: nat): nat {
    if !isStore then
      if hit then 1 else 1 + BlockCost(cfg) + extra
    else if hit then
      if cfg.mode.WriteThrough? then 101 else 1
    else if cfg.allocation.NoWriteAllocate? then 100
    else if cfg.mode.WriteThrough? then 1 + BlockCost(cfg) + 100 + extra
    else 1 + BlockCost(cfg) + extra + 1
  }

  /** Block sizes are powers of two, so the next one above the limit is twice the limit. */
  lemma AboveTheLimit(cfg: Config)
    requires Accepted(cfg) && cfg.numBytes > Limit(cfg)
    ensures cfg.numBytes >= 0x1000_0000 || (cfg.mode.WriteBack? && cfg.numBytes == 0x800_0000)
  {
    SmallPowers();
    var k: nat :| cfg.numBytes == Pow2(k);
    if k < 26 { Pow2Strict(k, 26); }
    if k > 28 { Pow2Strict(28, k); }
  }

  lemma SmallPowers()
    ensures Pow2(26) == 0x400_0000 && Pow2(27) == 0x800_0000 && Pow2(28) == 0x1000_0000
  {
    assert Pow2(8) == 0x100;
    Pow2Add(8, 8);
    Pow2Add(16, 8);
    assert Pow2(26) == 2 * Pow2(25);
  }

  /** The cycle count in numbers: 100 cycles for each 4 bytes moved, and 100 for each store
      passed on to memory. */
  function ClosedForm(cfg: Config, t: Stats, evictions: nat): nat {
    if cfg.mode.WriteBack? then
      t.loads + t.stores + t.storeMisses + 25 * cfg.numBytes * (t.loadMisses + t.storeMisses + evictions)
    else if cfg.allocation.WriteAllocate? then
      t.loads + 101 * t.stores + 25 * cfg.numBytes * (t.loadMisses + t.storeMisses)
    else
      t.loads + 101 * t.storeHits + 100 * t.storeMisses + 25 * cfg.numBytes * t.loadMisses
  }

  /** Block sizes the program accepts are whole words. */
  lemma WholeWords(cfg: Config)
    requires Accepted(cfg)
    ensures BlockCost(cfg) == 25 * cfg.numBytes
  {
    var k: nat :| cfg.numBytes == Pow2(k);
    assert k >= 2 by {
      if k < 2 { Pow2Strict(k, 2); }
    }
    Pow2Add(k - 2, 2);
    assert cfg.numBytes == Pow2(k - 2) * 4;
  }

  lemma MulSucc(c: nat, n: nat, d: nat)
    ensures c * (n + d) == c * n + c * d
  {
  }

  /** The closed form grows by the nominal cost of the access counted, whatever was charged. */
  lemma ClosedFormGrows(cfg: Config, t: Stats, evictions: nat, isStore: bool, hit: bool, evicts: bool, charged: nat)
    requires Accepted(cfg)
    requires evicts ==> !hit && cfg.mode.WriteBack?
    ensures ClosedForm(cfg, Count(cfg, t, isStore, hit, charged), evictions + if evicts then 1 else 0)
            == ClosedForm(cfg, t, evictions) + Nominal(cfg, isStore, hit, if evicts then BlockCost(cfg) else 0)
  {
    WholeWords(cfg);
    var c, extra := 25 * cfg.numBytes, if evicts then BlockCost(cfg) else 0;
    var t' := Count(cfg, t, isStore, hit, charged);
    var e := if evicts then 1 else 0;
    if cfg.mode.WriteBack? {
      var before, after := t.loadMisses + t.storeMisses + evictions, t'.loadMisses + t'.storeMisses + evictions + e;
      MulSucc(c, before, after - before);
      assert c * (after - before) == (if hit then 0 else c) + extra;
    } else if cfg.allocation.WriteAllocate? {
      MulSucc(c, t.loadMisses + t.storeMisses, if hit then 0 else 1);
    } else {
      MulSucc(c, t.loadMisses, if hit || isStore then 0 else 1);
    }
  }

  /** One access more adds its charge to the cycles and its nominal cost to the closed form. */
  lemma OneMoreAccess(cfg: Config, before: seq<Access>, a: Access)
    requires Accepted(cfg) && !a.op.Other?
    ensures var st, t, t' := Run(cfg, before), Totals(cfg, before), Totals(cfg, before + [a]);
            var row := st.sets[Index(cfg, a.address)];
            var hit := FindTag(row, Tag(cfg, a.address)) < |row|;
            var cost := if EvictsDirty(cfg, st, a) then BlockCost(cfg) else 0;
            && t'.cycles == t.cycles + Charge(cfg, a.op.Store?, hit, cost % TWO32)
            && ClosedForm(cfg, t', DirtyEvictions(cfg, before + [a]))
               == ClosedForm(cfg, t, DirtyEvictions(cfg, before)) + Nominal(cfg, a.op.Store?, hit, cost)
  {
    var row := Run(cfg, before).sets[Index(cfg, a.address)];
    OneMoreCounted(cfg, before, a);
    CountedOnce(cfg, Totals(cfg, before), Totals(cfg, before + [a]),
                DirtyEvictions(cfg, before), DirtyEvictions(cfg, before + [a]), a.op.Store?,
                FindTag(row, Tag(cfg, a.address)) < |row|, EvictsDirty(cfg, Run(cfg, before), a));
  }

  lemma CountedOnce(cfg: Config, t: Stats, t': Stats, e: nat, e': nat, isStore: bool, hit: bool, evicts: bool)
    requires Accepted(cfg)
    requires evicts ==> !hit && cfg.mode.WriteBack?
    requires t' == Count(cfg, t, isStore, hit, (if evicts then BlockCost(cfg) else 0) % TWO32)
    requires e' == e + if evicts then 1 else 0
    ensures var cost := if evicts then BlockCost(cfg) else 0;
            && t'.cycles == t.cycles + Charge(cfg, isStore, hit, cost % TWO32)
            && ClosedForm(cfg, t', e') == ClosedForm(cfg, t, e) + Nominal(cfg, isStore, hit, cost)
  {
    ClosedFormGrows(cfg, t, e, isStore, hit, evicts, (if evicts then BlockCost(cfg) else 0) % TWO32);
  }

  lemma OneMoreCounted(cfg: Config, before: seq<Access>, a: Access)
    requires Accepted(cfg) && !a.op.Other?
    ensures var st := Run(cfg, before);
            var row := st.sets[Index(cfg, a.address)];
            var hit := FindTag(row, Tag(cfg, a.address)) < |row|;
            var evicts := EvictsDirty(cfg, st, a);
            && Totals(cfg, before + [a])
               == Count(cfg, Totals(cfg, before), a.op.Store?, hit, (if evicts then BlockCost(cfg) else 0) % TWO32)
            && DirtyEvictions(cfg, before + [a]) == DirtyEvictions(cfg, before) + (if evicts then 1 else 0)
            && (evicts ==> !hit && cfg.mode.WriteBack?)
  {
    assert (before + [a])[..|before|] == before;
    AnswerIs(cfg, Run(cfg, before), a);
  }

  lemma AnswerIs(cfg: Config, st: State, a: Access)
    requires Shaped(cfg, st) && !a.op.Other?
    ensures var row := st.sets[Index(cfg, a.address)];
            var r := Answer(cfg, st, a.address, a.op.Store?);
            && r.hit == (FindTag(row, Tag(cfg, a.address)) < |row|)
            && r.extra == (if EvictsDirty(cfg, st, a) then BlockCost(cfg) else 0) % TWO32
  {
  }

  lemma {:induction false} HitsAndMissesAddUp(cfg: Config, trace: seq<Access>)
    requires Runnable(cfg)
    ensures AddsUp(Totals(cfg, trace))
  {
    if trace != [] {
      HitsAndMissesAddUp(cfg, trace[..|trace| - 1]);
    }
  }

  predicate IsThat(cfg: Config, trace: seq<Access>, n: nat, op: Operation, hit: bool)
    requires Runnable(cfg) && n < |trace|
  {
    trace[n].op == op && HitAt(cfg, trace, n) == hit
  }

  /** The accesses of one kind and outcome. */
  function Those(cfg: Config, trace: seq<Access>, op: Operation, hit: bool): set<nat>
    requires Runnable(cfg)
  {
    set n: nat | n < |trace| && IsThat(cfg, trace, n, op, hit)
  }

  lemma ThoseAfter(cfg: Config, before: seq<Access>, a: Access, op: Operation, hit: bool)
    requires Runnable(cfg)
    ensures |Those(cfg, before + [a], op, hit)|
            == |Those(cfg, before, op, hit)| + (if IsThat(cfg, before + [a], |before|, op, hit) then 1 else 0)
  {
    forall n: nat | n < |before|
      ensures n in Those(cfg, before + [a], op, hit) <==> n in Those(cfg, before, op, hit)
    {
      ThatStays(cfg, before, a, n, op, hit);
    }
    OneMore(Those(cfg, before, op, hit), Those(cfg, before + [a], op, hit), |before|,
            IsThat(cfg, before + [a], |before|, op, hit));
  }

  lemma ThatStays(cfg: Config, before: seq<Access>, a: Access, n: nat, op: Operation, hit: bool)
    requires Runnable(cfg) && n < |before|
    ensures IsThat(cfg, before + [a], n, op, hit) == IsThat(cfg, before, n, op, hit)
  {
    assert (before + [a])[..n] == before[..n];
  }

  lemma OneMore(before: set<nat>, after: set<nat>, n: nat, last: bool)
    requires forall i :: i in before ==> i < n
    requires forall i :: i in after <==> i in before || (i == n && last)
    ensures |after| == |before| + (if last then 1 else 0)
  {
    assert after == before + if last then {n} else {};
  }

  /** Each counter is the number of accesses it stands for. */
  lemma {:induction false} CountersCount(cfg: Config, trace: seq<Access>)
    requires Runnable(cfg)
    ensures var t := Totals(cfg, trace);
            && t.loadHits == |Those(cfg, trace, Load, true)| && t.loadMisses == |Those(cfg, trace, Load, false)|
            && t.storeHits == |Those(cfg, trace, Store, true)| && t.storeMisses == |Those(cfg, trace, Store, false)|
  {
    if trace != [] {
      var before, a := trace[..|trace| - 1], trace[|trace| - 1];
      CountersCount(cfg, before);
      assert trace == before + [a];
      ThoseAfter(cfg, before, a, Load, true);
      ThoseAfter(cfg, before, a, Load, false);
      ThoseAfter(cfg, before, a, Store, true);
      ThoseAfter(cfg, before, a, Store, false);
    }
  }

  /** More ways never cost LRU a hit, so a larger cache reports at least as many of each kind. */
  lemma {:induction false} MoreWaysMoreHits(small: Config, large: Config, trace: seq<Access>)
    requires Runnable(small) && Runnable(large) && small.replacement.Lru? && |trace| <= TWO32
    requires small.numBlocks <= large.numBlocks && large == small.(numBlocks := large.numBlocks)
    ensures Totals(small, trace).loadHits <= Totals(large, trace).loadHits
    ensures Totals(small, trace).storeHits <= Totals(large, trace).storeHits
    ensures Totals(small, trace).loads == Totals(large, trace).loads
    ensures Totals(small, trace).stores == Totals(large, trace).stores
  {
    if trace != [] {
      var n := |trace| - 1;
      MoreWaysMoreHits(small, large, trace[..n]);
      CacheLru.LruInclusion(small, large, trace, n);
    }
  }
}
