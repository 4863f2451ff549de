/** When the cycles the program prints are the closed form of its other counters.  Charges are
    added up in 32 bits before they reach the total, so large blocks can lose some; exactly which
    configurations do is settled here by traces. */
module CacheCharges {
  import opened Bits
  import opened CacheModel
  import opened CacheSimulator
  import opened CacheAddresses
  import opened CacheCycles

  /** The cycles are the closed form. */
  ghost predicate Exact(cfg: Config, trace: seq<Access>)
    requires Runnable(cfg)
  {
    var t := Totals(cfg, trace);
    t.cycles == ClosedForm(cfg, t, DirtyEvictions(cfg, trace))
  }

  /** A write-back cache of blocks twice the limit, with a way for every tag. */
  ghost predicate NeverEvicts(cfg: Config)
    requires Runnable(cfg)
  {
    cfg.mode.WriteBack? && cfg.numBytes == 0x800_0000 && cfg.numBlocks >= NumTags(cfg)
  }

  // ----- where it holds -----

  /** Tags in the cache are tags of addresses. */
  lemma {:induction false} TagsInRange(cfg: Config, trace: seq<Access>, s: nat)
    requires Accepted(cfg) && Addressable(cfg) && s < cfg.numSets
    ensures forall i :: 0 <= i < cfg.numBlocks && Run(cfg, trace).sets[s][i].valid ==>
              Run(cfg, trace).sets[s][i].tag < NumTags(cfg)
  {
    if trace != [] {
      TagsInRange(cfg, trace[..|trace| - 1], s);
      TagsAreBelow(cfg, trace[|trace| - 1].address);
    }
  }

  /** A full set without the tag sought has fewer ways than there are tags. */
  lemma FullSetMisses(row: seq<Slot>, tag: nat, bound: nat)
    requires DistinctTags(row) && FirstInvalid(row) == |row| && FindTag(row, tag) == |row| && tag < bound
    requires forall i :: 0 <= i < |row| && row[i].valid ==> row[i].tag < bound
    ensures |row| < bound
  {
    var tags := seq(|row|, i requires 0 <= i < |row| => row[i].tag);
    assert forall i | 0 <= i < |row| :: row[i].valid && !Matches(row[i], tag);
    NoMoreThanBound(tags + [tag], bound);
  }

  lemma NothingIsEvicted(cfg: Config, trace: seq<Access>, a: Access)
    requires Accepted(cfg) && Addressable(cfg) && cfg.numBlocks >= NumTags(cfg)
    ensures !EvictsDirty(cfg, Run(cfg, trace), a)
  {
    if EvictsDirty(cfg, Run(cfg, trace), a) {
      var s := Index(cfg, a.address);
      RunKeepsRowShape(cfg, trace);
      TagsInRange(cfg, trace, s);
      TagsAreBelow(cfg, a.address);
      FullSetMisses(Run(cfg, trace).sets[s], Tag(cfg, a.address), NumTags(cfg));
    }
  }

  /** A charge is exact within the limit, and up to twice the limit when nothing is evicted. */
  lemma ChargeIsExact(cfg: Config, isStore: bool, hit: bool, evicts: bool)
    requires evicts ==> cfg.mode.WriteBack?
    requires cfg.numBytes <= Limit(cfg) || (cfg.numBytes == 0x800_0000 && !evicts)
    ensures var cost := if evicts then BlockCost(cfg) else 0;
            Charge(cfg, isStore, hit, cost % TWO32) == Nominal(cfg, isStore, hit, cost)
  {
  }

  lemma {:induction false} AlwaysExact(cfg: Config, trace: seq<Access>)
    requires Accepted(cfg) && (cfg.numBytes <= Limit(cfg) || (Addressable(cfg) && NeverEvicts(cfg)))
    ensures Exact(cfg, trace)
  {
    if trace != [] {
      var before, a := trace[..|trace| - 1], trace[|trace| - 1];
      AlwaysExact(cfg, before);
      assert trace == before + [a];
      if !a.op.Other? {
        OneMoreAccess(cfg, before, a);
        var st := Run(cfg, before);
        if cfg.numBytes > Limit(cfg) {
          NothingIsEvicted(cfg, before, a);
        }
        var row := st.sets[Index(cfg, a.address)];
        ChargeIsExact(cfg, a.op.Store?, FindTag(row, Tag(cfg, a.address)) < |row|, EvictsDirty(cfg, st, a));
      }
    }
  }

  // ----- where it fails -----

  lemma ChargeIsAtMost(cfg: Config, isStore: bool, hit: bool, extra: nat)
    ensures Charge(cfg, isStore, hit, extra % TWO32) <= Nominal(cfg, isStore, hit, extra)
  {
    ModAtMost(extra);
    ModAtMost(1 + BlockCost(cfg) + extra % TWO32);
    ModAtMost(1 + BlockCost(cfg) + 100 + extra % TWO32);
    ModAtMost(1 + BlockCost(cfg) + extra % TWO32 + 1);
  }

  lemma ModAtMost(x: nat)
    ensures x % TWO32 <= x
  {
  }

  /** Cycles can only be lost. */
  lemma {:induction false} NeverMore(cfg: Config, trace: seq<Access>)
    requires Accepted(cfg)
    ensures var t := Totals(cfg, trace); t.cycles <= ClosedForm(cfg, t, DirtyEvictions(cfg, trace))
  {
    if trace != [] {
      var before, a := trace[..|trace| - 1], trace[|trace| - 1];
      NeverMore(cfg, before);
      assert trace == before + [a];
      if !a.op.Other? {
        OneMoreAccess(cfg, before, a);
        var st := Run(cfg, before);
        var row := st.sets[Index(cfg, a.address)];
        ChargeIsAtMost(cfg, a.op.Store?, FindTag(row, Tag(cfg, a.address)) < |row|,
                       if EvictsDirty(cfg, st, a) then BlockCost(cfg) else 0);
      }
    }
  }

  /** A missing load that costs 2^32 or more is undercharged for good. */
  lemma CostlyLoad(cfg: Config, before: seq<Access>, a: Access)
    requires Accepted(cfg) && a.op.Load?
    requires var row := Run(cfg, before).sets[Index(cfg, a.address)]; FindTag(row, Tag(cfg, a.address)) == |row|
    requires 1 + BlockCost(cfg) + (if EvictsDirty(cfg, Run(cfg, before), a) then BlockCost(cfg) else 0) >= TWO32
    ensures !Exact(cfg, before + [a])
  {
    NeverMore(cfg, before);
    OneMoreAccess(cfg, before, a);
  }

  /** With blocks of 2^28 bytes or more one load is enough. */
  lemma OneLoadIsEnough(cfg: Config)
    requires Accepted(cfg) && Addressable(cfg) && cfg.numBytes >= 0x1000_0000
    ensures NumTags(cfg) > 0 && !Exact(cfg, [LoadOf(cfg, 0)])
  {
    EvenlyDivided(cfg);
    var a := LoadOf(cfg, 0);
    CostlyLoad(cfg, [], a);
    assert [] + [a] == [a];
  }

  function StoreOf(cfg: Config, tag: nat): Access
    requires Runnable(cfg) && tag < NumTags(cfg)
  {
    TagAddressFits(cfg, tag);
    Access(Store, TagAddress(cfg, tag))
  }

  function FirstStores(cfg: Config, n: nat): (trace: seq<Access>)
    requires Runnable(cfg) && n <= NumTags(cfg)
    ensures |trace| == n
  {
    seq(n, i requires 0 <= i < n => StoreOf(cfg, i))
  }

  /** A set whose first n ways hold tags 0 to n - 1, stored in that order. */
  function StoredRow(ways: nat, n: nat): (row: seq<Slot>)
    ensures |row| == ways
  {
    seq(ways, i requires 0 <= i < ways => if i < n then Slot(i, true, i + 1, true) else EmptySlot)
  }

  lemma StoredRowIs(ways: nat, n: nat, tag: nat)
    requires n <= tag && n <= ways
    ensures FindTag(StoredRow(ways, n), tag) == ways && FirstInvalid(StoredRow(ways, n)) == n
  {
    FirstInvalidIs(StoredRow(ways, n), n);
  }

  lemma {:induction false} StoresFill(cfg: Config, n: nat)
    requires Accepted(cfg) && Addressable(cfg) && cfg.mode.WriteBack? && n <= cfg.numBlocks && n <= NumTags(cfg)
    ensures var st := Run(cfg, FirstStores(cfg, n));
            st.now == n && st.sets[0] == StoredRow(cfg.numBlocks, n)
  {
    if n > 0 {
      var before := FirstStores(cfg, n - 1);
      StoresFill(cfg, n - 1);
      assert FirstStores(cfg, n)[..n - 1] == before;
      FewTags(cfg);
      OneMoreStore(cfg, Run(cfg, before), n - 1);
    }
  }

  lemma OneMoreStore(cfg: Config, st: State, n: nat)
    requires Runnable(cfg) && Shaped(cfg, st) && cfg.mode.WriteBack? && cfg.allocation.WriteAllocate?
    requires n < cfg.numBlocks && n < NumTags(cfg) && n + 1 < TWO32
    requires st.now == n && st.sets[0] == StoredRow(cfg.numBlocks, n)
    ensures var st' := Step(cfg, st, StoreOf(cfg, n));
            st'.now == n + 1 && st'.sets[0] == StoredRow(cfg.numBlocks, n + 1)
  {
    TagAddressIs(cfg, n);
    StoredRowIs(cfg.numBlocks, n, n);
    assert StoredRow(cfg.numBlocks, n)[n := Slot(n, true, n + 1, true)] == StoredRow(cfg.numBlocks, n + 1);
  }

  /** With blocks of 2^27 bytes, written back, and fewer ways than tags: fill a set with stores and
      load one block more. */
  lemma OneEvictionIsEnough(cfg: Config)
    requires Accepted(cfg) && Addressable(cfg) && cfg.mode.WriteBack?
    requires cfg.numBytes == 0x800_0000 && cfg.numBlocks < NumTags(cfg)
    ensures !Exact(cfg, FirstStores(cfg, cfg.numBlocks) + [LoadOf(cfg, cfg.numBlocks)])
  {
    var before, a := FirstStores(cfg, cfg.numBlocks), LoadOf(cfg, cfg.numBlocks);
    StoresFill(cfg, cfg.numBlocks);
    TagAddressIs(cfg, cfg.numBlocks);
    StoredRowIs(cfg.numBlocks, cfg.numBlocks, cfg.numBlocks);
    CostlyLoad(cfg, before, a);
  }

  /** The cycles are the closed form on every trace exactly within the limit, and for write-back
      blocks of twice the limit when there is a way for every tag, so that nothing is evicted. */
  lemma ClosedFormIsExact(cfg: Config)
    requires Accepted(cfg) && Addressable(cfg)
    ensures (forall trace :: Exact(cfg, trace)) <==> cfg.numBytes <= Limit(cfg) || NeverEvicts(cfg)
  {
    if cfg.numBytes <= Limit(cfg) || NeverEvicts(cfg) {
      forall trace ensures Exact(cfg, trace) {
        AlwaysExact(cfg, trace);
      }
    } else {
      AboveTheLimit(cfg);
      if cfg.numBytes == 0x800_0000 {
        OneEvictionIsEnough(cfg);
      } else {
        OneLoadIsEnough(cfg);
      }
    }
  }

  /** After any trace hits and misses account for every load and store, and wherever no charge is
      lost the cycles are the closed form; dirty evictions are the only other thing they depend on. */
  lemma CyclesAreConserved(cfg: Config, trace: seq<Access>)
    requires Accepted(cfg)
    ensures AddsUp(Totals(cfg, trace))
    ensures cfg.numBytes <= Limit(cfg) || (Addressable(cfg) && NeverEvicts(cfg)) ==> Exact(cfg, trace)
    ensures var t := Totals(cfg, trace); t.cycles <= ClosedForm(cfg, t, DirtyEvictions(cfg, trace))
  {
    HitsAndMissesAddUp(cfg, trace);
    NeverMore(cfg, trace);
    if cfg.numBytes <= Limit(cfg) || (Addressable(cfg) && NeverEvicts(cfg)) {
      AlwaysExact(cfg, trace);
    }
  }
}
