/** The cache simulator itself: an array of slots updated in place by scanning loops, and the
    loop over the trace with its counters. */
module CacheSimulator {
  import opened Bits
  import opened CacheModel

  /** The single-bit test on a 32-bit word. */
  function IsPowerOfTwo(n: u32): (r: bool)
    ensures r <==> IsPow2(n)
  {
    if n > 0 then
      SingleBitTest(n);
      And(n, n - 1) == 0
    else
      assert forall k: nat :: Pow2(k) > 0;
      false
  }

  class Cache {
    const cfg: Config
    const indexBits: nat
    const offsetBits: nat
    const slots: array2<Slot>

    ghost predicate Valid() {
      && Accepted(cfg)
      && Pow2(indexBits) == cfg.numSets && Pow2(offsetBits) == cfg.numBytes
      && slots.Length0 == cfg.numSets && slots.Length1 == cfg.numBlocks
    }

    /** The slots of one set, as a sequence. */
    ghost function Row(s: nat): (row: seq<Slot>)
      requires s < slots.Length0
      reads slots
      ensures |row| == slots.Length1
    {
      seq(slots.Length1, w requires 0 <= w < slots.Length1 reads slots => slots[s, w])
    }

    ghost function Rows(): (rows: seq<seq<Slot>>)
      reads slots
      ensures |rows| == slots.Length0
    {
      seq(slots.Length0, s requires 0 <= s < slots.Length0 reads slots => Row(s))
    }

    constructor (cfg: Config)
      requires Accepted(cfg)
      ensures Valid() && fresh(slots) && this.cfg == cfg
      ensures Rows() == Initial(cfg).sets
    {
      this.cfg := cfg;
      indexBits := Log2(cfg.numSets);
      offsetBits := Log2(cfg.numBytes);
      slots := new Slot[cfg.numSets, cfg.numBlocks]((s, w) => EmptySlot);
      new;
      Log2Exact(cfg.numSets);
      Log2Exact(cfg.numBytes);
      assert forall s | 0 <= s < cfg.numSets :: Row(s) == Initial(cfg).sets[s];
    }

    /** One access.  The shifts and masks select the set and tag of the block; the scans find
        the slot; the whole new cache is that of the specification, unless the shift that gives
        the tag is undefined. */
    method Access(address: u32, isStore: bool, timestamp: u32)
      returns (hit: bool, now: u32, extra: nat)
      requires Valid()
      modifies slots
      ensures now == Tick(timestamp)
      ensures Addressable(cfg) ==>
                var st := State(old(Rows()), timestamp);
                var r := Answer(cfg, st, address, isStore);
                && hit == r.hit && extra == r.extra
                && Rows() == st.sets[Index(cfg, address) := r.row]
    {
      now := (timestamp + 1) % TWO32;
      var index := And(address / Pow2(offsetBits), 1 * Pow2(indexBits) - 1);
      AddressSplit(cfg, address, indexBits, offsetBits);
      ShiftIsDefined(cfg, indexBits, offsetBits);
      var tag: nat := *;
      if indexBits + offsetBits < 32 {
        tag := address / Pow2(indexBits + offsetBits);
      }
      hit, extra := AccessSet(index, tag, isStore, now);
    }

    /** One access to one set. */
    method AccessSet(index: nat, tag: nat, isStore: bool, now: u32) returns (hit: bool, extra: nat)
      requires Valid() && index < cfg.numSets
      modifies slots
      ensures var r := AccessRow(cfg, old(Row(index)), tag, isStore, now);
              hit == r.hit && extra == r.extra && Rows() == old(Rows())[index := r.row]
    {
      extra := 0;
      ghost var row := Row(index);
      var i := SlotHolding(index, tag);
      hit := i < slots.Length1;
      if hit {
        if cfg.replacement.Lru? {
          slots[index, i] := slots[index, i].(lastUsed := now);
        }
        if isStore && cfg.mode.WriteBack? {
          slots[index, i] := slots[index, i].(dirty := true);
        }
      } else if !(isStore && cfg.allocation.NoWriteAllocate?) {
        var v := InvalidSlot(index);
        if v == slots.Length1 {
          v := OldestSlot(index);
          if cfg.mode.WriteBack? && slots[index, v].dirty {
            extra := (cfg.numBytes / 4 * 100) % TWO32;
          }
        }
        slots[index, v] := Slot(tag, true, now, cfg.mode.WriteBack? && isStore);
      }
      RowsAfter(index, old(Rows()), AccessRow(cfg, row, tag, isStore, now).row);
    }

    /** The search for a matching tag. */
    method SlotHolding(index: nat, tag: nat) returns (i: nat)
      requires index < slots.Length0
      ensures i == FindTag(Row(index), tag)
    {
      ghost var row := Row(index);
      i := 0;
      while i < slots.Length1 && !(slots[index, i].valid && slots[index, i].tag == tag)
        invariant i <= slots.Length1
        invariant forall j :: 0 <= j < i ==> !Matches(row[j], tag)
      {
        i := i + 1;
      }
      assert i < |row| ==> Matches(row[i], tag);
    }

    /** The search for an empty slot. */
    method InvalidSlot(index: nat) returns (v: nat)
      requires index < slots.Length0
      ensures v == FirstInvalid(Row(index))
    {
      ghost var row := Row(index);
      v := 0;
      while v < slots.Length1 && slots[index, v].valid
        invariant v <= slots.Length1
        invariant forall j :: 0 <= j < v ==> row[j].valid
      {
        v := v + 1;
      }
      assert v < |row| ==> !row[v].valid;
    }

    /** The replacement scan, which serves both policies. */
    method OldestSlot(index: nat) returns (v: nat)
      requires index < slots.Length0 && slots.Length1 > 0
      ensures v == Oldest(Row(index))
    {
      ghost var row := Row(index);
      v := 0;
      var i := 1;
      while i < slots.Length1
        invariant 1 <= i <= slots.Length1
        invariant v < i
        invariant forall j :: 0 <= j < i ==> row[v].lastUsed <= row[j].lastUsed
        invariant forall j :: 0 <= j < v ==> row[v].lastUsed < row[j].lastUsed
      {
        if slots[index, i].lastUsed < slots[index, v].lastUsed {
          v := i;
        }
        i := i + 1;
      }
    }

    /** When set `index` has become `row` and no other set has changed, the cache is the old
        one with that set replaced. */
    lemma RowsAfter(index: nat, before: seq<seq<Slot>>, row: seq<Slot>)
      requires index < slots.Length0 && |before| == slots.Length0
      requires |row| == slots.Length1 && forall w :: 0 <= w < slots.Length1 ==> slots[index, w] == row[w]
      requires forall s :: 0 <= s < slots.Length0 ==> |before[s]| == slots.Length1
      requires forall s, w :: 0 <= s < slots.Length0 && 0 <= w < slots.Length1 && s != index ==>
                 slots[s, w] == before[s][w]
      ensures Rows() == before[index := row]
    {
      assert Row(index) == row;
      assert forall s | 0 <= s < slots.Length0 && s != index :: Row(s) == before[s];
    }
  }

  lemma Log2Exact(n: nat)
    requires IsPow2(n)
    ensures n > 0 && Pow2(Log2(n)) == n
  {
    var k: nat :| n == Pow2(k);
    Log2OfPow2(k);
  }

  /** The shift-and-mask address split is division and remainder. */
  lemma AddressSplit(cfg: Config, address: nat, indexBits: nat, offsetBits: nat)
    requires Pow2(indexBits) == cfg.numSets && Pow2(offsetBits) == cfg.numBytes
    ensures And(address / Pow2(offsetBits), Pow2(indexBits) - 1) == Index(cfg, address)
    ensures address / Pow2(indexBits + offsetBits) == Tag(cfg, address)
  {
    MaskIsMod(address / Pow2(offsetBits), indexBits);
    Pow2Add(indexBits, offsetBits);
    DivideTwice(address, cfg.numBytes, cfg.numSets);
  }

  lemma ShiftIsDefined(cfg: Config, indexBits: nat, offsetBits: nat)
    requires Pow2(indexBits) == cfg.numSets && Pow2(offsetBits) == cfg.numBytes
    ensures indexBits + offsetBits < 32 <==> Addressable(cfg)
  {
    Pow2Add(indexBits, offsetBits);
    Pow2Of32();
    if indexBits + offsetBits < 32 {
      Pow2Strict(indexBits + offsetBits, 32);
    } else if indexBits + offsetBits > 32 {
      Pow2Strict(32, indexBits + offsetBits);
    }
  }

  // ----- the trace loop -----

  datatype Stats = Stats(
    loads: nat, stores: nat, loadHits: nat, loadMisses: nat,
    storeHits: nat, storeMisses: nat, cycles: nat)

  /** Cycles charged for one access, in 32-bit arithmetic where the program has it. */
  function Charge(cfg: Config, isStore: bool, hit: bool, extra: nat): nat {
    if !isStore then
      if hit then 1 else (1 + BlockCost(cfg) + extra) % TWO32
    else if hit then
      if cfg.mode.WriteThrough? then 101 else 1
    else if cfg.allocation.NoWriteAllocate? then 100
    else if cfg.mode.WriteThrough? then (1 + BlockCost(cfg) + 100 + extra) % TWO32
    else (1 + BlockCost(cfg) + extra + 1) % TWO32
  }

  function Count(cfg: Config, t: Stats, isStore: bool, hit: bool, extra: nat): Stats {
    var cost := t.cycles + Charge(cfg, isStore, hit, extra);
    if isStore then
      if hit then t.(stores := t.stores + 1, storeHits := t.storeHits + 1, cycles := cost)
      else t.(stores := t.stores + 1, storeMisses := t.storeMisses + 1, cycles := cost)
    else
      if hit then t.(loads := t.loads + 1, loadHits := t.loadHits + 1, cycles := cost)
      else t.(loads := t.loads + 1, loadMisses := t.loadMisses + 1, cycles := cost)
  }

  /** The statistics of a whole trace. */
  function Totals(cfg: Config, trace: seq<Access>): Stats
    requires Runnable(cfg)
  {
    if trace == [] then Stats(0, 0, 0, 0, 0, 0, 0)
    else
      var before := trace[..|trace| - 1];
      var a := trace[|trace| - 1];
      if a.op.Other? then Totals(cfg, before)
      else
        var r := Answer(cfg, Run(cfg, before), a.address, a.op.Store?);
        Count(cfg, Totals(cfg, before), a.op.Store?, r.hit, r.extra)
  }

  /** The program's main loop: hits and misses add up, and the counters it prints are those of the
      specification unless a shift is undefined. */
  method Simulate(cfg: Config, trace: seq<Access>) returns (t: Stats)
    requires Accepted(cfg)
    ensures AddsUp(t)
    ensures Addressable(cfg) ==> t == Totals(cfg, trace)
  {
    var cache := new Cache(cfg);
    var timestamp: u32 := 0;
    t := Stats(0, 0, 0, 0, 0, 0, 0);
    var n := 0;
    while n < |trace|
      invariant n <= |trace|
      invariant cache.cfg == cfg && fresh(cache.slots) && cache.Valid()
      invariant AddsUp(t)
      invariant Addressable(cfg) ==>
                  State(cache.Rows(), timestamp) == Run(cfg, trace[..n]) && t == Totals(cfg, trace[..n])
    {
      assert trace[..n + 1][..n] == trace[..n];
      timestamp, t := Serve(cache, trace[n], timestamp, t);
      n := n + 1;
    }
    assert trace[..n] == trace;
  }

  ghost predicate AddsUp(t: Stats) {
    t.loadHits + t.loadMisses == t.loads && t.storeHits + t.storeMisses == t.stores
  }

  /** One line of the trace: a load or a store is simulated and counted, anything else ignored. */
  method Serve(cache: Cache, a: Access, timestamp: u32, t: Stats) returns (now: u32, t': Stats)
    requires cache.Valid() && AddsUp(t)
    modifies cache.slots
    ensures AddsUp(t')
    ensures a.op.Other? ==> cache.Rows() == old(cache.Rows()) && now == timestamp && t' == t
    ensures !a.op.Other? && Addressable(cache.cfg) ==>
              var st := State(old(cache.Rows()), timestamp);
              var r := Answer(cache.cfg, st, a.address, a.op.Store?);
              && State(cache.Rows(), now) == Step(cache.cfg, st, a)
              && t' == Count(cache.cfg, t, a.op.Store?, r.hit, r.extra)
  {
    var cfg := cache.cfg;
    var hit: bool, extra: nat;
    now, t' := timestamp, t;
    if a.op.Load? {
      t' := t'.(loads := t'.loads + 1);
      hit, now, extra := cache.Access(a.address, false, timestamp);
      if hit {
        t' := t'.(loadHits := t'.loadHits + 1, cycles := t'.cycles + 1);
      } else {
        t' := t'.(loadMisses := t'.loadMisses + 1);
        t' := t'.(cycles := t'.cycles + (1 + cfg.numBytes / 4 * 100 + extra) % TWO32);
      }
    } else if a.op.Store? {
      t' := t'.(stores := t'.stores + 1);
      hit, now, extra := cache.Access(a.address, true, timestamp);
      if hit {
        t' := t'.(storeHits := t'.storeHits + 1, cycles := t'.cycles + 1);
        if cfg.mode.WriteThrough? {
          t' := t'.(cycles := t'.cycles + 100);
        }
      } else {
        t' := t'.(storeMisses := t'.storeMisses + 1);
        if cfg.allocation.NoWriteAllocate? {
          t' := t'.(cycles := t'.cycles + 100);
        } else if cfg.mode.WriteThrough? {
          t' := t'.(cycles := t'.cycles + (1 + cfg.numBytes / 4 * 100 + 100 + extra) % TWO32);
        } else {
          t' := t'.(cycles := t'.cycles + (1 + cfg.numBytes / 4 * 100 + extra + 1) % TWO32);
        }
      }
    }
  }
}
