/** Where the recency order of LRU ends: the 32-bit clock wraps on the 2^32nd access, which then
    carries the smallest stamp.  The bound of CacheLru is therefore exact. */
module CacheLruLimit {
  import opened Bits
  import opened CacheModel
  import opened CacheLru
  import opened CacheAddresses

  function Again(a: Access, n: nat): (trace: seq<Access>)
    ensures |trace| == n
  {
    seq(n, i => a)
  }

  /** A set in which tags 0 and 1 were loaded at the given times, tag 0 first. */
  function TwoLoaded(ways: nat, first: nat, second: nat): seq<Slot>
    requires ways >= 2
  {
    OneLoaded(ways, first)[1 := Slot(1, true, second, false)]
  }

  function OneLoaded(ways: nat, first: nat): (row: seq<Slot>)
    requires ways >= 2
    ensures |row| == ways
  {
    seq(ways, w => EmptySlot)[0 := Slot(0, true, first, false)]
  }

  /** The configurations in which two blocks share a set. */
  ghost predicate HasRoom(cfg: Config) {
    Accepted(cfg) && Addressable(cfg) && cfg.replacement.Lru? && cfg.numBlocks >= 2
  }

  lemma LoadsOfOne(cfg: Config, n: nat)
    requires HasRoom(cfg) && 1 <= n < TWO32 && NumTags(cfg) >= 2
    ensures var st := Run(cfg, Again(LoadOf(cfg, 0), n));
            st.now == n && st.sets[0] == OneLoaded(cfg.numBlocks, n)
    decreases n
  {
    var a := LoadOf(cfg, 0);
    TagAddressIs(cfg, 0);
    assert Again(a, n)[..n - 1] == Again(a, n - 1);
    if n == 1 {
      FirstInvalidIs(Initial(cfg).sets[0], 0);
    } else {
      LoadsOfOne(cfg, n - 1);
      var row := OneLoaded(cfg.numBlocks, n - 1);
      assert Matches(row[0], 0) && FindTag(row, 0) == 0;
    }
  }

  /** The longest trace before the clock wraps: tag 0 all the time, then tag 1. */
  function ToTheLimit(cfg: Config): (trace: seq<Access>)
    requires Runnable(cfg) && NumTags(cfg) >= 2
    ensures |trace| == TWO32 - 1
  {
    Again(LoadOf(cfg, 0), TWO32 - 2) + [LoadOf(cfg, 1)]
  }

  lemma AtTheLimit(cfg: Config)
    requires HasRoom(cfg) && NumTags(cfg) >= 2
    ensures var st := Run(cfg, ToTheLimit(cfg));
            st.now == TWO32 - 1 && st.sets[0] == TwoLoaded(cfg.numBlocks, TWO32 - 2, TWO32 - 1)
  {
    var before := Again(LoadOf(cfg, 0), TWO32 - 2);
    LoadsOfOne(cfg, TWO32 - 2);
    assert ToTheLimit(cfg)[..TWO32 - 2] == before;
    TagAddressIs(cfg, 1);
    NotYetLoaded(cfg.numBlocks, TWO32 - 2);
  }

  lemma NotYetLoaded(ways: nat, first: nat)
    requires ways >= 2
    ensures var row := OneLoaded(ways, first); FindTag(row, 1) == ways && FirstInvalid(row) == 1
  {
    FirstInvalidIs(OneLoaded(ways, first), 1);
  }

  lemma {:induction false} ListOfOne(cfg: Config, n: nat)
    requires HasRoom(cfg) && 1 <= n && NumTags(cfg) >= 2
    ensures Lists(cfg, Again(LoadOf(cfg, 0), n))[0] == [0]
    decreases n
  {
    var a := LoadOf(cfg, 0);
    TagAddressIs(cfg, 0);
    assert Again(a, n)[..n - 1] == Again(a, n - 1);
    if n > 1 {
      ListOfOne(cfg, n - 1);
      WithoutAt([0], 0);
    }
  }

  /** One access past the limit, to the block just loaded. */
  function PastTheLimit(cfg: Config): (trace: seq<Access>)
    requires Runnable(cfg) && NumTags(cfg) >= 2
    ensures |trace| == TWO32
  {
    ToTheLimit(cfg) + [LoadOf(cfg, 1)]
  }

  /** The 2^32nd access is stamped zero: the block it touched is the oldest by its stamp although
      the list has it in front, and in a full set it is the next to be evicted. */
  lemma WrappedClockEvictsTheNewest(cfg: Config)
    requires HasRoom(cfg) && NumTags(cfg) >= 2
    ensures var row := Run(cfg, PastTheLimit(cfg)).sets[0];
            && row == TwoLoaded(cfg.numBlocks, TWO32 - 2, 0)
            && Lists(cfg, PastTheLimit(cfg))[0] == [1, 0]
            && (cfg.numBlocks == 2 ==> row[Victim(row)].tag == 1)
  {
    var trace := PastTheLimit(cfg);
    AtTheLimit(cfg);
    ListsAtTheLimit(cfg);
    assert trace[..TWO32 - 1] == ToTheLimit(cfg);
    TagAddressIs(cfg, 1);
    var row := TwoLoaded(cfg.numBlocks, TWO32 - 2, TWO32 - 1);
    assert !Matches(row[0], 1) && Matches(row[1], 1) && FindTag(row, 1) == 1;
    var row' := TwoLoaded(cfg.numBlocks, TWO32 - 2, 0);
    assert row[1 := Slot(1, true, 0, false)] == row';
    if cfg.numBlocks == 2 {
      FirstInvalidIs(row', 2);
    }
  }

  lemma ListsAtTheLimit(cfg: Config)
    requires HasRoom(cfg) && NumTags(cfg) >= 2
    ensures Lists(cfg, ToTheLimit(cfg))[0] == [1, 0] == Lists(cfg, PastTheLimit(cfg))[0]
  {
    ListOfOne(cfg, TWO32 - 2);
    TagAddressIs(cfg, 1);
    assert ToTheLimit(cfg)[..TWO32 - 2] == Again(LoadOf(cfg, 0), TWO32 - 2);
    assert PastTheLimit(cfg)[..TWO32 - 1] == ToTheLimit(cfg);
    WithoutAt([1, 0], 0);
  }

  /** Every set orders its slots as the recency list says. */
  ghost predicate Ordered(cfg: Config, trace: seq<Access>)
    requires Runnable(cfg)
  {
    forall s :: 0 <= s < cfg.numSets ==> Represents(Run(cfg, trace).sets[s], Lists(cfg, trace)[s])
  }

  /** With two ways or more, the stamps order every set on every trace of at most n accesses if
      and only if n is below 2^32. */
  lemma RecencyLimitIsExact(cfg: Config, n: nat)
    requires HasRoom(cfg)
    ensures (forall trace :: |trace| <= n ==> Ordered(cfg, trace)) <==> n < TWO32
  {
    EvenlyDivided(cfg);
    if n < TWO32 {
      forall trace | |trace| <= n ensures Ordered(cfg, trace) {
        StampsRefineRecency(cfg, trace);
      }
    } else {
      WrappedClockEvictsTheNewest(cfg);
      OutOfOrder(cfg.numBlocks);
      assert !Ordered(cfg, PastTheLimit(cfg));
    }
  }

  lemma OutOfOrder(ways: nat)
    requires ways >= 2
    ensures !Represents(TwoLoaded(ways, TWO32 - 2, 0), [1, 0])
  {
    var row := TwoLoaded(ways, TWO32 - 2, 0);
    forall ord | Orders(row, ord) ensures TagsOf(row, ord) != [1, 0] {
      FirstInvalidIs(row, 2);
      assert row[ord[0]].lastUsed > row[ord[1]].lastUsed;
      assert TagsOf(row, ord)[0] == 0;
    }
  }
}
