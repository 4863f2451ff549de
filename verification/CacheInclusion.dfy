/** When more ways never cost FIFO a hit.  LRU always has this property; FIFO has it only when the
    numbers of ways are equal, when the smaller is one, and when the larger cache never evicts. */
module CacheInclusion {
  import opened Bits
  import opened CacheModel
  import opened CacheAddresses
  import opened CacheFifo

  /** Every access that hits in the small cache hits in the large one. */
  ghost predicate Inclusive(small: Config, large: Config)
    requires Runnable(small) && Runnable(large)
  {
    forall trace, n :: 0 <= n < |trace| && n < TWO32 && HitAt(small, trace, n) ==> HitAt(large, trace, n)
  }

  /** Two FIFO caches that differ in their ways only. */
  ghost predicate Compared(small: Config, large: Config) {
    && Accepted(small) && Addressable(small) && small.replacement.Fifo?
    && small.numBlocks <= large.numBlocks && large == small.(numBlocks := large.numBlocks)
  }

  // ----- where it fails -----

  function Upto(n: nat): (s: seq<nat>)
    ensures |s| == n && forall i :: 0 <= i < n ==> s[i] == i
  {
    seq(n, i => i)
  }

  /** Loads of tags 0 to n - 1 in set 0. */
  function FirstLoads(cfg: Config, n: nat): (trace: seq<Access>)
    requires Runnable(cfg) && n <= NumTags(cfg)
    ensures |trace| == n
  {
    seq(n, i requires 0 <= i < n => LoadOf(cfg, i))
  }

  /** Fill the large cache, touch its first block, evict that, and load it again. */
  function Breaker(cfg: Config, ways: nat): (trace: seq<Access>)
    requires Runnable(cfg) && 0 < ways < NumTags(cfg)
    ensures |trace| == ways + 3
  {
    FirstLoads(cfg, ways) + [LoadOf(cfg, 0)] + [LoadOf(cfg, ways)] + [LoadOf(cfg, 0)]
  }

  lemma OneMoreLoad(cfg: Config, trace: seq<Access>, tag: nat)
    requires Runnable(cfg) && tag < NumTags(cfg)
    ensures History(cfg, trace + [LoadOf(cfg, tag)])[0] == Insert(History(cfg, trace)[0], cfg.numBlocks, tag, true)
  {
    TagAddressIs(cfg, tag);
    assert (trace + [LoadOf(cfg, tag)])[..|trace|] == trace;
  }

  lemma {:induction false} FirstHistory(cfg: Config, n: nat)
    requires Runnable(cfg) && n <= NumTags(cfg)
    ensures History(cfg, FirstLoads(cfg, n))[0] == Upto(n)
  {
    if n > 0 {
      FirstHistory(cfg, n - 1);
      OneMoreLoad(cfg, FirstLoads(cfg, n - 1), n - 1);
      OneFirstLoadMore(cfg, n - 1);
      NextIsNew(n - 1, cfg.numBlocks);
    }
  }

  lemma OneFirstLoadMore(cfg: Config, n: nat)
    requires Runnable(cfg) && n < NumTags(cfg)
    ensures FirstLoads(cfg, n + 1) == FirstLoads(cfg, n) + [LoadOf(cfg, n)]
  {
  }

  lemma NextIsNew(n: nat, ways: nat)
    ensures Insert(Upto(n), ways, n, true) == Upto(n + 1)
  {
    assert n !in Resident(Upto(n), ways);
    assert Upto(n + 1) == Upto(n) + [n];
  }

  /** The fill history before the last load, with as many ways as were filled and with fewer. */
  lemma BeforeTheLast(cfg: Config, ways: nat)
    requires Runnable(cfg) && 0 < cfg.numBlocks <= ways < NumTags(cfg)
    ensures var h := History(cfg, Breaker(cfg, ways)[..ways + 2])[0];
            h == if cfg.numBlocks == ways then Upto(ways) + [ways] else Upto(ways) + [0] + [ways]
  {
    var first := FirstLoads(cfg, ways);
    FirstHistory(cfg, ways);
    OneMoreLoad(cfg, first, 0);
    OneMoreLoad(cfg, first + [LoadOf(cfg, 0)], ways);
    assert Breaker(cfg, ways)[..ways + 2] == first + [LoadOf(cfg, 0)] + [LoadOf(cfg, ways)];
    FirstStays(ways, cfg.numBlocks);
  }

  lemma FirstStays(n: nat, ways: nat)
    requires 0 < ways <= n
    ensures 0 in Resident(Upto(n), ways) <==> ways == n
    ensures n !in Resident(Upto(n), ways) && n !in Resident(Upto(n) + [0], ways)
  {
    assert Resident(Upto(n), ways)[0] == n - ways;
  }

  /** The last load hits with fewer ways, at least two, and misses with all. */
  lemma LastLoad(cfg: Config, ways: nat)
    requires Runnable(cfg) && cfg.replacement.Fifo? && 2 <= cfg.numBlocks <= ways < NumTags(cfg) && ways + 3 < TWO32
    ensures HitAt(cfg, Breaker(cfg, ways), ways + 2) <==> cfg.numBlocks < ways
  {
    BeforeTheLast(cfg, ways);
    HitsAreResident(cfg, Breaker(cfg, ways), ways + 2);
    TagAddressIs(cfg, 0);
    if cfg.numBlocks < ways {
      var h := Upto(ways) + [0] + [ways];
      assert Resident(h, cfg.numBlocks)[cfg.numBlocks - 2] == 0;
    } else {
      var r := Resident(Upto(ways) + [ways], ways);
      assert forall i | 0 <= i < |r| :: r[i] == i + 1;
    }
  }

  lemma FifoIsNotInclusive(small: Config, large: Config)
    requires Compared(small, large) && 2 <= small.numBlocks < large.numBlocks < NumTags(small)
    ensures var trace, n := Breaker(small, large.numBlocks), large.numBlocks + 2;
            n < |trace| < TWO32 && HitAt(small, trace, n) && !HitAt(large, trace, n)
  {
    FewTags(small);
    LastLoad(small, large.numBlocks);
    LastLoad(large, large.numBlocks);
    assert Breaker(large, large.numBlocks) == Breaker(small, large.numBlocks);
  }

  // ----- where it holds -----

  /** A single way holds its last fill, and so does any larger cache. */
  lemma {:induction false} LastFillIsShared(small: Config, large: Config, trace: seq<Access>, s: nat)
    requires Compared(small, large) && small.numBlocks == 1 && s < small.numSets
    ensures var h, h' := History(small, trace)[s], History(large, trace)[s];
            h == [] || h[|h| - 1] in Resident(h', large.numBlocks)
  {
    if trace != [] {
      var before, a := trace[..|trace| - 1], trace[|trace| - 1];
      LastFillIsShared(small, large, before, s);
      InsertIsResident(History(large, before)[s], large.numBlocks, Tag(large, a.address));
    }
  }

  lemma InsertIsResident(fills: seq<nat>, ways: nat, tag: nat)
    requires ways > 0
    ensures tag in Resident(Insert(fills, ways, tag, true), ways)
  {
    if tag !in Resident(fills, ways) {
      var r := Resident(fills + [tag], ways);
      assert r[|r| - 1] == tag;
    }
  }

  /** With a way for every tag nothing is evicted, and the fills include those of any cache. */
  lemma {:induction false} NothingIsEvicted(small: Config, large: Config, trace: seq<Access>, s: nat)
    requires Compared(small, large) && large.numBlocks >= NumTags(small) && s < small.numSets
    ensures var h, h' := History(small, trace)[s], History(large, trace)[s];
            && TagsBelow(h', NumTags(small)) && |h'| <= large.numBlocks
            && forall tag :: tag in h ==> tag in h'
  {
    if trace != [] {
      var before, a := trace[..|trace| - 1], trace[|trace| - 1];
      NothingIsEvicted(small, large, before, s);
      TagsAreBelow(small, a.address);
      NoMoreThanBound(History(large, trace)[s], NumTags(small));
    }
  }

  /** Exactly when every hit of a FIFO cache is a hit with more ways. */
  lemma FifoInclusionIsExact(small: Config, large: Config)
    requires Compared(small, large)
    ensures Inclusive(small, large) <==>
            small.numBlocks == large.numBlocks || small.numBlocks == 1 || large.numBlocks >= NumTags(small)
  {
    if small.numBlocks == large.numBlocks {
      assert small == large;
    } else if small.numBlocks == 1 || large.numBlocks >= NumTags(small) {
      forall trace, n | 0 <= n < |trace| && n < TWO32 && HitAt(small, trace, n) ensures HitAt(large, trace, n) {
        HitIsShared(small, large, trace, n);
      }
    } else {
      FifoIsNotInclusive(small, large);
    }
  }

  lemma HitIsShared(small: Config, large: Config, trace: seq<Access>, n: nat)
    requires Compared(small, large) && (small.numBlocks == 1 || large.numBlocks >= NumTags(small))
    requires n < |trace| && n < TWO32 && HitAt(small, trace, n)
    ensures HitAt(large, trace, n)
  {
    var s := Index(small, trace[n].address);
    HitsAreResident(small, trace, n);
    HitsAreResident(large, trace, n);
    if small.numBlocks == 1 {
      LastFillIsShared(small, large, trace[..n], s);
    } else {
      NothingIsEvicted(small, large, trace[..n], s);
    }
  }
}
