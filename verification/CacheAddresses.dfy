/** The tags a 32-bit address can have in a given cache, and an address for each. */
module CacheAddresses {
  import opened Bits
  import opened CacheModel

  /** How many tags there are. */
  function NumTags(cfg: Config): nat
    requires Runnable(cfg)
  {
    assert cfg.numSets * cfg.numBytes > 0;
    TWO32 / (cfg.numSets * cfg.numBytes)
  }

  /** The first address of set 0 with this tag. */
  function TagAddress(cfg: Config, tag: nat): nat {
    tag * (cfg.numSets * cfg.numBytes)
  }

  lemma TagAddressIs(cfg: Config, tag: nat)
    requires Runnable(cfg)
    ensures Index(cfg, TagAddress(cfg, tag)) == 0 && Tag(cfg, TagAddress(cfg, tag)) == tag
  {
    var a := TagAddress(cfg, tag);
    assert a == cfg.numBytes * (cfg.numSets * tag) + 0;
    DivModUnique(a, cfg.numBytes, cfg.numSets * tag, 0);
    DivModUnique(cfg.numSets * tag, cfg.numSets, tag, 0);
  }

  lemma TagAddressFits(cfg: Config, tag: nat)
    requires Runnable(cfg) && tag < NumTags(cfg)
    ensures TagAddress(cfg, tag) < TWO32
  {
    var p := cfg.numSets * cfg.numBytes;
    assert TWO32 == p * NumTags(cfg) + TWO32 % p;
    MulGap(p, tag, NumTags(cfg));
  }

  /** A load of the block with this tag in set 0. */
  function LoadOf(cfg: Config, tag: nat): Access
    requires Runnable(cfg) && tag < NumTags(cfg)
  {
    TagAddressFits(cfg, tag);
    Access(Load, TagAddress(cfg, tag))
  }

  /** In an accepted configuration the sizes divide the address space evenly. */
  lemma TagsAreBelow(cfg: Config, address: u32)
    requires Accepted(cfg) && Addressable(cfg)
    ensures Tag(cfg, address) < NumTags(cfg)
  {
    var p := cfg.numSets * cfg.numBytes;
    EvenlyDivided(cfg);
    DivideTwice(address, cfg.numBytes, cfg.numSets);
    assert address == p * (address / p) + address % p;
    if address / p >= NumTags(cfg) {
      MulLe(p, NumTags(cfg), address / p);
    }
  }

  lemma EvenlyDivided(cfg: Config)
    requires Accepted(cfg) && Addressable(cfg)
    ensures (cfg.numSets * cfg.numBytes) * NumTags(cfg) == TWO32 && NumTags(cfg) >= 2
  {
    var i: nat :| cfg.numSets == Pow2(i);
    var j: nat :| cfg.numBytes == Pow2(j);
    Pow2Add(i, j);
    Pow2Of32();
    if i + j > 32 {
      Pow2Strict(32, i + j);
    }
    Pow2Add(i + j, 32 - (i + j));
    DivModUnique(TWO32, Pow2(i + j), Pow2(32 - (i + j)), 0);
  }

  ghost predicate TagsBelow(fills: seq<nat>, bound: nat) {
    && (forall i :: 0 <= i < |fills| ==> fills[i] < bound)
    && (forall i, j :: 0 <= i < j < |fills| ==> fills[i] != fills[j])
  }

  /** Distinct tags below a bound are no more than the bound. */
  lemma {:induction false} NoMoreThanBound(fills: seq<nat>, bound: nat)
    requires TagsBelow(fills, bound)
    ensures |fills| <= bound
    decreases bound
  {
    assert fills != [] ==> fills[0] < bound;
    if bound > 0 {
      if top :| 0 <= top < |fills| && fills[top] == bound - 1 {
        NoMoreThanBound(fills[..top] + fills[top + 1..], bound - 1);
      } else {
        NoMoreThanBound(fills, bound - 1);
      }
    }
  }

  lemma FewTags(cfg: Config)
    requires Accepted(cfg) && Addressable(cfg)
    ensures NumTags(cfg) + 3 < TWO32
  {
    var p := cfg.numSets * cfg.numBytes;
    EvenlyDivided(cfg);
    assert p >= 4 by { MulLe(cfg.numBytes, 1, cfg.numSets); }
    MulLe(NumTags(cfg), 4, p);
  }
}
