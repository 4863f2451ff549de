/** Least-recently-used replacement.  The time stamps and the scan for the smallest one are a
    fast form of a list of tags kept in order of recency; a larger cache keeps the order of a
    smaller one, so it hits whenever the smaller one does. */
module CacheLru {
  import opened Bits
  import opened CacheModel

  // ----- lists without repetition -----

  ghost predicate Distinct(s: seq<nat>) {
    forall i, j :: 0 <= i < j < |s| ==> s[i] != s[j]
  }

  function Without(s: seq<nat>, x: nat): (r: seq<nat>)
    ensures forall y :: y in r <==> y in s && y != x
    ensures Distinct(s) ==> Distinct(r)
    ensures |r| <= |s|
  {
    if s == [] then []
    else if s[0] == x then Without(s[1..], x)
    else
      DistinctCons(s[0], Without(s[1..], x));
      [s[0]] + Without(s[1..], x)
  }

  lemma DistinctCons(x: nat, s: seq<nat>)
    ensures x !in s && Distinct(s) ==> Distinct([x] + s)
  {
    if x !in s && Distinct(s) {
      forall i, j | 0 <= i < j < |s| + 1 ensures ([x] + s)[i] != ([x] + s)[j] {
        if i > 0 { assert s[i - 1] != s[j - 1]; }
      }
    }
  }

  lemma {:induction false} WithoutAt(s: seq<nat>, p: nat)
    requires Distinct(s) && p < |s|
    ensures Without(s, s[p]) == s[..p] + s[p + 1..]
  {
    if p == 0 {
      WithoutAbsent(s[1..], s[0]);
    } else {
      WithoutAt(s[1..], p - 1);
    }
  }

  lemma {:induction false} WithoutAbsent(s: seq<nat>, x: nat)
    requires x !in s
    ensures Without(s, x) == s
  {
    if s != [] {
      WithoutAbsent(s[1..], x);
    }
  }

  function Most(s: seq<nat>, n: nat): seq<nat> {
    if |s| <= n then s else s[..n]
  }

  // ----- the recency list -----

  /** One access to a list of tags, most recent first. */
  function Touch(list: seq<nat>, ways: nat, tag: nat, allocates: bool): (r: seq<nat>)
    requires ways > 0
  {
    if tag in list then [tag] + Without(list, tag)
    else if !allocates then list
    else if |list| < ways then [tag] + list
    else [tag] + list[..|list| - 1]
  }

  lemma TouchKeepsDistinct(list: seq<nat>, ways: nat, tag: nat, allocates: bool)
    requires ways > 0 && Distinct(list) && |list| <= ways
    ensures Distinct(Touch(list, ways, tag, allocates))
    ensures |Touch(list, ways, tag, allocates)| <= ways
    ensures tag in list ==> |Touch(list, ways, tag, allocates)| == |list|
  {
    if tag in list {
      var p :| 0 <= p < |list| && list[p] == tag;
      WithoutAt(list, p);
    }
  }

  predicate Allocates(cfg: Config, a: Access) {
    !(a.op.Store? && cfg.allocation.NoWriteAllocate?)
  }

  function TouchAll(cfg: Config, lists: seq<seq<nat>>, a: Access): (r: seq<seq<nat>>)
    requires Runnable(cfg) && |lists| == cfg.numSets
    ensures |r| == cfg.numSets
  {
    if a.op.Other? then lists
    else
      var s := Index(cfg, a.address);
      lists[s := Touch(lists[s], cfg.numBlocks, Tag(cfg, a.address), Allocates(cfg, a))]
  }

  /** The recency list of every set after a trace. */
  function Lists(cfg: Config, trace: seq<Access>): (r: seq<seq<nat>>)
    requires Runnable(cfg)
    ensures |r| == cfg.numSets
  {
    if trace == [] then seq(cfg.numSets, s => [])
    else TouchAll(cfg, Lists(cfg, trace[..|trace| - 1]), trace[|trace| - 1])
  }

  lemma {:induction false} ListsStayDistinct(cfg: Config, trace: seq<Access>, s: nat)
    requires Runnable(cfg) && s < cfg.numSets
    ensures Distinct(Lists(cfg, trace)[s]) && |Lists(cfg, trace)[s]| <= cfg.numBlocks
  {
    if trace != [] {
      var before, a := trace[..|trace| - 1], trace[|trace| - 1];
      ListsStayDistinct(cfg, before, s);
      TouchKeepsDistinct(Lists(cfg, before)[s], cfg.numBlocks, Tag(cfg, a.address), Allocates(cfg, a));
    }
  }

  // ----- time stamps refine the list -----

  /** `ord` lists the valid slots of `row` from the most to the least recent stamp. */
  ghost predicate Orders(row: seq<Slot>, ord: seq<nat>) {
    && |ord| == FirstInvalid(row)
    && (forall p :: 0 <= p < |ord| ==> ord[p] < |ord|)
    && (forall i :: 0 <= i < |ord| ==> i in ord)
    && (forall p, q :: 0 <= p < q < |ord| ==> row[ord[p]].lastUsed > row[ord[q]].lastUsed)
  }

  function TagsOf(row: seq<Slot>, ord: seq<nat>): (r: seq<nat>)
    requires forall p :: 0 <= p < |ord| ==> ord[p] < |row|
    ensures |r| == |ord|
  {
    seq(|ord|, p requires 0 <= p < |ord| => row[ord[p]].tag)
  }

  ghost predicate Represents(row: seq<Slot>, list: seq<nat>) {
    exists ord :: Orders(row, ord) && list == TagsOf(row, ord)
  }

  lemma HitIsMembership(row: seq<Slot>, ord: seq<nat>, tag: nat)
    requires Prefixed(row) && Orders(row, ord)
    ensures FindTag(row, tag) < |row| <==> tag in TagsOf(row, ord)
  {
    var i := FindTag(row, tag);
    if i < |row| {
      assert i in ord;
      var p :| 0 <= p < |ord| && ord[p] == i;
      assert TagsOf(row, ord)[p] == tag;
    }
    if tag in TagsOf(row, ord) {
      var p :| 0 <= p < |ord| && TagsOf(row, ord)[p] == tag;
      assert Matches(row[ord[p]], tag);
    }
  }

  /** The slot scanned out as the oldest is the one at the tail of the list. */
  lemma OldestIsTail(row: seq<Slot>, ord: seq<nat>)
    requires row != [] && Orders(row, ord) && FirstInvalid(row) == |row|
    ensures Oldest(row) == ord[|ord| - 1]
  {
    var v := Oldest(row);
    assert v in ord;
    var p :| 0 <= p < |ord| && ord[p] == v;
    assert row[v].lastUsed <= row[ord[|ord| - 1]].lastUsed;
  }

  lemma OrdIsDistinct(row: seq<Slot>, ord: seq<nat>)
    requires Orders(row, ord)
    ensures Distinct(ord)
    ensures DistinctTags(row) ==> Distinct(TagsOf(row, ord))
  {
    assert forall a, b | 0 <= a < b < |ord| :: ord[a] != ord[b];
    if DistinctTags(row) {
      forall a, b | 0 <= a < b < |ord| ensures TagsOf(row, ord)[a] != TagsOf(row, ord)[b] {
        assert row[ord[a]].valid && row[ord[b]].valid && ord[a] != ord[b];
      }
    }
  }

  /** Giving the slot at position `p` of the order the newest stamp moves it to the front. */
  lemma Restamped(row: seq<Slot>, ord: seq<nat>, p: nat, row': seq<Slot>, ord': seq<nat>)
    requires Orders(row, ord) && p < |ord| && |row'| == |row|
    requires ord' == [ord[p]] + ord[..p] + ord[p + 1..]
    requires forall j :: 0 <= j < |row| && j != ord[p] ==> row'[j] == row[j]
    requires row'[ord[p]].valid
    requires forall q :: 0 <= q < |ord| && q != p ==> row'[ord[p]].lastUsed > row[ord[q]].lastUsed
    ensures Orders(row', ord')
  {
    FirstInvalidIs(row', |ord|);
    OrdIsDistinct(row, ord);
    forall j | 0 <= j < |ord| ensures j in ord' {
      var q := IndexIn(ord, j);
      MovedFrom(ord, p, ord', if q < p then q + 1 else if q == p then 0 else q);
    }
    forall a | 0 <= a < |ord'| ensures ord'[a] < |ord'| {
      MovedFrom(ord, p, ord', a);
    }
    forall a, b | 0 <= a < b < |ord'| ensures row'[ord'[a]].lastUsed > row'[ord'[b]].lastUsed {
      MovedFrom(ord, p, ord', a);
      MovedFrom(ord, p, ord', b);
    }
  }

  /** Where a position of the new order was in the old one. */
  function Before(p: nat, a: nat): nat {
    if a == 0 then p else if a <= p then a - 1 else a
  }

  lemma MovedFrom(ord: seq<nat>, p: nat, ord': seq<nat>, a: nat)
    requires p < |ord| && ord' == [ord[p]] + ord[..p] + ord[p + 1..] && a < |ord|
    ensures |ord'| == |ord| && Before(p, a) < |ord| && ord'[a] == ord[Before(p, a)]
    ensures a > 0 ==> Before(p, a) != p
  {
  }

  lemma RestampedTags(row: seq<Slot>, ord: seq<nat>, p: nat, row': seq<Slot>, ord': seq<nat>)
    requires Orders(row, ord) && p < |ord| && |row'| == |row|
    requires ord' == [ord[p]] + ord[..p] + ord[p + 1..]
    requires forall j :: 0 <= j < |row| && j != ord[p] ==> row'[j] == row[j]
    ensures var tags := TagsOf(row, ord);
            && (forall q :: 0 <= q < |ord'| ==> ord'[q] < |row'|)
            && TagsOf(row', ord') == [row'[ord[p]].tag] + tags[..p] + tags[p + 1..]
  {
    OrdIsDistinct(row, ord);
    var tags := TagsOf(row, ord);
    var tags' := [row'[ord[p]].tag] + tags[..p] + tags[p + 1..];
    forall q | 0 <= q < |ord'| ensures ord'[q] < |row'| && row'[ord'[q]].tag == tags'[q] {
      MovedFrom(ord, p, ord', q);
      if q != 0 {
        assert tags'[q] == tags[Before(p, q)];
      }
    }
  }

  lemma HitRefines(row: seq<Slot>, ord: seq<nat>, tag: nat, row': seq<Slot>, now: nat)
    requires Prefixed(row) && DistinctTags(row) && NoStampAfter(row, now) && Orders(row, ord)
    requires FindTag(row, tag) < |row| == |row'|
    requires var i := FindTag(row, tag);
             && row' == row[i := row'[i]] && Matches(row'[i], tag) && row'[i].lastUsed > now
    ensures Represents(row', [tag] + Without(TagsOf(row, ord), tag))
  {
    var i := FindTag(row, tag);
    assert i in ord;
    var p := IndexIn(ord, i);
    OrdIsDistinct(row, ord);
    NotNewer(row, ord, now);
    MovedToFront(row, ord, p, row', now);
    WithoutAt(TagsOf(row, ord), p);
    assert [tag] + TagsOf(row, ord)[..p] + TagsOf(row, ord)[p + 1..] == [tag] + Without(TagsOf(row, ord), tag);
  }

  lemma FillRefines(row: seq<Slot>, ord: seq<nat>, tag: nat, row': seq<Slot>, now: nat)
    requires row != [] && Prefixed(row) && NoStampAfter(row, now) && Orders(row, ord)
    requires tag !in TagsOf(row, ord) && |row'| == |row|
    requires var v := Victim(row);
             && row' == row[v := row'[v]] && Matches(row'[v], tag) && row'[v].lastUsed > now
    ensures Represents(row', Touch(TagsOf(row, ord), |row|, tag, true))
  {
    if |ord| < |row| {
      FillEmpty(row, ord, tag, row', now);
    } else {
      FillOldest(row, ord, tag, row', now);
    }
  }

  lemma FillEmpty(row: seq<Slot>, ord: seq<nat>, tag: nat, row': seq<Slot>, now: nat)
    requires |ord| < |row| == |row'| && Prefixed(row) && NoStampAfter(row, now) && Orders(row, ord)
    requires var n := |ord|; row' == row[n := row'[n]] && Matches(row'[n], tag) && row'[n].lastUsed > now
    ensures Represents(row', [tag] + TagsOf(row, ord))
  {
    var n := |ord|;
    var ord' := [n] + ord;
    FirstInvalidIs(row', n + 1);
    forall j | 0 <= j <= n ensures j in ord' {
      assert ord'[if j < n then 1 + IndexIn(ord, j) else 0] == j;
    }
    assert Orders(row', ord');
    assert TagsOf(row', ord') == [tag] + TagsOf(row, ord);
  }

  lemma FillOldest(row: seq<Slot>, ord: seq<nat>, tag: nat, row': seq<Slot>, now: nat)
    requires |ord| == |row| == |row'| > 0 && NoStampAfter(row, now) && Orders(row, ord)
    requires var v := Oldest(row); row' == row[v := row'[v]] && Matches(row'[v], tag) && row'[v].lastUsed > now
    ensures Represents(row', [tag] + TagsOf(row, ord)[..|ord| - 1])
  {
    var n := |ord|;
    OldestIsTail(row, ord);
    NotNewer(row, ord, now);
    MovedToFront(row, ord, n - 1, row', now);
    assert TagsOf(row, ord)[n..] == [];
  }

  lemma NotNewer(row: seq<Slot>, ord: seq<nat>, now: nat)
    requires NoStampAfter(row, now) && Orders(row, ord)
    ensures forall q :: 0 <= q < |ord| ==> row[ord[q]].lastUsed <= now
  {
  }

  lemma MovedToFront(row: seq<Slot>, ord: seq<nat>, p: nat, row': seq<Slot>, now: nat)
    requires Orders(row, ord) && p < |ord| && |row'| == |row|
    requires forall j :: 0 <= j < |row| && j != ord[p] ==> row'[j] == row[j]
    requires row'[ord[p]].valid && row'[ord[p]].lastUsed > now
    requires forall q :: 0 <= q < |ord| ==> row[ord[q]].lastUsed <= now
    ensures var tags := TagsOf(row, ord);
            Represents(row', [row'[ord[p]].tag] + tags[..p] + tags[p + 1..])
  {
    var ord' := [ord[p]] + ord[..p] + ord[p + 1..];
    Restamped(row, ord, p, row', ord');
    RestampedTags(row, ord, p, row', ord');
  }

  ghost function IndexIn(s: seq<nat>, x: nat): (p: nat)
    requires x in s
    ensures p < |s| && s[p] == x
  {
    var p :| 0 <= p < |s| && s[p] == x; p
  }

  /** Every access to a set acts on its recency list as `Touch`, and hits exactly on the tags in
      the list. */
  lemma RowRefines(cfg: Config, row: seq<Slot>, list: seq<nat>, tag: nat, isStore: bool, now: nat)
    requires cfg.replacement.Lru? && row != [] && now > 0
    requires RowOk(cfg, row, now - 1) && Represents(row, list)
    ensures var r := AccessRow(cfg, row, tag, isStore, now);
            && r.hit == (tag in list)
            && Represents(r.row, Touch(list, |row|, tag, !(isStore && cfg.allocation.NoWriteAllocate?)))
  {
    var ord :| Orders(row, ord) && list == TagsOf(row, ord);
    var row' := AccessRow(cfg, row, tag, isStore, now).row;
    HitIsMembership(row, ord, tag);
    if tag in list {
      HitRefines(row, ord, tag, row', now - 1);
    } else if !(isStore && cfg.allocation.NoWriteAllocate?) {
      FillRefines(row, ord, tag, row', now - 1);
    }
  }

  /** After every trace the time stamps of each set order its slots as the abstract list does. */
  lemma {:induction false} StampsRefineRecency(cfg: Config, trace: seq<Access>)
    requires Runnable(cfg) && cfg.replacement.Lru? && |trace| < TWO32
    ensures forall s :: 0 <= s < cfg.numSets ==> Represents(Run(cfg, trace).sets[s], Lists(cfg, trace)[s])
  {
    if trace == [] {
      forall s | 0 <= s < cfg.numSets ensures Represents(Run(cfg, trace).sets[s], Lists(cfg, trace)[s]) {
        assert Orders(Run(cfg, trace).sets[s], []);
        assert Lists(cfg, trace)[s] == TagsOf(Run(cfg, trace).sets[s], []);
      }
    } else {
      var before, a := trace[..|trace| - 1], trace[|trace| - 1];
      StampsRefineRecency(cfg, before);
      RunKeepsRowOk(cfg, before);
      if !a.op.Other? {
        var st, s := Run(cfg, before), Index(cfg, a.address);
        RowRefines(cfg, st.sets[s], Lists(cfg, before)[s], Tag(cfg, a.address), a.op.Store?, Tick(st.now));
      }
    }
  }

  /** An access hits exactly when its tag is in the recency list of its set. */
  lemma HitsAreRecent(cfg: Config, trace: seq<Access>, n: nat)
    requires Runnable(cfg) && cfg.replacement.Lru? && n < |trace| && n < TWO32
    ensures HitAt(cfg, trace, n) <==>
            Tag(cfg, trace[n].address) in Lists(cfg, trace[..n])[Index(cfg, trace[n].address)]
  {
    StampsRefineRecency(cfg, trace[..n]);
    RunKeepsRowOk(cfg, trace[..n]);
    var s := Index(cfg, trace[n].address);
    var row := Run(cfg, trace[..n]).sets[s];
    var ord :| Orders(row, ord) && Lists(cfg, trace[..n])[s] == TagsOf(row, ord);
    HitIsMembership(row, ord, Tag(cfg, trace[n].address));
  }

  // ----- with write-allocate a set holds the most recent distinct blocks -----

  /** The distinct tags accessed in set `s`, most recent first. */
  function Recent(cfg: Config, trace: seq<Access>, s: nat): seq<nat>
    requires Runnable(cfg)
  {
    if trace == [] then []
    else
      var a := trace[|trace| - 1];
      var earlier := Recent(cfg, trace[..|trace| - 1], s);
      if a.op.Other? || Index(cfg, a.address) != s then earlier
      else [Tag(cfg, a.address)] + Without(earlier, Tag(cfg, a.address))
  }

  lemma {:induction false} RecentIsDistinct(cfg: Config, trace: seq<Access>, s: nat)
    requires Runnable(cfg)
    ensures Distinct(Recent(cfg, trace, s))
  {
    if trace != [] {
      var earlier, tag := Recent(cfg, trace[..|trace| - 1], s), Tag(cfg, trace[|trace| - 1].address);
      RecentIsDistinct(cfg, trace[..|trace| - 1], s);
      DistinctCons(tag, Without(earlier, tag));
    }
  }

  lemma MostTouched(list: seq<nat>, ways: nat, tag: nat)
    requires ways > 0 && Distinct(list)
    ensures Touch(Most(list, ways), ways, tag, true) == Most([tag] + Without(list, tag), ways)
  {
    if tag !in list {
      WithoutAbsent(list, tag);
    } else {
      MostTouchedHit(list, ways, IndexIn(list, tag));
    }
  }

  lemma MostTouchedHit(list: seq<nat>, ways: nat, p: nat)
    requires ways > 0 && Distinct(list) && p < |list|
    ensures Touch(Most(list, ways), ways, list[p], true) == Most([list[p]] + Without(list, list[p]), ways)
  {
    var m, tag, rest := Most(list, ways), list[p], list[..p] + list[p + 1..];
    WithoutAt(list, p);
    MostCons(tag, rest, ways);
    if p < |m| {
      TouchAt(list, ways, p);
    } else {
      MostBeyond(list, ways, p);
      NotAmongMost(list, ways, p);
    }
  }

  lemma TouchAt(list: seq<nat>, ways: nat, p: nat)
    requires Distinct(list) && p < |Most(list, ways)|
    ensures Touch(Most(list, ways), ways, list[p], true)
            == [list[p]] + Most(list[..p] + list[p + 1..], ways - 1)
  {
    var m := Most(list, ways);
    assert m[p] == list[p];
    WithoutAt(m, p);
    MostShift(list, ways, p);
  }

  lemma NotAmongMost(list: seq<nat>, ways: nat, p: nat)
    requires Distinct(list) && ways <= p < |list|
    ensures list[p] !in Most(list, ways)
  {
    assert forall q | 0 <= q < ways :: Most(list, ways)[q] == list[q] && q != p;
  }

  lemma MostCons(x: nat, s: seq<nat>, ways: nat)
    requires ways > 0
    ensures Most([x] + s, ways) == [x] + Most(s, ways - 1)
  {
  }

  lemma MostBeyond(list: seq<nat>, ways: nat, p: nat)
    requires 0 < ways <= p < |list|
    ensures Most(list[..p] + list[p + 1..], ways - 1) == list[..ways - 1] == Most(list, ways)[..ways - 1]
  {
  }

  lemma MostShift(list: seq<nat>, ways: nat, p: nat)
    requires p < |list| && p < ways
    ensures var m := Most(list, ways);
            m[..p] + m[p + 1..] == Most(list[..p] + list[p + 1..], ways - 1)
  {
  }

  lemma {:induction false} ListIsMostRecent(cfg: Config, trace: seq<Access>, s: nat)
    requires Runnable(cfg) && cfg.allocation.WriteAllocate? && s < cfg.numSets
    ensures Lists(cfg, trace)[s] == Most(Recent(cfg, trace, s), cfg.numBlocks)
  {
    if trace != [] {
      var before, a := trace[..|trace| - 1], trace[|trace| - 1];
      ListIsMostRecent(cfg, before, s);
      RecentIsDistinct(cfg, before, s);
      MostTouched(Recent(cfg, before, s), cfg.numBlocks, Tag(cfg, a.address));
    }
  }

  /** Under LRU and write-allocate the valid slots of a set hold exactly its most recent distinct
      blocks, as many as it has ways. */
  lemma SetHoldsMostRecent(cfg: Config, trace: seq<Access>, s: nat)
    requires Runnable(cfg) && cfg.replacement.Lru? && cfg.allocation.WriteAllocate?
    requires |trace| < TWO32 && s < cfg.numSets
    ensures var row, recent := Run(cfg, trace).sets[s], Most(Recent(cfg, trace, s), cfg.numBlocks);
            && FirstInvalid(row) == |recent|
            && forall tag :: FindTag(row, tag) < |row| <==> tag in recent
  {
    StampsRefineRecency(cfg, trace);
    RunKeepsRowOk(cfg, trace);
    ListIsMostRecent(cfg, trace, s);
    var row := Run(cfg, trace).sets[s];
    var ord :| Orders(row, ord) && Lists(cfg, trace)[s] == TagsOf(row, ord);
    forall tag ensures FindTag(row, tag) < |row| <==> tag in Lists(cfg, trace)[s] {
      HitIsMembership(row, ord, tag);
    }
  }

  // ----- inclusion -----

  /** `s` is a subsequence of `l`. */
  predicate Sub(s: seq<nat>, l: seq<nat>) {
    if s == [] then true
    else if l == [] then false
    else if s[0] == l[0] then Sub(s[1..], l[1..])
    else Sub(s, l[1..])
  }

  lemma {:induction false} SubMembers(s: seq<nat>, l: seq<nat>, x: nat)
    requires Sub(s, l) && x in s
    ensures x in l
  {
    if s[0] == l[0] {
      if x != s[0] { SubMembers(s[1..], l[1..], x); }
    } else {
      SubMembers(s, l[1..], x);
    }
  }

  lemma {:induction false} SubTail(s: seq<nat>, l: seq<nat>)
    requires l != [] && Sub(s, l[1..])
    ensures Sub(s, l)
    decreases |l|, 0
  {
    if s != [] && s[0] == l[0] {
      SubWeaken(s, l[1..]);
    }
  }

  lemma {:induction false} SubWeaken(s: seq<nat>, l: seq<nat>)
    requires s != [] && Sub(s, l)
    ensures Sub(s[1..], l)
    decreases |l|, 1
  {
    SubTail(s[1..], l) by {
      if s[0] != l[0] { SubWeaken(s, l[1..]); }
    }
  }

  lemma {:induction false} SubWithout(s: seq<nat>, l: seq<nat>, x: nat)
    requires Sub(s, l)
    ensures Sub(Without(s, x), Without(l, x))
  {
    if s != [] {
      if s[0] == l[0] {
        SubWithout(s[1..], l[1..], x);
      } else {
        SubWithout(s, l[1..], x);
        if l[0] != x {
          SubTail(Without(s, x), Without(l, x));
        }
      }
    }
  }

  lemma {:induction false} SubDropLast(s: seq<nat>, l: seq<nat>)
    requires Sub(s, l) && s != []
    ensures l != [] && Sub(s[..|s| - 1], l[..|l| - 1])
  {
    var s', l' := s[..|s| - 1], l[..|l| - 1];
    if |s| > 1 {
      if s[0] == l[0] {
        SubDropLast(s[1..], l[1..]);
        assert s'[1..] == s[1..][..|s| - 2] && l'[1..] == l[1..][..|l| - 2];
      } else {
        SubDropLast(s, l[1..]);
        assert l'[1..] == l[1..][..|l| - 2];
      }
    }
  }

  lemma {:induction false} SubTake(s: seq<nat>, l: seq<nat>)
    requires Sub(s, l) && s != []
    ensures Sub(s[..|s| - 1], l)
  {
    if |s| > 1 {
      if s[0] == l[0] {
        SubTake(s[1..], l[1..]);
        assert s[..|s| - 1][1..] == s[1..][..|s| - 2];
      } else {
        SubTake(s, l[1..]);
      }
    }
  }

  /** The small list keeps the order of the large one, and equals it until it is full. */
  ghost predicate Nested(small: seq<nat>, k: nat, large: seq<nat>, k': nat) {
    && Sub(small, large)
    && |small| <= k <= k' && |large| <= k'
    && (|small| < k ==> small == large)
    && Distinct(small) && Distinct(large)
  }

  lemma TouchKeepsNested(small: seq<nat>, k: nat, large: seq<nat>, k': nat, tag: nat, allocates: bool)
    requires k > 0 && Nested(small, k, large, k')
    ensures tag in small ==> tag in large
    ensures Nested(Touch(small, k, tag, allocates), k, Touch(large, k', tag, allocates), k')
  {
    TouchKeepsDistinct(small, k, tag, allocates);
    TouchKeepsDistinct(large, k', tag, allocates);
    SubWithout(small, large, tag);
    if tag in small {
      SubMembers(small, large, tag);
      assert [tag] + Without(small, tag) == Touch(small, k, tag, allocates);
    } else {
      WithoutAbsent(small, tag);
      if |small| == k {
        SubDropLast(small, large);
        SubTake(small, Without(large, tag));
        SubTake(small, large);
      }
    }
  }

  lemma {:induction false} ListsNest(small: Config, large: Config, trace: seq<Access>, s: nat)
    requires Runnable(small) && Runnable(large) && s < small.numSets
    requires small.numBlocks <= large.numBlocks && large == small.(numBlocks := large.numBlocks)
    ensures Nested(Lists(small, trace)[s], small.numBlocks, Lists(large, trace)[s], large.numBlocks)
  {
    if trace != [] {
      var before, a := trace[..|trace| - 1], trace[|trace| - 1];
      ListsNest(small, large, before, s);
      TouchKeepsNested(Lists(small, before)[s], small.numBlocks, Lists(large, before)[s], large.numBlocks,
                       Tag(small, a.address), Allocates(small, a));
    }
  }

  /** LRU inclusion: with the same sets, blocks and policies, every access that hits with k
      ways also hits with any larger number of ways. */
  lemma LruInclusion(small: Config, large: Config, trace: seq<Access>, n: nat)
    requires Runnable(small) && Runnable(large) && small.replacement.Lru?
    requires small.numBlocks <= large.numBlocks && large == small.(numBlocks := large.numBlocks)
    requires n < |trace| && n < TWO32
    ensures HitAt(small, trace, n) ==> HitAt(large, trace, n)
  {
    var a := trace[n];
    var s := Index(small, a.address);
    HitsAreRecent(small, trace, n);
    HitsAreRecent(large, trace, n);
    ListsNest(small, large, trace[..n], s);
    if HitAt(small, trace, n) {
      SubMembers(Lists(small, trace[..n])[s], Lists(large, trace[..n])[s], Tag(small, a.address));
    }
  }
}
