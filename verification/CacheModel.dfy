/** What a set-associative cache does on one access and over a whole trace, as functions on
    values.  The class in CacheSimulator is proved against these functions, and the laws in
    the other Cache modules are about them. */
module CacheModel {
  import opened Bits

  datatype Slot = Slot(tag: nat, valid: bool, lastUsed: nat, dirty: bool)

  datatype Allocation = WriteAllocate | NoWriteAllocate
  datatype WriteMode = WriteBack | WriteThrough
  datatype Replacement = Lru | Fifo

  datatype Config = Config(
    numSets: nat, numBlocks: nat, numBytes: nat,
    allocation: Allocation, mode: WriteMode, replacement: Replacement)

  datatype Operation = Load | Store | Other

  datatype Access = Access(op: Operation, address: u32)

  /** The configurations the program runs with: three powers of two, a block of at least 4
      bytes, and not no-write-allocate with write-back. */
  ghost predicate Accepted(cfg: Config) {
    && IsPow2(cfg.numSets) && IsPow2(cfg.numBlocks) && IsPow2(cfg.numBytes)
    && cfg.numBytes >= 4
    && !(cfg.allocation.NoWriteAllocate? && cfg.mode.WriteBack?)
    && cfg.numSets > 0 && cfg.numBlocks > 0
  }

  /** Index and offset bits together stay below the 32 of an address.  The program shifts by
      their sum, which is undefined from 32 on. */
  predicate Addressable(cfg: Config) {
    cfg.numSets * cfg.numBytes < TWO32
  }

  // ----- one set -----

  predicate Matches(slot: Slot, tag: nat) {
    slot.valid && slot.tag == tag
  }

  /** The first valid slot holding `tag`, or |row|. */
  function FindTag(row: seq<Slot>, tag: nat): (i: nat)
    ensures i <= |row|
    ensures i < |row| ==> Matches(row[i], tag)
    ensures forall j :: 0 <= j < i ==> !Matches(row[j], tag)
  {
    if row == [] then 0
    else if Matches(row[0], tag) then 0
    else
      var i := FindTag(row[1..], tag);
      assert forall j :: 1 <= j < 1 + i ==> row[j] == row[1..][j - 1];
      1 + i
  }

  /** The first invalid slot, or |row|. */
  function FirstInvalid(row: seq<Slot>): (i: nat)
    ensures i <= |row|
    ensures i < |row| ==> !row[i].valid
    ensures forall j :: 0 <= j < i ==> row[j].valid
  {
    if row == [] || !row[0].valid then 0
    else
      var i := FirstInvalid(row[1..]);
      assert forall j :: 1 <= j < 1 + i ==> row[j] == row[1..][j - 1];
      1 + i
  }

  lemma FirstInvalidIs(row: seq<Slot>, n: nat)
    requires n <= |row| && (n < |row| ==> !row[n].valid)
    requires forall j :: 0 <= j < n ==> row[j].valid
    ensures FirstInvalid(row) == n
  {
  }

  /** The first slot with the smallest time stamp. */
  function Oldest(row: seq<Slot>): (v: nat)
    requires row != []
    ensures v < |row|
    ensures forall j :: 0 <= j < |row| ==> row[v].lastUsed <= row[j].lastUsed
    ensures forall j :: 0 <= j < v ==> row[v].lastUsed < row[j].lastUsed
  {
    var last := |row| - 1;
    if last == 0 then 0
    else
      var v := Oldest(row[..last]);
      assert forall j :: 0 <= j < last ==> row[j] == row[..last][j];
      if row[last].lastUsed < row[v].lastUsed then last else v
  }

  function Victim(row: seq<Slot>): (v: nat)
    requires row != []
    ensures v < |row|
  {
    if FirstInvalid(row) < |row| then FirstInvalid(row) else Oldest(row)
  }

  datatype Outcome = Outcome(row: seq<Slot>, hit: bool, extra: nat)

  /** Moving a block between the cache and memory: 100 cycles for every 4 bytes. */
  function BlockCost(cfg: Config): (c: nat)
    ensures cfg.numBytes % 4 == 0 ==> c == 25 * cfg.numBytes
  {
    cfg.numBytes / 4 * 100
  }

  predicate Evicts(cfg: Config, row: seq<Slot>)
    requires row != []
  {
    FirstInvalid(row) == |row| && cfg.mode.WriteBack? && row[Victim(row)].dirty
  }

  /** One access to one set, at time `now`. */
  function AccessRow(cfg: Config, row: seq<Slot>, tag: nat, isStore: bool, now: nat): (r: Outcome)
    requires row != []
    ensures |r.row| == |row|
  {
    var i := FindTag(row, tag);
    if i < |row| then
      var stamp := if cfg.replacement.Lru? then now else row[i].lastUsed;
      var dirty := row[i].dirty || (isStore && cfg.mode.WriteBack?);
      Outcome(row[i := row[i].(lastUsed := stamp, dirty := dirty)], true, 0)
    else if isStore && cfg.allocation.NoWriteAllocate? then
      Outcome(row, false, 0)
    else
      var v := Victim(row);
      Outcome(row[v := Slot(tag, true, now, isStore && cfg.mode.WriteBack?)], false,
              if Evicts(cfg, row) then BlockCost(cfg) % TWO32 else 0)
  }

  // ----- the whole cache -----

  function Block(cfg: Config, address: nat): nat
    requires cfg.numBytes > 0
  {
    address / cfg.numBytes
  }

  function Index(cfg: Config, address: nat): (i: nat)
    requires cfg.numBytes > 0 && cfg.numSets > 0
    ensures i < cfg.numSets
  {
    Block(cfg, address) % cfg.numSets
  }

  function Tag(cfg: Config, address: nat): nat
    requires cfg.numBytes > 0 && cfg.numSets > 0
  {
    Block(cfg, address) / cfg.numSets
  }

  lemma DivideTwice(a: nat, d: nat, e: nat)
    requires d > 0 && e > 0
    ensures a / (e * d) == a / d / e
  {
    var q, r := a / d, a % d;
    var q2, r2 := q / e, q % e;
    assert a == d * q + r && q == e * q2 + r2;
    QuotientOfBoth(a, d, e, q2, r2, r);
  }

  lemma QuotientOfBoth(a: nat, d: nat, e: nat, q: nat, s: nat, r: nat)
    requires a == d * (e * q + s) + r && s < e && r < d
    ensures e * d > 0 && a / (e * d) == q
  {
    MulGap(d, s, e);
    Regroup(d, e, q, s, r);
    assert e * d == d * e;
    DivModUnique(a, e * d, q, d * s + r);
  }

  lemma Regroup(d: nat, e: nat, q: nat, s: nat, r: nat)
    ensures d * (e * q + s) + r == (e * d) * q + (d * s + r)
  {
  }

  /** A tag and an index together name exactly one block of memory. */
  lemma TagAndIndexNameTheBlock(cfg: Config, a: nat, b: nat)
    requires cfg.numBytes > 0 && cfg.numSets > 0
    ensures Block(cfg, a) * cfg.numBytes <= a < (Block(cfg, a) + 1) * cfg.numBytes
    ensures Block(cfg, a) == Tag(cfg, a) * cfg.numSets + Index(cfg, a)
    ensures (Tag(cfg, a) == Tag(cfg, b) && Index(cfg, a) == Index(cfg, b)) <==> Block(cfg, a) == Block(cfg, b)
  {
    var n := cfg.numSets;
    assert a == Block(cfg, a) * cfg.numBytes + a % cfg.numBytes;
    assert Block(cfg, a) == Block(cfg, a) / n * n + Block(cfg, a) % n;
    assert Block(cfg, b) == Block(cfg, b) / n * n + Block(cfg, b) % n;
  }

  /** Every set, and the 32-bit clock. */
  datatype State = State(sets: seq<seq<Slot>>, now: u32)

  predicate Shaped(cfg: Config, st: State) {
    && cfg.numBytes > 0 && cfg.numSets > 0 && cfg.numBlocks > 0
    && |st.sets| == cfg.numSets
    && forall s :: 0 <= s < |st.sets| ==> |st.sets[s]| == cfg.numBlocks
  }

  const EmptySlot: Slot := Slot(0, false, 0, false)

  function Initial(cfg: Config): (st: State)
    requires cfg.numBytes > 0 && cfg.numSets > 0 && cfg.numBlocks > 0
    ensures Shaped(cfg, st)
  {
    State(seq(cfg.numSets, s => seq(cfg.numBlocks, w => EmptySlot)), 0)
  }

  function Tick(now: u32): u32 {
    (now + 1) % TWO32
  }

  /** What the set of `address` answers in state `st`. */
  function Answer(cfg: Config, st: State, address: u32, isStore: bool): (r: Outcome)
    requires Shaped(cfg, st)
    ensures |r.row| == cfg.numBlocks
  {
    AccessRow(cfg, st.sets[Index(cfg, address)], Tag(cfg, address), isStore, Tick(st.now))
  }

  function Step(cfg: Config, st: State, a: Access): (st': State)
    requires Shaped(cfg, st)
    ensures Shaped(cfg, st')
  {
    if a.op.Other? then st
    else State(st.sets[Index(cfg, a.address) := Answer(cfg, st, a.address, a.op.Store?).row], Tick(st.now))
  }

  predicate Runnable(cfg: Config) {
    cfg.numBytes > 0 && cfg.numSets > 0 && cfg.numBlocks > 0
  }

  /** The state after a whole trace. */
  function Run(cfg: Config, trace: seq<Access>): (st: State)
    requires Runnable(cfg)
    ensures Shaped(cfg, st)
  {
    if trace == [] then Initial(cfg)
    else Step(cfg, Run(cfg, trace[..|trace| - 1]), trace[|trace| - 1])
  }

  predicate HitAt(cfg: Config, trace: seq<Access>, n: nat)
    requires Runnable(cfg) && n < |trace|
  {
    Answer(cfg, Run(cfg, trace[..n]), trace[n].address, trace[n].op.Store?).hit
  }

  // ----- what every access keeps -----

  ghost predicate Prefixed(row: seq<Slot>) {
    forall i, j :: 0 <= i < j < |row| && row[j].valid ==> row[i].valid
  }

  ghost predicate DistinctTags(row: seq<Slot>) {
    forall i, j :: 0 <= i < j < |row| && row[i].valid && row[j].valid ==> row[i].tag != row[j].tag
  }

  ghost predicate DistinctStamps(row: seq<Slot>) {
    forall i, j :: 0 <= i < j < |row| && row[i].valid && row[j].valid ==> row[i].lastUsed != row[j].lastUsed
  }

  ghost predicate NoStampAfter(row: seq<Slot>, now: nat) {
    forall i :: 0 <= i < |row| && row[i].valid ==> row[i].lastUsed <= now
  }

  ghost predicate Clean(row: seq<Slot>) {
    forall i :: 0 <= i < |row| ==> !row[i].dirty
  }

  /** What holds of a set whatever the clock does. */
  ghost predicate RowShape(cfg: Config, row: seq<Slot>) {
    && Prefixed(row) && DistinctTags(row)
    && (cfg.mode.WriteThrough? ==> Clean(row))
    && forall i :: 0 <= i < |row| && row[i].dirty ==> row[i].valid
  }

  ghost predicate RowOk(cfg: Config, row: seq<Slot>, now: nat) {
    RowShape(cfg, row) && DistinctStamps(row) && NoStampAfter(row, now)
  }

  lemma AccessKeepsRowShape(cfg: Config, row: seq<Slot>, tag: nat, isStore: bool, now: nat)
    requires row != [] && RowShape(cfg, row)
    ensures RowShape(cfg, AccessRow(cfg, row, tag, isStore, now).row)
  {
  }

  lemma AccessKeepsRowOk(cfg: Config, row: seq<Slot>, tag: nat, isStore: bool, now: nat)
    requires row != [] && now > 0 && RowOk(cfg, row, now - 1)
    ensures RowOk(cfg, AccessRow(cfg, row, tag, isStore, now).row, now)
  {
    AccessKeepsRowShape(cfg, row, tag, isStore, now);
  }

  lemma {:induction false} RunKeepsRowShape(cfg: Config, trace: seq<Access>)
    requires Runnable(cfg)
    ensures forall s :: 0 <= s < cfg.numSets ==> RowShape(cfg, Run(cfg, trace).sets[s])
  {
    if trace != [] {
      var before, a := trace[..|trace| - 1], trace[|trace| - 1];
      RunKeepsRowShape(cfg, before);
      if !a.op.Other? {
        var st := Run(cfg, before);
        AccessKeepsRowShape(cfg, st.sets[Index(cfg, a.address)], Tag(cfg, a.address), a.op.Store?, Tick(st.now));
      }
    }
  }

  /** Until the clock wraps, the valid slots of a set are a prefix with distinct tags and
      distinct stamps, none in the future. */
  lemma {:induction false} RunKeepsRowOk(cfg: Config, trace: seq<Access>)
    requires Runnable(cfg) && |trace| < TWO32
    ensures Run(cfg, trace).now <= |trace|
    ensures forall s :: 0 <= s < cfg.numSets ==> RowOk(cfg, Run(cfg, trace).sets[s], Run(cfg, trace).now)
  {
    if trace != [] {
      var before, a := trace[..|trace| - 1], trace[|trace| - 1];
      RunKeepsRowOk(cfg, before);
      if !a.op.Other? {
        var st := Run(cfg, before);
        AccessKeepsRowOk(cfg, st.sets[Index(cfg, a.address)], Tag(cfg, a.address), a.op.Store?, Tick(st.now));
      }
    }
  }
}
