/** What the dirty bit is for.  The simulator keeps no data; here every slot is given the
    contents of its block and there is a memory, written only where the simulator charges for
    a memory write.  Every load then sees the last value stored. */
module CacheData {
  import opened Bits
  import opened CacheModel

  type Bytes = nat -> int

  /** The simulated cache, the contents held in each slot, and memory. */
  datatype Machine = Machine(st: State, data: seq<seq<Bytes>>, memory: Bytes)

  /** One access of a program, with the value it stores if it is a store. */
  datatype Event = Event(access: Access, value: int)

  function Put(m: Bytes, address: nat, value: int): (r: Bytes)
    ensures r(address) == value && forall a: nat :: a != address ==> r(a) == m(a)
  {
    (a: nat) => if a == address then value else m(a)
  }

  predicate InBlock(cfg: Config, a: nat, s: nat, tag: nat)
    requires Runnable(cfg)
  {
    Index(cfg, a) == s && Tag(cfg, a) == tag
  }

  /** Memory after the block (s, tag) has been written back from `data`. */
  function WriteBlock(cfg: Config, m: Bytes, data: Bytes, s: nat, tag: nat): Bytes
    requires Runnable(cfg)
  {
    (a: nat) => if InBlock(cfg, a, s, tag) then data(a) else m(a)
  }

  function Held(blocks: seq<Bytes>, i: nat, block: Bytes): (r: seq<Bytes>)
    requires i < |blocks|
  {
    blocks[..i] + [block] + blocks[i + 1..]
  }

  ghost predicate Fits(cfg: Config, m: Machine) {
    && Shaped(cfg, m.st) && |m.data| == cfg.numSets
    && (forall s :: 0 <= s < cfg.numSets ==> |m.data[s]| == cfg.numBlocks)
  }

  /** Memory after the eviction, if any, that a miss in set `s` causes. */
  function Flushed(cfg: Config, m: Machine, s: nat): Bytes
    requires Fits(cfg, m) && s < cfg.numSets
  {
    var row := m.st.sets[s];
    if Evicts(cfg, row) then WriteBlock(cfg, m.memory, m.data[s][Victim(row)], s, row[Victim(row)].tag)
    else m.memory
  }

  function DataStep(cfg: Config, m: Machine, e: Event): (m': Machine)
    requires Fits(cfg, m)
    ensures Fits(cfg, m')
  {
    if e.access.op.Other? then m
    else
      var address, isStore := e.access.address, e.access.op.Store?;
      var s, tag := Index(cfg, address), Tag(cfg, address);
      var row, st' := m.st.sets[s], Step(cfg, m.st, e.access);
      var i, v := FindTag(row, tag), Victim(row);
      var through := isStore && cfg.mode.WriteThrough?;
      if i < |row| then
        var block: Bytes := if isStore then Put(m.data[s][i], address, e.value) else m.data[s][i];
        Machine(st', m.data[s := Held(m.data[s], i, block)],
                if through then Put(m.memory, address, e.value) else m.memory)
      else if isStore && cfg.allocation.NoWriteAllocate? then
        Machine(st', m.data, Put(m.memory, address, e.value))
      else
        var memory := Flushed(cfg, m, s);
        var block: Bytes := if isStore then Put(memory, address, e.value) else memory;
        Machine(st', m.data[s := Held(m.data[s], v, block)],
                if through then Put(memory, address, e.value) else memory)
  }

  /** What a load of `address` returns: from its slot, or from memory after the eviction. */
  function Loaded(cfg: Config, m: Machine, address: nat): int
    requires Fits(cfg, m)
  {
    var s := Index(cfg, address);
    var i := FindTag(m.st.sets[s], Tag(cfg, address));
    if i < cfg.numBlocks then m.data[s][i](address) else Flushed(cfg, m, s)(address)
  }

  function Execute(cfg: Config, events: seq<Event>, initial: Bytes): (m: Machine)
    requires Runnable(cfg)
    ensures Fits(cfg, m)
  {
    if events == [] then
      Machine(Initial(cfg), seq(cfg.numSets, s => seq(cfg.numBlocks, w => initial)), initial)
    else DataStep(cfg, Execute(cfg, events[..|events| - 1], initial), events[|events| - 1])
  }

  /** The last value stored at each address. */
  function LastStored(events: seq<Event>, initial: Bytes): Bytes {
    if events == [] then initial
    else
      var e := events[|events| - 1];
      var earlier := LastStored(events[..|events| - 1], initial);
      if e.access.op.Store? then Put(earlier, e.access.address, e.value) else earlier
  }

  /** A resident block holds `ideal` and, while clean, so does memory; any other block is in
      memory only. */
  ghost predicate Coherent(cfg: Config, m: Machine, ideal: Bytes, a: nat)
    requires Fits(cfg, m)
  {
    var s := Index(cfg, a);
    var row := m.st.sets[s];
    var i := FindTag(row, Tag(cfg, a));
    if i < |row| then m.data[s][i](a) == ideal(a) && (!row[i].dirty ==> m.memory(a) == ideal(a))
    else m.memory(a) == ideal(a)
  }

  /** The slot found for a tag is the only valid one with that tag. */
  lemma FoundAt(row: seq<Slot>, tag: nat, i: nat)
    requires DistinctTags(row) && i < |row| && Matches(row[i], tag)
    ensures FindTag(row, tag) == i
  {
  }

  lemma FlushedIsCoherent(cfg: Config, m: Machine, ideal: Bytes, s: nat, a: nat)
    requires Fits(cfg, m) && s < cfg.numSets && RowShape(cfg, m.st.sets[s])
    requires Coherent(cfg, m, ideal, a)
    ensures var i := FindTag(m.st.sets[Index(cfg, a)], Tag(cfg, a));
            (i == cfg.numBlocks || (Index(cfg, a) == s && i == Victim(m.st.sets[s]) && m.st.sets[s][i].valid)
             ==> Flushed(cfg, m, s)(a) == ideal(a))
            && (i < cfg.numBlocks && !m.st.sets[Index(cfg, a)][i].dirty ==> Flushed(cfg, m, s)(a) == ideal(a))
  {
    var row := m.st.sets[s];
    var v := Victim(row);
    if Evicts(cfg, row) && InBlock(cfg, a, s, row[v].tag) {
      FoundAt(row, Tag(cfg, a), v);
    }
  }

  lemma HitKeepsCoherent(cfg: Config, m: Machine, ideal: Bytes, e: Event, a: nat)
    requires Fits(cfg, m) && !e.access.op.Other?
    requires forall s :: 0 <= s < cfg.numSets ==> RowShape(cfg, m.st.sets[s])
    requires Coherent(cfg, m, ideal, a)
    requires FindTag(m.st.sets[Index(cfg, e.access.address)], Tag(cfg, e.access.address)) < cfg.numBlocks
    ensures Coherent(cfg, DataStep(cfg, m, e),
                     if e.access.op.Store? then Put(ideal, e.access.address, e.value) else ideal, a)
  {
    var b := e.access.address;
    var s, tag := Index(cfg, b), Tag(cfg, b);
    var row := m.st.sets[s];
    var i := FindTag(row, tag);
    var row' := DataStep(cfg, m, e).st.sets[s];
    AccessKeepsRowShape(cfg, row, tag, e.access.op.Store?, Tick(m.st.now));
    if Index(cfg, a) == s {
      var j := FindTag(row, Tag(cfg, a));
      if j < |row| {
        FoundAt(row', Tag(cfg, a), j);
      } else {
        assert FindTag(row', Tag(cfg, a)) == |row| by {
          var j' := FindTag(row', Tag(cfg, a));
          assert forall k | 0 <= k < |row| :: Matches(row'[k], Tag(cfg, a)) == Matches(row[k], Tag(cfg, a));
        }
      }
    }
  }

  lemma MissKeepsCoherent(cfg: Config, m: Machine, ideal: Bytes, e: Event, a: nat)
    requires Fits(cfg, m) && !e.access.op.Other?
    requires forall s :: 0 <= s < cfg.numSets ==> RowShape(cfg, m.st.sets[s])
    requires Coherent(cfg, m, ideal, a) && Coherent(cfg, m, ideal, e.access.address)
    requires FindTag(m.st.sets[Index(cfg, e.access.address)], Tag(cfg, e.access.address)) == cfg.numBlocks
    ensures Coherent(cfg, DataStep(cfg, m, e),
                     if e.access.op.Store? then Put(ideal, e.access.address, e.value) else ideal, a)
  {
    var b := e.access.address;
    var s, tag := Index(cfg, b), Tag(cfg, b);
    var row := m.st.sets[s];
    if e.access.op.Store? && cfg.allocation.NoWriteAllocate? {
      assert DataStep(cfg, m, e).st.sets[s] == row;
    } else {
      var v := Victim(row);
      var row' := DataStep(cfg, m, e).st.sets[s];
      AccessKeepsRowShape(cfg, row, tag, e.access.op.Store?, Tick(m.st.now));
      FlushedIsCoherent(cfg, m, ideal, s, a);
      if Index(cfg, a) == s {
        var j := FindTag(row, Tag(cfg, a));
        if Tag(cfg, a) == tag {
          FoundAt(row', tag, v);
        } else if j < |row| && j != v {
          FoundAt(row', Tag(cfg, a), j);
        } else {
          NotFound(row', Tag(cfg, a)) by {
            forall k | 0 <= k < |row'| ensures !Matches(row'[k], Tag(cfg, a)) {
            }
          }
        }
      }
    }
  }

  lemma NotFound(row: seq<Slot>, tag: nat)
    requires forall k :: 0 <= k < |row| ==> !Matches(row[k], tag)
    ensures FindTag(row, tag) == |row|
  {
  }

  function Accesses(events: seq<Event>): seq<Access> {
    seq(|events|, i requires 0 <= i < |events| => events[i].access)
  }

  /** Carrying the data along does not change what the simulator does. */
  lemma {:induction false} DataFollowsTheCache(cfg: Config, events: seq<Event>, initial: Bytes)
    requires Runnable(cfg)
    ensures Execute(cfg, events, initial).st == Run(cfg, Accesses(events))
    ensures forall s :: 0 <= s < cfg.numSets ==> RowShape(cfg, Execute(cfg, events, initial).st.sets[s])
  {
    if events != [] {
      var n := |events| - 1;
      DataFollowsTheCache(cfg, events[..n], initial);
      assert Accesses(events)[..n] == Accesses(events[..n]);
    }
    RunKeepsRowShape(cfg, Accesses(events));
  }

  /** After any trace, under every write policy, every address is coherent: a clean resident
      block equals memory, and what is in neither is nowhere. */
  lemma {:induction false} EveryAddressCoherent(cfg: Config, events: seq<Event>, initial: Bytes, a: nat)
    requires Runnable(cfg)
    ensures Coherent(cfg, Execute(cfg, events, initial), LastStored(events, initial), a)
    decreases |events|
  {
    if events == [] {
      NotFound(Initial(cfg).sets[Index(cfg, a)], Tag(cfg, a));
    } else {
      var before, e := events[..|events| - 1], events[|events| - 1];
      var m := Execute(cfg, before, initial);
      EveryAddressCoherent(cfg, before, initial, a);
      EveryAddressCoherent(cfg, before, initial, e.access.address);
      DataFollowsTheCache(cfg, before, initial);
      if !e.access.op.Other? {
        if FindTag(m.st.sets[Index(cfg, e.access.address)], Tag(cfg, e.access.address)) < cfg.numBlocks {
          HitKeepsCoherent(cfg, m, LastStored(before, initial), e, a);
        } else {
          MissKeepsCoherent(cfg, m, LastStored(before, initial), e, a);
        }
      }
    }
  }

  /** Every load, hit or miss, sees the last value stored at its address. */
  lemma LoadsSeeLastStore(cfg: Config, events: seq<Event>, initial: Bytes, address: nat)
    requires Runnable(cfg)
    ensures Loaded(cfg, Execute(cfg, events, initial), address) == LastStored(events, initial)(address)
  {
    var m := Execute(cfg, events, initial);
    EveryAddressCoherent(cfg, events, initial, address);
    DataFollowsTheCache(cfg, events, initial);
    FlushedIsCoherent(cfg, m, LastStored(events, initial), Index(cfg, address), address);
  }

  /** A clean block resident in the cache is identical in memory. */
  lemma CleanMeansEqual(cfg: Config, events: seq<Event>, initial: Bytes, s: nat, i: nat, a: nat)
    requires Runnable(cfg) && s < cfg.numSets && i < cfg.numBlocks
    requires var m := Execute(cfg, events, initial);
             var slot := m.st.sets[s][i];
             slot.valid && !slot.dirty && InBlock(cfg, a, s, slot.tag)
    ensures var m := Execute(cfg, events, initial); m.data[s][i](a) == m.memory(a)
  {
    var m := Execute(cfg, events, initial);
    EveryAddressCoherent(cfg, events, initial, a);
    DataFollowsTheCache(cfg, events, initial);
    FoundAt(m.st.sets[s], Tag(cfg, a), i);
  }
}
