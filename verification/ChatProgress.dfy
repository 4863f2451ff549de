/** Progress: mutexes are nested in one way only, so whoever holds one can go on, and whoever waits
    for one waits for somebody who can. */
module ChatProgress {
  import opened Wrappers
  import opened Codec
  import opened ChatModel
  import opened ChatSafety
  import opened ChatMembership
  import opened ChatQueues
  import opened ChatTheorems

  // ----- who owns and who waits -----

  ghost predicate OwnsRoom(s: State, t: Tid) {
    exists r :: r in s.rooms && s.rooms[r].lock == Some(t)
  }

  ghost predicate OwnsQueue(s: State, t: Tid) {
    exists u :: u in s.users && s.users[u].lock == Some(t)
  }

  /** About to lock a mutex. */
  predicate Locks(pc: Pc) {
    pc.FindLock? || pc.AddLock? || pc.RemoveLock? || pc.CastLock? || pc.PopLock? || pc.PushLock?
  }

  /** The only nesting is a queue's mutex inside a room's: a thread about to lock anything owns
      nothing, except that a broadcast about to lock a queue owns its room; the server's mutex and
      the queues' are leaves; and nothing is owned across the timed wait. */
  lemma OnlyRoomThenQueue(run: seq<State>, i: nat, t: Tid)
    requires IsRun(run) && i < |run| && t in run[i].threads
    ensures var s, pc := run[i], run[i].threads[t].pc;
            && (s.lock == Some(t) ==> !Locks(pc) && !OwnsRoom(s, t) && !OwnsQueue(s, t))
            && (OwnsQueue(s, t) ==> !Locks(pc))
            && (OwnsRoom(s, t) && Locks(pc) ==> pc.PushLock?)
            && (OwnsRoom(s, t) && OwnsQueue(s, t) ==> IsPush(pc))
            && (pc.Wait? ==> s.lock != Some(t) && !OwnsRoom(s, t) && !OwnsQueue(s, t))
  {
    RunsKeepInv(run, i);
    OwnersAreInside(run[i], t);
    ScopesAreNested(run[i].threads[t].pc, t);
  }

  lemma OwnersAreInside(s: State, t: Tid)
    requires Exclusion(s) && t in s.threads
    ensures s.lock == Some(t) ==> HoldsServer(s.threads[t].pc)
    ensures OwnsRoom(s, t) ==> HoldsRoom(s.threads[t].pc)
    ensures OwnsQueue(s, t) ==> HoldsQueue(t, s.threads[t].pc).Some?
  {
    if OwnsRoom(s, t) {
      var r :| r in s.rooms && s.rooms[r].lock == Some(t);
      assert RoomLockOk(s, r);
    }
    if OwnsQueue(s, t) {
      var u :| u in s.users && s.users[u].lock == Some(t);
      assert QueueLockOk(s, u);
    }
  }

  lemma ScopesAreNested(pc: Pc, t: Tid)
    ensures HoldsServer(pc) ==> !Locks(pc) && !HoldsRoom(pc) && HoldsQueue(t, pc).None?
    ensures HoldsQueue(t, pc).Some? ==> !Locks(pc)
    ensures HoldsRoom(pc) && Locks(pc) ==> pc.PushLock?
    ensures HoldsRoom(pc) && HoldsQueue(t, pc).Some? ==> IsPush(pc)
    ensures pc.Wait? ==> !HoldsServer(pc) && !HoldsRoom(pc) && HoldsQueue(t, pc).None?
  {
  }

  /** Thread t is inside the scope of some mutex. */
  ghost predicate Holds(s: State, t: Tid)
    requires t in s.threads
  {
    HoldsServer(s.threads[t].pc) || HoldsRoom(s.threads[t].pc) || HoldsQueue(t, s.threads[t].pc).Some?
  }

  /** Thread t is about to lock a mutex that h holds. */
  ghost predicate WaitsFor(s: State, t: Tid, h: Tid)
    requires t in s.threads
  {
    var th := s.threads[t];
    || (th.pc.FindLock? && s.lock == Some(h))
    || ((th.pc.AddLock? || th.pc.RemoveLock? || th.pc.CastLock?)
        && th.room.Some? && th.room.value in s.rooms && s.rooms[th.room.value].lock == Some(h))
    || (th.pc.PopLock? && t in s.users && s.users[t].lock == Some(h))
    || (th.pc.PushLock? && th.pc.to in s.users && s.users[th.pc.to].lock == Some(h))
  }

  /** A step that needs nothing from the environment. */
  predicate Internal(e: Event) {
    e.Go? || e.Visit? || e.Create?
  }

  // ----- a holder can step -----

  lemma FreshRoom(keys: set<nat>) returns (id: nat)
    ensures id !in keys && forall k :: k in keys ==> k < id
    decreases keys
  {
    if keys == {} {
      id := 0;
    } else {
      var k :| k in keys;
      var m := FreshRoom(keys - {k});
      id := if m <= k then k + 1 else m;
      assert forall j | j in keys :: j == k || j in keys - {k};
    }
  }

  lemma ServerHolderCanStep(s: State, t: Tid) returns (e: Event)
    requires t in s.threads && HoldsServer(s.threads[t].pc)
    ensures Act(s, t, e).Some? && Internal(e)
  {
    e := Go;
    if s.threads[t].pc.FindBody? && s.threads[t].pc.name !in s.directory {
      var id := FreshRoom(s.rooms.Keys);
      e := Create(id);
    }
  }

  lemma PopperCanStep(s: State, t: Tid)
    requires t in s.threads && t in s.users && (s.threads[t].pc.PopBody? || s.threads[t].pc.PopUnlock?)
    requires s.threads[t].pc.PopBody? ==> s.users[t].messages != []
    ensures Act(s, t, Go).Some?
  {
  }

  lemma PusherCanStep(s: State, t: Tid)
    requires t in s.threads && IsPush(s.threads[t].pc) && s.threads[t].pc.to in s.users
    requires s.threads[t].pc.PushLock? ==> s.users[s.threads[t].pc.to].lock.None?
    ensures Act(s, t, Go).Some?
  {
  }

  lemma QueueHolderCanStep(s: State, t: Tid)
    requires Sound(s) && t in s.threads && HoldsQueue(t, s.threads[t].pc).Some?
    ensures Act(s, t, Go).Some?
  {
    assert HoldsOk(s, t);
    if IsPush(s.threads[t].pc) {
      PusherCanStep(s, t);
    } else {
      assert QueueOk(s, t);
      PopperCanStep(s, t);
    }
  }

  lemma CasterCanStep(s: State, t: Tid) returns (e: Event)
    requires t in s.threads && s.threads[t].pc.Cast? && s.threads[t].room.Some? && s.threads[t].room.value in s.rooms
    ensures Act(s, t, e).Some? && Internal(e)
  {
    e := Go;
    if s.threads[t].pc.todo != {} {
      var u :| u in s.threads[t].pc.todo;
      e := Visit(u);
    }
  }

  lemma EditorCanStep(s: State, t: Tid)
    requires t in s.threads && s.threads[t].room.Some? && s.threads[t].room.value in s.rooms
    requires HoldsRoom(s.threads[t].pc) && !IsCast(s.threads[t].pc)
    requires !s.threads[t].pc.CastUnlock? ==> t in s.users
    requires s.threads[t].pc.RemoveBody? ==> s.users[t].stint.In?
    ensures Act(s, t, Go).Some?
  {
  }

  /** The holder of a room's mutex can step, or waits for a queue whose holder can. */
  lemma RoomHolderCanStep(s: State, t: Tid) returns (h: Tid, e: Event)
    requires Sound(s) && t in s.threads && HoldsRoom(s.threads[t].pc)
    ensures h == t || WaitsFor(s, t, h)
    ensures h in s.threads && Holds(s, h) && Act(s, h, e).Some? && Internal(e)
  {
    var pc := s.threads[t].pc;
    assert ThreadOk(s, t) && HoldsOk(s, t);
    h, e := t, Go;
    if pc.Cast? {
      e := CasterCanStep(s, t);
    } else if IsPush(pc) {
      TargetIsUser(s, t);
      if pc.PushLock? && s.users[pc.to].lock.Some? {
        assert QueueLockOk(s, pc.to);
        h := s.users[pc.to].lock.value;
        QueueHolderCanStep(s, h);
      } else {
        PusherCanStep(s, t);
      }
    } else {
      assert t in s.users ==> StintOk(s, t);
      EditorCanStep(s, t);
    }
  }

  lemma TargetIsUser(s: State, t: Tid)
    requires Sound(s) && t in s.threads && IsPush(s.threads[t].pc)
    ensures s.threads[t].pc.to in s.users
  {
    assert OwesOk(s, t);
    assert MembersOk(s, s.threads[t].room.value);
  }

  /** Whenever a thread holds a mutex it can step by itself, or it waits for a queue's mutex whose
      holder can. */
  lemma HeldMutexesAreReleased(run: seq<State>, i: nat, t: Tid) returns (h: Tid, e: Event)
    requires IsRun(run) && i < |run| && t in run[i].threads && Holds(run[i], t)
    ensures h == t || (run[i].threads[t].pc.PushLock? && WaitsFor(run[i], t, h))
    ensures h in run[i].threads && Holds(run[i], h) && Act(run[i], h, e).Some? && Internal(e)
  {
    RunsKeepInv(run, i);
    h, e := HolderCanStep(run[i], t);
  }

  lemma HolderCanStep(s: State, t: Tid) returns (h: Tid, e: Event)
    requires Sound(s) && t in s.threads && Holds(s, t)
    ensures h == t || (s.threads[t].pc.PushLock? && WaitsFor(s, t, h))
    ensures h in s.threads && Holds(s, h) && Act(s, h, e).Some? && Internal(e)
  {
    if HoldsServer(s.threads[t].pc) {
      h := t;
      e := ServerHolderCanStep(s, t);
    } else if HoldsQueue(t, s.threads[t].pc).Some? {
      h := t;
      e := Go;
      QueueHolderCanStep(s, t);
    } else {
      h, e := RoomHolderCanStep(s, t);
    }
  }

  // ----- no deadlock -----

  /** Waiting for the client, or for a message to come. */
  predicate Parked(pc: Pc) {
    pc.Start? || pc.Greet? || pc.Command? || pc.AwaitJoin? || pc.Reply? || pc.Confirm? || pc.Deliver? || pc.Wait?
  }

  /** Whatever the client does, a thread waiting for it has a step: every request is served, and every
      send returns, with success unless the message is too long.  Waiting for a message times out. */
  ghost predicate Served(s: State, t: Tid)
    requires t in s.threads
  {
    var pc := s.threads[t].pc;
    && (pc.Start? ==> Act(s, t, Refuse).Some?)
    && (pc.Wait? ==> Act(s, t, Timeout).Some?)
    && (pc.Command? || pc.AwaitJoin? ==>
          Act(s, t, Disconnect).Some? && Act(s, t, Invalid).Some? && forall name :: Act(s, t, Join(name)).Some?)
    && (pc.Command? ==> forall text :: IsText(text) ==> Act(s, t, SendAll(text)).Some?)
    && (pc.Greet? || pc.Reply? || pc.Confirm? || pc.Deliver? ==>
          && Act(s, t, SendFails).Some?
          && (Act(s, t, SendOk).Some? <==> (pc.Deliver? ==> |Encode(Message("delivery", pc.msg))| <= 255)))
  }

  /** No reachable state is a deadlock for any of its threads: one that is not finished is served
      when it waits for its client, can step by itself, or waits for a mutex whose holder can, or
      whose holder waits for one whose holder can. */
  lemma NoDeadlock(run: seq<State>, i: nat, t: Tid) returns (g: Tid, h: Tid, e: Event)
    requires IsRun(run) && i < |run| && t in run[i].threads && !run[i].threads[t].pc.Done?
    ensures Parked(run[i].threads[t].pc) ==> Served(run[i], t)
    ensures !Parked(run[i].threads[t].pc) ==>
              && (g == t || WaitsFor(run[i], t, g))
              && g in run[i].threads && (h == g || WaitsFor(run[i], g, h))
              && h in run[i].threads && Act(run[i], h, e).Some? && Internal(e)
  {
    var s := run[i];
    RunsKeepInv(run, i);
    g, h, e := t, t, Go;
    if Parked(s.threads[t].pc) {
      assert ThreadOk(s, t);
      ParkedAreServed(s, t);
    } else {
      g, h, e := SomeoneCanStep(s, t);
    }
  }

  lemma ParkedAreServed(s: State, t: Tid)
    requires t in s.threads && ThreadOk(s, t) && Parked(s.threads[t].pc)
    ensures Served(s, t)
  {
    var pc := s.threads[t].pc;
    if pc.Command? || pc.AwaitJoin? {
      RequestsAreServed(s, t);
    } else if !pc.Start? && !pc.Wait? {
      SendsReturn(s, t);
    }
  }

  lemma SomeoneCanStep(s: State, t: Tid) returns (g: Tid, h: Tid, e: Event)
    requires Sound(s) && t in s.threads && !s.threads[t].pc.Done? && !Parked(s.threads[t].pc)
    ensures g == t || WaitsFor(s, t, g)
    ensures g in s.threads && (h == g || WaitsFor(s, g, h))
    ensures h in s.threads && Act(s, h, e).Some? && Internal(e)
  {
    if Holds(s, t) {
      g := t;
      h, e := HolderCanStep(s, t);
    } else if w :| WaitsFor(s, t, w) {
      g := w;
      BlockerHolds(s, t, w);
      h, e := HolderCanStep(s, w);
    } else {
      g, h, e := t, t, Go;
      assert ThreadOk(s, t);
      FreeThreadCanStep(s, t);
    }
  }

  lemma BlockerHolds(s: State, t: Tid, h: Tid)
    requires Sound(s) && t in s.threads && WaitsFor(s, t, h)
    ensures h in s.threads && Holds(s, h)
  {
    var th := s.threads[t];
    if th.pc.AddLock? || th.pc.RemoveLock? || th.pc.CastLock? {
      assert RoomLockOk(s, th.room.value);
    } else if th.pc.PopLock? {
      assert QueueLockOk(s, t);
    } else if th.pc.PushLock? {
      assert QueueLockOk(s, th.pc.to);
    }
  }

  lemma FreeThreadCanStep(s: State, t: Tid)
    requires t in s.threads && ThreadOk(s, t) && !s.threads[t].pc.Done? && !Parked(s.threads[t].pc)
    requires !Holds(s, t) && forall h :: !WaitsFor(s, t, h)
    ensures Act(s, t, Go).Some?
  {
    var th := s.threads[t];
    assert th.pc.FindLock? && s.lock.Some? ==> WaitsFor(s, t, s.lock.value);
    if th.room.Some? && th.room.value in s.rooms && s.rooms[th.room.value].lock.Some? {
      assert th.pc.AddLock? || th.pc.RemoveLock? || th.pc.CastLock? ==>
          WaitsFor(s, t, s.rooms[th.room.value].lock.value);
    }
    assert th.pc.PopLock? && t in s.users && s.users[t].lock.Some? ==> WaitsFor(s, t, s.users[t].lock.value);
  }

  /** No wake-up is lost: a receiver waiting while its queue has a message can go on, or the message
      is one whose sender is between pushing it and posting the semaphore, and that thread can go
      on. */
  lemma NoLostWakeup(run: seq<State>, i: nat, t: Tid) returns (h: Tid)
    requires IsRun(run) && i < |run| && t in run[i].threads && run[i].threads[t].pc.Wait?
    requires t in run[i].users && run[i].users[t].messages != []
    ensures h in run[i].threads && Act(run[i], h, Go).Some?
    ensures h == t || HasPushed(run[i].threads[h].pc, t)
  {
    RunsKeepInv(run, i);
    h := SomeoneWakes(run[i], t);
  }

  lemma SomeoneWakes(s: State, t: Tid) returns (h: Tid)
    requires Sound(s) && t in s.threads && s.threads[t].pc.Wait? && t in s.users && s.users[t].messages != []
    ensures h in s.threads && Act(s, h, Go).Some?
    ensures h == t || HasPushed(s.threads[h].pc, t)
  {
    assert QueueOk(s, t);
    h := t;
    if s.users[t].avail > 0 {
      WaitIsOnTheSemaphore(s, t);
    } else {
      assert Pushers(s, t) != {};
      h :| h in Pushers(s, t);
      TargetIsUser(s, h);
      PusherCanStep(s, h);
    }
  }

  lemma WaitIsOnTheSemaphore(s: State, t: Tid)
    requires t in s.threads && s.threads[t].pc.Wait? && t in s.users
    ensures s.users[t].avail > 0 <==> Act(s, t, Go).Some?
  {
  }

  lemma RequestsAreServed(s: State, t: Tid)
    requires t in s.threads && ThreadOk(s, t) && (s.threads[t].pc.Command? || s.threads[t].pc.AwaitJoin?)
    ensures Act(s, t, Disconnect).Some? && Act(s, t, Invalid).Some? && forall name :: Act(s, t, Join(name)).Some?
    ensures s.threads[t].pc.Command? ==> forall text :: IsText(text) ==> Act(s, t, SendAll(text)).Some?
  {
  }

  lemma SendsReturn(s: State, t: Tid)
    requires t in s.threads && ThreadOk(s, t)
    requires var pc := s.threads[t].pc; pc.Greet? || pc.Reply? || pc.Confirm? || pc.Deliver?
    ensures Act(s, t, SendFails).Some?
    ensures Act(s, t, SendOk).Some? <==>
            (s.threads[t].pc.Deliver? ==> |Encode(Message("delivery", s.threads[t].pc.msg))| <= 255)
  {
  }
}
