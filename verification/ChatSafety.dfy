/** Ownership and mutual exclusion in every reachable state of the server, whatever the
    interleaving: each action is shown to be a well-behaved change of its own thread and of
    what it has locked, and well-behaved changes keep what holds of everyone else. */
module ChatSafety {
  import opened Wrappers
  import opened Codec
  import opened ChatModel

  // ----- the invariants, one thread, room or user at a time -----

  ghost predicate ThreadOk(s: State, t: Tid)
    requires t in s.threads
  {
    var th := s.threads[t];
    && (th.room.Some? ==> th.room.value in s.rooms)
    && (NeedsRoom(th.pc) ==> th.room.Some?)
    && (th.pc.FindUnlock? ==> th.pc.found in s.rooms)
    && (th.pc.FindLock? || th.pc.FindBody? ==> IsValidName(th.pc.name))
    && (th.pc.Start? ==> t !in s.users)
    && (!th.pc.Start? && !th.pc.Done? ==> t in s.users)
    && (t in s.users ==> (s.users[t].alive <==> !th.pc.Done?))
    && (ReceiverOnly(th.pc) ==> th.receiver)
    && (SenderOnly(th.pc) ==> !th.receiver)
  }

  ghost predicate UserOk(s: State, u: Tid)
    requires u in s.users
  {
    u in s.threads && IsValidName(s.users[u].name)
  }

  ghost predicate RoomOk(s: State, r: RoomId)
    requires r in s.rooms
  {
    var name := s.rooms[r].name;
    name in s.directory && s.directory[name] == r && IsValidName(name)
  }

  ghost predicate NameOk(s: State, n: string)
    requires n in s.directory
  {
    s.directory[n] in s.rooms && s.rooms[s.directory[n]].name == n
  }

  ghost predicate Shape(s: State) {
    && (forall t :: t in s.threads ==> ThreadOk(s, t))
    && (forall u :: u in s.users ==> UserOk(s, u))
    && (forall r :: r in s.rooms ==> RoomOk(s, r))
    && (forall n :: n in s.directory ==> NameOk(s, n))
  }

  /** A thread in a guarded scope holds the mutex of that scope. */
  ghost predicate HoldsOk(s: State, t: Tid)
    requires t in s.threads
  {
    var th := s.threads[t];
    && (HoldsServer(th.pc) ==> s.lock == Some(t))
    && (HoldsRoom(th.pc) ==> th.room.Some? && th.room.value in s.rooms && s.rooms[th.room.value].lock == Some(t))
    && (HoldsQueue(t, th.pc).Some? ==>
          HoldsQueue(t, th.pc).value in s.users && s.users[HoldsQueue(t, th.pc).value].lock == Some(t))
  }

  ghost predicate ServerLockOk(s: State) {
    s.lock.Some? ==> s.lock.value in s.threads && HoldsServer(s.threads[s.lock.value].pc)
  }

  ghost predicate RoomLockOk(s: State, r: RoomId)
    requires r in s.rooms
  {
    s.rooms[r].lock.Some? ==>
      var t := s.rooms[r].lock.value;
      t in s.threads && HoldsRoom(s.threads[t].pc) && s.threads[t].room == Some(r)
  }

  ghost predicate QueueLockOk(s: State, u: Tid)
    requires u in s.users
  {
    s.users[u].lock.Some? ==>
      var t := s.users[u].lock.value;
      t in s.threads && HoldsQueue(t, s.threads[t].pc) == Some(u)
  }

  /** Every mutex is held by exactly the thread inside its scope. */
  ghost predicate Exclusion(s: State) {
    && (forall t :: t in s.threads ==> HoldsOk(s, t))
    && ServerLockOk(s)
    && (forall r :: r in s.rooms ==> RoomLockOk(s, r))
    && (forall u :: u in s.users ==> QueueLockOk(s, u))
  }

  // ----- well-behaved actions -----

  ghost predicate LockMove(before: Option<Tid>, after: Option<Tid>, t: Tid) {
    after == before || (before.None? && after == Some(t)) || (before == Some(t) && after.None?)
  }

  /** A change to a room: its name stays and its log grows, its mutex goes to or from t; or it is new. */
  ghost predicate RoomChange(s: State, t: Tid, x: Effect) {
    && (x.room.Changed? ==>
          var room := x.room.value;
          if x.room.id in s.rooms then
            var before := s.rooms[x.room.id];
            room.name == before.name && before.log <= room.log && before.origins <= room.origins
            && x.named.None?
          else
            room == Room(room.name, None, {}, [], []) && x.named == Some(room.name)
            && room.name !in s.directory && IsValidName(room.name))
    && (x.named.Some? ==> x.room.Changed? && x.room.id !in s.rooms)
  }

  /** A change to a user: another thread's user only has its queue changed. */
  ghost predicate UserChange(s: State, t: Tid, x: Effect) {
    x.user.Changed? ==>
      var u, user := x.user.id, x.user.value;
      if u in s.users then
        var before := s.users[u];
        user.name == before.name
        && (u != t ==> user == before.(lock := user.lock, avail := user.avail,
                                       messages := user.messages, pushed := user.pushed))
      else
        u == t && user == User(user.name, true, None, 0, [], [], [], [], Never) && IsValidName(user.name)
  }

  /** Locks the thread keeps, gives up, or takes. */
  ghost predicate Handover(s: State, t: Tid, x: Effect) {
    && LockMove(s.lock, x.lock, t)
    && (x.room.Changed? && x.room.id in s.rooms ==> LockMove(s.rooms[x.room.id].lock, x.room.value.lock, t))
    && (x.user.Changed? && x.user.id in s.users ==> LockMove(s.users[x.user.id].lock, x.user.value.lock, t))
    && (x.lock == Some(t) <==> HoldsServer(x.thread.pc))
    && (x.room.Changed? && x.room.value.lock == Some(t) ==>
          HoldsRoom(x.thread.pc) && x.thread.room == Some(x.room.id))
    && (x.user.Changed? && x.user.value.lock == Some(t) ==> HoldsQueue(t, x.thread.pc) == Some(x.user.id))
    && (t in s.threads && HoldsRoom(s.threads[t].pc) ==>
          (HoldsRoom(x.thread.pc) && x.thread.room == s.threads[t].room)
          || (x.room.Changed? && s.threads[t].room == Some(x.room.id) && x.room.value.lock.None?))
    && (t in s.threads && HoldsQueue(t, s.threads[t].pc).Some? ==>
          HoldsQueue(t, x.thread.pc) == HoldsQueue(t, s.threads[t].pc)
          || (x.user.Changed? && HoldsQueue(t, s.threads[t].pc) == Some(x.user.id) && x.user.value.lock.None?))
  }

  /** The thread, room and user records an action writes are sound. */
  ghost predicate WellWritten(s: State, t: Tid, x: Effect) {
    RoomChange(s, t, x) && UserChange(s, t, x) && ThreadOk(Apply(s, t, x), t)
  }

  /** The mutexes it takes and gives back are those of the scopes it enters and leaves. */
  ghost predicate WellLocked(s: State, t: Tid, x: Effect) {
    Handover(s, t, x) && HoldsOk(Apply(s, t, x), t)
  }

  ghost predicate Behaved(s: State, t: Tid, x: Effect) {
    WellWritten(s, t, x) && WellLocked(s, t, x)
  }

  lemma LoggingInWrites(s: State, t: Tid, e: Event)
    requires t in s.threads && s.threads[t].pc.Start? && ThreadOk(s, t) && LoggingIn(s, t, e).Some?
    ensures WellWritten(s, t, LoggingIn(s, t, e).value)
  {
  }

  lemma LoggingInLocks(s: State, t: Tid, e: Event)
    requires t in s.threads && s.threads[t].pc.Start? && HoldsOk(s, t) && LoggingIn(s, t, e).Some?
    requires s.lock != Some(t) && t !in s.users
    ensures WellLocked(s, t, LoggingIn(s, t, e).value)
  {
  }

  lemma DeletingWrites(s: State, t: Tid, e: Event)
    requires t in s.threads && s.threads[t].pc.Delete? && ThreadOk(s, t) && Deleting(s, t, e).Some?
    ensures WellWritten(s, t, Deleting(s, t, e).value)
  {
  }

  lemma DeletingLocks(s: State, t: Tid, e: Event)
    requires t in s.threads && s.threads[t].pc.Delete? && HoldsOk(s, t) && Deleting(s, t, e).Some?
    requires s.lock != Some(t) && s.users[t].lock != Some(t)
    ensures WellLocked(s, t, Deleting(s, t, e).value)
  {
  }

  lemma EnteringWrites(s: State, t: Tid, e: Event)
    requires t in s.threads && InEntering(s.threads[t].pc) && ThreadOk(s, t) && Entering(s, t, e).Some?
    ensures WellWritten(s, t, Entering(s, t, e).value)
  {
  }

  lemma CommandingWrites(s: State, t: Tid, e: Event)
    requires t in s.threads && InCommanding(s.threads[t].pc) && ThreadOk(s, t) && Commanding(s, t, e).Some?
    ensures WellWritten(s, t, Commanding(s, t, e).value)
  {
  }

  lemma FindingWrites(s: State, t: Tid, e: Event)
    requires t in s.threads && InFinding(s.threads[t].pc) && ThreadOk(s, t) && Finding(s, t, e).Some?
    requires forall n :: n in s.directory ==> NameOk(s, n)
    ensures WellWritten(s, t, Finding(s, t, e).value)
  {
  }

  lemma AddingWrites(s: State, t: Tid, e: Event)
    requires t in s.threads && InAdding(s.threads[t].pc) && ThreadOk(s, t) && Adding(s, t, e).Some?
    requires t in s.users ==> UserOk(s, t)
    ensures WellWritten(s, t, Adding(s, t, e).value)
  {
  }

  lemma RemovingWrites(s: State, t: Tid, e: Event)
    requires t in s.threads && InRemoving(s.threads[t].pc) && ThreadOk(s, t) && Removing(s, t, e).Some?
    requires t in s.users ==> UserOk(s, t)
    ensures WellWritten(s, t, Removing(s, t, e).value)
  {
  }

  lemma ReceivingWrites(s: State, t: Tid, e: Event)
    requires t in s.threads && InReceiving(s.threads[t].pc) && ThreadOk(s, t) && Receiving(s, t, e).Some?
    requires t in s.users ==> UserOk(s, t)
    ensures WellWritten(s, t, Receiving(s, t, e).value)
  {
  }

  lemma CastingWrites(s: State, t: Tid, e: Event)
    requires t in s.threads && InCasting(s.threads[t].pc) && ThreadOk(s, t) && Casting(s, t, e).Some?
    ensures WellWritten(s, t, Casting(s, t, e).value)
  {
  }

  lemma PushingWrites(s: State, t: Tid, e: Event)
    requires t in s.threads && IsPush(s.threads[t].pc) && ThreadOk(s, t) && Pushing(s, t, e).Some?
    ensures WellWritten(s, t, Pushing(s, t, e).value)
  {
  }

  lemma EnteringLocks(s: State, t: Tid, e: Event)
    requires t in s.threads && InEntering(s.threads[t].pc) && ThreadOk(s, t) && HoldsOk(s, t) && Entering(s, t, e).Some?
    requires s.lock != Some(t)
    ensures WellLocked(s, t, Entering(s, t, e).value)
  {
  }

  lemma CommandingLocks(s: State, t: Tid, e: Event)
    requires t in s.threads && InCommanding(s.threads[t].pc) && ThreadOk(s, t) && HoldsOk(s, t)
    requires Commanding(s, t, e).Some?
    requires s.lock != Some(t)
    ensures WellLocked(s, t, Commanding(s, t, e).value)
  {
  }

  lemma FindingLocks(s: State, t: Tid, e: Event)
    requires t in s.threads && InFinding(s.threads[t].pc) && ThreadOk(s, t) && HoldsOk(s, t) && Finding(s, t, e).Some?
    ensures WellLocked(s, t, Finding(s, t, e).value)
  {
  }

  lemma AddingLocks(s: State, t: Tid, e: Event)
    requires t in s.threads && InAdding(s.threads[t].pc) && ThreadOk(s, t) && HoldsOk(s, t) && Adding(s, t, e).Some?
    requires s.lock != Some(t)
    requires s.threads[t].room.Some? && s.threads[t].room.value in s.rooms ==> RoomLockOk(s, s.threads[t].room.value)
    requires t in s.users ==> s.users[t].lock != Some(t)
    ensures WellLocked(s, t, Adding(s, t, e).value)
  {
  }

  lemma RemovingLocks(s: State, t: Tid, e: Event)
    requires t in s.threads && InRemoving(s.threads[t].pc) && ThreadOk(s, t) && HoldsOk(s, t) && Removing(s, t, e).Some?
    requires s.lock != Some(t)
    requires s.threads[t].room.Some? && s.threads[t].room.value in s.rooms ==> RoomLockOk(s, s.threads[t].room.value)
    requires t in s.users ==> s.users[t].lock != Some(t)
    ensures WellLocked(s, t, Removing(s, t, e).value)
  {
  }

  lemma ReceivingLocks(s: State, t: Tid, e: Event)
    requires t in s.threads && InReceiving(s.threads[t].pc) && ThreadOk(s, t) && HoldsOk(s, t)
    requires Receiving(s, t, e).Some?
    requires s.lock != Some(t)
    requires t in s.users ==> QueueLockOk(s, t)
    ensures WellLocked(s, t, Receiving(s, t, e).value)
  {
  }

  lemma CastingLocks(s: State, t: Tid, e: Event)
    requires t in s.threads && InCasting(s.threads[t].pc) && ThreadOk(s, t) && HoldsOk(s, t) && Casting(s, t, e).Some?
    requires s.lock != Some(t)
    requires s.threads[t].room.Some? && s.threads[t].room.value in s.rooms ==> RoomLockOk(s, s.threads[t].room.value)
    ensures WellLocked(s, t, Casting(s, t, e).value)
  {
  }

  lemma PushingLocks(s: State, t: Tid, e: Event)
    requires t in s.threads && IsPush(s.threads[t].pc) && ThreadOk(s, t) && HoldsOk(s, t) && Pushing(s, t, e).Some?
    requires s.lock != Some(t)
    requires s.threads[t].pc.to in s.users ==> QueueLockOk(s, s.threads[t].pc.to)
    ensures WellLocked(s, t, Pushing(s, t, e).value)
  {
  }

  lemma ActionsWriteWell(s: State, t: Tid, e: Event)
    requires Shape(s) && Next(s, t, e).Some?
    ensures WellWritten(s, t, Next(s, t, e).value)
  {
    assert t in s.users ==> UserOk(s, t);
    if t in s.threads {
      var pc := s.threads[t].pc;
      assert ThreadOk(s, t);
      if pc.Start? { LoggingInWrites(s, t, e); }
      else if pc.Delete? { DeletingWrites(s, t, e); }
      else if InEntering(pc) { EnteringWrites(s, t, e); }
      else if InCommanding(pc) { CommandingWrites(s, t, e); }
      else if InFinding(pc) { FindingWrites(s, t, e); }
      else if InAdding(pc) { AddingWrites(s, t, e); }
      else if InRemoving(pc) { RemovingWrites(s, t, e); }
      else if InReceiving(pc) { ReceivingWrites(s, t, e); }
      else if InCasting(pc) { CastingWrites(s, t, e); }
      else { PushingWrites(s, t, e); }
    }
  }

  /** What mutual exclusion says of one thread, its room and the queues it may touch. */
  lemma LocksNearby(s: State, t: Tid)
    requires Shape(s) && Exclusion(s) && t in s.threads
    ensures ThreadOk(s, t) && HoldsOk(s, t)
    ensures var th := s.threads[t];
            && (th.room.Some? ==> RoomLockOk(s, th.room.value))
            && (t in s.users ==> QueueLockOk(s, t))
            && (IsPush(th.pc) && th.pc.to in s.users ==> QueueLockOk(s, th.pc.to))
            && (!HoldsServer(th.pc) ==> s.lock != Some(t))
            && (t in s.users && HoldsQueue(t, th.pc).None? ==> s.users[t].lock != Some(t))
  {
    assert ThreadOk(s, t);
    assert t in s.users ==> QueueLockOk(s, t);
  }

  lemma ActionsLockWell(s: State, t: Tid, e: Event)
    requires Shape(s) && Exclusion(s) && Next(s, t, e).Some?
    ensures WellLocked(s, t, Next(s, t, e).value)
  {
    if t in s.threads {
      var pc := s.threads[t].pc;
      LocksNearby(s, t);
      if pc.Start? { LoggingInLocks(s, t, e); }
      else if pc.Delete? { DeletingLocks(s, t, e); }
      else if InEntering(pc) { EnteringLocks(s, t, e); }
      else if InCommanding(pc) { CommandingLocks(s, t, e); }
      else if InFinding(pc) { FindingLocks(s, t, e); }
      else if InAdding(pc) { AddingLocks(s, t, e); }
      else if InRemoving(pc) { RemovingLocks(s, t, e); }
      else if InReceiving(pc) { ReceivingLocks(s, t, e); }
      else if InCasting(pc) { CastingLocks(s, t, e); }
      else { PushingLocks(s, t, e); }
    } else {
      assert t in s.users ==> UserOk(s, t);
    }
  }

  // ----- what behaved actions keep -----

  lemma ShapeKept(s: State, t: Tid, x: Effect)
    requires Shape(s) && WellWritten(s, t, x)
    ensures Shape(Apply(s, t, x))
  {
    var s' := Apply(s, t, x);
    forall o | o in s'.threads ensures ThreadOk(s', o) {
      if o != t { assert ThreadOk(s, o); }
    }
    forall u | u in s'.users ensures UserOk(s', u) {
      if u in s.users { assert UserOk(s, u); }
    }
    forall r | r in s'.rooms ensures RoomOk(s', r) {
      if r in s.rooms { assert RoomOk(s, r); }
    }
    forall n | n in s'.directory ensures NameOk(s', n) {
      if n in s.directory { assert NameOk(s, n); }
    }
  }

  lemma HoldersKept(s: State, t: Tid, x: Effect, o: Tid)
    requires Exclusion(s) && Behaved(s, t, x) && o in Apply(s, t, x).threads
    ensures HoldsOk(Apply(s, t, x), o)
  {
    if o != t { assert HoldsOk(s, o); }
  }

  lemma RoomLocksKept(s: State, t: Tid, x: Effect, r: RoomId)
    requires Exclusion(s) && Behaved(s, t, x) && r in Apply(s, t, x).rooms
    ensures RoomLockOk(Apply(s, t, x), r)
  {
    if r in s.rooms { assert RoomLockOk(s, r); }
  }

  lemma QueueLocksKept(s: State, t: Tid, x: Effect, u: Tid)
    requires Exclusion(s) && Behaved(s, t, x) && u in Apply(s, t, x).users
    ensures QueueLockOk(Apply(s, t, x), u)
  {
    if u in s.users { assert QueueLockOk(s, u); }
  }

  lemma ExclusionKept(s: State, t: Tid, x: Effect)
    requires Exclusion(s) && Behaved(s, t, x)
    ensures Exclusion(Apply(s, t, x))
  {
    var s' := Apply(s, t, x);
    forall o | o in s'.threads ensures HoldsOk(s', o) { HoldersKept(s, t, x, o); }
    forall r | r in s'.rooms ensures RoomLockOk(s', r) { RoomLocksKept(s, t, x, r); }
    forall u | u in s'.users ensures QueueLockOk(s', u) { QueueLocksKept(s, t, x, u); }
  }
}
