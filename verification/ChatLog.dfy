/** Delivery: what is enqueued for a member is a contiguous segment of its room's log. */
module ChatLog {
  import opened Wrappers
  import opened Codec
  import opened ChatModel
  import opened ChatSafety
  import opened ChatMembership
  import opened ChatRequests

  /** Whether the broadcast going on in room r, if any, has yet to enqueue for u. */
  function Pending(s: State, r: RoomId, u: Tid): nat
    requires r in s.rooms
  {
    match s.rooms[r].lock
    case None => 0
    case Some(h) => if h in s.threads && u in Owes(s.threads[h].pc) then 1 else 0
  }

  /** The messages ever enqueued for a user are its room's log between its add and its removal,
      up to a broadcast that has not reached it yet. */
  ghost predicate SegmentOk(s: State, u: Tid)
    requires u in s.users
  {
    var user := s.users[u];
    match user.stint
    case Never => user.pushed == []
    case In(r, from) =>
      r in s.rooms && from + Pending(s, r, u) <= |s.rooms[r].log|
      && user.pushed == s.rooms[r].log[from..|s.rooms[r].log| - Pending(s, r, u)]
    case Out(r, from, to) =>
      r in s.rooms && from <= to <= |s.rooms[r].log| && user.pushed == s.rooms[r].log[from..to]
  }

  /** What message o of a client asks for. */
  function AskedBy(s: State, o: Origin): Option<Delivery> {
    Asked(Heard(s, o.sender), o.count)
  }

  /** The message of a broadcast in this room that a client's message o asked for. */
  ghost predicate IsBroadcast(s: State, o: Origin, room: string, msg: string) {
    match AskedBy(s, o)
    case None => false
    case Some(d) => d.room == room && IsValidName(d.sender) && IsText(d.text) && msg == Payload(room, d.sender, d.text)
  }

  ghost predicate LogOk(s: State, r: RoomId)
    requires r in s.rooms
  {
    var room := s.rooms[r];
    && |room.origins| == |room.log|
    && forall i :: 0 <= i < |room.log| ==> IsBroadcast(s, room.origins[i], room.name, room.log[i])
  }

  /** A broadcast in progress is that of the last entry of the log. */
  ghost predicate CastOk(s: State, t: Tid)
    requires t in s.threads
  {
    var th := s.threads[t];
    && (IsCast(th.pc) ==>
          th.room.Some? && th.room.value in s.rooms
          && var log := s.rooms[th.room.value].log; log != [] && log[|log| - 1] == th.pc.msg)
    && (th.pc.CastLock? ==>
          th.room.Some? && th.room.value in s.rooms
          && IsBroadcast(s, Origin(t, |Heard(s, t)|), s.rooms[th.room.value].name, th.pc.msg))
  }

  ghost predicate Logged(s: State) {
    && (forall u :: u in s.users ==> SegmentOk(s, u))
    && (forall r :: r in s.rooms ==> LogOk(s, r))
    && (forall t :: t in s.threads ==> CastOk(s, t))
  }

  /** t starts broadcasting in room r: the log grows and every member is owed the message. */
  ghost predicate StartsCast(s: State, t: Tid, x: Effect, r: RoomId) {
    && x.room.Changed? && x.room.id == r && r in s.rooms && OldPc(s, t).CastLock?
    && x.room.value.log == s.rooms[r].log + [OldPc(s, t).msg] && s.rooms[r].lock.None?
    && x.room.value.origins == s.rooms[r].origins + [Origin(t, |Heard(s, t)|)]
    && x.thread == Thread(x.thread.receiver, Some(r), Cast(OldPc(s, t).msg, s.rooms[r].members))
    && x.room.value.lock == Some(t) && s.threads[t].room == Some(r)
  }

  /** t enqueues for u, and owes it nothing more. */
  ghost predicate Enqueues(s: State, t: Tid, x: Effect, u: Tid) {
    && OldPc(s, t).PushBody? && OldPc(s, t).to == u && x.user.Changed? && x.user.id == u && u in s.users
    && x.user.value.pushed == s.users[u].pushed + [OldPc(s, t).msg]
    && Owes(x.thread.pc) == OldPc(s, t).todo && x.room.Same?
  }

  ghost predicate WellLogged(s: State, t: Tid, x: Effect) {
    && (x.room.Changed? && x.room.id in s.rooms ==>
          (x.room.value.log == s.rooms[x.room.id].log && x.room.value.origins == s.rooms[x.room.id].origins)
          || StartsCast(s, t, x, x.room.id))
    && (x.user.Changed? && x.user.id in s.users ==>
          x.user.value.pushed == s.users[x.user.id].pushed || Enqueues(s, t, x, x.user.id))
    && (x.user.Changed? && x.user.id in s.users && x.user.value.stint != s.users[x.user.id].stint ==>
          && x.user.id == t && x.user.value.pushed == s.users[t].pushed
          && !IsCast(OldPc(s, t)) && !IsCast(x.thread.pc)
          && x.room.Changed? && x.room.id in s.rooms && x.room.value.log == s.rooms[x.room.id].log
          && s.rooms[x.room.id].lock == Some(t) && x.room.value.lock == Some(t)
          && var n := |s.rooms[x.room.id].log|;
             if s.users[t].stint.In? then
               s.users[t].stint.room == x.room.id
               && x.user.value.stint == Out(x.room.id, s.users[t].stint.from, n)
             else s.users[t].stint.Never? && x.user.value.stint == In(x.room.id, n))
    && (Owes(x.thread.pc) == Owes(OldPc(s, t))
        || (x.room.Changed? && StartsCast(s, t, x, x.room.id))
        || (x.user.Changed? && Enqueues(s, t, x, x.user.id)))
    && (OldPc(s, t).PushBody? ==> x.user.Changed? && Enqueues(s, t, x, x.user.id))
    && (x.room.Changed? && x.room.id in s.rooms && x.room.value.lock != s.rooms[x.room.id].lock ==>
          Owes(OldPc(s, t)) == {} && (Owes(x.thread.pc) == {} || StartsCast(s, t, x, x.room.id)))
  }

  lemma LoggingInLogs(s: State, t: Tid, e: Event)
    requires t in s.threads && s.threads[t].pc.Start? && ThreadOk(s, t)
    requires LoggingIn(s, t, e).Some?
    ensures WellLogged(s, t, LoggingIn(s, t, e).value)
  {
  }

  lemma DeletingLogs(s: State, t: Tid, e: Event)
    requires t in s.threads && s.threads[t].pc.Delete? && ThreadOk(s, t)
    requires Deleting(s, t, e).Some?
    ensures WellLogged(s, t, Deleting(s, t, e).value)
  {
  }

  lemma EnteringLogs(s: State, t: Tid, e: Event)
    requires t in s.threads && InEntering(s.threads[t].pc) && ThreadOk(s, t)
    requires Entering(s, t, e).Some?
    ensures WellLogged(s, t, Entering(s, t, e).value)
  {
  }

  lemma CommandingLogs(s: State, t: Tid, e: Event)
    requires t in s.threads && InCommanding(s.threads[t].pc) && ThreadOk(s, t)
    requires Commanding(s, t, e).Some?
    ensures WellLogged(s, t, Commanding(s, t, e).value)
  {
  }

  lemma FindingLogs(s: State, t: Tid, e: Event)
    requires t in s.threads && InFinding(s.threads[t].pc) && ThreadOk(s, t)
    requires Finding(s, t, e).Some?
    ensures WellLogged(s, t, Finding(s, t, e).value)
  {
  }

  lemma AddingLogs(s: State, t: Tid, e: Event)
    requires t in s.threads && InAdding(s.threads[t].pc) && ThreadOk(s, t)
    requires Adding(s, t, e).Some?
    requires HoldsOk(s, t) && (t in s.users ==> StintOk(s, t))
    ensures WellLogged(s, t, Adding(s, t, e).value)
  {
  }

  lemma RemovingLogs(s: State, t: Tid, e: Event)
    requires t in s.threads && InRemoving(s.threads[t].pc) && ThreadOk(s, t)
    requires Removing(s, t, e).Some?
    requires HoldsOk(s, t) && (t in s.users ==> StintOk(s, t))
    ensures WellLogged(s, t, Removing(s, t, e).value)
  {
  }

  lemma ReceivingLogs(s: State, t: Tid, e: Event)
    requires t in s.threads && InReceiving(s.threads[t].pc) && ThreadOk(s, t)
    requires Receiving(s, t, e).Some?
    ensures WellLogged(s, t, Receiving(s, t, e).value)
  {
  }

  lemma CastingLogs(s: State, t: Tid, e: Event)
    requires t in s.threads && InCasting(s.threads[t].pc) && ThreadOk(s, t)
    requires Casting(s, t, e).Some?
    ensures WellLogged(s, t, Casting(s, t, e).value)
  {
  }

  lemma PushingLogs(s: State, t: Tid, e: Event)
    requires t in s.threads && IsPush(s.threads[t].pc) && ThreadOk(s, t)
    requires Pushing(s, t, e).Some?
    ensures WellLogged(s, t, Pushing(s, t, e).value)
  {
  }

  lemma ActionsLogWell(s: State, t: Tid, e: Event)
    requires Shape(s) && Exclusion(s) && Membered(s) && Next(s, t, e).Some?
    ensures WellLogged(s, t, Next(s, t, e).value)
  {
    assert t in s.users ==> UserOk(s, t) && StintOk(s, t);
    if t in s.threads {
      var pc := s.threads[t].pc;
      assert ThreadOk(s, t) && HoldsOk(s, t);
      if pc.Start? { LoggingInLogs(s, t, e); }
      else if pc.Delete? { DeletingLogs(s, t, e); }
      else if InEntering(pc) { EnteringLogs(s, t, e); }
      else if InCommanding(pc) { CommandingLogs(s, t, e); }
      else if InFinding(pc) { FindingLogs(s, t, e); }
      else if InAdding(pc) { AddingLogs(s, t, e); }
      else if InRemoving(pc) { RemovingLogs(s, t, e); }
      else if InReceiving(pc) { ReceivingLogs(s, t, e); }
      else if InCasting(pc) { CastingLogs(s, t, e); }
      else { PushingLogs(s, t, e); }
    }
  }

  lemma PendingKept(s: State, t: Tid, x: Effect, r: RoomId, u: Tid)
    requires r in s.rooms && Behaved(s, t, x) && WellLogged(s, t, x)
    requires !StartsCast(s, t, x, r) && !Enqueues(s, t, x, u)
    requires s.rooms[r].lock == Some(t) ==> t in s.threads
    requires x.room.Changed? && StartsCast(s, t, x, x.room.id) ==> s.rooms[r].lock != Some(t)
    ensures Pending(Apply(s, t, x), r, u) == Pending(s, r, u)
  {
  }

  /** A room never waits for a member of another room. */
  lemma EnqueuesForItsOwn(s: State, t: Tid, x: Effect, u: Tid)
    requires Exclusion(s) && Membered(s) && Logged(s) && Enqueues(s, t, x, u) && t in s.threads
    requires u in s.users && s.users[u].stint.In?
    ensures var r := s.users[u].stint.room;
            && r in s.rooms && s.rooms[r].lock == Some(t) && Pending(s, r, u) == 1
            && s.rooms[r].log != [] && s.rooms[r].log[|s.rooms[r].log| - 1] == s.threads[t].pc.msg
            && u !in s.threads[t].pc.todo
  {
    assert OwesOk(s, t) && HoldsOk(s, t) && CastOk(s, t);
    assert MembersOk(s, s.threads[t].room.value);
  }

  lemma SegmentExtended(log: seq<string>, from: nat, msg: string)
    requires log != [] && log[|log| - 1] == msg && from < |log|
    ensures log[from..|log| - 1] + [msg] == log[from..]
  {
  }

  lemma EnqueueKeepsSegment(s: State, t: Tid, x: Effect, u: Tid)
    requires Exclusion(s) && Membered(s) && Logged(s) && Behaved(s, t, x) && t in s.threads
    requires Enqueues(s, t, x, u) && WellLogged(s, t, x)
    ensures SegmentOk(Apply(s, t, x), u)
  {
    assert SegmentOk(s, u) && OwesOk(s, t);
    assert MembersOk(s, s.threads[t].room.value);
    EnqueuesForItsOwn(s, t, x, u);
    EnqueuedSegment(s, t, x, u);
  }

  lemma EnqueuedSegment(s: State, t: Tid, x: Effect, u: Tid)
    requires t in s.threads && u in s.users && Enqueues(s, t, x, u) && SegmentOk(s, u)
    requires s.users[u].stint.In? && x.user.value.stint == s.users[u].stint
    requires var r := s.users[u].stint.room;
             && r in s.rooms && s.rooms[r].lock == Some(t) && Pending(s, r, u) == 1
             && s.rooms[r].log != [] && s.rooms[r].log[|s.rooms[r].log| - 1] == s.threads[t].pc.msg
             && u !in s.threads[t].pc.todo
    ensures SegmentOk(Apply(s, t, x), u)
  {
    var r, from := s.users[u].stint.room, s.users[u].stint.from;
    SegmentExtended(s.rooms[r].log, from, s.threads[t].pc.msg);
  }

  lemma CastKeepsSegment(s: State, t: Tid, x: Effect, u: Tid)
    requires Membered(s) && Logged(s) && WellLogged(s, t, x) && t in s.threads && u in s.users
    requires x.room.Changed? && StartsCast(s, t, x, x.room.id) && s.users[u].stint.In?
    requires s.users[u].stint.room == x.room.id
    requires x.user.Changed? && x.user.id == u ==>
               x.user.value.stint == s.users[u].stint && x.user.value.pushed == s.users[u].pushed
    ensures SegmentOk(Apply(s, t, x), u)
  {
    assert SegmentOk(s, u) && StintOk(s, u);
    var r, from := x.room.id, s.users[u].stint.from;
    assert x.room.value.log[from..|s.rooms[r].log|] == s.rooms[r].log[from..];
  }

  /** A change of stint happens under the room's mutex, when nothing is pending there. */
  lemma StintChangeKeepsSegment(s: State, t: Tid, x: Effect)
    requires Logged(s) && Behaved(s, t, x) && WellLogged(s, t, x)
    requires t in s.users && x.user.Changed? && x.user.id == t && x.user.value.stint != s.users[t].stint
    requires t in s.threads && HoldsRoom(s.threads[t].pc) && !IsCast(s.threads[t].pc) && !IsCast(x.thread.pc)
    ensures SegmentOk(Apply(s, t, x), t)
  {
    assert SegmentOk(s, t);
  }

  lemma QuietKeepsSegment(s: State, t: Tid, x: Effect, u: Tid)
    requires Behaved(s, t, x) && WellLogged(s, t, x) && u in s.users && SegmentOk(s, u) && !Enqueues(s, t, x, u)
    requires s.users[u].stint.In? ==> RoomLockOk(s, s.users[u].stint.room)
    requires x.user.Changed? && x.user.id == u ==> x.user.value.stint == s.users[u].stint
    requires s.users[u].stint.In? ==> !StartsCast(s, t, x, s.users[u].stint.room)
    ensures SegmentOk(Apply(s, t, x), u)
  {
    var s', stint := Apply(s, t, x), s.users[u].stint;
    assert s'.users[u].stint == stint && s'.users[u].pushed == s.users[u].pushed;
    match stint
    case Never =>
    case In(r, from) =>
      PendingKept(s, t, x, r, u);
      assert s'.rooms[r].log == s.rooms[r].log;
    case Out(r, from, to) =>
      assert s.rooms[r].log <= s'.rooms[r].log;
      PrefixSlice(s.rooms[r].log, s'.rooms[r].log, from, to);
  }

  lemma PrefixSlice(log: seq<string>, log': seq<string>, from: nat, to: nat)
    requires log <= log' && from <= to <= |log|
    ensures log'[from..to] == log[from..to]
  {
  }

  lemma SegmentKept(s: State, t: Tid, x: Effect, u: Tid)
    requires Shape(s) && Exclusion(s) && Membered(s) && Logged(s) && Behaved(s, t, x) && WellLogged(s, t, x)
    requires u in Apply(s, t, x).users
    ensures SegmentOk(Apply(s, t, x), u)
  {
    if u in s.users {
      assert UserOk(s, u);
      if x.user.Changed? && Enqueues(s, t, x, u) {
        EnqueueKeepsSegment(s, t, x, u);
      } else if x.user.Changed? && x.user.id == u && x.user.value.stint != s.users[u].stint {
        assert RoomLockOk(s, x.room.id);
        StintChangeKeepsSegment(s, t, x);
      } else if s.users[u].stint.In? && StartsCast(s, t, x, s.users[u].stint.room) {
        CastKeepsSegment(s, t, x, u);
      } else {
        assert SegmentOk(s, u);
        QuietKeepsSegment(s, t, x, u);
      }
    }
  }

  /** No step takes from a broadcast what asked for it, as what was heard stays. */
  lemma BroadcastStays(s: State, t: Tid, x: Effect, o: Origin, room: string, msg: string)
    requires IsBroadcast(s, o, room, msg)
    ensures IsBroadcast(Apply(s, t, x), o, room, msg)
  {
    AskedStays(Heard(s, o.sender), Heard(Apply(s, t, x), o.sender), o.count);
  }

  lemma CommandingCasts(s: State, t: Tid, e: Event, x: Effect)
    requires t in s.threads && InCommanding(s.threads[t].pc) && Commanding(s, t, e) == Some(x)
    requires ThreadOk(s, t) && ObeysOk(s, t) && (t in s.users ==> UserOk(s, t))
    ensures CastOk(Apply(s, t, x), t)
  {
    assert (Heard(s, t) + [e])[..|Heard(s, t)|] == Heard(s, t);
  }

  lemma CastingCasts(s: State, t: Tid, e: Event, x: Effect)
    requires t in s.threads && InCasting(s.threads[t].pc) && CastOk(s, t) && Casting(s, t, e) == Some(x)
    ensures CastOk(Apply(s, t, x), t)
  {
  }

  lemma PushingCasts(s: State, t: Tid, e: Event, x: Effect)
    requires t in s.threads && IsPush(s.threads[t].pc) && CastOk(s, t) && Pushing(s, t, e) == Some(x)
    ensures CastOk(Apply(s, t, x), t)
  {
  }

  lemma OthersDoNotSend(s: State, t: Tid, e: Event, x: Effect)
    requires Next(s, t, e) == Some(x)
    requires t in s.threads ==>
               !InCasting(s.threads[t].pc) && !IsPush(s.threads[t].pc) && !InCommanding(s.threads[t].pc)
    ensures !Sends(x.thread.pc)
  {
  }

  lemma SilentCast(s: State, t: Tid, x: Effect)
    requires !Sends(x.thread.pc)
    ensures CastOk(Apply(s, t, x), t)
  {
  }

  lemma OwnCastKept(s: State, t: Tid, e: Event, x: Effect)
    requires Shape(s) && Obedient(s) && Logged(s) && Next(s, t, e) == Some(x)
    ensures CastOk(Apply(s, t, x), t)
  {
    if t in s.threads && (InCommanding(s.threads[t].pc) || InCasting(s.threads[t].pc) || IsPush(s.threads[t].pc)) {
      assert ThreadOk(s, t) && ObeysOk(s, t) && (t in s.users ==> UserOk(s, t)) && CastOk(s, t);
      SenderCastKept(s, t, e, x);
    } else {
      OthersDoNotSend(s, t, e, x);
      SilentCast(s, t, x);
    }
  }

  lemma SenderCastKept(s: State, t: Tid, e: Event, x: Effect)
    requires t in s.threads && ThreadOk(s, t) && ObeysOk(s, t) && (t in s.users ==> UserOk(s, t)) && CastOk(s, t)
    requires Next(s, t, e) == Some(x)
    requires InCommanding(s.threads[t].pc) || InCasting(s.threads[t].pc) || IsPush(s.threads[t].pc)
    ensures CastOk(Apply(s, t, x), t)
  {
    if InCommanding(s.threads[t].pc) {
      CommandingCasts(s, t, e, x);
    } else if InCasting(s.threads[t].pc) {
      CastingCasts(s, t, e, x);
    } else {
      PushingCasts(s, t, e, x);
    }
  }

  lemma OtherCastKept(s: State, t: Tid, x: Effect, o: Tid)
    requires Exclusion(s) && Logged(s) && Behaved(s, t, x) && WellLogged(s, t, x)
    requires o in s.threads && o != t
    ensures CastOk(Apply(s, t, x), o)
  {
    assert CastOk(s, o) && HoldsOk(s, o);
    if s.threads[o].pc.CastLock? {
      BroadcastStays(s, t, x, Origin(o, |Heard(s, o)|), s.rooms[s.threads[o].room.value].name, s.threads[o].pc.msg);
    }
  }

  lemma LogKept(s: State, t: Tid, x: Effect, r: RoomId)
    requires Logged(s) && Behaved(s, t, x) && WellLogged(s, t, x)
    requires r in Apply(s, t, x).rooms
    ensures LogOk(Apply(s, t, x), r)
  {
    if r in s.rooms {
      assert LogOk(s, r);
      if StartsCast(s, t, x, r) {
        assert CastOk(s, t);
      }
      var s' := Apply(s, t, x);
      forall i | 0 <= i < |s'.rooms[r].log|
        ensures IsBroadcast(s', s'.rooms[r].origins[i], s'.rooms[r].name, s'.rooms[r].log[i])
      {
        BroadcastStays(s, t, x, s'.rooms[r].origins[i], s.rooms[r].name, s'.rooms[r].log[i]);
      }
    }
  }

  lemma LoggedKept(s: State, t: Tid, e: Event)
    requires Shape(s) && Exclusion(s) && Membered(s) && Obedient(s) && Logged(s) && Next(s, t, e).Some?
    requires Behaved(s, t, Next(s, t, e).value) && WellLogged(s, t, Next(s, t, e).value)
    ensures Logged(Apply(s, t, Next(s, t, e).value))
  {
    var x := Next(s, t, e).value;
    var s' := Apply(s, t, x);
    forall u | u in s'.users ensures SegmentOk(s', u) { SegmentKept(s, t, x, u); }
    forall r | r in s'.rooms ensures LogOk(s', r) { LogKept(s, t, x, r); }
    forall o | o in s'.threads ensures CastOk(s', o) {
      if o == t { OwnCastKept(s, t, e, x); } else { OtherCastKept(s, t, x, o); }
    }
  }
}
