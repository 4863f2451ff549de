/** Who is in a room, and for whom a broadcast has still to enqueue. */
module ChatMembership {
  import opened Wrappers
  import opened Codec
  import opened ChatModel
  import opened ChatSafety

  ghost predicate MembersOk(s: State, r: RoomId)
    requires r in s.rooms
  {
    forall u :: u in s.rooms[r].members ==> u in s.users && s.users[u].stint.In? && s.users[u].stint.room == r
  }

  /** A user is a member exactly while its worker is between inserting and erasing it. */
  ghost predicate StintOk(s: State, u: Tid)
    requires u in s.users
  {
    var stint := s.users[u].stint;
    && u in s.threads
    && (stint.In? <==> IsMember(s.threads[u].pc))
    && (!stint.Never? ==> s.threads[u].room == Some(stint.room) && stint.room in s.rooms)
    && (stint.In? ==> u in s.rooms[stint.room].members)
    && (InEarly(s.threads[u].pc) ==> stint.Never?)
  }

  /** A broadcast owes its message to members only. */
  ghost predicate OwesOk(s: State, t: Tid)
    requires t in s.threads
  {
    var th := s.threads[t];
    IsCast(th.pc) ==>
      && th.room.Some? && th.room.value in s.rooms
      && (forall u :: u in Owes(th.pc) ==> u in s.rooms[th.room.value].members)
      && (IsPush(th.pc) ==> th.pc.to in s.rooms[th.room.value].members && th.pc.to !in th.pc.todo)
  }

  ghost predicate Membered(s: State) {
    && (forall r :: r in s.rooms ==> MembersOk(s, r))
    && (forall u :: u in s.users ==> StintOk(s, u))
    && (forall t :: t in s.threads ==> OwesOk(s, t))
  }

  /** Members come and go only by their own thread, under the room's mutex. */
  ghost predicate WellJoined(s: State, t: Tid, x: Effect) {
    && (x.room.Changed? && x.room.id in s.rooms && x.room.value.members != s.rooms[x.room.id].members ==>
          var before := s.rooms[x.room.id].members;
          && s.rooms[x.room.id].lock == Some(t)
          && x.user.Changed? && x.user.id == t
          && ((x.room.value.members == before + {t} && x.user.value.stint.In? && x.user.value.stint.room == x.room.id)
              || (x.room.value.members == before - {t} && x.user.value.stint.Out?)))
    && (x.user.Changed? && x.user.id in s.users && s.users[x.user.id].stint.In?
        && x.user.value.stint != s.users[x.user.id].stint ==>
          x.room.Changed? && x.room.id in s.rooms && x.room.id == s.users[x.user.id].stint.room
          && x.room.value.members != s.rooms[x.room.id].members)
    && (t in Apply(s, t, x).users ==> StintOk(Apply(s, t, x), t))
  }

  lemma LoggingInJoins(s: State, t: Tid, e: Event)
    requires t in s.threads && s.threads[t].pc.Start? && ThreadOk(s, t)
    requires LoggingIn(s, t, e).Some?
    ensures WellJoined(s, t, LoggingIn(s, t, e).value)
  {
  }

  lemma EnteringJoins(s: State, t: Tid, e: Event)
    requires t in s.threads && InEntering(s.threads[t].pc) && ThreadOk(s, t) && (t in s.users ==> StintOk(s, t))
    requires Entering(s, t, e).Some?
    ensures WellJoined(s, t, Entering(s, t, e).value)
  {
  }

  lemma DeletingJoins(s: State, t: Tid, e: Event)
    requires t in s.threads && s.threads[t].pc.Delete? && ThreadOk(s, t) && (t in s.users ==> StintOk(s, t))
    requires Deleting(s, t, e).Some?
    ensures WellJoined(s, t, Deleting(s, t, e).value)
  {
  }

  lemma CommandingJoins(s: State, t: Tid, e: Event)
    requires t in s.threads && InCommanding(s.threads[t].pc) && ThreadOk(s, t) && (t in s.users ==> StintOk(s, t))
    requires Commanding(s, t, e).Some?
    ensures WellJoined(s, t, Commanding(s, t, e).value)
  {
  }

  lemma FindingJoins(s: State, t: Tid, e: Event)
    requires t in s.threads && InFinding(s.threads[t].pc) && ThreadOk(s, t) && (t in s.users ==> StintOk(s, t))
    requires Finding(s, t, e).Some?
    ensures WellJoined(s, t, Finding(s, t, e).value)
  {
  }

  lemma ReceivingJoins(s: State, t: Tid, e: Event)
    requires t in s.threads && InReceiving(s.threads[t].pc) && ThreadOk(s, t) && (t in s.users ==> StintOk(s, t))
    requires Receiving(s, t, e).Some?
    ensures WellJoined(s, t, Receiving(s, t, e).value)
  {
    var x := Receiving(s, t, e).value;
    assert x.room.Same? && t in s.users;
    assert x.user.Changed? ==> x.user.id == t && x.user.value.stint == s.users[t].stint;
    assert IsMember(x.thread.pc) && x.thread.room == s.threads[t].room;
    MemberStays(s, t, x);
  }

  /** An action of a member that leaves rooms and its stint alone. */
  lemma MemberStays(s: State, t: Tid, x: Effect)
    requires t in s.threads && t in s.users && StintOk(s, t) && IsMember(s.threads[t].pc)
    requires x.room.Same? && (x.user.Changed? ==> x.user.id == t && x.user.value.stint == s.users[t].stint)
    requires IsMember(x.thread.pc) && x.thread.room == s.threads[t].room
    ensures WellJoined(s, t, x)
  {
  }

  lemma AddingJoins(s: State, t: Tid, e: Event)
    requires t in s.threads && HoldsOk(s, t) && t in s.users && StintOk(s, t)
    requires InAdding(s.threads[t].pc) && Adding(s, t, e).Some?
    ensures WellJoined(s, t, Adding(s, t, e).value)
  {
  }

  lemma RemovingJoins(s: State, t: Tid, e: Event)
    requires t in s.threads && HoldsOk(s, t) && t in s.users && StintOk(s, t)
    requires InRemoving(s.threads[t].pc) && Removing(s, t, e).Some?
    ensures WellJoined(s, t, Removing(s, t, e).value)
  {
  }

  lemma CastingJoins(s: State, t: Tid, e: Event)
    requires t in s.threads && ThreadOk(s, t) && (t in s.users ==> StintOk(s, t))
    requires InCasting(s.threads[t].pc) && Casting(s, t, e).Some?
    ensures WellJoined(s, t, Casting(s, t, e).value)
  {
  }

  lemma PushingJoins(s: State, t: Tid, e: Event)
    requires t in s.threads && ThreadOk(s, t) && (t in s.users ==> StintOk(s, t))
    requires IsPush(s.threads[t].pc) && Pushing(s, t, e).Some?
    ensures WellJoined(s, t, Pushing(s, t, e).value)
  {
  }

  lemma ActionsJoinWell(s: State, t: Tid, e: Event)
    requires Shape(s) && Exclusion(s) && Membered(s) && Next(s, t, e).Some?
    ensures WellJoined(s, t, Next(s, t, e).value)
  {
    assert t in s.users ==> UserOk(s, t) && StintOk(s, t);
    if t in s.threads {
      var pc := s.threads[t].pc;
      assert ThreadOk(s, t) && HoldsOk(s, t);
      if pc.Start? { LoggingInJoins(s, t, e); }
      else if pc.Delete? { DeletingJoins(s, t, e); }
      else if InEntering(pc) { EnteringJoins(s, t, e); }
      else if InCommanding(pc) { CommandingJoins(s, t, e); }
      else if InFinding(pc) { FindingJoins(s, t, e); }
      else if InAdding(pc) { AddingJoins(s, t, e); }
      else if InRemoving(pc) { RemovingJoins(s, t, e); }
      else if InReceiving(pc) { ReceivingJoins(s, t, e); }
      else if InCasting(pc) { CastingJoins(s, t, e); }
      else { PushingJoins(s, t, e); }
    }
  }

  lemma CastingOwes(s: State, t: Tid, e: Event, x: Effect)
    requires t in s.threads && InCasting(s.threads[t].pc) && OwesOk(s, t) && Casting(s, t, e) == Some(x)
    ensures OwesOk(Apply(s, t, x), t)
  {
  }

  lemma PushingOwes(s: State, t: Tid, e: Event, x: Effect)
    requires t in s.threads && IsPush(s.threads[t].pc) && OwesOk(s, t) && Pushing(s, t, e) == Some(x)
    ensures OwesOk(Apply(s, t, x), t)
  {
  }

  /** Only a broadcast turns into a broadcast. */
  lemma OthersDoNotCast(s: State, t: Tid, e: Event, x: Effect)
    requires Next(s, t, e) == Some(x)
    requires t in s.threads ==> !InCasting(s.threads[t].pc) && !IsPush(s.threads[t].pc)
    ensures !IsCast(x.thread.pc)
  {
  }

  lemma ActionsOweWell(s: State, t: Tid, e: Event, x: Effect)
    requires Membered(s) && Next(s, t, e) == Some(x)
    ensures OwesOk(Apply(s, t, x), t)
  {
    if t in s.threads && (InCasting(s.threads[t].pc) || IsPush(s.threads[t].pc)) {
      assert OwesOk(s, t);
      if InCasting(s.threads[t].pc) { CastingOwes(s, t, e, x); } else { PushingOwes(s, t, e, x); }
    } else {
      OthersDoNotCast(s, t, e, x);
    }
  }

  lemma StintsKept(s: State, t: Tid, x: Effect, u: Tid)
    requires Membered(s) && Behaved(s, t, x) && WellJoined(s, t, x) && u in Apply(s, t, x).users
    ensures StintOk(Apply(s, t, x), u)
  {
    if u != t { assert StintOk(s, u); }
  }

  lemma MembersKept(s: State, t: Tid, x: Effect, r: RoomId)
    requires Membered(s) && Behaved(s, t, x) && WellJoined(s, t, x) && r in Apply(s, t, x).rooms
    ensures MembersOk(Apply(s, t, x), r)
  {
    if r in s.rooms { assert MembersOk(s, r); }
  }

  lemma OwesKept(s: State, t: Tid, x: Effect, o: Tid)
    requires Exclusion(s) && Membered(s) && Behaved(s, t, x) && WellJoined(s, t, x)
    requires o in Apply(s, t, x).threads && OwesOk(Apply(s, t, x), t)
    ensures OwesOk(Apply(s, t, x), o)
  {
    if o != t { assert OwesOk(s, o) && HoldsOk(s, o); }
  }

  lemma MemberedKept(s: State, t: Tid, x: Effect)
    requires Exclusion(s) && Membered(s) && Behaved(s, t, x) && WellJoined(s, t, x)
    requires OwesOk(Apply(s, t, x), t)
    ensures Membered(Apply(s, t, x))
  {
    var s' := Apply(s, t, x);
    forall r | r in s'.rooms ensures MembersOk(s', r) { MembersKept(s, t, x, r); }
    forall u | u in s'.users ensures StintOk(s', u) { StintsKept(s, t, x, u); }
    forall o | o in s'.threads ensures OwesOk(s', o) { OwesKept(s, t, x, o); }
  }
}
