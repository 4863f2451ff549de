/** Every message that asks for a broadcast becomes one log entry, in the order of asking: none is
    lost, repeated or overtaken. */
module ChatOrigins {
  import opened Wrappers
  import opened Codec
  import opened ChatModel
  import opened ChatSafety
  import opened ChatMembership
  import opened ChatRequests
  import opened ChatLog

  ghost predicate IsLogged(s: State, o: Origin) {
    exists r :: r in s.rooms && o in s.rooms[r].origins
  }

  /** What t is about to broadcast is later than all it has broadcast. */
  ghost predicate LaterOk(s: State, t: Tid, r: RoomId)
    requires t in s.threads && r in s.rooms
  {
    forall o :: o in s.rooms[r].origins && o.sender == t ==>
      o.count + (if s.threads[t].pc.CastLock? then 1 else 0) <= |Heard(s, t)|
  }

  ghost predicate OrderOk(s: State, r: RoomId)
    requires r in s.rooms
  {
    var origins := s.rooms[r].origins;
    forall i, j :: 0 <= i < j < |origins| && origins[i].sender == origins[j].sender ==>
      origins[i].count < origins[j].count
  }

  /** Everything t was asked to broadcast is in a log, but for what it is about to broadcast. */
  ghost predicate AnsweredOk(s: State, t: Tid)
    requires t in s.threads
  {
    forall n :: Asked(Heard(s, t), n).Some? && !(s.threads[t].pc.CastLock? && n == |Heard(s, t)|) ==>
      IsLogged(s, Origin(t, n))
  }

  ghost predicate Ordered(s: State) {
    && (forall t, r :: t in s.threads && r in s.rooms ==> LaterOk(s, t, r))
    && (forall r :: r in s.rooms ==> OrderOk(s, r))
    && (forall t :: t in s.threads ==> AnsweredOk(s, t))
  }

  /** A broadcast about to start does start with the next action, and only a message that asks for
      one leads there. */
  ghost predicate WellAsked(s: State, t: Tid, x: Effect) {
    && (OldPc(s, t).CastLock? ==> x.room.Changed? && StartsCast(s, t, x, x.room.id))
    && (OldPc(s, t).CastLock? ==> !IsMessage(x.event) && !x.thread.pc.CastLock?)
    && (x.thread.pc.CastLock? ==> IsMessage(x.event))
    && (x.event.SendAll? && RoomAsked(Heard(s, t)).Some? ==> x.thread.pc.CastLock?)
  }

  lemma CommandingAsks(s: State, t: Tid, e: Event, x: Effect)
    requires t in s.threads && InCommanding(s.threads[t].pc) && ThreadOk(s, t) && PlaceOk(s, t)
    requires Commanding(s, t, e) == Some(x)
    ensures WellAsked(s, t, x)
  {
  }

  lemma CastingAsks(s: State, t: Tid, e: Event, x: Effect)
    requires t in s.threads && InCasting(s.threads[t].pc) && Casting(s, t, e) == Some(x)
    ensures WellAsked(s, t, x)
  {
  }

  lemma OthersAreNotAsked(s: State, t: Tid, e: Event, x: Effect)
    requires Next(s, t, e) == Some(x)
    requires t in s.threads ==> !InCommanding(s.threads[t].pc) && !InCasting(s.threads[t].pc)
    ensures !e.SendAll? && !x.thread.pc.CastLock?
  {
  }

  lemma ActionsAskWell(s: State, t: Tid, e: Event, x: Effect)
    requires Next(s, t, e) == Some(x) && (t in s.threads ==> ThreadOk(s, t) && PlaceOk(s, t))
    ensures WellAsked(s, t, x)
  {
    if t in s.threads && InCommanding(s.threads[t].pc) {
      CommandingAsks(s, t, e, x);
    } else if t in s.threads && InCasting(s.threads[t].pc) {
      CastingAsks(s, t, e, x);
    } else {
      OthersAreNotAsked(s, t, e, x);
    }
  }

  lemma LaterKept(s: State, t: Tid, x: Effect, o: Tid, r: RoomId)
    requires Logged(s) && Ordered(s) && RoomChange(s, t, x) && WellLogged(s, t, x) && WellAsked(s, t, x)
    requires o in Apply(s, t, x).threads && r in Apply(s, t, x).rooms
    ensures LaterOk(Apply(s, t, x), o, r)
  {
    if r in s.rooms {
      assert LogOk(s, r);
      if o in s.threads { assert LaterOk(s, o, r); }
    }
  }

  lemma OrderKept(s: State, t: Tid, x: Effect, r: RoomId)
    requires Ordered(s) && RoomChange(s, t, x) && WellLogged(s, t, x) && r in Apply(s, t, x).rooms
    ensures OrderOk(Apply(s, t, x), r)
  {
    if r in s.rooms {
      assert OrderOk(s, r);
      if t in s.threads { assert LaterOk(s, t, r); }
    }
  }

  lemma LoggedStays(s: State, t: Tid, x: Effect, o: Origin)
    requires RoomChange(s, t, x) && IsLogged(s, o)
    ensures IsLogged(Apply(s, t, x), o)
  {
    var r :| r in s.rooms && o in s.rooms[r].origins;
    assert r in Apply(s, t, x).rooms && o in Apply(s, t, x).rooms[r].origins;
  }

  lemma StartedIsLogged(s: State, t: Tid, x: Effect)
    requires x.room.Changed? && StartsCast(s, t, x, x.room.id)
    ensures IsLogged(Apply(s, t, x), Origin(t, |Heard(s, t)|))
  {
    var origins := Apply(s, t, x).rooms[x.room.id].origins;
    assert origins[|origins| - 1] == Origin(t, |Heard(s, t)|);
  }

  lemma AskedBefore(heard: seq<Event>, e: Event, n: nat)
    requires Asked(heard + [e], n).Some?
    ensures if n <= |heard| then Asked(heard, n).Some? else e.SendAll? && RoomAsked(heard).Some?
  {
    assert (heard + [e])[..n - 1] == heard[..n - 1];
    assert heard[..|heard|] == heard;
  }

  lemma AnsweredKept(s: State, t: Tid, x: Effect, o: Tid)
    requires Ordered(s) && Obedient(s) && RoomChange(s, t, x) && WellAsked(s, t, x) && o in Apply(s, t, x).threads
    ensures AnsweredOk(Apply(s, t, x), o)
  {
    var s' := Apply(s, t, x);
    assert o in s.threads ==> AnsweredOk(s, o);
    forall n | Asked(Heard(s', o), n).Some? && !(s'.threads[o].pc.CastLock? && n == |Heard(s', o)|)
      ensures IsLogged(s', Origin(o, n))
    {
      if Heard(s', o) != Heard(s, o) { AskedBefore(Heard(s, o), x.event, n); }
      if o == t && OldPc(s, t).CastLock? && n == |Heard(s, t)| {
        StartedIsLogged(s, t, x);
      } else {
        LoggedStays(s, t, x, Origin(o, n));
      }
    }
  }

  lemma OrderedKept(s: State, t: Tid, e: Event, x: Effect)
    requires Shape(s) && Obedient(s) && Logged(s) && Ordered(s) && Next(s, t, e) == Some(x)
    requires RoomChange(s, t, x) && WellLogged(s, t, x)
    ensures Ordered(Apply(s, t, x))
  {
    var s' := Apply(s, t, x);
    assert t in s.threads ==> ThreadOk(s, t) && ObeysOk(s, t);
    ActionsAskWell(s, t, e, x);
    forall o, r | o in s'.threads && r in s'.rooms ensures LaterOk(s', o, r) { LaterKept(s, t, x, o, r); }
    forall r | r in s'.rooms ensures OrderOk(s', r) { OrderKept(s, t, x, r); }
    forall o | o in s'.threads ensures AnsweredOk(s', o) { AnsweredKept(s, t, x, o); }
  }
}
