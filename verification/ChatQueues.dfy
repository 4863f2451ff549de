/** Semaphore accounting and first-in-first-out order of every message queue. */
module ChatQueues {
  import opened Wrappers
  import opened Codec
  import opened ChatModel
  import opened ChatSafety
  import opened ChatMembership

  /** The threads, any number, that have pushed onto u's queue and not yet posted. */
  function Pushers(s: State, u: Tid): set<Tid> {
    set o | o in s.threads && HasPushed(s.threads[o].pc, u)
  }

  /** Whether the owner has waited on the semaphore and not yet popped. */
  function Waiters(s: State, u: Tid): nat {
    if u in s.threads && HasWaited(s.threads[u].pc) then 1 else 0
  }

  /** The semaphore counts the messages, up to those in flight; what was popped is the front of
      what was pushed. */
  ghost predicate QueueOk(s: State, u: Tid)
    requires u in s.users
  {
    var user := s.users[u];
    && |user.messages| == user.avail + |Pushers(s, u)| + Waiters(s, u)
    && user.pushed == user.popped + user.messages
  }

  /** What was delivered is what was popped, but for the message at hand, and was short enough
      to send. */
  ghost predicate HistoryOk(s: State, u: Tid)
    requires u in s.users
  {
    && u in s.threads
    && (forall m :: m in s.users[u].delivered ==> Fits(m))
    && var user, pc := s.users[u], s.threads[u].pc;
       if pc.PopUnlock? || pc.Deliver? then user.popped == user.delivered + [pc.msg]
       else if InEarly(pc) || pc.AddUnlock? || pc.Confirm? || InReceiving(pc) then user.popped == user.delivered
       else user.delivered <= user.popped
  }

  ghost predicate Queued(s: State) {
    forall u :: u in s.users ==> QueueOk(s, u) && HistoryOk(s, u)
  }

  function One(b: bool): nat {
    if b then 1 else 0
  }

  /** A push, post, wait or pop moves the balance of one queue as its counters say, and no
      action moves that of another. */
  ghost predicate WellQueued(s: State, t: Tid, x: Effect) {
    var pc, pc' := OldPc(s, t), x.thread.pc;
    && (x.user.Changed? && x.user.id in s.users ==>
          var u, before, after := x.user.id, s.users[x.user.id], x.user.value;
          && |after.messages| + before.avail + One(HasPushed(pc, u)) + One(u == t && HasWaited(pc))
             == |before.messages| + after.avail + One(HasPushed(pc', u)) + One(u == t && HasWaited(pc'))
          && (before.pushed == before.popped + before.messages ==> after.pushed == after.popped + after.messages))
    && (x.user.Changed? && x.user.id !in s.users ==> pc'.Greet?)
    && (forall u :: HasPushed(pc, u) != HasPushed(pc', u) ==> x.user.Changed? && x.user.id == u)
    && (HasWaited(pc) != HasWaited(pc') ==> x.user.Changed? && x.user.id == t)
  }

  lemma LoggingInQueues(s: State, t: Tid, e: Event)
    requires t in s.threads && s.threads[t].pc.Start? && ThreadOk(s, t)
    requires LoggingIn(s, t, e).Some?
    ensures WellQueued(s, t, LoggingIn(s, t, e).value)
  {
  }

  lemma DeletingQueues(s: State, t: Tid, e: Event)
    requires t in s.threads && s.threads[t].pc.Delete? && ThreadOk(s, t)
    requires Deleting(s, t, e).Some?
    ensures WellQueued(s, t, Deleting(s, t, e).value)
  {
  }

  lemma EnteringQueues(s: State, t: Tid, e: Event)
    requires t in s.threads && InEntering(s.threads[t].pc) && ThreadOk(s, t)
    requires Entering(s, t, e).Some?
    ensures WellQueued(s, t, Entering(s, t, e).value)
  {
  }

  lemma CommandingQueues(s: State, t: Tid, e: Event)
    requires t in s.threads && InCommanding(s.threads[t].pc) && ThreadOk(s, t)
    requires Commanding(s, t, e).Some?
    ensures WellQueued(s, t, Commanding(s, t, e).value)
  {
  }

  lemma FindingQueues(s: State, t: Tid, e: Event)
    requires t in s.threads && InFinding(s.threads[t].pc) && ThreadOk(s, t)
    requires Finding(s, t, e).Some?
    ensures WellQueued(s, t, Finding(s, t, e).value)
  {
  }

  lemma AddingQueues(s: State, t: Tid, e: Event)
    requires t in s.threads && InAdding(s.threads[t].pc) && ThreadOk(s, t)
    requires Adding(s, t, e).Some?
    ensures WellQueued(s, t, Adding(s, t, e).value)
  {
  }

  lemma RemovingQueues(s: State, t: Tid, e: Event)
    requires t in s.threads && InRemoving(s.threads[t].pc) && ThreadOk(s, t)
    requires Removing(s, t, e).Some?
    ensures WellQueued(s, t, Removing(s, t, e).value)
  {
  }

  lemma ReceivingQueues(s: State, t: Tid, e: Event)
    requires t in s.threads && InReceiving(s.threads[t].pc) && ThreadOk(s, t)
    requires Receiving(s, t, e).Some?
    ensures WellQueued(s, t, Receiving(s, t, e).value)
  {
  }

  lemma CastingQueues(s: State, t: Tid, e: Event)
    requires t in s.threads && InCasting(s.threads[t].pc) && ThreadOk(s, t)
    requires Casting(s, t, e).Some?
    ensures WellQueued(s, t, Casting(s, t, e).value)
  {
  }

  lemma PushingQueues(s: State, t: Tid, e: Event)
    requires t in s.threads && IsPush(s.threads[t].pc) && ThreadOk(s, t)
    requires Pushing(s, t, e).Some?
    ensures WellQueued(s, t, Pushing(s, t, e).value)
  {
  }

  lemma ActionsQueueWell(s: State, t: Tid, e: Event)
    requires Shape(s) && Next(s, t, e).Some?
    ensures WellQueued(s, t, Next(s, t, e).value)
  {
    if t in s.threads {
      var pc := s.threads[t].pc;
      assert ThreadOk(s, t);
      if pc.Start? { LoggingInQueues(s, t, e); }
      else if pc.Delete? { DeletingQueues(s, t, e); }
      else if InEntering(pc) { EnteringQueues(s, t, e); }
      else if InCommanding(pc) { CommandingQueues(s, t, e); }
      else if InFinding(pc) { FindingQueues(s, t, e); }
      else if InAdding(pc) { AddingQueues(s, t, e); }
      else if InRemoving(pc) { RemovingQueues(s, t, e); }
      else if InReceiving(pc) { ReceivingQueues(s, t, e); }
      else if InCasting(pc) { CastingQueues(s, t, e); }
      else { PushingQueues(s, t, e); }
    } else {
      assert t in s.users ==> UserOk(s, t);
    }
  }

  lemma ReceivingHistory(s: State, t: Tid, e: Event, x: Effect)
    requires t in s.threads && InReceiving(s.threads[t].pc) && t in s.users && HistoryOk(s, t)
    requires Receiving(s, t, e) == Some(x)
    ensures HistoryOk(Apply(s, t, x), t)
  {
  }

  /** Actions other than receiving leave a worker's own history alone. */
  ghost predicate Passive(s: State, t: Tid, x: Effect) {
    && !x.thread.pc.PopUnlock? && !x.thread.pc.Deliver?
    && (t in s.users && x.user.Changed? && x.user.id == t ==>
          x.user.value.popped == s.users[t].popped && x.user.value.delivered == s.users[t].delivered)
    && (t in s.users
        && (InEarly(x.thread.pc) || x.thread.pc.AddUnlock? || x.thread.pc.Confirm? || InReceiving(x.thread.pc)) ==>
          t in s.threads && (InEarly(s.threads[t].pc) || s.threads[t].pc.AddUnlock? || s.threads[t].pc.Confirm?))
  }

  lemma EarlyArePassive(s: State, t: Tid, e: Event, x: Effect)
    requires t in s.threads && ThreadOk(s, t) && Next(s, t, e) == Some(x)
    requires var pc := s.threads[t].pc; pc.Start? || InEntering(pc) || InCommanding(pc)
    ensures Passive(s, t, x)
  {
  }

  lemma MiddleArePassive(s: State, t: Tid, e: Event, x: Effect)
    requires t in s.threads && ThreadOk(s, t) && Next(s, t, e) == Some(x)
    requires var pc := s.threads[t].pc; InFinding(pc) || InCasting(pc)
    ensures Passive(s, t, x)
  {
  }

  lemma LateArePassive(s: State, t: Tid, e: Event, x: Effect)
    requires t in s.threads && ThreadOk(s, t) && Next(s, t, e) == Some(x)
    requires var pc := s.threads[t].pc; InAdding(pc) || InRemoving(pc) || pc.Delete?
    ensures Passive(s, t, x)
  {
  }

  lemma PushingIsPassive(s: State, t: Tid, e: Event, x: Effect)
    requires t in s.threads && IsPush(s.threads[t].pc) && Pushing(s, t, e) == Some(x)
    ensures Passive(s, t, x)
  {
  }

  lemma PassiveHistory(s: State, t: Tid, x: Effect)
    requires (t in s.threads ==> ThreadOk(s, t)) && (t in s.users ==> HistoryOk(s, t))
    requires Passive(s, t, x) && UserChange(s, t, x) && t in Apply(s, t, x).users
    ensures HistoryOk(Apply(s, t, x), t)
  {
  }

  lemma OthersArePassive(s: State, t: Tid, e: Event, x: Effect)
    requires t in s.threads && ThreadOk(s, t) && Next(s, t, e) == Some(x) && !InReceiving(s.threads[t].pc)
    ensures Passive(s, t, x)
  {
    var pc := s.threads[t].pc;
    if IsPush(pc) { PushingIsPassive(s, t, e, x); }
    else if InAdding(pc) || InRemoving(pc) || pc.Delete? { LateArePassive(s, t, e, x); }
    else if InFinding(pc) || InCasting(pc) { MiddleArePassive(s, t, e, x); }
    else { EarlyArePassive(s, t, e, x); }
  }

  lemma OwnHistoryKept(s: State, t: Tid, e: Event, x: Effect)
    requires (t in s.threads ==> ThreadOk(s, t)) && (t in s.users ==> UserOk(s, t) && HistoryOk(s, t))
    requires Next(s, t, e) == Some(x) && UserChange(s, t, x) && t in Apply(s, t, x).users
    ensures HistoryOk(Apply(s, t, x), t)
  {
    if t in s.threads {
      if InReceiving(s.threads[t].pc) {
        ReceivingHistory(s, t, e, x);
      } else {
        OthersArePassive(s, t, e, x);
        PassiveHistory(s, t, x);
      }
    }
  }

  lemma PushersAfter(s: State, t: Tid, x: Effect, u: Tid)
    ensures |Pushers(Apply(s, t, x), u)| + One(HasPushed(OldPc(s, t), u))
            == |Pushers(s, u)| + One(HasPushed(x.thread.pc, u))
  {
    var before, after := Pushers(s, u), Pushers(Apply(s, t, x), u);
    assert after - {t} == before - {t};
    assert |before| == |before - {t}| + One(t in before);
    assert |after| == |after - {t}| + One(t in after);
  }

  lemma NobodyPushesToStrangers(s: State, u: Tid)
    requires Membered(s) && u !in s.users
    ensures Pushers(s, u) == {}
  {
    forall o | o in s.threads ensures !HasPushed(s.threads[o].pc, u) {
      assert OwesOk(s, o);
      assert s.threads[o].room.Some? && s.threads[o].room.value in s.rooms ==> MembersOk(s, s.threads[o].room.value);
    }
  }

  lemma QueueKept(s: State, t: Tid, x: Effect, u: Tid)
    requires Membered(s) && Queued(s) && UserChange(s, t, x) && WellQueued(s, t, x) && u in Apply(s, t, x).users
    ensures QueueOk(Apply(s, t, x), u)
  {
    PushersAfter(s, t, x, u);
    if u in s.users {
      assert QueueOk(s, u);
    } else {
      NobodyPushesToStrangers(s, u);
    }
  }

  lemma HistoryKept(s: State, t: Tid, x: Effect, u: Tid)
    requires Queued(s) && UserChange(s, t, x) && u in Apply(s, t, x).users && u != t
    ensures HistoryOk(Apply(s, t, x), u)
  {
    assert HistoryOk(s, u);
  }

  lemma QueuedKept(s: State, t: Tid, e: Event)
    requires Shape(s) && Membered(s) && Queued(s) && Next(s, t, e).Some?
    requires UserChange(s, t, Next(s, t, e).value)
    ensures Queued(Apply(s, t, Next(s, t, e).value))
  {
    var x := Next(s, t, e).value;
    ActionsQueueWell(s, t, e);
    forall u | u in Apply(s, t, x).users
      ensures QueueOk(Apply(s, t, x), u) && HistoryOk(Apply(s, t, x), u)
    {
      QueueKept(s, t, x, u);
      if u == t {
        assert t in s.users ==> UserOk(s, t) && HistoryOk(s, t);
        OwnHistoryKept(s, t, e, x);
      } else {
        HistoryKept(s, t, x, u);
      }
    }
  }
}
