/** What the clients asked for, read off the messages they sent, and what the server makes of it:
    who a thread's user is, which room it is in, and what its replies say. */
module ChatRequests {
  import opened Wrappers
  import opened Codec
  import opened ChatModel
  import opened ChatSafety

  // ----- the meaning of a client's messages -----

  /** The room asked for last, if any: that of the last valid join, unless the client left since. */
  function RoomAsked(heard: seq<Event>): Option<string> {
    if heard == [] then None
    else
      var e := heard[|heard| - 1];
      if e.Join? && IsValidName(e.name) then Some(e.name)
      else if e.Leave? then None
      else RoomAsked(heard[..|heard| - 1])
  }

  /** The last message is one to be answered with ok. */
  predicate Granted(heard: seq<Event>) {
    heard != []
    && var e := heard[|heard| - 1];
       if e.Join? then IsValidName(e.name)
       else (e.SendAll? || e.Leave?) && RoomAsked(heard[..|heard| - 1]).Some?
  }

  /** The broadcast the n-th message of a client asks for: its text, under the name the client
      logged in with as a sender, in the room it was then in. */
  function Asked(heard: seq<Event>, n: nat): Option<Delivery> {
    if 0 < n <= |heard| && heard[n - 1].SendAll? && heard[0].Login? && !heard[0].receiver
       && RoomAsked(heard[..n - 1]).Some?
    then Some(Delivery(RoomAsked(heard[..n - 1]).value, heard[0].name, heard[n - 1].text))
    else None
  }

  lemma AskedStays(heard: seq<Event>, heard': seq<Event>, n: nat)
    requires heard <= heard' && n <= |heard|
    ensures Asked(heard', n) == Asked(heard, n)
  {
    if n > 0 {
      assert heard'[..n - 1] == heard[..n - 1];
    }
  }

  /** Some join of that valid name has neither a valid join nor a leave after it. */
  ghost predicate LastJoined(heard: seq<Event>, name: string) {
    exists k ::
      && 0 <= k < |heard| && heard[k] == Join(name) && IsValidName(name)
      && forall j :: k < j < |heard| ==> !heard[j].Leave? && !(heard[j].Join? && IsValidName(heard[j].name))
  }

  lemma {:induction false} AskedLast(heard: seq<Event>, name: string)
    ensures RoomAsked(heard) == Some(name) <==> LastJoined(heard, name)
  {
    if heard != [] {
      var n := |heard| - 1;
      var before := heard[..n];
      AskedLast(before, name);
      if LastJoined(heard, name) {
        var k :| 0 <= k < |heard| && heard[k] == Join(name) && IsValidName(name)
                 && forall j :: k < j < |heard| ==> !heard[j].Leave? && !(heard[j].Join? && IsValidName(heard[j].name));
        assert k < n ==> before[k] == Join(name);
      }
      if LastJoined(before, name) {
        var k :| 0 <= k < n && before[k] == Join(name) && IsValidName(name)
                 && forall j :: k < j < n ==> !before[j].Leave? && !(before[j].Join? && IsValidName(before[j].name));
        assert heard[k] == Join(name);
        assert forall j | k < j < n :: heard[j] == before[j];
      }
    }
  }

  lemma OneMoreMessage(heard: seq<Event>, e: Event)
    ensures RoomAsked(heard + [e])
            == if e.Join? && IsValidName(e.name) then Some(e.name) else if e.Leave? then None else RoomAsked(heard)
    ensures Granted(heard + [e]) <==>
            if e.Join? then IsValidName(e.name) else (e.SendAll? || e.Leave?) && RoomAsked(heard).Some?
  {
    assert (heard + [e])[..|heard|] == heard;
  }

  /** The messages of u's client among the turns taken. */
  function MessagesOf(turns: seq<Turn>, u: Tid): seq<Event> {
    if turns == [] then []
    else
      var before, last := MessagesOf(turns[..|turns| - 1], u), turns[|turns| - 1];
      if last.thread == u && IsMessage(last.event) then before + [last.event] else before
  }

  // ----- the invariants -----

  /** A user has the name and the role of its login. */
  ghost predicate LoginOk(s: State, t: Tid)
    requires t in s.threads
  {
    var heard := Heard(s, t);
    && (s.threads[t].pc.Start? ==> heard == [])
    && (t in s.users ==> heard != [] && heard[0] == Login(s.threads[t].receiver, s.users[t].name))
  }

  /** The name of the room a thread is in, or on its way to. */
  function Place(s: State, th: Thread): Option<string> {
    if th.pc.FindLock? || th.pc.FindBody? then Some(th.pc.name)
    else
      var r := if th.pc.FindUnlock? then Some(th.pc.found) else th.room;
      if r.Some? && r.value in s.rooms then Some(s.rooms[r.value].name) else None
  }

  ghost predicate PlaceOk(s: State, t: Tid)
    requires t in s.threads
  {
    Place(s, s.threads[t]) == RoomAsked(Heard(s, t))
  }

  /** Doing what was asked for. */
  predicate Obeying(pc: Pc) {
    InFinding(pc) || Sends(pc) || pc.CastUnlock?
  }

  ghost predicate ReplyOk(s: State, t: Tid)
    requires t in s.threads
  {
    var pc := s.threads[t].pc;
    (pc.Reply? ==> (pc.ok <==> Granted(Heard(s, t)))) && (Obeying(pc) ==> Granted(Heard(s, t)))
  }

  ghost predicate ObeysOk(s: State, t: Tid)
    requires t in s.threads
  {
    LoginOk(s, t) && PlaceOk(s, t) && ReplyOk(s, t)
  }

  ghost predicate Obedient(s: State) {
    && (forall t :: t in s.threads ==> ObeysOk(s, t))
    && (forall t :: t in s.heard ==> t in s.threads)
  }

  // ----- every action keeps them -----

  lemma LoggingInObeys(s: State, t: Tid, e: Event, x: Effect)
    requires t in s.threads && s.threads[t].pc.Start? && ThreadOk(s, t) && ObeysOk(s, t)
    requires LoggingIn(s, t, e) == Some(x)
    ensures ObeysOk(Apply(s, t, x), t)
  {
    OneMoreMessage([], e);
  }

  lemma EnteringObeys(s: State, t: Tid, e: Event, x: Effect)
    requires t in s.threads && InEntering(s.threads[t].pc) && ThreadOk(s, t) && ObeysOk(s, t)
    requires Entering(s, t, e) == Some(x)
    ensures ObeysOk(Apply(s, t, x), t)
  {
    OneMoreMessage(Heard(s, t), e);
  }

  lemma CommandingObeys(s: State, t: Tid, e: Event, x: Effect)
    requires t in s.threads && InCommanding(s.threads[t].pc) && ThreadOk(s, t) && ObeysOk(s, t)
    requires Commanding(s, t, e) == Some(x)
    ensures ObeysOk(Apply(s, t, x), t)
  {
    assert s.threads[t].room.Some? <==> RoomAsked(Heard(s, t)).Some?;
    CommandingIsPlaced(s, t, e, x);
    CommandingIsAnswered(s, t, e, x);
  }

  lemma CommandingIsPlaced(s: State, t: Tid, e: Event, x: Effect)
    requires t in s.threads && InCommanding(s.threads[t].pc) && ThreadOk(s, t) && PlaceOk(s, t)
    requires Commanding(s, t, e) == Some(x)
    ensures PlaceOk(Apply(s, t, x), t)
  {
    OneMoreMessage(Heard(s, t), e);
  }

  lemma CommandingIsAnswered(s: State, t: Tid, e: Event, x: Effect)
    requires t in s.threads && InCommanding(s.threads[t].pc) && Commanding(s, t, e) == Some(x)
    requires s.threads[t].room.Some? <==> RoomAsked(Heard(s, t)).Some?
    ensures ReplyOk(Apply(s, t, x), t)
  {
    OneMoreMessage(Heard(s, t), e);
  }

  lemma FindingObeys(s: State, t: Tid, e: Event, x: Effect)
    requires t in s.threads && InFinding(s.threads[t].pc) && ThreadOk(s, t) && ObeysOk(s, t)
    requires forall n :: n in s.directory ==> NameOk(s, n)
    requires Finding(s, t, e) == Some(x)
    ensures ObeysOk(Apply(s, t, x), t)
  {
  }

  lemma AddingObeys(s: State, t: Tid, e: Event, x: Effect)
    requires t in s.threads && InAdding(s.threads[t].pc) && ThreadOk(s, t) && ObeysOk(s, t)
    requires Adding(s, t, e) == Some(x)
    ensures ObeysOk(Apply(s, t, x), t)
  {
  }

  lemma RemovingObeys(s: State, t: Tid, e: Event, x: Effect)
    requires t in s.threads && (InRemoving(s.threads[t].pc) || s.threads[t].pc.Delete?)
    requires ThreadOk(s, t) && ObeysOk(s, t) && Next(s, t, e) == Some(x)
    ensures ObeysOk(Apply(s, t, x), t)
  {
  }

  lemma ReceivingObeys(s: State, t: Tid, e: Event, x: Effect)
    requires t in s.threads && InReceiving(s.threads[t].pc) && ThreadOk(s, t) && ObeysOk(s, t)
    requires Receiving(s, t, e) == Some(x)
    ensures ObeysOk(Apply(s, t, x), t)
  {
  }

  lemma CastingObeys(s: State, t: Tid, e: Event, x: Effect)
    requires t in s.threads && InCasting(s.threads[t].pc) && ThreadOk(s, t) && ObeysOk(s, t)
    requires Casting(s, t, e) == Some(x)
    ensures ObeysOk(Apply(s, t, x), t)
  {
  }

  lemma PushingObeys(s: State, t: Tid, e: Event, x: Effect)
    requires t in s.threads && IsPush(s.threads[t].pc) && ThreadOk(s, t) && ObeysOk(s, t)
    requires Pushing(s, t, e) == Some(x)
    ensures ObeysOk(Apply(s, t, x), t)
  {
  }

  lemma ConnectingObeys(s: State, t: Tid, e: Event, x: Effect)
    requires t !in s.threads && Obedient(s) && (t in s.users ==> UserOk(s, t)) && Next(s, t, e) == Some(x)
    ensures ObeysOk(Apply(s, t, x), t)
  {
  }

  lemma ActionsObey(s: State, t: Tid, e: Event, x: Effect)
    requires Shape(s) && Obedient(s) && Next(s, t, e) == Some(x)
    ensures ObeysOk(Apply(s, t, x), t)
  {
    assert t in s.users ==> UserOk(s, t);
    if t in s.threads {
      var pc := s.threads[t].pc;
      assert ThreadOk(s, t) && ObeysOk(s, t);
      if pc.Start? { LoggingInObeys(s, t, e, x); }
      else if InRemoving(pc) || pc.Delete? { RemovingObeys(s, t, e, x); }
      else if InEntering(pc) { EnteringObeys(s, t, e, x); }
      else if InCommanding(pc) { CommandingObeys(s, t, e, x); }
      else if InFinding(pc) { FindingObeys(s, t, e, x); }
      else if InAdding(pc) { AddingObeys(s, t, e, x); }
      else if InReceiving(pc) { ReceivingObeys(s, t, e, x); }
      else if InCasting(pc) { CastingObeys(s, t, e, x); }
      else { PushingObeys(s, t, e, x); }
    } else {
      ConnectingObeys(s, t, e, x);
    }
  }

  /** Nobody else's messages, name or room are touched. */
  lemma OthersObey(s: State, t: Tid, x: Effect, o: Tid)
    requires Obedient(s) && Behaved(s, t, x) && o in s.threads && o != t && ThreadOk(s, o)
    ensures ObeysOk(Apply(s, t, x), o)
  {
    assert ObeysOk(s, o);
  }

  lemma ObedientKept(s: State, t: Tid, e: Event, x: Effect)
    requires Shape(s) && Obedient(s) && Next(s, t, e) == Some(x) && Behaved(s, t, x)
    ensures Obedient(Apply(s, t, x))
  {
    var s' := Apply(s, t, x);
    forall o | o in s'.threads ensures ObeysOk(s', o) {
      if o == t {
        ActionsObey(s, t, e, x);
      } else {
        assert ThreadOk(s, o);
        OthersObey(s, t, x, o);
      }
    }
  }

  // ----- what was heard is what was said -----

  /** The messages recorded for a client are those of the turns taken, whatever the interleaving. */
  lemma {:induction false} HeardIsSaid(run: seq<State>, turns: seq<Turn>, i: nat, u: Tid)
    requires IsRunOf(run, turns) && i < |run|
    ensures Heard(run[i], u) == MessagesOf(turns[..i], u)
  {
    if i > 0 {
      HeardIsSaid(run, turns, i - 1, u);
      assert turns[..i][..i - 1] == turns[..i - 1];
      assert Act(run[i - 1], turns[i - 1].thread, turns[i - 1].event) == Some(run[i - 1 + 1]);
    }
  }

  /** A run turn by turn is a run. */
  lemma TurnsMakeARun(run: seq<State>, turns: seq<Turn>)
    requires IsRunOf(run, turns)
    ensures IsRun(run)
  {
    forall i | 0 <= i < |run| - 1 ensures Leads(run[i], run[i + 1]) {
      assert Act(run[i], turns[i].thread, turns[i].event) == Some(run[i + 1]);
    }
  }
}
