/** What the clients get for what they said, over all runs: the broadcasts are those asked for, each
    once and in order, and every client is in the room it asked for under the name it gave. */
module ChatAnswers {
  import opened Wrappers
  import opened Codec
  import opened ChatModel
  import opened ChatSafety
  import opened ChatRequests
  import opened ChatLog
  import opened ChatOrigins
  import opened ChatTheorems

  /** Every entry of a log is the broadcast one message of one client asked for: its text, the name
      the client logged in with as a sender, and the room it was then in. */
  lemma LogIsWhatWasAsked(run: seq<State>, turns: seq<Turn>, i: nat, r: RoomId, p: nat) returns (d: Delivery)
    requires IsRunOf(run, turns) && i < |run| && r in run[i].rooms && p < |run[i].rooms[r].log|
    ensures var room := run[i].rooms[r];
            && |room.origins| == |room.log|
            && Asked(MessagesOf(turns[..i], room.origins[p].sender), room.origins[p].count) == Some(d)
            && d.room == room.name && room.log[p] == Payload(d.room, d.sender, d.text)
  {
    TurnsMakeARun(run, turns);
    RunsKeepInv(run, i);
    d := LoggedIsAsked(run[i], r, p);
    HeardIsSaid(run, turns, i, run[i].rooms[r].origins[p].sender);
  }

  lemma LoggedIsAsked(s: State, r: RoomId, p: nat) returns (d: Delivery)
    requires Logged(s) && r in s.rooms && p < |s.rooms[r].log|
    ensures var room := s.rooms[r];
            && |room.origins| == |room.log| && AskedBy(s, room.origins[p]) == Some(d)
            && d.room == room.name && room.log[p] == Payload(d.room, d.sender, d.text)
  {
    assert LogOk(s, r);
    assert IsBroadcast(s, s.rooms[r].origins[p], s.rooms[r].name, s.rooms[r].log[p]);
    d := AskedBy(s, s.rooms[r].origins[p]).value;
  }

  /** A client's messages are broadcast in the order it sent them. */
  lemma BroadcastsKeepTheirOrder(run: seq<State>, i: nat, r: RoomId, p: nat, q: nat)
    requires IsRun(run) && i < |run| && r in run[i].rooms && p < q < |run[i].rooms[r].origins|
    requires run[i].rooms[r].origins[p].sender == run[i].rooms[r].origins[q].sender
    ensures run[i].rooms[r].origins[p].count < run[i].rooms[r].origins[q].count
  {
    RunsKeepInv(run, i);
    assert OrderOk(run[i], r);
  }

  /** No message is broadcast twice, in one room or in two. */
  lemma BroadcastOnce(run: seq<State>, i: nat, r: RoomId, p: nat, r': RoomId, p': nat)
    requires IsRun(run) && i < |run| && r in run[i].rooms && r' in run[i].rooms
    requires p < |run[i].rooms[r].origins| && p' < |run[i].rooms[r'].origins|
    requires run[i].rooms[r].origins[p] == run[i].rooms[r'].origins[p']
    ensures r == r' && p == p'
  {
    RunsKeepInv(run, i);
    OneRoomEach(run[i], r, p, r', p');
    assert OrderOk(run[i], r);
  }

  lemma OneRoomEach(s: State, r: RoomId, p: nat, r': RoomId, p': nat)
    requires Shape(s) && Logged(s) && r in s.rooms && r' in s.rooms
    requires p < |s.rooms[r].origins| && p' < |s.rooms[r'].origins| && s.rooms[r].origins[p] == s.rooms[r'].origins[p']
    ensures r == r'
  {
    assert LogOk(s, r) && LogOk(s, r');
    var d := LoggedIsAsked(s, r, p);
    var d' := LoggedIsAsked(s, r', p');
    assert RoomOk(s, r) && RoomOk(s, r');
  }

  /** Every message that asks for a broadcast is in a log, unless the client's thread is still about
      to lock its room for it; so whatever was answered has been broadcast. */
  lemma EveryRequestIsLogged(run: seq<State>, turns: seq<Turn>, i: nat, t: Tid, n: nat) returns (r: RoomId, p: nat)
    requires IsRunOf(run, turns) && i < |run| && t in run[i].threads && Asked(MessagesOf(turns[..i], t), n).Some?
    requires !(run[i].threads[t].pc.CastLock? && n == |MessagesOf(turns[..i], t)|)
    ensures r in run[i].rooms && p < |run[i].rooms[r].origins| && run[i].rooms[r].origins[p] == Origin(t, n)
  {
    TurnsMakeARun(run, turns);
    RunsKeepInv(run, i);
    HeardIsSaid(run, turns, i, t);
    r, p := AskedIsLogged(run[i], t, n);
  }

  lemma AskedIsLogged(s: State, t: Tid, n: nat) returns (r: RoomId, p: nat)
    requires Ordered(s) && t in s.threads && Asked(Heard(s, t), n).Some?
    requires !(s.threads[t].pc.CastLock? && n == |Heard(s, t)|)
    ensures r in s.rooms && p < |s.rooms[r].origins| && s.rooms[r].origins[p] == Origin(t, n)
  {
    assert AnsweredOk(s, t);
    assert IsLogged(s, Origin(t, n));
    r :| r in s.rooms && Origin(t, n) in s.rooms[r].origins;
    p :| 0 <= p < |s.rooms[r].origins| && s.rooms[r].origins[p] == Origin(t, n);
  }

  /** A client has the name and the role it logged in with, is in the room it asked for last, or in
      none if it left or never asked, and is answered with ok exactly when what it asked for last
      could be granted. */
  lemma ClientsAreObeyed(run: seq<State>, turns: seq<Turn>, i: nat, t: Tid)
    requires IsRunOf(run, turns) && i < |run| && t in run[i].threads
    ensures var s, said := run[i], MessagesOf(turns[..i], t);
            var th := s.threads[t];
            && (t in s.users ==> said != [] && said[0] == Login(th.receiver, s.users[t].name))
            && (!InFinding(th.pc) && th.room.None? ==> RoomAsked(said).None?)
            && (!InFinding(th.pc) && th.room.Some? ==>
                  th.room.value in s.rooms && RoomAsked(said) == Some(s.rooms[th.room.value].name))
            && (th.pc.Reply? ==> (th.pc.ok <==> Granted(said)))
  {
    TurnsMakeARun(run, turns);
    RunsKeepInv(run, i);
    HeardIsSaid(run, turns, i, t);
    assert ThreadOk(run[i], t) && ObeysOk(run[i], t);
  }
}
