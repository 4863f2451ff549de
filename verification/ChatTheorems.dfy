/** What every run of the server guarantees, for any number of clients and any interleaving of
    their threads. */
module ChatTheorems {
  import opened Wrappers
  import opened Codec
  import opened Rio
  import opened ChatModel
  import opened ChatSafety
  import opened ChatMembership
  import opened ChatQueues
  import opened ChatRequests
  import opened ChatLog
  import opened ChatOrigins

  /** What the server relies on: ownership, mutual exclusion, membership and queues. */
  ghost predicate Sound(s: State) {
    Shape(s) && Exclusion(s) && Membered(s) && Queued(s)
  }

  /** What its clients rely on. */
  ghost predicate Faithful(s: State) {
    Obedient(s) && Logged(s) && Ordered(s)
  }

  ghost predicate Inv(s: State) {
    Sound(s) && Faithful(s)
  }

  lemma StepKeepsInv(s: State, t: Tid, e: Event)
    requires Inv(s) && Act(s, t, e).Some?
    ensures Inv(Act(s, t, e).value)
  {
    var x := Next(s, t, e).value;
    ActionsWriteWell(s, t, e);
    ActionsLockWell(s, t, e);
    ActionsJoinWell(s, t, e);
    ActionsOweWell(s, t, e, x);
    ActionsLogWell(s, t, e);
    ShapeKept(s, t, x);
    ExclusionKept(s, t, x);
    MemberedKept(s, t, x);
    QueuedKept(s, t, e);
    ObedientKept(s, t, e, x);
    LoggedKept(s, t, e);
    OrderedKept(s, t, e, x);
  }

  lemma EmptyIsInv()
    ensures Inv(Empty)
  {
  }

  /** Every state of every run satisfies every invariant. */
  lemma {:induction false} RunsKeepInv(run: seq<State>, i: nat)
    requires IsRun(run) && i < |run|
    ensures Inv(run[i])
  {
    if i == 0 {
      EmptyIsInv();
    } else {
      RunsKeepInv(run, i - 1);
      assert Leads(run[i - 1], run[i - 1 + 1]);
      LeadingKeepsInv(run[i - 1], run[i]);
    }
  }

  lemma RunsAreSound(run: seq<State>, i: nat)
    requires IsRun(run) && i < |run|
    ensures Sound(run[i])
  {
    RunsKeepInv(run, i);
  }

  lemma LeadingKeepsInv(s: State, s': State)
    requires Inv(s) && Leads(s, s')
    ensures Inv(s')
  {
    var t, e :| Act(s, t, e) == Some(s');
    StepKeepsInv(s, t, e);
  }

  // ----- delivery -----

  /** The part of its room's log that a user was a member for. */
  function Segment(s: State, u: Tid): seq<string>
    requires u in s.users && !s.users[u].stint.Never? && s.users[u].stint.room in s.rooms
    requires var stint := s.users[u].stint;
             stint.from <= (if stint.Out? then stint.to else |s.rooms[stint.room].log|)
                        <= |s.rooms[stint.room].log|
  {
    var stint := s.users[u].stint;
    s.rooms[stint.room].log[stint.from..(if stint.Out? then stint.to else |s.rooms[stint.room].log|)]
  }

  /** Contiguous delivery: whenever a room's mutex is free, the messages ever enqueued for a
      receiver are exactly the segment of the room's log between its add and its removal; what
      it popped, and what was delivered, is the front of that. */
  lemma DeliveryIsContiguous(run: seq<State>, i: nat, u: Tid)
    requires IsRun(run) && i < |run| && u in run[i].users && !run[i].users[u].stint.Never?
    ensures var s := run[i];
            var stint := s.users[u].stint;
            && stint.room in s.rooms
            && stint.from <= (if stint.Out? then stint.to else |s.rooms[stint.room].log|)
                          <= |s.rooms[stint.room].log|
            && (s.rooms[stint.room].lock.None? || stint.Out? ==> s.users[u].pushed == Segment(s, u))
            && s.users[u].pushed <= Segment(s, u)
            && s.users[u].delivered <= s.users[u].popped <= s.users[u].pushed
  {
    var s := run[i];
    RunsKeepInv(run, i);
    assert SegmentOk(s, u) && QueueOk(s, u) && HistoryOk(s, u);
    PushedIsSegment(s, u);
  }

  lemma PushedIsSegment(s: State, u: Tid)
    requires u in s.users && SegmentOk(s, u) && !s.users[u].stint.Never?
    ensures var stint := s.users[u].stint;
            && stint.room in s.rooms
            && stint.from <= (if stint.Out? then stint.to else |s.rooms[stint.room].log|)
                          <= |s.rooms[stint.room].log|
            && (s.rooms[stint.room].lock.None? || stint.Out? ==> s.users[u].pushed == Segment(s, u))
            && s.users[u].pushed <= Segment(s, u)
  {
  }

  /** Any two receivers of a room agree: a log position that both were members for is the same
      message to both, at the place its distance from each one's first message gives. */
  lemma ReceiversAgree(run: seq<State>, i: nat, u: Tid, v: Tid, p: nat)
    requires IsRun(run) && i < |run|
    requires u in run[i].users && !run[i].users[u].stint.Never?
    requires v in run[i].users && !run[i].users[v].stint.Never?
    requires run[i].users[u].stint.room == run[i].users[v].stint.room
    requires var a, b := run[i].users[u], run[i].users[v];
             a.stint.from <= p < a.stint.from + |a.pushed| && b.stint.from <= p < b.stint.from + |b.pushed|
    ensures var a, b := run[i].users[u], run[i].users[v];
            a.pushed[p - a.stint.from] == b.pushed[p - b.stint.from]
  {
    DeliveryIsContiguous(run, i, u);
    DeliveryIsContiguous(run, i, v);
    var s := run[i];
    var log := s.rooms[s.users[u].stint.room].log;
    assert s.users[u].pushed[p - s.users[u].stint.from] == Segment(s, u)[p - s.users[u].stint.from] == log[p];
    assert s.users[v].pushed[p - s.users[v].stint.from] == Segment(s, v)[p - s.users[v].stint.from] == log[p];
  }

  // ----- lifetimes and rooms -----

  /** No broadcast touches a deleted queue: members, and the target of every enqueue in
      progress, are live users. */
  lemma MembersAreAlive(run: seq<State>, i: nat)
    requires IsRun(run) && i < |run|
    ensures forall r, u :: r in run[i].rooms && u in run[i].rooms[r].members ==>
              u in run[i].users && run[i].users[u].alive
    ensures forall t :: t in run[i].threads && IsPush(run[i].threads[t].pc) ==>
              run[i].threads[t].pc.to in run[i].users && run[i].users[run[i].threads[t].pc.to].alive
  {
    RunsKeepInv(run, i);
    MembersLive(run[i]);
    TargetsLive(run[i]);
  }

  lemma MembersLive(s: State)
    requires Shape(s) && Membered(s)
    ensures forall r, u :: r in s.rooms && u in s.rooms[r].members ==> u in s.users && s.users[u].alive
  {
    forall r, u | r in s.rooms && u in s.rooms[r].members ensures u in s.users && s.users[u].alive {
      assert MembersOk(s, r) && StintOk(s, u) && ThreadOk(s, u);
    }
  }

  lemma TargetsLive(s: State)
    requires Shape(s) && Membered(s)
    ensures forall t :: t in s.threads && IsPush(s.threads[t].pc) ==>
              s.threads[t].pc.to in s.users && s.users[s.threads[t].pc.to].alive
  {
    MembersLive(s);
    forall t | t in s.threads && IsPush(s.threads[t].pc)
      ensures s.threads[t].pc.to in s.users && s.users[s.threads[t].pc.to].alive
    {
      assert OwesOk(s, t);
    }
  }

  lemma DirectoryOnlyGrows(s: State, t: Tid, e: Event, n: string)
    requires Inv(s) && Act(s, t, e).Some? && n in s.directory
    ensures n in Act(s, t, e).value.directory && Act(s, t, e).value.directory[n] == s.directory[n]
  {
    ActionsWriteWell(s, t, e);
  }

  /** Each name has one Room, the same for the whole run, and no two names share one. */
  lemma RoomsAreUnique(run: seq<State>, i: nat, j: nat, n: string)
    requires IsRun(run) && i <= j < |run| && n in run[i].directory
    ensures n in run[j].directory && run[j].directory[n] == run[i].directory[n]
    ensures run[j].directory[n] in run[j].rooms && run[j].rooms[run[j].directory[n]].name == n
    ensures forall m :: m in run[j].directory && run[j].directory[m] == run[j].directory[n] ==> m == n
  {
    forall k | 0 <= k < |run| - 1 ensures Grows(run[k], run[k + 1]) {
      NextGrows(run, k);
    }
    NameKept(run, i, j, n);
    RunsKeepInv(run, j);
    NamesAreDistinct(run[j], n);
  }

  /** Names in the directory keep their room. */
  ghost predicate Grows(s: State, s': State) {
    forall n :: n in s.directory ==> n in s'.directory && s'.directory[n] == s.directory[n]
  }

  lemma NextGrows(run: seq<State>, k: nat)
    requires IsRun(run) && k + 1 < |run|
    ensures Grows(run[k], run[k + 1])
  {
    RunsKeepInv(run, k);
    forall n | n in run[k].directory
      ensures n in run[k + 1].directory && run[k + 1].directory[n] == run[k].directory[n]
    {
      NamesStay(run[k], run[k + 1], n);
    }
  }

  lemma {:induction false} NameKept(run: seq<State>, i: nat, j: nat, n: string)
    requires i <= j < |run| && n in run[i].directory
    requires forall k :: 0 <= k < |run| - 1 ==> Grows(run[k], run[k + 1])
    ensures n in run[j].directory && run[j].directory[n] == run[i].directory[n]
    decreases j
  {
    if i < j {
      NameKept(run, i, j - 1, n);
      assert Grows(run[j - 1], run[j - 1 + 1]);
    }
  }

  lemma NamesStay(s: State, s': State, n: string)
    requires Inv(s) && Leads(s, s') && n in s.directory
    ensures n in s'.directory && s'.directory[n] == s.directory[n]
  {
    var t, e :| Act(s, t, e) == Some(s');
    DirectoryOnlyGrows(s, t, e, n);
  }

  lemma NamesAreDistinct(s: State, n: string)
    requires Shape(s) && n in s.directory
    ensures s.directory[n] in s.rooms && s.rooms[s.directory[n]].name == n
    ensures forall m :: m in s.directory && s.directory[m] == s.directory[n] ==> m == n
  {
    assert NameOk(s, n);
    forall m | m in s.directory && s.directory[m] == s.directory[n] ensures m == n {
      assert NameOk(s, m);
    }
  }

  // ----- the semaphore -----

  /** The number of messages queued is the semaphore's value, plus the threads between push and
      post, plus the owner between wait and pop; so the queue is never empty when it is popped,
      and messages leave in the order they came. */
  lemma SemaphoreCounts(run: seq<State>, i: nat, u: Tid)
    requires IsRun(run) && i < |run| && u in run[i].users
    ensures var s := run[i];
            var user := s.users[u];
            && |user.messages| == user.avail + |Pushers(s, u)| + Waiters(s, u)
            && (u in s.threads && s.threads[u].pc.PopBody? ==> user.messages != [])
            && user.pushed == user.popped + user.messages
  {
    RunsKeepInv(run, i);
    assert QueueOk(run[i], u);
  }

  // ----- from the sender's text to the receiver's screen -----

  /** What is needed of logged messages to be delivered as the broadcasts asked for. */
  lemma BroadcastsAreDeliverable(s: State, room: string, origins: seq<Origin>, msgs: seq<string>)
    returns (ds: seq<Delivery>)
    requires IsValidName(room) && |origins| == |msgs|
    requires forall i :: 0 <= i < |msgs| ==> IsBroadcast(s, origins[i], room, msgs[i]) && Fits(msgs[i])
    ensures |ds| == |msgs|
    ensures forall i :: 0 <= i < |ds| ==>
              AskedBy(s, origins[i]) == Some(ds[i]) && ds[i].room == room && Deliverable(ds[i])
    ensures DeliveryMessages(ds) == Deliveries(msgs)
  {
    if msgs == [] {
      ds := [];
    } else {
      var n := |msgs| - 1;
      var d := BroadcastIsDeliverable(s, room, origins[n], msgs[n]);
      var before := BroadcastsAreDeliverable(s, room, origins[..n], msgs[..n]);
      ds := before + [d];
      assert Deliveries(msgs) == Deliveries(msgs[..n]) + [Message("delivery", msgs[n])];
      assert DeliveryMessages(ds) == DeliveryMessages(before) + [Message("delivery", msgs[n])];
    }
  }

  lemma BroadcastIsDeliverable(s: State, room: string, o: Origin, msg: string) returns (d: Delivery)
    requires IsValidName(room) && IsBroadcast(s, o, room, msg) && Fits(msg)
    ensures AskedBy(s, o) == Some(d) && d.room == room && Deliverable(d)
    ensures msg == Payload(d.room, d.sender, d.text)
  {
    d := AskedBy(s, o).value;
  }

  /** The messages a receiver's worker writes to its connection. */
  function Deliveries(msgs: seq<string>): seq<Message> {
    seq(|msgs|, i requires 0 <= i < |msgs| => Message("delivery", msgs[i]))
  }

  lemma FrontOfSegment(log: seq<string>, from: nat, to: nat, a: seq<string>, b: seq<string>, c: seq<string>)
    requires from <= to <= |log| && a <= b <= c <= log[from..to]
    ensures from + |a| <= |log| && forall k :: 0 <= k < |a| ==> a[k] == log[from + k]
  {
  }

  /** The deliveries made to u are the first entries of its room's log after it joined. */
  lemma DeliveredFromLog(run: seq<State>, i: nat, u: Tid)
    requires IsRun(run) && i < |run| && u in run[i].users && !run[i].users[u].stint.Never?
    ensures var s := run[i];
            var user := s.users[u];
            && user.stint.room in s.rooms
            && user.stint.from + |user.delivered| <= |s.rooms[user.stint.room].log|
            && (forall k :: 0 <= k < |user.delivered| ==>
                  user.delivered[k] == s.rooms[user.stint.room].log[user.stint.from + k])
  {
    var s := run[i];
    var user := s.users[u];
    DeliveryIsContiguous(run, i, u);
    var log := s.rooms[user.stint.room].log;
    FrontOfSegment(log, user.stint.from, if user.stint.Out? then user.stint.to else |log|,
                   user.delivered, user.popped, user.pushed);
  }

  /** And those are the broadcasts that clients asked for in the room u asked for. */
  lemma DeliveredAreBroadcasts(run: seq<State>, i: nat, u: Tid)
    requires IsRun(run) && i < |run| && u in run[i].users && !run[i].users[u].stint.Never?
    ensures var s := run[i];
            var user := s.users[u];
            && user.stint.room in s.rooms && RoomAsked(Heard(s, u)) == Some(s.rooms[user.stint.room].name)
            && IsValidName(s.rooms[user.stint.room].name)
            && var room, from := s.rooms[user.stint.room], user.stint.from;
               && from + |user.delivered| <= |room.log| == |room.origins|
               && (forall k :: 0 <= k < |user.delivered| ==>
                     IsBroadcast(s, room.origins[from + k], room.name, user.delivered[k]) && Fits(user.delivered[k]))
  {
    DeliveredFromLog(run, i, u);
    RunsKeepInv(run, i);
    var s := run[i];
    assert RoomOk(s, s.users[u].stint.room) && LogOk(s, s.users[u].stint.room) && HistoryOk(s, u);
    InTheRoomAsked(s, u);
  }

  lemma InTheRoomAsked(s: State, u: Tid)
    requires Inv(s) && u in s.users && !s.users[u].stint.Never?
    ensures s.users[u].stint.room in s.rooms
    ensures RoomAsked(Heard(s, u)) == Some(s.rooms[s.users[u].stint.room].name)
  {
    assert UserOk(s, u) && StintOk(s, u) && ThreadOk(s, u) && ObeysOk(s, u);
  }

  // ----- what is on the wire -----

  /** What a send of the broadcast after the last delivery may leave on the wire when it fails. */
  ghost predicate IsFront(s: State, u: Tid, front: string)
    requires u in s.users && !s.users[u].stint.Never?
  {
    var user := s.users[u];
    front == ""
    || (user.stint.room in s.rooms
        && var log, next := s.rooms[user.stint.room].log, user.stint.from + |user.delivered|;
           next < |log| && Fits(log[next]) && front < Encode(Message("delivery", log[next])))
  }

  /** The message a worker is sending is the broadcast after the last delivery, so a failing send
      leaves such a front. */
  lemma SendingIsNext(run: seq<State>, i: nat, t: Tid, front: string)
    requires IsRun(run) && i < |run| && t in run[i].threads && run[i].threads[t].pc.Deliver?
    requires var msg := run[i].threads[t].pc.msg;
             front == "" || (Fits(msg) && front < Encode(Message("delivery", msg)))
    ensures t in run[i].users && run[i].users[t].stint.In? && IsFront(run[i], t, front)
  {
    var s := run[i];
    RunsAreSound(run, i);
    PoppedIsSent(s, t);
    DeliveryIsContiguous(run, i, t);
    var user := s.users[t];
    NextPopped(Segment(s, t), user.pushed, user.popped, user.delivered, s.threads[t].pc.msg);
  }

  lemma PoppedIsSent(s: State, t: Tid)
    requires Sound(s) && t in s.threads && s.threads[t].pc.Deliver?
    ensures t in s.users && s.users[t].stint.In?
    ensures s.users[t].popped == s.users[t].delivered + [s.threads[t].pc.msg]
  {
    assert ThreadOk(s, t) && StintOk(s, t) && HistoryOk(s, t);
  }

  lemma NextPopped(segment: seq<string>, pushed: seq<string>, popped: seq<string>, delivered: seq<string>, msg: string)
    requires popped == delivered + [msg] && popped <= pushed <= segment
    ensures |delivered| < |segment| && segment[|delivered|] == msg
  {
    assert popped[|delivered|] == msg;
  }

  /** And it stays the front of that broadcast as long as nothing more is delivered. */
  lemma FrontStays(s: State, t: Tid, e: Event, u: Tid, front: string)
    requires Inv(s) && Act(s, t, e).Some? && u in s.users && !s.users[u].stint.Never? && IsFront(s, u, front)
    ensures var s' := Act(s, t, e).value;
            && u in s'.users && !s'.users[u].stint.Never?
            && (s'.users[u].delivered == s.users[u].delivered ==> IsFront(s', u, front))
  {
    var x := Next(s, t, e).value;
    ActionsWriteWell(s, t, e);
    ActionsLogWell(s, t, e);
    FrontStaysAfter(s, t, x, u, front);
  }

  lemma FrontStaysAfter(s: State, t: Tid, x: Effect, u: Tid, front: string)
    requires WellWritten(s, t, x) && WellLogged(s, t, x)
    requires u in s.users && !s.users[u].stint.Never? && IsFront(s, u, front)
    ensures var s' := Apply(s, t, x);
            && u in s'.users && !s'.users[u].stint.Never?
            && (s'.users[u].delivered == s.users[u].delivered ==> IsFront(s', u, front))
  {
    var s' := Apply(s, t, x);
    assert s'.users[u].stint.room == s.users[u].stint.room && s'.users[u].stint.from == s.users[u].stint.from;
    var r := s.users[u].stint.room;
    assert r in s.rooms ==> r in s'.rooms && s.rooms[r].log <= s'.rooms[r].log;
  }

  /** The delivery a front belongs to. */
  lemma FrontOfDelivery(run: seq<State>, i: nat, u: Tid, front: string) returns (d: Delivery)
    requires IsRun(run) && i < |run| && u in run[i].users && !run[i].users[u].stint.Never?
    requires IsFront(run[i], u, front) && front != ""
    ensures var room, next := run[i].rooms[run[i].users[u].stint.room],
                              run[i].users[u].stint.from + |run[i].users[u].delivered|;
            && next < |room.origins| && AskedBy(run[i], room.origins[next]) == Some(d) && Deliverable(d)
            && d.room == room.name && front < Encode(Message("delivery", Payload(d.room, d.sender, d.text)))
  {
    RunsKeepInv(run, i);
    var s := run[i];
    var r, next := s.users[u].stint.room, s.users[u].stint.from + |s.users[u].delivered|;
    assert RoomOk(s, r) && LogOk(s, r);
    d := BroadcastIsDeliverable(s, s.rooms[r].name, s.rooms[r].origins[next], s.rooms[r].log[next]);
  }

  /** End to end: at any moment of any run, what a receiving client displays from what was sent to
      it is, one line for each delivery, the sender and text of consecutive broadcasts that clients
      asked for in the room it asked for, in the order of the room's log, starting with the first
      broadcast after it joined.  If the last send failed and left a front of its message, one line
      more may follow, with the sender of the next broadcast and a front of its text. */
  lemma ClientSeesTheRoom(run: seq<State>, i: nat, u: Tid, front: string)
    returns (ds: seq<Delivery>, shown: seq<Shown>)
    requires IsRun(run) && i < |run| && u in run[i].users && !run[i].users[u].stint.Never?
    requires IsFront(run[i], u, front)
    ensures run[i].users[u].stint.room in run[i].rooms && |ds| == |run[i].users[u].delivered|
    ensures shown == ShowAll(Bytes(EncodeAll(Deliveries(run[i].users[u].delivered))) + Bytes(front))
    ensures Lines(ds) <= shown
    ensures var room, from := run[i].rooms[run[i].users[u].stint.room], run[i].users[u].stint.from;
            && RoomAsked(Heard(run[i], u)) == Some(room.name)
            && from + |ds| <= |room.origins|
            && (forall k :: 0 <= k < |ds| ==>
                  AskedBy(run[i], room.origins[from + k]) == Some(ds[k]) && ds[k].room == room.name)
            && (shown != Lines(ds) ==>
                  from + |ds| < |room.origins|
                  && exists d, cut ::
                       AskedBy(run[i], room.origins[from + |ds|]) == Some(d) && d.room == room.name
                       && cut <= d.text && shown == Lines(ds) + [Line(d.sender, cut)])
  {
    var s := run[i];
    ds := DeliveriesShown(run, i, u);
    shown := ShowAll(Bytes(EncodeAll(Deliveries(s.users[u].delivered))) + Bytes(front));
    if front == "" {
      NothingMoreIsShown(ds);
    } else {
      var d := FrontOfDelivery(run, i, u, front);
      ACutIsShown(ds, d, front);
    }
  }

  lemma NothingMoreIsShown(ds: seq<Delivery>)
    requires forall i :: 0 <= i < |ds| ==> Deliverable(ds[i])
    ensures ShowAll(Bytes(EncodeAll(DeliveryMessages(ds))) + Bytes("")) == Lines(ds)
  {
    ClientShowsEveryDelivery(ds, Bytes(""));
    NoMore();
    assert Bytes("") == [];
  }

  lemma ACutIsShown(ds: seq<Delivery>, d: Delivery, front: string)
    requires forall i :: 0 <= i < |ds| ==> Deliverable(ds[i])
    requires Deliverable(d) && front < Encode(Message("delivery", Payload(d.room, d.sender, d.text)))
    ensures var shown := ShowAll(Bytes(EncodeAll(DeliveryMessages(ds))) + Bytes(front));
            && Lines(ds) <= shown
            && (shown != Lines(ds) ==> exists cut :: cut <= d.text && shown == Lines(ds) + [Line(d.sender, cut)])
  {
    ClientShowsACut(ds, d, front);
    var shown := ShowAll(Bytes(EncodeAll(DeliveryMessages(ds))) + Bytes(front));
    assert shown == Lines(ds) + shown[|ds|..];
  }

  lemma DeliveriesShown(run: seq<State>, i: nat, u: Tid) returns (ds: seq<Delivery>)
    requires IsRun(run) && i < |run| && u in run[i].users && !run[i].users[u].stint.Never?
    ensures run[i].users[u].stint.room in run[i].rooms && |ds| == |run[i].users[u].delivered|
    ensures DeliveryMessages(ds) == Deliveries(run[i].users[u].delivered)
    ensures forall k :: 0 <= k < |ds| ==> Deliverable(ds[k])
    ensures var room, from := run[i].rooms[run[i].users[u].stint.room], run[i].users[u].stint.from;
            && RoomAsked(Heard(run[i], u)) == Some(room.name)
            && from + |ds| <= |room.origins|
            && (forall k :: 0 <= k < |ds| ==>
                  AskedBy(run[i], room.origins[from + k]) == Some(ds[k]) && ds[k].room == room.name)
  {
    DeliveredAreBroadcasts(run, i, u);
    var s := run[i];
    var user := s.users[u];
    var room, from := s.rooms[user.stint.room], user.stint.from;
    ds := BroadcastsAreDeliverable(s, room.name, room.origins[from..from + |user.delivered|], user.delivered);
  }
}
