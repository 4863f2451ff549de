/** The chat server as a transition system.  Every client has a worker thread; a step of the
    system is one action of one thread: taking or releasing a mutex, one access to shared data
    under it, a semaphore operation, or the outcome of a send or receive.  Threads come without
    bound and interleave in any order.  A worker allocates at most one User, so a user is named
    by the thread that owns it. */
module ChatModel {
  import opened Wrappers
  import opened Codec

  type Tid = nat
  type RoomId = nat

  /** When a user was a member of a room, as positions in the room's log. */
  datatype Stint = Never | In(room: RoomId, from: nat) | Out(room: RoomId, from: nat, to: nat)

  /** A user with its message queue: mutex, semaphore, messages.  `pushed`, `popped` and
      `delivered` record every message ever enqueued, dequeued and sent to the client. */
  datatype User = User(
    name: string, alive: bool,
    lock: Option<Tid>, avail: nat, messages: seq<string>,
    pushed: seq<string>, popped: seq<string>, delivered: seq<string>, stint: Stint)

  /** The message a client sent as its count-th. */
  datatype Origin = Origin(sender: Tid, count: nat)

  /** A room; `log` records every message ever broadcast in it, and `origins` which client's
      message each of them came from. */
  datatype Room = Room(
    name: string, lock: Option<Tid>, members: set<Tid>, log: seq<string>, origins: seq<Origin>)

  /** Where a worker is.  A guard's scope is the span from ...Lock to ...Unlock. */
  datatype Pc =
    | Start | Greet | Command | AwaitJoin | Reply(ok: bool) | Delete | Done
      // find_or_create_room
    | FindLock(name: string) | FindBody(name: string) | FindUnlock(found: RoomId)
      // add_member, remove_member
    | AddLock | AddBody | AddUnlock | Confirm
    | RemoveLock | RemoveBody | RemoveUnlock
      // dequeue and deliver
    | Wait | PopLock | PopBody | PopUnlock(msg: string) | Deliver(msg: string)
      // broadcast_message, with enqueue for each member
    | CastLock(msg: string) | Cast(msg: string, todo: set<Tid>) | CastUnlock
    | PushLock(msg: string, todo: set<Tid>, to: Tid) | PushBody(msg: string, todo: set<Tid>, to: Tid)
    | PushUnlock(msg: string, todo: set<Tid>, to: Tid) | Post(msg: string, todo: set<Tid>, to: Tid)

  datatype Thread = Thread(receiver: bool, room: Option<RoomId>, pc: Pc)

  /** `heard` records every message received from each client. */
  datatype State = State(
    directory: map<string, RoomId>, lock: Option<Tid>,
    rooms: map<RoomId, Room>, users: map<Tid, User>, threads: map<Tid, Thread>,
    heard: map<Tid, seq<Event>>)

  const Empty: State := State(map[], None, map[], map[], map[], map[])

  /** What the environment decides: the client's requests, whether a send succeeds, whether a
      wait times out, which member an iteration visits next, the identity of a new room. */
  datatype Event =
    | Connect
    | Login(receiver: bool, name: string) | Refuse
    | SendOk | SendFails
    | Join(name: string) | SendAll(text: string) | Leave | Invalid | Disconnect
    | Go | Timeout | Visit(user: Tid) | Create(id: RoomId)

  /** A message received from the client. */
  predicate IsMessage(e: Event) {
    e.Login? || e.Join? || e.SendAll? || e.Leave? || e.Invalid?
  }

  /** The messages received from t's client so far. */
  function Heard(s: State, t: Tid): seq<Event> {
    if t in s.heard then s.heard[t] else []
  }

  // ----- what one action changes -----

  datatype Change<+T> = Same | Changed(id: nat, value: T)

  /** An action leaves a new state of its own thread, and changes at most the server's mutex,
      one room, one user, and one name in the directory.  `event` is what made it happen. */
  datatype Effect = Effect(
    thread: Thread, lock: Option<Tid>, room: Change<Room>, user: Change<User>, named: Option<string>,
    event: Event)

  function Apply(s: State, t: Tid, x: Effect): State {
    State(
      if x.named.Some? && x.room.Changed? then s.directory[x.named.value := x.room.id] else s.directory,
      x.lock,
      if x.room.Changed? then s.rooms[x.room.id := x.room.value] else s.rooms,
      if x.user.Changed? then s.users[x.user.id := x.user.value] else s.users,
      s.threads[t := x.thread],
      if IsMessage(x.event) then s.heard[t := Heard(s, t) + [x.event]] else s.heard)
  }

  function Goto(s: State, t: Tid, e: Event, pc: Pc): Effect
    requires t in s.threads
  {
    Effect(s.threads[t].(pc := pc), s.lock, Same, Same, None, e)
  }

  function SetRoom(s: State, t: Tid, e: Event, pc: Pc, r: RoomId, room: Room): Effect
    requires t in s.threads
  {
    Goto(s, t, e, pc).(room := Changed(r, room))
  }

  function SetUser(s: State, t: Tid, e: Event, pc: Pc, u: Tid, user: User): Effect
    requires t in s.threads
  {
    Goto(s, t, e, pc).(user := Changed(u, user))
  }

  /** An action that changes nothing but its own thread. */
  predicate OnlyMoves(s: State, x: Effect) {
    x.lock == s.lock && x.room.Same? && x.user.Same? && x.named.None?
  }

  // ----- the actions, by the part of the program they belong to -----

  /** The login message: a valid one allocates the User. */
  function LoggingIn(s: State, t: Tid, e: Event): (x: Option<Effect>)
    requires t in s.threads && s.threads[t].pc.Start?
    ensures x.Some? ==> x.value.event == e
    ensures x.Some? ==> !Sends(x.value.thread.pc)
  {
    if e.Login? && IsValidName(e.name) && t !in s.users then
      var user := User(e.name, true, None, 0, [], [], [], [], Never);
      Some(SetUser(s, t, e, Greet, t, user).(thread := Thread(e.receiver, None, Greet)))
    else if e.Refuse? then Some(Goto(s, t, e, Done))
    else None
  }

  /** The end of a worker that allocated a User. */
  function Deleting(s: State, t: Tid, e: Event): (x: Option<Effect>)
    requires t in s.threads
    ensures x.Some? ==> x.value.event == e
    ensures x.Some? ==> x.value.thread.receiver == s.threads[t].receiver
    ensures x.Some? ==> !Sends(x.value.thread.pc)
  {
    if e.Go? && t in s.users then Some(SetUser(s, t, e, Done, t, s.users[t].(alive := false))) else None
  }

  /** A worker from its greeting to the role its client chose. */
  function Entering(s: State, t: Tid, e: Event): (x: Option<Effect>)
    requires t in s.threads
    ensures x.Some? ==> x.value.event == e
    ensures x.Some? ==> OnlyMoves(s, x.value) && x.value.thread.receiver == s.threads[t].receiver
    ensures x.Some? ==> !Sends(x.value.thread.pc)
  {
    var th := s.threads[t];
    match th.pc
    case Greet =>
      if e.SendOk? then Some(Goto(s, t, e, if th.receiver then AwaitJoin else Command))
      else if e.SendFails? then Some(Goto(s, t, e, Delete))
      else None
    case AwaitJoin =>
      if e.Join? && IsValidName(e.name) then Some(Goto(s, t, e, FindLock(e.name)))
      else if e.Join? || e.Invalid? || e.Disconnect? then Some(Goto(s, t, e, Delete))
      else None
    case _ => None
  }

  /** The sender's commands and the replies to them.  The text of a request is as the codec's
      ReceivedDataIsText leaves it: without newline and NUL, and not ending in a carriage return. */
  function Commanding(s: State, t: Tid, e: Event): (x: Option<Effect>)
    requires t in s.threads
    ensures x.Some? ==> x.value.event == e
    ensures x.Some? ==> OnlyMoves(s, x.value) && x.value.thread.receiver == s.threads[t].receiver
    ensures x.Some? ==> !IsCast(x.value.thread.pc)
  {
    var th := s.threads[t];
    match th.pc
    case Command =>
      if e.Join? then Some(Goto(s, t, e, if IsValidName(e.name) then FindLock(e.name) else Reply(false)))
      else if e.SendAll? && IsText(e.text) then
        if th.room.None? then Some(Goto(s, t, e, Reply(false)))
        else if th.room.value in s.rooms && t in s.users then
          Some(Goto(s, t, e, CastLock(Payload(s.rooms[th.room.value].name, s.users[t].name, e.text))))
        else None
      else if e.Leave? then
        Some(Goto(s, t, e, Reply(th.room.Some?)).(thread := th.(room := None, pc := Reply(th.room.Some?))))
      else if e.Invalid? then Some(Goto(s, t, e, Reply(false)))
      else if e.Disconnect? then Some(Goto(s, t, e, Delete))
      else None
    case Reply(_) =>
      if e.SendOk? then Some(Goto(s, t, e, Command))
      else if e.SendFails? then Some(Goto(s, t, e, Delete))
      else None
    case _ => None
  }

  /** find_or_create_room, under the server's mutex. */
  function Finding(s: State, t: Tid, e: Event): (x: Option<Effect>)
    requires t in s.threads
    ensures x.Some? ==> x.value.event == e
    ensures x.Some? ==> x.value.user.Same? && x.value.thread.receiver == s.threads[t].receiver
    ensures x.Some? ==> !Sends(x.value.thread.pc)
  {
    var th := s.threads[t];
    match th.pc
    case FindLock(name) =>
      if e.Go? && s.lock.None? then Some(Goto(s, t, e, FindBody(name)).(lock := Some(t))) else None
    case FindBody(name) =>
      if name in s.directory then
        if e.Go? then Some(Goto(s, t, e, FindUnlock(s.directory[name]))) else None
      else if e.Create? && e.id !in s.rooms then
        Some(SetRoom(s, t, e, FindUnlock(e.id), e.id, Room(name, None, {}, [], [])).(named := Some(name)))
      else None
    case FindUnlock(found) =>
      if e.Go? then
        var th' := th.(room := Some(found), pc := if th.receiver then AddLock else Reply(true));
        Some(Goto(s, t, e, th'.pc).(thread := th', lock := None))
      else None
    case _ => None
  }

  /** add_member, under the room's mutex, and the reply. */
  function Adding(s: State, t: Tid, e: Event): (x: Option<Effect>)
    requires t in s.threads
    ensures x.Some? ==> x.value.event == e
    ensures x.Some? ==> x.value.thread.receiver == s.threads[t].receiver
    ensures x.Some? ==> !Sends(x.value.thread.pc)
    ensures x.Some? ==> x.value.lock == s.lock && x.value.named.None?
    ensures x.Some? && x.value.user.Changed? ==> x.value.user.id == t
  {
    var th := s.threads[t];
    if th.room.None? || th.room.value !in s.rooms || t !in s.users then None
    else
      var r := th.room.value;
      var room, user := s.rooms[r], s.users[t];
      match th.pc
      case AddLock =>
        if e.Go? && room.lock.None? then Some(SetRoom(s, t, e, AddBody, r, room.(lock := Some(t)))) else None
      case AddBody =>
        if e.Go? then
          Some(SetRoom(s, t, e, AddUnlock, r, room.(members := room.members + {t}))
               .(user := Changed(t, user.(stint := In(r, |room.log|)))))
        else None
      case AddUnlock =>
        if e.Go? then Some(SetRoom(s, t, e, Confirm, r, room.(lock := None))) else None
      case Confirm =>
        if e.SendOk? then Some(Goto(s, t, e, Wait))
        else if e.SendFails? then Some(Goto(s, t, e, RemoveLock))
        else None
      case _ => None
  }

  /** remove_member, under the room's mutex. */
  function Removing(s: State, t: Tid, e: Event): (x: Option<Effect>)
    requires t in s.threads
    ensures x.Some? ==> x.value.event == e
    ensures x.Some? ==> x.value.thread.receiver == s.threads[t].receiver
    ensures x.Some? ==> !Sends(x.value.thread.pc)
    ensures x.Some? ==> x.value.lock == s.lock && x.value.named.None?
    ensures x.Some? && x.value.user.Changed? ==> x.value.user.id == t
  {
    var th := s.threads[t];
    if th.room.None? || th.room.value !in s.rooms || t !in s.users then None
    else
      var r := th.room.value;
      var room, user := s.rooms[r], s.users[t];
      match th.pc
      case RemoveLock =>
        if e.Go? && room.lock.None? then Some(SetRoom(s, t, e, RemoveBody, r, room.(lock := Some(t)))) else None
      case RemoveBody =>
        if e.Go? && user.stint.In? then
          Some(SetRoom(s, t, e, RemoveUnlock, r, room.(members := room.members - {t}))
               .(user := Changed(t, user.(stint := Out(r, user.stint.from, |room.log|)))))
        else None
      case RemoveUnlock =>
        if e.Go? then Some(SetRoom(s, t, e, Delete, r, room.(lock := None))) else None
      case _ => None
  }

  /** A delivery the connection does not refuse to send. */
  predicate Fits(msg: string) {
    |Encode(Message("delivery", msg))| <= MAXLEN
  }

  /** dequeue on the thread's own queue, and delivery of what it returns. */
  function Receiving(s: State, t: Tid, e: Event): (x: Option<Effect>)
    requires t in s.threads
    ensures x.Some? ==> x.value.event == e
    ensures x.Some? ==> x.value.thread.receiver == s.threads[t].receiver
    ensures x.Some? ==> !Sends(x.value.thread.pc)
  {
    if t !in s.users then None
    else
      var user := s.users[t];
      match s.threads[t].pc
      case Wait =>
        if e.Timeout? then Some(Goto(s, t, e, Wait))
        else if e.Go? && user.avail > 0 then
          Some(SetUser(s, t, e, PopLock, t, user.(avail := user.avail - 1)))
        else None
      case PopLock =>
        if e.Go? && user.lock.None? then Some(SetUser(s, t, e, PopBody, t, user.(lock := Some(t)))) else None
      case PopBody =>
        if e.Go? && user.messages != [] then
          var msg := user.messages[0];
          Some(SetUser(s, t, e, PopUnlock(msg), t,
                       user.(messages := user.messages[1..], popped := user.popped + [msg])))
        else None
      case PopUnlock(msg) =>
        if e.Go? then Some(SetUser(s, t, e, Deliver(msg), t, user.(lock := None))) else None
      case Deliver(msg) =>
        if e.SendOk? && Fits(msg) then Some(SetUser(s, t, e, Wait, t, user.(delivered := user.delivered + [msg])))
        else if e.SendFails? then Some(Goto(s, t, e, RemoveLock))
        else None
      case _ => None
  }

  /** broadcast_message: under the room's mutex, enqueue for every member in turn. */
  function Casting(s: State, t: Tid, e: Event): (x: Option<Effect>)
    requires t in s.threads
    ensures x.Some? ==> x.value.event == e
    ensures x.Some? ==> x.value.thread.receiver == s.threads[t].receiver
  {
    var th := s.threads[t];
    if th.room.None? || th.room.value !in s.rooms then None
    else
      var r := th.room.value;
      var room := s.rooms[r];
      match th.pc
      case CastLock(msg) =>
        if e.Go? && room.lock.None? then
          Some(SetRoom(s, t, e, Cast(msg, room.members), r,
                       room.(lock := Some(t), log := room.log + [msg],
                             origins := room.origins + [Origin(t, |Heard(s, t)|)])))
        else None
      case Cast(msg, todo) =>
        if todo == {} then
          if e.Go? then Some(Goto(s, t, e, CastUnlock)) else None
        else if e.Visit? && e.user in todo then Some(Goto(s, t, e, PushLock(msg, todo - {e.user}, e.user)))
        else None
      case CastUnlock =>
        if e.Go? then Some(SetRoom(s, t, e, Reply(true), r, room.(lock := None))) else None
      case _ => None
  }

  /** enqueue on a member's queue. */
  function Pushing(s: State, t: Tid, e: Event): (x: Option<Effect>)
    requires t in s.threads && IsPush(s.threads[t].pc)
    ensures x.Some? ==> x.value.event == e
    ensures x.Some? ==> x.value.thread.receiver == s.threads[t].receiver
  {
    var u := s.threads[t].pc.to;
    if u !in s.users || !e.Go? then None
    else
      var user := s.users[u];
      match s.threads[t].pc
      case PushLock(msg, todo, _) =>
        if user.lock.None? then Some(SetUser(s, t, e, PushBody(msg, todo, u), u, user.(lock := Some(t)))) else None
      case PushBody(msg, todo, _) =>
        Some(SetUser(s, t, e, PushUnlock(msg, todo, u), u,
                     user.(messages := user.messages + [msg], pushed := user.pushed + [msg])))
      case PushUnlock(msg, todo, _) => Some(SetUser(s, t, e, Post(msg, todo, u), u, user.(lock := None)))
      case Post(msg, todo, _) => Some(SetUser(s, t, e, Cast(msg, todo), u, user.(avail := user.avail + 1)))
  }

  predicate InEntering(pc: Pc) {
    pc.Greet? || pc.AwaitJoin? || pc.Done?
  }

  predicate InCommanding(pc: Pc) {
    pc.Command? || pc.Reply?
  }

  predicate InFinding(pc: Pc) {
    pc.FindLock? || pc.FindBody? || pc.FindUnlock?
  }

  predicate InAdding(pc: Pc) {
    pc.AddLock? || pc.AddBody? || pc.AddUnlock? || pc.Confirm?
  }

  predicate InRemoving(pc: Pc) {
    pc.RemoveLock? || pc.RemoveBody? || pc.RemoveUnlock?
  }

  predicate InReceiving(pc: Pc) {
    pc.Wait? || pc.PopLock? || pc.PopBody? || pc.PopUnlock? || pc.Deliver?
  }

  predicate InCasting(pc: Pc) {
    pc.CastLock? || pc.Cast? || pc.CastUnlock?
  }

  predicate IsPush(pc: Pc) {
    pc.PushLock? || pc.PushBody? || pc.PushUnlock? || pc.Post?
  }

  /** What thread t does next: a new connection's thread appears, or an existing one acts. */
  function Next(s: State, t: Tid, e: Event): (x: Option<Effect>)
    ensures x.Some? ==> x.value.event == e
    ensures x.Some? && t in s.threads && !s.threads[t].pc.Start? ==>
              x.value.thread.receiver == s.threads[t].receiver
  {
    if t !in s.threads then
      if e.Connect? then Some(Effect(Thread(false, None, Start), s.lock, Same, Same, None, e)) else None
    else
      var pc := s.threads[t].pc;
      if pc.Start? then LoggingIn(s, t, e)
      else if pc.Delete? then Deleting(s, t, e)
      else if InEntering(pc) then Entering(s, t, e)
      else if InCommanding(pc) then Commanding(s, t, e)
      else if InFinding(pc) then Finding(s, t, e)
      else if InAdding(pc) then Adding(s, t, e)
      else if InRemoving(pc) then Removing(s, t, e)
      else if InReceiving(pc) then Receiving(s, t, e)
      else if InCasting(pc) then Casting(s, t, e)
      else Pushing(s, t, e)
  }

  function Act(s: State, t: Tid, e: Event): Option<State> {
    var x := Next(s, t, e);
    if x.Some? then Some(Apply(s, t, x.value)) else None
  }

  /** Where a thread is, a connecting one being about to start. */
  function OldPc(s: State, t: Tid): Pc {
    if t in s.threads then s.threads[t].pc else Start
  }

  /** Some action of some thread leads from one state to the other. */
  ghost predicate Leads(s: State, s': State) {
    exists t, e :: Act(s, t, e) == Some(s')
  }

  /** A thread and what happens to it. */
  datatype Turn = Turn(thread: Tid, event: Event)

  /** A run of the server from its start, turn by turn. */
  ghost predicate IsRunOf(run: seq<State>, turns: seq<Turn>) {
    && |run| == |turns| + 1 && run[0] == Empty
    && forall i :: 0 <= i < |turns| ==> Act(run[i], turns[i].thread, turns[i].event) == Some(run[i + 1])
  }

  /** A run of the server from its start. */
  ghost predicate IsRun(run: seq<State>) {
    && run != [] && run[0] == Empty
    && forall i :: 0 <= i < |run| - 1 ==> Leads(run[i], run[i + 1])
  }

  // ----- what a program counter says -----

  predicate HoldsServer(pc: Pc) {
    pc.FindBody? || pc.FindUnlock?
  }

  predicate HoldsRoom(pc: Pc) {
    || pc.AddBody? || pc.AddUnlock? || pc.RemoveBody? || pc.RemoveUnlock?
    || pc.Cast? || pc.CastUnlock? || pc.PushLock? || pc.PushBody? || pc.PushUnlock? || pc.Post?
  }

  /** Whose queue thread t has locked. */
  function HoldsQueue(t: Tid, pc: Pc): Option<Tid> {
    if pc.PopBody? || pc.PopUnlock? then Some(t)
    else if pc.PushBody? || pc.PushUnlock? then Some(pc.to)
    else None
  }

  /** The members a broadcast has still to enqueue for. */
  function Owes(pc: Pc): set<Tid> {
    if pc.Cast? then pc.todo
    else if pc.PushLock? || pc.PushBody? then pc.todo + {pc.to}
    else if pc.PushUnlock? || pc.Post? then pc.todo
    else {}
  }

  /** Casting a message whose log entry has been made. */
  predicate IsCast(pc: Pc) {
    pc.Cast? || IsPush(pc)
  }

  /** About to cast a message or casting it. */
  predicate Sends(pc: Pc) {
    pc.CastLock? || IsCast(pc)
  }

  predicate IsMember(pc: Pc) {
    || pc.AddUnlock? || pc.Confirm? || pc.RemoveLock? || pc.RemoveBody? || InReceiving(pc)
  }

  predicate NeedsRoom(pc: Pc) {
    InAdding(pc) || InRemoving(pc) || InReceiving(pc) || pc.CastLock? || pc.CastUnlock? || IsCast(pc)
  }

  predicate ReceiverOnly(pc: Pc) {
    pc.AwaitJoin? || InAdding(pc) || InRemoving(pc) || InReceiving(pc)
  }

  predicate SenderOnly(pc: Pc) {
    pc.Command? || pc.Reply? || pc.CastLock? || pc.CastUnlock? || IsCast(pc)
  }

  /** The user whose queue has the pushed message not yet posted. */
  predicate HasPushed(pc: Pc, u: Tid) {
    (pc.PushUnlock? || pc.Post?) && pc.to == u
  }

  /** The owner has waited and not yet popped. */
  predicate HasWaited(pc: Pc) {
    pc.PopLock? || pc.PopBody?
  }

  /** A worker that has not yet joined a room as a receiver. */
  predicate InEarly(pc: Pc) {
    pc.Greet? || pc.AwaitJoin? || InFinding(pc) || pc.AddLock? || pc.AddBody? || SenderOnly(pc)
  }
}
