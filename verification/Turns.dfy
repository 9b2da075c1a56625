/**
 The turn protocol between the server and its emulators, as a transition system.

 The server thread captures messages (OnMessage), serves them one at a time (QueueThread) and handles
 closed connections (OnDisconnect).  Every emulator thread drains its own work queue and checks the turn
 at the head of its turn queue.  A user object lives on after its connection is gone until nothing owns
 it any more; handles to an expired user are skipped.  Each handler is one step.
 */
module Turns {
  import opened Option

  type UserId = nat
  type EmuId = nat

  /** alive: the handle can still be locked.  registered: the server's user table holds the user. */
  datatype User = User(alive: bool, registered: bool, connected: bool, hasAdmin: bool,
                       hasTurn: bool, requestedTurn: bool, emu: Option<EmuId>)

  datatype EmuCommand = TurnRequest(user: UserId) | UserDisconnect(user: UserId) | OtherCommand

  /** Who wrote a joypad value last: nobody since a reset, a turn holder, or an admin or expired sender. */
  datatype Writer = Nobody | By(user: UserId) | Privileged

  /** Sixteen buttons and two axes for each of two sticks. */
  const CONTROLS: nat := 20

  /** requested, removed, grantedAt and writers are history that no handler reads. */
  datatype Emu = Emu(turnQueue: seq<UserId>, workQueue: seq<EmuCommand>, turnEnd: int, turnLength: nat,
                     pad: seq<int>, writers: seq<Writer>,
                     requested: seq<UserId>, removed: seq<UserId>, grantedAt: int)

  datatype Content = Turn | Button(control: nat, value: int) | Connect(target: EmuId) | Admin

  /** A message with the sender and the emulator the sender was connected to when it arrived. */
  datatype Message = Message(user: UserId, emu: Option<EmuId>, content: Content)

  datatype State = State(users: map<UserId, User>, emus: map<EmuId, Emu>, inbox: seq<Message>, clock: int)

  // ----- The handlers

  function NewUser(): User {
    User(true, true, true, false, false, false, None)
  }

  /** The handlers' refusals that depend on what is not modelled here: a forbidden combination, an empty
      username, a wrong password. */
  function ServeMessage(s: State, m: Message, refused: bool): State
    requires m.user in s.users
  {
    var user := s.users[m.user];
    match m.content
    case Turn =>
      if !user.alive || user.emu.None? || user.requestedTurn then s
      else if m.emu.None? || m.emu.value !in s.emus then s
      else
        var emu := s.emus[m.emu.value];
        s.(users := s.users[m.user := user.(requestedTurn := true)],
           emus := s.emus[m.emu.value := emu.(workQueue := emu.workQueue + [TurnRequest(m.user)],
                                              requested := emu.requested + [m.user])])
    case Button(control, value) =>
      if user.alive && !user.hasTurn && !user.hasAdmin then s
      else if m.emu.None? || m.emu.value !in s.emus || control >= CONTROLS || refused then s
      else
        var emu := s.emus[m.emu.value];
        var writer := if user.alive && !user.hasAdmin then By(m.user) else Privileged;
        s.(emus := s.emus[m.emu.value := WriteControl(emu, control, value, writer)])
    case Connect(target) =>
      if !user.alive || refused || target !in s.emus || user.emu.Some? then s
      else
        var emu := s.emus[target];
        s.(users := s.users[m.user := user.(emu := Some(target))],
           emus := s.emus[target := emu.(workQueue := emu.workQueue + [OtherCommand])])
    case Admin =>
      if !user.alive || refused then s else s.(users := s.users[m.user := user.(hasAdmin := true)])
  }

  function WriteControl(emu: Emu, control: nat, value: int, writer: Writer): Emu {
    if control < |emu.pad| && control < |emu.writers|
    then emu.(pad := emu.pad[control := value], writers := emu.writers[control := writer])
    else emu
  }

  function Close(s: State, u: UserId): State
    requires u in s.users
  {
    var user := s.users[u];
    var s' := s.(users := s.users[u := user.(registered := false)]);
    if user.emu.Some? && user.emu.value in s.emus then
      var emu := s.emus[user.emu.value];
      s'.(emus := s.emus[user.emu.value := emu.(workQueue := emu.workQueue + [UserDisconnect(u)])])
    else s'
  }

  /** What one command of the work queue does to the emulator itself. */
  function Drained(emu: Emu): Emu
    requires emu.workQueue != []
  {
    var rest := emu.(workQueue := emu.workQueue[1..]);
    if emu.workQueue[0].TurnRequest? then rest.(turnQueue := emu.turnQueue + [emu.workQueue[0].user]) else rest
  }

  function Drain(s: State, e: EmuId): State
    requires e in s.emus && s.emus[e].workQueue != []
  {
    var c := s.emus[e].workQueue[0];
    var s' := s.(emus := s.emus[e := Drained(s.emus[e])]);
    if c.UserDisconnect? && c.user in s.users && s.users[c.user].alive
    then s'.(users := s.users[c.user := s.users[c.user].(connected := false)])
    else s'
  }

  function ResetPad(emu: Emu): Emu {
    emu.(pad := seq(CONTROLS, _ => 0), writers := seq(CONTROLS, _ => Nobody))
  }

  /** Erase the head of the turn queue and reset the joypad. */
  function RemoveHead(emu: Emu): Emu
    requires emu.turnQueue != []
  {
    ResetPad(emu).(turnQueue := emu.turnQueue[1..], removed := emu.removed + [emu.turnQueue[0]])
  }

  function CheckTurn(s: State, e: EmuId, now: int): State
    requires e in s.emus && forall u | u in s.emus[e].turnQueue :: u in s.users
  {
    var emu := s.emus[e];
    var t := s.(clock := now);
    if emu.turnQueue == [] then t else
      var u := emu.turnQueue[0];
      var user := s.users[u];
      if !user.alive then t.(emus := s.emus[e := RemoveHead(emu)])
      else if !user.hasTurn && user.connected then
        t.(users := s.users[u := user.(hasTurn := true)],
           emus := s.emus[e := emu.(turnEnd := now + emu.turnLength, grantedAt := now)])
      else if emu.turnEnd < now && |emu.turnQueue| > 1 then
        t.(users := s.users[u := user.(hasTurn := false, requestedTurn := false)],
           emus := s.emus[e := RemoveHead(emu)])
      else t
  }

  // ----- The transition system

  datatype Step =
    | Open(user: UserId)                       // OnConnect
    | Receive(user: UserId, content: Content)  // OnMessage
    | Serve(refused: bool)                     // one command in QueueThread
    | Closed(user: UserId)                     // OnDisconnect
    | Expire(user: UserId)                     // the last owner lets go of the user object
    | DrainOne(emu: EmuId)                     // one command of an emulator's work queue
    | Check(emu: EmuId, now: int)              // the turn check of an emulator's main loop

  predicate Enabled(s: State, step: Step) {
    match step
    case Open(u) => u !in s.users
    case Receive(u, _) => u in s.users && s.users[u].registered
    case Serve(_) => s.inbox != [] && s.inbox[0].user in s.users
    case Closed(u) => u in s.users && s.users[u].registered
    case Expire(u) => u in s.users && !s.users[u].registered
    case DrainOne(e) => e in s.emus && s.emus[e].workQueue != []
    case Check(e, now) => e in s.emus && s.clock <= now && forall u | u in s.emus[e].turnQueue :: u in s.users
  }

  function Next(s: State, step: Step): State
    requires Enabled(s, step)
  {
    match step
    case Open(u) => s.(users := s.users[u := NewUser()])
    case Receive(u, content) => s.(inbox := s.inbox + [Message(u, s.users[u].emu, content)])
    case Serve(refused) => ServeMessage(s, s.inbox[0], refused).(inbox := s.inbox[1..])
    case Closed(u) => Close(s, u)
    case Expire(u) => s.(users := s.users[u := s.users[u].(alive := false)])
    case DrainOne(e) => Drain(s, e)
    case Check(e, now) => CheckTurn(s, e, now)
  }

  /** No users yet; emulators with empty queues and a released joypad. */
  ghost predicate Initial(s: State) {
    s.users == map[] && s.inbox == [] &&
    forall e | e in s.emus :: var emu := s.emus[e];
      emu.turnQueue == [] && emu.workQueue == [] && emu.requested == [] && emu.removed == [] &&
      emu == ResetPad(emu) && emu.turnEnd <= s.clock
  }

  ghost predicate IsRun(s: State, steps: seq<Step>)
    decreases steps
  {
    steps != [] ==> Enabled(s, steps[0]) && IsRun(Next(s, steps[0]), steps[1..])
  }

  ghost function Run(s: State, steps: seq<Step>): State
    requires IsRun(s, steps)
    decreases steps
  {
    if steps == [] then s else Run(Next(s, steps[0]), steps[1..])
  }
}
