/** What every step of the turn protocol keeps. */
module TurnInvariant {
  import opened Option
  import opened Turns

  /** The users whose turn requests wait in a work queue. */
  function Pending(work: seq<EmuCommand>): seq<UserId> {
    if work == [] then []
    else (if work[0].TurnRequest? then [work[0].user] else []) + Pending(work[1..])
  }

  /** Everybody who waits for an emulator: the turn queue, then the requests not drained yet. */
  function Waiting(emu: Emu): seq<UserId> {
    emu.turnQueue + Pending(emu.workQueue)
  }

  ghost predicate Distinct(q: seq<UserId>) {
    forall i, j | 0 <= i < j < |q| :: q[i] != q[j]
  }

  /** A pressed control was written by the head of the queue, who holds the turn, or by a privileged sender. */
  ghost predicate OwnedByHead(users: map<UserId, User>, emu: Emu, c: nat)
    requires c < |emu.pad| && c < |emu.writers|
  {
    emu.pad[c] != 0 ==>
      match emu.writers[c]
      case Nobody => false
      case Privileged => true
      case By(u) => IsHead(emu, u) && u in users && users[u].hasTurn
  }

  /** Everybody in w waits for e; only the first may hold the turn, and only if the queue itself is not empty. */
  ghost predicate PlacesOk(users: map<UserId, User>, e: EmuId, w: seq<UserId>, headMayHold: bool) {
    Distinct(w) && forall i | 0 <= i < |w| ::
      w[i] in users && users[w[i]].emu == Some(e) && (users[w[i]].hasTurn ==> i == 0 && headMayHold)
  }

  ghost predicate QueueOk(users: map<UserId, User>, e: EmuId, emu: Emu) {
    emu.requested == emu.removed + Waiting(emu) && PlacesOk(users, e, Waiting(emu), emu.turnQueue != [])
  }

  ghost predicate PadOk(users: map<UserId, User>, emu: Emu) {
    |emu.pad| == |emu.writers| == CONTROLS &&
    forall c: nat | c < CONTROLS :: OwnedByHead(users, emu, c)
  }

  ghost predicate ClockOk(users: map<UserId, User>, emu: Emu, clock: int) {
    emu.turnEnd <= clock + emu.turnLength &&
    (emu.turnQueue != [] && emu.turnQueue[0] in users && users[emu.turnQueue[0]].hasTurn ==>
       emu.turnEnd == emu.grantedAt + emu.turnLength)
  }

  ghost predicate EmuOk(users: map<UserId, User>, e: EmuId, emu: Emu, clock: int) {
    QueueOk(users, e, emu) && PadOk(users, emu) && ClockOk(users, emu, clock)
  }

  predicate IsHead(emu: Emu, u: UserId) {
    emu.turnQueue != [] && emu.turnQueue[0] == u
  }

  ghost predicate UserOk(emus: map<EmuId, Emu>, u: UserId, user: User) {
    (user.emu.Some? ==> user.emu.value in emus) &&
    (user.alive ==>
       (user.requestedTurn <==> user.emu.Some? && u in Waiting(emus[user.emu.value])) &&
       (user.hasTurn ==> (user.emu.Some? && IsHead(emus[user.emu.value], u))))
  }

  /** What a message captured is still true: a user's emulator never changes once it is set. */
  ghost predicate MessageOk(users: map<UserId, User>, m: Message) {
    m.user in users && (m.emu.Some? ==> m.emu == users[m.user].emu)
  }

  ghost predicate Inv(s: State) {
    (forall e | e in s.emus :: EmuOk(s.users, e, s.emus[e], s.clock)) &&
    (forall u | u in s.users :: UserOk(s.emus, u, s.users[u])) &&
    (forall i | 0 <= i < |s.inbox| :: MessageOk(s.users, s.inbox[i]))
  }

  lemma {:induction false} PendingAppend(work: seq<EmuCommand>, c: EmuCommand)
    ensures Pending(work + [c]) == Pending(work) + if c.TurnRequest? then [c.user] else []
  {
    if work != [] {
      assert (work + [c])[1..] == work[1..] + [c];
      PendingAppend(work[1..], c);
    }
  }

  lemma InitialInv(s: State)
    requires Initial(s)
    ensures Inv(s)
  {}

  /** Waiting users of an emulator are connected to it, so they wait nowhere else. */
  lemma WaitsAt(s: State, e: EmuId, u: UserId)
    requires Inv(s) && e in s.emus && u in Waiting(s.emus[e])
    ensures u in s.users && s.users[u].emu == Some(e)
  {}

  // ----- What a step does not touch stays in order

  ghost predicate SameWaiters(users: map<UserId, User>, users': map<UserId, User>, emu: Emu) {
    forall u | u in Waiting(emu) && u in users ::
      u in users' && users'[u].emu == users[u].emu && users'[u].hasTurn == users[u].hasTurn
  }

  lemma EmuKept(users: map<UserId, User>, users': map<UserId, User>, e: EmuId, emu: Emu, clock: int, clock': int)
    requires EmuOk(users, e, emu, clock) && SameWaiters(users, users', emu) && clock <= clock'
    ensures EmuOk(users', e, emu, clock')
  {
    var w := Waiting(emu);
    assert forall i | 0 <= i < |w| :: w[i] in w;
    assert emu.turnQueue != [] ==> emu.turnQueue[0] == w[0];
    forall c: nat | c < CONTROLS ensures OwnedByHead(users', emu, c) {
      assert OwnedByHead(users, emu, c);
    }
  }

  ghost predicate SameFor(emus: map<EmuId, Emu>, emus': map<EmuId, Emu>, u: UserId) {
    forall e | e in emus :: e in emus' && (u in Waiting(emus[e]) <==> u in Waiting(emus'[e])) &&
      (IsHead(emus[e], u) ==> IsHead(emus'[e], u))
  }

  lemma UserKept(emus: map<EmuId, Emu>, emus': map<EmuId, Emu>, u: UserId, user: User)
    requires UserOk(emus, u, user) && SameFor(emus, emus', u)
    ensures UserOk(emus', u, user)
  {}

  /** A step that changes at most the user u and the emulator e, and adds nothing to the inbox. */
  ghost predicate OnlyChanges(s: State, t: State, u: UserId, e: EmuId) {
    t.users.Keys == s.users.Keys && t.emus.Keys == s.emus.Keys && s.clock <= t.clock &&
    (forall v | v in s.users && v != u :: t.users[v] == s.users[v]) &&
    (forall f | f in s.emus && f != e :: t.emus[f] == s.emus[f]) &&
    (u in s.users ==>
       (s.users[u].emu.None? || t.users[u].emu == s.users[u].emu) &&
       (s.users[u].emu == Some(e) || t.users[u].hasTurn == s.users[u].hasTurn)) &&
    (e in s.emus ==> forall v | v in s.users && v != u ::
       (v in Waiting(s.emus[e]) <==> v in Waiting(t.emus[e])) && (IsHead(s.emus[e], v) ==> IsHead(t.emus[e], v))) &&
    forall m | m in t.inbox :: m in s.inbox
  }

  lemma LocalStep(s: State, t: State, u: UserId, e: EmuId)
    requires Inv(s) && OnlyChanges(s, t, u, e)
    requires e in t.emus ==> EmuOk(t.users, e, t.emus[e], t.clock)
    requires u in t.users ==> UserOk(t.emus, u, t.users[u])
    ensures Inv(t)
  {
    hide EmuOk, UserOk, Waiting, IsHead;
    forall f | f in t.emus && f != e ensures EmuOk(t.users, f, t.emus[f], t.clock) {
      forall v | v in Waiting(s.emus[f]) ensures v in s.users && s.users[v].emu == Some(f) {
        WaitsAt(s, f, v);
      }
      EmuKept(s.users, t.users, f, s.emus[f], s.clock, t.clock);
    }
    forall v | v in t.users && v != u ensures UserOk(t.emus, v, t.users[v]) {
      UserKept(s.emus, t.emus, v, s.users[v]);
    }
    forall i | 0 <= i < |t.inbox| ensures MessageOk(t.users, t.inbox[i]) {
      assert t.inbox[i] in s.inbox;
    }
  }

  // ----- Each handler

  lemma RequestedWaits(s: State, u: UserId)
    requires Inv(s) && u in s.users && s.users[u].alive && s.users[u].emu.Some?
    ensures s.users[u].emu.value in s.emus
    ensures s.users[u].requestedTurn <==> u in Waiting(s.emus[s.users[u].emu.value])
    ensures s.users[u].hasTurn ==> s.users[u].requestedTurn && IsHead(s.emus[s.users[u].emu.value], u)
  {}

  lemma EnqueueOk(users: map<UserId, User>, e: EmuId, emu: Emu, u: UserId, clock: int)
    requires EmuOk(users, e, emu, clock) && u in users && users[u].emu == Some(e)
    requires u !in Waiting(emu) && !users[u].hasTurn
    ensures var emu' := emu.(workQueue := emu.workQueue + [TurnRequest(u)], requested := emu.requested + [u]);
      Waiting(emu') == Waiting(emu) + [u] && EmuOk(users, e, emu', clock)
  {
    PendingAppend(emu.workQueue, TurnRequest(u));
    var emu' := emu.(workQueue := emu.workQueue + [TurnRequest(u)], requested := emu.requested + [u]);
    assert Waiting(emu') == Waiting(emu) + [u];
    assert forall c: nat | c < CONTROLS :: OwnedByHead(users, emu, c) ==> OwnedByHead(users, emu', c);
  }

  /** A command that requests no turn leaves everybody's place as it is. */
  lemma AppendOk(users: map<UserId, User>, e: EmuId, emu: Emu, c: EmuCommand, clock: int)
    requires EmuOk(users, e, emu, clock) && !c.TurnRequest?
    ensures var emu' := emu.(workQueue := emu.workQueue + [c]);
      Waiting(emu') == Waiting(emu) && EmuOk(users, e, emu', clock)
  {
    PendingAppend(emu.workQueue, c);
    var emu' := emu.(workQueue := emu.workQueue + [c]);
    assert forall c: nat | c < CONTROLS :: OwnedByHead(users, emu, c) ==> OwnedByHead(users, emu', c);
  }

  lemma ServeTurnInv(s: State, m: Message)
    requires Inv(s) && m.user in s.users && m.content.Turn? && MessageOk(s.users, m)
    ensures Inv(ServeMessage(s, m, false))
  {
    hide Inv;
    if ServeMessage(s, m, false) != s {
      EnqueueInv(s, m.user, m.emu.value);
    }
  }

  lemma EnqueueInv(s: State, u: UserId, e: EmuId)
    requires Inv(s) && u in s.users && e in s.emus && s.users[u].emu == Some(e)
    requires s.users[u].alive && !s.users[u].requestedTurn
    ensures var emu := s.emus[e];
      Inv(s.(users := s.users[u := s.users[u].(requestedTurn := true)],
             emus := s.emus[e := emu.(workQueue := emu.workQueue + [TurnRequest(u)],
                                      requested := emu.requested + [u])]))
  {
    hide EmuOk, Waiting, UserOk, IsHead;
    var emu := s.emus[e];
    var user := s.users[u].(requestedTurn := true);
    var emu' := emu.(workQueue := emu.workQueue + [TurnRequest(u)], requested := emu.requested + [u]);
    var t := s.(users := s.users[u := user], emus := s.emus[e := emu']);
    RequestedWaits(s, u);
    EmuKept(s.users, t.users, e, emu, s.clock, s.clock);
    EnqueueOk(t.users, e, emu, u, s.clock);
    HeadKept(emu, emu');
    RequestingUserOk(t.emus, u, user, e);
    LocalStep(s, t, u, e);
  }

  lemma RequestingUserOk(emus: map<EmuId, Emu>, u: UserId, user: User, e: EmuId)
    requires user.requestedTurn && !user.hasTurn && user.emu == Some(e) && e in emus && u in Waiting(emus[e])
    ensures UserOk(emus, u, user)
  {}

  lemma ServeButtonInv(s: State, m: Message, refused: bool)
    requires Inv(s) && m.user in s.users && m.content.Button? && MessageOk(s.users, m)
    ensures Inv(ServeMessage(s, m, refused))
  {
    hide Inv, WriteControl;
    var user := s.users[m.user];
    if ServeMessage(s, m, refused) != s {
      WriteInv(s, m.user, m.emu.value, m.content.control, m.content.value,
               if user.alive && !user.hasAdmin then By(m.user) else Privileged);
    }
  }

  lemma WriteInv(s: State, u: UserId, e: EmuId, control: nat, value: int, writer: Writer)
    requires Inv(s) && u in s.users && e in s.emus && s.users[u].emu == Some(e) && control < CONTROLS
    requires writer == Privileged || (writer == By(u) && s.users[u].alive && s.users[u].hasTurn)
    ensures Inv(s.(emus := s.emus[e := WriteControl(s.emus[e], control, value, writer)]))
  {
    hide EmuOk, Waiting, WriteControl, UserOk, IsHead;
    var t := s.(emus := s.emus[e := WriteControl(s.emus[e], control, value, writer)]);
    if s.users[u].alive {
      RequestedWaits(s, u);
    }
    WriteOk(s.users, e, s.emus[e], control, value, writer, s.clock);
    HeadKept(s.emus[e], t.emus[e]);
    UserKept(s.emus, t.emus, u, s.users[u]);
    LocalStep(s, t, u, e);
  }

  lemma HeadKept(emu: Emu, emu': Emu)
    requires emu'.turnQueue == emu.turnQueue
    ensures forall v :: IsHead(emu, v) <==> IsHead(emu', v)
  {}

  /** A turn holder's value belongs to the head; admins and expired senders leave another mark. */
  lemma WriteOk(users: map<UserId, User>, e: EmuId, emu: Emu, control: nat, value: int, writer: Writer, clock: int)
    requires EmuOk(users, e, emu, clock) && control < CONTROLS
    requires !writer.Nobody?
    requires writer.By? ==> IsHead(emu, writer.user) && writer.user in users && users[writer.user].hasTurn
    ensures var emu' := WriteControl(emu, control, value, writer);
      emu'.turnQueue == emu.turnQueue && Waiting(emu') == Waiting(emu) && EmuOk(users, e, emu', clock)
  {
    var emu' := WriteControl(emu, control, value, writer);
    forall c: nat | c < CONTROLS ensures OwnedByHead(users, emu', c) {
      assert OwnedByHead(users, emu, c);
    }
  }

  lemma NowhereWaiting(s: State, u: UserId)
    requires Inv(s) && (u in s.users ==> s.users[u].emu.None?)
    ensures forall e | e in s.emus :: u !in Waiting(s.emus[e])
  {}

  lemma ServeConnectInv(s: State, m: Message, refused: bool)
    requires Inv(s) && m.user in s.users && m.content.Connect? && MessageOk(s.users, m)
    ensures Inv(ServeMessage(s, m, refused))
  {
    var t := ServeMessage(s, m, refused);
    if t != s {
      hide EmuOk, Waiting, UserOk;
      var u, e := m.user, m.content.target;
      NowhereWaiting(s, u);
      assert EmuOk(s.users, e, s.emus[e], s.clock);
      hide Inv;
      EmuKept(s.users, t.users, e, s.emus[e], s.clock, s.clock);
      AppendOk(t.users, e, s.emus[e], OtherCommand, s.clock);
      ConnectedUserOk(s, t.emus, u, e);
      LocalStep(s, t, u, e);
    }
  }

  lemma ConnectedUserOk(s: State, emus: map<EmuId, Emu>, u: UserId, e: EmuId)
    requires Inv(s) && u in s.users && s.users[u].emu.None? && e in emus && u !in Waiting(emus[e])
    ensures UserOk(emus, u, s.users[u].(emu := Some(e)))
  {
    assert UserOk(s.emus, u, s.users[u]);
  }

  lemma ServeAdminInv(s: State, m: Message, refused: bool)
    requires Inv(s) && m.user in s.users && m.content.Admin?
    ensures Inv(ServeMessage(s, m, refused))
  {
    UserFlagInv(s, m.user, s.users[m.user].(hasAdmin := true));
  }

  /** Flags other than hasTurn and requestedTurn, and the end of a user object, break nothing. */
  lemma UserFlagInv(s: State, u: UserId, user: User)
    requires Inv(s) && u in s.users
    requires user.emu == s.users[u].emu && user.hasTurn == s.users[u].hasTurn
    requires user.alive ==> s.users[u].alive && user.requestedTurn == s.users[u].requestedTurn
    ensures Inv(s.(users := s.users[u := user]))
  {
    hide EmuOk, Waiting;
    var t := s.(users := s.users[u := user]);
    assert UserOk(s.emus, u, s.users[u]);
    var e := 0;  // any emulator does: none of them changes
    if e in s.emus {
      EmuKept(s.users, t.users, e, s.emus[e], s.clock, s.clock);
    }
    LocalStep(s, t, u, e);
  }

  lemma ServeInv(s: State, refused: bool)
    requires Inv(s) && Enabled(s, Serve(refused))
    ensures Inv(Next(s, Serve(refused)))
  {
    var m := s.inbox[0];
    assert MessageOk(s.users, m);
    match m.content {
      case Turn => ServeTurnInv(s, m);
      case Button(_, _) => ServeButtonInv(s, m, refused);
      case Connect(_) => ServeConnectInv(s, m, refused);
      case Admin => ServeAdminInv(s, m, refused);
    }
  }

  lemma OpenInv(s: State, u: UserId)
    requires Inv(s) && u !in s.users
    ensures Inv(Next(s, Open(u)))
  {
    hide EmuOk;
    var t := Next(s, Open(u));
    forall e | e in s.emus ensures EmuOk(t.users, e, t.emus[e], t.clock) {
      EmuKept(s.users, t.users, e, s.emus[e], s.clock, s.clock);
    }
  }

  lemma CloseInv(s: State, u: UserId)
    requires Inv(s) && Enabled(s, Closed(u))
    ensures Inv(Next(s, Closed(u)))
  {
    hide EmuOk, Waiting, UserOk;
    var t := Next(s, Closed(u));
    var user := s.users[u].(registered := false);
    UserFlagInv(s, u, user);
    var s' := s.(users := t.users);
    if t != s' {
      AppendInv(s', u, user.emu.value, UserDisconnect(u));
    }
  }

  lemma AppendInv(s: State, u: UserId, e: EmuId, c: EmuCommand)
    requires Inv(s) && u in s.users && e in s.emus && !c.TurnRequest?
    ensures Inv(s.(emus := s.emus[e := s.emus[e].(workQueue := s.emus[e].workQueue + [c])]))
  {
    hide EmuOk, Waiting, UserOk;
    var t := s.(emus := s.emus[e := s.emus[e].(workQueue := s.emus[e].workQueue + [c])]);
    AppendOk(s.users, e, s.emus[e], c, s.clock);
    UserKept(s.emus, t.emus, u, s.users[u]);
    LocalStep(s, t, u, e);
  }

  lemma DrainedWaiting(emu: Emu)
    requires emu.workQueue != []
    ensures Waiting(Drained(emu)) == Waiting(emu)
    ensures Drained(emu).turnQueue != [] ==> IsHead(Drained(emu), Waiting(emu)[0])
    ensures emu.turnQueue != [] ==> IsHead(emu, Waiting(emu)[0]) && Drained(emu).turnQueue != []
  {}

  /** Draining moves the first request from the work queue to the turn queue: nobody's place changes. */
  lemma DrainOk(users: map<UserId, User>, e: EmuId, emu: Emu, clock: int)
    requires EmuOk(users, e, emu, clock) && emu.workQueue != []
    ensures Waiting(Drained(emu)) == Waiting(emu) && EmuOk(users, e, Drained(emu), clock)
    ensures forall u :: IsHead(emu, u) ==> IsHead(Drained(emu), u)
  {
    DrainedWaiting(emu);
    hide Waiting, Distinct;
    var emu' := Drained(emu);
    forall c: nat | c < CONTROLS ensures OwnedByHead(users, emu', c) {
      assert OwnedByHead(users, emu, c);
    }
  }

  lemma DrainInv(s: State, e: EmuId)
    requires Inv(s) && Enabled(s, DrainOne(e))
    ensures Inv(Next(s, DrainOne(e)))
  {
    hide EmuOk, Waiting, IsHead, UserOk, Drained;
    var c := s.emus[e].workQueue[0];
    var t := s.(emus := s.emus[e := Drained(s.emus[e])]);
    DrainOk(s.users, e, s.emus[e], s.clock);
    if 0 in s.users {
      UserKept(s.emus, t.emus, 0, s.users[0]);
    }
    LocalStep(s, t, 0, e);
    if c.UserDisconnect? && c.user in s.users && s.users[c.user].alive {
      UserFlagInv(t, c.user, s.users[c.user].(connected := false));
    }
  }

  lemma PlacesTail(users: map<UserId, User>, users': map<UserId, User>, e: EmuId, w: seq<UserId>, held: bool)
    requires w != [] && PlacesOk(users, e, w, held)
    requires forall v | v in users && v != w[0] :: v in users' && users'[v] == users[v]
    ensures PlacesOk(users', e, w[1..], false)
  {
    forall i | 0 <= i < |w[1..]|
      ensures w[1..][i] in users' && users'[w[1..][i]].emu == Some(e) && !users'[w[1..][i]].hasTurn
    {
      assert w[1..][i] == w[i + 1] && w[0] != w[i + 1];
    }
  }

  lemma RemoveHeadWaiting(emu: Emu)
    requires emu.turnQueue != []
    ensures Waiting(emu) != [] && Waiting(emu)[0] == emu.turnQueue[0]
    ensures Waiting(RemoveHead(emu)) == Waiting(emu)[1..]
    ensures RemoveHead(emu).turnQueue != [] ==>
            |Waiting(emu)| > 1 && RemoveHead(emu).turnQueue[0] == Waiting(emu)[1..][0]
    ensures RemoveHead(emu).removed + Waiting(emu)[1..] == emu.removed + Waiting(emu)
  {
    hide Pending;
    var q, p := emu.turnQueue, Pending(emu.workQueue);
    assert (q + p)[1..] == q[1..] + p;
    assert q + p == [q[0]] + (q + p)[1..];
    assert (emu.removed + [q[0]]) + (q + p)[1..] == emu.removed + ([q[0]] + (q + p)[1..]);
  }

  lemma RemoveHeadQueue(users: map<UserId, User>, users': map<UserId, User>, e: EmuId, emu: Emu)
    requires QueueOk(users, e, emu) && emu.turnQueue != []
    requires forall v | v in users && v != emu.turnQueue[0] :: v in users' && users'[v] == users[v]
    ensures var emu' := RemoveHead(emu);
      Waiting(emu') == Waiting(emu)[1..] && QueueOk(users', e, emu') &&
      (emu'.turnQueue != [] ==> emu'.turnQueue[0] in users' && !users'[emu'.turnQueue[0]].hasTurn)
  {
    hide Waiting, Distinct;
    RemoveHeadWaiting(emu);
    PlacesTail(users, users', e, Waiting(emu), true);
  }

  /** Erasing the head moves everybody else up by one place and leaves the joypad released. */
  lemma RemoveHeadOk(users: map<UserId, User>, users': map<UserId, User>, e: EmuId, emu: Emu, clock: int, clock': int)
    requires EmuOk(users, e, emu, clock) && emu.turnQueue != [] && clock <= clock'
    requires forall v | v in users && v != emu.turnQueue[0] :: v in users' && users'[v] == users[v]
    ensures var emu' := RemoveHead(emu);
      Waiting(emu') == Waiting(emu)[1..] && EmuOk(users', e, emu', clock')
  {
    hide QueueOk, Waiting;
    RemoveHeadQueue(users, users', e, emu);
  }

  lemma LeavesQueue(emu: Emu, u: UserId)
    requires Distinct(Waiting(emu)) && emu.turnQueue != []
    ensures u in Waiting(emu)[1..] <==> u in Waiting(emu) && u != emu.turnQueue[0]
  {
    var w := Waiting(emu);
    assert w == [w[0]] + w[1..];
  }

  lemma HeadLeaves(users: map<UserId, User>, e: EmuId, emu: Emu, clock: int)
    requires EmuOk(users, e, emu, clock) && emu.turnQueue != []
    ensures forall v :: v in Waiting(emu)[1..] <==> v in Waiting(emu) && v != emu.turnQueue[0]
  {
    forall v ensures v in Waiting(emu)[1..] <==> v in Waiting(emu) && v != emu.turnQueue[0] {
      LeavesQueue(emu, v);
    }
  }

  lemma RemovalInv(s: State, e: EmuId, now: int, user: User)
    requires Inv(s) && e in s.emus && s.clock <= now && s.emus[e].turnQueue != []
    requires s.emus[e].turnQueue[0] in s.users && s.users[s.emus[e].turnQueue[0]].emu == user.emu == Some(e)
    requires user.alive ==> !user.hasTurn && !user.requestedTurn
    ensures var u := s.emus[e].turnQueue[0];
      Inv(s.(clock := now, users := s.users[u := user], emus := s.emus[e := RemoveHead(s.emus[e])]))
  {
    var u := s.emus[e].turnQueue[0];
    var t := s.(clock := now, users := s.users[u := user], emus := s.emus[e := RemoveHead(s.emus[e])]);
    RemoveHeadOk(s.users, t.users, e, s.emus[e], s.clock, now);
    HeadLeaves(s.users, e, s.emus[e], s.clock);
    hide Inv, EmuOk, Waiting, RemoveHead;
    LocalStep(s, t, u, e);
  }

  lemma GrantOk(users: map<UserId, User>, e: EmuId, emu: Emu, u: UserId, user: User, clock: int, now: int)
    requires EmuOk(users, e, emu, clock) && IsHead(emu, u) && u in users && clock <= now
    requires user.emu == users[u].emu && user.hasTurn
    ensures var emu' := emu.(turnEnd := now + emu.turnLength, grantedAt := now);
      EmuOk(users[u := user], e, emu', now) && Waiting(emu') == Waiting(emu)
  {
    var emu' := emu.(turnEnd := now + emu.turnLength, grantedAt := now);
    var w := Waiting(emu);
    assert w[0] == u;
    var users' := users[u := user];
    forall c: nat | c < CONTROLS ensures OwnedByHead(users', emu', c) {
      assert OwnedByHead(users, emu, c);
    }
  }

  lemma CheckInv(s: State, e: EmuId, now: int)
    requires Inv(s) && Enabled(s, Check(e, now))
    ensures Inv(Next(s, Check(e, now)))
  {
    hide EmuOk, UserOk, Waiting, RemoveHead;
    var t := CheckTurn(s, e, now);
    var emu := s.emus[e];
    if emu.turnQueue == [] || t == s.(clock := now) {
      TimeInv(s, now);
    } else {
      var u := emu.turnQueue[0];
      HeadIsWaiting(s, e);
      if s.users[u].alive && !s.users[u].hasTurn && s.users[u].connected {
        GrantOk(s.users, e, emu, u, t.users[u], s.clock, now);
        GrantedUserOk(s, t, e, u);
        LocalStep(s, t, u, e);
      } else {
        RemovalInv(s, e, now, t.users[u]);
        if !s.users[u].alive {
          assert s.users[u := s.users[u]] == s.users;
        }
      }
    }
  }

  lemma HeadIsWaiting(s: State, e: EmuId)
    requires Inv(s) && e in s.emus && s.emus[e].turnQueue != []
    ensures var u := s.emus[e].turnQueue[0]; u in s.users && s.users[u].emu == Some(e)
  {
    var w := Waiting(s.emus[e]);
    assert w[0] in w;
    WaitsAt(s, e, w[0]);
  }

  lemma TimeInv(s: State, now: int)
    requires Inv(s) && s.clock <= now
    ensures Inv(s.(clock := now))
  {}

  lemma GrantedUserOk(s: State, t: State, e: EmuId, u: UserId)
    requires Inv(s) && e in s.emus && IsHead(s.emus[e], u) && u in s.users && s.users[u].emu == Some(e)
    requires s.users[u].alive && u in t.users && t.users[u] == s.users[u].(hasTurn := true)
    requires e in t.emus && Waiting(t.emus[e]) == Waiting(s.emus[e]) && IsHead(t.emus[e], u)
    ensures UserOk(t.emus, u, t.users[u])
  {}

  lemma NextInv(s: State, step: Step)
    requires Inv(s) && Enabled(s, step)
    ensures Inv(Next(s, step))
  {
    match step {
      case Open(u) => OpenInv(s, u);
      case Receive(u, content) => ReceiveInv(s, u, content);
      case Serve(refused) => ServeInv(s, refused);
      case Closed(u) => CloseInv(s, u);
      case Expire(u) => UserFlagInv(s, u, s.users[u].(alive := false));
      case DrainOne(e) => DrainInv(s, e);
      case Check(e, now) => CheckInv(s, e, now);
    }
  }

  lemma ReceiveInv(s: State, u: UserId, content: Content)
    requires Inv(s) && Enabled(s, Receive(u, content))
    ensures Inv(Next(s, Receive(u, content)))
  {}

  /** Every state of every run from an initial state is in order. */
  lemma {:induction false} RunInv(s: State, steps: seq<Step>)
    requires Inv(s) && IsRun(s, steps)
    ensures Inv(Run(s, steps))
    decreases steps
  {
    hide Inv, Next, Enabled;
    if steps != [] {
      NextInv(s, steps[0]);
      RunInv(Next(s, steps[0]), steps[1..]);
    }
  }
}
