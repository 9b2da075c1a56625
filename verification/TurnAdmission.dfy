/** What each message and each check of the turn protocol comes to: who is admitted, who is dropped. */
module TurnAdmission {
  import opened Option
  import opened Turns
  import opened TurnInvariant
  import opened TurnTheorems

  // ----- One message

  /** A user starts alive, registered and connected, with no emulator, no turn, no request and no admin rights;
      nobody else changes. */
  lemma OpenServed(s: State, u: UserId)
    requires Enabled(s, Open(u))
    ensures var t := Next(s, Open(u));
      u in t.users && t.users - {u} == s.users && t.emus == s.emus && t.inbox == s.inbox && t.clock == s.clock &&
      var user := t.users[u];
      user.alive && user.registered && user.connected && user.emu.None? &&
      !user.hasTurn && !user.requestedTurn && !user.hasAdmin
  {
    assert Next(s, Open(u)).users - {u} == s.users;
  }

  /** A message joins the end of the inbox with the emulator its sender is connected to right now. */
  lemma ReceiveServed(s: State, u: UserId, content: Content)
    requires Enabled(s, Receive(u, content))
    ensures var t := Next(s, Receive(u, content));
      |t.inbox| == |s.inbox| + 1 && s.inbox <= t.inbox && t.(inbox := s.inbox) == s &&
      var m := t.inbox[|s.inbox|]; m.user == u && m.emu == s.users[u].emu && m.content == content
  {}

  /** A turn request is admitted, behind everybody else, exactly when its sender is alive, connected to an
      emulator and has no request pending; otherwise nothing happens. */
  lemma TurnServed(s: State, m: Message, refused: bool, e: EmuId)
    requires m.user in s.users && m.content.Turn? && m.emu == Some(e) && e in s.emus
    ensures var user, t := s.users[m.user], ServeMessage(s, m, refused);
      var admitted := user.alive && user.emu.Some? && !user.requestedTurn;
      e in t.emus && m.user in t.users &&
      (admitted <==> Waiting(t.emus[e]) == Waiting(s.emus[e]) + [m.user] && t.users[m.user].requestedTurn) &&
      (admitted ==> t.users == s.users[m.user := user.(requestedTurn := true)] && t.emus - {e} == s.emus - {e} &&
                    t.emus[e].turnQueue == s.emus[e].turnQueue && t.emus[e].pad == s.emus[e].pad) &&
      (!admitted ==> t == s)
  {
    var t := ServeMessage(s, m, refused);
    PendingAppend(s.emus[e].workQueue, TurnRequest(m.user));
    if t != s {
      assert t.emus[e].workQueue == s.emus[e].workQueue + [TurnRequest(m.user)];
      assert t.emus - {e} == s.emus - {e};
    }
  }

  /** A user gets the emulator asked for exactly when alive, not refused and without one; an emulator once
      set stays. */
  lemma ConnectServed(s: State, m: Message, refused: bool)
    requires m.user in s.users && m.content.Connect?
    ensures var user, t, target := s.users[m.user], ServeMessage(s, m, refused), m.content.target;
      m.user in t.users &&
      if user.alive && !refused && target in s.emus && user.emu.None?
      then t.users == s.users[m.user := user.(emu := Some(target))] &&
           forall e | e in s.emus :: e in t.emus && Waiting(t.emus[e]) == Waiting(s.emus[e])
      else t == s
  {
    if m.content.target in s.emus {
      PendingAppend(s.emus[m.content.target].workQueue, OtherCommand);
    }
  }

  /** Nobody but the sender gains anything by an admin message, and an expired or refused sender does not. */
  lemma AdminServed(s: State, m: Message, refused: bool, u: UserId)
    requires m.user in s.users && m.content.Admin? && u in s.users
    ensures var t := ServeMessage(s, m, refused);
      u in t.users && t.emus == s.emus && t.users.Keys == s.users.Keys &&
      (t.users[u].hasAdmin <==> s.users[u].hasAdmin || (u == m.user && s.users[u].alive && !refused)) &&
      t.users[u].(hasAdmin := s.users[u].hasAdmin) == s.users[u]
  {}

  /** A button command that is carried out changes one control, and marks it with its sender unless that is
      an admin or has expired; one that is refused changes nothing. */
  lemma ButtonServed(s: State, m: Message, refused: bool, e: EmuId)
    requires m.user in s.users && m.content.Button? && m.emu == Some(e) && e in s.emus
    requires |s.emus[e].pad| == |s.emus[e].writers| == CONTROLS
    ensures var user, t, c := s.users[m.user], ServeMessage(s, m, refused), m.content.control;
      if c < CONTROLS && !refused && (user.hasTurn || user.hasAdmin || !user.alive)
      then e in t.emus && t.users == s.users && t.emus - {e} == s.emus - {e} &&
           t.emus[e].pad == s.emus[e].pad[c := m.content.value] &&
           t.emus[e].turnQueue == s.emus[e].turnQueue && t.emus[e].workQueue == s.emus[e].workQueue &&
           t.emus[e].writers[c] == (if user.hasAdmin || !user.alive then Privileged else By(m.user))
      else t == s
  {
    assert ServeMessage(s, m, refused).emus - {e} == s.emus - {e};
  }

  /** Without an emulator captured on arrival, turn and button messages come to nothing. */
  lemma NoEmulatorServed(s: State, m: Message, refused: bool)
    requires m.user in s.users && (m.content.Turn? || m.content.Button?)
    requires m.emu.None? || m.emu.value !in s.emus
    ensures ServeMessage(s, m, refused) == s
  {}

  // ----- One check of the turn

  /** The head leaves the queue exactly when it has expired, or when the turn is over, somebody else waits and
      the head is not about to get a turn. */
  predicate MustLeave(user: User, emu: Emu, now: int) {
    !user.alive || ((user.hasTurn || !user.connected) && emu.turnEnd < now && |emu.turnQueue| > 1)
  }

  /** What a check does to the head and to the joypad, and that it does nothing else. */
  lemma CheckServed(s: State, e: EmuId, now: int)
    requires Enabled(s, Check(e, now)) && s.emus[e].turnQueue != []
    ensures var u, t := s.emus[e].turnQueue[0], CheckTurn(s, e, now); var user := s.users[u];
      t.clock == now && t.inbox == s.inbox && t.emus.Keys == s.emus.Keys && t.emus - {e} == s.emus - {e} &&
      t.users - {u} == s.users - {u} && u in t.users && t.emus[e].workQueue == s.emus[e].workQueue &&
      (if MustLeave(user, s.emus[e], now)
       then t.emus[e].turnQueue == s.emus[e].turnQueue[1..] &&
            (forall c | 0 <= c < |t.emus[e].pad| :: t.emus[e].pad[c] == 0) && |t.emus[e].pad| == CONTROLS
       else t.emus[e].turnQueue == s.emus[e].turnQueue && t.emus[e].pad == s.emus[e].pad) &&
      (user.alive ==>
         (t.users[u].hasTurn <==> !MustLeave(user, s.emus[e], now) && (user.hasTurn || user.connected)) &&
         (t.users[u].requestedTurn <==> !MustLeave(user, s.emus[e], now) && user.requestedTurn)) &&
      t.users[u].(hasTurn := user.hasTurn, requestedTurn := user.requestedTurn) == user
  {
    var u, t := s.emus[e].turnQueue[0], CheckTurn(s, e, now);
    assert t.emus - {e} == s.emus - {e};
    assert t.users - {u} == s.users - {u};
  }

  lemma EmptyCheckServed(s: State, e: EmuId, now: int)
    requires Enabled(s, Check(e, now)) && s.emus[e].turnQueue == []
    ensures CheckTurn(s, e, now) == s.(clock := now)
  {}

  // ----- A closed connection

  /** Closing takes the user off the table and tells the emulator, if there is one, behind whatever waits in its
      work queue; nothing else changes. */
  lemma ClosedServed(s: State, u: UserId)
    requires Enabled(s, Closed(u))
    ensures var t, emu := Next(s, Closed(u)), s.users[u].emu;
      t.users == s.users[u := s.users[u].(registered := false)] && !Enabled(t, Closed(u)) &&
      t.inbox == s.inbox && t.clock == s.clock && t.emus.Keys == s.emus.Keys &&
      forall e | e in s.emus ::
        t.emus[e].(workQueue := s.emus[e].workQueue) == s.emus[e] &&
        t.emus[e].workQueue == s.emus[e].workQueue + if emu == Some(e) then [UserDisconnect(u)] else []
  {}

  /** Draining takes the first command off the work queue: a request moves to the end of the turn queue, a
      disconnect marks its user, and any other command leaves users and turns alone. */
  lemma DrainServed(s: State, e: EmuId)
    requires Enabled(s, DrainOne(e))
    ensures var t, c, emu := Next(s, DrainOne(e)), s.emus[e].workQueue[0], s.emus[e];
      t.emus.Keys == s.emus.Keys && t.emus - {e} == s.emus - {e} && t.inbox == s.inbox && t.clock == s.clock &&
      t.emus[e].workQueue == emu.workQueue[1..] && t.emus[e].pad == emu.pad &&
      t.emus[e].turnQueue == emu.turnQueue + (if c.TurnRequest? then [c.user] else []) &&
      t.users.Keys == s.users.Keys &&
      forall u | u in s.users :: t.users[u].(connected := s.users[u].connected) == s.users[u] &&
        (t.users[u].connected <==> s.users[u].connected && !(c == UserDisconnect(u) && s.users[u].alive))
  {
    assert Next(s, DrainOne(e)).emus - {e} == s.emus - {e};
  }

  /** How many commands of its work queue e drains in a run. */
  function Drains(steps: seq<Step>, e: EmuId): nat {
    if steps == [] then 0 else (if steps[0] == DrainOne(e) then 1 else 0) + Drains(steps[1..], e)
  }

  lemma GoneStep(s: State, step: Step, u: UserId)
    requires Enabled(s, step) && u in s.users
    ensures u in Next(s, step).users && (Next(s, step).users[u].connected ==> s.users[u].connected)
    ensures Next(s, step).users[u].alive ==> s.users[u].alive
  {}

  lemma {:induction false} StaysGone(s: State, steps: seq<Step>, u: UserId)
    requires IsRun(s, steps) && u in s.users && (s.users[u].alive ==> !s.users[u].connected)
    ensures u in Run(s, steps).users && (Run(s, steps).users[u].alive ==> !Run(s, steps).users[u].connected)
    decreases steps
  {
    if steps != [] {
      GoneStep(s, steps[0], u);
      hide Next, Enabled;
      StaysGone(Next(s, steps[0]), steps[1..], u);
    }
  }

  /** A disconnect at position k of the work queue has taken effect for good once e has drained k + 1
      commands, whatever else happens; so no check after that grants the user a turn. */
  lemma {:induction false} DisconnectTakesEffect(s: State, steps: seq<Step>, e: EmuId, k: nat, u: UserId)
    requires IsRun(s, steps) && e in s.emus && k < |s.emus[e].workQueue| && u in s.users
    requires s.emus[e].workQueue[k] == UserDisconnect(u) && Drains(steps, e) > k
    ensures u in Run(s, steps).users && (Run(s, steps).users[u].alive ==> !Run(s, steps).users[u].connected)
    decreases steps
  {
    var t := Next(s, steps[0]);
    GoneStep(s, steps[0], u);
    if steps[0] == DrainOne(e) && k == 0 {
      DrainedDisconnect(s, e, u);
      hide Next, Enabled;
      StaysGone(t, steps[1..], u);
    } else {
      WorkStep(s, steps[0], e);
      hide Next, Enabled;
      DisconnectTakesEffect(t, steps[1..], e, if steps[0] == DrainOne(e) then k - 1 else k, u);
    }
  }

  lemma DrainedDisconnect(s: State, e: EmuId, u: UserId)
    requires Enabled(s, DrainOne(e)) && s.emus[e].workQueue[0] == UserDisconnect(u) && u in s.users
    ensures u in Next(s, DrainOne(e)).users
    ensures Next(s, DrainOne(e)).users[u].alive ==> !Next(s, DrainOne(e)).users[u].connected
  {}

  /** Only draining takes from a work queue, one command at its front. */
  lemma WorkStep(s: State, step: Step, e: EmuId)
    requires Enabled(s, step) && e in s.emus
    ensures e in Next(s, step).emus
    ensures (if step == DrainOne(e) then s.emus[e].workQueue[1..] else s.emus[e].workQueue) <=
            Next(s, step).emus[e].workQueue
  {}

  // ----- From the request to the head of the queue

  lemma {:induction false} DrainAll(s: State, e: EmuId, u: UserId) returns (steps: seq<Step>)
    requires Inv(s) && e in s.emus && u in Waiting(s.emus[e])
    ensures IsRun(s, steps) && Inv(Run(s, steps)) && e in Run(s, steps).emus
    ensures u in Run(s, steps).emus[e].turnQueue
    decreases |s.emus[e].workQueue|
  {
    if s.emus[e].workQueue == [] {
      steps := [];
    } else {
      var t := Next(s, DrainOne(e));
      NextInv(s, DrainOne(e));
      DrainKeepsWaiting(s, e);
      hide Inv, Next, Enabled;
      assert Enabled(s, DrainOne(e)) by { DrainEnabled(s, e); }
      var rest := DrainAll(t, e, u);
      RunStep(s, DrainOne(e), rest);
      steps := [DrainOne(e)] + rest;
    }
  }

  lemma DrainEnabled(s: State, e: EmuId)
    requires e in s.emus && s.emus[e].workQueue != []
    ensures Enabled(s, DrainOne(e))
  {}

  lemma DrainKeepsWaiting(s: State, e: EmuId)
    requires e in s.emus && s.emus[e].workQueue != []
    ensures var t := Next(s, DrainOne(e));
      e in t.emus && Waiting(t.emus[e]) == Waiting(s.emus[e]) &&
      t.emus[e].workQueue == s.emus[e].workQueue[1..]
  {
    var emu := s.emus[e];
    assert Pending(emu.workQueue) ==
           (if emu.workQueue[0].TurnRequest? then [emu.workQueue[0].user] else []) + Pending(emu.workQueue[1..]);
  }

  /** n checks, each a tick after the one before. */
  lemma {:induction false} Checks(s: State, e: EmuId, n: nat) returns (steps: seq<Step>)
    requires Inv(s) && e in s.emus
    ensures IsRun(s, steps) && LaterChecks(s, steps, e) == n
    decreases n
  {
    if n == 0 {
      steps := [];
    } else {
      var step := Check(e, s.clock + 1);
      CheckEnabled(s, e, s.clock + 1);
      NextInv(s, step);
      CheckKeepsEmulators(s, e, s.clock + 1);
      hide Inv, Next, Enabled;
      var rest := Checks(Next(s, step), e, n - 1);
      RunStep(s, step, rest);
      steps := [step] + rest;
      assert steps[1..] == rest;
    }
  }

  lemma CheckEnabled(s: State, e: EmuId, now: int)
    requires Inv(s) && e in s.emus && s.clock <= now
    ensures Enabled(s, Check(e, now))
  {
    forall u | u in s.emus[e].turnQueue ensures u in s.users {
      WaitsAt(s, e, u);
    }
  }

  lemma CheckKeepsEmulators(s: State, e: EmuId, now: int)
    requires Enabled(s, Check(e, now))
    ensures e in Next(s, Check(e, now)).emus
  {}

  /** The user waits for e, or a turn request of the user is still in the inbox. */
  ghost predicate Asked(s: State, u: UserId, e: EmuId)
    requires e in s.emus
  {
    u in Waiting(s.emus[e]) || Message(u, Some(e), Turn) in s.inbox
  }

  ghost predicate Connected(s: State, u: UserId, e: EmuId) {
    u in s.users && s.users[u].alive && s.users[u].emu == Some(e) && e in s.emus
  }

  lemma ServeKeepsAsked(s: State, u: UserId, e: EmuId)
    requires Inv(s) && Connected(s, u, e) && Asked(s, u, e) && s.inbox != []
    ensures Enabled(s, Serve(true))
    ensures Connected(Next(s, Serve(true)), u, e) && Asked(Next(s, Serve(true)), u, e)
  {
    var m := s.inbox[0];
    assert MessageOk(s.users, m);
    assert s.inbox == [m] + s.inbox[1..];
    RequestedWaits(s, u);
    hide Inv;
    if m == Message(u, Some(e), Turn) {
      TurnServed(s, m, true, e);
    } else {
      ServeKeepsWaiting(s, m, u, e);
    }
  }

  lemma ServeKeepsWaiting(s: State, m: Message, u: UserId, e: EmuId)
    requires m.user in s.users && Connected(s, u, e)
    ensures var t := ServeMessage(s, m, true);
      Connected(t, u, e) && (u in Waiting(s.emus[e]) ==> u in Waiting(t.emus[e]))
  {
    PendingAppend(s.emus[e].workQueue, TurnRequest(m.user));
  }

  lemma {:induction false} ServeAll(s: State, u: UserId, e: EmuId) returns (steps: seq<Step>)
    requires Inv(s) && Connected(s, u, e) && Asked(s, u, e)
    ensures IsRun(s, steps) && Inv(Run(s, steps)) && e in Run(s, steps).emus
    ensures u in Waiting(Run(s, steps).emus[e])
    decreases |s.inbox|
  {
    if s.inbox == [] {
      steps := [];
    } else {
      ServeKeepsAsked(s, u, e);
      var t := Next(s, Serve(true));
      assert |t.inbox| < |s.inbox|;
      NextInv(s, Serve(true));
      hide Inv, Next, Enabled, Connected, Asked;
      var rest := ServeAll(t, u, e);
      RunStep(s, Serve(true), rest);
      steps := [Serve(true)] + rest;
    }
  }

  /** Whoever sends a turn request can become the head: there is a run that serves and drains what waits,
      lets turns pass, and ends with the sender at the head of the queue. */
  lemma RequestBecomesHead(s: State, u: UserId, e: EmuId) returns (steps: seq<Step>)
    requires Inv(s) && Enabled(s, Receive(u, Turn)) && Connected(s, u, e)
    ensures IsRun(s, [Receive(u, Turn)] + steps)
    ensures var t := Run(s, [Receive(u, Turn)] + steps); e in t.emus && IsHead(t.emus[e], u)
  {
    var received := Next(s, Receive(u, Turn));
    NextInv(s, Receive(u, Turn));
    assert Connected(received, u, e) && received.inbox[|s.inbox|] == Message(u, Some(e), Turn);
    assert Asked(received, u, e);
    hide Inv, Next, Enabled, Waiting, Connected, Asked;
    var serves := ServeAll(received, u, e);
    var served := Run(received, serves);
    var drains := DrainAll(served, e, u);
    var drained := Run(served, drains);
    var k :| 0 <= k < |drained.emus[e].turnQueue| && drained.emus[e].turnQueue[k] == u;
    var checks := Checks(drained, e, Rank(drained, e, k));
    var n := BoundedWait(drained, checks, e, k);
    RunConcat(served, drains, checks[..n]);
    RunConcat(received, serves, drains + checks[..n]);
    steps := serves + (drains + checks[..n]);
    RunStep(s, Receive(u, Turn), steps);
  }
}
