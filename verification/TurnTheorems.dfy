/** What the turn protocol guarantees over every run. */
module TurnTheorems {
  import opened Option
  import opened Turns
  import opened TurnInvariant

  // ----- Steps other than an emulator's own turn check

  /** Nobody leaves e's queue, no turn changes hands, and users only vanish. */
  ghost predicate Quiet(s: State, t: State, e: EmuId)
    requires e in s.emus
  {
    e in t.emus && s.clock <= t.clock &&
    (var emu, emu' := s.emus[e], t.emus[e];
     emu.turnQueue <= emu'.turnQueue && emu.requested <= emu'.requested && emu'.removed == emu.removed &&
     emu'.turnEnd == emu.turnEnd && emu'.grantedAt == emu.grantedAt && emu'.turnLength == emu.turnLength) &&
    forall v | v in s.users && s.users[v].emu == Some(e) ::
      v in t.users && t.users[v].emu == Some(e) && t.users[v].hasTurn == s.users[v].hasTurn &&
      (t.users[v].alive ==> s.users[v].alive) && (t.users[v].connected ==> s.users[v].connected)
  }

  lemma QuietServe(s: State, m: Message, refused: bool, e: EmuId)
    requires m.user in s.users && e in s.emus
    ensures Quiet(s, ServeMessage(s, m, refused), e)
  {}

  lemma QuietCheck(s: State, f: EmuId, now: int, e: EmuId)
    requires Inv(s) && Enabled(s, Check(f, now)) && e in s.emus && e != f
    ensures Quiet(s, CheckTurn(s, f, now), e)
  {
    if s.emus[f].turnQueue != [] {
      HeadIsWaiting(s, f);
    }
  }

  lemma QuietStep(s: State, step: Step, e: EmuId)
    requires Inv(s) && Enabled(s, step) && e in s.emus && !(step.Check? && step.emu == e)
    ensures Quiet(s, Next(s, step), e)
  {
    hide Inv, CheckTurn, ServeMessage;
    match step {
      case Serve(refused) => QuietServe(s, s.inbox[0], refused, e);
      case Check(f, now) => QuietCheck(s, f, now, e);
      case _ =>
    }
  }

  // ----- Who waits and who holds the turn

  /** In every reachable state a live user waits at most once over all queues, and exactly when requestedTurn
      says so. */
  lemma WaitsAtMostOnce(s0: State, steps: seq<Step>, u: UserId)
    requires Initial(s0) && IsRun(s0, steps)
    ensures var s := Run(s0, steps);
      (forall e | e in s.emus :: Distinct(Waiting(s.emus[e]))) &&
      (forall e, f | e in s.emus && f in s.emus && u in Waiting(s.emus[e]) && u in Waiting(s.emus[f]) :: e == f) &&
      (u in s.users && s.users[u].alive ==>
         (s.users[u].requestedTurn <==> exists e :: e in s.emus && u in Waiting(s.emus[e])))
  {
    InitialInv(s0);
    RunInv(s0, steps);
    var s := Run(s0, steps);
    forall e | e in s.emus && u in Waiting(s.emus[e]) ensures u in s.users && s.users[u].emu == Some(e) {
      WaitsAt(s, e, u);
    }
    if u in s.users && s.users[u].alive {
      assert UserOk(s.emus, u, s.users[u]);
    }
  }

  /** In every reachable state at most one live user of an emulator holds the turn: the head of its queue. */
  lemma OneHolder(s0: State, steps: seq<Step>, u: UserId, v: UserId)
    requires Initial(s0) && IsRun(s0, steps)
    requires var s := Run(s0, steps);
      u in s.users && v in s.users && s.users[u].alive && s.users[v].alive &&
      s.users[u].hasTurn && s.users[v].hasTurn && s.users[u].emu == s.users[v].emu
    ensures var s := Run(s0, steps);
      u == v && s.users[u].emu.Some? && s.users[u].emu.value in s.emus && IsHead(s.emus[s.users[u].emu.value], u)
  {
    InitialInv(s0);
    RunInv(s0, steps);
    var s := Run(s0, steps);
    assert UserOk(s.emus, u, s.users[u]) && UserOk(s.emus, v, s.users[v]);
  }

  /** In every reachable state a pressed control comes from the head of the queue, who holds the turn, unless
      an admin or an expired sender wrote it. */
  lemma JoypadOwned(s0: State, steps: seq<Step>, e: EmuId, c: nat)
    requires Initial(s0) && IsRun(s0, steps) && e in Run(s0, steps).emus && c < CONTROLS
    ensures var s := Run(s0, steps); var emu := s.emus[e];
      |emu.pad| == |emu.writers| == CONTROLS &&
      (emu.pad[c] != 0 && emu.writers[c] != Privileged ==>
         emu.turnQueue != [] && emu.writers[c] == By(emu.turnQueue[0]) &&
         emu.turnQueue[0] in s.users && s.users[emu.turnQueue[0]].hasTurn)
  {
    InitialInv(s0);
    RunInv(s0, steps);
    var s := Run(s0, steps);
    assert EmuOk(s.users, e, s.emus[e], s.clock);
    assert OwnedByHead(s.users, s.emus[e], c);
  }

  /** A button command for an existing control of the captured emulator, not refused otherwise, is carried
      out exactly when its sender holds the turn, is an admin, or has already expired. */
  lemma ButtonPermitted(s: State, m: Message, e: EmuId)
    requires m.user in s.users && m.content.Button? && m.emu == Some(e) && e in s.emus
    requires m.content.control < CONTROLS == |s.emus[e].pad| == |s.emus[e].writers|
    requires s.emus[e].pad[m.content.control] != m.content.value
    ensures var user, t := s.users[m.user], ServeMessage(s, m, false);
      e in t.emus &&
      (t.emus[e].pad == s.emus[e].pad[m.content.control := m.content.value] <==>
         user.hasTurn || user.hasAdmin || !user.alive) &&
      (!(user.hasTurn || user.hasAdmin || !user.alive) ==> t == s)
  {
    assert s.emus[e].pad[m.content.control := m.content.value][m.content.control] == m.content.value;
  }

  const ONE_EMULATOR := State(map[], map[0 := Emu([], [], 0, 10000, seq(CONTROLS, _ => 0),
                                                  seq(CONTROLS, _ => Nobody), [], [], 0)], [], 0)

  const CONNECTING := [Open(1), Receive(1, Connect(0)), Serve(false)]
  const PRESSING := [Receive(1, Button(0, 32767)), Closed(1), Expire(1), Serve(false)]

  lemma UserConnects() returns (s: State)
    ensures IsRun(ONE_EMULATOR, CONNECTING) && s == Run(ONE_EMULATOR, CONNECTING)
    ensures s.users.Keys == {1} && s.users[1] == NewUser().(emu := Some(0)) && s.inbox == [] && s.emus.Keys == {0}
    ensures s.emus[0] == ONE_EMULATOR.emus[0].(workQueue := [OtherCommand])
  {
    var s0, c := ONE_EMULATOR, CONNECTING;
    var s1 := Next(s0, c[0]);
    var s2 := Next(s1, c[1]);
    s := Next(s2, c[2]);
    RunEmpty(s);
    RunStep(s2, c[2], []);
    RunStep(s1, c[1], c[2..]);
    RunStep(s0, c[0], c[1..]);
  }

  lemma ExpiredUserPresses(s: State)
    requires s.users.Keys == {1} && s.users[1] == NewUser().(emu := Some(0)) && s.inbox == [] && s.emus.Keys == {0}
    requires |s.emus[0].pad| == |s.emus[0].writers| == CONTROLS
    ensures IsRun(s, PRESSING) && 0 in Run(s, PRESSING).emus
    ensures var emu := Run(s, PRESSING).emus[0];
      emu.pad == s.emus[0].pad[0 := 32767] && emu.requested == s.emus[0].requested
  {
    var c := PRESSING;
    var s1 := Next(s, c[0]);
    var s2 := Next(s1, c[1]);
    var s3 := Next(s2, c[2]);
    var s4 := Next(s3, c[3]);
    RunEmpty(s4);
    RunStep(s3, c[3], []);
    RunStep(s2, c[2], c[3..]);
    RunStep(s1, c[1], c[2..]);
    RunStep(s, c[0], c[1..]);
  }

  /** So the holder is not the only one who can press a button: this run ends with a button pressed although
      nobody ever asked for a turn, because the sender's object expired before the command was served. */
  lemma ExpiredSenderPresses()
    ensures Initial(ONE_EMULATOR) && IsRun(ONE_EMULATOR, CONNECTING + PRESSING)
    ensures var t := Run(ONE_EMULATOR, CONNECTING + PRESSING);
      0 in t.emus && |t.emus[0].pad| == CONTROLS && t.emus[0].pad[0] == 32767 && t.emus[0].requested == []
  {
    hide IsRun, Run, Next, Enabled;
    var s := UserConnects();
    ExpiredUserPresses(s);
    RunConcat(ONE_EMULATOR, CONNECTING, PRESSING);
  }

  lemma {:induction false} RunConcat(s: State, a: seq<Step>, b: seq<Step>)
    requires IsRun(s, a) && IsRun(Run(s, a), b)
    ensures IsRun(s, a + b) && Run(s, a + b) == Run(Run(s, a), b)
    decreases a
  {
    hide Next, Enabled;
    if a == [] {
      assert a + b == b;
    } else {
      RunConcat(Next(s, a[0]), a[1..], b);
      assert (a + b)[1..] == a[1..] + b;
    }
  }

  lemma RunEmpty(s: State)
    ensures IsRun(s, []) && Run(s, []) == s
  {}

  lemma RunStep(s: State, step: Step, steps: seq<Step>)
    requires Enabled(s, step) && IsRun(Next(s, step), steps)
    ensures IsRun(s, [step] + steps) && Run(s, [step] + steps) == Run(Next(s, step), steps)
  {
    assert ([step] + steps)[1..] == steps;
  }

  // ----- First come, first served

  lemma StepLog(s: State, step: Step, e: EmuId)
    requires Inv(s) && Enabled(s, step) && e in s.emus
    ensures var t := Next(s, step);
      e in t.emus && s.emus[e].requested <= t.emus[e].requested && s.emus[e].removed <= t.emus[e].removed
  {
    hide Inv, Next;
    if step.Check? && step.emu == e {
      assert Next(s, step) == CheckTurn(s, e, step.now) by { NextCheck(s, e, step.now); }
    } else {
      QuietStep(s, step, e);
    }
  }

  lemma NextCheck(s: State, e: EmuId, now: int)
    requires Enabled(s, Check(e, now))
    ensures Next(s, Check(e, now)) == CheckTurn(s, e, now)
  {}

  lemma {:induction false} RunLog(s: State, steps: seq<Step>, e: EmuId)
    requires Inv(s) && IsRun(s, steps) && e in s.emus
    ensures var t := Run(s, steps);
      e in t.emus && s.emus[e].requested <= t.emus[e].requested && s.emus[e].removed <= t.emus[e].removed
    decreases steps
  {
    hide Inv, Next, Enabled;
    if steps != [] {
      StepLog(s, steps[0], e);
      NextInv(s, steps[0]);
      RunLog(Next(s, steps[0]), steps[1..], e);
    }
  }

  /** Users leave in the order in which the server admitted their requests: whoever waits at position k
      stays until exactly k others have left, and is at position k - r after r removals. */
  lemma FirstComeFirstServed(s: State, steps: seq<Step>, e: EmuId, k: nat)
    requires Inv(s) && IsRun(s, steps) && e in s.emus && k < |Waiting(s.emus[e])|
    ensures var t := Run(s, steps);
      e in t.emus && |t.emus[e].removed| >= |s.emus[e].removed| &&
      var r := |t.emus[e].removed| - |s.emus[e].removed|;
      if r <= k then k - r < |Waiting(t.emus[e])| && Waiting(t.emus[e])[k - r] == Waiting(s.emus[e])[k]
      else t.emus[e].removed[|s.emus[e].removed| + k] == Waiting(s.emus[e])[k]
  {
    hide *;
    var t := Run(s, steps);
    RunLog(s, steps, e);
    RunInv(s, steps);
    LogIsQueue(s, e);
    LogIsQueue(t, e);
    LogPosition(s.emus[e].removed, Waiting(s.emus[e]), t.emus[e].removed, Waiting(t.emus[e]), k);
  }

  /** An entry keeps its place in a log that only grows, while the split between its two parts moves on. */
  lemma LogPosition(removed: seq<UserId>, waiting: seq<UserId>, removed': seq<UserId>, waiting': seq<UserId>, k: nat)
    requires removed + waiting <= removed' + waiting' && removed <= removed' && k < |waiting|
    ensures |removed'| >= |removed|
    ensures var r := |removed'| - |removed|;
      if r <= k then k - r < |waiting'| && waiting'[k - r] == waiting[k]
      else removed'[|removed| + k] == waiting[k]
  {
    assert (removed + waiting)[|removed| + k] == (removed' + waiting')[|removed| + k];
  }

  lemma LogIsQueue(s: State, e: EmuId)
    requires Inv(s) && e in s.emus
    ensures s.emus[e].requested == s.emus[e].removed + Waiting(s.emus[e])
  {}

  // ----- How long a turn lasts

  /** The only step that takes the turn from a live holder is a check after the turn's full length, with
      somebody else in the queue. */
  lemma RevokedOnlyWhenOver(s: State, step: Step, u: UserId)
    requires Inv(s) && Enabled(s, step)
    requires u in s.users && s.users[u].alive && s.users[u].hasTurn && s.users[u].emu.Some?
    ensures u in Next(s, step).users && s.users[u].emu.value in s.emus
    ensures !Next(s, step).users[u].hasTurn ==>
      var e := s.users[u].emu.value;
      var emu := s.emus[e];
      step.Check? && step.emu == e && IsHead(emu, u) && |emu.turnQueue| > 1 &&
      step.now > emu.grantedAt + emu.turnLength
  {
    RequestedWaits(s, u);
    var e := s.users[u].emu.value;
    assert EmuOk(s.users, e, s.emus[e], s.clock);
    hide Inv, Next;
    if step.Check? && step.emu == e {
      NextCheck(s, e, step.now);
    } else {
      QuietStep(s, step, e);
    }
  }

  /** While the holder is alive and the clock has not passed the end of the turn, the turn stays. */
  lemma {:induction false} TurnLasts(s: State, steps: seq<Step>, u: UserId, e: EmuId, end: int)
    requires Inv(s) && IsRun(s, steps) && u in s.users && s.users[u].hasTurn && s.users[u].emu == Some(e)
    requires e in s.emus && end <= s.emus[e].grantedAt + s.emus[e].turnLength
    requires Run(s, steps).clock <= end
    ensures var t := Run(s, steps);
      u in t.users && (t.users[u].alive ==> t.users[u].hasTurn && e in t.emus && IsHead(t.emus[e], u))
    decreases steps
  {
    if steps == [] {
      assert UserOk(s.emus, u, s.users[u]);
    } else if s.users[u].alive {
      var t := Next(s, steps[0]);
      RunClock(t, steps[1..]);
      RevokedOnlyWhenOver(s, steps[0], u);
      HolderStep(s, steps[0], u, e);
      NextInv(s, steps[0]);
      TurnLasts(t, steps[1..], u, e, end);
    } else {
      StaysExpired(s, steps, u);
    }
  }

  lemma HolderStep(s: State, step: Step, u: UserId, e: EmuId)
    requires Inv(s) && Enabled(s, step) && u in s.users && s.users[u].alive && s.users[u].hasTurn
    requires s.users[u].emu == Some(e) && e in s.emus
    ensures u in Next(s, step).users && Next(s, step).users[u].emu == Some(e) && e in Next(s, step).emus
    ensures Next(s, step).emus[e].grantedAt == s.emus[e].grantedAt
    ensures Next(s, step).emus[e].turnLength == s.emus[e].turnLength
  {
    RequestedWaits(s, u);
    hide Inv, Next;
    if step.Check? && step.emu == e {
      NextCheck(s, e, step.now);
    } else {
      QuietStep(s, step, e);
    }
  }

  lemma {:induction false} RunClock(s: State, steps: seq<Step>)
    requires IsRun(s, steps)
    ensures s.clock <= Run(s, steps).clock
    decreases steps
  {
    if steps != [] {
      RunClock(Next(s, steps[0]), steps[1..]);
    }
  }

  lemma {:induction false} StaysExpired(s: State, steps: seq<Step>, u: UserId)
    requires IsRun(s, steps) && u in s.users && !s.users[u].alive
    ensures u in Run(s, steps).users && !Run(s, steps).users[u].alive
    decreases steps
  {
    if steps != [] {
      StaysExpired(Next(s, steps[0]), steps[1..], u);
    }
  }

  // ----- How long a waiting user waits

  /** What still has to pass before the head of the queue can be removed. */
  function HeadRest(s: State, e: EmuId): nat
    requires e in s.emus
  {
    var emu := s.emus[e];
    if emu.turnQueue == [] || emu.turnQueue[0] !in s.users || !s.users[emu.turnQueue[0]].alive then 0
    else if !s.users[emu.turnQueue[0]].hasTurn && s.users[emu.turnQueue[0]].connected then emu.turnLength + 2
    else if emu.turnEnd < s.clock then 0
    else emu.turnEnd - s.clock + 1
  }

  /** Decreases with every check at a later time until the user at position k is the head. */
  function Rank(s: State, e: EmuId, k: nat): nat
    requires e in s.emus
  {
    k * (s.emus[e].turnLength + 3) + HeadRest(s, e)
  }

  predicate LaterCheck(s: State, step: Step, e: EmuId) {
    step.Check? && step.emu == e && s.clock < step.now
  }

  /** How many steps of the run check e's turn at a later time than the clock showed before. */
  ghost function LaterChecks(s: State, steps: seq<Step>, e: EmuId): nat
    requires IsRun(s, steps)
    decreases steps
  {
    if steps == [] then 0
    else (if LaterCheck(s, steps[0], e) then 1 else 0) + LaterChecks(Next(s, steps[0]), steps[1..], e)
  }

  lemma RestBounded(s: State, e: EmuId)
    requires Inv(s) && e in s.emus
    ensures HeadRest(s, e) <= s.emus[e].turnLength + 2
  {}

  /** No step delays the head; a later check brings it nearer to its end or removes it. */
  ghost predicate RestMoves(s: State, t: State, e: EmuId, later: bool)
    requires e in s.emus && s.emus[e].turnQueue != []
  {
    e in t.emus && t.emus[e].turnLength == s.emus[e].turnLength &&
    if |t.emus[e].removed| == |s.emus[e].removed| then
      s.emus[e].turnQueue <= t.emus[e].turnQueue && HeadRest(t, e) <= HeadRest(s, e) &&
      (later ==> HeadRest(t, e) < HeadRest(s, e))
    else |t.emus[e].removed| == |s.emus[e].removed| + 1 && t.emus[e].turnQueue == s.emus[e].turnQueue[1..]
  }

  lemma RestStep(s: State, step: Step, e: EmuId)
    requires Inv(s) && Enabled(s, step) && e in s.emus && |s.emus[e].turnQueue| > 1
    ensures RestMoves(s, Next(s, step), e, LaterCheck(s, step, e))
  {
    HeadIsWaiting(s, e);
    assert s.emus[e].turnEnd <= s.clock + s.emus[e].turnLength by { assert EmuOk(s.users, e, s.emus[e], s.clock); }
    hide Inv, Next;
    if step.Check? && step.emu == e {
      NextCheck(s, e, step.now);
    } else {
      QuietStep(s, step, e);
    }
  }

  lemma RankStep(s: State, step: Step, e: EmuId, k: nat) returns (k': nat)
    requires Inv(s) && Enabled(s, step) && e in s.emus && 0 < k < |s.emus[e].turnQueue|
    ensures var t := Next(s, step);
      e in t.emus && k' < |t.emus[e].turnQueue| && t.emus[e].turnQueue[k'] == s.emus[e].turnQueue[k] &&
      Rank(t, e, k') <= Rank(s, e, k) && (LaterCheck(s, step, e) ==> Rank(t, e, k') < Rank(s, e, k))
  {
    hide Inv, Next, Enabled, HeadRest;
    RestStep(s, step, e);
    NextInv(s, step);
    var t := Next(s, step);
    RestBounded(t, e);
    var unit := s.emus[e].turnLength + 3;
    if |t.emus[e].removed| == |s.emus[e].removed| {
      k' := k;
    } else {
      k' := k - 1;
      assert (k - 1) * unit == k * unit - unit;
    }
  }

  /** Whoever is at position k is the head of the queue after at most Rank later checks, whatever every
      other thread does in between; Rank is at most k * (turnLength + 3) + turnLength + 2. */
  lemma {:induction false} BoundedWait(s: State, steps: seq<Step>, e: EmuId, k: nat) returns (n: nat)
    requires Inv(s) && IsRun(s, steps) && e in s.emus && k < |s.emus[e].turnQueue|
    requires LaterChecks(s, steps, e) >= Rank(s, e, k)
    ensures n <= |steps| && IsRun(s, steps[..n])
    ensures var t := Run(s, steps[..n]); e in t.emus && IsHead(t.emus[e], s.emus[e].turnQueue[k])
    ensures Rank(s, e, k) <= k * (s.emus[e].turnLength + 3) + s.emus[e].turnLength + 2
    decreases steps
  {
    hide Inv, Next, Enabled, HeadRest;
    RestBounded(s, e);
    if k == 0 {
      n := 0;
    } else {
      RankPositive(s, e, k);
      var t := Next(s, steps[0]);
      var k' := RankStep(s, steps[0], e, k);
      NextInv(s, steps[0]);
      n := BoundedWait(t, steps[1..], e, k');
      n := n + 1;
      assert steps[..n][1..] == steps[1..][..n - 1];
    }
  }

  lemma RankPositive(s: State, e: EmuId, k: nat)
    requires e in s.emus && k > 0
    ensures Rank(s, e, k) > 0
  {}

  /** A connected user who is the head and has no turn yet gets it at the next check, for the full length. */
  lemma HeadIsGranted(s: State, e: EmuId, now: int)
    requires Inv(s) && Enabled(s, Check(e, now)) && s.emus[e].turnQueue != []
    requires var u := s.emus[e].turnQueue[0];
      s.users[u].alive && s.users[u].connected && !s.users[u].hasTurn
    ensures var u, t := s.emus[e].turnQueue[0], Next(s, Check(e, now));
      t.users[u].hasTurn && IsHead(t.emus[e], u) && t.emus[e].turnEnd == now + s.emus[e].turnLength &&
      t.emus[e].grantedAt == now
  {}
}
