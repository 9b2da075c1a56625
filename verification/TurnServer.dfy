/** The handlers of the turn protocol as code that updates the server's and the emulators' tables in place. */
module TurnServer {
  import opened Option
  import opened Turns
  import opened TurnInvariant

  class TurnServer {
    var users: map<UserId, User>
    var emus: map<EmuId, Emu>
    var inbox: seq<Message>
    var clock: int

    ghost function View(): State
      reads this
    {
      State(users, emus, inbox, clock)
    }

    ghost predicate Valid()
      reads this
    {
      Inv(View())
    }

    constructor (emulators: map<EmuId, nat>)
      ensures Valid() && Initial(View()) && emus.Keys == emulators.Keys
      ensures forall e | e in emus :: emus[e].turnLength == emulators[e]
    {
      users, inbox, clock := map[], [], 0;
      emus := map e | e in emulators ::
        Emu([], [], 0, emulators[e], seq(CONTROLS, _ => 0), seq(CONTROLS, _ => Nobody), [], [], 0);
      new;
      InitialInv(View());
    }

    method OnConnect(u: UserId)
      requires Valid() && Enabled(View(), Open(u))
      modifies this
      ensures Valid() && View() == Next(old(View()), Open(u))
    {
      NextInv(View(), Open(u));
      users := users[u := User(true, true, true, false, false, false, None)];
    }

    method OnMessage(u: UserId, content: Content)
      requires Valid() && Enabled(View(), Receive(u, content))
      modifies this
      ensures Valid() && View() == Next(old(View()), Receive(u, content))
    {
      NextInv(View(), Receive(u, content));
      var emuID := users[u].emu;
      inbox := inbox + [Message(u, emuID, content)];
    }

    method OnDisconnect(u: UserId)
      requires Valid() && Enabled(View(), Closed(u))
      modifies this
      ensures Valid() && View() == Next(old(View()), Closed(u))
    {
      NextInv(View(), Closed(u));
      if users[u].emu.Some? && users[u].emu.value in emus {
        Push(users[u].emu.value, UserDisconnect(u));
      }
      users := users[u := users[u].(registered := false)];
    }

    /** Append a command to the work queue of an emulator. */
    method Push(e: EmuId, c: EmuCommand)
      requires e in emus
      modifies this`emus
      ensures emus == old(emus)[e := old(emus)[e].(workQueue := old(emus)[e].workQueue + [c])]
    {
      emus := emus[e := emus[e].(workQueue := emus[e].workQueue + [c])];
    }

    /** One iteration of QueueThread, for the commands that matter to turns. */
    method QueueStep(refused: bool)
      requires Valid() && Enabled(View(), Serve(refused))
      modifies this
      ensures Valid() && View() == Next(old(View()), Serve(refused))
    {
      NextInv(View(), Serve(refused));
      hide Inv;
      var m := inbox[0];
      match m.content {
        case Turn => HandleTurn(m);
        case Button(control, value) => HandleButton(m, control, value, refused);
        case Connect(target) => HandleConnect(m, target, refused);
        case Admin =>
          if users[m.user].alive && !refused {
            users := users[m.user := users[m.user].(hasAdmin := true)];
          }
      }
      inbox := inbox[1..];
    }

    method HandleTurn(m: Message)
      requires m.user in users && m.content.Turn?
      modifies this`users, this`emus
      ensures View() == ServeMessage(old(View()), m, false)
    {
      if users[m.user].alive {
        if users[m.user].emu.None? || users[m.user].requestedTurn {
          return;
        }
        if m.emu.Some? && m.emu.value in emus {
          users := users[m.user := users[m.user].(requestedTurn := true)];
          Push(m.emu.value, TurnRequest(m.user));
          emus := emus[m.emu.value := emus[m.emu.value].(requested := emus[m.emu.value].requested + [m.user])];
        }
      }
    }

    method HandleButton(m: Message, control: nat, value: int, refused: bool)
      requires m.user in users && m.content == Button(control, value)
      modifies this`emus
      ensures View() == ServeMessage(old(View()), m, refused)
    {
      var user := users[m.user];
      if user.alive && !user.hasTurn && !user.hasAdmin {
        return;
      }
      if m.emu.Some? && m.emu.value in emus {
        if control >= CONTROLS || refused {
          return;
        }
        var writer := if user.alive && !user.hasAdmin then By(m.user) else Privileged;
        emus := emus[m.emu.value := WriteControl(emus[m.emu.value], control, value, writer)];
      }
    }

    method HandleConnect(m: Message, target: EmuId, refused: bool)
      requires m.user in users && m.content == Connect(target)
      modifies this`users, this`emus
      ensures View() == ServeMessage(old(View()), m, refused)
    {
      if users[m.user].alive {
        if refused || target !in emus {
          return;
        }
        if users[m.user].emu.Some? {
          return;
        }
        users := users[m.user := users[m.user].(emu := Some(target))];
        Push(target, OtherCommand);
      }
    }

    /** One command of the work queue in the emulator's main loop. */
    method DrainWork(e: EmuId)
      requires Valid() && Enabled(View(), DrainOne(e))
      modifies this
      ensures Valid() && View() == Next(old(View()), DrainOne(e))
    {
      NextInv(View(), DrainOne(e));
      hide Inv;
      var command := emus[e].workQueue[0];
      match command {
        case TurnRequest(u) => emus := emus[e := emus[e].(turnQueue := emus[e].turnQueue + [u])];
        case UserDisconnect(u) =>
          if u in users && users[u].alive {
            users := users[u := users[u].(connected := false)];
          }
        case OtherCommand =>
      }
      emus := emus[e := emus[e].(workQueue := emus[e].workQueue[1..])];
      assert emus == old(emus)[e := Drained(old(emus)[e])];
    }

    /** The turn check at the start of the emulator's main loop. */
    method CheckTurn(e: EmuId, now: int)
      requires Valid() && Enabled(View(), Check(e, now))
      modifies this
      ensures Valid() && View() == Next(old(View()), Check(e, now))
    {
      NextInv(View(), Check(e, now));
      hide Inv, RemoveHead;
      clock := now;
      if emus[e].turnQueue != [] {
        var u := emus[e].turnQueue[0];
        if users[u].alive {
          if !users[u].hasTurn && users[u].connected {
            users := users[u := users[u].(hasTurn := true)];
            emus := emus[e := emus[e].(turnEnd := now + emus[e].turnLength, grantedAt := now)];
          } else {
            if emus[e].turnEnd < now {
              if |emus[e].turnQueue| > 1 {
                EndTurn(e, u);
              }
            }
          }
        } else {
          EraseHead(e);
        }
      }
    }

    method EndTurn(e: EmuId, u: UserId)
      requires u in users && e in emus && emus[e].turnQueue != []
      modifies this`users, this`emus
      ensures users == old(users)[u := old(users)[u].(hasTurn := false, requestedTurn := false)]
      ensures emus == old(emus)[e := RemoveHead(old(emus)[e])]
    {
      users := users[u := users[u].(hasTurn := false)];
      users := users[u := users[u].(requestedTurn := false)];
      EraseHead(e);
    }

    method EraseHead(e: EmuId)
      requires e in emus && emus[e].turnQueue != []
      modifies this`emus
      ensures emus == old(emus)[e := RemoveHead(old(emus)[e])]
    {
      var head := emus[e].turnQueue[0];
      emus := emus[e := emus[e].(turnQueue := emus[e].turnQueue[1..], removed := emus[e].removed + [head])];
      emus := emus[e := ResetPad(emus[e])];
    }
  }
}
