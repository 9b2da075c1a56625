/**
 Forbidden button combinations.  The server's handler reads the sixteen buttons one by one, decides, and
 writes one button; the emulator thread may reset the buttons one by one at any time in between.
 */
module Combos {
  import opened Option
  import RP = RetroPad
  import opened RetroPad
  import Streams

  function And(a: Bits, b: Bits): Bits {
    seq(16, i requires 0 <= i < 16 => a[i] && b[i])
  }

  /** Some forbidden combination is held down completely. */
  predicate Forbidden(combos: seq<Bits>, state: Bits) {
    exists c | c in combos :: And(state, c) == c
  }

  /** No button of some forbidden combination is left out. */
  lemma ForbiddenMeans(combos: seq<Bits>, state: Bits)
    ensures Forbidden(combos, state) <==> exists c | c in combos :: forall i | 0 <= i < 16 :: c[i] ==> state[i]
  {
    forall c: Bits ensures And(state, c) == c <==> forall i | 0 <= i < 16 :: c[i] ==> state[i] {
      if And(state, c) == c {
        assert forall i | 0 <= i < 16 :: And(state, c)[i] == c[i];
      }
    }
  }

  predicate Any(c: Bits) {
    exists i | 0 <= i < 16 :: c[i]
  }

  // ----- Loading the list

  /** The identifier of a button name in lower case. */
  function ButtonId(name: string): (id: Option<nat>)
    ensures id.Some? ==> id.value < 16
  {
    match name
    case "b" => Some(0)
    case "y" => Some(1)
    case "select" => Some(2)
    case "start" => Some(3)
    case "up" => Some(4)
    case "down" => Some(5)
    case "left" => Some(6)
    case "right" => Some(7)
    case "a" => Some(8)
    case "x" => Some(9)
    case "l" => Some(10)
    case "r" => Some(11)
    case "l2" => Some(12)
    case "r2" => Some(13)
    case "l3" => Some(14)
    case "r3" => Some(15)
    case _ => None
  }

  /** The names in the order of their identifiers. */
  const BUTTONS := ["b", "y", "select", "start", "up", "down", "left", "right",
                    "a", "x", "l", "r", "l2", "r2", "l3", "r3"]

  lemma ButtonNames(name: string, i: nat)
    requires i < 16
    ensures ButtonId(name) == Some(i) <==> name == BUTTONS[i]
  {}

  predicate AllValid(words: seq<string>) {
    forall w | w in words :: ButtonId(w).Some?
  }

  /** Exactly the buttons that the words name. */
  function Named(words: seq<string>): Bits {
    seq(16, i => exists w | w in words :: ButtonId(w) == Some(i))
  }

  function LowerChar(c: char): (d: char)
    ensures if 'A' <= c <= 'Z' then d as int == c as int + 32 else d == c
  {
    if 'A' <= c <= 'Z' then 'a' + (c - 'A') else c
  }

  function Lower(s: string): (t: string)
    ensures |t| == |s| && forall i | 0 <= i < |s| :: t[i] == LowerChar(s[i])
  {
    if s == [] then [] else Lower(s[..|s| - 1]) + [LowerChar(s[|s| - 1])]
  }

  function LowerAll(words: seq<string>): (lower: seq<string>)
    ensures |lower| == |words| && forall i | 0 <= i < |words| :: lower[i] == Lower(words[i])
  {
    seq(|words|, i requires 0 <= i < |words| => Lower(words[i]))
  }

  /** The lower-case words of an entry of the list. */
  function Names(entry: string): seq<string> {
    LowerAll(Streams.Words(entry))
  }

  /** The combinations of a list: an entry with an unknown name or with no name at all is dropped. */
  function Loaded(entries: seq<string>): seq<Bits> {
    if entries == [] then [] else
      var names := Names(entries[|entries| - 1]);
      Loaded(entries[..|entries| - 1]) + if AllValid(names) && names != [] then [Named(names)] else []
  }

  /** An entry that names buttons, at least one and nothing else. */
  predicate NamesButtons(entry: string) {
    AllValid(Names(entry)) && Names(entry) != []
  }

  /** The list holds the combination of every entry that names buttons, and nothing else. */
  lemma {:induction false} LoadedExact(entries: seq<string>, c: Bits)
    ensures c in Loaded(entries) <==> exists x | x in entries :: NamesButtons(x) && c == Named(Names(x))
  {
    hide Names, Named, AllValid;
    if entries != [] {
      var n := |entries| - 1;
      LoadedExact(entries[..n], c);
      assert entries == entries[..n] + [entries[n]];
    }
  }

  method LoadCombos(entries: seq<string>) returns (combos: seq<Bits>)
    ensures combos == Loaded(entries)
    ensures forall c | c in combos :: Any(c)
    ensures forall x | x in entries && NamesButtons(x) :: Named(Names(x)) in combos
    ensures forall c | c in combos :: exists x | x in entries :: NamesButtons(x) && c == Named(Names(x))
  {
    combos := [];
    for n := 0 to |entries|
      invariant combos == Loaded(entries[..n])
      invariant forall c | c in combos :: Any(c)
    {
      hide Names, AllValid, Named;
      var good, combo := LoadEntry(entries[n]);
      if Any(combo) && good {
        combos := combos + [combo];
      }
      assert entries[..n + 1][..n] == entries[..n];
    }
    assert entries[..|entries|] == entries;
    hide Names, Named, AllValid, Loaded;
    forall x | x in entries && NamesButtons(x) ensures Named(Names(x)) in combos {
      LoadedExact(entries, Named(Names(x)));
    }
    forall c | c in combos ensures exists x | x in entries :: NamesButtons(x) && c == Named(Names(x)) {
      LoadedExact(entries, c);
    }
  }

  method LoadEntry(entry: string) returns (good: bool, combo: Bits)
    ensures good == AllValid(Names(entry))
    ensures good ==> combo == Named(Names(entry)) && (Any(combo) <==> Names(entry) != [])
  {
    good, combo := true, seq(16, _ => false);
    var rest := Streams.SkipSpaces(entry);
    Streams.SkipTwice(entry);
    ghost var done: seq<string> := [];
    assert AllValid(done) && combo == Named(done) && !Any(combo);
    while rest != []
      invariant rest != [] ==> !Streams.IsSpace(rest[0])
      invariant Names(entry) == done + Names(rest)
      invariant AllValid(done) && combo == Named(done) && (Any(combo) <==> done != [])
      decreases |rest|
    {
      hide Names, AllValid, Named, Any, ButtonId;
      var n := Streams.WordLength(rest);
      var button := Lower(rest[..n]);
      NamesFirst(rest, n);
      var id := ButtonId(button);
      if id.None? {
        UnknownName(Names(entry), button);
        good := false;
        return;
      }
      AddName(done, button);
      Regroup(Names(entry), done, button, Names(Streams.SkipSpaces(rest[n..])));
      combo := combo[id.value := true];
      done := done + [button];
      rest := Streams.SkipSpaces(rest[n..]);
    }
    assert Names([]) == [];
  }

  lemma NamesFirst(s: string, n: nat)
    requires s != [] && !Streams.IsSpace(s[0]) && n == Streams.WordLength(s)
    ensures n > 0 && Names(s) == [Lower(s[..n])] + Names(Streams.SkipSpaces(s[n..]))
  {
    hide *;
    Streams.FirstWord(s, n);
    NamesOfFirst(s, s[..n], Streams.SkipSpaces(s[n..]));
  }

  lemma NamesOfFirst(s: string, first: string, rest: string)
    requires Streams.Words(s) == [first] + Streams.Words(rest)
    ensures Names(s) == [Lower(first)] + Names(rest)
  {
    hide Lower;
  }

  lemma Regroup(names: seq<string>, done: seq<string>, name: string, rest: seq<string>)
    requires names == done + ([name] + rest)
    ensures names == done + [name] + rest
  {}

  lemma UnknownName(names: seq<string>, name: string)
    requires name in names && ButtonId(name).None?
    ensures !AllValid(names)
  {}

  lemma AddName(names: seq<string>, name: string)
    requires AllValid(names) && ButtonId(name).Some?
    ensures AllValid(names + [name])
    ensures Named(names + [name]) == Named(names)[ButtonId(name).value := true]
    ensures Any(Named(names + [name]))
  {
    hide ButtonId;
    assert Named(names + [name])[ButtonId(name).value];
  }

  // ----- The handler and the reset, interleaved

  datatype Handler =
    | Idle
    | Reading(id: nat, value: Int16, next: nat, snapshot: Bits)  // inside getPressedState
    | Cleared(id: nat, value: Int16)                             // the check passed, the write is still to come

  /** resetting: how many buttons the emulator thread has released so far. */
  datatype Pad = Pad(buttons: seq<Int16>, handler: Handler, resetting: Option<nat>)

  datatype Step = Begin(id: nat, value: Int16) | ReadOne | Decide | Write | BeginReset | ResetOne | EndReset

  predicate Enabled(p: Pad, step: Step) {
    |p.buttons| == 16 &&
    match step
    case Begin(id, _) => p.handler.Idle? && id < 16
    case ReadOne => p.handler.Reading? && p.handler.next < 16
    case Decide => p.handler.Reading? && p.handler.next == 16 && p.handler.id < 16
    case Write => p.handler.Cleared? && p.handler.id < 16
    case BeginReset => p.resetting.None?
    case ResetOne => p.resetting.Some? && p.resetting.value < 16
    case EndReset => p.resetting == Some(16)
  }

  function Next(combos: seq<Bits>, p: Pad, step: Step): Pad
    requires Enabled(p, step)
  {
    match step
    case Begin(id, value) => p.(handler := Reading(id, value, 0, seq(16, _ => false)))
    case ReadOne =>
      var h := p.handler;
      p.(handler := h.(next := h.next + 1, snapshot := h.snapshot[h.next := Pressed(p.buttons[h.next])]))
    case Decide =>
      var h := p.handler;
      p.(handler := if Forbidden(combos, h.snapshot[h.id := Pressed(h.value)]) then Idle else Cleared(h.id, h.value))
    case Write => p.(buttons := p.buttons[p.handler.id := p.handler.value], handler := Idle)
    case BeginReset => p.(resetting := Some(0))
    case ResetOne =>
      p.(buttons := p.buttons[p.resetting.value := 0], resetting := Some(p.resetting.value + 1))
    case EndReset => p.(resetting := None)
  }

  ghost predicate IsRun(combos: seq<Bits>, p: Pad, steps: seq<Step>)
    decreases steps
  {
    steps != [] ==> Enabled(p, steps[0]) && IsRun(combos, Next(combos, p, steps[0]), steps[1..])
  }

  ghost function Run(combos: seq<Bits>, p: Pad, steps: seq<Step>): Pad
    requires IsRun(combos, p, steps)
    decreases steps
  {
    if steps == [] then p else Run(combos, Next(combos, p, steps[0]), steps[1..])
  }

  /** The buttons are safe, the snapshot covers every pressed button it has passed, and a write that passed
      the check stays safe. */
  ghost predicate Inv(combos: seq<Bits>, p: Pad) {
    |p.buttons| == 16 && !Forbidden(combos, PressedBits(p.buttons)) &&
    match p.handler
    case Idle => true
    case Reading(id, _, next, snapshot) =>
      id < 16 && next <= 16 && forall j | 0 <= j < next :: Pressed(p.buttons[j]) ==> snapshot[j]
    case Cleared(id, value) => id < 16 && !Forbidden(combos, PressedBits(p.buttons[id := value]))
  }

  lemma NextInv(combos: seq<Bits>, p: Pad, step: Step)
    requires Inv(combos, p) && Enabled(p, step)
    ensures Inv(combos, Next(combos, p, step))
  {}

  /** However the handler and the reset interleave, no reachable state holds a forbidden combination down. */
  lemma {:induction false} NeverForbidden(combos: seq<Bits>, p: Pad, steps: seq<Step>)
    requires Inv(combos, p) && IsRun(combos, p, steps)
    ensures |Run(combos, p, steps).buttons| == 16
    ensures !Forbidden(combos, PressedBits(Run(combos, p, steps).buttons))
    decreases steps
  {
    if steps != [] {
      hide Inv, Next, Enabled;
      NextInv(combos, p, steps[0]);
      NeverForbidden(combos, Next(combos, p, steps[0]), steps[1..]);
    }
  }

  const RELEASED := Pad(seq(16, _ => 0), Idle, None)

  /** A released joypad is a safe start exactly when no combination is empty, which the loader sees to. */
  lemma ReleasedIsSafe(combos: seq<Bits>)
    ensures Inv(combos, RELEASED) <==> forall c | c in combos :: Any(c)
  {}

  lemma {:induction false} LoadedNotEmpty(entries: seq<string>)
    ensures forall c | c in Loaded(entries) :: Any(c)
  {
    if entries != [] {
      var words := Names(entries[|entries| - 1]);
      LoadedNotEmpty(entries[..|entries| - 1]);
      if AllValid(words) && words != [] {
        assert ButtonId(words[0]).Some?;
        assert Named(words)[ButtonId(words[0]).value];
      }
    }
  }

  /** Whatever the configured list says, a joypad that starts released never has all the buttons down that
      one of its entries names. */
  lemma LoadedListIsSafe(entries: seq<string>, steps: seq<Step>, entry: string)
    requires IsRun(Loaded(entries), RELEASED, steps) && entry in entries && NamesButtons(entry)
    ensures var p := Run(Loaded(entries), RELEASED, steps);
      |p.buttons| == 16 &&
      exists i | 0 <= i < 16 :: BUTTONS[i] in Names(entry) && !HeldDown(p.buttons[i])
  {
    var combo := Named(Names(entry));
    LoadedNotEmpty(entries);
    LoadedExact(entries, combo);
    ReleasedIsSafe(Loaded(entries));
    NeverForbidden(Loaded(entries), RELEASED, steps);
    hide *;
    NotAllNamed(Loaded(entries), Names(entry), Run(Loaded(entries), RELEASED, steps).buttons);
  }

  lemma NotAllNamed(combos: seq<Bits>, names: seq<string>, buttons: seq<Int16>)
    requires |buttons| == 16 && Named(names) in combos && !Forbidden(combos, PressedBits(buttons))
    ensures exists i | 0 <= i < 16 :: BUTTONS[i] in names && !HeldDown(buttons[i])
  {
    hide Forbidden, ButtonId;
    ForbiddenMeans(combos, PressedBits(buttons));
    var i :| 0 <= i < 16 && Named(names)[i] && !PressedBits(buttons)[i];
    var w :| w in names && ButtonId(w) == Some(i);
    ButtonNames(w, i);
    assert !HeldDown(buttons[i]);
  }

  // ----- What an undisturbed handler does

  /** From `next` on, with nothing in between, the handler reads the rest of the buttons. */
  lemma {:induction false} ReadsAll(combos: seq<Bits>, p: Pad) returns (steps: seq<Step>)
    requires |p.buttons| == 16 && p.handler.Reading? && p.handler.next <= 16
    requires forall j | 0 <= j < p.handler.next :: p.handler.snapshot[j] == Pressed(p.buttons[j])
    ensures steps == seq(16 - p.handler.next, _ => ReadOne) && IsRun(combos, p, steps)
    ensures Run(combos, p, steps) == p.(handler := p.handler.(next := 16, snapshot := PressedBits(p.buttons)))
    decreases 16 - p.handler.next
  {
    if p.handler.next == 16 {
      steps := [];
      assert p.handler.snapshot == PressedBits(p.buttons);
    } else {
      var rest := ReadsAll(combos, Next(combos, p, ReadOne));
      steps := [ReadOne] + rest;
      assert steps[1..] == rest;
    }
  }

  lemma PressedUpdate(buttons: seq<Int16>, id: nat, value: Int16)
    requires |buttons| == 16 && id < 16
    ensures PressedBits(buttons)[id := Pressed(value)] == PressedBits(buttons[id := value])
  {
    hide Pressed;
  }

  /** A command served without interruption writes its value unless that would complete a combination. */
  lemma AloneWrites(combos: seq<Bits>, p: Pad, id: nat, value: Int16) returns (steps: seq<Step>)
    requires |p.buttons| == 16 && p.handler.Idle? && id < 16
    ensures IsRun(combos, p, [Begin(id, value)] + steps)
    ensures var t := Run(combos, p, [Begin(id, value)] + steps);
      t.handler.Idle? && t.buttons == if Forbidden(combos, PressedBits(p.buttons[id := value])) then p.buttons
                                      else p.buttons[id := value]
  {
    var begun := Next(combos, p, Begin(id, value));
    var reading := ReadsAll(combos, begun);
    var read := Run(combos, begun, reading);
    PressedUpdate(p.buttons, id, value);
    var last := Finishes(combos, read);
    steps := reading + last;
    assert Enabled(p, Begin(id, value));
    hide Next, Enabled, Forbidden;
    RunConcat(combos, begun, reading, last);
    RunNext(combos, p, Begin(id, value), steps);
  }

  lemma Finishes(combos: seq<Bits>, p: Pad) returns (steps: seq<Step>)
    requires |p.buttons| == 16 && p.handler.Reading? && p.handler.next == 16 && p.handler.id < 16
    ensures IsRun(combos, p, steps)
    ensures var h, t := p.handler, Run(combos, p, steps);
      t.handler.Idle? && t.buttons == if Forbidden(combos, h.snapshot[h.id := Pressed(h.value)]) then p.buttons
                                      else p.buttons[h.id := h.value]
  {
    hide Forbidden, Pressed;
    var decided := Next(combos, p, Decide);
    if decided.handler.Idle? {
      steps := [Decide] + [];
      RunNext(combos, p, Decide, []);
    } else {
      steps := [Decide] + ([Write] + []);
      RunNext(combos, decided, Write, []);
      RunNext(combos, p, Decide, [Write] + []);
    }
  }

  lemma RunNext(combos: seq<Bits>, p: Pad, step: Step, steps: seq<Step>)
    requires Enabled(p, step) && IsRun(combos, Next(combos, p, step), steps)
    ensures IsRun(combos, p, [step] + steps)
    ensures Run(combos, p, [step] + steps) == Run(combos, Next(combos, p, step), steps)
  {
    hide Next, Enabled;
    assert ([step] + steps)[1..] == steps;
  }

  lemma {:induction false} RunConcat(combos: seq<Bits>, p: Pad, a: seq<Step>, b: seq<Step>)
    requires IsRun(combos, p, a) && IsRun(combos, Run(combos, p, a), b)
    ensures IsRun(combos, p, a + b) && Run(combos, p, a + b) == Run(combos, Run(combos, p, a), b)
    decreases a
  {
    hide Next, Enabled;
    if a == [] {
      assert a + b == b;
    } else {
      RunConcat(combos, Next(combos, p, a[0]), a[1..], b);
      assert (a + b)[1..] == a[1..] + b;
    }
  }

  /** A reset served without interruption releases every button. */
  lemma {:induction false} AloneResets(combos: seq<Bits>, p: Pad) returns (steps: seq<Step>)
    requires |p.buttons| == 16 && p.resetting.Some? && p.resetting.value <= 16
    requires forall j | 0 <= j < p.resetting.value :: p.buttons[j] == 0
    ensures IsRun(combos, p, steps) && Run(combos, p, steps) == p.(buttons := seq(16, _ => 0), resetting := None)
    decreases 16 - p.resetting.value
  {
    if p.resetting.value == 16 {
      steps := [EndReset];
      assert p.buttons == seq(16, _ => 0);
      assert steps[1..] == [];
    } else {
      var rest := AloneResets(combos, Next(combos, p, ResetOne));
      steps := [ResetOne] + rest;
      assert steps[1..] == rest;
    }
  }

  // ----- The handler with nothing in between

  /** The button case of QueueThread: the write happens unless it would complete a combination. */
  method HandleButton(joypad: RP.RetroPad, combos: seq<Bits>, id: nat, value: Int16) returns (blocked: bool)
    requires joypad.Valid() && id < 16
    modifies joypad.buttons, joypad.sticks
    ensures blocked <==> Forbidden(combos, PressedBits(old(joypad.buttons[..][id := value])))
    ensures joypad.buttons[..] == old(if blocked then joypad.buttons[..] else joypad.buttons[..][id := value])
    ensures joypad.sticks[..] == old(joypad.sticks[..])
  {
    var potentialState := joypad.GetPressedState();
    potentialState := potentialState[id := Pressed(value)];
    assert potentialState == PressedBits(joypad.buttons[..][id := value]);
    var shouldBlock := false;
    for n := 0 to |combos|
      invariant !shouldBlock && forall k | 0 <= k < n :: And(potentialState, combos[k]) != combos[k]
    {
      if And(potentialState, combos[n]) == combos[n] {
        shouldBlock := true;
        break;
      }
    }
    if shouldBlock {
      return true;
    }
    var thrown := joypad.UpdateValue(INDEX_BUTTON, id, value);
    blocked := false;
  }
}
