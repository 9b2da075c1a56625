/** The joypad that the server writes and the emulator thread reads and resets. */
module RetroPad {
  type Int16 = x: int | -0x8000 <= x < 0x8000

  /** A set of buttons, one flag a button. */
  type Bits = b: seq<bool> | |b| == 16 witness seq(16, _ => false)

  const INDEX_RIGHT := 1
  const INDEX_BUTTON := 2
  const ID_X := 0
  const ID_Y := 1

  function Abs(x: int): int {
    if x < 0 then -x else x
  }

  /** More than half of the analog range, in either direction. */
  predicate Pressed(value: Int16) {
    Abs(value) > 16383
  }

  /** The same without the absolute value, which has no 16-bit result for -32768. */
  predicate HeldDown(value: Int16) {
    value <= -16384 || value >= 16384
  }

  function PressedBits(values: seq<Int16>): Bits
    requires |values| == 16
  {
    seq(16, i requires 0 <= i < 16 => Pressed(values[i]))
  }

  class RetroPad {
    const buttons: array<Int16>
    const sticks: array<Int16>  // left X, left Y, right X, right Y

    ghost predicate Valid() {
      buttons.Length == 16 && sticks.Length == 4 && buttons != sticks
    }

    constructor ()
      ensures Valid() && fresh(buttons) && fresh(sticks)
      ensures buttons[..] == seq(16, _ => 0) && sticks[..] == seq(4, _ => 0)
    {
      buttons := new Int16[16](_ => 0);
      sticks := new Int16[4](_ => 0);
    }

    method AnalogValue(index: nat, id: nat) returns (value: Int16, thrown: bool)
      requires Valid()
      ensures thrown <==> (index == INDEX_BUTTON && id >= 16) || (index > INDEX_BUTTON && id <= ID_Y)
      ensures !thrown ==> value == if index == INDEX_BUTTON then buttons[id]
                                   else if id <= ID_Y then sticks[2 * index + id] else 0
    {
      value, thrown := 0, false;
      if index == INDEX_BUTTON {
        if id >= 16 {
          return 0, true;
        }
        return buttons[id], false;
      }
      if id == ID_X || id == ID_Y {
        if index > 1 {
          return 0, true;
        }
        return sticks[2 * index + id], false;
      }
    }

    method UpdateValue(index: nat, id: nat, value: Int16) returns (thrown: bool)
      requires Valid()
      modifies buttons, sticks
      ensures thrown <==> (index == INDEX_BUTTON && id >= 16) || (index > INDEX_BUTTON && id <= ID_Y)
      ensures buttons[..] == old(if index == INDEX_BUTTON && id < 16 then buttons[..][id := value] else buttons[..])
      ensures sticks[..] == old(if index <= INDEX_RIGHT && id <= ID_Y then sticks[..][2 * index + id := value]
                                else sticks[..])
    {
      thrown := false;
      if index == INDEX_BUTTON {
        if id >= 16 {
          return true;
        }
        buttons[id] := value;
        return;
      }
      if id == ID_X || id == ID_Y {
        if index > 1 {
          return true;
        }
        sticks[2 * index + id] := value;
      }
    }

    method ResetValues()
      requires Valid()
      modifies buttons, sticks
      ensures buttons[..] == seq(16, _ => 0) && sticks[..] == seq(4, _ => 0)
    {
      for i := 0 to 16
        invariant forall j | 0 <= j < i :: buttons[j] == 0
      {
        buttons[i] := 0;
      }
      for i := 0 to 2
        invariant forall j | 0 <= j < 2 * i :: sticks[j] == 0
        invariant forall j | 0 <= j < 16 :: buttons[j] == 0
      {
        sticks[2 * i] := 0;
        sticks[2 * i + 1] := 0;
      }
    }

    method GetPressedState() returns (state: Bits)
      requires Valid()
      ensures state == PressedBits(buttons[..])
      ensures forall i | 0 <= i < 16 :: state[i] <==> HeldDown(buttons[i])
    {
      state := seq(16, _ => false);
      for i := 0 to 16
        invariant forall j | 0 <= j < i :: state[j] == Pressed(buttons[j])
      {
        state := state[i := Pressed(buttons[i])];
      }
    }
  }
}
