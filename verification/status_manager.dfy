/** `StatusManager` (src/StatusManager.cpp): the server's state shown as an
    LED colour.  `driveHardware` only prints the colour's name; the model
    keeps the colours it was asked to drive, oldest first. */
module StatusManagers {
  datatype State = Booting | Operational | Processing | Error
  datatype LedColor = Off | Green | Yellow | Red

  /** `colorForState`. */
  function ColorForState(s: State): (c: LedColor)
    ensures c != Off
    ensures c == Green <==> s == Operational
    ensures c == Red <==> s == Error
    ensures c == Yellow <==> s == Booting || s == Processing
  {
    match s
    case Booting => Yellow
    case Operational => Green
    case Processing => Yellow
    case Error => Red
  }

  /** `colorName`: what `driveHardware` prints. */
  function ColorName(c: LedColor): (name: string)
    ensures name in {"off", "green", "yellow", "red"}
  {
    match c
    case Off => "off"
    case Green => "green"
    case Yellow => "yellow"
    case Red => "red"
  }

  /** Distinct colours print distinct names. */
  lemma ColorNameInjective(a: LedColor, b: LedColor)
    requires ColorName(a) == ColorName(b)
    ensures a == b
  {
  }

  /** The colours a run of `setState` calls drives, starting from `color`. */
  function Drives(color: LedColor, states: seq<State>): seq<LedColor>
    decreases |states|
  {
    if states == [] then []
    else
      var next := ColorForState(states[0]);
      (if next != color then [next] else []) + Drives(next, states[1..])
  }

  /** The colour showing after a run of `setState` calls. */
  function ColorAfter(color: LedColor, states: seq<State>): (c: LedColor)
    ensures states != [] ==> c == ColorForState(states[|states| - 1])
    decreases |states|
  {
    if states == [] then color else ColorAfter(ColorForState(states[0]), states[1..])
  }

  /** `setState` alone never drives the colour already showing: the first
      colour driven differs from the one before, no two in a row repeat,
      and `Off` is never driven. */
  lemma {:induction false} DrivesNeverRepeat(color: LedColor, states: seq<State>)
    ensures var d := Drives(color, states);
            (|d| > 0 ==> d[0] != color) &&
            (forall k :: 0 <= k < |d| ==> d[k] != Off) &&
            (forall k :: 0 < k < |d| ==> d[k - 1] != d[k])
    decreases |states|
  {
    if states != [] {
      var next := ColorForState(states[0]);
      DrivesNeverRepeat(next, states[1..]);
      var rest := Drives(next, states[1..]);
      var d := (if next != color then [next] else []) + rest;
      assert Drives(color, states) == d;
      forall k | 0 < k < |d|
        ensures d[k - 1] != d[k]
      {
        if next != color && k == 1 {
          assert d[0] == next && d[1] == rest[0];
        }
      }
    }
  }

  /** The last colour driven is the one left showing. */
  lemma {:induction false} DrivesEndsAtColor(color: LedColor, states: seq<State>)
    ensures var d := Drives(color, states);
            |d| > 0 ==> d[|d| - 1] == ColorAfter(color, states)
    ensures Drives(color, states) == [] ==> ColorAfter(color, states) == color
    decreases |states|
  {
    if states != [] {
      DrivesEndsAtColor(ColorForState(states[0]), states[1..]);
    }
  }

  class StatusManager {
    var currentState: State
    var currentColor: LedColor
    /** The colours passed to `driveHardware`, oldest first. */
    var driven: seq<LedColor>

    /** The colour showing is the last one driven, or `Off` before any. */
    predicate Valid()
      reads this
    {
      if driven == [] then currentColor == Off else driven[|driven| - 1] == currentColor
    }

    constructor()
      ensures Valid()
      ensures currentState == Booting && currentColor == Off && driven == []
    {
      currentState := Booting;
      currentColor := Off;
      driven := [];
    }

    /** `setState`: records the state, then `applyStateLocked` drives the
        mapped colour only when it differs from the one showing. */
    method SetState(state: State)
      requires Valid()
      modifies this
      ensures Valid()
      ensures currentState == state && currentColor == ColorForState(state)
      ensures driven == old(driven) + Drives(old(currentColor), [state])
    {
      currentState := state;
      ApplyState(state);
    }

    /** `applyStateLocked`. */
    method ApplyState(state: State)
      requires Valid()
      modifies this
      ensures Valid()
      ensures currentState == old(currentState) && currentColor == ColorForState(state)
      ensures driven == old(driven) + Drives(old(currentColor), [state])
    {
      var nextColor := ColorForState(state);
      if nextColor != currentColor {
        currentColor := nextColor;
        driven := driven + [currentColor];
      }
    }

    /** `setLedColor`: records and drives the colour even when it is
        already showing. */
    method SetLedColor(color: LedColor)
      requires Valid()
      modifies this
      ensures Valid()
      ensures currentColor == color && currentState == old(currentState)
      ensures driven == old(driven) + [color]
    {
      currentColor := color;
      driven := driven + [color];
    }
  }
}
