/** Vocabulary shared by the whole model: buttons, per-tick button states and the
    enums the input API publishes (InputTools/IInputToolsAPI.cs).

    The C# enums all have a member called `None`; Dafny needs constructor names that
    are unique within a module, so each "none" member carries its type in its name
    (`NoButton` is SButton.None, `NoDevice` is InputDevice.None, ...). */
module InputTypes {

  datatype Option<+T> = None | Some(value: T)

  /** IInputToolsAPI.InputDevice. */
  datatype InputDevice = NoDevice | Mouse | Keyboard | Controller

  /** IInputToolsAPI.MoveSource: which input method produced a move signal. */
  datatype MoveSource = NoSource | KeyboardWASD | KeyboardArrow | ControllerLeftThumbstick | ControllerDPad

  /** IInputToolsAPI.BlockBehavior: whether a layer lets input continue to the layer below. */
  datatype BlockBehavior = NoBehavior | Block | PassBelow

  /** SMAPI's SButtonState for one button in the current tick. */
  datatype ButtonState = NoState | Pressed | Held | Released

  /** The SButton values the core names, plus one family per device for every other
      button. The families stand for SMAPI's classification of the remaining codes. */
  datatype Button =
    | NoButton
    // mouse
    | MouseLeft | MouseRight | MouseMiddle | MouseX1 | MouseX2
    // keyboard
    | Enter | Escape | Space | W | A | S | D | Up | Down | Left | Right
    | OtherKey(keyCode: nat)
    // controller
    | ControllerA | ControllerB | ControllerX | ControllerY
    | DPadUp | DPadDown | DPadLeft | DPadRight
    | LeftThumbstickUp | LeftThumbstickDown | LeftThumbstickLeft | LeftThumbstickRight
    | RightThumbstickUp | RightThumbstickDown | RightThumbstickLeft | RightThumbstickRight
    | OtherControllerButton(buttonCode: nat)

  /** A button pair (Tuple<SButton, SButton>): `first` is held, then `second` is pressed. */
  datatype ButtonPair = ButtonPair(first: Button, second: Button)

  /** The state of every button this tick, as SMAPI's Input.GetState reports it. */
  type ButtonStates = Button -> ButtonState

  /** SButtonExtensions.TryGetController. */
  predicate IsControllerButton(b: Button) {
    b.ControllerA? || b.ControllerB? || b.ControllerX? || b.ControllerY?
    || b.DPadUp? || b.DPadDown? || b.DPadLeft? || b.DPadRight?
    || b.LeftThumbstickUp? || b.LeftThumbstickDown? || b.LeftThumbstickLeft? || b.LeftThumbstickRight?
    || b.RightThumbstickUp? || b.RightThumbstickDown? || b.RightThumbstickLeft? || b.RightThumbstickRight?
    || b.OtherControllerButton?
  }

  /** SButtonExtensions.TryGetKeyboard. */
  predicate IsKeyboardButton(b: Button) {
    b.Enter? || b.Escape? || b.Space? || b.W? || b.A? || b.S? || b.D?
    || b.Up? || b.Down? || b.Left? || b.Right? || b.OtherKey?
  }

  /** The direction of a move query. */
  datatype Direction = MoveRight | MoveDown | MoveLeft | MoveUp
}
