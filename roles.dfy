/** The fixed button classifications of the input API (InputTools/InputToolsAPI.cs):
    which device a button belongs to, which buttons play the Confirm, Cancel, Alt
    and Menu roles, and which buttons are move buttons for each direction. */
module Roles {
  import opened InputTypes

  /** InputToolsAPI.GetInputDevice: controller buttons first, then keyboard keys,
      and everything else is attributed to the mouse. */
  function GetInputDevice(b: Button): (d: InputDevice)
    ensures d != NoDevice
    ensures d == Keyboard <==> IsKeyboardButton(b)
    ensures d == Mouse <==> !IsControllerButton(b) && !IsKeyboardButton(b)
  {
    if IsControllerButton(b) then Controller
    else if IsKeyboardButton(b) then Keyboard
    else Mouse
  }

  // ----- Confirm / Cancel / Alt / Menu buttons -----

  datatype Role = Confirm | Cancel | Alt | Menu

  /** InputToolsAPI.IsConfirmButton: controller A or keyboard Enter. */
  function IsConfirmButton(b: Button): InputDevice {
    if b == ControllerA then Controller else if b == Enter then Keyboard else NoDevice
  }

  /** InputToolsAPI.IsCancelButton: controller B or keyboard Escape. */
  function IsCancelButton(b: Button): InputDevice {
    if b == ControllerB then Controller else if b == Escape then Keyboard else NoDevice
  }

  /** InputToolsAPI.IsAltButton: controller X, keyboard Space or the right mouse button. */
  function IsAltButton(b: Button): InputDevice {
    if b == ControllerX then Controller
    else if b == Space then Keyboard
    else if b == MouseRight then Mouse
    else NoDevice
  }

  /** InputToolsAPI.IsMenuButton: controller Y or keyboard Escape. */
  function IsMenuButton(b: Button): InputDevice {
    if b == ControllerY then Controller else if b == Escape then Keyboard else NoDevice
  }

  /** The classifier of one role. */
  function RoleOf(role: Role, b: Button): InputDevice {
    match role
    case Confirm => IsConfirmButton(b)
    case Cancel => IsCancelButton(b)
    case Alt => IsAltButton(b)
    case Menu => IsMenuButton(b)
  }

  /** The role table the interface documents, read per role and device
      (IInputToolsAPI.cs:67-85): the one button of `role` on device `d`, if any. */
  function RoleButton(role: Role, d: InputDevice): Option<Button> {
    match (role, d)
    case (Confirm, Controller) => Some(ControllerA)
    case (Confirm, Keyboard) => Some(Enter)
    case (Cancel, Controller) => Some(ControllerB)
    case (Cancel, Keyboard) => Some(Escape)
    case (Alt, Controller) => Some(ControllerX)
    case (Alt, Keyboard) => Some(Space)
    case (Alt, Mouse) => Some(MouseRight)
    case (Menu, Controller) => Some(ControllerY)
    case (Menu, Keyboard) => Some(Escape)
    case _ => None
  }

  /** The per-button classifiers and the per-role table describe the same relation:
      a button is classified as `role` on device `d` exactly when the table lists it. */
  lemma RoleClassifierMatchesTable(role: Role, b: Button, d: InputDevice)
    ensures (d != NoDevice && RoleOf(role, b) == d) <==> RoleButton(role, d) == Some(b)
  {
  }

  /** Every role button belongs to the device it is classified under. */
  lemma RoleDeviceAgreesWithGetInputDevice(role: Role, b: Button)
    requires RoleOf(role, b) != NoDevice
    ensures RoleOf(role, b) == GetInputDevice(b)
  {
  }

  /** Escape is both Cancel and Menu, and it is the only button the two roles share. */
  lemma EscapeIsCancelAndMenu(b: Button)
    ensures IsCancelButton(Escape) == Keyboard && IsMenuButton(Escape) == Keyboard
    ensures IsCancelButton(b) != NoDevice && IsMenuButton(b) != NoDevice ==> b == Escape
  {
  }

  // ----- Move buttons -----

  /** InputToolsAPI.IsMoveRightButton. */
  function IsMoveRightButton(b: Button): MoveSource {
    if b == D then KeyboardWASD
    else if b == Right then KeyboardArrow
    else if b == DPadRight then ControllerDPad
    else if b == LeftThumbstickRight then ControllerLeftThumbstick
    else NoSource
  }

  /** InputToolsAPI.IsMoveDownButton. */
  function IsMoveDownButton(b: Button): MoveSource {
    if b == S then KeyboardWASD
    else if b == Down then KeyboardArrow
    else if b == DPadDown then ControllerDPad
    else if b == LeftThumbstickDown then ControllerLeftThumbstick
    else NoSource
  }

  /** InputToolsAPI.IsMoveLeftButton. */
  function IsMoveLeftButton(b: Button): MoveSource {
    if b == A then KeyboardWASD
    else if b == Left then KeyboardArrow
    else if b == DPadLeft then ControllerDPad
    else if b == LeftThumbstickLeft then ControllerLeftThumbstick
    else NoSource
  }

  /** InputToolsAPI.IsMoveUpButton. */
  function IsMoveUpButton(b: Button): MoveSource {
    if b == W then KeyboardWASD
    else if b == Up then KeyboardArrow
    else if b == DPadUp then ControllerDPad
    else if b == LeftThumbstickUp then ControllerLeftThumbstick
    else NoSource
  }

  /** The classifier of one direction. */
  function MoveSourceOf(dir: Direction, b: Button): MoveSource {
    match dir
    case MoveRight => IsMoveRightButton(b)
    case MoveDown => IsMoveDownButton(b)
    case MoveLeft => IsMoveLeftButton(b)
    case MoveUp => IsMoveUpButton(b)
  }

  /** The button that `src` contributes to direction `dir` (the table the move
      queries of InputStack.cs:687-842 test). */
  function MoveButton(dir: Direction, src: MoveSource): Option<Button> {
    match (dir, src)
    case (_, NoSource) => None
    case (MoveRight, KeyboardWASD) => Some(D)
    case (MoveRight, KeyboardArrow) => Some(Right)
    case (MoveRight, ControllerDPad) => Some(DPadRight)
    case (MoveRight, ControllerLeftThumbstick) => Some(LeftThumbstickRight)
    case (MoveDown, KeyboardWASD) => Some(S)
    case (MoveDown, KeyboardArrow) => Some(Down)
    case (MoveDown, ControllerDPad) => Some(DPadDown)
    case (MoveDown, ControllerLeftThumbstick) => Some(LeftThumbstickDown)
    case (MoveLeft, KeyboardWASD) => Some(A)
    case (MoveLeft, KeyboardArrow) => Some(Left)
    case (MoveLeft, ControllerDPad) => Some(DPadLeft)
    case (MoveLeft, ControllerLeftThumbstick) => Some(LeftThumbstickLeft)
    case (MoveUp, KeyboardWASD) => Some(W)
    case (MoveUp, KeyboardArrow) => Some(Up)
    case (MoveUp, ControllerDPad) => Some(DPadUp)
    case (MoveUp, ControllerLeftThumbstick) => Some(LeftThumbstickUp)
  }

  /** The move classifier and the move table are inverse: `b` is the `src` button of
      `dir` exactly when the classifier says so. */
  lemma MoveClassifierMatchesTable(dir: Direction, b: Button, src: MoveSource)
    ensures (src != NoSource && MoveSourceOf(dir, b) == src) <==> MoveButton(dir, src) == Some(b)
  {
  }

  /** Each direction has exactly four move buttons, one per source; every other
      button is classified NoSource. */
  lemma FourMoveButtonsPerDirection(dir: Direction, b: Button)
    ensures MoveSourceOf(dir, b) != NoSource <==>
      b in {MoveButton(dir, KeyboardWASD).value, MoveButton(dir, KeyboardArrow).value,
            MoveButton(dir, ControllerDPad).value, MoveButton(dir, ControllerLeftThumbstick).value}
  {
    match dir
    case MoveRight =>
    case MoveDown =>
    case MoveLeft =>
    case MoveUp =>
  }

  /** No button moves in two directions. */
  lemma MoveDirectionsDisjoint(d1: Direction, d2: Direction, b: Button)
    requires d1 != d2
    ensures MoveSourceOf(d1, b) == NoSource || MoveSourceOf(d2, b) == NoSource
  {
  }
}
