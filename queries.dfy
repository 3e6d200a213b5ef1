/** The pull queries of a layer or stack: what "is this button / pair / role / move
    direction pressed, held or released" answers, given the tick's button states and
    whether the asking layer is reachable by input.

    Both revisions of the design answer every query through IsButtonPressed,
    IsButtonHeld and IsButtonReleased, which first ask the registry whether the layer
    is reachable. Here that answer is the parameter `reachable`; the classes of
    module Layers compute it from the registry (InputTools/InputLayer.cs:428-446). */
module Queries {
  import opened InputTypes
  import opened Roles

  /** Which of the three per-tick states a query asks about. */
  datatype Phase = Press | Hold | Release

  function StateOf(p: Phase): ButtonState {
    match p
    case Press => Pressed
    case Hold => Held
    case Release => Released
  }

  /** IsButtonPressed / IsButtonHeld / IsButtonReleased. */
  predicate ButtonQuery(reachable: bool, states: ButtonStates, p: Phase, b: Button) {
    reachable && states(b) == StateOf(p)
  }

  /** A button is in one state per tick, so at most one of the three queries holds. */
  lemma ButtonPhasesExclusive(reachable: bool, states: ButtonStates, p1: Phase, p2: Phase, b: Button)
    requires p1 != p2
    ensures !(ButtonQuery(reachable, states, p1, b) && ButtonQuery(reachable, states, p2, b))
  {
  }

  // ----- Button pairs -----

  /** What the pair queries read besides the button states: the pairs currently being
      pressed, the pairs released recently, the current tick (Game1.ticks) and the tick
      of that release (InputToolsAPI.buttonPairsPressing, buttonPairsReleased,
      tickButtonPairsReleased). */
  datatype PairFrame = PairFrame(pressing: seq<ButtonPair>, released: seq<ButtonPair>, ticks: int, tickReleased: int)

  /** IsButtonPairPressed / IsButtonPairHeld / IsButtonPairReleased
      (InputTools/InputLayer.cs:449-470, InputTools/InputStack.cs:467-487). */
  predicate PairQuery(reachable: bool, states: ButtonStates, f: PairFrame, p: Phase, pair: ButtonPair) {
    reachable &&
    match p
    case Press => ButtonQuery(reachable, states, Hold, pair.first) && ButtonQuery(reachable, states, Press, pair.second)
    case Hold =>
      pair in f.pressing
      && ButtonQuery(reachable, states, Hold, pair.first) && ButtonQuery(reachable, states, Hold, pair.second)
    case Release =>
      f.ticks - f.tickReleased <= 1 && pair in f.released
      && (ButtonQuery(reachable, states, Release, pair.first) || ButtonQuery(reachable, states, Release, pair.second))
  }

  /** PairQuery with the button queries unfolded to button states. */
  lemma PairQueryMeaning(reachable: bool, states: ButtonStates, f: PairFrame, p: Phase, pair: ButtonPair)
    ensures !reachable ==> !PairQuery(reachable, states, f, p, pair)
    ensures p == Press ==>
      (PairQuery(reachable, states, f, p, pair) <==>
        reachable && states(pair.first) == Held && states(pair.second) == Pressed)
    ensures p == Hold ==>
      (PairQuery(reachable, states, f, p, pair) <==>
        reachable && pair in f.pressing && states(pair.first) == Held && states(pair.second) == Held)
    ensures p == Release ==>
      (PairQuery(reachable, states, f, p, pair) <==>
        reachable && f.ticks - f.tickReleased <= 1 && pair in f.released
        && (states(pair.first) == Released || states(pair.second) == Released))
  {
  }

  /** In one tick a pair is at most one of pressed, held and released. */
  lemma PairPhasesExclusive(reachable: bool, states: ButtonStates, f: PairFrame, p1: Phase, p2: Phase, pair: ButtonPair)
    requires p1 != p2
    ensures !(PairQuery(reachable, states, f, p1, pair) && PairQuery(reachable, states, f, p2, pair))
  {
    PairQueryMeaning(reachable, states, f, p1, pair);
    PairQueryMeaning(reachable, states, f, p2, pair);
  }

  /** The order of a pair matters: while (a, b) is pressed, the reversed pair (b, a) is
      neither pressed, held nor released, and a and b are different buttons. */
  lemma PressedPairExcludesReverse(reachable: bool, states: ButtonStates, f: PairFrame, a: Button, b: Button)
    requires PairQuery(reachable, states, f, Press, ButtonPair(a, b))
    ensures a != b
    ensures !PairQuery(reachable, states, f, Press, ButtonPair(b, a))
    ensures !PairQuery(reachable, states, f, Hold, ButtonPair(b, a))
    ensures !PairQuery(reachable, states, f, Release, ButtonPair(b, a))
  {
    PairQueryMeaning(reachable, states, f, Press, ButtonPair(a, b));
    PairQueryMeaning(reachable, states, f, Press, ButtonPair(b, a));
    PairQueryMeaning(reachable, states, f, Hold, ButtonPair(b, a));
    PairQueryMeaning(reachable, states, f, Release, ButtonPair(b, a));
  }

  /** A "pair" of one button twice can never be pressed: the button would have to be
      held and pressed in the same tick. */
  lemma SameButtonPairNeverPressed(reachable: bool, states: ButtonStates, f: PairFrame, b: Button)
    ensures !PairQuery(reachable, states, f, Press, ButtonPair(b, b))
  {
    PairQueryMeaning(reachable, states, f, Press, ButtonPair(b, b));
  }

  // ----- First-match searches -----

  /** The first index of `s` whose element `matches`, or -1: the search every
      IsAnyOfTheButtons* and IsAction* loop performs. */
  function FirstIndex<T>(s: seq<T>, matches: T -> bool): (i: int)
    ensures -1 <= i < |s|
    ensures 0 <= i ==> matches(s[i])
    ensures forall j :: 0 <= j < |s| && (i < 0 || j < i) ==> !matches(s[j])
  {
    if |s| == 0 then -1
    else if matches(s[0]) then 0
    else
      var j := FirstIndex(s[1..], matches);
      if j < 0 then -1 else j + 1
  }

  /** An index that matches and follows only non-matching elements is the first one. */
  lemma FirstIndexAt<T>(s: seq<T>, matches: T -> bool, i: int)
    requires 0 <= i < |s| && matches(s[i])
    requires forall j :: 0 <= j < i ==> !matches(s[j])
    ensures FirstIndex(s, matches) == i
  {
  }

  /** The test IsAnyOfTheButtons* applies to each button of the list. */
  function ButtonMatcher(reachable: bool, states: ButtonStates, p: Phase): Button -> bool {
    b => ButtonQuery(reachable, states, p, b)
  }

  /** IsAnyOfTheButtonsPressed / Held / Released (InputTools/InputLayer.cs:49-77): the
      first button of the list in the queried state, or SButton.None. */
  function AnyOfTheButtons(buttons: seq<Button>, reachable: bool, states: ButtonStates, p: Phase): Button {
    var i := FirstIndex(buttons, ButtonMatcher(reachable, states, p));
    if i < 0 then NoButton else buttons[i]
  }

  /** The answer of IsAnyOfTheButtons* is a listed button in the queried state that
      follows only buttons that are not; it is SButton.None when no listed button is
      in that state, and always when the layer is unreachable. */
  lemma AnyOfTheButtonsFirstMatch(buttons: seq<Button>, reachable: bool, states: ButtonStates, p: Phase)
    ensures var r := AnyOfTheButtons(buttons, reachable, states, p);
      && (r != NoButton ==>
            exists i :: 0 <= i < |buttons| && buttons[i] == r && ButtonQuery(reachable, states, p, r)
              && forall j :: 0 <= j < i ==> !ButtonQuery(reachable, states, p, buttons[j]))
      && ((forall i :: 0 <= i < |buttons| ==> !ButtonQuery(reachable, states, p, buttons[i])) ==> r == NoButton)
      && (!reachable ==> r == NoButton)
  {
    var i := FirstIndex(buttons, ButtonMatcher(reachable, states, p));
    if 0 <= i {
      assert ButtonMatcher(reachable, states, p)(buttons[i]);
    }
  }

  /** The test IsAction* applies to each registered pair. */
  function PairMatcher(reachable: bool, states: ButtonStates, f: PairFrame, p: Phase): ButtonPair -> bool {
    pair => PairQuery(reachable, states, f, p, pair)
  }

  /** .NET Char.IsWhiteSpace: the Unicode space separators, the line and paragraph
      separators, the control characters U+0009 to U+000D, and U+0085. */
  predicate IsWhiteSpace(c: char) {
    || c == ' ' || c == '\U{A0}' || c == '\U{1680}' || ('\U{2000}' <= c <= '\U{200A}')
    || c == '\U{202F}' || c == '\U{205F}' || c == '\U{3000}'
    || c == '\U{2028}' || c == '\U{2029}'
    || ('\U{9}' <= c <= '\U{D}') || c == '\U{85}'
  }

  /** string.IsNullOrWhiteSpace; a null string is None. */
  predicate IsNullOrWhiteSpace(s: Option<string>) {
    s.None? || forall i :: 0 <= i < |s.value| ==> IsWhiteSpace(s.value[i])
  }

  /** IsActionPressed / Held / Released (InputTools/InputLayer.cs:687-721,
      InputTools/InputStack.cs:844-878): None for a null or blank action id, otherwise
      the first of the action's key pairs, in registration order, that the pair query
      accepts. `pairs` is what the action registry lists for `id`. */
  function ActionQuery(id: Option<string>, pairs: seq<ButtonPair>, reachable: bool, states: ButtonStates, f: PairFrame, p: Phase): (r: Option<ButtonPair>)
    ensures IsNullOrWhiteSpace(id) ==> r.None?
    ensures r.Some? ==>
      exists i :: 0 <= i < |pairs| && pairs[i] == r.value && PairQuery(reachable, states, f, p, r.value)
        && forall j :: 0 <= j < i ==> !PairQuery(reachable, states, f, p, pairs[j])
    ensures r.None? && !IsNullOrWhiteSpace(id) ==>
      forall i :: 0 <= i < |pairs| ==> !PairQuery(reachable, states, f, p, pairs[i])
    ensures !reachable ==> r.None?
  {
    if IsNullOrWhiteSpace(id) then None
    else
      var i := FirstIndex(pairs, PairMatcher(reachable, states, f, p));
      if i < 0 then None else Some(pairs[i])
  }

  /** An action id made only of spaces and tabs is blank, and so is the empty id. */
  lemma BlankActionIdsAnswerNone(pairs: seq<ButtonPair>, reachable: bool, states: ButtonStates, f: PairFrame, p: Phase)
    ensures ActionQuery(Some(""), pairs, reachable, states, f, p).None?
    ensures ActionQuery(Some(" \t"), pairs, reachable, states, f, p).None?
  {
    assert IsWhiteSpace(" \t"[0]) && IsWhiteSpace(" \t"[1]);
  }

  // ----- Confirm / Cancel / Alt / Menu (InputStack revision) -----

  /** The `keyboard`, `mouse` and `controller` switches of the role queries; a query
      without a mouse switch behaves as if it were on, since its role has no mouse
      button. */
  datatype DeviceSwitches = DeviceSwitches(keyboard: bool, mouse: bool, controller: bool)

  const AllDevices := DeviceSwitches(true, true, true)

  function Enabled(sw: DeviceSwitches, d: InputDevice): bool {
    match d
    case Controller => sw.controller
    case Keyboard => sw.keyboard
    case Mouse => sw.mouse
    case NoDevice => false
  }

  /** Device `d` is switched on and its `role` button is in state `p`. */
  predicate RoleHit(role: Role, p: Phase, reachable: bool, states: ButtonStates, sw: DeviceSwitches, d: InputDevice) {
    Enabled(sw, d) && RoleButton(role, d).Some? && ButtonQuery(reachable, states, p, RoleButton(role, d).value)
  }

  /** IsConfirm*, IsCancel*, IsAlt* and IsMenu* with every button tested in the queried
      state: controller first, then keyboard, then mouse. This is how Confirm, Cancel
      and Menu are written (InputTools/InputStack.cs:533-585, 621-646) and how the
      Pressed variant of Alt is written; IsAltHeld and IsAltReleased differ, see
      AltQueryAsWritten. */
  function RoleQuery(role: Role, p: Phase, reachable: bool, states: ButtonStates, sw: DeviceSwitches): (d: InputDevice)
    ensures d != NoDevice ==> RoleHit(role, p, reachable, states, sw, d)
    ensures d == NoDevice <==>
      !RoleHit(role, p, reachable, states, sw, Controller) && !RoleHit(role, p, reachable, states, sw, Keyboard)
      && !RoleHit(role, p, reachable, states, sw, Mouse)
    ensures RoleHit(role, p, reachable, states, sw, Controller) ==> d == Controller
    ensures d == Mouse ==> !RoleHit(role, p, reachable, states, sw, Keyboard)
    ensures !reachable ==> d == NoDevice
  {
    if RoleHit(role, p, reachable, states, sw, Controller) then Controller
    else if RoleHit(role, p, reachable, states, sw, Keyboard) then Keyboard
    else if RoleHit(role, p, reachable, states, sw, Mouse) then Mouse
    else NoDevice
  }

  /** A role query answers with the device of a button that the input API classifies
      under that role (InputToolsAPI.IsConfirmButton and its siblings). */
  lemma RoleQueryAgreesWithClassifier(role: Role, p: Phase, reachable: bool, states: ButtonStates, sw: DeviceSwitches)
    ensures var d := RoleQuery(role, p, reachable, states, sw);
      d != NoDevice ==> exists b :: RoleOf(role, b) == d && ButtonQuery(reachable, states, p, b)
  {
    var d := RoleQuery(role, p, reachable, states, sw);
    if d != NoDevice {
      var b := RoleButton(role, d).value;
      RoleClassifierMatchesTable(role, b, d);
      assert RoleOf(role, b) == d;
    }
  }

  /** Escape serves both Cancel and Menu: with only the keyboard switched on, the two
      queries always give the same answer. */
  lemma CancelAndMenuShareEscape(p: Phase, reachable: bool, states: ButtonStates)
    ensures RoleQuery(Cancel, p, reachable, states, DeviceSwitches(true, false, false))
         == RoleQuery(Menu, p, reachable, states, DeviceSwitches(true, false, false))
  {
  }

  /** IsAltPressed / IsAltHeld / IsAltReleased as written
      (InputTools/InputStack.cs:587-618): the right mouse button is tested with
      IsButtonPressed in all three. */
  function AltQueryAsWritten(p: Phase, reachable: bool, states: ButtonStates, sw: DeviceSwitches): (d: InputDevice)
    ensures d == Controller <==> RoleQuery(Alt, p, reachable, states, sw) == Controller
    ensures d == Keyboard <==> RoleQuery(Alt, p, reachable, states, sw) == Keyboard
    ensures d == Mouse ==> reachable && sw.mouse && states(MouseRight) == Pressed
  {
    if sw.controller && ButtonQuery(reachable, states, p, ControllerX) then Controller
    else if sw.keyboard && ButtonQuery(reachable, states, p, Space) then Keyboard
    else if sw.mouse && ButtonQuery(reachable, states, Press, MouseRight) then Mouse
    else NoDevice
  }

  /** The Pressed variant as written is the role query. */
  lemma AltPressedAsWrittenIsRoleQuery(reachable: bool, states: ButtonStates, sw: DeviceSwitches)
    ensures AltQueryAsWritten(Press, reachable, states, sw) == RoleQuery(Alt, Press, reachable, states, sw)
  {
  }

  /** While the right mouse button is just pressed and neither controller X nor
      Space is in any state, IsAltHeld as written reports the mouse although no Alt
      button is held. */
  lemma AltHeldAsWrittenSeesPress(states: ButtonStates)
    requires states(MouseRight) == Pressed && states(ControllerX) == NoState && states(Space) == NoState
    ensures AltQueryAsWritten(Hold, true, states, AllDevices) == Mouse
    ensures RoleQuery(Alt, Hold, true, states, AllDevices) == NoDevice
  {
    assert RoleButton(Alt, Mouse) == Some(MouseRight);
  }

  /** While the right mouse button is held, or is released, and neither controller X
      nor Space is in any state, IsAltHeld / IsAltReleased as written report nothing
      although the mouse's Alt button is in the queried state. */
  lemma AltAsWrittenMissesMouse(p: Phase, states: ButtonStates)
    requires p != Press
    requires states(MouseRight) == StateOf(p) && states(ControllerX) == NoState && states(Space) == NoState
    ensures AltQueryAsWritten(p, true, states, AllDevices) == NoDevice
    ensures RoleQuery(Alt, p, true, states, AllDevices) == Mouse
  {
    assert RoleButton(Alt, Mouse) == Some(MouseRight);
  }

  // ----- Move directions (InputStack revision) -----

  /** The `keyboardWASD`, `keyboardArrows`, `controllerDPad` and `controllerThumbstick`
      switches of the move queries. */
  datatype MoveSwitches = MoveSwitches(wasd: bool, arrows: bool, dpad: bool, thumbstick: bool)

  /** The defaults of IsMove*: arrows off, everything else on. */
  const MoveDefaults := MoveSwitches(true, false, true, true)

  /** The defaults of GetMoveAxis: every source on. */
  const AxisDefaults := MoveSwitches(true, true, true, true)

  function SourceEnabled(sw: MoveSwitches, src: MoveSource): bool {
    match src
    case ControllerDPad => sw.dpad
    case ControllerLeftThumbstick => sw.thumbstick
    case KeyboardWASD => sw.wasd
    case KeyboardArrow => sw.arrows
    case NoSource => false
  }

  /** The order in which the move queries try the sources. */
  const SourcePriority: seq<MoveSource> := [ControllerDPad, ControllerLeftThumbstick, KeyboardWASD, KeyboardArrow]

  /** Source `src` is switched on and its button for `dir` is in state `p`. */
  predicate MoveHit(dir: Direction, p: Phase, reachable: bool, states: ButtonStates, sw: MoveSwitches, src: MoveSource) {
    SourceEnabled(sw, src) && MoveButton(dir, src).Some? && ButtonQuery(reachable, states, p, MoveButton(dir, src).value)
  }

  /** IsMoveRight* / IsMoveDown* / IsMoveLeft* / IsMoveUp* (InputTools/InputStack.cs:687-842):
      D-pad, then left thumbstick, then WASD, then arrow keys. */
  function MoveQuery(dir: Direction, p: Phase, reachable: bool, states: ButtonStates, sw: MoveSwitches): (src: MoveSource)
    ensures src != NoSource ==> MoveHit(dir, p, reachable, states, sw, src)
    ensures src != NoSource ==> forall k :: 0 <= k < |SourcePriority| && SourcePriority[k] == src ==>
      forall j :: 0 <= j < k ==> !MoveHit(dir, p, reachable, states, sw, SourcePriority[j])
    ensures src == NoSource <==>
      forall k :: 0 <= k < |SourcePriority| ==> !MoveHit(dir, p, reachable, states, sw, SourcePriority[k])
  {
    assert SourcePriority[0] == ControllerDPad && SourcePriority[1] == ControllerLeftThumbstick;
    assert SourcePriority[2] == KeyboardWASD && SourcePriority[3] == KeyboardArrow;
    if MoveHit(dir, p, reachable, states, sw, ControllerDPad) then ControllerDPad
    else if MoveHit(dir, p, reachable, states, sw, ControllerLeftThumbstick) then ControllerLeftThumbstick
    else if MoveHit(dir, p, reachable, states, sw, KeyboardWASD) then KeyboardWASD
    else if MoveHit(dir, p, reachable, states, sw, KeyboardArrow) then KeyboardArrow
    else NoSource
  }

  /** A move query answers with the source of a button that the input API classifies
      as a move button for that direction (InputToolsAPI.IsMove*Button). */
  lemma MoveQueryAgreesWithClassifier(dir: Direction, p: Phase, reachable: bool, states: ButtonStates, sw: MoveSwitches)
    ensures var src := MoveQuery(dir, p, reachable, states, sw);
      src != NoSource ==> exists b :: MoveSourceOf(dir, b) == src && ButtonQuery(reachable, states, p, b)
  {
    var src := MoveQuery(dir, p, reachable, states, sw);
    if src != NoSource {
      var b := MoveButton(dir, src).value;
      MoveClassifierMatchesTable(dir, b, src);
    }
  }

  /** The directions in the order IsMoveButton* tries them. */
  const DirectionOrder: seq<Direction> := [MoveRight, MoveDown, MoveLeft, MoveUp]

  /** IsMoveButtonPressed / Held / Released (InputTools/InputStack.cs:648-685): the
      answer of the first direction, in the order right, down, left, up, that has one. */
  function MoveButtonQuery(p: Phase, reachable: bool, states: ButtonStates, sw: MoveSwitches): (src: MoveSource)
    ensures src != NoSource ==>
      exists k :: 0 <= k < |DirectionOrder|
        && src == MoveQuery(DirectionOrder[k], p, reachable, states, sw)
        && forall j :: 0 <= j < k ==> MoveQuery(DirectionOrder[j], p, reachable, states, sw) == NoSource
    ensures src == NoSource <==> forall k :: 0 <= k < |DirectionOrder| ==> MoveQuery(DirectionOrder[k], p, reachable, states, sw) == NoSource
  {
    var right := MoveQuery(MoveRight, p, reachable, states, sw);
    var down := MoveQuery(MoveDown, p, reachable, states, sw);
    var left := MoveQuery(MoveLeft, p, reachable, states, sw);
    var up := MoveQuery(MoveUp, p, reachable, states, sw);
    assert DirectionOrder[0] == MoveRight && DirectionOrder[1] == MoveDown;
    assert DirectionOrder[2] == MoveLeft && DirectionOrder[3] == MoveUp;
    if right != NoSource then right
    else if down != NoSource then down
    else if left != NoSource then left
    else if up != NoSource then up
    else NoSource
  }

  /** One axis of GetMoveAxis: +1 for the positive direction, else -1 for the negative
      one, else 0. */
  function AxisValue(positive: bool, negative: bool): (x: int)
    ensures -1 <= x <= 1
    ensures x == 1 <==> positive
    ensures x == -1 <==> !positive && negative
    ensures x == 0 <==> !positive && !negative
  {
    if positive then 1 else if negative then -1 else 0
  }

  /** GetMoveAxis (InputTools/InputStack.cs:880-886): the held move directions as a
      vector with components in {-1, 0, 1}; right wins over left and down over up. */
  function MoveAxis(reachable: bool, states: ButtonStates, sw: MoveSwitches): (xy: (int, int))
    ensures -1 <= xy.0 <= 1 && -1 <= xy.1 <= 1
    ensures xy.0 == 1 <==> MoveQuery(MoveRight, Hold, reachable, states, sw) != NoSource
    ensures xy.0 == -1 <==> MoveQuery(MoveRight, Hold, reachable, states, sw) == NoSource
                            && MoveQuery(MoveLeft, Hold, reachable, states, sw) != NoSource
    ensures xy.1 == 1 <==> MoveQuery(MoveDown, Hold, reachable, states, sw) != NoSource
    ensures xy.1 == -1 <==> MoveQuery(MoveDown, Hold, reachable, states, sw) == NoSource
                            && MoveQuery(MoveUp, Hold, reachable, states, sw) != NoSource
    ensures !reachable ==> xy == (0, 0)
  {
    (AxisValue(MoveQuery(MoveRight, Hold, reachable, states, sw) != NoSource, MoveQuery(MoveLeft, Hold, reachable, states, sw) != NoSource),
     AxisValue(MoveQuery(MoveDown, Hold, reachable, states, sw) != NoSource, MoveQuery(MoveUp, Hold, reachable, states, sw) != NoSource))
  }

  // ----- Move directions (InputLayer revision) -----

  /** The configured button list of each direction (InputToolsAPI.moveRightButtons,
      moveDownButtons, moveLeftButtons, moveUpButtons). */
  type MoveLists = Direction -> seq<Button>

  /** IsMoveRight* and its siblings of InputLayer.cs: the first button of the
      direction's list in the queried state (InputTools/InputLayer.cs:627-685). */
  function LayerMove(lists: MoveLists, dir: Direction, reachable: bool, states: ButtonStates, p: Phase): Button {
    AnyOfTheButtons(lists(dir), reachable, states, p)
  }

  /** IsMoveButtonPressed / Held / Released of InputLayer.cs
      (InputTools/InputLayer.cs:576-625): the answer of the first direction, in the
      order right, down, left, up, that has one. */
  function LayerMoveButton(lists: MoveLists, reachable: bool, states: ButtonStates, p: Phase): Button {
    var right := LayerMove(lists, MoveRight, reachable, states, p);
    var down := LayerMove(lists, MoveDown, reachable, states, p);
    var left := LayerMove(lists, MoveLeft, reachable, states, p);
    var up := LayerMove(lists, MoveUp, reachable, states, p);
    if right != NoButton then right
    else if down != NoButton then down
    else if left != NoButton then left
    else if up != NoButton then up
    else NoButton
  }

  /** IsMoveButton* of InputLayer.cs answers with the first direction, in the order
      right, down, left, up, whose list has a button in the queried state, and with
      SButton.None when none has. */
  lemma LayerMoveButtonOrder(lists: MoveLists, reachable: bool, states: ButtonStates, p: Phase)
    ensures var r := LayerMoveButton(lists, reachable, states, p);
      && (r != NoButton ==>
            exists k :: 0 <= k < |DirectionOrder|
              && r == LayerMove(lists, DirectionOrder[k], reachable, states, p)
              && forall j :: 0 <= j < k ==> LayerMove(lists, DirectionOrder[j], reachable, states, p) == NoButton)
      && (r == NoButton <==>
            forall k :: 0 <= k < |DirectionOrder| ==> LayerMove(lists, DirectionOrder[k], reachable, states, p) == NoButton)
  {
    assert DirectionOrder[0] == MoveRight && DirectionOrder[1] == MoveDown;
    assert DirectionOrder[2] == MoveLeft && DirectionOrder[3] == MoveUp;
  }

  /** What InputLayer.GetMoveAxis returns: the raw vector of the left or the right
      thumbstick, or a digital vector. */
  datatype Axis = LeftStickVector | RightStickVector | Digital(x: int, y: int)

  /** The stick vector GetMoveAxis hands over when the held button of direction `dir`
      is that direction of the left or the right thumbstick. */
  function StickOf(dir: Direction, b: Button): Option<Axis> {
    match dir
    case MoveRight =>
      if b == LeftThumbstickRight then Some(LeftStickVector)
      else if b == RightThumbstickRight then Some(RightStickVector) else None
    case MoveDown =>
      if b == LeftThumbstickDown then Some(LeftStickVector)
      else if b == RightThumbstickDown then Some(RightStickVector) else None
    case MoveLeft =>
      if b == LeftThumbstickLeft then Some(LeftStickVector)
      else if b == RightThumbstickLeft then Some(RightStickVector) else None
    case MoveUp =>
      if b == LeftThumbstickUp then Some(LeftStickVector)
      else if b == RightThumbstickUp then Some(RightStickVector) else None
  }

  /** The axis from the four held-direction answers: a direction whose held button is a
      thumbstick direction hands over that stick's vector (right, down, left, up are
      tried in order); otherwise right wins over left and down over up, each component
      in {-1, 0, 1}. */
  function AxisFrom(right: Button, down: Button, left: Button, up: Button): (a: Axis)
    ensures a.Digital? ==>
      && -1 <= a.x <= 1 && -1 <= a.y <= 1
      && (a.x == 1 <==> right != NoButton)
      && (a.x == -1 <==> right == NoButton && left != NoButton)
      && (a.y == 1 <==> down != NoButton)
      && (a.y == -1 <==> down == NoButton && up != NoButton)
    ensures a.Digital? <==>
      StickOf(MoveRight, right).None? && StickOf(MoveDown, down).None?
      && StickOf(MoveLeft, left).None? && StickOf(MoveUp, up).None?
    ensures !a.Digital? ==>
      || StickOf(MoveRight, right) == Some(a) || StickOf(MoveDown, down) == Some(a)
      || StickOf(MoveLeft, left) == Some(a) || StickOf(MoveUp, up) == Some(a)
  {
    if StickOf(MoveRight, right).Some? then StickOf(MoveRight, right).value
    else if StickOf(MoveDown, down).Some? then StickOf(MoveDown, down).value
    else if StickOf(MoveLeft, left).Some? then StickOf(MoveLeft, left).value
    else if StickOf(MoveUp, up).Some? then StickOf(MoveUp, up).value
    else Digital(AxisValue(right != NoButton, left != NoButton), AxisValue(down != NoButton, up != NoButton))
  }

  /** InputLayer.GetMoveAxis as written (InputTools/InputLayer.cs:723-748): the down,
      left and up answers are all read with IsMoveRightHeld. */
  function LayerMoveAxisAsWritten(lists: MoveLists, reachable: bool, states: ButtonStates): (a: Axis)
    ensures a.Digital? ==> a.x == a.y && 0 <= a.x <= 1
  {
    var right := LayerMove(lists, MoveRight, reachable, states, Hold);
    AxisFrom(right, right, right, right)
  }

  /** InputLayer.GetMoveAxis as evidently intended: each direction is read from its
      own list, so the digital axis says which directions are held. */
  function LayerMoveAxis(lists: MoveLists, reachable: bool, states: ButtonStates): (a: Axis)
    ensures !reachable ==> a == Digital(0, 0)
  {
    var right := LayerMove(lists, MoveRight, reachable, states, Hold);
    var down := LayerMove(lists, MoveDown, reachable, states, Hold);
    var left := LayerMove(lists, MoveLeft, reachable, states, Hold);
    var up := LayerMove(lists, MoveUp, reachable, states, Hold);
    AxisFrom(right, down, left, up)
  }

  /** With no thumbstick button among the held answers, the corrected axis has
      x = +1 exactly when a right button is held, -1 exactly when only a left button
      is, and likewise down and up for y. */
  lemma LayerMoveAxisDigital(lists: MoveLists, reachable: bool, states: ButtonStates)
    ensures var a := LayerMoveAxis(lists, reachable, states);
      var held := (dir: Direction) => LayerMove(lists, dir, reachable, states, Hold) != NoButton;
      a.Digital? ==>
        && a.x == AxisValue(held(MoveRight), held(MoveLeft))
        && a.y == AxisValue(held(MoveDown), held(MoveUp))
  {
  }

  /** A single-button list answers with that button exactly when it is in the queried
      state. */
  lemma AnyOfOne(b: Button, reachable: bool, states: ButtonStates, p: Phase)
    requires b != NoButton
    ensures AnyOfTheButtons([b], reachable, states, p) == (if ButtonQuery(reachable, states, p, b) then b else NoButton)
  {
    if ButtonQuery(reachable, states, p, b) {
      FirstIndexAt([b], ButtonMatcher(reachable, states, p), 0);
    }
  }

  /** The WASD key of each direction. */
  function WasdKey(dir: Direction): Button {
    match dir
    case MoveRight => D
    case MoveDown => S
    case MoveLeft => A
    case MoveUp => W
  }

  /** Lists holding one WASD key per direction. */
  const WasdLists: MoveLists := dir => [WasdKey(dir)]

  /** Under the WASD lists, direction `dir` answers with its key exactly when that key
      is held. */
  lemma WasdMove(dir: Direction, states: ButtonStates)
    ensures LayerMove(WasdLists, dir, true, states, Hold) == (if states(WasdKey(dir)) == Held then WasdKey(dir) else NoButton)
  {
    var key := WasdKey(dir);
    assert LayerMove(WasdLists, dir, true, states, Hold) == AnyOfTheButtons([key], true, states, Hold) by {
      assert WasdLists(dir) == [key];
    }
    AnyOfOne(key, true, states, Hold);
  }

  /** Both versions of GetMoveAxis, given the four held-direction answers. */
  lemma LayerMoveAxes(lists: MoveLists, states: ButtonStates, right: Button, down: Button, left: Button, up: Button)
    requires LayerMove(lists, MoveRight, true, states, Hold) == right
    requires LayerMove(lists, MoveDown, true, states, Hold) == down
    requires LayerMove(lists, MoveLeft, true, states, Hold) == left
    requires LayerMove(lists, MoveUp, true, states, Hold) == up
    ensures LayerMoveAxis(lists, true, states) == AxisFrom(right, down, left, up)
    ensures LayerMoveAxisAsWritten(lists, true, states) == AxisFrom(right, right, right, right)
  {
  }

  /** Whenever S is the only WASD key held, GetMoveAxis as written reports no movement,
      where moving down is meant. */
  lemma LayerMoveAxisAsWrittenDropsDown(states: ButtonStates)
    requires states(S) == Held && states(D) != Held && states(A) != Held && states(W) != Held
    ensures LayerMoveAxisAsWritten(WasdLists, true, states) == Digital(0, 0)
    ensures LayerMoveAxis(WasdLists, true, states) == Digital(0, 1)
  {
    WasdMove(MoveRight, states);
    WasdMove(MoveDown, states);
    WasdMove(MoveLeft, states);
    WasdMove(MoveUp, states);
    LayerMoveAxes(WasdLists, states, NoButton, S, NoButton, NoButton);
  }

  /** Whenever D is the only WASD key held, GetMoveAxis as written reports a diagonal,
      where moving right is meant. */
  lemma LayerMoveAxisAsWrittenAddsDown(states: ButtonStates)
    requires states(D) == Held && states(S) != Held && states(A) != Held && states(W) != Held
    ensures LayerMoveAxisAsWritten(WasdLists, true, states) == Digital(1, 1)
    ensures LayerMoveAxis(WasdLists, true, states) == Digital(1, 0)
  {
    WasdMove(MoveRight, states);
    WasdMove(MoveDown, states);
    WasdMove(MoveLeft, states);
    WasdMove(MoveUp, states);
    LayerMoveAxes(WasdLists, states, D, NoButton, NoButton, NoButton);
  }

  // ----- Cursor -----

  /** Some right-thumbstick direction is held: the controller is moving the cursor. */
  predicate RightStickHeld(states: ButtonStates) {
    exists b :: b in {RightThumbstickUp, RightThumbstickRight, RightThumbstickDown, RightThumbstickLeft} && states(b) == Held
  }

  /** IsCursorMoved after the device update (InputTools/InputStack.cs:496-510,
      InputTools/InputLayer.cs:479-493): Controller when the cursor moved while a right
      thumbstick direction is held, else Mouse when it moved, else None. The controller
      outranks the mouse: Mouse is reported only when the controller explanation fails. */
  function CursorMoved(reachable: bool, states: ButtonStates, mouseMoved: bool, mouse: bool, controller: bool): (d: InputDevice)
    ensures d == Controller <==> reachable && mouseMoved && controller && RightStickHeld(states)
    ensures d == Mouse <==> reachable && mouseMoved && mouse && !(controller && RightStickHeld(states))
    ensures d == NoDevice <==> !reachable || !mouseMoved || (!mouse && !(controller && RightStickHeld(states)))
  {
    if !reachable then NoDevice
    else if controller && mouseMoved &&
      (ButtonQuery(reachable, states, Hold, RightThumbstickUp) || ButtonQuery(reachable, states, Hold, RightThumbstickRight)
       || ButtonQuery(reachable, states, Hold, RightThumbstickDown) || ButtonQuery(reachable, states, Hold, RightThumbstickLeft))
    then Controller
    else if mouse && mouseMoved then Mouse
    else NoDevice
  }

  // ----- The event and query gates of the nested stack class -----

  /** Whether a stack of the nested InputToolsAPI.InputStack class fires its own
      subscribers (InputTools/InputToolsAPI.cs:349-353): Global always does. */
  predicate NestedFires(isGlobal: bool, reachable: bool) {
    isGlobal || reachable
  }

  /** Whether a stack of that class answers button queries
      (InputTools/InputToolsAPI.cs:651-656): a stack without a key, which is Global,
      always does. */
  predicate NestedAnswers(hasKey: bool, reachable: bool) {
    !hasKey || reachable
  }

  /** IsButtonPressed / Held / Released of the nested stack class. */
  predicate NestedButtonQuery(hasKey: bool, reachable: bool, states: ButtonStates, p: Phase, b: Button) {
    ButtonQuery(NestedAnswers(hasKey, reachable), states, p, b)
  }
}
