# InputTools core in Dafny

InputTools is a Stardew Valley mod. Other mods use it to ask "which device is the player using" and "was Confirm, Cancel, Alt, Menu or a move direction pressed". It answers through a stack of input layers that sits under a fixed Global layer. Each layer can be active or inactive. Its block behaviour (`Block`, `PassBelow` or none) decides whether the layers below it still see input. This project models the core of that engine and proves what it promises:

- **The layer registry** (`InputTools/ControlStack.cs`): an ordered key list plus a key→layer dictionary. It supports create, remove, get, move-to-top and the top-down reachability scan. `ControlStack` and `InputLayer` are Dafny classes whose methods update their fields in place. Each method is proved against a value-level meaning in module `StackView`.
- **Layers** (`InputTools/InputLayer.cs`):
  - the layer-below rule;
  - the `On*` event cascade, as the list of layers whose subscribers an event reaches;
  - the reachability-gated button, any-of-the-buttons, button-pair and action queries;
  - settings changes, move-to-top, `RemoveSelf`, the layer move queries and `GetMoveAxis`.
- **The query semantics of the stack revision** (`InputTools/InputStack.cs`):
  - the `GetStackBelow` variant, in which an inactive layer passes input down;
  - the Confirm, Cancel, Alt and Menu queries, where the controller goes first;
  - the move queries, in source order DPad, left thumbstick, WASD, arrows;
  - `IsMoveButton*`, `GetMoveAxis` and `IsCursorMoved`;
  - the once-per-tick device arbitration `CurrentInputDevice`.
- **The API object** (`InputTools/InputToolsAPI.cs`):
  - the fixed button→role and button→move classifiers;
  - `GetInputDevice`;
  - the older `CurrentInputDevice`;
  - the keybinding-capture state machine, as a class and as a value-level automaton;
  - the nested stack class's Global bypass.
- **The mod entry** (`InputTools/ModEntry.cs`):
  - the duplicate-free list of held buttons;
  - the numeric `GetInputDevice`;
  - the button-group predicates;
  - the per-tick rule that picks the active tile from the controller grab tile or the cursor tile.

Several things become abstract parameters: button states come in as a function `Button -> ButtonState`; layer keys are an abstract type with equality; cursor positions and tiles are abstract types compared only for equality; subscriber code becomes a trace of delivered events. The C# enum members named `None` are `NoButton`, `NoState`, `NoDevice`, `NoSource` and `NoBehavior` here. The C# null layer key is `Option.None`.

Where the interface comments and the code disagree, the model follows the code:

- The interface lists only Space and controller X for Alt, but the code also counts the right mouse button.
- The interface documents `GetBelow(false)` as ignoring block settings, and so does the code. With `true`, however, a layer with no block behaviour stops the cascade even though it does not block reachability. `StackView.CascadeStopsAtNoBehavior` shows this.

## Model

| member | source | states |
|---|---|---|
| Roles.GetInputDevice | InputTools/InputToolsAPI.cs:116-123 | Never NoDevice. Keyboard exactly for keyboard buttons, Mouse exactly for buttons that are neither controller nor keyboard buttons, Controller otherwise. |
| Roles.RoleClassifierMatchesTable | InputTools/InputToolsAPI.cs:188-215 | The four role classifiers and the role table describe the same relation in both directions. The table is Confirm A/Enter, Cancel B/Escape, Alt X/Space/right mouse button, Menu Y/Escape. |
| Roles.RoleDeviceAgreesWithGetInputDevice | InputTools/InputToolsAPI.cs:188-215 | The device a role classifier reports for a button is the device GetInputDevice gives that button. |
| Roles.EscapeIsCancelAndMenu | InputTools/IInputToolsAPI.cs:72-85 | Escape is both Cancel and Menu, and it is the only button the two roles share. |
| Roles.MoveClassifierMatchesTable | InputTools/InputToolsAPI.cs:217-251 | For every direction, the move classifier and the per-source move table are inverse: b is the src button of dir iff the classifier maps b to src. |
| Roles.FourMoveButtonsPerDirection | InputTools/InputToolsAPI.cs:217-251 | Each direction has exactly four move buttons, one per source (WASD, arrow, DPad, left thumbstick). Every other button maps to NoSource. |
| Roles.MoveDirectionsDisjoint | InputTools/InputToolsAPI.cs:217-251 | No button is a move button of two directions. |
| Sequences.RemoveFirst | InputTools/ControlStack.cs:47-48 | List.Remove. An absent key changes nothing. A present key shortens the list by one, removing exactly one copy (multiset). Every other key keeps its membership. |
| Sequences.LastIndexOf | InputTools/InputLayer.cs:40-44 | The index a top-down scan meets first: an occurrence of k with no k above it, or -1 exactly when k is absent. |
| Sequences.RemoveFirstKeepsOthers | InputTools/ControlStack.cs:43-53 | Removing a key keeps every other key in its relative order. |
| Sequences.RemoveFirstOfDistinct | InputTools/ControlStack.cs:64-72 | On a duplicate-free list, removing a key removes it entirely and keeps the list duplicate-free. |
| StackView.CreateLayerAsWrittenSpec | InputTools/ControlStack.cs:29-41 | Creation as written: the list grows by exactly one, the key goes last, the old list is a prefix, and the dictionary maps the key to the given settings. Re-creating a present key breaks uniqueness. |
| StackView.CreateLayerSpec | InputTools/ControlStack.cs:29-41 | Corrected creation keeps the registry well-formed. The key goes on top; the length grows only for a new key. Other keys keep their order and settings, the key gets the given settings, and Global is unchanged. |
| StackView.RemoveLayerSpec | InputTools/ControlStack.cs:43-53 | Removal keeps the registry well-formed and drops the key from the list and the dictionary. Other keys keep their order and settings. |
| StackView.MoveLayerToTopSpec | InputTools/ControlStack.cs:64-72 | Move-to-top keeps the registry well-formed, the dictionary, the length and the multiset of keys, and the order of the others. A present key ends on top; an absent key changes nothing. |
| StackView.ScanDownFinds | InputTools/ControlStack.cs:84-92 | The scan from index i down returns true exactly when some occurrence of k at or below i has no Block layer above it up to i. On a registered list it never dereferences a missing layer. |
| StackView.ReachableAsWrittenAgrees | InputTools/ControlStack.cs:74-93 | On a registry whose list entries all have layers, the C# reachability routine terminates normally and returns the documented reachability: Global when active; a keyed layer when it is registered and active, Global does not block, and no Block layer sits above it. |
| StackView.MoveLayerToTopMakesReachable | InputTools/ControlStack.cs:64-93 | An active layer moved to the top is reachable whenever Global does not block. |
| StackView.DeactivatedIsUnreachable | InputTools/ControlStack.cs:76-78 | A deactivated layer, or a deactivated Global, is unreachable whatever its block behaviour. |
| StackView.ActivityIsLocal | InputTools/ControlStack.cs:84-92 | Changing one keyed layer's activity changes no other layer's reachability. An inactive Block layer above still blocks. |
| StackView.TopLayer | InputTools/InputLayer.cs:35-36 | The registered layer on top of the list, or None when the list is empty or its top has no layer. |
| StackView.KeyBelow | InputTools/InputLayer.cs:40-44 | The layer just below a key's last occurrence is always a registered layer. |
| StackView.LayerBelow | InputTools/InputLayer.cs:29-47 | GetLayerBelow. The result is always registered. Global hands on nothing when it blocks under stopAtBlock. A keyed layer hands on nothing under stopAtBlock unless it is PassBelow. |
| StackView.StackBelow | InputTools/InputStack.cs:29-45 | GetStackBelow. The result is always registered. Under stopAtBlock, an active keyed layer that is not PassBelow hands on nothing. |
| StackView.BelowVariantsDiffer | InputTools/InputStack.cs:29-45 | The two layer-below rules agree when blocks are ignored, and whenever the older one hands on. They differ exactly when a blocking Global sits over a non-empty stack, or when an inactive non-PassBelow keyed layer has a layer under it. |
| StackView.LayerBelowDescends | InputTools/InputLayer.cs:38-46 | On a well-formed registry, the layer below a keyed layer sits exactly one position lower, so the cascade walks strictly down and terminates. |
| StackView.CascadeFrom | InputTools/InputLayer.cs:79-84 | The keys an event entering at a position reaches: at most pos+1 of them, each reachable. |
| StackView.Cascade | InputTools/InputLayer.cs:79-84 | The senders of an event raised on Global are all reachable. A blocking Global lets at most itself fire. |
| StackView.Route | InputTools/InputLayer.cs:79-364 | The senders of an event raised on any layer are all reachable. |
| StackView.RouteStep | InputTools/InputLayer.cs:79-84 | One On* step: the layer's own subscribers fire iff it is reachable, followed by the route of the layer GetLayerBelow returns. |
| StackView.CascadeFromMembers | InputTools/InputLayer.cs:79-84 | A key receives an event entering at pos iff it is reachable, sits at or below pos, and every layer between it and pos passes input below. |
| StackView.CascadeComplete | InputTools/InputLayer.cs:79-84 | When no layer has the none block behaviour, an event raised on Global reaches exactly the reachable layers. |
| StackView.CascadeStopsAtNoBehavior | InputTools/InputLayer.cs:38-46 | A layer with no block behaviour lets reachability through but stops the cascade. A concrete stack shows a reachable layer the Global event never reaches. |
| StackView.CreateTwiceMakesCycle | InputTools/ControlStack.cs:36-39 | Creating 1, 2, 1 as written, all PassBelow, makes 2 the layer below 1 and 1 the layer below 2. |
| StackView.RemoveDuplicatedKey | InputTools/ControlStack.cs:43-53 | Removing a key that occurs twice drops its dictionary entry but leaves one copy in the list. |
| StackView.CreateTwiceThenRemoveView | InputTools/ControlStack.cs:36-53 | Creating 1, 2, 2 as written and removing 2 leaves 2 in the list without a layer. |
| StackView.CreateTwiceThenRemoveThrows | InputTools/ControlStack.cs:84-89 | After that sequence, asking whether layer 1 is reachable dereferences the missing layer: the scan throws. |
| StackView.CreateKeepsScanTotal | InputTools/ControlStack.cs:84-91 | After a corrected creation on a well-formed registry, the reachability scan always returns normally. |
| Layers.ControlStack.View | InputTools/ControlStack.cs:21-22 | The registry's value has the same key list and the same dictionary keys as the object. |
| Layers.ControlStack.constructor | InputTools/ControlStack.cs:24-27 | A new registry is empty and valid, with a fresh active Global layer of no block behaviour. |
| Layers.ControlStack.GetLayer | InputTools/ControlStack.cs:55-62 | Global for the null key. Non-null exactly for registered keys, and then the layer that carries that key. |
| Layers.ControlStack.LayerCreate | InputTools/ControlStack.cs:29-41 | A null key returns null and changes nothing. Otherwise a fresh layer is registered, and the new state is the corrected CreateLayer of the old one. The registry invariant is kept. |
| Layers.ControlStack.Register | InputTools/ControlStack.cs:38-39 | Storing the new layer: the dictionary gains the key, and the state becomes CreateLayer of the old one. |
| Layers.ControlStack.LayerRemove | InputTools/ControlStack.cs:43-53 | A null key changes nothing. Otherwise the new state is RemoveLayer of the old one, and the invariant is kept. |
| Layers.ControlStack.MoveToTopOfStack | InputTools/ControlStack.cs:64-72 | A null key changes nothing. Otherwise the new state is MoveLayerToTop of the old one; the dictionary and the invariant are kept. |
| Layers.ControlStack.IsLayerReachableByInput | InputTools/ControlStack.cs:74-93 | The loop's answer equals the documented reachability of the current state. |
| Layers.InputLayer.constructor | InputTools/InputLayer.cs:19-27 | A new layer is active with no block behaviour and carries its key and registry. |
| Layers.InputLayer.WithSettings | InputTools/ControlStack.cs:38 | A layer with the requested activity and block behaviour. |
| Layers.InputLayer.SetLayerActive | InputTools/InputLayer.cs:809-812 | Accepts any handle, including one removed or replaced under its key. Only this object's activity changes. For the registered layer the registry's new value is the old one with this layer's settings replaced; for a stale handle the registry is unchanged. |
| Layers.InputLayer.SetLayerBlockBehaviour | InputTools/InputLayer.cs:814-817 | Accepts any handle. Only this object's block behaviour changes, with the same registry-level statement for a registered and for a stale handle. |
| Layers.InputLayer.GetLayerBelow | InputTools/InputLayer.cs:29-47 | Returns null iff LayerBelow is None. Otherwise it returns the registered layer under LayerBelow's key. |
| Layers.InputLayer.OnEvent | InputTools/InputLayer.cs:79-364 | The recursive On* handler. The subscribers it invokes, in order, are exactly Route of the registry. |
| Layers.InputLayer.IsButton | InputTools/InputLayer.cs:428-446 | Accepts any handle. False when the registry calls the handle's key unreachable, and so always false once the key is removed; otherwise the button is in the queried state. |
| Layers.InputLayer.IsAnyOfTheButtons | InputTools/InputLayer.cs:49-77 | Accepts any handle. The loop returns the first listed button the gated button query accepts, else NoButton. |
| Layers.InputLayer.IsAction | InputTools/InputLayer.cs:687-721 | Accepts any handle. The loop returns ActionQuery: None for a null or blank id, else the first registered pair the pair query accepts. |
| Layers.InputLayer.MoveToTopOfStack | InputTools/InputLayer.cs:819-824 | Global changes nothing. A keyed handle, stale or not, moves its key to the top of the list, still below Global. |
| Layers.InputLayer.IsLayerReachableByInput | InputTools/InputLayer.cs:826-833 | Always true for Global. For a keyed handle it is the registry's reachability of the key, and false once the key is removed. |
| Layers.InputLayer.RemoveSelf | InputTools/InputLayer.cs:835-840 | Global is never removed. A keyed handle removes its key from the registry, together with whichever layer is now registered under it. |
| Queries.ButtonPhasesExclusive | InputTools/InputLayer.cs:428-446 | At most one of pressed, held and released holds for a button in one tick. |
| Queries.PressedPairExcludesReverse | InputTools/InputLayer.cs:449-470 | Pairs are ordered: while (a, b) is pressed, a and b differ and the reversed pair (b, a) is neither pressed, held nor released. |
| Queries.PairPhasesExclusive | InputTools/InputLayer.cs:449-470 | A pair is at most one of pressed, held and released in a tick. |
| Queries.SameButtonPairNeverPressed | InputTools/InputLayer.cs:449-454 | A pair of one button twice is never pressed. |
| Queries.AnyOfTheButtonsFirstMatch | InputTools/InputLayer.cs:49-77 | The answer is a listed button in the queried state with no earlier listed button in that state. NoButton exactly when no listed button is in that state. |
| Queries.ActionQuery | InputTools/InputLayer.cs:687-721 | None for a null or blank id. An answer is a registered pair the pair query accepts, with no earlier one accepted. None otherwise only when no pair is accepted. Unreachable gives None. |
| Queries.BlankActionIdsAnswerNone | InputTools/InputLayer.cs:689-690 | The empty id and an id of only whitespace answer None. |
| Queries.RoleQuery | InputTools/InputStack.cs:533-646 | The reported device is switched on and holds the role's button in the queried state. NoDevice exactly when no device does. Controller wins whenever it qualifies, and keyboard outranks mouse. Unreachable gives NoDevice. |
| Queries.RoleQueryAgreesWithClassifier | InputTools/InputStack.cs:533-646 | The device a role query reports is the classifier's device for some button in the queried state. |
| Queries.CancelAndMenuShareEscape | InputTools/InputStack.cs:560-646 | With only the keyboard on, Cancel and Menu give the same answer. |
| Queries.AltPressedAsWrittenIsRoleQuery | InputTools/InputStack.cs:587-597 | IsAltPressed as written is the role query. |
| Queries.AltHeldAsWrittenSeesPress | InputTools/InputStack.cs:598-608 | IsAltHeld as written reports Mouse for a right button that was only just pressed, where the role query reports nothing. |
| Queries.AltQueryAsWritten | InputTools/InputStack.cs:587-619 | IsAlt* as written: the controller and keyboard answers are those of the role query, and a Mouse answer always means the right button was just pressed, whichever phase was asked. |
| Queries.AltAsWrittenMissesMouse | InputTools/InputStack.cs:598-619 | IsAltHeld and IsAltReleased as written miss a held or released right button that the role query reports. |
| Queries.MoveQuery | InputTools/InputStack.cs:687-842 | The reported source is enabled and holds the direction's button in the queried state. No higher-priority source in the order DPad, left thumbstick, WASD, arrows qualifies. NoSource exactly when none does. |
| Queries.MoveQueryAgreesWithClassifier | InputTools/InputStack.cs:687-842 | The reported source is the move classifier's source for a button in the queried state. |
| Queries.MoveButtonQuery | InputTools/InputStack.cs:648-685 | The answer is the first direction's source in the order right, down, left, up; NoSource iff every direction answers NoSource. |
| Queries.AxisValue | InputTools/InputStack.cs:880-886 | One axis: 1 iff positive, -1 iff negative only, 0 iff neither; always within -1..1. |
| Queries.MoveAxis | InputTools/InputStack.cs:880-886 | Both components are within -1..1. Right wins over left and down wins over up. An unreachable layer gives (0, 0). |
| Queries.LayerMoveButtonOrder | InputTools/InputLayer.cs:576-625 | The layer's IsMoveButton* answers with the first direction, in the order right, down, left, up, whose answer is a button. |
| Queries.AxisFrom | InputTools/InputLayer.cs:723-748 | From the four held answers: a thumbstick direction hands over its stick vector; otherwise the digital axis, right over left and down over up. |
| Queries.LayerMoveAxis | InputTools/InputLayer.cs:723-748 | The corrected GetMoveAxis; an unreachable layer gives the zero axis. |
| Queries.LayerMoveAxisDigital | InputTools/InputLayer.cs:745-747 | With no thumbstick answer, the corrected axis is digital with components in -1..1, set by the four directions. |
| Queries.LayerMoveAxes | InputTools/InputLayer.cs:723-748 | The corrected axis uses the four direction answers. The as-written axis uses the right answer four times. |
| Queries.LayerMoveAxisAsWritten | InputTools/InputLayer.cs:723-748 | GetMoveAxis as written: every digital answer lies on the diagonal, (0, 0) or (1, 1). |
| Queries.LayerMoveAxisAsWrittenDropsDown | InputTools/InputLayer.cs:730-740 | With only S held, the axis as written is (0, 0); the corrected one is (0, 1). |
| Queries.LayerMoveAxisAsWrittenAddsDown | InputTools/InputLayer.cs:730-740 | With only D held, the axis as written is (1, 1); the corrected one is (1, 0). |
| Queries.CursorMoved | InputTools/InputStack.cs:498-511 | Controller exactly when the layer is reachable, the cursor moved, the controller switch is on and a right-thumbstick direction is held. Mouse exactly when reachable, moved and the mouse switch is on, and the controller explanation fails. None in every other case. |
| Layers.GlobalGatesDiffer | InputTools/InputToolsAPI.cs:349-353 | In InputLayer.cs a deactivated Global receives none of its own events and sees no button. In the nested stack class Global always fires and answers, whatever its activity. Keyed stacks are gated alike in both. |
| DeviceArbiter.NextDeviceIsHighestActive | InputTools/InputStack.cs:411-425 | The chosen device is the highest-ranked device showing activity (controller > keyboard > mouse); with no activity, the previous device. |
| DeviceArbiter.NextDeviceNoneOnlyWhenIdle | InputTools/InputStack.cs:411-425 | The answer is NoDevice iff it was NoDevice before and no device shows activity. |
| DeviceArbiter.SameTickIsCached | InputTools/InputStack.cs:407-408 | A second call in the same tick answers the cached device, raises nothing and changes no state. |
| DeviceArbiter.ConsecutiveStepsCompareSamples | InputTools/InputStack.cs:407-444 | Over two fresh ticks, the second tick's moved flags compare its sample with the first tick's sample, whatever the tracker held before. A second tick with no activity keeps the device and raises only the cursor and wheel events. |
| DeviceArbiter.DeviceChangedIffTransition | InputTools/InputStack.cs:433-443 | A device-changed event is raised iff the device changed, at most once and first, carrying the new device. |
| DeviceArbiter.RevisionsAgree | InputTools/InputToolsAPI.cs:79-114 | The older revision gives the same answer and state except for the wheel flag, which it leaves alone. It raises exactly the device-changed events of the newer one. |
| DeviceArbiter.DeviceTracker.constructor | InputTools/InputToolsAPI.cs:29-34 | The field defaults: tick 0, no device, the given position, wheels 0, flags false. |
| DeviceArbiter.DeviceTracker.SampleDevice | InputTools/InputStack.cs:411-425 | The if-chain returns NextDevice of the current state and the sample. |
| DeviceArbiter.DeviceTracker.CurrentInputDevice | InputTools/InputStack.cs:405-445 | The answer, the new fields and the raised events are exactly Step of the old state. |
| DeviceArbiter.DeviceTracker.ApiCurrentInputDevice | InputTools/InputToolsAPI.cs:79-114 | The answer, the new fields and the events are exactly ApiStep of the old state. |
| DeviceArbiter.DeviceTracker.IsCursorMoved | InputTools/InputStack.cs:498-511 | Refreshes the device first, exactly as Step does, then answers CursorMoved over the fresh moved flag. A device is reported only when reachable and the cursor moved this tick. |
| Keybinding.StopIsIdempotent | InputTools/InputToolsAPI.cs:265-270 | Stopping leaves no handler subscribed, and stopping twice is stopping once. |
| Keybinding.ListenAttachesOnce | InputTools/InputToolsAPI.cs:253-263 | Listening stores the callback and leaves exactly one set of handlers subscribed; listening twice with the same callback is listening once. |
| Keybinding.DispatchKeepsAtMostOnce | InputTools/InputToolsAPI.cs:38-63 | Each event keeps the subscriptions at most one and calls back at most once. A callback ends the capture. |
| Keybinding.StoppedIsInert | InputTools/InputToolsAPI.cs:38-63 | With no handler subscribed, any run of events changes nothing and calls back nobody. |
| Keybinding.AtMostOneDelivery | InputTools/InputToolsAPI.cs:38-63 | Whatever the user does, one capture calls back at most once. |
| Keybinding.CancelSendsNull | InputTools/InputToolsAPI.cs:38-46 | A cancel press while listening stops the capture, clears the candidate and calls back with null once. |
| Keybinding.PressThenReleaseBinds | InputTools/InputToolsAPI.cs:38-58 | Pressing then releasing one non-cancel button calls back once with that button alone and stops listening. |
| Keybinding.ReleaseOfOtherButtonIgnored | InputTools/InputToolsAPI.cs:49-58 | Releasing a button other than the candidate changes nothing. |
| Keybinding.PairBindsAtOnce | InputTools/InputToolsAPI.cs:59-63 | A pair press calls back with that pair at once and stops listening. |
| Keybinding.CandidateOutlivesPairCapture | InputTools/InputToolsAPI.cs:253-263 | A capture that ended on a pair keeps its candidate, so in the next capture a release of that button binds it without a fresh press. |
| Keybinding.KeybindingCapture.constructor | InputTools/InputToolsAPI.cs:36-37 | Nothing subscribed, no callback, no candidate. |
| Keybinding.KeybindingCapture.StopListeningForKeybinding | InputTools/InputToolsAPI.cs:265-270 | The new state is Stop of the old one, and nothing is left listening. |
| Keybinding.KeybindingCapture.ListenForKeybinding | InputTools/InputToolsAPI.cs:253-263 | The new state is Listen of the old one: listening, with one subscription. |
| Keybinding.KeybindingCapture.KeyBindingSinglePressed | InputTools/InputToolsAPI.cs:38-48 | The state and the callbacks are those of SinglePressed. |
| Keybinding.KeybindingCapture.KeyBindingSingleReleased | InputTools/InputToolsAPI.cs:49-58 | The state and the callbacks are those of SingleReleased. |
| Keybinding.KeybindingCapture.KeyBindingPairPressed | InputTools/InputToolsAPI.cs:59-63 | The state and the callbacks are those of PairPressedHandler. |
| Keybinding.KeybindingCapture.Raise | InputTools/InputToolsAPI.cs:38-63 | Global raising an event runs the subscribed handler, as Dispatch says, and keeps at most one subscription. |
| Mod.GetInputDevice | InputTools/ModEntry.cs:43-50 | The answer is one of the three enum numbers. |
| Mod.GetInputDeviceAgrees | InputTools/ModEntry.cs:43-50 | The numbers 2, 1, 0 are exactly the Controller, Keyboard and Mouse answers of the newer GetInputDevice. |
| Mod.KeyboardGroupIsWasd | InputTools/ModEntry.cs:52-58 | The keyboard move group holds iff a held button is a WASD move button. |
| Mod.ControllerGroupIsLeftStick | InputTools/ModEntry.cs:60-66 | The controller move group holds iff a held button is a left-thumbstick move button. |
| Mod.CursorGroupMovesNothing | InputTools/ModEntry.cs:68-74 | The cursor group's buttons are controller buttons that move in no direction from any source. |
| Mod.PressKeepsDistinct | InputTools/ModEntry.cs:138-139 | A press keeps the list duplicate-free and keeps the old list as a prefix. It adds exactly the pressed button. |
| Mod.ReleaseKeepsDistinct | InputTools/ModEntry.cs:149-150 | A release keeps the list duplicate-free and removes the button, keeping the others in order. Releasing an unheld button changes nothing. |
| Mod.TileMovedIffChanged | InputTools/ModEntry.cs:161-176 | The tile-moved flag is set iff the active tile changed. An unchanged tile leaves the tile and the cursor flag alone. |
| Mod.TileSource | InputTools/ModEntry.cs:163-181 | A new tile is the grab tile, with the cursor flag off, when the farmer moved with a controller move button held. Otherwise it is the cursor tile, with the flag on, when the cursor moved or a keyboard move button is held. The mouse fade resets only with the grab tile. |
| Mod.ModEntry.constructor | InputTools/ModEntry.cs:98-106 | No button held, the device field at Mouse's number, the given position and tile, and every flag false. |
| Mod.ModEntry.OnButtonPressed | InputTools/ModEntry.cs:133-141 | Nothing changes before the world is ready. Otherwise the list becomes PressUpdate and the device becomes GetInputDevice of the button; the list stays duplicate-free. |
| Mod.ModEntry.OnButtonReleased | InputTools/ModEntry.cs:143-151 | Nothing changes before the world is ready. Otherwise the list becomes ReleaseUpdate and the device is kept; the list stays duplicate-free. |
| Mod.ModEntry.OnUpdateTicked | InputTools/ModEntry.cs:153-182 | Nothing changes before the world is ready. Otherwise the tile fields and the mouse-fade reset are TileTick of the old ones, and the held list and device are untouched. |

## Left out

- Subscriber code and the C# multicast events are not modelled. An event becomes the list of layers, or the record of notices, whose subscribers it reaches.
- Raw device polling becomes inputs: `Game1` state, `Helper.Input.GetState`, the mouse and gamepad states and the clock. The button states are a function argument; the per-tick sample is a record.
- Floating-point values are not modelled. Thumbstick vectors are abstract, and `GetMoveAxis` returns a digital axis or the name of the stick whose vector it hands over. The placement-tile geometry (`GetPlacementTile*`) and `IsHeldItemBomb` are left out for the same reason.
- The `DelayedAction` one-tick deferral in `ListenForKeybinding` is not modelled; listening starts when the deferred body runs.
- The `Actions` registry is not part of this model. The key pairs of an action are a sequence argument; the pair-pressing set, the released set and their tick are given state (`PairFrame`).
- Logging, `Entry`, `GetApi`, the mod-ID list, `RegisterAction` and its siblings, and the stack create and remove wrappers of the API object are not modelled.
- `Layers.InputLayer.IsButton`: the six `IsButtonPair*` and `IsMoveButton*`/`IsMove*`/`GetMoveAxis` methods of `InputLayer` are modelled as functions in `Queries` over the layer's reachability, not as methods of the class.
- `Layers.InputLayer.IsAction`: the C# loop asks the registry for reachability once per pair; the model asks once, since nothing changes during the loop.
- `Layers.InputLayer.OnEvent` stands for every `On*` handler. The event payload does not affect routing, so only the list of senders is stated.
- `IsMouseWheelMoved` is the stored wheel flag gated by reachability; it is not a separate member.
- The `IsCursorMoved` of `InputLayer.cs` refreshes the device through `GetCurrentInputDevice`, which is not part of this model. The refresh is modelled through the `InputStack.cs` revision (`DeviceArbiter.DeviceTracker.IsCursorMoved`).
- `Keybinding.Dispatch`: the handler subscription counts are natural numbers, but the model only runs events from states with at most one subscription. The source keeps that invariant itself, since Listen stops first.
- `DeviceArbiter.DeviceTracker.CurrentInputDevice` computes the moved flags and the events before it stores the fields; the C# code interleaves them. The state and events after the call are the same.
- Default argument values (`startActive = true`, `Block`) are not modelled; callers pass every argument.
- A null `inputTools` and other null objects the source never creates are not modelled.
- `Queries.RoleQuery` models the corrected `IsAltHeld`/`IsAltReleased`. The code as written is `Queries.AltQueryAsWritten` (see Findings).
- Layer keys are one abstract type with one equality. The C# compares keys by reference in the scans (InputTools/ControlStack.cs:86, InputTools/InputLayer.cs:42) but with `Equals` in `List` and `Dictionary`. The model assumes the two agree; a boxed value key, which they do not agree on, is not modelled.
- `DeviceArbiter.DeviceTracker.constructor`: the declaration of the wheel flag `mouseWheelMovedLastTick` (read at InputTools/InputStack.cs:428, 442, 495) is not part of this model. The model starts it false, the C# default for a `bool` field; the other defaults are those of InputTools/InputToolsAPI.cs:29-34.
- `Layers.ControlStack.LayerCreate` models the corrected creation. The as-written behaviour, which appends a re-created key again, is `StackView.CreateLayerAsWritten` (see Findings).

## Findings

| source | as written | input that shows it | evidently intended | confidence | as-written member | corrected member |
|---|---|---|---|---|---|---|
| InputTools/ControlStack.cs:36-39 | Creating a key that is already in the list logs a warning and appends the key a second time. | Create 1, 2, 1 with PassBelow: the layer below 1 is 2 and below 2 is 1, so the cascade never ends. Create 1, 2, 2, then remove 2: asking whether 1 is reachable dereferences the missing layer 2. | The key appears in the list once, and re-creation replaces the old layer and moves it on top. | not executed | StackView.CreateTwiceMakesCycle | StackView.CreateLayerSpec |
| InputTools/InputStack.cs:598-619 | IsAltHeld and IsAltReleased test the right mouse button with the pressed-state query. | Right mouse button held, nothing else: IsAltHeld answers None. Right button just pressed: IsAltHeld answers Mouse. | Each variant tests the right mouse button in its own state, as it does Space and controller X. | not executed | Queries.AltAsWrittenMissesMouse | Queries.RoleQuery |
| InputTools/InputLayer.cs:730-740 | GetMoveAxis reads the down, left and up directions with IsMoveRightHeld. | Only S held: the axis is (0, 0) instead of (0, 1). Only D held: the axis is (1, 1) instead of (1, 0). | Each direction is read with its own held query. | not executed | Queries.LayerMoveAxisAsWrittenDropsDown | Queries.LayerMoveAxisDigital |
