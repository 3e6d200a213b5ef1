/** Capturing the next key binding (InputTools/InputToolsAPI.cs:36-63 and 253-270).

    While listening, three handlers are subscribed to the Global layer's ButtonPressed,
    ButtonReleased and ButtonPairPressed events. A cancel button ends the capture with a
    null binding; pressing and then releasing one button binds that button alone; pressing
    a pair binds the pair. Ending the capture unsubscribes the handlers.

    The callback is an opaque value of type C. A C# event keeps a list of subscriptions:
    `+=` adds one even when the handler is already there and `-=` removes one when there is
    one, so each handler carries a subscription count. */
module Keybinding {
  import opened InputTypes
  import Roles

  /** One call of the stored callback; None stands for the null sent on cancel. */
  datatype Delivery<C> = Delivery(callback: C, binding: Option<ButtonPair>)

  /** The capture state: how many times each handler is subscribed, the stored callback
      (null until the first Listen) and the candidate single button. */
  datatype Capture<C> = Capture(
    pressedHandlers: nat,
    releasedHandlers: nat,
    pairHandlers: nat,
    callback: Option<C>,
    candidate: Button)

  /** The state after an event: the new capture state and the callbacks made. */
  datatype Outcome<C> = Outcome(next: Capture<C>, delivered: seq<Delivery<C>>)

  /** The Global layer events the handlers listen to. */
  datatype Event = ButtonPressed(button: Button) | ButtonReleased(button: Button) | PairPressed(pair: ButtonPair)

  /** The three handlers are always subscribed together, at most once. */
  predicate AtMostOnce<C>(c: Capture<C>) {
    c.pressedHandlers <= 1 && c.releasedHandlers == c.pressedHandlers && c.pairHandlers == c.pressedHandlers
  }

  predicate Listening<C>(c: Capture<C>) {
    c.pressedHandlers > 0
  }

  /** Removing a handler from a C# event takes away one subscription, if there is one. */
  function Unsubscribe(n: nat): nat {
    if n == 0 then 0 else n - 1
  }

  /** StopListeningForKeybinding (InputTools/InputToolsAPI.cs:265-270). The callback and the
      candidate are left as they are. */
  function Stop<C>(c: Capture<C>): Capture<C> {
    c.(pressedHandlers := Unsubscribe(c.pressedHandlers),
       releasedHandlers := Unsubscribe(c.releasedHandlers),
       pairHandlers := Unsubscribe(c.pairHandlers))
  }

  /** The deferred body of ListenForKeybinding (InputTools/InputToolsAPI.cs:253-263): stop,
      subscribe the three handlers, store the callback. The candidate is left as it is. */
  function Listen<C>(c: Capture<C>, cb: C): Capture<C> {
    var s := Stop(c);
    s.(pressedHandlers := s.pressedHandlers + 1,
       releasedHandlers := s.releasedHandlers + 1,
       pairHandlers := s.pairHandlers + 1,
       callback := Some(cb))
  }

  /** `callback?.Invoke(binding)`: a call only when a callback is stored. */
  function Invoke<C>(callback: Option<C>, binding: Option<ButtonPair>): seq<Delivery<C>> {
    if callback.Some? then [Delivery(callback.value, binding)] else []
  }

  /** KeyBindingSinglePressed (InputTools/InputToolsAPI.cs:38-48). */
  function SinglePressed<C>(c: Capture<C>, b: Button): Outcome<C> {
    if Roles.IsCancelButton(b) != NoDevice then Outcome(Stop(c).(candidate := NoButton), Invoke(c.callback, None))
    else Outcome(c.(candidate := b), [])
  }

  /** KeyBindingSingleReleased (InputTools/InputToolsAPI.cs:49-58). */
  function SingleReleased<C>(c: Capture<C>, b: Button): Outcome<C> {
    if c.candidate == b then
      Outcome(Stop(c).(candidate := NoButton), Invoke(c.callback, Some(ButtonPair(b, NoButton))))
    else Outcome(c, [])
  }

  /** KeyBindingPairPressed (InputTools/InputToolsAPI.cs:59-63): the candidate is not reset. */
  function PairPressedHandler<C>(c: Capture<C>, pair: ButtonPair): Outcome<C> {
    Outcome(Stop(c), Invoke(c.callback, Some(pair)))
  }

  /** The Global layer raising an event: the matching handler runs when it is subscribed. */
  function Dispatch<C>(c: Capture<C>, e: Event): Outcome<C>
    requires AtMostOnce(c)
  {
    if !Listening(c) then Outcome(c, [])
    else match e
      case ButtonPressed(b) => SinglePressed(c, b)
      case ButtonReleased(b) => SingleReleased(c, b)
      case PairPressed(pair) => PairPressedHandler(c, pair)
  }

  /** A run of events, with every callback made along the way. */
  function Run<C>(c: Capture<C>, events: seq<Event>): Outcome<C>
    requires AtMostOnce(c)
    decreases |events|
  {
    if |events| == 0 then Outcome(c, [])
    else
      var first := Dispatch(c, events[0]);
      DispatchKeepsAtMostOnce(c, events[0]);
      var rest := Run(first.next, events[1..]);
      Outcome(rest.next, first.delivered + rest.delivered)
  }

  /** Stopping leaves nothing subscribed, from any state with at most one subscription, and
      stopping twice is stopping once. */
  lemma StopIsIdempotent<C>(c: Capture<C>)
    requires AtMostOnce(c)
    ensures AtMostOnce(Stop(c)) && !Listening(Stop(c))
    ensures Stop(Stop(c)) == Stop(c)
  {
  }

  /** Listening stops any capture in progress first, so exactly one set of handlers is
      subscribed afterwards, whatever was subscribed before. */
  lemma ListenAttachesOnce<C>(c: Capture<C>, cb: C)
    requires AtMostOnce(c)
    ensures AtMostOnce(Listen(c, cb)) && Listening(Listen(c, cb))
    ensures Listen(c, cb).callback == Some(cb)
    ensures Listen(Listen(c, cb), cb) == Listen(c, cb)
  {
  }

  /** Each event keeps the subscriptions at most one, and every callback ends the capture. */
  lemma DispatchKeepsAtMostOnce<C>(c: Capture<C>, e: Event)
    requires AtMostOnce(c)
    ensures AtMostOnce(Dispatch(c, e).next)
    ensures |Dispatch(c, e).delivered| <= 1
    ensures |Dispatch(c, e).delivered| == 1 ==> !Listening(Dispatch(c, e).next)
  {
  }

  /** Once the handlers are gone, events change nothing and call back nobody. */
  lemma {:induction false} StoppedIsInert<C>(c: Capture<C>, events: seq<Event>)
    requires AtMostOnce(c) && !Listening(c)
    ensures Run(c, events) == Outcome(c, [])
    decreases |events|
  {
    if |events| > 0 {
      StoppedIsInert(c, events[1..]);
    }
  }

  /** Whatever the user does, a capture calls back at most once. */
  lemma {:induction false} AtMostOneDelivery<C>(c: Capture<C>, events: seq<Event>)
    requires AtMostOnce(c)
    ensures |Run(c, events).delivered| <= 1
    decreases |events|
  {
    if |events| > 0 {
      var first := Dispatch(c, events[0]);
      DispatchKeepsAtMostOnce(c, events[0]);
      if |first.delivered| == 1 {
        StoppedIsInert(first.next, events[1..]);
      } else {
        AtMostOneDelivery(first.next, events[1..]);
      }
    }
  }

  /** Pressing a cancel button while listening stops the capture and sends null once. */
  lemma CancelSendsNull<C>(c: Capture<C>, cb: C, b: Button)
    requires AtMostOnce(c) && Roles.IsCancelButton(b) != NoDevice
    ensures var o := Dispatch(Listen(c, cb), ButtonPressed(b));
      o.delivered == [Delivery(cb, None)] && !Listening(o.next) && o.next.candidate == NoButton
  {
    ListenAttachesOnce(c, cb);
  }

  /** Pressing and then releasing one non-cancel button binds that button alone. */
  lemma PressThenReleaseBinds<C>(c: Capture<C>, cb: C, b: Button)
    requires AtMostOnce(c) && Roles.IsCancelButton(b) == NoDevice
    ensures var o := Run(Listen(c, cb), [ButtonPressed(b), ButtonReleased(b)]);
      o.delivered == [Delivery(cb, Some(ButtonPair(b, NoButton)))] && !Listening(o.next) && o.next.candidate == NoButton
  {
    ListenAttachesOnce(c, cb);
    var l := Listen(c, cb);
    var e := [ButtonPressed(b), ButtonReleased(b)];
    var p := Dispatch(l, e[0]);
    assert p == Outcome(l.(candidate := b), []);
    var r := Dispatch(p.next, e[1]);
    assert e[1..] == [ButtonReleased(b)];
    assert Run(p.next, e[1..]) == Outcome(r.next, r.delivered + Run(r.next, []).delivered);
  }

  /** Releasing a button other than the candidate is ignored. */
  lemma ReleaseOfOtherButtonIgnored<C>(c: Capture<C>, b: Button)
    requires AtMostOnce(c) && c.candidate != b
    ensures Dispatch(c, ButtonReleased(b)) == Outcome(c, [])
  {
  }

  /** A pair press binds the pair at once and stops listening; the candidate survives. */
  lemma PairBindsAtOnce<C>(c: Capture<C>, cb: C, pair: ButtonPair)
    requires AtMostOnce(c)
    ensures var o := Dispatch(Listen(c, cb), PairPressed(pair));
      o.delivered == [Delivery(cb, Some(pair))] && !Listening(o.next) && o.next.candidate == c.candidate
  {
    ListenAttachesOnce(c, cb);
  }

  /** Neither a pair press nor Listen clears the candidate, so a capture that ended with a
      pair can leave one behind: the next capture then binds a button on its release alone,
      without seeing it pressed. */
  lemma CandidateOutlivesPairCapture<C>(c: Capture<C>, cb: C, cb': C, b: Button, pair: ButtonPair)
    requires AtMostOnce(c) && Roles.IsCancelButton(b) == NoDevice
    ensures var first := Run(Listen(c, cb), [ButtonPressed(b), PairPressed(pair)]);
      && first.delivered == [Delivery(cb, Some(pair))]
      && AtMostOnce(first.next)
      && Dispatch(Listen(first.next, cb'), ButtonReleased(b)).delivered == [Delivery(cb', Some(ButtonPair(b, NoButton)))]
  {
    ListenAttachesOnce(c, cb);
    var l := Listen(c, cb);
    var e := [ButtonPressed(b), PairPressed(pair)];
    var p := Dispatch(l, e[0]);
    assert p == Outcome(l.(candidate := b), []);
    var q := Dispatch(p.next, e[1]);
    assert q.next.candidate == b;
    assert e[1..] == [PairPressed(pair)];
    assert Run(p.next, e[1..]) == Outcome(q.next, q.delivered + Run(q.next, []).delivered);
    ListenAttachesOnce(q.next, cb');
  }

  /** The capture fields of the InputToolsAPI object. */
  class KeybindingCapture<C(==)> {
    var pressedHandlers: nat
    var releasedHandlers: nat
    var pairHandlers: nat
    var keyBindingCallback: Option<C>
    var keyBindingCandidate: Button

    function View(): Capture<C>
      reads this
    {
      Capture(pressedHandlers, releasedHandlers, pairHandlers, keyBindingCallback, keyBindingCandidate)
    }

    ghost predicate Valid()
      reads this
    {
      AtMostOnce(View())
    }

    constructor()
      ensures Valid() && View() == Capture(0, 0, 0, None, NoButton)
    {
      pressedHandlers, releasedHandlers, pairHandlers := 0, 0, 0;
      keyBindingCallback := None;
      keyBindingCandidate := NoButton;
    }

    method StopListeningForKeybinding()
      modifies this
      ensures View() == Stop(old(View()))
      ensures old(Valid()) ==> Valid() && !Listening(View())
    {
      pressedHandlers := Unsubscribe(pressedHandlers);
      releasedHandlers := Unsubscribe(releasedHandlers);
      pairHandlers := Unsubscribe(pairHandlers);
    }

    method ListenForKeybinding(cb: C)
      requires Valid()
      modifies this
      ensures View() == Listen(old(View()), cb)
      ensures Valid() && Listening(View())
    {
      StopListeningForKeybinding();
      pressedHandlers := pressedHandlers + 1;
      releasedHandlers := releasedHandlers + 1;
      pairHandlers := pairHandlers + 1;
      keyBindingCallback := Some(cb);
    }

    method KeyBindingSinglePressed(b: Button) returns (delivered: seq<Delivery<C>>)
      modifies this
      ensures SinglePressed(old(View()), b) == Outcome(View(), delivered)
    {
      if Roles.IsCancelButton(b) != NoDevice {
        StopListeningForKeybinding();
        delivered := Invoke(keyBindingCallback, None);
        keyBindingCandidate := NoButton;
        return;
      }
      keyBindingCandidate := b;
      delivered := [];
    }

    method KeyBindingSingleReleased(b: Button) returns (delivered: seq<Delivery<C>>)
      modifies this
      ensures SingleReleased(old(View()), b) == Outcome(View(), delivered)
    {
      delivered := [];
      if keyBindingCandidate == b {
        StopListeningForKeybinding();
        delivered := Invoke(keyBindingCallback, Some(ButtonPair(b, NoButton)));
        keyBindingCandidate := NoButton;
      }
    }

    method KeyBindingPairPressed(pair: ButtonPair) returns (delivered: seq<Delivery<C>>)
      modifies this
      ensures PairPressedHandler(old(View()), pair) == Outcome(View(), delivered)
    {
      StopListeningForKeybinding();
      delivered := Invoke(keyBindingCallback, Some(pair));
    }

    /** The Global layer raising an event to the subscribed handler, if any. */
    method Raise(e: Event) returns (delivered: seq<Delivery<C>>)
      requires Valid()
      modifies this
      ensures Dispatch(old(View()), e) == Outcome(View(), delivered)
      ensures Valid()
    {
      DispatchKeepsAtMostOnce(View(), e);
      if pressedHandlers == 0 {
        return [];
      }
      match e
      case ButtonPressed(b) => delivered := KeyBindingSinglePressed(b);
      case ButtonReleased(b) => delivered := KeyBindingSingleReleased(b);
      case PairPressed(pair) => delivered := KeyBindingPairPressed(pair);
    }
  }
}
