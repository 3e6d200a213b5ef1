/** The layer registry (InputTools/ControlStack.cs) and the layers it holds
    (InputTools/InputLayer.cs) as objects whose fields the operations update in place.

    Every public operation is proved against the value-level meaning in module
    StackView: `ControlStack.View()` reads the registry's current state as a
    `StackView.View`. Layer keys are an abstract type with equality; the C# null key is
    `None`, and it names the Global layer, which the registry holds in `global`. */
module Layers {
  import opened InputTypes
  import opened StackView
  import opened Sequences
  import opened Queries

  /** The settings of every registered layer. */
  ghost function Infos<K(!new)>(d: map<K, InputLayer<K>>): (m: map<K, LayerInfo>)
    reads d.Values
    ensures m.Keys == d.Keys
  {
    map k | k in d :: d[k].Info()
  }

  lemma InfosUpdate<K(!new)>(d: map<K, InputLayer<K>>, k: K, layer: InputLayer<K>)
    ensures Infos(d[k := layer]) == Infos(d)[k := layer.Info()]
  {
  }

  lemma InfosRemove<K(!new)>(d: map<K, InputLayer<K>>, k: K)
    ensures Infos(d - {k}) == Infos(d) - {k}
  {
  }

  /** The two revisions gate Global differently. In InputLayer.cs, Global's On* handlers
      and button queries go through the registry, so a deactivated Global neither
      receives its own events nor sees any button. In the nested stack class of
      InputToolsAPI.cs, Global fires and answers whatever the registry says, so
      deactivating it silences nothing; keyed stacks are gated alike in both. */
  lemma GlobalGatesDiffer<K(!new)>(v: View<K>, states: ButtonStates, p: Phase, b: Button)
    ensures None in Cascade(v) <==> v.global.active
    ensures ButtonQuery(Reachable(v, None), states, p, b) <==> v.global.active && states(b) == StateOf(p)
    ensures NestedFires(true, Reachable(v, None))
    ensures NestedButtonQuery(false, Reachable(v, None), states, p, b) <==> states(b) == StateOf(p)
    ensures forall k :: NestedFires(false, Reachable(v, Some(k))) == Reachable(v, Some(k))
    ensures forall k :: NestedButtonQuery(true, Reachable(v, Some(k)), states, p, b) == ButtonQuery(Reachable(v, Some(k)), states, p, b)
  {
    var below := if v.global.block == Block || |v.layers| == 0 then [] else Lift(CascadeFrom(v, |v.layers| - 1));
    assert forall i :: 0 <= i < |below| ==> below[i].Some?;
    assert Cascade(v) == (if Reachable(v, None) then [None] else []) + below;
  }

  class ControlStack<K(==,!new)> {
    /** The key list, bottom first (ControlStack.layers). */
    var layers: seq<K>
    /** ControlStack.layerDict. */
    var layerDict: map<K, InputLayer<K>>
    /** The Global layer (InputToolsAPI._Global), whose key is null. */
    var global: InputLayer?<K>

    /** The registry invariant: Global exists and has the null key, every registered
        layer belongs to this registry under its own key, and the list holds each
        registered key exactly once. */
    ghost predicate Valid()
      reads this, global
    {
      && global != null && global.stack == this && global.layerKey.None?
      && (forall k :: k in layerDict ==> layerDict[k].stack == this && layerDict[k].layerKey == Some(k))
      && Distinct(layers)
      && (forall k :: k in layerDict ==> k in layers)
      && (forall k :: k in layers ==> k in layerDict)
    }

    /** The registry's state as a value. */
    ghost function View(): (v: View<K>)
      reads this, global, layerDict.Values
      ensures v.layers == layers && v.dict.Keys == layerDict.Keys
    {
      StackView.View(layers, Infos(layerDict),
                     if global == null then LayerInfo(true, NoBehavior) else global.Info())
    }

    /** The registry invariant makes the registry's value well-formed. */
    lemma ViewWellFormed()
      requires Valid()
      ensures WellFormed(View())
    {
    }

    /** An empty registry with a fresh, active Global layer of no block behaviour. */
    constructor ()
      ensures Valid() && fresh(global)
      ensures View() == StackView.View([], map[], LayerInfo(true, NoBehavior))
    {
      layers := [];
      layerDict := map[];
      global := null;
      new;
      global := new InputLayer(this, None);
    }

    /** ControlStack.GetLayer: Global for the null key, the registered layer for a
        known key, null for an unknown one. */
    function GetLayer(key: Option<K>): (r: InputLayer?<K>)
      reads this, global
      requires Valid()
      ensures key.None? ==> r == global
      ensures key.Some? ==> (r != null <==> key.value in layers)
      ensures r != null ==> r.layerKey == key && r.stack == this
    {
      if key.None? then global
      else if key.value in layerDict then layerDict[key.value]
      else null
    }

    /** ControlStack.LayerCreate. A null key creates nothing and returns null. A
        non-null key gets a fresh layer with the given settings on top of the stack;
        a key that is already registered is first taken out of the list, so the list
        never holds it twice. */
    method LayerCreate(key: Option<K>, startActive: bool, block: BlockBehavior) returns (r: InputLayer?<K>)
      requires Valid()
      modifies this
      ensures Valid() && global == old(global)
      ensures key.None? ==> r == null && View() == old(View())
      ensures key.Some? ==> r != null && fresh(r) && key.value in layerDict && layerDict[key.value] == r
      ensures key.Some? ==> View() == CreateLayer(old(View()), key.value, LayerInfo(startActive, block))
    {
      if key.None? {
        return null;
      }
      var k := key.value;
      r := new InputLayer.WithSettings(this, key, startActive, block);
      Register(k, r);
    }

    /** The two assignments of LayerCreate once the new layer exists: the key goes on
        top of the list and the dictionary maps it to the layer. */
    method Register(k: K, r: InputLayer<K>)
      requires Valid() && r.stack == this && r.layerKey == Some(k)
      modifies this
      ensures Valid() && global == old(global)
      ensures layerDict == old(layerDict)[k := r]
      ensures View() == CreateLayer(old(View()), k, r.Info())
    {
      ghost var v := View();
      ghost var d0 := layerDict;
      layers := RemoveFirst(layers, k) + [k];
      layerDict := layerDict[k := r];
      assert View() == CreateLayer(v, k, r.Info()) by {
        assert Infos(d0) == v.dict;
        InfosUpdate(d0, k, r);
        assert View() == StackView.View(RemoveFirst(v.layers, k) + [k], v.dict[k := r.Info()], v.global);
      }
      assert Valid() by {
        forall x | x in layerDict ensures layerDict[x].stack == this && layerDict[x].layerKey == Some(x) {
          if x != k {
            assert layerDict[x] == d0[x];
          }
        }
        RemoveFirstOfDistinct(v.layers, k);
        AppendFresh(RemoveFirst(v.layers, k), k);
      }
    }

    /** ControlStack.LayerRemove: the null key is ignored; otherwise the key leaves the
        list and the dictionary. */
    method LayerRemove(key: Option<K>)
      requires Valid()
      modifies this
      ensures Valid() && global == old(global)
      ensures key.None? ==> View() == old(View())
      ensures key.Some? ==> View() == RemoveLayer(old(View()), key.value)
    {
      if key.None? {
        return;
      }
      var k := key.value;
      ghost var v := View();
      if k in layers {
        layers := RemoveFirst(layers, k);
      }
      if k in layerDict {
        layerDict := layerDict - {k};
      }
      assert Infos(layerDict) == v.dict - {k} by {
        forall x | x in layerDict ensures layerDict[x].Info() == v.dict[x] {
          assert layerDict[x] == old(layerDict[x]);
        }
      }
      assert View() == StackView.View(RemoveFirst(v.layers, k), v.dict - {k}, v.global);
      RemoveFirstOfDistinct(v.layers, k);
    }

    /** ControlStack.MoveToTopOfStack: a null or unknown key changes nothing; a known
        key is taken out of the list and appended. */
    method MoveToTopOfStack(key: Option<K>)
      requires Valid()
      modifies this
      ensures Valid() && global == old(global) && layerDict == old(layerDict)
      ensures key.None? ==> View() == old(View())
      ensures key.Some? ==> View() == MoveLayerToTop(old(View()), key.value)
    {
      if key.None? {
        return;
      }
      var k := key.value;
      ghost var v := View();
      if k !in layers {
        return;
      }
      layers := RemoveFirst(layers, k);
      layers := layers + [k];
      assert View() == StackView.View(RemoveFirst(v.layers, k) + [k], v.dict, v.global);
      RemoveFirstOfDistinct(v.layers, k);
      AppendFresh(RemoveFirst(v.layers, k), k);
    }

    /** ControlStack.IsLayerReachableByInput: scans the list from the top down,
        succeeding at the key and giving up at the first layer that blocks. */
    method IsLayerReachableByInput(key: Option<K>) returns (r: bool)
      requires Valid()
      ensures r == Reachable(View(), key)
    {
      ghost var v := View();
      var layer := GetLayer(key);
      if layer == null || !layer.isActive {
        return false;
      }
      if key.None? {
        return layer.isActive;
      }
      var k := key.value;
      if global.blockBehaviour == Block {
        return false;
      }
      var i := |layers| - 1;
      while i >= 0
        invariant -1 <= i < |layers|
        invariant forall j :: i < j < |layers| ==> layers[j] != k && !BlocksAt(v, j)
      {
        if k == layers[i] {
          assert ClearAbove(v, i);
          return true;
        }
        var layerI := GetLayer(Some(layers[i]));
        if layerI.blockBehaviour == Block {
          // The C# breaks out of the loop here and then returns false: every
          // occurrence of k lies below this blocking layer.
          forall m | 0 <= m < |layers| && layers[m] == k ensures !ClearAbove(v, m) {
            assert m < i && BlocksAt(v, i);
          }
          return false;
        }
        i := i - 1;
      }
      return false;
    }
  }

  class InputLayer<K(==,!new)> {
    /** InputLayer.isActive. */
    var isActive: bool
    /** InputLayer.blockBehaviour. */
    var blockBehaviour: BlockBehavior
    /** InputLayer.layerKey; None for Global. */
    const layerKey: Option<K>
    /** The registry the layer routes through (InputLayer.inputTools.stack). */
    const stack: ControlStack<K>

    /** A new layer is active and has no block behaviour (the C# field defaults). */
    constructor (stack: ControlStack<K>, layerKey: Option<K>)
      ensures this.stack == stack && this.layerKey == layerKey
      ensures isActive && blockBehaviour == NoBehavior
    {
      this.stack := stack;
      this.layerKey := layerKey;
      isActive := true;
      blockBehaviour := NoBehavior;
    }

    /** A layer with the given settings (the object initializer of LayerCreate). */
    constructor WithSettings(stack: ControlStack<K>, layerKey: Option<K>, isActive: bool, blockBehaviour: BlockBehavior)
      ensures this.stack == stack && this.layerKey == layerKey
      ensures this.isActive == isActive && this.blockBehaviour == blockBehaviour
    {
      this.stack := stack;
      this.layerKey := layerKey;
      this.isActive := isActive;
      this.blockBehaviour := blockBehaviour;
    }

    function Info(): LayerInfo
      reads this
    {
      LayerInfo(isActive, blockBehaviour)
    }

    /** This layer is Global, or is the layer the registry holds under its key. */
    ghost predicate InStack()
      reads this, stack, stack.global
    {
      && stack.Valid()
      && (if layerKey.None? then stack.global == this
          else layerKey.value in stack.layerDict && stack.layerDict[layerKey.value] == this)
    }

    /** A handle a mod may hold on to: the registry is consistent and only Global has
        the null key. The layer may since have been removed from the registry, or
        replaced by a newer layer under the same key; the C# methods accept such a
        handle and act through its key. */
    ghost predicate Handle()
      reads this, stack, stack.global
    {
      stack.Valid() && (layerKey.None? ==> stack.global == this)
    }

    /** A handle that is not the registered layer under its key is not reachable from
        the registry at all: it is neither Global nor any registered layer. */
    lemma Detached()
      requires Handle() && !InStack()
      ensures this != stack.global && this !in stack.layerDict.Values
    {
      forall k | k in stack.layerDict ensures stack.layerDict[k] != this {
      }
    }

    /** InputLayer.SetLayerActive: only this object's activity changes. For the
        registered layer the registry now holds the new setting; for a removed or
        replaced handle the registry is unchanged. */
    method SetLayerActive(active: bool)
      requires Handle()
      modifies this
      ensures isActive == active && blockBehaviour == old(blockBehaviour)
      ensures Handle() && InStack() == old(InStack())
      ensures old(InStack()) ==> stack.View() == WithLayerInfo(old(stack.View()), layerKey, Info())
      ensures !old(InStack()) ==> stack.View() == old(stack.View())
    {
      ghost var v := stack.View();
      ghost var registered := InStack();
      if !registered {
        Detached();
      }
      isActive := active;
      if layerKey.Some? && registered {
        assert stack.View().dict == v.dict[layerKey.value := Info()];
      }
    }

    /** InputLayer.SetLayerBlockBehaviour: only this object's block behaviour changes,
        with the same effect on the registry as SetLayerActive. */
    method SetLayerBlockBehaviour(block: BlockBehavior)
      requires Handle()
      modifies this
      ensures blockBehaviour == block && isActive == old(isActive)
      ensures Handle() && InStack() == old(InStack())
      ensures old(InStack()) ==> stack.View() == WithLayerInfo(old(stack.View()), layerKey, Info())
      ensures !old(InStack()) ==> stack.View() == old(stack.View())
    {
      ghost var v := stack.View();
      ghost var registered := InStack();
      if !registered {
        Detached();
      }
      blockBehaviour := block;
      if layerKey.Some? && registered {
        assert stack.View().dict == v.dict[layerKey.value := Info()];
      }
    }

    /** InputLayer.GetLayerBelow: the layer an event goes to after this one. */
    method GetLayerBelow(stopAtBlock: bool) returns (r: InputLayer?<K>)
      requires Handle()
      ensures var below := LayerBelow(stack.View(), layerKey.None?, layerKey, blockBehaviour, stopAtBlock);
        && (r == null <==> below.None?)
        && (r != null ==> below.value in stack.layerDict && r == stack.layerDict[below.value])
        && (r != null ==> r.stack == stack && r.layerKey == below)
    {
      if this == stack.global {
        if stopAtBlock && stack.global.blockBehaviour == Block {
          return null;
        }
        if |stack.layers| > 0 {
          r := stack.GetLayer(Some(stack.layers[|stack.layers| - 1]));
          return;
        }
      } else if !stopAtBlock || blockBehaviour == PassBelow {
        var k := layerKey.value;
        var i := |stack.layers| - 1;
        while i >= 0
          invariant -1 <= i < |stack.layers|
          invariant forall j :: i < j < |stack.layers| && 0 < j ==> stack.layers[j] != k
        {
          if stack.layers[i] == k && i > 0 {
            r := stack.GetLayer(Some(stack.layers[i - 1]));
            return;
          }
          i := i - 1;
        }
      }
      return null;
    }

    /** The position of this layer's key, or one above the top for Global: the walk
        down the stack makes it smaller at every step. */
    ghost function Rank(): int
      reads this, stack
    {
      if layerKey.None? then |stack.layers| + 1 else IndexOf(stack.layers, layerKey.value) + 1
    }

    /** Every InputLayer.On* handler: this layer's subscribers are invoked when the
        layer is reachable, then the event is handed to the layer below. The result
        lists, in order, the keys whose subscribers were invoked (None for Global). */
    method OnEvent() returns (senders: seq<Option<K>>)
      requires InStack()
      ensures senders == Route(stack.View(), layerKey)
      decreases Rank()
    {
      ghost var v := stack.View();
      stack.ViewWellFormed();
      var reachable := stack.IsLayerReachableByInput(layerKey);
      var below := GetLayerBelow(true);
      assert stack.View() == v;
      var rest := [];
      if below != null {
        if layerKey.Some? {
          LayerBelowDescends(v, layerKey.value, blockBehaviour, true);
        } else {
          DistinctIndex(v.layers, |v.layers| - 1);
        }
        rest := below.OnEvent();
      }
      senders := (if reachable then [layerKey] else []) + rest;
      assert layerKey.Some? ==> v.dict[layerKey.value] == Info();
      RouteStep(v, layerKey, blockBehaviour, reachable, rest);
    }

    // ----- Pull queries -----

    /** InputLayer.IsButtonPressed / Held / Released: the registry is asked whether
        this layer is reachable, and only then is the button's state consulted. */
    method IsButton(states: ButtonStates, p: Phase, b: Button) returns (r: bool)
      requires Handle()
      ensures r == ButtonQuery(Reachable(stack.View(), layerKey), states, p, b)
      ensures layerKey.Some? && layerKey.value !in stack.layerDict ==> !r
    {
      var reachable := stack.IsLayerReachableByInput(layerKey);
      if !reachable {
        return false;
      }
      return states(b) == StateOf(p);
    }

    /** InputLayer.IsAnyOfTheButtonsPressed / Held / Released: the loop over the list,
        returning the first button in the queried state. */
    method IsAnyOfTheButtons(buttons: seq<Button>, states: ButtonStates, p: Phase) returns (r: Button)
      requires Handle()
      ensures r == AnyOfTheButtons(buttons, Reachable(stack.View(), layerKey), states, p)
    {
      ghost var matches := ButtonMatcher(Reachable(stack.View(), layerKey), states, p);
      var i := 0;
      while i < |buttons|
        invariant 0 <= i <= |buttons|
        invariant forall j :: 0 <= j < i ==> !matches(buttons[j])
      {
        var hit := IsButton(states, p, buttons[i]);
        if hit {
          FirstIndexAt(buttons, matches, i);
          return buttons[i];
        }
        i := i + 1;
      }
      return NoButton;
    }

    /** InputLayer.IsActionPressed / Held / Released: None for a null or blank id,
        otherwise the first of the action's key pairs the pair query accepts. `pairs`
        is what the action registry lists for `id`. Nothing changes during the loop,
        so the registry is asked once whether the layer is reachable. */
    method IsAction(id: Option<string>, pairs: seq<ButtonPair>, states: ButtonStates, f: PairFrame, p: Phase)
      returns (r: Option<ButtonPair>)
      requires Handle()
      ensures r == ActionQuery(id, pairs, Reachable(stack.View(), layerKey), states, f, p)
    {
      if IsNullOrWhiteSpace(id) {
        return None;
      }
      var reachable := stack.IsLayerReachableByInput(layerKey);
      ghost var matches := PairMatcher(reachable, states, f, p);
      var i := 0;
      while i < |pairs|
        invariant 0 <= i <= |pairs|
        invariant forall j :: 0 <= j < i ==> !matches(pairs[j])
      {
        if PairQuery(reachable, states, f, p, pairs[i]) {
          FirstIndexAt(pairs, matches, i);
          return Some(pairs[i]);
        }
        i := i + 1;
      }
      return None;
    }

    /** InputLayer.MoveToTopOfStack: Global stays where it is; a keyed handle moves
        its key to the top of the stack, still below Global, whichever layer is now
        registered under that key. */
    method MoveToTopOfStack()
      requires Handle()
      modifies stack
      ensures stack.Valid()
      ensures layerKey.None? ==> stack.View() == old(stack.View())
      ensures layerKey.Some? ==> stack.View() == MoveLayerToTop(old(stack.View()), layerKey.value)
    {
      if layerKey.None? || this == stack.global {
        return;
      }
      stack.MoveToTopOfStack(layerKey);
    }

    /** InputLayer.IsLayerReachableByInput: Global always answers true, whatever its
        own settings; a keyed layer asks the registry. */
    method IsLayerReachableByInput() returns (r: bool)
      requires Handle()
      ensures r == (layerKey.None? || Reachable(stack.View(), layerKey))
      ensures layerKey.Some? && layerKey.value !in stack.layerDict ==> !r
    {
      if this == stack.global {
        return true;
      }
      if layerKey.None? {
        return false;
      }
      r := stack.IsLayerReachableByInput(layerKey);
    }

    /** InputLayer.RemoveSelf: Global cannot be removed; a keyed handle removes its key
        from the registry, together with whichever layer is now registered under it. */
    method RemoveSelf()
      requires Handle()
      modifies stack
      ensures stack.Valid()
      ensures layerKey.None? ==> stack.View() == old(stack.View())
      ensures layerKey.Some? ==> stack.View() == RemoveLayer(old(stack.View()), layerKey.value)
    {
      if layerKey.None? || this == stack.global {
        return;
      }
      stack.LayerRemove(layerKey);
    }
  }
}
