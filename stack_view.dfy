/** The value-level meaning of the layer registry of InputTools/ControlStack.cs and of
    the routing decisions of InputTools/InputLayer.cs.

    A `View` is what the registry holds at one moment: the ordered key list `layers`
    (bottom first, so the last key is the top of the stack), the dictionary from key to
    the layer's settings, and the settings of the Global layer, which sits above every
    keyed layer and has no key of its own. The classes in module Layers are proved
    against the functions of this module. */
module StackView {
  import opened InputTypes
  import opened Sequences

  /** The two settings of a layer: InputLayer.isActive and InputLayer.blockBehaviour. */
  datatype LayerInfo = LayerInfo(active: bool, block: BlockBehavior)

  datatype View<K(==,!new)> = View(layers: seq<K>, dict: map<K, LayerInfo>, global: LayerInfo)

  /** The registry is consistent: no key twice in the list, and the list and the
      dictionary hold the same keys. */
  predicate WellFormed<K(==,!new)>(v: View<K>) {
    && Distinct(v.layers)
    && (forall k :: k in v.dict ==> k in v.layers)
    && (forall k :: k in v.layers ==> k in v.dict)
  }

  // ----- Registry operations -----

  /** ControlStack.LayerCreate as written: the key is appended even when it is already
      in the list, and its dictionary entry is replaced. */
  function CreateLayerAsWritten<K(==,!new)>(v: View<K>, k: K, info: LayerInfo): View<K> {
    View(v.layers + [k], v.dict[k := info], v.global)
  }

  /** ControlStack.LayerCreate with the re-creation handled the way its warning asks
      for ("remove it first"): an existing occurrence of the key is removed before the
      key is appended. */
  function CreateLayer<K(==,!new)>(v: View<K>, k: K, info: LayerInfo): View<K> {
    View(RemoveFirst(v.layers, k) + [k], v.dict[k := info], v.global)
  }

  /** ControlStack.LayerRemove on a non-null key. */
  function RemoveLayer<K(==,!new)>(v: View<K>, k: K): View<K> {
    View(RemoveFirst(v.layers, k), v.dict - {k}, v.global)
  }

  /** ControlStack.MoveToTopOfStack on a non-null key. */
  function MoveLayerToTop<K(==,!new)>(v: View<K>, k: K): View<K> {
    if k !in v.layers then v
    else View(RemoveFirst(v.layers, k) + [k], v.dict, v.global)
  }

  /** Creating a layer as written grows the list by one, puts the key on top and stores
      its settings; a key created twice then stands in the list twice. */
  lemma CreateLayerAsWrittenSpec<K(!new)>(v: View<K>, k: K, info: LayerInfo)
    ensures var w := CreateLayerAsWritten(v, k, info);
      && |w.layers| == |v.layers| + 1
      && w.layers[|w.layers| - 1] == k
      && w.layers[..|v.layers|] == v.layers
      && w.dict[k] == info
      && (k in v.layers ==> !Distinct(w.layers))
  {
    var w := CreateLayerAsWritten(v, k, info);
    assert w.layers[..|v.layers|] == v.layers;
    if k in v.layers {
      var i :| 0 <= i < |v.layers| && v.layers[i] == k;
      assert w.layers[i] == w.layers[|v.layers|];
    }
  }

  /** Creating a layer keeps the registry consistent, puts the key on top, stores its
      settings, keeps the other keys in order and leaves their settings alone. */
  lemma CreateLayerSpec<K(!new)>(v: View<K>, k: K, info: LayerInfo)
    requires WellFormed(v)
    ensures var w := CreateLayer(v, k, info);
      && WellFormed(w)
      && w.layers[|w.layers| - 1] == k
      && |w.layers| == |v.layers| + (if k in v.layers then 0 else 1)
      && Without(w.layers, k) == Without(v.layers, k)
      && w.dict[k] == info
      && (forall x :: x in v.dict && x != k ==> x in w.dict && w.dict[x] == v.dict[x])
      && w.global == v.global
  {
    var r := RemoveFirst(v.layers, k);
    var w := View(r + [k], v.dict[k := info], v.global);
    assert CreateLayer(v, k, info) == w;
    RemoveFirstOfDistinct(v.layers, k);
    AppendFresh(r, k);
    RemoveFirstKeepsOthers(v.layers, k);
    WithoutAppend(r, [k], k);
    assert Without([k], k) == [] by {
      assert [k][1..] == [];
    }
  }

  /** Removing a layer keeps the registry consistent, drops the key from both the list
      and the dictionary, and keeps the other keys in order with their settings. */
  lemma RemoveLayerSpec<K(!new)>(v: View<K>, k: K)
    requires WellFormed(v)
    ensures var w := RemoveLayer(v, k);
      && WellFormed(w)
      && k !in w.layers && k !in w.dict
      && w.layers == Without(v.layers, k)
      && (forall x :: x in v.dict && x != k ==> x in w.dict && w.dict[x] == v.dict[x])
      && w.global == v.global
  {
    RemoveFirstOfDistinct(v.layers, k);
  }

  /** Moving a present key to the top keeps the registry consistent, keeps the length
      and the set of keys, and keeps the other keys in order; an absent key changes
      nothing. */
  lemma MoveLayerToTopSpec<K(!new)>(v: View<K>, k: K)
    requires WellFormed(v)
    ensures var w := MoveLayerToTop(v, k);
      && WellFormed(w)
      && w.dict == v.dict && w.global == v.global
      && |w.layers| == |v.layers|
      && multiset(w.layers) == multiset(v.layers)
      && Without(w.layers, k) == Without(v.layers, k)
      && (k in v.layers ==> w.layers[|w.layers| - 1] == k)
      && (k !in v.layers ==> w == v)
  {
    if k in v.layers {
      var r := RemoveFirst(v.layers, k);
      var w := View(r + [k], v.dict, v.global);
      assert MoveLayerToTop(v, k) == w;
      RemoveFirstOfDistinct(v.layers, k);
      AppendFresh(r, k);
      assert multiset(w.layers) == multiset(v.layers);
      RemoveFirstKeepsOthers(v.layers, k);
      WithoutAppend(r, [k], k);
      assert Without([k], k) == [] by {
        assert [k][1..] == [];
      }
    }
  }

  // ----- Reachability -----

  /** The layer at index `j` has a dictionary entry whose behaviour is Block. */
  predicate BlocksAt<K(==,!new)>(v: View<K>, j: int)
    requires 0 <= j < |v.layers|
  {
    v.layers[j] in v.dict && v.dict[v.layers[j]].block == Block
  }

  /** No layer above index `i` blocks. */
  predicate ClearAbove<K(==,!new)>(v: View<K>, i: int) {
    forall j :: 0 <= j < |v.layers| && i < j ==> !BlocksAt(v, j)
  }

  /** Reachability as the interface documents it: Global is reachable when it is
      active; a keyed layer when it exists, is active, Global does not block, and no
      layer above it blocks. The activity of the layers above is not consulted. */
  predicate Reachable<K(==,!new)>(v: View<K>, key: Option<K>) {
    match key
    case None => v.global.active
    case Some(k) =>
      && k in v.dict && v.dict[k].active && v.global.block != Block
      && exists i :: 0 <= i < |v.layers| && v.layers[i] == k && ClearAbove(v, i)
  }

  /** The result of running a piece of code: a returned value, or an exception. */
  datatype Outcome = Returned(value: bool) | Threw

  /** The loop of ControlStack.IsLayerReachableByInput over indices i, i-1, ..., 0. A
      list entry without a dictionary entry makes GetLayer return null, and reading
      its blockBehaviour throws. */
  function ScanDown<K(==,!new)>(v: View<K>, k: K, i: int): Outcome
    requires i < |v.layers|
    decreases i + 1
  {
    if i < 0 then Returned(false)
    else if v.layers[i] == k then Returned(true)
    else if v.layers[i] !in v.dict then Threw
    else if v.dict[v.layers[i]].block == Block then Returned(false)
    else ScanDown(v, k, i - 1)
  }

  /** ControlStack.IsLayerReachableByInput as written, null key being Global. */
  function ReachableAsWritten<K(==,!new)>(v: View<K>, key: Option<K>): Outcome {
    match key
    case None => Returned(v.global.active)
    case Some(k) =>
      if k !in v.dict || !v.dict[k].active then Returned(false)
      else if v.global.block == Block then Returned(false)
      else ScanDown(v, k, |v.layers| - 1)
  }

  /** Every list entry has a dictionary entry. */
  predicate Registered<K(==,!new)>(v: View<K>) {
    forall j :: 0 <= j < |v.layers| ==> v.layers[j] in v.dict
  }

  /** The scan from index `i` down finds `k` exactly when some occurrence of `k` at or
      below `i` has no blocking layer between it and `i`. */
  lemma {:induction false} ScanDownFinds<K(!new)>(v: View<K>, k: K, i: int)
    requires -1 <= i < |v.layers| && Registered(v)
    ensures ScanDown(v, k, i) == Returned(exists m :: 0 <= m <= i && v.layers[m] == k &&
                                                     forall j :: m < j <= i ==> !BlocksAt(v, j))
  {
    if 0 <= i && v.layers[i] != k {
      ScanDownFinds(v, k, i - 1);
      if BlocksAt(v, i) {
        forall m | 0 <= m <= i && v.layers[m] == k
          ensures exists j :: m < j <= i && BlocksAt(v, j)
        {
          assert m < i;
        }
      }
    }
  }

  /** On a registry whose every list entry is registered (in particular a well-formed
      one), the scan as written never throws and decides `Reachable`. */
  lemma ReachableAsWrittenAgrees<K(!new)>(v: View<K>, key: Option<K>)
    requires Registered(v)
    ensures ReachableAsWritten(v, key) == Returned(Reachable(v, key))
  {
    if key.Some? {
      ScanDownFinds(v, key.value, |v.layers| - 1);
    }
  }

  /** A layer that has just been moved to the top is reachable whenever it is active
      and Global does not block. */
  lemma MoveLayerToTopMakesReachable<K(!new)>(v: View<K>, k: K)
    requires WellFormed(v) && k in v.dict && v.dict[k].active && v.global.block != Block
    ensures Reachable(MoveLayerToTop(v, k), Some(k))
  {
    MoveLayerToTopSpec(v, k);
    var w := MoveLayerToTop(v, k);
    assert w.layers[|w.layers| - 1] == k && ClearAbove(w, |w.layers| - 1);
  }

  /** The registry after one layer's settings changed: Global's when `key` is None. */
  function WithLayerInfo<K(==,!new)>(v: View<K>, key: Option<K>, info: LayerInfo): View<K> {
    match key
    case None => v.(global := info)
    case Some(k) => v.(dict := v.dict[k := info])
  }

  /** Deactivating a layer makes it unreachable. */
  lemma DeactivatedIsUnreachable<K(!new)>(v: View<K>, key: Option<K>, block: BlockBehavior)
    ensures !Reachable(WithLayerInfo(v, key, LayerInfo(false, block)), key)
  {
  }

  /** Whether a keyed layer is active changes the reachability of no other layer: the
      scan looks only at the block behaviour of the layers above, so an inactive Block
      layer still blocks everything below it. */
  lemma ActivityIsLocal<K(!new)>(v: View<K>, k: K, active: bool, other: Option<K>)
    requires k in v.dict && other != Some(k)
    ensures Reachable(WithLayerInfo(v, Some(k), LayerInfo(active, v.dict[k].block)), other) == Reachable(v, other)
  {
    var w := WithLayerInfo(v, Some(k), LayerInfo(active, v.dict[k].block));
    assert forall j :: 0 <= j < |v.layers| ==> BlocksAt(w, j) == BlocksAt(v, j);
    if other.Some? {
      assert forall i :: ClearAbove(w, i) == ClearAbove(v, i);
    }
  }

  // ----- Where an event goes next -----

  /** The layer GetLayer returns for the top of the list, if any. */
  function TopLayer<K(==,!new)>(v: View<K>): (r: Option<K>)
    ensures r.Some? ==> r.value in v.dict && |v.layers| > 0 && r.value == v.layers[|v.layers| - 1]
    ensures r.None? ==> |v.layers| == 0 || v.layers[|v.layers| - 1] !in v.dict
  {
    if |v.layers| > 0 && v.layers[|v.layers| - 1] in v.dict then Some(v.layers[|v.layers| - 1]) else None
  }

  /** The registered layer just below the last occurrence of `k`, if any. */
  function KeyBelow<K(==,!new)>(v: View<K>, k: K): (r: Option<K>)
    ensures r.Some? ==> r.value in v.dict
  {
    var i := LastIndexOf(v.layers, k);
    if i > 0 && v.layers[i - 1] in v.dict then Some(v.layers[i - 1]) else None
  }

  /** InputLayer.GetLayerBelow: from Global, the top layer unless Global blocks and
      blocks count; from a keyed layer, the layer below it if blocks are ignored or the
      layer passes input below. Global is never the answer. */
  function LayerBelow<K(==,!new)>(v: View<K>, isGlobal: bool, self: Option<K>, selfBlock: BlockBehavior, stop: bool): (r: Option<K>)
    ensures r.Some? ==> r.value in v.dict
    ensures isGlobal && stop && v.global.block == Block ==> r.None?
    ensures !isGlobal && stop && selfBlock != PassBelow ==> r.None?
  {
    if isGlobal then
      if stop && v.global.block == Block then None else TopLayer(v)
    else if stop && selfBlock != PassBelow then None
    else if self.None? then None
    else KeyBelow(v, self.value)
  }

  /** InputStack.GetStackBelow, the variant of the later revision: Global always hands
      on to the top stack, and an inactive stack passes input below as well. */
  function StackBelow<K(==,!new)>(v: View<K>, isGlobal: bool, self: Option<K>, selfActive: bool, selfBlock: BlockBehavior, stop: bool): (r: Option<K>)
    ensures r.Some? ==> r.value in v.dict
    ensures !isGlobal && stop && selfActive && selfBlock != PassBelow ==> r.None?
  {
    if isGlobal then TopLayer(v)
    else if stop && selfActive && selfBlock != PassBelow then None
    else if self.None? then None
    else KeyBelow(v, self.value)
  }

  /** The two variants agree whenever blocks are ignored, and otherwise differ exactly
      when Global blocks over a non-empty stack, or an inactive layer that does not
      pass below has a layer under it. Whenever the older variant hands on, the newer
      one hands on to the same layer. */
  lemma BelowVariantsDiffer<K(!new)>(v: View<K>, isGlobal: bool, self: Option<K>, selfActive: bool, selfBlock: BlockBehavior, stop: bool)
    ensures !stop ==> LayerBelow(v, isGlobal, self, selfBlock, stop) == StackBelow(v, isGlobal, self, selfActive, selfBlock, stop)
    ensures LayerBelow(v, isGlobal, self, selfBlock, stop).Some? ==>
      LayerBelow(v, isGlobal, self, selfBlock, stop) == StackBelow(v, isGlobal, self, selfActive, selfBlock, stop)
    ensures LayerBelow(v, isGlobal, self, selfBlock, stop) != StackBelow(v, isGlobal, self, selfActive, selfBlock, stop) <==>
      || (isGlobal && stop && v.global.block == Block && TopLayer(v).Some?)
      || (!isGlobal && stop && !selfActive && selfBlock != PassBelow && self.Some? && KeyBelow(v, self.value).Some?)
  {
  }

  /** On a well-formed registry, the layer below a keyed layer is the one just under
      it in the list: routing moves strictly down, one position at a time. */
  lemma LayerBelowDescends<K(!new)>(v: View<K>, k: K, selfBlock: BlockBehavior, stop: bool)
    requires WellFormed(v) && k in v.layers
    ensures var r := LayerBelow(v, false, Some(k), selfBlock, stop);
      r.Some? ==> IndexOf(v.layers, r.value) == IndexOf(v.layers, k) - 1
  {
    var i := LastIndexOf(v.layers, k);
    DistinctIndex(v.layers, i);
    if i > 0 {
      DistinctIndex(v.layers, i - 1);
    }
  }

  // ----- The event cascade -----

  /** Every layer from index `m + 1` up to `pos` exists and passes input below. */
  predicate PassesDown<K(==,!new)>(v: View<K>, m: int, pos: int)
    requires pos < |v.layers|
  {
    forall j :: 0 <= j <= pos && m < j ==> v.layers[j] in v.dict && v.dict[v.layers[j]].block == PassBelow
  }

  /** The keys whose subscribers an event reaches when it enters the layer at index
      `pos` of a well-formed registry, in the order they are invoked: each On* handler
      invokes its own subscribers when its layer is reachable, then hands the event to
      the layer below if it passes input below. */
  function CascadeFrom<K(==,!new)>(v: View<K>, pos: int): (r: seq<K>)
    requires -1 <= pos < |v.layers|
    ensures |r| <= pos + 1
    ensures forall i :: 0 <= i < |r| ==> Reachable(v, Some(r[i]))
    decreases pos + 1
  {
    if pos < 0 || v.layers[pos] !in v.dict then []
    else
      (if Reachable(v, Some(v.layers[pos])) then [v.layers[pos]] else [])
      + (if v.dict[v.layers[pos]].block == PassBelow then CascadeFrom(v, pos - 1) else [])
  }

  function Lift<K>(s: seq<K>): (r: seq<Option<K>>)
    ensures |r| == |s| && forall i :: 0 <= i < |s| ==> r[i] == Some(s[i])
  {
    seq(|s|, i requires 0 <= i < |s| => Some(s[i]))
  }

  lemma LiftAppend<K>(a: seq<K>, b: seq<K>)
    ensures Lift(a + b) == Lift(a) + Lift(b)
  {
  }

  /** The senders of one event raised on Global: Global itself when it is reachable,
      then the layers the downward walk reaches, unless Global blocks. `None` stands
      for Global, whose key is null. */
  function Cascade<K(==,!new)>(v: View<K>): (r: seq<Option<K>>)
    ensures forall i :: 0 <= i < |r| ==> Reachable(v, r[i])
    ensures v.global.block == Block ==> |r| <= 1
  {
    (if Reachable(v, None) then [None] else [])
    + (if v.global.block == Block || |v.layers| == 0 then [] else Lift(CascadeFrom(v, |v.layers| - 1)))
  }

  /** One step of the cascade from a keyed layer: its own subscribers when it is
      reachable, then the cascade from the layer LayerBelow names, which is the one
      just under it in the list. */
  lemma CascadeFromUnfold<K(!new)>(v: View<K>, pos: int)
    requires WellFormed(v) && 0 <= pos < |v.layers|
    ensures var k := v.layers[pos];
      var below := LayerBelow(v, false, Some(k), v.dict[k].block, true);
      && (below.Some? ==> 0 < pos && below.value == v.layers[pos - 1] && IndexOf(v.layers, below.value) == pos - 1)
      && CascadeFrom(v, pos) == (if Reachable(v, Some(k)) then [k] else [])
                                + (if below.Some? then CascadeFrom(v, pos - 1) else [])
  {
    DistinctIndex(v.layers, pos);
    if 0 < pos {
      DistinctIndex(v.layers, pos - 1);
    }
  }

  /** One step of the cascade from Global: Global's own subscribers when it is
      reachable, then the cascade from the top of the list, which is the layer
      LayerBelow names for Global. */
  lemma CascadeUnfold<K(!new)>(v: View<K>)
    requires WellFormed(v)
    ensures var below := LayerBelow(v, true, None, v.global.block, true);
      && (below.Some? ==> 0 < |v.layers| && IndexOf(v.layers, below.value) == |v.layers| - 1)
      && Cascade(v) == (if Reachable(v, None) then [None] else [])
                       + (if below.Some? then Lift(CascadeFrom(v, |v.layers| - 1)) else [])
  {
    if 0 < |v.layers| {
      DistinctIndex(v.layers, |v.layers| - 1);
    }
  }

  /** The senders of one event raised on layer `self`: the cascade from Global for
      the null key, the cascade from the key's position otherwise. */
  function Route<K(==,!new)>(v: View<K>, self: Option<K>): (r: seq<Option<K>>)
    ensures forall i :: 0 <= i < |r| ==> Reachable(v, r[i])
  {
    if self.None? then Cascade(v)
    else if self.value in v.layers then Lift(CascadeFrom(v, IndexOf(v.layers, self.value)))
    else []
  }

  /** One step of an On* handler: the layer's own subscribers when it is reachable,
      then the senders of the same event raised on the layer LayerBelow names. */
  lemma RouteStep<K(!new)>(v: View<K>, self: Option<K>, selfBlock: BlockBehavior, reachable: bool, rest: seq<Option<K>>)
    requires WellFormed(v)
    requires self.Some? ==> self.value in v.dict && v.dict[self.value].block == selfBlock
    requires self.None? ==> v.global.block == selfBlock
    requires reachable == Reachable(v, self)
    requires var below := LayerBelow(v, self.None?, self, selfBlock, true);
      && (below.Some? ==> rest == Route(v, below))
      && (below.None? ==> rest == [])
    ensures Route(v, self) == (if reachable then [self] else []) + rest
  {
    if self.Some? {
      var k := self.value;
      var p := IndexOf(v.layers, k);
      CascadeFromUnfold(v, p);
      var own := if reachable then [k] else [];
      assert Lift(own) == if reachable then [self] else [];
      if LayerBelow(v, false, self, selfBlock, true).Some? {
        LiftAppend(own, CascadeFrom(v, p - 1));
      }
    } else {
      CascadeUnfold(v);
    }
  }

  /** A key receives the event entering at `pos` exactly when it sits at or below
      `pos`, is reachable, and every layer between it and `pos` passes input below. */
  lemma {:induction false} CascadeFromMembers<K(!new)>(v: View<K>, pos: int, x: K)
    requires -1 <= pos < |v.layers|
    ensures x in CascadeFrom(v, pos) <==>
      Reachable(v, Some(x)) && exists m :: 0 <= m <= pos && v.layers[m] == x && PassesDown(v, m, pos)
  {
    if 0 <= pos && v.layers[pos] in v.dict {
      if v.dict[v.layers[pos]].block == PassBelow {
        CascadeFromMembers(v, pos - 1, x);
        if Reachable(v, Some(x)) && x != v.layers[pos] {
          forall m | 0 <= m <= pos && v.layers[m] == x && PassesDown(v, m, pos)
            ensures PassesDown(v, m, pos - 1)
          {
          }
          forall m | 0 <= m <= pos - 1 && v.layers[m] == x && PassesDown(v, m, pos - 1)
            ensures PassesDown(v, m, pos)
          {
          }
        }
      } else {
        if Reachable(v, Some(x)) && x != v.layers[pos] {
          forall m | 0 <= m <= pos && v.layers[m] == x
            ensures !PassesDown(v, m, pos)
          {
            assert m < pos;
          }
        }
      }
    } else if 0 <= pos {
      forall m | 0 <= m < pos ensures !PassesDown(v, m, pos) {
        assert v.layers[pos] !in v.dict;
      }
    }
  }

  /** Above a layer that nothing blocks, a stack without BlockBehavior.None layers
      consists of layers that pass input below. */
  lemma ClearAbovePassesDown<K(!new)>(v: View<K>, i: int)
    requires Registered(v) && 0 <= i < |v.layers| && ClearAbove(v, i)
    requires forall x :: x in v.dict ==> v.dict[x].block != NoBehavior
    ensures PassesDown(v, i, |v.layers| - 1)
  {
    forall j | 0 <= j < |v.layers| && i < j
      ensures v.layers[j] in v.dict && v.dict[v.layers[j]].block == PassBelow
    {
      assert !BlocksAt(v, j);
    }
  }

  lemma LiftMember<K>(s: seq<K>, x: K)
    ensures x in s <==> Some(x) in Lift(s)
  {
    if x in s {
      var n :| 0 <= n < |s| && s[n] == x;
      assert Lift(s)[n] == Some(x);
    }
  }

  /** When every layer either blocks or passes below, an event raised on Global reaches
      exactly the reachable layers. */
  lemma CascadeComplete<K(!new)>(v: View<K>, k: K)
    requires WellFormed(v)
    requires forall x :: x in v.dict ==> v.dict[x].block != NoBehavior
    ensures Some(k) in Cascade(v) <==> Reachable(v, Some(k))
  {
    DistinctPairs(v.layers);
    if Reachable(v, Some(k)) {
      var i :| 0 <= i < |v.layers| && v.layers[i] == k && ClearAbove(v, i);
      var top := |v.layers| - 1;
      ClearAbovePassesDown(v, i);
      CascadeFromMembers(v, top, k);
      var cs := CascadeFrom(v, top);
      LiftMember(cs, k);
      var pre: seq<Option<K>> := if Reachable(v, None) then [None] else [];
      assert Cascade(v) == pre + Lift(cs);
    }
  }

  /** A layer without a block behaviour (BlockBehavior.None) lets reachability through
      but stops the cascade: with layer 2 above layer 1, layer 1 is reachable and yet
      an event raised on Global never reaches it. */
  lemma CascadeStopsAtNoBehavior()
    ensures var v := View([1, 2], map[1 := LayerInfo(true, PassBelow), 2 := LayerInfo(true, NoBehavior)],
                          LayerInfo(true, NoBehavior));
      Reachable(v, Some(1)) && Some(1) !in Cascade(v)
  {
    var v := View([1, 2], map[1 := LayerInfo(true, PassBelow), 2 := LayerInfo(true, NoBehavior)],
                  LayerInfo(true, NoBehavior));
    assert ClearAbove(v, 0) by {
      assert !BlocksAt(v, 1);
    }
    assert Reachable(v, Some(2)) by {
      assert ClearAbove(v, 1);
    }
    assert CascadeFrom(v, 1) == [2];
    assert Cascade(v) == [None, Some(2)];
  }

  // ----- Creating a key twice, as written -----

  /** Creating key 1, then 2, then 1 again, all passing input below, leaves key 1 both
      under and over key 2, so the layer below 1 is 2 and the layer below 2 is 1:
      routing an event down from either of them never ends. */
  lemma CreateTwiceMakesCycle()
    ensures
      var p := LayerInfo(true, PassBelow);
      var v := CreateLayerAsWritten(CreateLayerAsWritten(CreateLayerAsWritten(
                 View([], map[], LayerInfo(true, NoBehavior)), 1, p), 2, p), 1, p);
      && LayerBelow(v, false, Some(1), PassBelow, true) == Some(2)
      && LayerBelow(v, false, Some(2), PassBelow, true) == Some(1)
  {
    var p := LayerInfo(true, PassBelow);
    var v := CreateLayerAsWritten(CreateLayerAsWritten(CreateLayerAsWritten(
               View([], map[], LayerInfo(true, NoBehavior)), 1, p), 2, p), 1, p);
    assert v.layers == [1, 2, 1];
    assert LastIndexOf(v.layers, 1) == 2;
    assert LastIndexOf(v.layers, 2) == 1 by {
      assert v.layers[..2] == [1, 2];
    }
  }

  lemma RemoveDuplicatedKey(b: LayerInfo, g: LayerInfo)
    ensures RemoveLayer(View([1, 2, 2], map[1 := b, 2 := b], g), 2) == View([1, 2], map[1 := b], g)
  {
    assert IndexOf([1, 2, 2], 2) == 1 by {
      assert [1, 2, 2][1..] == [2, 2];
    }
    assert RemoveFirst([1, 2, 2], 2) == [1, 2];
    assert map[1 := b, 2 := b] - {2} == map[1 := b];
  }

  /** Creating key 1, then key 2 twice, then removing 2, leaves 2 in the list without a
      dictionary entry. */
  lemma CreateTwiceThenRemoveView(b: LayerInfo, g: LayerInfo)
    ensures RemoveLayer(CreateLayerAsWritten(CreateLayerAsWritten(CreateLayerAsWritten(
              View([], map[], g), 1, b), 2, b), 2, b), 2)
            == View([1, 2], map[1 := b], g)
  {
    var v3 := CreateLayerAsWritten(CreateLayerAsWritten(CreateLayerAsWritten(
                View([], map[], g), 1, b), 2, b), 2, b);
    assert v3.layers == [1, 2, 2];
    assert v3.dict == map[1 := b, 2 := b];
    assert v3 == View([1, 2, 2], map[1 := b, 2 := b], g);
    RemoveDuplicatedKey(b, g);
  }

  /** After creating key 1, then key 2 twice, then removing 2, asking whether 1 is
      reachable reads the settings of the missing layer 2 and throws. */
  lemma CreateTwiceThenRemoveThrows()
    ensures
      var b := LayerInfo(true, Block);
      var v := RemoveLayer(CreateLayerAsWritten(CreateLayerAsWritten(CreateLayerAsWritten(
                 View([], map[], LayerInfo(true, NoBehavior)), 1, b), 2, b), 2, b), 2);
      ReachableAsWritten(v, Some(1)) == Threw
  {
    var b := LayerInfo(true, Block);
    var g := LayerInfo(true, NoBehavior);
    CreateTwiceThenRemoveView(b, g);
    var v := View([1, 2], map[1 := b], g);
    assert ScanDown(v, 1, 1) == Threw;
  }

  /** The corrected creation keeps any sequence of creations, removals and moves
      well-formed, so the list never holds a key twice and never a key without a
      dictionary entry: the scan never throws and the walk down always ends. */
  lemma CreateKeepsScanTotal<K(!new)>(v: View<K>, k: K, info: LayerInfo, key: Option<K>)
    requires WellFormed(v)
    ensures ReachableAsWritten(CreateLayer(v, k, info), key).Returned?
  {
    CreateLayerSpec(v, k, info);
    ReachableAsWrittenAgrees(CreateLayer(v, k, info), key);
  }
}
