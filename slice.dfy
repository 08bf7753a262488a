/** The client's animation store: its state, the thunk bodies that compute a
    new document from a snapshot of that state, and the reducers that
    install results and set single fields. */
module AnimationSlice {
  import opened Document
  import JsArray

  /** `currentLayer`: typed `number | null` but also handed layer objects, so
      it is `null`, a number, or a layer object (possibly `undefined`). */
  datatype Current = NoLayer | LayerNumber(n: real) | LayerObject(layer: Layer)

  /** JavaScript truthiness of `currentLayer`. */
  predicate IsTruthy(c: Current)
  {
    match c
    case NoLayer => false
    case LayerNumber(n) => n != 0.0
    case LayerObject(l) => l.Layer?
  }

  /** The store's `animation` state. `selectedLayerIndex` starts out
      `undefined`, which every reader treats as `null`. */
  datatype State = State(
    animationID: string,
    animationName: string,
    currentAnimation: Option<Animation>,
    currentFrame: real,
    currentLayer: Current,
    loadThrough: string,
    selectedLayerIndex: Option<int>)

  const Initial: State := State("", "", None, 0.0, NoLayer, "", None)

  /** `currentAnimation?.layers || []`. */
  function LayersOf(d: Option<Animation>): seq<Layer>
  {
    if d.Some? then d.value.layers else []
  }

  /** The body of the `addLayer` thunk: the document with `layer` appended;
      spreading a `null` document gives an object with `layers` alone. */
  function AddLayer(s: State, layer: Layer): (r: Animation)
    ensures r.layers == LayersOf(s.currentAnimation) + [layer]
    ensures s.currentAnimation.Some? ==> SameMetadata(r, s.currentAnimation.value)
    ensures s.currentAnimation.None? ==> r == Animation(None, None, None, None, [layer])
  {
    match s.currentAnimation
    case None => Animation(None, None, None, None, [layer])
    case Some(a) => a.(layers := a.layers + [layer])
  }

  /** The selection rule applied when the layer at position `removed` goes. */
  function SelectionAfterRemoval(selected: Option<int>, removed: int): Option<int>
  {
    if selected == Some(removed) then None
    else if selected.Some? && selected.value > removed then Some(selected.value - 1)
    else selected
  }

  /** The selection keeps pointing at the same layer: it is cleared exactly
      when the selected layer itself is removed, and otherwise names, in the
      shorter list, the layer that was selected before. */
  lemma SelectionFollowsLayer(layers: seq<Layer>, selected: int, removed: int)
    requires 0 <= selected < |layers| && 0 <= removed < |layers|
    ensures SelectionAfterRemoval(Some(selected), removed).None? <==> selected == removed
    ensures selected != removed ==>
      var r := SelectionAfterRemoval(Some(selected), removed).value;
      var rest := JsArray.DropIndex(layers, removed);
      0 <= r < |rest| && rest[r] == layers[selected]
  {
    JsArray.DropIndexRemovesOne(layers, removed);
  }

  /** What the `removeLayer` thunk computes: the new document and the
      selection it dispatches through `selectLayer`. */
  datatype Removal = Removal(animation: Animation, selection: Option<int>)

  /** The body of the `removeLayer` thunk: filter out position `layerIndex`
      and adjust the selection; a `null` document throws. */
  function RemoveLayer(s: State, layerIndex: int): (r: Outcome<Removal>)
    ensures r.TypeError? <==> s.currentAnimation.None?
    ensures r.Done? ==>
      var a := s.currentAnimation.value;
      && SameMetadata(r.value.animation, a)
      && r.value.animation.layers == (if 0 <= layerIndex < |a.layers| then a.layers[..layerIndex] + a.layers[layerIndex + 1..] else a.layers)
      && r.value.selection == SelectionAfterRemoval(s.selectedLayerIndex, layerIndex)
  {
    match s.currentAnimation
    case None => TypeError
    case Some(a) =>
      JsArray.DropIndexRemovesOne(a.layers, layerIndex);
      Done(Removal(a.(layers := JsArray.DropIndex(a.layers, layerIndex)), SelectionAfterRemoval(s.selectedLayerIndex, layerIndex)))
  }

  /** Removing the layer just appended gives back the layers there were. */
  lemma RemoveUndoesAdd(s: State, layer: Layer)
    ensures var added := s.(currentAnimation := Some(AddLayer(s, layer)));
      var r := RemoveLayer(added, |LayersOf(s.currentAnimation)|);
      r.Done? && r.value.animation.layers == LayersOf(s.currentAnimation)
  {
    var before := LayersOf(s.currentAnimation);
    assert (before + [layer])[..|before|] == before;
  }

  /** The body of the `reorderLayers` thunk: copy the layers and move the
      element at `sourceIndex` to `destinationIndex` with two splices. */
  method ReorderLayers(s: State, sourceIndex: int, destinationIndex: int) returns (r: Outcome<Animation>)
    ensures r.TypeError? <==> s.currentAnimation.None?
    ensures r.Done? ==> SameMetadata(r.value, s.currentAnimation.value)
    ensures r.Done? ==> r.value.layers == JsArray.Move(s.currentAnimation.value.layers, Some(sourceIndex), Some(destinationIndex), Undefined)
    ensures r.Done? ==>
      var l := s.currentAnimation.value.layers;
      0 <= sourceIndex < |l| && 0 <= destinationIndex < |l| ==>
        && |r.value.layers| == |l|
        && r.value.layers[destinationIndex] == l[sourceIndex]
        && multiset(r.value.layers) == multiset(l)
  {
    if s.currentAnimation.None? {
      return TypeError;
    }
    var a := s.currentAnimation.value;
    var newLayers := a.layers;
    var split := JsArray.SpliceOut(newLayers, Some(sourceIndex), Undefined);
    var removed := split.1;
    newLayers := split.0;
    newLayers := JsArray.SpliceIn(newLayers, Some(destinationIndex), removed);
    if 0 <= sourceIndex < |a.layers| && 0 <= destinationIndex < |a.layers| {
      JsArray.MoveInRange(a.layers, sourceIndex, destinationIndex, Undefined);
    }
    r := Done(a.(layers := newLayers));
  }

  /** The body of the `updateKeyframeValue` thunk: `$set` the `s` of one
      keyframe. The update reads through `layers[layerIndex]`, the channel and
      `k[keyframeIndex]`, and throws when any of them is not there. */
  function UpdateKeyframeValue(s: State, layerIndex: int, keyframeIndex: int, newValue: Value, propertyName: string): (r: Outcome<Animation>)
    ensures r.Done? <==>
      && s.currentAnimation.Some?
      && ChannelPath(s.currentAnimation.value, layerIndex, propertyName).Some?
      && KeyframeAt(s.currentAnimation.value, layerIndex, ChannelPath(s.currentAnimation.value, layerIndex, propertyName).value, keyframeIndex).Some?
    ensures r.Done? ==>
      var a := s.currentAnimation.value;
      ChangesOnlyKeyframeValue(a, r.value, layerIndex, ChannelPath(a, layerIndex, propertyName).value, keyframeIndex, newValue)
  {
    if s.currentAnimation.None? then TypeError
    else
      var a := s.currentAnimation.value;
      match ChannelPath(a, layerIndex, propertyName)
      case None => TypeError
      case Some(e) =>
        if KeyframeAt(a, layerIndex, e, keyframeIndex).Some?
        then Done(SetKeyframeValue(a, layerIndex, e, keyframeIndex, newValue))
        else TypeError
  }

  /** The arguments `updateLayerProperty` is dispatched with. */
  datatype LayerPropertyArgs = LayerPropertyArgs(
    layerIndex: Option<int>,
    propertyName: string,
    newValue: Value,
    index: Option<int>,
    currentFrame: Option<real>)

  /** A `newValue` stored as a channel's `k`. */
  function AsK(v: Value): K
  {
    match v
    case Unset => Missing
    case Scalar(x) => Constant(x)
    case Vector(xs) => Components(xs)
  }

  /** The value of `k && typeof k[0] === ...`: a falsy `k` itself, or a boolean. */
  datatype GuardValue = FalsyK(k: K) | Bool(b: bool)

  function Guard(k: K, firstIsObject: bool): GuardValue
  {
    if k.Missing? || k == Constant(0.0) then FalsyK(k)
    else if firstIsObject then Bool(k.Track? && |k.kfs| > 0)
    else Bool(k.Components? && |k.v| > 0)
  }

  /** `Array.isArray(g)`. */
  predicate IsArray(g: GuardValue)
  {
    g.FalsyK? && (g.k.Components? || g.k.Track?)
  }

  /** The `$apply` callback of `updateLayerProperty`. Its two guards pass a
      falsy `k` or a boolean to `Array.isArray`, never an array, so the
      array branches cannot run and `k` becomes `newValue` whatever it held. */
  function ApplyK(k: K, newValue: Value): (r: K)
    ensures r == AsK(newValue)
    ensures !IsArray(Guard(k, false)) && !IsArray(Guard(k, true))
  {
    if IsArray(Guard(k, false)) || IsArray(Guard(k, true)) then k
    else AsK(newValue)
  }

  /** The body of the `updateLayerProperty` thunk. */
  function UpdateLayerProperty(s: State, args: LayerPropertyArgs): (r: Outcome<Animation>)
    ensures r.Done? <==>
      && s.currentAnimation.Some?
      && args.layerIndex.Some?
      && ChannelPath(s.currentAnimation.value, args.layerIndex.value, args.propertyName).Some?
    ensures r.Done? ==>
      var a := s.currentAnimation.value;
      var i := args.layerIndex.value;
      ChangesOnlyProp(a, r.value, i, ChannelPath(a, i, args.propertyName).value, Prop(AsK(args.newValue)))
  {
    if s.currentAnimation.None? || args.layerIndex.None? then TypeError
    else
      var a := s.currentAnimation.value;
      var i := args.layerIndex.value;
      match ChannelPath(a, i, args.propertyName)
      case None => TypeError
      case Some(e) => Done(SetProp(a, i, e, Prop(ApplyK(PropAt(a, i, e).value.k, args.newValue))))
  }

  /** The state after `reorderLayers.fulfilled`: the store's own layers are
      spliced again with the `sourceIndex` and `destinationIndex` that the
      returned document carries; its `layers` are not read. */
  function ReorderFulfilled(s: State, payload: Animation): (r: State)
    ensures r == s.(currentAnimation := r.currentAnimation)
    ensures r.currentAnimation.Some? <==> s.currentAnimation.Some?
    ensures r.currentAnimation.Some? ==> SameMetadata(r.currentAnimation.value, s.currentAnimation.value)
  {
    match s.currentAnimation
    case None => s
    case Some(a) => s.(currentAnimation := Some(a.(layers := JsArray.Move(a.layers, payload.sourceIndex, payload.destinationIndex, Undefined))))
  }

  /** The fulfilled case ignores the thunk's reordering: for any result that
      copies the document's other keys, it re-splices the store's layers with
      the document's own `sourceIndex` and `destinationIndex` keys. */
  lemma ReorderFulfilledIgnoresResult(s: State, payload: Animation)
    requires s.currentAnimation.Some? && SameMetadata(payload, s.currentAnimation.value)
    ensures var a := s.currentAnimation.value;
      ReorderFulfilled(s, payload).currentAnimation == Some(a.(layers := JsArray.Move(a.layers, a.sourceIndex, a.destinationIndex, Undefined)))
  {
  }

  /** A document without `sourceIndex` and `destinationIndex` keys (the usual
      case) keeps its layers through a whole `reorderLayers` dispatch when it
      has any, and gains an `undefined` layer when it has none. */
  lemma ReorderWithoutIndexKeys(s: State, payload: Animation)
    requires s.currentAnimation.Some? && SameMetadata(payload, s.currentAnimation.value)
    requires s.currentAnimation.value.sourceIndex.None? && s.currentAnimation.value.destinationIndex.None?
    ensures var a := s.currentAnimation.value;
      var after := ReorderFulfilled(s, payload).currentAnimation.value.layers;
      && (|a.layers| > 0 ==> after == a.layers)
      && (|a.layers| == 0 ==> after == [Undefined])
  {
    JsArray.MoveUndefinedPositions(s.currentAnimation.value.layers, Undefined);
  }

  /** The property the editor relies on and does not get: the thunk moves
      layer 2 of four to the front, and the store ends with the old order. */
  lemma ReorderExample(s: State, l0: Layer, l1: Layer, l2: Layer, l3: Layer)
    requires s.currentAnimation == Some(Animation(None, None, None, None, [l0, l1, l2, l3]))
    ensures JsArray.Move([l0, l1, l2, l3], Some(2), Some(0), Undefined) == [l2, l0, l1, l3]
    ensures var payload := s.currentAnimation.value.(layers := [l2, l0, l1, l3]);
      ReorderFulfilled(s, payload).currentAnimation.value.layers == [l0, l1, l2, l3]
  {
    JsArray.MoveExample(l0, l1, l2, l3, Undefined);
    JsArray.MoveUndefinedPositions([l0, l1, l2, l3], Undefined);
  }

  /** The Redux store, as the reducers and thunks update it. */
  class Store {
    var animationID: string
    var animationName: string
    var currentAnimation: Option<Animation>
    var currentFrame: real
    var currentLayer: Current
    var loadThrough: string
    var selectedLayerIndex: Option<int>

    /** What `getState().animation` returns. */
    function Snapshot(): State
      reads this
    {
      State(animationID, animationName, currentAnimation, currentFrame, currentLayer, loadThrough, selectedLayerIndex)
    }

    constructor ()
      ensures Snapshot() == Initial
    {
      animationID, animationName, currentAnimation := "", "", None;
      currentFrame, currentLayer, loadThrough, selectedLayerIndex := 0.0, NoLayer, "", None;
    }

    method SetAnimation(a: Animation)
      modifies this
      ensures Snapshot() == old(Snapshot()).(currentAnimation := Some(a))
    {
      currentAnimation := Some(a);
    }

    method SetAnimationID(id: string)
      modifies this
      ensures Snapshot() == old(Snapshot()).(animationID := id)
    {
      animationID := id;
    }

    method SetAnimationName(name: string)
      modifies this
      ensures Snapshot() == old(Snapshot()).(animationName := name)
    {
      animationName := name;
    }

    method UpdateCurrentLayer(c: Current)
      modifies this
      ensures Snapshot() == old(Snapshot()).(currentLayer := c)
    {
      currentLayer := c;
    }

    method SelectLayer(selection: Option<int>)
      modifies this
      ensures Snapshot() == old(Snapshot()).(selectedLayerIndex := selection)
    {
      selectedLayerIndex := selection;
    }

    method UpdateScrubberPosition(frame: real)
      modifies this
      ensures Snapshot() == old(Snapshot()).(currentFrame := frame)
    {
      currentFrame := frame;
    }

    method UpdateLoadThrough(through: string)
      modifies this
      ensures Snapshot() == old(Snapshot()).(loadThrough := through)
    {
      loadThrough := through;
    }

    /** `reorderLayers.fulfilled`, splicing the store's layer array in place. */
    method ReorderLayersFulfilled(payload: Animation)
      modifies this
      ensures Snapshot() == ReorderFulfilled(old(Snapshot()), payload)
    {
      if currentAnimation.Some? {
        var newLayers := currentAnimation.value.layers;
        var split := JsArray.SpliceOut(newLayers, payload.sourceIndex, Undefined);
        var removed := split.1;
        newLayers := split.0;
        newLayers := JsArray.SpliceIn(newLayers, payload.destinationIndex, removed);
        currentAnimation := Some(currentAnimation.value.(layers := newLayers));
      }
    }

    /** `dispatch(addLayer(layer))`: the thunk body, then the fulfilled case
      installing its result. */
    method DispatchAddLayer(layer: Layer)
      modifies this
      ensures Snapshot() == old(Snapshot()).(currentAnimation := Some(AddLayer(old(Snapshot()), layer)))
      ensures currentAnimation.value.layers == LayersOf(old(currentAnimation)) + [layer]
    {
      var r := AddLayer(Snapshot(), layer);
      SetAnimation(r);
    }

    /** `dispatch(removeLayer(layerIndex))`: the thunk dispatches the adjusted
      selection, then the fulfilled case installs the new document; a thunk
      that throws changes nothing. */
    method DispatchRemoveLayer(layerIndex: int) returns (r: Outcome<Removal>)
      modifies this
      ensures r == RemoveLayer(old(Snapshot()), layerIndex)
      ensures r.TypeError? ==> Snapshot() == old(Snapshot())
      ensures r.Done? ==> Snapshot() == old(Snapshot()).(selectedLayerIndex := r.value.selection, currentAnimation := Some(r.value.animation))
    {
      r := RemoveLayer(Snapshot(), layerIndex);
      if r.Done? {
        SelectLayer(r.value.selection);
        SetAnimation(r.value.animation);
      }
    }

    /** `dispatch(reorderLayers({sourceIndex, destinationIndex}))`: the store
      ends with its layers re-spliced by the document's own index keys, not
      with the thunk's result. */
    method DispatchReorderLayers(sourceIndex: int, destinationIndex: int) returns (r: Outcome<Animation>)
      modifies this
      ensures r.TypeError? <==> old(currentAnimation).None?
      ensures r.TypeError? ==> Snapshot() == old(Snapshot())
      ensures r.Done? ==> Snapshot() == ReorderFulfilled(old(Snapshot()), r.value)
      ensures r.Done? ==>
        var a := old(currentAnimation).value;
        currentAnimation == Some(a.(layers := JsArray.Move(a.layers, a.sourceIndex, a.destinationIndex, Undefined)))
    {
      r := ReorderLayers(Snapshot(), sourceIndex, destinationIndex);
      if r.Done? {
        ReorderLayersFulfilled(r.value);
      }
    }

    /** `dispatch(updateKeyframeValue(...))`. */
    method DispatchUpdateKeyframeValue(layerIndex: int, keyframeIndex: int, newValue: Value, propertyName: string)
      returns (r: Outcome<Animation>)
      modifies this
      ensures r == UpdateKeyframeValue(old(Snapshot()), layerIndex, keyframeIndex, newValue, propertyName)
      ensures Snapshot() == if r.Done? then old(Snapshot()).(currentAnimation := Some(r.value)) else old(Snapshot())
    {
      r := UpdateKeyframeValue(Snapshot(), layerIndex, keyframeIndex, newValue, propertyName);
      if r.Done? {
        SetAnimation(r.value);
      }
    }

    /** `dispatch(updateLayerProperty(args))`. */
    method DispatchUpdateLayerProperty(args: LayerPropertyArgs) returns (r: Outcome<Animation>)
      modifies this
      ensures r == UpdateLayerProperty(old(Snapshot()), args)
      ensures Snapshot() == if r.Done? then old(Snapshot()).(currentAnimation := Some(r.value)) else old(Snapshot())
    {
      r := UpdateLayerProperty(Snapshot(), args);
      if r.Done? {
        SetAnimation(r.value);
      }
    }
  }
}
