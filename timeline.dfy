/** The timeline: deleting and dragging layers, the scan that picks the
    layer active at the current frame, the keyframe markers it draws, and
    the scrubber's pixel-to-frame arithmetic. The selected position is the
    editor's own state, handed in and set through a callback. */
module Timeline {
  import opened Document
  import opened AnimationSlice
  import opened PropertiesPanel
  import JsArray

  /** What a handler does, in order: set the editor's selected position, or
      dispatch one of the store's actions. */
  datatype Action =
    | SetSelectedLayerIndex(selection: Option<int>)
    | DispatchUpdateCurrentLayer(current: Current)
    | DispatchRemoveLayer(index: int)
    | DispatchSetAnimation(animation: Animation)

  /** The editor's selected position after the actions have run. */
  function SelectionAfter(selected: Option<int>, actions: seq<Action>): Option<int>
  {
    if |actions| == 0 then selected
    else
      var last := actions[|actions| - 1];
      if last.SetSelectedLayerIndex? then last.selection else SelectionAfter(selected, actions[..|actions| - 1])
  }

  /** The store's `currentLayer` after the actions have run. */
  function CurrentAfter(current: Current, actions: seq<Action>): Current
  {
    if |actions| == 0 then current
    else
      var last := actions[|actions| - 1];
      if last.DispatchUpdateCurrentLayer? then last.current else CurrentAfter(current, actions[..|actions| - 1])
  }

  /** `handleDeleteLayer(index)`, with the selected position and the
      document as they were when the handler was created. */
  function HandleDeleteLayer(index: int, selected: Option<int>, doc: Option<Animation>): (r: seq<Action>)
    ensures SelectionAfter(selected, r) == SelectionAfterRemoval(selected, index)
    ensures forall j :: 0 <= j < |r| && r[j].DispatchRemoveLayer? ==> r[j].index == index
    ensures |set j | 0 <= j < |r| && r[j].DispatchRemoveLayer?| == 1
    ensures forall c ::
              CurrentAfter(c, r) ==
                if selected.Some? && doc.Some? && JsArray.At(doc.value.layers, selected.value, Undefined).Layer?
                then LayerObject(doc.value.layers[selected.value])
                else if selected.Some? && selected.value > index then LayerNumber((selected.value - 1) as real)
                else c
  {
    var r := DeleteAdjust(index, selected) + [DispatchRemoveLayer(index)] + DeleteRefresh(selected, doc);
    DeleteActionsEffect(index, selected, doc);
    r
  }

  /** The selection branches of `handleDeleteLayer`. */
  function DeleteAdjust(index: int, selected: Option<int>): seq<Action>
  {
    if selected == Some(index) then [SetSelectedLayerIndex(None)]
    else if selected.Some? && selected.value > index then
      [SetSelectedLayerIndex(Some(selected.value - 1)), DispatchUpdateCurrentLayer(LayerNumber((selected.value - 1) as real))]
    else []
  }

  /** The refresh after `removeLayer`: the layer at the old selected
      position of the old document, when that is a layer object. */
  function DeleteRefresh(selected: Option<int>, doc: Option<Animation>): seq<Action>
  {
    if selected.Some? && doc.Some? && JsArray.At(doc.value.layers, selected.value, Undefined).Layer?
    then [DispatchUpdateCurrentLayer(LayerObject(doc.value.layers[selected.value]))]
    else []
  }

  lemma DeleteActionsEffect(index: int, selected: Option<int>, doc: Option<Animation>)
    ensures var r := DeleteAdjust(index, selected) + [DispatchRemoveLayer(index)] + DeleteRefresh(selected, doc);
      && SelectionAfter(selected, r) == SelectionAfterRemoval(selected, index)
      && (forall j :: 0 <= j < |r| && r[j].DispatchRemoveLayer? ==> r[j].index == index)
      && |set j | 0 <= j < |r| && r[j].DispatchRemoveLayer?| == 1
      && forall c ::
           CurrentAfter(c, r) ==
             if selected.Some? && doc.Some? && JsArray.At(doc.value.layers, selected.value, Undefined).Layer?
             then LayerObject(doc.value.layers[selected.value])
             else if selected.Some? && selected.value > index then LayerNumber((selected.value - 1) as real)
             else c
  {
    DeleteSelectionEffect(index, selected, doc);
    DeleteRemovesOnce(index, selected, doc);
    forall c ensures CurrentAfter(c, DeleteAdjust(index, selected) + [DispatchRemoveLayer(index)] + DeleteRefresh(selected, doc)) ==
             if selected.Some? && doc.Some? && JsArray.At(doc.value.layers, selected.value, Undefined).Layer?
             then LayerObject(doc.value.layers[selected.value])
             else if selected.Some? && selected.value > index then LayerNumber((selected.value - 1) as real)
             else c
    {
      DeleteCurrentEffect(index, selected, doc, c);
    }
  }

  lemma DeleteSelectionEffect(index: int, selected: Option<int>, doc: Option<Animation>)
    ensures SelectionAfter(selected, DeleteAdjust(index, selected) + [DispatchRemoveLayer(index)] + DeleteRefresh(selected, doc))
      == SelectionAfterRemoval(selected, index)
  {
    var adjust, refresh := DeleteAdjust(index, selected), DeleteRefresh(selected, doc);
    var r := adjust + [DispatchRemoveLayer(index)] + refresh;
    assert r == adjust + ([DispatchRemoveLayer(index)] + refresh);
    AfterIgnoresOthers(selected, adjust, [DispatchRemoveLayer(index)] + refresh);
    if |adjust| == 2 {
      assert adjust[..1] == [adjust[0]];
      assert adjust[..1][..0] == [];
    } else if |adjust| == 1 {
      assert adjust[..0] == [];
    }
  }

  lemma DeleteRemovesOnce(index: int, selected: Option<int>, doc: Option<Animation>)
    ensures var r := DeleteAdjust(index, selected) + [DispatchRemoveLayer(index)] + DeleteRefresh(selected, doc);
      && (forall j :: 0 <= j < |r| && r[j].DispatchRemoveLayer? ==> r[j].index == index)
      && |set j | 0 <= j < |r| && r[j].DispatchRemoveLayer?| == 1
  {
    var adjust, refresh := DeleteAdjust(index, selected), DeleteRefresh(selected, doc);
    var r := adjust + [DispatchRemoveLayer(index)] + refresh;
    assert forall j :: 0 <= j < |adjust| ==> !adjust[j].DispatchRemoveLayer?;
    assert forall j :: 0 <= j < |refresh| ==> !refresh[j].DispatchRemoveLayer?;
    assert forall j :: 0 <= j < |r| && j != |adjust| ==> !r[j].DispatchRemoveLayer?;
    assert (set j | 0 <= j < |r| && r[j].DispatchRemoveLayer?) == {|adjust|};
  }

  lemma DeleteCurrentEffect(index: int, selected: Option<int>, doc: Option<Animation>, c: Current)
    ensures CurrentAfter(c, DeleteAdjust(index, selected) + [DispatchRemoveLayer(index)] + DeleteRefresh(selected, doc)) ==
             if selected.Some? && doc.Some? && JsArray.At(doc.value.layers, selected.value, Undefined).Layer?
             then LayerObject(doc.value.layers[selected.value])
             else if selected.Some? && selected.value > index then LayerNumber((selected.value - 1) as real)
             else c
  {
    var adjust, refresh := DeleteAdjust(index, selected), DeleteRefresh(selected, doc);
    var r := adjust + [DispatchRemoveLayer(index)] + refresh;
    if refresh == [] {
      assert r == adjust + [DispatchRemoveLayer(index)];
      assert r[..|r| - 1] == adjust;
      assert CurrentAfter(c, r) == CurrentAfter(c, adjust);
      if |adjust| == 1 {
        assert adjust == [SetSelectedLayerIndex(None)] && selected == Some(index);
        assert adjust[..0] == [];
        assert CurrentAfter(c, adjust) == CurrentAfter(c, []);
      }
    } else {
      assert r[|r| - 1] == refresh[0];
    }
  }

  /** Actions that set no selected position leave it as it was. */
  lemma {:induction false} AfterIgnoresOthers(selected: Option<int>, a: seq<Action>, b: seq<Action>)
    requires forall j :: 0 <= j < |b| ==> !b[j].SetSelectedLayerIndex?
    ensures SelectionAfter(selected, a + b) == SelectionAfter(selected, a)
    decreases |b|
  {
    if |b| > 0 {
      assert (a + b)[..|a + b| - 1] == a + b[..|b| - 1];
      AfterIgnoresOthers(selected, a, b[..|b| - 1]);
    } else {
      assert a + b == a;
    }
  }

  /** Deleting the selected layer leaves that removed layer as the store's
      current layer, since the refresh reads the document from before the
      deletion at the old selected position. */
  lemma DeleteSelectedKeepsRemovedLayer(index: nat, doc: Animation, c: Current)
    requires index < |doc.layers| && doc.layers[index].Layer?
    ensures SelectionAfter(Some(index), HandleDeleteLayer(index, Some(index), Some(doc))) == None
    ensures CurrentAfter(c, HandleDeleteLayer(index, Some(index), Some(doc))) == LayerObject(doc.layers[index])
  {
  }

  /** The editor's selected position and the store's selection move the
      same way on a delete, and both keep naming the selected layer. */
  lemma DeleteAgreesWithStore(index: int, selected: Option<int>, doc: Option<Animation>, s: State)
    requires s.currentAnimation.Some? && s.selectedLayerIndex == selected
    ensures var r := RemoveLayer(s, index);
      r.Done? && r.value.selection == SelectionAfter(selected, HandleDeleteLayer(index, selected, doc))
  {
  }

  /** A drop as the drag-and-drop library reports it. */
  datatype DropResult = DropResult(sourceIndex: int, destination: Option<int>)

  /** `handleOnDragEnd(result)`: without a destination nothing happens;
      otherwise the layers are copied and the copy reordered with two
      `splice` calls, the store is handed the document as it was, and the
      current layer becomes the copy's element at the selected position. */
  method HandleOnDragEnd(result: DropResult, doc: Option<Animation>, selected: Option<int>)
    returns (r: Outcome<seq<Action>>, items: seq<Layer>)
    ensures result.destination.None? ==> r == Done([])
    ensures result.destination.Some? && doc.None? ==> r.TypeError?
    ensures result.destination.Some? && doc.Some? ==>
      && items == JsArray.Move(doc.value.layers, Some(result.sourceIndex), result.destination, Undefined)
      && r.Done? && |r.value| >= 1
      && r.value[0] == DispatchSetAnimation(doc.value)
      && (selected.None? ==> |r.value| == 1)
      && (selected.Some? ==> r.value == [DispatchSetAnimation(doc.value), DispatchUpdateCurrentLayer(LayerObject(JsArray.At(items, selected.value, Undefined)))])
    ensures result.destination.Some? && doc.Some? ==>
      var l := doc.value.layers;
      0 <= result.sourceIndex < |l| && 0 <= result.destination.value < |l| ==>
        |items| == |l| && items[result.destination.value] == l[result.sourceIndex] && multiset(items) == multiset(l)
  {
    items := [];
    if result.destination.None? {
      return Done([]), items;
    }
    if doc.None? {
      return TypeError, items;
    }
    items := doc.value.layers;
    var split := JsArray.SpliceOut(items, Some(result.sourceIndex), Undefined);
    var reordered := split.1;
    items := split.0;
    items := JsArray.SpliceIn(items, result.destination, reordered);
    var actions := [DispatchSetAnimation(doc.value)];
    if selected.Some? {
      actions := actions + [DispatchUpdateCurrentLayer(LayerObject(JsArray.At(items, selected.value, Undefined)))];
    }
    var l := doc.value.layers;
    if 0 <= result.sourceIndex < |l| && 0 <= result.destination.value < |l| {
      JsArray.MoveInRange(l, result.sourceIndex, result.destination.value, Undefined);
    }
    r := Done(actions);
  }

  /** A layer is shown at `frame` when `ip <= frame <= op`. */
  predicate ActiveAt(l: Layer, frame: real)
    requires l.Layer?
  {
    l.ip <= frame && l.op >= frame
  }

  /** How the active-layer scan ends: it does not run (no document or a
      falsy current layer), it selects position `i`, it selects nothing, or
      it throws reading `ip` of the `undefined` at position `at`. */
  datatype ScanResult = NotRun | Selected(i: nat) | NoneActive | ScanThrew(at: nat)

  /** The scan from the top of the layer stack down, as the effect that
      runs when the frame or the document changes does it. */
  method ActiveLayerScan(doc: Option<Animation>, current: Current, frame: real) returns (r: ScanResult)
    ensures r.NotRun? <==> !(doc.Some? && IsTruthy(current))
    ensures r.Selected? ==>
      && r.i < |doc.value.layers| && doc.value.layers[r.i].Layer? && ActiveAt(doc.value.layers[r.i], frame)
      && forall j :: r.i < j < |doc.value.layers| ==> doc.value.layers[j].Layer? && !ActiveAt(doc.value.layers[j], frame)
    ensures r.NoneActive? ==>
      forall j :: 0 <= j < |doc.value.layers| ==> doc.value.layers[j].Layer? && !ActiveAt(doc.value.layers[j], frame)
    ensures r.ScanThrew? ==>
      && r.at < |doc.value.layers| && doc.value.layers[r.at].Undefined?
      && forall j :: r.at < j < |doc.value.layers| ==> doc.value.layers[j].Layer? && !ActiveAt(doc.value.layers[j], frame)
  {
    if !(doc.Some? && IsTruthy(current)) {
      return NotRun;
    }
    var layers := doc.value.layers;
    var i := |layers|;
    while i > 0
      invariant 0 <= i <= |layers|
      invariant forall j :: i <= j < |layers| ==> layers[j].Layer? && !ActiveAt(layers[j], frame)
    {
      i := i - 1;
      var layer := layers[i];
      if layer.Undefined? {
        return ScanThrew(i);
      }
      if layer.ip <= frame && layer.op >= frame {
        return Selected(i);
      }
    }
    r := NoneActive;
  }

  /** The keyframes one channel contributes to the markers: all of `k` when
      `k` is truthy and `k[0]` is an object that is not an array. */
  function Contribution(e: Entry): seq<Keyframe>
  {
    match e.prop.k
    case Track(kfs) => kfs
    case _ => []
  }

  /** The markers of the channels `ks`, in key order. */
  function AllKeyframes(ks: seq<Entry>): seq<Keyframe>
  {
    if |ks| == 0 then [] else AllKeyframes(ks[..|ks| - 1]) + Contribution(ks[|ks| - 1])
  }

  /** A channel contributes markers exactly when the panel would call it
      keyframed. */
  lemma ContributesIffKeyframed(e: Entry)
    ensures Contribution(e) != [] <==> IsPropertyHasKeyframes(Some(e.prop))
  {
  }

  /** Every marker is a keyframe of some keyframed channel, and every
      keyframe of every channel is a marker. */
  lemma {:induction false} AllKeyframesMembers(ks: seq<Entry>)
    ensures forall kf :: kf in AllKeyframes(ks) <==> exists e :: 0 <= e < |ks| && ks[e].prop.k.Track? && kf in ks[e].prop.k.kfs
  {
    if |ks| > 0 {
      var front := ks[..|ks| - 1];
      AllKeyframesMembers(front);
      forall kf ensures kf in AllKeyframes(ks) <==> exists e :: 0 <= e < |ks| && ks[e].prop.k.Track? && kf in ks[e].prop.k.kfs {
        if kf in AllKeyframes(ks) {
          if kf in AllKeyframes(front) {
            var e :| 0 <= e < |front| && front[e].prop.k.Track? && kf in front[e].prop.k.kfs;
            assert ks[e] == front[e];
          } else {
            assert kf in Contribution(ks[|ks| - 1]);
          }
        }
        if exists e :: 0 <= e < |ks| && ks[e].prop.k.Track? && kf in ks[e].prop.k.kfs {
          var e :| 0 <= e < |ks| && ks[e].prop.k.Track? && kf in ks[e].prop.k.kfs;
          if e < |ks| - 1 {
            assert front[e] == ks[e];
          }
        }
      }
    }
  }

  /** `renderKeyframes(layer)`: the nested loops that push every keyframe of
      every keyframed channel; an `undefined` layer throws on `layer.ks`. */
  method CollectKeyframes(layer: Layer) returns (r: Outcome<seq<Keyframe>>)
    ensures r.TypeError? <==> layer.Undefined?
    ensures r.Done? ==> r.value == AllKeyframes(layer.ks)
  {
    if layer.Undefined? {
      return TypeError;
    }
    var ks := layer.ks;
    var keyframes: seq<Keyframe> := [];
    var key := 0;
    while key < |ks|
      invariant 0 <= key <= |ks|
      invariant keyframes == AllKeyframes(ks[..key])
    {
      var k := ks[key].prop.k;
      if k.Track? && |k.kfs| > 0 {
        var i := 0;
        while i < |k.kfs|
          invariant 0 <= i <= |k.kfs|
          invariant keyframes == AllKeyframes(ks[..key]) + k.kfs[..i]
        {
          keyframes := keyframes + [k.kfs[i]];
          i := i + 1;
        }
      }
      assert ks[..key + 1][..key] == ks[..key];
      key := key + 1;
    }
    assert ks[..|ks|] == ks;
    r := Done(keyframes);
  }

  /** What `handleMouseMove` dispatches as the frame: it throws without a
      document, gives NaN when the timeline has no width or the document no
      `op`, and otherwise a whole frame. */
  datatype FrameDispatch = Throws | NotANumber | Frame(n: int)

  /** The scrubber moves to `position` and then the frame is dispatched. */
  datatype MouseMoveResult = Ignored | Scrubbed(position: real, frame: FrameDispatch)

  function Max(a: real, b: real): real { if a >= b then a else b }
  function Min(a: real, b: real): real { if a <= b then a else b }

  /** `handleMouseMove(e)`, with the timeline's left edge and width in
      pixels and the cursor's `clientX`. */
  function HandleMouseMove(dragging: bool, hasTimeline: bool, clientX: real, left: real, width: real, doc: Option<Animation>): (r: MouseMoveResult)
    ensures r.Ignored? <==> !dragging || !hasTimeline
    ensures r.Scrubbed? && width >= 0.0 ==> 0.0 <= r.position <= width
    ensures r.Scrubbed? && 0.0 <= clientX - left <= width ==> r.position == clientX - left
    ensures r.Scrubbed? ==> (r.frame.Throws? <==> doc.None?)
  {
    if !dragging || !hasTimeline then Ignored
    else
      var position := Max(0.0, Min(width, clientX - left));
      var frame :=
        if doc.None? then Throws
        else if width == 0.0 || doc.value.op.None? then NotANumber
        else Frame((position / width * doc.value.op.value).Floor);
      Scrubbed(position, frame)
  }

  /** On a timeline with a width and a document with a non-negative `op`,
      the dispatched frame is a whole frame in `[0, op]`, and dragging to or
      past the right edge reaches `op` itself when `op` is whole. */
  lemma {:induction false} FrameWithinDocument(clientX: real, left: real, width: real, doc: Animation)
    requires width > 0.0 && doc.op.Some? && doc.op.value >= 0.0
    ensures var r := HandleMouseMove(true, true, clientX, left, width, Some(doc));
      && r.frame.Frame?
      && 0 <= r.frame.n
      && r.frame.n as real <= doc.op.value
      && (clientX - left >= width && doc.op.value == doc.op.value.Floor as real ==> r.frame.n as real == doc.op.value)
  {
    var position := Max(0.0, Min(width, clientX - left));
    var op := doc.op.value;
    var progress := position / width;
    ProgressInUnit(position, width);
    ScaleWithin(progress, op);
    var x := progress * op;
    assert x.Floor as real <= x;
    assert x.Floor >= 0;
    if clientX - left >= width {
      assert position == width;
      ProgressAtEdge(width);
    }
  }

  /** A position inside a timeline of positive width is a fraction in `[0, 1]`. */
  lemma ProgressInUnit(position: real, width: real)
    requires width > 0.0 && 0.0 <= position <= width
    ensures 0.0 <= position / width <= 1.0
  {
    var p := position / width;
    assert p * width == position;
    assert (1.0 - p) * width == width - position;
  }

  /** A fraction of a non-negative length lies between 0 and that length. */
  lemma ScaleWithin(p: real, op: real)
    requires 0.0 <= p <= 1.0 && op >= 0.0
    ensures 0.0 <= p * op <= op
  {
    assert op - p * op == (1.0 - p) * op;
  }

  /** The right edge is the whole of the timeline. */
  lemma ProgressAtEdge(width: real)
    requires width > 0.0
    ensures width / width == 1.0
  {
  }
}
