/** The Lottie document as the editor holds it: JSON values given explicit
    tags instead of being re-sniffed with `typeof` and `Array.isArray`. */
module Document {

  datatype Option<T> = None | Some(value: T)

  /** How a JavaScript step ends: with a value, or with a thrown TypeError
      (a property read on `undefined`), which rejects the enclosing thunk or
      aborts the enclosing handler before anything after it runs. */
  datatype Outcome<T> = Done(value: T) | TypeError

  /** A keyframe's `t`: the key is missing, holds `null`, or holds a frame. */
  datatype Time = Absent | Null | At(frame: real)

  /** A keyframe's `s`, and the `newValue` an edit carries: `undefined`, a
      number, or an array of numbers. */
  datatype Value = Unset | Scalar(x: real) | Vector(v: seq<real>)

  datatype Keyframe = Keyframe(t: Time, s: Value)

  /** A channel's `k`: missing, a number, an array of numbers, or an array of
      keyframe objects. The empty array is written `Components([])`; every
      operation treats `Track([])` the same way. */
  datatype K = Missing | Constant(x: real) | Components(v: seq<real>) | Track(kfs: seq<Keyframe>)

  /** One channel object (`TransformProperties`); only `k` is read or written. */
  datatype Prop = Prop(k: K)

  /** One key of a layer's `ks` object. A layer's `ks` is a sequence of these
      in the object's key order, which is the order `for ... in` visits. */
  datatype Entry = Entry(name: string, prop: Prop)

  /** A layer object, or the `undefined` that `splice` writes into the
      layer array when asked to move an element that is not there. */
  datatype Layer =
    | Layer(ind: int, nm: string, ip: real, op: real, ks: seq<Entry>)
    | Undefined

  /** The animation: `layers` in z-order, and the document-level keys the
      core reads (`None` where the key is absent). */
  datatype Animation = Animation(
    nm: Option<string>,
    op: Option<real>,
    sourceIndex: Option<int>,
    destinationIndex: Option<int>,
    layers: seq<Layer>)

  /** Every document key other than `layers` is the same in both. */
  predicate SameMetadata(a: Animation, b: Animation)
  {
    a.nm == b.nm && a.op == b.op && a.sourceIndex == b.sourceIndex && a.destinationIndex == b.destinationIndex
  }

  /** `ks[name]`: the position of the key `name` in a layer's `ks`. */
  function FindEntry(ks: seq<Entry>, name: string): (r: Option<nat>)
    ensures r.Some? ==> r.value < |ks| && ks[r.value].name == name
    ensures r.Some? ==> forall e :: 0 <= e < r.value ==> ks[e].name != name
    ensures r.None? ==> forall e :: 0 <= e < |ks| ==> ks[e].name != name
  {
    if |ks| == 0 then None
    else if ks[0].name == name then Some(0)
    else match FindEntry(ks[1..], name)
      case None => None
      case Some(e) => Some(e + 1)
  }

  /** The channel object at layer position `i`, key position `e`. */
  function PropAt(a: Animation, i: int, e: int): Option<Prop>
  {
    if 0 <= i < |a.layers| && a.layers[i].Layer? && 0 <= e < |a.layers[i].ks|
    then Some(a.layers[i].ks[e].prop)
    else None
  }

  /** The keyframe at position `j` of the track at layer `i`, key position `e`. */
  function KeyframeAt(a: Animation, i: int, e: int, j: int): Option<Keyframe>
  {
    match PropAt(a, i, e)
    case Some(Prop(Track(kfs))) => if 0 <= j < |kfs| then Some(kfs[j]) else None
    case _ => None
  }

  /** Where `layers[layerIndex].ks[propertyName]` sits, when that path exists. */
  function ChannelPath(a: Animation, layerIndex: int, propertyName: string): (r: Option<nat>)
    ensures r.Some? ==> PropAt(a, layerIndex, r.value).Some? && a.layers[layerIndex].ks[r.value].name == propertyName
    ensures r.None? ==> !(0 <= layerIndex < |a.layers| && a.layers[layerIndex].Layer? && exists e :: 0 <= e < |a.layers[layerIndex].ks| && a.layers[layerIndex].ks[e].name == propertyName)
  {
    if 0 <= layerIndex < |a.layers| && a.layers[layerIndex].Layer? then FindEntry(a.layers[layerIndex].ks, propertyName)
    else None
  }

  function StripLayer(l: Layer): Layer
  {
    match l
    case Undefined => Undefined
    case Layer(ind, nm, ip, op, ks) =>
      Layer(ind, nm, ip, op, seq(|ks|, e requires 0 <= e < |ks| => Entry(ks[e].name, Prop(Missing))))
  }

  /** The document with every channel object blanked: what stays when only
      channel contents are edited. */
  function Outline(a: Animation): Animation
  {
    a.(layers := seq(|a.layers|, i requires 0 <= i < |a.layers| => StripLayer(a.layers[i])))
  }

  /** The outline and the channel objects together fix a document, so a
      contract that states both leaves nothing else free to change. */
  lemma {:induction false} OutlineAndPropsDetermine(a: Animation, b: Animation)
    requires Outline(a) == Outline(b)
    requires forall i, e :: PropAt(a, i, e) == PropAt(b, i, e)
    ensures a == b
  {
    assert |a.layers| == |Outline(a).layers| == |Outline(b).layers| == |b.layers|;
    forall i | 0 <= i < |a.layers| ensures a.layers[i] == b.layers[i] {
      assert Outline(a).layers[i] == StripLayer(a.layers[i]);
      assert Outline(b).layers[i] == StripLayer(b.layers[i]);
      assert StripLayer(a.layers[i]) == StripLayer(b.layers[i]);
      if a.layers[i].Layer? {
        var la, lb := a.layers[i], b.layers[i];
        assert lb.Layer?;
        assert |la.ks| == |StripLayer(la).ks| == |StripLayer(lb).ks| == |lb.ks|;
        forall e | 0 <= e < |la.ks| ensures la.ks[e] == lb.ks[e] {
          assert StripLayer(la).ks[e] == Entry(la.ks[e].name, Prop(Missing));
          assert StripLayer(lb).ks[e] == Entry(lb.ks[e].name, Prop(Missing));
          assert PropAt(a, i, e) == Some(la.ks[e].prop);
          assert PropAt(b, i, e) == Some(lb.ks[e].prop);
        }
        assert la.ks == lb.ks;
      } else {
        assert b.layers[i].Undefined?;
      }
    }
    assert a.layers == b.layers;
  }

  /** `r` is `a` with the channel object at layer `i`, key position `e`
      replaced by `p`, and nothing else changed. */
  ghost predicate ChangesOnlyProp(a: Animation, r: Animation, i: int, e: int, p: Prop)
  {
    && Outline(r) == Outline(a)
    && PropAt(r, i, e) == Some(p)
    && forall i', e' :: (i', e') != (i, e) ==> PropAt(r, i', e') == PropAt(a, i', e')
  }

  /** `r` is `a` with only the `s` of keyframe `j`, in the track at layer
      `i`, key position `e`, set to `v`: its `t`, the other keyframes, the
      other channels and the outline are all as they were. */
  ghost predicate ChangesOnlyKeyframeValue(a: Animation, r: Animation, i: int, e: int, j: int, v: Value)
  {
    && Outline(r) == Outline(a)
    && (forall i', e' :: (i', e') != (i, e) ==> PropAt(r, i', e') == PropAt(a, i', e'))
    && KeyframeAt(a, i, e, j).Some?
    && KeyframeAt(r, i, e, j) == Some(KeyframeAt(a, i, e, j).value.(s := v))
    && forall j' :: j' != j ==> KeyframeAt(r, i, e, j') == KeyframeAt(a, i, e, j')
  }

  /** Replace the channel object at layer `i`, key position `e`: the one
      in-place write every property edit comes down to. */
  function SetProp(a: Animation, i: nat, e: nat, p: Prop): (r: Animation)
    requires PropAt(a, i, e).Some?
    ensures ChangesOnlyProp(a, r, i, e, p)
    ensures SameMetadata(r, a)
  {
    var l := a.layers[i];
    var r := a.(layers := a.layers[i := l.(ks := l.ks[e := Entry(l.ks[e].name, p)])]);
    assert StripLayer(r.layers[i]) == StripLayer(l);
    assert Outline(r).layers == Outline(a).layers;
    r
  }

  /** Set the `s` of keyframe `j` in the track at layer `i`, key position `e`. */
  function SetKeyframeValue(a: Animation, i: nat, e: nat, j: nat, v: Value): (r: Animation)
    requires KeyframeAt(a, i, e, j).Some?
    ensures ChangesOnlyKeyframeValue(a, r, i, e, j, v)
    ensures SameMetadata(r, a)
  {
    var kfs := PropAt(a, i, e).value.k.kfs;
    SetProp(a, i, e, Prop(Track(kfs[j := kfs[j].(s := v)])))
  }
}
