/** The properties panel: reading a channel's value at a frame, the
    predicates the panel renders with, and the edit handler that shapes the
    value to store and the message to relay. */
module PropertiesPanel {
  import opened Document
  import opened AnimationSlice
  import Protocol

  /** What the resolver returns: `null` (`NoValue`), `undefined` (an index
      past the end of an array), a number, `[s]` (a one-element array around a
      non-array `s`), or the non-finite results of the interpolation. */
  datatype Reading = NoValue | OutOfRange | Number(x: real) | Boxed(inner: Value) | NaN | Infinite

  /** `currentLayer?.ks?.[propertyName]?.k`, or `None` where that chain
      ends in `undefined` before reaching a channel. */
  function ChannelK(c: Current, name: string): (r: Option<K>)
    ensures r.Some? ==> c.LayerObject? && c.layer.Layer? && FindEntry(c.layer.ks, name).Some?
    ensures c.LayerObject? && c.layer.Layer? && FindEntry(c.layer.ks, name).Some? ==>
      r == Some(c.layer.ks[FindEntry(c.layer.ks, name).value].prop.k)
  {
    if c.LayerObject? && c.layer.Layer? then
      match FindEntry(c.layer.ks, name)
      case None => None
      case Some(e) => Some(c.layer.ks[e].prop.k)
    else None
  }

  /** `keyframes.filter(kf => kf.t !== null && kf.t !== undefined)`. */
  function ValidKeyframes(kfs: seq<Keyframe>): (r: seq<Keyframe>)
    ensures |r| <= |kfs|
    ensures forall j :: 0 <= j < |r| ==> r[j].t.At?
    ensures (forall j :: 0 <= j < |kfs| ==> !kfs[j].t.At?) <==> r == []
    ensures (forall j :: 0 <= j < |kfs| ==> kfs[j].t.At?) ==> r == kfs
  {
    if |kfs| == 0 then []
    else (if kfs[0].t.At? then [kfs[0]] else []) + ValidKeyframes(kfs[1..])
  }

  /** The filter keeps exactly the timed keyframes: each timed keyframe of
      the track is kept, and nothing else is. */
  lemma {:induction false} ValidKeyframesKeepsTimed(kfs: seq<Keyframe>)
    ensures forall kf :: kf in ValidKeyframes(kfs) <==> kf in kfs && kf.t.At?
    decreases |kfs|
  {
    if |kfs| > 0 {
      ValidKeyframesKeepsTimed(kfs[1..]);
      assert kfs == [kfs[0]] + kfs[1..];
    }
  }

  /** The filter keeps the order of the track: the timed keyframes of a
      concatenation are those of its front followed by those of its back. */
  lemma {:induction false} ValidKeyframesAppend(a: seq<Keyframe>, b: seq<Keyframe>)
    ensures ValidKeyframes(a + b) == ValidKeyframes(a) + ValidKeyframes(b)
    decreases |a|
  {
    if |a| > 0 {
      assert (a + b)[0] == a[0];
      assert (a + b)[1..] == a[1..] + b;
      ValidKeyframesAppend(a[1..], b);
    } else {
      assert a + b == b;
    }
  }

  /** `Number(t)`: `null` reads as 0 and a missing `t` as NaN (`None`). */
  function TimeNumber(t: Time): Option<real>
  {
    match t
    case Absent => None
    case Null => Some(0.0)
    case At(f) => Some(f)
  }

  predicate AtOrAfter(kf: Keyframe, frame: real)
  {
    TimeNumber(kf.t).Some? && TimeNumber(kf.t).value >= frame
  }

  /** `findIndex(kf => Number(kf.t) >= frame)`. */
  function FirstAtOrAfter(kfs: seq<Keyframe>, frame: real): (r: int)
    ensures -1 <= r < |kfs|
    ensures r == -1 <==> forall j :: 0 <= j < |kfs| ==> !AtOrAfter(kfs[j], frame)
    ensures r >= 0 ==> AtOrAfter(kfs[r], frame) && forall j :: 0 <= j < r ==> !AtOrAfter(kfs[j], frame)
  {
    if |kfs| == 0 then -1
    else if AtOrAfter(kfs[0], frame) then 0
    else
      var r := FirstAtOrAfter(kfs[1..], frame);
      if r == -1 then -1 else r + 1
  }

  /** `Array.isArray(s) ? s[index] : [s]`: how a clamped read returns. */
  function ReadEnd(s: Value, index: nat): Reading
  {
    match s
    case Vector(v) => if index < |v| then Number(v[index]) else OutOfRange
    case _ => Boxed(s)
  }

  /** The value a non-array `s` stands for: 100 on the scale channel `s`,
      0 on every other channel. */
  function Neutral(name: string): real
  {
    if name == "s" then 100.0 else 0.0
  }

  /** One interpolation endpoint: `s[index]` or the neutral value; `None`
      when `s[index]` is `undefined`, which turns the arithmetic into NaN. */
  function Component(s: Value, index: nat, name: string): Option<real>
  {
    match s
    case Vector(v) => if index < |v| then Some(v[index]) else None
    case _ => Some(Neutral(name))
  }

  /** `prev + (frame - tPrev) / (tNext - tPrev) * (next - prev)` in double
      arithmetic without rounding: any NaN operand gives NaN, a zero
      denominator gives NaN over a zero numerator and an infinity otherwise,
      and an infinity times a zero difference is NaN again. */
  function Interpolate(frame: real, tPrev: Option<real>, tNext: Option<real>, prev: Option<real>, next: Option<real>): (r: Reading)
    ensures r.Number? <==> tPrev.Some? && tNext.Some? && prev.Some? && next.Some? && tNext.value != tPrev.value
    ensures r.Number? && tPrev.value < frame <= tNext.value ==>
      (prev.value <= r.x <= next.value || next.value <= r.x <= prev.value)
    ensures r.Number? && frame == tNext.value ==> r.x == next.value
  {
    if tPrev.None? || tNext.None? || prev.None? || next.None? then NaN
    else
      var num := frame - tPrev.value;
      var den := tNext.value - tPrev.value;
      var delta := next.value - prev.value;
      if den != 0.0 then
        var progress := num / den;
        LerpBetween(prev.value, next.value, progress, frame, tPrev.value, tNext.value);
        Number(prev.value + progress * delta)
      else if num == 0.0 || delta == 0.0 then NaN
      else Infinite
  }

  /** A progress in (0, 1] keeps the interpolated value between the ends. */
  lemma LerpBetween(a: real, b: real, p: real, frame: real, t0: real, t1: real)
    requires t1 != t0 && p == (frame - t0) / (t1 - t0)
    ensures t0 < frame <= t1 ==> 0.0 < p <= 1.0 && (a <= a + p * (b - a) <= b || b <= a + p * (b - a) <= a)
    ensures frame == t1 ==> p == 1.0 && a + p * (b - a) == b
  {
    if t0 < frame <= t1 {
      var d := t1 - t0;
      assert 0.0 < frame - t0 <= d;
      assert p * d == frame - t0;
      if b >= a {
        assert 0.0 <= p * (b - a) <= b - a;
      } else {
        assert p * (b - a) <= 0.0;
        assert p * (a - b) <= a - b;
      }
    }
  }

  /** The resolver's track case, reached once `k[0]` is an object with a
      `t` key. The position found among the timed keyframes indexes the
      unfiltered `keyframes` array. */
  function TrackValue(kfs: seq<Keyframe>, name: string, frame: real, index: nat): Reading
    requires |kfs| > 0
  {
    var valid := ValidKeyframes(kfs);
    if |valid| == 0 then NoValue
    else
      var ki := FirstAtOrAfter(valid, frame);
      if ki == -1 then ReadEnd(kfs[|kfs| - 1].s, index)
      else if ki == 0 || kfs[0].t.Absent? then ReadEnd(kfs[0].s, index)
      else
        Interpolate(frame, TimeNumber(kfs[ki - 1].t), TimeNumber(kfs[ki].t),
                    Component(kfs[ki - 1].s, index, name), Component(kfs[ki].s, index, name))
  }

  /** `getPropertyValue(propertyName, currentFrame, index)`. */
  function GetPropertyValue(c: Current, name: string, frame: real, index: nat): Reading
  {
    if !IsTruthy(c) then NoValue
    else match ChannelK(c, name)
      case None => NoValue
      case Some(Missing) => NoValue
      case Some(Constant(x)) => if x == 0.0 then NoValue else Number(x)
      case Some(Components(v)) =>
        if |v| == 0 then NoValue else if index < |v| then Number(v[index]) else OutOfRange
      case Some(Track(kfs)) =>
        if |kfs| == 0 || kfs[0].t.Absent? then NoValue else TrackValue(kfs, name, frame, index)
  }

  /** No layer, no such channel, no `k`, or a falsy `k` (the constant 0
      included) all read as `null`. */
  lemma ResolveNullCases(c: Current, name: string, frame: real, index: nat)
    ensures !IsTruthy(c) ==> GetPropertyValue(c, name, frame, index) == NoValue
    ensures ChannelK(c, name) in {None, Some(Missing), Some(Constant(0.0))} ==> GetPropertyValue(c, name, frame, index) == NoValue
  {
  }

  /** A non-zero constant reads as itself and a numeric array as its
      element at `index`. */
  lemma ResolveConstants(c: Current, name: string, frame: real, index: nat)
    requires IsTruthy(c)
    ensures forall x :: ChannelK(c, name) == Some(Constant(x)) && x != 0.0 ==> GetPropertyValue(c, name, frame, index) == Number(x)
    ensures forall v :: ChannelK(c, name) == Some(Components(v)) && index < |v| ==> GetPropertyValue(c, name, frame, index) == Number(v[index])
    ensures forall v :: ChannelK(c, name) == Some(Components(v)) && 0 < |v| <= index ==> GetPropertyValue(c, name, frame, index) == OutOfRange
    ensures ChannelK(c, name) == Some(Components([])) ==> GetPropertyValue(c, name, frame, index) == NoValue
  {
  }

  /** A track whose first keyframe has a `t` key but none of whose keyframes
      holds a frame number reads as `null`. */
  lemma {:induction false} ResolveTrackWithoutTimes(kfs: seq<Keyframe>, name: string, frame: real, index: nat)
    requires |kfs| > 0 && !kfs[0].t.Absent?
    requires forall j :: 0 <= j < |kfs| ==> !kfs[j].t.At?
    ensures TrackValue(kfs, name, frame, index) == NoValue
  {
    assert ValidKeyframes(kfs) == [];
  }

  /** A frame after every timed keyframe reads the last keyframe's `s`. */
  lemma ResolveClampsToLast(kfs: seq<Keyframe>, name: string, frame: real, index: nat)
    requires |kfs| > 0 && exists j :: 0 <= j < |kfs| && kfs[j].t.At?
    requires forall j :: 0 <= j < |kfs| && kfs[j].t.At? ==> kfs[j].t.frame < frame
    ensures TrackValue(kfs, name, frame, index) == ReadEnd(kfs[|kfs| - 1].s, index)
  {
    var valid := ValidKeyframes(kfs);
    TimedKeyframesComeFromTrack(kfs);
    assert forall j :: 0 <= j < |valid| ==> !AtOrAfter(valid[j], frame);
  }

  /** Every timed keyframe kept by the filter is one of the track's, so
      facts about the track's timed keyframes carry over. */
  lemma {:induction false} TimedKeyframesComeFromTrack(kfs: seq<Keyframe>)
    ensures forall j :: 0 <= j < |ValidKeyframes(kfs)| ==> ValidKeyframes(kfs)[j] in kfs
    ensures (exists j :: 0 <= j < |kfs| && kfs[j].t.At?) ==> |ValidKeyframes(kfs)| > 0
  {
    if |kfs| > 0 {
      TimedKeyframesComeFromTrack(kfs[1..]);
      var rest := ValidKeyframes(kfs[1..]);
      forall j | 0 <= j < |rest| ensures rest[j] in kfs {
        assert rest[j] in kfs[1..];
      }
      if exists j :: 0 <= j < |kfs| && kfs[j].t.At? {
        if !kfs[0].t.At? {
          var j :| 0 <= j < |kfs| && kfs[j].t.At?;
          assert kfs[1..][j - 1].t.At?;
        }
      }
    }
  }

  /** When the first timed keyframe is at or after the frame, the read
      clamps to the first keyframe of the track, timed or not. */
  lemma ResolveClampsToFirst(kfs: seq<Keyframe>, name: string, frame: real, index: nat)
    requires |kfs| > 0 && |ValidKeyframes(kfs)| > 0
    requires ValidKeyframes(kfs)[0].t.frame >= frame
    ensures TrackValue(kfs, name, frame, index) == ReadEnd(kfs[0].s, index)
  {
  }

  /** Where `findIndex` lands on a track timed at 0 and 10. */
  lemma {:induction false} FindOnZeroTen(kfs: seq<Keyframe>)
    requires |kfs| == 2 && kfs[0].t == At(0.0) && kfs[1].t == At(10.0)
    ensures ValidKeyframes(kfs) == kfs
    ensures FirstAtOrAfter(kfs, -5.0) == 0 && FirstAtOrAfter(kfs, 0.0) == 0
    ensures FirstAtOrAfter(kfs, 5.0) == 1 && FirstAtOrAfter(kfs, 10.0) == 1
    ensures FirstAtOrAfter(kfs, 20.0) == -1
  {
    assert ValidKeyframes(kfs[1..][1..]) == [];
    assert kfs[1..] == [kfs[1]];
    assert FirstAtOrAfter(kfs[1..][1..], 20.0) == -1;
    assert ValidKeyframes(kfs[1..]) == [kfs[1]];
  }

  /** The two-keyframe example with array values, on the opacity channel. */
  lemma ResolveVectorExample()
    ensures var kfs := [Keyframe(At(0.0), Vector([0.0])), Keyframe(At(10.0), Vector([100.0]))];
      && TrackValue(kfs, "o", 5.0, 0) == Number(50.0)
      && TrackValue(kfs, "o", 0.0, 0) == Number(0.0)
      && TrackValue(kfs, "o", 10.0, 0) == Number(100.0)
      && TrackValue(kfs, "o", 20.0, 0) == Number(100.0)
      && TrackValue(kfs, "o", -5.0, 0) == Number(0.0)
  {
    var kfs := [Keyframe(At(0.0), Vector([0.0])), Keyframe(At(10.0), Vector([100.0]))];
    FindOnZeroTen(kfs);
    assert Interpolate(5.0, Some(0.0), Some(10.0), Some(0.0), Some(100.0)) == Number(50.0);
    assert Interpolate(10.0, Some(0.0), Some(10.0), Some(0.0), Some(100.0)) == Number(100.0);
    assert TrackValue(kfs, "o", 5.0, 0) == Number(50.0);
    assert TrackValue(kfs, "o", 10.0, 0) == Number(100.0);
    assert TrackValue(kfs, "o", 20.0, 0) == Number(100.0);
  }

  /** The same example with scalar values: clamped reads come back boxed,
      and between the keyframes both ends are replaced by the neutral 0, so
      frames 5 and 10 read 0. */
  lemma ResolveScalarExample()
    ensures var kfs := [Keyframe(At(0.0), Scalar(0.0)), Keyframe(At(10.0), Scalar(100.0))];
      && TrackValue(kfs, "o", 5.0, 0) == Number(0.0)
      && TrackValue(kfs, "o", 10.0, 0) == Number(0.0)
      && TrackValue(kfs, "o", 0.0, 0) == Boxed(Scalar(0.0))
      && TrackValue(kfs, "o", 20.0, 0) == Boxed(Scalar(100.0))
  {
    var kfs := [Keyframe(At(0.0), Scalar(0.0)), Keyframe(At(10.0), Scalar(100.0))];
    FindOnZeroTen(kfs);
    assert TrackValue(kfs, "o", 5.0, 0) == Interpolate(5.0, Some(0.0), Some(10.0), Some(0.0), Some(0.0));
    assert TrackValue(kfs, "o", 10.0, 0) == Interpolate(10.0, Some(0.0), Some(10.0), Some(0.0), Some(0.0));
  }

  /** On the scale channel a scalar `s` stands for the neutral 100, so the
      same scalar track reads 100 between its keyframes. */
  lemma ResolveScaleNeutralExample()
    ensures var kfs := [Keyframe(At(0.0), Scalar(0.0)), Keyframe(At(10.0), Scalar(100.0))];
      TrackValue(kfs, "s", 5.0, 0) == Number(100.0)
  {
    var kfs := [Keyframe(At(0.0), Scalar(0.0)), Keyframe(At(10.0), Scalar(100.0))];
    FindOnZeroTen(kfs);
    assert TrackValue(kfs, "s", 5.0, 0) == Interpolate(5.0, Some(0.0), Some(10.0), Some(100.0), Some(100.0));
  }

  /** Every keyframe is timed and holds an array with a component at `index`. */
  predicate FullyTimed(kfs: seq<Keyframe>, index: nat)
  {
    forall j :: 0 <= j < |kfs| ==> kfs[j].t.At? && kfs[j].s.Vector? && index < |kfs[j].s.v|
  }

  /** On a fully timed track the filter keeps everything, so the position
      `findIndex` returns indexes the keyframes it was found among. */
  lemma TrackValueFullyTimed(kfs: seq<Keyframe>, name: string, frame: real, index: nat)
    requires |kfs| > 0 && FullyTimed(kfs, index)
    ensures var ki := FirstAtOrAfter(kfs, frame);
      TrackValue(kfs, name, frame, index) ==
        if ki == -1 then Number(kfs[|kfs| - 1].s.v[index])
        else if ki == 0 then Number(kfs[0].s.v[index])
        else Interpolate(frame, Some(kfs[ki - 1].t.frame), Some(kfs[ki].t.frame), Some(kfs[ki - 1].s.v[index]), Some(kfs[ki].s.v[index]))
  {
    assert ValidKeyframes(kfs) == kfs;
  }

  /** On a fully timed track the resolver is the piecewise-linear reading:
      the first keyframe's component up to its time, the last one's after
      the last time, and otherwise a value between the components of the
      two keyframes whose times enclose the frame. Times need not be
      sorted, since the first keyframe at or after the frame is taken. */
  lemma ResolveFullyTimed(kfs: seq<Keyframe>, name: string, frame: real, index: nat)
    requires |kfs| > 0 && FullyTimed(kfs, index)
    ensures var r := TrackValue(kfs, name, frame, index);
      && r.Number?
      && (frame <= kfs[0].t.frame ==> r.x == kfs[0].s.v[index])
      && ((forall j :: 0 <= j < |kfs| ==> kfs[j].t.frame < frame) ==> r.x == kfs[|kfs| - 1].s.v[index])
      && (frame > kfs[0].t.frame && (exists j :: 0 <= j < |kfs| && kfs[j].t.frame >= frame) ==>
            exists j :: 1 <= j < |kfs| && kfs[j - 1].t.frame < frame <= kfs[j].t.frame &&
              (kfs[j - 1].s.v[index] <= r.x <= kfs[j].s.v[index] || kfs[j].s.v[index] <= r.x <= kfs[j - 1].s.v[index]))
  {
    var ki := FirstAtOrAfter(kfs, frame);
    if ki == -1 {
      FullyTimedAfterAll(kfs, name, frame, index);
    } else if ki == 0 {
      FullyTimedUpToFirst(kfs, name, frame, index);
    } else {
      FullyTimedInterior(kfs, name, frame, index);
    }
  }

  lemma FullyTimedAfterAll(kfs: seq<Keyframe>, name: string, frame: real, index: nat)
    requires |kfs| > 0 && FullyTimed(kfs, index) && FirstAtOrAfter(kfs, frame) == -1
    ensures var r := TrackValue(kfs, name, frame, index);
      && r.Number?
      && (frame <= kfs[0].t.frame ==> r.x == kfs[0].s.v[index])
      && ((forall j :: 0 <= j < |kfs| ==> kfs[j].t.frame < frame) ==> r.x == kfs[|kfs| - 1].s.v[index])
      && (frame > kfs[0].t.frame && (exists j :: 0 <= j < |kfs| && kfs[j].t.frame >= frame) ==>
            exists j :: 1 <= j < |kfs| && kfs[j - 1].t.frame < frame <= kfs[j].t.frame &&
              (kfs[j - 1].s.v[index] <= r.x <= kfs[j].s.v[index] || kfs[j].s.v[index] <= r.x <= kfs[j - 1].s.v[index]))
  {
    TrackValueFullyTimed(kfs, name, frame, index);
    assert !AtOrAfter(kfs[0], frame);
    forall j | 0 <= j < |kfs| ensures kfs[j].t.frame < frame {
      assert !AtOrAfter(kfs[j], frame);
    }
  }

  lemma FullyTimedUpToFirst(kfs: seq<Keyframe>, name: string, frame: real, index: nat)
    requires |kfs| > 0 && FullyTimed(kfs, index) && FirstAtOrAfter(kfs, frame) == 0
    ensures var r := TrackValue(kfs, name, frame, index);
      && r.Number?
      && (frame <= kfs[0].t.frame ==> r.x == kfs[0].s.v[index])
      && ((forall j :: 0 <= j < |kfs| ==> kfs[j].t.frame < frame) ==> r.x == kfs[|kfs| - 1].s.v[index])
      && (frame > kfs[0].t.frame && (exists j :: 0 <= j < |kfs| && kfs[j].t.frame >= frame) ==>
            exists j :: 1 <= j < |kfs| && kfs[j - 1].t.frame < frame <= kfs[j].t.frame &&
              (kfs[j - 1].s.v[index] <= r.x <= kfs[j].s.v[index] || kfs[j].s.v[index] <= r.x <= kfs[j - 1].s.v[index]))
  {
    TrackValueFullyTimed(kfs, name, frame, index);
    assert AtOrAfter(kfs[0], frame);
    assert kfs[0].t.frame >= frame;
  }

  lemma FullyTimedInterior(kfs: seq<Keyframe>, name: string, frame: real, index: nat)
    requires |kfs| > 0 && FullyTimed(kfs, index) && FirstAtOrAfter(kfs, frame) > 0
    ensures var r := TrackValue(kfs, name, frame, index);
      && r.Number?
      && (frame <= kfs[0].t.frame ==> r.x == kfs[0].s.v[index])
      && ((forall j :: 0 <= j < |kfs| ==> kfs[j].t.frame < frame) ==> r.x == kfs[|kfs| - 1].s.v[index])
      && (frame > kfs[0].t.frame && (exists j :: 0 <= j < |kfs| && kfs[j].t.frame >= frame) ==>
            exists j :: 1 <= j < |kfs| && kfs[j - 1].t.frame < frame <= kfs[j].t.frame &&
              (kfs[j - 1].s.v[index] <= r.x <= kfs[j].s.v[index] || kfs[j].s.v[index] <= r.x <= kfs[j - 1].s.v[index]))
  {
    TrackValueFullyTimed(kfs, name, frame, index);
    var ki := FirstAtOrAfter(kfs, frame);
    var r := TrackValue(kfs, name, frame, index);
    assert !AtOrAfter(kfs[ki - 1], frame);
    assert AtOrAfter(kfs[ki], frame);
    assert !AtOrAfter(kfs[0], frame);
    assert kfs[ki - 1].t.frame < frame <= kfs[ki].t.frame;
    assert r == Interpolate(frame, Some(kfs[ki - 1].t.frame), Some(kfs[ki].t.frame), Some(kfs[ki - 1].s.v[index]), Some(kfs[ki].s.v[index]));
    assert kfs[ki - 1].s.v[index] <= r.x <= kfs[ki].s.v[index] || kfs[ki].s.v[index] <= r.x <= kfs[ki - 1].s.v[index];
  }

  /** The position found among the timed keyframes picks the wrong pair
      once an untimed keyframe precedes them: with a `t: null` keyframe in
      front, frame 5 between keyframes timed 0 and 10 interpolates from the
      `null` one to the one timed 0, over a zero time span. */
  lemma UnfilteredNeighboursExample()
    ensures var kfs := [Keyframe(Null, Vector([7.0])), Keyframe(At(0.0), Vector([0.0])), Keyframe(At(10.0), Vector([100.0]))];
      TrackValue(kfs, "p", 5.0, 0) == Infinite
  {
    var kfs := [Keyframe(Null, Vector([7.0])), Keyframe(At(0.0), Vector([0.0])), Keyframe(At(10.0), Vector([100.0]))];
    assert kfs[1..][1..] == [kfs[2]];
    assert ValidKeyframes(kfs[1..][1..]) == [kfs[2]];
    assert ValidKeyframes(kfs) == kfs[1..];
    FindOnZeroTen(kfs[1..]);
  }

  /** The track reading with both neighbours taken from the timed keyframes,
      the list the position was found in. */
  function TrackValueIntended(kfs: seq<Keyframe>, name: string, frame: real, index: nat): Reading
    requires |kfs| > 0
  {
    var valid := ValidKeyframes(kfs);
    if |valid| == 0 then NoValue else TrackValue(valid, name, frame, index)
  }

  /** The corrected reading is a number whenever some keyframe is timed and
      every timed keyframe holds a component at `index`; it reads the
      example above as 50, and it agrees with the code on every track whose
      keyframes are all timed. */
  lemma {:induction false} ResolveIntended(kfs: seq<Keyframe>, name: string, frame: real, index: nat)
    requires |kfs| > 0
    ensures ((exists j :: 0 <= j < |kfs| && kfs[j].t.At?) &&
             (forall j :: 0 <= j < |kfs| && kfs[j].t.At? ==> kfs[j].s.Vector? && index < |kfs[j].s.v|)) ==>
              TrackValueIntended(kfs, name, frame, index).Number?
    ensures (forall j :: 0 <= j < |kfs| ==> kfs[j].t.At?) ==> TrackValueIntended(kfs, name, frame, index) == TrackValue(kfs, name, frame, index)
    ensures TrackValueIntended([Keyframe(Null, Vector([7.0])), Keyframe(At(0.0), Vector([0.0])), Keyframe(At(10.0), Vector([100.0]))], "p", 5.0, 0) == Number(50.0)
  {
    var valid := ValidKeyframes(kfs);
    if (exists j :: 0 <= j < |kfs| && kfs[j].t.At?) &&
      (forall j :: 0 <= j < |kfs| && kfs[j].t.At? ==> kfs[j].s.Vector? && index < |kfs[j].s.v|) {
      TimedKeyframesComeFromTrack(kfs);
      assert FullyTimed(valid, index);
      ResolveFullyTimed(valid, name, frame, index);
    }
    var ex := [Keyframe(Null, Vector([7.0])), Keyframe(At(0.0), Vector([0.0])), Keyframe(At(10.0), Vector([100.0]))];
    assert ex[1..][1..] == [ex[2]];
    assert ValidKeyframes(ex[1..][1..]) == [ex[2]];
    assert ValidKeyframes(ex) == ex[1..];
    ResolveVectorExampleAt("p", ex[1..]);
  }

  lemma ResolveVectorExampleAt(name: string, kfs: seq<Keyframe>)
    requires kfs == [Keyframe(At(0.0), Vector([0.0])), Keyframe(At(10.0), Vector([100.0]))]
    ensures TrackValue(kfs, name, 5.0, 0) == Number(50.0)
  {
    FindOnZeroTen(kfs);
    assert Interpolate(5.0, Some(0.0), Some(10.0), Some(0.0), Some(100.0)) == Number(50.0);
  }

  /** `checkValidNumber(value)`: a number other than NaN. */
  predicate CheckValidNumber(r: Reading)
  {
    r.Number? || r.Infinite?
  }

  /** The panel shows a control for a fully timed track at every frame, and
      never for a channel it cannot find. */
  lemma ValidNumberOnFullyTimedTracks(c: Current, name: string, frame: real, index: nat)
    ensures forall kfs :: IsTruthy(c) && ChannelK(c, name) == Some(Track(kfs)) && |kfs| > 0 && FullyTimed(kfs, index) ==>
      CheckValidNumber(GetPropertyValue(c, name, frame, index))
    ensures ChannelK(c, name).None? ==> !CheckValidNumber(GetPropertyValue(c, name, frame, index))
  {
    forall kfs | IsTruthy(c) && ChannelK(c, name) == Some(Track(kfs)) && |kfs| > 0 && FullyTimed(kfs, index)
      ensures CheckValidNumber(GetPropertyValue(c, name, frame, index))
    {
      ResolveFullyTimed(kfs, name, frame, index);
    }
  }

  /** `isPropertyHasKeyframes(property)`: `k` is a non-empty array whose
      first element is an object. */
  predicate IsPropertyHasKeyframes(p: Option<Prop>)
  {
    p.Some? && p.value.k.Track? && |p.value.k.kfs| > 0
  }

  /** The position `currentAnimation?.layers.findIndex(l => l.ind === currentLayer.ind)`
      finds, scanning from `from`. Reading `ind` of an `undefined` layer or
      of a `null`/`undefined` current layer throws; a number has no `ind`,
      so nothing matches it. */
  function FindByInd(layers: seq<Layer>, c: Current, from: nat): (r: Outcome<int>)
    requires from <= |layers|
    ensures r.Done? ==> r.value == -1 || from <= r.value < |layers|
    ensures r.Done? && r.value >= 0 ==> c.LayerObject? && c.layer.Layer? && layers[r.value].Layer? && layers[r.value].ind == c.layer.ind
    ensures r.Done? && r.value >= 0 ==> forall j :: from <= j < r.value ==> layers[j].Layer? && !(c.LayerObject? && c.layer.Layer? && layers[j].ind == c.layer.ind)
    ensures r.Done? && r.value == -1 ==> forall j :: from <= j < |layers| ==> layers[j].Layer? && !(c.LayerObject? && c.layer.Layer? && layers[j].ind == c.layer.ind)
    ensures r.TypeError? ==> from < |layers|
    ensures from < |layers| && (c.NoLayer? || (c.LayerObject? && c.layer.Undefined?)) ==> r.TypeError?
    ensures r.TypeError? && c.LayerNumber? ==>
      exists j :: from <= j < |layers| && layers[j].Undefined? && forall i :: from <= i < j ==> layers[i].Layer?
    decreases |layers| - from
  {
    if from == |layers| then Done(-1)
    else if layers[from].Undefined? || c.NoLayer? || (c.LayerObject? && c.layer.Undefined?) then TypeError
    else if c.LayerObject? && layers[from].ind == c.layer.ind then Done(from)
    else FindByInd(layers, c, from + 1)
  }

  /** The `layerIndex` the edit handler computes: `undefined` without a
      document, otherwise the result of `findIndex`, which may throw. */
  function LayerPosition(doc: Option<Animation>, c: Current): (r: Outcome<Option<int>>)
    ensures doc.None? ==> r == Done(None)
    ensures doc.Some? && |doc.value.layers| == 0 ==> r == Done(Some(-1))
    ensures r.TypeError? ==> doc.Some? && |doc.value.layers| > 0
  {
    match doc
    case None => Done(None)
    case Some(a) =>
      match FindByInd(a.layers, c, 0)
      case TypeError => TypeError
      case Done(i) => Done(Some(i))
  }

  /** The layer the panel shows is found at its own position: when the
      current layer is the one at position `i` and every layer before it is
      a layer object with another `ind`, the handler dispatches `i`. What
      follows position `i` is never read. */
  lemma {:induction false} LayerPositionFindsCurrent(a: Animation, i: nat)
    requires i < |a.layers| && a.layers[i].Layer?
    requires forall j :: 0 <= j < i ==> a.layers[j].Layer? && a.layers[j].ind != a.layers[i].ind
    ensures LayerPosition(Some(a), LayerObject(a.layers[i])) == Done(Some(i))
  {
    FindByIndReaches(a.layers, LayerObject(a.layers[i]), 0, i);
  }

  lemma {:induction false} FindByIndReaches(layers: seq<Layer>, c: Current, from: nat, i: nat)
    requires from <= i < |layers| && c.LayerObject? && c.layer == layers[i] && c.layer.Layer?
    requires forall j :: from <= j < i ==> layers[j].Layer? && layers[j].ind != layers[i].ind
    ensures FindByInd(layers, c, from) == Done(i)
    decreases i - from
  {
    if from < i {
      FindByIndReaches(layers, c, from + 1, i);
    }
  }

  /** `[...s]` followed by `updatedValue[position] = x`, on an array. */
  method WriteComponent(s: seq<real>, position: nat, x: real) returns (r: seq<real>)
    requires position <= |s|
    ensures |r| == if position < |s| then |s| else |s| + 1
    ensures r[position] == x
    ensures forall j :: 0 <= j < |s| && j != position ==> r[j] == s[j]
  {
    var a := new real[if position < |s| then |s| else |s| + 1];
    var j := 0;
    while j < |s|
      invariant 0 <= j <= |s|
      invariant forall m :: 0 <= m < j ==> a[m] == s[m]
    {
      a[j] := s[j];
      j := j + 1;
    }
    a[position] := x;
    r := a[..];
  }

  /** How `handlePropertyChange` ends: it throws before dispatching, it does
      nothing (no current layer), it would write past the end of an array
      and leave a hole, or it dispatches `args` and then sends `sent`
      (`None` when reading `currentLayer.ind` for the message throws). */
  datatype ChangeOutcome =
    | Threw
    | Skipped
    | SparseWrite
    | Handled(args: LayerPropertyArgs, sent: Option<Protocol.Message>)

  function AsIntIndex(index: Option<nat>): Option<int>
  {
    if index.Some? then Some(index.value) else None
  }

  /** The edit handler. `k[0]` is read through the channel's `k`, which
      throws when the channel exists without `k`; a keyframed channel whose
      first `s` is an array is written as a copy of that `s` with one
      component replaced, everything else as `newValue` itself. */
  method HandlePropertyChange(s: State, name: string, newValue: real, index: Option<nat>, frame: Option<real>)
    returns (outcome: ChangeOutcome)
    ensures outcome.Threw? <==>
      LayerPosition(s.currentAnimation, s.currentLayer).TypeError? ||
      (s.currentLayer != NoLayer && ChannelK(s.currentLayer, name) == Some(Missing))
    ensures outcome.Skipped? <==> LayerPosition(s.currentAnimation, s.currentLayer).Done? && s.currentLayer == NoLayer
    ensures outcome.Handled? ==>
      && s.currentLayer != NoLayer
      && LayerPosition(s.currentAnimation, s.currentLayer) == Done(outcome.args.layerIndex)
      && outcome.args.propertyName == name
      && outcome.args.index == AsIntIndex(index)
      && outcome.args.currentFrame == frame
    ensures outcome.Handled? ==>
      var position := if index.Some? then index.value else 0;
      match ChannelK(s.currentLayer, name)
      case Some(Track(kfs)) =>
        if |kfs| > 0 && kfs[0].s.Vector? then
          && position <= |kfs[0].s.v|
          && outcome.args.newValue.Vector?
          && |outcome.args.newValue.v| == (if position < |kfs[0].s.v| then |kfs[0].s.v| else |kfs[0].s.v| + 1)
          && outcome.args.newValue.v[position] == newValue
          && forall j :: 0 <= j < |kfs[0].s.v| && j != position ==> outcome.args.newValue.v[j] == kfs[0].s.v[j]
        else outcome.args.newValue == Scalar(newValue)
      case _ => outcome.args.newValue == Scalar(newValue)
    ensures outcome.Handled? ==>
      outcome.sent == if s.currentLayer.LayerNumber? || s.currentLayer.layer.Layer? then
        Some(Protocol.PropertyChange(Some(Protocol.PropertyChangePayload(
          if s.currentLayer.LayerObject? then Some(s.currentLayer.layer.ind) else None,
          name, Scalar(newValue), AsIntIndex(index), None))))
      else None
    ensures outcome.SparseWrite? ==>
      var k := ChannelK(s.currentLayer, name);
      k.Some? && k.value.Track? && |k.value.kfs| > 0 && k.value.kfs[0].s.Vector? &&
        (if index.Some? then index.value else 0) > |k.value.kfs[0].s.v|
  {
    var layerIndex := LayerPosition(s.currentAnimation, s.currentLayer);
    if layerIndex.TypeError? {
      return Threw;
    }
    if s.currentLayer == NoLayer {
      return Skipped;
    }
    var channel := ChannelK(s.currentLayer, name);
    var value: Value;
    match channel {
      case None => value := Scalar(newValue);
      case Some(Missing) => return Threw;
      case Some(Constant(_)) => value := Scalar(newValue);
      case Some(Components(_)) => value := Scalar(newValue);
      case Some(Track(kfs)) =>
        if |kfs| > 0 && kfs[0].s.Vector? {
          var position := if index.Some? then index.value else 0;
          if position > |kfs[0].s.v| {
            return SparseWrite;
          }
          var updated := WriteComponent(kfs[0].s.v, position, newValue);
          value := Vector(updated);
        } else {
          value := Scalar(newValue);
        }
    }
    var args := LayerPropertyArgs(layerIndex.value, name, value, AsIntIndex(index), frame);
    var sent: Option<Protocol.Message> := None;
    if s.currentLayer.LayerNumber? || s.currentLayer.layer.Layer? {
      var ind: Option<int> := if s.currentLayer.LayerObject? then Some(s.currentLayer.layer.ind) else None;
      sent := Some(Protocol.PropertyChange(Some(Protocol.PropertyChangePayload(ind, name, Scalar(newValue), AsIntIndex(index), None))));
    }
    outcome := Handled(args, sent);
  }
}
