/** How the client side and the relay hub fit together: what the edit
    handler sends meets the hub's gate and the hub's document indexing. */
module Session {
  import opened Document
  import opened Protocol
  import opened RelayHub
  import PropertiesPanel
  import AnimationSlice

  /** No timestamp other than `undefined` has been stored. */
  predicate NoStamps(latest: map<FieldKey, Stamp>)
  {
    forall k :: k in latest ==> latest[k].None?
  }

  /** The panel's messages carry no timestamp. While every message the hub
      has seen was of that kind, the gate passes every edit, and the table
      still holds no timestamp afterwards. */
  lemma {:induction false} UnstampedEditsPassGate(s: HubState, sender: ConnId, m: Inbound)
    requires NoStamps(s.latest)
    requires m.Parsed? && m.message.PropertyChange? && m.message.payload.Some? ==> m.message.payload.value.timestamp.None?
    ensures m.Parsed? && m.message.PropertyChange? && m.message.payload.Some? ==>
      var p := m.message.payload.value;
      Applies(s, p) <==> WriteFirstKeyframe(s.doc, p.layerIndex, p.propertyName, p.newValue).Done?
    ensures NoStamps(Step(s, sender, m).next.latest)
  {
    if m.Parsed? && m.message.PropertyChange? && m.message.payload.Some? {
      var p := m.message.payload.value;
      assert Read(s.latest, KeyOf(p)).None?;
    }
  }

  /** Under the gate as the panel drives it, the later of two edits to one
      field wins, whatever their contents: the hub's document depends on
      arrival order alone. */
  lemma LastArrivalWins(s: HubState, a: ConnId, b: ConnId, p: PropertyChangePayload, q: PropertyChangePayload)
    requires NoStamps(s.latest) && p.timestamp.None? && q.timestamp.None?
    requires KeyOf(p) == KeyOf(q)
    requires WriteFirstKeyframe(s.doc, p.layerIndex, p.propertyName, p.newValue).Done?
    ensures Step(Step(s, a, EditOf(p)).next, b, EditOf(q)).next.doc == Step(s, b, EditOf(q)).next.doc
  {
    var s1 := Step(s, a, EditOf(p)).next;
    UnstampedEditsPassGate(s, a, EditOf(p));
    UnstampedEditsPassGate(s, b, EditOf(q));
    UnstampedEditsPassGate(s1, b, EditOf(q));
    SecondWriteWins(s.doc.value, p.layerIndex.value, p.propertyName, p.newValue, q.newValue);
  }

  /** The panel dispatches the layer's array position to the store but sends
      the layer's `ind` to the hub, which reads it as an array position. On
      the usual numbering from 1, an edit of the first layer lands on the
      second layer at the hub. */
  lemma IndIsNotPosition(l0: Layer, l1: Layer, v: Value)
    requires l0 == Layer(1, "first", 0.0, 60.0, [Entry("p", Prop(Track([Keyframe(At(0.0), Vector([0.0, 0.0]))])))])
    requires l1 == Layer(2, "second", 0.0, 60.0, [Entry("p", Prop(Track([Keyframe(At(0.0), Vector([5.0, 5.0]))])))])
    requires v != Vector([0.0, 0.0]) && v != Vector([5.0, 5.0])
    ensures var doc := Animation(None, None, None, None, [l0, l1]);
      && PropertiesPanel.LayerPosition(Some(doc), AnimationSlice.LayerObject(l0)) == Done(Some(0))
      && var w := WriteFirstKeyframe(Some(doc), Some(l0.ind), "p", v);
         && w.Done?
         && KeyframeAt(w.value, 1, 0, 0).value.s == v
         && KeyframeAt(w.value, 0, 0, 0) == KeyframeAt(doc, 0, 0, 0)
  {
    var doc := Animation(None, None, None, None, [l0, l1]);
    PropertiesPanel.LayerPositionFindsCurrent(doc, 0);
    assert ChannelPath(doc, 1, "p") == Some(0);
  }

  /** Two clients edit opacity with timestamps 100 and 90: the edit stamped
      100 is applied and broadcast whichever arrives first, and the other is
      dropped when it arrives second. */
  lemma StampedScenario(doc: Animation, sockets: map<ConnId, ReadyState>)
    requires doc.layers == [Layer(1, "L", 0.0, 60.0, [Entry("o", Prop(Track([Keyframe(At(0.0), Scalar(100.0))])))])]
    requires sockets == map[0 := Open, 1 := Open]
    ensures var s := HubState(Some(doc), map[], {0, 1}, sockets);
      var edA := EditOf(PropertyChangePayload(Some(0), "o", Scalar(50.0), None, Some(100)));
      var edB := EditOf(PropertyChangePayload(Some(0), "o", Scalar(80.0), None, Some(90)));
      var afterA := Step(s, 0, edA);
      var afterB := Step(afterA.next, 1, edB);
      && afterA.recipients == {0, 1}
      && afterB == Delivery(afterA.next, {})
      && KeyframeAt(afterB.next.doc.value, 0, 0, 0).value.s == Scalar(50.0)
      && Step(Step(s, 1, edB).next, 0, edA).next == afterB.next
  {
    var s := HubState(Some(doc), map[], {0, 1}, sockets);
    var p := PropertyChangePayload(Some(0), "o", Scalar(50.0), None, Some(100));
    var q := PropertyChangePayload(Some(0), "o", Scalar(80.0), None, Some(90));
    assert ChannelPath(doc, 0, "o") == Some(0);
    assert OpenClients(sockets) == {0, 1};
    Convergence(s, 0, 1, p, q);
  }
}
