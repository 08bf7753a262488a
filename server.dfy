/** The relay hub: one shared document, a table of the latest timestamp
    written per field, the set of clients it keeps, and the sockets the
    server library tracks with their ready states. Each `message` event is
    handled to completion before the next. */
module RelayHub {
  import opened Document
  import opened Protocol

  /** A connection, as the hub tells its sockets apart. */
  type ConnId = nat

  /** A stored or incoming timestamp: `undefined` or a number. */
  type Stamp = Option<int>

  /** The table key `${layerIndex}-${propertyName}`. Since a printed integer
      has no `-` after its sign, the pair determines the key and back. */
  datatype FieldKey = FieldKey(layerIndex: Option<int>, propertyName: string)

  datatype ReadyState = Connecting | Open | Closing | Closed

  /** `latestTimestamps[key]`: `undefined` where nothing was stored. */
  function Read(latest: map<FieldKey, Stamp>, key: FieldKey): Stamp
  {
    if key in latest then latest[key] else None
  }

  /** JavaScript truthiness of a timestamp. */
  predicate Truthy(t: Stamp)
  {
    t.Some? && t.value != 0
  }

  /** The gate `!latestTimestamp || timestamp > latestTimestamp`; `>` with
      `undefined` on either side is false. */
  function Accepts(stored: Stamp, incoming: Stamp): (r: bool)
    ensures r <==> stored == None || stored == Some(0) || (incoming.Some? && stored.Some? && incoming.value > stored.value)
  {
    !Truthy(stored) || (incoming.Some? && stored.Some? && incoming.value > stored.value)
  }

  /** `currentAnimationState.layers[layerIndex].ks[propertyName].k[0].s = newValue`.
      It throws unless `k[0]` exists and is not `undefined`; on a keyframe
      object it sets `s`, and on a number (a numeric-array channel) the
      assignment is silently dropped, since the file is not strict. */
  function WriteFirstKeyframe(doc: Option<Animation>, layerIndex: Option<int>, name: string, v: Value): (r: Outcome<Animation>)
    ensures r.Done? <==>
      && doc.Some? && layerIndex.Some?
      && ChannelPath(doc.value, layerIndex.value, name).Some?
      && var k := PropAt(doc.value, layerIndex.value, ChannelPath(doc.value, layerIndex.value, name).value).value.k;
         (k.Track? && |k.kfs| > 0) || (k.Components? && |k.v| > 0)
    ensures r.Done? ==>
      var a, i := doc.value, layerIndex.value;
      var e := ChannelPath(a, i, name).value;
      if PropAt(a, i, e).value.k.Track?
      then ChangesOnlyKeyframeValue(a, r.value, i, e, 0, v) && SameMetadata(r.value, a)
      else r.value == a
  {
    if doc.None? || layerIndex.None? then TypeError
    else
      var a, i := doc.value, layerIndex.value;
      match ChannelPath(a, i, name)
      case None => TypeError
      case Some(e) =>
        match PropAt(a, i, e).value.k
        case Track(kfs) => if |kfs| > 0 then Done(SetKeyframeValue(a, i, e, 0, v)) else TypeError
        case Components(xs) => if |xs| > 0 then Done(a) else TypeError
        case _ => TypeError
  }

  /** Two writes to the same keyframe leave the second one's value. */
  lemma {:induction false} SecondWriteWins(a: Animation, i: int, name: string, v1: Value, v2: Value)
    requires WriteFirstKeyframe(Some(a), Some(i), name, v1).Done?
    ensures var a1 := WriteFirstKeyframe(Some(a), Some(i), name, v1).value;
      WriteFirstKeyframe(Some(a1), Some(i), name, v2) == WriteFirstKeyframe(Some(a), Some(i), name, v2)
  {
    var e := ChannelPath(a, i, name).value;
    var a1 := WriteFirstKeyframe(Some(a), Some(i), name, v1).value;
    if PropAt(a, i, e).value.k.Track? {
      var l := a.layers[i];
      var kfs := l.ks[e].prop.k.kfs;
      assert a1 == a.(layers := a.layers[i := l.(ks := l.ks[e := Entry(l.ks[e].name, Prop(Track(kfs[0 := kfs[0].(s := v1)])))])]);
      assert a1.layers[i].ks[..e] == l.ks[..e];
      assert ChannelPath(a1, i, name) == Some(e) by {
        assert a1.layers[i].ks[e].name == name;
        assert forall e' :: 0 <= e' < e ==> a1.layers[i].ks[e'] == l.ks[e'];
        FindEntryFirst(a1.layers[i].ks, name, e);
      }
      var l1 := a1.layers[i];
      var kfs1 := l1.ks[e].prop.k.kfs;
      assert kfs1 == kfs[0 := kfs[0].(s := v1)];
      assert kfs1[0 := kfs1[0].(s := v2)] == kfs[0 := kfs[0].(s := v2)];
      var newKs := l.ks[e := Entry(l.ks[e].name, Prop(Track(kfs[0 := kfs[0].(s := v2)])))];
      assert l1.ks[e := Entry(l1.ks[e].name, Prop(Track(kfs1[0 := kfs1[0].(s := v2)])))] == newKs;
      assert SetKeyframeValue(a1, i, e, 0, v2) == a1.(layers := a1.layers[i := l1.(ks := newKs)]);
      assert SetKeyframeValue(a, i, e, 0, v2) == a.(layers := a.layers[i := l.(ks := newKs)]);
      assert l1.(ks := newKs) == l.(ks := newKs);
      assert a1.layers[i := l.(ks := newKs)] == a.layers[i := l.(ks := newKs)];
    }
  }

  /** The first entry named `name` is the one `FindEntry` finds. */
  lemma FindEntryFirst(ks: seq<Entry>, name: string, e: nat)
    requires e < |ks| && ks[e].name == name
    requires forall e' :: 0 <= e' < e ==> ks[e'].name != name
    ensures FindEntry(ks, name) == Some(e)
  {
    var r := FindEntry(ks, name);
    assert r.Some?;
    if r.value < e {
    } else if r.value > e {
    }
  }

  /** The sockets that are open. */
  function OpenClients(sockets: map<ConnId, ReadyState>): (r: set<ConnId>)
    ensures forall c :: c in r <==> c in sockets && sockets[c] == Open
  {
    set c | c in sockets && sockets[c] == Open
  }

  /** The hub's state between two events. `doc` is `None` for the initial
      `{}`, which has no `layers`. `clients` is the hub's own set; `sockets`
      is the server library's `clients`, which every broadcast walks. */
  datatype HubState = HubState(
    doc: Option<Animation>,
    latest: map<FieldKey, Stamp>,
    clients: set<ConnId>,
    sockets: map<ConnId, ReadyState>)

  /** The state after a message, and who is sent the original message. */
  datatype Delivery = Delivery(next: HubState, recipients: set<ConnId>)

  function KeyOf(p: PropertyChangePayload): FieldKey
  {
    FieldKey(p.layerIndex, p.propertyName)
  }

  /** Whether a `propertyChange` passes the gate and its write does not throw. */
  predicate Applies(s: HubState, p: PropertyChangePayload)
  {
    Accepts(Read(s.latest, KeyOf(p)), p.timestamp) && WriteFirstKeyframe(s.doc, p.layerIndex, p.propertyName, p.newValue).Done?
  }

  /** The `message` handler as a function of the state. A message that does
      not parse, a `propertyChange` without a `payload`, and a write that throws
      are caught and logged, with nothing changed and nothing sent. */
  function Step(s: HubState, sender: ConnId, m: Inbound): Delivery
  {
    match m
    case Malformed => Delivery(s, {})
    case Parsed(msg) =>
      match msg
      case PropertyChange(None) => Delivery(s, {})
      case PropertyChange(Some(p)) =>
        if Applies(s, p) then
          var a := WriteFirstKeyframe(s.doc, p.layerIndex, p.propertyName, p.newValue).value;
          Delivery(s.(doc := Some(a), latest := s.latest[KeyOf(p) := p.timestamp]), OpenClients(s.sockets))
        else Delivery(s, {})
      case LayerAdded => Delivery(s, OpenClients(s.sockets) - {sender})
      case LayerDeleted => Delivery(s, OpenClients(s.sockets) - {sender})
      case LayerReordered => Delivery(s, OpenClients(s.sockets) - {sender})
      case UpdateScrubberPosition => Delivery(s, OpenClients(s.sockets))
      case OtherType(_) => Delivery(s, {})
  }

  /** Only a `propertyChange` that passes the gate and whose write does not
      throw changes anything, and then only the document and the stamp of
      its own key: the new stamp is the incoming one. */
  lemma OnlyAppliedEditsChangeState(s: HubState, sender: ConnId, m: Inbound)
    ensures var d := Step(s, sender, m);
      && d.next.clients == s.clients && d.next.sockets == s.sockets
      && (d.next != s ==> m.Parsed? && m.message.PropertyChange? && m.message.payload.Some? && Applies(s, m.message.payload.value))
      && (m.Parsed? && m.message.PropertyChange? && m.message.payload.Some? && Applies(s, m.message.payload.value) ==>
            var p := m.message.payload.value;
            && Read(d.next.latest, KeyOf(p)) == p.timestamp
            && forall k :: k != KeyOf(p) ==> Read(d.next.latest, k) == Read(s.latest, k))
  {
  }

  /** An applied edit changes only the `s` of the first keyframe of its
      channel (or nothing, on a numeric-array channel). */
  lemma AppliedEditWritesOneKeyframe(s: HubState, sender: ConnId, p: PropertyChangePayload)
    requires Applies(s, p)
    ensures var d := Step(s, sender, Parsed(PropertyChange(Some(p))));
      var a, i := s.doc.value, p.layerIndex.value;
      var e := ChannelPath(a, i, p.propertyName).value;
      && d.next.doc.Some?
      && (PropAt(a, i, e).value.k.Track? ==> ChangesOnlyKeyframeValue(a, d.next.doc.value, i, e, 0, p.newValue))
      && (PropAt(a, i, e).value.k.Components? ==> d.next.doc == s.doc)
  {
  }

  /** Who hears what: every recipient is open; an applied edit and a
      scrubber move reach every open socket, the sender included; the three
      layer messages reach every open socket but the sender; anything else
      reaches nobody. */
  lemma FanOut(s: HubState, sender: ConnId, m: Inbound)
    ensures var d := Step(s, sender, m);
      && d.recipients <= OpenClients(s.sockets)
      && (m.Parsed? && m.message.UpdateScrubberPosition? ==> d.recipients == OpenClients(s.sockets) && d.next == s)
      && (m.Parsed? && (m.message.LayerAdded? || m.message.LayerDeleted? || m.message.LayerReordered?) ==>
            d.recipients == OpenClients(s.sockets) - {sender} && d.next == s)
      && (m.Parsed? && m.message.PropertyChange? && m.message.payload.Some? ==>
            d.recipients == if Applies(s, m.message.payload.value) then OpenClients(s.sockets) else {})
      && (m.Malformed? || (m.Parsed? && m.message.OtherType?) ==> d == Delivery(s, {}))
  {
  }

  /** Sending the same edit again with the same non-zero timestamp does
      nothing and reaches nobody, whatever became of the first copy. */
  lemma ResendIsRejected(s: HubState, sender: ConnId, again: ConnId, p: PropertyChangePayload)
    requires p.timestamp.Some? && p.timestamp.value != 0
    ensures var s1 := Step(s, sender, Parsed(PropertyChange(Some(p)))).next;
      Step(s1, again, Parsed(PropertyChange(Some(p)))) == Delivery(s1, {})
  {
    var s1 := Step(s, sender, Parsed(PropertyChange(Some(p)))).next;
    if Applies(s, p) {
      assert Read(s1.latest, KeyOf(p)) == p.timestamp;
    }
  }

  /** Without a timestamp the gate cannot tell a copy from a new edit: one
      that passed once passes again and is broadcast again. */
  lemma ResendWithoutTimestampRepeats(s: HubState, sender: ConnId, p: PropertyChangePayload)
    requires p.timestamp.None? && Applies(s, p)
    ensures var s1 := Step(s, sender, Parsed(PropertyChange(Some(p)))).next;
      Step(s1, sender, Parsed(PropertyChange(Some(p)))).recipients == OpenClients(s.sockets)
  {
    var s1 := Step(s, sender, Parsed(PropertyChange(Some(p)))).next;
    assert Read(s1.latest, KeyOf(p)) == None;
    SecondWriteWins(s.doc.value, p.layerIndex.value, p.propertyName, p.newValue, p.newValue);
  }

  /** A non-zero stamp is only ever replaced by a strictly larger one, and an
      edit leaves the stamps of other keys as they were. */
  lemma StampOnlyIncreases(s: HubState, sender: ConnId, m: Inbound, k: FieldKey)
    requires Truthy(Read(s.latest, k))
    ensures var after := Read(Step(s, sender, m).next.latest, k);
      after == Read(s.latest, k) || (after.Some? && after.value > Read(s.latest, k).value)
  {
  }

  /** The hub before any edit: the initial `{}` document. */
  lemma EmptyDocumentNeverApplies(s: HubState, sender: ConnId, m: Inbound)
    requires s.doc.None?
    ensures Step(s, sender, m).next == s
  {
  }

  function EditOf(p: PropertyChangePayload): Inbound
  {
    Parsed(PropertyChange(Some(p)))
  }

  /** Two edits of the same field with distinct positive timestamps leave
      the same state in either arrival order. */
  lemma Convergence(s: HubState, a: ConnId, b: ConnId, p: PropertyChangePayload, q: PropertyChangePayload)
    requires KeyOf(p) == KeyOf(q)
    requires p.timestamp.Some? && q.timestamp.Some? && p.timestamp.value > 0 && q.timestamp.value > 0
    requires p.timestamp != q.timestamp
    ensures Step(Step(s, a, EditOf(p)).next, b, EditOf(q)).next == Step(Step(s, b, EditOf(q)).next, a, EditOf(p)).next
  {
    if p.timestamp.value < q.timestamp.value {
      ConvergenceOrdered(s, a, b, p, q);
    } else {
      ConvergenceOrdered(s, b, a, q, p);
    }
  }

  /** The case of `Convergence` where `p` carries the smaller stamp, with
      either edit arriving first. */
  lemma ConvergenceOrdered(s: HubState, a: ConnId, b: ConnId, p: PropertyChangePayload, q: PropertyChangePayload)
    requires KeyOf(p) == KeyOf(q)
    requires p.timestamp.Some? && q.timestamp.Some? && 0 < p.timestamp.value < q.timestamp.value
    ensures Step(Step(s, a, EditOf(p)).next, b, EditOf(q)).next == Step(Step(s, b, EditOf(q)).next, a, EditOf(p)).next
  {
    var key := KeyOf(p);
    var wp := WriteFirstKeyframe(s.doc, p.layerIndex, p.propertyName, p.newValue);
    var wq := WriteFirstKeyframe(s.doc, q.layerIndex, q.propertyName, q.newValue);
    assert wp.Done? <==> wq.Done?;
    var sp := Step(s, a, EditOf(p)).next;
    var sq := Step(s, b, EditOf(q)).next;
    if wp.Done? {
      SecondWriteWins(s.doc.value, p.layerIndex.value, p.propertyName, p.newValue, q.newValue);
      SecondWriteWins(s.doc.value, q.layerIndex.value, q.propertyName, q.newValue, p.newValue);
      if Applies(s, p) {
        assert Read(sp.latest, key) == p.timestamp;
        assert Applies(sp, q);
      }
      if Applies(s, q) {
        assert Read(sq.latest, key) == q.timestamp;
        assert !Applies(sq, p);
      }
    }
  }

  /** With a zero or negative timestamp the order matters: a stamp of 0 is
      stored but reads as falsy, so an older edit behind it still passes. */
  lemma ConvergenceNeedsPositiveStamps(doc: Animation)
    requires doc.layers == [Layer(1, "L", 0.0, 60.0, [Entry("o", Prop(Track([Keyframe(At(0.0), Scalar(1.0))])))])]
    ensures var s := HubState(Some(doc), map[], {}, map[]);
      var p := PropertyChangePayload(Some(0), "o", Scalar(10.0), None, Some(0));
      var q := PropertyChangePayload(Some(0), "o", Scalar(20.0), None, Some(-3));
      Step(Step(s, 0, EditOf(p)).next, 1, EditOf(q)).next.doc != Step(Step(s, 1, EditOf(q)).next, 0, EditOf(p)).next.doc
  {
    var s := HubState(Some(doc), map[], {}, map[]);
    var p := PropertyChangePayload(Some(0), "o", Scalar(10.0), None, Some(0));
    var q := PropertyChangePayload(Some(0), "o", Scalar(20.0), None, Some(-3));
    assert ChannelPath(doc, 0, "o") == Some(0);
    SecondWriteWins(doc, 0, "o", Scalar(10.0), Scalar(20.0));
    SecondWriteWins(doc, 0, "o", Scalar(20.0), Scalar(10.0));
    var pq := Step(Step(s, 0, EditOf(p)).next, 1, EditOf(q)).next.doc.value;
    var qp := Step(Step(s, 1, EditOf(q)).next, 0, EditOf(p)).next.doc.value;
    assert KeyframeAt(pq, 0, 0, 0).value.s == Scalar(20.0);
    assert KeyframeAt(qp, 0, 0, 0).value.s == Scalar(10.0);
  }

  /** The hub, as `server.js` keeps it in module-level variables. */
  class Hub {
    var doc: Option<Animation>
    var latest: map<FieldKey, Stamp>
    var clients: set<ConnId>
    var sockets: map<ConnId, ReadyState>

    function State(): HubState
      reads this
    {
      HubState(doc, latest, clients, sockets)
    }

    constructor (initial: Option<Animation>)
      ensures State() == HubState(initial, map[], {}, map[])
    {
      doc, latest, clients, sockets := initial, map[], {}, map[];
    }

    /** The `connection` event: the new socket is open and tracked, joins the
      hub's set, and alone is sent the current document. */
    method Connect(id: ConnId) returns (recipients: set<ConnId>, snapshot: Option<Animation>)
      modifies this
      ensures State() == old(State()).(clients := old(clients) + {id}, sockets := old(sockets)[id := Open])
      ensures recipients == {id} && snapshot == doc
    {
      clients := clients + {id};
      sockets := sockets[id := Open];
      recipients, snapshot := {id}, doc;
    }

    /** A socket's ready state changing under the server library. */
    method SetReadyState(id: ConnId, state: ReadyState)
      requires id in sockets
      modifies this
      ensures State() == old(State()).(sockets := old(sockets)[id := state])
    {
      sockets := sockets[id := state];
    }

    /** The `close` event: the socket leaves the hub's set, and the server
      library stops tracking it. */
    method Close(id: ConnId)
      modifies this
      ensures State() == old(State()).(clients := old(clients) - {id}, sockets := old(sockets) - {id})
    {
      clients := clients - {id};
      sockets := sockets - {id};
    }

    /** `wss.clients.forEach(...)`: the open sockets, less `except`. */
    method Broadcast(except: Option<ConnId>) returns (recipients: set<ConnId>)
      ensures recipients == OpenClients(sockets) - (if except.Some? then {except.value} else {})
    {
      var pending := sockets.Keys;
      recipients := {};
      while pending != {}
        invariant pending <= sockets.Keys
        invariant forall c :: c in recipients <==> c in sockets && c !in pending && sockets[c] == Open && Some(c) != except
        decreases pending
      {
        var c :| c in pending;
        if sockets[c] == Open && Some(c) != except {
          recipients := recipients + {c};
        }
        pending := pending - {c};
      }
    }

    /** The `message` event from `sender`. */
    method HandleMessage(sender: ConnId, m: Inbound) returns (recipients: set<ConnId>)
      modifies this
      ensures Delivery(State(), recipients) == Step(old(State()), sender, m)
    {
      recipients := {};
      if m.Malformed? {
        return;
      }
      match m.message {
        case PropertyChange(payload) =>
          if payload.None? {
            return;
          }
          var p := payload.value;
          var key := FieldKey(p.layerIndex, p.propertyName);
          var stored := if key in latest then latest[key] else None;
          if !Truthy(stored) || (p.timestamp.Some? && stored.Some? && p.timestamp.value > stored.value) {
            var written := WriteFirstKeyframe(doc, p.layerIndex, p.propertyName, p.newValue);
            if written.TypeError? {
              return;
            }
            doc := Some(written.value);
            latest := latest[key := p.timestamp];
            recipients := Broadcast(None);
          }
        case LayerAdded =>
          recipients := Broadcast(Some(sender));
        case LayerDeleted =>
          recipients := Broadcast(Some(sender));
        case LayerReordered =>
          recipients := Broadcast(Some(sender));
        case UpdateScrubberPosition =>
          recipients := Broadcast(None);
        case OtherType(_) =>
      }
    }
  }
}
