# Lottie editor core: a Dafny model

This project models the collaborative core of a browser editor for Lottie
animations, small enough to prove things about.

- **Document.** A Lottie document is a list of layers. Each layer has
  transform channels: opacity `o`, position `p`, scale `s`, rotation `r`.
  Each channel holds a value `k`. That value is a number, a vector, or an
  array of keyframes `{t, s}`.
- **Store.** The editor's store holds the open document, the current frame,
  the current layer and the selected layer index. Five asynchronous thunks
  add, remove, reorder and edit layers. Seven reducers set single fields.
- **Properties panel.** The panel reads a channel's value at the current
  frame (constant, clamped or linearly interpolated). When the user edits a
  value, the panel dispatches the edit and sends a `propertyChange` message
  to a relay hub.
- **Timeline.**
  - Deleting a layer adjusts the selection.
  - Dragging reorders a copy of the layer list.
  - A scan picks the topmost layer active at the current frame.
  - Keyframe markers are collected from every keyframed channel.
  - The scrubber maps a cursor position to a frame.
- **Relay hub.** The hub keeps one shared document and a table of the latest
  timestamp per `layerIndex-propertyName`. An edit is applied only when the
  stored timestamp is falsy or the incoming one is greater. An applied edit
  is written into the first keyframe and broadcast to every open client.
  Layer messages go to every other open client. Scrubber messages go to
  every open client.
  As written, the hub starts with an empty placeholder document and never
  replaces it. So every edit throws and nothing is applied
  (`EmptyDocumentNeverApplies`). The program as written is the hub built
  with `initial = None`. The other hub lemmas describe a hub that has been
  given a document.

The modules follow the program:

| File | Module | What it holds |
|---|---|---|
| `document.dfy` | `Document` | The document's shape. Lookups of fields by name. The "nothing else changes" predicates for edits. |
| `jsarray.dfy` | `JsArray` | JavaScript `splice`, `filter` by index and out-of-range reads, written out explicitly. |
| `protocol.dfy` | `Protocol` | Wire messages. |
| `slice.dfy` | `AnimationSlice` | The store state. The thunks as pure functions or methods. The store as a class whose reducers update its fields. |
| `panel.dfy` | `PropertiesPanel` | The value resolver, its display predicates and the edit handler. |
| `timeline.dfy` | `Timeline` | The timeline's handlers. |
| `server.dfy` | `RelayHub` | The hub. `Step` is a pure transition. `Hub` is a class whose handlers are proved against that transition. |
| `session.dfy` | `Session` | Properties of the panel and the hub together. |

JavaScript behaviour is modelled explicitly wherever the source depends on
it:

- A read through `null` or `undefined` throws: `Outcome.TypeError`.
- An out-of-range array read gives `undefined`, and `splice` normalises its
  start index.
- `undefined > x` is false.
- A property write on a number is silently ignored (sloppy mode).
- `!t` is true for `0`, `null` and `undefined`.

## Model

| member | source | states |
|---|---|---|
| JsArray.SpliceStart | src/store/animationSlice.ts:112-113 | The start index `splice` uses lies in `[0, len]`. An `undefined` start is 0. A start in `[0, len]` is kept. A negative start counts back from the end, and stops at 0. A start past the end is the length. |
| JsArray.DropIndexRemovesOne | src/store/animationSlice.ts:76 | Filtering out position `i` removes exactly the element at `i` when `i` is in range. Otherwise the list is unchanged. |
| JsArray.MoveInRange | src/store/animationSlice.ts:111-113 | With both indices in range, the splice pair keeps the length and is a permutation. It puts the moved element at the destination. Taking that element out again leaves what taking it out of the input left. |
| JsArray.MovePastEndInsertsUndefined | src/store/animationSlice.ts:111-113 | Moving from a position at or past the end inserts an `undefined` element at the destination, so the list grows by one. |
| JsArray.MoveUndefinedPositions | src/store/animationSlice.ts:276-282 | Splicing with `undefined` indices moves the first element to the front again, so the list is unchanged. On an empty list it inserts one `undefined`. |
| JsArray.MoveExample | src/store/animationSlice.ts:111-113 | Moving position 2 of four layers to position 0 gives `[l2, l0, l1, l3]`. |
| AnimationSlice.AddLayer | src/store/animationSlice.ts:50-53 | The new document's layers are the old layers plus the new layer at the end. Its other fields are the old document's. With no document it is a bare document holding the one layer. |
| AnimationSlice.SelectionFollowsLayer | src/store/animationSlice.ts:89-94 | After a removal, the adjusted selection points at the same layer it pointed at before. A selection of the removed layer becomes null. |
| AnimationSlice.RemoveLayer | src/store/animationSlice.ts:71-98 | It throws exactly when there is no document. Otherwise the document keeps its other fields and loses the layer at `layerIndex` when that position exists. The selection it dispatches is the adjusted one. |
| AnimationSlice.RemoveUndoesAdd | src/store/animationSlice.ts:50-77 | Removing the last position right after an add restores the layer list. |
| AnimationSlice.ReorderLayers | src/store/animationSlice.ts:108-117 | It throws exactly without a document. Otherwise the other fields are kept and the layers are the splice pair's move. With both indices in range, the layers are a permutation with the moved layer at the destination. |
| AnimationSlice.UpdateKeyframeValue | src/store/animationSlice.ts:138-155 | It succeeds exactly when the document, the channel and the keyframe exist. The result changes that keyframe's `s` and nothing else. |
| AnimationSlice.ApplyK | src/store/animationSlice.ts:184-202 | Both `Array.isArray(...)` guards test a boolean and are never true, so `$apply` always replaces `k` with the new value. |
| AnimationSlice.UpdateLayerProperty | src/store/animationSlice.ts:176-209 | It succeeds exactly when the document, the layer and the channel exist. The result replaces that channel's `k` with the new value and changes nothing else. |
| AnimationSlice.ReorderFulfilledIgnoresResult | src/store/animationSlice.ts:276-283 | The fulfilled reducer never uses the reordered layers the thunk returns. It re-splices the stored document with the index keys read from the payload. |
| AnimationSlice.ReorderFulfilled | src/store/animationSlice.ts:276-283 | The fulfilled reducer changes only the stored document. It keeps that document's presence and its fields other than the layers. Its layers are described by ReorderFulfilledIgnoresResult, ReorderWithoutIndexKeys and ReorderExample. |
| AnimationSlice.ReorderWithoutIndexKeys | src/store/animationSlice.ts:276-283 | A payload without `sourceIndex`/`destinationIndex` keys leaves a non-empty layer list unchanged. It adds an `undefined` layer to an empty one. |
| AnimationSlice.ReorderExample | src/store/animationSlice.ts:276-283 | A reorder of four layers ends, after the fulfilled reducer, with the layers in their original order. |
| AnimationSlice.Store.constructor | src/store/animationSlice.ts:35-42 | The store starts in the initial state. |
| AnimationSlice.Store.SetAnimation | src/store/animationSlice.ts:227-229 | Sets the document field and nothing else. |
| AnimationSlice.Store.SetAnimationID | src/store/animationSlice.ts:230-232 | Sets the animation id and nothing else. |
| AnimationSlice.Store.SetAnimationName | src/store/animationSlice.ts:233-235 | Sets the name and nothing else. |
| AnimationSlice.Store.UpdateCurrentLayer | src/store/animationSlice.ts:236-238 | Sets the current layer and nothing else. |
| AnimationSlice.Store.SelectLayer | src/store/animationSlice.ts:239-241 | Sets the selected layer index and nothing else. |
| AnimationSlice.Store.UpdateScrubberPosition | src/store/animationSlice.ts:242-244 | Sets the current frame and nothing else. |
| AnimationSlice.Store.UpdateLoadThrough | src/store/animationSlice.ts:245-247 | Sets the load source and nothing else. |
| AnimationSlice.Store.ReorderLayersFulfilled | src/store/animationSlice.ts:276-283 | The store's new state is the fulfilled reorder applied to its old state. |
| AnimationSlice.Store.DispatchAddLayer | src/store/animationSlice.ts:251-252 | The store's document becomes `AddLayer` of the old state. Nothing else changes. |
| AnimationSlice.Store.DispatchRemoveLayer | src/store/animationSlice.ts:264-265 | On success, the selection is updated first and then the document. On a throw the state is unchanged. |
| AnimationSlice.Store.DispatchReorderLayers | src/store/animationSlice.ts:276-283 | The document is replaced by the fulfilled reducer's own re-splice, not by the thunk's result. |
| AnimationSlice.Store.DispatchUpdateKeyframeValue | src/store/animationSlice.ts:294-295 | On success the document becomes the thunk's result. Otherwise nothing changes. |
| AnimationSlice.Store.DispatchUpdateLayerProperty | src/store/animationSlice.ts:305-306 | On success the document becomes the thunk's result. Otherwise nothing changes. |
| PropertiesPanel.ChannelK | src/components/PropertiesPanel.tsx:13-34 | It gives a channel value exactly when the current layer is an object that has the named channel. |
| PropertiesPanel.ValidKeyframes | src/components/PropertiesPanel.tsx:49 | The filter is no longer than the track, and every keyframe it keeps is timed. It keeps none exactly when no keyframe is timed. It is the identity on fully timed tracks. |
| PropertiesPanel.ValidKeyframesKeepsTimed | src/components/PropertiesPanel.tsx:49 | A keyframe is kept exactly when it is a keyframe of the track and is timed. |
| PropertiesPanel.ValidKeyframesAppend | src/components/PropertiesPanel.tsx:49 | The filter keeps the track's order: filtering a concatenation gives the filtered front followed by the filtered back. |
| PropertiesPanel.FirstAtOrAfter | src/components/PropertiesPanel.tsx:53-55 | `findIndex`: the first position whose time is at least the frame, or -1 when there is none. |
| PropertiesPanel.Interpolate | src/components/PropertiesPanel.tsx:70-73 | The reading is a number exactly when every operand is a number and the two times differ. That number lies between the two values when the frame lies between the two times. An exact hit on the next time gives the next value. |
| PropertiesPanel.ResolveNullCases | src/components/PropertiesPanel.tsx:30-38 | No layer object or no channel `k` gives `null`. |
| PropertiesPanel.ResolveConstants | src/components/PropertiesPanel.tsx:40-46 | A non-zero number `k` is returned as is. A non-empty vector `k` gives its component at `index`, or `undefined` past the end. An empty vector `k` reads as `null`. |
| PropertiesPanel.ResolveTrackWithoutTimes | src/components/PropertiesPanel.tsx:47-52 | A track with no timed keyframe reads as `null`. |
| PropertiesPanel.ResolveClampsToLast | src/components/PropertiesPanel.tsx:57-61 | After every timed keyframe, the reading is the last keyframe's value: a component of a vector, or a boxed scalar. |
| PropertiesPanel.TimedKeyframesComeFromTrack | src/components/PropertiesPanel.tsx:49 | Every timed keyframe of the filtered list is a keyframe of the track. |
| PropertiesPanel.ResolveClampsToFirst | src/components/PropertiesPanel.tsx:62-65 | At or before the first timed keyframe, the reading is the first keyframe's value. |
| PropertiesPanel.FindOnZeroTen | src/components/PropertiesPanel.tsx:53-55 | On keyframes at 0 and 10, frames 5 and 10 find position 1, frames up to 0 find 0, and later frames find -1. |
| PropertiesPanel.ResolveVectorExample | src/components/PropertiesPanel.tsx:53-73 | A vector track from 0 to 100 over frames 0 to 10 reads 50 at 5, 0 at 0, 100 at 10, 100 at 20 and 0 at -5. |
| PropertiesPanel.ResolveScalarExample | src/components/PropertiesPanel.tsx:53-73 | The same track holding scalars reads 0 at frames 5 and 10, because non-array values are replaced by the neutral 0. It reads `[0]` at 0 and `[100]` at 20. |
| PropertiesPanel.ResolveScaleNeutralExample | src/components/PropertiesPanel.tsx:71-72 | On the scale channel `s` the neutral value is 100, so the same scalar track reads 100 at frame 5. |
| PropertiesPanel.TrackValue | src/components/PropertiesPanel.tsx:47-74 | The keyframe-track case of the resolver. It has no contract of its own. Its properties are ResolveTrackWithoutTimes, ResolveClampsToFirst, ResolveClampsToLast, TrackValueFullyTimed, ResolveFullyTimed and UnfilteredNeighboursExample. |
| PropertiesPanel.GetPropertyValue | src/components/PropertiesPanel.tsx:29-79 | The resolver. It has no contract of its own. Its properties are ResolveNullCases, ResolveConstants, ValidNumberOnFullyTimedTracks, and the TrackValue lemmas for keyframed channels. |
| PropertiesPanel.TrackValueFullyTimed | src/components/PropertiesPanel.tsx:53-73 | On a fully timed track of vectors, the reading is a number between the two neighbouring keyframes' components, or the clamped end value. |
| PropertiesPanel.ResolveFullyTimed | src/components/PropertiesPanel.tsx:29-73 | On a fully timed vector track, the reading is always a number. Up to the first keyframe's time it is the first component. After every time it is the last component. Otherwise it lies between the components of two neighbouring keyframes whose times enclose the frame. |
| PropertiesPanel.UnfilteredNeighboursExample | src/components/PropertiesPanel.tsx:53-73 | A leading keyframe with `t: null` makes the interpolation use the wrong neighbours, and the reading becomes -Infinity. That is the model's `Infinite`, whose sign is dropped (see "## Left out"). |
| PropertiesPanel.ResolveIntended | src/components/PropertiesPanel.tsx:53-73 | When the filtered list is used for the neighbours too, every timed vector track reads as a number. The result agrees with the source on fully timed tracks and reads 50 on the example above. |
| PropertiesPanel.ResolveVectorExampleAt | src/components/PropertiesPanel.tsx:53-73 | The vector example reads 50 at frame 5 under every channel name. |
| PropertiesPanel.ValidNumberOnFullyTimedTracks | src/components/PropertiesPanel.tsx:165-167 | `checkValidNumber` accepts every reading of a fully timed vector track, and rejects the reading of a channel that cannot be found. |
| PropertiesPanel.CheckValidNumber | src/components/PropertiesPanel.tsx:165-167 | `checkValidNumber`: a number other than NaN, infinities included. It is a predicate without a contract. ValidNumberOnFullyTimedTracks states where it holds. |
| PropertiesPanel.IsPropertyHasKeyframes | src/components/PropertiesPanel.tsx:169-171 | `isPropertyHasKeyframes`: `k` is a non-empty array whose first element is an object. It is a predicate without a contract. Timeline.ContributesIffKeyframed ties it to the timeline's markers. |
| PropertiesPanel.FindByInd | src/components/PropertiesPanel.tsx:134 | `findIndex` over `layer.ind === currentLayer.ind`: the first matching position or -1. On a non-empty range it throws when the current layer is `null` or `undefined`. A numeric current layer matches nothing, and throws only on reaching an `undefined` layer. |
| PropertiesPanel.LayerPosition | src/components/PropertiesPanel.tsx:134 | Without a document it gives `undefined`. On an empty list it gives -1. Otherwise it runs the scan above. |
| PropertiesPanel.LayerPositionFindsCurrent | src/components/PropertiesPanel.tsx:134 | When the current layer is layer `i` and every earlier layer is a layer object with another `ind`, the lookup finds `i`. Layers after `i` are never read. |
| PropertiesPanel.WriteComponent | src/components/PropertiesPanel.tsx:142-143 | Copying the vector and writing one slot changes exactly that slot. It extends the vector by one when the slot is the length. |
| PropertiesPanel.HandlePropertyChange | src/components/PropertiesPanel.tsx:132-163 | It throws when the layer lookup throws, or when the current layer's channel exists without `k`. Without a current layer nothing happens. Otherwise it dispatches the vector with one slot written for a keyframed vector channel, and the bare number for every other channel. It sends `propertyChange` with `ind`, the number, the index and no timestamp, except for an `undefined` layer, where reading `.ind` throws after the dispatch. |
| Timeline.HandleDeleteLayer | src/components/Timeline.tsx:120-138 | It dispatches exactly one `removeLayer(index)`. Its local selection ends where the store's removal puts it. The current layer ends as the formula over the pre-removal document. |
| Timeline.DeleteSelectedKeepsRemovedLayer | src/components/Timeline.tsx:124-137 | Deleting the selected layer leaves the store's current layer pointing at the layer that was just removed. |
| Timeline.DeleteAgreesWithStore | src/components/Timeline.tsx:120-138 | The timeline's selection adjustment and the thunk's give the same index. |
| Timeline.HandleOnDragEnd | src/components/Timeline.tsx:34-47 | Without a destination it does nothing. It throws without a document. Otherwise it reorders a copy, dispatches the unchanged document, and then dispatches the copy's element at the selection. With both indices in range the copy is a permutation with the dragged layer at the destination. |
| Timeline.ActiveLayerScan | src/components/Timeline.tsx:147-160 | It runs exactly when there is a document and a truthy current layer. It selects the topmost layer active at the frame, or none when no layer is, or throws at the topmost `undefined` layer above every active one. |
| Timeline.ContributesIffKeyframed | src/components/Timeline.tsx:77-78 | A channel contributes markers exactly when `k` is a non-empty array whose first element is an object. |
| Timeline.AllKeyframesMembers | src/components/Timeline.tsx:73-83 | Every marker is a keyframe of some keyframed channel. Every keyframe of every keyframed channel is a marker. |
| Timeline.CollectKeyframes | src/components/Timeline.tsx:73-83 | The nested loops collect exactly the channels' keyframes in order. The function throws exactly on an `undefined` layer. |
| Timeline.HandleMouseMove | src/components/Timeline.tsx:53-66 | It is ignored unless dragging over a mounted timeline. The scrubber position is clamped to `[0, width]`, and equals the cursor offset inside the timeline. The frame throws exactly without a document. |
| Timeline.FrameWithinDocument | src/components/Timeline.tsx:56-65 | The dispatched frame is a whole number in `[0, op]`. At the right edge it is `op` itself when `op` is whole. |
| RelayHub.Accepts | server/server.js:36-37 | The gate passes exactly when the stored stamp is falsy or the incoming one is defined and greater. |
| RelayHub.WriteFirstKeyframe | server/server.js:39 | The write succeeds exactly when the document, the layer and the channel exist and `k` is a non-empty array. On a keyframe array it changes only `k[0].s`. On a number array it changes nothing. |
| RelayHub.SecondWriteWins | server/server.js:39 | Two writes to one field leave the second value. |
| RelayHub.FindEntryFirst | server/server.js:39 | A property-name lookup finds the first entry with that name. |
| RelayHub.OpenClients | server/server.js:42-46 | The broadcast set is exactly the connections whose ready state is OPEN. |
| RelayHub.OnlyAppliedEditsChangeState | server/server.js:33-72 | Only an applied `propertyChange` changes the document or the timestamp table. Every other message, or a malformed one, leaves them unchanged. |
| RelayHub.AppliedEditWritesOneKeyframe | server/server.js:37-40 | An applied edit records its timestamp under its key and writes only the first keyframe of the channel. |
| RelayHub.FanOut | server/server.js:33-69 | An applied edit and a scrubber message go to every open client. A layer message goes to every other open client. Everything else goes to nobody. |
| RelayHub.ResendIsRejected | server/server.js:35-48 | Once an edit with a positive timestamp is applied, the same edit from anyone is dropped. |
| RelayHub.ResendWithoutTimestampRepeats | server/server.js:35-46 | An edit without a timestamp is applied and broadcast again every time it arrives. |
| RelayHub.StampOnlyIncreases | server/server.js:36-40 | A stored positive timestamp never decreases and never becomes falsy. |
| RelayHub.EmptyDocumentNeverApplies | server/server.js:9-40 | With the initial empty document, every edit throws at the write, and the hub's state stays as it was. |
| RelayHub.Convergence | server/server.js:35-40 | Two edits of one field with distinct positive timestamps leave the same hub state in either arrival order. |
| RelayHub.ConvergenceOrdered | server/server.js:35-40 | The case of Convergence where `p` carries the smaller stamp: both arrival orders give the same hub state. |
| RelayHub.ConvergenceNeedsPositiveStamps | server/server.js:36-40 | With stamps 0 and -3, the two arrival orders give different documents. |
| RelayHub.Hub.constructor | server/server.js:6-14 | The hub starts with the given document, no clients and no timestamps. The program as written passes `None` (the `{}` placeholder). |
| RelayHub.Hub.Connect | server/server.js:16-24 | A new connection joins the client set and the socket table as open. The snapshot goes to it alone. |
| RelayHub.Hub.SetReadyState | server/server.js:43 | A socket's ready state is updated and nothing else changes. |
| RelayHub.Hub.Close | server/server.js:75-77 | The connection leaves the client set and the socket table, and nothing else changes. |
| RelayHub.Hub.Broadcast | server/server.js:42-46 | The loop over the sockets collects exactly the open ones, apart from the excluded sender. |
| RelayHub.Hub.HandleMessage | server/server.js:26-73 | The new state and the recipients are exactly the pure transition `Step` of the old state. |
| RelayHub.Step | server/server.js:26-73 | The message handler as a pure transition. It has no contract of its own. Its properties are OnlyAppliedEditsChangeState, AppliedEditWritesOneKeyframe, FanOut, ResendIsRejected, ResendWithoutTimestampRepeats, StampOnlyIncreases, EmptyDocumentNeverApplies and Convergence. |
| Session.UnstampedEditsPassGate | src/components/PropertiesPanel.tsx:151-159 | While no timestamp has been stored, the panel's unstamped edits pass the gate whenever the write succeeds, and the table stays free of timestamps. |
| Session.LastArrivalWins | server/server.js:36-40 | For the panel's unstamped edits, the hub's document depends only on which edit arrives last. |
| Session.IndIsNotPosition | src/components/PropertiesPanel.tsx:134-156 | The panel dispatches position 0 for the first layer. It sends `ind` 1, and the hub writes layer 1 instead. |
| Session.StampedScenario | server/server.js:35-46 | Edits stamped 100 and 90: in either arrival order the value of stamp 100 is kept, and the edit stamped 90 is dropped when it arrives second. |

## Left out

- Wire and console I/O: `ws.send`, `JSON.stringify` and console logging. Message contents are modelled as values. `JSON.parse` is abstracted to `Inbound`: malformed, or a parsed message.
- Every type string the hub does not handle is one `OtherType` case. The model does not check that the case carries an unknown string.
- The thunks' own `ws.send` and the fulfilled reducers' sends are not modelled. The reducers read the socket from `action.meta.arg.extra`, which callers normally leave unset, as wire I/O. The `Date.now()` timestamp at the top level of that message is also left out.
- The Redux Toolkit and Immer machinery. A thunk and its `fulfilled` reducer are one call. A thunk that throws is a rejected thunk and leaves the state unchanged.
- React state and effects. The timeline's local selection is a value passed in and returned. `roundedNumber` is display formatting.
- Floating point: numbers are exact reals. NaN and Infinity are the readings `NaN` and `Infinite`, and the sign of Infinity is not kept. `Math.floor` is `Floor`.
- Keyframe times are a number, `null` or absent. Other JSON values in `t` are not modelled.
- PropertiesPanel.HandlePropertyChange: a negative or fractional `index` is not modelled, and neither is a `NaN` new value. A write past the end of the copied vector leaves a hole in a JavaScript array. Here that case ends in `SparseWrite`, with no dispatched value.
- Layers carry only `ind`, `nm`, `ip`, `op` and `ks`. The other layer fields and every channel field besides `k` are never read by the core.
- The same property name twice in `ks` cannot occur in JSON. The lookup takes the first entry.
- RelayHub.Hub.Connect: connection ids are taken as fresh. The `ws` library assigns them, and the model does not prove that they are fresh.
- RelayHub.Hub.SetReadyState: socket ready-state transitions belong to the `ws` library. The method only records a new state.
- The hub's key is the string `${layerIndex}-${propertyName}`. The model uses the pair. For integer layer indices the two agree, because an integer's rendering contains a `-` only as a leading sign. Two non-integer keys that render to one string are not modelled.
- Concurrency: the hub handles one event at a time, as Node's event loop does.
- In the store, `selectedLayerIndex` being `undefined` and being `null` are one case.
- The timeline's drag-start, mouse-down and mouse-up handlers only toggle UI flags. Marker placement in the rendered JSX is not modelled.
- Canvas rendering, file upload, API loading, the GraphQL client, the WebSocket provider, the store configuration and the application shell are not part of this model.
- Two behaviours of the code are worth knowing; the model follows the code:
  - A scalar keyframe track interpolates to the neutral 0 (`ResolveScalarExample`), not between the scalar values.
  - The panel never sends a timestamp, so the hub's gate always passes and the last edit to arrive wins (`LastArrivalWins`).

## Findings

| source | as written | input that shows it | evidently intended | confidence | as-written member | corrected member |
|---|---|---|---|---|---|---|
| src/components/PropertiesPanel.tsx:53-73 | The position is found in the filtered list of timed keyframes, but the neighbours are read from the unfiltered list. | Keyframes `[{t: null, s: [7]}, {t: 0, s: [0]}, {t: 10, s: [100]}]` on channel `p` at frame 5: the neighbours become the null-timed and the 0-timed keyframes, and the reading is -Infinity (the model's `Infinite`; the sign is dropped, see "## Left out"). | Read the neighbours from the filtered list, so any track with timed vector keyframes reads as a number (50 on the input shown). | not executed | PropertiesPanel.UnfilteredNeighboursExample | PropertiesPanel.ResolveIntended |
