# SocketIOSharp packet dispatch, modelled in Dafny

This project models the packet-dispatch core of the SocketIOSharp client
(`SocketIOClient.SocketIOEvent.cs`). The core does four things:

- **Router.** `HandleSocketPacket` sends each decoded Socket.IO packet to one
  handler, chosen by its kind: CONNECT, DISCONNECT, EVENT, ACK, ERROR,
  BINARY_EVENT, BINARY_ACK, or the default branch.
- **Registry.** Two dictionaries map an event name to an ordered list of
  listeners: one for event listeners and one for ack listeners. `On` and
  `Off` change them in place.
- **Dispatch.** `CallHandler` takes the head of an EVENT payload as the event
  name and the rest as its arguments. It then runs the event listeners and
  the ack listeners for that name, in registration order. An ack listener
  gets an emit-back action only when the packet id is 0 or more. Calling the
  action emits an ACK packet with that id.
- **Binary reconstruction gate.** `HandleBinaryPacket` and
  `HandleEtcSocketPacket` drive the reconstructor through its pending
  attachment count. When the last attachment arrives, the finished packet is
  re-routed: as an ACK if its id is 0 or more, as an EVENT otherwise.

Layout:

- `packets.dfy` (module `Packets`): values, packet kinds, packets, `Option`,
  and the `Outcome` a protocol violation raises.
- `registry.dfy` (module `Registry`): the map that `On` and `Off` each leave,
  `List.Remove` (`RemoveFirst`), and lemmas about them.
- `reconstruction.dfy` (module `Reconstruction`): the contract the dispatcher
  assumes of the `Reconstructor`. It is given as pure transitions and as a
  small class.
- `dispatch.dfy` (module `Dispatch`): the effect log, the listener loops as
  functions, the head/tail split, `CallHandler`, `HandleAck` and the ERROR
  argument.
- `router.dfy` (module `Router`): `HandleSocketPacket` as a pure step
  function over the client state (`Handle`), runs of several frames (`Run`),
  and the lemmas about routing and reconstruction.
- `client.dfy` (module `Client`): the class `SocketIOClient`. Its fields are
  the two dictionaries, the reconstructor and the effect log. Each method is
  imperative (in-place updates, `foreach` loops as `while` loops). Each one
  is proved equal to the pure definition it implements.

Side effects are an append-only log of `Effect`s:

- listener calls, with their arguments and emit-back action;
- `AckManager.Invoke`;
- emitted packets;
- `Close()`.

A `SocketIOClientException` is the `Fail` outcome of `HandleSocketPacket`. It
names the offending packet and the packet the reconstructor holds.

## Model

| member | source | states |
|---|---|---|
| `Registry.IndexOf` | SocketIOSharp/Client/Events/SocketIOClient.SocketIOEvent.cs:153 | the index of the first occurrence: it holds the element and nothing before it does |
| `Registry.RemoveFirst` | SocketIOSharp/Client/Events/SocketIOClient.SocketIOEvent.cs:153 | `List.Remove`: a list without the element is returned unchanged; otherwise exactly the first occurrence is cut out and the order of the rest is kept |
| `Registry.Add` | SocketIOSharp/Client/Events/SocketIOClient.SocketIOEvent.cs:136-147 | `On`: a null name changes nothing; otherwise the name becomes a key and its list is the old list (empty for a new name) with the callback at the end; every other entry is unchanged |
| `Registry.Remove` | SocketIOSharp/Client/Events/SocketIOClient.SocketIOEvent.cs:149-155 | `Off`: the key set never changes, so an emptied entry stays; a null or unregistered name changes nothing; otherwise only that name's list loses the first occurrence of the callback; other entries unchanged |
| `Registry.RemoveFirstOfAppended` | SocketIOSharp/Client/Events/SocketIOClient.SocketIOEvent.cs:136-155 | removing a callback just appended to a list that did not hold it gives the list back |
| `Registry.RemoveFirstTakesOneCopy` | SocketIOSharp/Client/Events/SocketIOClient.SocketIOEvent.cs:153 | removal takes the first entry equal to the callback under delegate equality (same target and method), one copy: the multiset of listeners loses one occurrence of the callback, or nothing if it had none |
| `Registry.OffUndoesOn` | SocketIOSharp/Client/Events/SocketIOClient.SocketIOEvent.cs:136-155 | `Off` after `On` of a new callback restores that name's list, and the name stays registered |
| `Registry.OffRemovesOneRegistration` | SocketIOSharp/Client/Events/SocketIOClient.SocketIOEvent.cs:149-155 | a callback registered once is no longer listed after `Off`; one registered twice still is |
| `Reconstruction.Materialized` | SocketIOSharp/Client/Events/SocketIOClient.SocketIOEvent.cs:116 | assumed: the packet `Reconstruct` returns keeps the kind, id and payload of the remembered packet and carries the attachments absorbed so far |
| `Reconstruction.Reconstructor.constructor` | SocketIOSharp/Client/Events/SocketIOClient.SocketIOEvent.cs:13 | assumed: a new reconstructor is idle (count 0, no packet) |
| `Reconstruction.Reconstructor.SetPacket` | SocketIOSharp/Client/Events/SocketIOClient.SocketIOEvent.cs:97 | assumed: remembers the packet and sets the pending count to its declared attachment count |
| `Reconstruction.Reconstructor.Reconstruct` | SocketIOSharp/Client/Events/SocketIOClient.SocketIOEvent.cs:116 | assumed: absorbs one attachment, lowers the count by one and returns the packet under construction |
| `Reconstruction.Reconstructor.Dispose` | SocketIOSharp/Client/Events/SocketIOClient.SocketIOEvent.cs:120 | assumed: the end of the `using` block puts the reconstructor back to idle |
| `Dispatch.Reply` | SocketIOSharp/Client/Events/SocketIOClient.SocketIOEvent.cs:201-209 | an ack listener gets an action exactly when the packet id is 0 or more, and the action is bound to that id |
| `Dispatch.ReplyPacket` | SocketIOSharp/Client/Events/SocketIOClient.SocketIOEvent.cs:205-208 | the emit-back action's packet is an ACK with the bound id and the reply array as payload |
| `Dispatch.EventCalls` | SocketIOSharp/Client/Events/SocketIOClient.SocketIOEvent.cs:216-225 | the event loop's effects: exactly one per registered listener (`EventCallsInOrder` gives the i-th) |
| `Dispatch.AckCalls` | SocketIOSharp/Client/Events/SocketIOClient.SocketIOEvent.cs:195-214 | the ack loop's effects: exactly one per registered ack listener (`AckCallsInOrder` gives the i-th) |
| `Dispatch.ListenerCallsOnly` | SocketIOSharp/Client/Events/SocketIOClient.SocketIOEvent.cs:195-225 | the two loops together only call listeners from their own lists, all with the same argument array, and every ack listener with the same action |
| `Dispatch.EventCallsAppend` | SocketIOSharp/Client/Events/SocketIOClient.SocketIOEvent.cs:220-223 | one more loop iteration appends one call of the next listener |
| `Dispatch.AckCallsAppend` | SocketIOSharp/Client/Events/SocketIOClient.SocketIOEvent.cs:199-212 | one more loop iteration appends one call of the next ack listener |
| `Dispatch.EventCallsInOrder` | SocketIOSharp/Client/Events/SocketIOClient.SocketIOEvent.cs:216-225 | the event loop makes exactly one call per registered listener, in list order, each with the same argument array |
| `Dispatch.AckCallsInOrder` | SocketIOSharp/Client/Events/SocketIOClient.SocketIOEvent.cs:195-214 | the ack loop makes exactly one call per registered ack listener, in list order, each with the same arguments and action |
| `Dispatch.AckListenersReplyWithPacketId` | SocketIOSharp/Client/Events/SocketIOClient.SocketIOEvent.cs:195-214 | with an id below 0 every ack listener receives null; with an id of 0 or more every ack listener's action emits an ACK packet with that same id and the reply array it is given |
| `Dispatch.Split` | SocketIOSharp/Client/Events/SocketIOClient.SocketIOEvent.cs:182-187 | an empty array has no split; otherwise the array is exactly the event name followed by the argument array |
| `Dispatch.HandlerSplitsNameFromArgs` | SocketIOSharp/Client/Events/SocketIOClient.SocketIOEvent.cs:178-193 | a payload `[e] + rest` dispatches `e` with arguments `rest`, to the event listeners first and then to the ack listeners with the packet id; an absent or empty payload dispatches nothing |
| `Dispatch.HandlerEffects` | SocketIOSharp/Client/Events/SocketIOClient.SocketIOEvent.cs:178-193 | `CallHandler` only runs listeners; every ack listener gets `Reply(id)`; nothing runs without a non-empty payload; otherwise one call per event listener and per ack listener of the head, all with the tail as arguments |
| `Dispatch.AckEffects` | SocketIOSharp/Client/Events/SocketIOClient.SocketIOEvent.cs:70-76 | `HandleAck` calls the ack manager at most once, exactly when there is a payload, with the packet id and the whole payload array |
| `Dispatch.ErrorArgs` | SocketIOSharp/Client/Events/SocketIOClient.SocketIOEvent.cs:78-81 | the "error" event's single argument is the payload's text, or "" without a payload |
| `Router.BinaryPacket` | SocketIOSharp/Client/Events/SocketIOClient.SocketIOEvent.cs:93-108 | `HandleBinaryPacket` runs no listener and keeps the registries; it passes exactly when the count is 0 and keeps the reconstructor consistent |
| `Router.Deliver` | SocketIOSharp/Client/Events/SocketIOClient.SocketIOEvent.cs:122-129 | a completed packet with an id of 0 or more tells the ack manager at most once with its id and payload; one with a negative id runs only event listeners and ack listeners given null |
| `Router.EtcPacket` | SocketIOSharp/Client/Events/SocketIOClient.SocketIOEvent.cs:110-134 | `HandleEtcSocketPacket` never raises and keeps the registries and a consistent reconstructor; a non-binary frame or an idle reconstructor changes nothing; an attachment lowers the count by one; effects happen only on the last pending attachment, which leaves the reconstructor idle |
| `Router.Handle` | SocketIOSharp/Client/Events/SocketIOClient.SocketIOEvent.cs:17-53 | routing never changes the registries and keeps the reconstructor consistent; it raises exactly for a BINARY_EVENT/BINARY_ACK while attachments are pending, and then changes nothing; kinds other than the binary ones and the default branch leave the reconstructor alone |
| `Router.Run` | SocketIOSharp/Client/Events/SocketIOClient.SocketIOEvent.cs:17-53 | frames handled in turn never change the registries and keep the reconstructor consistent |
| `Router.RoutesEachKindToItsHandler` | SocketIOSharp/Client/Events/SocketIOClient.SocketIOEvent.cs:17-81 | CONNECT fires "connection" with no arguments; DISCONNECT closes; EVENT runs `CallHandler`; ACK calls the ack manager only with a payload; ERROR fires "error" with the payload text or ""; binary and default-branch packets never close |
| `Router.BinaryPacketGate` | SocketIOSharp/Client/Events/SocketIOClient.SocketIOEvent.cs:93-108 | a binary packet is accepted, and `SetPacket` called, exactly when the count is 0; otherwise it raises naming the packet and the one in progress, and the state is unchanged |
| `Router.AttachmentGate` | SocketIOSharp/Client/Events/SocketIOClient.SocketIOEvent.cs:110-134 | a non-binary frame, or a binary frame while the count is 0, is ignored without raising; otherwise one attachment is absorbed; only when the count reaches 0 is the result routed (id of 0 or more to `HandleAck`, otherwise to `HandleEvent`) and the reconstructor released |
| `Router.AbsorbFirst` | SocketIOSharp/Client/Events/SocketIOClient.SocketIOEvent.cs:114-118 | an attachment while more than one is pending only lowers the count |
| `Router.AbsorbLast` | SocketIOSharp/Client/Events/SocketIOClient.SocketIOEvent.cs:114-131 | the last pending attachment delivers the finished packet and releases the reconstructor |
| `Router.AbsorbSome` | SocketIOSharp/Client/Events/SocketIOClient.SocketIOEvent.cs:110-134 | fewer attachments than pending deliver nothing, lower the count by their number, and the frames after them are handled from that state |
| `Router.AbsorbAll` | SocketIOSharp/Client/Events/SocketIOClient.SocketIOEvent.cs:110-134 | exactly the pending attachments deliver the packet once and leave the reconstructor idle |
| `Router.BinaryRoundTrip` | SocketIOSharp/Client/Events/SocketIOClient.SocketIOEvent.cs:93-134 | from idle, a binary packet declaring N > 0 attachments and then N attachment frames deliver that packet once, carrying the N buffers in arrival order under the assumed `Reconstruct`, routed by its id; the reconstructor ends idle |
| `Router.SecondBinaryPacketWhileBusyRaises` | SocketIOSharp/Client/Events/SocketIOClient.SocketIOEvent.cs:93-108 | a second binary packet before the first one's attachments are all in raises, naming the second packet and the first |
| `Router.ZeroAttachmentPacketIsNeverDelivered` | SocketIOSharp/Client/Events/SocketIOClient.SocketIOEvent.cs:93-134 | under the assumed `SetPacket`, a binary packet declaring no attachments is accepted but never delivered: a following attachment is ignored and a following binary packet replaces it |
| `Router.EmitBackPacketRoutesToAckManager` | SocketIOSharp/Client/Events/SocketIOClient.SocketIOEvent.cs:70-76 | an ACK packet built by the emit-back action is routed to the ack manager with the same id and reply array and runs no listener |
| `Router.ChatMessageExample` | SocketIOSharp/Client/Events/SocketIOClient.SocketIOEvent.cs:178-193 | EVENT `["chat message", "hello"]` with one listener on "chat message" runs it once with `["hello"]` |
| `Router.AckPayloadIsNotAnEventName` | SocketIOSharp/Client/Events/SocketIOClient.SocketIOEvent.cs:33-35 | ACK `["ok", 42]` with id 7 runs no listener; the whole array goes to the ack manager |
| `Client.SocketIOClient.constructor` | SocketIOSharp/Client/Events/SocketIOClient.SocketIOEvent.cs:13-15 | a new client has empty registries, an idle reconstructor and an empty log |
| `Client.SocketIOClient.On` | SocketIOSharp/Client/Events/SocketIOClient.SocketIOEvent.cs:136-147 | the event registry becomes `Registry.Add` of the old one; only that field changes |
| `Client.SocketIOClient.Off` | SocketIOSharp/Client/Events/SocketIOClient.SocketIOEvent.cs:149-155 | the event registry becomes `Registry.Remove` of the old one; only that field changes |
| `Client.SocketIOClient.OnAck` | SocketIOSharp/Client/Events/SocketIOClient.SocketIOEvent.cs:157-168 | the ack registry becomes `Registry.Add` of the old one; only that field changes |
| `Client.SocketIOClient.OffAck` | SocketIOSharp/Client/Events/SocketIOClient.SocketIOEvent.cs:170-176 | the ack registry becomes `Registry.Remove` of the old one; only that field changes |
| `Client.SocketIOClient.CallEventHandler` | SocketIOSharp/Client/Events/SocketIOClient.SocketIOEvent.cs:216-225 | the loop appends one call per registered listener, in order (see `EventCallsInOrder`); a null or unregistered name appends nothing |
| `Client.SocketIOClient.CallAckHandler` | SocketIOSharp/Client/Events/SocketIOClient.SocketIOEvent.cs:195-214 | the loop appends one call per registered ack listener, in order, each with the action `Reply(id)` |
| `Client.SocketIOClient.InvokeEmitBack` | SocketIOSharp/Client/Events/SocketIOClient.SocketIOEvent.cs:205-208 | calling the action emits exactly one ACK packet with its id and the reply array |
| `Client.SocketIOClient.CallHandler` | SocketIOSharp/Client/Events/SocketIOClient.SocketIOEvent.cs:178-193 | appends exactly `Dispatch.HandlerEffects` for the packet |
| `Client.SocketIOClient.HandleConnect` | SocketIOSharp/Client/Events/SocketIOClient.SocketIOEvent.cs:55-58 | fires "connection" with no arguments |
| `Client.SocketIOClient.HandleDisconnect` | SocketIOSharp/Client/Events/SocketIOClient.SocketIOEvent.cs:60-63 | logs one `Close()` |
| `Client.SocketIOClient.HandleEvent` | SocketIOSharp/Client/Events/SocketIOClient.SocketIOEvent.cs:65-68 | runs `CallHandler` |
| `Client.SocketIOClient.HandleAck` | SocketIOSharp/Client/Events/SocketIOClient.SocketIOEvent.cs:70-76 | appends exactly `Dispatch.AckEffects` |
| `Client.SocketIOClient.HandleError` | SocketIOSharp/Client/Events/SocketIOClient.SocketIOEvent.cs:78-81 | fires "error" with `Dispatch.ErrorArgs` |
| `Client.SocketIOClient.HandleBinaryPacket` | SocketIOSharp/Client/Events/SocketIOClient.SocketIOEvent.cs:93-108 | the new reconstructor state and the outcome are those of `Router.BinaryPacket` (see `BinaryPacketGate`) |
| `Client.SocketIOClient.HandleEtcSocketPacket` | SocketIOSharp/Client/Events/SocketIOClient.SocketIOEvent.cs:110-134 | the new reconstructor state and the appended effects are those of `Router.EtcPacket` (see `AttachmentGate`) |
| `Client.SocketIOClient.HandleSocketPacket` | SocketIOSharp/Client/Events/SocketIOClient.SocketIOEvent.cs:17-53 | the new state, the appended effects and the outcome are exactly `Router.Handle` of the old state |

## Behaviour of the code worth knowing

A reader who knows the Socket.IO protocol might expect something else in
these cases. The model does what the code does.

- A binary attachment that arrives while nothing is pending is ignored
  (lines 112-114). It does not raise a protocol error.
  `Router.AttachmentGate` states this.
- An ACK packet, and a reconstructed packet with an id of 0 or more, goes to
  `AckManager.Invoke` with its whole payload (lines 70-76, 122-124). It does
  not go to the ack listeners. Ack listeners run through `CallHandler`
  (line 190): for EVENT packets, and for a reconstructed BINARY_EVENT or
  BINARY_ACK whose id is below 0 (line 128).
- `HandleBinaryPacket` does not check the packet's kind. Only the
  BINARY_EVENT and BINARY_ACK branches of the router call it.

## Left out

- Concurrency: `ConcurrentDictionary` thread safety is not modelled. Registry
  access is sequential.
- Re-entrancy: listeners are opaque ids whose calls are logged. What they do
  is not modelled, nor are registrations made from inside a listener (a
  `foreach` over a list that changes during iteration).
- Null callbacks: `On`, `OnAck`, `Off` and `OffAck` accept a null delegate
  (lines 145, 153, 166, 174), and `CallEventHandler` and `CallAckHandler`
  then throw `NullReferenceException` when they reach it (lines 211, 222).
  The later listeners are not called, the exception leaves
  `HandleSocketPacket`, and on the re-routing path the `using` block still
  releases the reconstructor. Listener ids here are never null, so
  `Dispatch.EventCallsInOrder` and `Dispatch.AckCallsInOrder` hold only for
  registries without a null callback.
- Array-valued event names: `JToken` is a small value type here, and every
  name, `JArray` included, is compared by value. The source's dictionaries
  (line 14) use `JToken`'s default equality, which for a `JArray` is
  reference equality. So in the source an array name parsed from a payload
  (line 186) never finds an array key registered with `On` or `OnAck`
  (line 218), and no listener runs. In the model `Registry.Add`,
  `Client.SocketIOClient.CallEventHandler` and
  `Client.SocketIOClient.CallAckHandler` match such a name by value.
- Payload shape: payloads are arrays when present. The `(JArray)` cast failing
  on a non-array payload (lines 74, 182) is not modelled.
- Error text: the ERROR payload's `ToString()` is the `render` function the
  client is built with. JSON serialization is not part of this model.
- The reconstructor's body: `Reconstructor` is not part of this model. Its
  contract is assumed, in `reconstruction.dfy`. Placeholder substitution is
  not modelled: a reconstructed packet keeps its payload and carries the
  absorbed buffers. With this contract, a binary packet that declares no
  attachments is never delivered (`Router.ZeroAttachmentPacketIsNeverDelivered`).
- Null packets: the router reads `Packet.SocketPacketType` at line 19, so the
  later `Packet != null` tests (lines 72, 95, 112, 180) always hold on this
  path, and packets are non-null values here. Event names are
  `Option<Value>`, so the null-name tests of `On`, `Off`, `CallEventHandler`
  and `CallAckHandler` are modelled.
- External collaborators are recorded only as log entries: `Close()`,
  `Emit`, `AckManager.Invoke` and `SocketIOPacket.Factory.CreateAckPacket`
  (`Packets.AckPacket`).
- Exception messages: the `string.Format` message text is not modelled. The
  `Fail` outcome carries the two packets the message names.
- Exceptions after the first: `Router.Run` stops at the first exception,
  because the exception propagates to whatever feeds the client.
- One-shot use: the emit-back action is not limited to one call, and neither
  is the C# lambda. Each call emits one packet.
- `HandleBinaryEvent` and `HandleBinaryAck` (lines 83-91) only forward to
  `HandleBinaryPacket`. The router calls `HandleBinaryPacket` directly.
- `Event.DISCONNECT` (line 230) is not used by this code.
