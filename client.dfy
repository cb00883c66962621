/** The client's packet handling and listener registry, as the client runs it:
    dictionaries and a reconstructor updated in place, `foreach` loops that run
    listeners, and an append-only log of the side effects. Every method is
    proved to do what the pure definitions in registry.dfy, dispatch.dfy and
    router.dfy say.
 */
module Client {
  import opened Packets
  import opened Registry
  import opened Reconstruction
  import opened Dispatch
  import Router

  class SocketIOClient {
    var eventHandlers: Handlers
    var ackHandlers: Handlers
    const reconstructor: Reconstructor
    /** Listener calls, ack manager calls, emitted packets and `Close()`, in order. */
    var log: seq<Effect>
    /** `JToken.ToString()`, the text of an ERROR payload. */
    const render: seq<Value> -> string

    ghost function State(): Router.State
      reads this, reconstructor
    {
      Router.State(eventHandlers, ackHandlers, reconstructor.State())
    }

    ghost predicate Valid()
      reads this, reconstructor
    {
      reconstructor.Valid()
    }

    constructor (render: seq<Value> -> string)
      ensures Valid() && fresh(reconstructor)
      ensures State() == Router.State(map[], map[], IDLE) && log == [] && this.render == render
    {
      eventHandlers, ackHandlers, log := map[], map[], [];
      reconstructor := new Reconstructor();
      this.render := render;
    }

    /** `On(JToken, SocketIOEventAction)`. */
    method On(name: Option<Value>, callback: ListenerId)
      modifies this`eventHandlers
      ensures eventHandlers == Add(old(eventHandlers), name, callback)
    {
      if name.Some? {
        if name.value !in eventHandlers {
          eventHandlers := eventHandlers[name.value := []];
        }
        eventHandlers := eventHandlers[name.value := eventHandlers[name.value] + [callback]];
      }
    }

    /** `Off(JToken, SocketIOEventAction)`. */
    method Off(name: Option<Value>, callback: ListenerId)
      modifies this`eventHandlers
      ensures eventHandlers == Remove(old(eventHandlers), name, callback)
    {
      if name.Some? && name.value in eventHandlers {
        eventHandlers := eventHandlers[name.value := RemoveFirst(eventHandlers[name.value], callback)];
      }
    }

    /** `On(JToken, SocketIOAckAction)`. */
    method OnAck(name: Option<Value>, callback: ListenerId)
      modifies this`ackHandlers
      ensures ackHandlers == Add(old(ackHandlers), name, callback)
    {
      if name.Some? {
        if name.value !in ackHandlers {
          ackHandlers := ackHandlers[name.value := []];
        }
        ackHandlers := ackHandlers[name.value := ackHandlers[name.value] + [callback]];
      }
    }

    /** `Off(JToken, SocketIOAckAction)`. */
    method OffAck(name: Option<Value>, callback: ListenerId)
      modifies this`ackHandlers
      ensures ackHandlers == Remove(old(ackHandlers), name, callback)
    {
      if name.Some? && name.value in ackHandlers {
        ackHandlers := ackHandlers[name.value := RemoveFirst(ackHandlers[name.value], callback)];
      }
    }

    /** `CallEventHandler`: each listener registered for the name, in order. */
    method CallEventHandler(name: Option<Value>, data: seq<Value>)
      modifies this`log
      ensures log == old(log) + EventCalls(Listeners(eventHandlers, name), data)
    {
      if name.Some? && name.value in eventHandlers {
        var listeners := eventHandlers[name.value];
        var i := 0;
        while i < |listeners|
          invariant 0 <= i <= |listeners|
          invariant log == old(log) + EventCalls(listeners[..i], data)
        {
          EventCallsAppend(listeners[..i], listeners[i], data);
          assert listeners[..i + 1] == listeners[..i] + [listeners[i]];
          log := log + [EventCall(listeners[i], data)];
          i := i + 1;
        }
        assert listeners[..i] == listeners;
      }
    }

    /** `CallAckHandler`: each ack listener registered for the name, in order,
        with an emit-back action for an id of 0 or more and null otherwise. */
    method CallAckHandler(name: Option<Value>, packetId: int, data: seq<Value>)
      modifies this`log
      ensures log == old(log) + AckCalls(Listeners(ackHandlers, name), data, Reply(packetId))
    {
      if name.Some? && name.value in ackHandlers {
        var listeners := ackHandlers[name.value];
        var i := 0;
        while i < |listeners|
          invariant 0 <= i <= |listeners|
          invariant log == old(log) + AckCalls(listeners[..i], data, Reply(packetId))
        {
          var action: Option<EmitBack> := None;
          if packetId >= 0 {
            action := Some(EmitBack(packetId));
          }
          AckCallsAppend(listeners[..i], listeners[i], data, action);
          assert listeners[..i + 1] == listeners[..i] + [listeners[i]];
          log := log + [AckCall(listeners[i], data, action)];
          i := i + 1;
        }
        assert listeners[..i] == listeners;
      }
    }

    /** The body of the emit-back action: emits one ACK packet with the bound id
        and the reply array. */
    method InvokeEmitBack(action: EmitBack, reply: seq<Value>)
      modifies this`log
      ensures log == old(log) + [Emitted(ReplyPacket(action, reply))]
    {
      log := log + [Emitted(AckPacket(action.id, reply))];
    }

    /** `CallHandler`: the payload's head is the event name, the rest its arguments. */
    method CallHandler(p: Packet)
      modifies this`log
      ensures log == old(log) + HandlerEffects(eventHandlers, ackHandlers, p)
    {
      if p.payload.Some? {
        var split := Split(p.payload.value);
        if split.Some? {
          var (name, data) := split.value;
          ghost var calls := EventCalls(Listeners(eventHandlers, Some(name)), data);
          ghost var ackCalls := AckCalls(Listeners(ackHandlers, Some(name)), data, Reply(p.id));
          assert HandlerEffects(eventHandlers, ackHandlers, p) == calls + ackCalls;
          CallEventHandler(Some(name), data);
          CallAckHandler(Some(name), p.id, data);
          assert log == old(log) + calls + ackCalls;
        }
      }
    }

    method HandleConnect()
      modifies this`log
      ensures log == old(log) + EventCalls(Listeners(eventHandlers, Some(CONNECTION)), [])
    {
      CallEventHandler(Some(CONNECTION), []);
    }

    method HandleDisconnect()
      modifies this`log
      ensures log == old(log) + [Closed]
    {
      log := log + [Closed];
    }

    method HandleEvent(p: Packet)
      modifies this`log
      ensures log == old(log) + HandlerEffects(eventHandlers, ackHandlers, p)
    {
      CallHandler(p);
    }

    method HandleAck(p: Packet)
      modifies this`log
      ensures log == old(log) + AckEffects(p)
    {
      if p.payload.Some? {
        log := log + [AckInvoked(p.id, p.payload.value)];
      }
    }

    method HandleError(p: Packet)
      modifies this`log
      ensures log == old(log) + EventCalls(Listeners(eventHandlers, Some(ERROR)), ErrorArgs(render, p))
    {
      var text := if p.payload.Some? then render(p.payload.value) else "";
      CallEventHandler(Some(ERROR), [JString(text)]);
    }

    /** `HandleBinaryPacket`: accepted only while the reconstructor is idle. */
    method HandleBinaryPacket(p: Packet) returns (r: Outcome)
      requires Valid()
      modifies reconstructor
      ensures Valid()
      ensures var t := Router.BinaryPacket(old(State()), p);
        State() == t.state && r == t.outcome
    {
      if reconstructor.constructeeTokenCount == 0 {
        reconstructor.SetPacket(p);
        r := Pass;
      } else {
        r := Fail(p, reconstructor.originalPacket);
      }
    }

    /** `HandleEtcSocketPacket`: absorbs a binary frame while attachments are
        pending and re-routes the finished packet before releasing the
        reconstructor. */
    method HandleEtcSocketPacket(p: Packet, isBinary: bool)
      requires Valid()
      modifies this`log, reconstructor
      ensures Valid()
      ensures var t := Router.EtcPacket(old(State()), p, isBinary);
        State() == t.state && log == old(log) + t.effects
    {
      if isBinary {
        if reconstructor.constructeeTokenCount > 0 {
          var reconstructed := reconstructor.Reconstruct(p.binaryData);
          if reconstructor.constructeeTokenCount == 0 {
            if reconstructed.id >= 0 {
              HandleAck(reconstructed);
            } else {
              HandleEvent(reconstructed);
            }
            reconstructor.Dispose();
          }
        }
      }
    }

    /** `HandleSocketPacket`: the router. */
    method HandleSocketPacket(p: Packet, isBinary: bool) returns (r: Outcome)
      requires Valid()
      modifies this`log, reconstructor
      ensures Valid()
      ensures var t := Router.Handle(old(State()), p, isBinary, render);
        State() == t.state && log == old(log) + t.effects && r == t.outcome
    {
      r := Pass;
      match p.kind {
        case Connect => HandleConnect();
        case Disconnect => HandleDisconnect();
        case Event => HandleEvent(p);
        case Ack => HandleAck(p);
        case Error => HandleError(p);
        case BinaryEvent => r := HandleBinaryPacket(p);
        case BinaryAck => r := HandleBinaryPacket(p);
        case Other => HandleEtcSocketPacket(p, isBinary);
      }
    }
  }
}
