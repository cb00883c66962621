/** What delivering an event or an acknowledgement does, written as the effects
    it appends to the client's log, in order.
 */
module Dispatch {
  import opened Packets
  import opened Registry

  /** The emit-back action handed to an ack listener, bound to a packet id:
      calling it with a reply array emits one ACK packet. */
  datatype EmitBack = EmitBack(id: int)

  /** One observable side effect of the dispatcher. */
  datatype Effect =
    | EventCall(listener: ListenerId, args: seq<Value>)                    // an event listener runs
    | AckCall(listener: ListenerId, args: seq<Value>, reply: Option<EmitBack>) // an ack listener runs
    | AckInvoked(id: int, data: seq<Value>)                                // AckManager.Invoke(id, data)
    | Emitted(packet: Packet)                                              // Emit(packet)
    | Closed                                                               // Close()

  /** The action an ack listener receives: one bound to the id when the id is
      0 or more, none (null) otherwise. */
  function Reply(id: int): (a: Option<EmitBack>)
    ensures a.Some? <==> id >= 0
    ensures a.Some? ==> a.value.id == id
  {
    if id >= 0 then Some(EmitBack(id)) else None
  }

  /** The packet an emit-back action sends for a reply array. */
  function ReplyPacket(a: EmitBack, data: seq<Value>): (p: Packet)
    ensures p.kind == Ack && p.id == a.id && p.payload == Some(data)
  {
    AckPacket(a.id, data)
  }

  /** `CallEventHandler`'s loop over a listener list. */
  function EventCalls(listeners: seq<ListenerId>, args: seq<Value>): (calls: seq<Effect>)
    ensures |calls| == |listeners|
  {
    if listeners == [] then [] else [EventCall(listeners[0], args)] + EventCalls(listeners[1..], args)
  }

  /** `CallAckHandler`'s loop over a listener list. */
  function AckCalls(listeners: seq<ListenerId>, args: seq<Value>, reply: Option<EmitBack>): (calls: seq<Effect>)
    ensures |calls| == |listeners|
  {
    if listeners == [] then [] else [AckCall(listeners[0], args, reply)] + AckCalls(listeners[1..], args, reply)
  }

  lemma {:induction false} EventCallsAppend(listeners: seq<ListenerId>, x: ListenerId, args: seq<Value>)
    ensures EventCalls(listeners + [x], args) == EventCalls(listeners, args) + [EventCall(x, args)]
  {
    if listeners != [] {
      assert (listeners + [x])[1..] == listeners[1..] + [x];
      EventCallsAppend(listeners[1..], x, args);
    }
  }

  lemma {:induction false} AckCallsAppend(listeners: seq<ListenerId>, x: ListenerId, args: seq<Value>, reply: Option<EmitBack>)
    ensures AckCalls(listeners + [x], args, reply) == AckCalls(listeners, args, reply) + [AckCall(x, args, reply)]
  {
    if listeners != [] {
      assert (listeners + [x])[1..] == listeners[1..] + [x];
      AckCallsAppend(listeners[1..], x, args, reply);
    }
  }

  /** Every listener in the list is called exactly once, in list order, each
      with the same argument array, and nothing else happens. */
  lemma {:induction false} EventCallsInOrder(listeners: seq<ListenerId>, args: seq<Value>)
    ensures |EventCalls(listeners, args)| == |listeners|
    ensures forall i :: 0 <= i < |listeners| ==> EventCalls(listeners, args)[i] == EventCall(listeners[i], args)
  {
    if listeners != [] {
      EventCallsInOrder(listeners[1..], args);
    }
  }

  /** Every ack listener is called exactly once, in list order, with the same
      arguments and the same emit-back action, and nothing is emitted by the
      dispatch itself. */
  lemma {:induction false} AckCallsInOrder(listeners: seq<ListenerId>, args: seq<Value>, reply: Option<EmitBack>)
    ensures |AckCalls(listeners, args, reply)| == |listeners|
    ensures forall i :: 0 <= i < |listeners| ==> AckCalls(listeners, args, reply)[i] == AckCall(listeners[i], args, reply)
  {
    if listeners != [] {
      AckCallsInOrder(listeners[1..], args, reply);
    }
  }

  /** The ack path for packet id `id`: with an id of 0 or more every listener
      gets an action bound to `id`, whose reply is an ACK packet with that id
      and the reply array; with a negative id every listener gets none. */
  lemma AckListenersReplyWithPacketId(listeners: seq<ListenerId>, args: seq<Value>, id: int, data: seq<Value>)
    ensures forall e :: e in AckCalls(listeners, args, Reply(id)) ==> e.AckCall?
    ensures id < 0 ==> forall e :: e in AckCalls(listeners, args, Reply(id)) ==> e.reply.None?
    ensures id >= 0 ==> forall e :: e in AckCalls(listeners, args, Reply(id)) ==>
      e.reply.Some? && ReplyPacket(e.reply.value, data) == Packet(Ack, id, Some(data), 0, [], [])
  {
    AckCallsInOrder(listeners, args, Reply(id));
    forall e | e in AckCalls(listeners, args, Reply(id))
      ensures e == AckCall(e.listener, args, Reply(id))
    {
      var i :| 0 <= i < |listeners| && AckCalls(listeners, args, Reply(id))[i] == e;
    }
  }

  /** The two loops together only call listeners from their lists, each with
      the same arguments, and every ack listener with the same action. */
  lemma ListenerCallsOnly(events: seq<ListenerId>, acks: seq<ListenerId>, args: seq<Value>, reply: Option<EmitBack>)
    ensures forall e :: e in EventCalls(events, args) + AckCalls(acks, args, reply) ==>
      && (e.EventCall? || e.AckCall?)
      && e.args == args
      && (e.EventCall? ==> e.listener in events)
      && (e.AckCall? ==> e.listener in acks && e.reply == reply)
  {
    EventCallsInOrder(events, args);
    AckCallsInOrder(acks, args, reply);
    var ev, ak := EventCalls(events, args), AckCalls(acks, args, reply);
    forall e: Effect | e in ev + ak
      ensures (e.EventCall? || e.AckCall?) && e.args == args
      ensures e.EventCall? ==> e.listener in events
      ensures e.AckCall? ==> e.listener in acks && e.reply == reply
    {
      if e in ev {
        var i :| 0 <= i < |ev| && ev[i] == e;
      } else {
        var i :| 0 <= i < |ak| && ak[i] == e;
      }
    }
  }

  /** The head/tail split of `CallHandler`'s queue: the first element names the
      event, the remaining ones are its arguments; an empty array has neither. */
  function Split(items: seq<Value>): (r: Option<(Value, seq<Value>)>)
    ensures r.None? <==> items == []
    ensures r.Some? ==> items == [r.value.0] + r.value.1
  {
    if items == [] then None else Some((items[0], items[1..]))
  }

  /** `CallHandler`: the event listeners for the payload's head, then its ack
      listeners; nothing for an absent or empty payload. */
  function HandlerEffects(events: Handlers, acks: Handlers, p: Packet): (effects: seq<Effect>)
    ensures forall e :: e in effects ==> e.EventCall? || e.AckCall?
    ensures forall e :: e in effects && e.AckCall? ==> e.reply == Reply(p.id)
    ensures effects != [] ==> p.payload.Some? && p.payload.value != []
    ensures p.payload.Some? && p.payload.value != [] ==>
      var name, args := Some(p.payload.value[0]), p.payload.value[1..];
      && |effects| == |Listeners(events, name)| + |Listeners(acks, name)|
      && forall e :: e in effects ==> e.args == args
  {
    if p.payload.None? then []
    else match Split(p.payload.value)
      case None => []
      case Some((name, args)) =>
        ListenerCallsOnly(Listeners(events, Some(name)), Listeners(acks, Some(name)), args, Reply(p.id));
        EventCalls(Listeners(events, Some(name)), args) + AckCalls(Listeners(acks, Some(name)), args, Reply(p.id))
  }

  /** A payload `[e] + rest` dispatches `e` with arguments `rest`, event
      listeners first; an absent or empty payload dispatches nothing. */
  lemma HandlerSplitsNameFromArgs(events: Handlers, acks: Handlers, p: Packet)
    ensures p.payload.None? || p.payload == Some([]) ==> HandlerEffects(events, acks, p) == []
    ensures p.payload.Some? && p.payload.value != [] ==>
      var e, rest := p.payload.value[0], p.payload.value[1..];
      HandlerEffects(events, acks, p)
        == EventCalls(Listeners(events, Some(e)), rest) + AckCalls(Listeners(acks, Some(e)), rest, Reply(p.id))
  {
  }

  /** `HandleAck`: the ack manager is told the id and the reply array, and only
      when there is a payload; no listener runs. */
  function AckEffects(p: Packet): (effects: seq<Effect>)
    ensures |effects| <= 1
    ensures effects == [] <==> p.payload.None?
    ensures forall e :: e in effects ==> e == AckInvoked(p.id, p.payload.value)
  {
    if p.payload.Some? then [AckInvoked(p.id, p.payload.value)] else []
  }

  /** `HandleError`'s one argument: the payload's text, or "" without a payload. */
  function ErrorArgs(render: seq<Value> -> string, p: Packet): (args: seq<Value>)
    ensures |args| == 1 && args[0].JString?
    ensures p.payload.None? ==> args[0].s == ""
    ensures p.payload.Some? ==> args[0].s == render(p.payload.value)
  {
    [JString(if p.payload.Some? then render(p.payload.value) else "")]
  }
}
