/** The packet router and the binary reconstruction gate, as a function from
    the client's state and one incoming frame to its new state, the effects it
    appends to the log and whether it raised. The client's `HandleSocketPacket`
    is proved to do exactly this (client.dfy).
 */
module Router {
  import opened Packets
  import opened Registry
  import opened Reconstruction
  import opened Dispatch

  /** Everything the dispatcher reads or writes besides its log. */
  datatype State = State(events: Handlers, acks: Handlers, recon: Recon)

  /** The result of handling frames: new state, effects in order, outcome. */
  datatype Step = Step(state: State, effects: seq<Effect>, outcome: Outcome)

  /** A frame as the transport hands it over: the packet and whether it
      arrived as a binary frame. */
  datatype Frame = Frame(packet: Packet, isBinary: bool)

  predicate IsBinaryKind(k: Kind)
  {
    k == BinaryEvent || k == BinaryAck
  }

  /** `HandleBinaryPacket`: a binary packet is taken on only while the
      reconstructor is idle; otherwise it raises and nothing changes. */
  function BinaryPacket(s: State, p: Packet): (t: Step)
    ensures t.state.events == s.events && t.state.acks == s.acks && t.effects == []
    ensures t.outcome.Pass? <==> s.recon.count == 0
    ensures s.recon.Valid() ==> t.state.recon.Valid()
  {
    if s.recon.count == 0 then Step(s.(recon := Begin(p)), [], Pass)
    else Step(s, [], Fail(p, s.recon.original))
  }

  /** Re-routing of a completed packet: as an ACK when its id is 0 or more,
      as an EVENT otherwise. */
  function Deliver(s: State, q: Packet): (effects: seq<Effect>)
    ensures q.id >= 0 ==> |effects| <= 1 && forall e :: e in effects ==> e.AckInvoked? && e.id == q.id && Some(e.data) == q.payload
    ensures q.id < 0 ==> forall e :: e in effects ==> e.EventCall? || (e.AckCall? && e.reply.None?)
  {
    if q.id >= 0 then AckEffects(q) else HandlerEffects(s.events, s.acks, q)
  }

  /** `HandleEtcSocketPacket`: a binary frame while attachments are pending is
      absorbed; when that was the last one the finished packet is re-routed and
      the reconstructor released. Anything else is ignored. */
  function EtcPacket(s: State, p: Packet, isBinary: bool): (t: Step)
    requires s.recon.Valid()
    ensures t.state.events == s.events && t.state.acks == s.acks
    ensures t.outcome == Pass && t.state.recon.Valid()
    ensures !isBinary || s.recon.count == 0 ==> t == Step(s, [], Pass)
    ensures isBinary && s.recon.count > 0 ==> t.state.recon.count == s.recon.count - 1
    ensures t.effects != [] ==> isBinary && s.recon.count == 1 && t.state.recon == IDLE
  {
    if isBinary && s.recon.count > 0 then
      var (r, q) := Absorb(s.recon, p.binaryData);
      if r.count == 0 then Step(s.(recon := IDLE), Deliver(s, q), Pass)
      else Step(s.(recon := r), [], Pass)
    else Step(s, [], Pass)
  }

  /** `HandleSocketPacket`: each kind goes to exactly one handler. Handling
      never touches the registries, keeps the reconstructor valid, and raises
      exactly for a binary packet arriving while attachments are pending, in
      which case nothing changes. Kinds other than the binary ones and the
      default branch leave the reconstructor alone. */
  function Handle(s: State, p: Packet, isBinary: bool, render: seq<Value> -> string): (t: Step)
    requires s.recon.Valid()
    ensures t.state.events == s.events && t.state.acks == s.acks
    ensures t.state.recon.Valid()
    ensures t.outcome.Fail? <==> IsBinaryKind(p.kind) && s.recon.count > 0
    ensures t.outcome.Fail? ==> t == Step(s, [], Fail(p, s.recon.original))
    ensures !IsBinaryKind(p.kind) && p.kind != Other ==> t.state == s
  {
    match p.kind
    case Connect => Step(s, EventCalls(Listeners(s.events, Some(CONNECTION)), []), Pass)
    case Disconnect => Step(s, [Closed], Pass)
    case Event => Step(s, HandlerEffects(s.events, s.acks, p), Pass)
    case Ack => Step(s, AckEffects(p), Pass)
    case Error => Step(s, EventCalls(Listeners(s.events, Some(ERROR)), ErrorArgs(render, p)), Pass)
    case BinaryEvent => BinaryPacket(s, p)
    case BinaryAck => BinaryPacket(s, p)
    case Other => EtcPacket(s, p, isBinary)
  }

  /** Frames handled one after the other; the first error stops the stream,
      since the exception propagates to whatever feeds the client. */
  function Run(s: State, frames: seq<Frame>, render: seq<Value> -> string): (t: Step)
    requires s.recon.Valid()
    ensures t.state.recon.Valid()
    ensures t.state.events == s.events && t.state.acks == s.acks
    decreases |frames|
  {
    if frames == [] then Step(s, [], Pass)
    else
      var first := Handle(s, frames[0].packet, frames[0].isBinary, render);
      if first.outcome.Fail? then first
      else
        var rest := Run(first.state, frames[1..], render);
        Step(rest.state, first.effects + rest.effects, rest.outcome)
  }

  /** An attachment frame carrying `data`. */
  function Attachment(data: Bytes): Frame
  {
    Frame(Packet(Other, -1, None, 0, data, []), true)
  }

  function Attachments(buffers: seq<Bytes>): (frames: seq<Frame>)
    ensures |frames| == |buffers|
  {
    if buffers == [] then [] else [Attachment(buffers[0])] + Attachments(buffers[1..])
  }

  /** Running `[f] + rest` is handling `f`, then, if it did not raise,
      running `rest` from where it left off. */
  lemma RunCons(s: State, f: Frame, rest: seq<Frame>, render: seq<Value> -> string)
    requires s.recon.Valid()
    ensures var first := Handle(s, f.packet, f.isBinary, render);
      Run(s, [f] + rest, render) ==
        if first.outcome.Fail? then first
        else
          var t := Run(first.state, rest, render);
          Step(t.state, first.effects + t.effects, t.outcome)
  {
    assert ([f] + rest)[0] == f;
    assert ([f] + rest)[1..] == rest;
  }

  /** The router's per-kind contract:
      CONNECT fires "connection" with no arguments; DISCONNECT closes;
      EVENT runs `CallHandler`; ACK tells the ack manager only when there is
      a payload; ERROR fires "error" with the payload's text or "". */
  lemma RoutesEachKindToItsHandler(s: State, p: Packet, isBinary: bool, render: seq<Value> -> string)
    requires s.recon.Valid()
    ensures var t := Handle(s, p, isBinary, render);
      && (p.kind == Connect ==> t.effects == EventCalls(Listeners(s.events, Some(JString("connection"))), []))
      && (p.kind == Disconnect ==> t.effects == [Closed])
      && (p.kind == Event ==> t.effects == HandlerEffects(s.events, s.acks, p))
      && (p.kind == Ack && p.payload.None? ==> t.effects == [])
      && (p.kind == Ack && p.payload.Some? ==> t.effects == [AckInvoked(p.id, p.payload.value)])
      && (p.kind == Error && p.payload.None? ==> t.effects == EventCalls(Listeners(s.events, Some(JString("error"))), [JString("")]))
      && (p.kind == Error && p.payload.Some? ==>
            t.effects == EventCalls(Listeners(s.events, Some(JString("error"))), [JString(render(p.payload.value))]))
      && (IsBinaryKind(p.kind) || p.kind == Other ==> forall e :: e in t.effects ==> !e.Closed?)
  {
    if p.kind == Other {
      var t := Handle(s, p, isBinary, render);
      if isBinary && s.recon.count > 0 && s.recon.count == 1 {
        var q := Absorb(s.recon, p.binaryData).1;
        assert t.effects == Deliver(s, q);
      }
    }
  }

  /** The binary gate: a BINARY_EVENT or BINARY_ACK packet is accepted (the
      reconstructor remembers it and expects its declared attachments) exactly
      when the reconstructor is idle; otherwise it raises, naming the packet
      and the one in progress, and the state is unchanged. */
  lemma BinaryPacketGate(s: State, p: Packet, isBinary: bool, render: seq<Value> -> string)
    requires s.recon.Valid() && IsBinaryKind(p.kind)
    ensures var t := Handle(s, p, isBinary, render);
      && t.effects == []
      && (s.recon.count == 0 ==> t.outcome == Pass && t.state == s.(recon := Recon(p.attachmentCount, Some(p), [])))
      && (s.recon.count > 0 ==> t.outcome == Fail(p, s.recon.original) && t.state == s)
  {
  }

  /** The default branch: a frame that is not binary, or a binary frame while
      nothing is pending, is ignored without raising. A binary frame while
      attachments are pending is absorbed; only the last one re-routes the
      finished packet (as an ACK for an id of 0 or more, as an EVENT otherwise)
      and releases the reconstructor to idle. */
  lemma AttachmentGate(s: State, p: Packet, isBinary: bool, render: seq<Value> -> string)
    requires s.recon.Valid() && p.kind == Other
    ensures var t := Handle(s, p, isBinary, render);
      && t.outcome == Pass
      && (!isBinary || s.recon.count == 0 ==> t == Step(s, [], Pass))
      && (isBinary && s.recon.count > 1 ==>
            t.effects == [] &&
            t.state.recon == Recon(s.recon.count - 1, s.recon.original, s.recon.absorbed + [p.binaryData]))
      && (isBinary && s.recon.count == 1 ==>
            var q := Materialized(s.recon.original.value, s.recon.absorbed + [p.binaryData]);
            && t.state.recon == IDLE
            && (q.id >= 0 ==> t.effects == AckEffects(q))
            && (q.id < 0 ==> t.effects == HandlerEffects(s.events, s.acks, q)))
  {
  }

  lemma SplitOffHead<T>(done: seq<T>, rest: seq<T>)
    requires rest != []
    ensures done + [rest[0]] + rest[1..] == done + rest
  {
    assert rest == [rest[0]] + rest[1..];
  }

  /** An attachment frame while more than one attachment is pending only
      absorbs it. */
  lemma AbsorbOne(s: State, data: Bytes, render: seq<Value> -> string)
    requires s.recon.Valid() && s.recon.count > 1
    ensures Handle(s, Attachment(data).packet, true, render)
      == Step(s.(recon := Recon(s.recon.count - 1, s.recon.original, s.recon.absorbed + [data])), [], Pass)
  {
    assert Handle(s, Attachment(data).packet, true, render) == EtcPacket(s, Attachment(data).packet, true);
  }

  /** An attachment frame while more than one attachment is pending only
      absorbs it: the run goes on from the lowered count. */
  lemma AbsorbFirst(s: State, buffers: seq<Bytes>, tail: seq<Frame>, render: seq<Value> -> string)
    requires s.recon.Valid() && s.recon.count > 1 && buffers != []
    ensures Run(s, Attachments(buffers) + tail, render)
      == Run(s.(recon := Recon(s.recon.count - 1, s.recon.original, s.recon.absorbed + [buffers[0]])),
             Attachments(buffers[1..]) + tail, render)
  {
    assert Attachments(buffers) + tail == [Attachment(buffers[0])] + (Attachments(buffers[1..]) + tail);
    RunCons(s, Attachment(buffers[0]), Attachments(buffers[1..]) + tail, render);
    AbsorbOne(s, buffers[0], render);
    var rest := Run(s.(recon := Recon(s.recon.count - 1, s.recon.original, s.recon.absorbed + [buffers[0]])),
                    Attachments(buffers[1..]) + tail, render);
    assert [] + rest.effects == rest.effects;
  }

  /** The last pending attachment, as the only frame, delivers the finished
      packet and releases the reconstructor. */
  lemma AbsorbLast(s: State, data: Bytes, render: seq<Value> -> string)
    requires s.recon.Valid() && s.recon.count == 1
    ensures Run(s, Attachments([data]), render)
      == Step(s.(recon := IDLE), Deliver(s, Materialized(s.recon.original.value, s.recon.absorbed + [data])), Pass)
  {
    var frames := Attachments([data]);
    assert frames == [Attachment(data)];
    assert frames[1..] == [];
    var first := Handle(s, Attachment(data).packet, true, render);
    assert first == Step(s.(recon := IDLE), Deliver(s, Materialized(s.recon.original.value, s.recon.absorbed + [data])), Pass);
    assert first.effects + [] == first.effects;
  }

  /** Absorbing fewer attachments than are pending delivers nothing and leaves
      the count lowered by the number absorbed; the run goes on from there. */
  lemma {:induction false} AbsorbSome(s: State, p: Packet, done: seq<Bytes>, rest: seq<Bytes>, tail: seq<Frame>, render: seq<Value> -> string)
    requires s.recon.count > |rest| && s.recon.original == Some(p) && s.recon.absorbed == done
    decreases |rest|
    ensures Run(s, Attachments(rest) + tail, render)
      == Run(s.(recon := Recon(s.recon.count - |rest|, Some(p), done + rest)), tail, render)
  {
    if rest == [] {
      assert done + rest == done;
      assert s.(recon := Recon(s.recon.count - |rest|, Some(p), done + rest)) == s;
      assert Attachments(rest) + tail == tail;
    } else {
      var s1 := s.(recon := Recon(s.recon.count - 1, Some(p), done + [rest[0]]));
      var s2 := s.(recon := Recon(s.recon.count - |rest|, Some(p), done + rest));
      AbsorbFirst(s, rest, tail, render);
      AbsorbSome(s1, p, done + [rest[0]], rest[1..], tail, render);
      SplitOffHead(done, rest);
      assert s1.(recon := Recon(s1.recon.count - |rest[1..]|, Some(p), done + [rest[0]] + rest[1..])) == s2;
    }
  }

  /** Absorbing exactly the pending attachments delivers the finished packet
      once and leaves the reconstructor idle. */
  lemma {:induction false} AbsorbAll(s: State, p: Packet, done: seq<Bytes>, rest: seq<Bytes>, render: seq<Value> -> string)
    requires |rest| > 0 && s.recon == Recon(|rest|, Some(p), done)
    decreases |rest|
    ensures Run(s, Attachments(rest), render)
      == Step(s.(recon := IDLE), Deliver(s, Materialized(p, done + rest)), Pass)
  {
    if |rest| == 1 {
      assert rest == [rest[0]];
      AbsorbLast(s, rest[0], render);
    } else {
      var s1 := s.(recon := Recon(|rest| - 1, Some(p), done + [rest[0]]));
      AbsorbFirst(s, rest, [], render);
      assert Attachments(rest) + [] == Attachments(rest);
      assert Attachments(rest[1..]) + [] == Attachments(rest[1..]);
      AbsorbAll(s1, p, done + [rest[0]], rest[1..], render);
      SplitOffHead(done, rest);
      assert Deliver(s1, Materialized(p, done + rest)) == Deliver(s, Materialized(p, done + rest));
    }
  }

  /** Reconstruction round trip: from idle, a binary packet declaring N > 0
      attachments followed by N attachment frames delivers the packet, with the
      N attachments in arrival order, exactly once (as an ACK for an id of 0 or
      more, as an EVENT otherwise), and the reconstructor is idle again. */
  lemma BinaryRoundTrip(s: State, p: Packet, buffers: seq<Bytes>, render: seq<Value> -> string)
    requires s.recon.Valid() && s.recon.count == 0
    requires IsBinaryKind(p.kind) && p.attachmentCount == |buffers| > 0
    ensures Run(s, [Frame(p, false)] + Attachments(buffers), render)
      == Step(s.(recon := IDLE), Deliver(s, p.(attachments := buffers)), Pass)
  {
    var s1 := s.(recon := Begin(p));
    RunCons(s, Frame(p, false), Attachments(buffers), render);
    assert Handle(s, p, false, render) == Step(s1, [], Pass);
    AbsorbAll(s1, p, [], buffers, render);
    assert [] + buffers == buffers;
  }

  /** A second binary packet before the first one's attachments are all in
      raises, naming the second packet and the first. */
  lemma SecondBinaryPacketWhileBusyRaises(s: State, p: Packet, buffers: seq<Bytes>, p2: Packet, render: seq<Value> -> string)
    requires s.recon.Valid() && s.recon.count == 0
    requires IsBinaryKind(p.kind) && IsBinaryKind(p2.kind) && |buffers| < p.attachmentCount
    ensures Run(s, [Frame(p, false)] + Attachments(buffers) + [Frame(p2, false)], render).outcome
      == Fail(p2, Some(p))
  {
    var s1 := s.(recon := Begin(p));
    assert [Frame(p, false)] + Attachments(buffers) + [Frame(p2, false)]
      == [Frame(p, false)] + (Attachments(buffers) + [Frame(p2, false)]);
    RunCons(s, Frame(p, false), Attachments(buffers) + [Frame(p2, false)], render);
    assert Handle(s, p, false, render) == Step(s1, [], Pass);
    AbsorbSome(s1, p, [], buffers, [Frame(p2, false)], render);
    var s2 := s1.(recon := Recon(p.attachmentCount - |buffers|, Some(p), [] + buffers));
    assert Run(s2, [Frame(p2, false)], render).outcome == Fail(p2, Some(p));
  }

  /** Under the assumed `SetPacket` contract, a binary packet that declares no
      attachments is accepted, leaves the count at 0 and is never delivered:
      a following attachment frame is ignored and a following binary packet
      replaces it. */
  lemma ZeroAttachmentPacketIsNeverDelivered(s: State, p: Packet, data: Bytes, p2: Packet, render: seq<Value> -> string)
    requires s.recon.Valid() && s.recon.count == 0
    requires IsBinaryKind(p.kind) && IsBinaryKind(p2.kind) && p.attachmentCount == 0
    ensures Run(s, [Frame(p, false), Attachment(data), Frame(p2, false)], render)
      == Step(s.(recon := Begin(p2)), [], Pass)
  {
    var frames := [Frame(p, false), Attachment(data), Frame(p2, false)];
    var s1 := s.(recon := Begin(p));
    assert Handle(s, p, false, render) == Step(s1, [], Pass);
    assert Handle(s1, Attachment(data).packet, true, render) == Step(s1, [], Pass);
    assert Handle(s1, p2, false, render) == Step(s.(recon := Begin(p2)), [], Pass);
    assert frames[1..] == [Attachment(data), Frame(p2, false)];
    assert frames[1..][1..] == [Frame(p2, false)];
    assert Run(s1, [Frame(p2, false)], render) == Step(s.(recon := Begin(p2)), [], Pass);
  }

  /** The ACK packet an emit-back action builds is, as a packet, routed to the
      ack manager with the same id and reply array, and runs no listener. */
  lemma EmitBackPacketRoutesToAckManager(s: State, a: EmitBack, data: seq<Value>, isBinary: bool, render: seq<Value> -> string)
    requires s.recon.Valid()
    ensures Handle(s, ReplyPacket(a, data), isBinary, render) == Step(s, [AckInvoked(a.id, data)], Pass)
  {
  }

  /** EVENT `["chat message", "hello"]` with id -1 and one listener on
      "chat message" runs that listener once with `["hello"]`. */
  lemma ChatMessageExample(s: State, listener: ListenerId, render: seq<Value> -> string)
    requires s.recon.Valid()
    requires s.events == map[JString("chat message") := [listener]] && s.acks == map[]
    ensures Handle(s, Packet(Event, -1, Some([JString("chat message"), JString("hello")]), 0, [], []), false, render).effects
      == [EventCall(listener, [JString("hello")])]
  {
    var items := [JString("chat message"), JString("hello")];
    assert Split(items) == Some((JString("chat message"), [JString("hello")]));
    assert EventCalls([listener], [JString("hello")]) == [EventCall(listener, [JString("hello")])];
  }

  /** ACK `["ok", 42]` with id 7 runs no listener whatever is registered under
      "ok": the whole array goes to the ack manager. */
  lemma AckPayloadIsNotAnEventName(s: State, render: seq<Value> -> string)
    requires s.recon.Valid()
    ensures Handle(s, Packet(Ack, 7, Some([JString("ok"), JInteger(42)]), 0, [], []), false, render).effects
      == [AckInvoked(7, [JString("ok"), JInteger(42)])]
  {
  }
}
