/** The binary reconstructor, as far as the dispatcher relies on it.

    The `Reconstructor` class itself is not part of this model; what is written
    here is the contract the dispatcher assumes of it:
    - `SetPacket(p)` remembers `p` and sets the pending count to the number of
      attachments `p` declares;
    - `Reconstruct(data)` absorbs one attachment, lowers the count by one and
      returns the packet under construction, which keeps the kind and the id
      of the remembered packet;
    - `Dispose()` (the `using` block) puts it back to idle.
    A count of 0 is both "idle" and "just completed".
 */
module Reconstruction {
  import opened Packets

  /** The reconstructor's observable state: `ConstructeeTokenCount`,
      `OriginalPacket` and the attachments absorbed so far. */
  datatype Recon = Recon(count: nat, original: Option<Packet>, absorbed: seq<Bytes>)
  {
    /** Attachments are pending only for a remembered packet. */
    predicate Valid()
    {
      count > 0 ==> original.Some?
    }
  }

  const IDLE: Recon := Recon(0, None, [])

  /** The state `SetPacket(p)` leaves. */
  function Begin(p: Packet): Recon
  {
    Recon(p.attachmentCount, Some(p), [])
  }

  /** The packet under construction: the remembered packet with the attachments
      absorbed so far (placeholder substitution is not part of this model). */
  function Materialized(p: Packet, absorbed: seq<Bytes>): (q: Packet)
    ensures q.kind == p.kind && q.id == p.id && q.payload == p.payload
    ensures q.attachments == absorbed
  {
    p.(attachments := absorbed)
  }

  /** The state `Reconstruct(data)` leaves and the packet it returns. */
  function Absorb(r: Recon, data: Bytes): (Recon, Packet)
    requires r.Valid() && r.count > 0
  {
    var absorbed := r.absorbed + [data];
    (Recon(r.count - 1, r.original, absorbed), Materialized(r.original.value, absorbed))
  }

  class Reconstructor {
    var constructeeTokenCount: nat
    var originalPacket: Option<Packet>
    var absorbed: seq<Bytes>

    function State(): Recon
      reads this
    {
      Recon(constructeeTokenCount, originalPacket, absorbed)
    }

    ghost predicate Valid()
      reads this
    {
      State().Valid()
    }

    constructor ()
      ensures State() == IDLE
    {
      constructeeTokenCount, originalPacket, absorbed := 0, None, [];
    }

    method SetPacket(p: Packet)
      modifies this
      ensures Valid() && State() == Begin(p)
    {
      constructeeTokenCount, originalPacket, absorbed := p.attachmentCount, Some(p), [];
    }

    method Reconstruct(data: Bytes) returns (q: Packet)
      requires Valid() && constructeeTokenCount > 0
      modifies this
      ensures Valid() && (State(), q) == Absorb(old(State()), data)
    {
      absorbed := absorbed + [data];
      constructeeTokenCount := constructeeTokenCount - 1;
      q := Materialized(originalPacket.value, absorbed);
    }

    method Dispose()
      modifies this
      ensures Valid() && State() == IDLE
    {
      constructeeTokenCount, originalPacket, absorbed := 0, None, [];
    }
  }
}
