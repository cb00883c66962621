/** The values and packets the dispatcher works on.

    Structured payload values (Newtonsoft `JToken`s in the client) are modelled
    as a small value type compared by value, which is how scalar event names
    are used as dictionary keys. Payloads are arrays when present.
 */
module Packets {

  datatype Option<+T> = None | Some(value: T)

  type Byte = bv8
  type Bytes = seq<Byte>

  /** A structured value: the subset of JSON the model needs, plus raw bytes. */
  datatype Value =
    | JNull
    | JBool(b: bool)
    | JInteger(i: int)
    | JString(s: string)
    | JBytes(data: Bytes)
    | JArray(items: seq<Value>)

  /** `SocketIOPacketType`; `Other` stands for every kind the router sends to its default branch. */
  datatype Kind = Connect | Disconnect | Event | Ack | Error | BinaryEvent | BinaryAck | Other

  /** One decoded frame. */
  datatype Packet = Packet(
    kind: Kind,
    id: int,                      // correlation id; negative means no acknowledgement is expected
    payload: Option<seq<Value>>,  // JsonData, an array when present
    attachmentCount: nat,         // number of binary attachments a binary packet declares
    binaryData: Bytes,            // BinaryData carried by an attachment frame
    attachments: seq<Bytes>)      // attachments absorbed into a reconstructed packet

  /** The `SocketIOClientException` a protocol violation raises: the offending
      packet and the packet the reconstructor holds, if any. */
  datatype Outcome = Pass | Fail(offending: Packet, inProgress: Option<Packet>)

  /** `Event.CONNECTION` and `Event.ERROR`. */
  const CONNECTION: Value := JString("connection")
  const ERROR: Value := JString("error")

  /** `SocketIOPacket.Factory.CreateAckPacket(new JArray(data), id)`, the packet an
      emit-back action sends (the factory itself is not part of this model). */
  function AckPacket(id: int, data: seq<Value>): Packet
  {
    Packet(Ack, id, Some(data), 0, [], [])
  }
}
