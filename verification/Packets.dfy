// The values the protocol modules share: application messages, control packets
// and the phases of an outbound exchange.

module Packets {

  /** An eight-bit byte. */
  type byte = b: int | 0 <= b < 256

  /** What an application publishes: the part of a PUBLISH that the exchange carries but never inspects. */
  datatype Content = Content(topic: seq<byte>, properties: seq<byte>, payload: seq<byte>)

  /**
   * One publication. `tag` is its position in the history of publications; no handler reads it.
   * It only lets two publications with equal content be told apart.
   */
  datatype Message = Message(qos: int, retain: bool, content: Content, tag: nat)

  /** The control packets of the QoS 0, 1 and 2 exchanges. */
  datatype Packet =
    | Publish(id: int, dup: bool, msg: Message)
    | Puback(id: int)
    | Pubrec(id: int, rc: int)
    | Pubrel(id: int, dup: bool)
    | Pubcomp(id: int)

  /** The packet an outbound QoS 2 message waits for (nextMessageType). */
  datatype Phase = PUBREC | PUBCOMP

  /** Reason codes from this value on are errors (MQTTReasonCodes.h). */
  const UNSPECIFIED_ERROR := 128
}
