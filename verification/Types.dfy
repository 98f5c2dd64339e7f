/** The values the client works on: bytes, MQTT 5.0 properties and in-flight messages. */
module Types {

  type Byte = x: int | 0 <= x < 256

  const MAX_MSG_ID := 65535

  /** nextMessageType: the packet an exchange is waiting for. */
  datatype Awaiting = AwaitPubrec | AwaitPubrel | AwaitPubcomp

  /** A property value; the constructor plays the part of the tag of the source's union. */
  datatype PropertyValue =
    | ByteValue(byte: Byte)
    | TwoByteValue(integer2: int)
    | FourByteValue(integer4: int)
    | DataValue(data: seq<Byte>)
    | PairValue(name: seq<Byte>, value: seq<Byte>)

  datatype Property = Property(identifier: int, value: PropertyValue)

  /** What an application publishes. */
  datatype Content = Content(retain: bool, topic: seq<Byte>, payload: seq<Byte>, properties: seq<Property>)

  /** An in-flight message of either direction. */
  datatype Message = Message(msgid: int, qos: int, content: Content, next: Awaiting)
}
