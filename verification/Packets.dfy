/** PUBLISH and acknowledgement packets, and their persisted form (src/MQTTPacket.c,
    src/MQTTPersistence.c).  A record is the fixed header followed by the buffers of the packet, one
    after the other. */
module Packets {
  import opened Wrappers
  import opened Types
  import opened Wire
  import opened Properties

  const PUBLISH := 3
  const PUBACK := 4
  const PUBREC := 5
  const PUBREL := 6
  const PUBCOMP := 7

  /** The bits of a PUBLISH header byte: type, DUP, QoS and RETAIN. */
  function PublishHeader(dup: bool, qos: int, retain: bool): (b: Byte)
    requires 0 <= qos <= 3
  {
    16 * PUBLISH + (if dup then 8 else 0) + 2 * qos + (if retain then 1 else 0)
  }

  function HeaderType(b: Byte): int { b / 16 }

  function HeaderDup(b: Byte): bool { b / 8 % 2 == 1 }

  function HeaderQos(b: Byte): int { b / 2 % 4 }

  function HeaderRetain(b: Byte): bool { b % 2 == 1 }

  lemma HeaderRoundTrip(dup: bool, qos: int, retain: bool)
    requires 0 <= qos <= 3
    ensures var b := PublishHeader(dup, qos, retain);
            HeaderType(b) == PUBLISH && HeaderDup(b) == dup && HeaderQos(b) == qos && HeaderRetain(b) == retain
  {
  }

  /** A publication the protocol can carry: a topic that is a C string of at most 65535 bytes,
      properties within range and none below version 5. */
  ghost predicate Publishable(v5: bool, c: Content) {
    && |c.topic| < 65536
    && (forall i :: 0 <= i < |c.topic| ==> c.topic[i] != 0)
    && AllWellTyped(c.properties)
    && (!v5 ==> c.properties == [])
  }

  /** The variable header of a PUBLISH after its topic: the message id and, in version 5, the
      properties. */
  function MiddleBytes(v5: bool, qos: int, msgid: nat, properties: seq<Property>): seq<Byte>
    requires AllWellTyped(properties)
  {
    if qos > 0 then if v5 then Int2(msgid) + EncodedList(properties) else Int2(msgid)
    else if v5 then EncodedList(properties) else []
  }

  /** Everything after the fixed header of a PUBLISH. */
  function PublishBody(v5: bool, qos: int, msgid: nat, c: Content): seq<Byte>
    requires AllWellTyped(c.properties)
  {
    LenBytes(c.topic) + MiddleBytes(v5, qos, msgid, c.properties) + c.payload
  }

  /** Small enough for the remaining length to fit its four bytes. */
  ghost predicate Encodable(v5: bool, qos: int, msgid: nat, c: Content) {
    Publishable(v5, c) && |PublishBody(v5, qos, msgid, c)| < VBI_LIMIT
  }

  /** A packet as it is kept in the store: header byte, remaining length, the rest. */
  function Framed(header: Byte, body: seq<Byte>): seq<Byte> {
    [header] + (VbiBytes(|body|) + body)
  }

  function PublishRecord(v5: bool, dup: bool, qos: int, msgid: nat, c: Content): seq<Byte>
    requires AllWellTyped(c.properties) && 0 <= qos <= 3
  {
    Framed(PublishHeader(dup, qos, c.retain), PublishBody(v5, qos, msgid, c))
  }

  /** A PUBREL as this code sends and stores it: no reason code and no properties. */
  function PubrelRecord(msgid: nat): seq<Byte> {
    Framed(16 * PUBREL + 2, Int2(msgid))
  }

  // ----- Parsing -----

  datatype Packet =
    | PublishPacket(header: Byte, topic: seq<Byte>, msgid: nat, properties: seq<Property>, payload: seq<Byte>)
    | AckPacket(header: Byte, msgid: nat, reason: Byte, properties: seq<Property>)

  /** MQTTPacket_publish. */
  function ParsePublish(v5: bool, header: Byte, data: seq<Byte>): Option<Packet> {
    match ReadLen(data, 0, |data|)
    case None => None
    case Some(topic) =>
      var p := 2 + |topic|;
      var idlen := if HeaderQos(header) > 0 then 2 else 0;
      if |data| - p < idlen then None
      else
        var msgid := if idlen > 0 then ReadInt(data, p) else 0;
        if !v5 then Some(PublishPacket(header, topic, msgid, [], data[p + idlen..]))
        else
          match ListAt(data, p + idlen, |data|)
          case None => None
          case Some(l) =>
            if l.next > |data| then None
            else Some(PublishPacket(header, topic, msgid, l.properties, data[l.next..]))
  }

  /** MQTTPacket_ack, for the packet types that carry a message id. */
  function ParseAck(v5: bool, header: Byte, data: seq<Byte>): Option<Packet> {
    if |data| < 2 then None
    else
      var reason := if v5 && |data| > 2 then data[2] else 0;
      if v5 && |data| > 3 then
        match ListAt(data, 3, |data|)
        case None => None
        case Some(l) => Some(AckPacket(header, ReadInt(data, 0), reason, l.properties))
      else Some(AckPacket(header, ReadInt(data, 0), reason, []))
  }

  /** MQTTPersistence_restorePacket, for the packet types that are ever stored. */
  function RestorePacket(v5: bool, buffer: seq<Byte>): Option<Packet> {
    if buffer == [] then None
    else
      match LengthAt(buffer, 1)
      case None => None
      case Some(d) =>
        if 1 + d.len + d.value != |buffer| then None
        else
          var kind, data := HeaderType(buffer[0]), buffer[1 + d.len..];
          if kind == PUBLISH then ParsePublish(v5, buffer[0], data)
          else if PUBACK <= kind <= PUBCOMP then ParseAck(v5, buffer[0], data)
          else None
  }

  // ----- Round trips -----

  /** A framed packet is taken apart into its header byte and body again. */
  lemma FramedRoundTrip(v5: bool, header: Byte, body: seq<Byte>)
    ensures RestorePacket(v5, Framed(header, body)) ==
            if HeaderType(header) == PUBLISH then ParsePublish(v5, header, body)
            else if PUBACK <= HeaderType(header) <= PUBCOMP then ParseAck(v5, header, body)
            else None
  {
    var buffer, n := Framed(header, body), VbiBytes(|body|);
    assert Present(buffer, 1, n) by {
      forall i | 0 <= i < |n| ensures buffer[1 + i] == n[i] {
        assert buffer[1 + i] == (n + body)[i];
      }
    }
    LengthRoundTrip(buffer, 1, |body|);
    assert buffer[1 + |n|..] == body by {
      assert buffer[1..] == n + body;
      assert buffer[1 + |n|..] == buffer[1..][|n|..];
    }
  }

  /** A body in pieces is parsed; the properties are read at mid, the payload starts at end. */
  lemma ReadableParses(v5: bool, header: Byte, data: seq<Byte>, c: Content, msgid: nat, at: nat, mid: nat, end: nat, r: Option<Packet>)
    requires at == 2 + |c.topic| && ReadLen(data, 0, |data|) == Some(c.topic) && mid == at + (if HeaderQos(header) > 0 then 2 else 0)
    requires mid <= end <= |data| && data[end..] == c.payload && (HeaderQos(header) > 0 ==> ReadInt(data, at) == msgid)
    requires (v5 ==> ListAt(data, mid, |data|) == Some(ReadList(c.properties, end))) && (!v5 ==> c.properties == [] && end == mid)
    requires r == Some(PublishPacket(header, c.topic, if HeaderQos(header) > 0 then msgid else 0, c.properties, c.payload))
    ensures ParsePublish(v5, header, data) == r
  {
  }

  lemma BodyPieces(data: seq<Byte>, topic: seq<Byte>, first: seq<Byte>, middle: seq<Byte>, payload: seq<Byte>)
    requires first == LenBytes(topic) && data == first + middle + payload && |topic| < 65536
    ensures ReadLen(data, 0, |data|) == Some(topic) && Present(data, |first|, middle)
    ensures data[|first| + |middle|..] == payload
  {
    FrontPieces(data, first, middle, payload);
    LenRoundTrip(data, 0, |data|, topic);
  }

  lemma FrontPieces(data: seq<Byte>, first: seq<Byte>, middle: seq<Byte>, payload: seq<Byte>)
    requires data == first + middle + payload
    ensures Present(data, 0, first) && Present(data, |first|, middle) && data[|first| + |middle|..] == payload
  {
  }

  lemma MiddleFound(v5: bool, qos: int, data: seq<Byte>, at: nat, mid: nat, msgid: nat, ps: seq<Property>, middle: seq<Byte>, end: nat)
    requires AllWellTyped(ps) && (!v5 ==> ps == []) && |data| < VBI_LIMIT && msgid < 65536
    requires middle == MiddleBytes(v5, qos, msgid, ps) && Present(data, at, middle) && mid == at + (if qos > 0 then 2 else 0)
    requires end == at + |middle|
    ensures mid <= end <= |data| && (qos > 0 ==> ReadInt(data, at) == msgid)
    ensures (v5 ==> ListAt(data, mid, |data|) == Some(ReadList(ps, end))) && (!v5 ==> ps == [] && end == mid)
  {
    if qos > 0 {
      if v5 {
        IdAndPropertiesFound(data, at, msgid, ps, EncodedList(ps), middle, end);
      } else {
        Int2RoundTrip(data, at, msgid);
      }
    } else if v5 {
      ListFound(data, at, ps, middle, end);
    }
  }

  lemma IdAndPropertiesFound(data: seq<Byte>, at: nat, msgid: nat, ps: seq<Property>, props: seq<Byte>, middle: seq<Byte>, end: nat)
    requires AllWellTyped(ps) && |data| < VBI_LIMIT && msgid < 65536
    requires props == EncodedList(ps) && middle == Int2(msgid) + props && Present(data, at, middle)
    requires end == at + |middle|
    ensures at + 2 <= end <= |data| && ReadInt(data, at) == msgid && ListAt(data, at + 2, |data|) == Some(ReadList(ps, end))
  {
    IdBeside(data, at, msgid, props, middle);
    ListFound(data, at + 2, ps, props, end);
  }

  lemma IdBeside(data: seq<Byte>, at: nat, msgid: nat, props: seq<Byte>, middle: seq<Byte>)
    requires msgid < 65536 && middle == Int2(msgid) + props && Present(data, at, middle)
    ensures at + |middle| <= |data| && |middle| == 2 + |props| && ReadInt(data, at) == msgid && Present(data, at + 2, props)
  {
    PresentSplit(data, at, Int2(msgid), props);
    Int2RoundTrip(data, at, msgid);
  }

  lemma PiecesParse(v5: bool, header: Byte, data: seq<Byte>, c: Content, msgid: nat, at: nat, middle: seq<Byte>, r: Option<Packet>)
    requires AllWellTyped(c.properties) && (!v5 ==> c.properties == [])
    requires |data| < VBI_LIMIT && msgid < 65536 && middle == MiddleBytes(v5, HeaderQos(header), msgid, c.properties)
    requires at == 2 + |c.topic| && ReadLen(data, 0, |data|) == Some(c.topic)
    requires Present(data, at, middle) && data[at + |middle|..] == c.payload
    requires r == Some(PublishPacket(header, c.topic, if HeaderQos(header) > 0 then msgid else 0, c.properties, c.payload))
    ensures ParsePublish(v5, header, data) == r
  {
    var mid := at + (if HeaderQos(header) > 0 then 2 else 0);
    MiddleFound(v5, HeaderQos(header), data, at, mid, msgid, c.properties, middle, at + |middle|);
    ReadableParses(v5, header, data, c, msgid, at, mid, at + |middle|, r);
  }

  /** Parsing the body of a PUBLISH gives back topic, id, properties and payload. */
  lemma PublishBodyRoundTrip(v5: bool, dup: bool, qos: int, msgid: nat, c: Content)
    requires 0 <= qos <= 3 && msgid < 65536 && Encodable(v5, qos, msgid, c)
    ensures ParsePublish(v5, PublishHeader(dup, qos, c.retain), PublishBody(v5, qos, msgid, c)) ==
            Some(PublishPacket(PublishHeader(dup, qos, c.retain), c.topic, if qos > 0 then msgid else 0, c.properties, c.payload))
  {
    HeaderRoundTrip(dup, qos, c.retain);
    BodyParses(v5, PublishHeader(dup, qos, c.retain), c, msgid, PublishBody(v5, qos, msgid, c), LenBytes(c.topic), MiddleBytes(v5, qos, msgid, c.properties),
               Some(PublishPacket(PublishHeader(dup, qos, c.retain), c.topic, if qos > 0 then msgid else 0, c.properties, c.payload)));
  }

  lemma BodyParses(v5: bool, header: Byte, c: Content, msgid: nat, data: seq<Byte>, first: seq<Byte>, middle: seq<Byte>, r: Option<Packet>)
    requires |c.topic| < 65536 && AllWellTyped(c.properties) && (!v5 ==> c.properties == []) && |data| < VBI_LIMIT && msgid < 65536
    requires first == LenBytes(c.topic) && middle == MiddleBytes(v5, HeaderQos(header), msgid, c.properties)
    requires data == first + middle + c.payload
    requires r == Some(PublishPacket(header, c.topic, if HeaderQos(header) > 0 then msgid else 0, c.properties, c.payload))
    ensures ParsePublish(v5, header, data) == r
  {
    BodyPieces(data, c.topic, first, middle, c.payload);
    PiecesParse(v5, header, data, c, msgid, |first|, middle, r);
  }

  lemma ListParts(data: seq<Byte>, pos: nat, bytes: seq<Byte>, prefix: seq<Byte>, props: seq<Byte>)
    requires props == prefix + bytes && Present(data, pos, props)
    ensures Present(data, pos, prefix) && Present(data, pos + |prefix|, bytes) && |props| == |prefix| + |bytes|
  {
    PresentSplit(data, pos, prefix, bytes);
  }

  lemma ListFound(data: seq<Byte>, pos: nat, ps: seq<Property>, props: seq<Byte>, end: nat)
    requires AllWellTyped(ps) && |data| < VBI_LIMIT && props == EncodedList(ps) && Present(data, pos, props) && end == pos + |props|
    ensures ListAt(data, pos, |data|) == Some(ReadList(ps, end))
  {
    var bytes := ListBytes(ps);
    ListParts(data, pos, bytes, VbiBytes(|bytes|), props);
    ListReads(data, pos, |data|, ps, bytes, VbiBytes(|bytes|), Some(ReadList(ps, end)));
  }

  /** A stored PUBLISH is restored with its header bits, topic, id, properties and payload. */
  lemma PublishRoundTrip(v5: bool, dup: bool, qos: int, msgid: nat, c: Content)
    requires 0 <= qos <= 3 && msgid < 65536 && Encodable(v5, qos, msgid, c)
    ensures RestorePacket(v5, PublishRecord(v5, dup, qos, msgid, c)) ==
            Some(PublishPacket(PublishHeader(dup, qos, c.retain), c.topic, if qos > 0 then msgid else 0, c.properties, c.payload))
  {
    HeaderRoundTrip(dup, qos, c.retain);
    FramedRoundTrip(v5, PublishHeader(dup, qos, c.retain), PublishBody(v5, qos, msgid, c));
    PublishBodyRoundTrip(v5, dup, qos, msgid, c);
  }

  /** A stored PUBREL is restored with its id. */
  lemma PubrelRoundTrip(v5: bool, msgid: nat)
    requires msgid < 65536
    ensures RestorePacket(v5, PubrelRecord(msgid)) == Some(AckPacket(16 * PUBREL + 2, msgid, 0, []))
  {
    FramedRoundTrip(v5, 16 * PUBREL + 2, Int2(msgid));
    Int2RoundTrip(Int2(msgid), 0, msgid);
  }

  // ----- Building a packet -----

  /** The byte strings one after the other, as the store concatenates the buffers it is given. */
  function Concatenated(bufs: seq<seq<Byte>>): seq<Byte> {
    FlatFrom(bufs, 0)
  }

  /** MQTTPacket_send_publish and MQTTPacket_sends up to the write: the fixed header and the buffers
      handed to the store and to the socket. */
  method SendPublish(v5: bool, dup: bool, qos: int, msgid: nat, retained: bool, topic: seq<Byte>, payload: seq<Byte>, properties: PropertyList)
    returns (buf0: seq<Byte>, bufs: seq<seq<Byte>>)
    requires 0 <= qos <= 3 && msgid < 65536 && properties.Valid()
    requires Encodable(v5, qos, msgid, Content(retained, topic, payload, properties.items))
    ensures buf0 + Concatenated(bufs) ==
            PublishRecord(v5, dup, qos, msgid, Content(retained, topic, payload, properties.items))
  {
    ghost var c := Content(retained, topic, payload, properties.items);
    ghost var body := PublishBody(v5, qos, msgid, c);
    var topiclen := new Byte[2](_ => 0);
    var p := WriteInt(topiclen, 0, |topic|);
    assert topiclen[..] == Int2(|topic|);
    if qos > 0 || v5 {
      var middle := BuildMiddle(v5, qos, msgid, properties, body);
      bufs := [topiclen[..], topic, middle, payload];
      FlattenFour(topiclen[..], topic, middle, payload);
    } else {
      bufs := [topiclen[..], topic, payload];
      FlattenThree(topiclen[..], topic, payload);
      assert LenBytes(topic) + [] == LenBytes(topic);
    }
    assert Concatenated(bufs) == body;
    var total := TotalLength(bufs);
    var n := EncodedLength(total);
    var buf := new Byte[1 + n](_ => 0);
    buf[0] := PublishHeader(dup, qos, retained);
    var rc := Encode(buf, 1, total);
    buf0 := buf[..];
    assert buf0 == [PublishHeader(dup, qos, retained)] + VbiBytes(total);
    Assoc([PublishHeader(dup, qos, retained)], VbiBytes(total), body);
  }

  method BuildMiddle(v5: bool, qos: int, msgid: nat, properties: PropertyList, ghost body: seq<Byte>) returns (middle: seq<Byte>)
    requires properties.Valid() && msgid < 65536 && (v5 ==> properties.length < VBI_LIMIT)
    ensures middle == MiddleBytes(v5, qos, msgid, properties.items)
  {
    var len := (if qos > 0 then 2 else 0) + (if v5 then properties.Len() else 0);
    var buf := new Byte[len](_ => 0);
    ghost var mem, bytes := buf[..], if v5 then EncodedList(properties.items) else [];
    var ptr := 0;
    if qos > 0 {
      ptr := WriteInt(buf, ptr, msgid);
    }
    if v5 {
      var rc;
      ptr, rc := properties.Write(buf, ptr);
    }
    middle := buf[..];
    if qos > 0 && v5 {
      WrittenBoth(mem, Int2(msgid), bytes, middle);
    } else if qos > 0 {
      WrittenWhole(mem, Int2(msgid), middle);
    } else if v5 {
      WrittenWhole(mem, bytes, middle);
    }
  }

  lemma WrittenWhole(mem: seq<Byte>, a: seq<Byte>, now: seq<Byte>)
    requires |mem| == |a| && now == Written(mem, 0, a)
    ensures now == a
  {
  }

  lemma WrittenBoth(mem: seq<Byte>, a: seq<Byte>, b: seq<Byte>, now: seq<Byte>)
    requires |mem| == |a| + |b| && now == Written(Written(mem, 0, a), |a|, b)
    ensures now == a + b
  {
    WrittenTwice(mem, 0, a, b);
  }

  method TotalLength(bufs: seq<seq<Byte>>) returns (total: nat)
    ensures total == |Concatenated(bufs)|
  {
    total := 0;
    var i := 0;
    while i < |bufs|
      invariant 0 <= i <= |bufs| && total + |FlatFrom(bufs, i)| == |FlatFrom(bufs, 0)|
    {
      total := total + |bufs[i]|;
      i := i + 1;
    }
  }

  lemma FlattenFour(a: seq<Byte>, b: seq<Byte>, c: seq<Byte>, d: seq<Byte>)
    ensures Concatenated([a, b, c, d]) == a + b + c + d
  {
    var bs := [a, b, c, d];
    assert FlatFrom(bs, 4) == [];
    assert FlatFrom(bs, 3) == d;
    assert FlatFrom(bs, 2) == c + d;
    assert FlatFrom(bs, 1) == b + (c + d);
    Assoc(a, b, c + d);
    Assoc(a + b, c, d);
  }

  lemma FlattenThree(a: seq<Byte>, b: seq<Byte>, c: seq<Byte>)
    ensures Concatenated([a, b, c]) == (a + b) + c
  {
    var bs := [a, b, c];
    assert FlatFrom(bs, 3) == [];
    assert FlatFrom(bs, 2) == c;
    assert FlatFrom(bs, 1) == b + c;
    Assoc(a, b, c);
  }
}
