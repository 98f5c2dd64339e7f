/** The bytes of stored packets (sections 2.1, 3.3 and 3.6 of MQTT 5.0), one by one, and what a buffer must
    be for the restore to read a packet from it. */
module Layouts {
  import opened Wrappers
  import opened Types
  import opened Wire
  import opened Properties
  import opened PropertyTypes
  import opened Packets

  // ----- Writing -----

  lemma {:induction false} PubrelLayout(id: nat)
    requires id < 65536
    ensures PubrelRecord(id) == [98, 2, id / 256, id % 256]
  {
    TwoByteNumber(id);
    assert VbiBytes(2) == [2];
    FourLong(98, 2, TwoBytesOf(id), PubrelRecord(id));
  }

  lemma FourLong(a: Byte, b: Byte, rest: seq<Byte>, whole: seq<Byte>)
    requires |rest| == 2 && whole == [a] + ([b] + rest)
    ensures whole == [a, b, rest[0], rest[1]]
  {
  }

  /** The fixed header of a PUBLISH: type 3 in the upper half of the byte, then DUP, quality of service and
      RETAIN; the length of the rest; then topic, message id, in version 5 the properties, and the
      payload. */
  lemma {:induction false} PublishLayout(v5: bool, dup: bool, qos: int, id: nat, c: Content)
    requires 1 <= qos <= 2 && id < 65536 && Encodable(v5, qos, id, c)
    ensures var first: int := 48 + (if dup then 8 else 0) + 2 * qos + (if c.retain then 1 else 0);
            var named := TwoBytesOf(|c.topic|) + c.topic;
            var rest := named + (if v5 then TwoBytesOf(id) + EncodedList(c.properties) else TwoBytesOf(id)) + c.payload;
            PublishRecord(v5, dup, qos, id, c) == [first] + (VbiBytes(|rest|) + rest)
  {
    TwoByteNumber(|c.topic|);
    TwoByteNumber(id);
  }

  // ----- Reading -----

  /** A length of n bytes stands at p. */
  lemma {:induction false} LengthRead(mem: seq<Byte>, p: nat, n: nat)
    requires EndsAfter(mem, p, n)
    ensures LengthAt(mem, p) == Some(Decoded(Septets(mem, p, n), n))
    decreases n
  {
    if n > 1 {
      LengthRead(mem, p + 1, n - 1);
    }
  }

  /** No length ends in the buffer. */
  lemma {:induction false} NoLength(mem: seq<Byte>, p: nat)
    requires forall i :: p <= i < |mem| ==> mem[i] >= 128
    ensures LengthAt(mem, p) == None
    decreases |mem| - p
  {
    if p < |mem| {
      NoLength(mem, p + 1);
    }
  }

  /** The buffer is a first byte, a length of n bytes, and just as many bytes as it says. */
  ghost predicate IsWhole(buffer: seq<Byte>, n: nat) {
    buffer != [] && EndsAfter(buffer, 1, n) && |buffer| == 1 + n + Septets(buffer, 1, n)
  }

  /** Whatever is read from a buffer, it is whole, and what is read is what its first byte says: a PUBLISH
      for type 3, an acknowledgement for types 4 to 7, nothing for any other. */
  lemma WhatIsRead(v5: bool, buffer: seq<Byte>) returns (n: nat)
    requires RestorePacket(v5, buffer).Some?
    ensures IsWhole(buffer, n)
    ensures 48 <= buffer[0] < 128
    ensures RestorePacket(v5, buffer) ==
            if buffer[0] < 64 then ParsePublish(v5, buffer[0], buffer[1 + n..]) else ParseAck(v5, buffer[0], buffer[1 + n..])
  {
    if forall i :: 1 <= i < |buffer| ==> buffer[i] >= 128 {
      NoLength(buffer, 1);
    } else {
      n := FirstEnd(buffer);
      LengthRead(buffer, 1, n);
    }
  }

  lemma FirstEnd(buffer: seq<Byte>) returns (n: nat)
    requires exists i :: 1 <= i < |buffer| && buffer[i] < 128
    ensures EndsAfter(buffer, 1, n)
  {
    n := 1;
    while buffer[n] >= 128
      invariant 1 <= n < |buffer| && (forall i :: 1 <= i < n ==> buffer[i] >= 128)
      invariant exists i :: n <= i < |buffer| && buffer[i] < 128
      decreases |buffer| - n
    {
      n := n + 1;
    }
  }

  /** An acknowledgement is one of at least two bytes: its id, in version 5 then a reason, and with more than
      three bytes a property list that can be read. */
  lemma {:induction false} AckRead(v5: bool, header: Byte, data: seq<Byte>)
    ensures ParseAck(v5, header, data).Some? <==> |data| >= 2 && (v5 && |data| > 3 ==> ListAt(data, 3, |data|).Some?)
    ensures ParseAck(v5, header, data).Some? ==>
              var p := ParseAck(v5, header, data).value;
              && p.AckPacket? && p.header == header && p.msgid == Two(data, 0)
              && p.reason == (if v5 && |data| > 2 then data[2] else 0)
              && p.properties == (if v5 && |data| > 3 then ListAt(data, 3, |data|).value.properties else [])
  {
    ReadsNumbers(data, 0);
  }

  // ----- The length of a property list -----

  lemma LenIsWay(mem: seq<Byte>, pos: nat, end: nat)
    requires end <= |mem| && PropertyAt(mem, pos, end).Some?
    ensures var p := PropertyAt(mem, pos, end).value; p.next == pos + p.len && p.next <= |mem| + 1
  {
    if mem[pos] == 11 {
      TypeTable(11);
      VbiWithin(mem, pos + 1, 4);
    }
    TypeTable(mem[pos]);
  }

  lemma {:induction false} VbiWithin(mem: seq<Byte>, p: nat, left: nat)
    requires p <= |mem| && VbiAt(mem, p, left).Some?
    ensures p + VbiAt(mem, p, left).value.len <= |mem| + 1
    decreases left
  {
    if left > 0 && mem[p] >= 128 {
      VbiWithin(mem, p + 1, left - 1);
    }
  }

  /** The property list that is read takes up exactly the length announced, for any memory below 2^32
      bytes; so one whose last property is longer is not read. */
  lemma {:induction false} ReadsExactly(mem: seq<Byte>, pos: nat, end: nat, remlength: nat)
    requires end <= |mem| < 0xFFFF_FFFF && pos <= |mem| + 1 && remlength < 0x1_0000_0000
    requires PropertiesAt(mem, pos, end, remlength).Some?
    ensures PropertiesAt(mem, pos, end, remlength).value.next == pos + remlength <= |mem| + 1
    decreases |mem| + 1 - pos
  {
    if remlength > 0 {
      var p := PropertyAt(mem, pos, end).value;
      LenIsWay(mem, pos, end);
      ReadsExactly(mem, p.next, end, Less(remlength, p.len));
    }
  }

  /** And nothing is read from a list that would begin at the end. */
  lemma NothingAtEnd(mem: seq<Byte>, pos: nat, end: nat)
    requires end <= |mem| && pos >= end
    ensures ListAt(mem, pos, end) == None
  {
  }
}
