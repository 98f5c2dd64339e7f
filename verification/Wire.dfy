/** The primitive encodings of src/MQTTPacket.c: variable byte integers (section 1.5.5 of MQTT 5.0),
    big-endian integers and length-delimited data, written through a moving position in a buffer and
    read back from one.

    Reads that the source does not check against the end of its data are given the whole memory they
    may touch; running off it is failure here. */
module Wire {
  import opened Wrappers
  import opened Types

  const VBI_LIMIT := 268435456
  const MAX_NO_OF_REMAINING_LENGTH_BYTES := 4

  // ----- Memory -----

  /** mem has these bytes at pos. */
  ghost predicate Present(mem: seq<Byte>, pos: nat, bytes: seq<Byte>) {
    pos + |bytes| <= |mem| && forall i {:trigger bytes[i]} :: 0 <= i < |bytes| ==> mem[pos + i] == bytes[i]
  }

  lemma PresentSplit(mem: seq<Byte>, pos: nat, a: seq<Byte>, b: seq<Byte>)
    requires Present(mem, pos, a + b)
    ensures Present(mem, pos, a) && Present(mem, pos + |a|, b)
  {
    assert forall i :: 0 <= i < |a| ==> a[i] == (a + b)[i];
    assert forall i :: 0 <= i < |b| ==> b[i] == (a + b)[|a| + i];
  }

  lemma PresentSlice(mem: seq<Byte>, pos: nat, bytes: seq<Byte>)
    requires Present(mem, pos, bytes)
    ensures mem[pos..pos + |bytes|] == bytes
  {
  }

  /** mem with bytes written over it from pos on. */
  function Written(mem: seq<Byte>, pos: nat, bytes: seq<Byte>): (r: seq<Byte>)
    requires pos + |bytes| <= |mem|
    ensures |r| == |mem|
    ensures forall i {:trigger r[i]} :: 0 <= i < |r| ==> r[i] == if pos <= i < pos + |bytes| then bytes[i - pos] else mem[i]
  {
    seq(|mem|, i requires 0 <= i < |mem| => if pos <= i < pos + |bytes| then bytes[i - pos] else mem[i])
  }

  lemma WrittenTwice(mem: seq<Byte>, pos: nat, a: seq<Byte>, b: seq<Byte>)
    requires pos + |a| + |b| <= |mem|
    ensures Written(Written(mem, pos, a), pos + |a|, b) == Written(mem, pos, a + b)
  {
  }

  lemma WrittenNext(mem: seq<Byte>, pos: nat, a: seq<Byte>, next: nat, b: seq<Byte>, before: seq<Byte>, now: seq<Byte>)
    requires next == pos + |a| && next + |b| <= |mem| && before == Written(mem, pos, a) && now == Written(before, next, b)
    ensures now == Written(mem, pos, a + b)
  {
    WrittenTwice(mem, pos, a, b);
  }

  lemma WrittenIsPresent(mem: seq<Byte>, pos: nat, bytes: seq<Byte>)
    requires pos + |bytes| <= |mem|
    ensures Present(Written(mem, pos, bytes), pos, bytes)
  {
  }

  // ----- Variable byte integers -----

  function VbiBytes(n: nat): (s: seq<Byte>)
    ensures |s| > 0
  {
    if n < 128 then [n] else [n % 128 + 128] + VbiBytes(n / 128)
  }

  function VbiLen(n: int): int {
    if n < 128 then 1 else if n < 16384 then 2 else if n < 2097152 then 3 else 4
  }

  /** VbiLen is the encoded length exactly for the values four bytes can hold. */
  lemma {:induction false} VbiLenIsLength(n: nat)
    ensures VbiLen(n) == |VbiBytes(n)| <==> n < VBI_LIMIT
    ensures |VbiBytes(n)| <= 4 <==> n < VBI_LIMIT
  {
    var a, b, c, d := n / 128, n / 128 / 128, n / 128 / 128 / 128, n / 128 / 128 / 128 / 128;
    assert n >= 128 ==> |VbiBytes(n)| == 1 + |VbiBytes(a)|;
    assert a >= 128 ==> |VbiBytes(a)| == 1 + |VbiBytes(b)|;
    assert b >= 128 ==> |VbiBytes(b)| == 1 + |VbiBytes(c)|;
    assert c >= 128 ==> |VbiBytes(c)| == 1 + |VbiBytes(d)|;
    assert c >= 128 <==> n >= VBI_LIMIT;
  }

  datatype Decoded = Decoded(value: nat, len: nat)

  /** The decoder limited to four bytes: a fifth byte is not read but counted.  None: off the end. */
  function VbiAt(mem: seq<Byte>, pos: nat, left: nat): (r: Option<Decoded>)
    ensures r.Some? ==> 1 <= r.value.len <= left + 1
    decreases |mem| - pos
  {
    if left == 0 then Some(Decoded(0, 1))
    else if pos >= |mem| then None
    else if mem[pos] < 128 then Some(Decoded(mem[pos], 1))
    else
      match VbiAt(mem, pos + 1, left - 1)
      case None => None
      case Some(d) => Some(Decoded(mem[pos] - 128 + 128 * d.value, d.len + 1))
  }

  /** The decoder of persisted records, which stops only at a byte without the continuation bit. */
  function LengthAt(mem: seq<Byte>, pos: nat): (r: Option<Decoded>)
    decreases |mem| - pos
  {
    if pos >= |mem| then None
    else if mem[pos] < 128 then Some(Decoded(mem[pos], 1))
    else
      match LengthAt(mem, pos + 1)
      case None => None
      case Some(d) => Some(Decoded(mem[pos] - 128 + 128 * d.value, d.len + 1))
  }

  lemma {:induction false} VbiRoundTrip(mem: seq<Byte>, pos: nat, n: nat, left: nat)
    requires Present(mem, pos, VbiBytes(n)) && |VbiBytes(n)| <= left
    ensures VbiAt(mem, pos, left) == Some(Decoded(n, |VbiBytes(n)|))
    decreases left
  {
    var s := VbiBytes(n);
    assert mem[pos] == s[0];
    if n >= 128 {
      PresentSplit(mem, pos, [s[0]], VbiBytes(n / 128));
      VbiRoundTrip(mem, pos + 1, n / 128, left - 1);
    }
  }

  lemma {:induction false} LengthRoundTrip(mem: seq<Byte>, pos: nat, n: nat)
    requires Present(mem, pos, VbiBytes(n))
    ensures LengthAt(mem, pos) == Some(Decoded(n, |VbiBytes(n)|))
    decreases n
  {
    var s := VbiBytes(n);
    assert mem[pos] == s[0];
    if n >= 128 {
      PresentSplit(mem, pos, [s[0]], VbiBytes(n / 128));
      LengthRoundTrip(mem, pos + 1, n / 128);
    }
  }

  /** MQTTPacket_encode with a buffer. */
  method Encode(buf: array<Byte>, pos: nat, length: nat) returns (rc: nat)
    requires pos + |VbiBytes(length)| <= buf.Length
    modifies buf
    ensures rc == |VbiBytes(length)| && buf[..] == Written(old(buf[..]), pos, VbiBytes(length))
  {
    rc := 0;
    var rest := length;
    ghost var s := VbiBytes(length);
    var more := true;
    while more
      invariant rc <= |s| && s[rc..] == (if more then VbiBytes(rest) else [])
      invariant forall i :: 0 <= i < buf.Length ==> buf[i] == if pos <= i < pos + rc then s[i - pos] else old(buf[i])
      decreases |s| - rc
    {
      var d := rest % 128;
      assert VbiBytes(rest)[1..] == if rest < 128 then [] else VbiBytes(rest / 128);
      assert s[rc] == s[rc..][0] && s[rc + 1..] == s[rc..][1..];
      rest := rest / 128;
      if rest > 0 {
        d := d + 128;
      }
      buf[pos + rc] := d;
      rc := rc + 1;
      more := rest > 0;
    }
  }

  /** MQTTPacket_encode with a NULL buffer only counts. */
  method EncodedLength(length: nat) returns (rc: nat)
    ensures rc == |VbiBytes(length)|
  {
    var rest := length / 128;
    rc := 1;
    while rest > 0
      invariant |VbiBytes(length)| == rc + if rest > 0 then |VbiBytes(rest)| else 0
      decreases rest
    {
      rest := rest / 128;
      rc := rc + 1;
    }
  }

  /** The weight of the digit after len others. */
  function Weighted(len: nat, v: int): int {
    if len == 0 then v else if len == 1 then 128 * v else if len == 2 then 16384 * v
    else if len == 3 then 2097152 * v else 268435456 * v
  }

  /** The decoding loop from its iteration len on. */
  function Decoding(mem: seq<Byte>, pos: nat, len: nat, value: nat): Option<Decoded>
    requires len <= 4
    decreases 4 - len
  {
    if len == 4 then Some(Decoded(value, 5))
    else if pos + len >= |mem| then None
    else
      var v := value + Weighted(len, mem[pos + len] % 128);
      if mem[pos + len] < 128 then Some(Decoded(v, len + 1)) else Decoding(mem, pos, len + 1, v)
  }

  lemma {:induction false} DecodingIsVbiAt(mem: seq<Byte>, pos: nat, len: nat, value: nat)
    requires len <= 4
    ensures Decoding(mem, pos, len, value) ==
      match VbiAt(mem, pos + len, 4 - len)
      case None => None
      case Some(d) => Some(Decoded(value + Weighted(len, d.value), len + d.len))
    decreases 4 - len
  {
    if len < 4 && pos + len < |mem| {
      DecodingIsVbiAt(mem, pos, len + 1, value + Weighted(len, mem[pos + len] % 128));
    }
  }

  /** The loop so far: it goes on with value, or has ended with it. */
  predicate DecodedSoFar(mem: seq<Byte>, pos: nat, whole: Option<Decoded>, more: bool, len: nat, value: nat) {
    len <= 4 && whole == if more then Decoding(mem, pos, len, value) else Some(Decoded(value, len))
  }

  /** The product (c & 127) * multiplier, and what the digit c leads to. */
  method Digit(mem: seq<Byte>, pos: nat, ghost whole: Option<Decoded>, len: nat, value: nat, multiplier: nat) returns (v: nat, next: nat, more: bool)
    requires len < 4 && pos + len < |mem| && multiplier == Weighted(len, 1) && DecodedSoFar(mem, pos, whole, true, len, value)
    ensures DecodedSoFar(mem, pos, whole, more, len + 1, v) && next == Weighted(len + 1, 1)
  {
    var c := mem[pos + len];
    v := value + c % 128 * multiplier;
    next := multiplier * 128;
    more := c >= 128;
  }

  /** MQTTPacket_decodeBuf. */
  method DecodeBuf(mem: seq<Byte>, pos: nat) returns (r: Option<Decoded>)
    ensures r == VbiAt(mem, pos, MAX_NO_OF_REMAINING_LENGTH_BYTES)
  {
    var value, multiplier, len := 0, 1, 0;
    ghost var whole := Decoding(mem, pos, 0, 0);
    DecodingIsVbiAt(mem, pos, 0, 0);
    assert whole == VbiAt(mem, pos, 4);
    var more := true;
    while more
      invariant value >= 0 && multiplier == Weighted(len, 1)
      invariant DecodedSoFar(mem, pos, whole, more, len, value)
      decreases more, 4 - len
    {
      len := len + 1;
      if len > MAX_NO_OF_REMAINING_LENGTH_BYTES {
        return Some(Decoded(value, len));
      }
      if pos + len - 1 >= |mem| {
        return None;
      }
      value, multiplier, more := Digit(mem, pos, whole, len - 1, value, multiplier);
    }
    r := Some(Decoded(value, len));
  }

  // ----- Integers and length-delimited data -----

  /** The last n bytes of v, most significant first. */
  function BigEndian(v: nat, n: nat): (s: seq<Byte>)
    ensures |s| == n
  {
    if n == 0 then [] else if n == 1 then [v % 256] else BigEndian(v / 256, n - 1) + [v % 256]
  }

  function Int2(v: nat): (s: seq<Byte>)
    ensures |s| == 2
  {
    BigEndian(v, 2)
  }

  function Int4(v: nat): (s: seq<Byte>)
    ensures |s| == 4
  {
    BigEndian(v, 4)
  }

  function Pow256(n: nat): (p: nat)
    ensures p > 0
  {
    if n == 0 then 1 else 256 * Pow256(n - 1)
  }

  /** The number that n bytes at pos spell, most significant first. */
  function BigEndianAt(mem: seq<Byte>, pos: nat, n: nat): (v: nat)
    requires pos + n <= |mem|
  {
    if n == 0 then 0 else 256 * BigEndianAt(mem, pos, n - 1) + mem[pos + n - 1]
  }

  function ReadInt(mem: seq<Byte>, pos: nat): (v: nat)
    requires pos + 2 <= |mem|
  {
    BigEndianAt(mem, pos, 2)
  }

  function ReadInt4(mem: seq<Byte>, pos: nat): (v: nat)
    requires pos + 4 <= |mem|
  {
    BigEndianAt(mem, pos, 4)
  }

  lemma {:induction false} BigEndianRoundTrip(mem: seq<Byte>, pos: nat, v: nat, n: nat)
    requires v < Pow256(n) && Present(mem, pos, BigEndian(v, n))
    ensures BigEndianAt(mem, pos, n) == v
  {
    var s := BigEndian(v, n);
    if n == 1 {
      assert mem[pos] == s[0] && BigEndianAt(mem, pos, 0) == 0;
    } else if n > 1 {
      PresentSplit(mem, pos, BigEndian(v / 256, n - 1), [v % 256]);
      assert mem[pos + n - 1] == [v % 256][0];
      BigEndianRoundTrip(mem, pos, v / 256, n - 1);
    }
  }

  lemma Int2RoundTrip(mem: seq<Byte>, pos: nat, v: nat)
    requires v < 65536 && Present(mem, pos, Int2(v))
    ensures ReadInt(mem, pos) == v
  {
    assert Pow256(1) == 256 && Pow256(2) == 65536;
    BigEndianRoundTrip(mem, pos, v, 2);
  }

  lemma Int4RoundTrip(mem: seq<Byte>, pos: nat, v: nat)
    requires v < 4294967296 && Present(mem, pos, Int4(v))
    ensures ReadInt4(mem, pos) == v
  {
    assert Pow256(1) == 256 && Pow256(2) == 65536 && Pow256(3) == 16777216;
    BigEndianRoundTrip(mem, pos, v, 4);
  }

  lemma {:induction false} FourBytes(a: Byte, b: Byte, c: Byte, d: Byte)
    ensures BigEndian(((a as int * 256 + b) * 256 + c) * 256 + d, 4) == [a, b, c, d]
  {
    var abc := (a as int * 256 + b) * 256 + c;
    var ab := a as int * 256 + b;
    assert (abc * 256 + d) / 256 == abc && (abc * 256 + d) % 256 == d;
    assert abc / 256 == ab && abc % 256 == c;
    assert ab / 256 == a && ab % 256 == b;
    assert BigEndian(a as int, 1) == [a];
    assert BigEndian(ab, 2) == BigEndian(a as int, 1) + [b];
    assert BigEndian(abc, 3) == BigEndian(ab, 2) + [c];
  }

  lemma {:induction false} TwoBytes(v: nat)
    ensures BigEndian(v, 2) == [v / 256 % 256, v % 256]
  {
    assert BigEndian(v / 256, 1) == [v / 256 % 256];
  }

  function LenBytes(data: seq<Byte>): seq<Byte> {
    Int2(|data|) + data
  }

  /** Length-delimited data, checked against end: the data, or None when it would overrun. */
  function ReadLen(mem: seq<Byte>, pos: nat, end: nat): (r: Option<seq<Byte>>)
    requires end <= |mem|
    ensures r.Some? ==> pos + 2 + |r.value| <= end
  {
    if pos + 2 <= end && pos + 2 + ReadInt(mem, pos) <= end
    then Some(mem[pos + 2..pos + 2 + ReadInt(mem, pos)])
    else None
  }

  lemma LenRoundTrip(mem: seq<Byte>, pos: nat, end: nat, data: seq<Byte>)
    requires |data| < 65536 && Present(mem, pos, LenBytes(data)) && pos + 2 + |data| <= end <= |mem|
    ensures ReadLen(mem, pos, end) == Some(data)
  {
    PresentSplit(mem, pos, Int2(|data|), data);
    Int2RoundTrip(mem, pos, |data|);
    PresentSlice(mem, pos + 2, data);
  }

  method WriteChar(buf: array<Byte>, pos: nat, c: Byte) returns (next: nat)
    requires pos < buf.Length
    modifies buf
    ensures next == pos + 1 && buf[..] == Written(old(buf[..]), pos, [c])
  {
    buf[pos] := c;
    next := pos + 1;
  }

  method WriteInt(buf: array<Byte>, pos: nat, anInt: nat) returns (next: nat)
    requires pos + 2 <= buf.Length
    modifies buf
    ensures next == pos + 2 && buf[..] == Written(old(buf[..]), pos, Int2(anInt))
  {
    TwoBytes(anInt);
    buf[pos] := anInt / 256 % 256;
    buf[pos + 1] := anInt % 256;
    next := pos + 2;
  }

  method Digits(anInt: nat) returns (a: Byte, b: Byte, c: Byte, d: Byte)
    requires anInt < 4294967296
    ensures Int4(anInt) == [a, b, c, d]
  {
    a := anInt / 16777216;
    var v := anInt % 16777216;
    b := v / 65536;
    v := v % 65536;
    c := v / 256;
    d := v % 256;
    FourBytes(a, b, c, d);
  }

  method WriteInt4(buf: array<Byte>, pos: nat, anInt: nat) returns (next: nat)
    requires pos + 4 <= buf.Length && anInt < 4294967296
    modifies buf
    ensures next == pos + 4 && buf[..] == Written(old(buf[..]), pos, Int4(anInt))
  {
    var a, b, c, d := Digits(anInt);
    buf[pos] := a;
    buf[pos + 1] := b;
    buf[pos + 2] := c;
    buf[pos + 3] := d;
    next := pos + 4;
  }

  method WriteMQTTLenString(buf: array<Byte>, pos: nat, data: seq<Byte>) returns (next: nat)
    requires pos + 2 + |data| <= buf.Length
    modifies buf
    ensures next == pos + 2 + |data| && buf[..] == Written(old(buf[..]), pos, LenBytes(data))
  {
    next := WriteInt(buf, pos, |data|);
    forall i | 0 <= i < |data| {
      buf[next + i] := data[i];
    }
    next := next + |data|;
  }
}
