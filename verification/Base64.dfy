/** Base64 (section 4 of RFC 4648) as src/Base64.c encodes and decodes it without OpenSSL.

    Masks and shifts of a byte are written as division and remainder. */
module Base64 {
  import opened Wrappers
  import opened Types

  /** The value of '=' in the encoding table, and of every other character in the decoding table. */
  const NV := 64

  type Code = v: int | 0 <= v <= 64

  /** BASE64_ENCODE_TABLE. */
  function EncodeChar(v: Code): (c: char)
    ensures c < 128 as char
  {
    if v < 26 then 'A' + v as char
    else if v < 52 then 'a' + (v - 26) as char
    else if v < 62 then '0' + (v - 52) as char
    else if v == 62 then '+' else if v == 63 then '/' else '='
  }

  /** BASE64_DECODE_TABLE. */
  function DecodeChar(c: char): Code {
    if 'A' <= c <= 'Z' then c as int - 'A' as int
    else if 'a' <= c <= 'z' then c as int - 'a' as int + 26
    else if '0' <= c <= '9' then c as int - '0' as int + 52
    else if c == '+' then 62 else if c == '/' then 63 else NV
  }

  lemma TablesInverse(v: Code)
    ensures DecodeChar(EncodeChar(v)) == v
  {
  }

  // ----- The encoding of RFC 4648 -----

  /** Groups of three bytes become four characters, the last group filled up. */
  function EncodedSize(n: nat): nat { 4 * ((n + 2) / 3) }

  /** The 24 bits of group k, filled with zeros on the right when input is missing. */
  function Group(m: seq<Byte>, k: nat): (v: nat)
    requires 3 * k < |m|
    ensures v < 0x100_0000
  {
    Bits24(ByteAt(m, 3 * k), ByteAt(m, 3 * k + 1), ByteAt(m, 3 * k + 2))
  }

  function ByteAt(m: seq<Byte>, i: nat): Byte {
    if i < |m| then m[i] else 0
  }

  function Bits24(b0: int, b1: int, b2: int): int {
    0x1_0000 * b0 + 0x100 * b1 + b2
  }

  /** The four groups of six bits, from the bytes. */
  lemma Sextets(b0: int, b1: int, b2: int)
    requires 0 <= b0 < 256 && 0 <= b1 < 256 && 0 <= b2 < 256
    ensures Bits24(b0, b1, b2) / 0x4_0000 == b0 / 4
    ensures Bits24(b0, b1, b2) / 0x1000 % 64 == b0 % 4 * 16 + b1 / 16
    ensures Bits24(b0, b1, b2) / 64 % 64 == b1 % 16 * 4 + b2 / 64
    ensures Bits24(b0, b1, b2) % 64 == b2 % 64
  {
    SplitAt(b0 / 4, 0x1_0000 * (b0 % 4) + 0x100 * b1 + b2, 0x4_0000);
    SplitAt(b0 * 16 + b1 / 16, 0x100 * (b1 % 16) + b2, 0x1000);
    SplitAt(b0 / 4, b0 % 4 * 16 + b1 / 16, 64);
    SplitAt(b0 * 1024 + b1 * 4 + b2 / 64, b2 % 64, 64);
    SplitAt(b0 * 16 + b1 / 16, b1 % 16 * 4 + b2 / 64, 64);
  }

  lemma SplitAt(high: int, low: int, unit: int)
    requires unit == 4 || unit == 16 || unit == 64 || unit == 0x1000 || unit == 0x4_0000
    requires 0 <= low < unit
    ensures (high * unit + low) / unit == high && (high * unit + low) % unit == low
  {
    if unit == 4 {
    } else if unit == 16 {
    } else if unit == 64 {
    } else if unit == 0x1000 {
    } else {
    }
  }

  /** Character j of group k: six bits of the group, or padding where there was no input for it. */
  function GroupCode(m: seq<Byte>, k: nat, j: nat): Code
    requires 3 * k < |m| && j < 4
  {
    var v := Group(m, k);
    if j == 0 then v / 0x4_0000
    else if j == 1 then v / 0x1000 % 64
    else if j == 2 then if 3 * k + 1 < |m| then v / 64 % 64 else NV
    else if 3 * k + 2 < |m| then v % 64 else NV
  }

  function EncodedAt(m: seq<Byte>, p: nat): char
    requires p < EncodedSize(|m|)
  {
    EncodeChar(GroupCode(m, p / 4, p % 4))
  }

  function Encoded(m: seq<Byte>): (s: seq<char>)
    ensures |s| == EncodedSize(|m|)
  {
    seq(EncodedSize(|m|), p requires 0 <= p < EncodedSize(|m|) => EncodedAt(m, p))
  }

  // ----- Decoding -----

  /** The first byte of a group; with an invalid second character its bits can overlap. */
  function FirstByte(c0: Code, c1: Code): Byte {
    var high, low := c0 * 4 % 256, c1 / 16;
    if low < 4 then high + low else if high / 4 % 2 == 1 then high else high + 4
  }

  function SecondByte(c1: Code, c2: Code): Byte
    requires c2 < NV
  {
    c1 % 16 * 16 + c2 / 4
  }

  function ThirdByte(c2: Code, c3: Code): Byte
    requires c3 < NV
  {
    c2 % 4 * 64 + c3
  }

  /** Four characters, looked up. */
  datatype Quartet = Quartet(c0: Code, c1: Code, c2: Code, c3: Code)

  function QuartetAt(s: seq<char>, q: nat): Quartet
    requires 4 * q + 4 <= |s|
  {
    Quartet(DecodeChar(s[4 * q]), DecodeChar(s[4 * q + 1]), DecodeChar(s[4 * q + 2]), DecodeChar(s[4 * q + 3]))
  }

  /** The bytes of one quartet: up to three, as far as there is room and no padding. */
  function BytesOf(c: Quartet, room: nat): (r: seq<Byte>)
    requires room > 0
    ensures 1 <= |r| <= 3 && |r| <= room
  {
    if room == 1 || c.c2 == NV then [FirstByte(c.c0, c.c1)]
    else if room == 2 || c.c3 == NV then [FirstByte(c.c0, c.c1), SecondByte(c.c1, c.c2)]
    else [FirstByte(c.c0, c.c1), SecondByte(c.c1, c.c2), ThirdByte(c.c2, c.c3)]
  }

  /** All whole quartets of a text. */
  function Quartets(s: seq<char>): (qs: seq<Quartet>)
    ensures |qs| == |s| / 4
  {
    seq(|s| / 4, q requires 0 <= q < |s| / 4 => QuartetAt(s, q))
  }

  /** The bytes of quartet q when there is room for so many. */
  function Reader(qs: seq<Quartet>): (nat, nat) -> seq<Byte> {
    (q: nat, room: nat) => if q < |qs| && room > 0 then BytesOf(qs[q], room) else []
  }

  /** What comes out of quartets q to n: padding ends it, and so does the lack of room. */
  function DecodeFrom(read: (nat, nat) -> seq<Byte>, n: nat, q: nat, room: nat): seq<Byte>
    decreases n - q
  {
    if q >= n || room == 0 then []
    else if |read(q, room)| < 3 || room < 3 then read(q, room)
    else read(q, room) + DecodeFrom(read, n, q + 1, room - 3)
  }

  function Decoded(s: seq<char>, room: nat): seq<Byte> {
    DecodeFrom(Reader(Quartets(s)), |s| / 4, 0, room)
  }

  function Min(a: nat, b: nat): nat { if a < b then a else b }

  /** The three bytes, from the groups of six bits. */
  lemma Rejoined(b0: int, b1: int, b2: int)
    requires 0 <= b0 < 256 && 0 <= b1 < 256 && 0 <= b2 < 256
    ensures FirstByte(b0 / 4, b0 % 4 * 16 + b1 / 16) == b0
    ensures SecondByte(b0 % 4 * 16 + b1 / 16, b1 % 16 * 4 + b2 / 64) == b1
    ensures ThirdByte(b1 % 16 * 4 + b2 / 64, b2 % 64) == b2
  {
    SplitAt(b0 % 4, b1 / 16, 16);
    SplitAt(b1 % 16, b2 / 64, 4);
  }

  lemma QuartetCodes(m: seq<Byte>, k: nat, j: nat)
    requires 3 * k < |m| && j < 4
    ensures 4 * k + j < |Encoded(m)| && DecodeChar(Encoded(m)[4 * k + j]) == GroupCode(m, k, j)
  {
    assert (4 * k + j) / 4 == k && (4 * k + j) % 4 == j;
    TablesInverse(GroupCode(m, k, j));
  }

  /** The bytes a group was made from come out of its four characters. */
  ghost predicate Holds(c: Quartet, m: seq<Byte>, k: nat)
    requires k < |m|
  {
    && FirstByte(c.c0, c.c1) == m[k]
    && (if k + 1 < |m| then c.c2 < NV && SecondByte(c.c1, c.c2) == m[k + 1] else c.c2 == NV)
    && (if k + 2 < |m| then c.c2 < NV && c.c3 < NV && ThirdByte(c.c2, c.c3) == m[k + 2] else c.c3 == NV)
  }

  /** The same codes, straight from the bytes. */
  function CodesOf(m: seq<Byte>, k: nat): Quartet
    requires k < |m|
  {
    var b0, b1, b2 := ByteAt(m, k), ByteAt(m, k + 1), ByteAt(m, k + 2);
    Quartet(b0 / 4, b0 % 4 * 16 + b1 / 16, if k + 1 < |m| then b1 % 16 * 4 + b2 / 64 else NV, if k + 2 < |m| then b2 % 64 else NV)
  }

  lemma GroupCodes(m: seq<Byte>, q: nat)
    requires 3 * q < |m|
    ensures Quartet(GroupCode(m, q, 0), GroupCode(m, q, 1), GroupCode(m, q, 2), GroupCode(m, q, 3)) == CodesOf(m, 3 * q)
  {
    Sextets(ByteAt(m, 3 * q), ByteAt(m, 3 * q + 1), ByteAt(m, 3 * q + 2));
  }

  lemma QuartetOfEncoded(m: seq<Byte>, q: nat)
    requires 3 * q < |m|
    ensures 4 * q + 4 <= |Encoded(m)|
    ensures QuartetAt(Encoded(m), q) == Quartet(GroupCode(m, q, 0), GroupCode(m, q, 1), GroupCode(m, q, 2), GroupCode(m, q, 3))
  {
    QuartetCodes(m, q, 0);
    QuartetCodes(m, q, 1);
    QuartetCodes(m, q, 2);
    QuartetCodes(m, q, 3);
  }

  lemma CodesHold(m: seq<Byte>, k: nat)
    requires k < |m|
    ensures Holds(CodesOf(m, k), m, k)
  {
    var b0, b1, b2 := ByteAt(m, k), ByteAt(m, k + 1), ByteAt(m, k + 2);
    Rejoined(b0, b1, b2);
    FilledUp(m, k, b0 / 4, b0 % 4 * 16 + b1 / 16, b1 % 16 * 4 + b2 / 64, b2 % 64);
  }

  lemma QuartetDecodes(m: seq<Byte>, q: nat)
    requires 3 * q < |m|
    ensures 4 * q + 4 <= |Encoded(m)| && Holds(QuartetAt(Encoded(m), q), m, 3 * q)
  {
    QuartetOfEncoded(m, q);
    GroupCodes(m, q);
    assert QuartetAt(Encoded(m), q) == CodesOf(m, 3 * q);
    CodesHold(m, 3 * q);
  }

  lemma FilledUp(m: seq<Byte>, k: nat, c0: Code, c1: Code, c2: Code, c3: Code)
    requires k < |m| && c2 < NV && c3 < NV
    requires FirstByte(c0, c1) == ByteAt(m, k) && SecondByte(c1, c2) == ByteAt(m, k + 1) && ThirdByte(c2, c3) == ByteAt(m, k + 2)
    ensures Holds(Quartet(c0, c1, if k + 1 < |m| then c2 else NV, if k + 2 < |m| then c3 else NV), m, k)
  {
  }

  lemma HeldBytes(c: Quartet, m: seq<Byte>, k: nat, room: nat)
    requires k < |m| && Holds(c, m, k) && room > 0
    ensures BytesOf(c, room) == m[k..Min(k + Min(room, 3), |m|)]
  {
  }

  lemma SliceJoin(m: seq<Byte>, a: nat, b: nat, c: nat, more: seq<Byte>, whole: seq<Byte>)
    requires a <= b <= c <= |m| && more == m[b..c] && whole == m[a..b] + more
    ensures whole == m[a..c]
  {
  }

  /** A reader of m's own bytes, three at a time. */
  ghost predicate Reads(read: (nat, nat) -> seq<Byte>, m: seq<Byte>) {
    forall q: nat, room: nat :: ReadsOne(read, m, q, room)
  }

  ghost predicate ReadsOne(read: (nat, nat) -> seq<Byte>, m: seq<Byte>, q: nat, room: nat) {
    3 * q < |m| && room > 0 ==> read(q, room) == m[3 * q..Min(3 * q + Min(room, 3), |m|)]
  }

  lemma {:induction false} DecodeFromReads(read: (nat, nat) -> seq<Byte>, m: seq<Byte>, n: nat, q: nat, room: nat, start: nat, end: nat)
    requires Reads(read, m) && n == (|m| + 2) / 3
    requires start == Min(3 * q, |m|) && end == Min(3 * q + room, |m|)
    ensures DecodeFrom(read, n, q, room) == m[start..end]
    decreases n - q
  {
    if q < n && room > 0 {
      var next := Min(start + Min(room, 3), |m|);
      assert ReadsOne(read, m, q, room);
      var more := DecodeStep(read, n, q, room, m[start..next]);
      if next == start + 3 {
        DecodeFromReads(read, m, n, q + 1, room - 3, next, end);
      }
      SliceJoin(m, start, next, end, more, DecodeFrom(read, n, q, room));
    }
  }

  lemma ReaderReadsOne(m: seq<Byte>, q: nat, room: nat)
    ensures ReadsOne(Reader(Quartets(Encoded(m))), m, q, room)
  {
    if 3 * q < |m| && room > 0 {
      QuartetDecodes(m, q);
      HeldBytes(Quartets(Encoded(m))[q], m, 3 * q, room);
    }
  }

  /** Decoding what was encoded gives it back, as far as there is room. */
  lemma RoundTrip(m: seq<Byte>, room: nat)
    ensures Decoded(Encoded(m), room) == m[..Min(room, |m|)]
  {
    var qs := Quartets(Encoded(m));
    forall q: nat, r: nat ensures ReadsOne(Reader(qs), m, q, r) {
      ReaderReadsOne(m, q, r);
    }
    DecodeFromReads(Reader(qs), m, |qs|, 0, room, 0, Min(room, |m|));
  }

  // ----- The code -----

  function CharsOf(c: Quartet): (s: seq<char>)
    ensures |s| == 4
  {
    [EncodeChar(c.c0), EncodeChar(c.c1), EncodeChar(c.c2), EncodeChar(c.c3)]
  }

  /** Group q of the encoding, from the bytes. */
  lemma EncodedGroup(m: seq<Byte>, q: nat)
    requires 3 * q < |m|
    ensures 4 * q + 4 <= |Encoded(m)| && Encoded(m)[4 * q..4 * q + 4] == CharsOf(CodesOf(m, 3 * q))
  {
    GroupCodes(m, q);
    EncodedCode(m, q, 0);
    EncodedCode(m, q, 1);
    EncodedCode(m, q, 2);
    EncodedCode(m, q, 3);
  }

  lemma EncodedCode(m: seq<Byte>, q: nat, j: nat)
    requires 3 * q < |m| && j < 4
    ensures 4 * q + j < |Encoded(m)| && Encoded(m)[4 * q + j] == EncodeChar(GroupCode(m, q, j))
  {
    QuartetCodes(m, q, j);
    QuotientOf(q, j);
  }

  lemma QuotientOf(q: nat, j: nat)
    requires j < 4
    ensures (4 * q + j) / 4 == q && (4 * q + j) % 4 == j
  {
  }

  /** One group of Base64_encode: up to three bytes make four codes. */
  method EncodeGroup(m: seq<Byte>, pos: nat) returns (c: Quartet, next: nat)
    requires pos < |m|
    ensures c == CodesOf(m, pos) && next == Min(pos + 3, |m|)
  {
    var c0, c1, c2, c3 := 0, 0, 64, 64;
    var i := m[pos];
    c0 := i / 4;
    c1 := i % 4 * 16;
    next := pos + 1;
    if next < |m| {
      i := m[next];
      c1 := c1 + i / 16;
      c2 := i % 16 * 4;
      next := next + 1;
      if next < |m| {
        i := m[next];
        c2 := c2 + i / 64;
        c3 := i % 64;
        next := next + 1;
      }
    }
    c := Quartet(c0, c1, c2, c3);
  }

  /** What Base64_encode returns: the size of the encoding if it fits; otherwise a buffer of whole
      quartets is filled and reported as if all had been encoded, and any other gives 0. */
  function EncodeResult(need: nat, room: nat): nat {
    if need <= room then need else if room % 4 == 0 then room else 0
  }

  /** How much of the encoding is written. */
  function EncodeWritten(need: nat, room: nat): nat {
    if need <= room then need else room / 4 * 4
  }

  /** After the output proper: a zero if there is room for it and nothing else changed. */
  ghost predicate Ended<T>(rest: seq<T>, was: seq<T>, zero: Option<T>) {
    match zero
    case None => rest == was
    case Some(z) => was != [] && rest == was[0 := z]
  }

  /** Base64_encode. */
  method Encode(out: array<char>, m: seq<Byte>) returns (ret: nat)
    modifies out
    ensures ret == EncodeResult(EncodedSize(|m|), out.Length)
    ensures var n := EncodeWritten(EncodedSize(|m|), out.Length);
            out[..n] == Encoded(m)[..n] && Ended(out[n..], old(out[n..]), if EncodedSize(|m|) < out.Length then Some(0 as char) else None)
  {
    var pos, outCount, w := 0, 0, 0;
    ghost var q, whole := 0, Encoded(m);
    while pos < |m| && outCount < out.Length
      invariant pos == Min(3 * q, |m|) && outCount == 4 * q <= |whole|
      invariant w == (if outCount <= out.Length then outCount else out.Length / 4 * 4) && w <= out.Length
      invariant q > 0 ==> outCount < out.Length + 4
      invariant out[..w] == whole[..w] && out[w..] == old(out[w..])
      decreases |m| - pos
    {
      pos, w := PutGroup(out, m, pos, w, outCount, q, whole);
      outCount := outCount + 4;
      q := q + 1;
    }
    LoopEnds(|m|, q, out.Length);
    ret := EndText(out, outCount, EncodedSize(|m|), w);
  }

  /** Where the loop ends: with the whole input encoded, or no room for another group. */
  lemma LoopEnds(n: nat, q: nat, room: nat)
    requires 4 * q <= EncodedSize(n) && (n <= 3 * q || room <= 4 * q) && (q > 0 ==> 4 * q < room + 4)
    ensures 4 * q <= room ==> EncodedSize(n) == 4 * q || (room == 4 * q && room < EncodedSize(n))
    ensures room < 4 * q ==> room < EncodedSize(n) && room % 4 != 0
    ensures EncodeWritten(EncodedSize(n), room) == if 4 * q <= room then 4 * q else room / 4 * 4
  {
  }

  /** The zero behind the text, if there is room, and the return value. */
  method EndText(out: array<char>, outCount: nat, ghost size: nat, ghost w: nat) returns (ret: nat)
    requires outCount <= out.Length ==> w == outCount && (size == outCount || (outCount == out.Length && out.Length < size && out.Length % 4 == 0))
    requires out.Length < outCount ==> w <= out.Length && out.Length < size && out.Length % 4 != 0
    modifies out
    ensures ret == EncodeResult(size, out.Length)
    ensures w <= out.Length && out[..w] == old(out[..w])
    ensures Ended(out[w..], old(out[w..]), if size < out.Length then Some(0 as char) else None)
  {
    ret := 0;
    if outCount <= out.Length {
      if outCount < out.Length {
        out[outCount] := 0 as char;
      }
      ret := outCount;
    }
  }

  /** One pass of the loop: a group that fits is written. */
  method PutGroup(out: array<char>, m: seq<Byte>, pos: nat, w: nat, outCount: nat, ghost q: nat, ghost whole: seq<char>)
    returns (next: nat, w': nat)
    requires pos < |m| && pos == 3 * q && outCount == 4 * q && w == outCount < out.Length && whole == Encoded(m)
    requires w <= |whole| && out[..w] == whole[..w]
    modifies out
    ensures next == Min(3 * q + 3, |m|) && 4 * q + 4 <= |whole|
    ensures w' == (if outCount + 4 <= out.Length then outCount + 4 else outCount)
    ensures out[..w'] == whole[..w'] && out[w'..] == old(out[w'..])
  {
    EncodedGroup(m, q);
    var c;
    c, next := EncodeGroup(m, pos);
    w' := w;
    if outCount + 4 <= out.Length {
      Append4(out, w, CharsOf(c), whole);
      w' := w + 4;
    }
  }

  /** The characters of one group are written one after the other. */
  method Append4(out: array<char>, w: nat, chars: seq<char>, ghost whole: seq<char>)
    requires w + 4 <= out.Length && w + 4 <= |whole| && |chars| == 4
    requires out[..w] == whole[..w] && whole[w..w + 4] == chars
    modifies out
    ensures out[..w + 4] == whole[..w + 4] && out[w + 4..] == old(out[w + 4..])
  {
    for i := 0 to 4
      invariant out[..w + i] == whole[..w + i] && out[w + i..] == old(out[w + i..])
    {
      out[w + i] := chars[i];
      assert chars[i] == whole[w..w + 4][i];
    }
  }

  /** Base64_decode. */
  method Decode(out: array<Byte>, s: seq<char>) returns (ret: nat)
    modifies out
    ensures ret == |Decoded(s, out.Length)| <= out.Length && out[..ret] == Decoded(s, out.Length)
    ensures Ended(out[ret..], old(out[ret..]), if ret < out.Length then Some(0) else None)
  {
    ghost var whole, rest := Decoded(s, out.Length), Decoded(s, out.Length);
    var done := false;
    var inLen: nat, q: nat, outCount: nat := |s|, 0, 0;
    while inLen > 3 && outCount < out.Length
      invariant outCount <= out.Length && outCount <= |whole| && out[..outCount] == whole[..outCount] && rest == whole[outCount..]
      invariant Untouched(out[..], old(out[..]), outCount + 1)
      invariant rest == if done then [] else DecodeFrom(Reader(Quartets(s)), |s| / 4, q, out.Length - outCount)
      invariant inLen == if done then 0 else |s| - 4 * q
      decreases inLen
    {
      inLen := inLen - 4;
      outCount, done, rest := DecodeQuartet(out, s, q, outCount, rest, whole);
      if done {
        inLen := 0;
      }
      q := q + 1;
    }
    if outCount < out.Length {
      out[outCount] := 0;
    }
    ret := outCount;
  }

  /** One pass of the loop; rest is what is still to come out. */
  method DecodeQuartet(out: array<Byte>, s: seq<char>, q: nat, at: nat, ghost rest: seq<Byte>, ghost whole: seq<Byte>)
    returns (outCount: nat, done: bool, ghost more: seq<Byte>)
    requires 4 * q + 4 <= |s| && at < out.Length && at <= |whole|
    requires out[..at] == whole[..at] && rest == whole[at..] && rest == DecodeFrom(Reader(Quartets(s)), |s| / 4, q, out.Length - at)
    modifies out
    ensures outCount <= out.Length && outCount <= |whole| && out[..outCount] == whole[..outCount] && more == whole[outCount..]
    ensures more == if done then [] else DecodeFrom(Reader(Quartets(s)), |s| / 4, q + 1, out.Length - outCount)
    ensures Untouched(out[..], old(out[..]), outCount + 1) && at <= outCount
  {
    var c := QuartetAt(s, q);
    ghost var bytes := BytesOf(c, out.Length - at);
    more := NextBytes(s, q, out.Length - at);
    outCount, done := DecodeGroup(out, at, c);
    Advance(at, bytes, rest, more, out[..outCount], whole);
  }

  lemma DecodeStep(read: (nat, nat) -> seq<Byte>, n: nat, q: nat, room: nat, bytes: seq<Byte>) returns (more: seq<Byte>)
    requires q < n && room > 0 && read(q, room) == bytes && |bytes| <= 3 && |bytes| <= room
    ensures DecodeFrom(read, n, q, room) == bytes + more
    ensures more == if |bytes| < 3 then [] else DecodeFrom(read, n, q + 1, room - |bytes|)
  {
    more := if |bytes| < 3 then [] else DecodeFrom(read, n, q + 1, room - 3);
    assert bytes + [] == bytes;
  }

  lemma NextBytes(s: seq<char>, q: nat, room: nat) returns (more: seq<Byte>)
    requires 4 * q + 4 <= |s| && room > 0
    ensures var bytes := BytesOf(QuartetAt(s, q), room);
            && DecodeFrom(Reader(Quartets(s)), |s| / 4, q, room) == bytes + more
            && more == if |bytes| < 3 then [] else DecodeFrom(Reader(Quartets(s)), |s| / 4, q + 1, room - |bytes|)
  {
    more := DecodeStep(Reader(Quartets(s)), |s| / 4, q, room, BytesOf(QuartetAt(s, q), room));
  }

  lemma Advance<T>(at: nat, bytes: seq<T>, rest: seq<T>, more: seq<T>, after: seq<T>, whole: seq<T>)
    requires at <= |whole| && rest == whole[at..] && rest == bytes + more && after == whole[..at] + bytes
    ensures at + |bytes| <= |whole| && after == whole[..at + |bytes|] && more == whole[at + |bytes|..]
  {
  }

  ghost predicate Untouched<T>(a: seq<T>, was: seq<T>, k: nat) {
    |a| == |was| && forall i :: k <= i < |a| ==> a[i] == was[i]
  }

  /** One group of Base64_decode.  Where a byte turns out not to exist, its place is left half made. */
  method DecodeGroup(out: array<Byte>, at: nat, c: Quartet) returns (outCount: nat, ended: bool)
    requires at < out.Length
    modifies out
    ensures var bytes := BytesOf(c, out.Length - at);
            && outCount == at + |bytes| && out[..outCount] == old(out[..at]) + bytes
            && (ended ==> |bytes| < 3)
            && (!ended ==> |bytes| == 3 || outCount == out.Length)
    ensures Untouched(out[..], old(out[..]), outCount + 1)
  {
    ended := false;
    out[at] := FirstByte(c.c0, c.c1);
    outCount := at + 1;
    if outCount < out.Length {
      out[outCount] := c.c1 % 16 * 16;
      if c.c2 < NV {
        out[outCount] := out[outCount] + c.c2 / 4;
        outCount := outCount + 1;
        if outCount < out.Length {
          out[outCount] := c.c2 % 4 * 64;
          if c.c3 < NV {
            out[outCount] := out[outCount] + c.c3;
            outCount := outCount + 1;
          } else {
            ended := true;
          }
        }
      } else {
        ended := true;
      }
    }
  }

  // ----- Buffer sizes -----

  const UINT_RANGE := 0x1_0000_0000

  /** Base64_encodeLength, on 32-bit unsigned arithmetic. */
  function EncodeLength(n: nat): nat
    requires n < UINT_RANGE
  {
    (4 * n % UINT_RANGE / 3 + 3) % UINT_RANGE / 4 * 4
  }

  /** It is the size of the encoding if and only if the input is below 2^30 bytes. */
  lemma EncodeLengthExact(n: nat)
    requires n < UINT_RANGE
    ensures EncodeLength(n) == EncodedSize(n) <==> n < 0x4000_0000
  {
    if n < 0x4000_0000 {
      assert 4 * n % UINT_RANGE == 4 * n;
    } else {
      assert 4 * n % UINT_RANGE < 4 * n - UINT_RANGE + 1;
    }
  }

  /** Base64_decodeLength. */
  function DecodeLength(s: seq<char>): nat
    requires |s| < UINT_RANGE
  {
    var pad := (if |s| > 1 && s[|s| - 2] == '=' then 1 else 0) + (if |s| > 0 && s[|s| - 1] == '=' then 1 else 0);
    (|s| / 4 * 3 - pad) % UINT_RANGE
  }

  lemma PaddingOnlyFilled(v: Code)
    ensures EncodeChar(v) == '=' <==> v == NV
  {
  }

  lemma LastCharacters(m: seq<Byte>)
    requires m != []
    ensures var s := Encoded(m);
            && |s| == 4 * ((|m| - 1) / 3) + 4
            && (s[|s| - 2] == '=' <==> |m| % 3 == 1)
            && (s[|s| - 1] == '=' <==> |m| % 3 != 0)
  {
    var q, s := (|m| - 1) / 3, Encoded(m);
    QuartetCodes(m, q, 2);
    QuartetCodes(m, q, 3);
    QuartetAfter(|m|, q);
    GroupCodes(m, q);
    var c := CodesOf(m, 3 * q);
    EncodedGroup(m, q);
    PaddingOnlyFilled(c.c2);
    PaddingOnlyFilled(c.c3);
    assert s[4 * q + 2] == s[4 * q..4 * q + 4][2] && s[4 * q + 3] == s[4 * q..4 * q + 4][3];
  }

  lemma QuartetAfter(n: nat, q: nat)
    requires n > 0 && q == (n - 1) / 3
    ensures EncodedSize(n) == 4 * q + 4 && 3 * q < n <= 3 * q + 3
    ensures 3 * q + 1 == n <==> n % 3 == 1
    ensures 3 * q + 3 == n <==> n % 3 == 0
  {
  }

  lemma DecodeLengthOf(s: seq<char>, n: nat)
    requires n > 0 && |s| == 4 * ((n - 1) / 3) + 4 < UINT_RANGE
    requires (s[|s| - 2] == '=' <==> n % 3 == 1) && (s[|s| - 1] == '=' <==> n % 3 != 0)
    ensures DecodeLength(s) == n
  {
    QuartetAfter(n, (n - 1) / 3);
    PaddingCounted(n, (n - 1) / 3, |s|, if n % 3 == 0 then 0 else 3 - n % 3);
  }

  /** For the encoding of any input it is the size of that input. */
  lemma DecodeLengthExact(m: seq<Byte>)
    requires EncodedSize(|m|) < UINT_RANGE
    ensures DecodeLength(Encoded(m)) == |m|
  {
    if m != [] {
      LastCharacters(m);
      QuartetAfter(|m|, (|m| - 1) / 3);
      DecodeLengthOf(Encoded(m), |m|);
    }
  }

  lemma PaddingCounted(n: nat, q: nat, l: nat, pad: nat)
    requires l == 4 * q + 4 < UINT_RANGE && 3 * q < n <= 3 * q + 3
    requires pad == if n % 3 == 0 then 0 else 3 - n % 3
    ensures (l / 4 * 3 - pad) % UINT_RANGE == n
  {
    assert l / 4 == q + 1;
    assert n % 3 == if n == 3 * q + 3 then 0 else n - 3 * q;
  }

  /** Encoding into a buffer of the size asked for and decoding into one of the size asked for gives
      back every input of fewer than 2^30 bytes. */
  method EncodeThenDecode(m: seq<Byte>) returns (back: seq<Byte>)
    requires |m| < 0x4000_0000
    ensures back == m
  {
    EncodeLengthExact(|m|);
    var text := new char[EncodeLength(|m|)];
    var n := Encode(text, m);
    assert text[..n] == Encoded(m);
    DecodeLengthExact(m);
    var data := new Byte[DecodeLength(text[..n])];
    var size := Decode(data, text[..n]);
    RoundTrip(m, data.Length);
    back := data[..size];
  }
}
