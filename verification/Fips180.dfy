/** SHA-1 as FIPS 180-4 defines it. */
module Fips180 {

  /** The working variables, and the five words of a hash value. */
  datatype Words = Words(a: bv32, b: bv32, c: bv32, d: bv32, e: bv32)

  /** The initial hash value (section 5.3.1). */
  const INITIAL := Words(0x67452301, 0xEFCDAB89, 0x98BADCFE, 0x10325476, 0xC3D2E1F0)

  function Rotl(x: bv32, n: nat): bv32
    requires n <= 32
  {
    (x << n) | (x >> (32 - n))
  }

  /** Addition modulo 2^32 (section 3.2). */
  function Plus(x: bv32, y: bv32): bv32 { x + y }

  function Plus5(x: bv32, y: bv32, z: bv32, u: bv32, v: bv32): bv32 { x + y + z + u + v }

  /** The logical functions (section 4.1.1). */
  function Ch(x: bv32, y: bv32, z: bv32): bv32 { (x & y) ^ (!x & z) }

  function Parity(x: bv32, y: bv32, z: bv32): bv32 { x ^ y ^ z }

  function Maj(x: bv32, y: bv32, z: bv32): bv32 { (x & y) ^ (x & z) ^ (y & z) }

  function F(t: nat, x: bv32, y: bv32, z: bv32): bv32 {
    if t < 20 then Ch(x, y, z) else if 40 <= t < 60 then Maj(x, y, z) else Parity(x, y, z)
  }

  /** The constants (section 4.2.1). */
  function K(t: nat): bv32 {
    if t < 20 then 0x5A827999 else if t < 40 then 0x6ED9EBA1 else if t < 60 then 0x8F1BBCDC else 0xCA62C1D6
  }

  /** The message schedule (section 6.1.2, step 1). */
  function Schedule(block: seq<bv32>, t: nat): bv32
    requires |block| == 16
  {
    if t < 16 then block[t]
    else Rotl(Schedule(block, t - 3) ^ Schedule(block, t - 8) ^ Schedule(block, t - 14) ^ Schedule(block, t - 16), 1)
  }

  /** Round t, with word w of the schedule. */
  function Round(t: nat, v: Words, w: bv32): Words {
    Words(Plus5(Rotl(v.a, 5), F(t, v.b, v.c, v.d), v.e, K(t), w), v.a, Rotl(v.b, 30), v.c, v.d)
  }

  /** The working variables after t rounds (step 3). */
  function Rounds(hash: Words, block: seq<bv32>, t: nat): Words
    requires |block| == 16
  {
    if t == 0 then hash else Round(t - 1, Rounds(hash, block, t - 1), Schedule(block, t - 1))
  }

  function Sum(v: Words, w: Words): Words {
    Words(Plus(v.a, w.a), Plus(v.b, w.b), Plus(v.c, w.c), Plus(v.d, w.d), Plus(v.e, w.e))
  }

  /** One block of the hash computation (step 4). */
  function Compress(hash: Words, block: seq<bv32>): Words
    requires |block| == 16
  {
    Sum(hash, Rounds(hash, block, 80))
  }

  function Word(b0: bv8, b1: bv8, b2: bv8, b3: bv8): bv32 {
    (b0 as bv32 << 24) | (b1 as bv32 << 16) | (b2 as bv32 << 8) | (b3 as bv32)
  }

  /** Block k of a message, as words (section 5.2.1). */
  function Block(m: seq<bv8>, k: nat): (block: seq<bv32>)
    requires 64 * (k + 1) <= |m|
    ensures |block| == 16
  {
    seq(16, i requires 0 <= i < 16 =>
      Word(m[64 * k + 4 * i], m[64 * k + 4 * i + 1], m[64 * k + 4 * i + 2], m[64 * k + 4 * i + 3]))
  }

  /** The hash value after the first n blocks. */
  function HashBlocks(m: seq<bv8>, n: nat): Words
    requires 64 * n <= |m|
  {
    if n == 0 then INITIAL else Compress(HashBlocks(m, n - 1), Block(m, n - 1))
  }

  /** A 32-bit number, most significant byte first. */
  function BigEndian32(v: nat): (s: seq<bv8>)
    requires v < 0x1_0000_0000
    ensures |s| == 4
  {
    [(v / 0x100_0000) as bv8, (v / 0x1_0000 % 256) as bv8, (v / 256 % 256) as bv8, (v % 256) as bv8]
  }

  function BigEndian64(v: nat): (s: seq<bv8>)
    requires v < 0x1_0000_0000_0000_0000
    ensures |s| == 8
  {
    BigEndian32(v / 0x1_0000_0000) + BigEndian32(v % 0x1_0000_0000)
  }

  /** The zero bytes between the end mark and the length: as few as make the blocks whole. */
  function Zeros(n: nat): (z: nat)
    ensures z < 64 && (n + 1 + z + 8) % 64 == 0
  {
    if n % 64 < 56 then 55 - n % 64 else 119 - n % 64
  }

  /** Padding (section 5.1.1), for messages of fewer than 2^64 bits. */
  function Padded(m: seq<bv8>): (p: seq<bv8>)
    requires 8 * |m| < 0x1_0000_0000_0000_0000
    ensures |p| % 64 == 0
  {
    m + [0x80] + seq(Zeros(|m|), _ => 0) + BigEndian64(8 * |m|)
  }

  function WordBytes(x: bv32): (s: seq<bv8>)
    ensures |s| == 4
  {
    [(x >> 24) as bv8, ((x >> 16) & 0xFF) as bv8, ((x >> 8) & 0xFF) as bv8, (x & 0xFF) as bv8]
  }

  /** Words are made of bytes, and given out as bytes, most significant first, and a rotation to the left
      brings the top bits round. */
  lemma BytesAndRotations()
    ensures Word(0x12, 0x34, 0x56, 0x78) == 0x12345678 && WordBytes(0x12345678) == [0x12, 0x34, 0x56, 0x78]
    ensures Rotl(0x80000001, 1) == 3 && Rotl(0xF8000000, 5) == 31 && Rotl(0x12345678, 30) == 0x048D159E
  {
  }

  function Digest(hash: Words): (s: seq<bv8>)
    ensures |s| == 20
  {
    WordBytes(hash.a) + WordBytes(hash.b) + WordBytes(hash.c) + WordBytes(hash.d) + WordBytes(hash.e)
  }

  function Sha1(m: seq<bv8>): seq<bv8>
    requires 8 * |m| < 0x1_0000_0000_0000_0000
  {
    Digest(HashBlocks(Padded(m), |Padded(m)| / 64))
  }
}
