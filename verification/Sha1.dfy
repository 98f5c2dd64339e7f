/** The streaming SHA-1 of src/SHA1.c (the portable branch), proved to be the SHA-1 of FIPS 180-4 for
    every message of fewer than 2^29 bytes, however it is split over the calls. */
module Sha1 {
  import opened Fips180

  const UINT_RANGE := 0x1_0000_0000

  // ----- The forms the code uses -----

  /** Choice and majority written with OR. */
  function ChOr(x: bv32, y: bv32, z: bv32): bv32 { (x & y) | (!x & z) }

  function MajOr(x: bv32, y: bv32, z: bv32): bv32 { (x & y) | (x & z) | (y & z) }

  lemma OrIsXor(x: bv32, y: bv32, z: bv32)
    ensures (x & y) | (!x & z) == (x & y) ^ (!x & z)
    ensures (x & y) | (x & z) | (y & z) == (x & y) ^ (x & z) ^ (y & z)
  {
  }

  lemma LogicalForms(x: bv32, y: bv32, z: bv32)
    ensures ChOr(x, y, z) == Ch(x, y, z) && MajOr(x, y, z) == Maj(x, y, z)
  {
    OrIsXor(x, y, z);
  }

  // ----- The circular schedule -----

  function Oldest(t: nat): nat { if t < 16 then 0 else t - 16 }

  /** The 16 words hold the last 16 of the schedule, each at its index modulo 16, before word t is
      made; the first 16 are simply there. */
  ghost predicate Window(w: seq<bv32>, block: seq<bv32>, t: nat)
    requires |w| == 16 && |block| == 16
  {
    forall j: nat {:trigger Schedule(block, j)} :: Oldest(t) <= j < Oldest(t) + 16 ==> w[j % 16] == Schedule(block, j)
  }

  lemma Slots(t: nat)
    requires t >= 16
    ensures (t + 13) % 16 == (t - 3) % 16 && (t + 8) % 16 == (t - 8) % 16
    ensures (t + 2) % 16 == (t - 14) % 16 && t % 16 == (t - 16) % 16
  {
    SameSlot(t - 3);
    SameSlot(t - 8);
    SameSlot(t - 14);
    SameSlot(t - 16);
  }

  lemma SameSlot(i: nat)
    ensures (i + 16) % 16 == i % 16
  {
  }

  lemma DifferentSlots(j: nat, t: nat)
    requires t < j + 16 && j < t
    ensures j % 16 != t % 16
  {
  }

  lemma {:induction false} NextWord(w: seq<bv32>, block: seq<bv32>, t: nat)
    requires |w| == 16 && |block| == 16 && t >= 16 && Window(w, block, t)
    ensures Rotl(w[(t + 13) % 16] ^ w[(t + 8) % 16] ^ w[(t + 2) % 16] ^ w[t % 16], 1) == Schedule(block, t)
  {
    Slots(t);
    assert w[(t - 3) % 16] == Schedule(block, t - 3) && w[(t - 8) % 16] == Schedule(block, t - 8);
    assert w[(t - 14) % 16] == Schedule(block, t - 14) && w[(t - 16) % 16] == Schedule(block, t - 16);
  }

  lemma {:induction false} WindowMoves(w: seq<bv32>, block: seq<bv32>, t: nat, next: bv32)
    requires |w| == 16 && |block| == 16 && t >= 16 && Window(w, block, t) && next == Schedule(block, t)
    ensures Window(w[t % 16 := next], block, t + 1)
  {
    forall j: nat | t - 15 <= j < t + 1 ensures w[t % 16 := next][j % 16] == Schedule(block, j) {
      if j < t {
        DifferentSlots(j, t);
      }
    }
  }

  // ----- Padding -----

  /** What SHA1_Final appends: the byte count times 8 is kept in 32 bits, so the upper half of the
      length is always zero. */
  function CodePadded(m: seq<bv8>): (p: seq<bv8>)
    ensures |p| % 64 == 0
  {
    m + [0x80] + seq(Zeros(|m|), _ => 0) + BigEndian32(0) + BigEndian32(8 * |m| % UINT_RANGE)
  }

  lemma Zero32IsUnique(v: nat)
    requires v < UINT_RANGE
    ensures BigEndian32(v) == BigEndian32(0) <==> v == 0
  {
    if BigEndian32(v) == BigEndian32(0) {
      assert BigEndian32(v)[0] == 0 && BigEndian32(v)[1] == 0 && BigEndian32(v)[2] == 0 && BigEndian32(v)[3] == 0;
    }
  }

  /** That is the padding of section 5.1.1 if and only if the message has fewer than 2^29 bytes. */
  lemma PaddingAgrees(m: seq<bv8>)
    requires 8 * |m| < 0x1_0000_0000_0000_0000
    ensures CodePadded(m) == Padded(m) <==> |m| < 0x2000_0000
  {
    var p, q, n := CodePadded(m), Padded(m), |m| + 1 + Zeros(|m|);
    assert p[n..n + 4] == BigEndian32(0);
    assert q[n..n + 4] == BigEndian32(8 * |m| / UINT_RANGE);
    Zero32IsUnique(8 * |m| / UINT_RANGE);
  }

  /** What SHA1_Final gives for a message of any length. */
  function CodeDigest(m: seq<bv8>): seq<bv8> {
    Digest(HashBlocks(CodePadded(m), |CodePadded(m)| / 64))
  }

  /** The table the padding is taken from. */
  const PAD: seq<bv8> := [0x80] + seq(63, _ => 0)

  lemma Remainder(n: nat, q: nat, r: nat)
    requires n == q * UINT_RANGE + r && r < UINT_RANGE
    ensures n % UINT_RANGE == r
  {
  }

  lemma CountOfBits(l: nat)
    ensures l % UINT_RANGE * 8 % UINT_RANGE == 8 * l % UINT_RANGE
  {
    var q, r := l / UINT_RANGE, l % UINT_RANGE;
    Remainder(8 * l, 8 * q + 8 * r / UINT_RANGE, 8 * r % UINT_RANGE);
  }

  lemma PieceAdded(m: seq<bv8>, data: seq<bv8>, pos: nat, n: nat, before: seq<bv8>, now: seq<bv8>)
    requires pos + n <= |data| && before == m + data[..pos] && now == before + data[pos..pos + n]
    ensures now == m + data[..pos + n]
  {
    assert data[..pos] + data[pos..pos + n] == data[..pos + n];
  }

  lemma PadIs(n: nat, pad: seq<bv8>)
    requires 1 + n <= 64 && pad == PAD[..1 + n]
    ensures pad == [0x80] + seq(n, _ => 0)
  {
  }

  lemma CodePaddedIs(m: seq<bv8>, pad: seq<bv8>, bits: nat, message: seq<bv8>)
    requires pad == [0x80] + seq(Zeros(|m|), _ => 0) && bits == 8 * |m| % UINT_RANGE && message == m + pad
    ensures message + BigEndian32(0) + BigEndian32(bits) == CodePadded(m)
  {
  }

  lemma PaddedSize(n: nat, padAmount: nat)
    requires padAmount == if n % 64 < 56 then 56 - n % 64 else 64 + 56 - n % 64
    ensures padAmount == 1 + Zeros(n) && (n + padAmount) % 64 == 56
  {
  }

  /** What has been hashed when the length is put behind the padding. */
  lemma AllPadded(m: seq<bv8>, n: nat, padAmount: nat, pad: seq<bv8>, bits: nat, message: seq<bv8>)
    requires n == |m| && padAmount == (if n % 64 < 56 then 56 - n % 64 else 64 + 56 - n % 64)
    requires pad == PAD[..padAmount] && message == m + pad && bits == n % UINT_RANGE * 8 % UINT_RANGE
    ensures message + BigEndian32(0) + BigEndian32(bits) == CodePadded(m)
  {
    PaddedSize(n, padAmount);
    CountOfBits(n);
    PadIs(Zeros(n), pad);
    CodePaddedIs(m, pad, bits, message);
  }

  lemma DigestIs(m: seq<bv8>, h: Words)
    requires h == HashBlocks(CodePadded(m), |CodePadded(m)| / 64)
    ensures Digest(h) == CodeDigest(m)
    ensures |m| < 0x2000_0000 ==> Digest(h) == Fips180.Sha1(m)
  {
    if |m| < 0x2000_0000 {
      PaddingAgrees(m);
    }
  }

  lemma LengthJoined(message: seq<bv8>, upper: seq<bv8>, lower: seq<bv8>, padded: seq<bv8>)
    requires message + upper + lower == padded
    ensures message + (upper + lower) == padded
  {
  }

  // ----- Streaming -----

  lemma {:induction false} HashOfPrefix(m: seq<bv8>, x: seq<bv8>, n: nat)
    requires 64 * n <= |m|
    ensures HashBlocks(m + x, n) == HashBlocks(m, n)
  {
    if n > 0 {
      HashOfPrefix(m, x, n - 1);
      assert Block(m + x, n - 1) == Block(m, n - 1);
    }
  }

  /** The state after hashing m: the whole blocks are in the hash value, the rest is buffered, and the
      count has wrapped round at 2^32. */
  ghost predicate Tracks(m: seq<bv8>, h: Words, size: nat, total: nat, buffered: seq<bv8>) {
    && size == |m| % 64 && total == |m| % UINT_RANGE
    && h == HashBlocks(m, |m| / 64)
    && buffered == m[|m| - size..]
  }

  lemma WrappedCount(l: nat, k: nat)
    ensures (l % UINT_RANGE + k) % UINT_RANGE == (l + k) % UINT_RANGE
  {
  }

  lemma BlockCount(l: nat, k: nat)
    requires l % 64 + k <= 64
    ensures l % 64 + k < 64 ==> (l + k) % 64 == l % 64 + k && (l + k) / 64 == l / 64
    ensures l % 64 + k == 64 ==> (l + k) % 64 == 0 && (l + k) / 64 == l / 64 + 1
  {
  }

  lemma Buffered(m: seq<bv8>, h: Words, size: nat, total: nat, buffered: seq<bv8>, piece: seq<bv8>)
    requires Tracks(m, h, size, total, buffered) && size + |piece| < 64
    ensures Tracks(m + piece, h, size + |piece|, (total + |piece|) % UINT_RANGE, buffered + piece)
  {
    var n, next := |m| / 64, m + piece;
    assert |next| % 64 == size + |piece| && |next| / 64 == n && |next| % UINT_RANGE == (total + |piece|) % UINT_RANGE by {
      WrappedCount(|m|, |piece|);
      BlockCount(|m|, |piece|);
    }
    HashOfPrefix(m, piece, n);
    assert next[|m| - size..] == m[|m| - size..] + piece;
  }

  /** The buffer is full: it is the block that the message has just completed. */
  lemma Completed(m: seq<bv8>, h: Words, size: nat, total: nat, buffered: seq<bv8>, piece: seq<bv8>)
    requires Tracks(m, h, size, total, buffered) && size + |piece| == 64
    ensures Tracks(m + piece, Compress(h, Block(buffered + piece, 0)), 0, (total + |piece|) % UINT_RANGE, [])
  {
    var n, next := |m| / 64, m + piece;
    assert |next| % 64 == 0 && |next| / 64 == n + 1 && |next| % UINT_RANGE == (total + |piece|) % UINT_RANGE by {
      WrappedCount(|m|, |piece|);
      BlockCount(|m|, |piece|);
    }
    HashOfPrefix(m, piece, n);
    LastBlock(m, piece, n);
  }

  lemma LastBlock(m: seq<bv8>, piece: seq<bv8>, n: nat)
    requires 64 * n <= |m| && |m| + |piece| == 64 * n + 64
    ensures Block(m + piece, n) == Block(m[64 * n..] + piece, 0)
  {
    assert forall i :: 0 <= i < 64 ==> (m + piece)[64 * n + i] == (m[64 * n..] + piece)[i];
  }

  class ShaContext {
    var h: Words
    const buffer: array<bv8>
    var size: nat
    var total: nat

    /** Everything hashed so far. */
    ghost var message: seq<bv8>

    ghost predicate Valid()
      reads this, buffer
    {
      && buffer.Length == 64 && size < 64
      && Tracks(message, h, size, total, buffer[..size])
    }

    constructor ()
      ensures Valid() && message == [] && fresh(buffer)
    {
      h := Words(0x67452301, 0xEFCDAB89, 0x98BADCFE, 0x10325476, 0xC3D2E1F0);
      buffer := new bv8[64];
      size, total, message := 0, 0, [];
    }

    /** Hashes the buffer.  In the source the words of the schedule overlay the buffer, which is not
        used again before it is refilled. */
    method ProcessBlock()
      requires buffer.Length == 64
      modifies `h, buffer
      ensures h == Compress(old(h), Block(old(buffer[..]), 0))
    {
      var w := LoadWords();
      var blks := AllRounds(h, w);
      h := Added(h, blks);
    }

    method LoadWords() returns (w: array<bv32>)
      requires buffer.Length == 64
      ensures fresh(w) && w.Length == 16 && w[..] == Block(buffer[..], 0)
    {
      w := new bv32[16](i requires 0 <= i < 16 && buffer.Length == 64 reads buffer =>
        Word(buffer[4 * i], buffer[4 * i + 1], buffer[4 * i + 2], buffer[4 * i + 3]));
    }

    static method AllRounds(hash: Words, w: array<bv32>) returns (blks: Words)
      requires w.Length == 16
      modifies w
      ensures blks == Rounds(hash, old(w[..]), 80)
    {
      blks := hash;
      for i := 0 to 80
        invariant Window(w[..], old(w[..]), i)
        invariant blks == Rounds(hash, old(w[..]), i)
      {
        if i >= 16 {
          Extend(w, i, old(w[..]));
        }
        blks := OneRound(i, blks, w[i % 16]);
      }
    }

    /** The next word of the schedule takes the place of the oldest. */
    static method Extend(w: array<bv32>, i: nat, ghost block: seq<bv32>)
      requires w.Length == 16 && |block| == 16 && i >= 16 && Window(w[..], block, i)
      modifies w
      ensures Window(w[..], block, i + 1)
    {
      var next := Rotl(w[(i + 13) % 16] ^ w[(i + 8) % 16] ^ w[(i + 2) % 16] ^ w[i % 16], 1);
      NextWord(w[..], block, i);
      WindowMoves(w[..], block, i, next);
      w[i % 16] := next;
    }

    static method OneRound(i: nat, b: Words, wi: bv32) returns (c: Words)
      requires i < 80
      ensures c == Round(i, b, wi)
    {
      var f, k := Selected(i, b.b, b.c, b.d);
      var tmp := Mixed(Rotl(b.a, 5), f, b.e, wi, k);
      c := Words(tmp, b.a, Rotl(b.b, 30), b.c, b.d);
    }

    /** The logical function and the constant of round i. */
    static method Selected(i: nat, b1: bv32, b2: bv32, b3: bv32) returns (f: bv32, k: bv32)
      requires i < 80
      ensures f == F(i, b1, b2, b3) && k == K(i)
    {
      if i < 20 {
        LogicalForms(b1, b2, b3);
        f, k := ChOr(b1, b2, b3), 0x5A827999;
      } else if i < 40 {
        f, k := b1 ^ b2 ^ b3, 0x6ED9EBA1;
      } else if i < 60 {
        LogicalForms(b1, b2, b3);
        f, k := MajOr(b1, b2, b3), 0x8F1BBCDC;
      } else {
        f, k := b1 ^ b2 ^ b3, 0xCA62C1D6;
      }
    }

    static method Mixed(r: bv32, f: bv32, e: bv32, wi: bv32, k: bv32) returns (tmp: bv32)
      ensures tmp == Plus5(r, f, e, k, wi)
    {
      tmp := r + f + e + wi + k;
    }

    static method Added(v: Words, w: Words) returns (s: Words)
      ensures s == Sum(v, w)
    {
      s := Words(Plus(v.a, w.a), Plus(v.b, w.b), Plus(v.c, w.c), Plus(v.d, w.d), Plus(v.e, w.e));
    }

    /** SHA1_Update. */
    method Update(data: seq<bv8>)
      requires Valid()
      modifies this, buffer
      ensures Valid() && message == old(message) + data
    {
      var pos := 0;
      while pos < |data|
        invariant pos <= |data| && Valid()
        invariant message == old(message) + data[..pos]
      {
        var n := 64 - size;
        if |data| - pos < n {
          n := |data| - pos;
        }
        ghost var before := message;
        Take(data[pos..pos + n]);
        PieceAdded(old(message), data, pos, n, before, message);
        pos := pos + n;
      }
      assert data[..pos] == data;
    }

    /** One pass of the loop: a piece that fits goes into the buffer, and a full buffer is hashed. */
    method Take(piece: seq<bv8>)
      requires Valid() && 0 < |piece| <= 64 - size
      modifies this, buffer
      ensures Valid() && message == old(message) + piece
    {
      ghost var m, s, c, held := message, size, total, buffer[..size];
      Copy(size, piece);
      size := size + |piece|;
      total := (total + |piece|) % UINT_RANGE;
      message := message + piece;
      assert buffer[..size] == held + piece;
      if size == 64 {
        Completed(m, h, s, c, held, piece);
        assert buffer[..] == held + piece;
        ProcessBlock();
        size := 0;
      } else {
        Buffered(m, h, s, c, held, piece);
      }
    }

    /** memcpy into the buffer. */
    method Copy(pos: nat, piece: seq<bv8>)
      requires buffer.Length == 64 && pos + |piece| <= 64
      modifies buffer
      ensures buffer[..] == old(buffer[..pos]) + piece + old(buffer[pos + |piece|..])
    {
      for i := 0 to |piece|
        invariant buffer[..] == old(buffer[..pos]) + piece[..i] + old(buffer[pos + i..])
      {
        buffer[pos + i] := piece[i];
      }
    }

    /** SHA1_Final: pads, hashes the last block and gives out the digest. */
    method Final(md: array<bv8>)
      requires Valid() && md.Length >= 20 && md != buffer
      modifies this, buffer, md
      ensures md[..20] == CodeDigest(old(message)) && md[20..] == old(md[20..])
      ensures |old(message)| < 0x2000_0000 ==> md[..20] == Fips180.Sha1(old(message))
    {
      PadAndHash();
      DigestIs(old(message), h);
      CopyDigest(md);
    }

    method PadAndHash()
      requires Valid()
      modifies this, buffer
      ensures h == HashBlocks(CodePadded(old(message)), |CodePadded(old(message))| / 64)
    {
      ghost var m := message;
      var bits := total * 8 % UINT_RANGE;
      var padAmount := if size < 56 then 56 - size else 64 + 56 - size;
      PaddedSize(|m|, padAmount);
      Update(PAD[..padAmount]);
      AllPadded(m, |m|, padAmount, PAD[..padAmount], bits, message);
      FinishBlock(bits, CodePadded(m));
    }

    /** The length goes where the padding has left room for it. */
    method FinishBlock(bits: nat, ghost padded: seq<bv8>)
      requires Valid() && size == 56 && bits < UINT_RANGE
      requires message + BigEndian32(0) + BigEndian32(bits) == padded
      modifies `h, buffer
      ensures |padded| % 64 == 0 && h == HashBlocks(padded, |padded| / 64)
    {
      ghost var held, length := buffer[..56], BigEndian32(bits / UINT_RANGE) + BigEndian32(bits % UINT_RANGE);
      Copy(56, BigEndian32(bits / UINT_RANGE) + BigEndian32(bits % UINT_RANGE));
      assert buffer[..] == held + length;
      Completed(message, h, size, total, held, length);
      ProcessBlock();
      LengthJoined(message, BigEndian32(0), BigEndian32(bits), padded);
    }

    method CopyDigest(md: array<bv8>)
      requires md.Length >= 20
      modifies md
      ensures md[..20] == Digest(h) && md[20..] == old(md[20..])
    {
      var bytes := Digest(h);
      for i := 0 to 20
        invariant md[..i] == bytes[..i] && md[20..] == old(md[20..])
      {
        md[i] := bytes[i];
      }
      assert bytes[..20] == bytes;
    }
  }
}
