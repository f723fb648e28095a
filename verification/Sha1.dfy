/** SHA-1 as FIPS 180-4 defines it on a whole message, and the incremental
    hash with a 64-byte buffer that the authentication cookies use. */
module Sha1 {
  import opened Bytes

  const TWO32: nat := 0x1_0000_0000
  const INT_MAX: nat := 0x7FFF_FFFF

  // ------------------------------------------------------------ the standard

  /** The number that bytes spell in big-endian order */
  function BigEndian(b: seq<Byte>): (r: nat)
  {
    if b == [] then 0 else 256 * BigEndian(b[..|b| - 1]) + b[|b| - 1]
  }

  /** A number modulo 256^n in n bytes, big-endian */
  function InBytes(n: nat, x: nat): (b: seq<Byte>)
    ensures |b| == n
  {
    if n == 0 then [] else InBytes(n - 1, x / 256) + [x % 256]
  }

  datatype Hash = Hash(a: bv32, b: bv32, c: bv32, d: bv32, e: bv32)

  const INITIAL: Hash := Hash(0x67452301, 0xefcdab89, 0x98badcfe, 0x10325476, 0xc3d2e1f0)

  /** Section 3.2 */
  function Rotl(x: bv32, n: nat): bv32
    requires 0 < n < 32
  {
    x.RotateLeft(n)
  }

  function Xor4(w: bv32, x: bv32, y: bv32, z: bv32): bv32 { w ^ x ^ y ^ z }

  /** Section 4.1.1 */
  function Ch(x: bv32, y: bv32, z: bv32): bv32 { (x & y) ^ (!x & z) }
  function Parity(x: bv32, y: bv32, z: bv32): bv32 { x ^ y ^ z }
  function Maj(x: bv32, y: bv32, z: bv32): bv32 { (x & y) ^ (x & z) ^ (y & z) }

  function F(t: nat, x: bv32, y: bv32, z: bv32): bv32 {
    if t < 20 then Ch(x, y, z) else if 40 <= t < 60 then Maj(x, y, z) else Parity(x, y, z)
  }

  /** Section 4.2.1 */
  function K(t: nat): bv32 {
    if t < 20 then 0x5a827999 else if t < 40 then 0x6ed9eba1 else if t < 60 then 0x8f1bbcdc else 0xca62c1d6
  }

  type Block = b: seq<Byte> | |b| == 64 witness seq(64, i => 0)

  /** The words of four bytes that a block consists of (section 5.2.1) */
  function BlockWord(b: Block, t: nat): bv32
    requires t < 16
  {
    WordInRange(b[4 * t..4 * t + 4]);
    BigEndian(b[4 * t..4 * t + 4]) as bv32
  }

  lemma {:induction false} WordInRange(b: seq<Byte>)
    requires |b| == 4
    ensures BigEndian(b) == b[0] as int * 0x100_0000 + b[1] as int * 0x1_0000 + b[2] as int * 0x100 + b[3]
    ensures BigEndian(b) < TWO32
  {
    assert b[..3][..2] == b[..2] && b[..2][..1] == b[..1] && b[..1][..0] == [];
    assert BigEndian(b[..1]) == b[0];
    assert BigEndian(b[..2]) == 256 * (b[0] as int) + b[1];
    assert BigEndian(b[..3]) == 256 * BigEndian(b[..2]) + b[2];
  }

  /** The first n words of the message schedule (section 6.1.2, step 1) */
  function Schedule(b: Block, n: nat): (w: seq<bv32>)
    ensures |w| == n
  {
    if n == 0 then []
    else
      var w := Schedule(b, n - 1);
      var t := n - 1;
      w + [if t < 16 then BlockWord(b, t)
           else Rotl(Xor4(w[t - 3], w[t - 8], w[t - 14], w[t - 16]), 1)]
  }

  function Temp(a: bv32, f: bv32, e: bv32, k: bv32, w: bv32): bv32 {
    Plus5(Rotl(a, 5), f, e, k, w)
  }

  /** Addition modulo 2^32 (section 3.2) */
  function Plus5(v: bv32, w: bv32, x: bv32, y: bv32, z: bv32): bv32 { v + w + x + y + z }

  /** One iteration of step 3 */
  function Round(h: Hash, t: nat, w: bv32): Hash {
    Hash(Temp(h.a, F(t, h.b, h.c, h.d), h.e, K(t), w), h.a, Rotl(h.b, 30), h.c, h.d)
  }

  function Rounds(h: Hash, w: seq<bv32>): Hash {
    if w == [] then h else Round(Rounds(h, w[..|w| - 1]), |w| - 1, w[|w| - 1])
  }

  function AddHash(x: Hash, y: Hash): Hash {
    Hash(x.a + y.a, x.b + y.b, x.c + y.c, x.d + y.d, x.e + y.e)
  }

  function Compress(h: Hash, b: Block): Hash {
    AddHash(Rounds(h, Schedule(b, 80)), h)
  }

  /** Section 6.1.2 over all blocks of a padded message */
  function HashBlocks(h: Hash, m: seq<Byte>): Hash
    requires |m| % 64 == 0
    decreases |m|
  {
    if m == [] then h else HashBlocks(Compress(h, m[..64]), m[64..])
  }

  /** Section 5.1.1: a one bit, zeros up to 8 bytes before the end of a block, and
      the length field */
  function PadWith(m: seq<Byte>, length: seq<Byte>): (r: seq<Byte>)
    requires |length| == 8
    ensures |r| % 64 == 0 && m <= r
  {
    m + [0x80] + Zeros((55 - |m|) % 64) + length
  }

  /** The message padded with its length in bits as a 64-bit number */
  function Pad(m: seq<Byte>): seq<Byte> {
    PadWith(m, InBytes(8, 8 * |m|))
  }

  function Digest(h: Hash): (d: seq<Byte>)
    ensures |d| == 20
  {
    InBytes(4, h.a as int) + InBytes(4, h.b as int) + InBytes(4, h.c as int) + InBytes(4, h.d as int) + InBytes(4, h.e as int)
  }

  function SHA1(m: seq<Byte>): seq<Byte> {
    Digest(HashBlocks(INITIAL, Pad(m)))
  }

  // ---------------------------------------------------------------- its laws

  /** Big-endian bytes spell the number they come from. */
  lemma {:induction false} BytesSpell(n: nat, x: nat)
    requires x < Span(n)
    ensures BigEndian(InBytes(n, x)) == x
  {
    if n > 0 {
      BytesSpell(n - 1, x / 256);
      assert InBytes(n, x)[..n - 1] == InBytes(n - 1, x / 256);
    }
  }

  /** Hashing is incremental at block boundaries. */
  lemma {:induction false} HashBlocksConcat(h: Hash, m: seq<Byte>, n: seq<Byte>)
    requires |m| % 64 == 0 && |n| % 64 == 0
    ensures |m + n| % 64 == 0 && HashBlocks(h, m + n) == HashBlocks(HashBlocks(h, m), n)
    decreases |m|
  {
    hide Compress;
    if m == [] {
      assert m + n == n;
    } else {
      assert (m + n)[..64] == m[..64] && (m + n)[64..] == m[64..] + n;
      HashBlocksConcat(Compress(h, m[..64]), m[64..], n);
    }
  }

  lemma {:induction false} HashOneBlock(h: Hash, m: seq<Byte>, b: Block)
    requires |m| % 64 == 0
    ensures |m + b| % 64 == 0 && HashBlocks(h, m + b) == Compress(HashBlocks(h, m), b)
  {
    hide Compress;
    HashBlocksConcat(h, m, b);
    assert b[..64] == b && b[64..] == [];
  }

  // -------------------------------------------------------- the source's steps

  /** lrot */
  function Lrot(x: bv32, bits: nat): bv32
    requires 0 < bits < 32
  {
    (x << bits) | (x >> (32 - bits))
  }

  lemma {:induction false} LrotRotates(x: bv32)
    ensures Lrot(x, 1) == Rotl(x, 1)
    ensures Lrot(x, 5) == Rotl(x, 5)
    ensures Lrot(x, 30) == Rotl(x, 30)
  {
  }

  /** The forms in which process writes Ch and Maj */
  function OrCh(b: bv32, c: bv32, d: bv32): bv32 { (b & c) | ((b ^ 0xFFFFFFFF) & d) }
  function OrMaj(b: bv32, c: bv32, d: bv32): bv32 { (b & c) | (b & d) | (c & d) }

  lemma {:induction false} OrForms(b: bv32, c: bv32, d: bv32)
    ensures OrCh(b, c, d) == Ch(b, c, d)
    ensures OrMaj(b, c, d) == Maj(b, c, d)
  {
    OrIsXor(b, c, d);
  }

  lemma {:induction false} OrIsXor(b: bv32, c: bv32, d: bv32)
    ensures (b & c) | ((b ^ 0xFFFFFFFF) & d) == (b & c) ^ (!b & d)
    ensures (b & c) | (b & d) | (c & d) == (b & c) ^ (b & d) ^ (c & d)
  {
  }

  /** The sum in process adds the round constant last. */
  function Sum(a: bv32, f: bv32, e: bv32, w: bv32, k: bv32): bv32 {
    Plus5(Lrot(a, 5), f, e, w, k)
  }

  lemma {:induction false} SumIsTemp(a: bv32, f: bv32, e: bv32, w: bv32, k: bv32)
    ensures Sum(a, f, e, w, k) == Temp(a, f, e, k, w)
  {
    hide Lrot, Rotl, Plus5;
    LrotRotates(a);
    SumOrder(Rotl(a, 5), f, e, w, k);
  }

  lemma {:induction false} SumOrder(v: bv32, f: bv32, e: bv32, w: bv32, k: bv32)
    ensures Plus5(v, f, e, w, k) == Plus5(v, f, e, k, w)
  {
  }

  /** storeBigEndianUint32 */
  function StoreBigEndian(num: nat): (b: seq<Byte>)
  {
    [num / 0x100_0000 % 256, num / 0x1_0000 % 256, num / 0x100 % 256, num % 256]
  }

  lemma {:induction false} StoresBytes(num: nat)
    ensures InBytes(4, num) == StoreBigEndian(num)
  {
    assert num / 256 / 256 == num / 0x1_0000;
    assert num / 0x1_0000 / 256 == num / 0x100_0000;
    var z: seq<Byte> := [];
    assert InBytes(1, num / 0x100_0000) == z + [num / 0x100_0000 % 256];
    assert InBytes(2, num / 0x1_0000) == InBytes(1, num / 0x100_0000) + [num / 0x1_0000 % 256];
    assert InBytes(3, num / 0x100) == InBytes(2, num / 0x1_0000) + [num / 0x100 % 256];
  }

  lemma {:induction false} StoresLow(num: nat)
    ensures StoreBigEndian(num % TWO32) == StoreBigEndian(num)
  {
    var h, l := num / TWO32, num % TWO32;
    LowByte(h * 0x100_0000, l);
    assert num / 0x100 == 256 * (h * 0x1_0000) + l / 0x100;
    LowByte(h * 0x1_0000, l / 0x100);
    assert num / 0x1_0000 == 256 * (h * 0x100) + l / 0x1_0000;
    LowByte(h * 0x100, l / 0x1_0000);
    assert num / 0x100_0000 == 256 * h + l / 0x100_0000;
    LowByte(h, l / 0x100_0000);
  }

  lemma {:induction false} LowByte(h: nat, l: nat)
    ensures (256 * h + l) % 256 == l % 256
  {
  }

  /** The length field that SHA1GetDigest writes, from a 32-bit byte count */
  function LengthField(size: nat): (b: seq<Byte>)
    requires size < TWO32
    ensures |b| == 8
  {
    StoreBigEndian(size / 0x2000_0000) + StoreBigEndian(size * 8 % TWO32)
  }

  /** Eight bytes are those of the high and of the low half. */
  lemma {:induction false} EightBytes(x: nat)
    ensures InBytes(8, x) == InBytes(4, x / TWO32) + InBytes(4, x)
  {
    var x1, x2, x3, x4 := x / 256, x / 0x1_0000, x / 0x100_0000, x / TWO32;
    assert x1 / 256 == x2 && x2 / 256 == x3 && x3 / 256 == x4;
    assert InBytes(4, x) == InBytes(3, x1) + [x % 256];
    assert InBytes(3, x1) == InBytes(2, x2) + [x1 % 256];
    assert InBytes(2, x2) == InBytes(1, x3) + [x2 % 256];
    assert InBytes(1, x3) == InBytes(0, x4) + [x3 % 256];
    assert InBytes(8, x) == InBytes(7, x1) + [x % 256];
    assert InBytes(7, x1) == InBytes(6, x2) + [x1 % 256];
    assert InBytes(6, x2) == InBytes(5, x3) + [x2 % 256];
    assert InBytes(5, x3) == InBytes(4, x4) + [x3 % 256];
  }

  /** The length field of a message is right exactly when the message is shorter
      than 2^32 bytes (up to the 2^61 bytes that the standard allows). */
  lemma {:induction false} LengthFieldIff(n: nat)
    requires n < 0x2000_0000_0000_0000
    ensures LengthField(n % TWO32) == InBytes(8, 8 * n) <==> n < TWO32
  {
    hide InBytes, LengthField, BigEndian, Span;
    var s := n % TWO32;
    FieldIsBytes(s);
    Power8();
    BytesSpell(8, 8 * s);
    BytesSpell(8, 8 * n);
  }

  /** A message of exactly 2^32 bytes is hashed as if it were empty at its end. */
  lemma {:induction false} FourGigabytes()
    ensures LengthField(TWO32 % TWO32) == LengthField(0) != InBytes(8, 8 * TWO32)
  {
    hide LengthField, InBytes;
    LengthFieldIff(TWO32);
  }

  lemma {:induction false} Power8()
    ensures Span(8) == 0x1_0000_0000_0000_0000
  {
    assert Span(2) == 0x1_0000;
    assert Span(4) == 0x1_0000 * Span(2);
    assert Span(6) == 0x1_0000 * Span(4);
  }

  lemma {:induction false} FieldIsBytes(s: nat)
    requires s < TWO32
    ensures LengthField(s) == InBytes(8, 8 * s)
  {
    EightBytes(8 * s);
    assert 8 * s / TWO32 == s / 0x2000_0000;
    StoresBytes(s / 0x2000_0000);
    StoresBytes(8 * s);
    StoresLow(8 * s);
  }
}
