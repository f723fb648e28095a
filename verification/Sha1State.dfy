/** The SHA1 structure: five hash words and a block buffer that fills up. */
module Sha1State {
  import opened Bytes
  import opened Sequences
  import opened Sha1

  class State {
    var h: Hash
    const bytes: array<Byte>
    var unprocessedBytes: nat
    var size: nat

    /** What has been hashed already: whole blocks */
    ghost var blocks: seq<Byte>

    ghost predicate Buffering()
      reads this, bytes
    {
      && bytes.Length == 64 && unprocessedBytes <= 64
      && |blocks| % 64 == 0 && h == HashBlocks(INITIAL, blocks)
    }

    ghost predicate Valid()
      reads this, bytes
    {
      Buffering() && unprocessedBytes < 64 && size < TWO32
    }

    /** All bytes added so far */
    ghost function Input(): seq<Byte>
      reads this, bytes
      requires Buffering()
    {
      blocks + bytes[..unprocessedBytes]
    }

    /** SHA1Init */
    constructor ()
      ensures Valid() && Input() == [] && size == 0 && fresh(bytes)
    {
      h := INITIAL;
      bytes := new Byte[64];
      unprocessedBytes, size := 0, 0;
      blocks := [];
    }

    /** process: one block in the five working variables */
    method Process()
      requires Buffering() && unprocessedBytes == 64
      modifies this`h, this`unprocessedBytes, this`blocks
      ensures Buffering() && unprocessedBytes == 0 && Input() == old(Input())
    {
      hide Compress, HashBlocks, AddHash, Rounds, Schedule;
      var w := Expand();
      ghost var block := bytes[..];
      assert block == bytes[..64];
      var x := MainLoop(h, w);
      HashOneBlock(INITIAL, blocks, block);
      SumsCommute(h, x);
      CompressIs(h, block);
      h := AddHash(h, x);
      blocks := blocks + block;
      unprocessedBytes := 0;
    }

    /** The message schedule, computed into a table of 80 words */
    method Expand() returns (w: array<bv32>)
      requires bytes.Length == 64
      ensures fresh(w) && w.Length == 80 && w[..] == Schedule(bytes[..], 80)
    {
      hide Xor4, Lrot, Rotl, BlockWord;
      w := new bv32[80];
      var t := 0;
      while t < 16
        invariant 0 <= t <= 16 && w[..t] == Schedule(bytes[..], t)
      {
        w[t] := FourBytes(t);
        assert w[..t + 1] == w[..t] + [w[t]];
        t := t + 1;
      }
      while t < 80
        invariant 16 <= t <= 80 && w[..t] == Schedule(bytes[..], t)
      {
        var x := Xor4(w[t - 3], w[t - 8], w[t - 14], w[t - 16]);
        LrotRotates(x);
        w[t] := Lrot(x, 1);
        assert w[..t + 1] == w[..t] + [w[t]];
        t := t + 1;
      }
      assert w[..80] == w[..];
    }

    method FourBytes(t: nat) returns (word: bv32)
      requires bytes.Length == 64 && t < 16
      ensures word == BlockWord(bytes[..], t)
    {
      WordInRange(bytes[..][4 * t..4 * t + 4]);
      word := (bytes[t * 4] as int * 0x100_0000 + bytes[t * 4 + 1] as int * 0x1_0000
               + bytes[t * 4 + 2] as int * 0x100 + bytes[t * 4 + 3] as int) as bv32;
    }

    /** The main loop of process */
    method MainLoop(start: Hash, w: array<bv32>) returns (r: Hash)
      requires w.Length == 80
      ensures r == Rounds(start, w[..])
    {
      hide Sum, Temp, Lrot, Rotl, F, K;
      var a, b, c, d, e := start.a, start.b, start.c, start.d, start.e;
      var t := 0;
      while t < 80
        invariant 0 <= t <= 80 && Hash(a, b, c, d, e) == Rounds(start, w[..t])
      {
        var f, k := Choose(t, b, c, d);
        var temp := Sum(a, f, e, w[t], k);
        SumIsTemp(a, f, e, w[t], k);
        LrotRotates(b);
        assert w[..t + 1][..t] == w[..t];
        e := d;
        d := c;
        c := Lrot(b, 30);
        b := a;
        a := temp;
        t := t + 1;
      }
      assert w[..80] == w[..];
      r := Hash(a, b, c, d, e);
    }

    /** The function and the constant that a round uses */
    method Choose(t: nat, b: bv32, c: bv32, d: bv32) returns (f: bv32, k: bv32)
      requires t < 80
      ensures f == F(t, b, c, d) && k == K(t)
    {
      hide OrCh, OrMaj, Ch, Maj, Parity;
      OrForms(b, c, d);
      if t < 20 {
        k := 0x5a827999;
        f := OrCh(b, c, d);
      } else if t < 40 {
        k := 0x6ed9eba1;
        f := Parity(b, c, d);
      } else if t < 60 {
        k := 0x8f1bbcdc;
        f := OrMaj(b, c, d);
      } else {
        k := 0xca62c1d6;
        f := Parity(b, c, d);
      }
    }

    /** SHA1AddBytes: the bytes are appended to what has been hashed. */
    method AddBytes(data: seq<Byte>)
      requires Valid() && 0 < |data| <= INT_MAX
      modifies this, bytes
      ensures Valid() && Input() == old(Input()) + data
      ensures size == (old(size) + |data|) % TWO32
    {
      hide HashBlocks;
      size := (size + |data|) % TWO32;
      var pos, num := 0, |data|;
      assert data[..0] == [];
      while num > 0
        invariant Valid() && 0 <= num && 0 <= pos && pos + num == |data|
        invariant size == (old(size) + |data|) % TWO32
        invariant Input() == old(Input()) + data[..pos]
      {
        var needed := 64 - unprocessedBytes;
        var toCopy := if num < needed then num else needed;
        Copy(data[pos..pos + toCopy]);
        assert data[..pos] + data[pos..pos + toCopy] == data[..pos + toCopy];
        num := num - toCopy;
        pos := pos + toCopy;
        if unprocessedBytes == 64 {
          Process();
        }
      }
      assert data[..pos] == data;
    }

    /** The memcpy into the block buffer */
    method Copy(data: seq<Byte>)
      requires Valid() && |data| <= 64 - unprocessedBytes
      modifies this`unprocessedBytes, bytes
      ensures Buffering() && Input() == old(Input()) + data
      ensures unprocessedBytes == old(unprocessedBytes) + |data|
    {
      var u := unprocessedBytes;
      forall i | 0 <= i < |data| {
        bytes[u + i] := data[i];
      }
      assert bytes[..u + |data|] == old(bytes[..u]) + data;
      unprocessedBytes := u + |data|;
    }

    /** SHA1GetDigest: the digest of all bytes added, padded with the length
        field that the 32-bit byte count gives. */
    method GetDigest() returns (digest: seq<Byte>)
      requires Valid() && size == |Input()| % TWO32
      modifies this, bytes
      ensures digest == CodedDigest(old(Input()))
      ensures |old(Input())| < TWO32 ==> digest == SHA1(old(Input()))
    {
      hide HashBlocks, PadWith, Sha1.Digest, SHA1, LengthField, CodedDigest, StoreBigEndian;
      ghost var m := Input();
      var totalBitsL := size * 8 % TWO32;
      var totalBitsH := size / 0x2000_0000;
      LengthFieldIs(size);
      Finish(StoreBigEndian(totalBitsH) + StoreBigEndian(totalBitsL));
      CodedDigestIs(m, h);
      DigestStores(h);
      digest := StoreBigEndian(h.a as int) + StoreBigEndian(h.b as int) + StoreBigEndian(h.c as int)
                + StoreBigEndian(h.d as int) + StoreBigEndian(h.e as int);
      if |m| < TWO32 {
        CodedIsStandard(m);
      }
    }

    /** The padding: a one bit, zeros as far as the last eight bytes of a block, in
        two portions when the block has no room, and the length */
    method Finish(length: seq<Byte>)
      requires Valid() && |length| == 8
      modifies this, bytes
      ensures h == HashBlocks(INITIAL, PadWith(old(Input()), length))
    {
      hide HashBlocks, PadWith;
      ghost var m := Input();
      AddBytes([0x80]);
      UnprocessedIs();
      ghost var early := 0;
      if unprocessedBytes > 56 {
        early := 64 - unprocessedBytes;
        AddBytes(Zeros(64 - unprocessedBytes));
        UnprocessedIs();
      }
      var neededZeros := 56 - unprocessedBytes;
      PadCount(m, early, neededZeros, length);
      AddBytes(Zeros(neededZeros) + length);
      UnprocessedIs();
    }

    lemma {:induction false} UnprocessedIs()
      requires Valid()
      ensures unprocessedBytes == |Input()| % 64
      ensures |Input()| % 64 == 0 ==> h == HashBlocks(INITIAL, Input())
    {
      hide HashBlocks;
      assert unprocessedBytes == 0 ==> Input() == blocks;
    }
  }

  lemma {:induction false} SumsCommute(x: Hash, y: Hash)
    ensures AddHash(x, y) == AddHash(y, x)
  {
  }

  lemma {:induction false} CompressIs(h: Hash, b: Block)
    ensures Compress(h, b) == AddHash(Rounds(h, Schedule(b, 80)), h)
  {
  }

  /** The digest that the code computes: the byte count is kept in 32 bits. */
  function CodedDigest(m: seq<Byte>): seq<Byte> {
    Sha1.Digest(HashBlocks(INITIAL, PadWith(m, LengthField(|m| % TWO32))))
  }

  lemma {:induction false} CodedDigestIs(m: seq<Byte>, h: Hash)
    requires h == HashBlocks(INITIAL, PadWith(m, LengthField(|m| % TWO32)))
    ensures CodedDigest(m) == Sha1.Digest(h)
  {
  }

  lemma {:induction false} CodedIsStandard(m: seq<Byte>)
    requires |m| < TWO32
    ensures CodedDigest(m) == SHA1(m)
  {
    hide HashBlocks, PadWith, Sha1.Digest, LengthField, InBytes;
    LengthFieldIff(|m|);
  }

  lemma {:induction false} LengthFieldIs(size: nat)
    requires size < TWO32
    ensures LengthField(size) == StoreBigEndian(size / 0x2000_0000) + StoreBigEndian(size * 8 % TWO32)
  {
  }

  lemma {:induction false} DigestStores(h: Hash)
    ensures Sha1.Digest(h) == StoreBigEndian(h.a as int) + StoreBigEndian(h.b as int) + StoreBigEndian(h.c as int)
                              + StoreBigEndian(h.d as int) + StoreBigEndian(h.e as int)
  {
    hide InBytes, StoreBigEndian;
    StoresBytes(h.a as int);
    StoresBytes(h.b as int);
    StoresBytes(h.c as int);
    StoresBytes(h.d as int);
    StoresBytes(h.e as int);
  }

  /** The zeros before the length field, in one or two portions, fill the padding
      to the standard's count. */
  lemma {:induction false} PadCount(m: seq<Byte>, early: nat, zeros: nat, field: seq<Byte>)
    requires |field| == 8
    requires var u := (|m| + 1) % 64;
             if u > 56 then early == 64 - u && zeros == 56 else early == 0 && zeros == 56 - u
    ensures m + [0x80] + Zeros(early) + (Zeros(zeros) + field) == PadWith(m, field)
    ensures early == 0 ==> m + [0x80] + (Zeros(zeros) + field) == PadWith(m, field)
  {
    assert early + zeros == (55 - |m|) % 64;
    assert Zeros(early) + Zeros(zeros) == Zeros(early + zeros);
    assert m + [0x80] + Zeros(early) + (Zeros(zeros) + field) == m + [0x80] + (Zeros(early) + Zeros(zeros)) + field;
    if early == 0 {
      assert m + [0x80] + Zeros(early) == m + [0x80];
    }
  }

  /** However a message below 2^32 bytes is cut into chunks, the incremental hash
      is that of the standard; beyond, only the length field differs. */
  method HashChunks(chunks: seq<seq<Byte>>) returns (digest: seq<Byte>)
    requires forall i :: 0 <= i < |chunks| ==> 0 < |chunks[i]| <= INT_MAX
    ensures |Concat(chunks)| < TWO32 ==> digest == SHA1(Concat(chunks))
    ensures digest == CodedDigest(Concat(chunks))
  {
    hide SHA1, CodedDigest, HashBlocks, PadWith, LengthField;
    var s := new State();
    for i := 0 to |chunks|
      invariant s.Valid() && fresh(s) && fresh(s.bytes)
      invariant s.Input() == Concat(chunks[..i]) && s.size == |s.Input()| % TWO32
    {
      assert chunks[..i + 1] == chunks[..i] + [chunks[i]];
      ConcatSnoc(chunks[..i], chunks[i]);
      s.AddBytes(chunks[i]);
    }
    assert chunks[..|chunks|] == chunks;
    digest := s.GetDigest();
  }
}
