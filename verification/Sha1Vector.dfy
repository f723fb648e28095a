/** The digest of a known message: "abc", the first example of FIPS 180-2 (Appendix A.1).
    The numbers are the word schedule of its one block, and the value of the first of the
    five variables after each round. */
module Sha1Vector {
  import opened Bytes
  import opened Sha1
  import S = Sha1

  // ------------------------------------------------------- one round, one word

  function By1(x: bv32): bv32 { (x << 1) | (x >> 31) }
  function By5(x: bv32): bv32 { (x << 5) | (x >> 27) }
  function By30(x: bv32): bv32 { (x << 30) | (x >> 2) }

  lemma {:induction false} ByIsRotl(x: bv32)
    ensures By1(x) == Rotl(x, 1) && By5(x) == Rotl(x, 5) && By30(x) == Rotl(x, 30)
  {
  }

  /** The first variable after round t, from its values after the five rounds before */
  function Step(t: nat, v0: bv32, v1: bv32, v2: bv32, v3: bv32, v4: bv32, w: bv32): bv32 {
    Plus5((v4 << 5) | (v4 >> 27),
          F(t, v3, (v2 << 30) | (v2 >> 2), (v1 << 30) | (v1 >> 2)),
          (v0 << 30) | (v0 >> 2),
          K(t), w)
  }

  /** The five variables, from the last five values of the first */
  function At(v0: bv32, v1: bv32, v2: bv32, v3: bv32, v4: bv32): Hash {
    Hash(v4, v3, By30(v2), By30(v1), By30(v0))
  }

  lemma {:induction false} StepIs(t: nat, v0: bv32, v1: bv32, v2: bv32, v3: bv32, v4: bv32, w: bv32)
    ensures Step(t, v0, v1, v2, v3, v4, w) == Plus5(By5(v4), F(t, v3, By30(v2), By30(v1)), By30(v0), K(t), w)
  {
    hide Plus5, F, K;
  }

  lemma {:induction false} RoundIs(t: nat, v0: bv32, v1: bv32, v2: bv32, v3: bv32, v4: bv32, w: bv32)
    ensures Round(At(v0, v1, v2, v3, v4), t, w) == At(v1, v2, v3, v4, Step(t, v0, v1, v2, v3, v4, w))
  {
    hide Rotl, By5, By30, By1, Plus5, F, K, Step;
    ByIsRotl(v3);
    ByIsRotl(v4);
    StepIs(t, v0, v1, v2, v3, v4, w);
  }

  lemma {:induction false} OneRound(
    s: seq<bv32>, t: nat, v0: bv32, v1: bv32, v2: bv32, v3: bv32, v4: bv32, w: bv32, v5: bv32)
    requires |s| == t && Rounds(INITIAL, s) == At(v0, v1, v2, v3, v4) && v5 == Step(t, v0, v1, v2, v3, v4, w)
    ensures Rounds(INITIAL, s + [w]) == At(v1, v2, v3, v4, v5)
  {
    hide Step, At, Round;
    RoundIs(t, v0, v1, v2, v3, v4, w);
    assert (s + [w])[..|s|] == s;
  }

  lemma {:induction false} EightRounds(
    s: seq<bv32>, t: nat,
    v0: bv32, v1: bv32, v2: bv32, v3: bv32, v4: bv32, v5: bv32, v6: bv32, v7: bv32,
    v8: bv32, v9: bv32, v10: bv32, v11: bv32, v12: bv32,
    w0: bv32, w1: bv32, w2: bv32, w3: bv32, w4: bv32, w5: bv32, w6: bv32, w7: bv32)
    requires |s| == t && Rounds(INITIAL, s) == At(v0, v1, v2, v3, v4)
    requires v5 == Step(t, v0, v1, v2, v3, v4, w0)
    requires v6 == Step(t + 1, v1, v2, v3, v4, v5, w1)
    requires v7 == Step(t + 2, v2, v3, v4, v5, v6, w2)
    requires v8 == Step(t + 3, v3, v4, v5, v6, v7, w3)
    requires v9 == Step(t + 4, v4, v5, v6, v7, v8, w4)
    requires v10 == Step(t + 5, v5, v6, v7, v8, v9, w5)
    requires v11 == Step(t + 6, v6, v7, v8, v9, v10, w6)
    requires v12 == Step(t + 7, v7, v8, v9, v10, v11, w7)
    ensures Rounds(INITIAL, s + [w0, w1, w2, w3, w4, w5, w6, w7]) == At(v8, v9, v10, v11, v12)
  {
    hide Step, At, Rounds;
    OneRound(s, t, v0, v1, v2, v3, v4, w0, v5);
    assert s + [w0] == s + [w0];
    OneRound(s + [w0], t + 1, v1, v2, v3, v4, v5, w1, v6);
    assert s + [w0] + [w1] == s + [w0, w1];
    OneRound(s + [w0, w1], t + 2, v2, v3, v4, v5, v6, w2, v7);
    assert s + [w0, w1] + [w2] == s + [w0, w1, w2];
    OneRound(s + [w0, w1, w2], t + 3, v3, v4, v5, v6, v7, w3, v8);
    assert s + [w0, w1, w2] + [w3] == s + [w0, w1, w2, w3];
    OneRound(s + [w0, w1, w2, w3], t + 4, v4, v5, v6, v7, v8, w4, v9);
    assert s + [w0, w1, w2, w3] + [w4] == s + [w0, w1, w2, w3, w4];
    OneRound(s + [w0, w1, w2, w3, w4], t + 5, v5, v6, v7, v8, v9, w5, v10);
    assert s + [w0, w1, w2, w3, w4] + [w5] == s + [w0, w1, w2, w3, w4, w5];
    OneRound(s + [w0, w1, w2, w3, w4, w5], t + 6, v6, v7, v8, v9, v10, w6, v11);
    assert s + [w0, w1, w2, w3, w4, w5] + [w6] == s + [w0, w1, w2, w3, w4, w5, w6];
    OneRound(s + [w0, w1, w2, w3, w4, w5, w6], t + 7, v7, v8, v9, v10, v11, w7, v12);
    assert s + [w0, w1, w2, w3, w4, w5, w6] + [w7] == s + [w0, w1, w2, w3, w4, w5, w6, w7];
  }

  /** A word of the schedule, from the sixteen before it */
  function Word16(w0: bv32, w2: bv32, w8: bv32, w13: bv32): bv32 {
    By1(Xor4(w13, w8, w2, w0))
  }

  lemma {:induction false} Word16Is(w0: bv32, w2: bv32, w8: bv32, w13: bv32)
    ensures Word16(w0, w2, w8, w13) == Rotl(Xor4(w13, w8, w2, w0), 1)
  {
    hide Rotl, Xor4, By1, By5, By30;
    ByIsRotl(Xor4(w13, w8, w2, w0));
  }

  lemma {:induction false} NextWord(b: Block, n: nat)
    requires n >= 16
    ensures var s := Schedule(b, n);
            Schedule(b, n + 1) == s + [Rotl(Xor4(s[n - 3], s[n - 8], s[n - 14], s[n - 16]), 1)]
  {
    hide Rotl, Xor4;
  }

  lemma {:induction false} InFront(w0: bv32, w1: bv32, w2: bv32, w3: bv32, w4: bv32, w5: bv32, w6: bv32, w7: bv32,
    w8: bv32, w9: bv32, w10: bv32, w11: bv32, w12: bv32, w13: bv32, w14: bv32, w15: bv32)
    ensures [w0] + [w1, w2, w3, w4, w5, w6, w7, w8, w9, w10, w11, w12, w13, w14, w15]
            == [w0, w1, w2, w3, w4, w5, w6, w7, w8, w9, w10, w11, w12, w13, w14, w15]
  {
    assert [w0] + [w1] == [w0, w1];
    assert [w0] + [w1, w2] == [w0, w1, w2];
    assert [w0] + [w1, w2, w3] == [w0, w1, w2, w3];
    assert [w0] + [w1, w2, w3, w4] == [w0, w1, w2, w3, w4];
    assert [w0] + [w1, w2, w3, w4, w5] == [w0, w1, w2, w3, w4, w5];
    assert [w0] + [w1, w2, w3, w4, w5, w6] == [w0, w1, w2, w3, w4, w5, w6];
    assert [w0] + [w1, w2, w3, w4, w5, w6, w7] == [w0, w1, w2, w3, w4, w5, w6, w7];
    assert [w0] + [w1, w2, w3, w4, w5, w6, w7, w8] == [w0, w1, w2, w3, w4, w5, w6, w7, w8];
    assert [w0] + [w1, w2, w3, w4, w5, w6, w7, w8, w9] == [w0, w1, w2, w3, w4, w5, w6, w7, w8, w9];
    assert [w0] + [w1, w2, w3, w4, w5, w6, w7, w8, w9, w10] == [w0, w1, w2, w3, w4, w5, w6, w7, w8, w9, w10];
    assert [w0] + [w1, w2, w3, w4, w5, w6, w7, w8, w9, w10, w11] == [w0, w1, w2, w3, w4, w5, w6, w7, w8, w9, w10, w11];
    assert [w0] + [w1, w2, w3, w4, w5, w6, w7, w8, w9, w10, w11, w12] == [w0, w1, w2, w3, w4, w5, w6, w7, w8, w9, w10, w11, w12];
    assert [w0] + [w1, w2, w3, w4, w5, w6, w7, w8, w9, w10, w11, w12, w13] == [w0, w1, w2, w3, w4, w5, w6, w7, w8, w9, w10, w11, w12, w13];
    assert [w0] + [w1, w2, w3, w4, w5, w6, w7, w8, w9, w10, w11, w12, w13, w14] == [w0, w1, w2, w3, w4, w5, w6, w7, w8, w9, w10, w11, w12, w13, w14];
  }

  lemma {:induction false} Window(p: seq<bv32>,
    w0: bv32, w1: bv32, w2: bv32, w3: bv32, w4: bv32, w5: bv32, w6: bv32, w7: bv32,
    w8: bv32, w9: bv32, w10: bv32, w11: bv32, w12: bv32, w13: bv32, w14: bv32, w15: bv32)
    ensures var s, n := p + [w0, w1, w2, w3, w4, w5, w6, w7, w8, w9, w10, w11, w12, w13, w14, w15], |p| + 16;
            s[n - 3] == w13 && s[n - 8] == w8 && s[n - 14] == w2 && s[n - 16] == w0
  {
    var d := [w0, w1, w2, w3, w4, w5, w6, w7, w8, w9, w10, w11, w12, w13, w14, w15];
    assert d[13] == w13 && d[8] == w8 && d[2] == w2 && d[0] == w0;
  }

  lemma {:induction false} Shifted(p: seq<bv32>,
    w0: bv32, w1: bv32, w2: bv32, w3: bv32, w4: bv32, w5: bv32, w6: bv32, w7: bv32,
    w8: bv32, w9: bv32, w10: bv32, w11: bv32, w12: bv32, w13: bv32, w14: bv32, w15: bv32, w16: bv32)
    ensures p + [w0, w1, w2, w3, w4, w5, w6, w7, w8, w9, w10, w11, w12, w13, w14, w15] + [w16]
            == p + [w0] + [w1, w2, w3, w4, w5, w6, w7, w8, w9, w10, w11, w12, w13, w14, w15, w16]
  {
    InFront(w0, w1, w2, w3, w4, w5, w6, w7, w8, w9, w10, w11, w12, w13, w14, w15);
    assert [w1, w2, w3, w4, w5, w6, w7, w8, w9, w10, w11, w12, w13, w14, w15] + [w16]
           == [w1, w2, w3, w4, w5, w6, w7, w8, w9, w10, w11, w12, w13, w14, w15, w16];
    Regroup(p, [w0], [w1, w2, w3, w4, w5, w6, w7, w8, w9, w10, w11, w12, w13, w14, w15], [w16]);
  }

  lemma {:induction false} Regroup(p: seq<bv32>, a: seq<bv32>, t: seq<bv32>, z: seq<bv32>)
    ensures p + (a + t) + z == p + a + (t + z)
  {
  }

  lemma {:induction false} OneWord(b: Block, p: seq<bv32>,
    w0: bv32, w1: bv32, w2: bv32, w3: bv32, w4: bv32, w5: bv32, w6: bv32, w7: bv32,
    w8: bv32, w9: bv32, w10: bv32, w11: bv32, w12: bv32, w13: bv32, w14: bv32, w15: bv32, w16: bv32)
    requires Schedule(b, |p| + 16) == p + [w0, w1, w2, w3, w4, w5, w6, w7, w8, w9, w10, w11, w12, w13, w14, w15] && w16 == Word16(w0, w2, w8, w13)
    ensures Schedule(b, |p| + 17) == p + [w0] + [w1, w2, w3, w4, w5, w6, w7, w8, w9, w10, w11, w12, w13, w14, w15, w16]
  {
    hide Word16, Rotl, Xor4, Schedule;
    NextWord(b, |p| + 16);
    Word16Is(w0, w2, w8, w13);
    Window(p, w0, w1, w2, w3, w4, w5, w6, w7, w8, w9, w10, w11, w12, w13, w14, w15);
    Shifted(p, w0, w1, w2, w3, w4, w5, w6, w7, w8, w9, w10, w11, w12, w13, w14, w15, w16);
  }

  lemma {:induction false} EightMore(b: Block, p: seq<bv32>,
    w0: bv32, w1: bv32, w2: bv32, w3: bv32, w4: bv32, w5: bv32, w6: bv32, w7: bv32,
    w8: bv32, w9: bv32, w10: bv32, w11: bv32, w12: bv32, w13: bv32, w14: bv32, w15: bv32,
    w16: bv32, w17: bv32, w18: bv32, w19: bv32, w20: bv32, w21: bv32, w22: bv32, w23: bv32)
    requires Schedule(b, |p| + 16) == p + [w0, w1, w2, w3, w4, w5, w6, w7, w8, w9, w10, w11, w12, w13, w14, w15]
    requires w16 == Word16(w0, w2, w8, w13) && w17 == Word16(w1, w3, w9, w14)
    requires w18 == Word16(w2, w4, w10, w15) && w19 == Word16(w3, w5, w11, w16)
    requires w20 == Word16(w4, w6, w12, w17) && w21 == Word16(w5, w7, w13, w18)
    requires w22 == Word16(w6, w8, w14, w19) && w23 == Word16(w7, w9, w15, w20)
    ensures Schedule(b, |p| + 24) == p + [w0, w1, w2, w3, w4, w5, w6, w7]
                                     + [w8, w9, w10, w11, w12, w13, w14, w15, w16, w17, w18, w19, w20, w21, w22, w23]
  {
    hide Word16, Schedule;
    OneWord(b, p,
            w0, w1, w2, w3, w4, w5, w6, w7, w8, w9, w10, w11, w12, w13, w14, w15, w16);
    assert p + [w0] == p + [w0];
    OneWord(b, p + [w0],
            w1, w2, w3, w4, w5, w6, w7, w8, w9, w10, w11, w12, w13, w14, w15, w16, w17);
    assert p + [w0] + [w1] == p + [w0, w1];
    OneWord(b, p + [w0, w1],
            w2, w3, w4, w5, w6, w7, w8, w9, w10, w11, w12, w13, w14, w15, w16, w17, w18);
    assert p + [w0, w1] + [w2] == p + [w0, w1, w2];
    OneWord(b, p + [w0, w1, w2],
            w3, w4, w5, w6, w7, w8, w9, w10, w11, w12, w13, w14, w15, w16, w17, w18, w19);
    assert p + [w0, w1, w2] + [w3] == p + [w0, w1, w2, w3];
    OneWord(b, p + [w0, w1, w2, w3],
            w4, w5, w6, w7, w8, w9, w10, w11, w12, w13, w14, w15, w16, w17, w18, w19, w20);
    assert p + [w0, w1, w2, w3] + [w4] == p + [w0, w1, w2, w3, w4];
    OneWord(b, p + [w0, w1, w2, w3, w4],
            w5, w6, w7, w8, w9, w10, w11, w12, w13, w14, w15, w16, w17, w18, w19, w20, w21);
    assert p + [w0, w1, w2, w3, w4] + [w5] == p + [w0, w1, w2, w3, w4, w5];
    OneWord(b, p + [w0, w1, w2, w3, w4, w5],
            w6, w7, w8, w9, w10, w11, w12, w13, w14, w15, w16, w17, w18, w19, w20, w21, w22);
    assert p + [w0, w1, w2, w3, w4, w5] + [w6] == p + [w0, w1, w2, w3, w4, w5, w6];
    OneWord(b, p + [w0, w1, w2, w3, w4, w5, w6],
            w7, w8, w9, w10, w11, w12, w13, w14, w15, w16, w17, w18, w19, w20, w21, w22, w23);
    assert p + [w0, w1, w2, w3, w4, w5, w6] + [w7] == p + [w0, w1, w2, w3, w4, w5, w6, w7];
  }

  lemma {:induction false} Rows(p: seq<bv32>,
    w0: bv32, w1: bv32, w2: bv32, w3: bv32, w4: bv32, w5: bv32, w6: bv32, w7: bv32,
    w8: bv32, w9: bv32, w10: bv32, w11: bv32, w12: bv32, w13: bv32, w14: bv32, w15: bv32)
    ensures p + [w0, w1, w2, w3, w4, w5, w6, w7] + [w8, w9, w10, w11, w12, w13, w14, w15]
            == p + [w0, w1, w2, w3, w4, w5, w6, w7, w8, w9, w10, w11, w12, w13, w14, w15]
  {
  }

  /** Eight more words behind two rows of eight */
  lemma {:induction false} EightWords(b: Block, p: seq<bv32>,
    w0: bv32, w1: bv32, w2: bv32, w3: bv32, w4: bv32, w5: bv32, w6: bv32, w7: bv32,
    w8: bv32, w9: bv32, w10: bv32, w11: bv32, w12: bv32, w13: bv32, w14: bv32, w15: bv32,
    w16: bv32, w17: bv32, w18: bv32, w19: bv32, w20: bv32, w21: bv32, w22: bv32, w23: bv32)
    requires Schedule(b, |p| + 16) == p + [w0, w1, w2, w3, w4, w5, w6, w7] + [w8, w9, w10, w11, w12, w13, w14, w15]
    requires w16 == Word16(w0, w2, w8, w13) && w17 == Word16(w1, w3, w9, w14)
    requires w18 == Word16(w2, w4, w10, w15) && w19 == Word16(w3, w5, w11, w16)
    requires w20 == Word16(w4, w6, w12, w17) && w21 == Word16(w5, w7, w13, w18)
    requires w22 == Word16(w6, w8, w14, w19) && w23 == Word16(w7, w9, w15, w20)
    ensures Schedule(b, |p| + 24) == p + [w0, w1, w2, w3, w4, w5, w6, w7] + [w8, w9, w10, w11, w12, w13, w14, w15]
                                     + [w16, w17, w18, w19, w20, w21, w22, w23]
  {
    hide Word16, Schedule;
    Rows(p, w0, w1, w2, w3, w4, w5, w6, w7, w8, w9, w10, w11, w12, w13, w14, w15);
    EightMore(b, p, w0, w1, w2, w3, w4, w5, w6, w7, w8, w9, w10, w11,
              w12, w13, w14, w15, w16, w17, w18, w19, w20, w21, w22, w23);
    Rows(p + [w0, w1, w2, w3, w4, w5, w6, w7], w8, w9, w10, w11, w12, w13, w14, w15, w16, w17, w18, w19, w20, w21, w22, w23);
  }

  // --------------------------------------------------------------- the example

  const ABC: seq<Byte> := ['a' as int, 'b' as int, 'c' as int]

  const W0: seq<bv32> := [
    0x61626380, 0x00000000, 0x00000000, 0x00000000, 0x00000000, 0x00000000, 0x00000000, 0x00000000]
  const W1: seq<bv32> := [
    0x00000000, 0x00000000, 0x00000000, 0x00000000, 0x00000000, 0x00000000, 0x00000000, 0x00000018]
  const W2: seq<bv32> := [
    0xc2c4c700, 0x00000000, 0x00000030, 0x85898e01, 0x00000000, 0x00000060, 0x0b131c03, 0x00000030]
  const W3: seq<bv32> := [
    0x85898ec1, 0x16263806, 0x00000000, 0x00000180, 0x2c4c700c, 0x000000f0, 0x93afb507, 0x5898e048]
  const W4: seq<bv32> := [
    0x8e9a9202, 0x00000600, 0xb131c0f0, 0x16263bc6, 0x4ebed41e, 0x626380a1, 0x16263806, 0x000018c0]
  const W5: seq<bv32> := [
    0xd2e138c4, 0x00000f00, 0x3afb5079, 0x898e04e5, 0xe2ba3c2b, 0x000060c0, 0x053a37cd, 0x74458547]
  const W6: seq<bv32> := [
    0xda9415ed, 0x26380a16, 0x626383a1, 0x4ebf54de, 0x3835b44b, 0x0000f600, 0x1e84c7a3, 0x98e04d98]
  const W7: seq<bv32> := [
    0x651d16a0, 0x62658ca1, 0x458544d6, 0x44584cb7, 0x7ba06619, 0x6380aea2, 0x0ae55269, 0x627b49a1]
  const W8: seq<bv32> := [
    0x7cd45c9d, 0x000f0000, 0xfb50753a, 0xec6765e8, 0xba3c2be2, 0x0060c000, 0x3a37cd05, 0x458546f4]
  const W9: seq<bv32> := [
    0xb8599dd6, 0x380a1a26, 0x01e02203, 0xe7cc3456, 0xe6e60b69, 0x00f60a00, 0x5795ef4f, 0x822e0879]

  /** The padded message is one block. */
  lemma {:induction false} Padded()
    ensures var p := S.Pad(ABC);
            && |p| == 64 && p[0] == 97 && p[1] == 98 && p[2] == 99 && p[3] == 0x80 && p[63] == 24
            && forall i :: 4 <= i < 63 ==> p[i] == 0
  {
    hide InBytes;
    EightBytes(24);
    StoresBytes(0);
    StoresBytes(24);
    assert S.Pad(ABC) == ABC + [0x80] + Zeros(52) + [0, 0, 0, 0, 0, 0, 0, 24];
  }

  lemma {:induction false} FirstWords(b: Block, n: nat)
    requires n <= 16
    ensures forall t :: 0 <= t < n ==> Schedule(b, n)[t] == BlockWord(b, t)
  {
    hide BlockWord;
    if n > 0 {
      FirstWords(b, n - 1);
    }
  }

  lemma {:induction false} BlockBytes(b: Block, t: nat)
    requires b == S.Pad(ABC) && t < 16
    ensures BigEndian(b[4 * t..4 * t + 4]) == if t == 0 then 0x61626380 else if t == 15 then 0x18 else 0
  {
    hide S.Pad, BigEndian;
    Padded();
    var w := b[4 * t..4 * t + 4];
    WordInRange(w);
    assert w[0] == b[4 * t] && w[1] == b[4 * t + 1] && w[2] == b[4 * t + 2] && w[3] == b[4 * t + 3];
  }

  lemma {:induction false} BlockWordIs(b: Block, t: nat, v: bv32)
    requires t < 16 && BigEndian(b[4 * t..4 * t + 4]) == v as int
    ensures BlockWord(b, t) == v
  {
    hide BigEndian;
  }

  lemma {:induction false} BlockWords()
    ensures |S.Pad(ABC)| == 64 && Schedule(S.Pad(ABC), 16) == W0 + W1
  {
    hide Schedule, S.Pad, BlockWord;
    Padded();
    var b: Block := S.Pad(ABC);
    FirstWords(b, 16);
    forall t | 0 <= t < 16
      ensures Schedule(b, 16)[t] == (W0 + W1)[t]
    {
      BlockBytes(b, t);
      BlockWordIs(b, t, (W0 + W1)[t]);
    }
  }

  const WORDS: seq<bv32> := W0 + W1 + W2 + W3 + W4 + W5 + W6 + W7 + W8 + W9

  /** The schedule of the block */
  lemma {:induction false} ExampleWords()
    ensures |S.Pad(ABC)| == 64 && Schedule(S.Pad(ABC), 80) == WORDS
  {
    hide Schedule, S.Pad;
    BlockWords();
    assert [] + W0 + W1 == W0 + W1;
    var p: seq<bv32> := [];
    EightWords(S.Pad(ABC), p,
      0x61626380, 0x00000000, 0x00000000, 0x00000000, 0x00000000, 0x00000000, 0x00000000, 0x00000000,
      0x00000000, 0x00000000, 0x00000000, 0x00000000, 0x00000000, 0x00000000, 0x00000000, 0x00000018,
      0xc2c4c700, 0x00000000, 0x00000030, 0x85898e01, 0x00000000, 0x00000060, 0x0b131c03, 0x00000030);
    p := p + W0;
    EightWords(S.Pad(ABC), p,
      0x00000000, 0x00000000, 0x00000000, 0x00000000, 0x00000000, 0x00000000, 0x00000000, 0x00000018,
      0xc2c4c700, 0x00000000, 0x00000030, 0x85898e01, 0x00000000, 0x00000060, 0x0b131c03, 0x00000030,
      0x85898ec1, 0x16263806, 0x00000000, 0x00000180, 0x2c4c700c, 0x000000f0, 0x93afb507, 0x5898e048);
    p := p + W1;
    EightWords(S.Pad(ABC), p,
      0xc2c4c700, 0x00000000, 0x00000030, 0x85898e01, 0x00000000, 0x00000060, 0x0b131c03, 0x00000030,
      0x85898ec1, 0x16263806, 0x00000000, 0x00000180, 0x2c4c700c, 0x000000f0, 0x93afb507, 0x5898e048,
      0x8e9a9202, 0x00000600, 0xb131c0f0, 0x16263bc6, 0x4ebed41e, 0x626380a1, 0x16263806, 0x000018c0);
    p := p + W2;
    EightWords(S.Pad(ABC), p,
      0x85898ec1, 0x16263806, 0x00000000, 0x00000180, 0x2c4c700c, 0x000000f0, 0x93afb507, 0x5898e048,
      0x8e9a9202, 0x00000600, 0xb131c0f0, 0x16263bc6, 0x4ebed41e, 0x626380a1, 0x16263806, 0x000018c0,
      0xd2e138c4, 0x00000f00, 0x3afb5079, 0x898e04e5, 0xe2ba3c2b, 0x000060c0, 0x053a37cd, 0x74458547);
    p := p + W3;
    EightWords(S.Pad(ABC), p,
      0x8e9a9202, 0x00000600, 0xb131c0f0, 0x16263bc6, 0x4ebed41e, 0x626380a1, 0x16263806, 0x000018c0,
      0xd2e138c4, 0x00000f00, 0x3afb5079, 0x898e04e5, 0xe2ba3c2b, 0x000060c0, 0x053a37cd, 0x74458547,
      0xda9415ed, 0x26380a16, 0x626383a1, 0x4ebf54de, 0x3835b44b, 0x0000f600, 0x1e84c7a3, 0x98e04d98);
    p := p + W4;
    EightWords(S.Pad(ABC), p,
      0xd2e138c4, 0x00000f00, 0x3afb5079, 0x898e04e5, 0xe2ba3c2b, 0x000060c0, 0x053a37cd, 0x74458547,
      0xda9415ed, 0x26380a16, 0x626383a1, 0x4ebf54de, 0x3835b44b, 0x0000f600, 0x1e84c7a3, 0x98e04d98,
      0x651d16a0, 0x62658ca1, 0x458544d6, 0x44584cb7, 0x7ba06619, 0x6380aea2, 0x0ae55269, 0x627b49a1);
    p := p + W5;
    EightWords(S.Pad(ABC), p,
      0xda9415ed, 0x26380a16, 0x626383a1, 0x4ebf54de, 0x3835b44b, 0x0000f600, 0x1e84c7a3, 0x98e04d98,
      0x651d16a0, 0x62658ca1, 0x458544d6, 0x44584cb7, 0x7ba06619, 0x6380aea2, 0x0ae55269, 0x627b49a1,
      0x7cd45c9d, 0x000f0000, 0xfb50753a, 0xec6765e8, 0xba3c2be2, 0x0060c000, 0x3a37cd05, 0x458546f4);
    p := p + W6;
    EightWords(S.Pad(ABC), p,
      0x651d16a0, 0x62658ca1, 0x458544d6, 0x44584cb7, 0x7ba06619, 0x6380aea2, 0x0ae55269, 0x627b49a1,
      0x7cd45c9d, 0x000f0000, 0xfb50753a, 0xec6765e8, 0xba3c2be2, 0x0060c000, 0x3a37cd05, 0x458546f4,
      0xb8599dd6, 0x380a1a26, 0x01e02203, 0xe7cc3456, 0xe6e60b69, 0x00f60a00, 0x5795ef4f, 0x822e0879);
    assert [] + W0 == W0;
  }

  /** The first forty rounds on that schedule */
  lemma {:induction false} FirstHalf()
    ensures Rounds(INITIAL, W0 + W1 + W2 + W3 + W4) == At(0xdcbbb0cb, 0x0f511fd8, 0xdc63973f, 0x4c986405, 0x32de1cba)
  {
    hide Rounds, At;
    StartAt();
    var s: seq<bv32> := [];
    EightRounds(s, 0,
      0x0f4b87c3, 0x40c951d8, 0x62eb73fa, 0xefcdab89, 0x67452301, 0x0116fc33, 0x8990536d, 0xa1390f08,
      0xcdd8e11b, 0xcfd499de, 0x3fc7ca40, 0x993e30c1, 0x9e8c07d4,
      0x61626380, 0x00000000, 0x00000000, 0x00000000, 0x00000000, 0x00000000, 0x00000000, 0x00000000);
    s := s + W0;
    EightRounds(s, 8,
      0xcdd8e11b, 0xcfd499de, 0x3fc7ca40, 0x993e30c1, 0x9e8c07d4, 0x4b6ae328, 0x8351f929, 0xfbda9e89,
      0x63188fe4, 0x4607b664, 0x9128f695, 0x196bee77, 0x20bdd62f,
      0x00000000, 0x00000000, 0x00000000, 0x00000000, 0x00000000, 0x00000000, 0x00000000, 0x00000018);
    s := s + W1;
    EightRounds(s, 16,
      0x63188fe4, 0x4607b664, 0x9128f695, 0x196bee77, 0x20bdd62f, 0x4e925823, 0x82aa6728, 0xdc64901d,
      0xfd9e1d7d, 0x1a37b0ca, 0x33a23bfc, 0x21283486, 0xd541f12d,
      0xc2c4c700, 0x00000000, 0x00000030, 0x85898e01, 0x00000000, 0x00000060, 0x0b131c03, 0x00000030);
    s := s + W2;
    EightRounds(s, 24,
      0xfd9e1d7d, 0x1a37b0ca, 0x33a23bfc, 0x21283486, 0xd541f12d, 0xc7567dc6, 0x48413ba4, 0xbe35fbd5,
      0x4aa84d97, 0x8370b52e, 0xc5fbaf5d, 0x1267b407, 0x3b845d33,
      0x85898ec1, 0x16263806, 0x00000000, 0x00000180, 0x2c4c700c, 0x000000f0, 0x93afb507, 0x5898e048);
    s := s + W3;
    EightRounds(s, 32,
      0x4aa84d97, 0x8370b52e, 0xc5fbaf5d, 0x1267b407, 0x3b845d33, 0x046faa0a, 0x2c0ebc11, 0x21796ad4,
      0xdcbbb0cb, 0x0f511fd8, 0xdc63973f, 0x4c986405, 0x32de1cba,
      0x8e9a9202, 0x00000600, 0xb131c0f0, 0x16263bc6, 0x4ebed41e, 0x626380a1, 0x16263806, 0x000018c0);
    assert [] + W0 == W0;
  }

  /** All rounds */
  lemma {:induction false} ExampleRounds()
    ensures Rounds(INITIAL, WORDS) == At(0x63f7dab7, 0xa079b7d9, 0x860d21cc, 0x5738d5e1, 0x42541b35)
  {
    hide Rounds, At;
    FirstHalf();
    var s: seq<bv32> := W0 + W1 + W2 + W3 + W4;
    EightRounds(s, 40,
      0xdcbbb0cb, 0x0f511fd8, 0xdc63973f, 0x4c986405, 0x32de1cba, 0xfc87dedf, 0x970a0d5c, 0x7f193dc5,
      0xee1b1aaf, 0x40f28e09, 0x1c51e1f2, 0xa01b846c, 0xbead02ca,
      0xd2e138c4, 0x00000f00, 0x3afb5079, 0x898e04e5, 0xe2ba3c2b, 0x000060c0, 0x053a37cd, 0x74458547);
    s := s + W5;
    EightRounds(s, 48,
      0xee1b1aaf, 0x40f28e09, 0x1c51e1f2, 0xa01b846c, 0xbead02ca, 0xbaf39337, 0x120731c5, 0x641db2ce,
      0x3847ad66, 0xe490436d, 0x27e9f1d8, 0x7b71f76d, 0x5e6456af,
      0xda9415ed, 0x26380a16, 0x626383a1, 0x4ebf54de, 0x3835b44b, 0x0000f600, 0x1e84c7a3, 0x98e04d98);
    s := s + W6;
    EightRounds(s, 56,
      0x3847ad66, 0xe490436d, 0x27e9f1d8, 0x7b71f76d, 0x5e6456af, 0xc846093f, 0xd262ff50, 0x09d785fd,
      0x3f52de5a, 0xd756c147, 0x548c9cb2, 0xb66c020b, 0x6b61c9e1,
      0x651d16a0, 0x62658ca1, 0x458544d6, 0x44584cb7, 0x7ba06619, 0x6380aea2, 0x0ae55269, 0x627b49a1);
    s := s + W7;
    EightRounds(s, 64,
      0x3f52de5a, 0xd756c147, 0x548c9cb2, 0xb66c020b, 0x6b61c9e1, 0x19dfa7ac, 0x101655f9, 0x0c3df2b4,
      0x78dd4d2b, 0x497093c0, 0x3f2588c2, 0xc199f8c7, 0x39859de7,
      0x7cd45c9d, 0x000f0000, 0xfb50753a, 0xec6765e8, 0xba3c2be2, 0x0060c000, 0x3a37cd05, 0x458546f4);
    s := s + W8;
    EightRounds(s, 72,
      0x78dd4d2b, 0x497093c0, 0x3f2588c2, 0xc199f8c7, 0x39859de7, 0xedb42de4, 0x11793f6f, 0x5ee76897,
      0x63f7dab7, 0xa079b7d9, 0x860d21cc, 0x5738d5e1, 0x42541b35,
      0xb8599dd6, 0x380a1a26, 0x01e02203, 0xe7cc3456, 0xe6e60b69, 0x00f60a00, 0x5795ef4f, 0x822e0879);
  }

  lemma {:induction false} StartAt()
    ensures Rounds(INITIAL, []) == At(0x0f4b87c3, 0x40c951d8, 0x62eb73fa, 0xefcdab89, 0x67452301)
  {
  }

  /** The digest of the example */
  lemma {:induction false} KnownDigest()
    ensures SHA1(ABC) == [0xa9, 0x99, 0x3e, 0x36, 0x47, 0x06, 0x81, 0x6a, 0xba, 0x3e,
                          0x25, 0x71, 0x78, 0x50, 0xc2, 0x6c, 0x9c, 0xd0, 0xd8, 0x9d]
  {
    hide S.Pad, Rounds, Schedule, At, Digest, HashBlocks, InBytes;
    Padded();
    ExampleWords();
    ExampleRounds();
    var b: Block := S.Pad(ABC);
    LastState();
    HashOneBlock(INITIAL, [], b);
    assert [] + b == b;
    NoBlocks();
    DigestIs();
  }

  lemma {:induction false} NoBlocks()
    ensures HashBlocks(INITIAL, []) == INITIAL
  {
  }

  /** The five variables at the end, added to those at the start */
  lemma {:induction false} LastState()
    ensures AddHash(At(0x63f7dab7, 0xa079b7d9, 0x860d21cc, 0x5738d5e1, 0x42541b35), INITIAL)
            == Hash(0xa9993e36, 0x4706816a, 0xba3e2571, 0x7850c26c, 0x9cd0d89d)
  {
  }

  lemma {:induction false} DigestIs()
    ensures Digest(Hash(0xa9993e36, 0x4706816a, 0xba3e2571, 0x7850c26c, 0x9cd0d89d))
            == [0xa9, 0x99, 0x3e, 0x36, 0x47, 0x06, 0x81, 0x6a, 0xba, 0x3e,
                0x25, 0x71, 0x78, 0x50, 0xc2, 0x6c, 0x9c, 0xd0, 0xd8, 0x9d]
  {
    hide InBytes;
    assert InBytes(4, 0xa9993e36) == [0xa9, 0x99, 0x3e, 0x36] by { StoresBytes(0xa9993e36); }
    assert InBytes(4, 0x4706816a) == [0x47, 0x06, 0x81, 0x6a] by { StoresBytes(0x4706816a); }
    assert InBytes(4, 0xba3e2571) == [0xba, 0x3e, 0x25, 0x71] by { StoresBytes(0xba3e2571); }
    assert InBytes(4, 0x7850c26c) == [0x78, 0x50, 0xc2, 0x6c] by { StoresBytes(0x7850c26c); }
    assert InBytes(4, 0x9cd0d89d) == [0x9c, 0xd0, 0xd8, 0x9d] by { StoresBytes(0x9cd0d89d); }
  }
}
