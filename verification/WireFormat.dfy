/** The wire format in numbers, letter by letter, as the D-Bus Specification tables it
    ("Marshaling (Wire Format)"). */
module WireFormat {
  import opened Bytes
  import opened Signature
  import opened Codec

  /** Values that start with this letter are aligned to this boundary. */
  predicate StartsAt(letter: char, boundary: nat) {
    || (letter in {'y', 'g', 'v'} && boundary == 1)
    || (letter in {'n', 'q'} && boundary == 2)
    || (letter in {'b', 'i', 'u', 's', 'o', 'a'} && boundary == 4)
    || (letter in {'x', 't', 'd', '(', '{'} && boundary == 8)
  }

  /** The padding up to a boundary */
  function Gap(off: nat, boundary: nat): (n: nat)
    requires boundary > 0
  {
    (boundary - off % boundary) % boundary
  }

  function Two(n: nat): seq<Byte> {
    [n % 0x100, n / 0x100 % 0x100]
  }

  function Four(n: nat): seq<Byte> {
    [n % 0x100, n / 0x100 % 0x100, n / 0x1_0000 % 0x100, n / 0x100_0000 % 0x100]
  }

  function Eight(n: nat): seq<Byte> {
    Four(n) + [n / 0x1_0000_0000 % 0x100, n / 0x100_0000_0000 % 0x100,
               n / 0x1_0000_0000_0000 % 0x100, n / 0x100_0000_0000_0000 % 0x100]
  }

  lemma {:induction false} GapIsPad(off: nat, b: nat)
    requires IsBoundary(b)
    ensures Gap(off, b) == PadLen(off, b)
  {
    var q := off / 8;
    assert off == 8 * q + off % 8;
    if b == 2 { Residue(off, 2, 4 * q, off % 8); } else if b == 4 { Residue(off, 4, 2 * q, off % 8); }
  }

  lemma {:induction false} Residue(off: nat, b: nat, k: nat, r: nat)
    requires b in {2, 4} && off == b * k + r && r < 8
    ensures off % b == r % b
  {
  }

  lemma {:induction false} WordIs(n: nat)
    ensures Word(1, n) == [n % 0x100] && Word(2, n) == Two(n) && Word(4, n) == Four(n) && Word(8, n) == Eight(n)
  {
    FourBytes(n);
    FourBytes(n / 0x1_0000_0000);
    EightBytes(n);
  }

  lemma {:induction false} FourBytes(n: nat)
    ensures Word(1, n) == [n % 0x100] && Word(2, n) == Two(n) && Word(4, n) == Four(n)
  {
    var a, b, c := n / 0x100, n / 0x1_0000, n / 0x100_0000;
    assert a / 256 == b && b / 256 == c;
    assert Word(1, c) == [c % 256] + Word(0, c / 256);
    assert Word(1, a) == [a % 256] + Word(0, a / 256);
    assert Word(1, n) == [n % 256] + Word(0, n / 256);
    assert Word(2, b) == [b % 256] + Word(1, c);
    assert Word(2, n) == [n % 256] + Word(1, a);
    assert Word(3, a) == [a % 256] + Word(2, b);
    assert Word(4, n) == [n % 256] + Word(3, a);
  }

  lemma {:induction false} EightBytes(n: nat)
    requires Word(4, n / 0x1_0000_0000) == Four(n / 0x1_0000_0000)
    ensures Word(8, n) == Eight(n)
  {
    hide Four;
    var a, b, c, h := n / 0x100, n / 0x1_0000, n / 0x100_0000, n / 0x1_0000_0000;
    assert a / 256 == b && b / 256 == c && c / 256 == h;
    assert Word(5, c) == [c % 256] + Word(4, h);
    assert Word(6, b) == [b % 256] + Word(5, c);
    assert Word(7, a) == [a % 256] + Word(6, b);
    assert Word(8, n) == [n % 256] + Word(7, a);
    FourIs(n);
    FourIs(h);
    assert h / 0x100 == n / 0x100_0000_0000 && h / 0x1_0000 == n / 0x1_0000_0000_0000;
    assert h / 0x100_0000 == n / 0x100_0000_0000_0000;
  }

  lemma {:induction false} FourIs(n: nat)
    ensures Four(n) == [n % 256, n / 0x100 % 256, n / 0x1_0000 % 256, n / 0x100_0000 % 256]
  {
  }

  // ------------------------------------------------------------------- values

  /** The letters */
  lemma {:induction false} Letters()
    ensures UINT8 == 'y' as int && BOOLEAN == 'b' as int && INT16 == 'n' as int && UINT16 == 'q' as int
    ensures INT32 == 'i' as int && UINT32 == 'u' as int && INT64 == 'x' as int && UINT64 == 't' as int
    ensures DOUBLE == 'd' as int && STRING == 's' as int && OBJECT_PATH == 'o' as int && SIGNATURE == 'g' as int
    ensures ARRAY_BEGIN == 'a' as int && VARIANT_BEGIN == 'v' as int && STRUCT_BEGIN == '(' as int
    ensures STRUCT_END == ')' as int && DICTENTRY_BEGIN == '{' as int && DICTENTRY_END == '}' as int
  {
  }

  /** Numbers: zeros up to the boundary of the letter, and as many bytes, the lowest
      first */
  lemma {:induction false} NumberBytes(off: nat, c: FixedCode, n: nat)
    ensures c as char in {'y', 'b', 'n', 'q', 'i', 'u', 'x', 't', 'd'}
    ensures Encode(off, Fixed(c, n)) ==
              var letter := c as char;
              if letter == 'y' then [n % 0x100]
              else if letter in {'n', 'q'} then Zeros(Gap(off, 2)) + Two(n)
              else if letter in {'b', 'i', 'u'} then Zeros(Gap(off, 4)) + Four(n)
              else Zeros(Gap(off, 8)) + Eight(n)
  {
    hide PadLen, Gap, Word;
    GapIsPad(off, 1);
    GapIsPad(off, 2);
    GapIsPad(off, 4);
    GapIsPad(off, 8);
    WordIs(n);
    NoGap(off);
    assert IsFixed(c);
    assert Zeros(0) + [n % 0x100] == [n % 0x100];
  }

  lemma {:induction false} NoGap(off: nat)
    ensures Gap(off, 1) == 0
  {
  }

  /** Strings and object paths: a length on a boundary of four, the text, a NUL;
      signatures: a length of one byte on any boundary */
  lemma {:induction false} TextBytes(off: nat, c: TextCode, s: seq<Byte>)
    ensures c as char == 's' || c as char == 'o'
    ensures Encode(off, Text(c, s)) == Zeros(Gap(off, 4)) + Four(|s|) + s + [0]
    ensures |s| < 256 ==> Encode(off, SigText(s)) == [|s|] + s + [0]
  {
    hide PadLen, Gap, Word;
    GapIsPad(off, 4);
    WordIs(|s|);
    assert IsText(c);
  }

  /** Variants: a signature on any boundary, and the value behind it */
  lemma {:induction false} VariantBytes(off: nat, w: Value)
    requires |Show(TypeOf(w))| < 256
    ensures var s := Show(TypeOf(w));
            Encode(off, VariantOf(w)) == [|s|] + s + [0] + Encode(off + |s| + 2, w)
  {
    hide Show, TypeOf;
  }

  /** The element type of an array, by its first letter */
  lemma {:induction false} ElementBoundary(t: Type, b: nat)
    ensures StartsAt(Show(t)[0] as char, b) <==> b == AlignOf(t)
  {
  }

  /** Arrays: the number of data bytes on a boundary of four, zeros up to the boundary of
      the element type, also when there are no elements and not counted, and the elements
      one behind the other */
  lemma {:induction false} ArrayBytes(off: nat, t: Type, vs: seq<Value>, b: nat)
    requires StartsAt(Show(t)[0] as char, b)
    ensures b > 0
    ensures var head := off + Gap(off, 4) + 4;
            var data := EncodeAll(head + Gap(head, b), vs);
            Encode(off, ArrayOf(t, vs)) == Zeros(Gap(off, 4)) + Four(|data|) + Zeros(Gap(head, b)) + data
  {
    hide PadLen, Gap, Word, EncodeAll, Show, AlignOf, StartsAt;
    ElementBoundary(t, b);
    GapIsPad(off, 4);
    var head := off + Gap(off, 4) + 4;
    GapIsPad(head, b);
    var data := EncodeAll(head + Gap(head, b), vs);
    WordIs(|data|);
    assert data == ArrayBody(off, t, vs);
    assert |Four(|data|)| == 4;
  }

  /** Structs and dict entries: zeros up to a boundary of eight, and the members one
      behind the other */
  lemma {:induction false} MembersBytes(off: nat, vs: seq<Value>, k: Value, w: Value)
    ensures Encode(off, StructOf(vs)) == Zeros(Gap(off, 8)) + EncodeAll(off + Gap(off, 8), vs)
    ensures Encode(off, EntryOf(k, w)) == Zeros(Gap(off, 8)) + EncodeAll(off + Gap(off, 8), [k, w])
  {
    hide PadLen, Gap, EncodeAll, Word, Show, TypeOf;
    GapIsPad(off, 8);
    var p := off + Gap(off, 8);
    TwoEncoded(p, k, w);
    var a := Encode(p, k);
    assert Zeros(Gap(off, 8)) + a + Encode(p + |a|, w) == Zeros(Gap(off, 8)) + (a + Encode(p + |a|, w));
  }

  lemma {:induction false} TwoEncoded(p: nat, k: Value, w: Value)
    ensures EncodeAll(p, [k, w]) == Encode(p, k) + Encode(p + |Encode(p, k)|, w)
  {
    hide Encode;
    var m := [k, w];
    assert m[1..] == [w] && m[1..][1..] == [];
    assert EncodeAll(p + |Encode(p, k)|, [w]) == Encode(p + |Encode(p, k)|, w) + [];
  }

  /** Values one behind the other: each is encoded where the one in front of it ended. */
  lemma {:induction false} InSequence(off: nat, vs: seq<Value>, v: Value)
    ensures EncodeAll(off, vs + [v]) == EncodeAll(off, vs) + Encode(off + |EncodeAll(off, vs)|, v)
    ensures EncodeAll(off, []) == []
    decreases vs
  {
    hide Encode;
    if vs == [] {
      OneEncoded(off, v);
      assert [] + [v] == [v];
    } else {
      var e := Encode(off, vs[0]);
      assert (vs + [v])[1..] == vs[1..] + [v] && (vs + [v])[0] == vs[0];
      InSequence(off + |e|, vs[1..], v);
      var rest := EncodeAll(off + |e|, vs[1..]);
      assert EncodeAll(off, vs) == e + rest;
      assert EncodeAll(off, vs + [v]) == e + (rest + Encode(off + |e| + |rest|, v));
    }
  }

  lemma {:induction false} OneEncoded(off: nat, v: Value)
    ensures EncodeAll(off, [v]) == Encode(off, v) && EncodeAll(off, []) == []
  {
    hide Encode;
    assert [v][1..] == [];
  }

  /** Whatever the value: zeros up to the boundary of the first letter of its type, and
      what it is on that boundary */
  lemma {:induction false} StartsOnBoundary(off: nat, v: Value, b: nat)
    requires StartsAt(Show(TypeOf(v))[0] as char, b)
    ensures b > 0 && Gap(off + Gap(off, b), b) == 0
    ensures Encode(off, v) == Zeros(Gap(off, b)) + Encode(off + Gap(off, b), v)
  {
    hide PadLen, Gap, Word, StartsAt, Show, Encode;
    ElementBoundary(TypeOf(v), b);
    GapIsPad(off, b);
    GapIsPad(off + Gap(off, b), b);
    PaddedOnce(off, b);
    match v
    case Fixed(c, n) => PaddedFixed(off, c, n);
    case Text(c, s) => PaddedText(off, c, s);
    case SigText(s) => AtOnce(off, v);
    case VariantOf(w) => AtOnce(off, v);
    case ArrayOf(t, vs) => PaddedArray(off, t, vs);
    case StructOf(vs) => PaddedMembers(off, vs, v, v);
    case EntryOf(k, w) => PaddedMembers(off, [], k, w);
  }

  lemma {:induction false} AtOnce(off: nat, v: Value)
    ensures Gap(off, 1) == 0 && Encode(off, v) == Zeros(0) + Encode(off, v)
  {
    hide Encode;
  }

  lemma {:induction false} PaddedFixed(off: nat, c: FixedCode, n: nat)
    ensures var b := AlignOf(Basic(c)); var p := off + Gap(off, b);
            Encode(off, Fixed(c, n)) == Zeros(Gap(off, b)) + Encode(p, Fixed(c, n))
  {
    hide PadLen, Gap, Word, Width;
    GapIsPad(off, Width(c));
    PaddedOnce(off, Width(c));
  }

  lemma {:induction false} PaddedText(off: nat, c: TextCode, s: seq<Byte>)
    ensures var p := off + Gap(off, 4);
            Encode(off, Text(c, s)) == Zeros(Gap(off, 4)) + Encode(p, Text(c, s))
    ensures AlignOf(Basic(c)) == 4
  {
    hide PadLen, Gap, Four, Encode;
    GapIsPad(off, 4);
    GapIsPad(off + Gap(off, 4), 4);
    PaddedOnce(off, 4);
    TextBytes(off, c, s);
    TextBytes(off + Gap(off, 4), c, s);
    assert Zeros(Gap(off, 4)) + Four(|s|) + s + [0] == Zeros(Gap(off, 4)) + (Zeros(0) + Four(|s|) + s + [0]);
  }

  lemma {:induction false} PaddedArray(off: nat, t: Type, vs: seq<Value>)
    ensures var p, v := off + Gap(off, 4), ArrayOf(t, vs);
            Encode(off, v) == Zeros(Gap(off, 4)) + Encode(p, v)
  {
    hide PadLen, Gap, Four, Encode, EncodeAll, AlignOf, Show, StartsAt;
    var b := AlignOf(t);
    var p := off + Gap(off, 4);
    ElementBoundary(t, b);
    GapIsPad(off, 4);
    GapIsPad(p, 4);
    PaddedOnce(off, 4);
    ArrayBytes(off, t, vs, b);
    ArrayBytes(p, t, vs, b);
    var data := EncodeAll(p + 4 + Gap(p + 4, b), vs);
    assert Zeros(Gap(off, 4)) + Four(|data|) + Zeros(Gap(p + 4, b)) + data
           == Zeros(Gap(off, 4)) + (Zeros(0) + Four(|data|) + Zeros(Gap(p + 4, b)) + data);
  }

  lemma {:induction false} PaddedMembers(off: nat, vs: seq<Value>, k: Value, w: Value)
    ensures var p := off + Gap(off, 8);
            && Encode(off, StructOf(vs)) == Zeros(Gap(off, 8)) + Encode(p, StructOf(vs))
            && Encode(off, EntryOf(k, w)) == Zeros(Gap(off, 8)) + Encode(p, EntryOf(k, w))
  {
    hide PadLen, Gap, Encode, EncodeAll;
    var p := off + Gap(off, 8);
    GapIsPad(off, 8);
    GapIsPad(p, 8);
    PaddedOnce(off, 8);
    MembersBytes(off, vs, k, w);
    MembersBytes(p, vs, k, w);
    assert Zeros(0) + EncodeAll(p, vs) == EncodeAll(p, vs) && Zeros(0) + EncodeAll(p, [k, w]) == EncodeAll(p, [k, w]);
  }

  lemma {:induction false} PaddedOnce(off: nat, b: nat)
    requires IsBoundary(b)
    ensures PadLen(off + PadLen(off, b), b) == 0
  {
  }

  // --------------------------------------------------------------------- words

  /** The number that four bytes spell */
  lemma {:induction false} SpelledBy(w: seq<Byte>)
    requires |w| == 4
    ensures WordValue(w) == w[0] as int + 0x100 * (w[1] as int) + 0x1_0000 * (w[2] as int) + 0x100_0000 * (w[3] as int)
  {
    assert w[1..][1..] == w[2..] && w[2..][1..] == w[3..] && w[3..][1..] == [];
    assert WordValue(w[3..]) == w[3];
    assert WordValue(w[2..]) == w[2] as int + 256 * WordValue(w[3..]);
    assert WordValue(w[1..]) == w[1] as int + 256 * WordValue(w[2..]);
  }
}
