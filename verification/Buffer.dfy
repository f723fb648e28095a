/** adbus_Buffer: the byte vector with a signature cursor, its writers, and the
    sequence of writer calls that marshals a whole value. */
module Buffer {
  import opened Bytes
  import opened Signature
  import opened Codec
  import CodecLaws

  /** adbus_BufArray */
  datatype BufArray = BufArray(szindex: nat, dataindex: nat, sigbegin: seq<Byte>, sigend: seq<Byte>)

  class Buffer {
    var b: seq<Byte>
    var sig: seq<Byte>
    /** The signature still to be written; it lies in `sig`, or in the signature
        of the innermost open variant. */
    var sigp: seq<Byte>

    constructor ()
      ensures b == [] && sig == [] && sigp == []
    {
      b, sig, sigp := [], [], [];
    }

    method Reset()
      modifies this
      ensures b == [] && sig == [] && sigp == []
    {
      b, sig, sigp := [], [], [];
    }

    /** adbus_buf_setsig leaves the cursor alone: it must stand at the start. */
    method SetSig(s: seq<Byte>)
      requires |s| + 1 <= 256 && sigp == sig
      modifies this
      ensures b == old(b) && sig == s && sigp == s
    {
      sig, sigp := s, s;
    }

    method AppendSig(s: seq<Byte>)
      requires |sig| + |s| + 1 <= 256
      modifies this
      ensures b == old(b) && sig == old(sig) + s && sigp == old(sigp) + s
    {
      sig, sigp := sig + s, sigp + s;
    }

    method Append(data: seq<Byte>)
      modifies this`b
      ensures b == old(b) + data
    {
      b := b + data;
    }

    method Remove(off: nat, num: nat)
      requires off + num <= |b|
      modifies this`b
      ensures b == old(b)[..off] + old(b)[off + num..]
    {
      b := b[..off] + b[off + num..];
    }

    /** Align: zero bytes up to the boundary. */
    method Align(n: nat)
      requires IsBoundary(n)
      modifies this`b
      ensures b == old(b) + Pad(|old(b)|, n)
    {
      var append := AlignUp(|b|, n) - |b|;
      var i := 0;
      while i < append
        invariant 0 <= i <= append
        invariant b == old(b) + Zeros(i)
      {
        b := b + [0];
        i := i + 1;
      }
    }

    /** AlignField, on a letter that starts a type */
    method AlignField(c: Byte)
      requires Boundary(c).Some?
      modifies this`b
      ensures b == old(b) + Pad(|old(b)|, Boundary(c).value)
    {
      Align(Boundary(c).value);
    }

    /** SIG: the writers assert the letter they write. */
    method Sig(c: Byte)
      requires sigp != [] && sigp[0] == c
      modifies this`sigp
      ensures sigp == old(sigp)[1..]
    {
      sigp := sigp[1..];
    }

    /** Append8, Append16, Append32, Append64 */
    method AppendWord(w: nat, n: nat)
      requires IsBoundary(w)
      modifies this`b
      ensures b == old(b) + Pad(|old(b)|, w) + Word(w, n)
    {
      Align(w);
      b := b + Word(w, n);
    }

    /** adbus_buf_u8 ... adbus_buf_double, adbus_buf_bool */
    method PutFixed(c: FixedCode, n: nat)
      requires sigp != [] && sigp[0] == c
      modifies this`b, this`sigp
      ensures b == old(b) + Encode(|old(b)|, Fixed(c, if c == BOOLEAN && n != 0 then 1 else n))
      ensures sigp == old(sigp)[1..]
    {
      Sig(c);
      AppendWord(Width(c), if c == BOOLEAN && n != 0 then 1 else n);
    }

    /** adbus_buf_string, adbus_buf_objectpath */
    method PutText(c: TextCode, s: seq<Byte>)
      requires sigp != [] && sigp[0] == c
      modifies this`b, this`sigp
      ensures b == old(b) + Encode(|old(b)|, Text(c, s))
      ensures sigp == old(sigp)[1..]
    {
      Sig(c);
      AppendWord(4, |s|);
      b := b + s + [0];
    }

    /** adbus_buf_signature */
    method PutSignature(s: seq<Byte>)
      requires sigp != [] && sigp[0] == SIGNATURE && |s| < 255
      modifies this`b, this`sigp
      ensures b == old(b) + Encode(|old(b)|, SigText(s))
      ensures sigp == old(sigp)[1..]
    {
      Sig(SIGNATURE);
      b := b + [|s| % 256] + s + [0];
    }

    /** adbus_buf_beginvariant returns the signature to come back to. */
    method BeginVariant(s: seq<Byte>) returns (oldsig: seq<Byte>)
      requires sigp != [] && sigp[0] == VARIANT_BEGIN && |s| < 255
      modifies this`b, this`sigp
      ensures b == old(b) + ([|s| % 256] + s + [0])
      ensures oldsig == old(sigp)[1..] && sigp == s
    {
      Sig(VARIANT_BEGIN);
      b := b + ([|s| % 256] + s + [0]);
      oldsig := sigp;
      sigp := s;
    }

    method EndVariant(oldsig: seq<Byte>)
      modifies this`sigp
      ensures sigp == oldsig
    {
      sigp := oldsig;
    }

    /** adbus_buf_beginarray: a zero length word to patch later, and the
        padding in front of the first element. */
    method BeginArray(ghost t: Type, ghost rest: seq<Byte>) returns (a: BufArray)
      requires sigp == Show(Array(t)) + rest
      modifies this`b, this`sigp
      ensures var off := |old(b)|;
              var head := Pad(off, 4) + Word(4, 0);
              && b == old(b) + head + Pad(off + |head|, AlignOf(t))
              && a == BufArray(AlignUp(off, 4), BodyStart(off, t), Show(t) + rest, rest)
              && |b| == BodyStart(off, t)
      ensures sigp == Show(t) + rest
    {
      hide PadLen, Word, AlignOf, Show, Boundary, ParseType;
      ArrayText(t, rest);
      BoundaryOfType(t);
      Sig(ARRAY_BEGIN);
      AppendWord(4, 0);
      var szindex := |b| - 4;
      AlignField(sigp[0]);
      var end := NextArg(sigp);
      ParseShow(t, rest);
      a := BufArray(szindex, |b|, sigp, end.value);
    }

    method ArrayEntry(a: BufArray)
      modifies this`sigp
      ensures sigp == a.sigbegin
    {
      sigp := a.sigbegin;
    }

    /** adbus_buf_endarray patches the length word. */
    method EndArray(a: BufArray)
      requires a.szindex + 4 <= a.dataindex <= |b|
      modifies this`b, this`sigp
      ensures b == old(b)[..a.szindex] + Word(4, |old(b)| - a.dataindex) + old(b)[a.szindex + 4..]
      ensures sigp == a.sigend
    {
      b := b[..a.szindex] + Word(4, |b| - a.dataindex) + b[a.szindex + 4..];
      sigp := a.sigend;
    }

    method BeginStruct()
      requires sigp != [] && sigp[0] == STRUCT_BEGIN
      modifies this`b, this`sigp
      ensures b == old(b) + Pad(|old(b)|, 8) && sigp == old(sigp)[1..]
    {
      Sig(STRUCT_BEGIN);
      Align(8);
    }

    method EndStruct()
      requires sigp != [] && sigp[0] == STRUCT_END
      modifies this`sigp
      ensures sigp == old(sigp)[1..]
    {
      Sig(STRUCT_END);
    }

    method BeginDictEntry()
      requires sigp != [] && sigp[0] == DICTENTRY_BEGIN
      modifies this`b, this`sigp
      ensures b == old(b) + Pad(|old(b)|, 8) && sigp == old(sigp)[1..]
    {
      Sig(DICTENTRY_BEGIN);
      Align(8);
    }

    /** adbus_buf_enddictentry asserts the opening bracket where the closing one
        stands; without assertions it moves the cursor by one letter. */
    method EndDictEntry()
      requires sigp != []
      modifies this`sigp
      ensures sigp == old(sigp)[1..]
    {
      sigp := sigp[1..];
    }

    /** Marshaling a whole value with the writers appends exactly its encoding
        and moves the cursor over exactly its type. */
    method Write(v: Value, ghost rest: seq<Byte>)
      requires WellFormed(v) && sigp == Show(TypeOf(v)) + rest
      modifies this`b, this`sigp
      ensures b == old(b) + Encode(|old(b)|, v) && sigp == rest
      decreases v, 1
    {
      match v
      case Fixed(c, n) => PutFixed(c, n);
      case Text(c, s) => PutText(c, s);
      case SigText(s) => PutSignature(s);
      case VariantOf(w) => WriteVariant(w, rest);
      case ArrayOf(t, vs) => WriteArray(t, vs, rest);
      case StructOf(vs) => WriteStruct(vs, rest);
      case EntryOf(k, w) => WriteEntry(k, w, rest);
    }

    method WriteVariant(w: Value, ghost rest: seq<Byte>)
      requires WellFormed(w) && |Show(TypeOf(w))| < 255 && sigp == [VARIANT_BEGIN] + rest
      modifies this`b, this`sigp
      ensures b == old(b) + Encode(|old(b)|, VariantOf(w)) && sigp == rest
      decreases w, 2
    {
      hide Encode, Show, TypeOf, WellFormed;
      CodecLaws.EncodeVariant(|b|, w);
      var s := Show(TypeOf(w));
      var oldsig := BeginVariant(s);
      assert s + [] == s;
      Write(w, []);
      EndVariant(oldsig);
    }

    method WriteEntry(k: Value, w: Value, ghost rest: seq<Byte>)
      requires WellFormed(EntryOf(k, w)) && sigp == Show(TypeOf(EntryOf(k, w))) + rest
      modifies this`b, this`sigp
      ensures b == old(b) + Encode(|old(b)|, EntryOf(k, w)) && sigp == rest
      decreases EntryOf(k, w), 0
    {
      hide Encode, Show, PadLen, Pad;
      CodecLaws.EncodeEntry(|b|, k, w);
      DictEntryText(TypeOf(k), TypeOf(w), rest);
      assert WellFormed(k) && WellFormed(w);
      BeginDictEntry();
      Write(k, Show(TypeOf(w)) + ([DICTENTRY_END] + rest));
      Write(w, [DICTENTRY_END] + rest);
      EndDictEntry();
    }

    method WriteStruct(vs: seq<Value>, ghost rest: seq<Byte>)
      requires WellFormed(StructOf(vs)) && sigp == Show(TypeOf(StructOf(vs))) + rest
      modifies this`b, this`sigp
      ensures b == old(b) + Encode(|old(b)|, StructOf(vs)) && sigp == rest
      decreases StructOf(vs), 0
    {
      CodecLaws.EncodeStruct(|b|, vs);
      StructText(TypesOf(vs), rest);
      hide Encode, Show, PadLen;
      BeginStruct();
      WriteFields(vs, rest);
      EndStruct();
    }

    method WriteFields(vs: seq<Value>, ghost rest: seq<Byte>)
      requires AllWellFormed(vs) && sigp == ShowAll(TypesOf(vs)) + [STRUCT_END] + rest
      modifies this`b, this`sigp
      ensures b == old(b) + EncodeAll(|old(b)|, vs) && sigp == [STRUCT_END] + rest
      decreases vs, 0
    {
      hide Encode, Show, WellFormed, ShowAll, TypesOf;
      FieldsText(vs, rest);
      if vs != [] {
        var s1 := ShowAll(TypesOf(vs[1..])) + [STRUCT_END] + rest;
        Write(vs[0], s1);
        WriteFields(vs[1..], rest);
      }
    }

    method WriteArray(t: Type, vs: seq<Value>, ghost rest: seq<Byte>)
      requires WellFormed(ArrayOf(t, vs)) && sigp == Show(Array(t)) + rest
      modifies this`b, this`sigp
      ensures b == old(b) + Encode(|old(b)|, ArrayOf(t, vs)) && sigp == rest
      decreases ArrayOf(t, vs), 0
    {
      hide Encode, Show, PadLen, Word, EncodeAll;
      var a := BeginArray(t, rest);
      WriteElems(a, t, vs, rest);
      EndArray(a);
      PatchedArray(old(b), t, vs);
    }

    method WriteElems(a: BufArray, ghost t: Type, vs: seq<Value>, ghost rest: seq<Byte>)
      requires AllWellFormed(vs) && forall i :: 0 <= i < |vs| ==> TypeOf(vs[i]) == t
      requires a.sigbegin == Show(t) + rest
      modifies this`b, this`sigp
      ensures b == old(b) + EncodeAll(|old(b)|, vs)
      decreases vs, 0
    {
      hide Encode, Show, WellFormed, TypeOf;
      if vs != [] {
        ArrayEntry(a);
        Write(vs[0], rest);
        WriteElems(a, t, vs[1..], rest);
      }
    }
  }

  lemma {:induction false} FieldsText(vs: seq<Value>, rest: seq<Byte>)
    ensures var sig := ShowAll(TypesOf(vs)) + [STRUCT_END] + rest;
            && (vs == [] ==> sig == [STRUCT_END] + rest)
            && (vs != [] ==> sig == Show(TypeOf(vs[0])) + (ShowAll(TypesOf(vs[1..])) + [STRUCT_END] + rest))
  {
    hide Show, TypeOf, ShowAll;
    FieldsShow(vs);
    if vs != [] {
      Reassociate(Show(TypeOf(vs[0])), ShowAll(TypesOf(vs[1..])), [STRUCT_END], rest);
    }
  }

  lemma {:induction false} FieldsShow(vs: seq<Value>)
    ensures vs == [] ==> ShowAll(TypesOf(vs)) == []
    ensures vs != [] ==> ShowAll(TypesOf(vs)) == Show(TypeOf(vs[0])) + ShowAll(TypesOf(vs[1..]))
  {
    hide Show, TypeOf;
    if vs != [] {
      assert TypesOf(vs)[1..] == TypesOf(vs[1..]);
    }
  }

  lemma {:induction false} Reassociate(a: seq<Byte>, b: seq<Byte>, c: seq<Byte>, d: seq<Byte>)
    ensures a + b + c + d == a + (b + c + d)
  {
  }

  /** Patching the length into the array header gives the encoded array. */
  lemma PatchedArray(b: seq<Byte>, t: Type, vs: seq<Value>)
    ensures var off := |b|;
            var head := Pad(off, 4) + Word(4, 0);
            var body := ArrayBody(off, t, vs);
            var open := b + head + Pad(off + |head|, AlignOf(t)) + body;
            var sz := AlignUp(off, 4);
            open[..sz] + Word(4, |body|) + open[sz + 4..] == b + Encode(off, ArrayOf(t, vs))
  {
    hide PadLen, Word, EncodeAll, Encode, AlignOf;
    CodecLaws.EncodeArray(|b|, t, vs);
    var body := ArrayBody(|b|, t, vs);
    var pad := Pad(AlignUp(|b|, 4) + 4, AlignOf(t));
    var open := b + (Pad(|b|, 4) + Word(4, 0)) + pad + body;
    assert open[..AlignUp(|b|, 4)] == b + Pad(|b|, 4);
    assert open[AlignUp(|b|, 4) + 4..] == pad + body;
  }
}
