/** The header of a message: twelve fixed bytes, then the header fields as a
    marshaled `a(yv)`, padded to a multiple of eight. */
module Header {
  import opened Bytes
  import opened Signature
  import opened Codec
  import opened CodecLaws

  const HEADER_INVALID: Byte := 0
  const HEADER_OBJECT_PATH: Byte := 1
  const HEADER_INTERFACE: Byte := 2
  const HEADER_MEMBER: Byte := 3
  const HEADER_ERROR_NAME: Byte := 4
  const HEADER_REPLY_SERIAL: Byte := 5
  const HEADER_DESTINATION: Byte := 6
  const HEADER_SENDER: Byte := 7
  const HEADER_SIGNATURE: Byte := 8

  /** 'l', the endianness mark of the modelled host */
  const NATIVE: Byte := 108

  /** Get32: a word of a header that may be of either byte order */
  function Load32(endianness: Byte, w: seq<Byte>): (n: nat)
    requires |w| == 4
  {
    if endianness == NATIVE then WordValue(w)
    else WordValue([w[3], w[2], w[1], w[0]])
  }

  /** A header field: its code and the contents of its variant. */
  datatype Field = Field(code: Byte, value: Value) {
    function ToValue(): Value {
      StructOf([Fixed(UINT8, code), VariantOf(value)])
    }
  }

  const FIELD: Type := Struct([Basic(UINT8), Variant])

  function Values(fs: seq<Field>): (vs: seq<Value>)
    ensures |vs| == |fs|
  {
    if fs == [] then [] else [fs[0].ToValue()] + Values(fs[1..])
  }

  /** A field any sender may put into a header. */
  predicate GoodField(f: Field) {
    WellFormed(f.value) && |Show(TypeOf(f.value))| < 255 && Fits(0, f.ToValue())
  }

  predicate GoodFields(fs: seq<Field>) {
    forall i :: 0 <= i < |fs| ==> GoodField(fs[i])
  }

  // ------------------------------------------------------------- one field

  /** The start of a field: beginstruct, u8, beginvariant. */
  function BeginField(it: Iter): (r: Option<(nat, Iter)>)
    ensures r.Some? ==> r.value.1.size < it.size && r.value.1.sig != [] && r.value.1.mem == it.mem
    ensures r.Some? ==> r.value.1.pos >= it.pos
  {
    var i0 :- it.Sig(STRUCT_BEGIN);
    var i1 :- i0.Align(8);
    var i2 :- i1.Sig(UINT8);
    var (code, i3) :- i2.Get(1);
    var i4 :- i3.BeginVariant();
    Some((code, i4))
  }

  /** The end of a field, when the contents of the variant are consumed. */
  function EndField(it: Iter, rest: seq<Byte>): (r: Option<Iter>)
    ensures r.Some? ==> r.value.size == it.size && r.value.mem == it.mem && r.value.pos == it.pos
  {
    if it.sig != [] then None else it.(sig := rest).Sig(STRUCT_END)
  }

  lemma {:induction false} FieldText(f: Field)
    ensures Show(TypeOf(f.ToValue())) == [STRUCT_BEGIN, UINT8, VARIANT_BEGIN, STRUCT_END]
    ensures TypeOf(f.ToValue()) == FIELD
  {
    var vs := [Fixed(UINT8, f.code), VariantOf(f.value)];
    assert vs[1..] == [VariantOf(f.value)];
    assert vs[1..][1..] == [];
    assert TypesOf(vs[1..]) == [Variant];
    assert TypesOf(vs) == [Basic(UINT8), Variant];
    var ts := [Basic(UINT8), Variant];
    assert ts[1..] == [Variant] && ts[1..][1..] == [];
    assert ShowAll(ts[1..]) == [VARIANT_BEGIN];
    assert ShowAll(ts) == [UINT8, VARIANT_BEGIN];
  }

  lemma {:induction false} FieldBytes(off: nat, f: Field)
    ensures var p := AlignUp(off, 8);
            Encode(off, f.ToValue()) == Pad(off, 8) + ([f.code] + Encode(p + 1, VariantOf(f.value)))
  {
    hide PadLen;
    var vs := [Fixed(UINT8, f.code), VariantOf(f.value)];
    var p := AlignUp(off, 8);
    assert vs[1..] == [VariantOf(f.value)];
    assert vs[1..][1..] == [];
    EncodeStruct(off, vs);
    ByteWord(p, f.code);
    hide Encode;
    assert EncodeAll(p, vs) == Encode(p, vs[0]) + EncodeAll(p + 1, vs[1..]);
    assert EncodeAll(p + 1, vs[1..]) == Encode(p + 1, VariantOf(f.value)) + [];
  }

  lemma {:induction false} ByteWord(off: nat, n: Byte)
    ensures Encode(off, Fixed(UINT8, n)) == [n]
  {
    assert Word(1, n) == [n] + Word(0, 0);
  }

  lemma {:induction false} FieldFits(off: nat, f: Field)
    ensures Fits(off, f.ToValue()) <==> Fits(AlignUp(off, 8) + 1, VariantOf(f.value))
  {
    hide PadLen;
    var vs := [Fixed(UINT8, f.code), VariantOf(f.value)];
    var p := AlignUp(off, 8);
    assert vs[1..] == [VariantOf(f.value)];
    assert vs[1..][1..] == [];
    ByteWord(p, f.code);
    assert AllFit(p, vs) <==> Fits(p, vs[0]) && AllFit(p + 1, vs[1..]);
    assert AllFit(p + 1 + |Encode(p + 1, VariantOf(f.value))|, vs[1..][1..]);
  }

  lemma {:induction false} GoodFieldWellFormed(f: Field)
    requires GoodField(f)
    ensures WellFormed(f.ToValue())
  {
    var vs := [Fixed(UINT8, f.code), VariantOf(f.value)];
    assert vs[1..] == [VariantOf(f.value)];
    assert vs[1..][1..] == [];
    SpanFacts();
    assert AllWellFormed(vs[1..][1..]);
    assert AllWellFormed(vs[1..]);
  }

  /** In front of an encoded field, the field prefix reads its code and stops in
      front of the variant's contents; behind them the field ends. */
  lemma {:induction false} AtField(it: Iter, f: Field, rest: seq<Byte>)
    requires At(it, f.ToValue(), rest)
    ensures BeginField(it).Some?
    ensures var (code, i0) := BeginField(it).value;
            && code == f.code
            && At(i0, f.value, [])
            && EndField(Behind(i0, f.value, []), [STRUCT_END] + rest) == Some(Behind(it, f.ToValue(), rest))
  {
    hide Encode, PadLen, Show, TypeOf, Iter.BeginVariant, Iter.Get, WellFormed, Holds, Fits;
    FieldParts(it, f, rest);
    var i1 := it.Next().Align(8).value;
    var i3 := i1.Next().Advance(1);
    GetByteHeld(i1.Next(), f.code);
    AtVariant(i3, f.value, [STRUCT_END] + rest);
    assert ([STRUCT_END] + rest)[1..] == rest;
  }

  lemma {:induction false} FieldParts(it: Iter, f: Field, rest: seq<Byte>)
    requires At(it, f.ToValue(), rest)
    ensures it.sig == [STRUCT_BEGIN] + ([UINT8] + ([VARIANT_BEGIN] + ([STRUCT_END] + rest)))
    ensures it.sig[1..] == [UINT8] + ([VARIANT_BEGIN] + ([STRUCT_END] + rest))
    ensures it.sig[1..][1..] == [VARIANT_BEGIN] + ([STRUCT_END] + rest)
    ensures var p := AlignUp(it.pos, 8);
            && p + 1 - it.pos <= it.size
            && Holds(it.mem, p, [f.code])
            && At(Iter(it.mem, p + 1, it.size - (p + 1 - it.pos), [VARIANT_BEGIN] + ([STRUCT_END] + rest)),
                  VariantOf(f.value), [STRUCT_END] + rest)
            && |Encode(it.pos, f.ToValue())| == p + 1 - it.pos + |Encode(p + 1, VariantOf(f.value))|
  {
    FieldText(f);
    FieldInner(f);
    hide Encode, PadLen, TypeOf, WellFormed, Fits, Show;
    FieldBytes(it.pos, f);
    FieldFits(it.pos, f);
    var p := AlignUp(it.pos, 8);
    var ve := Encode(p + 1, VariantOf(f.value));
    HoldsConcat(it.mem, it.pos, Pad(it.pos, 8), [f.code] + ve);
    HoldsConcat(it.mem, p, [f.code], ve);
  }

  lemma {:induction false} FieldInner(f: Field)
    ensures WellFormed(f.ToValue()) ==> WellFormed(VariantOf(f.value))
    ensures Show(TypeOf(VariantOf(f.value))) == [VARIANT_BEGIN]
  {
    var vs := [Fixed(UINT8, f.code), VariantOf(f.value)];
    assert vs[1..] == [VariantOf(f.value)];
    assert AllWellFormed(vs) ==> AllWellFormed(vs[1..]);
  }

  // ------------------------------------------------------- the whole header

  /** The marshaled fields, as the array behind the length word holds them. */
  function Body(fs: seq<Field>): seq<Byte> {
    EncodeAll(16, Values(fs))
  }

  /** A field with the padding behind it. */
  function Chunk(f: Field): (c: seq<Byte>)
  {
    var e := Encode(0, f.ToValue());
    e + Pad(|e|, 8)
  }

  function Chunks(fs: seq<Field>): seq<Byte> {
    if fs == [] then [] else Chunk(fs[0]) + Chunks(fs[1..])
  }

  /** A complete header: the twelve fixed bytes, the length of the fields, the
      fields, and the padding in front of the message body. */
  function Whole(fixed: seq<Byte>, fs: seq<Field>): seq<Byte> {
    fixed + Word(4, |Body(fs)|) + Chunks(fs)
  }

  lemma {:induction false} ChunkAligned(f: Field)
    ensures |Chunk(f)| % 8 == 0 && |Chunk(f)| > 0
  {
    hide Encode;
    AlignedResidue(|Encode(0, f.ToValue())|);
    FieldBytes(0, f);
  }

  lemma {:induction false} ChunksAligned(fs: seq<Field>)
    ensures |Chunks(fs)| % 8 == 0
  {
    hide Chunk;
    if fs != [] {
      ChunkAligned(fs[0]);
      ChunksAligned(fs[1..]);
    }
  }

  lemma {:induction false} ChunksConcat(xs: seq<Field>, ys: seq<Field>)
    ensures Chunks(xs + ys) == Chunks(xs) + Chunks(ys)
  {
    hide Chunk;
    if xs == [] {
      assert [] + ys == ys;
    } else {
      assert (xs + ys)[1..] == xs[1..] + ys;
      ChunksConcat(xs[1..], ys);
    }
  }

  /** The marshaled fields are the padded fields, one after the other, up to
      the last, which is not padded. */
  lemma {:induction false} BodySnoc(off: nat, fs: seq<Field>, f: Field)
    requires off % 8 == 0
    ensures EncodeAll(off, Values(fs + [f])) == Chunks(fs) + Encode(0, f.ToValue())
    decreases fs
  {
    hide Encode, PadLen, Chunk;
    var all := fs + [f];
    if fs == [] {
      assert all == [f] && [f][1..] == [];
      assert Values([f])[1..] == [];
      EncodeModulo8(off, 0, f.ToValue());
    } else {
      EncodeModulo8(off, 0, fs[0].ToValue());
      var e := Encode(off, fs[0].ToValue());
      var p := AlignUp(off + |e|, 8);
      AlignedResidue(off + |e|);
      assert all[1..] == fs[1..] + [f];
      BodyStep(off, all, e, p);
      BodySnoc(p, fs[1..], f);
    }
  }

  /** Behind the padding of the last field, the header is a row of chunks. */
  lemma {:induction false} BodyIsChunks(fs: seq<Field>)
    ensures Chunks(fs) == Body(fs) + Pad(|Body(fs)|, 8)
    ensures fs != [] ==> |Pad(|Body(fs)|, 8)| == PadLen(|Encode(0, fs[|fs| - 1].ToValue())|, 8)
  {
    hide Encode, PadLen;
    if fs == [] {
      NoPad(0);
    } else {
      var init, f := fs[..|fs| - 1], fs[|fs| - 1];
      assert fs == init + [f];
      BodySnoc(16, init, f);
      ChunksConcat(init, [f]);
      ChunksAligned(init);
      assert [f][1..] == [];
      ShiftedPad(|Chunks(init)|, |Encode(0, f.ToValue())|);
    }
  }

  lemma {:induction false} BodyStep(off: nat, fs: seq<Field>, e: seq<Byte>, p: nat)
    requires off % 8 == 0 && fs != [] && fs[1..] != []
    requires e == Encode(off, fs[0].ToValue()) && e == Encode(0, fs[0].ToValue())
    requires p == AlignUp(off + |e|, 8) && p % 8 == 0
    ensures var rest := EncodeAll(p, Values(fs[1..]));
            && EncodeAll(off, Values(fs)) == Chunk(fs[0]) + rest
            && Pad(|EncodeAll(off, Values(fs))|, 8) == Pad(|rest|, 8)
  {
    hide Encode, PadLen;
    var rest := EncodeAll(p, Values(fs[1..]));
    ShiftedPad(off, |e|);
    FieldsPadded(off + |e|, fs[1..]);
    assert Values(fs)[1..] == Values(fs[1..]);
    assert EncodeAll(off, Values(fs)) == e + (Pad(|e|, 8) + rest);
    ShiftedPad(p - off, |rest|);
  }

  lemma {:induction false} NoPad(off: nat)
    requires off % 8 == 0
    ensures Pad(off, 8) == [] && Pad(off, 4) == []
  {
  }

  lemma {:induction false} ShiftedPad(n: nat, m: nat)
    requires n % 8 == 0
    ensures Pad(n + m, 8) == Pad(m, 8)
  {
    hide PadLen;
    PadModulo8(n + m, m, 8);
  }

  lemma {:induction false} FieldsPadded(off: nat, fs: seq<Field>)
    requires fs != []
    ensures EncodeAll(off, Values(fs)) == Pad(off, 8) + EncodeAll(AlignUp(off, 8), Values(fs))
  {
    hide Encode, PadLen;
    EncodePadded(off, fs[0].ToValue());
  }
}
