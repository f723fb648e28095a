/** The laws of the wire codec: reading inverts writing at every address of
    the same residue, and skipping lands where reading lands. */
module CodecLaws {
  import opened Bytes
  import opened Signature
  import opened Codec

  // ------------------------------------------------- the primitive readers

  lemma {:induction false} GetHeld(it: Iter, w: nat, n: nat)
    requires IsBoundary(w) && n < Span(w)
    requires Holds(it.mem, it.pos, Pad(it.pos, w) + Word(w, n))
    requires PadLen(it.pos, w) + w <= it.size
    ensures it.Get(w) == Some((n, it.Advance(PadLen(it.pos, w) + w)))
  {
    hide PadLen, Span, Word, WordValue, Pad;
    HoldsConcat(it.mem, it.pos, Pad(it.pos, w), Word(w, n));
    WordRoundTrip(w, n);
  }

  lemma {:induction false} GetByteHeld(it: Iter, n: Byte)
    requires Holds(it.mem, it.pos, [n]) && 1 <= it.size
    ensures it.Get(1) == Some((n, it.Advance(1)))
  {
    assert it.Align(1).value == it;
    assert [n][1..] == [];
    assert WordValue([n]) == n;
  }

  lemma {:induction false} GetStringHeld(it: Iter, s: seq<Byte>)
    requires NulFree(s) && |s| + 1 <= it.size
    requires Holds(it.mem, it.pos, s + [0])
    ensures it.GetString(|s|) == Some((s, it.Advance(|s| + 1)))
  {
    HoldsConcat(it.mem, it.pos, s, [0]);
    assert it.mem[it.pos + |s|..it.pos + |s| + 1][0] == 0;
  }

  /** A signature with its length byte, as in a signature value or a variant. */
  lemma {:induction false} GetSigHeld(it: Iter, s: seq<Byte>, more: seq<Byte>)
    requires NulFree(s) && |s| < 255 && |s| + 2 <= it.size
    requires Holds(it.mem, it.pos, [|s| % 256] + s + [0] + more)
    ensures it.Get(1) == Some((|s|, it.Advance(1)))
    ensures it.Advance(1).GetString(|s|) == Some((s, it.Advance(|s| + 2)))
    ensures Holds(it.mem, it.pos + |s| + 2, more)
  {
    hide PadLen, Iter.Get, Iter.GetString, Holds;
    assert [|s| % 256] + s + [0] + more == [|s|] + (s + [0] + more);
    HoldsConcat(it.mem, it.pos, [|s|], s + [0] + more);
    HoldsConcat(it.mem, it.pos + 1, s + [0], more);
    GetByteHeld(it, |s|);
    GetStringHeld(it.Advance(1), s);
  }

  // ------------------------------------------------------------ round trip

  /** The iterator stands in front of the encoding of `v`, with `rest` the
      signature behind its type. */
  ghost predicate At(it: Iter, v: Value, rest: seq<Byte>) {
    && WellFormed(v)
    && Fits(it.pos, v)
    && Holds(it.mem, it.pos, Encode(it.pos, v))
    && |Encode(it.pos, v)| <= it.size
    && it.sig == Show(TypeOf(v)) + rest
  }

  function Behind(it: Iter, v: Value, rest: seq<Byte>): (r: Iter)
    requires |Encode(it.pos, v)| <= it.size
  {
    it.Advance(|Encode(it.pos, v)|).(sig := rest)
  }

  /** Reading what was written gives the value back, and leaves the iterator
      at the byte and at the signature letter where the writer stopped. */
  lemma {:induction false} ReadEncode(it: Iter, v: Value, rest: seq<Byte>)
    requires At(it, v, rest)
    ensures Read(it) == Some((v, Behind(it, v, rest)))
    decreases v, 1
  {
    hide Read, At, Behind;
    match v
    case Fixed(_, _) => ReadFixed(it, v, rest);
    case Text(_, _) => ReadText(it, v, rest);
    case SigText(_) => ReadSigText(it, v, rest);
    case VariantOf(w) => ReadVariant(it, w, rest);
    case ArrayOf(t, vs) => ReadArray(it, t, vs, rest);
    case StructOf(vs) => ReadStruct(it, vs, rest);
    case EntryOf(k, w) => ReadEntry(it, k, w, rest);
  }

  lemma {:induction false} ReadFixed(it: Iter, v: Value, rest: seq<Byte>)
    requires At(it, v, rest) && v.Fixed?
    ensures Read(it) == Some((v, Behind(it, v, rest)))
  {
    hide PadLen, Width, Span;
    assert it.sig[1..] == rest;
    GetHeld(it.Next(), Width(v.code), v.n);
  }

  lemma {:induction false} ReadText(it: Iter, v: Value, rest: seq<Byte>)
    requires At(it, v, rest) && v.Text?
    ensures Read(it) == Some((v, Behind(it, v, rest)))
  {
    SpanFacts();
    hide PadLen, Span, Word, Iter.Get, Iter.GetString;
    var Text(c, s) := v;
    assert it.sig[1..] == rest;
    var len := Pad(it.pos, 4) + Word(4, |s|);
    assert Encode(it.pos, v) == len + (s + [0]);
    HoldsConcat(it.mem, it.pos, len, s + [0]);
    GetHeld(it.Next(), 4, |s|);
    GetStringHeld(it.Next().Advance(|len|), s);
  }

  lemma {:induction false} ReadSigText(it: Iter, v: Value, rest: seq<Byte>)
    requires At(it, v, rest) && v.SigText?
    ensures Read(it) == Some((v, Behind(it, v, rest)))
  {
    hide PadLen;
    assert it.sig[1..] == rest;
    assert Encode(it.pos, v) == [|v.sig| % 256] + v.sig + [0] + [];
    GetSigHeld(it.Next(), v.sig, []);
  }

  lemma {:induction false} ReadStruct(it: Iter, vs: seq<Value>, rest: seq<Byte>)
    requires At(it, StructOf(vs), rest)
    ensures Read(it) == Some((StructOf(vs), Behind(it, StructOf(vs), rest)))
    decreases StructOf(vs), 0
  {
    EncodeStruct(it.pos, vs);
    hide PadLen, EncodeAll, Encode, ReadFields, Show;
    StructText(TypesOf(vs), rest);
    HoldsConcat(it.mem, it.pos, Pad(it.pos, 8), EncodeAll(AlignUp(it.pos, 8), vs));
    ReadFieldsEncode(it.Next().Align(8).value, vs, rest);
  }

  lemma {:induction false} EncodeStruct(off: nat, vs: seq<Value>)
    ensures Encode(off, StructOf(vs)) == Pad(off, 8) + EncodeAll(AlignUp(off, 8), vs)
  {
  }

  /** Signatures contain no NUL byte. */
  lemma {:induction false} ShowNulFree(t: Type)
    ensures NulFree(Show(t))
    decreases t, 0
  {
    match t
    case Basic(_) =>
    case Variant =>
    case Array(e) => ShowNulFree(e);
    case Struct(ts) => ShowAllNulFree(ts);
    case DictEntry(k, v) => ShowNulFree(k); ShowNulFree(v);
  }

  lemma {:induction false} ShowAllNulFree(ts: seq<Type>)
    ensures NulFree(ShowAll(ts))
    decreases ts
  {
    if ts != [] {
      ShowNulFree(ts[0]);
      ShowAllNulFree(ts[1..]);
    }
  }

  lemma {:induction false} AlignTwice(off: nat, b: nat)
    requires IsBoundary(b)
    ensures AlignUp(AlignUp(off, b), b) == AlignUp(off, b)
    ensures Pad(AlignUp(off, b), b) == []
  {
  }

  /** The encoding of `v` starts with the padding of its type. */
  ghost predicate Padded(off: nat, v: Value) {
    var p := AlignUp(off, AlignOf(TypeOf(v)));
    && Encode(off, v) == Pad(off, AlignOf(TypeOf(v))) + Encode(p, v)
    && (Fits(off, v) ==> Fits(p, v))
  }

  lemma {:induction false} EncodePadded(off: nat, v: Value)
    ensures Padded(off, v)
  {
    hide Padded;
    match v
    case Fixed(_, _) => LeafPadded(off, v);
    case Text(_, _) => LeafPadded(off, v);
    case SigText(_) => ByteAlignedPadded(off, v);
    case VariantOf(_) => ByteAlignedPadded(off, v);
    case ArrayOf(_, _) => ArrayPadded(off, v);
    case StructOf(_) => StructPadded(off, v);
    case EntryOf(_, _) => EntryPadded(off, v);
  }

  lemma {:induction false} LeafPadded(off: nat, v: Value)
    requires v.Fixed? || v.Text?
    ensures Padded(off, v)
  {
    hide PadLen, Width, Word;
    AlignTwice(off, AlignOf(TypeOf(v)));
  }

  lemma {:induction false} ByteAlignedPadded(off: nat, v: Value)
    requires v.SigText? || v.VariantOf?
    ensures Padded(off, v)
  {
    hide Encode, Fits;
    AlignToOne(off);
  }

  lemma {:induction false} ArrayPadded(off: nat, v: Value)
    requires v.ArrayOf?
    ensures Padded(off, v)
  {
    hide PadLen, Word, EncodeAll, Encode;
    AlignTwice(off, 4);
    EncodeArray(off, v.elem, v.elems);
    EncodeArray(AlignUp(off, 4), v.elem, v.elems);
  }

  lemma {:induction false} StructPadded(off: nat, v: Value)
    requires v.StructOf?
    ensures Padded(off, v)
  {
    hide PadLen, EncodeAll, Encode;
    AlignTwice(off, 8);
    EncodeStruct(off, v.fields);
    EncodeStruct(AlignUp(off, 8), v.fields);
  }

  lemma {:induction false} EntryPadded(off: nat, v: Value)
    requires v.EntryOf?
    ensures Padded(off, v)
  {
    hide PadLen, Encode;
    AlignTwice(off, 8);
    EncodeEntry(off, v.key, v.val);
    EncodeEntry(AlignUp(off, 8), v.key, v.val);
  }

  lemma {:induction false} AlignToOne(off: nat)
    ensures AlignUp(off, 1) == off && Pad(off, 1) == []
  {
  }

  lemma {:induction false} EncodeVariant(off: nat, w: Value)
    ensures var s := Show(TypeOf(w));
            Encode(off, VariantOf(w)) == [|s| % 256] + s + [0] + Encode(off + |s| + 2, w)
  {
  }

  /** A variant header in front of the iterator: what beginvariant finds. */
  lemma {:induction false} BeginVariantHeld(it: Iter, t: Type, more: seq<Byte>, rest: seq<Byte>)
    requires var s := Show(t);
             && |s| < 255
             && Holds(it.mem, it.pos, [|s| % 256] + s + [0] + more)
             && |s| + 2 + PadLen(it.pos + |s| + 2, AlignOf(t)) <= it.size
    requires it.sig == [VARIANT_BEGIN] + rest
    ensures var p := it.pos + |Show(t)| + 2;
            && it.BeginVariant() == Some(it.Advance(AlignUp(p, AlignOf(t)) - it.pos).(sig := Show(t)))
            && Holds(it.mem, p, more)
  {
    BoundaryOfType(t);
    hide PadLen, Show, AlignOf, Boundary, Holds;
    assert it.sig[1..] == rest;
    ShowNulFree(t);
    GetSigHeld(it.Next(), Show(t), more);
  }

  /** In front of a variant, the iterator behind the variant's header stands in
      front of the contents. */
  lemma {:induction false} AtVariant(it: Iter, w: Value, rest: seq<Byte>)
    requires At(it, VariantOf(w), rest)
    ensures it.Letter() == VARIANT_BEGIN && it.sig[1..] == rest
    ensures it.BeginVariant().Some?
    ensures var i0 := it.BeginVariant().value;
            At(i0, w, []) && Behind(i0, w, []).(sig := rest) == Behind(it, VariantOf(w), rest)
  {
    hide Encode, Pad, PadLen, Show, TypeOf, AlignOf, WellFormed, Fits, Holds, Iter.BeginVariant;
    VariantParts(it, w, rest);
    var t := TypeOf(w);
    var p := it.pos + |Show(t)| + 2;
    EncodePadded(p, w);
    BeginVariantHeld(it, t, Encode(p, w), rest);
    HoldsConcat(it.mem, p, Pad(p, AlignOf(t)), Encode(AlignUp(p, AlignOf(t)), w));
    assert Show(t) + [] == Show(t);
  }

  lemma {:induction false} VariantParts(it: Iter, w: Value, rest: seq<Byte>)
    requires At(it, VariantOf(w), rest)
    ensures it.sig == [VARIANT_BEGIN] + rest && it.sig[1..] == rest
    ensures var s := Show(TypeOf(w));
            var p := it.pos + |s| + 2;
            && WellFormed(w) && |s| < 255 && Fits(p, w)
            && Holds(it.mem, it.pos, [|s| % 256] + s + [0] + Encode(p, w))
            && |Encode(it.pos, VariantOf(w))| == |s| + 2 + |Encode(p, w)|
  {
    hide Holds, PadLen;
    EncodeVariant(it.pos, w);
  }

  lemma {:induction false} ReadVariant(it: Iter, w: Value, rest: seq<Byte>)
    requires At(it, VariantOf(w), rest)
    ensures Read(it) == Some((VariantOf(w), Behind(it, VariantOf(w), rest)))
    decreases w, 2
  {
    AtVariant(it, w, rest);
    hide Read, At, Iter.BeginVariant, Encode;
    var i0 := it.BeginVariant().value;
    ReadEncode(i0, w, []);
    ReadVariantStep(it, i0, w, Behind(i0, w, []));
  }

  lemma {:induction false} ReadVariantStep(it: Iter, i0: Iter, w: Value, i1: Iter)
    requires it.Letter() == VARIANT_BEGIN && it.BeginVariant() == Some(i0)
    requires Read(i0) == Some((w, i1)) && i1.sig == []
    ensures Read(it) == Some((VariantOf(w), i1.(sig := it.sig[1..])))
  {
  }

  lemma {:induction false} EncodeEntry(off: nat, k: Value, w: Value)
    ensures var p := AlignUp(off, 8);
            Encode(off, EntryOf(k, w)) == Pad(off, 8) + (Encode(p, k) + Encode(p + |Encode(p, k)|, w))
  {
  }

  lemma {:induction false} AtEntry(it: Iter, k: Value, w: Value, rest: seq<Byte>)
    requires At(it, EntryOf(k, w), rest)
    ensures it.Letter() == DICTENTRY_BEGIN && it.Next().Align(8).Some?
    ensures var i1 := it.Next().Align(8).value;
            var s2 := [DICTENTRY_END] + rest;
            && At(i1, k, Show(TypeOf(w)) + s2)
            && var i2 := Behind(i1, k, Show(TypeOf(w)) + s2);
               At(i2, w, s2) && Behind(i2, w, s2).Next() == Behind(it, EntryOf(k, w), rest)
  {
    hide Encode, Pad, PadLen, Show, TypeOf, WellFormed, Fits, Holds;
    EntryParts(it, k, w, rest);
    var p := AlignUp(it.pos, 8);
    var ke := Encode(p, k);
    HoldsConcat(it.mem, it.pos, Pad(it.pos, 8), ke + Encode(p + |ke|, w));
    HoldsConcat(it.mem, p, ke, Encode(p + |ke|, w));
    assert ([DICTENTRY_END] + rest)[1..] == rest;
  }

  lemma {:induction false} EntryParts(it: Iter, k: Value, w: Value, rest: seq<Byte>)
    requires At(it, EntryOf(k, w), rest)
    ensures it.Letter() == DICTENTRY_BEGIN
    ensures it.sig[1..] == Show(TypeOf(k)) + (Show(TypeOf(w)) + ([DICTENTRY_END] + rest))
    ensures var p := AlignUp(it.pos, 8);
            var ke := Encode(p, k);
            var we := Encode(p + |ke|, w);
            && WellFormed(k) && WellFormed(w) && Fits(p, k) && Fits(p + |ke|, w)
            && Holds(it.mem, it.pos, Pad(it.pos, 8) + (ke + we))
            && |Encode(it.pos, EntryOf(k, w))| == PadLen(it.pos, 8) + |ke| + |we|
  {
    hide PadLen, Holds, Show, Encode, Pad;
    EncodeEntry(it.pos, k, w);
    DictEntryText(TypeOf(k), TypeOf(w), rest);
  }

  lemma {:induction false} ReadEntry(it: Iter, k: Value, w: Value, rest: seq<Byte>)
    requires At(it, EntryOf(k, w), rest)
    ensures Read(it) == Some((EntryOf(k, w), Behind(it, EntryOf(k, w), rest)))
    decreases EntryOf(k, w), 0
  {
    AtEntry(it, k, w, rest);
    var i1 := it.Next().Align(8).value;
    var s2 := [DICTENTRY_END] + rest;
    var i2 := Behind(i1, k, Show(TypeOf(w)) + s2);
    hide Read, At, Encode, PadLen, Show;
    ReadEncode(i1, k, Show(TypeOf(w)) + s2);
    ReadEncode(i2, w, s2);
    ReadEntryStep(it, i1, k, i2, w, Behind(i2, w, s2));
  }

  lemma {:induction false} ReadEntryStep(it: Iter, i1: Iter, k: Value, i2: Iter, w: Value, i3: Iter)
    requires it.Letter() == DICTENTRY_BEGIN && it.Next().Align(8) == Some(i1)
    requires Read(i1) == Some((k, i2)) && Read(i2) == Some((w, i3))
    requires i3.Letter() == DICTENTRY_END
    ensures Read(it) == Some((EntryOf(k, w), i3.Next()))
  {
    hide PadLen;
  }

  lemma {:induction false} ReadFieldsEncode(it: Iter, vs: seq<Value>, rest: seq<Byte>)
    requires AllWellFormed(vs) && AllFit(it.pos, vs)
    requires Holds(it.mem, it.pos, EncodeAll(it.pos, vs)) && |EncodeAll(it.pos, vs)| <= it.size
    requires it.sig == ShowAll(TypesOf(vs)) + [STRUCT_END] + rest
    ensures ReadFields(it) == Some((vs, it.Advance(|EncodeAll(it.pos, vs)|).(sig := rest)))
    decreases vs
  {
    hide Encode, Show, Read, WellFormed, Fits, TypeOf;
    if vs == [] {
      assert it.sig[1..] == rest;
    } else {
      var e := Encode(it.pos, vs[0]);
      var s1 := ShowAll(TypesOf(vs[1..])) + [STRUCT_END] + rest;
      assert TypesOf(vs)[1..] == TypesOf(vs[1..]);
      assert it.sig == Show(TypeOf(vs[0])) + s1;
      HoldsConcat(it.mem, it.pos, e, EncodeAll(it.pos + |e|, vs[1..]));
      ReadEncode(it, vs[0], s1);
      ReadFieldsEncode(Behind(it, vs[0], s1), vs[1..], rest);
      assert [vs[0]] + vs[1..] == vs;
    }
  }

  /** Every well-formed value takes at least one byte. */
  lemma {:induction false} EncodeNonEmpty(off: nat, v: Value)
    requires WellFormed(v)
    ensures Encode(off, v) != []
    decreases v
  {
    match v
    case Fixed(_, _) =>
    case Text(_, _) =>
    case SigText(_) =>
    case VariantOf(_) =>
    case ArrayOf(_, _) =>
    case StructOf(vs) => EncodeNonEmpty(AlignUp(off, 8), vs[0]);
    case EntryOf(k, _) => EncodeNonEmpty(AlignUp(off, 8), k);
  }

  lemma {:induction false} ReadElemsEncode(it: Iter, t: Type, vs: seq<Value>, rest: seq<Byte>)
    requires AllWellFormed(vs) && AllFit(it.pos, vs)
    requires forall i :: 0 <= i < |vs| ==> TypeOf(vs[i]) == t
    requires Holds(it.mem, it.pos, EncodeAll(it.pos, vs)) && |EncodeAll(it.pos, vs)| <= it.size
    requires it.sig == Show(t) + rest
    ensures ReadElems(it, it.pos + |EncodeAll(it.pos, vs)|)
         == Some((vs, it.Advance(|EncodeAll(it.pos, vs)|)))
    decreases vs
  {
    hide Encode, Show, Read, WellFormed, Fits, TypeOf;
    if vs != [] {
      var e := Encode(it.pos, vs[0]);
      EncodeNonEmpty(it.pos, vs[0]);
      HoldsConcat(it.mem, it.pos, e, EncodeAll(it.pos + |e|, vs[1..]));
      ReadEncode(it, vs[0], rest);
      ReadElemsEncode(it.Advance(|e|), t, vs[1..], rest);
      assert [vs[0]] + vs[1..] == vs;
    }
  }

  /** An array header in front of the iterator: what beginarray finds. */
  lemma {:induction false} BeginArrayHeld(it: Iter, t: Type, n: nat, rest: seq<Byte>)
    requires n <= MAX_ARRAY
    requires var len := Pad(it.pos, 4) + Word(4, n);
             Holds(it.mem, it.pos, len) && BodyStart(it.pos, t) - it.pos <= it.size
    requires it.sig == Show(Array(t)) + rest
    ensures it.Letter() == ARRAY_BEGIN
    ensures it.BeginArray()
         == Some((it.Advance(BodyStart(it.pos, t) - it.pos).(sig := Show(t) + rest), n, rest))
  {
    SpanFacts();
    ArrayText(t, rest);
    BoundaryOfType(t);
    hide PadLen, Span, Word, Show, ParseType, AlignOf, Boundary;
    GetHeld(it.Next(), 4, n);
    ParseShow(t, rest);
  }

  lemma {:induction false} EncodeArray(off: nat, t: Type, vs: seq<Value>)
    ensures var body := ArrayBody(off, t, vs);
            var len := Pad(off, 4) + Word(4, |body|);
            Encode(off, ArrayOf(t, vs)) == len + (Pad(off + |len|, AlignOf(t)) + body)
  {
    hide PadLen, Word, EncodeAll;
  }

  lemma {:induction false} AtArray(it: Iter, t: Type, vs: seq<Value>, rest: seq<Byte>)
    requires At(it, ArrayOf(t, vs), rest)
    ensures var body := ArrayBody(it.pos, t, vs);
            && it.Letter() == ARRAY_BEGIN
            && BodyStart(it.pos, t) - it.pos + |body| <= it.size
            && var i0 := it.Advance(BodyStart(it.pos, t) - it.pos).(sig := Show(t) + rest);
               && it.BeginArray() == Some((i0, |body|, rest))
               && Holds(it.mem, i0.pos, body)
               && i0.Advance(|body|).(sig := rest) == Behind(it, ArrayOf(t, vs), rest)
  {
    hide Encode, EncodeAll, Word, Show, PadLen, AlignOf, Holds, AllFit, AllWellFormed, Iter.BeginArray;
    ArrayParts(it, t, vs, rest);
    var body := ArrayBody(it.pos, t, vs);
    var len := Pad(it.pos, 4) + Word(4, |body|);
    var pad := Pad(it.pos + |len|, AlignOf(t));
    HoldsConcat(it.mem, it.pos, len, pad + body);
    HoldsConcat(it.mem, it.pos + |len|, pad, body);
    BeginArrayHeld(it, t, |body|, rest);
  }

  lemma {:induction false} ReadArray(it: Iter, t: Type, vs: seq<Value>, rest: seq<Byte>)
    requires At(it, ArrayOf(t, vs), rest)
    ensures Read(it) == Some((ArrayOf(t, vs), Behind(it, ArrayOf(t, vs), rest)))
    decreases ArrayOf(t, vs), 0
  {
    hide Read, At, Encode, EncodeAll, Show, ParseType, Iter.BeginArray, AllFit, AllWellFormed, BodyStart, TypeOf, PadLen;
    AtArray(it, t, vs, rest);
    ArrayParts(it, t, vs, rest);
    ParseShow(t, rest);
    var i0 := it.BeginArray().value.0;
    ReadElemsEncode(i0, t, vs, rest);
    var n := |ArrayBody(it.pos, t, vs)|;
    ReadArrayStep(it, i0, n, rest, vs, i0.Advance(n), t);
  }

  lemma {:induction false} ArrayParts(it: Iter, t: Type, vs: seq<Value>, rest: seq<Byte>)
    requires At(it, ArrayOf(t, vs), rest)
    ensures it.sig == Show(Array(t)) + rest
    ensures AllWellFormed(vs) && AllFit(BodyStart(it.pos, t), vs)
    ensures forall i :: 0 <= i < |vs| ==> TypeOf(vs[i]) == t
    ensures var body := ArrayBody(it.pos, t, vs);
            var len := Pad(it.pos, 4) + Word(4, |body|);
            var pad := Pad(it.pos + |len|, AlignOf(t));
            && |body| <= MAX_ARRAY
            && Encode(it.pos, ArrayOf(t, vs)) == len + (pad + body)
            && Holds(it.mem, it.pos, len + (pad + body))
  {
    hide PadLen, Holds, EncodeAll, Word, AlignOf;
    EncodeArray(it.pos, t, vs);
  }

  lemma {:induction false} ReadArrayStep(it: Iter, i0: Iter, n: nat, rest: seq<Byte>, vs: seq<Value>, i1: Iter, t: Type)
    requires it.Letter() == ARRAY_BEGIN && it.BeginArray() == Some((i0, n, rest))
    requires ReadElems(i0, i0.pos + n) == Some((vs, i1))
    requires ParseType(i0.sig) == Some((t, rest))
    ensures Read(it) == Some((ArrayOf(t, vs), i1.(pos := i0.pos + n, sig := rest)))
  {
    hide PadLen, ParseType, ReadElems;
  }

  // ------------------------------------------------- residues of the offset

  lemma {:induction false} PadModulo8(off: nat, p: nat, b: nat)
    requires off % 8 == p % 8 && IsBoundary(b)
    ensures PadLen(off, b) == PadLen(p, b)
    ensures AlignUp(off, b) % 8 == AlignUp(p, b) % 8
  {
    SumModulo8(off, p, PadLen(off, b));
  }

  lemma {:induction false} BodyStartModulo8(off: nat, p: nat, t: Type)
    requires off % 8 == p % 8
    ensures BodyStart(off, t) % 8 == BodyStart(p, t) % 8
    ensures BodyStart(off, t) - off == BodyStart(p, t) - p
  {
    hide AlignOf, PadLen;
    PadModulo8(off, p, 4);
    SumModulo8(AlignUp(off, 4), AlignUp(p, 4), 4);
    PadModulo8(AlignUp(off, 4) + 4, AlignUp(p, 4) + 4, AlignOf(t));
  }

  /** The encoding depends on the offset only modulo 8. */
  lemma {:induction false} EncodeModulo8(off: nat, p: nat, v: Value)
    requires off % 8 == p % 8
    ensures Encode(off, v) == Encode(p, v)
    ensures Fits(off, v) == Fits(p, v)
    decreases v, 0
  {
    hide PadLen, EncodeAll, AllFit, Word, Width, Show, TypeOf, BodyStart;
    match v
    case Fixed(c, _) => PadModulo8(off, p, Width(c));
    case Text(_, _) => PadModulo8(off, p, 4);
    case SigText(_) =>
    case VariantOf(w) =>
      var n := |Show(TypeOf(w))| + 2;
      SumModulo8(off, p, n);
      EncodeModulo8(off + n, p + n, w);
    case ArrayOf(t, vs) => ArrayModulo8(off, p, t, vs);
    case StructOf(vs) =>
      PadModulo8(off, p, 8);
      EncodeAllModulo8(AlignUp(off, 8), AlignUp(p, 8), vs);
    case EntryOf(k, w) => EntryModulo8(off, p, k, w);
  }

  lemma {:induction false} SumModulo8(off: nat, p: nat, n: nat)
    requires off % 8 == p % 8
    ensures (off + n) % 8 == (p + n) % 8
  {
  }

  lemma {:induction false} ArrayModulo8(off: nat, p: nat, t: Type, vs: seq<Value>)
    requires off % 8 == p % 8
    ensures Encode(off, ArrayOf(t, vs)) == Encode(p, ArrayOf(t, vs))
    ensures Fits(off, ArrayOf(t, vs)) == Fits(p, ArrayOf(t, vs))
    decreases vs, 2
  {
    hide PadLen, AlignOf, Word, BodyStart, EncodeAll, AllFit, Encode;
    BodyStartModulo8(off, p, t);
    EncodeAllModulo8(BodyStart(off, t), BodyStart(p, t), vs);
    EncodeArray(off, t, vs);
    EncodeArray(p, t, vs);
    PadModulo8(off, p, 4);
    var n := PadLen(off, 4) + 4;
    SumModulo8(off, p, n);
    PadModulo8(off + n, p + n, AlignOf(t));
  }

  lemma {:induction false} EntryModulo8(off: nat, p: nat, k: Value, w: Value)
    requires off % 8 == p % 8
    ensures Encode(off, EntryOf(k, w)) == Encode(p, EntryOf(k, w))
    ensures Fits(off, EntryOf(k, w)) == Fits(p, EntryOf(k, w))
    decreases EntryOf(k, w), -1
  {
    EncodeEntry(off, k, w);
    EncodeEntry(p, k, w);
    hide PadLen, Encode;
    var o, q := AlignUp(off, 8), AlignUp(p, 8);
    PadModulo8(off, p, 8);
    EncodeModulo8(o, q, k);
    SumModulo8(o, q, |Encode(o, k)|);
    EncodeModulo8(o + |Encode(o, k)|, q + |Encode(q, k)|, w);
  }

  lemma {:induction false} EncodeAllModulo8(off: nat, p: nat, vs: seq<Value>)
    requires off % 8 == p % 8
    ensures EncodeAll(off, vs) == EncodeAll(p, vs)
    ensures AllFit(off, vs) == AllFit(p, vs)
    decreases vs, 1
  {
    hide Encode, Fits;
    if vs != [] {
      EncodeModulo8(off, p, vs[0]);
      var n := |Encode(off, vs[0])|;
      SumModulo8(off, p, n);
      EncodeAllModulo8(off + n, p + n, vs[1..]);
    }
  }

  /** The codec round trip: a value written at any offset of a buffer is read
      back from any address of the same residue modulo 8. */
  lemma {:induction false} RoundTrip(off: nat, it: Iter, v: Value, rest: seq<Byte>)
    requires WellFormed(v) && Fits(off, v)
    requires off % 8 == it.pos % 8
    requires Holds(it.mem, it.pos, Encode(off, v)) && |Encode(off, v)| <= it.size
    requires it.sig == Show(TypeOf(v)) + rest
    ensures Read(it) == Some((v, it.Advance(|Encode(off, v)|).(sig := rest)))
  {
    EncodeModulo8(off, it.pos, v);
    ReadEncode(it, v, rest);
  }

  // -------------------------------------------------------------- skipping

  /** `j` stands where `i` stands and has at least as many bytes left. */
  predicate Ahead(i: Iter, j: Iter) {
    i.mem == j.mem && i.pos == j.pos && i.sig == j.sig && i.size <= j.size
  }

  lemma {:induction false} AheadGet(i: Iter, j: Iter, w: nat)
    requires Ahead(i, j) && IsBoundary(w) && i.Get(w).Some?
    ensures j.Get(w).Some? && j.Get(w).value.0 == i.Get(w).value.0
    ensures Ahead(i.Get(w).value.1, j.Get(w).value.1)
  {
    hide PadLen, WordValue;
  }

  lemma {:induction false} AheadPass(i: Iter, j: Iter, w: nat)
    requires Ahead(i, j) && IsBoundary(w) && i.Get(w).Some?
    ensures j.Pass(w).Some? && Ahead(i.Get(w).value.1, j.Pass(w).value)
  {
    hide PadLen, WordValue;
  }

  lemma {:induction false} AheadGetString(i: Iter, j: Iter, n: nat)
    requires Ahead(i, j) && i.GetString(n).Some?
    ensures j.GetString(n).Some? && j.GetString(n).value.0 == i.GetString(n).value.0
    ensures Ahead(i.GetString(n).value.1, j.GetString(n).value.1)
  {
  }

  lemma {:induction false} AheadBeginVariant(i: Iter, j: Iter)
    requires Ahead(i, j) && i.BeginVariant().Some?
    ensures j.BeginVariant().Some? && Ahead(i.BeginVariant().value, j.BeginVariant().value)
  {
    hide PadLen, Iter.Get, Iter.GetString, Boundary;
    var i0, j0 := i.Next(), j.Next();
    AheadGet(i0, j0, 1);
    var (n, i1) := i0.Get(1).value;
    AheadGetString(i1, j0.Get(1).value.1, n);
  }

  lemma {:induction false} AheadBeginArray(i: Iter, j: Iter)
    requires Ahead(i, j) && i.BeginArray().Some?
    ensures j.BeginArray().Some? && Ahead(i.BeginArray().value.0, j.BeginArray().value.0)
    ensures j.BeginArray().value.1 == i.BeginArray().value.1
    ensures j.BeginArray().value.2 == i.BeginArray().value.2
  {
    hide PadLen, Iter.Get, Boundary, RestOf;
    AheadGet(i.Next(), j.Next(), 4);
  }

  /** Skipping agrees with reading, on any memory: whenever the element by
      element read succeeds, the skip succeeds and stops at the same address
      and at the same letter. */
  lemma {:induction false} SkipAgrees(i: Iter, j: Iter)
    requires Ahead(i, j) && Read(i).Some?
    ensures Skip(j).Some? && Ahead(Read(i).value.1, Skip(j).value)
    decreases i.size, |i.sig|, 0
  {
    var c := i.Letter();
    if c == VARIANT_BEGIN {
      hide Iter.BeginVariant, ReadFields, ReadElems, SkipFields;
      AheadBeginVariant(i, j);
      SkipAgrees(i.BeginVariant().value, j.BeginVariant().value);
    } else if c == STRUCT_BEGIN {
      hide ReadFields, ReadElems, SkipFields, PadLen;
      SkipFieldsAgrees(i.Next().Align(8).value, j.Next().Align(8).value);
    } else if c == DICTENTRY_BEGIN {
      SkipEntryAgrees(i, j);
    } else {
      SkipLeafAgrees(i, j);
    }
  }

  lemma {:induction false} SkipLeafAgrees(i: Iter, j: Iter)
    requires Ahead(i, j) && Read(i).Some?
    requires i.Letter() !in {VARIANT_BEGIN, STRUCT_BEGIN, DICTENTRY_BEGIN}
    ensures Skip(j).Some? && Ahead(Read(i).value.1, Skip(j).value)
  {
    hide ReadFields, ReadElems, SkipFields, Iter.Get, Iter.Pass, Iter.GetString, Iter.BeginArray, Width, IsFixed;
    var c := i.Letter();
    if IsFixed(c) {
      AheadPass(i.Next(), j.Next(), Width(c));
    } else if c == ARRAY_BEGIN {
      AheadBeginArray(i, j);
    } else {
      var w := if IsText(c) then 4 else 1;
      AheadGet(i.Next(), j.Next(), w);
      var (n, i1) := i.Next().Get(w).value;
      AheadGetString(i1, j.Next().Get(w).value.1, n);
    }
  }

  lemma {:induction false} SkipEntryAgrees(i: Iter, j: Iter)
    requires Ahead(i, j) && Read(i).Some? && i.Letter() == DICTENTRY_BEGIN
    ensures Skip(j).Some? && Ahead(Read(i).value.1, Skip(j).value)
    decreases i.size, |i.sig|, -1
  {
    hide ReadFields, ReadElems, SkipFields, PadLen, Iter.BeginArray, Iter.BeginVariant, Iter.Get, Iter.GetString;
    var i1, j1 := i.Next().Align(8).value, j.Next().Align(8).value;
    SkipAgrees(i1, j1);
    SkipAgrees(Read(i1).value.1, Skip(j1).value);
  }

  lemma {:induction false} SkipFieldsAgrees(i: Iter, j: Iter)
    requires Ahead(i, j) && ReadFields(i).Some?
    ensures SkipFields(j).Some? && Ahead(ReadFields(i).value.1, SkipFields(j).value)
    decreases i.size, |i.sig|, 1
  {
    hide Read, Skip;
    if i.Letter() != STRUCT_END {
      SkipAgrees(i, j);
      SkipFieldsAgrees(Read(i).value.1, Skip(j).value);
    }
  }

  /** On the encoding of a value the skip ends right behind it. */
  lemma {:induction false} SkipEncode(it: Iter, v: Value, rest: seq<Byte>)
    requires At(it, v, rest)
    ensures Skip(it).Some? && Ahead(Behind(it, v, rest), Skip(it).value)
  {
    ReadEncode(it, v, rest);
    SkipAgrees(it, it);
  }
}
