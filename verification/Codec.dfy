/** The wire codec on values: what the writers append, what the readers
    return, and what skipping a value does.

    `Encode` is the marshaling format; `Read` follows the signature reader by
    reader; `Skip` is `adbus_iter_value`. */
module Codec {
  import opened Bytes
  import opened Signature

  /** ADBUS_MAXIMUM_ARRAY_LENGTH */
  const MAX_ARRAY: nat := 67108864

  // ---------------------------------------------------------------- values

  /** A marshaled value. Integers, booleans and doubles are carried as the word
      that the C code reinterprets; signed values and doubles are bit patterns. */
  datatype Value =
    | Fixed(code: FixedCode, n: nat)
    | Text(tcode: TextCode, text: seq<Byte>)
    | SigText(sig: seq<Byte>)
    | VariantOf(inner: Value)
    | ArrayOf(elem: Type, elems: seq<Value>)
    | StructOf(fields: seq<Value>)
    | EntryOf(key: Value, val: Value)

  function Width(c: FixedCode): (w: nat)
    ensures IsBoundary(w)
  {
    if c == UINT8 then 1
    else if c == INT16 || c == UINT16 then 2
    else if c == BOOLEAN || c == INT32 || c == UINT32 then 4
    else 8
  }

  function TypeOf(v: Value): (t: Type)
    decreases v, 0
  {
    match v
    case Fixed(c, _) => Basic(c)
    case Text(c, _) => Basic(c)
    case SigText(_) => Basic(SIGNATURE)
    case VariantOf(_) => Variant
    case ArrayOf(t, _) => Array(t)
    case StructOf(vs) => Struct(TypesOf(vs))
    case EntryOf(k, w) => DictEntry(TypeOf(k), TypeOf(w))
  }

  function TypesOf(vs: seq<Value>): (ts: seq<Type>)
    ensures |ts| == |vs|
    decreases vs
  {
    if vs == [] then [] else [TypeOf(vs[0])] + TypesOf(vs[1..])
  }

  /** The boundary of the first byte of a type, by the first letter of its
      signature (AlignField, adbus_iter_alignfield); none for other letters. */
  function Boundary(c: Byte): (r: Option<nat>)
    ensures r.Some? ==> IsBoundary(r.value)
  {
    if IsFixed(c) then Some(Width(c))
    else if IsText(c) || c == ARRAY_BEGIN then Some(4)
    else if c == SIGNATURE || c == VARIANT_BEGIN then Some(1)
    else if c == STRUCT_BEGIN || c == DICTENTRY_BEGIN then Some(8)
    else None
  }

  function AlignOf(t: Type): (b: nat)
    ensures IsBoundary(b)
  {
    match t
    case Basic(c) => if IsFixed(c) then Width(c) else if IsText(c) then 4 else 1
    case Variant => 1
    case Array(_) => 4
    case Struct(_) => 8
    case DictEntry(_, _) => 8
  }

  lemma BoundaryOfType(t: Type)
    ensures Boundary(Show(t)[0]) == Some(AlignOf(t))
  {
  }

  /** Values the writers accept: words in range, NUL free text, signatures of
      fewer than 255 bytes, arrays of one element type, no empty structs. */
  predicate WellFormed(v: Value)
    decreases v, 0
  {
    match v
    case Fixed(c, n) => n < Span(Width(c)) && (c == BOOLEAN ==> n <= 1)
    case Text(_, s) => NulFree(s) && |s| < 0x1_0000_0000
    case SigText(s) => NulFree(s) && |s| < 255
    case VariantOf(w) => WellFormed(w) && |Show(TypeOf(w))| < 255
    case ArrayOf(t, vs) => AllWellFormed(vs) && forall i :: 0 <= i < |vs| ==> TypeOf(vs[i]) == t
    case StructOf(vs) => vs != [] && AllWellFormed(vs)
    case EntryOf(k, w) => WellFormed(k) && WellFormed(w)
  }

  predicate AllWellFormed(vs: seq<Value>)
    decreases vs
  {
    vs == [] || (WellFormed(vs[0]) && AllWellFormed(vs[1..]))
  }

  // -------------------------------------------------------------- encoding

  /** The bytes that marshaling `v` appends to a buffer of `off` bytes. */
  function Encode(off: nat, v: Value): (bs: seq<Byte>)
    decreases v, 0
  {
    match v
    case Fixed(c, n) => Pad(off, Width(c)) + Word(Width(c), n)
    case Text(_, s) => Pad(off, 4) + Word(4, |s|) + s + [0]
    case SigText(s) => [|s| % 256] + s + [0]
    case VariantOf(w) =>
      var s := Show(TypeOf(w));
      [|s| % 256] + s + [0] + Encode(off + |s| + 2, w)
    case ArrayOf(t, vs) =>
      var head := Pad(off, 4) + Word(4, |ArrayBody(off, t, vs)|);
      head + Pad(off + |head|, AlignOf(t)) + ArrayBody(off, t, vs)
    case StructOf(vs) => Pad(off, 8) + EncodeAll(AlignUp(off, 8), vs)
    case EntryOf(k, w) =>
      var head := Pad(off, 8) + Encode(AlignUp(off, 8), k);
      head + Encode(off + |head|, w)
  }

  function EncodeAll(off: nat, vs: seq<Value>): (bs: seq<Byte>)
    decreases vs, 0
  {
    if vs == [] then [] else
    var head := Encode(off, vs[0]);
    head + EncodeAll(off + |head|, vs[1..])
  }

  /** Where the elements of an array written at `off` start. */
  function BodyStart(off: nat, t: Type): (p: nat)
    ensures p >= off + 4
  {
    AlignUp(AlignUp(off, 4) + 4, AlignOf(t))
  }

  function ArrayBody(off: nat, t: Type, vs: seq<Value>): (bs: seq<Byte>)
    decreases vs, 1
  {
    EncodeAll(BodyStart(off, t), vs)
  }

  /** No array of `v`, written at `off`, exceeds the array limit. */
  predicate Fits(off: nat, v: Value)
    decreases v, 0
  {
    match v
    case Fixed(_, _) => true
    case Text(_, _) => true
    case SigText(_) => true
    case VariantOf(w) => Fits(off + |Show(TypeOf(w))| + 2, w)
    case ArrayOf(t, vs) => |ArrayBody(off, t, vs)| <= MAX_ARRAY && AllFit(BodyStart(off, t), vs)
    case StructOf(vs) => AllFit(AlignUp(off, 8), vs)
    case EntryOf(k, w) =>
      && Fits(AlignUp(off, 8), k)
      && Fits(AlignUp(off, 8) + |Encode(AlignUp(off, 8), k)|, w)
  }

  predicate AllFit(off: nat, vs: seq<Value>)
    decreases vs
  {
    vs == [] || (Fits(off, vs[0]) && AllFit(off + |Encode(off, vs[0])|, vs[1..]))
  }

  // --------------------------------------------------------------- reading

  /** adbus_Iterator: memory, the current address, the bytes left and the
      signature left. Addresses index memory, so an address is aligned when its
      index is. A look outside of the memory is a failure here; the predicates of
      module Outside tell it from the failures of the source. */
  datatype Iter = Iter(mem: seq<Byte>, pos: nat, size: nat, sig: seq<Byte>) {
    function Advance(n: nat): (it: Iter)
      requires n <= size
    {
      this.(pos := pos + n, size := size - n)
    }

    /** adbus_iter_align */
    function Align(b: nat): (r: Option<Iter>)
      requires IsBoundary(b)
    {
      if size < PadLen(pos, b) then None else Some(Advance(PadLen(pos, b)))
    }

    /** adbus_iter_alignfield */
    function AlignField(c: Byte): (r: Option<Iter>)
      ensures r.Some? ==> r.value.size <= size && r.value.sig == sig
    {
      var b :- Boundary(c);
      Align(b)
    }

    /** *i->sig, with the terminator at the end */
    function Letter(): Byte {
      if sig == [] then 0 else sig[0]
    }

    function Next(): (it: Iter)
      requires sig != []
    {
      this.(sig := sig[1..])
    }

    /** adbusI_iter_sig */
    function Sig(c: Byte): (r: Option<Iter>)
      requires c != 0
      ensures r.Some? ==> |r.value.sig| < |sig| && r.value.size == size
    {
      if Letter() == c then Some(Next()) else None
    }

    /** adbusI_iter_get8/16/32/64 */
    function Get(w: nat): (r: Option<(nat, Iter)>)
      requires IsBoundary(w)
      ensures r.Some? ==> r.value.1.size < size && r.value.1.sig == sig && r.value.1.pos >= pos
    {
      var it :- Align(w);
      if it.size < w || it.pos + w > |mem| then None
      else Some((WordValue(mem[it.pos..it.pos + w]), it.Advance(w)))
    }

    /** The same without a look at the word, for a null result pointer */
    function Pass(w: nat): (r: Option<Iter>)
      requires IsBoundary(w)
      ensures r.Some? ==> r.value.size < size && r.value.sig == sig && r.value.pos >= pos
    {
      var it :- Align(w);
      if it.size < w then None else Some(it.Advance(w))
    }

    /** adbusI_iter_getstring */
    function GetString(n: nat): (r: Option<(seq<Byte>, Iter)>)
      ensures r.Some? ==> r.value.1.size < size && r.value.1.sig == sig && r.value.1.pos >= pos
    {
      if size < n + 1 || pos + n + 1 > |mem| then None
      else
        var s := mem[pos..pos + n];
        if NulFree(s) && mem[pos + n] == 0 then Some((s, Advance(n + 1))) else None
    }

    /** adbus_iter_beginvariant: the iterator on the variant's own signature */
    function BeginVariant(): (r: Option<Iter>)
      ensures r.Some? ==> r.value.size < size && r.value.sig != [] && r.value.pos >= pos
    {
      var i0 :- Sig(VARIANT_BEGIN);
      var (n, i1) :- i0.Get(1);
      var (vsig, i2) :- i1.GetString(n);
      i2.(sig := vsig).AlignField(if vsig == [] then 0 else vsig[0])
    }

    /** adbus_iter_beginarray: the iterator at the first element, the length of
        the array data and the signature behind the array */
    function BeginArray(): (r: Option<(Iter, nat, seq<Byte>)>)
      ensures r.Some? ==> r.value.0.mem == mem && r.value.0.size < size && |r.value.0.sig| < |sig| && |r.value.2| < |sig|
      ensures r.Some? ==> r.value.0.pos >= pos + 4
      ensures r.Some? ==> ParseType(r.value.0.sig).Some? && r.value.2 == ParseType(r.value.0.sig).value.1
    {
      var i0 :- Sig(ARRAY_BEGIN);
      var (n, i1) :- i0.Get(4);
      if n > MAX_ARRAY then None else
      var i2 :- i1.AlignField(i1.Letter());
      var rest :- RestOf(i2.sig);
      Some((i2, n, rest))
    }
  }

  /** Reading one value, element by element, as the signature directs. */
  function Read(it: Iter): (r: Option<(Value, Iter)>)
    ensures r.Some? ==> r.value.1.mem == it.mem && r.value.1.size <= it.size && |r.value.1.sig| < |it.sig|
    decreases it.size, |it.sig|, 0
  {
    var c := it.Letter();
    if IsFixed(c) then
      var i0 := it.Next();
      var (n, i1) :- i0.Get(Width(c));
      Some((Fixed(c, n), i1))
    else if IsText(c) then
      var i0 := it.Next();
      var (n, i1) :- i0.Get(4);
      var (s, i2) :- i1.GetString(n);
      Some((Text(c, s), i2))
    else if c == SIGNATURE then
      var i0 := it.Next();
      var (n, i1) :- i0.Get(1);
      var (s, i2) :- i1.GetString(n);
      Some((SigText(s), i2))
    else if c == VARIANT_BEGIN then
      var i0 :- it.BeginVariant();
      var (v, i1) :- Read(i0);
      if i1.sig != [] then None else Some((VariantOf(v), i1.(sig := it.sig[1..])))
    else if c == ARRAY_BEGIN then
      var (i0, n, rest) :- it.BeginArray();
      var (vs, i1) :- ReadElems(i0, i0.pos + n);
      Some((ArrayOf(ParseType(i0.sig).value.0, vs), i1.(pos := i0.pos + n, sig := rest)))
    else if c == STRUCT_BEGIN then
      var i0 := it.Next();
      var i1 :- i0.Align(8);
      var (vs, i2) :- ReadFields(i1);
      Some((StructOf(vs), i2))
    else if c == DICTENTRY_BEGIN then
      var i0 := it.Next();
      var i1 :- i0.Align(8);
      var (k, i2) :- Read(i1);
      var (w, i3) :- Read(i2);
      var i4 :- i3.Sig(DICTENTRY_END);
      Some((EntryOf(k, w), i4))
    else None
  }

  /** The fields of a struct up to its closing bracket. */
  function ReadFields(it: Iter): (r: Option<(seq<Value>, Iter)>)
    ensures r.Some? ==> r.value.1.mem == it.mem && r.value.1.size <= it.size && |r.value.1.sig| < |it.sig|
    decreases it.size, |it.sig|, 1
  {
    if it.Letter() == STRUCT_END then
      Some(([], it.Next()))
    else
      var (v, i0) :- Read(it);
      var (vs, i1) :- ReadFields(i0);
      Some(([v] + vs, i1))
  }

  /** The elements of an array, while the iterator is in front of `end`
      (adbus_iter_inarray resets the signature before each). An element that
      consumes nothing would be read for ever; it is a failure here. */
  function ReadElems(it: Iter, end: nat): (r: Option<(seq<Value>, Iter)>)
    ensures r.Some? ==> r.value.1.mem == it.mem && r.value.1.size <= it.size
    decreases it.size, |it.sig|, 1
  {
    if it.pos >= end then Some(([], it))
    else
      var (v, i0) :- Read(it);
      if i0.size == it.size then None else
      var (vs, i1) :- ReadElems(i0.(sig := it.sig), end);
      Some(([v] + vs, i1))
  }

  /** adbus_iter_value: step over one value. Fixed words are passed without a look
      at them, and arrays are jumped over by their length, without a look at the
      elements and whatever the size that is left. */
  function Skip(it: Iter): (r: Option<Iter>)
    ensures r.Some? ==> r.value.mem == it.mem && r.value.size <= it.size && |r.value.sig| < |it.sig|
    ensures r.Some? ==> r.value.pos >= it.pos
    decreases it.size, |it.sig|, 0
  {
    var c := it.Letter();
    if IsFixed(c) then
      it.Next().Pass(Width(c))
    else if IsText(c) then
      var i0 := it.Next();
      var (n, i1) :- i0.Get(4);
      var (_, i2) :- i1.GetString(n);
      Some(i2)
    else if c == SIGNATURE then
      var i0 := it.Next();
      var (n, i1) :- i0.Get(1);
      var (_, i2) :- i1.GetString(n);
      Some(i2)
    else if c == VARIANT_BEGIN then
      var i0 :- it.BeginVariant();
      var i1 :- Skip(i0);
      if i1.sig != [] then None else Some(i1.(sig := it.sig[1..]))
    else if c == ARRAY_BEGIN then
      var (i0, n, rest) :- it.BeginArray();
      Some(i0.(pos := i0.pos + n, sig := rest))
    else if c == STRUCT_BEGIN then
      var i0 := it.Next();
      var i1 :- i0.Align(8);
      SkipFields(i1)
    else if c == DICTENTRY_BEGIN then
      var i0 := it.Next();
      var i1 :- i0.Align(8);
      var i2 :- Skip(i1);
      var i3 :- Skip(i2);
      i3.Sig(DICTENTRY_END)
    else None
  }

  function SkipFields(it: Iter): (r: Option<Iter>)
    ensures r.Some? ==> r.value.mem == it.mem && r.value.size <= it.size && |r.value.sig| < |it.sig|
    ensures r.Some? ==> r.value.pos >= it.pos
    decreases it.size, |it.sig|, 1
  {
    if it.Letter() == STRUCT_END then Some(it.Next())
    else
      var i0 :- Skip(it);
      SkipFields(i0)
  }
}
