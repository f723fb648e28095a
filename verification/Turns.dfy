/** Single turns of the message parser's loop over the header fields */
module Turns {
  import opened Bytes
  import opened Signature
  import opened Codec
  import opened CodecLaws
  import opened Header
  import opened HeaderRewrite
  import opened Message

  /** One turn: over a field, without the padding behind it */
  function Turn(m: Fields, j: Iter): (r: Option<(Fields, Iter)>)
  {
    var (code, j0) :- BeginField(j.(sig := FIELD_SIG));
    var (m1, j1) :- ReadField(m, code, j0);
    var j2 :- EndField(j1, [STRUCT_END]);
    Some((m1, j2))
  }

  lemma {:induction false} LoopIsTurn(m: Fields, j: Iter, e: nat)
    ensures j.pos >= e ==> ReadFieldsLoop(m, j, e) == Some(m)
    ensures j.pos < e ==>
              ReadFieldsLoop(m, j, e) == match Turn(m, j)
                                         case None => None
                                         case Some((m1, j2)) => ReadFieldsLoop(m1, j2, e)
  {
    hide BeginField, ReadField, EndField;
  }

  lemma {:induction false} BeginAligned(it: Iter)
    requires BeginField(it).Some?
    ensures it.Align(8).Some? && BeginField(it.Align(8).value) == BeginField(it)
    ensures it.Align(8).value.mem == it.mem && it.Align(8).value.sig == it.sig
    ensures it.Align(8).value.pos == AlignUp(it.pos, 8)
  {
    hide Iter.Get, Iter.BeginVariant, PadLen;
    AlignedPad(it.pos);
    var a := it.Align(8).value;
    assert it.Next().Align(8).value == a.Next();
    assert a.Next().Align(8).value == a.Next();
  }

  lemma {:induction false} AlignedPad(off: nat)
    ensures AlignUp(off, 8) % 8 == 0 && PadLen(AlignUp(off, 8), 8) == 0
    ensures off <= AlignUp(off, 8) < off + 8
  {
  }

  lemma {:induction false} BeginFromPadding(j: Iter)
    requires j.sig == FIELD_SIG && j.Align(8).Some? && BeginField(j.Align(8).value).Some?
    ensures BeginField(j) == BeginField(j.Align(8).value)
  {
    hide Iter.Get, Iter.BeginVariant, PadLen;
    AlignedPad(j.pos);
    var a := j.Align(8).value;
    assert j.Next().Align(8).value == a.Next();
    assert a.Next().Align(8).value == a.Next();
  }

  /** The parser over a good field, from the padding in front of it */
  lemma {:induction false} GoodTurn(m: Fields, j: Iter, f: Field) returns (j2: Iter)
    requires GoodField(f) && Apply(m, f).Some?
    requires var p := AlignUp(j.pos, 8);
             Holds(j.mem, p, Encode(0, f.ToValue())) && p + |Encode(0, f.ToValue())| <= j.pos + j.size
    ensures Turn(m, j) == Some((Apply(m, f).value, j2))
    ensures j2.mem == j.mem && j2.pos == AlignUp(j.pos, 8) + |Encode(0, f.ToValue())|
    ensures j2.pos + j2.size >= j.pos + j.size
  {
    hide BeginField, ReadField, Encode, Holds, At, PadLen, Apply, EndField, Ahead, Behind, GoodField;
    AlignedPad(j.pos);
    var p := AlignUp(j.pos, 8);
    var j' := j.(sig := FIELD_SIG);
    var a := Iter(j.mem, p, j.size - (p - j.pos), FIELD_SIG);
    assert j'.Align(8) == Some(a);
    FieldAt(a, f);
    AtField(a, f, []);
    BeginFromPadding(j');
    var i0 := BeginField(a).value.1;
    ReadFieldMeaning(m, f, i0);
    AtSize(i0, f.value);
    var (m1, i1) := ReadField(m, f.code, i0).value;
    assert [STRUCT_END] + [] == [STRUCT_END];
    AheadEndField(Behind(i0, f.value, []), i1);
    j2 := EndField(i1, [STRUCT_END]).value;
    AheadParts(EndField(Behind(i0, f.value, []), [STRUCT_END]).value, j2);
    BehindParts(a, f);
  }

  lemma {:induction false} FieldAt(a: Iter, f: Field)
    requires GoodField(f) && a.pos % 8 == 0 && a.sig == FIELD_SIG
    requires Holds(a.mem, a.pos, Encode(0, f.ToValue())) && |Encode(0, f.ToValue())| <= a.size
    ensures At(a, f.ToValue(), []) && Encode(a.pos, f.ToValue()) == Encode(0, f.ToValue())
  {
    GoodFieldWellFormed(f);
    FieldText(f);
    hide Encode, PadLen, Show, TypeOf, WellFormed, Holds, Codec.Fits;
    EncodeModulo8(a.pos, 0, f.ToValue());
    assert FIELD_SIG + [] == FIELD_SIG;
  }

  lemma {:induction false} AtSize(it: Iter, v: Value)
    requires At(it, v, [])
    ensures |Encode(it.pos, v)| <= it.size
  {
  }

  lemma {:induction false} AheadParts(i: Iter, j: Iter)
    requires Ahead(i, j)
    ensures i.mem == j.mem && i.pos == j.pos && i.size <= j.size
  {
  }

  lemma {:induction false} BehindParts(a: Iter, f: Field)
    requires |Encode(a.pos, f.ToValue())| <= a.size
    ensures var b := Behind(a, f.ToValue(), []);
            && b.mem == a.mem && b.pos == a.pos + |Encode(a.pos, f.ToValue())|
            && b.size == a.size - |Encode(a.pos, f.ToValue())|
  {
    hide Encode;
  }

  lemma {:induction false} ChunkStarts(mem: seq<Byte>, p: nat, f: Field)
    requires Holds(mem, p, Chunk(f))
    ensures Holds(mem, p, Encode(0, f.ToValue()))
  {
    hide Encode, Holds;
    var e := Encode(0, f.ToValue());
    HoldsConcat(mem, p, e, Pad(|e|, 8));
  }
}
