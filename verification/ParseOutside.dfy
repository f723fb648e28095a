/** Where adbus_parse looks outside of its message. */
module ParseOutside {
  import opened Bytes
  import opened Signature
  import opened Codec
  import opened CodecLaws
  import opened Header
  import opened HeaderRewrite
  import opened Message
  import opened Outside
  import opened Overshoot
  import H = HeaderScan
  import P = Message

  /** The switch on the contents of one field */
  predicate ReadOutside(code: nat, it: Iter) {
    if code == HEADER_INVALID then false
    else if IsStringCode(code) then it.sig == [STRING] && LengthOutside(it.Next(), 4)
    else if code == HEADER_OBJECT_PATH then it.sig == [OBJECT_PATH] && LengthOutside(it.Next(), 4)
    else if code == HEADER_SIGNATURE then it.sig == [SIGNATURE] && LengthOutside(it.Next(), 1)
    else if code == HEADER_REPLY_SERIAL then it.sig == [UINT32] && WordOutside(it.Next(), 4)
    else SkipOutside(it)
  }

  /** The loop over the fields: some turn that it comes to looks outside. */
  predicate LoopOutside(m: Fields, it: Iter, end: nat)
    decreases it.size
  {
    it.pos < end
    && var i := it.(sig := FIELD_SIG);
    || PrefixOutside(i)
    || match BeginField(i)
       case None => false
       case Some((code, i0)) =>
         || ReadOutside(code, i0)
         || match ReadField(m, code, i0)
            case None => false
            case Some((m1, i1)) =>
              EndField(i1, [STRUCT_END]).Some? && LoopOutside(m1, EndField(i1, [STRUCT_END]).value, end)
  }

  predicate FieldsOutside(mem: seq<Byte>, p: nat, size: nat)
    requires size >= 16
  {
    var it := Iter(mem, p + 12, size - 12, FIELDS_SIG);
    || WordOutside(it.Next(), 4)
    || match it.BeginArray()
       case None => false
       case Some((i0, n, _)) => LoopOutside(NO_FIELDS, i0, i0.pos + n)
  }

  /** adbus_parse on the message `msg` looks at bytes that are not in it. */
  predicate ParseOutside(msg: seq<Byte>)
    requires |msg| >= 16
  {
    MSG_INVALID < msg[1] <= MSG_SIGNAL && FieldsOutside(msg, 0, |msg|)
  }

  // ---------------------------------------------------- looking inside alone

  lemma {:induction false} TypedSees(i: Iter, j: Iter, d: int, w: nat)
    requires Sees(i, j, d) && (w == if i.Letter() == SIGNATURE then 1 else 4)
    requires i.Letter() in {STRING, OBJECT_PATH, SIGNATURE} && !LengthOutside(i.Next(), w)
    ensures j.sig == i.sig && !LengthOutside(j.Next(), w)
    ensures Read(i).Some? <==> Read(j).Some?
    ensures Read(i).Some? ==> Read(j).value.0 == Read(i).value.0 && Sees(Read(i).value.1, Read(j).value.1, d)
  {
    hide Sees, LengthOutside, Iter.Get, Iter.GetString, Iter.BeginArray, Iter.BeginVariant, Iter.Align, ReadFields, ReadElems;
    SeesLetters(i, j, d);
    SeesLength(i.Next(), j.Next(), d, w);
  }

  lemma {:induction false} SerialSees(i: Iter, j: Iter, d: int)
    requires Sees(i, j, d) && i.Letter() == UINT32 && !WordOutside(i.Next(), 4)
    ensures j.sig == i.sig && !WordOutside(j.Next(), 4)
    ensures Read(i).Some? <==> Read(j).Some?
    ensures Read(i).Some? ==> Read(j).value.0 == Read(i).value.0 && Sees(Read(i).value.1, Read(j).value.1, d)
  {
    hide Sees, WordOutside, Iter.Get, Iter.GetString, Iter.BeginArray, Iter.BeginVariant, Iter.Align, ReadFields, ReadElems;
    SeesLetters(i, j, d);
    SeesWord(i.Next(), j.Next(), d, 4);
  }

  lemma {:induction false} ReadSees(m: Fields, code: nat, i: Iter, j: Iter, d: int)
    requires Sees(i, j, d) && !ReadOutside(code, i)
    ensures !ReadOutside(code, j)
    ensures ReadField(m, code, i).Some? <==> ReadField(m, code, j).Some?
    ensures ReadField(m, code, i).Some? ==>
              && ReadField(m, code, j).value.0 == ReadField(m, code, i).value.0
              && Sees(ReadField(m, code, i).value.1, ReadField(m, code, j).value.1, d)
  {
    hide Sees, Read, Skip, SkipOutside, LengthOutside, WordOutside;
    SeesLetters(i, j, d);
    if code == HEADER_INVALID {
    } else if IsStringCode(code) || code == HEADER_OBJECT_PATH || code == HEADER_SIGNATURE {
      if i.sig == [if IsStringCode(code) then STRING else if code == HEADER_OBJECT_PATH then OBJECT_PATH else SIGNATURE] {
        TypedSees(i, j, d, if code == HEADER_SIGNATURE then 1 else 4);
      }
    } else if code == HEADER_REPLY_SERIAL {
      if i.sig == [UINT32] {
        SerialSees(i, j, d);
      }
    } else {
      SkipSees(i, j, d);
    }
  }

  lemma {:induction false} LoopSees(m: Fields, i: Iter, j: Iter, d: int, end: nat)
    requires Sees(i, j, d) && end + d >= 0 && !LoopOutside(m, i, end)
    ensures !LoopOutside(m, j, end + d)
    ensures ReadFieldsLoop(m, i, end) == ReadFieldsLoop(m, j, end + d)
    decreases i.size
  {
    hide Sees, BeginField, ReadField, EndField, PrefixOutside, ReadOutside;
    SeesLetters(i, j, d);
    SeesPlace(i, j, d);
    if i.pos < end {
      var i', j' := i.(sig := FIELD_SIG), j.(sig := FIELD_SIG);
      BeginFieldSees(i', j', d);
      if BeginField(i').Some? {
        var (code, i0) := BeginField(i').value;
        var j0 := BeginField(j').value.1;
        ReadSees(m, code, i0, j0, d);
        if ReadField(m, code, i0).Some? {
          var (m1, i1) := ReadField(m, code, i0).value;
          var j1 := ReadField(m, code, j0).value.1;
          EndFieldSees(i1, j1, d, [STRUCT_END]);
          if EndField(i1, [STRUCT_END]).Some? {
            LoopSees(m1, EndField(i1, [STRUCT_END]).value, EndField(j1, [STRUCT_END]).value, d, end);
          }
        }
      }
    }
  }

  lemma {:induction false} SeesPlace(i: Iter, j: Iter, d: int)
    requires Sees(i, j, d)
    ensures j.pos == i.pos + d
  {
  }

  lemma {:induction false} MessageSees(msg: seq<Byte>, mem: seq<Byte>, p: nat)
    requires |msg| >= 16 && p % 8 == 0 && Holds(mem, p, msg)
    ensures Sees(Iter(msg, 12, |msg| - 12, FIELDS_SIG), Iter(mem, p + 12, |msg| - 12, FIELDS_SIG), p)
  {
    assert msg[12..] == mem[p + 12..][..|msg| - 12];
  }

  lemma {:induction false} FieldsSees(msg: seq<Byte>, mem: seq<Byte>, p: nat)
    requires |msg| >= 16 && p % 8 == 0 && Holds(mem, p, msg) && !FieldsOutside(msg, 0, |msg|)
    ensures !FieldsOutside(mem, p, |msg|) && P.ParseFields(mem, p, |msg|) == P.ParseFields(msg, 0, |msg|)
  {
    hide Sees, Holds, WordOutside, LoopOutside, ReadFieldsLoop, Iter.BeginArray;
    MessageSees(msg, mem, p);
    var i := Iter(msg, 12, |msg| - 12, FIELDS_SIG);
    var j := Iter(mem, p + 12, |msg| - 12, FIELDS_SIG);
    SeesArray(i, j, p);
    if i.BeginArray().Some? {
      var (i0, n, _) := i.BeginArray().value;
      SeesPlace(i0, j.BeginArray().value.0, p);
      LoopSees(NO_FIELDS, i0, j.BeginArray().value.0, p, i0.pos + n);
    }
  }

  /** A message that is parsed without a look outside of it is accepted, refused or
      ignored alike, and found to say the same, at every aligned address and whatever
      lies around it. The arguments, that the parser does not look at, are the bytes
      that lie there. */
  lemma {:induction false} InsideAnywhere(msg: seq<Byte>, mem: seq<Byte>, p: nat)
    requires |msg| >= 16 && !ParseOutside(msg) && p % 8 == 0 && Holds(mem, p, msg)
    ensures match Parse(msg, 0, |msg|)
            case Parsed(x) => Parse(mem, p, |msg|).Parsed? && Parse(mem, p, |msg|).msg.(args := x.args) == x
            case r => Parse(mem, p, |msg|) == r
  {
    hide FieldsOutside, P.ParseFields, WordValue, Complete, PadLen;
    assert mem[p..p + 16] == msg[0..16] by {
      assert mem[p..p + |msg|][0..16] == mem[p..p + 16];
    }
    if MSG_INVALID < msg[1] <= MSG_SIGNAL {
      FieldsSees(msg, mem, p);
    }
  }

  // --------------------------------------------------------- looking outside

  lemma {:induction false} ReadFails(m: Fields, code: nat, it: Iter)
    requires ReadOutside(code, it)
    ensures ReadField(m, code, it).None?
  {
    hide SkipOutside, Skip, LengthOutside, WordOutside;
    if !IsStringCode(code) && code !in {HEADER_OBJECT_PATH as nat, HEADER_SIGNATURE as nat, HEADER_REPLY_SERIAL as nat} {
      OutsideFails(it);
    } else if code == HEADER_REPLY_SERIAL {
      SerialFails(it);
    } else {
      TypedFails(it);
    }
  }

  lemma {:induction false} SerialFails(it: Iter)
    requires it.Letter() == UINT32 && WordOutside(it.Next(), 4)
    ensures Read(it).None?
  {
    hide PadLen, ReadFields, ReadElems;
  }

  lemma {:induction false} TypedFails(it: Iter)
    requires it.Letter() in {STRING, OBJECT_PATH, SIGNATURE}
    requires LengthOutside(it.Next(), if it.Letter() == SIGNATURE then 1 else 4)
    ensures Read(it).None?
  {
    hide ReadFields, ReadElems, LengthOutside, Iter.Get, Iter.GetString;
    LengthFails(it.Next(), if it.Letter() == SIGNATURE then 1 else 4);
  }

  lemma {:induction false} PrefixFails(it: Iter)
    requires PrefixOutside(it)
    ensures BeginField(it).None?
  {
    hide VariantOutside, Iter.BeginVariant, PadLen;
    var i3 := it.Next().Align(8).value.Next();
    if i3.Get(1).Some? && i3.Get(1).value.1.BeginVariant().Some? {
      VariantFails(i3.Get(1).value.1);
    }
  }

  lemma {:induction false} LoopFails(m: Fields, it: Iter, end: nat)
    requires LoopOutside(m, it, end)
    ensures ReadFieldsLoop(m, it, end).None?
    decreases it.size
  {
    hide BeginField, ReadField, EndField, PrefixOutside, ReadOutside;
    var i := it.(sig := FIELD_SIG);
    if PrefixOutside(i) {
      PrefixFails(i);
    } else {
      var (code, i0) := BeginField(i).value;
      if ReadOutside(code, i0) {
        ReadFails(m, code, i0);
      } else {
        var (m1, i1) := ReadField(m, code, i0).value;
        LoopFails(m1, EndField(i1, [STRUCT_END]).value, end);
      }
    }
  }

  /** A message that makes the parser look outside of it is not accepted for what it
      holds. */
  lemma {:induction false} OutsideRefused(msg: seq<Byte>)
    requires |msg| >= 16 && ParseOutside(msg)
    ensures Parse(msg, 0, |msg|) == Malformed
  {
    hide WordOutside, LoopOutside, ReadFieldsLoop, Iter.BeginArray, WordValue, Complete, PadLen;
    var it := Iter(msg, 12, |msg| - 12, FIELDS_SIG);
    if it.BeginArray().Some? {
      if WordOutside(it.Next(), 4) {
        ArrayFails(it);
      } else {
        var (i0, n, _) := it.BeginArray().value;
        LoopFails(NO_FIELDS, i0, i0.pos + n);
      }
    }
  }

  // ---------------------------------------------------- well-formed messages

  /** In front of the contents of a field the switch does not look outside, not even
      when it refuses the field. */
  lemma {:induction false} FieldInside(f: Field, it: Iter)
    requires At(it, f.value, [])
    ensures !ReadOutside(f.code, it)
  {
    hide Read, Skip, Encode, At, Show, TypeOf, SkipOutside, LengthOutside, WordOutside;
    ReadEncode(it, f.value, []);
    SkipEncode(it, f.value, []);
    if ReadOutside(f.code, it) {
      if SkipOutside(it) {
        OutsideFails(it);
      } else if f.code == HEADER_REPLY_SERIAL {
        SerialFails(it);
      } else {
        TypedFails(it);
      }
    }
  }

  lemma {:induction false} LoopInside(m: Fields, it: Iter, end: nat, fs: seq<Field>)
    requires GoodFields(fs)
    requires Holds(it.mem, it.pos, EncodeAll(it.pos, Values(fs))) && |EncodeAll(it.pos, Values(fs))| <= it.size
    requires end == it.pos + |EncodeAll(it.pos, Values(fs))|
    ensures !LoopOutside(m, it, end)
    decreases fs
  {
    hide Encode, BeginField, EndField, ReadField, Holds, GoodFields, Apply, PrefixOutside, ReadOutside;
    if fs != [] {
      var f := fs[0];
      var at := it.(sig := FIELD_SIG);
      LoopTurn(at, fs);
      AtField(at, f, []);
      if PrefixOutside(at) { PrefixFails(at); }
      var i0 := BeginField(at).value.1;
      FieldInside(f, i0);
      ReadFieldMeaning(m, f, i0);
      if Apply(m, f).Some? {
        assert [STRUCT_END] + [] == [STRUCT_END];
        var i1 := ReadField(m, f.code, i0).value.1;
        AheadEndField(Behind(i0, f.value, []), i1);
        LoopInside(Apply(m, f).value, EndField(i1, [STRUCT_END]).value, end, fs[1..]);
      }
    }
  }

  /** No well-formed message makes the parser look outside of it, whether it accepts
      the message or not. */
  lemma {:induction false} WellFormedInside(fixed: seq<Byte>, fs: seq<Field>, args: seq<Byte>)
    requires |fixed| == 12 && WordValue(fixed[4..8]) == |args| && GoodFields(fs) && |Body(fs)| <= MAX_ARRAY
    ensures var msg := Whole(fixed, fs) + args;
            |msg| >= 16 && !ParseOutside(msg)
  {
    FieldsText();
    FieldsStart();
    hide Body, Chunks, Word, WordValue, PadLen, GoodFields, Whole, Holds, Show, BodyStart, LoopOutside, Iter.BeginArray,
         WordOutside;
    var mem := Whole(fixed, fs) + args;
    assert Holds(mem, 0, mem) by { AllHeld(mem); }
    MessageParts(mem, 0, fixed, fs, args);
    var n := |Body(fs)|;
    SumModulo8(0, 0, 12);
    PadModulo8(12, 12, 4);
    BodyStartModulo8(12, 12, FIELD);
    var it := Iter(mem, 12, |mem| - 12, FIELDS_SIG);
    assert [] + Word(4, n) == Word(4, n);
    assert FIELDS_SIG + [] == FIELDS_SIG && FIELD_SIG + [] == FIELD_SIG;
    BodySize(fs);
    BeginArrayHeld(it, FIELD, n, []);
    if WordOutside(it.Next(), 4) { ArrayFails(it); }
    BodyAnywhere(16, fs);
    LoopInside(NO_FIELDS, it.BeginArray().value.0, 16 + n, fs);
  }

  lemma {:induction false} AllHeld(mem: seq<Byte>)
    ensures Holds(mem, 0, mem)
  {
  }

  // --------------------------------------------------- a message that is not

  /** One field of an unknown code, a struct of an array of bytes and a string; the
      array declares 100 bytes where four are left. */
  const BEHIND: seq<Byte> := [
    108, 1, 0, 1,   0, 0, 0, 0,   1, 0, 0, 0,   16, 0, 0, 0,
    9, 5, 40, 97,   121, 115, 41, 0,   100, 0, 0, 0,   0, 0, 0, 0]

  lemma {:induction false} BehindPrefix()
    ensures BeginField(Iter(BEHIND, 16, 16, FIELD_SIG))
         == Some((9, Iter(BEHIND, 24, 8, [STRUCT_BEGIN, ARRAY_BEGIN, UINT8, STRING, STRUCT_END])))
  {
    var i0 := Iter(BEHIND, 16, 16, FIELD_SIG);
    var i1 := Iter(BEHIND, 16, 16, FIELD_SIG[1..]);
    assert i0.Next() == i1 && i1.Align(8) == Some(i1);
    var i2 := i1.Next();
    assert i2.sig == [VARIANT_BEGIN, STRUCT_END];
    assert i2.Get(1) == Some((9, Iter(BEHIND, 17, 15, i2.sig))) by {
      H.OneByte(BEHIND, 16);
    }
    BehindVariant(Iter(BEHIND, 17, 15, i2.sig));
  }

  lemma {:induction false} BehindVariant(it: Iter)
    requires it == Iter(BEHIND, 17, 15, [VARIANT_BEGIN, STRUCT_END])
    ensures it.BeginVariant() == Some(Iter(BEHIND, 24, 8, [STRUCT_BEGIN, ARRAY_BEGIN, UINT8, STRING, STRUCT_END]))
  {
    hide WordValue;
    H.OneByte(BEHIND, 17);
    var i0 := Iter(BEHIND, 17, 15, [STRUCT_END]);
    assert it.Next() == i0;
    var i1 := Iter(BEHIND, 18, 14, [STRUCT_END]);
    assert i0.Get(1) == Some((5, i1));
    assert BEHIND[18..23] == [40, 97, 121, 115, 41];
    assert i1.GetString(5) == Some(([40, 97, 121, 115, 41], Iter(BEHIND, 24, 8, [STRUCT_END])));
  }

  /** The array takes the skip to where there is nothing, with four bytes left. */
  lemma {:induction false} BehindArray()
    ensures Skip(Iter(BEHIND, 24, 8, [ARRAY_BEGIN, UINT8, STRING, STRUCT_END]))
         == Some(Iter(BEHIND, 128, 4, [STRING, STRUCT_END]))
  {
    var it := Iter(BEHIND, 24, 8, [ARRAY_BEGIN, UINT8, STRING, STRUCT_END]);
    assert it.Next() == Iter(BEHIND, 24, 8, [UINT8, STRING, STRUCT_END]);
    assert WordValue(BEHIND[24..28]) == 100 by {
      assert BEHIND[24..28] == [100, 0, 0, 0];
      H.FourBytes([100, 0, 0, 0]);
    }
    assert it.Next().Get(4) == Some((100, Iter(BEHIND, 28, 4, [UINT8, STRING, STRUCT_END])));
    ParseShow(Basic(UINT8), [STRING, STRUCT_END]);
    assert Show(Basic(UINT8)) + [STRING, STRUCT_END] == [UINT8, STRING, STRUCT_END];
  }

  lemma {:induction false} BehindStruct()
    ensures SkipOutside(Iter(BEHIND, 24, 8, [STRUCT_BEGIN, ARRAY_BEGIN, UINT8, STRING, STRUCT_END]))
  {
    hide Skip, Iter.BeginArray, Iter.BeginVariant, WordValue;
    BehindArray();
    var it := Iter(BEHIND, 24, 8, [STRUCT_BEGIN, ARRAY_BEGIN, UINT8, STRING, STRUCT_END]);
    var i0 := Iter(BEHIND, 24, 8, [ARRAY_BEGIN, UINT8, STRING, STRUCT_END]);
    assert it.Next() == i0 && i0.Align(8) == Some(i0);
    var i1 := Iter(BEHIND, 128, 4, [STRING, STRUCT_END]);
    assert SkipOutside(i1) by {
      assert i1.Next() == Iter(BEHIND, 128, 4, [STRUCT_END]);
      assert WordOutside(i1.Next(), 4);
    }
    assert SkipFieldsOutside(i1);
    assert SkipFieldsOutside(i0);
  }

  /** This message makes the parser look outside of it. */
  lemma {:induction false} ArrayLeadsOut()
    ensures ParseOutside(BEHIND) && Parse(BEHIND, 0, |BEHIND|) == Malformed
  {
    hide Parse, BeginField, ReadField, EndField, PrefixOutside, SkipOutside, WordValue, Iter.BeginArray;
    BehindPrefix();
    BehindStruct();
    assert WordValue(BEHIND[12..16]) == 16 by {
      assert BEHIND[12..16] == [16, 0, 0, 0];
      H.FourBytes([16, 0, 0, 0]);
    }
    ArrayFound(BEHIND, 16);
    var it := Iter(BEHIND, 16, 16, FIELD_SIG);
    assert it.(sig := FIELD_SIG) == it;
    assert LoopOutside(NO_FIELDS, it, 32);
    OutsideRefused(BEHIND);
  }
}
