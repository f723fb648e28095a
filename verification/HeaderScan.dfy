/** What FixHeaders does to a header of any content: its loop, which deletes from
    the buffer it iterates over, is one pass over the intact header. The pass says
    when the source leaves its buffer. */
module HeaderScan {
  import opened Bytes
  import opened Signature
  import opened Codec
  import opened CodecLaws
  import opened Header
  import opened Outside
  import opened HeaderRewrite

  /** The outcome of the pass: the bytes behind the fixed part that stay, or a field
      that does not parse, or one that reaches behind the header where the source
      looks at it or deletes it */
  datatype Verdict = Fits(kept: seq<Byte>) | Unparsed | Beyond

  /** A pass over the fields, without a deletion */
  function Scan(it: Iter, end: nat): (r: Verdict)
    decreases it.size
  {
    if it.pos >= end then Fits(Tail(it.mem, it.pos))
    else
      match SkipField(it.(sig := FIELD_SIG))
      case None => if FieldOutside(it.(sig := FIELD_SIG)) then Beyond else Unparsed
      case Some((code, i0)) =>
        if code == HEADER_SENDER then
          if i0.pos > |it.mem| then Beyond else Scan(i0, end)
        else
          match Scan(i0, end)
          case Unparsed => Unparsed
          case Beyond => Beyond
          case Fits(rest) => Fits(Between(it.mem, it.pos, i0.pos) + rest)
  }

  /** The bytes between two positions, as far as there are any */
  function Between(mem: seq<Byte>, p: nat, q: nat): seq<Byte> {
    if q <= |mem| && p <= q then mem[p..q] else Tail(mem, p)
  }

  /** `j` sees exactly what `i` sees, `d` bytes further on. */
  predicate Same(i: Iter, j: Iter, d: int) {
    Sees(i, j, d) && Sees(j, i, -d)
  }

  lemma {:induction false} SameMemory(i: Iter, j: Iter, d: int)
    requires Same(i, j, d)
    ensures |j.mem| == |i.mem| + d && Tail(i.mem, i.pos) == Tail(j.mem, j.pos)
    ensures j.pos == i.pos + d && i.size == j.size && i.sig == j.sig && d % 8 == 0
    ensures Same(i.(sig := FIELD_SIG), j.(sig := FIELD_SIG), d)
  {
  }

  lemma {:induction false} FieldSees(i: Iter, j: Iter, d: int)
    requires Sees(i, j, d) && !FieldOutside(i)
    ensures !FieldOutside(j)
    ensures SkipField(i).Some? <==> SkipField(j).Some?
    ensures SkipField(i).Some? ==>
              SkipField(i).value.0 == SkipField(j).value.0 && Sees(SkipField(i).value.1, SkipField(j).value.1, d)
  {
    hide Sees, BeginField, EndField, Skip, SkipOutside, PrefixOutside, Iter.Align;
    BeginFieldSees(i, j, d);
    if BeginField(i).Some? {
      var i0, j0 := BeginField(i).value.1, BeginField(j).value.1;
      SkipSees(i0, j0, d);
      if Skip(i0).Some? {
        var i1, j1 := Skip(i0).value, Skip(j0).value;
        EndFieldSees(i1, j1, d, [STRUCT_END]);
        if EndField(i1, [STRUCT_END]).Some? {
          SeesPad(EndField(i1, [STRUCT_END]).value, EndField(j1, [STRUCT_END]).value, d, 8);
        }
      }
    }
  }

  /** One turn of the two loops */
  lemma {:induction false} SameTurn(i: Iter, j: Iter, d: int)
    requires Same(i, j, d)
    ensures FieldOutside(i) <==> FieldOutside(j)
    ensures !FieldOutside(i) ==> (SkipField(i).Some? <==> SkipField(j).Some?)
    ensures !FieldOutside(i) && SkipField(i).Some? ==>
              SkipField(i).value.0 == SkipField(j).value.0 && Same(SkipField(i).value.1, SkipField(j).value.1, d)
  {
    hide Sees, FieldOutside, SkipField;
    if !FieldOutside(i) {
      FieldSees(i, j, d);
    }
    if !FieldOutside(j) {
      FieldSees(j, i, -d);
    }
  }

  /** A field that looks outside does not parse within the memory. */
  lemma {:induction false} FieldFails(it: Iter)
    requires FieldOutside(it)
    ensures SkipField(it).None?
  {
    hide Skip, SkipOutside, EndField, Iter.BeginVariant, Iter.Get, Iter.Align, VariantOutside, WordOutside;
    if BeginField(it).Some? {
      if PrefixOutside(it) {
        PrefixFails(it);
      } else {
        OutsideFails(BeginField(it).value.1);
      }
    }
  }

  lemma {:induction false} PrefixFails(it: Iter)
    requires PrefixOutside(it)
    ensures BeginField(it).None?
  {
    hide PadLen, VariantOutside, Iter.BeginVariant, WordValue;
    if BeginField(it).Some? {
      VariantFails(it.Next().Align(8).value.Next().Get(1).value.1);
    }
  }

  lemma {:induction false} FieldAligned(it: Iter)
    requires SkipField(it).Some?
    ensures SkipField(it).value.1.pos % 8 == 0
  {
    hide BeginField, Skip, EndField;
    var i2 := EndField(Skip(BeginField(it).value.1).value, [STRUCT_END]).value;
    AlignedResidue(i2.pos);
  }

  /** A cut of what lies between the field and the iterator behind it changes
      nothing for what is still to come. */
  lemma {:induction false} SameCut(i: Iter, j: Iter, d: int, p: nat)
    requires Same(i, j, d) && p <= j.pos <= |j.mem| && p % 8 == 0 && j.pos % 8 == 0
    ensures var mem := j.mem[..p] + j.mem[j.pos..];
            Same(i, j.(mem := mem, pos := p), d - (j.pos - p))
  {
    var mem := j.mem[..p] + j.mem[j.pos..];
    assert mem[p..] == j.mem[j.pos..];
  }

  /** The loop that deletes under its iterator does what one pass over the intact
      fields says. */
  lemma {:induction false} LoopIsScan(i: Iter, j: Iter, end: nat, d: int)
    requires Same(i, j, d) && j.pos >= 16 && end + d >= 0 && end + d <= |j.mem| <= end + d + 7
    requires j.pos % 8 == 0 && j.pos <= |j.mem|
    ensures StripLoop(j, end + d) ==
            match Scan(i, end)
            case Unparsed => Rejected
            case Beyond => Overrun
            case Fits(kept) => Rewritten(j.mem[..j.pos] + kept)
    decreases j.size
  {
    hide SkipField, FieldOutside, Same, Tail;
    SameMemory(i, j, d);
    if i.pos >= end {
      WholeTail(j.mem, j.pos);
    } else {
      var i', j' := i.(sig := FIELD_SIG), j.(sig := FIELD_SIG);
      SameTurn(i', j', d);
      if FieldOutside(i') {
        FieldFails(i');
        FieldFails(j');
      } else if SkipField(i').Some? {
        var i0, j0 := SkipField(i').value.1, SkipField(j').value.1;
        SameMemory(i0, j0, d);
        FieldAligned(j');
        if SkipField(i').value.0 == HEADER_SENDER {
          if i0.pos <= |i.mem| {
            SameCut(i0, j0, d, j.pos);
            var mem := j.mem[..j.pos] + j.mem[j0.pos..];
            LoopIsScan(i0, j0.(mem := mem, pos := j.pos), end, d - (j0.pos - j.pos));
            assert mem[..j.pos] == j.mem[..j.pos];
          }
        } else if j0.pos <= |j.mem| {
          LoopIsScan(i0, j0, end, d);
          BetweenSame(i, j, d, i0.pos);
          assert j.mem[..j0.pos] == j.mem[..j.pos] + j.mem[j.pos..j0.pos];
        } else {
          JumpedOut(i, i0, end);
          WholeTail(j.mem, j.pos);
        }
      }
    }
  }

  lemma {:induction false} WholeTail(mem: seq<Byte>, p: nat)
    requires p <= |mem|
    ensures mem == mem[..p] + Tail(mem, p)
  {
  }

  lemma {:induction false} BetweenSame(i: Iter, j: Iter, d: int, q: nat)
    requires Same(i, j, d) && i.pos <= q <= |i.mem|
    ensures 0 <= q + d <= |j.mem| && j.pos <= q + d && Between(i.mem, i.pos, q) == j.mem[j.pos..q + d]
  {
    SeesBytes(i, j, d, q - i.pos);
  }

  /** A field that is not a sender and reaches behind the header is the last. */
  lemma {:induction false} JumpedOut(i: Iter, i0: Iter, end: nat)
    requires i0.mem == i.mem && i0.pos > |i.mem| && end <= |i.mem| && i.pos <= |i.mem|
    ensures Scan(i0, end) == Fits([])
    ensures Between(i.mem, i.pos, i0.pos) + [] == Tail(i.mem, i.pos)
  {
  }

  /** The pass over the fields of a header */
  function ScanHeader(b: seq<Byte>): (r: Verdict)
    requires |b| >= 16
  {
    match FieldsIter(b)
    case None => Unparsed
    case Some((i0, n)) => Scan(i0, 16 + n)
  }

  /** FixHeaders on every header: the fixed part, the bytes that the pass keeps and
      the sender; or a refusal; and it leaves its buffer if and only if the pass
      meets a field that it would have to look at behind the header, or a sender
      that ends behind it. */
  lemma {:induction false} FixIsScan(b: seq<Byte>, unique: seq<Byte>)
    requires IsHeader(b)
    ensures Fix(b, unique) ==
            match ScanHeader(b)
            case Unparsed => Rejected
            case Beyond => Overrun
            case Fits(kept) => Rewritten(Completed(b[..16] + kept, unique))
  {
    hide StripLoop, FieldsIter, Completed, Scan, FieldsLength;
    HeaderStart(b);
    if FieldsIter(b).Some? {
      var (i0, n) := FieldsIter(b).value;
      LoopIsScan(i0, i0, 16 + n, 0);
    }
  }

  /** The pass over a well-formed header fits. */
  lemma {:induction false} WellFormedFits(fixed: seq<Byte>, fs: seq<Field>)
    requires |fixed| == 12 && GoodFields(fs) && |Body(fs)| <= MAX_ARRAY
    ensures ScanHeader(Whole(fixed, fs)).Fits?
  {
    hide Fix, ScanHeader, GoodFields, Body, Whole, IsHeader;
    FixMeaning(fixed, fs, []);
    FixIsScan(Whole(fixed, fs), []);
  }

  // ------------------------------------------------------ a header that does not

  /** A native header with one sender field, an array of bytes that declares 1000
      of them where four are left */
  const OVERLONG: seq<Byte> := [
    108, 1, 0, 1,   0, 0, 0, 0,   1, 0, 0, 0,   16, 0, 0, 0,
    7, 2, 97, 121,   0, 0, 0, 0,   232, 3, 0, 0,   0, 0, 0, 0]

  lemma {:induction false} OverlongPrefix()
    ensures BeginField(Iter(OVERLONG, 16, 16, FIELD_SIG)) == Some((7, Iter(OVERLONG, 24, 8, [ARRAY_BEGIN, UINT8])))
  {
    var i0 := Iter(OVERLONG, 16, 16, FIELD_SIG);
    var i1 := Iter(OVERLONG, 16, 16, FIELD_SIG[1..]);
    assert i0.Next() == i1 && i1.Align(8) == Some(i1);
    var i2 := i1.Next();
    assert i2.sig == [VARIANT_BEGIN, STRUCT_END];
    assert i2.Get(1) == Some((7, Iter(OVERLONG, 17, 15, i2.sig))) by {
      OneByte(OVERLONG, 16);
    }
    OverlongVariant(Iter(OVERLONG, 17, 15, i2.sig));
  }

  lemma {:induction false} OneByte(mem: seq<Byte>, p: nat)
    requires p < |mem|
    ensures WordValue(mem[p..p + 1]) == mem[p]
  {
  }

  lemma {:induction false} OverlongVariant(it: Iter)
    requires it == Iter(OVERLONG, 17, 15, [VARIANT_BEGIN, STRUCT_END])
    ensures it.BeginVariant() == Some(Iter(OVERLONG, 24, 8, [ARRAY_BEGIN, UINT8]))
  {
    hide WordValue;
    OneByte(OVERLONG, 17);
    var i0 := Iter(OVERLONG, 17, 15, [STRUCT_END]);
    assert it.Next() == i0;
    var i1 := Iter(OVERLONG, 18, 14, [STRUCT_END]);
    assert i0.Get(1) == Some((2, i1));
    assert OVERLONG[18..20] == [97, 121];
    assert i1.GetString(2) == Some(([97, 121], Iter(OVERLONG, 21, 11, [STRUCT_END])));
  }

  lemma {:induction false} OverlongSkip()
    ensures Skip(Iter(OVERLONG, 24, 8, [ARRAY_BEGIN, UINT8])) == Some(Iter(OVERLONG, 1028, 4, []))
  {
    var it := Iter(OVERLONG, 24, 8, [ARRAY_BEGIN, UINT8]);
    assert it.Next() == Iter(OVERLONG, 24, 8, [UINT8]);
    assert WordValue(OVERLONG[24..28]) == 1000 by {
      assert OVERLONG[24..28] == [232, 3, 0, 0];
      FourBytes([232, 3, 0, 0]);
    }
    assert it.Next().Get(4) == Some((1000, Iter(OVERLONG, 28, 4, [UINT8])));
    ParseShow(Basic(UINT8), []);
    assert Show(Basic(UINT8)) + [] == [UINT8];
  }

  lemma {:induction false} FourBytes(w: seq<Byte>)
    requires |w| == 4
    ensures WordValue(w) == w[0] as int + 0x100 * (w[1] as int) + 0x1_0000 * (w[2] as int) + 0x100_0000 * (w[3] as int)
  {
    assert w[1..][1..] == w[2..] && w[2..][1..] == w[3..] && w[3..][1..] == [];
    assert WordValue(w[3..]) == w[3];
    assert WordValue(w[2..]) == w[2] as int + 256 * WordValue(w[3..]);
    assert WordValue(w[1..]) == w[1] as int + 256 * WordValue(w[2..]);
  }

  /** On this header the source deletes behind the end of its buffer. */
  lemma {:induction false} OverlongLeaves(unique: seq<Byte>)
    ensures IsHeader(OVERLONG) && ScanHeader(OVERLONG) == Beyond
    ensures Fix(OVERLONG, unique) == Overrun
  {
    hide Scan, Skip, BeginField, WordValue, ParseType, RestOf, Fix, IsHeader;
    OverlongIsHeader();
    OverlongStart();
    OverlongPrefix();
    OverlongSkip();
    var it := Iter(OVERLONG, 16, 16, FIELD_SIG);
    assert it.(sig := FIELD_SIG) == it;
    OverlongField(it);
    ScanStop(it, 32);
    FixIsScan(OVERLONG, unique);
  }

  lemma {:induction false} OverlongField(it: Iter)
    requires it == Iter(OVERLONG, 16, 16, FIELD_SIG)
    requires BeginField(it) == Some((7, Iter(OVERLONG, 24, 8, [ARRAY_BEGIN, UINT8])))
    requires Skip(Iter(OVERLONG, 24, 8, [ARRAY_BEGIN, UINT8])) == Some(Iter(OVERLONG, 1028, 4, []))
    ensures SkipField(it) == Some((7, Iter(OVERLONG, 1032, 0, [])))
  {
    hide BeginField, Skip;
    assert [STRUCT_END][1..] == [];
  }

  lemma {:induction false} ScanStop(it: Iter, end: nat)
    requires it.pos < end && it.sig == FIELD_SIG
    requires SkipField(it).Some? && SkipField(it).value.0 == HEADER_SENDER && SkipField(it).value.1.pos > |it.mem|
    ensures Scan(it, end) == Beyond
  {
    hide SkipField;
    assert it.(sig := FIELD_SIG) == it;
  }

  lemma {:induction false} OverlongIsHeader()
    ensures IsHeader(OVERLONG) && FieldsLength(OVERLONG) == 16
  {
    assert OVERLONG[12..16] == [16, 0, 0, 0];
    FourBytes([16, 0, 0, 0]);
  }

  lemma {:induction false} OverlongStart()
    ensures FieldsIter(OVERLONG) == Some((Iter(OVERLONG, 16, 16, FIELD_SIG), 16))
  {
    hide WordValue;
    OverlongIsHeader();
    HeaderPads();
    var it := Iter(OVERLONG, 12, 20, FIELDS_SIG);
    assert it.Next() == Iter(OVERLONG, 12, 20, FIELD_SIG);
    assert it.Next().Get(4) == Some((16, Iter(OVERLONG, 16, 16, FIELD_SIG)));
    FieldsText();
    ParseShow(FIELD, []);
    assert FIELD_SIG + [] == FIELD_SIG;
  }
}
