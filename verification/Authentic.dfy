/** Whether a receiver believes the sender that the server appends: what the message
    parser finds in a header of any content behind the rewrite. */
module Authentic {
  import opened Bytes
  import opened Signature
  import opened Codec
  import opened CodecLaws
  import opened Header
  import opened HeaderRewrite
  import opened HeaderScan
  import opened Message
  import P = Message
  import opened Retrace
  import opened Turns
  import Outside

  /** No field that is kept ends behind the header: no array in it declares more
      than there is. */
  predicate KeptInside(it: Iter, end: nat)
    decreases it.size
  {
    it.pos >= end ||
    match SkipField(it.(sig := FIELD_SIG))
    case None => true
    case Some((code, i0)) => (code == HEADER_SENDER || i0.pos <= |it.mem|) && KeptInside(i0, end)
  }

  predicate FieldsInside(b: seq<Byte>)
    requires |b| >= 16
  {
    FieldsIter(b).Some? ==> KeptInside(FieldsIter(b).value.0, 16 + FieldsIter(b).value.1)
  }

  /** Where a field ends, without the padding behind it */
  function FieldStop(it: Iter): nat
    requires SkipField(it).Some?
  {
    SkipFieldParts(it);
    Skip(BeginField(it).value.1).value.pos
  }

  /** The kept field that ends behind the header ends so that the parser goes on, and
      at the body: within `n` bytes, the size of the appended field, but in or behind
      its last block of eight. */
  predicate Overshoots(it: Iter, end: nat, n: nat)
    decreases it.size
  {
    it.pos < end &&
    match SkipField(it.(sig := FIELD_SIG))
    case None => false
    case Some((code, i0)) =>
      if code != HEADER_SENDER && i0.pos > |it.mem| then
        var stop := FieldStop(it.(sig := FIELD_SIG));
        stop < |it.mem| + n && AlignUp(stop, 8) >= |it.mem| + AlignUp(n, 8)
      else Overshoots(i0, end, n)
  }

  predicate JumpsIntoBody(b: seq<Byte>, unique: seq<Byte>)
    requires |b| >= 16
  {
    FieldsIter(b).Some? && Overshoots(FieldsIter(b).value.0, 16 + FieldsIter(b).value.1, |SenderBytes(unique)|)
  }

  /** The bytes of the sender field */
  function SenderBytes(unique: seq<Byte>): seq<Byte> {
    Encode(0, Sender(unique).ToValue())
  }

  // -------------------------------------------------------- one field, read twice

  /** The typed readers stop where the skip stops, and only a sender field says who
      the sender is. */
  lemma {:induction false} ReadFieldStop(m: Fields, code: nat, it: Iter)
    requires ReadField(m, code, it).Some?
    ensures var (m1, i1) := ReadField(m, code, it).value;
            && Skip(it).Some? && i1.pos == Skip(it).value.pos && i1.sig == Skip(it).value.sig && i1.mem == it.mem
            && (code != HEADER_SENDER ==> m1.sender == m.sender)
  {
    hide Read, Skip;
    if Read(it).Some? {
      SkipAgrees(it, it);
    }
  }

  /** What SkipField is made of */
  lemma {:induction false} SkipFieldParts(it: Iter)
    requires SkipField(it).Some?
    ensures BeginField(it).Some? && SkipField(it).value.0 == BeginField(it).value.0
    ensures var i0 := BeginField(it).value.1;
            && Skip(i0).Some? && i0.mem == it.mem && i0.pos <= Skip(i0).value.pos
            && SkipField(it).value.1.pos == AlignUp(Skip(i0).value.pos, 8)
            && SkipField(it).value.1.mem == it.mem && SkipField(it).value.1.size < it.size
  {
    hide BeginField, Skip, PadLen;
  }

  /** The parser goes over a kept field as the rewrite did, up to the padding. */
  lemma {:induction false} FieldAgain(i: Iter, j: Iter, d: int, cut: nat, m: Fields) returns (q: nat)
    requires SkipField(i).Some? && Agrees(i, j, d, cut) && InReach(i, SkipField(i).value.1.pos, cut)
    requires BeginField(j).Some?
    requires var (code, j0) := BeginField(j).value;
             && ReadField(m, code, j0).Some?
             && EndField(ReadField(m, code, j0).value.1, [STRUCT_END]).Some?
    ensures var (code, j0) := BeginField(j).value;
            var (m1, j1) := ReadField(m, code, j0).value;
            var j2 := EndField(j1, [STRUCT_END]).value;
            && code == SkipField(i).value.0
            && (code != HEADER_SENDER ==> m1.sender == m.sender)
            && j2.mem == j.mem
            && j2.pos == q + d && SkipField(i).value.1.pos == AlignUp(q, 8) && q == FieldStop(i)
  {
    hide SkipField, BeginField, Skip, Agrees, ReadField, PadLen, EndField;
    SkipFieldParts(i);
    var i0 := BeginField(i).value.1;
    var (code, j0) := BeginField(j).value;
    BothBeginField(i, j, d, cut);
    ReadFieldStop(m, code, j0);
    BothSkip(i0, j0, d, cut);
    AgreesParts(Skip(i0).value, Skip(j0).value, d, cut);
    q := Skip(i0).value.pos;
    assert Skip(j0).value.pos == q + d;
  }

  // ------------------------------------------------------------ the appended field

  /** The text of the sender field, as the parser reads it */
  lemma {:induction false} TextAgain(i: Iter, j: Iter, d: int, cut: nat)
    requires Agrees(i, j, d, cut) && i.sig == [STRING] && Read(i).Some? && Read(j).Some?
    requires InReach(i, Read(i).value.1.pos, cut)
    ensures Read(i).value.0.Text? && Read(j).value.0 == Read(i).value.0
    ensures Read(j).value.1.pos == Read(i).value.1.pos + d
  {
    hide Agrees, Iter.Get, Iter.GetString;
    AgreesParts(i, j, d, cut);
    BothText(i.Next(), j.Next(), d, cut, 4);
    var (n, i1) := i.Next().Get(4).value;
    var j1 := j.Next().Get(4).value.1;
    AgreesParts(i1.GetString(n).value.1, j1.GetString(n).value.1, d, cut);
  }

  lemma {:induction false} SenderGood(unique: seq<Byte>)
    requires NulFree(unique) && |unique| <= 20
    ensures GoodField(Sender(unique))
  {
    hide PadLen;
    FieldFits(0, Sender(unique));
  }

  lemma {:induction false} SenderAt(mem: seq<Byte>, p: nat, unique: seq<Byte>)
    requires NulFree(unique) && |unique| <= 20 && p % 8 == 0 && Holds(mem, p, SenderBytes(unique))
    ensures var f := Sender(unique);
            var it := Iter(mem, p, |SenderBytes(unique)|, FIELD_SIG);
            At(it, f.ToValue(), []) && |Encode(p, f.ToValue())| == |SenderBytes(unique)|
  {
    var f := Sender(unique);
    SenderGood(unique);
    GoodFieldWellFormed(f);
    FieldText(f);
    hide Encode, PadLen, Show, TypeOf, WellFormed, Holds, Codec.Fits;
    EncodeModulo8(p, 0, f.ToValue());
    assert FIELD_SIG + [] == FIELD_SIG;
  }

  /** In front of the appended field the loop stores the true sender and ends. */
  lemma {:induction false} AppendedRead(m: Fields, j: Iter, e: nat, unique: seq<Byte>)
    requires NulFree(unique) && |unique| <= 20
    requires var p := AlignUp(j.pos, 8); Holds(j.mem, p, SenderBytes(unique)) && e == p + |SenderBytes(unique)|
    requires j.pos < e && ReadFieldsLoop(m, j, e).Some?
    ensures ReadFieldsLoop(m, j, e).value.sender == Some(unique)
  {
    hide BeginField, Read, EndField, SenderBytes, Holds, Agrees, At, PadLen, Show, TypeOf, Skip, Behind;
    var p := AlignUp(j.pos, 8);
    AlignedPad(j.pos);
    var f := Sender(unique);
    var it := Iter(j.mem, p, |SenderBytes(unique)|, FIELD_SIG);
    SenderAt(j.mem, p, unique);
    AtField(it, f, []);
    var i0 := BeginField(it).value.1;
    var j' := j.(sig := FIELD_SIG);
    BeginAligned(j');
    var jp := j'.Align(8).value;
    assert Agrees(it, jp, 0, |j.mem|) by { SelfAgrees(it, jp); }
    BothBeginField(it, jp, 0, |j.mem|);
    var (code, j0) := BeginField(jp).value;
    assert code == HEADER_SENDER;
    ReadEncode(i0, f.value, []);
    TextSig(i0, unique);
    AgreesParts(i0, j0, 0, |j.mem|);
    MemoryKept(it);
    TextAgain(i0, j0, 0, |j.mem|);
    EndPos(it, i0, f, e);
    var (m1, j1) := ReadField(m, code, j0).value;
    assert m1.sender == Some(unique);
    var j2 := EndField(j1, [STRUCT_END]).value;
    assert j2.pos == e;
  }

  lemma {:induction false} SelfAgrees(i: Iter, j: Iter)
    requires i.mem == j.mem && i.pos == j.pos && i.sig == j.sig
    ensures Agrees(i, j, 0, |i.mem|)
  {
  }

  lemma {:induction false} TextSig(i: Iter, unique: seq<Byte>)
    requires At(i, Text(STRING, unique), [])
    ensures i.sig == [STRING]
  {
  }

  lemma {:induction false} MemoryKept(it: Iter)
    requires BeginField(it).Some?
    ensures BeginField(it).value.1.mem == it.mem
  {
  }

  lemma {:induction false} EndPos(it: Iter, i0: Iter, f: Field, e: nat)
    requires At(it, f.ToValue(), []) && At(i0, f.value, []) && e == it.pos + |Encode(it.pos, f.ToValue())|
    requires EndField(Behind(i0, f.value, []), [STRUCT_END] + []) == Some(Behind(it, f.ToValue(), []))
    ensures Behind(i0, f.value, []).pos == e
  {
  }

  // --------------------------------------------------------- nothing but the field

  /** Characters of a unique name: printable, and few */
  predicate Printable(unique: seq<Byte>) {
    |unique| <= 20 && forall k :: 0 <= k < |unique| ==> unique[k] > 32
  }

  lemma {:induction false} SenderLayout(unique: seq<Byte>)
    ensures |SenderBytes(unique)| == 9 + |unique|
    ensures SenderBytes(unique)[8..] == unique + [0]
  {
    hide PadLen, Word, Encode, Pad, TypeOf, Show;
    var f := Sender(unique);
    FieldBytes(0, f);
    EncodeVariant(1, f.value);
    TextBytes(unique);
    var head: seq<Byte> := [HEADER_SENDER] + [1, STRING, 0] + Word(4, |unique|);
    assert SenderBytes(unique) == head + (unique + [0]);
  }

  lemma {:induction false} TextBytes(unique: seq<Byte>)
    ensures AlignUp(0, 8) == 0 && Pad(0, 8) == []
    ensures Show(TypeOf(Text(STRING, unique))) == [STRING]
    ensures Encode(4, Text(STRING, unique)) == Word(4, |unique|) + unique + [0]
  {
    hide Word;
    assert Pad(4, 4) == [];
  }

  /** The appended field and its padding lie at `s`. */
  predicate SenderLies(mem: seq<Byte>, s: nat, unique: seq<Byte>) {
    s % 8 == 0 && Holds(mem, s, SenderBytes(unique) + Pad(|SenderBytes(unique)|, 8))
  }

  lemma {:induction false} LyingBytes(mem: seq<Byte>, s: nat, unique: seq<Byte>, k: nat)
    requires SenderLies(mem, s, unique) && s + 8 <= k < s + AlignUp(|SenderBytes(unique)|, 8)
    ensures k < |mem| && mem[k] == if k - s - 8 < |unique| then unique[k - s - 8] else 0
  {
    SenderLayout(unique);
    hide SenderBytes;
    var e := SenderBytes(unique);
    var all := e + Pad(|e|, 8);
    assert mem[s..s + |all|][k - s] == all[k - s];
    if k - s < |e| {
      assert e[k - s] == e[8..][k - s - 8];
    }
  }

  lemma {:induction false} LiesAligned(mem: seq<Byte>, s: nat, unique: seq<Byte>)
    requires SenderLies(mem, s, unique)
    ensures s % 8 == 0
  {
  }

  /** No field starts in the text of the sender field, whatever follows it. */
  lemma {:induction false} NoFieldInText(j: Iter, s: nat, unique: seq<Byte>)
    requires SenderLies(j.mem, s, unique) && Printable(unique) && j.sig == FIELD_SIG
    requires s < j.pos && AlignUp(j.pos, 8) < s + AlignUp(|SenderBytes(unique)|, 8)
    ensures BeginField(j).None?
  {
    hide BeginField, SenderLies, Printable, PadLen, SenderBytes;
    LiesAligned(j.mem, s, unique);
    if BeginField(j).Some? {
      BeginAligned(j);
      var a := j.Align(8).value;
      AlignedPad(j.pos);
      NoVariantInText(a, s, unique);
    }
  }

  lemma {:induction false} NoVariantInText(a: Iter, s: nat, unique: seq<Byte>)
    requires SenderLies(a.mem, s, unique) && Printable(unique)
    requires s + 8 <= a.pos < s + AlignUp(|SenderBytes(unique)|, 8) && a.pos % 8 == 0 && s % 8 == 0
    ensures BeginField(a).None?
  {
    hide SenderLies, WordValue, PadLen, SenderBytes, BeginField;
    if BeginField(a).Some? {
      PrefixBytes(a);
      AlignedPad(|SenderBytes(unique)|);
      LyingBytes(a.mem, s, unique, a.pos + 1);
      SenderLayout(unique);
      var k := s + 8 + |unique|;
      LyingBytes(a.mem, s, unique, k);
      SignatureNul(a, k);
    }
  }

  /** A signature has no NUL in it. */
  lemma {:induction false} SignatureNul(a: Iter, k: nat)
    requires a.pos + 2 <= |a.mem| && a.pos + 2 + a.mem[a.pos + 1] + 1 <= |a.mem|
    requires NulFree(a.mem[a.pos + 2..a.pos + 2 + a.mem[a.pos + 1]])
    requires a.pos + 2 <= k < a.pos + 2 + a.mem[a.pos + 1]
    ensures a.mem[k] != 0
  {
    var t := a.mem[a.pos + 2..a.pos + 2 + a.mem[a.pos + 1]];
    assert t[k - a.pos - 2] == a.mem[k];
  }

  /** What a field prefix needs of the memory */
  lemma {:induction false} PrefixBytes(a: Iter)
    requires BeginField(a).Some? && a.pos % 8 == 0
    ensures a.pos + 2 <= |a.mem|
    ensures 0 < a.mem[a.pos + 1] && a.pos + 2 + a.mem[a.pos + 1] + 1 <= |a.mem|
    ensures NulFree(a.mem[a.pos + 2..a.pos + 2 + a.mem[a.pos + 1]])
  {
    hide PadLen, WordValue, Iter.BeginVariant, Boundary;
    assert PadLen(a.pos, 8) == 0 by { AlignedNoPad(a.pos); }
    assert forall p: nat :: PadLen(p, 1) == 0 by { ByteNoPad(); }
    var i1 := a.Next();
    assert i1.Align(8) == Some(i1);
    var i2 := i1.Next().Get(1).value.1;
    VariantBytes(i2);
  }

  lemma {:induction false} VariantBytes(it: Iter)
    requires it.BeginVariant().Some?
    ensures it.pos + 1 <= |it.mem| && 0 < it.mem[it.pos] && it.pos + 1 + it.mem[it.pos] + 1 <= |it.mem|
    ensures NulFree(it.mem[it.pos + 1..it.pos + 1 + it.mem[it.pos]])
  {
    hide PadLen, WordValue;
    assert forall p: nat :: PadLen(p, 1) == 0 by { ByteNoPad(); }
    OneByte(it.mem, it.pos);
    var n := it.Next().Get(1).value.0;
    assert n == it.mem[it.pos];
  }

  lemma {:induction false} AlignedNoPad(off: nat)
    requires off % 8 == 0
    ensures PadLen(off, 8) == 0
  {
  }

  lemma {:induction false} ByteNoPad()
    ensures forall p: nat :: PadLen(p, 1) == 0
  {
  }

  // ------------------------------------------------------------- the whole loop

  /** The pass that keeps whole fields keeps a multiple of eight bytes. */
  lemma {:induction false} KeptAligned(i: Iter, end: nat)
    requires i.pos % 8 == 0 && i.pos <= |i.mem| && |i.mem| % 8 == 0 && end <= |i.mem| <= end + 7
    requires Scan(i, end).Fits?
    ensures |Scan(i, end).kept| % 8 == 0
    decreases i.size
  {
    hide SkipField, Outside.FieldOutside, Scan;
    if i.pos >= end {
      NothingLeft(i, end);
    } else {
      var i' := i.(sig := FIELD_SIG);
      ScanGoesOn(i, end);
      var (code, i0) := SkipField(i').value;
      FieldAligned(i');
      if i0.pos > |i.mem| {
        JumpedOut(i, i0, end);
      } else {
        KeptAligned(i0, end);
        if code != HEADER_SENDER {
          ScanKeeps(i, end);
          Eights(i.pos, i0.pos, |Scan(i0, end).kept|);
        }
      }
    }
  }

  lemma {:induction false} NothingLeft(i: Iter, end: nat)
    requires i.pos >= end && i.pos % 8 == 0 && i.pos <= |i.mem| && |i.mem| % 8 == 0 && |i.mem| <= end + 7
    ensures Scan(i, end) == Fits([])
  {
  }

  lemma {:induction false} ScanGoesOn(i: Iter, end: nat)
    requires i.pos < end && Scan(i, end).Fits?
    ensures SkipField(i.(sig := FIELD_SIG)).Some?
    ensures var (code, i0) := SkipField(i.(sig := FIELD_SIG)).value;
            && i0.mem == i.mem && i0.size < i.size && Scan(i0, end).Fits?
            && (code == HEADER_SENDER ==> i0.pos <= |i.mem| && Scan(i, end) == Scan(i0, end))
            && (code != HEADER_SENDER ==>
                  Scan(i, end).kept == Between(i.mem, i.pos, i0.pos) + Scan(i0, end).kept)
  {
    hide SkipField, Outside.FieldOutside;
  }

  lemma {:induction false} Eights(a: nat, b: nat, c: nat)
    requires a <= b && a % 8 == 0 && b % 8 == 0 && c % 8 == 0
    ensures (b - a + c) % 8 == 0
  {
  }

  /** The parser's iterator in front of the rest of the header */
  ghost predicate Facing(j: Iter, kept: seq<Byte>, unique: seq<Byte>, e: nat) {
    var p := AlignUp(j.pos, 8);
    Holds(j.mem, p, kept + SenderBytes(unique)) && e == p + |kept| + |SenderBytes(unique)|
  }

  lemma {:induction false} FacingParts(j: Iter, kept: seq<Byte>, unique: seq<Byte>, e: nat)
    requires Facing(j, kept, unique, e)
    ensures var p := AlignUp(j.pos, 8);
            && Holds(j.mem, p, kept) && Holds(j.mem, p + |kept|, SenderBytes(unique))
            && j.pos < e && e == p + |kept| + |SenderBytes(unique)|
  {
    hide PadLen, SenderBytes;
    HoldsConcat(j.mem, AlignUp(j.pos, 8), kept, SenderBytes(unique));
    SenderLayout(unique);
    AlignedPad(j.pos);
  }

  /** One kept field in front of the rewrite's iterator and of the parser's */
  lemma {:induction false} TurnAgain(i: Iter, j: Iter, m: Fields, cut: nat)
    returns (m1: Fields, j2: Iter, q: nat)
    requires SkipField(i).Some? && i.sig == FIELD_SIG && i.pos % 8 == 0 && i.pos <= cut <= |i.mem|
    requires InReach(i, SkipField(i).value.1.pos, cut)
    requires Holds(j.mem, AlignUp(j.pos, 8), i.mem[i.pos..cut])
    requires Turn(m, j).Some?
    ensures Turn(m, j) == Some((m1, j2))
    ensures SkipField(i).value.0 != HEADER_SENDER ==> m1.sender == m.sender
    ensures j2.mem == j.mem && j2.pos == q + AlignUp(j.pos, 8) - i.pos
    ensures SkipField(i).value.1.pos == AlignUp(q, 8) && q == FieldStop(i)
  {
    hide BeginField, ReadField, EndField, SkipField, Agrees, PadLen, FieldStop;
    var j' := j.(sig := FIELD_SIG);
    BeginAligned(j');
    AlignedPad(j.pos);
    var jp := j'.Align(8).value;
    var d := jp.pos - i.pos;
    assert Agrees(i, jp, d, cut) by { FirstAgrees(i, jp, cut); }
    q := FieldAgain(i, jp, d, cut, m);
    var (code, j0) := BeginField(jp).value;
    m1 := ReadField(m, code, j0).value.0;
    j2 := EndField(ReadField(m, code, j0).value.1, [STRUCT_END]).value;
  }

  lemma {:induction false} FirstAgrees(i: Iter, j: Iter, cut: nat)
    requires i.pos % 8 == 0 && j.pos % 8 == 0 && i.pos <= cut <= |i.mem| && i.sig == j.sig
    requires Holds(j.mem, j.pos, i.mem[i.pos..cut])
    ensures Agrees(i, j, j.pos - i.pos, cut)
  {
  }

  /** The padding behind a field does not matter for where the next one starts. */
  lemma {:induction false} NextStart(q: nat, d: int)
    requires d % 8 == 0 && q + d >= 0
    ensures AlignUp(q + d, 8) == AlignUp(q, 8) + d
  {
    hide PadLen;
    PadModulo8(q, q + d, 8);
  }

  /** What the parser finds behind the rewrite, whatever follows: the true sender when
      every kept field ends inside the header, and otherwise no sender, unless the
      last field takes it into the body. */
  lemma {:induction false} LoopSender(i: Iter, end: nat, m: Fields, j: Iter, e: nat, unique: seq<Byte>)
    requires i.pos % 8 == 0 && i.pos <= |i.mem| && |i.mem| % 8 == 0 && end <= |i.mem| <= end + 7
    requires Scan(i, end).Fits? && Facing(j, Scan(i, end).kept, unique, e)
    requires NulFree(unique) && |unique| <= 20
    requires ReadFieldsLoop(m, j, e).Some?
    ensures KeptInside(i, end) ==> ReadFieldsLoop(m, j, e).value.sender == Some(unique)
    ensures !KeptInside(i, end) && !Overshoots(i, end, |SenderBytes(unique)|) && m.sender.None? && Printable(unique)
            && SenderLies(j.mem, e - |SenderBytes(unique)|, unique) ==>
              ReadFieldsLoop(m, j, e).value.sender.None?
    decreases i.size
  {
    hide SkipField, Outside.FieldOutside, ReadFieldsLoop, Facing, Printable, SenderLies, SenderBytes, PadLen, Holds, FieldStop;
    var kept := Scan(i, end).kept;
    FacingParts(j, kept, unique, e);
    if i.pos >= end {
      assert i.pos == |i.mem| && kept == [];
      AppendedRead(m, j, e, unique);
    } else {
      var i' := i.(sig := FIELD_SIG);
      var (code, i0) := SkipField(i').value;
      FieldAligned(i');
      if code == HEADER_SENDER {
        LoopSender(i0, end, m, j, e, unique);
      } else if i0.pos <= |i.mem| {
        var m1, j2 := KeptTurn(i, end, m, j, e, unique);
        LoopSender(i0, end, m1, j2, e, unique);
      } else if m.sender.None? && Printable(unique) && SenderLies(j.mem, e - |SenderBytes(unique)|, unique)
                && !Overshoots(i, end, |SenderBytes(unique)|) {
        LastTurn(i, end, m, j, e, unique);
      }
    }
  }

  lemma {:induction false} KeptTurn(i: Iter, end: nat, m: Fields, j: Iter, e: nat, unique: seq<Byte>)
    returns (m1: Fields, j2: Iter)
    requires i.pos % 8 == 0 && i.pos < end <= |i.mem| && Scan(i, end).Fits?
    requires Facing(j, Scan(i, end).kept, unique, e) && ReadFieldsLoop(m, j, e).Some?
    requires SkipField(i.(sig := FIELD_SIG)).Some?
    requires var (code, i0) := SkipField(i.(sig := FIELD_SIG)).value;
             code != HEADER_SENDER && i0.pos <= |i.mem|
    ensures var i0 := SkipField(i.(sig := FIELD_SIG)).value.1;
            && ReadFieldsLoop(m, j, e) == ReadFieldsLoop(m1, j2, e) && m1.sender == m.sender
            && j2.mem == j.mem && Facing(j2, Scan(i0, end).kept, unique, e)
  {
    hide SkipField, Outside.FieldOutside, ReadFieldsLoop, SenderBytes, PadLen, Holds, Facing, Scan, FieldStop, Turn;
    var i' := i.(sig := FIELD_SIG);
    var i0 := SkipField(i').value.1;
    var p := AlignUp(j.pos, 8);
    var piece := i.mem[i.pos..i0.pos];
    ScanKeeps(i, end);
    var rest := Scan(i0, end).kept;
    AlignedPad(j.pos);
    FacingParts(j, Scan(i, end).kept, unique, e);
    HoldsConcat(j.mem, p, piece, rest);
    LoopIsTurn(m, j, e);
    var q;
    m1, j2, q := TurnAgain(i', j, m, i0.pos);
    NextStart(q, p - i.pos);
    assert AlignUp(j2.pos, 8) == p + |piece|;
    FacingRest(j2, rest, unique, e);
  }

  lemma {:induction false} ScanKeeps(i: Iter, end: nat)
    requires i.pos < end && Scan(i, end).Fits? && SkipField(i.(sig := FIELD_SIG)).Some?
    requires var (code, i0) := SkipField(i.(sig := FIELD_SIG)).value;
             code != HEADER_SENDER && i0.pos <= |i.mem|
    ensures var i0 := SkipField(i.(sig := FIELD_SIG)).value.1;
            Scan(i0, end).Fits? && i.pos <= i0.pos
            && Scan(i, end).kept == i.mem[i.pos..i0.pos] + Scan(i0, end).kept
  {
    hide SkipField, Outside.FieldOutside;
  }

  lemma {:induction false} FacingRest(j: Iter, rest: seq<Byte>, unique: seq<Byte>, e: nat)
    requires var p := AlignUp(j.pos, 8);
             && Holds(j.mem, p, rest) && Holds(j.mem, p + |rest|, SenderBytes(unique))
             && e == p + |rest| + |SenderBytes(unique)|
    ensures Facing(j, rest, unique, e)
  {
    hide PadLen, SenderBytes, Holds;
    HoldsConcat(j.mem, AlignUp(j.pos, 8), rest, SenderBytes(unique));
  }

  /** A kept field that ends behind the header takes the parser behind the start of
      the appended one. */
  lemma {:induction false} LastTurn(i: Iter, end: nat, m: Fields, j: Iter, e: nat, unique: seq<Byte>)
    requires i.pos % 8 == 0 && i.pos < end <= |i.mem| && |i.mem| % 8 == 0 && Scan(i, end).Fits?
    requires Facing(j, Scan(i, end).kept, unique, e) && ReadFieldsLoop(m, j, e).Some?
    requires SkipField(i.(sig := FIELD_SIG)).Some?
    requires var (code, i0) := SkipField(i.(sig := FIELD_SIG)).value;
             code != HEADER_SENDER && i0.pos > |i.mem|
    requires m.sender.None? && Printable(unique) && e >= |SenderBytes(unique)|
    requires SenderLies(j.mem, e - |SenderBytes(unique)|, unique) && !Overshoots(i, end, |SenderBytes(unique)|)
    ensures ReadFieldsLoop(m, j, e).value.sender.None?
  {
    hide SkipField, Outside.FieldOutside, ReadFieldsLoop, SenderBytes, PadLen, AlignUp, Holds, SenderLies, Printable,
         FieldStop, Turn, Facing, Scan, Overshoots;
    FacingParts(j, Scan(i, end).kept, unique, e);
    LoopIsTurn(m, j, e);
    var m1, j2 := LastStop(i, end, m, j);
    OvershootIs(i, end, |SenderBytes(unique)|);
    MovedStop(FieldStop(i.(sig := FIELD_SIG)), i.pos, j.pos);
    AfterEnd(m1, j2, AlignUp(j.pos, 8) + |i.mem| - i.pos, e, unique);
  }

  /** Where a field stops, seen from two places */
  lemma {:induction false} MovedStop(stop: nat, p: nat, q: nat)
    requires p % 8 == 0 && stop >= p
    ensures AlignUp(stop + AlignUp(q, 8) - p, 8) == AlignUp(stop, 8) + AlignUp(q, 8) - p
  {
    hide AlignUp;
    AlignedPad(q);
    NextStart(stop, AlignUp(q, 8) - p);
  }

  lemma {:induction false} OvershootIs(i: Iter, end: nat, n: nat)
    requires i.pos < end && SkipField(i.(sig := FIELD_SIG)).Some?
    ensures var (code, i0) := SkipField(i.(sig := FIELD_SIG)).value;
            var stop := FieldStop(i.(sig := FIELD_SIG));
            && (code != HEADER_SENDER && i0.pos > |i.mem| ==>
                  (Overshoots(i, end, n) <==> stop < |i.mem| + n && AlignUp(stop, 8) >= |i.mem| + AlignUp(n, 8)))
            && (code == HEADER_SENDER || i0.pos <= |i.mem| ==> (Overshoots(i, end, n) <==> Overshoots(i0, end, n)))
  {
    hide SkipField, FieldStop, PadLen;
  }

  /** The parser over the kept field that ends behind the header */
  lemma {:induction false} LastStop(i: Iter, end: nat, m: Fields, j: Iter) returns (m1: Fields, j2: Iter)
    requires i.pos % 8 == 0 && i.pos < end <= |i.mem| && |i.mem| % 8 == 0 && Scan(i, end).Fits?
    requires SkipField(i.(sig := FIELD_SIG)).Some?
    requires var (code, i0) := SkipField(i.(sig := FIELD_SIG)).value;
             code != HEADER_SENDER && i0.pos > |i.mem|
    requires Holds(j.mem, AlignUp(j.pos, 8), Scan(i, end).kept) && Turn(m, j).Some?
    ensures Turn(m, j) == Some((m1, j2)) && m1.sender == m.sender && j2.mem == j.mem
    ensures var stop := FieldStop(i.(sig := FIELD_SIG));
            stop > |i.mem| && j2.pos == stop + AlignUp(j.pos, 8) - i.pos
    ensures |Scan(i, end).kept| == |i.mem| - i.pos
  {
    hide SkipField, Outside.FieldOutside, PadLen, Holds, FieldStop, Turn;
    var i' := i.(sig := FIELD_SIG);
    var i0 := SkipField(i').value.1;
    JumpedOut(i, i0, end);
    assert Scan(i, end).kept == i.mem[i.pos..] == i.mem[i.pos..|i.mem|];
    var q;
    m1, j2, q := TurnAgain(i', j, m, |i.mem|);
    BehindEnd(q, |i.mem|);
  }

  lemma {:induction false} BehindEnd(q: nat, n: nat)
    requires n % 8 == 0 && AlignUp(q, 8) > n
    ensures q > n
  {
  }

  lemma {:induction false} AfterEnd(m: Fields, j: Iter, s: nat, e: nat, unique: seq<Byte>)
    requires SenderLies(j.mem, s, unique) && Printable(unique) && s < j.pos && ReadFieldsLoop(m, j, e).Some?
    requires j.pos >= e || AlignUp(j.pos, 8) < s + AlignUp(|SenderBytes(unique)|, 8)
    ensures ReadFieldsLoop(m, j, e) == Some(m)
  {
    hide BeginField, SenderLies, Printable, PadLen, SenderBytes;
    if j.pos < e {
      NoFieldInText(j.(sig := FIELD_SIG), s, unique);
    }
  }

  /** Without a body the parser cannot go on behind an overshoot. */
  lemma {:induction false} NoBodyNoOvershoot(i: Iter, end: nat, m: Fields, j: Iter, e: nat, unique: seq<Byte>)
    requires i.pos % 8 == 0 && i.pos <= |i.mem| && |i.mem| % 8 == 0 && end <= |i.mem| <= end + 7
    requires Scan(i, end).Fits? && Facing(j, Scan(i, end).kept, unique, e) && ReadFieldsLoop(m, j, e).Some?
    requires e >= |SenderBytes(unique)| && |j.mem| <= e - |SenderBytes(unique)| + AlignUp(|SenderBytes(unique)|, 8)
    ensures !Overshoots(i, end, |SenderBytes(unique)|)
    decreases i.size
  {
    hide SkipField, Outside.FieldOutside, ReadFieldsLoop, Facing, SenderBytes, PadLen, AlignUp, Holds, FieldStop, Overshoots, Scan,
         Turn;
    var n := |SenderBytes(unique)|;
    if Overshoots(i, end, n) {
      OvershootStarts(i, end, n);
      ScanGoesOn(i, end);
      OvershootIs(i, end, n);
      FacingParts(j, Scan(i, end).kept, unique, e);
      var i' := i.(sig := FIELD_SIG);
      var (code, i0) := SkipField(i').value;
      FieldAligned(i');
      if code == HEADER_SENDER {
        NoBodyNoOvershoot(i0, end, m, j, e, unique);
      } else if i0.pos <= |i.mem| {
        var m1, j2 := KeptTurn(i, end, m, j, e, unique);
        NoBodyNoOvershoot(i0, end, m1, j2, e, unique);
      } else {
        LastRefused(i, end, m, j, e, n);
      }
    }
  }

  lemma {:induction false} LastRefused(i: Iter, end: nat, m: Fields, j: Iter, e: nat, n: nat)
    requires i.pos % 8 == 0 && i.pos < end <= |i.mem| && |i.mem| % 8 == 0 && Scan(i, end).Fits?
    requires SkipField(i.(sig := FIELD_SIG)).Some?
    requires var (code, i0) := SkipField(i.(sig := FIELD_SIG)).value;
             code != HEADER_SENDER && i0.pos > |i.mem|
    requires j.pos < e && Holds(j.mem, AlignUp(j.pos, 8), Scan(i, end).kept)
    requires e == AlignUp(j.pos, 8) + |Scan(i, end).kept| + n && |j.mem| <= e - n + AlignUp(n, 8)
    requires var stop := FieldStop(i.(sig := FIELD_SIG));
             stop < |i.mem| + n && AlignUp(stop, 8) >= |i.mem| + AlignUp(n, 8)
    ensures ReadFieldsLoop(m, j, e).None?
  {
    hide SkipField, Outside.FieldOutside, ReadFieldsLoop, PadLen, AlignUp, Holds, FieldStop, Scan, Turn;
    LoopIsTurn(m, j, e);
    if Turn(m, j).Some? {
      var m1, j2 := LastStop(i, end, m, j);
      MovedStop(FieldStop(i.(sig := FIELD_SIG)), i.pos, j.pos);
      LoopIsTurn(m1, j2, e);
      NoTurnBehind(m1, j2);
    }
  }

  lemma {:induction false} OvershootStarts(i: Iter, end: nat, n: nat)
    requires Overshoots(i, end, n)
    ensures i.pos < end && SkipField(i.(sig := FIELD_SIG)).Some?
  {
    hide SkipField, FieldStop;
  }

  lemma {:induction false} NoTurnBehind(m: Fields, j: Iter)
    requires AlignUp(j.pos, 8) >= |j.mem|
    ensures Turn(m, j).None?
  {
    hide BeginField, ReadField, EndField, PadLen;
    var j' := j.(sig := FIELD_SIG);
    if BeginField(j').Some? {
      BeginAligned(j');
      AlignedPad(j.pos);
      PrefixBytes(j'.Align(8).value);
    }
  }

  // ------------------------------------------------------------ the whole header

  /** The layout of a rewritten header */
  lemma {:induction false} CompletedLayout(stripped: seq<Byte>, unique: seq<Byte>)
    requires 16 <= |stripped| <= 16 + MAX_ARRAY + 7 && |stripped| % 8 == 0 && |unique| <= 20
    ensures var h := Completed(stripped, unique);
            var e := SenderBytes(unique);
            && h == stripped[..12] + Word(4, |stripped| + |e| - 16) + (stripped[16..] + e + Pad(|e|, 8))
            && FieldsLength(h) == |stripped| - 16 + |e|
  {
    hide Encode, PadLen, Word, WordValue;
    var e := Encode(|stripped|, Sender(unique).ToValue());
    EncodeModulo8(|stripped|, 0, Sender(unique).ToValue());
    SenderLayout(unique);
    var b1 := stripped + e;
    var w := Word(4, |b1| - 16);
    var b2 := b1[..12] + w + b1[16..];
    ShiftedPad(|stripped|, |e|);
    assert b1[..12] == stripped[..12] && b1[16..] == stripped[16..] + e;
    SpanFacts();
    WordRoundTrip(4, |b1| - 16);
    assert (b2 + Pad(|b2|, 8))[12..16] == w;
  }

  /** The header that the pass keeps */
  lemma {:induction false} ScanAligned(b: seq<Byte>)
    requires IsHeader(b) && ScanHeader(b).Fits?
    ensures |b| % 8 == 0 && |ScanHeader(b).kept| % 8 == 0 && |ScanHeader(b).kept| <= MAX_ARRAY + 7
    ensures FieldsIter(b).Some? && FieldsIter(b).value == (Iter(b, 16, |b| - 16, FIELD_SIG), FieldsLength(b))
    ensures 16 + FieldsLength(b) <= |b| <= 16 + FieldsLength(b) + 7
    ensures ScanHeader(b) == Scan(Iter(b, 16, |b| - 16, FIELD_SIG), 16 + FieldsLength(b))
  {
    hide FieldsIter, Scan, FieldsLength, PadLen;
    HeaderStart(b);
    HeaderLimit(b);
    AlignedPad(FieldsLength(b));
    var i0 := Iter(b, 16, |b| - 16, FIELD_SIG);
    KeptAligned(i0, 16 + FieldsLength(b));
    KeptShorter(i0, 16 + FieldsLength(b));
  }

  lemma {:induction false} HeaderLimit(b: seq<Byte>)
    requires IsHeader(b) && FieldsIter(b).Some?
    ensures FieldsLength(b) <= MAX_ARRAY
  {
    hide PadLen, WordValue, RestOf;
    HeaderPads();
    var it := Iter(b, 12, 4 + AlignUp(FieldsLength(b), 8), FIELDS_SIG);
    assert it.Next().Get(4) == Some((FieldsLength(b), it.Next().Advance(4)));
  }

  lemma {:induction false} KeptShorter(i: Iter, end: nat)
    requires i.pos <= |i.mem| && Scan(i, end).Fits? && end <= |i.mem|
    ensures |Scan(i, end).kept| <= |i.mem| - i.pos
    decreases i.size
  {
    hide SkipField, Outside.FieldOutside;
    if i.pos < end {
      var i0 := SkipField(i.(sig := FIELD_SIG)).value.1;
      if i0.pos <= |i.mem| {
        KeptShorter(i0, end);
      } else {
        JumpedOut(i, i0, end);
      }
    }
  }

  /** What the message parser sees of a rewritten header */
  lemma {:induction false} ParseFaces(b: seq<Byte>, unique: seq<Byte>, mem: seq<Byte>, p: nat, size: nat)
    returns (j: Iter)
    requires IsHeader(b) && ScanHeader(b).Fits? && |unique| <= 20
    requires p % 8 == 0 && size >= 16 && Holds(mem, p, Completed(b[..16] + ScanHeader(b).kept, unique))
    requires P.ParseFields(mem, p, size).Some?
    ensures var kept := ScanHeader(b).kept;
            var e := p + 16 + |kept| + |SenderBytes(unique)|;
            && j.mem == mem && j.pos == p + 16 && Facing(j, kept, unique, e)
            && P.ParseFields(mem, p, size) == ReadFieldsLoop(NO_FIELDS, j, e)
  {
    hide ScanHeader, FieldsIter, SenderBytes, Word, WordValue, FieldsLength, ReadFieldsLoop, PadLen, Iter.BeginArray,
         Completed, IsHeader, Holds, Facing, P.ParseFields;
    HeaderLong(b);
    var kept := ScanHeader(b).kept;
    assert |kept| % 8 == 0 && |kept| <= MAX_ARRAY + 7 by { ScanAligned(b); }
    HeldParts(b, kept, unique, mem, p);
    j := FieldsFound(mem, p, size, kept, unique);
  }

  lemma {:induction false} FieldsFound(mem: seq<Byte>, p: nat, size: nat, kept: seq<Byte>, unique: seq<Byte>)
    returns (j: Iter)
    requires p % 8 == 0 && size >= 16 && P.ParseFields(mem, p, size).Some?
    requires var n := |kept| + |SenderBytes(unique)|;
             Holds(mem, p + 12, Word(4, n)) && WordValue(Word(4, n)) == n
    requires Holds(mem, p + 16, kept + SenderBytes(unique))
    ensures var e := p + 16 + |kept| + |SenderBytes(unique)|;
            && j.mem == mem && j.pos == p + 16 && Facing(j, kept, unique, e)
            && P.ParseFields(mem, p, size) == ReadFieldsLoop(NO_FIELDS, j, e)
  {
    hide SenderBytes, Word, WordValue, ReadFieldsLoop, PadLen, Iter.BeginArray, Holds, Facing, P.ParseFields;
    var n := |kept| + |SenderBytes(unique)|;
    ParseFieldsIs(mem, p, size);
    FieldsStartAt(mem, p, size, n);
    j := Iter(mem, p + 12, size - 12, FIELDS_SIG).BeginArray().value.0;
    FacingAt(j, kept, unique, p + 16 + |kept| + |SenderBytes(unique)|);
  }

  lemma {:induction false} ParseFieldsIs(mem: seq<Byte>, p: nat, size: nat)
    requires size >= 16 && P.ParseFields(mem, p, size).Some?
    ensures var r := Iter(mem, p + 12, size - 12, FIELDS_SIG).BeginArray();
            r.Some? && P.ParseFields(mem, p, size) == ReadFieldsLoop(NO_FIELDS, r.value.0, r.value.0.pos + r.value.1)
  {
    hide Iter.BeginArray, ReadFieldsLoop;
  }

  lemma {:induction false} FacingAt(j: Iter, kept: seq<Byte>, unique: seq<Byte>, e: nat)
    requires j.pos % 8 == 0 && Holds(j.mem, j.pos, kept + SenderBytes(unique))
    requires e == j.pos + |kept| + |SenderBytes(unique)|
    ensures Facing(j, kept, unique, e)
  {
    hide Holds, SenderBytes, PadLen;
    AlignedNoPad(j.pos);
  }

  lemma {:induction false} HeldParts(b: seq<Byte>, kept: seq<Byte>, unique: seq<Byte>, mem: seq<Byte>, p: nat)
    requires |b| >= 16 && |kept| % 8 == 0 && |kept| <= MAX_ARRAY + 7 && |unique| <= 20
    requires Holds(mem, p, Completed(b[..16] + kept, unique))
    ensures var n := |kept| + |SenderBytes(unique)|;
            && Holds(mem, p + 12, Word(4, n)) && WordValue(Word(4, n)) == n
            && Holds(mem, p + 16, kept + SenderBytes(unique))
  {
    hide SenderBytes, Word, WordValue, FieldsLength, PadLen, Pad, Completed, Holds;
    var stripped := b[..16] + kept;
    CompletedLayout(stripped, unique);
    var x := SenderBytes(unique);
    var w := Word(4, |kept| + |x|);
    assert |stripped| + |x| - 16 == |kept| + |x|;
    assert stripped[..12] == b[..12] && stripped[16..] == kept;
    HoldsConcat(mem, p, b[..12] + w, kept + x + Pad(|x|, 8));
    HoldsConcat(mem, p, b[..12], w);
    HoldsConcat(mem, p + 16, kept + x, Pad(|x|, 8));
    SenderLayout(unique);
    SpanFacts();
    WordRoundTrip(4, |kept| + |x|);
  }

  lemma {:induction false} HeaderLong(b: seq<Byte>)
    requires IsHeader(b)
    ensures |b| >= 16
  {
  }

  lemma {:induction false} FieldsStartAt(mem: seq<Byte>, p: nat, size: nat, n: nat)
    requires p % 8 == 0 && size >= 12 && Holds(mem, p + 12, Word(4, n)) && WordValue(Word(4, n)) == n
    requires Iter(mem, p + 12, size - 12, FIELDS_SIG).BeginArray().Some?
    ensures var (i0, k, _) := Iter(mem, p + 12, size - 12, FIELDS_SIG).BeginArray().value;
            i0.mem == mem && i0.pos == p + 16 && k == n
  {
    hide WordValue, Word, RestOf, PadLen;
    WordPads(p);
  }

  lemma {:induction false} WordPads(p: nat)
    requires p % 8 == 0
    ensures PadLen(p + 12, 4) == 0 && PadLen(p + 16, 8) == 0
  {
  }

  /** The sender of a message behind the rewrite of a header of any content, in front
      of any body: it is the true one when every kept field ends inside the header;
      when one does not, the parser jumps over the appended field and finds no
      sender, unless the jump takes it into the body. */
  lemma {:induction false} SenderAuthentic(b: seq<Byte>, unique: seq<Byte>, mem: seq<Byte>, p: nat, size: nat)
    requires IsHeader(b) && Fix(b, unique).Rewritten?
    requires NulFree(unique) && |unique| <= 20 && p % 8 == 0
    requires 16 <= size && p + size <= |mem| && Holds(mem, p, Fix(b, unique).bytes)
    requires Parse(mem, p, size).Parsed?
    ensures FieldsInside(b) ==> Parse(mem, p, size).msg.fields.sender == Some(unique)
    ensures !FieldsInside(b) && !JumpsIntoBody(b, unique) && Printable(unique) ==>
              Parse(mem, p, size).msg.fields.sender.None?
  {
    hide Fix, ScanHeader, FieldsIter, SenderBytes, Completed, ReadFieldsLoop, KeptInside, Overshoots, Scan, Facing,
         SenderLies, Holds, P.ParseFields, FieldsLength, IsHeader, NulFree, WordValue, Printable;
    FixIsScan(b, unique);
    ScanAligned(b);
    var j := ParseFaces(b, unique, mem, p, size);
    var kept := ScanHeader(b).kept;
    var e := p + 16 + |kept| + |SenderBytes(unique)|;
    LyingAt(b, kept, unique, mem, p);
    LoopSender(Iter(b, 16, |b| - 16, FIELD_SIG), 16 + FieldsLength(b), NO_FIELDS, j, e, unique);
  }

  /** For a message without a body the sender that is read is the true one if and
      only if every kept field ends inside the header, and there is none otherwise. */
  lemma {:induction false} SenderTrueIff(b: seq<Byte>, unique: seq<Byte>)
    requires IsHeader(b) && Fix(b, unique).Rewritten? && NulFree(unique) && Printable(unique)
    requires Parse(Fix(b, unique).bytes, 0, |Fix(b, unique).bytes|).Parsed?
    ensures var h := Fix(b, unique).bytes;
            Parse(h, 0, |h|).msg.fields.sender == if FieldsInside(b) then Some(unique) else None
  {
    hide Fix, ScanHeader, FieldsIter, SenderBytes, Completed, ReadFieldsLoop, KeptInside, Overshoots, Scan, Facing,
         Holds, P.ParseFields, FieldsLength, IsHeader, NulFree, WordValue, PadLen;
    var h := Fix(b, unique).bytes;
    FixIsScan(b, unique);
    ScanAligned(b);
    HeaderLong(b);
    assert Holds(h, 0, h) by { WholeHolds(h); }
    var j := ParseFaces(b, unique, h, 0, |h|);
    var kept := ScanHeader(b).kept;
    CompletedSize(b, kept, unique);
    NoBodyNoOvershoot(Iter(b, 16, |b| - 16, FIELD_SIG), 16 + FieldsLength(b), NO_FIELDS, j,
                      16 + |kept| + |SenderBytes(unique)|, unique);
    SenderAuthentic(b, unique, h, 0, |h|);
  }

  lemma {:induction false} WholeHolds(h: seq<Byte>)
    ensures Holds(h, 0, h)
  {
  }

  lemma {:induction false} CompletedSize(b: seq<Byte>, kept: seq<Byte>, unique: seq<Byte>)
    requires |b| >= 16 && |kept| % 8 == 0 && |kept| <= MAX_ARRAY + 7 && |unique| <= 20
    ensures |Completed(b[..16] + kept, unique)| == 16 + |kept| + AlignUp(|SenderBytes(unique)|, 8)
  {
    hide SenderBytes, Completed, FieldsLength, PadLen, Word;
    CompletedLayout(b[..16] + kept, unique);
  }

  lemma {:induction false} LyingAt(b: seq<Byte>, kept: seq<Byte>, unique: seq<Byte>, mem: seq<Byte>, p: nat)
    requires |b| >= 16 && |kept| % 8 == 0 && |kept| <= MAX_ARRAY + 7 && |unique| <= 20 && p % 8 == 0
    requires Holds(mem, p, Completed(b[..16] + kept, unique))
    ensures SenderLies(mem, p + 16 + |kept|, unique)
  {
    hide SenderBytes, Word, WordValue, PadLen, Pad, Completed, FieldsLength, Holds;
    var stripped := b[..16] + kept;
    CompletedLayout(stripped, unique);
    var x := SenderBytes(unique);
    var w := Word(4, |kept| + |x|);
    assert |stripped| + |x| - 16 == |kept| + |x|;
    assert stripped[..12] == b[..12] && stripped[16..] == kept;
    HoldsConcat(mem, p, b[..12] + w, kept + x + Pad(|x|, 8));
    assert kept + x + Pad(|x|, 8) == kept + (x + Pad(|x|, 8));
    HoldsConcat(mem, p + 16, kept, x + Pad(|x|, 8));
  }
}
