/** When the sender that a receiver reads is neither the appended one nor absent: the
    last kept field takes the parser into the body. */
module Overshoot {
  import opened Bytes
  import opened Signature
  import opened Codec
  import opened CodecLaws
  import opened Header
  import opened HeaderRewrite
  import opened HeaderScan
  import opened Message
  import opened Turns
  import opened Extend
  import opened Authentic
  import P = Message
  import Outside

  /** The name in a sender field that names nobody */
  const NO_NAME: seq<Byte> := []

  lemma {:induction false} ExtendsTurn(m: Fields, i: Iter, j: Iter)
    requires Extends(i, j) && Turn(m, i).Some?
    ensures Turn(m, j).Some? && Turn(m, j).value.0 == Turn(m, i).value.0
    ensures Extends(Turn(m, i).value.1, Turn(m, j).value.1) && Spends(j, Turn(m, j).value.1)
  {
    hide Extends, BeginField, ReadField, EndField, Spends;
    ExtendsParts(i, j);
    var i', j' := i.(sig := FIELD_SIG), j.(sig := FIELD_SIG);
    ExtendsBegin(i', j');
    var (code, i0) := BeginField(i').value;
    var j0 := BeginField(j').value.1;
    ExtendsField(m, code, i0, j0);
    ExtendsEnd(ReadField(m, code, i0).value.1, ReadField(m, code, j0).value.1, [STRUCT_END]);
    SpendsTurn(m, j');
    SpendsSig(j, Turn(m, j).value.1);
  }

  lemma {:induction false} SpendsSig(i: Iter, j: Iter)
    requires Spends(i.(sig := FIELD_SIG), j)
    ensures Spends(i, j)
  {
  }

  lemma {:induction false} ExtendsPlace(i: Iter, j: Iter)
    requires Extends(i, j)
    ensures i.pos == j.pos && i.mem <= j.mem
  {
  }

  lemma {:induction false} SpendsTrans(i: Iter, j: Iter, n: nat)
    requires Spends(i, j) && n <= i.pos + i.size
    ensures n <= j.pos + j.size
  {
  }

  /** The kept fields end where the sender field was appended; `jh` reads them in the
      header alone, and `j` in front of a body that starts with a sender field. When
      the last of them overshoots, the field of the body is read. */
  lemma {:induction false} ReadsBody(
    i: Iter, end: nat, m: Fields, jh: Iter, j: Iter, e: nat, unique: seq<Byte>)
    requires i.pos % 8 == 0 && i.pos <= |i.mem| && |i.mem| % 8 == 0 && end <= |i.mem| <= end + 7
    requires Scan(i, end).Fits? && Facing(jh, Scan(i, end).kept, unique, e) && Extends(jh, j)
    requires Overshoots(i, end, |SenderBytes(unique)|) && e >= |SenderBytes(unique)|
    requires var s := e - |SenderBytes(unique)|;
             var body := s + AlignUp(|SenderBytes(unique)|, 8);
             && ReadFieldsLoop(m, jh, s).Some?
             && Holds(j.mem, body, SenderBytes(NO_NAME)) && body + |SenderBytes(NO_NAME)| <= j.pos + j.size
    ensures var stored := ReadFieldsLoop(m, jh, e - |SenderBytes(unique)|).value;
            ReadFieldsLoop(m, j, e) == Some(stored.(sender := Some(NO_NAME)))
    decreases i.size
  {
    hide SkipField, Outside.FieldOutside, ReadFieldsLoop, Facing, SenderBytes, PadLen, Holds, FieldStop, Scan, Overshoots,
         Extends, Spends, Turn;
    var n := |SenderBytes(unique)|;
    var s := e - n;
    OvershootStarts(i, end, n);
    ScanGoesOn(i, end);
    OvershootIs(i, end, n);
    FacingParts(jh, Scan(i, end).kept, unique, e);
    AlignedPad(jh.pos);
    var i' := i.(sig := FIELD_SIG);
    var (code, i0) := SkipField(i').value;
    FieldAligned(i');
    if code == HEADER_SENDER {
      ReadsBody(i0, end, m, jh, j, e, unique);
    } else {
      KeptSomething(i, end);
      var m1, jh2, j2 := BothTurn(m, jh, j, s, e, s + AlignUp(n, 8) + |SenderBytes(NO_NAME)|);
      if i0.pos <= |i.mem| {
        NextFacing(i, end, m, jh, e, unique);
        ReadsBody(i0, end, m1, jh2, j2, e, unique);
      } else {
        LastInBody(i, end, m, jh, j2, s, n);
      }
    }
  }

  /** One turn in the header alone, and in front of the body */
  lemma {:induction false} BothTurn(m: Fields, jh: Iter, j: Iter, s: nat, e: nat, limit: nat)
    returns (m1: Fields, jh2: Iter, j2: Iter)
    requires Extends(jh, j) && jh.pos < s <= e && ReadFieldsLoop(m, jh, s).Some? && limit <= j.pos + j.size
    ensures Turn(m, jh) == Some((m1, jh2)) && Extends(jh2, j2) && j2.mem == j.mem && j2.pos == jh2.pos
    ensures ReadFieldsLoop(m, jh, s) == ReadFieldsLoop(m1, jh2, s)
    ensures ReadFieldsLoop(m, j, e) == ReadFieldsLoop(m1, j2, e)
    ensures limit <= j2.pos + j2.size
  {
    hide ReadFieldsLoop, Extends, Spends, Turn;
    ExtendsPlace(jh, j);
    LoopIsTurn(m, jh, s);
    ExtendsTurn(m, jh, j);
    LoopIsTurn(m, j, e);
    m1 := Turn(m, jh).value.0;
    jh2 := Turn(m, jh).value.1;
    j2 := Turn(m, j).value.1;
    SpendsTrans(j, j2, limit);
    TurnMemory(m, j);
    ExtendsPlace(jh2, j2);
  }

  /** The turn that overshoots, and what the parser does behind it */
  lemma {:induction false} LastInBody(i: Iter, end: nat, m: Fields, jh: Iter, j2: Iter, s: nat, n: nat)
    requires i.pos % 8 == 0 && i.pos < end <= |i.mem| && |i.mem| % 8 == 0 && Scan(i, end).Fits?
    requires SkipField(i.(sig := FIELD_SIG)).Some?
    requires var (code, i0) := SkipField(i.(sig := FIELD_SIG)).value;
             code != HEADER_SENDER && i0.pos > |i.mem|
    requires Holds(jh.mem, AlignUp(jh.pos, 8), Scan(i, end).kept) && Turn(m, jh).Some?
    requires Turn(m, jh).value.1.pos == j2.pos && s == AlignUp(jh.pos, 8) + |Scan(i, end).kept|
    requires var stop := FieldStop(i.(sig := FIELD_SIG));
             stop < |i.mem| + n && AlignUp(stop, 8) >= |i.mem| + AlignUp(n, 8)
    requires Holds(j2.mem, s + AlignUp(n, 8), SenderBytes(NO_NAME))
    requires s + AlignUp(n, 8) + |SenderBytes(NO_NAME)| <= j2.pos + j2.size
    ensures var (m1, jh2) := Turn(m, jh).value;
            && ReadFieldsLoop(m1, jh2, s) == Some(m1)
            && ReadFieldsLoop(m1, j2, s + n) == Some(m1.(sender := Some(NO_NAME)))
  {
    hide SkipField, Outside.FieldOutside, ReadFieldsLoop, SenderBytes, PadLen, AlignUp, Holds, FieldStop, Scan, Turn;
    var m1, jh2 := LastStop(i, end, m, jh);
    LoopIsTurn(m1, jh2, s);
    AlignedPad(jh.pos);
    LandsOnBody(FieldStop(i.(sig := FIELD_SIG)), |i.mem|, n, AlignUp(jh.pos, 8) - i.pos);
    BodyField(m1, j2, s + AlignUp(n, 8), s + n);
  }

  lemma {:induction false} KeptSomething(i: Iter, end: nat)
    requires i.pos < end <= |i.mem| && i.pos % 8 == 0 && |i.mem| % 8 == 0 && Scan(i, end).Fits?
    requires SkipField(i.(sig := FIELD_SIG)).Some? && SkipField(i.(sig := FIELD_SIG)).value.0 != HEADER_SENDER
    ensures |Scan(i, end).kept| > 0
  {
    hide Outside.FieldOutside;
    SkipsSomething(i.(sig := FIELD_SIG));
  }

  lemma {:induction false} SkipsSomething(it: Iter)
    requires SkipField(it).Some?
    ensures SkipField(it).value.1.pos > it.pos
  {
    hide Skip, Iter.BeginVariant, PadLen;
    SkipFieldParts(it);
    var i1 := it.Next().Align(8).value;
    assert i1.Next().Get(1).value.1.pos > it.pos;
  }

  lemma {:induction false} TurnMemory(m: Fields, j: Iter)
    requires Turn(m, j).Some?
    ensures Turn(m, j).value.1.mem == j.mem
  {
    hide BeginField, ReadField, EndField;
    var (code, j0) := BeginField(j.(sig := FIELD_SIG)).value;
    ReadFieldStop(m, code, j0);
  }

  /** Behind a kept field, the header alone still faces the rest. */
  lemma {:induction false} NextFacing(i: Iter, end: nat, m: Fields, jh: Iter, e: nat, unique: seq<Byte>)
    requires i.pos % 8 == 0 && i.pos < end <= |i.mem| && Scan(i, end).Fits?
    requires Facing(jh, Scan(i, end).kept, unique, e) && Turn(m, jh).Some?
    requires SkipField(i.(sig := FIELD_SIG)).Some?
    requires var (code, i0) := SkipField(i.(sig := FIELD_SIG)).value;
             code != HEADER_SENDER && i0.pos <= |i.mem|
    ensures var i0 := SkipField(i.(sig := FIELD_SIG)).value.1;
            Scan(i0, end).Fits? && Facing(Turn(m, jh).value.1, Scan(i0, end).kept, unique, e)
  {
    hide SkipField, Outside.FieldOutside, SenderBytes, PadLen, Holds, Facing, Scan, FieldStop, Turn;
    var i' := i.(sig := FIELD_SIG);
    var i0 := SkipField(i').value.1;
    var p := AlignUp(jh.pos, 8);
    var piece := i.mem[i.pos..i0.pos];
    ScanKeeps(i, end);
    var rest := Scan(i0, end).kept;
    AlignedPad(jh.pos);
    FacingParts(jh, Scan(i, end).kept, unique, e);
    HoldsConcat(jh.mem, p, piece, rest);
    var m1, j2, q := TurnAgain(i', jh, m, i0.pos);
    NextStart(q, p - i.pos);
    assert AlignUp(j2.pos, 8) == p + |piece|;
    FacingRest(j2, rest, unique, e);
  }

  /** An overshoot ends at the body, to the byte. */
  lemma {:induction false} LandsOnBody(stop: nat, b: nat, n: nat, d: int)
    requires stop > b && b % 8 == 0 && d % 8 == 0 && b + d >= 0
    requires stop < b + n && AlignUp(stop, 8) >= b + AlignUp(n, 8)
    ensures AlignUp(stop + d, 8) == b + d + AlignUp(n, 8) && stop + d < b + d + n
  {
    hide AlignUp;
    NextStart(stop, d);
    AlignedPad(stop);
    AlignedPad(n);
    EightSum(b, AlignUp(n, 8));
    Blocks(AlignUp(stop, 8), b + AlignUp(n, 8), stop, b + n);
  }

  lemma {:induction false} EightSum(a: nat, b: nat)
    requires a % 8 == 0 && b % 8 == 0
    ensures (a + b) % 8 == 0
  {
  }

  lemma {:induction false} Blocks(x: nat, y: nat, stop: nat, t: nat)
    requires x % 8 == 0 && y % 8 == 0 && stop <= x < stop + 8 && t <= y < t + 8 && stop < t && x >= y
    ensures x == y
  {
  }

  lemma {:induction false} BodyField(m: Fields, j: Iter, body: nat, e: nat)
    requires j.pos < e <= body && AlignUp(j.pos, 8) == body
    requires Holds(j.mem, body, SenderBytes(NO_NAME)) && body + |SenderBytes(NO_NAME)| <= j.pos + j.size
    ensures ReadFieldsLoop(m, j, e) == Some(m.(sender := Some(NO_NAME)))
  {
    hide ReadFieldsLoop, Holds, PadLen, Turn, Encode, GoodField;
    SenderGood(NO_NAME);
    var j2 := GoodTurn(m, j, Sender(NO_NAME));
    LoopIsTurn(m, j, e);
    LoopIsTurn(m.(sender := Some(NO_NAME)), j2, e);
  }

  // ------------------------------------------------------------- the whole message

  /** Apart from what the last of them does, the kept fields of the header are well
      formed enough: read alone, they make a complete message. */
  predicate KeptParses(b: seq<Byte>, unique: seq<Byte>)
    requires IsHeader(b) && Fix(b, unique).Rewritten?
  {
    var h := Fix(b, unique).bytes;
    && ScanHeader(b).Fits? && MSG_INVALID < h[1] <= MSG_SIGNAL && FieldsLength(h) <= MAX_ARRAY
    && var stored := ReadFieldsLoop(NO_FIELDS, Iter(h, 16, |h| - 16, FIELD_SIG), 16 + |ScanHeader(b).kept|);
    stored.Some? && Complete(h[1], stored.value, WordValue(h[4..8]))
  }

  /** In front of this body the parser finds a sender, and it is not the true one. */
  predicate ReadsOther(h: seq<Byte>, body: seq<Byte>, unique: seq<Byte>) {
    && |h| >= 16 && Parse(h + body, 0, |h + body|).Parsed?
    && var x := Parse(h + body, 0, |h + body|).msg.fields.sender;
    x.Some? && x.value != unique
  }

  /** The fields in a header that is 12 bytes, a length word, and the rest */
  lemma {:induction false} ArrayFound(h: seq<Byte>, n: nat)
    requires |h| >= 16 && WordValue(h[12..16]) == n <= MAX_ARRAY
    ensures Iter(h, 12, |h| - 12, FIELDS_SIG).BeginArray() == Some((Iter(h, 16, |h| - 16, FIELD_SIG), n, []))
    ensures P.ParseFields(h, 0, |h|) == ReadFieldsLoop(NO_FIELDS, Iter(h, 16, |h| - 16, FIELD_SIG), 16 + n)
  {
    hide WordValue, RestOf, PadLen, ReadFieldsLoop;
    HeaderPads();
    var it := Iter(h, 12, |h| - 12, FIELDS_SIG);
    assert it.Next() == Iter(h, 12, |h| - 12, FIELD_SIG);
    assert it.Next().Get(4) == Some((n, Iter(h, 16, |h| - 16, FIELD_SIG)));
    FieldRest();
  }

  lemma {:induction false} FieldRest()
    ensures RestOf(FIELD_SIG) == Some([])
  {
    FieldsText();
    ParseShow(FIELD, []);
    assert FIELD_SIG + [] == FIELD_SIG;
  }

  lemma {:induction false} FrontOf(h: seq<Byte>, body: seq<Byte>)
    requires |h| >= 16
    ensures var mem := h + body;
            && mem[12..16] == h[12..16] && mem[4..8] == h[4..8] && mem[1] == h[1] && mem[0..16][1] == h[1]
            && mem[0..16][4..8] == h[4..8]
            && Holds(mem, 0, h) && Holds(mem, |h|, body)
            && Extends(Iter(h, 16, |h| - 16, FIELD_SIG), Iter(mem, 16, |mem| - 16, FIELD_SIG))
  {
  }

  lemma {:induction false} ParseOf(mem: seq<Byte>, m: Fields)
    requires |mem| >= 16 && MSG_INVALID < mem[0..16][1] <= MSG_SIGNAL
    requires P.ParseFields(mem, 0, |mem|) == Some(m) && Complete(mem[0..16][1], m, WordValue(mem[0..16][4..8]))
    ensures Parse(mem, 0, |mem|).Parsed? && Parse(mem, 0, |mem|).msg.fields == m
  {
    hide P.ParseFields, WordValue, PadLen;
  }

  /** A body that starts with a sender field of its own is where the jump ends. */
  lemma {:induction false} BodyRead(b: seq<Byte>, unique: seq<Byte>)
    requires IsHeader(b) && Fix(b, unique).Rewritten? && |unique| <= 20
    requires KeptParses(b, unique) && JumpsIntoBody(b, unique)
    ensures var mem := Fix(b, unique).bytes + SenderBytes(NO_NAME);
            && |mem| >= 16 && Parse(mem, 0, |mem|).Parsed?
            && Parse(mem, 0, |mem|).msg.fields.sender == Some(NO_NAME)
  {
    hide Fix, ScanHeader, FieldsIter, SenderBytes, Completed, ReadFieldsLoop, Overshoots, Scan, Facing, Complete,
         Holds, P.ParseFields, FieldsLength, IsHeader, WordValue, Extends, PadLen;
    FixIsScan(b, unique);
    ScanAligned(b);
    HeaderLong(b);
    var h := Fix(b, unique).bytes;
    var kept := ScanHeader(b).kept;
    var x := SenderBytes(unique);
    var body := SenderBytes(NO_NAME);
    var mem := h + body;
    var jh := Iter(h, 16, |h| - 16, FIELD_SIG);
    var j := Iter(mem, 16, |mem| - 16, FIELD_SIG);
    var s := 16 + |kept|;
    var n := |kept| + |x|;
    RewrittenParts(b, unique);
    FrontOf(h, body);
    LengthWord(h, n);
    ArrayFound(mem, n);
    var i := Iter(b, 16, |b| - 16, FIELD_SIG);
    ReadsBody(i, 16 + FieldsLength(b), NO_FIELDS, jh, j, 16 + n, unique);
    var stored := ReadFieldsLoop(NO_FIELDS, jh, s).value;
    CompleteAnyway(h[1], stored, WordValue(h[4..8]));
    ParseOf(mem, stored.(sender := Some(NO_NAME)));
  }

  lemma {:induction false} LengthWord(h: seq<Byte>, n: nat)
    requires |h| >= 16 && FieldsLength(h) == n
    ensures WordValue(h[12..16]) == n
  {
    hide WordValue;
  }

  lemma {:induction false} CompleteAnyway(mtype: Byte, m: Fields, argsize: nat)
    requires Complete(mtype, m, argsize)
    ensures Complete(mtype, m.(sender := Some(NO_NAME)), argsize)
  {
  }

  /** Where the parts of a rewritten header lie */
  lemma {:induction false} RewrittenParts(b: seq<Byte>, unique: seq<Byte>)
    requires IsHeader(b) && ScanHeader(b).Fits? && |unique| <= 20 && |b| >= 16
    requires Fix(b, unique) == Rewritten(Completed(b[..16] + ScanHeader(b).kept, unique))
    ensures var h := Fix(b, unique).bytes;
            var kept := ScanHeader(b).kept;
            var x := SenderBytes(unique);
            && |h| == 16 + |kept| + AlignUp(|x|, 8) && FieldsLength(h) == |kept| + |x|
            && Facing(Iter(h, 16, |h| - 16, FIELD_SIG), kept, unique, 16 + |kept| + |x|)
  {
    hide Fix, ScanHeader, SenderBytes, Completed, Facing, Holds, FieldsLength, IsHeader, WordValue, Word, PadLen;
    var kept := ScanHeader(b).kept;
    assert |kept| % 8 == 0 && |kept| <= MAX_ARRAY + 7 by { ScanAligned(b); }
    CompletedParts(b, kept, unique);
  }

  lemma {:induction false} CompletedParts(b: seq<Byte>, kept: seq<Byte>, unique: seq<Byte>)
    requires |b| >= 16 && |kept| % 8 == 0 && |kept| <= MAX_ARRAY + 7 && |unique| <= 20
    ensures var h := Completed(b[..16] + kept, unique);
            var x := SenderBytes(unique);
            && |h| == 16 + |kept| + AlignUp(|x|, 8) && FieldsLength(h) == |kept| + |x|
            && Facing(Iter(h, 16, |h| - 16, FIELD_SIG), kept, unique, 16 + |kept| + |x|)
  {
    hide SenderBytes, Completed, Facing, Holds, FieldsLength, WordValue, Word, PadLen;
    var stripped := b[..16] + kept;
    var h := Completed(stripped, unique);
    CompletedLayout(stripped, unique);
    assert |stripped| == 16 + |kept|;
    WholeHolds(h);
    HeldParts(b, kept, unique, h, 0);
    FacingAt(Iter(h, 16, |h| - 16, FIELD_SIG), kept, unique, 16 + |kept| + |SenderBytes(unique)|);
  }

  /** For a header that otherwise parses, some body makes the parser read a sender that
      is neither the true one nor absent if and only if the last kept field jumps into
      the body. */
  lemma {:induction false} SenderOpenIff(b: seq<Byte>, unique: seq<Byte>)
    requires IsHeader(b) && Fix(b, unique).Rewritten? && KeptParses(b, unique)
    requires NulFree(unique) && Printable(unique) && unique != []
    ensures JumpsIntoBody(b, unique) <==> exists body: seq<Byte> :: ReadsOther(Fix(b, unique).bytes, body, unique)
  {
    hide Fix, Parse, IsHeader, KeptParses, JumpsIntoBody, FieldsInside, Printable, NulFree, SenderBytes, Holds;
    PrintableShort(unique);
    HeaderLong(b);
    var h := Fix(b, unique).bytes;
    if JumpsIntoBody(b, unique) {
      BodyRead(b, unique);
      assert ReadsOther(h, SenderBytes(NO_NAME), unique);
    } else {
      forall body: seq<Byte> | ReadsOther(h, body, unique)
        ensures false
      {
        FrontOf(h, body);
        SenderAuthentic(b, unique, h + body, 0, |h + body|);
      }
    }
  }

  lemma {:induction false} PrintableShort(unique: seq<Byte>)
    requires Printable(unique)
    ensures |unique| <= 20
  {
  }
}
