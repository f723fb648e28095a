/** FixHeaders of the bus server: remove every sender field from a received
    header and append the true sender. */
module HeaderRewrite {
  import opened Bytes
  import opened Signature
  import opened Codec
  import opened CodecLaws
  import opened Header
  import opened Outside
  import I = Iterator

  const FIELDS_SIG: seq<Byte> := [ARRAY_BEGIN, STRUCT_BEGIN, UINT8, VARIANT_BEGIN, STRUCT_END]
  const FIELD_SIG: seq<Byte> := [STRUCT_BEGIN, UINT8, VARIANT_BEGIN, STRUCT_END]

  /** One turn of the loop: over a field and the padding behind it. */
  function SkipField(it: Iter): (r: Option<(nat, Iter)>)
    ensures r.Some? ==> r.value.1.mem == it.mem && r.value.1.size < it.size && r.value.1.pos >= it.pos
  {
    hide BeginField, Skip, EndField;
    var (code, i0) :- BeginField(it);
    var i1 :- Skip(i0);
    var i2 :- EndField(i1, [STRUCT_END]);
    var i3 :- i2.Align(8);
    Some((code, i3))
  }

  /** What becomes of a header: its new bytes, or nothing because it does not
      parse, or nothing that the source defines, because it looks or deletes
      outside of its buffer. */
  datatype Rewrite = Rewritten(bytes: seq<Byte>) | Rejected | Overrun

  /** The loop over the fields in `it.mem`: fields of code sender are cut out of
      the memory under the iterator, and the array ends that much earlier.
      Nothing in the source keeps the cut inside of the buffer. */
  function StripLoop(it: Iter, end: nat): (r: Rewrite)
    requires it.pos >= 16 && |it.mem| <= end + 7
    ensures r.Rewritten? ==> |r.bytes| <= |it.mem| && (|it.mem| >= 16 ==> |r.bytes| >= 16)
    decreases it.size
  {
    if it.pos >= end then Rewritten(it.mem)
    else
      match SkipField(it.(sig := FIELD_SIG))
      case None => if FieldOutside(it.(sig := FIELD_SIG)) then Overrun else Rejected
      case Some((code, i0)) =>
        if code != HEADER_SENDER then StripLoop(i0, end)
        else if i0.pos > |it.mem| then Overrun
        else
          var mem := it.mem[..it.pos] + it.mem[i0.pos..];
          StripLoop(i0.(mem := mem, pos := it.pos), end - (i0.pos - it.pos))
  }

  function Sender(unique: seq<Byte>): Field {
    Field(HEADER_SENDER, Text(STRING, unique))
  }

  /** The length word of a header */
  function FieldsLength(b: seq<Byte>): nat
    requires |b| >= 16
  {
    WordValue(b[12..16])
  }

  /** The header is as long as its length word says: the assertion at the start of
      FixHeaders. */
  predicate IsHeader(b: seq<Byte>) {
    |b| >= 16 && |b| == 16 + AlignUp(FieldsLength(b), 8)
  }

  /** The rewritten header, for a header in native byte order */
  function Fix(b: seq<Byte>, unique: seq<Byte>): (r: Rewrite)
    requires IsHeader(b)
    ensures r.Rewritten? ==> |r.bytes| >= 16
  {
    HeaderStart(b);
    match FieldsIter(b)
    case None => Rejected
    case Some((i0, n)) =>
      match StripLoop(i0, i0.pos + n)
      case Rejected => Rejected
      case Overrun => Overrun
      case Rewritten(stripped) =>
        Rewritten(Completed(stripped, unique))
  }

  /** The sender field appended, the length word set, and the padding */
  function Completed(stripped: seq<Byte>, unique: seq<Byte>): (h: seq<Byte>)
    requires |stripped| >= 16
    ensures |h| >= 16
  {
    var b1 := stripped + Encode(|stripped|, Sender(unique).ToValue());
    var b2 := b1[..12] + Word(4, |b1| - 16) + b1[16..];
    b2 + Pad(|b2|, 8)
  }

  /** The iterator in front of the fields, and the length of their array */
  function FieldsIter(b: seq<Byte>): (r: Option<(Iter, nat)>)
    requires |b| >= 16
  {
    var (i0, n, _) :- Iter(b, 12, 4 + AlignUp(FieldsLength(b), 8), FIELDS_SIG).BeginArray();
    Some((i0, n))
  }

  lemma {:induction false} HeaderStart(b: seq<Byte>)
    requires IsHeader(b)
    ensures FieldsIter(b).Some? ==>
              var (i0, n) := FieldsIter(b).value;
              i0 == Iter(b, 16, |b| - 16, FIELD_SIG) && n == FieldsLength(b) && |b| - 7 <= 16 + n <= |b|
  {
    hide PadLen, WordValue, RestOf;
    var it := Iter(b, 12, 4 + AlignUp(FieldsLength(b), 8), FIELDS_SIG);
    HeaderPads();
    assert it.Next().Get(4) == Some((FieldsLength(b), it.Next().Advance(4)));
  }

  lemma {:induction false} HeaderPads()
    ensures PadLen(12, 4) == 0 && PadLen(16, 8) == 0
  {
  }

  /** beginstruct, u8, beginvariant */
  method FieldPrefix(i: I.Iterator) returns (ok: bool, code: nat, origsig: seq<Byte>)
    requires i.sig == FIELD_SIG
    modifies i
    ensures ok == BeginField(old(i.State())).Some?
    ensures ok ==> (code, i.State()) == BeginField(old(i.State())).value && origsig == [STRUCT_END]
  {
    hide Codec.Iter.BeginVariant, Codec.Iter.Get, PadLen;
    code, origsig := 0, [];
    ok := i.Sig(STRUCT_BEGIN);
    ok := i.Align(8);
    if !ok {
      return;
    }
    ok := i.Sig(UINT8);
    ok, code := i.Get(1);
    if !ok {
      return;
    }
    ok, origsig := i.BeginVariant();
  }

  /** endvariant, endstruct */
  method FieldSuffix(i: I.Iterator, origsig: seq<Byte>) returns (ok: bool)
    modifies i
    ensures ok == EndField(old(i.State()), origsig).Some?
    ensures ok ==> i.State() == EndField(old(i.State()), origsig).value
  {
    ok := i.EndVariant(origsig);
    if ok {
      ok := i.Sig(STRUCT_END);
    }
  }

  lemma {:induction false} FieldSignature(it: Iter)
    requires it.sig == FIELDS_SIG && it.BeginArray().Some?
    ensures it.BeginArray().value.0.sig == FIELD_SIG
  {
    hide Iter.Get, PadLen, RestOf;
  }

  // --------------------------------------------------- what the rewrite means

  function Kept(fs: seq<Field>): (r: seq<Field>)
    ensures GoodFields(fs) ==> GoodFields(r)
    ensures forall i :: 0 <= i < |r| ==> r[i].code != HEADER_SENDER
  {
    if fs == [] then []
    else if fs[0].code == HEADER_SENDER then Kept(fs[1..])
    else [fs[0]] + Kept(fs[1..])
  }

  /** The number of padding bytes behind the last field. */
  function LastPad(fs: seq<Field>): (n: nat)
  {
    if fs == [] then 0 else
    PadLen(|Encode(0, fs[|fs| - 1].ToValue())|, 8)
  }

  /** Over a padded field, the loop body stops at the next field. */
  lemma {:induction false} SkipFieldHeld(it: Iter, f: Field)
    requires GoodField(f) && it.pos % 8 == 0
    requires Holds(it.mem, it.pos, Chunk(f)) && |Chunk(f)| <= it.size
    requires it.sig == FIELD_SIG
    ensures SkipField(it).Some?
    ensures var (code, i0) := SkipField(it).value;
            code == f.code && i0.pos == it.pos + |Chunk(f)| && i0.size >= it.size - |Chunk(f)|
  {
    hide Encode, PadLen, Skip, Show, TypeOf, BeginField, WellFormed, Holds, Fits;
    AtChunk(it, f);
    AtField(it, f, []);
    assert [STRUCT_END] + [] == [STRUCT_END];
    var i0 := BeginField(it).value.1;
    SkipEncode(i0, f.value, []);
    var i2 := EndField(Skip(i0).value, [STRUCT_END]).value;
    ShiftedPad(it.pos, |Encode(0, f.ToValue())|);
    assert PadLen(i2.pos, 8) == |Pad(|Encode(0, f.ToValue())|, 8)|;
  }

  lemma {:induction false} AtChunk(it: Iter, f: Field)
    requires GoodField(f) && it.pos % 8 == 0
    requires Holds(it.mem, it.pos, Chunk(f)) && |Chunk(f)| <= it.size
    requires it.sig == FIELD_SIG
    ensures At(it, f.ToValue(), [])
    ensures Encode(it.pos, f.ToValue()) == Encode(0, f.ToValue())
  {
    GoodFieldWellFormed(f);
    FieldText(f);
    hide Encode, PadLen, Show, TypeOf, WellFormed, Holds, Fits;
    EncodeModulo8(it.pos, 0, f.ToValue());
    var e := Encode(0, f.ToValue());
    HoldsConcat(it.mem, it.pos, e, Pad(|e|, 8));
  }

  /** The loop keeps the fields that are done, drops the senders among those to
      do, and keeps the rest in order. */
  lemma {:induction false} StripLoopKeeps(it: Iter, end: int, head: seq<Byte>, done: seq<Field>, todo: seq<Field>)
    requires GoodFields(todo) && |head| == 16
    requires it.mem == head + Chunks(done) + Chunks(todo)
    requires it.pos == 16 + |Chunks(done)| && it.size >= |Chunks(todo)|
    requires if todo == [] then end <= it.pos else end == it.pos + |Chunks(todo)| - LastPad(todo)
    requires |it.mem| <= end + 7
    ensures StripLoop(it, end) == Rewritten(head + Chunks(done + Kept(todo)))
    decreases todo
  {
    hide SkipField, Chunk, Chunks, LastPad, GoodFields, BeginField;
    if todo == [] {
      assert done + [] == done;
      assert it.mem == head + Chunks(done) by { NoChunks(it.mem, head + Chunks(done)); }
    } else {
      var f := todo[0];
      StripTurn(it, end, head, done, todo);
      GoodRest(todo);
      var i0 := SkipField(it.(sig := FIELD_SIG)).value.1;
      if f.code == HEADER_SENDER {
        var mem := it.mem[..it.pos] + it.mem[i0.pos..];
        StripLoopKeeps(i0.(mem := mem, pos := it.pos), end - |Chunk(f)|, head, done, todo[1..]);
      } else {
        StripLoopKeeps(i0, end, head, done + [f], todo[1..]);
        assert done + [f] + Kept(todo[1..]) == done + Kept(todo);
      }
    }
  }

  lemma {:induction false} NoChunks(mem: seq<Byte>, front: seq<Byte>)
    requires mem == front + Chunks([])
    ensures mem == front
  {
  }

  lemma {:induction false} GoodRest(fs: seq<Field>)
    requires GoodFields(fs) && fs != []
    ensures GoodField(fs[0]) && GoodFields(fs[1..])
  {
  }

  lemma {:induction false} StripTurn(it: Iter, end: int, head: seq<Byte>, done: seq<Field>, todo: seq<Field>)
    requires GoodFields(todo) && |head| == 16 && todo != []
    requires it.mem == head + Chunks(done) + Chunks(todo)
    requires it.pos == 16 + |Chunks(done)| && it.size >= |Chunks(todo)|
    requires end == it.pos + |Chunks(todo)| - LastPad(todo)
    ensures it.pos < end
    ensures var f := todo[0];
            && SkipField(it.(sig := FIELD_SIG)).Some?
            && var (code, i0) := SkipField(it.(sig := FIELD_SIG)).value;
               && code == f.code && i0.pos == it.pos + |Chunk(f)| <= |it.mem|
               && i0.size >= |Chunks(todo[1..])|
    ensures var f := todo[0];
            && it.mem[..it.pos] + it.mem[it.pos + |Chunk(f)|..] == head + Chunks(done) + Chunks(todo[1..])
            && it.mem == head + Chunks(done + [f]) + Chunks(todo[1..])
            && |Chunks(done + [f])| == |Chunks(done)| + |Chunk(f)|
    ensures if todo[1..] == [] then end <= it.pos + |Chunk(todo[0])|
            else end - |Chunk(todo[0])| == it.pos + |Chunks(todo[1..])| - LastPad(todo[1..])
  {
    hide Chunk, Chunks, SkipField, LastPad, GoodFields, GoodField, Holds;
    var f := todo[0];
    ChunksAligned(done);
    GoodRest(todo);
    FirstChunk(todo);
    CutOut(head + Chunks(done), Chunk(f), Chunks(todo[1..]));
    SkipFieldHeld(it.(sig := FIELD_SIG), f);
    ChunksConcat(done, [f]);
    OneChunk(f);
    Regroup(head, Chunks(done), Chunk(f), Chunks(todo[1..]));
    LastPadShort(todo);
  }

  lemma {:induction false} FirstChunk(fs: seq<Field>)
    requires fs != []
    ensures Chunks(fs) == Chunk(fs[0]) + Chunks(fs[1..])
    ensures fs[1..] == [] ==> Chunks(fs[1..]) == []
  {
    hide Chunk;
  }

  lemma {:induction false} Regroup(a: seq<Byte>, b: seq<Byte>, c: seq<Byte>, d: seq<Byte>)
    ensures a + b + (c + d) == a + (b + c) + d
  {
  }

  lemma {:induction false} OneChunk(f: Field)
    ensures Chunks([f]) == Chunk(f)
  {
    hide Chunk;
    assert [f][1..] == [];
  }

  lemma {:induction false} CutOut(a: seq<Byte>, c: seq<Byte>, rest: seq<Byte>)
    ensures var mem := a + (c + rest);
            && mem[..|a|] + mem[|a| + |c|..] == a + rest
            && Holds(mem, |a|, c)
  {
    var mem := a + (c + rest);
    assert mem[..|a|] == a && mem[|a| + |c|..] == rest;
    assert mem[|a|..|a| + |c|] == c;
  }

  lemma {:induction false} LastPadShort(fs: seq<Field>)
    requires fs != []
    ensures LastPad(fs) < |Chunks(fs)|
    ensures fs[1..] != [] ==> LastPad(fs[1..]) == LastPad(fs)
    decreases fs
  {
    hide Encode, PadLen;
    if fs[1..] == [] {
      FieldBytes(0, fs[0]);
    } else {
      LastPadShort(fs[1..]);
    }
  }

  /** The meaning of the rewrite, for every well-formed header: the fields that
      are not senders, in their order, then one sender that names the remote;
      again a complete header with a correct length word. */
  lemma {:induction false} FixMeaning(fixed: seq<Byte>, fs: seq<Field>, unique: seq<Byte>)
    requires |fixed| == 12 && GoodFields(fs) && |Body(fs)| <= MAX_ARRAY
    ensures IsHeader(Whole(fixed, fs))
    ensures Fix(Whole(fixed, fs), unique) == Rewritten(Whole(fixed, Kept(fs) + [Sender(unique)]))
  {
    hide Encode, PadLen, Chunks, StripLoop, Body, WordValue, Word, GoodFields;
    var b := Whole(fixed, fs);
    var head := fixed + Word(4, |Body(fs)|);
    WholeLength(fixed, fs);
    BeginFields(fixed, fs);
    var it := Iter(b, 12, 4 + AlignUp(FieldsLength(b), 8), FIELDS_SIG);
    var i0 := it.BeginArray().value.0;
    StripAll(i0, head, fs);
    Rebuilt(fixed, head, Kept(fs), unique);
  }

  lemma {:induction false} WholeLength(fixed: seq<Byte>, fs: seq<Field>)
    requires |fixed| == 12 && |Body(fs)| <= MAX_ARRAY
    ensures |Whole(fixed, fs)| == 16 + |Chunks(fs)|
    ensures FieldsLength(Whole(fixed, fs)) == |Body(fs)|
    ensures AlignUp(|Body(fs)|, 8) == |Chunks(fs)|
  {
    hide Body, Chunks, Word, WordValue, PadLen;
    var n := |Body(fs)|;
    SpanFacts();
    WordRoundTrip(4, n);
    assert Whole(fixed, fs)[12..16] == Word(4, n);
    BodyIsChunks(fs);
  }

  /** beginarray on the fields of a complete header */
  lemma {:induction false} BeginFields(fixed: seq<Byte>, fs: seq<Field>)
    requires |fixed| == 12 && |Body(fs)| <= MAX_ARRAY
    ensures var b := Whole(fixed, fs);
            var it := Iter(b, 12, 4 + |Chunks(fs)|, FIELDS_SIG);
            it.BeginArray() == Some((Iter(b, 16, |Chunks(fs)|, FIELD_SIG), |Body(fs)|, []))
  {
    FieldsText();
    FieldsStart();
    hide Body, Chunks, Word, PadLen, Iter.BeginArray, Show, BodyStart;
    var b := Whole(fixed, fs);
    var n := |Body(fs)|;
    var it := Iter(b, 12, 4 + |Chunks(fs)|, FIELDS_SIG);
    assert Pad(12, 4) + Word(4, n) == Word(4, n);
    assert b[12..16] == Word(4, n);
    assert FIELDS_SIG + [] == FIELDS_SIG && FIELD_SIG + [] == FIELD_SIG;
    BeginArrayHeld(it, FIELD, n, []);
  }

  lemma {:induction false} FieldsText()
    ensures Show(FIELD) == FIELD_SIG && Show(Array(FIELD)) == FIELDS_SIG
  {
    FieldText(Field(0, SigText([])));
  }

  lemma {:induction false} FieldsStart()
    ensures Pad(12, 4) == [] && BodyStart(12, FIELD) == 16
  {
  }

  lemma {:induction false} StripAll(i0: Iter, head: seq<Byte>, fs: seq<Field>)
    requires |head| == 16 && GoodFields(fs)
    requires i0 == Iter(head + Chunks(fs), 16, |Chunks(fs)|, FIELD_SIG)
    ensures |head + Chunks(fs)| <= 16 + |Body(fs)| + 7
    ensures StripLoop(i0, 16 + |Body(fs)|) == Rewritten(head + Chunks(Kept(fs)))
  {
    hide Body, PadLen, StripLoop, Encode, Chunk, GoodFields;
    BodyIsChunks(fs);
    assert head + Chunks([]) + Chunks(fs) == head + Chunks(fs);
    assert [] + Kept(fs) == Kept(fs);
    StripLoopKeeps(i0, 16 + |Body(fs)|, head, [], fs);
  }

  lemma {:induction false} Rebuilt(fixed: seq<Byte>, head: seq<Byte>, kept: seq<Field>, unique: seq<Byte>)
    requires |fixed| == 12 && |head| == 16 && head[..12] == fixed
    ensures var stripped := head + Chunks(kept);
            var b1 := stripped + Encode(|stripped|, Sender(unique).ToValue());
            var b2 := b1[..12] + Word(4, |b1| - 16) + b1[16..];
            b2 + Pad(|b2|, 8) == Whole(fixed, kept + [Sender(unique)])
  {
    hide Encode, PadLen, Word;
    var f := Sender(unique);
    var stripped := head + Chunks(kept);
    ChunksAligned(kept);
    SumModulo8(0, |Chunks(kept)|, 16);
    EncodeModulo8(|stripped|, 0, f.ToValue());
    var e := Encode(0, f.ToValue());
    BodySnoc(16, kept, f);
    var b1 := stripped + e;
    assert b1[..12] == fixed;
    assert b1[16..] == Chunks(kept) + e;
    ShiftedPad(|stripped|, |e|);
    ChunksConcat(kept, [f]);
    OneChunk(f);
  }

  /** As long as FixHeaders stays in its buffer, that does not outgrow what was
      reserved, whatever the header. */
  lemma {:induction false} FixFitsReserve(b: seq<Byte>, unique: seq<Byte>)
    requires IsHeader(b) && Fix(b, unique).Rewritten?
    ensures |Fix(b, unique).bytes| <= |b| + 7 + 1 + 3 + 3 + 4 + |unique| + 1 + 7
  {
    hide Encode, PadLen, StripLoop, FieldsIter, WordValue, Word;
    HeaderStart(b);
    var (i0, n) := FieldsIter(b).value;
    SenderLength(|StripLoop(i0, i0.pos + n).bytes|, unique);
  }

  lemma {:induction false} SenderLength(off: nat, unique: seq<Byte>)
    ensures |Encode(off, Sender(unique).ToValue())| <= 7 + 1 + 3 + 3 + 4 + |unique| + 1
  {
    hide PadLen, Word;
    FieldBytes(off, Sender(unique));
    EncodeVariant(AlignUp(off, 8) + 1, Text(STRING, unique));
  }
}
