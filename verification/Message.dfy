/** Whole messages: what `adbus_parse` makes of the bytes of a message, on any
    well-formed header. */
module Message {
  import opened Bytes
  import opened Signature
  import opened Codec
  import opened CodecLaws
  import opened Header
  import opened HeaderRewrite

  const MSG_INVALID: Byte := 0
  const MSG_METHOD: Byte := 1
  const MSG_RETURN: Byte := 2
  const MSG_ERROR: Byte := 3
  const MSG_SIGNAL: Byte := 4

  /** The header fields of an adbus_Message; a null pointer is None. */
  datatype Fields = Fields(
    path: Option<seq<Byte>>, interface: Option<seq<Byte>>, member: Option<seq<Byte>>,
    error: Option<seq<Byte>>, destination: Option<seq<Byte>>, sender: Option<seq<Byte>>,
    signature: Option<seq<Byte>>, replySerial: Option<nat>)

  const NO_FIELDS := Fields(None, None, None, None, None, None, None, None)

  /** adbus_Message */
  datatype Message = Message(mtype: Byte, flags: Byte, serial: nat, fields: Fields, argsize: nat, args: seq<Byte>)

  /** adbus_parse ignores messages of a type it does not know. */
  datatype ParseResult = Malformed | Ignored | Parsed(msg: Message)

  predicate IsStringCode(code: nat) {
    code in {HEADER_INTERFACE as nat, HEADER_MEMBER as nat, HEADER_ERROR_NAME as nat,
             HEADER_DESTINATION as nat, HEADER_SENDER as nat}
  }

  function SetString(m: Fields, code: nat, s: seq<Byte>): (r: Fields)
    requires IsStringCode(code)
  {
    if code == HEADER_INTERFACE then m.(interface := Some(s))
    else if code == HEADER_MEMBER then m.(member := Some(s))
    else if code == HEADER_ERROR_NAME then m.(error := Some(s))
    else if code == HEADER_DESTINATION then m.(destination := Some(s))
    else m.(sender := Some(s))
  }

  /** The switch of adbus_parse on one field: check the signature of the
      variant, read the value, store it. Unknown fields are skipped. */
  function ReadField(m: Fields, code: nat, it: Iter): (r: Option<(Fields, Iter)>)
    ensures r.Some? ==> r.value.1.size <= it.size
  {
    if code == HEADER_INVALID then None
    else if IsStringCode(code) then
      if it.sig != [STRING] then None else
      var (v, i0) :- Read(it);
      if v.Text? then Some((SetString(m, code, v.text), i0)) else None
    else if code == HEADER_OBJECT_PATH then
      if it.sig != [OBJECT_PATH] then None else
      var (v, i0) :- Read(it);
      if v.Text? then Some((m.(path := Some(v.text)), i0)) else None
    else if code == HEADER_SIGNATURE then
      if it.sig != [SIGNATURE] then None else
      var (v, i0) :- Read(it);
      if v.SigText? then Some((m.(signature := Some(v.sig)), i0)) else None
    else if code == HEADER_REPLY_SERIAL then
      if it.sig != [UINT32] then None else
      var (v, i0) :- Read(it);
      if v.Fixed? then Some((m.(replySerial := Some(v.n)), i0)) else None
    else
      var i0 :- Skip(it);
      Some((m, i0))
  }

  /** The loop of adbus_parse over the header fields. */
  function ReadFieldsLoop(m: Fields, it: Iter, end: nat): (r: Option<Fields>)
    decreases it.size
  {
    if it.pos >= end then Some(m)
    else
      var (code, i0) :- BeginField(it.(sig := FIELD_SIG));
      var (m1, i1) :- ReadField(m, code, i0);
      var i2 :- EndField(i1, [STRUCT_END]);
      ReadFieldsLoop(m1, i2, end)
  }

  /** The fields a message of each type must carry. */
  predicate Complete(mtype: Byte, m: Fields, argsize: nat) {
    && (mtype == MSG_METHOD ==> m.path.Some? && m.member.Some?)
    && (mtype == MSG_RETURN ==> m.replySerial.Some?)
    && (mtype == MSG_ERROR ==> m.error.Some?)
    && (mtype == MSG_SIGNAL ==> m.interface.Some? && m.member.Some?)
    && (argsize > 0 ==> m.signature.Some?)
  }

  /** The header fields of the message of `size` bytes at address `p`. */
  function ParseFields(mem: seq<Byte>, p: nat, size: nat): (r: Option<Fields>)
    requires size >= 16
  {
    var (i0, n, _) :- Iter(mem, p + 12, size - 12, FIELDS_SIG).BeginArray();
    ReadFieldsLoop(NO_FIELDS, i0, i0.pos + n)
  }

  /** As many of `n` bytes at `p` as there are in memory. The parser keeps their
      address and their number without a look at them. */
  function Present(mem: seq<Byte>, p: nat, n: nat): (bs: seq<Byte>)
    ensures p + n <= |mem| ==> bs == mem[p..p + n]
  {
    if p + n <= |mem| then mem[p..p + n] else if p <= |mem| then mem[p..] else []
  }

  /** adbus_parse on the message of `size` bytes at address `p`, in native byte
      order. */
  function Parse(mem: seq<Byte>, p: nat, size: nat): (r: ParseResult)
    requires 16 <= size && p + size <= |mem|
  {
    var h: seq<Byte> := mem[p..p + 16];
    if h[1] == MSG_INVALID then Malformed
    else if h[1] > MSG_SIGNAL then Ignored
    else
      var argsize, argdata := WordValue(h[4..8]), p + AlignUp(WordValue(h[12..16]) + 16, 8);
      var m := ParseFields(mem, p, size);
      if m.Some? && Complete(h[1], m.value, argsize) then
        Parsed(Message(h[1], h[2], WordValue(h[8..12]), m.value, argsize, Present(mem, argdata, argsize)))
      else Malformed
  }

  // ------------------------------------------------- the meaning of a header

  /** What one field says; none when the parser rejects it. */
  function Apply(m: Fields, f: Field): (r: Option<Fields>)
  {
    if f.code == HEADER_INVALID then None
    else if IsStringCode(f.code) then
      if f.value.Text? && f.value.tcode == STRING then Some(SetString(m, f.code, f.value.text)) else None
    else if f.code == HEADER_OBJECT_PATH then
      if f.value.Text? && f.value.tcode == OBJECT_PATH then Some(m.(path := Some(f.value.text))) else None
    else if f.code == HEADER_SIGNATURE then
      if f.value.SigText? then Some(m.(signature := Some(f.value.sig))) else None
    else if f.code == HEADER_REPLY_SERIAL then
      if f.value.Fixed? && f.value.code == UINT32 then Some(m.(replySerial := Some(f.value.n))) else None
    else Some(m)
  }

  function ApplyAll(m: Fields, fs: seq<Field>): (r: Option<Fields>)
    decreases fs
  {
    if fs == [] then Some(m)
    else
      var m1 :- Apply(m, fs[0]);
      ApplyAll(m1, fs[1..])
  }

  /** A signature is a single letter exactly for that basic type. */
  lemma {:induction false} OneLetter(t: Type, c: BasicCode)
    ensures Show(t) == [c] <==> t == Basic(c)
  {
    if Show(t) == [c] {
      ParseShow(t, []);
      ParseShow(Basic(c), []);
      assert Show(t) + [] == Show(Basic(c)) + [];
    }
  }

  /** In front of the contents of a field, the switch stores what the field
      says. */
  lemma {:induction false} ReadFieldMeaning(m: Fields, f: Field, it: Iter)
    requires At(it, f.value, [])
    ensures ReadField(m, f.code, it).Some? == Apply(m, f).Some?
    ensures Apply(m, f).Some? ==>
              var (m1, i1) := ReadField(m, f.code, it).value;
              m1 == Apply(m, f).value && Ahead(Behind(it, f.value, []), i1)
  {
    hide Read, Skip, Encode, At, Show, TypeOf;
    ReadEncode(it, f.value, []);
    SkipEncode(it, f.value, []);
    AtLetter(it, f.value);
    OneLetter(TypeOf(f.value), STRING);
    OneLetter(TypeOf(f.value), OBJECT_PATH);
    OneLetter(TypeOf(f.value), SIGNATURE);
    OneLetter(TypeOf(f.value), UINT32);
    BasicTypes(f.value);
  }

  lemma {:induction false} AtLetter(it: Iter, v: Value)
    requires At(it, v, [])
    ensures it.sig == Show(TypeOf(v))
  {
  }

  lemma {:induction false} BasicTypes(v: Value)
    ensures TypeOf(v) == Basic(STRING) <==> v.Text? && v.tcode == STRING
    ensures TypeOf(v) == Basic(OBJECT_PATH) <==> v.Text? && v.tcode == OBJECT_PATH
    ensures TypeOf(v) == Basic(SIGNATURE) <==> v.SigText?
    ensures TypeOf(v) == Basic(UINT32) <==> v.Fixed? && v.code == UINT32
  {
  }

  /** The loop stores what the fields say, in order. */
  lemma {:induction false} LoopMeaning(m: Fields, it: Iter, end: nat, fs: seq<Field>)
    requires GoodFields(fs)
    requires Holds(it.mem, it.pos, EncodeAll(it.pos, Values(fs))) && |EncodeAll(it.pos, Values(fs))| <= it.size
    requires end == it.pos + |EncodeAll(it.pos, Values(fs))|
    ensures ReadFieldsLoop(m, it, end) == ApplyAll(m, fs)
    decreases fs
  {
    hide Encode, BeginField, EndField, ReadField, Holds, GoodFields, Apply;
    if fs != [] {
      var f := fs[0];
      var at := it.(sig := FIELD_SIG);
      LoopTurn(at, fs);
      AtField(at, f, []);
      var i0 := BeginField(at).value.1;
      ReadFieldMeaning(m, f, i0);
      if Apply(m, f).Some? {
        assert [STRUCT_END] + [] == [STRUCT_END];
        var i1 := ReadField(m, f.code, i0).value.1;
        AheadEndField(Behind(i0, f.value, []), i1);
        LoopMeaning(Apply(m, f).value, EndField(i1, [STRUCT_END]).value, end, fs[1..]);
      }
    }
  }

  lemma {:induction false} AheadEndField(i: Iter, j: Iter)
    requires Ahead(i, j) && EndField(i, [STRUCT_END]).Some?
    ensures EndField(j, [STRUCT_END]).Some?
    ensures Ahead(EndField(i, [STRUCT_END]).value, EndField(j, [STRUCT_END]).value)
  {
  }

  lemma {:induction false} LoopTurn(it: Iter, fs: seq<Field>)
    requires fs != [] && GoodFields(fs) && it.sig == FIELD_SIG
    requires Holds(it.mem, it.pos, EncodeAll(it.pos, Values(fs))) && |EncodeAll(it.pos, Values(fs))| <= it.size
    ensures At(it, fs[0].ToValue(), [])
    ensures var e := Encode(it.pos, fs[0].ToValue());
            && e != []
            && GoodFields(fs[1..])
            && |EncodeAll(it.pos, Values(fs))| == |e| + |EncodeAll(it.pos + |e|, Values(fs[1..]))|
            && Holds(it.mem, it.pos + |e|, EncodeAll(it.pos + |e|, Values(fs[1..])))
  {
    hide Encode, EncodeAll, Holds, Show, TypeOf, WellFormed, Fits, GoodFields, GoodField, PadLen, Values;
    var f := fs[0];
    GoodRest(fs);
    GoodFieldWellFormed(f);
    FieldText(f);
    ValuesCons(it.pos, fs);
    var e := Encode(it.pos, f.ToValue());
    HoldsConcat(it.mem, it.pos, e, EncodeAll(it.pos + |e|, Values(fs[1..])));
    EncodeNonEmpty(it.pos, f.ToValue());
    FieldFitsAnywhere(it.pos, f);
    assert FIELD_SIG + [] == FIELD_SIG;
  }

  lemma {:induction false} ValuesCons(off: nat, fs: seq<Field>)
    requires fs != []
    ensures var e := Encode(off, fs[0].ToValue());
            EncodeAll(off, Values(fs)) == e + EncodeAll(off + |e|, Values(fs[1..]))
  {
    hide Encode;
    assert Values(fs)[1..] == Values(fs[1..]);
  }

  lemma {:induction false} FieldFitsAnywhere(off: nat, f: Field)
    requires Fits(0, f.ToValue())
    ensures Fits(off, f.ToValue())
  {
    hide PadLen, Fits;
    FieldFits(0, f);
    FieldFits(off, f);
    NoPad(0);
    AlignedResidue(off);
    SumModulo8(AlignUp(off, 8), 0, 1);
    EncodeModulo8(AlignUp(off, 8) + 1, AlignUp(0, 8) + 1, VariantOf(f.value));
  }

  /** The message with header (fixed, fs) and arguments `args` lies at `p`. */
  ghost predicate MessageAt(mem: seq<Byte>, p: nat, fixed: seq<Byte>, fs: seq<Field>, args: seq<Byte>) {
    && p % 8 == 0 && |fixed| == 12 && WordValue(fixed[4..8]) == |args|
    && GoodFields(fs) && |Body(fs)| <= MAX_ARRAY
    && Holds(mem, p, Whole(fixed, fs) + args)
  }

  /** What a message says: its fixed part, its fields applied in order, its
      arguments. */
  function Meaning(fixed: seq<Byte>, fs: seq<Field>, args: seq<Byte>): (r: ParseResult)
    requires |fixed| == 12
  {
    if fixed[1] == MSG_INVALID then Malformed
    else if fixed[1] > MSG_SIGNAL then Ignored
    else
      var m := ApplyAll(NO_FIELDS, fs);
      if m.Some? && Complete(fixed[1], m.value, |args|) then
        Parsed(Message(fixed[1], fixed[2], WordValue(fixed[8..12]), m.value, |args|, args))
      else Malformed
  }

  lemma {:induction false} MessageParts(mem: seq<Byte>, p: nat, fixed: seq<Byte>, fs: seq<Field>, args: seq<Byte>)
    requires MessageAt(mem, p, fixed, fs, args)
    ensures var w := Whole(fixed, fs);
            && |w| == 16 + |Chunks(fs)| == AlignUp(|Body(fs)| + 16, 8)
            && Holds(mem, p, w) && Holds(mem, p + |w|, args)
            && mem[p..p + 16] == fixed + Word(4, |Body(fs)|)
            && WordValue(Word(4, |Body(fs)|)) == |Body(fs)|
            && Holds(mem, p + 12, Word(4, |Body(fs)|)) && Holds(mem, p + 16, Body(fs))
  {
    hide Body, Chunks, Word, WordValue, PadLen, GoodFields;
    var n := |Body(fs)|;
    WholeLength(fixed, fs);
    PadModulo8(n + 16, n, 8);
    SpanFacts();
    WordRoundTrip(4, n);
    HoldsConcat(mem, p, Whole(fixed, fs), args);
    HoldsConcat(mem, p, fixed + Word(4, n), Chunks(fs));
    HoldsConcat(mem, p, fixed, Word(4, n));
    BodyIsChunks(fs);
    HoldsConcat(mem, p + 16, Body(fs), Pad(n, 8));
  }

  lemma {:induction false} FieldsMeaning(mem: seq<Byte>, p: nat, size: nat, fixed: seq<Byte>, fs: seq<Field>, args: seq<Byte>)
    requires MessageAt(mem, p, fixed, fs, args) && size == |Whole(fixed, fs)| + |args|
    ensures size >= 16 && ParseFields(mem, p, size) == ApplyAll(NO_FIELDS, fs)
  {
    FieldsText();
    FieldsStart();
    hide Body, Chunks, Word, WordValue, PadLen, GoodFields, Whole, Holds, Show, BodyStart, ReadFieldsLoop, Iter.BeginArray;
    MessageParts(mem, p, fixed, fs, args);
    var n := |Body(fs)|;
    SumModulo8(p, 0, 12);
    PadModulo8(p + 12, 12, 4);
    BodyStartModulo8(p + 12, 12, FIELD);
    SumModulo8(p, 0, 16);
    var it := Iter(mem, p + 12, size - 12, FIELDS_SIG);
    assert [] + Word(4, n) == Word(4, n);
    assert FIELDS_SIG + [] == FIELDS_SIG && FIELD_SIG + [] == FIELD_SIG;
    BodySize(fs);
    BeginArrayHeld(it, FIELD, n, []);
    BodyAnywhere(p + 16, fs);
    LoopMeaning(NO_FIELDS, it.BeginArray().value.0, p + 16 + n, fs);
  }

  lemma {:induction false} BodySize(fs: seq<Field>)
    ensures |Body(fs)| <= |Chunks(fs)|
  {
    hide Body, Chunks;
    BodyIsChunks(fs);
  }

  lemma {:induction false} BodyAnywhere(off: nat, fs: seq<Field>)
    requires off % 8 == 0
    ensures EncodeAll(off, Values(fs)) == Body(fs)
  {
    hide EncodeAll;
    EncodeAllModulo8(off, 16, Values(fs));
  }

  /** adbus_parse finds, in every well-formed message, exactly what it says. */
  lemma {:induction false} ParseMeaning(mem: seq<Byte>, p: nat, size: nat, fixed: seq<Byte>, fs: seq<Field>, args: seq<Byte>)
    requires MessageAt(mem, p, fixed, fs, args) && size == |Whole(fixed, fs)| + |args|
    ensures size >= 16 && p + size <= |mem| && Parse(mem, p, size) == Meaning(fixed, fs, args)
  {
    hide Body, Chunks, Word, WordValue, PadLen, GoodFields, Whole, ParseFields, ApplyAll, Complete;
    MessageParts(mem, p, fixed, fs, args);
    FieldsMeaning(mem, p, size, fixed, fs, args);
    var h := fixed + Word(4, |Body(fs)|);
    assert h[4..8] == fixed[4..8] && h[8..12] == fixed[8..12] && h[12..16] == Word(4, |Body(fs)|);
  }

  /** A well-formed message meets the assertion on its size if and only if it has a
      field or an argument; one that has neither is not accepted. */
  lemma {:induction false} AssertedSize(fixed: seq<Byte>, fs: seq<Field>, args: seq<Byte>)
    requires |fixed| == 12 && |Body(fs)| <= MAX_ARRAY
    ensures |Whole(fixed, fs)| + |args| > 16 <==> fs != [] || args != []
    ensures fs == [] && args == [] ==> !Meaning(fixed, fs, args).Parsed?
  {
    hide Body, Chunk, Word, WordValue, PadLen;
    WholeLength(fixed, fs);
    if fs != [] {
      ChunkAligned(fs[0]);
      FirstChunk(fs);
    }
  }

  // ------------------------------------------------ the rewrite and the parse

  lemma {:induction false} ApplyConcat(m: Fields, xs: seq<Field>, ys: seq<Field>)
    ensures ApplyAll(m, xs + ys) == (var m1 := ApplyAll(m, xs); if m1.None? then None else ApplyAll(m1.value, ys))
    decreases xs
  {
    hide Apply;
    if xs == [] {
      assert [] + ys == ys;
    } else {
      assert (xs + ys)[1..] == xs[1..] + ys;
      if Apply(m, xs[0]).Some? {
        ApplyConcat(Apply(m, xs[0]).value, xs[1..], ys);
      }
    }
  }

  /** Dropping the sender fields changes the sender and nothing else. */
  lemma {:induction false} KeptMeaning(m: Fields, k: Fields, fs: seq<Field>)
    requires m.(sender := None) == k.(sender := None) && ApplyAll(m, fs).Some?
    ensures ApplyAll(k, Kept(fs)) == Some(ApplyAll(m, fs).value.(sender := k.sender))
    decreases fs
  {
    if fs != [] {
      var f := fs[0];
      var m1 := Apply(m, f).value;
      if f.code == HEADER_SENDER {
        KeptMeaning(m1, k, fs[1..]);
      } else {
        SameApply(m, k, f);
        KeptMeaning(m1, Apply(k, f).value, fs[1..]);
        assert ([f] + Kept(fs[1..]))[1..] == Kept(fs[1..]);
      }
    }
  }

  lemma {:induction false} SameApply(m: Fields, k: Fields, f: Field)
    requires m.(sender := None) == k.(sender := None) && f.code != HEADER_SENDER && Apply(m, f).Some?
    ensures Apply(k, f) == Some(Apply(m, f).value.(sender := k.sender))
  {
  }

  /** A well-formed message that parses before the rewrite parses after it, and
      says the same, except that the sender is the true one. */
  lemma {:induction false} RewriteMeaning(fixed: seq<Byte>, fs: seq<Field>, args: seq<Byte>, unique: seq<Byte>)
    requires |fixed| == 12 && Meaning(fixed, fs, args).Parsed?
    ensures var m := Meaning(fixed, fs, args).msg;
            Meaning(fixed, Kept(fs) + [Sender(unique)], args)
            == Parsed(m.(fields := m.fields.(sender := Some(unique))))
  {
    hide ApplyAll, Kept;
    KeptMeaning(NO_FIELDS, NO_FIELDS, fs);
    ApplyConcat(NO_FIELDS, Kept(fs), [Sender(unique)]);
    ApplySender(ApplyAll(NO_FIELDS, Kept(fs)).value, unique);
  }

  lemma {:induction false} ApplySender(m: Fields, unique: seq<Byte>)
    ensures ApplyAll(m, [Sender(unique)]) == Some(m.(sender := Some(unique)))
  {
    assert [Sender(unique)][1..] == [];
  }
}
