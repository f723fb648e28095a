/** Headers on which the rewrite and the message parser disagree: well-formed fields,
    and one that declares an array that is not there. */
module Hidden {
  import opened Bytes
  import opened Signature
  import opened Codec
  import opened CodecLaws
  import opened Header
  import opened HeaderRewrite
  import opened HeaderScan
  import opened Message
  import opened Turns
  import opened Authentic
  import opened Overshoot
  import P = Message
  import Framing

  /** A field of unknown code: an array that declares `n` bytes, of which four are
      there */
  function LongField(n: nat): (bs: seq<Byte>)
    ensures |bs| == 16
  {
    LONG_START + Word(4, n) + [0, 0, 0, 0]
  }

  const LONG_START: seq<Byte> := [9, 2, 97, 121,   0, 0, 0, 0]

  /** A header of these fields and the long one */
  function LongHeader(fixed: seq<Byte>, fs: seq<Field>, n: nat): seq<Byte> {
    fixed + Word(4, |Chunks(fs)| + 12) + (Chunks(fs) + LongField(n))
  }

  /** Fields that a sender may write, other than the sender's name, and a length that
      the readers take and that ends four bytes behind a multiple of eight */
  predicate Fitting(fs: seq<Field>, n: nat) {
    && GoodFields(fs) && (forall f :: f in fs ==> f.code != HEADER_SENDER)
    && |Chunks(fs)| <= 1000 && 0 < n <= MAX_ARRAY && n % 8 == 0
  }

  // ------------------------------------------------------------- the long field

  lemma {:induction false} LongBytes(it: Iter, n: nat)
    requires Holds(it.mem, it.pos, LongField(n))
    ensures it.pos + 16 <= |it.mem|
    ensures it.mem[it.pos] == 9 && it.mem[it.pos + 1] == 2
    ensures it.mem[it.pos + 2..it.pos + 4] == [97, 121] && it.mem[it.pos + 4] == 0
    ensures Holds(it.mem, it.pos + 8, Word(4, n))
  {
    hide Word;
    HoldsConcat(it.mem, it.pos, LONG_START + Word(4, n), [0, 0, 0, 0]);
    HoldsConcat(it.mem, it.pos, LONG_START, Word(4, n));
    StartBytes(it.mem, it.pos);
  }

  lemma {:induction false} StartBytes(mem: seq<Byte>, p: nat)
    requires Holds(mem, p, LONG_START)
    ensures mem[p] == 9 && mem[p + 1] == 2 && mem[p + 2..p + 4] == [97, 121] && mem[p + 4] == 0
  {
    var m := mem[p..p + 8];
    assert mem[p] == m[0] && mem[p + 1] == m[1] && mem[p + 2] == m[2] && mem[p + 3] == m[3] && mem[p + 4] == m[4];
    assert mem[p + 2..p + 4] == [mem[p + 2], mem[p + 3]];
  }

  lemma {:induction false} LongPads(p: nat, n: nat)
    requires p % 8 == 0 && n % 8 == 0
    ensures PadLen(p, 8) == 0 && PadLen(p, 1) == 0 && PadLen(p + 1, 1) == 0 && PadLen(p + 5, 4) == 3 && PadLen(p + 8, 4) == 0
    ensures PadLen(p + 12, 1) == 0 && PadLen(p + 12 + n, 8) == 4
  {
  }

  /** In front of the long field, at an aligned place with its size or more to go */
  predicate AtLong(it: Iter, n: nat) {
    && it.pos % 8 == 0 && it.size >= 16 && Holds(it.mem, it.pos, LongField(n))
    && 0 < n <= MAX_ARRAY && n % 8 == 0
  }

  lemma {:induction false} LongPrefix(it: Iter, n: nat)
    requires AtLong(it, n) && it.sig == FIELD_SIG
    ensures BeginField(it) == Some((9, Iter(it.mem, it.pos + 8, it.size - 8, [ARRAY_BEGIN, UINT8])))
  {
    hide WordValue, PadLen, Iter.BeginVariant, LongField;
    LongBytes(it, n);
    LongPads(it.pos, n);
    OneByte(it.mem, it.pos);
    var i1 := it.(sig := FIELD_SIG[1..]);
    assert it.Next() == i1 && i1.Align(8) == Some(i1);
    var i2 := i1.Next();
    assert i2.sig == [VARIANT_BEGIN, STRUCT_END];
    var i3 := Iter(it.mem, it.pos + 1, it.size - 1, i2.sig);
    assert i2.Get(1) == Some((9, i3));
    LongVariant(i3, it, n);
  }

  lemma {:induction false} LongVariant(i3: Iter, it: Iter, n: nat)
    requires AtLong(it, n)
    requires i3 == Iter(it.mem, it.pos + 1, it.size - 1, [VARIANT_BEGIN, STRUCT_END])
    ensures i3.BeginVariant() == Some(Iter(it.mem, it.pos + 8, it.size - 8, [ARRAY_BEGIN, UINT8]))
  {
    hide WordValue, PadLen, LongField;
    LongBytes(it, n);
    LongPads(it.pos, n);
    OneByte(it.mem, it.pos + 1);
    var i4 := Iter(it.mem, it.pos + 2, it.size - 2, [STRUCT_END]);
    assert i3.Next().Get(1) == Some((2, i4));
    assert i4.GetString(2) == Some(([97, 121], Iter(it.mem, it.pos + 5, it.size - 5, [STRUCT_END])));
  }

  lemma {:induction false} LongSkip(it: Iter, n: nat)
    requires AtLong(it, n)
    ensures Skip(Iter(it.mem, it.pos + 8, it.size - 8, [ARRAY_BEGIN, UINT8]))
            == Some(Iter(it.mem, it.pos + 12 + n, it.size - 12, []))
  {
    hide WordValue, PadLen, RestOf, LongField, Word;
    LongBytes(it, n);
    LongPads(it.pos, n);
    SpanFacts();
    WordRoundTrip(4, n);
    var i0 := Iter(it.mem, it.pos + 8, it.size - 8, [ARRAY_BEGIN, UINT8]);
    assert i0.Next().sig == [UINT8];
    assert i0.Next().Get(4) == Some((n, Iter(it.mem, it.pos + 12, it.size - 12, [UINT8])));
    ByteRest();
  }

  lemma {:induction false} ByteRest()
    ensures RestOf([UINT8]) == Some([])
  {
    ParseShow(Basic(UINT8), []);
    assert Show(Basic(UINT8)) + [] == [UINT8];
  }

  lemma {:induction false} LongSkipped(it: Iter, n: nat)
    requires AtLong(it, n) && it.sig == FIELD_SIG
    ensures SkipField(it) == Some((9, Iter(it.mem, it.pos + 16 + n, it.size - 16, [])))
    ensures FieldStop(it) == it.pos + 12 + n
  {
    hide BeginField, Skip, PadLen, Holds;
    LongPrefix(it, n);
    LongSkip(it, n);
    LongPads(it.pos, n);
    assert [STRUCT_END][1..] == [];
  }

  lemma {:induction false} LongTurn(m: Fields, j: Iter, n: nat)
    requires AtLong(Iter(j.mem, AlignUp(j.pos, 8), 16, []), n) && AlignUp(j.pos, 8) + 16 <= j.pos + j.size
    ensures Turn(m, j).Some? && Turn(m, j).value.0 == m
    ensures Turn(m, j).value.1.pos == AlignUp(j.pos, 8) + 12 + n
  {
    hide BeginField, Skip, Holds, PadLen;
    AlignedPad(j.pos);
    var p := AlignUp(j.pos, 8);
    var j' := j.(sig := FIELD_SIG);
    var a := Iter(j.mem, p, j.size - (p - j.pos), FIELD_SIG);
    assert j'.Align(8) == Some(a);
    LongPrefix(a, n);
    LongSkip(a, n);
    BeginFromPadding(j');
    assert [STRUCT_END][1..] == [];
  }

  // ------------------------------------------------------------------ the rewrite

  lemma {:induction false} LongLayout(fixed: seq<Byte>, fs: seq<Field>, n: nat)
    requires |fixed| == 12 && Fitting(fs, n)
    ensures var b := LongHeader(fixed, fs, n);
            && |b| == 32 + |Chunks(fs)| && |b| % 8 == 0 && |Chunks(fs)| % 8 == 0
            && IsHeader(b) && FieldsLength(b) == |Chunks(fs)| + 12
            && b[..12] == fixed && b[16..] == Chunks(fs) + LongField(n)
            && FieldsIter(b) == Some((Iter(b, 16, |b| - 16, FIELD_SIG), |Chunks(fs)| + 12))
  {
    hide Chunks, WordValue, Word, PadLen, LongField, GoodFields;
    var c := |Chunks(fs)|;
    ChunksAligned(fs);
    SpanFacts();
    WordRoundTrip(4, c + 12);
    var b := LongHeader(fixed, fs, n);
    assert b[12..16] == Word(4, c + 12);
    assert AlignUp(c + 12, 8) == c + 16 by { TwelveUp(c); }
    LongIter(b);
  }

  lemma {:induction false} TwelveUp(c: nat)
    requires c % 8 == 0
    ensures AlignUp(c + 12, 8) == c + 16
  {
  }

  lemma {:induction false} LongIter(b: seq<Byte>)
    requires IsHeader(b) && FieldsLength(b) <= MAX_ARRAY
    ensures FieldsIter(b) == Some((Iter(b, 16, |b| - 16, FIELD_SIG), FieldsLength(b)))
  {
    hide WordValue, RestOf, PadLen;
    HeaderPads();
    var it := Iter(b, 12, 4 + AlignUp(FieldsLength(b), 8), FIELDS_SIG);
    assert it.Next() == Iter(b, 12, 4 + AlignUp(FieldsLength(b), 8), FIELD_SIG);
    assert it.Next().Get(4) == Some((FieldsLength(b), Iter(b, 16, |b| - 16, FIELD_SIG)));
    FieldRest();
  }

  /** The fields and the long one lie at `p`, up to the end of the memory. */
  predicate LongLies(mem: seq<Byte>, p: nat, fs: seq<Field>, n: nat) {
    p % 8 == 0 && p <= |mem| && mem[p..] == Chunks(fs) + LongField(n)
  }

  lemma {:induction false} LongLiesParts(mem: seq<Byte>, p: nat, fs: seq<Field>, n: nat)
    requires LongLies(mem, p, fs, n)
    ensures |mem| == p + |Chunks(fs)| + 16 && p % 8 == 0
    ensures fs == [] ==> Holds(mem, p, LongField(n)) && |mem| == p + 16
    ensures fs != [] ==> Holds(mem, p, Chunk(fs[0])) && |Chunks(fs)| == |Chunk(fs[0])| + |Chunks(fs[1..])|
                         && LongLies(mem, p + |Chunk(fs[0])|, fs[1..], n)
  {
    hide Chunk, LongField, Holds;
    TailHolds(mem, p, Chunks(fs) + LongField(n));
    if fs == [] {
      assert [] + LongField(n) == LongField(n);
    } else {
      FirstChunk(fs);
      ChunkAligned(fs[0]);
      var c, rest := Chunk(fs[0]), Chunks(fs[1..]) + LongField(n);
      assert Chunks(fs) + LongField(n) == c + rest;
      HoldsConcat(mem, p, c, rest);
      HoldsTail(mem, p + |c|, rest);
    }
  }

  lemma {:induction false} TailHolds(mem: seq<Byte>, p: nat, bs: seq<Byte>)
    requires p <= |mem| && mem[p..] == bs
    ensures Holds(mem, p, bs) && |mem| == p + |bs|
  {
    assert mem[p..|mem|] == mem[p..];
  }

  lemma {:induction false} HoldsTail(mem: seq<Byte>, p: nat, bs: seq<Byte>)
    requires Holds(mem, p, bs) && |mem| == p + |bs|
    ensures mem[p..] == bs
  {
    assert mem[p..|mem|] == mem[p..];
  }

  /** The pass keeps every field, and the last reaches behind the header. */
  lemma {:induction false} LongKept(it: Iter, fs: seq<Field>, n: nat, k: nat)
    requires Fitting(fs, n) && LongLies(it.mem, it.pos, fs, n) && it.size >= |it.mem| - it.pos && |it.mem| % 8 == 0
    ensures var end := |it.mem| - 4;
            && Scan(it, end) == Fits(it.mem[it.pos..]) && !KeptInside(it, end)
            && (Overshoots(it, end, k) <==> n < k + 4 && n >= AlignUp(k, 8))
    decreases fs
  {
    hide Chunk, Chunks, SkipField, Scan, KeptInside, Overshoots, Holds, GoodField, GoodFields, LongLies, LongField, FieldStop, PadLen;
    var end := |it.mem| - 4;
    var i' := it.(sig := FIELD_SIG);
    LongLiesParts(it.mem, it.pos, fs, n);
    if fs == [] {
      LongSkipped(i', n);
      var i0 := SkipField(i').value.1;
      ScanTurn(it, end);
      OvershootIs(it, end, k);
      JumpedOut(it, i0, end);
      StopUp(it.pos + 12, n);
    } else {
      GoodRest(fs);
      assert fs[0] in fs;
      SkipFieldHeld(i', fs[0]);
      var i0 := SkipField(i').value.1;
      ScanTurn(it, end);
      OvershootIs(it, end, k);
      RestFitting(fs, n);
      LongKept(i0, fs[1..], n, k);
      assert it.mem[it.pos..i0.pos] + it.mem[i0.pos..] == it.mem[it.pos..];
    }
  }

  lemma {:induction false} StopUp(p: nat, n: nat)
    requires p % 8 == 4 && n % 8 == 0
    ensures AlignUp(p + n, 8) == p + n + 4
  {
  }

  lemma {:induction false} RestFitting(fs: seq<Field>, n: nat)
    requires Fitting(fs, n) && fs != []
    ensures Fitting(fs[1..], n)
  {
    hide Chunk;
    FirstChunk(fs);
    GoodRest(fs);
  }

  lemma {:induction false} ScanTurn(it: Iter, end: nat)
    requires it.pos < end && SkipField(it.(sig := FIELD_SIG)).Some?
    requires SkipField(it.(sig := FIELD_SIG)).value.0 != HEADER_SENDER
    ensures var i0 := SkipField(it.(sig := FIELD_SIG)).value.1;
            && (Scan(i0, end).Fits? ==> Scan(it, end) == Fits(Between(it.mem, it.pos, i0.pos) + Scan(i0, end).kept))
            && (KeptInside(it, end) <==> i0.pos <= |it.mem| && KeptInside(i0, end))
  {
    hide SkipField;
  }

  // ------------------------------------------------------------------- the parser

  /** The parser's loop over such fields, when it ends where the jump of the long one
      ends, or earlier, but not in front of it */
  lemma {:induction false} LongRead(m: Fields, j: Iter, fs: seq<Field>, n: nat, e: nat)
    requires Fitting(fs, n) && ApplyAll(m, fs).Some?
    requires var p := AlignUp(j.pos, 8);
             var q := p + |Chunks(fs)|;
             && Holds(j.mem, p, Chunks(fs) + LongField(n)) && q + 16 <= j.pos + j.size
             && q < e <= q + 12 + n
    ensures ReadFieldsLoop(m, j, e) == ApplyAll(m, fs)
    decreases fs
  {
    hide Chunk, Holds, GoodField, GoodFields, LongField, ReadFieldsLoop, Turn, PadLen, Encode, Apply, Field.ToValue;
    var p := AlignUp(j.pos, 8);
    AlignedPad(j.pos);
    LoopIsTurn(m, j, e);
    if fs == [] {
      assert [] + LongField(n) == LongField(n);
      LongTurn(m, j, n);
      LoopIsTurn(m, Turn(m, j).value.1, e);
    } else {
      var f := fs[0];
      GoodRest(fs);
      FirstChunk(fs);
      var rest := Chunks(fs[1..]) + LongField(n);
      assert Chunks(fs) + LongField(n) == Chunk(f) + rest;
      HoldsConcat(j.mem, p, Chunk(f), rest);
      ChunkStarts(j.mem, p, f);
      ChunkSize(f, p);
      var j2 := GoodTurn(m, j, f);
      RestFitting(fs, n);
      LongRead(Apply(m, f).value, j2, fs[1..], n, e);
    }
  }

  lemma {:induction false} ChunkSize(f: Field, p: nat)
    requires p % 8 == 0
    ensures |Encode(0, f.ToValue())| <= |Chunk(f)|
    ensures AlignUp(p + |Encode(0, f.ToValue())|, 8) == p + |Chunk(f)|
  {
    hide Encode, PadLen;
    NextStart(|Encode(0, f.ToValue())|, p);
  }

  /** The rewrite of such a header, and what the parser stores of it */
  lemma {:induction false} LongRewritten(fixed: seq<Byte>, fs: seq<Field>, n: nat, unique: seq<Byte>)
    requires |fixed| == 12 && Fitting(fs, n) && |unique| <= 20
    ensures IsHeader(LongHeader(fixed, fs, n)) && Fix(LongHeader(fixed, fs, n), unique).Rewritten?
    ensures var b := LongHeader(fixed, fs, n);
            var h := Fix(b, unique).bytes;
            var x := |SenderBytes(unique)|;
            && ScanHeader(b) == Fits(b[16..]) && !FieldsInside(b)
            && (JumpsIntoBody(b, unique) <==> n < x + 4 && n >= AlignUp(x, 8))
            && |h| >= 16 && h[..12] == fixed && FieldsLength(h) == |b| - 16 + x
            && Holds(h, 16, b[16..])
  {
    hide Chunks, Fix, SenderBytes, WordValue, Word, PadLen, LongField, GoodFields, Completed, FieldsLength, IsHeader, Scan,
         KeptInside, Overshoots, FieldsIter, LongHeader;
    var b := LongHeader(fixed, fs, n);
    LongLayout(fixed, fs, n);
    var it := Iter(b, 16, |b| - 16, FIELD_SIG);
    assert LongLies(b, 16, fs, n);
    LongKept(it, fs, n, |SenderBytes(unique)|);
    FixIsScan(b, unique);
    assert b[..16] + b[16..] == b;
    SenderLayout(unique);
    CompletedLayout(b, unique);
    var x := SenderBytes(unique);
    RewrittenFront(Completed(b, unique), fixed, Word(4, |b| + |x| - 16), b[16..], x + Pad(|x|, 8));
  }

  lemma {:induction false} RewrittenFront(h: seq<Byte>, fixed: seq<Byte>, w: seq<Byte>, kept: seq<Byte>, rest: seq<Byte>)
    requires |fixed| == 12 && |w| == 4 && h == fixed + w + (kept + rest)
    ensures |h| >= 16 && h[..12] == fixed && Holds(h, 16, kept)
  {
  }

  // -------------------------------------------------------------------- two inputs

  /** The path "/", the member "Hello" and the signature "(yv)" */
  const PATH_FIELD: Field := Field(HEADER_OBJECT_PATH, Text(OBJECT_PATH, [47]))
  const MEMBER_FIELD: Field := Field(HEADER_MEMBER, Text(STRING, [72, 101, 108, 108, 111]))
  const SIGNATURE_FIELD: Field := Field(HEADER_SIGNATURE, SigText([40, 121, 118, 41]))

  /** A method call without arguments, and one with nine bytes of them */
  const BARE_CALL: seq<Byte> := [108, 1, 0, 1,   0, 0, 0, 0,   1, 0, 0, 0]
  const BODY_CALL: seq<Byte> := [108, 1, 0, 1,   9, 0, 0, 0,   1, 0, 0, 0]

  /** Its last field declares a thousand bytes. */
  const HIDING: seq<Byte> := LongHeader(BARE_CALL, [PATH_FIELD, MEMBER_FIELD], 1000)

  /** Its last field declares sixteen bytes. */
  const JUMPING: seq<Byte> := LongHeader(BODY_CALL, [PATH_FIELD, MEMBER_FIELD, SIGNATURE_FIELD], 16)

  lemma {:induction false} SmallField(f: Field)
    requires f in {PATH_FIELD, MEMBER_FIELD, SIGNATURE_FIELD}
    ensures GoodField(f) && |Chunk(f)| <= 24
  {
    hide Encode, PadLen, Field.ToValue;
    if f == SIGNATURE_FIELD {
      SignatureGood();
    } else {
      TextGood(f.code, f.value.tcode, f.value.text);
    }
    AlignedPad(|Encode(0, f.ToValue())|);
  }

  lemma {:induction false} TextGood(code: Byte, t: TextCode, s: seq<Byte>)
    requires NulFree(s) && |s| <= 7
    ensures GoodField(Field(code, Text(t, s))) && |Encode(0, Field(code, Text(t, s)).ToValue())| <= 16
  {
    hide PadLen;
    FieldFits(0, Field(code, Text(t, s)));
    Framing.TextFieldLength(code, t, s);
  }

  lemma {:induction false} SignatureGood()
    ensures GoodField(SIGNATURE_FIELD) && |Encode(0, SIGNATURE_FIELD.ToValue())| <= 16
  {
    hide PadLen;
    FieldFits(0, SIGNATURE_FIELD);
    FieldBytes(0, SIGNATURE_FIELD);
    EncodeVariant(1, SIGNATURE_FIELD.value);
    assert Pad(0, 8) == [] && AlignUp(0, 8) == 0 by { NoPads(); }
  }

  lemma {:induction false} NoPads()
    ensures Pad(0, 8) == [] && AlignUp(0, 8) == 0
  {
  }

  lemma {:induction false} SmallFields(fs: seq<Field>)
    requires |fs| <= 3 && forall f :: f in fs ==> f in {PATH_FIELD, MEMBER_FIELD, SIGNATURE_FIELD}
    ensures GoodFields(fs) && |Chunks(fs)| <= 24 * |fs| && forall f :: f in fs ==> f.code != HEADER_SENDER
    decreases |fs|
  {
    hide Chunk, GoodField;
    if fs != [] {
      assert fs[0] in fs;
      SmallField(fs[0]);
      FirstChunk(fs);
      forall f | f in fs[1..]
        ensures f in {PATH_FIELD, MEMBER_FIELD, SIGNATURE_FIELD}
      {
        assert f in fs;
      }
      SmallFields(fs[1..]);
      assert fs == [fs[0]] + fs[1..];
    }
  }

  const STORED: Fields := NO_FIELDS.(path := Some([47]), member := Some([72, 101, 108, 108, 111]))

  lemma {:induction false} WhatTheySay()
    ensures ApplyAll(NO_FIELDS, [PATH_FIELD, MEMBER_FIELD]) == Some(STORED)
    ensures ApplyAll(NO_FIELDS, [PATH_FIELD, MEMBER_FIELD, SIGNATURE_FIELD])
            == Some(STORED.(signature := Some([40, 121, 118, 41])))
  {
    var m0 := NO_FIELDS.(path := Some([47]));
    ApplyOne(NO_FIELDS, PATH_FIELD, m0);
    ApplyOne(m0, MEMBER_FIELD, STORED);
    ApplyOne(STORED, SIGNATURE_FIELD, STORED.(signature := Some([40, 121, 118, 41])));
    ApplyConcat(NO_FIELDS, [PATH_FIELD], [MEMBER_FIELD]);
    ApplyConcat(NO_FIELDS, [PATH_FIELD] + [MEMBER_FIELD], [SIGNATURE_FIELD]);
    assert [PATH_FIELD] + [MEMBER_FIELD] == [PATH_FIELD, MEMBER_FIELD];
    assert [PATH_FIELD] + [MEMBER_FIELD] + [SIGNATURE_FIELD] == [PATH_FIELD, MEMBER_FIELD, SIGNATURE_FIELD];
  }

  lemma {:induction false} ApplyOne(m: Fields, f: Field, r: Fields)
    requires Apply(m, f) == Some(r)
    ensures ApplyAll(m, [f]) == Some(r)
  {
    assert [f][1..] == [];
  }

  lemma {:induction false} ArgumentWords()
    ensures WordValue(BARE_CALL[4..8]) == 0 && WordValue(BODY_CALL[4..8]) == 9
  {
    assert BARE_CALL[4..8] == [0, 0, 0, 0] && BODY_CALL[4..8] == [9, 0, 0, 0];
    FourBytes([0, 0, 0, 0]);
    FourBytes([9, 0, 0, 0]);
  }

  lemma {:induction false} FrontBytes(h: seq<Byte>, fixed: seq<Byte>)
    requires |h| >= 16 && |fixed| == 12 && h[..12] == fixed
    ensures h[1] == fixed[1] && h[4..8] == fixed[4..8] && h[0..16][1] == h[1] && h[0..16][4..8] == h[4..8]
  {
    assert h[1] == h[..12][1];
    assert h[4..8] == h[..12][4..8];
  }

  /** Behind the rewrite the message still parses, and has no sender. */
  lemma {:induction false} SenderHidden(unique: seq<Byte>)
    requires |unique| <= 20
    ensures IsHeader(HIDING) && Fix(HIDING, unique).Rewritten?
    ensures var h := Fix(HIDING, unique).bytes;
            && |h| >= 16 && Parse(h, 0, |h|).Parsed? && Parse(h, 0, |h|).msg.fields == STORED
            && STORED.sender.None?
  {
    hide Chunks, Fix, WordValue, GoodFields, IsHeader, LongHeader, ApplyAll, Parse;
    var fs := [PATH_FIELD, MEMBER_FIELD];
    SmallFields(fs);
    SenderLayout(unique);
    WhatTheySay();
    ArgumentWords();
    LongHides(BARE_CALL, fs, 1000, unique, STORED);
  }

  /** When the array declares more than the appended field has, the parser is done
      behind it, and has stored what the other fields say. */
  lemma {:induction false} LongHides(fixed: seq<Byte>, fs: seq<Field>, n: nat, unique: seq<Byte>, stored: Fields)
    requires |fixed| == 12 && Fitting(fs, n) && |unique| <= 20 && |SenderBytes(unique)| + 4 <= n
    requires ApplyAll(NO_FIELDS, fs) == Some(stored)
    requires MSG_INVALID < fixed[1] <= MSG_SIGNAL && Complete(fixed[1], stored, WordValue(fixed[4..8]))
    ensures IsHeader(LongHeader(fixed, fs, n)) && Fix(LongHeader(fixed, fs, n), unique).Rewritten?
    ensures var h := Fix(LongHeader(fixed, fs, n), unique).bytes;
            |h| >= 16 && Parse(h, 0, |h|).Parsed? && Parse(h, 0, |h|).msg.fields == stored
  {
    hide Chunks, Fix, SenderBytes, WordValue, PadLen, LongField, GoodFields, FieldsLength, IsHeader, ReadFieldsLoop, LongHeader,
         P.ParseFields, ApplyAll, Holds, Parse, Complete, FieldsInside, JumpsIntoBody, ScanHeader;
    LongRewritten(fixed, fs, n, unique);
    LongLayout(fixed, fs, n);
    SenderLayout(unique);
    var h := Fix(LongHeader(fixed, fs, n), unique).bytes;
    var k := FieldsLength(h);
    FrontBytes(h, fixed);
    LengthWord(h, k);
    ArrayFound(h, k);
    RoomIn(h, 16, Chunks(fs) + LongField(n));
    LongRead(NO_FIELDS, Iter(h, 16, |h| - 16, FIELD_SIG), fs, n, 16 + k);
    ParseOf(h, stored);
  }

  lemma {:induction false} RoomIn(h: seq<Byte>, p: nat, bs: seq<Byte>)
    requires Holds(h, p, bs)
    ensures p + |bs| <= |h|
    ensures p == 16 ==> AlignUp(p, 8) == 16
  {
  }

  /** Behind the rewrite for a remote with a name of four to seven characters, and in
      front of an argument that is such a field, the message parses with a sender
      that is neither the remote nor absent: a name of no characters. */
  lemma {:induction false} SenderFromBody(unique: seq<Byte>)
    requires 4 <= |unique| <= 7
    ensures IsHeader(JUMPING) && Fix(JUMPING, unique).Rewritten?
    ensures JumpsIntoBody(JUMPING, unique)
    ensures ReadsOther(Fix(JUMPING, unique).bytes, SenderBytes(NO_NAME), unique)
  {
    hide Chunks, Fix, SenderBytes, WordValue, PadLen, GoodFields, FieldsLength, IsHeader, LongHeader, ApplyAll, Parse,
         JumpsIntoBody, FieldsInside, KeptParses, Holds, ScanHeader, LongField;
    var fs := [PATH_FIELD, MEMBER_FIELD, SIGNATURE_FIELD];
    SmallFields(fs);
    SenderLayout(unique);
    SixteenUp(9 + |unique|);
    WhatTheySay();
    ArgumentWords();
    LongRewritten(BODY_CALL, fs, 16, unique);
    LongKeptParses(BODY_CALL, fs, 16, unique, STORED.(signature := Some([40, 121, 118, 41])));
    BodyRead(JUMPING, unique);
  }

  lemma {:induction false} LongKeptParses(fixed: seq<Byte>, fs: seq<Field>, n: nat, unique: seq<Byte>, stored: Fields)
    requires |fixed| == 12 && Fitting(fs, n) && |unique| <= 20 && n >= 4
    requires ApplyAll(NO_FIELDS, fs) == Some(stored)
    requires MSG_INVALID < fixed[1] <= MSG_SIGNAL && Complete(fixed[1], stored, WordValue(fixed[4..8]))
    ensures IsHeader(LongHeader(fixed, fs, n)) && Fix(LongHeader(fixed, fs, n), unique).Rewritten?
    ensures KeptParses(LongHeader(fixed, fs, n), unique)
  {
    hide Chunks, Fix, SenderBytes, WordValue, PadLen, LongField, GoodFields, FieldsLength, IsHeader, ReadFieldsLoop, LongHeader,
         ApplyAll, Holds, Complete, FieldsInside, JumpsIntoBody, ScanHeader;
    LongRewritten(fixed, fs, n, unique);
    LongLayout(fixed, fs, n);
    SenderLayout(unique);
    var b := LongHeader(fixed, fs, n);
    var h := Fix(b, unique).bytes;
    FrontBytes(h, fixed);
    RoomIn(h, 16, Chunks(fs) + LongField(n));
    LongRead(NO_FIELDS, Iter(h, 16, |h| - 16, FIELD_SIG), fs, n, |b|);
  }

  lemma {:induction false} SixteenUp(n: nat)
    requires 8 < n <= 16
    ensures AlignUp(n, 8) == 16
  {
  }
}
