/** adbus_MsgFactory: building a message, and the round trip through
    `adbus_parse`. */
module MessageBuild {
  import opened Bytes
  import opened Signature
  import opened Codec
  import opened CodecLaws
  import opened Header
  import opened HeaderRewrite
  import opened Message
  import B = Buffer

  /** adbusI_majorProtocolVersion */
  const PROTOCOL_VERSION: Byte := 1

  /** The state of a factory: empty strings are fields that are not set. */
  datatype Draft = Draft(
    mtype: int, flags: int, serial: int, replySerial: Option<nat>,
    path: seq<Byte>, interface: seq<Byte>, member: seq<Byte>, error: seq<Byte>,
    destination: seq<Byte>, sender: seq<Byte>, argsig: seq<Byte>, args: seq<Byte>)

  /** The checks of adbus_msg_build */
  predicate Required(d: Draft) {
    && d.serial >= 0
    && 1 <= d.mtype <= 4
    && (d.mtype == MSG_METHOD ==> d.path != [] && d.member != [])
    && (d.mtype == MSG_RETURN ==> d.replySerial.Some?)
    && (d.mtype == MSG_ERROR ==> d.error != [])
    && (d.mtype == MSG_SIGNAL ==> d.interface != [] && d.member != [])
  }

  function TextField(code: Byte, tcode: TextCode, s: seq<Byte>): (fs: seq<Field>) {
    if s == [] then [] else [Field(code, Text(tcode, s))]
  }

  function ReplyField(r: Option<nat>): (fs: seq<Field>) {
    if r.None? then [] else [Field(HEADER_REPLY_SERIAL, Fixed(UINT32, r.value))]
  }

  function SignatureField(d: Draft): (fs: seq<Field>) {
    if d.args == [] then [] else [Field(HEADER_SIGNATURE, SigText(d.argsig))]
  }

  /** The header fields in the order in which they are written. */
  function DraftFields(d: Draft): (fs: seq<Field>) {
    TextField(HEADER_INTERFACE, STRING, d.interface)
    + TextField(HEADER_MEMBER, STRING, d.member)
    + TextField(HEADER_ERROR_NAME, STRING, d.error)
    + TextField(HEADER_DESTINATION, STRING, d.destination)
    + TextField(HEADER_SENDER, STRING, d.sender)
    + TextField(HEADER_OBJECT_PATH, OBJECT_PATH, d.path)
    + ReplyField(d.replySerial)
    + SignatureField(d)
  }

  function FixedPart(d: Draft): (bs: seq<Byte>)
    requires d.serial >= 0
    ensures |bs| == 12
  {
    [NATIVE, d.mtype % 256, d.flags % 256, PROTOCOL_VERSION] + Word(4, |d.args|) + Word(4, d.serial)
  }

  /** The bytes of the built message */
  function Built(d: Draft): (bs: seq<Byte>)
    requires d.serial >= 0
  {
    Whole(FixedPart(d), DraftFields(d)) + d.args
  }

  function Set(s: seq<Byte>): Option<seq<Byte>> {
    if s == [] then None else Some(s)
  }

  /** The message structure that the factory fills out. */
  function Described(d: Draft): (m: Message)
    requires Required(d) && 0 <= d.flags < 256
  {
    Message(d.mtype, d.flags, d.serial,
            Fields(Set(d.path), Set(d.interface), Set(d.member), Set(d.error), Set(d.destination),
                   Set(d.sender), if d.args == [] then None else Some(d.argsig), d.replySerial),
            |d.args|, d.args)
  }

  // ---------------------------------------------------------- the round trip

  /** Strings a header can carry, words of 32 bits, and header fields within
      the array limit. */
  predicate Sendable(d: Draft) {
    && NulFree(d.path) && NulFree(d.interface) && NulFree(d.member) && NulFree(d.error)
    && NulFree(d.destination) && NulFree(d.sender) && NulFree(d.argsig) && |d.argsig| < 255
    && 0 <= d.flags < 256 && d.serial < 0x1_0000_0000 && |d.args| < 0x1_0000_0000
    && (d.replySerial.Some? ==> d.replySerial.value < 0x1_0000_0000)
    && |Body(DraftFields(d))| <= MAX_ARRAY
    && |d.path| < 0x1_0000_0000 && |d.interface| < 0x1_0000_0000 && |d.member| < 0x1_0000_0000
    && |d.error| < 0x1_0000_0000 && |d.destination| < 0x1_0000_0000 && |d.sender| < 0x1_0000_0000
  }

  lemma {:induction false} TextFieldGood(code: Byte, tcode: TextCode, s: seq<Byte>)
    requires NulFree(s) && |s| < 0x1_0000_0000
    ensures GoodFields(TextField(code, tcode, s))
  {
    hide PadLen;
    var f := Field(code, Text(tcode, s));
    FieldFits(0, f);
    assert GoodField(f);
  }

  lemma {:induction false} OtherFieldsGood(d: Draft)
    requires Sendable(d)
    ensures GoodFields(ReplyField(d.replySerial)) && GoodFields(SignatureField(d))
  {
    hide PadLen;
    SpanFacts();
    if d.replySerial.Some? {
      var f := Field(HEADER_REPLY_SERIAL, Fixed(UINT32, d.replySerial.value));
      FieldFits(0, f);
      assert GoodField(f);
    }
    var g := Field(HEADER_SIGNATURE, SigText(d.argsig));
    FieldFits(0, g);
    assert GoodField(g);
  }

  lemma {:induction false} GoodConcat(xs: seq<Field>, ys: seq<Field>)
    requires GoodFields(xs) && GoodFields(ys)
    ensures GoodFields(xs + ys)
  {
    hide GoodField;
  }

  lemma {:induction false} DraftFieldsGood(d: Draft)
    requires Sendable(d)
    ensures GoodFields(DraftFields(d))
  {
    hide GoodFields, TextField, ReplyField, SignatureField, Body;
    OtherFieldsGood(d);
    var a := TextField(HEADER_INTERFACE, STRING, d.interface);
    TextFieldGood(HEADER_INTERFACE, STRING, d.interface);
    TextFieldGood(HEADER_MEMBER, STRING, d.member);
    TextFieldGood(HEADER_ERROR_NAME, STRING, d.error);
    TextFieldGood(HEADER_DESTINATION, STRING, d.destination);
    TextFieldGood(HEADER_SENDER, STRING, d.sender);
    TextFieldGood(HEADER_OBJECT_PATH, OBJECT_PATH, d.path);
    GoodConcat(a, TextField(HEADER_MEMBER, STRING, d.member));
    a := a + TextField(HEADER_MEMBER, STRING, d.member);
    GoodConcat(a, TextField(HEADER_ERROR_NAME, STRING, d.error));
    a := a + TextField(HEADER_ERROR_NAME, STRING, d.error);
    GoodConcat(a, TextField(HEADER_DESTINATION, STRING, d.destination));
    a := a + TextField(HEADER_DESTINATION, STRING, d.destination);
    GoodConcat(a, TextField(HEADER_SENDER, STRING, d.sender));
    a := a + TextField(HEADER_SENDER, STRING, d.sender);
    GoodConcat(a, TextField(HEADER_OBJECT_PATH, OBJECT_PATH, d.path));
    a := a + TextField(HEADER_OBJECT_PATH, OBJECT_PATH, d.path);
    GoodConcat(a, ReplyField(d.replySerial));
    GoodConcat(a + ReplyField(d.replySerial), SignatureField(d));
  }

  /** One more optional field, applied last. */
  lemma {:induction false} ApplyOptional(m0: Fields, fs: seq<Field>, m: Fields, g: seq<Field>)
    requires ApplyAll(m0, fs) == Some(m) && |g| <= 1
    ensures ApplyAll(m0, fs + g) == if g == [] then Some(m) else Apply(m, g[0])
  {
    hide Apply;
    ApplyConcat(m0, fs, g);
    if g != [] {
      assert g[1..] == [];
    }
  }

  lemma {:induction false} DraftFieldsMeaning(d: Draft)
    requires Required(d) && Sendable(d)
    ensures ApplyAll(NO_FIELDS, DraftFields(d)) == Some(Described(d).fields)
  {
    hide ApplyAll, Body;
    var m := NO_FIELDS;
    var a: seq<Field> := [];
    assert ApplyAll(NO_FIELDS, a) == Some(m) by { ApplyNone(m); }
    var g := TextField(HEADER_INTERFACE, STRING, d.interface);
    ApplyOptional(NO_FIELDS, a, m, g);
    assert a + g == g;
    a, m := g, m.(interface := Set(d.interface));
    g := TextField(HEADER_MEMBER, STRING, d.member);
    ApplyOptional(NO_FIELDS, a, m, g);
    a, m := a + g, m.(member := Set(d.member));
    g := TextField(HEADER_ERROR_NAME, STRING, d.error);
    ApplyOptional(NO_FIELDS, a, m, g);
    a, m := a + g, m.(error := Set(d.error));
    g := TextField(HEADER_DESTINATION, STRING, d.destination);
    ApplyOptional(NO_FIELDS, a, m, g);
    a, m := a + g, m.(destination := Set(d.destination));
    g := TextField(HEADER_SENDER, STRING, d.sender);
    ApplyOptional(NO_FIELDS, a, m, g);
    a, m := a + g, m.(sender := Set(d.sender));
    g := TextField(HEADER_OBJECT_PATH, OBJECT_PATH, d.path);
    ApplyOptional(NO_FIELDS, a, m, g);
    a, m := a + g, m.(path := Set(d.path));
    g := ReplyField(d.replySerial);
    ApplyOptional(NO_FIELDS, a, m, g);
    a, m := a + g, m.(replySerial := d.replySerial);
    g := SignatureField(d);
    ApplyOptional(NO_FIELDS, a, m, g);
  }

  lemma {:induction false} ApplyNone(m: Fields)
    ensures ApplyAll(m, []) == Some(m)
  {
  }

  /** The message round trip: the parser, given the bytes of a built message at
      any aligned address, returns what the factory described. */
  lemma {:induction false} BuildParse(d: Draft, mem: seq<Byte>, p: nat)
    requires Required(d) && Sendable(d)
    requires p % 8 == 0 && Holds(mem, p, Built(d))
    ensures |Built(d)| >= 16 && p + |Built(d)| <= |mem|
    ensures Parse(mem, p, |Built(d)|) == Parsed(Described(d))
  {
    hide Parse, Whole, DraftFields, GoodFields, Body, Word, WordValue, ApplyAll, Holds;
    DraftFieldsGood(d);
    DraftFieldsMeaning(d);
    FixedWords(d);
    ParseMeaning(mem, p, |Built(d)|, FixedPart(d), DraftFields(d), d.args);
  }

  lemma {:induction false} FixedWords(d: Draft)
    requires Required(d) && Sendable(d)
    ensures var h := FixedPart(d);
            && WordValue(h[4..8]) == |d.args| && WordValue(h[8..12]) == d.serial
            && h[0] == NATIVE && h[1] == d.mtype && h[2] == d.flags
  {
    hide Body, Word, WordValue;
    SpanFacts();
    WordRoundTrip(4, |d.args|);
    WordRoundTrip(4, d.serial);
    var h := FixedPart(d);
    assert h[4..8] == Word(4, |d.args|) && h[8..12] == Word(4, d.serial);
  }

  // -------------------------------------------------------------- the factory

  /** `b` holds the fields `fs`, marshaled behind `base`. */
  ghost predicate Written(b: seq<Byte>, base: seq<Byte>, fs: seq<Field>) {
    b == base + EncodeAll(|base|, Values(fs))
  }

  lemma {:induction false} ValuesSnoc(off: nat, fs: seq<Field>, f: Field)
    ensures var body := EncodeAll(off, Values(fs));
            EncodeAll(off, Values(fs + [f])) == body + Encode(off + |body|, f.ToValue())
    decreases fs
  {
    hide Encode;
    var all := fs + [f];
    if fs == [] {
      assert all == [f] && [f][1..] == [];
      assert Values([f])[1..] == [];
    } else {
      var e := Encode(off, fs[0].ToValue());
      assert all[1..] == fs[1..] + [f];
      assert Values(all)[1..] == Values(all[1..]) && Values(fs)[1..] == Values(fs[1..]);
      ValuesSnoc(off + |e|, fs[1..], f);
    }
  }

  /** The marshaled field array behind the fixed part, padded, is a header. */
  lemma {:induction false} HeaderIsWhole(fixed: seq<Byte>, fs: seq<Field>)
    requires |fixed| == 12
    ensures var b := fixed + Encode(12, ArrayOf(FIELD, Values(fs)));
            b + Pad(|b|, 8) == Whole(fixed, fs)
  {
    FieldsStart();
    hide Encode, EncodeAll, Word, PadLen, BodyStart, Chunks;
    EncodeArray(12, FIELD, Values(fs));
    var body := Body(fs);
    assert AlignOf(FIELD) == 8;
    BodyIsChunks(fs);
    NoPad(16);
    ShiftedPad(16, |body|);
  }

  class MsgFactory {
    const buf: B.Buffer
    const argbuf: B.Buffer
    var messageType: int
    var flags: int
    var serial: int
    var replySerial: nat
    var hasReplySerial: bool
    var path: seq<Byte>
    var interface: seq<Byte>
    var member: seq<Byte>
    var error: seq<Byte>
    var destination: seq<Byte>
    var sender: seq<Byte>

    constructor ()
      ensures fresh(buf) && fresh(argbuf) && buf != argbuf
      ensures State() == Draft(0, 0, -1, None, [], [], [], [], [], [], [], [])
    {
      buf := new B.Buffer();
      argbuf := new B.Buffer();
      messageType, flags, serial, replySerial, hasReplySerial := 0, 0, -1, 0, false;
      path, interface, member, error, destination, sender := [], [], [], [], [], [];
    }

    function State(): Draft
      reads this, argbuf
    {
      Draft(messageType, flags, serial, if hasReplySerial then Some(replySerial) else None,
            path, interface, member, error, destination, sender, argbuf.sig, argbuf.b)
    }

    /** AppendString, AppendObjectPath */
    method AppendText(a: B.BufArray, code: Byte, tcode: TextCode, s: seq<Byte>, ghost base: seq<Byte>, ghost fs: seq<Field>)
      requires a.sigbegin == FIELD_SIG && Written(buf.b, base, fs)
      modifies buf`b, buf`sigp
      ensures Written(buf.b, base, fs + TextField(code, tcode, s))
    {
      hide Encode, EncodeAll, Values, PadLen;
      if |s| > 0 {
        ghost var f := Field(code, Text(tcode, s));
        ghost var off := |buf.b|;
        FieldSteps(off, f);
        buf.ArrayEntry(a);
        buf.BeginStruct();
        buf.PutFixed(UINT8, code);
        var oldsig := buf.BeginVariant([tcode]);
        buf.PutText(tcode, s);
        buf.EndVariant(oldsig);
        buf.EndStruct();
        ValuesSnoc(|base|, fs, f);
      } else {
        assert fs + [] == fs;
      }
    }

    method AppendUInt32(a: B.BufArray, code: Byte, n: nat, ghost base: seq<Byte>, ghost fs: seq<Field>)
      requires a.sigbegin == FIELD_SIG && Written(buf.b, base, fs)
      modifies buf`b, buf`sigp
      ensures Written(buf.b, base, fs + [Field(code, Fixed(UINT32, n))])
    {
      hide Encode, EncodeAll, Values, PadLen;
      ghost var f := Field(code, Fixed(UINT32, n));
      ghost var off := |buf.b|;
      FieldSteps(off, f);
      buf.ArrayEntry(a);
      buf.BeginStruct();
      buf.PutFixed(UINT8, code);
      var oldsig := buf.BeginVariant([UINT32]);
      buf.PutFixed(UINT32, n);
      buf.EndVariant(oldsig);
      buf.EndStruct();
      ValuesSnoc(|base|, fs, f);
    }

    method AppendSignature(a: B.BufArray, code: Byte, s: seq<Byte>, ghost base: seq<Byte>, ghost fs: seq<Field>)
      requires a.sigbegin == FIELD_SIG && Written(buf.b, base, fs) && |s| < 255
      modifies buf`b, buf`sigp
      ensures Written(buf.b, base, fs + [Field(code, SigText(s))])
    {
      hide Encode, EncodeAll, Values, PadLen;
      ghost var f := Field(code, SigText(s));
      ghost var off := |buf.b|;
      FieldSteps(off, f);
      buf.ArrayEntry(a);
      buf.BeginStruct();
      buf.PutFixed(UINT8, code);
      var oldsig := buf.BeginVariant([SIGNATURE]);
      buf.PutSignature(s);
      buf.EndVariant(oldsig);
      buf.EndStruct();
      ValuesSnoc(|base|, fs, f);
    }

    method AppendFields(a: B.BufArray, ghost base: seq<Byte>)
      requires buf != argbuf && |argbuf.sig| < 255
      requires a.sigbegin == FIELD_SIG && buf.b == base
      modifies buf`b, buf`sigp
      ensures Written(buf.b, base, DraftFields(State()))
    {
      hide EncodeAll, TextField;
      ghost var fs: seq<Field> := [];
      assert Written(buf.b, base, fs) by { WrittenNone(base); }
      AppendText(a, HEADER_INTERFACE, STRING, interface, base, fs);
      fs := TextField(HEADER_INTERFACE, STRING, interface);
      assert [] + fs == fs;
      AppendText(a, HEADER_MEMBER, STRING, member, base, fs);
      fs := fs + TextField(HEADER_MEMBER, STRING, member);
      AppendText(a, HEADER_ERROR_NAME, STRING, error, base, fs);
      fs := fs + TextField(HEADER_ERROR_NAME, STRING, error);
      AppendText(a, HEADER_DESTINATION, STRING, destination, base, fs);
      fs := fs + TextField(HEADER_DESTINATION, STRING, destination);
      AppendText(a, HEADER_SENDER, STRING, sender, base, fs);
      fs := fs + TextField(HEADER_SENDER, STRING, sender);
      AppendText(a, HEADER_OBJECT_PATH, OBJECT_PATH, path, base, fs);
      fs := fs + TextField(HEADER_OBJECT_PATH, OBJECT_PATH, path);
      if hasReplySerial {
        AppendUInt32(a, HEADER_REPLY_SERIAL, replySerial, base, fs);
      } else {
        assert fs + [] == fs;
      }
      fs := fs + ReplyField(State().replySerial);
      if |argbuf.b| > 0 {
        AppendSignature(a, HEADER_SIGNATURE, argbuf.sig, base, fs);
      } else {
        assert fs + [] == fs;
      }
    }

    /** adbus_msg_build: the bytes of the message in `buf`. */
    method Build() returns (ok: bool)
      requires buf != argbuf && argbuf.sigp == [] && |argbuf.sig| < 255
      modifies buf
      ensures ok == Required(State())
      ensures ok ==> buf.b == Built(State())
    {
      hide Encode, EncodeAll, PadLen, Word, Whole, DraftFields, BodyStart;
      buf.Reset();
      if serial < 0 {
        return false;
      }
      if messageType == MSG_METHOD {
        if path == [] || member == [] { return false; }
      } else if messageType == MSG_RETURN {
        if !hasReplySerial { return false; }
      } else if messageType == MSG_ERROR {
        if error == [] { return false; }
      } else if messageType == MSG_SIGNAL {
        if interface == [] || member == [] { return false; }
      } else {
        return false;
      }
      ghost var d := State();
      buf.Append([NATIVE, messageType % 256, flags % 256, PROTOCOL_VERSION]);
      buf.Append(Word(4, |argbuf.b|));
      buf.Append(Word(4, serial));
      assert buf.b == FixedPart(d);
      buf.AppendSig(FIELDS_SIG);
      BuildHeader(d);
      if |argbuf.b| > 0 {
        buf.Append(argbuf.b);
      } else {
        assert Whole(FixedPart(d), DraftFields(d)) + [] == Whole(FixedPart(d), DraftFields(d));
      }
      return true;
    }

    method BuildHeader(ghost d: Draft)
      requires buf != argbuf && d == State() && d.serial >= 0 && |argbuf.sig| < 255
      requires buf.b == FixedPart(d) && buf.sigp == FIELDS_SIG
      modifies buf`b, buf`sigp
      ensures buf.b == Whole(FixedPart(d), DraftFields(d))
    {
      hide Encode, EncodeAll, PadLen, Word, Whole, DraftFields, Show, BodyStart, Values;
      ghost var fixed := buf.b;
      FieldsText();
      FieldsStart();
      assert FIELDS_SIG + [] == FIELDS_SIG && FIELD_SIG + [] == FIELD_SIG;
      var a := buf.BeginArray(FIELD, []);
      ghost var base := buf.b;
      AppendFields(a, base);
      ghost var fs := DraftFields(d);
      B.PatchedArray(fixed, FIELD, Values(fs));
      buf.EndArray(a);
      HeaderIsWhole(fixed, fs);
      buf.Align(8);
    }
  }

  lemma {:induction false} WrittenNone(base: seq<Byte>)
    ensures Written(base, base, [])
  {
  }

  /** The bytes that the writers of one field append. */
  lemma {:induction false} FieldSteps(off: nat, f: Field)
    ensures var s := Show(TypeOf(f.value));
            var p := AlignUp(off, 8);
            Encode(off, f.ToValue())
            == Pad(off, 8) + Encode(p, Fixed(UINT8, f.code)) + ([|s| % 256] + s + [0]) + Encode(p + 1 + |s| + 2, f.value)
    ensures |Encode(AlignUp(off, 8), Fixed(UINT8, f.code))| == 1
  {
    hide PadLen, Encode, Show, TypeOf;
    var p := AlignUp(off, 8);
    FieldBytes(off, f);
    EncodeVariant(p + 1, f.value);
    ByteWord(p, f.code);
  }
}
