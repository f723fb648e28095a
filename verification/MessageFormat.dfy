/** Messages in numbers: the layout and the codes of the header, as the D-Bus
    Specification has them ("Message Format" and "Header Fields"), and the messages that
    parser and factory take. */
module MessageFormat {
  import opened Bytes
  import opened Signature
  import opened Codec
  import opened Header
  import opened HeaderRewrite
  import opened Message
  import opened MessageBuild
  import opened WireFormat

  /** The header of a built message in bytes */
  lemma {:induction false} FirstSixteen(d: Draft)
    requires Required(d) && Sendable(d)
    ensures var n := |Body(DraftFields(d))|;
            Built(d)[..16] == ['l' as int, d.mtype, d.flags, 1] + Four(|d.args|) + Four(d.serial) + Four(n)
  {
    hide Body, Chunks, Word, DraftFields, Four, Sendable, Whole;
    var n := |Body(DraftFields(d))|;
    WordIs(|d.args|);
    WordIs(d.serial);
    WordIs(n);
    SmallFlags(d);
    FrontOf(FixedPart(d), DraftFields(d), d.args);
    var front: seq<Byte> := [NATIVE, d.mtype % 256, d.flags % 256, PROTOCOL_VERSION];
    assert d.mtype % 256 == d.mtype && d.flags % 256 == d.flags;
    assert front == ['l' as int, d.mtype, d.flags, 1];
  }

  lemma {:induction false} SmallFlags(d: Draft)
    requires Sendable(d)
    ensures 0 <= d.flags < 256
  {
    hide Body;
  }

  lemma {:induction false} FrontOf(fixed: seq<Byte>, fs: seq<Field>, args: seq<Byte>)
    requires |fixed| == 12
    ensures |Whole(fixed, fs) + args| >= 16 && (Whole(fixed, fs) + args)[..16] == fixed + Word(4, |Body(fs)|)
  {
    hide Body, Chunks, Word;
    var h := fixed + Word(4, |Body(fs)|);
    assert |h| == 16 && h <= Whole(fixed, fs);
  }

  /** The codes of the header fields, and what the parser takes them for */
  lemma {:induction false} FieldCodes(m: Fields, s: seq<Byte>, n: nat)
    requires n < 0x1_0000_0000
    ensures Apply(m, Field(1, Text('o' as int, s))) == Some(m.(path := Some(s)))
    ensures Apply(m, Field(2, Text('s' as int, s))) == Some(m.(interface := Some(s)))
    ensures Apply(m, Field(3, Text('s' as int, s))) == Some(m.(member := Some(s)))
    ensures Apply(m, Field(4, Text('s' as int, s))) == Some(m.(error := Some(s)))
    ensures Apply(m, Field(5, Fixed('u' as int, n))) == Some(m.(replySerial := Some(n)))
    ensures Apply(m, Field(6, Text('s' as int, s))) == Some(m.(destination := Some(s)))
    ensures Apply(m, Field(7, Text('s' as int, s))) == Some(m.(sender := Some(s)))
    ensures Apply(m, Field(8, SigText(s))) == Some(m.(signature := Some(s)))
    ensures Sender(s) == Field(7, Text('s' as int, s))
  {
  }

  predicate Carries(fs: seq<Field>, code: nat) {
    exists k :: 0 <= k < |fs| && fs[k].code == code
  }

  /** The parser accepts a well-formed message exactly when the types of its fields are
      right and it carries the fields that its type requires: path and member for a
      method call, the reply serial for a return, the error name for an error, interface
      and member for a signal, and the signature with any arguments. */
  lemma {:induction false} AcceptedIff(fixed: seq<Byte>, fs: seq<Field>, args: seq<Byte>)
    requires |fixed| == 12
    ensures Meaning(fixed, fs, args).Parsed? <==>
              && ApplyAll(NO_FIELDS, fs).Some? && 1 <= fixed[1] <= 4
              && (fixed[1] == 1 ==> Carries(fs, 1) && Carries(fs, 3))
              && (fixed[1] == 2 ==> Carries(fs, 5))
              && (fixed[1] == 3 ==> Carries(fs, 4))
              && (fixed[1] == 4 ==> Carries(fs, 2) && Carries(fs, 3))
              && (args != [] ==> Carries(fs, 8))
    ensures fixed[1] > 4 <==> Meaning(fixed, fs, args) == Ignored
  {
    hide ApplyAll, Carries;
    if ApplyAll(NO_FIELDS, fs).Some? {
      StoredIff(NO_FIELDS, fs);
    }
  }

  /** A field of the message is set exactly when the header carries it. */
  lemma {:induction false} StoredIff(m: Fields, fs: seq<Field>)
    requires ApplyAll(m, fs).Some?
    ensures var r := ApplyAll(m, fs).value;
            && (r.path.Some? <==> m.path.Some? || Carries(fs, 1))
            && (r.interface.Some? <==> m.interface.Some? || Carries(fs, 2))
            && (r.member.Some? <==> m.member.Some? || Carries(fs, 3))
            && (r.error.Some? <==> m.error.Some? || Carries(fs, 4))
            && (r.replySerial.Some? <==> m.replySerial.Some? || Carries(fs, 5))
            && (r.signature.Some? <==> m.signature.Some? || Carries(fs, 8))
    decreases fs
  {
    hide Apply, Carries;
    if fs == [] {
      CarriesNone(fs);
    } else {
      var m1 := Apply(m, fs[0]).value;
      AppliedOne(m, fs[0]);
      StoredIff(m1, fs[1..]);
      forall code
        ensures Carries(fs, code) <==> fs[0].code == code || Carries(fs[1..], code)
      {
        CarriesRest(fs, code);
      }
    }
  }

  lemma {:induction false} CarriesNone(fs: seq<Field>)
    requires fs == []
    ensures forall code :: !Carries(fs, code)
  {
  }

  lemma {:induction false} CarriesRest(fs: seq<Field>, code: nat)
    requires fs != []
    ensures Carries(fs, code) <==> fs[0].code == code || Carries(fs[1..], code)
  {
    if k :| 0 <= k < |fs| && fs[k].code == code {
      assert k > 0 ==> fs[1..][k - 1].code == code;
    }
    if k :| 0 <= k < |fs[1..]| && fs[1..][k].code == code {
      assert fs[k + 1].code == code;
    }
  }

  lemma {:induction false} AppliedOne(m: Fields, f: Field)
    requires Apply(m, f).Some?
    ensures var r := Apply(m, f).value;
            && (r.path.Some? <==> m.path.Some? || f.code == 1)
            && (r.interface.Some? <==> m.interface.Some? || f.code == 2)
            && (r.member.Some? <==> m.member.Some? || f.code == 3)
            && (r.error.Some? <==> m.error.Some? || f.code == 4)
            && (r.replySerial.Some? <==> m.replySerial.Some? || f.code == 5)
            && (r.signature.Some? <==> m.signature.Some? || f.code == 8)
  {
  }

  /** The types that the fields must have; other codes than 0 may have any. */
  predicate TypeAllowed(f: Field) {
    var t := Show(TypeOf(f.value));
    && f.code != 0
    && (f.code == 1 ==> t == ['o' as int])
    && (f.code in {2, 3, 4, 6, 7} ==> t == ['s' as int])
    && (f.code == 5 ==> t == ['u' as int])
    && (f.code == 8 ==> t == ['g' as int])
  }

  lemma {:induction false} TypesRight(m: Fields, fs: seq<Field>)
    ensures ApplyAll(m, fs).Some? <==> forall k :: 0 <= k < |fs| ==> TypeAllowed(fs[k])
    decreases fs
  {
    hide Apply, TypeAllowed;
    if fs != [] {
      TypeRight(m, fs[0]);
      if Apply(m, fs[0]).Some? {
        TypesRight(Apply(m, fs[0]).value, fs[1..]);
        assert forall k :: 1 <= k < |fs| ==> fs[k] == fs[1..][k - 1];
      }
    }
  }

  lemma {:induction false} TypeRight(m: Fields, f: Field)
    ensures Apply(m, f).Some? <==> TypeAllowed(f)
  {
    hide Show, TypeOf;
    OneLetter(TypeOf(f.value), STRING);
    OneLetter(TypeOf(f.value), OBJECT_PATH);
    OneLetter(TypeOf(f.value), SIGNATURE);
    OneLetter(TypeOf(f.value), UINT32);
    BasicTypes(f.value);
  }

  // ------------------------------------------------------------------- factory

  /** The codes that fields carry, when they are put one behind the other */
  lemma {:induction false} CarriesBoth(a: seq<Field>, b: seq<Field>)
    ensures forall code :: Carries(a + b, code) <==> Carries(a, code) || Carries(b, code)
  {
    forall code
      ensures Carries(a + b, code) <==> Carries(a, code) || Carries(b, code)
    {
      if Carries(a + b, code) {
        var k :| 0 <= k < |a + b| && (a + b)[k].code == code;
        assert k < |a| ==> a[k].code == code;
        assert k >= |a| ==> b[k - |a|].code == code;
      }
      if Carries(a, code) {
        var k :| 0 <= k < |a| && a[k].code == code;
        assert (a + b)[k].code == code;
      }
      if Carries(b, code) {
        var k :| 0 <= k < |b| && b[k].code == code;
        assert (a + b)[|a| + k].code == code;
      }
    }
  }

  lemma {:induction false} TextFieldIs(code: Byte, tcode: TextCode, s: seq<Byte>)
    requires (code == 1 && tcode == 'o' as int) || (code in {2, 3, 4, 6, 7} && tcode == 's' as int)
    ensures forall c :: Carries(TextField(code, tcode, s), c) <==> c == code && s != []
    ensures forall f :: f in TextField(code, tcode, s) ==> TypeAllowed(f)
  {
    if s != [] {
      assert TextField(code, tcode, s)[0].code == code;
    }
  }

  lemma {:induction false} OtherFieldsAre(d: Draft)
    ensures forall c :: Carries(ReplyField(d.replySerial), c) <==> c == 5 && d.replySerial.Some?
    ensures forall c :: Carries(SignatureField(d), c) <==> c == 8 && d.args != []
    ensures forall f :: f in ReplyField(d.replySerial) ==> TypeAllowed(f)
    ensures forall f :: f in SignatureField(d) ==> TypeAllowed(f)
  {
    if d.replySerial.Some? {
      assert ReplyField(d.replySerial)[0].code == 5;
    }
    if d.args != [] {
      assert SignatureField(d)[0].code == 8;
    }
  }

  /** The header of a draft carries the fields that are set, under their codes. */
  lemma {:induction false} DraftCarries(d: Draft)
    ensures var fs := DraftFields(d);
            && (Carries(fs, 1) <==> d.path != []) && (Carries(fs, 2) <==> d.interface != [])
            && (Carries(fs, 3) <==> d.member != []) && (Carries(fs, 4) <==> d.error != [])
            && (Carries(fs, 5) <==> d.replySerial.Some?) && (Carries(fs, 6) <==> d.destination != [])
            && (Carries(fs, 7) <==> d.sender != []) && (Carries(fs, 8) <==> d.args != [])
            && forall f :: f in fs ==> TypeAllowed(f)
  {
    hide Carries, TextField, ReplyField, SignatureField, TypeAllowed;
    TextFieldIs(2, 's' as int, d.interface);
    TextFieldIs(3, 's' as int, d.member);
    TextFieldIs(4, 's' as int, d.error);
    TextFieldIs(6, 's' as int, d.destination);
    TextFieldIs(7, 's' as int, d.sender);
    TextFieldIs(1, 'o' as int, d.path);
    OtherFieldsAre(d);
    var a := TextField(2, STRING, d.interface);
    CarriesBoth(a, TextField(3, STRING, d.member));
    a := a + TextField(3, STRING, d.member);
    CarriesBoth(a, TextField(4, STRING, d.error));
    a := a + TextField(4, STRING, d.error);
    CarriesBoth(a, TextField(6, STRING, d.destination));
    a := a + TextField(6, STRING, d.destination);
    CarriesBoth(a, TextField(7, STRING, d.sender));
    a := a + TextField(7, STRING, d.sender);
    CarriesBoth(a, TextField(1, OBJECT_PATH, d.path));
    a := a + TextField(1, OBJECT_PATH, d.path);
    CarriesBoth(a, ReplyField(d.replySerial));
    CarriesBoth(a + ReplyField(d.replySerial), SignatureField(d));
  }

  /** The factory builds exactly the messages that the parser accepts. */
  lemma {:induction false} BuildsWhatParses(d: Draft)
    requires d.serial >= 0 && 0 <= d.mtype < 256
    ensures Required(d) <==> Meaning(FixedPart(d), DraftFields(d), d.args).Parsed?
  {
    hide Carries, DraftFields, ApplyAll, TypeAllowed, Word, Meaning;
    var fs := DraftFields(d);
    DraftCarries(d);
    TypesRight(NO_FIELDS, fs);
    assert forall k :: 0 <= k < |fs| ==> fs[k] in fs;
    AcceptedIff(FixedPart(d), fs, d.args);
    assert FixedPart(d)[1] == d.mtype;
  }

  /** The byte order mark decides which end of a header word comes first. */
  lemma {:induction false} EitherOrder(mark: Byte, w: seq<Byte>)
    requires |w| == 4
    ensures mark == 'l' as int ==>
              Load32(mark, w) == w[0] as int + 0x100 * (w[1] as int) + 0x1_0000 * (w[2] as int) + 0x100_0000 * (w[3] as int)
    ensures mark != 'l' as int ==>
              Load32(mark, w) == w[3] as int + 0x100 * (w[2] as int) + 0x1_0000 * (w[1] as int) + 0x100_0000 * (w[0] as int)
  {
    SpelledBy(w);
    SpelledBy([w[3], w[2], w[1], w[0]]);
  }
}
