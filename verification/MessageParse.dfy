/** `adbus_parse`, reader by reader. */
module MessageParse {
  import opened Bytes
  import opened Signature
  import opened Codec
  import opened Header
  import opened HeaderRewrite
  import opened Message
  import I = Iterator

  /** On a one letter signature the typed reader does what the signature asks. */
  lemma {:induction false} TypedRead(it: Iter, c: Byte)
    requires it.sig == [c] && (IsText(c) || c == SIGNATURE)
    ensures Read(it).Some? == I.ReadText(it, c).Some?
    ensures Read(it).Some? ==>
              var (s, i1) := I.ReadText(it, c).value;
              Read(it).value == (if IsText(c) then Text(c, s) else SigText(s), i1)
  {
    hide Iter.Get, Iter.GetString, Iter.BeginArray, Iter.BeginVariant, ReadFields, ReadElems, PadLen;
  }

  lemma {:induction false} FixedRead(it: Iter)
    requires it.sig == [UINT32]
    ensures var r := it.Next().Get(4);
            Read(it) == if r.None? then None else Some((Fixed(UINT32, r.value.0), r.value.1))
  {
    hide Iter.Get, Iter.GetString, Iter.BeginArray, Iter.BeginVariant, ReadFields, ReadElems, PadLen;
  }

  /** The switch on the field code */
  method OneField(i: I.Iterator, code: nat, m: Fields) returns (ok: bool, m1: Fields)
    modifies i
    ensures ok == ReadField(m, code, old(i.State())).Some?
    ensures ok ==> (m1, i.State()) == ReadField(m, code, old(i.State())).value
  {
    hide Read, Skip, Codec.Iter.Get, I.ReadText;
    m1 := m;
    ghost var it := i.State();
    var s, n := [], 0;
    if code == HEADER_INVALID {
      return false, m;
    } else if IsStringCode(code) {
      if i.sig != [STRING] {
        return false, m;
      }
      TypedRead(it, STRING);
      ok, s := i.GetText(STRING);
      m1 := SetString(m, code, s);
    } else if code == HEADER_OBJECT_PATH {
      if i.sig != [OBJECT_PATH] {
        return false, m;
      }
      TypedRead(it, OBJECT_PATH);
      ok, s := i.GetText(OBJECT_PATH);
      m1 := m.(path := Some(s));
    } else if code == HEADER_SIGNATURE {
      if i.sig != [SIGNATURE] {
        return false, m;
      }
      TypedRead(it, SIGNATURE);
      ok, s := i.GetText(SIGNATURE);
      m1 := m.(signature := Some(s));
    } else if code == HEADER_REPLY_SERIAL {
      if i.sig != [UINT32] {
        return false, m;
      }
      FixedRead(it);
      ok, n := i.GetFixed(UINT32);
      m1 := m.(replySerial := Some(n));
    } else {
      ok := i.Value();
    }
  }

  /** The loop over the header fields */
  method HeaderFields(i: I.Iterator, a: I.IterArray) returns (ok: bool, m: Fields)
    requires a.sig == FIELD_SIG && a.data == i.pos
    modifies i
    ensures ok == ReadFieldsLoop(NO_FIELDS, old(i.State()), a.data + a.size).Some?
    ensures ok ==> Some(m) == ReadFieldsLoop(NO_FIELDS, old(i.State()), a.data + a.size)
  {
    hide BeginField, ReadField, EndField;
    ghost var end := a.data + a.size;
    m := NO_FIELDS;
    ok := true;
    var more := i.InArray(a);
    while more
      invariant ok && more == (i.pos < end) && (more ==> i.sig == FIELD_SIG)
      invariant ReadFieldsLoop(m, i.State(), end) == ReadFieldsLoop(NO_FIELDS, old(i.State()), end)
      decreases i.size
    {
      var code, origsig := 0, [];
      ok, code, origsig := FieldPrefix(i);
      if !ok {
        return;
      }
      ok, m := OneField(i, code, m);
      if !ok {
        return;
      }
      ok := FieldSuffix(i, origsig);
      if !ok {
        return;
      }
      ghost var it := i.State();
      more := i.InArray(a);
      SigIgnored(m, it, FIELD_SIG, end);
    }
  }

  /** The loop sets the signature itself. */
  lemma {:induction false} SigIgnored(m: Fields, it: Iter, sig: seq<Byte>, end: nat)
    ensures ReadFieldsLoop(m, it, end) == ReadFieldsLoop(m, it.(sig := sig), end)
  {
    hide BeginField, ReadField, EndField;
  }

  /** adbus_parse of a native message: what the specification of the parse says
      of these bytes. */
  method ParseMessage(mem: seq<Byte>, p: nat, size: nat) returns (r: ParseResult)
    requires 16 <= size && p + size <= |mem|
    ensures r == Parse(mem, p, size)
  {
    hide Codec.Iter.BeginArray, WordValue, PadLen, ReadFieldsLoop;
    var h: seq<Byte> := mem[p..p + 16];
    if h[1] == MSG_INVALID {
      return Malformed;
    } else if h[1] > MSG_SIGNAL {
      return Ignored;
    }
    var argsize, argdata := WordValue(h[4..8]), p + AlignUp(WordValue(h[12..16]) + 16, 8);
    var i := new I.Iterator(mem, p + 12, size - 12, FIELDS_SIG);
    ghost var it := i.State();
    var ok, a := i.BeginArray();
    if !ok {
      return Malformed;
    }
    FieldSignature(it);
    var m := NO_FIELDS;
    ok, m := HeaderFields(i, a);
    if !ok || !Complete(h[1], m, argsize) {
      return Malformed;
    }
    return Parsed(Message(h[1], h[2], WordValue(h[8..12]), m, argsize, Present(mem, argdata, argsize)));
  }
}
