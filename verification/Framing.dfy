/** The client side of the stream: `adbus_parse_size` predicts the size of the
    message in front, `adbus_conn_parse` cuts the stream by it. The prediction
    adds the twelve byte header where the message has sixteen. */
module Framing {
  import opened Bytes
  import Signature
  import opened Codec
  import opened CodecLaws
  import opened Header
  import opened HeaderRewrite
  import opened MessageBuild
  import opened Message
  import B = Buffer

  /** adbus_parse_size */
  function ParseSize(data: seq<Byte>): (n: nat)
  {
    if |data| < 16 then 0
    else AlignUp(12 + Load32(data[0], data[12..16]), 8) + Load32(data[0], data[4..8])
  }

  /** A message on the wire */
  datatype Packet = Packet(fixed: seq<Byte>, fs: seq<Field>, args: seq<Byte>) {
    predicate Valid() {
      && |fixed| == 12 && fixed[0] == NATIVE && WordValue(fixed[4..8]) == |args|
      && |Body(fs)| <= MAX_ARRAY
    }

    function Bytes(): seq<Byte> {
      Whole(fixed, fs) + args
    }

    /** The header fields end within the last four bytes of a block of eight, or
        at its end. */
    predicate Framed() {
      |Body(fs)| % 8 in {0, 5, 6, 7}
    }
  }

  lemma {:induction false} TwelveOrSixteen(n: nat)
    ensures n % 8 in {0, 5, 6, 7} ==> AlignUp(12 + n, 8) == AlignUp(16 + n, 8)
    ensures n % 8 !in {0, 5, 6, 7} ==> AlignUp(12 + n, 8) + 8 == AlignUp(16 + n, 8)
  {
    PadModulo8(16 + n, n, 8);
    var r := n % 8;
    SumModulo8(n, r, 12);
    PadModulo8(12 + n, 12 + r, 8);
  }

  /** The predicted size of the message in front of a stream is the size of the
      message exactly when the message is framed; otherwise it is eight short. */
  lemma {:induction false} SizePrediction(k: Packet, rest: seq<Byte>)
    requires k.Valid()
    ensures ParseSize(k.Bytes() + rest) == if k.Framed() then |k.Bytes()| else |k.Bytes()| - 8
    ensures |k.Bytes()| >= 16 + |k.args| && |k.Bytes() + rest| >= 16 && ParseSize(k.Bytes() + rest) > 0
  {
    hide PadLen, Body, Chunks, Word, WordValue;
    var n := |Body(k.fs)|;
    WholeLength(k.fixed, k.fs);
    PadModulo8(16 + n, n, 8);
    TwelveOrSixteen(n);
    var w := Whole(k.fixed, k.fs);
    var data := k.Bytes() + rest;
    assert data[12..16] == w[12..16] && data[4..8] == k.fixed[4..8] && data[0] == NATIVE;
  }

  /** The pieces that adbus_conn_parse cuts off, and what it leaves. */
  function Cut(data: seq<Byte>): (r: (seq<seq<Byte>>, seq<Byte>))
    decreases |data|
  {
    var n := ParseSize(data);
    if n == 0 || n > |data| then ([], data)
    else
      var (pieces, rest) := Cut(data[n..]);
      ([data[..n]] + pieces, rest)
  }

  function Stream(ks: seq<Packet>): seq<Byte> {
    if ks == [] then [] else ks[0].Bytes() + Stream(ks[1..])
  }

  function Pieces(ks: seq<Packet>): (r: seq<seq<Byte>>)
    ensures |r| == |ks|
  {
    if ks == [] then [] else [ks[0].Bytes()] + Pieces(ks[1..])
  }

  /** The stream of messages, followed by less than a header, is cut at the
      message boundaries if and only if every message is framed. */
  lemma {:induction false} CutExactIff(ks: seq<Packet>, tail: seq<Byte>)
    requires |tail| < 16 && forall k :: k in ks ==> k.Valid()
    ensures Cut(Stream(ks) + tail) == (Pieces(ks), tail) <==> forall k :: k in ks ==> k.Framed()
    decreases ks
  {
    hide ParseSize, Packet.Valid, Packet.Framed, Packet.Bytes;
    if ks == [] {
      assert [] + tail == tail;
      ShortStream(tail);
    } else {
      var k, rest := ks[0], Stream(ks[1..]) + tail;
      assert Stream(ks) + tail == k.Bytes() + rest;
      SizePrediction(k, rest);
      CutExactIff(ks[1..], tail);
      assert ks == [k] + ks[1..];
      var n := ParseSize(k.Bytes() + rest);
      var (pieces, left) := Cut((k.Bytes() + rest)[n..]);
      if k.Framed() {
        assert (k.Bytes() + rest)[..n] == k.Bytes() && (k.Bytes() + rest)[n..] == rest;
        assert ([k.Bytes()] + pieces)[1..] == pieces && Pieces(ks)[1..] == Pieces(ks[1..]);
      } else {
        assert ([(k.Bytes() + rest)[..n]] + pieces)[0] != Pieces(ks)[0];
      }
    }
  }

  lemma {:induction false} ShortStream(data: seq<Byte>)
    requires |data| < 16
    ensures Cut(data) == ([], data)
  {
  }

  /** A built message is a packet. */
  lemma {:induction false} BuiltIsPacket(d: Draft)
    requires Required(d) && Sendable(d)
    ensures var k := Packet(FixedPart(d), DraftFields(d), d.args);
            k.Valid() && k.Bytes() == Built(d)
  {
    hide Body, DraftFields, Whole, Word, WordValue;
    FixedWords(d);
  }

  lemma {:induction false} TextFieldLength(code: Byte, t: Signature.TextCode, s: seq<Byte>)
    ensures |Encode(0, Field(code, Text(t, s)).ToValue())| == 9 + |s|
  {
    hide Word;
    FieldSteps(0, Field(code, Text(t, s)));
  }

  lemma {:induction false} TwoFields(d: Draft, m: Field, o: Field)
    requires d == Draft(1, 0, 1, None, [47], [], [65], [], [], [], [], [])
    requires m == Field(HEADER_MEMBER, Text(Signature.STRING, [65]))
    requires o == Field(HEADER_OBJECT_PATH, Text(Signature.OBJECT_PATH, [47]))
    ensures DraftFields(d) == [m] + [o]
  {
  }

  /** A message that is not framed: a method call of member "A" on path "/" has
      26 bytes of header fields. */
  lemma {:induction false} UnframedMessage(d: Draft)
    requires d == Draft(1, 0, 1, None, [47], [], [65], [], [], [], [], [])
    ensures Required(d) && |Body(DraftFields(d))| == 26
    ensures !Packet(FixedPart(d), DraftFields(d), d.args).Framed()
  {
    hide Encode, DraftFields, Field.ToValue;
    var m := Field(HEADER_MEMBER, Text(Signature.STRING, [65]));
    var o := Field(HEADER_OBJECT_PATH, Text(Signature.OBJECT_PATH, [47]));
    TwoFields(d, m, o);
    BodySnoc(16, [m], o);
    OneChunk(m);
    TextFieldLength(HEADER_MEMBER, Signature.STRING, [65]);
    TextFieldLength(HEADER_OBJECT_PATH, Signature.OBJECT_PATH, [47]);
  }

  /** adbus_conn_parse, with the parse and the dispatch of a message behind
      `accept`; `received` records the messages handed on. */
  class Client {
    var received: seq<seq<Byte>>
    const accept: seq<Byte> -> bool

    constructor (accept: seq<Byte> -> bool)
      ensures received == [] && this.accept == accept
    {
      received, this.accept := [], accept;
    }

    /** The k-th piece is the first that is not accepted. */
    predicate Refused(pieces: seq<seq<Byte>>, k: nat)
      requires k < |pieces|
    {
      !accept(pieces[k]) && forall j :: 0 <= j < k ==> accept(pieces[j])
    }

    method Parse(buf: B.Buffer) returns (ok: bool)
      modifies this`received, buf`b
      ensures ok <==> forall k :: 0 <= k < |Cut(old(buf.b)).0| ==> accept(Cut(old(buf.b)).0[k])
      ensures ok ==> received == old(received) + Cut(old(buf.b)).0 && buf.b == Cut(old(buf.b)).1
      ensures !ok ==> buf.b == old(buf.b)
      ensures !ok ==>
                exists k :: 0 <= k < |Cut(old(buf.b)).0| && Refused(Cut(old(buf.b)).0, k)
                            && received == old(received) + Cut(old(buf.b)).0[..k]
    {
      hide ParseSize;
      var data := buf.b;
      ghost var pieces, left := Cut(buf.b).0, Cut(buf.b).1;
      ghost var k := 0;
      while true
        invariant 0 <= k <= |pieces| && Cut(data) == (pieces[k..], left)
        invariant received == old(received) + pieces[..k] && buf.b == old(buf.b)
        invariant forall j :: 0 <= j < k ==> accept(pieces[j])
        decreases |data|
      {
        var msgsize := ParseSize(data);
        if msgsize == 0 || msgsize > |data| {
          break;
        }
        var piece := data[..msgsize];
        assert pieces[k..][0] == piece && pieces[k..][1..] == pieces[k + 1..];
        if !accept(piece) {
          assert Refused(pieces, k);
          return false;
        }
        received := received + [piece];
        data := data[msgsize..];
        k := k + 1;
      }
      assert pieces[..k] == pieces;
      buf.b := data;
      return true;
    }
  }
}
