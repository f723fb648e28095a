/** adbus_remote_parse: the resumable parser of the byte stream of a remote.
    A message is copied header first, the header is rewritten, the body is
    copied, the message is dispatched. */
module StreamParser {
  import opened Bytes
  import opened Sequences
  import opened Signature
  import opened Codec
  import opened CodecLaws
  import opened Header
  import opened Outside
  import opened HeaderRewrite
  import opened HeaderScan
  import B = Buffer
  import I = Iterator

  datatype ParseState = BEGIN | HEADER | DATA

  /** A dispatched message: whether it came in native byte order, and its bytes
      behind the header rewrite. */
  datatype Dispatched = Dispatched(native: bool, bytes: seq<Byte>)

  /** The unique name of the remote (":1." and a number, or the name of the bus)
      and the code around the parser that this model does not open: the byte order
      flip of a foreign header, and the dispatch into the server, which may
      depend on everything dispatched before and may refuse the message. */
  datatype Environment = Environment(
    unique: seq<Byte>,
    flip: seq<Byte> -> Option<seq<Byte>>,
    dispatch: (seq<Dispatched>, Dispatched) -> bool)

  type Env = e: Environment | |e.unique| <= 20 witness Environment([], b => None, (l, d) => false)

  /** A parser runs until it refuses a message, or until it leaves its buffer in
      FixHeaders, from where on the source does not define what it does. The last
      outcome is a failed assertion of the parser, which is shown not to occur. */
  datatype Status = Running | Refused | OutOfBuffer | AssertFailed

  /** The parser's state; `log` records what was dispatched. */
  datatype Machine = Machine(
    state: ParseState, headerSize: nat, msgSize: nat, parsedMsgSize: nat,
    native: bool, msg: seq<Byte>, log: seq<Dispatched>, status: Status)
  {
    /** The remote is to be kicked; what is left of the message is dropped. */
    function Stop(why: Status): Machine {
      this.(status := why, state := BEGIN, msg := [])
    }
  }

  /** The size of the header that starts with `b`, padding included */
  function HeaderSize(b: seq<Byte>): (n: nat)
    requires |b| >= 16
    ensures n >= 16
  {
    AlignUp(16 + Load32(b[0], b[12..16]), 8)
  }

  /** The header in native byte order, if it can be brought into it */
  function Native(env: Env, b: seq<Byte>): (r: Option<seq<Byte>>)
    requires |b| >= 16 && HeaderSize(b) == |b|
    ensures r.Some? ==> IsHeader(r.value) && |r.value| == |b|
  {
    if b[0] == NATIVE then
      FieldsEnd(b, b);
      Some(b)
    else
      var flipped :- env.flip(b[0 := NATIVE]);
      if |flipped| == |b| && FieldsLength(flipped) == Load32(b[0], b[12..16]) then
        FieldsEnd(flipped, b);
        Some(flipped)
      else None
  }

  /** FixHeaders on a header of either byte order */
  function FixAny(env: Env, b: seq<Byte>): (r: Rewrite)
    requires |b| >= 16 && HeaderSize(b) == |b|
    ensures r.Rewritten? ==> |r.bytes| >= 16
  {
    match Native(env, b)
    case None => Rejected
    case Some(n) => Fix(n, env.unique)
  }

  /** The iterator of FixHeaders ends where the header ends, in either byte
      order. */
  lemma {:induction false} FieldsEnd(b: seq<Byte>, was: seq<Byte>)
    requires |b| >= 16 && |was| == |b| && HeaderSize(was) == |was|
    requires FieldsLength(b) == Load32(was[0], was[12..16])
    ensures IsHeader(b)
  {
    hide PadLen, WordValue, Load32;
    var n := FieldsLength(b);
    PadModulo8(16 + n, n, 8);
  }

  /** BEGIN: read the sizes from the sixteen bytes in front. */
  function Begin(m: Machine, data: seq<Byte>): (r: Machine)
    requires |data| >= 16
    ensures r.state == HEADER && r.msg == []
  {
    var msgSize := HeaderSize(data) + Load32(data[0], data[4..8]);
    m.(state := HEADER, headerSize := HeaderSize(data), msgSize := msgSize, msg := [])
  }

  /** HEADER complete: rewrite it, and compute the new message size from the new
      length word. */
  function EndHeader(env: Env, m: Machine, header: seq<Byte>): (r: Machine)
    ensures r.status == Running ==> r.state == DATA
    ensures m.status == Running && r.status != Running ==> r.state == BEGIN
    ensures r.log == m.log
  {
    if |header| < 16 || HeaderSize(header) != |header| || m.msgSize < m.headerSize then m.Stop(AssertFailed)
    else match FixAny(env, header)
    case Rejected => m.Stop(Refused)
    case Overrun => m.Stop(OutOfBuffer)
    case Rewritten(h) =>
      m.(state := DATA, native := header[0] == NATIVE, msg := h,
         parsedMsgSize := m.msgSize - m.headerSize + AlignUp(FieldsLength(h), 8) + 16)
  }

  /** The length word of a rewritten header gives its size. */
  lemma {:induction false} FixSize(b: seq<Byte>, unique: seq<Byte>)
    requires IsHeader(b) && |unique| <= 20 && Fix(b, unique).Rewritten?
    ensures var h := Fix(b, unique).bytes;
            |h| == AlignUp(FieldsLength(h), 8) + 16
  {
    hide StripLoop, FieldsIter, Completed, FieldsLength;
    HeaderStart(b);
    var (i0, n) := FieldsIter(b).value;
    FieldsBound(b);
    CompletedSize(StripLoop(i0, i0.pos + n).bytes, unique);
  }

  /** The array of a header that FixHeaders goes over is within the limit. */
  lemma {:induction false} FieldsBound(b: seq<Byte>)
    requires IsHeader(b) && FieldsIter(b).Some?
    ensures FieldsLength(b) <= MAX_ARRAY
  {
    hide PadLen, WordValue, RestOf;
    HeaderPads();
    var it := Iter(b, 12, 4 + AlignUp(FieldsLength(b), 8), FIELDS_SIG);
    assert it.Next().Get(4) == Some((FieldsLength(b), it.Next().Advance(4)));
  }

  lemma {:induction false} CompletedSize(stripped: seq<Byte>, unique: seq<Byte>)
    requires 16 <= |stripped| <= 16 + MAX_ARRAY + 7 && |unique| <= 20
    ensures var h := Completed(stripped, unique);
            |h| == AlignUp(FieldsLength(h), 8) + 16
  {
    hide Encode, PadLen, Word, WordValue;
    SenderLength(|stripped|, unique);
    var b1 := stripped + Encode(|stripped|, Sender(unique).ToValue());
    var b2 := b1[..12] + Word(4, |b1| - 16) + b1[16..];
    SpanFacts();
    WordRoundTrip(4, |b1| - 16);
    var h := b2 + Pad(|b2|, 8);
    assert h[12..16] == Word(4, |b1| - 16);
    PadModulo8(|b1|, |b1| - 16, 8);
  }

  lemma {:induction false} FixAnySize(env: Env, b: seq<Byte>)
    requires |b| >= 16 && |b| == HeaderSize(b) && FixAny(env, b).Rewritten?
    ensures var h := FixAny(env, b).bytes;
            |h| == AlignUp(FieldsLength(h), 8) + 16
  {
    hide Fix, WordValue, PadLen, Native;
    FixSize(Native(env, b).value, env.unique);
  }

  /** DATA complete: dispatch the message. */
  function EndData(env: Env, m: Machine, msg: seq<Byte>): (r: Machine)
    ensures r.state == BEGIN
  {
    var d := Dispatched(m.native, msg);
    if env.dispatch(m.log, d) then
      m.(state := BEGIN, headerSize := 0, msgSize := 0, parsedMsgSize := 0, msg := [], log := m.log + [d])
    else m.Stop(Refused)
  }

  /** One call of the parser on the bytes of its buffer: the state and the bytes
      that stay in the buffer. */
  function Run(env: Env, m: Machine, data: seq<Byte>): (r: (Machine, seq<Byte>))
    decreases |data|, if m.state == DATA then 2 else if m.state == BEGIN then 1 else 0
  {
    if m.status != Running then (m, [])
    else match m.state
    case BEGIN =>
      if |data| < 16 then (m, data) else Run(env, Begin(m, data), data)
    case HEADER =>
      if m.headerSize <= |m.msg| then (m.Stop(AssertFailed), [])
      else if |m.msg| + |data| < m.headerSize then (m.(msg := m.msg + data), [])
      else
        var need := m.headerSize - |m.msg|;
        Run(env, EndHeader(env, m, m.msg + data[..need]), data[need..])
    case DATA =>
      if m.parsedMsgSize < |m.msg| then (m.Stop(AssertFailed), [])
      else if |m.msg| + |data| < m.parsedMsgSize then (m.(msg := m.msg + data), [])
      else
        var need := m.parsedMsgSize - |m.msg|;
        Run(env, EndData(env, m, m.msg + data[..need]), data[need..])
  }

  /** One step of the parser */
  lemma {:induction false} RunUnfold(env: Env, m: Machine, data: seq<Byte>)
    requires m.status == Running
    ensures m.state == BEGIN ==>
              Run(env, m, data) == if |data| < 16 then (m, data) else Run(env, Begin(m, data), data)
    ensures m.state == HEADER && |m.msg| < m.headerSize ==>
              var need := m.headerSize - |m.msg|;
              Run(env, m, data) ==
                if |data| < need then (m.(msg := m.msg + data), [])
                else Run(env, EndHeader(env, m, m.msg + data[..need]), data[need..])
    ensures m.state == DATA && |m.msg| <= m.parsedMsgSize ==>
              var need := m.parsedMsgSize - |m.msg|;
              Run(env, m, data) ==
                if |data| < need then (m.(msg := m.msg + data), [])
                else Run(env, EndData(env, m, m.msg + data[..need]), data[need..])
  {
    hide EndHeader, EndData, Begin;
  }

  lemma {:induction false} RunStopped(env: Env, m: Machine, data: seq<Byte>)
    requires m.status != Running
    ensures Run(env, m, data) == (m, [])
  {
  }

  /** Cutting the stream in two makes no difference. */
  lemma {:induction false} RunSplit(env: Env, m: Machine, x: seq<Byte>, y: seq<Byte>)
    ensures var (m1, left) := Run(env, m, x);
            Run(env, m, x + y) == Run(env, m1, left + y)
    decreases |x|, if m.state == DATA then 2 else if m.state == BEGIN then 1 else 0
  {
    hide HeaderSize, Load32, PadLen, EndHeader, EndData;
    if m.status == Running {
      match m.state
      case BEGIN =>
        if |x| >= 16 {
          SamePrefix(x, y);
          RunSplit(env, Begin(m, x), x, y);
        }
      case HEADER =>
        if |m.msg| + |x| < m.headerSize {
          Partial(env, m, x, y);
        } else if |m.msg| < m.headerSize {
          var need := m.headerSize - |m.msg|;
          TakeFirst(x, y, need);
          RunSplit(env, EndHeader(env, m, m.msg + x[..need]), x[need..], y);
        }
      case DATA =>
        if |m.msg| + |x| < m.parsedMsgSize {
          Partial(env, m, x, y);
        } else if |m.msg| <= m.parsedMsgSize {
          var need := m.parsedMsgSize - |m.msg|;
          TakeFirst(x, y, need);
          RunSplit(env, EndData(env, m, m.msg + x[..need]), x[need..], y);
        }
    }
  }

  lemma {:induction false} TakeFirst(x: seq<Byte>, y: seq<Byte>, n: nat)
    requires n <= |x|
    ensures (x + y)[..n] == x[..n] && (x + y)[n..] == x[n..] + y
  {
  }

  lemma {:induction false} SamePrefix(x: seq<Byte>, y: seq<Byte>)
    requires |x| >= 16
    ensures HeaderSize(x + y) == HeaderSize(x)
    ensures (x + y)[0] == x[0] && (x + y)[4..8] == x[4..8]
  {
    assert (x + y)[0] == x[0] && (x + y)[12..16] == x[12..16] && (x + y)[4..8] == x[4..8];
  }

  /** What a complete header or message does, does not depend on the buffer. */
  lemma {:induction false} SameEnds(env: Env, m: Machine, msg: seq<Byte>)
    ensures forall h: seq<Byte> :: EndHeader(env, m, h) == EndHeader(env, m.(msg := msg), h)
    ensures forall h: seq<Byte> :: EndData(env, m, h) == EndData(env, m.(msg := msg), h)
  {
  }

  /** How many bytes the message still takes in the states that copy */
  function Need(m: Machine): int {
    if m.state == HEADER then m.headerSize - |m.msg| else m.parsedMsgSize - |m.msg|
  }

  /** Bytes that do not complete the header or the message are kept. */
  lemma {:induction false} Partial(env: Env, m: Machine, x: seq<Byte>, y: seq<Byte>)
    requires m.state != BEGIN && m.status == Running && |x| < Need(m)
    ensures Run(env, m, x + y) == Run(env, m.(msg := m.msg + x), [] + y)
  {
    hide Run, EndHeader, EndData;
    SameEnds(env, m, m.msg + x);
    RunUnfold(env, m, x + y);
    RunUnfold(env, m.(msg := m.msg + x), y);
    var need := Need(m);
    assert [] + y == y;
    Regrouped(m.msg, x, y, need);
  }

  lemma {:induction false} Regrouped(msg: seq<Byte>, x: seq<Byte>, y: seq<Byte>, need: int)
    requires |x| < need
    ensures |x + y| < need ==> msg + (x + y) == msg + x + y
    ensures |x + y| >= need ==>
              msg + (x + y)[..need] == msg + x + y[..need - |x|] && (x + y)[need..] == y[need - |x|..]
  {
  }

  /** The parser called after each chunk; the buffer keeps what a call leaves. */
  function Feed(env: Env, m: Machine, left: seq<Byte>, chunks: seq<seq<Byte>>): (r: (Machine, seq<Byte>))
    decreases |chunks|
  {
    if chunks == [] then (m, left)
    else
      var (m1, left1) := Run(env, m, left + chunks[0]);
      Feed(env, m1, left1, chunks[1..])
  }

  /** What a call leaves in the buffer is nothing to run on. */
  lemma {:induction false} RunAgain(env: Env, m: Machine, data: seq<Byte>)
    ensures var (m1, left) := Run(env, m, data);
            Run(env, m1, left) == (m1, left)
  {
    hide Run;
    RunSplit(env, m, data, []);
    assert data + [] == data;
    var left := Run(env, m, data).1;
    assert left + [] == left;
  }

  /** Chunking independence: however the stream is cut, the parser dispatches
      the same messages in the same order and ends in the same state, with the
      same partial message and the same bytes left, as one call on the whole
      stream; a refused message, or a header that makes it leave its buffer, is met at
      the same place. */
  lemma {:induction false} ChunkingIndependence(env: Env, m: Machine, left: seq<Byte>, chunks: seq<seq<Byte>>)
    requires Run(env, m, left) == (m, left)
    ensures Feed(env, m, left, chunks) == Run(env, m, left + Concat(chunks))
    decreases |chunks|
  {
    hide Run;
    if chunks == [] {
      assert left + [] == left;
    } else {
      var c, rest := chunks[0], Concat(chunks[1..]);
      var (m1, left1) := Run(env, m, left + c);
      RunSplit(env, m, left + c, rest);
      assert left + (c + rest) == left + c + rest;
      RunAgain(env, m, left + c);
      ChunkingIndependence(env, m1, left1, chunks[1..]);
    }
  }

  // ------------------------------------------------ the asserts of the source

  /** Between calls: a partial header is shorter than the header, a partial
      message shorter than the message. */
  predicate Valid(m: Machine) {
    && (m.state == HEADER ==> 16 <= |m.msg| < m.headerSize <= m.msgSize && m.headerSize == HeaderSize(m.msg))
    && (m.state == DATA ==> |m.msg| < m.parsedMsgSize)
  }

  /** Within a call, with `data` still to come. */
  predicate Ready(m: Machine, data: seq<Byte>) {
    && (m.state == HEADER ==>
          && |m.msg| < m.headerSize <= m.msgSize
          && |m.msg + data| >= 16 && m.headerSize == HeaderSize(m.msg + data))
    && (m.state == DATA ==> |m.msg| <= m.parsedMsgSize)
  }

  lemma {:induction false} ValidReady(m: Machine, data: seq<Byte>)
    requires Valid(m)
    ensures Ready(m, data)
  {
    hide HeaderSize;
    if m.state == HEADER {
      SamePrefix(m.msg, data);
    }
  }

  /** The assertions of FixHeaders on its start and of the copying states hold on
      every stream, and a call that goes on leaves a state the next call can
      start from. */
  lemma {:induction false} AssertsHold(env: Env, m: Machine, data: seq<Byte>)
    requires Ready(m, data) && m.status != AssertFailed
    ensures Run(env, m, data).0.status != AssertFailed
    ensures Run(env, m, data).0.status == Running ==> Valid(Run(env, m, data).0)
    decreases |data|, if m.state == DATA then 2 else if m.state == BEGIN then 1 else 0
  {
    hide Run, Load32, PadLen, HeaderSize, EndHeader;
    if m.status != Running {
      RunStopped(env, m, data);
    } else {
      RunUnfold(env, m, data);
      match m.state
      case BEGIN =>
        if |data| >= 16 {
          assert [] + data == data;
          AssertsHold(env, Begin(m, data), data);
        }
      case HEADER =>
        if |m.msg| + |data| >= m.headerSize {
          var need := m.headerSize - |m.msg|;
          HeaderEnds(env, m, data, need);
          AssertsHold(env, EndHeader(env, m, m.msg + data[..need]), data[need..]);
        }
      case DATA =>
        if |m.msg| + |data| >= m.parsedMsgSize {
          var need := m.parsedMsgSize - |m.msg|;
          AssertsHold(env, EndData(env, m, m.msg + data[..need]), data[need..]);
        }
    }
  }

  lemma {:induction false} HeaderEnds(env: Env, m: Machine, data: seq<Byte>, need: nat)
    requires Ready(m, data) && m.status == Running && m.state == HEADER
    requires need == m.headerSize - |m.msg| <= |data|
    ensures var m1 := EndHeader(env, m, m.msg + data[..need]);
            && m1.status != AssertFailed
            && |m.msg + data[..need]| >= 16 && HeaderSize(m.msg + data[..need]) == |m.msg + data[..need]|
            && (m1.status == Running ==> m1.state == DATA && m1.parsedMsgSize == |m1.msg| + (m.msgSize - m.headerSize))
  {
    hide Load32, PadLen, FixAny;
    var header := m.msg + data[..need];
    assert m.msg + data == header + data[need..];
    SamePrefix(header, data[need..]);
    if FixAny(env, header).Rewritten? {
      FixAnySize(env, header);
    }
  }

  // ------------------------------------------------ leaving the buffer

  /** FixHeaders would look or delete behind this header. */
  predicate ReachesBeyond(env: Env, b: seq<Byte>)
    requires |b| >= 16 && HeaderSize(b) == |b|
  {
    Native(env, b).Some? && ScanHeader(Native(env, b).value) == Beyond
  }

  lemma {:induction false} BeyondLeaves(env: Env, b: seq<Byte>)
    requires |b| >= 16 && HeaderSize(b) == |b|
    ensures FixAny(env, b) == Overrun <==> ReachesBeyond(env, b)
  {
    hide ScanHeader, Fix, HeaderSize, IsHeader;
    if Native(env, b).Some? {
      FixIsScan(Native(env, b).value, env.unique);
    }
  }

  /** The size of the message that a stream starts with, as it was sent */
  function MessageSize(data: seq<Byte>): (n: nat)
    requires |data| >= 16
    ensures n >= HeaderSize(data)
  {
    HeaderSize(data) + Load32(data[0], data[4..8])
  }

  /** No complete header of the stream reaches beyond itself. */
  predicate StreamFits(env: Env, data: seq<Byte>)
    decreases |data|
  {
    |data| >= 16 && |data| >= HeaderSize(data) ==>
      (SamePrefix(data[..HeaderSize(data)], data[HeaderSize(data)..]);
       assert data == data[..HeaderSize(data)] + data[HeaderSize(data)..];
       !ReachesBeyond(env, data[..HeaderSize(data)])
       && (|data| >= MessageSize(data) ==> StreamFits(env, data[MessageSize(data)..])))
  }

  /** A parser leaves its buffer on a stream if and only if one of the headers
      reaches beyond itself, unless it refuses an earlier message. */
  lemma {:induction false} LeavesBufferIff(env: Env, m: Machine, data: seq<Byte>)
    requires m.status == Running && m.state == BEGIN
    ensures Run(env, m, data).0.status == OutOfBuffer <==>
              !StreamFits(env, data) && Run(env, m, data).0.status != Refused
    decreases |data|
  {
    hide Run, HeaderSize, FixAny, ReachesBeyond, EndHeader, Load32, StreamFits;
    FitsUnfold(env, data);
    RunUnfold(env, m, data);
    if |data| >= 16 {
      var m0 := Begin(m, data);
      RunUnfold(env, m0, data);
      var n := HeaderSize(data);
      if |data| >= n {
        HeaderStep(env, m, data);
        assert m0.msg + data[..n] == data[..n];
        var m1 := EndHeader(env, m0, data[..n]);
        if m1.status == Running {
          RunUnfold(env, m1, data[n..]);
          if |data| >= MessageSize(data) {
            var need := MessageSize(data) - n;
            assert data[n..][need..] == data[MessageSize(data)..];
            var m2 := EndData(env, m1, m1.msg + data[n..][..need]);
            if m2.status == Running {
              LeavesBufferIff(env, m2, data[MessageSize(data)..]);
            } else {
              RunStopped(env, m2, data[MessageSize(data)..]);
            }
          }
        } else {
          RunStopped(env, m1, data[n..]);
        }
      }
    }
  }

  lemma {:induction false} FitsUnfold(env: Env, data: seq<Byte>)
    ensures |data| < 16 || |data| < HeaderSize(data) ==> StreamFits(env, data)
    ensures |data| >= 16 && |data| >= HeaderSize(data) ==>
              && HeaderSize(data[..HeaderSize(data)]) == HeaderSize(data)
              && (StreamFits(env, data) <==>
                    && !ReachesBeyond(env, data[..HeaderSize(data)])
                    && (|data| >= MessageSize(data) ==> StreamFits(env, data[MessageSize(data)..])))
  {
    hide ReachesBeyond, HeaderSize, MessageSize;
    if |data| >= 16 && |data| >= HeaderSize(data) {
      SamePrefix(data[..HeaderSize(data)], data[HeaderSize(data)..]);
      assert data == data[..HeaderSize(data)] + data[HeaderSize(data)..];
    }
  }

  /** The header of a stream that starts with it */
  lemma {:induction false} HeaderStep(env: Env, m: Machine, data: seq<Byte>)
    requires m.status == Running && m.state == BEGIN
    requires |data| >= 16 && |data| >= HeaderSize(data) && HeaderSize(data[..HeaderSize(data)]) == HeaderSize(data)
    ensures var n := HeaderSize(data);
            var m1 := EndHeader(env, Begin(m, data), data[..n]);
            && (m1.status == Running || m1.status == OutOfBuffer || m1.status == Refused)
            && (m1.status == OutOfBuffer <==> ReachesBeyond(env, data[..n]))
            && (m1.status == Running ==>
                  m1.state == DATA && m1.parsedMsgSize == |m1.msg| + (MessageSize(data) - n))
  {
    hide HeaderSize, FixAny, ReachesBeyond, Load32, FieldsLength;
    var b := data[..HeaderSize(data)];
    BeyondLeaves(env, b);
    if FixAny(env, b).Rewritten? {
      FixAnySize(env, b);
    }
  }

  /** A stream that starts with the overlong header does it, whatever follows. */
  lemma {:induction false} OverlongStream(env: Env, m: Machine, rest: seq<Byte>)
    requires m.status == Running && m.state == BEGIN
    ensures Run(env, m, OVERLONG + rest).0.status == OutOfBuffer
  {
    hide Run, HeaderSize, ReachesBeyond, Load32, Fix, ScanHeader, IsHeader, EndHeader;
    var data := OVERLONG + rest;
    OverlongSize(rest);
    OverlongLeaves(env.unique);
    assert data[..32] == OVERLONG;
    assert ReachesBeyond(env, OVERLONG) by { OverlongReaches(env); }
    HeaderStep(env, m, data);
    var m0 := Begin(m, data);
    RunUnfold(env, m, data);
    RunUnfold(env, m0, data);
    assert m0.msg + data[..32] == data[..32];
    RunStopped(env, EndHeader(env, m0, data[..32]), data[32..]);
  }

  lemma {:induction false} OverlongSize(rest: seq<Byte>)
    ensures HeaderSize(OVERLONG + rest) == 32 == HeaderSize(OVERLONG)
  {
    OverlongIsHeader();
    SamePrefix(OVERLONG, rest);
  }

  lemma {:induction false} OverlongReaches(env: Env)
    requires HeaderSize(OVERLONG) == 32
    ensures ReachesBeyond(env, OVERLONG)
  {
    hide HeaderSize, ScanHeader, IsHeader;
    OverlongLeaves(env.unique);
  }

  // --------------------------------------------- what a message becomes

  /** A message as it arrives: a well-formed native header whose length word
      counts the body, then the body. */
  predicate Arriving(fixed: seq<Byte>, fs: seq<Field>, body: seq<Byte>) {
    && |fixed| == 12 && fixed[0] == NATIVE && WordValue(fixed[4..8]) == |body|
    && GoodFields(fs) && |Body(fs)| <= MAX_ARRAY
  }

  /** Every message of the stream is dispatched once, in its place, with its own
      fields, the true sender and its own body. */
  lemma {:induction false} MessageDispatched(env: Env, m: Machine, fixed: seq<Byte>, fs: seq<Field>, body: seq<Byte>, rest: seq<Byte>)
    requires m.status == Running && m.state == BEGIN && Arriving(fixed, fs, body)
    ensures var d := Dispatched(true, Whole(fixed, Kept(fs) + [Sender(env.unique)]) + body);
            var (m1, left) := Run(env, m, Whole(fixed, fs) + body + rest);
            if env.dispatch(m.log, d)
            then (m1, left) == Run(env, Machine(BEGIN, 0, 0, 0, true, [], m.log + [d], Running), rest)
            else m1.status == Refused && m1.log == m.log
  {
    hide Run, Fix, PadLen, Body, Chunks, Whole, Word, WordValue, GoodFields, Kept;
    var w, data := Whole(fixed, fs), Whole(fixed, fs) + body + rest;
    ArrivingSizes(fixed, fs, body, rest);
    FixMeaning(fixed, fs, env.unique);
    RunUnfold(env, m, data);
    var m0 := Begin(m, data);
    RunUnfold(env, m0, data);
    assert [] + data[..|w|] == w && data[|w|..] == body + rest;
    var m1 := EndHeader(env, m0, w);
    FixAnySize(env, w);
    RunUnfold(env, m1, body + rest);
    assert (body + rest)[..|body|] == body && (body + rest)[|body|..] == rest;
    var m2 := EndData(env, m1, m1.msg + body);
    if m2.status != Running {
      RunStopped(env, m2, rest);
    }
  }

  /** A message of a stream */
  datatype Incoming = Incoming(fixed: seq<Byte>, fs: seq<Field>, body: seq<Byte>)
  {
    predicate Arrives() {
      Arriving(fixed, fs, body)
    }

    function Bytes(): seq<Byte> {
      Whole(fixed, fs) + body
    }

    /** What the server makes of it */
    function Sent(unique: seq<Byte>): Dispatched {
      Dispatched(true, Whole(fixed, Kept(fs) + [Sender(unique)]) + body)
    }
  }

  function Stream(ks: seq<Incoming>): seq<Byte> {
    if ks == [] then [] else ks[0].Bytes() + Stream(ks[1..])
  }

  function AllSent(ks: seq<Incoming>, unique: seq<Byte>): seq<Dispatched> {
    if ks == [] then [] else [ks[0].Sent(unique)] + AllSent(ks[1..], unique)
  }

  /** The server takes the messages, one after the other. */
  predicate Accepted(env: Env, log: seq<Dispatched>, ks: seq<Incoming>)
    decreases ks
  {
    ks == [] ||
    (env.dispatch(log, ks[0].Sent(env.unique)) && Accepted(env, log + [ks[0].Sent(env.unique)], ks[1..]))
  }

  lemma {:induction false} FirstDispatched(env: Env, m: Machine, k: Incoming, rest: seq<Byte>)
    requires m.status == Running && m.state == BEGIN && k.Arrives() && env.dispatch(m.log, k.Sent(env.unique))
    ensures Run(env, m, k.Bytes() + rest)
            == Run(env, Machine(BEGIN, 0, 0, 0, true, [], m.log + [k.Sent(env.unique)], Running), rest)
  {
    hide Run, Arriving, Whole, Kept;
    MessageDispatched(env, m, k.fixed, k.fs, k.body, rest);
  }

  /** A stream of well-formed messages that the server takes, followed by less than
      a header: each is dispatched once, in order, with the true sender, and what
      follows is left. With the independence of chunks, this holds for every cut. */
  lemma {:induction false} StreamDispatched(env: Env, m: Machine, ks: seq<Incoming>, tail: seq<Byte>)
    requires m.status == Running && m.state == BEGIN && |tail| < 16
    requires (forall k :: k in ks ==> k.Arrives()) && Accepted(env, m.log, ks)
    ensures var (m1, left) := Run(env, m, Stream(ks) + tail);
            && m1.status == Running && m1.state == BEGIN && left == tail
            && m1.log == m.log + AllSent(ks, env.unique)
    decreases ks
  {
    hide Run, Arriving, Incoming.Arrives, Incoming.Bytes, Incoming.Sent;
    if ks == [] {
      assert [] + tail == tail;
      RunUnfold(env, m, tail);
    } else {
      var k, rest := ks[0], Stream(ks[1..]) + tail;
      assert k in ks && k.Arrives();
      assert Stream(ks) + tail == k.Bytes() + rest;
      FirstDispatched(env, m, k, rest);
      var m1 := Machine(BEGIN, 0, 0, 0, true, [], m.log + [k.Sent(env.unique)], Running);
      StreamDispatched(env, m1, ks[1..], tail);
      assert m.log + [k.Sent(env.unique)] + AllSent(ks[1..], env.unique)
          == m.log + ([k.Sent(env.unique)] + AllSent(ks[1..], env.unique));
    }
  }

  lemma {:induction false} ArrivingSizes(fixed: seq<Byte>, fs: seq<Field>, body: seq<Byte>, rest: seq<Byte>)
    requires Arriving(fixed, fs, body)
    ensures var w := Whole(fixed, fs);
            var data := w + body + rest;
            && |w| >= 16 && w[0] == NATIVE && HeaderSize(w) == |w| && HeaderSize(data) == |w|
            && data[0] == NATIVE && Load32(data[0], data[4..8]) == |body|
  {
    hide PadLen, Body, Chunks, Word, WordValue, GoodFields;
    var w := Whole(fixed, fs);
    WholeLength(fixed, fs);
    PadModulo8(16 + |Body(fs)|, |Body(fs)|, 8);
    SamePrefix(w, body + rest);
    assert w + body + rest == w + (body + rest);
    assert w[4..8] == fixed[4..8];
  }

  /** The sender field, writer call by writer call */
  lemma {:induction false} SenderParts(off: nat, unique: seq<Byte>)
    ensures var p := AlignUp(off, 8);
            var code := Encode(p, Fixed(UINT8, HEADER_SENDER));
            && |code| == 1
            && Encode(off, Sender(unique).ToValue())
               == Pad(off, 8) + code + ([|[STRING]| % 256] + [STRING] + [0]) + Encode(p + 4, Text(STRING, unique))
  {
    hide PadLen, Pad;
    var f := Sender(unique);
    FieldBytes(off, f);
    ByteWord(AlignUp(off, 8), HEADER_SENDER);
    hide Encode;
    EncodeVariant(AlignUp(off, 8) + 1, f.value);
    assert Show(TypeOf(f.value)) == [STRING];
  }

  // ------------------------------------------------------------ the remote

  class Remote {
    const env: Env
    const msg: B.Buffer
    var parseState: ParseState
    var native: bool
    var headerSize: nat
    var msgSize: nat
    var parsedMsgSize: nat
    var log: seq<Dispatched>

    constructor (env: Env)
      ensures State() == Machine(BEGIN, 0, 0, 0, false, [], [], Running)
      ensures this.env == env && msg.sigp == msg.sig && fresh(msg)
    {
      this.env := env;
      msg := new B.Buffer();
      parseState, native, headerSize, msgSize, parsedMsgSize, log := BEGIN, false, 0, 0, 0, [];
    }

    function State(): Machine
      reads this, msg
    {
      Machine(parseState, headerSize, msgSize, parsedMsgSize, native, msg.b, log, Running)
    }

    /** The loop of FixHeaders: an iterator runs over the buffer that shrinks
        under it. The source has no test for `beyond`: it goes on outside of the
        buffer. */
    method StripSenders(i: I.Iterator, a: I.IterArray) returns (ok: bool, beyond: bool)
      requires i.mem == msg.b && a.data == i.pos >= 16 && a.sig == FIELD_SIG && |msg.b| <= a.data + a.size + 7
      modifies i, msg`b
      ensures ok == StripLoop(old(i.State()), a.data + a.size).Rewritten?
      ensures beyond == StripLoop(old(i.State()), a.data + a.size).Overrun?
      ensures ok ==> msg.b == StripLoop(old(i.State()), a.data + a.size).bytes
    {
      hide SkipField, FieldOutside;
      var end: nat := a.data + a.size;
      while i.pos < end
        invariant i.mem == msg.b && i.pos >= 16 && |msg.b| <= end + 7
        invariant StripLoop(i.State(), end) == StripLoop(old(i.State()), a.data + a.size)
        decreases i.size
      {
        i.sig := a.sig;
        var it := i.State();
        var fieldbegin, code := i.pos, 0;
        ok, code := OverField(i);
        if !ok {
          return false, FieldOutside(it);
        }
        if code == HEADER_SENDER {
          if i.pos > |msg.b| {
            return false, true;
          }
          var fieldsz := i.pos - fieldbegin;
          msg.Remove(fieldbegin, fieldsz);
          i.mem, i.pos, end := msg.b, fieldbegin, end - fieldsz;
        }
      }
      return true, false;
    }

    /** beginstruct, u8, beginvariant, value, endvariant, endstruct, align */
    static method OverField(i: I.Iterator) returns (ok: bool, code: nat)
      requires i.sig == FIELD_SIG
      modifies i
      ensures ok == SkipField(old(i.State())).Some?
      ensures ok ==> (code, i.State()) == SkipField(old(i.State())).value
    {
      hide BeginField, EndField, Skip, PadLen;
      var origsig;
      ok, code, origsig := FieldPrefix(i);
      if !ok {
        return;
      }
      ok := i.Value();
      if !ok {
        return;
      }
      ok := FieldSuffix(i, origsig);
      if !ok {
        return;
      }
      ok := i.Align(8);
    }

    /** FixHeaders: bring the header into native byte order, then rewrite it. */
    method FixHeaders() returns (ok: bool, beyond: bool)
      requires |msg.b| >= 16 && msg.sigp == msg.sig && headerSize <= msgSize && HeaderSize(msg.b) == |msg.b|
      modifies this`native, this`parsedMsgSize, msg
      ensures ok == FixAny(env, old(msg.b)).Rewritten? && beyond == FixAny(env, old(msg.b)).Overrun?
      ensures ok ==> msg.b == FixAny(env, old(msg.b)).bytes && native == (old(msg.b)[0] == NATIVE)
      ensures ok ==> |msg.b| >= 16 && parsedMsgSize == msgSize - headerSize + AlignUp(FieldsLength(msg.b), 8) + 16
    {
      hide Fix, WordValue, PadLen, IsHeader;
      native := msg.b[0] == NATIVE;
      if !native {
        var flipped := env.flip(msg.b[0 := NATIVE]);
        if flipped.None? || |flipped.value| != |msg.b|
           || FieldsLength(flipped.value) != Load32(msg.b[0], msg.b[12..16]) {
          return false, false;
        }
        msg.b := flipped.value;
      }
      assert Some(msg.b) == Native(env, old(msg.b));
      ok, beyond := RewriteSender();
      if ok {
        parsedMsgSize := msgSize - headerSize + AlignUp(WordValue(msg.b[12..16]), 8) + 16;
      }
    }

    method RewriteSender() returns (ok: bool, beyond: bool)
      requires IsHeader(msg.b) && msg.sigp == msg.sig
      modifies msg
      ensures ok == Fix(old(msg.b), env.unique).Rewritten? && beyond == Fix(old(msg.b), env.unique).Overrun?
      ensures ok ==> msg.b == Fix(old(msg.b), env.unique).bytes && |msg.b| >= 16
    {
      hide PadLen, StripLoop, Codec.Iter.BeginArray, WordValue, Word, Encode, Show, FieldsLength;
      var i := new I.Iterator(msg.b, 12, 4 + AlignUp(FieldsLength(msg.b), 8), FIELDS_SIG);
      assert i.pos + i.size == |msg.b|;
      HeaderStart(msg.b);
      var a;
      ok, a := i.BeginArray();
      if !ok {
        return false, false;
      }
      ok, beyond := StripSenders(i, a);
      if !ok {
        return;
      }
      msg.SetSig(FIELD_SIG);
      AppendSender();
      msg.b := msg.b[..12] + Word(4, |msg.b| - 16) + msg.b[16..];
      msg.Align(8);
    }

    method AppendSender()
      requires msg.sigp == FIELD_SIG
      modifies msg
      ensures msg.b == old(msg.b) + Encode(|old(msg.b)|, Sender(env.unique).ToValue())
    {
      hide PadLen, Pad, Encode;
      ghost var off := |msg.b|;
      SenderParts(off, env.unique);
      msg.BeginStruct();
      msg.PutFixed(UINT8, HEADER_SENDER);
      var oldsig := msg.BeginVariant([STRING]);
      msg.PutText(STRING, env.unique);
      msg.EndVariant(oldsig);
      msg.EndStruct();
    }

    /** DispatchMsg, with the server behind `env.dispatch` */
    method DispatchMsg() returns (ok: bool)
      modifies this, msg
      ensures parseState == old(parseState) && native == old(native)
      ensures ok == env.dispatch(old(log), Dispatched(old(native), old(msg.b)))
      ensures log == if ok then old(log) + [Dispatched(old(native), old(msg.b))] else old(log)
      ensures ok ==> headerSize == msgSize == parsedMsgSize == 0 && msg.b == [] && msg.sigp == msg.sig
    {
      ok := env.dispatch(log, Dispatched(native, msg.b));
      if ok {
        log := log + [Dispatched(native, msg.b)];
        msg.Reset();
        msgSize, headerSize, parsedMsgSize := 0, 0, 0;
      }
    }

    /** Move: take what is needed of the data into the message, or all there is. */
    method Move(data: seq<Byte>, need: nat) returns (done: bool, rest: seq<Byte>)
      modifies msg`b
      ensures done == (|data| >= need)
      ensures msg.b == old(msg.b) + data[..if done then need else |data|]
      ensures rest == data[if done then need else |data|..]
    {
      if |data| >= need {
        msg.Append(data[..need]);
        return true, data[need..];
      } else {
        msg.Append(data);
        assert data[..|data|] == data;
        return false, data[|data|..];
      }
    }

    /** adbus_remote_parse. The switch enters the loop at the current state and
        each state falls through to the next. */
    method Parse(b: B.Buffer) returns (ok: bool, beyond: bool)
      requires b != msg && Valid(State()) && (parseState == HEADER ==> msg.sigp == msg.sig)
      modifies this, msg, b`b
      ensures var (m1, left) := Run(env, old(State()), old(b.b));
              && ok == (m1.status == Running) && beyond == (m1.status == OutOfBuffer)
              && log == m1.log
              && (ok ==> State() == m1 && b.b == left && Valid(State()) && (parseState == HEADER ==> msg.sigp == msg.sig))
    {
      hide Run, HeaderSize, EndHeader, Load32, FixAny, Begin;
      var data := b.b;
      ValidReady(State(), data);
      while true
        invariant Run(env, State(), data) == Run(env, old(State()), old(b.b))
        invariant Ready(State(), data) && (parseState == HEADER ==> msg.sigp == msg.sig)
        invariant |data| <= |old(b.b)|
        decreases |data|, if parseState == DATA then 2 else if parseState == BEGIN then 1 else 0
      {
        ghost var m, before := State(), data;
        AssertsHold(env, m, data);
        RunUnfold(env, m, data);
        if parseState == BEGIN {
          if |data| < 16 {
            break;
          }
          ReadSizes(data);
          assert [] + data == data;
        } else if parseState == HEADER {
          var done;
          var need := headerSize - |msg.b|;
          done, data := Move(data, need);
          if !done {
            assert before[..|before|] == before;
            break;
          }
          HeaderEnds(env, m, before, need);
          ok, beyond := TakeHeader(m);
          if !ok {
            RunStopped(env, EndHeader(env, m, m.msg + before[..need]), data);
            return;
          }
        } else {
          var done := true;
          var need := parsedMsgSize - |msg.b|;
          if need > 0 {
            done, data := Move(data, need);
          }
          if !done {
            assert before[..|before|] == before;
            break;
          }
          assert msg.b == m.msg + before[..need] && data == before[need..];
          ok := DispatchMsg();
          if !ok {
            RunStopped(env, EndData(env, m, m.msg + before[..need]), data);
            return false, false;
          }
          parseState := BEGIN;
        }
      }
      b.b := data;
      return true, false;
    }

    method ReadSizes(data: seq<Byte>)
      requires |data| >= 16 && parseState == BEGIN
      modifies this, msg
      ensures State() == Begin(old(State()), data) && msg.sigp == msg.sig
      ensures Ready(State(), data)
    {
      hide PadLen, Load32;
      assert [] + data == data;
      var hsize := 16 + Load32(data[0], data[12..16]);
      headerSize := AlignUp(hsize, 8);
      msgSize := headerSize + Load32(data[0], data[4..8]);
      msg.Reset();
      parseState := HEADER;
    }

    method TakeHeader(ghost m: Machine) returns (ok: bool, beyond: bool)
      requires |msg.b| >= 16 && msg.sigp == msg.sig && headerSize <= msgSize && parseState == HEADER
      requires HeaderSize(msg.b) == |msg.b|
      requires m == State().(msg := m.msg)
      modifies this, msg
      ensures log == old(log)
      ensures ok == (EndHeader(env, m, old(msg.b)).status == Running)
      ensures beyond == (EndHeader(env, m, old(msg.b)).status == OutOfBuffer)
      ensures ok ==> State() == EndHeader(env, m, old(msg.b))
    {
      hide FixAny, HeaderSize;
      ok, beyond := FixHeaders();
      parseState := DATA;
    }
  }
}
