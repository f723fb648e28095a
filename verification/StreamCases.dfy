/** The server's stream at its other messages: those of the other byte order, and those
    whose header is refused. */
module StreamCases {
  import opened Bytes
  import opened Codec
  import opened Header
  import opened HeaderRewrite
  import opened HeaderScan
  import opened StreamParser

  /** A header of the other byte order, and what the flip makes of it */
  ghost predicate Flipped(env: Env, b: seq<Byte>, fixed: seq<Byte>, fs: seq<Field>) {
    && |b| >= 16 && b[0] != 'l' as int && HeaderSize(b) == |b|
    && |fixed| == 12 && GoodFields(fs) && |Body(fs)| <= MAX_ARRAY
    && env.flip(b[0 := 'l' as int]) == Some(Whole(fixed, fs)) && |Whole(fixed, fs)| == |b|
    && Load32(b[0], b[12..16]) == |Body(fs)|
  }

  /** A message of the other byte order is dispatched as such, with its header flipped and
      rewritten, and with the body as it came. */
  lemma {:induction false} ForeignDispatched(
    env: Env, m: Machine, b: seq<Byte>, fixed: seq<Byte>, fs: seq<Field>, body: seq<Byte>, rest: seq<Byte>)
    requires m.status == Running && m.state == BEGIN && Flipped(env, b, fixed, fs)
    requires Load32(b[0], b[4..8]) == |body|
    ensures var d := Dispatched(false, Whole(fixed, Kept(fs) + [Sender(env.unique)]) + body);
            var (m1, left) := Run(env, m, b + body + rest);
            if env.dispatch(m.log, d)
            then (m1, left) == Run(env, Machine(BEGIN, 0, 0, 0, false, [], m.log + [d], Running), rest)
            else m1.status == Refused && m1.log == m.log && left == []
  {
    hide Run, Fix, PadLen, Body, Chunks, Whole, Word, WordValue, GoodFields, Kept, HeaderSize, Load32, FieldsLength;
    var data := b + body + rest;
    FrontSizes(b, body + rest);
    assert b + body + rest == b + (body + rest);
    NativeFlipped(env, b, fixed, fs);
    FixMeaning(fixed, fs, env.unique);
    RunUnfold(env, m, data);
    var m0 := Begin(m, data);
    RunUnfold(env, m0, data);
    assert [] + data[..|b|] == b && data[|b|..] == body + rest;
    var m1 := EndHeader(env, m0, b);
    FixAnySize(env, b);
    RunUnfold(env, m1, body + rest);
    assert (body + rest)[..|body|] == body && (body + rest)[|body|..] == rest;
    var m2 := EndData(env, m1, m1.msg + body);
    if m2.status != Running {
      RunStopped(env, m2, rest);
    }
  }

  lemma {:induction false} FrontSizes(b: seq<Byte>, more: seq<Byte>)
    requires |b| >= 16 && HeaderSize(b) == |b|
    ensures var data := b + more;
            && HeaderSize(data) == |b| && data[0] == b[0] && data[4..8] == b[4..8] && data[..|b|] == b
  {
    hide HeaderSize;
    SamePrefix(b, more);
  }

  lemma {:induction false} NativeFlipped(env: Env, b: seq<Byte>, fixed: seq<Byte>, fs: seq<Field>)
    requires Flipped(env, b, fixed, fs)
    ensures Native(env, b) == Some(Whole(fixed, fs))
  {
    hide PadLen, Body, Chunks, Word, WordValue, GoodFields, HeaderSize, Load32;
    var w := Whole(fixed, fs);
    assert w[12..16] == Word(4, |Body(fs)|);
    SpanFacts();
    WordRoundTrip(4, |Body(fs)|);
  }

  /** A header that does not flip or does not parse stops the parser: it is refused,
      nothing is dispatched for it, and nothing behind it is looked at. */
  lemma {:induction false} HeaderRefused(env: Env, m: Machine, b: seq<Byte>, rest: seq<Byte>)
    requires m.status == Running && m.state == BEGIN && |b| >= 16 && HeaderSize(b) == |b|
    requires Native(env, b).None? || ScanHeader(Native(env, b).value) == Unparsed
    ensures var (m1, left) := Run(env, m, b + rest);
            m1.status == Refused && m1.log == m.log && left == []
  {
    hide Run, Fix, PadLen, HeaderSize, Load32, FieldsLength, ScanHeader, IsHeader, Native;
    var data := b + rest;
    FrontSizes(b, rest);
    if Native(env, b).Some? {
      FixIsScan(Native(env, b).value, env.unique);
    }
    RunUnfold(env, m, data);
    var m0 := Begin(m, data);
    RunUnfold(env, m0, data);
    assert [] + data[..|b|] == b;
    RunStopped(env, EndHeader(env, m0, b), data[|b|..]);
  }
}
