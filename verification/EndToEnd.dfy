/** From the arguments of a caller to the arguments that a receiver reads: the
    message factory, the server's stream parser with its header rewrite, the
    message parser and the iterator on the arguments, one behind the other. */
module EndToEnd {
  import opened Bytes
  import opened Signature
  import opened Codec
  import opened CodecLaws
  import opened Header
  import opened HeaderRewrite
  import opened Message
  import opened MessageBuild
  import opened StreamParser

  /** Reading the arguments of a message one after the other, to the end of the
      signature */
  function ReadArgs(it: Iter): (r: Option<seq<Value>>)
    decreases |it.sig|
  {
    if it.sig == [] then Some([])
    else
      var (v, i0) :- Read(it);
      var vs :- ReadArgs(i0);
      Some([v] + vs)
  }

  /** Arguments that the writers accept from an aligned start */
  predicate GoodArgs(vs: seq<Value>) {
    AllWellFormed(vs) && AllFit(0, vs)
  }

  lemma {:induction false} ReadArgsEncode(it: Iter, vs: seq<Value>)
    requires AllWellFormed(vs) && AllFit(it.pos, vs)
    requires Holds(it.mem, it.pos, EncodeAll(it.pos, vs)) && |EncodeAll(it.pos, vs)| <= it.size
    requires it.sig == ShowAll(TypesOf(vs))
    ensures ReadArgs(it) == Some(vs)
    decreases vs
  {
    hide Encode, Show, Read, WellFormed, Fits, TypeOf;
    if vs != [] {
      var e := Encode(it.pos, vs[0]);
      var s1 := ShowAll(TypesOf(vs[1..]));
      assert TypesOf(vs)[1..] == TypesOf(vs[1..]);
      assert it.sig == Show(TypeOf(vs[0])) + s1;
      HoldsConcat(it.mem, it.pos, e, EncodeAll(it.pos + |e|, vs[1..]));
      ReadEncode(it, vs[0], s1);
      ReadArgsEncode(Behind(it, vs[0], s1), vs[1..]);
      assert [vs[0]] + vs[1..] == vs;
    }
  }

  /** adbus_iter_args: the iterator on the arguments of a message at `p`, whose
      argument data end the message */
  function ArgsIter(mem: seq<Byte>, p: nat, size: nat, m: Message): Iter
    requires |m.args| <= size
  {
    Iter(mem, p + size - |m.args|, |m.args|, if m.fields.signature.Some? then m.fields.signature.value else [])
  }

  /** The argument data start at a multiple of eight behind the message, so they
      read as they were written. */
  lemma {:induction false} ArgsAligned(mem: seq<Byte>, p: nat, fixed: seq<Byte>, fs: seq<Field>, vs: seq<Value>)
    requires MessageAt(mem, p, fixed, fs, EncodeAll(0, vs)) && GoodArgs(vs)
    ensures var w := |Whole(fixed, fs)|;
            ReadArgs(Iter(mem, p + w, |EncodeAll(0, vs)|, ShowAll(TypesOf(vs)))) == Some(vs)
  {
    hide Body, Chunks, Word, WordValue, GoodFields, Whole, EncodeAll, AllWellFormed, AllFit, PadLen, ReadArgs, Holds;
    var w := |Whole(fixed, fs)|;
    MessageParts(mem, p, fixed, fs, EncodeAll(0, vs));
    ChunksAligned(fs);
    SumModulo8(0, |Chunks(fs)|, 16);
    SumModulo8(p, 0, w);
    EncodeAllModulo8(0, p + w, vs);
    ReadArgsEncode(Iter(mem, p + w, |EncodeAll(0, vs)|, ShowAll(TypesOf(vs))), vs);
  }

  /** A draft whose arguments are these values */
  predicate Carries(d: Draft, vs: seq<Value>) {
    d.args == EncodeAll(0, vs) && d.argsig == ShowAll(TypesOf(vs)) && GoodArgs(vs)
  }

  lemma {:induction false} SomeArgs(vs: seq<Value>)
    requires AllWellFormed(vs)
    ensures EncodeAll(0, vs) == [] <==> vs == []
    ensures vs == [] ==> ShowAll(TypesOf(vs)) == []
  {
    if vs != [] {
      EncodeNonEmpty(0, vs[0]);
    }
  }

  /** What a receiver finds at `p` in `mem`: a message that says what the draft
      says, with this sender, and whose arguments read as these values */
  ghost predicate Received(mem: seq<Byte>, p: nat, size: nat, d: Draft, vs: seq<Value>, sender: Option<seq<Byte>>)
    requires Required(d) && 0 <= d.flags < 256
  {
    && 16 <= size && p + size <= |mem| && |d.args| <= size
    && var m := Described(d).(fields := Described(d).fields.(sender := sender));
    && Parse(mem, p, size) == Parsed(m)
    && ReadArgs(ArgsIter(mem, p, size, m)) == Some(vs)
  }

  lemma {:induction false} ReceivedAt(
    mem: seq<Byte>, p: nat, fixed: seq<Byte>, fs: seq<Field>, d: Draft, vs: seq<Value>, sender: Option<seq<Byte>>)
    requires Required(d) && Sendable(d) && Carries(d, vs)
    requires MessageAt(mem, p, fixed, fs, d.args)
    requires Meaning(fixed, fs, d.args) == Parsed(Described(d).(fields := Described(d).fields.(sender := sender)))
    ensures Received(mem, p, |Whole(fixed, fs) + d.args|, d, vs, sender)
  {
    hide MessageAt, Whole, Parse, Meaning, EncodeAll, GoodArgs, ReadArgs, Body, Required;
    var w := Whole(fixed, fs);
    assert |w + d.args| == |w| + |d.args|;
    ParseMeaning(mem, p, |w| + |d.args|, fixed, fs, d.args);
    ArgsAligned(mem, p, fixed, fs, vs);
    assert AllWellFormed(vs) by { GoodArgsParts(vs); }
    SomeArgs(vs);
  }

  lemma {:induction false} GoodArgsParts(vs: seq<Value>)
    requires GoodArgs(vs)
    ensures AllWellFormed(vs)
  {
  }

  /** A built message, wherever it lies aligned, is received as it was drafted. */
  lemma {:induction false} Direct(d: Draft, vs: seq<Value>, mem: seq<Byte>, p: nat)
    requires Required(d) && Sendable(d) && Carries(d, vs)
    requires p % 8 == 0 && Holds(mem, p, Built(d))
    ensures Received(mem, p, |Built(d)|, d, vs, Described(d).fields.sender)
  {
    hide Received, Meaning, Whole, GoodFields, Body, Word, WordValue, DraftFields, Carries, Required, Holds;
    DraftMeaning(d);
    DraftFieldsGood(d);
    SerialSet(d);
    FixedWords(d);
    ReceivedAt(mem, p, FixedPart(d), DraftFields(d), d, vs, Described(d).fields.sender);
  }

  lemma {:induction false} DraftMeaning(d: Draft)
    requires Required(d) && Sendable(d)
    ensures Meaning(FixedPart(d), DraftFields(d), d.args) == Parsed(Described(d))
  {
    hide Body, DraftFields, ApplyAll, Word, WordValue;
    DraftFieldsMeaning(d);
    FixedWords(d);
  }

  /** Through the server: a built message at the front of a stream is dispatched
      once, as a message that says what was drafted with the sender replaced by
      the remote's own name, and its arguments still read as the caller's
      values. */
  lemma {:induction false} ThroughTheServer(env: Env, m: Machine, d: Draft, vs: seq<Value>, rest: seq<Byte>, mem: seq<Byte>, p: nat)
    requires Required(d) && Sendable(d) && Carries(d, vs)
    requires |Body(Kept(DraftFields(d)) + [Sender(env.unique)])| <= MAX_ARRAY && NulFree(env.unique)
    requires m.status == Running && m.state == BEGIN
    requires p % 8 == 0 && Holds(mem, p, Whole(FixedPart(d), Kept(DraftFields(d)) + [Sender(env.unique)]) + d.args)
    ensures var sent := Whole(FixedPart(d), Kept(DraftFields(d)) + [Sender(env.unique)]) + d.args;
            && (env.dispatch(m.log, Dispatched(true, sent)) ==>
                  Run(env, m, Built(d) + rest)
                  == Run(env, Machine(BEGIN, 0, 0, 0, true, [], m.log + [Dispatched(true, sent)], Running), rest))
            && Received(mem, p, |sent|, d, vs, Some(env.unique))
  {
    hide Received, Meaning, Whole, GoodFields, Body, Word, WordValue, DraftFields, Carries, Required, Holds, Run, Kept;
    assert d.serial >= 0 by { SerialSet(d); }
    var fixed, fs := FixedPart(d), DraftFields(d);
    var gs := Kept(fs) + [Sender(env.unique)];
    DraftMeaning(d);
    DraftFieldsGood(d);
    FixedWords(d);
    RewriteMeaning(fixed, fs, d.args, env.unique);
    GoodWithSender(Kept(fs), env.unique);
    MessageDispatched(env, m, fixed, fs, d.args, rest);
    ReceivedAt(mem, p, fixed, gs, d, vs, Some(env.unique));
  }

  lemma {:induction false} SerialSet(d: Draft)
    requires Required(d)
    ensures d.serial >= 0
  {
  }

  lemma {:induction false} GoodWithSender(fs: seq<Field>, unique: seq<Byte>)
    requires GoodFields(fs) && NulFree(unique) && |unique| <= 20
    ensures GoodFields(fs + [Sender(unique)])
  {
    hide PadLen;
    var s := Sender(unique);
    FieldFits(0, s);
    assert GoodField(s);
  }
}
