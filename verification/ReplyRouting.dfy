/** Which message a registered reply waits for: the name that it is registered
    under, when it is added and over every run. */
module ReplyRouting {
  import opened Bytes
  import opened Replies

  /** A name that is not asked for: a unique name, or the bus itself */
  predicate AnswersItself(n: Name) {
    (n != "" && n[0] == ':') || n == "org.freedesktop.DBus"
  }

  lemma {:induction false} ServiceIff(n: Name)
    ensures IsService(n) <==> n != "" && !AnswersItself(n)
  {
    assert BUS[0] == 'o';
  }

  /** A reply is found under the owner of the service when that is known, and
      otherwise under the name that it was asked for; a service that is asked for is
      looked up. It is turned down when the name is empty or the serial is taken. */
  lemma {:induction false} AddFound(c: Conn, n: Name, s: Serial)
    requires Inv(c)
    ensures var (d, r) := Add(c, n, s);
            && (r.Some? ==>
                  && r == Some(c.nextId)
                  && (forall u :: n in c.services && c.services[n] == Some(u) ==> Find(d.remotes, u, s) == r)
                  && (n !in c.services || c.services[n].None? ==> Find(d.remotes, n, s) == r)
                  && (AnswersItself(n) ==> Find(d.remotes, n, s) == r))
            && (n == "" ==> r.None?)
            && (n != "" && !AnswersItself(n) ==> n in d.services)
            && (forall u :: n in c.services && c.services[n] == Some(u) ==> (r.None? <==> Find(c.remotes, u, s).Some?))
            && (n != "" && (n !in c.services || c.services[n].None?) ==> (r.None? <==> Find(c.remotes, n, s).Some?))
  {
    hide Find, Insert, Agree, Once;
    ServiceIff(n);
  }

  // ------------------------------------------------------------- over the runs

  /** The owner of the service that the run told last */
  ghost function LastTold(ops: seq<Op>, n: Name): Option<Name> {
    if ops == [] then None
    else if Tells(ops[|ops| - 1], n) then Some(ops[|ops| - 1].owner)
    else LastTold(ops[..|ops| - 1], n)
  }

  /** The owner of the service that the run tells first */
  ghost function FirstTold(ops: seq<Op>, n: Name): Option<Name>
    decreases ops
  {
    if ops == [] then None
    else if Tells(ops[0], n) then Some(ops[0].owner)
    else FirstTold(ops[1..], n)
  }

  /** The sender whose message answers a request to `n`, sent between these two parts
      of a run: the owner known when it was sent, the first one told afterwards, or
      `n` itself as long as none is known */
  ghost function Answerer(before: seq<Op>, n: Name, after: seq<Op>): Name {
    match LastTold(before, n)
    case Some(u) => u
    case None => match FirstTold(after, n)
      case Some(u) => u
      case None => n
  }

  lemma {:induction false} StepGood(w: World, op: Op)
    requires Good(w) && Enabled(w, op)
    ensures Good(Step(w, op))
  {
    hide Step, Enabled, Inv, Serials;
    StepInv(w, op);
    StepSerials(w, op);
  }

  /** The services that a step leaves known */
  lemma {:induction false} StepOwner(w: World, op: Op, n: Name)
    requires Good(w) && Enabled(w, op)
    ensures Tells(op, n) ==> n in Step(w, op).c.services && Step(w, op).c.services[n] == Some(op.owner)
    ensures !Tells(op, n) && n in w.c.services ==> n in Step(w, op).c.services && Step(w, op).c.services[n] == w.c.services[n]
    ensures !Tells(op, n) && n !in w.c.services && n in Step(w, op).c.services ==> Step(w, op).c.services[n].None?
  {
    hide Find, Insert, Delete, Rekey, Retarget, HasFired, Inv, Serials, DrawnSerial;
  }

  ghost function KnownOwner(w: World, n: Name): Option<Name> {
    if n in w.c.services then w.c.services[n] else None
  }

  /** A run from `w` up to its last operation */
  lemma {:induction false} RunSnoc(w: World, ops: seq<Op>)
    requires ops != [] && RunFrom(w, ops) && Good(w)
    ensures RunFrom(w, ops[..|ops| - 1])
    ensures var v := Exec(w, ops[..|ops| - 1]);
            Good(v) && Enabled(v, ops[|ops| - 1]) && Exec(w, ops) == Step(v, ops[|ops| - 1])
    decreases ops
  {
    hide Step, Enabled, Inv, Serials;
    if |ops| == 1 {
      assert ops[1..] == [] && ops[..0] == [];
    } else {
      StepGood(w, ops[0]);
      RunSnoc(Step(w, ops[0]), ops[1..]);
      assert ops[1..][..|ops| - 2] == ops[..|ops| - 1][1..];
    }
  }

  /** A run in two parts */
  lemma {:induction false} RunConcat(w: World, a: seq<Op>, b: seq<Op>)
    requires RunFrom(w, a + b) && Good(w)
    ensures RunFrom(w, a) && Good(Exec(w, a)) && RunFrom(Exec(w, a), b) && Exec(w, a + b) == Exec(Exec(w, a), b)
    decreases a
  {
    hide Step, Enabled, Inv, Serials;
    if a == [] {
      assert a + b == b;
    } else {
      assert (a + b)[1..] == a[1..] + b && (a + b)[0] == a[0];
      StepGood(w, a[0]);
      RunConcat(Step(w, a[0]), a[1..], b);
    }
  }

  /** What a connection knows of a service is what the run told last. */
  lemma {:induction false} KnowsLastTold(ops: seq<Op>, n: Name)
    requires RunFrom(START, ops)
    ensures KnownOwner(Exec(START, ops), n) == LastTold(ops, n)
    decreases |ops|
  {
    hide Step, Enabled, Good, Tells, Exec, RunFrom;
    if ops == [] {
      assert Exec(START, ops) == START by { NoRun(START); }
    } else {
      var k := |ops| - 1;
      StartGood();
      RunSnoc(START, ops);
      KnowsLastTold(ops[..k], n);
      StepOwner(Exec(START, ops[..k]), ops[k], n);
    }
  }

  lemma {:induction false} NoRun(w: World)
    ensures Exec(w, []) == w
  {
  }

  /** The reply waits for this name. */
  predicate WaitsFor(w: World, id: Id, x: Name) {
    id in w.c.replies && w.c.replies[id].remote == Some(x)
  }

  /** It neither waits nor will. */
  ghost predicate Over(w: World, id: Id) {
    id < w.c.nextId && (id in w.c.replies ==> w.c.replies[id].remote.None?)
  }

  /** The name that a reply waits for after a step */
  function Next(op: Op, x: Name): Name {
    if Tells(op, x) then op.owner else x
  }

  /** A step makes a waiting reply wait for the new owner when it tells the owner of
      the name that the reply waits for; otherwise it goes on to wait, or it is removed
      or fires. */
  lemma {:induction false} StepWaits(w: World, op: Op, id: Id, x: Name)
    requires Good(w) && Enabled(w, op) && WaitsFor(w, id, x)
    ensures var v, y := Step(w, op), Next(op, x);
            if WaitsFor(v, id, y) then v.c.replies[id].serial == w.c.replies[id].serial
            else Over(v, id) && (HasFired(v.c.fired, id) || op == RemoveReply(id))
  {
    hide Find, Search, Insert, Delete, Rekey, DrawnSerial, Inv, Serials, Resolve, Fire, Add, Waiting, Remove, Finish, HasFired;
    InvParts(w.c);
    match op
    case DrawSerial =>
    case LookupService(n) =>
    case AddReply(n, k) => AddLeaves(w.c, n, DrawnSerial(k), id);
    case RemoveReply(i) => RemoveLeaves(w.c, i, id);
    case FireReply(m) => FireLeaves(w.c, m, id);
    case CallbackDone => FinishLeaves(w.c, id);
    case OwnerAnswered(n, owner) =>
      MovesExactly(w.c, n, owner);
      ResolveParts(w.c, n, owner);
    case OwnerChanged(n, owner) =>
      MovesExactly(w.c, n, owner);
      ResolveParts(w.c, n, owner);
  }

  lemma {:induction false} AddLeaves(c: Conn, n: Name, s: Serial, id: Id)
    requires Once(c) && id in c.replies
    ensures var d := Add(c, n, s).0; id in d.replies && d.replies[id] == c.replies[id]
  {
    hide Find, Insert, HasFired;
  }

  lemma {:induction false} RemoveLeaves(c: Conn, i: Id, id: Id)
    requires Once(c) && i in c.replies && id in c.replies
    ensures var d := Remove(c, i);
            && d.nextId == c.nextId && id < c.nextId
            && (if i == id then id !in d.replies else id in d.replies && d.replies[id] == c.replies[id])
  {
    hide HasFired, Delete;
  }

  lemma {:induction false} FireLeaves(c: Conn, m: Msg, id: Id)
    requires Inv(c) && id in c.replies && c.replies[id].remote.Some?
    ensures var d := Fire(c, m);
            && d.nextId == c.nextId && id < c.nextId && id in d.replies
            && (d.replies[id] == c.replies[id] || (d.replies[id].remote.None? && HasFired(d.fired, id)))
  {
    hide HasFired, Delete;
    if Fire(c, m).fired != c.fired {
      FiredIsWaiting(c, m);
      assert HasFired(Fire(c, m).fired, Fire(c, m).fired[|c.fired|].id) by { JustFired(c.fired, Fire(c, m).fired[|c.fired|]); }
    }
  }

  lemma {:induction false} JustFired(fired: seq<Call>, x: Call)
    ensures HasFired(fired + [x], x.id)
  {
    assert (fired + [x])[|fired|] == x;
  }

  lemma {:induction false} FinishLeaves(c: Conn, id: Id)
    requires Once(c) && id in c.replies && c.replies[id].remote.Some?
    ensures var d := Finish(c); id in d.replies && d.replies[id] == c.replies[id]
  {
    hide HasFired, Delete;
  }

  lemma {:induction false} StepOver(w: World, op: Op, id: Id)
    requires Good(w) && Enabled(w, op) && Over(w, id)
    ensures Over(Step(w, op), id)
    ensures HasFired(w.c.fired, id) ==> HasFired(Step(w, op).c.fired, id)
  {
    hide Find, Insert, Delete, Rekey, DrawnSerial, Inv, Serials, HasFired;
    InvParts(w.c);
    assert w.c.fired <= Step(w, op).c.fired by { hide HasFired; LogGrows(w, op); }
    FiredStays(w.c.fired, Step(w, op).c.fired, id);
    match op
    case OwnerAnswered(n, owner) =>
      MovesExactly(w.c, n, owner);
    case OwnerChanged(n, owner) =>
      MovesExactly(w.c, n, owner);
    case _ =>
  }

  lemma {:induction false} LogGrows(w: World, op: Op)
    requires Good(w) && Enabled(w, op)
    ensures w.c.fired <= Step(w, op).c.fired
  {
    hide Find, Insert, Delete, Rekey, DrawnSerial, HasFired, Retarget;
    assert ServicesOk(w.c);
  }

  lemma {:induction false} FiredStays(a: seq<Call>, b: seq<Call>, id: Id)
    requires a <= b
    ensures HasFired(a, id) ==> HasFired(b, id)
  {
    if HasFired(a, id) {
      var k :| 0 <= k < |a| && a[k].id == id;
      assert b[k].id == id;
    }
  }

  /** Nobody tells the owner of a name that is not a service. */
  lemma {:induction false} NeverTold(w: World, ops: seq<Op>, x: Name)
    requires Good(w) && RunFrom(w, ops) && !IsService(x)
    ensures FirstTold(ops, x).None?
    decreases ops
  {
    hide Step, Inv, Serials, IsService;
    if ops != [] {
      StepGood(w, ops[0]);
      NeverTold(Step(w, ops[0]), ops[1..], x);
    }
  }

  /** A reply that waits for `x` waits for the first owner of `x` that the run tells,
      until it fires or is removed. */
  lemma {:induction false} RunWaits(w: World, ops: seq<Op>, id: Id, x: Name)
    requires Good(w) && RunFrom(w, ops) && WaitsFor(w, id, x)
    ensures var v := Exec(w, ops);
            var y := match FirstTold(ops, x) case Some(u) => u case None => x;
            if WaitsFor(v, id, y) then v.c.replies[id].serial == w.c.replies[id].serial
            else Over(v, id) && (HasFired(v.c.fired, id) || RemoveReply(id) in ops)
    decreases ops
  {
    hide Step, Inv, Serials, HasFired, Enabled, WaitsFor, Over, Tells, IsService;
    if ops != [] {
      var v := Step(w, ops[0]);
      var y := Next(ops[0], x);
      StepGood(w, ops[0]);
      StepWaits(w, ops[0], id, x);
      if WaitsFor(v, id, y) {
        assert id in v.c.replies && id in w.c.replies by { InReplies(v, id, y); InReplies(w, id, x); }
        RunWaits(v, ops[1..], id, y);
        if Tells(ops[0], x) {
          OwnerIsNoService(w, ops[0], x);
          NeverTold(v, ops[1..], y);
        }
      } else {
        RunOver(v, ops[1..], id);
      }
      OverNotWaiting(Exec(w, ops), id);
    }
  }

  lemma {:induction false} InReplies(w: World, id: Id, x: Name)
    requires WaitsFor(w, id, x)
    ensures id in w.c.replies
  {
  }

  lemma {:induction false} OverNotWaiting(w: World, id: Id)
    ensures Over(w, id) ==> forall x :: !WaitsFor(w, id, x)
  {
  }

  lemma {:induction false} OwnerIsNoService(w: World, op: Op, x: Name)
    requires Enabled(w, op) && Tells(op, x)
    ensures !IsService(op.owner)
  {
  }

  lemma {:induction false} RunOver(w: World, ops: seq<Op>, id: Id)
    requires Good(w) && RunFrom(w, ops) && Over(w, id)
    ensures Over(Exec(w, ops), id)
    ensures HasFired(w.c.fired, id) ==> HasFired(Exec(w, ops).c.fired, id)
    decreases ops
  {
    hide Step, Inv, Serials, HasFired, Enabled, Over;
    if ops != [] {
      StepGood(w, ops[0]);
      StepOver(w, ops[0], id);
      RunOver(Step(w, ops[0]), ops[1..], id);
    }
  }

  /** Over every run: a return or an error from the one that answers, with the serial of
      the request, fires exactly the reply of that request, unless it has fired before
      or was removed. It does so whether the owner was told before the request was sent
      or afterwards. */
  lemma {:induction false} AnswerFires(before: seq<Op>, n: Name, k: nat, after: seq<Op>, kind: nat)
    requires RunFrom(START, before + [AddReply(n, k)] + after) && n != "" && kind in {2, 3}
    ensures RunFrom(START, before)
    ensures var id := Exec(START, before).c.nextId;
            var c := Exec(START, before + [AddReply(n, k)] + after).c;
            !HasFired(c.fired, id) && RemoveReply(id) !in after ==>
              Fire(c, Msg(kind, Some(DrawnSerial(k)), Some(Answerer(before, n, after)))).fired
              == c.fired + [Call(id, kind == 3)]
  {
    hide Step, Good, HasFired, Enabled, Over, WaitsFor, Exec, RunFrom, Tells, Fire, DrawnSerial;
    var op := AddReply(n, k);
    StartGood();
    RunConcat(START, before + [op], after);
    RunConcat(START, before, [op]);
    RunSnoc(START, before + [op]);
    assert (before + [op])[..|before|] == before;
    var w := Exec(START, before);
    var v := Exec(START, before + [op]);
    KnowsLastTold(before, n);
    var x := match LastTold(before, n) case Some(u) => u case None => n;
    Registered(w, n, k, x);
    if LastTold(before, n).Some? {
      ToldUnique(before, n);
      NeverTold(v, after, x);
    }
    RunWaits(v, after, w.c.nextId, x);
    var end := Exec(v, after);
    EveryRun(v, after);
    assert end == Exec(START, before + [op] + after);
    if WaitsFor(end, w.c.nextId, Answerer(before, n, after)) {
      WaitingFires(end, w.c.nextId, Answerer(before, n, after), kind);
    }
  }

  /** The reply waits under the right name once it is added. */
  lemma {:induction false} Registered(w: World, n: Name, k: nat, x: Name)
    requires Good(w) && Enabled(w, AddReply(n, k)) && n != ""
    requires x == match KnownOwner(w, n) case Some(u) => u case None => n
    ensures var v := Step(w, AddReply(n, k));
            && WaitsFor(v, w.c.nextId, x) && v.c.replies[w.c.nextId].serial == DrawnSerial(k) && Good(v)
  {
    hide Add, Serials, DrawnSerial, Find, HasFired;
    StepGood(w, AddReply(n, k));
    AddSucceeds(w, n, k);
    AddFound(w.c, n, DrawnSerial(k));
    FoundWaits(Step(w, AddReply(n, k)).c, x, DrawnSerial(k), w.c.nextId);
  }

  lemma {:induction false} FoundWaits(c: Conn, n: Name, s: Serial, id: Id)
    requires Inv(c) && Find(c.remotes, n, s) == Some(id)
    ensures id in c.replies && c.replies[id] == Entry(Some(n), s)
  {
  }

  /** Owners are told by their unique names, or as gone. */
  lemma {:induction false} ToldUnique(ops: seq<Op>, n: Name)
    requires RunFrom(START, ops) && LastTold(ops, n).Some?
    ensures !IsService(LastTold(ops, n).value)
    decreases |ops|
  {
    hide Step, Good, Exec, RunFrom, IsService, Enabled, Tells;
    var k := |ops| - 1;
    StartGood();
    RunSnoc(START, ops);
    if Tells(ops[k], n) {
      OwnerIsNoService(Exec(START, ops[..k]), ops[k], n);
    } else {
      ToldUnique(ops[..k], n);
    }
  }

  lemma {:induction false} WaitingFires(w: World, id: Id, x: Name, kind: nat)
    requires Good(w) && WaitsFor(w, id, x) && kind in {2, 3}
    ensures Fire(w.c, Msg(kind, Some(w.c.replies[id].serial), Some(x))).fired == w.c.fired + [Call(id, kind == 3)]
  {
    hide Serials, HasFired, Delete;
    assert Find(w.c.remotes, x, w.c.replies[id].serial) == Some(id);
  }

  /** Other messages, and those without a reply serial or a sender, fire nothing. */
  lemma {:induction false} OthersFireNothing(c: Conn, m: Msg)
    requires m.kind !in {2, 3} || m.replySerial.None? || m.sender.None?
    ensures Fire(c, m) == c
  {
  }
}
