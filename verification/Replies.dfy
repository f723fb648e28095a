/** The reply registry of a client connection: an index by sender and serial,
    the flat list of registered replies that it has to agree with, and the
    re-keying of both when the owner of a service becomes known. */
module Replies {
  import opened Bytes

  type Name = string
  type Serial = nat
  type Id = nat

  const UINT32_MAX: nat := 0xFFFF_FFFF
  const BUS := "org.freedesktop.DBus"
  const MSG_RETURN: nat := 2
  const MSG_ERROR: nat := 3

  /** adbus_ConnReply: the remote it waits for, none once it fires. */
  datatype Entry = Entry(remote: Option<Name>, serial: Serial)

  /** A callback made for a reply: the error callback or the normal one */
  datatype Call = Call(id: Id, error: bool)

  type Index = map<Name, map<Serial, Id>>

  /** The parts of adbus_Connection that replies use. `nextId` numbers the
      replies ever registered and `fired` is the log of callbacks. */
  datatype Conn = Conn(
    remotes: Index, replies: map<Id, Entry>, services: map<Name, Option<Name>>,
    iter: Option<Id>, nextSerial: Serial, nextId: Id, fired: seq<Call>)

  const EMPTY: Conn := Conn(map[], map[], map[], None, 1, 0, [])

  // -------------------------------------------------------------- the index

  function Find(x: Index, n: Name, s: Serial): (r: Option<Id>)
  {
    if n in x && s in x[n] then Some(x[n][s]) else None
  }

  function Insert(x: Index, n: Name, s: Serial, id: Id): (r: Index)
    ensures forall m: Name, t: Serial :: Find(r, m, t) == if m == n && t == s then Some(id) else Find(x, m, t)
  {
    x[n := (if n in x then x[n] else map[])[s := id]]
  }

  /** Remove a serial, and its remote with it when that was the last one. */
  function Delete(x: Index, n: Name, s: Serial): (r: Index)
    ensures forall m: Name, t: Serial :: Find(r, m, t) == if m == n && t == s then None else Find(x, m, t)
  {
    if n !in x then x else
    var h := x[n] - {s};
    if |h| == 0 then x - {n} else x[n := h]
  }

  /** MoveReplies on the index */
  function Rekey(x: Index, from: Name, to: Name): (r: Index)
    requires from != to
    ensures forall m, t :: Find(r, m, t) ==
              if m == from then None
              else if m == to && Find(x, from, t).Some? then Find(x, from, t)
              else Find(x, m, t)
  {
    if from !in x then x
    else (x - {from})[to := (if to in x then x[to] else map[]) + x[from]]
  }

  predicate NoEmptyRemote(x: Index) {
    forall n :: n in x ==> x[n] != map[]
  }

  // -------------------------------------------------------------- the steps

  /** adbus_conn_serial */
  function NextSerial(next: Serial): (r: (Serial, Serial))
  {
    var s := if next == UINT32_MAX then 1 else next;
    (s, s + 1)
  }

  /** Names whose owner has to be asked for: neither unique names nor the bus */
  predicate IsService(n: Name) {
    n != [] && n[0] != ':' && n != BUS
  }

  /** adbusI_lookupService */
  function Lookup(services: map<Name, Option<Name>>, n: Name): (r: map<Name, Option<Name>>)
  {
    if IsService(n) && n !in services then services[n := None] else services
  }

  /** The remote that a reply from `n` will come from, as far as it is known */
  function Target(services: map<Name, Option<Name>>, n: Name): (r: Name)
  {
    if n in services && services[n].Some? then services[n].value else n
  }

  /** adbus_conn_addreply */
  function Add(c: Conn, n: Name, s: Serial): (r: (Conn, Option<Id>))
  {
    if n == [] then (c, None) else
    var sv := Lookup(c.services, n);
    var t := if IsService(n) then Target(sv, n) else n;
    if Find(c.remotes, t, s).Some? then (c.(services := sv), None)
    else
      (c.(remotes := Insert(c.remotes, t, s, c.nextId),
          replies := c.replies[c.nextId := Entry(Some(t), s)],
          services := sv, nextId := c.nextId + 1),
       Some(c.nextId))
  }

  /** adbusI_freeReply */
  function Remove(c: Conn, id: Id): (r: Conn)
    requires id in c.replies
  {
    var e := c.replies[id];
    c.(remotes := if e.remote.Some? then Delete(c.remotes, e.remote.value, e.serial) else c.remotes,
       replies := c.replies - {id},
       iter := if c.iter == Some(id) then None else c.iter)
  }

  /** The message fields that adbusI_dispatchReply looks at */
  datatype Msg = Msg(kind: nat, replySerial: Option<Serial>, sender: Option<Name>)

  predicate Answers(m: Msg) {
    (m.kind == MSG_RETURN || m.kind == MSG_ERROR) && m.replySerial.Some? && m.sender.Some?
  }

  /** adbusI_dispatchReply up to and including the call of the callback */
  function Fire(c: Conn, m: Msg): (r: Conn)
  {
    if !Answers(m) then c else
    match Find(c.remotes, m.sender.value, m.replySerial.value)
    case None => c
    case Some(id) =>
      if id !in c.replies then c else
      c.(remotes := Delete(c.remotes, m.sender.value, m.replySerial.value),
         replies := c.replies[id := c.replies[id].(remote := None)],
         iter := Some(id),
         fired := c.fired + [Call(id, m.kind == MSG_ERROR)])
  }

  /** The rest of adbusI_dispatchReply, once the callback has returned */
  function Finish(c: Conn): (r: Conn)
  {
    var c1 := c.(iter := None);
    if c.iter.Some? && c.iter.value in c.replies then Remove(c1, c.iter.value) else c1
  }

  /** MoveReplies on the replies that the index lists under `from` */
  function Retarget(replies: map<Id, Entry>, moved: set<Id>, to: Name): (r: map<Id, Entry>)
  {
    map id | id in replies :: if id in moved then replies[id].(remote := Some(to)) else replies[id]
  }

  /** GetNameOwner and NameOwnerChanged: a looked up service has this owner. */
  function Resolve(c: Conn, n: Name, owner: Name): (r: Conn)
    requires n != owner
  {
    c.(services := c.services[n := Some(owner)],
       remotes := Rekey(c.remotes, n, owner),
       replies := if n in c.remotes then Retarget(c.replies, c.remotes[n].Values, owner) else c.replies)
  }

  // ---------------------------------------------------------- the invariant

  /** The index answers like the flat list. */
  ghost predicate Agree(c: Conn) {
    && NoEmptyRemote(c.remotes)
    && (forall n, s :: Find(c.remotes, n, s).Some? ==>
          var id := Find(c.remotes, n, s).value;
          id in c.replies && c.replies[id] == Entry(Some(n), s))
    && (forall id :: id in c.replies && c.replies[id].remote.Some? ==>
          Find(c.remotes, c.replies[id].remote.value, c.replies[id].serial) == Some(id))
  }

  predicate HasFired(fired: seq<Call>, id: Id) {
    exists k :: 0 <= k < |fired| && fired[k].id == id
  }

  ghost predicate Once(c: Conn) {
    && (forall i, j :: 0 <= i < j < |c.fired| ==> c.fired[i].id != c.fired[j].id)
    && (forall i :: 0 <= i < |c.fired| ==> c.fired[i].id < c.nextId)
    && (forall id :: id in c.replies ==> id < c.nextId)
    && (forall id :: id in c.replies && c.replies[id].remote.Some? ==> !HasFired(c.fired, id))
    && (c.iter.Some? ==> c.iter.value in c.replies && c.replies[c.iter.value].remote.None?)
  }

  predicate ServicesOk(c: Conn) {
    forall n :: n in c.services ==> IsService(n)
  }

  ghost predicate Inv(c: Conn) {
    Agree(c) && Once(c) && ServicesOk(c)
  }

  /** Replies that wait have distinct serials. */
  ghost predicate DistinctSerials(replies: map<Id, Entry>) {
    forall i, j :: i in replies && j in replies && i != j && replies[i].remote.Some? && replies[j].remote.Some? ==>
      replies[i].serial != replies[j].serial
  }

  lemma {:induction false} AddKeeps(c: Conn, n: Name, s: Serial)
    requires Inv(c)
    ensures Inv(Add(c, n, s).0)
  {
    AddAgrees(c, n, s);
    var c1 := Add(c, n, s).0;
    assert forall id :: id in c.replies ==> c1.replies[id] == c.replies[id];
  }

  lemma {:induction false} AddAgrees(c: Conn, n: Name, s: Serial)
    requires Agree(c) && Once(c)
    ensures Agree(Add(c, n, s).0)
  {
    hide HasFired;
    var c1 := Add(c, n, s).0;
    assert forall id :: id in c.replies ==> c1.replies[id] == c.replies[id];
  }

  lemma {:induction false} RemoveKeeps(c: Conn, id: Id)
    requires Inv(c) && id in c.replies
    ensures Inv(Remove(c, id))
  {
  }

  lemma {:induction false} FireKeeps(c: Conn, m: Msg)
    requires Inv(c)
    ensures Inv(Fire(c, m))
  {
  }

  lemma {:induction false} FinishKeeps(c: Conn)
    requires Inv(c)
    ensures Inv(Finish(c))
  {
    if c.iter.Some? {
      RemoveKeeps(c.(iter := None), c.iter.value);
    }
  }

  /** The replies listed under a name are exactly those that wait for it. */
  lemma {:induction false} ListedExactly(c: Conn, n: Name, id: Id)
    requires Agree(c) && id in c.replies
    ensures c.replies[id].remote == Some(n) <==> n in c.remotes && id in c.remotes[n].Values
  {
    if n in c.remotes && id in c.remotes[n].Values {
      var s :| s in c.remotes[n] && c.remotes[n][s] == id;
      assert Find(c.remotes, n, s) == Some(id);
    }
    if c.replies[id].remote == Some(n) {
      assert Find(c.remotes, n, c.replies[id].serial) == Some(id);
    }
  }

  /** What moving means for the flat list */
  function Waiting(replies: map<Id, Entry>, from: Name, to: Name): (r: map<Id, Entry>)
  {
    map id | id in replies ::
      if replies[id].remote == Some(from) then replies[id].(remote := Some(to)) else replies[id]
  }

  lemma {:induction false} MovesExactly(c: Conn, n: Name, owner: Name)
    requires Agree(c) && n != owner
    ensures Resolve(c, n, owner).replies == Waiting(c.replies, n, owner)
  {
    forall id | id in c.replies
      ensures Resolve(c, n, owner).replies[id] == Waiting(c.replies, n, owner)[id]
    {
      ListedExactly(c, n, id);
    }
  }

  /** The assertion in MoveReplies: no serial of the service is taken under the
      name that its replies move to. */
  lemma {:induction false} MoveFindsFreeSerials(c: Conn, n: Name, owner: Name, s: Serial)
    requires Agree(c) && DistinctSerials(c.replies) && n != owner
    requires Find(c.remotes, n, s).Some?
    ensures Find(c.remotes, owner, s).None?
  {
  }

  lemma {:induction false} ResolveKeeps(c: Conn, n: Name, owner: Name)
    requires Inv(c) && IsService(n) && n != owner && DistinctSerials(c.replies)
    ensures Inv(Resolve(c, n, owner))
  {
    hide Resolve, Find, Rekey, Waiting, HasFired;
    ResolveAgrees(c, n, owner);
    MovesExactly(c, n, owner);
    ResolveParts(c, n, owner);
  }

  lemma {:induction false} ResolveParts(c: Conn, n: Name, owner: Name)
    requires n != owner
    ensures var r := Resolve(c, n, owner);
            && r.remotes == Rekey(c.remotes, n, owner) && r.services == c.services[n := Some(owner)]
            && r.iter == c.iter && r.nextSerial == c.nextSerial && r.nextId == c.nextId && r.fired == c.fired
    ensures forall id :: id in Waiting(c.replies, n, owner) <==> id in c.replies
    ensures forall id :: id in c.replies ==>
              Waiting(c.replies, n, owner)[id] ==
              if c.replies[id].remote == Some(n) then Entry(Some(owner), c.replies[id].serial) else c.replies[id]
  {
  }

  lemma {:induction false} ResolveAgrees(c: Conn, n: Name, owner: Name)
    requires Agree(c) && n != owner && DistinctSerials(c.replies)
    ensures Agree(Resolve(c, n, owner))
  {
    MovesExactly(c, n, owner);
    ResolveParts(c, n, owner);
    RekeyNoEmpty(c.remotes, n, owner);
    hide Resolve, Find, Rekey, Waiting, NoEmptyRemote;
    var r := Resolve(c, n, owner);
    forall m, s | Find(r.remotes, m, s).Some?
      ensures var id := Find(r.remotes, m, s).value; id in r.replies && r.replies[id] == Entry(Some(m), s)
    {
    }
    forall id | id in r.replies && r.replies[id].remote.Some?
      ensures Find(r.remotes, r.replies[id].remote.value, r.replies[id].serial) == Some(id)
    {
      var e := c.replies[id];
      if e.remote.value == owner && Find(c.remotes, n, e.serial).Some? {
        MoveFindsFreeSerials(c, n, owner, e.serial);
        assert false;
      }
    }
  }

  lemma {:induction false} RekeyNoEmpty(x: Index, from: Name, to: Name)
    requires from != to && NoEmptyRemote(x)
    ensures NoEmptyRemote(Rekey(x, from, to))
  {
    if from in x {
      var s :| s in x[from];
      assert Find(x, from, s).Some?;
      assert Find(Rekey(x, from, to), to, s).Some?;
    }
  }

  // ---------------------------------------------------------- the flat list

  /** The registry as a flat list: no index, every search is over all replies. */
  datatype Flat = Flat(
    entries: map<Id, Entry>, services: map<Name, Option<Name>>,
    iter: Option<Id>, nextId: Id, fired: seq<Call>)

  function Flatten(c: Conn): (f: Flat) {
    Flat(c.replies, c.services, c.iter, c.nextId, c.fired)
  }

  ghost function Search(entries: map<Id, Entry>, n: Name, s: Serial): (r: Option<Id>)
  {
    if exists id :: id in entries && entries[id] == Entry(Some(n), s) then
      var id :| id in entries && entries[id] == Entry(Some(n), s); Some(id)
    else None
  }

  /** A reply waits for the owner of the service, if it is known, or for the name
      that it was asked for. */
  ghost function FlatAdd(f: Flat, n: Name, s: Serial): Flat {
    if n == [] then f else
    var sv := if IsService(n) && n !in f.services then f.services[n := None] else f.services;
    var t := if IsService(n) && n in f.services && f.services[n].Some? then f.services[n].value else n;
    if Search(f.entries, t, s).Some? then f.(services := sv)
    else f.(entries := f.entries[f.nextId := Entry(Some(t), s)], services := sv, nextId := f.nextId + 1)
  }

  function FlatRemove(f: Flat, id: Id): Flat {
    f.(entries := f.entries - {id}, iter := if f.iter == Some(id) then None else f.iter)
  }

  ghost function FlatFire(f: Flat, m: Msg): Flat {
    if !Answers(m) then f else
    match Search(f.entries, m.sender.value, m.replySerial.value)
    case None => f
    case Some(id) =>
      f.(entries := f.entries[id := Entry(None, m.replySerial.value)], iter := Some(id),
         fired := f.fired + [Call(id, m.kind == MSG_ERROR)])
  }

  function FlatFinish(f: Flat): Flat {
    if f.iter.Some? then FlatRemove(f, f.iter.value) else f
  }

  function FlatResolve(f: Flat, n: Name, owner: Name): Flat {
    f.(services := f.services[n := Some(owner)], entries := Waiting(f.entries, n, owner))
  }

  /** The two-level index finds what a search of the flat list finds. */
  lemma {:induction false} FindIsSearch(c: Conn, n: Name, s: Serial)
    requires Agree(c)
    ensures Find(c.remotes, n, s) == Search(c.replies, n, s)
  {
    if Search(c.replies, n, s).Some? {
      var id := Search(c.replies, n, s).value;
      assert c.replies[id] == Entry(Some(n), s);
      assert Find(c.remotes, n, s) == Some(id);
    }
  }

  // --------------------------------------------------------------- the runs

  datatype Op =
    | DrawSerial
    | LookupService(n: Name)
    | AddReply(n: Name, draw: nat)
    | RemoveReply(id: Id)
    | FireReply(m: Msg)
    | CallbackDone
    | OwnerAnswered(n: Name, owner: Name)
    | OwnerChanged(n: Name, owner: Name)

  /** Serials repeat after this many. */
  const PERIOD: nat := UINT32_MAX - 1

  /** The serial of the k-th draw, counting from 0 */
  function DrawnSerial(k: nat): (s: Serial)
    ensures 0 < s < UINT32_MAX
  {
    1 + k % PERIOD
  }

  /** A connection with its history: the number of serials drawn, and for every
      reply ever registered the draw that its serial comes from */
  datatype World = World(c: Conn, drawn: nat, draws: map<Id, nat>)

  const START: World := World(EMPTY, 0, map[])

  /** What the connection relies on: a serial drawn is used for one reply, and no
      reply waits for as long as it takes to draw all serials; only registered
      replies are removed; only services that were looked up are resolved, and to
      a unique name or to the empty name that says that the owner is gone. */
  ghost predicate Enabled(w: World, op: Op) {
    match op
    case DrawSerial => forall id :: id in w.c.replies && w.c.replies[id].remote.Some? && id in w.draws ==>
                         w.drawn + 1 - w.draws[id] <= PERIOD
    case AddReply(_, k) => k < w.drawn <= k + PERIOD && k !in w.draws.Values
    case RemoveReply(id) => id in w.c.replies
    case OwnerAnswered(n, owner) => n in w.c.services && (owner == [] || owner[0] == ':')
    case OwnerChanged(n, owner) => n in w.c.services && (owner == [] || owner[0] == ':')
    case _ => true
  }

  ghost function Step(w: World, op: Op): World
    requires Enabled(w, op) && ServicesOk(w.c)
  {
    match op
    case DrawSerial => w.(c := w.c.(nextSerial := NextSerial(w.c.nextSerial).1), drawn := w.drawn + 1)
    case LookupService(n) => w.(c := w.c.(services := Lookup(w.c.services, n)))
    case AddReply(n, k) =>
      var (c1, id) := Add(w.c, n, DrawnSerial(k));
      World(c1, w.drawn, if id.Some? then w.draws[id.value := k] else w.draws)
    case RemoveReply(id) => w.(c := Remove(w.c, id))
    case FireReply(m) => w.(c := Fire(w.c, m))
    case CallbackDone => w.(c := Finish(w.c))
    case OwnerAnswered(n, owner) => w.(c := Resolve(w.c, n, owner))
    case OwnerChanged(n, owner) => w.(c := Resolve(w.c, n, owner))
  }

  ghost function FlatStep(f: Flat, op: Op): Flat {
    match op
    case DrawSerial => f
    case LookupService(n) => f.(services := Lookup(f.services, n))
    case AddReply(n, k) => FlatAdd(f, n, DrawnSerial(k))
    case RemoveReply(id) => FlatRemove(f, id)
    case FireReply(m) => FlatFire(f, m)
    case CallbackDone => FlatFinish(f)
    case OwnerAnswered(n, owner) => FlatResolve(f, n, owner)
    case OwnerChanged(n, owner) => FlatResolve(f, n, owner)
  }

  /** Where the serials of the replies come from */
  ghost predicate Serials(w: World) {
    && w.c.nextSerial == (if w.drawn == 0 then 1 else DrawnSerial(w.drawn - 1) + 1)
    && (forall id :: id in w.draws ==> id < w.c.nextId && w.draws[id] < w.drawn)
    && (forall i, j :: i in w.draws && j in w.draws && i != j ==> w.draws[i] != w.draws[j])
    && (forall id :: id in w.c.replies ==> id in w.draws && w.c.replies[id].serial == DrawnSerial(w.draws[id]))
    && (forall id :: id in w.c.replies && w.c.replies[id].remote.Some? ==> w.drawn - w.draws[id] <= PERIOD)
  }

  ghost predicate Good(w: World) {
    Inv(w.c) && Serials(w)
  }

  /** The counter yields exactly the k-th serial at the k-th draw: it runs from 1 to
      2^32 - 2 and starts again. */
  lemma {:induction false} DrawYields(w: World)
    requires Serials(w)
    ensures NextSerial(w.c.nextSerial).0 == 1 + w.drawn % 0xFFFF_FFFE
    ensures NextSerial(w.c.nextSerial).0 == DrawnSerial(w.drawn)
    ensures NextSerial(w.c.nextSerial).1 == DrawnSerial(w.drawn) + 1
  {
    if w.drawn > 0 {
      ModSucc(w.drawn - 1);
    }
  }

  lemma {:induction false} ModSucc(k: nat)
    ensures (k + 1) % PERIOD == if k % PERIOD == PERIOD - 1 then 0 else k % PERIOD + 1
  {
    var q, r := k / PERIOD, k % PERIOD;
    assert k == q * PERIOD + r;
    if r == PERIOD - 1 {
      DivModUnique(k + 1, q + 1, 0);
    } else {
      DivModUnique(k + 1, q, r + 1);
    }
  }

  lemma {:induction false} DivModUnique(k: nat, q: nat, r: nat)
    requires k == q * PERIOD + r && r < PERIOD
    ensures k % PERIOD == r
  {
  }

  /** Two draws less than a period apart have different serials. */
  lemma {:induction false} WindowDistinct(i: nat, j: nat)
    requires i < j < i + PERIOD
    ensures DrawnSerial(i) != DrawnSerial(j)
  {
  }

  lemma {:induction false} SerialsDistinct(w: World)
    requires Serials(w)
    ensures DistinctSerials(w.c.replies)
  {
    forall i, j | i in w.c.replies && j in w.c.replies && i != j
                  && w.c.replies[i].remote.Some? && w.c.replies[j].remote.Some?
      ensures w.c.replies[i].serial != w.c.replies[j].serial
    {
      var a, b := w.draws[i], w.draws[j];
      if a < b { WindowDistinct(a, b); } else { WindowDistinct(b, a); }
    }
  }

  /** A reply under a serial of its own is always registered: the assertion in
      adbus_conn_addreply is never reached. */
  lemma {:induction false} AddSucceeds(w: World, n: Name, k: nat)
    requires Good(w) && Enabled(w, AddReply(n, k)) && n != []
    ensures Add(w.c, n, DrawnSerial(k)).1 == Some(w.c.nextId)
  {
    var sv := Lookup(w.c.services, n);
    var t := if IsService(n) then Target(sv, n) else n;
    if Find(w.c.remotes, t, DrawnSerial(k)).Some? {
      var id := Find(w.c.remotes, t, DrawnSerial(k)).value;
      var a := w.draws[id];
      assert a in w.draws.Values;
      if a < k { WindowDistinct(a, k); } else { WindowDistinct(k, a); }
      assert false;
    }
  }

  lemma {:induction false} StepInv(w: World, op: Op)
    requires Good(w) && Enabled(w, op)
    ensures Inv(Step(w, op).c)
  {
    hide Add, Remove, Fire, Finish, Resolve, Find, Agree, Once, HasFired;
    match op
    case DrawSerial => assert Inv(w.c.(nextSerial := NextSerial(w.c.nextSerial).1)) by { SerialIrrelevant(w.c, NextSerial(w.c.nextSerial).1); }
    case LookupService(n) => LookupKeeps(w.c, n);
    case AddReply(n, k) => AddKeeps(w.c, n, DrawnSerial(k));
    case RemoveReply(id) => RemoveKeeps(w.c, id);
    case FireReply(m) => FireKeeps(w.c, m);
    case CallbackDone => FinishKeeps(w.c);
    case OwnerAnswered(n, owner) =>
      SerialsDistinct(w);
      ResolveKeeps(w.c, n, owner);
    case OwnerChanged(n, owner) =>
      SerialsDistinct(w);
      ResolveKeeps(w.c, n, owner);
  }

  lemma {:induction false} SerialIrrelevant(c: Conn, s: Serial)
    requires Inv(c)
    ensures Inv(c.(nextSerial := s))
  {
  }

  lemma {:induction false} LookupKeeps(c: Conn, n: Name)
    requires Inv(c)
    ensures Inv(c.(services := Lookup(c.services, n)))
  {
  }

  lemma {:induction false} StepSerials(w: World, op: Op)
    requires Good(w) && Enabled(w, op)
    ensures Serials(Step(w, op))
  {
    hide Inv, Find, Insert, Delete, Rekey, HasFired, DrawnSerial, Waiting, Add, Remove, Fire, Finish, Resolve;
    assert Once(w.c) && Agree(w.c) && ServicesOk(w.c) by { InvParts(w.c); }
    match op
    case DrawSerial => DrawYields(w);
    case LookupService(n) =>
    case AddReply(n, k) => AddSerials(w, n, k);
    case RemoveReply(id) => FewerReplies(w, Remove(w.c, id)) by { RemoveParts(w.c, id); }
    case FireReply(m) => FewerReplies(w, Fire(w.c, m)) by { FireParts(w.c, m); }
    case CallbackDone => FewerReplies(w, Finish(w.c)) by { FinishParts(w.c); }
    case OwnerAnswered(n, owner) =>
      MovesExactly(w.c, n, owner);
      FewerReplies(w, Resolve(w.c, n, owner)) by { ResolveParts(w.c, n, owner); }
    case OwnerChanged(n, owner) =>
      MovesExactly(w.c, n, owner);
      FewerReplies(w, Resolve(w.c, n, owner)) by { ResolveParts(w.c, n, owner); }
  }

  lemma {:induction false} InvParts(c: Conn)
    requires Inv(c)
    ensures Agree(c) && Once(c) && ServicesOk(c)
  {
  }

  /** No reply is new, none that fires waits again, and no serial changes. */
  ghost predicate Fewer(c: Conn, d: Conn) {
    && d.nextSerial == c.nextSerial && d.nextId == c.nextId
    && (forall id :: id in d.replies ==>
          id in c.replies && d.replies[id].serial == c.replies[id].serial
          && (d.replies[id].remote.Some? ==> c.replies[id].remote.Some?))
  }

  lemma {:induction false} FewerReplies(w: World, d: Conn)
    requires Serials(w) && Fewer(w.c, d)
    ensures Serials(w.(c := d))
  {
    hide DrawnSerial;
  }

  lemma {:induction false} RemoveParts(c: Conn, id: Id)
    requires id in c.replies
    ensures Fewer(c, Remove(c, id))
  {
  }

  lemma {:induction false} FireParts(c: Conn, m: Msg)
    ensures Fewer(c, Fire(c, m))
  {
  }

  lemma {:induction false} FinishParts(c: Conn)
    ensures Fewer(c, Finish(c))
  {
  }

  lemma {:induction false} AddSerials(w: World, n: Name, k: nat)
    requires Good(w) && Enabled(w, AddReply(n, k))
    ensures Serials(Step(w, AddReply(n, k)))
  {
    hide Inv, Find, Insert, HasFired, DrawnSerial, Agree, Add;
    InvParts(w.c);
    AddParts(w.c, n, DrawnSerial(k));
    var (d, id) := Add(w.c, n, DrawnSerial(k));
    if id.Some? {
      var e :| d.replies == w.c.replies[w.c.nextId := e] && e.serial == DrawnSerial(k);
    }
    var w1 := Step(w, AddReply(n, k));
    assert w1.c == d;
    assert forall id :: id in w.draws ==> w1.draws[id] == w.draws[id] && w.draws[id] in w.draws.Values;
    assert forall id :: id in w.c.replies ==> w1.c.replies[id] == w.c.replies[id];
  }

  lemma {:induction false} AddParts(c: Conn, n: Name, s: Serial)
    requires Once(c)
    ensures var (d, id) := Add(c, n, s);
            && d.nextSerial == c.nextSerial
            && (id.None? ==> d.replies == c.replies && d.nextId == c.nextId)
            && (id.Some? ==>
                  && id.value == c.nextId && d.nextId == c.nextId + 1 && c.nextId !in c.replies
                  && exists e :: d.replies == c.replies[c.nextId := e] && e.serial == s)
  {
    hide Find, Insert, HasFired;
  }

  /** Every step does to the registry what it does to the flat list. */
  lemma {:induction false} StepFlat(w: World, op: Op)
    requires Good(w) && Enabled(w, op)
    ensures Flatten(Step(w, op).c) == FlatStep(Flatten(w.c), op)
  {
    hide Find, Search, Insert, Delete, Rekey, HasFired, DrawnSerial;
    match op
    case DrawSerial =>
    case LookupService(n) =>
    case AddReply(n, k) =>
      var sv := Lookup(w.c.services, n);
      FindIsSearch(w.c, if IsService(n) then Target(sv, n) else n, DrawnSerial(k));
    case RemoveReply(id) =>
    case FireReply(m) =>
      if Answers(m) {
        FindIsSearch(w.c, m.sender.value, m.replySerial.value);
      }
    case CallbackDone =>
    case OwnerAnswered(n, owner) =>
      MovesExactly(w.c, n, owner);
    case OwnerChanged(n, owner) =>
      MovesExactly(w.c, n, owner);
  }

  ghost predicate RunFrom(w: World, ops: seq<Op>)
    decreases ops
  {
    ops == [] || (Enabled(w, ops[0]) && ServicesOk(w.c) && RunFrom(Step(w, ops[0]), ops[1..]))
  }

  ghost function Exec(w: World, ops: seq<Op>): World
    requires RunFrom(w, ops)
    decreases ops
  {
    if ops == [] then w else Exec(Step(w, ops[0]), ops[1..])
  }

  ghost function FlatExec(f: Flat, ops: seq<Op>): Flat
    decreases ops
  {
    if ops == [] then f else FlatExec(FlatStep(f, ops[0]), ops[1..])
  }

  /** Over every run the index agrees with the flat list, and the callbacks made
      are those that the flat list makes. */
  lemma {:induction false} EveryRun(w: World, ops: seq<Op>)
    requires Good(w) && RunFrom(w, ops)
    ensures Good(Exec(w, ops))
    ensures Flatten(Exec(w, ops).c) == FlatExec(Flatten(w.c), ops)
    decreases ops
  {
    hide Step, FlatStep, Enabled, Inv, Serials, Flatten;
    if ops != [] {
      StepInv(w, ops[0]);
      StepSerials(w, ops[0]);
      StepFlat(w, ops[0]);
      EveryRun(Step(w, ops[0]), ops[1..]);
    }
  }

  /** The operation tells who owns the service: the answer to GetNameOwner, or a
      NameOwnerChanged signal. */
  predicate Tells(op: Op, n: Name) {
    (op.OwnerAnswered? || op.OwnerChanged?) && op.n == n
  }

  /** The assertion in GetNameOwner: no owner is known yet. */
  predicate AnswerExpected(c: Conn, n: Name)
    requires n in c.services
  {
    c.services[n].None?
  }

  lemma {:induction false} StepServices(w: World, op: Op, n: Name)
    requires Good(w) && Enabled(w, op)
    ensures n in w.c.services || Tells(op, n) ==> n in Step(w, op).c.services
    ensures n in Step(w, op).c.services ==>
              (Step(w, op).c.services[n].None? <==> (n !in w.c.services || w.c.services[n].None?) && !Tells(op, n))
  {
    hide Find, Insert, Delete, Rekey, Retarget, HasFired, Inv, Serials, DrawnSerial;
  }

  lemma {:induction false} ToldByRest(ops: seq<Op>, n: Name)
    requires ops != []
    ensures (forall k :: 0 <= k < |ops| ==> !Tells(ops[k], n)) <==>
              !Tells(ops[0], n) && forall k :: 0 <= k < |ops[1..]| ==> !Tells(ops[1..][k], n)
  {
    hide Tells;
    assert forall k :: 1 <= k < |ops| ==> ops[k] == ops[1..][k - 1];
  }

  lemma {:induction false} KnownIffTold(w: World, ops: seq<Op>, n: Name)
    requires Good(w) && RunFrom(w, ops) && n in Exec(w, ops).c.services
    ensures AnswerExpected(Exec(w, ops).c, n) <==>
              && (n !in w.c.services || w.c.services[n].None?)
              && forall k :: 0 <= k < |ops| ==> !Tells(ops[k], n)
    decreases ops
  {
    hide Step, Enabled, Inv, Serials, Tells;
    if ops != [] {
      StepInv(w, ops[0]);
      StepSerials(w, ops[0]);
      StepServices(w, ops[0], n);
      KnownIffTold(Step(w, ops[0]), ops[1..], n);
      ToldByRest(ops, n);
    }
  }

  /** The assertion holds when the answer to GetNameOwner arrives if and only if
      neither an answer nor a NameOwnerChanged for that service came before. */
  lemma {:induction false} AnswerExpectedIff(ops: seq<Op>, n: Name)
    requires RunFrom(START, ops) && n in Exec(START, ops).c.services
    ensures AnswerExpected(Exec(START, ops).c, n) <==> forall k :: 0 <= k < |ops| ==> !Tells(ops[k], n)
  {
    hide Exec, RunFrom, Good, Tells;
    StartGood();
    KnownIffTold(START, ops, n);
  }

  /** A service is looked up, its owner changes, and only then the answer comes. */
  lemma {:induction false} AnswerTooLate()
    ensures var ops := [LookupService("a"), OwnerChanged("a", ":1")];
            && RunFrom(START, ops)
            && Enabled(Exec(START, ops), OwnerAnswered("a", ":1"))
            && !AnswerExpected(Exec(START, ops).c, "a")
  {
    var ops := [LookupService("a"), OwnerChanged("a", ":1")];
    assert IsService("a") by { assert "a"[0] == 'a' && |BUS| > 1 == |"a"|; }
    var w1 := Step(START, ops[0]);
    var w2 := Step(w1, ops[1]);
    assert ops[1..][0] == ops[1] && ops[1..][1..] == [];
    assert RunFrom(w2, []) && Exec(w2, []) == w2;
    assert RunFrom(w1, ops[1..]) && Exec(w1, ops[1..]) == w2;
  }

  /** What a client sees after any run from a new connection: the index answers
      like the flat list, lists no empty remote, waiting replies have distinct
      serials, and no reply fires twice. */
  lemma {:induction false} RegistryAgrees(ops: seq<Op>, n: Name, s: Serial)
    requires RunFrom(START, ops)
    ensures var c, f := Exec(START, ops).c, FlatExec(Flatten(EMPTY), ops);
            && Find(c.remotes, n, s) == Search(f.entries, n, s)
            && NoEmptyRemote(c.remotes) && DistinctSerials(f.entries) && c.fired == f.fired
            && forall i, j :: 0 <= i < j < |f.fired| ==> f.fired[i].id != f.fired[j].id
  {
    hide RunFrom, Exec, FlatExec, Find, Search;
    assert Good(START) by { StartGood(); }
    EveryRun(START, ops);
    SerialsDistinct(Exec(START, ops));
    FindIsSearch(Exec(START, ops).c, n, s);
  }

  lemma {:induction false} StartGood()
    ensures Good(START)
  {
  }

  /** A reply that fires is one that was registered for the sender, and it never
      waits again. */
  lemma {:induction false} FiredIsWaiting(c: Conn, m: Msg)
    requires Inv(c) && Fire(c, m).fired != c.fired
    ensures var call := Fire(c, m).fired[|c.fired|];
            && Fire(c, m).fired == c.fired + [call]
            && call.id in c.replies && c.replies[call.id] == Entry(m.sender, m.replySerial.value)
            && call.error == (m.kind == MSG_ERROR) && !HasFired(c.fired, call.id)
            && Find(Fire(c, m).remotes, m.sender.value, m.replySerial.value).None?
  {
  }
}
