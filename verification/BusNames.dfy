/** Ownership of bus names: the queue of owners of each service, the list of
    services of each remote, and the signals that every change of owner emits.

    Two steps of the source miss what its own comment asks for. Each step takes
    a flag `repaired`: false is the code as written, true is the code with the
    scan of the queue testing the scanned entry, and with the replacing remote
    recording the service. */
module BusNames {
  import opened Bytes
  import opened Sequences

  /** A remote is known by its address. */
  type Remote = int
  type Name = string

  datatype Owner = Owner(remote: Remote, allowReplacement: bool)

  datatype Event =
    | NameOwnerChanged(name: Name, oldOwner: Option<Remote>, newOwner: Option<Remote>)
    | NameLost(remote: Remote, name: Name)
    | NameAcquired(remote: Remote, name: Name)

  /** adbus_Server: queues by name, service lists by remote, and the signals
      emitted so far. */
  datatype Server = Server(
    services: map<Name, seq<Owner>>, lists: map<Remote, seq<Name>>, events: seq<Event>)
  {
    /** The services that the remote lists */
    function ListOf(r: Remote): seq<Name> {
      if r in lists then lists[r] else []
    }

    predicate Owns(r: Remote, n: Name) {
      n in services && services[n] != [] && services[n][0].remote == r
    }
  }

  const EMPTY := Server(map[], map[], [])

  const SUCCESS: nat := 1
  const REQUEST_IN_QUEUE: nat := 2
  const REQUEST_FAILED: nat := 3
  const REQUEST_ALREADY_OWNER: nat := 4
  const RELEASE_INVALID_NAME: nat := 2
  const RELEASE_NOT_OWNER: nat := 3

  predicate AllowReplacement(flags: nat) { flags % 2 == 1 }
  predicate ReplaceExisting(flags: nat) { flags / 2 % 2 == 1 }
  predicate DoNotQueue(flags: nat) { flags / 4 % 2 == 1 }

  // ------------------------------------------------------------- the steps

  /** adbusI_serv_removeServiceFromRemote */
  function Unlist(s: Server, r: Remote, n: Name): Server {
    s.(lists := s.lists[r := RemoveFirst(s.ListOf(r), n)])
  }

  function List(s: Server, r: Remote, n: Name): Server {
    s.(lists := s.lists[r := s.ListOf(r) + [n]])
  }

  /** adbusI_serv_ownerchanged */
  function Emit(s: Server, n: Name, o: Option<Remote>, w: Option<Remote>): Server {
    s.(events := s.events + [NameOwnerChanged(n, o, w)]
                 + (if o.Some? then [NameLost(o.value, n)] else [])
                 + (if w.Some? then [NameAcquired(w.value, n)] else []))
  }

  /** The first entry of the remote in a queue, or the length of the queue. */
  function IndexOf(q: seq<Owner>, r: Remote): (i: nat)
    ensures i <= |q| && (i < |q| ==> q[i].remote == r)
    ensures forall j :: 0 <= j < i ==> q[j].remote != r
  {
    if q == [] then 0 else if q[0].remote == r then 0 else 1 + IndexOf(q[1..], r)
  }

  predicate Queued(q: seq<Owner>, r: Remote) {
    exists i :: 0 <= i < |q| && q[i].remote == r
  }

  /** Every live service has an owner. */
  predicate Live(s: Server) {
    forall n :: n in s.services ==> s.services[n] != []
  }

  /** The scan behind the head of the queue. As written it tests the head for
      every entry, and finds nothing. */
  function ScanFor(repaired: bool, q: seq<Owner>, r: Remote): (i: nat)
    requires q != [] && q[0].remote != r
    ensures 1 <= i <= |q| && (i < |q| ==> repaired && q[i].remote == r)
    ensures repaired && i == |q| ==> !Queued(q, r)
  {
    if repaired then 1 + IndexOf(q[1..], r) else |q|
  }

  /** adbusI_serv_releasename */
  function Release(repaired: bool, s: Server, r: Remote, n: Name): (res: (Server, nat))
    requires Live(s)
  {
    if n !in s.services then (s, RELEASE_INVALID_NAME)
    else
      var s1 := Unlist(s, r, n);
      var q := s.services[n];
      if q[0].remote == r then
        if |q| == 1 then
          (Emit(s1, n, Some(r), None).(services := s.services - {n}), SUCCESS)
        else
          (Emit(s1, n, Some(r), Some(q[1].remote)).(services := s.services[n := q[1..]]), SUCCESS)
      else
        var i := ScanFor(repaired, q, r);
        if i < |q| then
          (s1.(services := s.services[n := q[..i] + q[i + 1..]]), SUCCESS)
        else
          (s1, RELEASE_NOT_OWNER)
  }

  /** adbusI_serv_requestname */
  function Request(repaired: bool, s: Server, r: Remote, n: Name, flags: nat): (res: (Server, nat))
    requires Live(s)
  {
    var o := Owner(r, AllowReplacement(flags));
    if n !in s.services then
      (Emit(List(s, r, n).(services := s.services[n := [o]]), n, None, Some(r)), SUCCESS)
    else
      var q := s.services[n];
      if q[0].remote == r then
        (s.(services := s.services[n := q[0 := o]]), REQUEST_ALREADY_OWNER)
      else if ReplaceExisting(flags) && q[0].allowReplacement then
        (Replace(repaired, s, r, n, o), SUCCESS)
      else if !DoNotQueue(flags) then
        var i := IndexOf(q, r);
        if i < |q| then
          (s.(services := s.services[n := q[i := o]]), REQUEST_IN_QUEUE)
        else
          (List(s, r, n).(services := s.services[n := q + [o]]), REQUEST_IN_QUEUE)
      else
        (Release(repaired, s, r, n).0, REQUEST_FAILED)
  }

  /** The branch that replaces the owner */
  function Replace(repaired: bool, s: Server, r: Remote, n: Name, o: Owner): (res: Server)
    requires Live(s) && n in s.services && s.services[n][0].remote != r
  {
    var s1 := Release(repaired, s, r, n).0;
    var q := s1.services[n];
    var former := q[0].remote;
    var s2 := Unlist(s1, former, n).(services := s1.services[n := q[0 := o]]);
    Emit(if repaired then List(s2, r, n) else s2, n, Some(former), Some(r))
  }

  // ------------------------------------------------------------- the events

  /** Replaying the ownership signals: the owner of each name, or none when a
      signal names an old owner that was not the owner. */
  function Replay(events: seq<Event>): (r: Option<map<Name, Remote>>)
  {
    if events == [] then Some(map[])
    else
      var m :- Replay(events[..|events| - 1]);
      match events[|events| - 1]
      case NameOwnerChanged(n, o, w) =>
        if o != (if n in m then Some(m[n]) else None) then None
        else Some(if w.Some? then m[n := w.value] else m - {n})
      case NameLost(_, _) => Some(m)
      case NameAcquired(_, _) => Some(m)
  }

  /** NameAcquired signals less NameLost signals to a remote about a name */
  function Balance(events: seq<Event>, r: Remote, n: Name): (b: int)
  {
    if events == [] then 0
    else
      var e := events[|events| - 1];
      Balance(events[..|events| - 1], r, n)
      + (if e == NameAcquired(r, n) then 1 else 0) - (if e == NameLost(r, n) then 1 else 0)
  }

  lemma {:induction false} EmitEvents(s: Server, n: Name, o: Option<Remote>, w: Option<Remote>, m: map<Name, Remote>)
    requires Replay(s.events) == Some(m) && o == (if n in m then Some(m[n]) else None)
    ensures Replay(Emit(s, n, o, w).events) == Some(if w.Some? then m[n := w.value] else m - {n})
    ensures forall r, n' :: Balance(Emit(s, n, o, w).events, r, n')
                         == Balance(s.events, r, n') - (if n' == n && o == Some(r) then 1 else 0)
                                                     + (if n' == n && w == Some(r) then 1 else 0)
  {
    hide Replay, Balance;
    var e1 := s.events + [NameOwnerChanged(n, o, w)];
    var e2 := e1 + (if o.Some? then [NameLost(o.value, n)] else []);
    var e3 := e2 + (if w.Some? then [NameAcquired(w.value, n)] else []);
    Snoc(s.events, NameOwnerChanged(n, o, w));
    if o.Some? {
      Snoc(e1, NameLost(o.value, n));
    } else {
      assert e2 == e1;
    }
    if w.Some? {
      Snoc(e2, NameAcquired(w.value, n));
    } else {
      assert e3 == e2;
    }
  }

  /** One more signal */
  lemma {:induction false} Snoc(events: seq<Event>, e: Event)
    requires Replay(events).Some?
    ensures var m := Replay(events).value;
            Replay(events + [e]) == match e
              case NameOwnerChanged(n, o, w) =>
                if o != (if n in m then Some(m[n]) else None) then None
                else Some(if w.Some? then m[n := w.value] else m - {n})
              case NameLost(_, _) => Some(m)
              case NameAcquired(_, _) => Some(m)
    ensures forall r, n :: Balance(events + [e], r, n)
                        == Balance(events, r, n) + (if e == NameAcquired(r, n) then 1 else 0)
                                                 - (if e == NameLost(r, n) then 1 else 0)
  {
    assert (events + [e])[..|events|] == events;
  }

  // --------------------------------------------------------- the invariants

  /** The owner of each name */
  ghost function Owners(s: Server): map<Name, Remote>
    requires Live(s)
  {
    map n | n in s.services :: s.services[n][0].remote
  }

  /** A service that a remote lists is live, is listed once, and has the remote
      in its queue. */
  ghost predicate Listed(s: Server) {
    && (forall r :: NoDup(s.ListOf(r)))
    && (forall r, n :: n in s.ListOf(r) ==> n in s.services && Queued(s.services[n], r))
  }

  /** The signals tell exactly who owns what. */
  ghost predicate Announced(s: Server)
    requires Live(s)
  {
    && Replay(s.events) == Some(Owners(s))
    && (forall r, n :: Balance(s.events, r, n) == if s.Owns(r, n) then 1 else 0)
  }

  ghost predicate Inv(s: Server) {
    Live(s) && Listed(s) && Announced(s)
  }

  lemma {:induction false} UnlistListed(s: Server, r: Remote, n: Name)
    requires Listed(s)
    ensures Listed(Unlist(s, r, n))
    ensures forall r', n' :: n' in Unlist(s, r, n).ListOf(r') <==> n' in s.ListOf(r') && !(r' == r && n' == n)
  {
    RemoveFirstFacts(s.ListOf(r), n);
    var s1 := Unlist(s, r, n);
    assert forall r' :: r' != r ==> s1.ListOf(r') == s.ListOf(r');
  }

  // ------------------------------------------- the invariants are kept

  /** Names keep their links when one queue changes and no lister of that name
      leaves the queue. */
  lemma {:induction false} QueueChanged(s: Server, t: Server, n: Name)
    requires Listed(s) && t.lists == s.lists
    requires forall n' :: n' in s.services && n' != n ==> n' in t.services && t.services[n'] == s.services[n']
    requires forall r :: n in s.ListOf(r) ==> n in t.services && Queued(t.services[n], r)
    ensures Listed(t)
  {
    forall r, n' | n' in t.ListOf(r)
      ensures n' in t.services && Queued(t.services[n'], r)
    {
      assert t.ListOf(r) == s.ListOf(r);
    }
    forall r
      ensures NoDup(t.ListOf(r))
    {
      assert t.ListOf(r) == s.ListOf(r);
    }
  }

  /** Without a change of owner the signals stay right. */
  lemma {:induction false} SameOwners(s: Server, t: Server)
    requires Live(s) && Announced(s) && Live(t) && t.events == s.events
    requires t.services.Keys == s.services.Keys
    requires forall n :: n in s.services ==> t.services[n][0].remote == s.services[n][0].remote
    ensures Announced(t)
  {
    assert Owners(t) == Owners(s);
    forall r, n
      ensures t.Owns(r, n) == s.Owns(r, n)
    {
    }
  }

  /** A change of owner that is announced keeps the signals right. */
  lemma {:induction false} OwnerMoves(s: Server, t: Server, n: Name, o: Option<Remote>, w: Option<Remote>)
    requires Live(s) && Announced(s) && Live(t)
    requires o == (if n in s.services then Some(s.services[n][0].remote) else None)
    requires w == (if n in t.services then Some(t.services[n][0].remote) else None)
    requires t.events == Emit(s, n, o, w).events
    requires forall n' :: n' != n ==> (n' in t.services <==> n' in s.services)
    requires forall n' :: n' in s.services && n' != n ==> t.services[n'] == s.services[n']
    ensures Announced(t)
  {
    hide Replay, Balance, Emit;
    var m := Owners(s);
    EmitEvents(s, n, o, w, m);
    assert Owners(t) == if w.Some? then m[n := w.value] else m - {n};
    forall r, n'
      ensures Balance(t.events, r, n') == if t.Owns(r, n') then 1 else 0
    {
      if n' != n {
        assert t.Owns(r, n') == s.Owns(r, n');
      } else {
        assert t.Owns(r, n) <==> w == Some(r);
        assert s.Owns(r, n) <==> o == Some(r);
      }
    }
  }

  lemma {:induction false} ReleaseKeeps(repaired: bool, s: Server, r: Remote, n: Name)
    requires Inv(s)
    ensures Inv(Release(repaired, s, r, n).0)
    ensures forall r', n' :: n' in Release(repaired, s, r, n).0.ListOf(r') <==> n' in s.ListOf(r') && !(r' == r && n' == n)
  {
    hide Replay, Balance, Emit, RemoveFirst, Announced, Unlist, Release;
    if n !in s.services {
      ReleaseUnknown(repaired, s, r, n);
    } else {
      var t := Release(repaired, s, r, n).0;
      var s1 := Unlist(s, r, n);
      UnlistListed(s, r, n);
      ReleaseParts(repaired, s, r, n);
      forall r' | n in s1.ListOf(r')
        ensures n in t.services && Queued(t.services[n], r')
      {
        ListerStays(repaired, s, r, n, r');
      }
      QueueChanged(s1, t, n);
      var q := s.services[n];
      if q[0].remote == r {
        OwnerMoves(s, t, n, Some(r), if |q| == 1 then None else Some(q[1].remote));
      } else {
        SameOwners(s, t);
      }
    }
  }

  lemma {:induction false} ReleaseUnknown(repaired: bool, s: Server, r: Remote, n: Name)
    requires Live(s) && n !in s.services
    ensures Release(repaired, s, r, n).0 == s
  {
  }

  /** What a release changes, and what it leaves */
  lemma {:induction false} ReleaseParts(repaired: bool, s: Server, r: Remote, n: Name)
    requires Live(s) && n in s.services
    ensures var (q, t) := (s.services[n], Release(repaired, s, r, n).0);
            && Live(t) && t.lists == Unlist(s, r, n).lists && Unlist(s, r, n).services == s.services
            && (forall n' :: n' != n ==> (n' in t.services <==> n' in s.services))
            && (forall n' :: n' in s.services && n' != n ==> t.services[n'] == s.services[n'])
            && (q[0].remote == r ==>
                  && (n in t.services <==> |q| > 1) && (|q| > 1 ==> t.services[n] == q[1..])
                  && t.events == Emit(s, n, Some(r), if |q| == 1 then None else Some(q[1].remote)).events)
            && (q[0].remote != r ==> n in t.services && t.services[n][0] == q[0] && t.events == s.events)
  {
    hide RemoveFirst;
  }

  /** A remote that lists the name, other than the one that releases it, stays
      in the queue. */
  lemma {:induction false} ListerStays(repaired: bool, s: Server, r: Remote, n: Name, r': Remote)
    requires Inv(s) && n in s.services && r' != r && n in s.ListOf(r')
    ensures var t := Release(repaired, s, r, n).0;
            n in t.services && Queued(t.services[n], r')
  {
    hide Announced;
    var q := s.services[n];
    var i :| 0 <= i < |q| && q[i].remote == r';
    var t := Release(repaired, s, r, n).0;
    if q[0].remote == r {
      assert q[1..][i - 1].remote == r';
    } else {
      var k := ScanFor(repaired, q, r);
      if k < |q| {
        var q' := q[..k] + q[k + 1..];
        if i < k {
          assert q'[i].remote == r';
        } else {
          assert q'[i - 1].remote == r';
        }
      } else {
        assert q[i].remote == r';
      }
    }
  }

  lemma {:induction false} ListListed(s: Server, r: Remote, n: Name)
    requires Listed(s) && n !in s.ListOf(r) && n in s.services && Queued(s.services[n], r)
    ensures Listed(List(s, r, n))
    ensures forall r', n' :: n' in List(s, r, n).ListOf(r') <==> n' in s.ListOf(r') || (r' == r && n' == n)
  {
    var t := List(s, r, n);
    assert forall r' :: r' != r ==> t.ListOf(r') == s.ListOf(r');
    assert t.ListOf(r) == s.ListOf(r) + [n];
  }

  lemma {:induction false} SameLinks(s: Server, t: Server)
    requires Listed(s) && t.services == s.services && t.lists == s.lists
    ensures Listed(t)
  {
    assert forall r :: t.ListOf(r) == s.ListOf(r);
  }

  lemma {:induction false} RequestKeeps(repaired: bool, s: Server, r: Remote, n: Name, flags: nat)
    requires Inv(s)
    ensures Inv(Request(repaired, s, r, n, flags).0)
  {
    hide Replay, Balance, AllowReplacement, ReplaceExisting, DoNotQueue, Listed, Announced;
    var o := Owner(r, AllowReplacement(flags));
    var t := Request(repaired, s, r, n, flags).0;
    if n !in s.services {
      NewService(s, r, n, o);
    } else {
      var q := s.services[n];
      if q[0].remote == r {
        EntryUpdated(s, n, 0, o);
      } else if ReplaceExisting(flags) && q[0].allowReplacement {
        ReplaceKeeps(repaired, s, r, n, o);
      } else if !DoNotQueue(flags) {
        if IndexOf(q, r) < |q| {
          EntryUpdated(s, n, IndexOf(q, r), o);
        } else {
          EntryAppended(s, r, n, o);
        }
      } else {
        ReleaseKeeps(repaired, s, r, n);
      }
    }
  }

  lemma {:induction false} NewService(s: Server, r: Remote, n: Name, o: Owner)
    requires Inv(s) && n !in s.services && o.remote == r
    ensures Inv(Emit(List(s, r, n).(services := s.services[n := [o]]), n, None, Some(r)))
  {
    hide Replay, Balance;
    var t := s.(services := s.services[n := [o]]);
    assert n !in s.ListOf(r) && t.ListOf(r) == s.ListOf(r);
    QueueChanged(s, t, n);
    assert t.services[n][0].remote == r;
    ListListed(t, r, n);
    var u := Emit(List(s, r, n).(services := t.services), n, None, Some(r));
    OwnerMoves(s, u, n, None, Some(r));
    SameLinks(List(t, r, n), u);
  }

  lemma {:induction false} EntryUpdated(s: Server, n: Name, i: nat, o: Owner)
    requires Inv(s) && n in s.services && i < |s.services[n]| && s.services[n][i].remote == o.remote
    ensures Inv(s.(services := s.services[n := s.services[n][i := o]]))
  {
    hide Replay, Balance;
    var q := s.services[n];
    var t := s.(services := s.services[n := q[i := o]]);
    forall r' | n in s.ListOf(r')
      ensures Queued(t.services[n], r')
    {
      var k :| 0 <= k < |q| && q[k].remote == r';
      assert q[i := o][k].remote == r';
    }
    QueueChanged(s, t, n);
    SameOwners(s, t);
  }

  lemma {:induction false} EntryAppended(s: Server, r: Remote, n: Name, o: Owner)
    requires Inv(s) && n in s.services && o.remote == r && IndexOf(s.services[n], r) == |s.services[n]|
    ensures Inv(List(s, r, n).(services := s.services[n := s.services[n] + [o]]))
  {
    hide Replay, Balance;
    var q := s.services[n];
    var t := s.(services := s.services[n := q + [o]]);
    forall r' | n in s.ListOf(r')
      ensures Queued(t.services[n], r')
    {
      var k :| 0 <= k < |q| && q[k].remote == r';
      assert (q + [o])[k].remote == r';
    }
    assert n !in s.ListOf(r) && t.ListOf(r) == s.ListOf(r);
    QueueChanged(s, t, n);
    assert (q + [o])[|q|].remote == r;
    ListListed(t, r, n);
    SameOwners(s, List(t, r, n));
  }

  /** What the release at the start of a replacement leaves: the same owner, no
      listing of the remote, no signal. */
  lemma {:induction false} ReplaceRelease(repaired: bool, s: Server, r: Remote, n: Name)
    requires Inv(s) && n in s.services && s.services[n][0].remote != r
    ensures var s1 := Release(repaired, s, r, n).0;
            && Inv(s1) && s1.events == s.events && n in s1.services
            && s1.services[n][0] == s.services[n][0] && n !in s1.ListOf(r)
            && (forall n' :: n' != n ==> (n' in s1.services <==> n' in s.services))
            && (forall n' :: n' in s.services && n' != n ==> s1.services[n'] == s.services[n'])
  {
    hide Replay, Balance, Listed, Announced;
    ReleaseKeeps(repaired, s, r, n);
  }

  lemma {:induction false} ReplaceKeeps(repaired: bool, s: Server, r: Remote, n: Name, o: Owner)
    requires Inv(s) && n in s.services && s.services[n][0].remote != r && o.remote == r
    ensures Inv(Replace(repaired, s, r, n, o))
  {
    hide Replay, Balance, Release, Listed, Emit;
    ReplaceRelease(repaired, s, r, n);
    var s1 := Release(repaired, s, r, n).0;
    var t := Replace(repaired, s, r, n, o);
    ReplaceLinks(repaired, s1, r, n, o);
    var former := s1.services[n][0].remote;
    EmitDepends(s, t, repaired, s1, r, n, o);
    OwnerMoves(s, t, n, Some(former), Some(r));
  }

  lemma {:induction false} EmitDepends(s: Server, t: Server, repaired: bool, s1: Server, r: Remote, n: Name, o: Owner)
    requires Inv(s) && n in s.services && s.services[n][0].remote != r
    requires s1 == Release(repaired, s, r, n).0 && s1.events == s.events && t == Replace(repaired, s, r, n, o)
    requires n in s1.services && s1.services[n] != []
    ensures t.events == Emit(s, n, Some(s1.services[n][0].remote), Some(r)).events
    ensures t.services == s1.services[n := s1.services[n][0 := o]]
  {
    hide Release, Replay, Balance, Listed, Announced;
  }

  /** The links after a replacement */
  lemma {:induction false} ReplaceLinks(repaired: bool, s1: Server, r: Remote, n: Name, o: Owner)
    requires Listed(s1) && n in s1.services && s1.services[n] != [] && n !in s1.ListOf(r) && o.remote == r
    ensures var q := s1.services[n];
            var former := q[0].remote;
            var t := Unlist(s1, former, n).(services := s1.services[n := q[0 := o]]);
            var v := Emit(if repaired then List(t, r, n) else t, n, Some(former), Some(r));
            && Listed(v)
            && forall r', n' :: n' in v.ListOf(r') <==>
                 (n' in s1.ListOf(r') && !(r' == former && n' == n)) || (repaired && r' == r && n' == n)
  {
    hide Emit;
    var q := s1.services[n];
    var former := q[0].remote;
    var u := Unlist(s1, former, n);
    UnlistListed(s1, former, n);
    var t := u.(services := s1.services[n := q[0 := o]]);
    forall r' | n in u.ListOf(r')
      ensures Queued(t.services[n], r')
    {
      var k :| 0 <= k < |q| && q[k].remote == r';
      assert q[0 := o][k].remote == r';
    }
    QueueChanged(u, t, n);
    var v := t;
    if repaired {
      assert q[0 := o][0].remote == r;
      assert t.ListOf(r) == u.ListOf(r);
      ListListed(t, r, n);
      v := List(t, r, n);
    }
    EmitLinks(v, n, Some(former), Some(r));
    SameLinks(v, Emit(v, n, Some(former), Some(r)));
    assert forall r' :: Emit(v, n, Some(former), Some(r)).ListOf(r') == v.ListOf(r');
    assert forall r' :: t.ListOf(r') == u.ListOf(r');
  }

  lemma {:induction false} EmitLinks(s: Server, n: Name, o: Option<Remote>, w: Option<Remote>)
    ensures Emit(s, n, o, w).services == s.services && Emit(s, n, o, w).lists == s.lists
  {
  }

  // --------------------------------------------------- disconnect and runs

  /** adbus_remote_disconnect: release the first service listed until none is */
  function Disconnect(repaired: bool, s: Server, r: Remote): (t: Server)
    requires Inv(s)
    ensures Inv(t) && t.ListOf(r) == []
    decreases |s.ListOf(r)|
  {
    if s.ListOf(r) == [] then
      DropRemote(s, r);
      s.(lists := s.lists - {r})
    else
      ReleaseFirst(repaired, s, r);
      Disconnect(repaired, Release(repaired, s, r, s.ListOf(r)[0]).0, r)
  }

  lemma {:induction false} DropRemote(s: Server, r: Remote)
    requires Inv(s) && s.ListOf(r) == []
    ensures Inv(s.(lists := s.lists - {r})) && s.(lists := s.lists - {r}).ListOf(r) == []
  {
    hide Replay, Balance;
    var t := s.(lists := s.lists - {r});
    assert forall r' :: t.ListOf(r') == s.ListOf(r');
    assert Listed(t);
    SameOwners(s, t);
  }

  lemma {:induction false} ReleaseFirst(repaired: bool, s: Server, r: Remote)
    requires Inv(s) && s.ListOf(r) != []
    ensures var t := Release(repaired, s, r, s.ListOf(r)[0]).0;
            Inv(t) && t.ListOf(r) == s.ListOf(r)[1..]
  {
    hide Replay, Balance, Announced;
    var n := s.ListOf(r)[0];
    assert n in s.ListOf(r);
    ReleaseKeeps(repaired, s, r, n);
  }

  datatype Op =
    | RequestName(r: Remote, n: Name, flags: nat)
    | ReleaseName(r: Remote, n: Name)
    | Leave(r: Remote)

  function Step(repaired: bool, s: Server, op: Op): (t: Server)
    requires Inv(s)
    ensures Inv(t)
  {
    match op
    case RequestName(r, n, flags) =>
      RequestKeeps(repaired, s, r, n, flags);
      Request(repaired, s, r, n, flags).0
    case ReleaseName(r, n) =>
      ReleaseKeeps(repaired, s, r, n);
      Release(repaired, s, r, n).0
    case Leave(r) =>
      Disconnect(repaired, s, r)
  }

  function Exec(repaired: bool, s: Server, ops: seq<Op>): (t: Server)
    requires Inv(s)
    ensures Inv(t)
    decreases ops
  {
    if ops == [] then s else Exec(repaired, Step(repaired, s, ops[0]), ops[1..])
  }

  lemma {:induction false} EmptyInv()
    ensures Inv(EMPTY)
  {
    assert Owners(EMPTY) == map[];
  }

  /** Every ownership signal names the owner that the signals before it leave. */
  ghost predicate OldOwnersRight(events: seq<Event>) {
    forall k :: 0 <= k < |events| && events[k].NameOwnerChanged? ==>
      var m := Replay(events[..k]);
      m.Some? && events[k].oldOwner == (if events[k].name in m.value then Some(m.value[events[k].name]) else None)
  }

  lemma {:induction false} ReplayedOldOwners(events: seq<Event>)
    requires Replay(events).Some?
    ensures OldOwnersRight(events)
    decreases |events|
  {
    if events != [] {
      var n := |events| - 1;
      ReplayedOldOwners(events[..n]);
      forall k | 0 <= k < |events| && events[k].NameOwnerChanged?
        ensures Replay(events[..k]).Some?
        ensures var m := Replay(events[..k]).value;
                events[k].oldOwner == (if events[k].name in m then Some(m[events[k].name]) else None)
      {
        if k < n {
          assert events[..n][k] == events[k] && events[..n][..k] == events[..k];
        }
      }
    }
  }

  /** Over every run, as written or repaired: replaying the signals gives the
      head of every queue, each signal names the owner just before it, the
      acquired and lost signals of a remote balance to what it owns, no queue is
      empty and no list names a dead service. */
  lemma {:induction false} EveryRun(repaired: bool, ops: seq<Op>)
    ensures Inv(EMPTY)
    ensures var s := Exec(repaired, EMPTY, ops);
            && Replay(s.events) == Some(map n | n in s.services :: s.services[n][0].remote)
            && OldOwnersRight(s.events)
            && (forall r, n :: Balance(s.events, r, n) == if s.Owns(r, n) then 1 else 0)
            && (forall n :: n in s.services ==> s.services[n] != [])
            && (forall r, n :: n in s.ListOf(r) ==> n in s.services && Queued(s.services[n], r))
            && (forall r :: NoDup(s.ListOf(r)))
  {
    EmptyInv();
    hide Exec, Replay, Balance, OldOwnersRight;
    var s := Exec(repaired, EMPTY, ops);
    assert Inv(s);
    ReplayedOldOwners(s.events);
  }

  // ----------------------------------------------------- two-way links

  predicate NoRemoteTwice(q: seq<Owner>) {
    forall i, j :: 0 <= i < j < |q| ==> q[i].remote != q[j].remote
  }

  /** The links as the comment of adbusI_serv_releasename describes them: a
      remote lists a service exactly when it is queued for it, once. */
  ghost predicate Linked(s: Server) {
    && (forall n :: n in s.services ==> NoRemoteTwice(s.services[n]))
    && (forall r, n :: n in s.services && Queued(s.services[n], r) ==> n in s.ListOf(r))
  }

  /** The remote waits in the queue behind the owner. */
  predicate Waits(s: Server, r: Remote, n: Name) {
    n in s.services && s.services[n] != [] && s.services[n][0].remote != r && Queued(s.services[n], r)
  }

  lemma {:induction false} DropEntry(q: seq<Owner>, k: nat)
    requires k < |q| && NoRemoteTwice(q)
    ensures var q' := q[..k] + q[k + 1..];
            && NoRemoteTwice(q')
            && forall r :: Queued(q', r) <==> Queued(q, r) && r != q[k].remote
  {
    var q' := q[..k] + q[k + 1..];
    forall r
      ensures Queued(q', r) <==> Queued(q, r) && r != q[k].remote
    {
      if Queued(q', r) {
        var i :| 0 <= i < |q'| && q'[i].remote == r;
        assert q[if i < k then i else i + 1].remote == r;
      }
      if Queued(q, r) && r != q[k].remote {
        var i :| 0 <= i < |q| && q[i].remote == r;
        assert q'[if i < k then i else i - 1].remote == r;
      }
    }
  }

  /** A release keeps the links in both directions; as written, exactly unless
      the remote waits in the queue. */
  lemma {:induction false} ReleaseLinksIff(repaired: bool, s: Server, r: Remote, n: Name)
    requires Inv(s) && Linked(s)
    ensures Linked(Release(repaired, s, r, n).0) <==> repaired || !Waits(s, r, n)
    ensures repaired ==> !(n in Release(repaired, s, r, n).0.services && Queued(Release(repaired, s, r, n).0.services[n], r))
  {
    hide Replay, Balance, Announced, Listed, Emit, Unlist, Linked;
    ReleaseKeeps(repaired, s, r, n);
    if n in s.services {
      var q := s.services[n];
      var t := Release(repaired, s, r, n).0;
      LinkedQueue(s, n);
      ReleaseQueue(repaired, s, r, n);
      if !repaired && Waits(s, r, n) {
        LinksBroken(t, r, n);
      } else {
        ReleasedLinks(s, t, r, n);
      }
    }
  }

  lemma {:induction false} LinkedQueue(s: Server, n: Name)
    requires Linked(s) && n in s.services
    ensures NoRemoteTwice(s.services[n])
  {
  }

  lemma {:induction false} LinksBroken(t: Server, r: Remote, n: Name)
    requires n in t.services && Queued(t.services[n], r) && n !in t.ListOf(r)
    ensures !Linked(t)
  {
  }

  /** The queue that a release leaves */
  lemma {:induction false} ReleaseQueue(repaired: bool, s: Server, r: Remote, n: Name)
    requires Live(s) && n in s.services && NoRemoteTwice(s.services[n])
    ensures var t := Release(repaired, s, r, n).0;
            && (forall n' :: n' in t.services && n' != n ==> n' in s.services && t.services[n'] == s.services[n'])
            && (n in t.services ==> NoRemoteTwice(t.services[n]))
            && (!repaired && Waits(s, r, n) ==> n in t.services && Queued(t.services[n], r))
            && (repaired || !Waits(s, r, n) ==>
                  n in t.services ==> forall r' :: Queued(t.services[n], r') ==> Queued(s.services[n], r') && r' != r)
  {
    hide Emit, RemoveFirst;
    var q := s.services[n];
    if q[0].remote == r {
      assert q[..0] + q[1..] == q[1..];
      DropEntry(q, 0);
    } else {
      var i := ScanFor(repaired, q, r);
      if i < |q| {
        DropEntry(q, i);
      }
    }
  }

  lemma {:induction false} ReleasedLinks(s: Server, t: Server, r: Remote, n: Name)
    requires Linked(s) && n in s.services
    requires forall r', n' :: n' in t.ListOf(r') <==> n' in s.ListOf(r') && !(r' == r && n' == n)
    requires forall n' :: n' in t.services && n' != n ==> n' in s.services && t.services[n'] == s.services[n']
    requires n in t.services ==> NoRemoteTwice(t.services[n])
    requires n in t.services ==> forall r' :: Queued(t.services[n], r') ==> Queued(s.services[n], r') && r' != r
    ensures Linked(t)
  {
  }

  /** The request that takes the place of an owner who allows it */
  predicate Replaces(s: Server, r: Remote, n: Name, flags: nat) {
    && n in s.services && s.services[n] != [] && s.services[n][0].remote != r
    && ReplaceExisting(flags) && s.services[n][0].allowReplacement
  }

  /** A request keeps the links in both directions; as written, exactly unless it
      replaces the owner, or gives up a place in the queue. */
  lemma {:induction false} RequestLinksIff(repaired: bool, s: Server, r: Remote, n: Name, flags: nat)
    requires Inv(s) && Linked(s)
    ensures Linked(Request(repaired, s, r, n, flags).0)
       <==> repaired || !(Replaces(s, r, n, flags) || (DoNotQueue(flags) && Waits(s, r, n)))
  {
    hide Replay, Balance, Announced, AllowReplacement, ReplaceExisting, DoNotQueue, Listed;
    var o := Owner(r, AllowReplacement(flags));
    var t := Request(repaired, s, r, n, flags).0;
    if n !in s.services {
      NewServiceLinks(s, r, n, o);
    } else {
      var q := s.services[n];
      if q[0].remote == r {
        UpdatedLinks(s, n, 0, o);
      } else if ReplaceExisting(flags) && q[0].allowReplacement {
        ReplaceLinksIff(repaired, s, r, n, o);
      } else if !DoNotQueue(flags) {
        if IndexOf(q, r) < |q| {
          UpdatedLinks(s, n, IndexOf(q, r), o);
        } else {
          AppendedLinks(s, r, n, o);
        }
      } else {
        ReleaseLinksIff(repaired, s, r, n);
      }
    }
  }

  lemma {:induction false} NewServiceLinks(s: Server, r: Remote, n: Name, o: Owner)
    requires Linked(s) && n !in s.services && o.remote == r
    ensures Linked(Emit(List(s, r, n).(services := s.services[n := [o]]), n, None, Some(r)))
  {
    var t := Emit(List(s, r, n).(services := s.services[n := [o]]), n, None, Some(r));
    assert forall r' :: r' != r ==> t.ListOf(r') == s.ListOf(r');
    assert t.ListOf(r) == s.ListOf(r) + [n];
  }

  lemma {:induction false} UpdatedLinks(s: Server, n: Name, i: nat, o: Owner)
    requires Linked(s) && n in s.services && i < |s.services[n]| && s.services[n][i].remote == o.remote
    ensures Linked(s.(services := s.services[n := s.services[n][i := o]]))
  {
    var q := s.services[n];
    var t := s.(services := s.services[n := q[i := o]]);
    forall r | Queued(t.services[n], r)
      ensures Queued(q, r)
    {
      var k :| 0 <= k < |q| && q[i := o][k].remote == r;
      assert q[k].remote == r;
    }
    assert forall r :: t.ListOf(r) == s.ListOf(r);
  }

  lemma {:induction false} AppendedLinks(s: Server, r: Remote, n: Name, o: Owner)
    requires Linked(s) && n in s.services && o.remote == r && IndexOf(s.services[n], r) == |s.services[n]|
    ensures Linked(List(s, r, n).(services := s.services[n := s.services[n] + [o]]))
  {
    var q := s.services[n];
    var t := List(s, r, n).(services := s.services[n := q + [o]]);
    assert forall r' :: r' != r ==> t.ListOf(r') == s.ListOf(r');
    assert t.ListOf(r) == s.ListOf(r) + [n];
    forall r' | Queued(q + [o], r')
      ensures r' == r || Queued(q, r')
    {
      var k :| 0 <= k < |q + [o]| && (q + [o])[k].remote == r';
      if k < |q| {
        assert q[k].remote == r';
      }
    }
  }

  lemma {:induction false} ReplaceLinksIff(repaired: bool, s: Server, r: Remote, n: Name, o: Owner)
    requires Inv(s) && Linked(s) && n in s.services && s.services[n][0].remote != r && o.remote == r
    ensures Linked(Replace(repaired, s, r, n, o)) <==> repaired
  {
    hide Replay, Balance, Release, Listed, Emit, Announced;
    ReplaceRelease(repaired, s, r, n);
    var s1 := Release(repaired, s, r, n).0;
    var t := Replace(repaired, s, r, n, o);
    ReplaceLinks(repaired, s1, r, n, o);
    EmitDepends(s, t, repaired, s1, r, n, o);
    assert t.services[n][0].remote == r;
    assert Queued(t.services[n], r);
    if repaired {
      ReleaseLinksIff(repaired, s, r, n);
      ReplacedHead(s1, t, r, n, o);
    } else {
      assert n !in t.ListOf(r);
    }
  }

  lemma {:induction false} ReplacedHead(s1: Server, t: Server, r: Remote, n: Name, o: Owner)
    requires Linked(s1) && n in s1.services && s1.services[n] != [] && o.remote == r && !Queued(s1.services[n], r)
    requires t.services == s1.services[n := s1.services[n][0 := o]]
    requires forall r', n' :: n' in t.ListOf(r') <==>
               (n' in s1.ListOf(r') && !(r' == s1.services[n][0].remote && n' == n)) || (r' == r && n' == n)
    ensures Linked(t)
  {
    var q := s1.services[n];
    forall r' | Queued(q[0 := o], r')
      ensures r' == r || (Queued(q, r') && r' != q[0].remote)
    {
      var k :| 0 <= k < |q| && q[0 := o][k].remote == r';
      if k > 0 {
        assert q[k].remote == r';
      }
    }
    var q' := q[0 := o];
    forall i, j | 0 <= i < j < |q'|
      ensures q'[i].remote != q'[j].remote
    {
      assert q[j].remote != r;
    }
  }

  /** After a disconnect of the repaired code no queue mentions the remote, and
      the links are still right. */
  lemma {:induction false} DisconnectLinks(s: Server, r: Remote)
    requires Inv(s) && Linked(s)
    ensures var t := Disconnect(true, s, r);
            Linked(t) && forall n :: n in t.services ==> !Queued(t.services[n], r)
    decreases |s.ListOf(r)|
  {
    hide Replay, Balance, Announced;
    if s.ListOf(r) == [] {
      var t := s.(lists := s.lists - {r});
      assert forall r' :: t.ListOf(r') == s.ListOf(r');
    } else {
      ReleaseFirst(true, s, r);
      ReleaseLinksIff(true, s, r, s.ListOf(r)[0]);
      DisconnectLinks(Release(true, s, r, s.ListOf(r)[0]).0, r);
    }
  }

  /** If the remote is queued for the name at all, it lists it, owns it, and is not
      queued for it again. */
  predicate OnlyOwns(s: Server, r: Remote, n: Name) {
    n in s.services && s.services[n] != [] && Queued(s.services[n], r) ==>
      n in s.ListOf(r) && s.services[n][0].remote == r && !Queued(s.services[n][1..], r)
  }

  ghost predicate Gone(s: Server, r: Remote) {
    forall n :: n in s.services ==> !Queued(s.services[n], r)
  }

  /** As written, no queue mentions a remote that has left if and only if it was
      queued only for names that it owned and listed, once each. */
  lemma {:induction false} DisconnectGoneIff(s: Server, r: Remote)
    requires Inv(s)
    ensures Gone(Disconnect(false, s, r), r) <==> forall n :: n in s.services ==> OnlyOwns(s, r, n)
    decreases |s.ListOf(r)|
  {
    hide Replay, Balance, Announced, Release, Listed, Queued;
    assert Live(s) by { LiveOf(s); }
    if s.ListOf(r) != [] {
      var n0 := s.ListOf(r)[0];
      var t := Release(false, s, r, n0).0;
      ReleaseFirst(false, s, r);
      ReleaseKeeps(false, s, r, n0);
      assert n0 in s.ListOf(r);
      forall n
        ensures (n in s.services ==> OnlyOwns(s, r, n)) <==> (n in t.services ==> OnlyOwns(t, r, n))
      {
        LeavingStep(s, r, n0, n);
      }
      DisconnectGoneIff(t, r);
    }
  }

  lemma {:induction false} LiveOf(s: Server)
    requires Inv(s)
    ensures Live(s)
  {
  }

  /** What a release in the disconnect as written does to one name */
  lemma {:induction false} LeavingStep(s: Server, r: Remote, n0: Name, n: Name)
    requires Inv(s) && n0 in s.ListOf(r)
    ensures var t := Release(false, s, r, n0).0;
            (n in s.services ==> OnlyOwns(s, r, n)) <==> (n in t.services ==> OnlyOwns(t, r, n))
  {
    hide Replay, Balance, Announced, Emit, RemoveFirst, Unlist, Queued;
    ReleaseKeeps(false, s, r, n0);
    ListedQueued(s, r, n0);
    AsWrittenQueue(s, r, n0);
  }

  lemma {:induction false} ListedQueued(s: Server, r: Remote, n: Name)
    requires Inv(s) && n in s.ListOf(r)
    ensures n in s.services && Queued(s.services[n], r)
  {
    hide Replay, Balance, Announced;
  }

  /** The queues that a release as written leaves */
  lemma {:induction false} AsWrittenQueue(s: Server, r: Remote, n: Name)
    requires Live(s) && n in s.services
    ensures var (q, t) := (s.services[n], Release(false, s, r, n).0);
            && (forall n' :: n' != n ==> (n' in t.services <==> n' in s.services))
            && (forall n' :: n' != n && n' in t.services ==> t.services[n'] == s.services[n'])
            && (q[0].remote != r ==> n in t.services && t.services[n] == q)
            && (q[0].remote == r && n in t.services ==> t.services[n] == q[1..])
            && (q[0].remote == r && n !in t.services ==> !Queued(q[1..], r))
  {
    hide RemoveFirst;
  }

  /** As written, a disconnect keeps the links in both directions if and only if
      the remote waits in no queue. */
  lemma {:induction false} DisconnectLinksIff(s: Server, r: Remote)
    requires Inv(s) && Linked(s)
    ensures Linked(Disconnect(false, s, r)) <==> forall n :: n in s.services ==> !Waits(s, r, n)
  {
    hide Replay, Balance, Announced, Linked, Disconnect, OnlyOwns, Waits, Gone;
    DisconnectGoneIff(s, r);
    forall n | n in s.services
      ensures OnlyOwns(s, r, n) <==> !Waits(s, r, n)
    {
      LinkedOnlyOwns(s, r, n);
    }
    var t := Disconnect(false, s, r);
    if Linked(t) {
      NoneListed(t, r);
    }
    if forall n :: n in s.services ==> !Waits(s, r, n) {
      OwnerLeaves(s, r);
    }
  }

  lemma {:induction false} LinkedOnlyOwns(s: Server, r: Remote, n: Name)
    requires Linked(s) && Live(s) && n in s.services
    ensures OnlyOwns(s, r, n) <==> !Waits(s, r, n)
  {
    var q := s.services[n];
    assert forall i :: 0 <= i < |q[1..]| ==> q[1..][i] == q[i + 1];
    if q[0].remote == r {
      assert Queued(q, r);
    }
  }

  lemma {:induction false} NoneListed(t: Server, r: Remote)
    requires Linked(t) && t.ListOf(r) == []
    ensures Gone(t, r)
  {
  }

  /** A remote that owns every name it is queued for leaves the links right. */
  lemma {:induction false} OwnerLeaves(s: Server, r: Remote)
    requires Inv(s) && Linked(s) && forall n :: n in s.services ==> !Waits(s, r, n)
    ensures Linked(Disconnect(false, s, r))
    decreases |s.ListOf(r)|
  {
    hide Replay, Balance, Announced, Release, Listed, Linked, Waits;
    if s.ListOf(r) == [] {
      ForgetRemote(s, r);
    } else {
      var n0 := s.ListOf(r)[0];
      var t := Release(false, s, r, n0).0;
      assert n0 in s.ListOf(r);
      ReleaseFirst(false, s, r);
      ListedQueued(s, r, n0);
      ReleaseLinksIff(false, s, r, n0);
      assert Linked(t);
      forall n | n in t.services
        ensures !Waits(t, r, n)
      {
        StillOwns(s, r, n0, n);
      }
      OwnerLeaves(t, r);
    }
  }

  lemma {:induction false} ForgetRemote(s: Server, r: Remote)
    requires Linked(s) && s.ListOf(r) == []
    ensures Linked(s.(lists := s.lists - {r}))
  {
    assert forall r' :: s.(lists := s.lists - {r}).ListOf(r') == s.ListOf(r');
  }

  lemma {:induction false} StillOwns(s: Server, r: Remote, n0: Name, n: Name)
    requires Inv(s) && Linked(s) && n0 in s.ListOf(r) && n0 in s.services && !Waits(s, r, n0)
    requires n in s.services ==> !Waits(s, r, n)
    requires n in Release(false, s, r, n0).0.services
    ensures !Waits(Release(false, s, r, n0).0, r, n)
  {
    hide Replay, Balance, Announced, Emit, RemoveFirst, Unlist, Queued;
    AsWrittenQueue(s, r, n0);
    LinkedOnlyOwns(s, r, n0);
  }

  /** As written, a waiting remote that only leaves is still queued afterwards. */
  lemma {:induction false} LeavingBreaksLinks(n: Name)
    ensures Inv(EMPTY)
    ensures var s := Exec(false, EMPTY, [RequestName(1, n, 0), RequestName(2, n, 0)]);
            && Linked(s) && n in s.services && Waits(s, 2, n)
            && var t := Disconnect(false, s, 2);
            n in t.services && Queued(t.services[n], 2)
  {
    EmptyInv();
    hide Replay, Balance, Announced, Linked, Disconnect;
    TwoRequests(n);
    var s := Exec(false, EMPTY, [RequestName(1, n, 0), RequestName(2, n, 0)]);
    assert s.services[n][1].remote == 2;
    LeavesQueued(s, 2, n);
  }

  lemma {:induction false} TwoRequests(n: Name)
    requires Inv(EMPTY)
    ensures var s := Exec(false, EMPTY, [RequestName(1, n, 0), RequestName(2, n, 0)]);
            Linked(s) && n in s.services && s.services[n] == [Owner(1, false), Owner(2, false)] && s.ListOf(2) == [n]
  {
    hide Replay, Balance, Announced, Linked;
    var ops := [RequestName(1, n, 0), RequestName(2, n, 0)];
    assert Linked(EMPTY) by { EmptyLinked(); }
    RequestLinksIff(false, EMPTY, 1, n, 0);
    var s1 := Step(false, EMPTY, ops[0]);
    assert s1.services[n] == [Owner(1, false)] && s1.ListOf(1) == [n] && s1.ListOf(2) == [];
    RequestLinksIff(false, s1, 2, n, 0);
    var s2 := Step(false, s1, ops[1]);
    assert ops[1..][0] == ops[1] && ops[1..][1..] == [];
    assert Exec(false, s1, ops[1..]) == s2;
  }

  lemma {:induction false} EmptyLinked()
    ensures Linked(EMPTY)
  {
  }

  lemma {:induction false} LeavesQueued(s: Server, r: Remote, n: Name)
    requires Inv(s) && s.ListOf(r) == [n] && Waits(s, r, n)
    ensures var t := Disconnect(false, s, r); n in t.services && Queued(t.services[n], r)
  {
    hide Replay, Balance, Announced, Queued, Listed, Release;
    assert Live(s) by { LiveOf(s); }
    var t := Release(false, s, r, n).0;
    ReleaseFirst(false, s, r);
    AsWrittenQueue(s, r, n);
    assert Disconnect(false, t, r).services == t.services;
    assert s.ListOf(r)[0] == n;
  }

  /** Over every run of the repaired code the links are a two-way
      correspondence. */
  lemma {:induction false} EveryRepairedRun(s: Server, ops: seq<Op>)
    requires Inv(s) && Linked(s)
    ensures Linked(Exec(true, s, ops))
    decreases ops
  {
    hide Linked, Inv, Request, Release, Disconnect;
    if ops != [] {
      match ops[0] {
        case RequestName(r, n, flags) => RequestLinksIff(true, s, r, n, flags);
        case ReleaseName(r, n) => ReleaseLinksIff(true, s, r, n);
        case Leave(r) => DisconnectLinks(s, r);
      }
      EveryRepairedRun(Step(true, s, ops[0]), ops[1..]);
    }
  }

  /** A run of the code as written after which a remote is queued for a name that
      it does not list, and stays queued when it leaves: two remotes request a
      name, and the second releases it. */
  lemma {:induction false} AsWrittenBreaksLinks(n: Name)
    ensures Inv(EMPTY) && Linked(EMPTY)
    ensures var s := Exec(false, EMPTY, [RequestName(1, n, 0), RequestName(2, n, 0), ReleaseName(2, n), Leave(2)]);
            && n in s.services && Queued(s.services[n], 2) && n !in s.ListOf(2)
  {
    EmptyInv();
    hide Replay, Balance, Announced;
    var ops := [RequestName(1, n, 0), RequestName(2, n, 0), ReleaseName(2, n), Leave(2)];
    var s1 := Step(false, EMPTY, ops[0]);
    assert s1.services[n] == [Owner(1, false)] && s1.ListOf(1) == [n] && s1.ListOf(2) == [];
    var s2 := Step(false, s1, ops[1]);
    assert s2.services[n] == [Owner(1, false), Owner(2, false)] && s2.ListOf(2) == [n];
    var s3 := Step(false, s2, ops[2]);
    assert s3.services[n] == [Owner(1, false), Owner(2, false)] && s3.ListOf(2) == [];
    var s4 := Step(false, s3, ops[3]);
    assert s4.services == s3.services;
    assert s4.services[n][1].remote == 2;
    assert ops[1..][0] == ops[1] && ops[1..][1..][0] == ops[2] && ops[1..][1..][1..][0] == ops[3];
    assert ops[1..][1..][1..][1..] == [];
    assert Exec(false, s3, ops[1..][1..][1..]) == s4;
    assert Exec(false, s2, ops[1..][1..]) == s4;
    assert Exec(false, s1, ops[1..]) == s4;
  }
}
