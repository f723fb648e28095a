/** The order of the owner queues: what each request and release does to the queue,
    the return code and the signals, and who gets a name that is given up. */
module BusOrder {
  import opened Bytes
  import opened Sequences
  import opened BusNames

  function QueueOf(s: Server, n: Name): seq<Owner> {
    if n in s.services then s.services[n] else []
  }

  function OwnerOf(s: Server, n: Name): Option<Remote> {
    if QueueOf(s, n) == [] then None else Some(QueueOf(s, n)[0].remote)
  }

  /** The request takes the place of another owner, who allows it. */
  predicate TakesOver(s: Server, r: Remote, n: Name, flags: nat) {
    flags / 2 % 2 == 1 && QueueOf(s, n) != [] && QueueOf(s, n)[0].remote != r && QueueOf(s, n)[0].allowReplacement
  }

  // ----------------------------------------------------- one request, by effect

  /** The return codes and signals of a request: 1 when the remote became the owner, 4
      when it was the owner before, 2 when it waits, and 3 when it does neither and asked
      not to wait (flag 4). It becomes the owner of a name without one, and of a name
      whose owner allows that (flag 1) when it asks for it (flag 2). */
  lemma {:induction false} RequestCode(repaired: bool, s: Server, r: Remote, n: Name, flags: nat)
    requires Inv(s)
    ensures var (t, code) := Request(repaired, s, r, n, flags);
            && (t.Owns(r, n) <==> s.Owns(r, n) || n !in s.services || TakesOver(s, r, n, flags))
            && (code == 4 <==> s.Owns(r, n))
            && (code == 1 <==> !s.Owns(r, n) && t.Owns(r, n))
            && (code == 2 <==> !t.Owns(r, n) && flags / 4 % 2 == 0)
            && (code == 3 <==> !t.Owns(r, n) && flags / 4 % 2 == 1)
            && (code == 2 ==> Behind(QueueOf(t, n), r))
            && (t.Owns(r, n) ==> (t.services[n][0].allowReplacement <==> flags % 2 == 1))
            && t.events == if code == 1 then s.events + Handover(n, OwnerOf(s, n), Some(r)) else s.events
  {
    hide Replay, Balance, Listed, Announced, Replace, Release, RemoveFirst;
    var o := Owner(r, AllowReplacement(flags));
    if n in s.services && s.services[n][0].remote != r {
      var q := s.services[n];
      ReleaseEffect(repaired, s, r, n);
      if ReplaceExisting(flags) && q[0].allowReplacement {
        ReplaceEffect(repaired, s, r, n, o);
      } else if !DoNotQueue(flags) {
        var i := IndexOf(q, r);
        var q' := if i < |q| then q[i := o] else q + [o];
        assert q'[i].remote == r;
      }
    }
  }

  /** The signals of a change of owner, in their order */
  function Handover(n: Name, o: Option<Remote>, w: Option<Remote>): seq<Event> {
    match (o, w)
    case (None, None) => [NameOwnerChanged(n, None, None)]
    case (None, Some(b)) => [NameOwnerChanged(n, None, Some(b)), NameAcquired(b, n)]
    case (Some(a), None) => [NameOwnerChanged(n, Some(a), None), NameLost(a, n)]
    case (Some(a), Some(b)) => [NameOwnerChanged(n, Some(a), Some(b)), NameLost(a, n), NameAcquired(b, n)]
  }

  lemma {:induction false} EmitIs(s: Server, n: Name, o: Option<Remote>, w: Option<Remote>)
    ensures Emit(s, n, o, w) == s.(events := s.events + Handover(n, o, w))
  {
  }

  /** The queue, the return code and the signals after a release: 2 for a name that
      nobody owns, 1 when the remote was the owner, and then the next in the queue is; 3
      otherwise, unless the repaired code finds the remote waiting. */
  lemma {:induction false} ReleaseEffect(repaired: bool, s: Server, r: Remote, n: Name)
    requires Live(s)
    ensures var (t, code) := Release(repaired, s, r, n);
            var q := QueueOf(s, n);
            && (code == 2 <==> n !in s.services)
            && (code == 1 <==> s.Owns(r, n) || (repaired && Queued(q, r)))
            && (code == 3 <==> n in s.services && !s.Owns(r, n) && !(repaired && Queued(q, r)))
            && (s.Owns(r, n) ==>
                  && QueueOf(t, n) == q[1..]
                  && t.events == s.events + Handover(n, Some(r), if |q| > 1 then Some(q[1].remote) else None))
            && (!s.Owns(r, n) ==>
                  && t.events == s.events
                  && (!(repaired && Queued(q, r)) ==> QueueOf(t, n) == q)
                  && (q != [] ==> QueueOf(t, n) != [] && QueueOf(t, n)[0] == q[0]))
            && (forall n' :: n' != n ==> QueueOf(t, n') == QueueOf(s, n'))
  {
    hide RemoveFirst;
    var q := QueueOf(s, n);
    if n in s.services {
      if q[0].remote != r {
        var i := ScanFor(repaired, q, r);
        if i < |q| {
          assert Queued(q, r);
        }
      }
    }
  }

  lemma {:induction false} ReplaceEffect(repaired: bool, s: Server, r: Remote, n: Name, o: Owner)
    requires Live(s) && n in s.services && s.services[n][0].remote != r
    ensures var t, q1 := Replace(repaired, s, r, n, o), QueueOf(Release(repaired, s, r, n).0, n);
            && q1 != [] && QueueOf(t, n) == q1[0 := o] && n in t.services
            && t.events == s.events + Handover(n, Some(s.services[n][0].remote), Some(r))
            && (forall n' :: n' != n ==> QueueOf(t, n') == QueueOf(s, n'))
  {
    hide Release, RemoveFirst, Emit;
    ReleaseEffect(repaired, s, r, n);
    var s1 := Release(repaired, s, r, n).0;
    var former := s1.services[n][0].remote;
    var s2 := Unlist(s1, former, n).(services := s1.services[n := s1.services[n][0 := o]]);
    EmitIs(if repaired then List(s2, r, n) else s2, n, Some(former), Some(r));
  }

  /** A request that waits: a new remote comes last, behind the whole old queue; one that
      waits already keeps its place, and only its own permission changes. */
  lemma {:induction false} WaitsInLine(repaired: bool, s: Server, r: Remote, n: Name, flags: nat)
    requires Inv(s) && n in s.services && !s.Owns(r, n) && !TakesOver(s, r, n, flags) && flags / 4 % 2 == 0
    ensures var q, t := s.services[n], Request(repaired, s, r, n, flags).0;
            var w := QueueOf(t, n);
            && (!Queued(q, r) ==> w == q + [Owner(r, flags % 2 == 1)] && t.ListOf(r) == s.ListOf(r) + [n])
            && (Queued(q, r) ==> t.lists == s.lists && |w| == |q| && forall i :: 0 <= i < |q| ==>
                  w[i] == if q[i].remote == r && !Queued(q[..i], r) then Owner(r, flags % 2 == 1) else q[i])
  {
    hide Replay, Balance, Listed, Announced, Release, Replace;
    var q := s.services[n];
    var k := IndexOf(q, r);
    forall i | 0 <= i < |q|
      ensures q[i].remote == r && !Queued(q[..i], r) <==> i == k
    {
      if k < i {
        assert q[..i][k].remote == r;
      }
    }
  }

  /** A request leaves all other queues as they are, and lists a new name last. */
  lemma {:induction false} OthersStay(repaired: bool, s: Server, r: Remote, n: Name, flags: nat)
    requires Inv(s)
    ensures var t := Request(repaired, s, r, n, flags).0;
            && (forall n' :: n' != n ==> QueueOf(t, n') == QueueOf(s, n'))
            && (n !in s.services ==>
                  t.ListOf(r) == s.ListOf(r) + [n] && QueueOf(t, n) == [Owner(r, flags % 2 == 1)])
  {
    hide Replay, Balance, Listed, Announced, Release, Replace;
    ReleaseEffect(repaired, s, r, n);
    if n in s.services && s.services[n][0].remote != r {
      ReplaceEffect(repaired, s, r, n, Owner(r, AllowReplacement(flags)));
    }
  }

  /** What is left of a request that was turned down: in the repaired code no place in the
      queue; as written, a place that the remote had stays. */
  lemma {:induction false} TurnedDown(repaired: bool, s: Server, r: Remote, n: Name, flags: nat)
    requires Inv(s) && Request(repaired, s, r, n, flags).1 == 3 && NoRemoteTwice(s.services[n])
    ensures Queued(QueueOf(Request(repaired, s, r, n, flags).0, n), r) <==> !repaired && Queued(s.services[n], r)
  {
    hide Replay, Balance, Listed, Announced, Emit, RemoveFirst;
    ReleaseQueue(repaired, s, r, n);
    ReleaseEffect(repaired, s, r, n);
  }

  // ---------------------------------------------------------------- the order

  /** The remote waits in the queue behind its head. */
  predicate Behind(q: seq<Owner>, a: Remote) {
    exists i :: 1 <= i < |q| && q[i].remote == a
  }

  /** Behind the head, `a` has a place in front of one of `b`. */
  predicate Before(q: seq<Owner>, a: Remote, b: Remote) {
    exists i, j :: 1 <= i < j < |q| && q[i].remote == a && q[j].remote == b
  }

  /** Nobody comes to wait, and nobody overtakes. */
  ghost predicate Shrinks(q: seq<Owner>, w: seq<Owner>) {
    && (forall a :: Behind(w, a) ==> Behind(q, a))
    && (forall a, b :: Before(w, a, b) ==> Before(q, a, b))
  }

  /** Nobody who waited already is overtaken. */
  ghost predicate KeepsOrder(q: seq<Owner>, w: seq<Owner>) {
    forall a, b :: Before(w, a, b) && Behind(q, b) ==> Before(q, a, b)
  }

  lemma {:induction false} Dropped(q: seq<Owner>, k: nat)
    requires k < |q|
    ensures Shrinks(q, q[..k] + q[k + 1..])
  {
    var w := q[..k] + q[k + 1..];
    assert forall i :: 0 <= i < |w| ==> w[i] == q[if i < k then i else i + 1];
    forall a, b | Before(w, a, b)
      ensures Before(q, a, b)
    {
      var i, j :| 1 <= i < j < |w| && w[i].remote == a && w[j].remote == b;
      assert q[if i < k then i else i + 1].remote == a && q[if j < k then j else j + 1].remote == b;
    }
  }

  lemma {:induction false} ReleaseShrinks(repaired: bool, s: Server, r: Remote, n: Name, n': Name)
    requires Live(s)
    ensures Shrinks(QueueOf(s, n'), QueueOf(Release(repaired, s, r, n).0, n'))
  {
    hide RemoveFirst, Shrinks;
    var q := QueueOf(s, n);
    SameShrinks(QueueOf(s, n'));
    if n in s.services {
      if q[0].remote == r {
        assert q[..0] + q[0 + 1..] == q[1..];
        Dropped(q, 0);
      } else {
        var i := ScanFor(repaired, q, r);
        if i < |q| {
          Dropped(q, i);
        }
      }
    }
  }

  lemma {:induction false} SameShrinks(q: seq<Owner>)
    ensures Shrinks(q, q)
  {
  }

  /** New permissions behind the head, and any head */
  lemma {:induction false} SamePlaces(q: seq<Owner>, w: seq<Owner>)
    requires |q| == |w| && forall i :: 1 <= i < |q| ==> q[i].remote == w[i].remote
    ensures Shrinks(q, w)
  {
    forall a, b | Before(w, a, b)
      ensures Before(q, a, b)
    {
      var i, j :| 1 <= i < j < |w| && w[i].remote == a && w[j].remote == b;
      assert q[i].remote == a && q[j].remote == b;
    }
  }

  lemma {:induction false} ShrinksKeeps(q: seq<Owner>, w: seq<Owner>, x: seq<Owner>)
    requires Shrinks(q, w) && Shrinks(w, x)
    ensures Shrinks(q, x) && KeepsOrder(q, x)
  {
  }

  lemma {:induction false} LastInLine(q: seq<Owner>, o: Owner)
    requires !Queued(q, o.remote)
    ensures KeepsOrder(q, q + [o])
  {
    var w := q + [o];
    forall a, b | Before(w, a, b) && Behind(q, b)
      ensures Before(q, a, b)
    {
      var i, j :| 1 <= i < j < |w| && w[i].remote == a && w[j].remote == b;
      assert j < |q|;
      assert q[i].remote == a && q[j].remote == b;
    }
  }

  lemma {:induction false} RequestKeepsOrder(repaired: bool, s: Server, r: Remote, n: Name, flags: nat, n': Name)
    requires Inv(s)
    ensures KeepsOrder(QueueOf(s, n'), QueueOf(Request(repaired, s, r, n, flags).0, n'))
  {
    hide Replay, Balance, Listed, Announced, Release, Replace, Shrinks, KeepsOrder;
    OthersStay(repaired, s, r, n, flags);
    var q, w := QueueOf(s, n'), QueueOf(Request(repaired, s, r, n, flags).0, n');
    SameShrinks(q);
    ShrinksKeeps(q, q, q);
    if n' == n {
      if n !in s.services {
        SingleKeepsOrder(q, w);
      } else if q[0].remote == r {
        SamePlaces(q, w);
        ShrinksKeeps(q, q, w);
      } else if ReplaceExisting(flags) && q[0].allowReplacement {
        var o := Owner(r, AllowReplacement(flags));
        ReplaceEffect(repaired, s, r, n, o);
        ReleaseShrinks(repaired, s, r, n, n);
        var q1 := QueueOf(Release(repaired, s, r, n).0, n);
        SamePlaces(q1, q1[0 := o]);
        ShrinksKeeps(q, q1, w);
      } else if !DoNotQueue(flags) {
        WaitsInLine(repaired, s, r, n, flags);
        if Queued(q, r) {
          SamePlaces(q, w);
          ShrinksKeeps(q, q, w);
        } else {
          LastInLine(q, Owner(r, flags % 2 == 1));
        }
      } else {
        ReleaseShrinks(repaired, s, r, n, n);
        ShrinksKeeps(q, q, w);
      }
    }
  }

  lemma {:induction false} SingleKeepsOrder(q: seq<Owner>, w: seq<Owner>)
    requires |w| <= 1
    ensures KeepsOrder(q, w)
  {
  }

  lemma {:induction false} DisconnectShrinks(repaired: bool, s: Server, r: Remote, n: Name)
    requires Inv(s)
    ensures Shrinks(QueueOf(s, n), QueueOf(Disconnect(repaired, s, r), n))
    decreases |s.ListOf(r)|
  {
    hide Replay, Balance, Listed, Announced, Release, Shrinks;
    var q := QueueOf(s, n);
    SameShrinks(q);
    assert Live(s) by { LiveOf(s); }
    if s.ListOf(r) != [] {
      var n0 := s.ListOf(r)[0];
      var t := Release(repaired, s, r, n0).0;
      ReleaseFirst(repaired, s, r);
      ReleaseShrinks(repaired, s, r, n0, n);
      DisconnectShrinks(repaired, t, r, n);
      ShrinksKeeps(q, QueueOf(t, n), QueueOf(Disconnect(repaired, t, r), n));
    }
  }

  lemma {:induction false} StepKeepsOrder(repaired: bool, s: Server, op: Op, n: Name)
    requires Inv(s)
    ensures KeepsOrder(QueueOf(s, n), QueueOf(Step(repaired, s, op), n))
  {
    hide Replay, Balance, Listed, Announced, Release, Request, Shrinks, KeepsOrder, Inv, Disconnect;
    var q := QueueOf(s, n);
    SameShrinks(q);
    match op
    case RequestName(r, n', flags) => RequestKeepsOrder(repaired, s, r, n', flags, n);
    case ReleaseName(r, n') =>
      LiveOf(s);
      ReleaseShrinks(repaired, s, r, n', n);
      ShrinksKeeps(q, q, QueueOf(Release(repaired, s, r, n').0, n));
    case Leave(r) =>
      DisconnectShrinks(repaired, s, r, n);
      ShrinksKeeps(q, q, QueueOf(Disconnect(repaired, s, r), n));
  }

  // ----------------------------------------------------------------- the runs

  /** After every operation of the run from the k-th on, the remote waits for the name. */
  ghost predicate WaitedSince(repaired: bool, s: Server, ops: seq<Op>, n: Name, a: Remote, k: nat)
    requires Inv(s)
  {
    forall t :: k <= t <= |ops| ==> Behind(QueueOf(Exec(repaired, s, ops[..t]), n), a)
  }

  lemma {:induction false} ExecSnoc(repaired: bool, s: Server, ops: seq<Op>, op: Op)
    requires Inv(s)
    ensures Exec(repaired, s, ops + [op]) == Step(repaired, Exec(repaired, s, ops), op)
    decreases ops
  {
    hide Step, Inv;
    if ops == [] {
      assert (ops + [op])[0] == op && (ops + [op])[1..] == [];
    } else {
      assert (ops + [op])[0] == ops[0] && (ops + [op])[1..] == ops[1..] + [op];
      ExecSnoc(repaired, Step(repaired, s, ops[0]), ops[1..], op);
    }
  }

  /** Who has a place in front has waited at least as long. */
  lemma {:induction false} InOrder(repaired: bool, s: Server, ops: seq<Op>, n: Name, a: Remote, b: Remote, k: nat)
    requires Inv(s) && k <= |ops|
    requires Before(QueueOf(Exec(repaired, s, ops), n), a, b) && WaitedSince(repaired, s, ops, n, b, k)
    ensures WaitedSince(repaired, s, ops, n, a, k)
    decreases |ops|
  {
    hide Step, Inv, Exec, Before, Behind;
    assert ops[..|ops|] == ops;
    BeforeBehind(QueueOf(Exec(repaired, s, ops), n), a, b);
    if k < |ops| {
      var m := |ops| - 1;
      var front := ops[..m];
      assert ops == front + [ops[m]];
      ExecSnoc(repaired, s, front, ops[m]);
      StepKeepsOrder(repaired, Exec(repaired, s, front), ops[m], n);
      assert forall t :: 0 <= t <= m ==> front[..t] == ops[..t];
      assert front[..m] == front;
      assert Behind(QueueOf(Exec(repaired, s, front), n), b);
      InOrder(repaired, s, front, n, a, b, k);
      forall t | k <= t <= |ops|
        ensures Behind(QueueOf(Exec(repaired, s, ops[..t]), n), a)
      {
        if t <= m {
          assert front[..t] == ops[..t];
        }
      }
    }
  }

  lemma {:induction false} BeforeBehind(q: seq<Owner>, a: Remote, b: Remote)
    requires Before(q, a, b)
    ensures Behind(q, a)
  {
  }

  /** At any time of any run, as written or repaired: when the owner gives a name up for
      which others wait, it goes to one that has waited longest. Whoever has waited since
      the k-th operation, the new owner has waited since then too. The signals tell so. */
  lemma {:induction false} LongestWaits(repaired: bool, s: Server, ops: seq<Op>, n: Name, r: Remote)
    requires Inv(s)
    requires Exec(repaired, s, ops).Owns(r, n) && |Exec(repaired, s, ops).services[n]| > 1
    ensures var t := Exec(repaired, s, ops);
            var u := Release(repaired, t, r, n).0;
            && OwnerOf(u, n).Some?
            && var w := OwnerOf(u, n).value;
            && Behind(QueueOf(t, n), w)
            && u.events == t.events + [NameOwnerChanged(n, Some(r), Some(w)), NameLost(r, n), NameAcquired(w, n)]
            && forall a, k :: 0 <= k <= |ops| && WaitedSince(repaired, s, ops, n, a, k) ==>
                 WaitedSince(repaired, s, ops, n, w, k)
  {
    hide Inv, Exec, Release, WaitedSince, Before;
    var t := Exec(repaired, s, ops);
    assert Live(t) by { LiveOf(t); }
    ReleaseEffect(repaired, t, r, n);
    var q := t.services[n];
    var w := q[1].remote;
    forall a, k | 0 <= k <= |ops| && WaitedSince(repaired, s, ops, n, a, k)
      ensures WaitedSince(repaired, s, ops, n, w, k)
    {
      WaitsNow(repaired, s, ops, n, a, k);
      var j :| 1 <= j < |q| && q[j].remote == a;
      if j > 1 {
        SecondFirst(q, j);
        InOrder(repaired, s, ops, n, w, a, k);
      }
    }
  }

  lemma {:induction false} WaitsNow(repaired: bool, s: Server, ops: seq<Op>, n: Name, a: Remote, k: nat)
    requires Inv(s) && k <= |ops| && WaitedSince(repaired, s, ops, n, a, k)
    ensures Behind(QueueOf(Exec(repaired, s, ops), n), a)
  {
    assert ops[..|ops|] == ops;
  }

  lemma {:induction false} SecondFirst(q: seq<Owner>, j: nat)
    requires 1 < j < |q|
    ensures Before(q, q[1].remote, q[j].remote)
  {
  }

  // ------------------------------------------------------------- the disconnect

  /** The names released one after the other */
  function ReleaseAll(repaired: bool, s: Server, r: Remote, names: seq<Name>): (t: Server)
    requires Inv(s)
    ensures Inv(t)
    decreases names
  {
    if names == [] then s
    else
      ReleaseKeeps(repaired, s, r, names[0]);
      ReleaseAll(repaired, Release(repaired, s, r, names[0]).0, r, names[1..])
  }

  /** A remote that leaves gives up its names in the order in which it listed them. */
  lemma {:induction false} LeavesInOrder(repaired: bool, s: Server, r: Remote)
    requires Inv(s)
    ensures var t := ReleaseAll(repaired, s, r, s.ListOf(r));
            Disconnect(repaired, s, r) == t.(lists := t.lists - {r})
    decreases |s.ListOf(r)|
  {
    hide Release, Inv;
    if s.ListOf(r) != [] {
      LiveOf(s);
      ReleaseFirst(repaired, s, r);
      LeavesInOrder(repaired, Release(repaired, s, r, s.ListOf(r)[0]).0, r);
    }
  }
}
