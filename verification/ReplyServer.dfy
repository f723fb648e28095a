/** The reply registry of a connection, updated in place as the source does it. */
module ReplyServer {
  import opened Bytes
  import opened Replies
  import ReplyRouting

  /** The part of a remote's replies with these serials */
  function Part(h: map<Serial, Id>, done: set<Serial>): map<Serial, Id>
    requires done <= h.Keys
  {
    map s | s in done :: h[s]
  }

  lemma {:induction false} PartGrows(h: map<Serial, Id>, done: set<Serial>, s: Serial)
    requires done <= h.Keys && s in h
    ensures Part(h, done + {s}) == Part(h, done)[s := h[s]]
    ensures Part(h, done + {s}).Values == Part(h, done).Values + {h[s]}
  {
    var p, q := Part(h, done), Part(h, done + {s});
    assert q == p[s := h[s]];
    forall v
      ensures v in q.Values <==> v in p.Values + {h[s]}
    {
      if v in p.Values {
        var t :| t in p && p[t] == v;
        assert q[t] == v;
      }
      assert q[s] == h[s];
    }
  }

  lemma {:induction false} RetargetGrows(replies: map<Id, Entry>, moved: set<Id>, id: Id, to: Name)
    requires id in replies
    ensures Retarget(replies, moved + {id}, to)
            == Retarget(replies, moved, to)[id := Retarget(replies, moved, to)[id].(remote := Some(to))]
  {
  }

  lemma {:induction false} PartNone(h: map<Serial, Id>, replies: map<Id, Entry>, to: Name)
    ensures Part(h, {}) == map[] && Retarget(replies, Part(h, {}).Values, to) == replies
  {
  }

  lemma {:induction false} PartAll(h: map<Serial, Id>)
    ensures Part(h, h.Keys) == h
  {
  }

  /** One round of the loop in MoveReplies */
  lemma {:induction false} MoveOne(
    remotes: Index, replies: map<Id, Entry>, u: map<Serial, Id>, h: map<Serial, Id>, done: set<Serial>, s: Serial, to: Name)
    requires done <= h.Keys && s in h && s !in u && s !in done && h[s] in replies
    ensures h[s] in Retarget(replies, Part(h, done).Values, to)
    ensures s !in u + Part(h, done)
    ensures remotes[to := u + Part(h, done)][to := (u + Part(h, done))[s := h[s]]] == remotes[to := u + Part(h, done + {s})]
    ensures var rs := Retarget(replies, Part(h, done).Values, to);
            rs[h[s] := rs[h[s]].(remote := Some(to))] == Retarget(replies, Part(h, done + {s}).Values, to)
  {
    PartGrows(h, done, s);
    RetargetGrows(replies, Part(h, done).Values, h[s], to);
    assert (u + Part(h, done))[s := h[s]] == u + Part(h, done + {s});
  }

  class Connection {
    var remotes: Index
    var replies: map<Id, Entry>
    var services: map<Name, Option<Name>>
    var iter: Option<Id>
    var nextSerial: Serial
    var nextId: Id
    var fired: seq<Call>

    constructor ()
      ensures State() == EMPTY
    {
      remotes, replies, services := map[], map[], map[];
      iter, nextSerial, nextId, fired := None, 1, 0, [];
    }

    function State(): Conn
      reads this
    {
      Conn(remotes, replies, services, iter, nextSerial, nextId, fired)
    }

    /** adbus_conn_serial */
    method Serial() returns (s: Serial)
      modifies this`nextSerial
      ensures (s, nextSerial) == NextSerial(old(nextSerial))
    {
      if nextSerial == UINT32_MAX {
        nextSerial := 1;
      }
      s := nextSerial;
      nextSerial := nextSerial + 1;
    }

    /** adbusI_lookupService: the record of a service, made when there is none */
    method LookupService(n: Name) returns (known: bool)
      modifies this`services
      ensures services == Lookup(old(services), n)
      ensures known <==> IsService(n)
      ensures known && ServicesOk(old(State())) ==> n in services
    {
      if n == [] || n[0] == ':' || n == BUS {
        return false;
      }
      if n !in services {
        services := services[n := None];
      }
      return true;
    }

    /** adbus_conn_addreply: in order the reply is registered under the name that
        its answer will come from, unless that serial is taken there. */
    method AddReply(n: Name, s: Serial) returns (r: Option<Id>)
      requires Inv(State())
      modifies this
      ensures (State(), r) == Add(old(State()), n, s)
      ensures Inv(State())
      ensures r.Some? ==> r.value !in old(replies)
      ensures r.Some? && n in old(services) && old(services)[n].Some? ==> Find(remotes, old(services)[n].value, s) == r
      ensures r.Some? && (n !in old(services) || old(services)[n].None?) ==> Find(remotes, n, s) == r
    {
      hide HasFired, Inv, Insert, Delete;
      ReplyRouting.AddFound(State(), n, s);
      AddKeeps(State(), n, s);
      assert Once(State()) by { InvAgrees(State()); }
      if |n| == 0 {
        return None;
      }
      var name := n;
      var service := LookupService(n);
      if service && services[n].Some? {
        name := services[n].value;
      }
      if name !in remotes || s !in remotes[name] {
        List(name, s, nextId);
        replies := replies[nextId := Entry(Some(name), s)];
        r := Some(nextId);
        nextId := nextId + 1;
      } else {
        return None;
      }
    }

    method List(n: Name, s: Serial, id: Id)
      modifies this`remotes
      ensures remotes == Insert(old(remotes), n, s, id)
    {
      if n !in remotes {
        remotes := remotes[n := map[]];
      }
      var h: map<Serial, Id> := remotes[n];
      remotes := remotes[n := h[s := id]];
      assert remotes == Insert(old(remotes), n, s, id);
    }

    /** adbusI_freeReply, with adbusI_freeRemote when the remote got empty */
    method FreeReply(id: Id)
      requires Inv(State()) && id in replies
      modifies this
      ensures State() == Remove(old(State()), id) && Inv(State())
    {
      hide HasFired;
      RemoveKeeps(State(), id);
      var e := replies[id];
      if e.remote.Some? {
        Unindex(e.remote.value, e.serial);
      }
      replies := replies - {id};
      if iter == Some(id) {
        iter := None;
      }
    }

    method Unindex(n: Name, s: Serial)
      requires n in remotes
      modifies this`remotes
      ensures remotes == Delete(old(remotes), n, s)
    {
      var h := remotes[n] - {s};
      remotes := remotes[n := h];
      if |h| == 0 {
        remotes := remotes - {n};
        assert remotes == old(remotes) - {n};
      }
    }

    /** adbusI_dispatchReply up to the callback: exactly a waiting reply with the
        sender and serial of the message fires. */
    method FireReply(m: Msg) returns (hit: Option<Id>)
      requires Inv(State())
      modifies this
      ensures State() == Fire(old(State()), m) && Inv(State())
      ensures hit == if Answers(m) then Search(old(replies), m.sender.value, m.replySerial.value) else None
      ensures hit.Some? ==> fired == old(fired) + [Call(hit.value, m.kind == MSG_ERROR)] && iter == hit
      ensures hit.None? ==> State() == old(State())
    {
      hide HasFired, Search, Inv;
      FireKeeps(State(), m);
      assert Agree(State()) by { assert Inv(State()); InvAgrees(State()); }
      if (m.kind != MSG_RETURN && m.kind != MSG_ERROR) || m.replySerial.None? || m.sender.None? {
        return None;
      }
      var sender, serial := m.sender.value, m.replySerial.value;
      FindIsSearch(State(), sender, serial);
      if sender !in remotes || serial !in remotes[sender] {
        return None;
      }
      var id := remotes[sender][serial];
      assert Find(remotes, sender, serial) == Some(id);
      iter := Some(id);
      assert replies[id].remote == Some(sender);
      replies := replies[id := replies[id].(remote := None)];
      Unindex(sender, serial);
      fired := fired + [Call(id, m.kind == MSG_ERROR)];
      return Some(id);
    }

    /** The end of adbusI_dispatchReply: the reply goes, unless the callback has
        removed it. */
    method CallbackDone()
      requires Inv(State())
      modifies this
      ensures State() == Finish(old(State())) && Inv(State())
    {
      hide Remove, HasFired;
      FinishKeeps(State());
      var reply2 := iter;
      assert reply2.Some? ==> reply2.value in replies;
      iter := None;
      if reply2.Some? {
        ghost var c := State();
        assert Inv(c);
        FreeReply(reply2.value);
      }
    }

    /** GetNameOwner: `expected` is what the source asserts of the service. */
    method OwnerAnswered(n: Name, owner: Name) returns (expected: bool)
      requires Inv(State()) && DistinctSerials(replies) && n in services && (owner == [] || owner[0] == ':')
      modifies this
      ensures expected <==> AnswerExpected(old(State()), n)
      ensures State() == Resolve(old(State()), n, owner) && Inv(State())
      ensures replies == Waiting(old(replies), n, owner)
    {
      hide Inv, Resolve, Waiting, DistinctSerials;
      expected := services[n].None?;
      OwnerChanged(n, owner);
    }

    /** NameOwnerChanged */
    method OwnerChanged(n: Name, owner: Name)
      requires Inv(State()) && DistinctSerials(replies) && n in services && (owner == [] || owner[0] == ':')
      modifies this
      ensures State() == Resolve(old(State()), n, owner) && Inv(State())
      ensures replies == Waiting(old(replies), n, owner)
    {
      hide Agree, Once, Find, Rekey, HasFired, Waiting;
      ResolveKeeps(State(), n, owner);
      MovesExactly(State(), n, owner);
      services := services[n := Some(owner)];
      assert Agree(State()) by { ServicesIrrelevant(old(State()), services); }
      MoveReplies(n, owner);
    }

    /** MoveReplies: every reply of the service moves to the owner, and none of
        them finds its serial taken. */
    method MoveReplies(from: Name, to: Name)
      requires Agree(State()) && DistinctSerials(replies) && from != to
      modifies this`remotes, this`replies
      ensures remotes == Rekey(old(remotes), from, to)
      ensures replies == if from in old(remotes) then Retarget(old(replies), old(remotes)[from].Values, to) else old(replies)
    {
      hide Find, DistinctSerials, Agree, Part, Retarget;
      if from !in remotes {
        return;
      }
      ghost var c := State();
      var h: map<Serial, Id> := remotes[from];
      ghost var u: map<Serial, Id> := if to in remotes then remotes[to] else map[];
      if to !in remotes {
        remotes := remotes[to := map[]];
      }
      var rest := h.Keys;
      ghost var done: set<Serial> := {};
      PartNone(h, replies, to);
      assert u + Part(h, done) == u;
      assert remotes == old(remotes)[to := u];
      while rest != {}
        invariant done + rest == h.Keys && done !! rest
        invariant remotes == old(remotes)[to := u + Part(h, done)]
        invariant replies == Retarget(old(replies), Part(h, done).Values, to)
        decreases rest
      {
        var s :| s in rest;
        var id := h[s];
        SlotFree(c, from, to, s);
        MoveOne(old(remotes), old(replies), u, h, done, s, to);
        assert s !in remotes[to];
        replies := replies[id := replies[id].(remote := Some(to))];
        var listed: map<Serial, Id> := remotes[to];
        remotes := remotes[to := listed[s := id]];
        done, rest := done + {s}, rest - {s};
      }
      assert Part(h, done) == h by { assert done == h.Keys; PartAll(h); }
      remotes := remotes - {from};
      assert remotes == (old(remotes) - {from})[to := u + h];
    }
  }

  lemma {:induction false} InvAgrees(c: Conn)
    requires Inv(c)
    ensures Agree(c) && Once(c) && ServicesOk(c)
  {
  }

  lemma {:induction false} ServicesIrrelevant(c: Conn, services: map<Name, Option<Name>>)
    requires Agree(c)
    ensures Agree(c.(services := services))
  {
  }

  lemma {:induction false} SlotFree(c: Conn, from: Name, to: Name, s: Serial)
    requires Agree(c) && DistinctSerials(c.replies) && from != to && from in c.remotes && s in c.remotes[from]
    ensures c.remotes[from][s] in c.replies
    ensures to in c.remotes ==> s !in c.remotes[to]
  {
    assert Find(c.remotes, from, s) == Some(c.remotes[from][s]);
    MoveFindsFreeSerials(c, from, to, s);
  }
}
