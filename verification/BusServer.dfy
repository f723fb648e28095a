/** The name table of the bus server, updated in place as the source does it. */
module BusServer {
  import opened Bytes
  import opened Sequences
  import opened BusNames

  class Bus {
    var services: map<Name, seq<Owner>>
    var lists: map<Remote, seq<Name>>
    var events: seq<Event>

    constructor ()
      ensures State() == EMPTY
    {
      services, lists, events := map[], map[], [];
    }

    function State(): Server
      reads this
    {
      Server(services, lists, events)
    }

    /** adbusI_serv_removeServiceFromRemote */
    method RemoveServiceFromRemote(r: Remote, n: Name)
      modifies this`lists
      ensures State() == Unlist(old(State()), r, n)
    {
      var list := State().ListOf(r);
      var j := 0;
      while j < |list|
        invariant 0 <= j <= |list| && n !in list[..j]
        invariant lists == old(lists)
      {
        if list[j] == n {
          RemoveFirstAt(list, n, j);
          lists := lists[r := list[..j] + list[j + 1..]];
          return;
        }
        j := j + 1;
      }
      RemoveFirstAt(list, n, j);
      lists := lists[r := list];
    }

    /** adbusI_serv_ownerchanged */
    method OwnerChanged(n: Name, o: Option<Remote>, w: Option<Remote>)
      modifies this`events
      ensures State() == Emit(old(State()), n, o, w)
    {
      events := events + [NameOwnerChanged(n, o, w)];
      if o.Some? {
        events := events + [NameLost(o.value, n)];
      }
      if w.Some? {
        events := events + [NameAcquired(w.value, n)];
      }
    }

    /** adbusI_serv_releasename */
    method ReleaseName(r: Remote, n: Name) returns (code: nat)
      requires Live(State())
      modifies this
      ensures (State(), code) == Release(false, old(State()), r, n)
    {
      hide RemoveFirst;
      if n !in services {
        return RELEASE_INVALID_NAME;
      }
      RemoveServiceFromRemote(r, n);
      var q := services[n];
      if q[0].remote == r {
        services := services[n := q[1..]];
        if |q[1..]| == 0 {
          OwnerChanged(n, Some(r), None);
          assert services - {n} == old(services) - {n};
          services := services - {n};
        } else {
          OwnerChanged(n, Some(r), Some(q[1].remote));
        }
        return SUCCESS;
      }
      var i := 1;
      while i < |q|
        invariant 1 <= i <= |q|
      {
        // The source tests the head here, not entry i, so the removal of entry i
        // that belongs in this branch is never reached.
        if q[0].remote == r {
          assert false;
        }
        i := i + 1;
      }
      return RELEASE_NOT_OWNER;
    }

    /** adbusI_serv_requestname */
    method RequestName(r: Remote, n: Name, flags: nat) returns (code: nat)
      requires Live(State())
      modifies this
      ensures (State(), code) == Request(false, old(State()), r, n, flags)
    {
      hide RemoveFirst, AllowReplacement, ReplaceExisting, DoNotQueue;
      var o := Owner(r, AllowReplacement(flags));
      if n !in services {
        services := services[n := []];
      }
      var q := services[n];
      if |q| == 0 {
        lists := lists[r := State().ListOf(r) + [n]];
        services := services[n := [o]];
        assert services == old(services)[n := [o]];
        OwnerChanged(n, None, Some(r));
        return SUCCESS;
      } else if q[0].remote == r {
        services := services[n := q[0 := o]];
        return REQUEST_ALREADY_OWNER;
      } else if ReplaceExisting(flags) && q[0].allowReplacement {
        var ignored := ReleaseName(r, n);
        q := services[n];
        var former := q[0].remote;
        RemoveServiceFromRemote(former, n);
        services := services[n := q[0 := o]];
        OwnerChanged(n, Some(former), Some(r));
        return SUCCESS;
      } else if !DoNotQueue(flags) {
        var i := 0;
        while i < |q| && q[i].remote != r
          invariant 0 <= i <= IndexOf(q, r)
        {
          i := i + 1;
        }
        if i < |q| {
          services := services[n := q[i := o]];
        } else {
          lists := lists[r := State().ListOf(r) + [n]];
          services := services[n := q + [o]];
        }
        return REQUEST_IN_QUEUE;
      } else {
        var ignored := ReleaseName(r, n);
        return REQUEST_FAILED;
      }
    }

    /** adbus_remote_disconnect: the loop ends because every service of the list
        is live, so that its release takes it off the list. */
    method Leave(r: Remote)
      requires Inv(State())
      modifies this
      ensures State() == Disconnect(false, old(State()), r)
    {
      hide Inv, Release;
      while State().ListOf(r) != []
        invariant Inv(State()) && Disconnect(false, State(), r) == Disconnect(false, old(State()), r)
        decreases |State().ListOf(r)|
      {
        ghost var s := State();
        ReleaseFirst(false, s, r);
        InvLive(s);
        var code := ReleaseName(r, State().ListOf(r)[0]);
      }
      lists := lists - {r};
    }
  }

  lemma {:induction false} InvLive(s: Server)
    requires Inv(s)
    ensures Live(s)
  {
  }
}
