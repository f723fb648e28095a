/** The connection's table of object paths, changed in place as the client binds
    and unbinds interfaces. */
module PathServer {
  import opened Bytes
  import opened Sequences
  import opened PathTree

  /** The parent pointers are those of registered paths. */
  ghost predicate ParentsIn(t: Tree) {
    forall p :: p in t ==> IsPath(p) && (Parent(p).Some? ==> Parent(p).value in t)
  }

  /** What pruning a leaf does to the rest does not depend on the leaf's node. */
  lemma {:induction false} LeafNodeIrrelevant(t: Tree, p: Path, n: Node, q: Path)
    requires |q| < |p|
    ensures CheckRemove(t[p := n], q) - {p} == CheckRemove(t, q) - {p}
  {
    CheckCommutes(t, p, q);
    CheckCommutes(t[p := n], p, q);
    assert t[p := n] - {p} == t - {p};
  }

  class Paths {
    var paths: Tree

    constructor ()
      ensures paths == map[] && Inv(paths) && Users(paths) == {}
    {
      paths := map[];
    }

    /** GetObject */
    method GetObject(p: Path)
      requires IsPath(p)
      modifies this
      ensures paths == PathTree.GetObject(old(paths), p)
      decreases |p|
    {
      if p in paths {
        return;
      }
      paths := paths[p := Node({}, [])];
      var _ := DoBind(p, INTROSPECTABLE);
      var _ := DoBind(p, PROPERTIES);
      assert {} + {INTROSPECTABLE} + {PROPERTIES} == BUILTIN;
      assert paths == old(paths)[p := Node(BUILTIN, [])];
      var parent := ParentPath(p);
      if parent.Some? {
        GetObject(parent.value);
        var o := paths[parent.value];
        paths := paths[parent.value := o.(children := o.children + [p])];
      }
    }

    /** DoBind: fails when the interface is bound already. */
    method DoBind(p: Path, i: string) returns (ok: bool)
      requires p in paths
      modifies this
      ensures ok <==> i !in old(paths)[p].interfaces
      ensures paths == old(paths)[p := old(paths)[p].(interfaces := old(paths)[p].interfaces + {i})]
    {
      if i in paths[p].interfaces {
        assert paths[p].interfaces + {i} == paths[p].interfaces;
        return false;
      }
      paths := paths[p := paths[p].(interfaces := paths[p].interfaces + {i})];
      return true;
    }

    /** adbus_conn_bind: a user's bind succeeds exactly when it is new, and is in
        place afterwards with all others. */
    method BindInterface(p: Path, i: string) returns (ok: bool)
      requires IsPath(p)
      modifies this
      ensures (paths, ok) == Bind(old(paths), p, i)
      ensures Inv(old(paths)) && i !in BUILTIN ==>
                && Inv(paths) && Users(paths) == Users(old(paths)) + {(p, i)}
                && (ok <==> (p, i) !in Users(old(paths)))
    {
      hide PathTree.GetObject, Inv, Users;
      GetObject(p);
      ghost var t1 := paths;
      ok := DoBind(p, i);
      assert !ok ==> t1[p].interfaces + {i} == t1[p].interfaces && paths == t1;
      if Inv(old(paths)) && i !in BUILTIN {
        BindKeeps(old(paths), p, i);
      }
    }

    /** CheckRemoveObject: the path goes when nothing but the builtin interfaces
        is left of it, and its ancestors after it. */
    method CheckRemoveObject(p: Path)
      requires ParentsIn(paths) && p in paths
      modifies this
      ensures paths == CheckRemove(old(paths), p)
      decreases |p|
    {
      if |paths[p].interfaces| > 2 || |paths[p].children| > 0 {
        return;
      }
      while paths[p].interfaces != {}
        invariant p in paths && paths == old(paths)[p := paths[p]]
        decreases paths[p].interfaces
      {
        var i :| i in paths[p].interfaces;
        paths := paths[p := paths[p].(interfaces := paths[p].interfaces - {i})];
      }
      var parent := ParentPath(p);
      if parent.Some? {
        var q := parent.value;
        RemoveFromParent(q, p);
        ghost var t1 := old(paths)[q := old(paths)[q].(children := RemoveFirst(old(paths)[q].children, p))];
        ghost var n := paths[p];
        assert paths == t1[p := n];
        CheckRemoveObject(q);
        LeafNodeIrrelevant(t1, p, n, q);
      }
      paths := paths - {p};
    }

    method RemoveFromParent(q: Path, p: Path)
      requires q in paths
      modifies this
      ensures paths == old(paths)[q := old(paths)[q].(children := RemoveFirst(old(paths)[q].children, p))]
    {
      var cs := paths[q].children;
      var k := 0;
      while k < |cs|
        invariant 0 <= k <= |cs| && p !in cs[..k]
        invariant paths == old(paths)
      {
        if cs[k] == p {
          RemoveFirstAt(cs, p, k);
          paths := paths[q := paths[q].(children := cs[..k] + cs[k + 1..])];
          return;
        }
        k := k + 1;
      }
      RemoveFirstAt(cs, p, k);
    }

    /** adbusI_freeBind of a bind in place: exactly that bind is gone, and so is
        every path that only led to it. */
    method UnbindInterface(p: Path, i: string)
      requires ParentsIn(paths) && p in paths && i in paths[p].interfaces
      modifies this
      ensures paths == Unbind(old(paths), p, i)
      ensures Inv(old(paths)) && i !in BUILTIN ==>
                Inv(paths) && Users(paths) == Users(old(paths)) - {(p, i)}
    {
      hide CheckRemove, Inv, Users;
      paths := paths[p := paths[p].(interfaces := paths[p].interfaces - {i})];
      CheckRemoveObject(p);
      if Inv(old(paths)) && i !in BUILTIN {
        UserBindIff(old(paths), p, i);
        UnbindKeeps(old(paths), p, i);
      }
    }

    /** adbus_conn_interface: a lookup finds the interface exactly where it is
        bound; a builtin one is found at and above every bind. */
    method HasInterface(p: Path, i: string) returns (found: bool)
      requires Inv(paths)
      ensures i !in BUILTIN ==> (found <==> (p, i) in Users(paths))
      ensures i in BUILTIN ==>
                (found <==> IsPath(p) && exists u :: UserBound(paths, u) && AtOrBelow(u, p))
    {
      hide AtOrBelow, IsPath, UserBound, PrunedBut;
      if i in BUILTIN {
        RegisteredExactly(paths, p);
      }
      if p !in paths {
        return false;
      }
      return i in paths[p].interfaces;
    }
  }
}
