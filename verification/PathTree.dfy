/** The tree of registered object paths. Binding an interface registers a path
    and its ancestors; unbinding prunes what no longer leads to a bind. */
module PathTree {
  import opened Bytes
  import opened Sequences

  type Path = string

  const INTROSPECTABLE := "org.freedesktop.DBus.Introspectable"
  const PROPERTIES := "org.freedesktop.DBus.Properties"

  /** The two interfaces that every registered path carries */
  const BUILTIN: set<string> := {INTROSPECTABLE, PROPERTIES}

  /** struct ObjectPath; the parent pointer is the node of the parent path. */
  datatype Node = Node(interfaces: set<string>, children: seq<Path>)

  type Tree = map<Path, Node>

  // ------------------------------------------------------------------ paths

  predicate IsPathChar(c: char) {
    'a' <= c <= 'z' || 'A' <= c <= 'Z' || '0' <= c <= '9' || c == '_'
  }

  /** A rooted path without an empty component */
  predicate IsPath(p: Path) {
    && p != [] && p[0] == '/'
    && (|p| > 1 ==> p[|p| - 1] != '/')
    && (forall i :: 0 <= i < |p| ==> p[i] == '/' || IsPathChar(p[i]))
    && (forall i :: 1 <= i < |p| && p[i] == '/' ==> p[i - 1] != '/')
  }

  /** adbusI_isValidObjectPath */
  method IsValidObjectPath(p: Path) returns (ok: bool)
    ensures ok == IsPath(p)
  {
    if p == [] || p[0] != '/' || (|p| > 1 && p[|p| - 1] == '/') {
      return false;
    }
    var slash, cur := 0, 1;
    while cur < |p|
      invariant 1 <= cur <= |p| && 0 <= slash < cur
      invariant p[slash] == '/' && forall i :: slash < i < cur ==> p[i] != '/'
      invariant forall i :: 0 <= i < cur ==> p[i] == '/' || IsPathChar(p[i])
      invariant forall i :: 1 <= i < cur && p[i] == '/' ==> p[i - 1] != '/'
    {
      if p[cur] == '/' {
        if cur - slash == 1 {
          return false;
        }
        slash := cur;
      } else if !IsPathChar(p[cur]) {
        return false;
      }
      cur := cur + 1;
    }
    return true;
  }

  /** One behind the last slash among the first `n` characters, or 0 */
  function AfterSlash(p: Path, n: nat): (k: nat)
    requires n <= |p|
    ensures k <= n && (k > 0 ==> p[k - 1] == '/')
    ensures forall i :: k <= i < n ==> p[i] != '/'
  {
    if n == 0 || p[n - 1] == '/' then n else AfterSlash(p, n - 1)
  }

  /** The parent of a path; the root has none. */
  function Parent(p: Path): (r: Option<Path>)
    ensures r.Some? ==> |r.value| < |p|
  {
    if |p| <= 1 then None else
    var k := AfterSlash(p, |p| - 1);
    if k == 0 then None
    else if k == 1 then Some(p[..1])
    else Some(p[..k - 1])
  }

  /** What the paths directly below `a` start with */
  function Below(a: Path): string {
    if a == "/" then "/" else a + "/"
  }

  predicate IsName(c: string) {
    c != "" && '/' !in c
  }

  /** The path `p` is the path `r` and one more name. */
  ghost predicate ChildOf(p: Path, r: Path) {
    r != "" && exists c :: IsName(c) && p == Below(r) + c
  }

  /** adbusI_parentPath: what is left of the path without its last name */
  method ParentPath(p: Path) returns (r: Option<Path>)
    requires IsPath(p)
    ensures r.None? <==> p == "/"
    ensures r.Some? ==> IsPath(r.value) && ChildOf(p, r.value)
    ensures r == Parent(p)
  {
    ParentIsPath(p);
    ghost var whole := Parent(p);
    if whole.Some? {
      ParentIff(p, whole.value);
    }
    var size := |p| - 1;
    while size > 0 && p[size - 1] != '/'
      invariant 0 <= size <= |p| - 1
      invariant AfterSlash(p, size) == AfterSlash(p, |p| - 1)
    {
      size := size - 1;
    }
    if size <= 0 {
      return None;
    } else if size == 1 {
      return Some(p[..1]);
    } else {
      return Some(p[..size - 1]);
    }
  }

  /** Only the root has no parent, and parents are paths. */
  lemma {:induction false} ParentIsPath(p: Path)
    requires IsPath(p)
    ensures Parent(p).None? <==> p == "/"
    ensures Parent(p).Some? ==> IsPath(Parent(p).value)
  {
    if |p| > 1 {
      var k := AfterSlash(p, |p| - 1);
      if k > 1 {
        assert p[k - 1] == '/' && p[k - 2] != '/';
      }
    } else {
      assert p == "/";
    }
  }

  /** The parent of a path is the one path that it is a name below. */
  lemma {:induction false} ParentIff(p: Path, r: Path)
    requires IsPath(p)
    ensures Parent(p) == Some(r) <==> ChildOf(p, r)
  {
    if Parent(p) == Some(r) {
      var k := AfterSlash(p, |p| - 1);
      assert IsName(p[k..]) && p == Below(r) + p[k..] by { LastName(p, r, k); }
    }
    if ChildOf(p, r) {
      var c :| IsName(c) && p == Below(r) + c;
      assert p[|Below(r)|..] == c;
      SlashThere(p, |Below(r)|);
      assert p[..|r|] == r;
    }
  }

  lemma {:induction false} LastName(p: Path, r: Path, k: nat)
    requires IsPath(p) && Parent(p) == Some(r) && k == AfterSlash(p, |p| - 1)
    ensures IsName(p[k..]) && p == Below(r) + p[k..]
  {
    assert p[|p| - 1] != '/';
    assert p[k - 1] == '/';
    if k == 1 {
      assert p[..1] == "/";
    } else {
      assert p[k - 2] != '/';
      assert p[..k] == p[..k - 1] + "/";
    }
  }

  /** A name of at least one character behind a slash */
  lemma {:induction false} SlashThere(p: Path, k: nat)
    requires 0 < k < |p| && p[k - 1] == '/' && '/' !in p[k..]
    ensures AfterSlash(p, |p| - 1) == k
  {
    assert forall i :: k <= i < |p| ==> p[i] == p[k..][i - k];
  }

  predicate AncestorOrSelf(a: Path, p: Path)
    decreases |p|
  {
    a == p || (Parent(p).Some? && AncestorOrSelf(a, Parent(p).value))
  }

  /** The path lies at or below `a`, by its text. */
  predicate AtOrBelow(p: Path, a: Path) {
    p == a || a == "/" || a + "/" <= p
  }

  /** The ancestors of a path are the root and the paths that it starts with, up to
      one of its slashes. */
  lemma {:induction false} AncestorIsPrefix(a: Path, p: Path)
    requires IsPath(a) && IsPath(p)
    ensures AncestorOrSelf(a, p) <==> AtOrBelow(p, a)
    decreases |p|
  {
    ParentIsPath(p);
    if p == "/" {
      assert a + "/" <= p ==> |a| == 0;
    } else {
      var r := Parent(p).value;
      AncestorIsPrefix(a, r);
      ParentIff(p, r);
      var c :| IsName(c) && p == Below(r) + c;
      NameAppended(a, r, c);
    }
  }

  lemma {:induction false} NameAppended(a: Path, r: Path, c: string)
    requires IsPath(a) && r != "" && IsName(c)
    ensures a + "/" <= Below(r) + c <==> (r != "/" && a == r) || a + "/" <= r || (r == "/" && a + "/" <= "/")
  {
    var p, n := Below(r) + c, |Below(r)|;
    if a + "/" <= p {
      assert p[|a|] == '/';
      assert forall i :: n <= i < |p| ==> p[i] == c[i - n];
      if r != "/" && |a| < |r| {
        assert a + "/" == p[..|a| + 1] == r[..|a| + 1];
      } else if r != "/" {
        assert a == p[..|a|] == r;
      }
    }
    if r != "/" && a + "/" <= r {
      assert (a + "/") == r[..|a| + 1] == p[..|a| + 1];
    }
    if r != "/" && a == r {
      assert p[..|a| + 1] == a + "/";
    }
  }

  /** The ancestors of a path are paths. */
  lemma {:induction false} AncestorIsPath(a: Path, p: Path)
    requires IsPath(p) && AncestorOrSelf(a, p)
    ensures IsPath(a)
    decreases |p|
  {
    if a != p {
      ParentIsPath(p);
      AncestorIsPath(a, Parent(p).value);
    }
  }

  // -------------------------------------------------------------- the steps

  /** GetObject: register the path and its ancestors. */
  function GetObject(t: Tree, p: Path): (r: Tree)
    ensures p in r && t.Keys <= r.Keys
    decreases |p|
  {
    if p in t then t
    else
      var t1 := t[p := Node(BUILTIN, [])];
      match Parent(p)
      case None => t1
      case Some(q) =>
        var t2 := GetObject(t1, q);
        t2[q := t2[q].(children := t2[q].children + [p])]
  }

  /** adbus_conn_bind: fails when the path has the interface already, but
      registers the path in any case. */
  function Bind(t: Tree, p: Path, i: string): (r: (Tree, bool))
  {
    var t1 := GetObject(t, p);
    if i in t1[p].interfaces then (t1, false)
    else (t1[p := t1[p].(interfaces := t1[p].interfaces + {i})], true)
  }

  /** CheckRemoveObject: prune the path when only the builtin interfaces are
      left and it has no children, and then look at its parent. */
  function CheckRemove(t: Tree, p: Path): (r: Tree)
    ensures r.Keys <= t.Keys
    decreases |p|
  {
    if p !in t || |t[p].interfaces| > 2 || t[p].children != [] then t
    else
      match Parent(p)
      case None => t - {p}
      case Some(q) =>
        if q !in t then t - {p} else
        var t1 := t[q := t[q].(children := RemoveFirst(t[q].children, p))];
        CheckRemove(t1, q) - {p}
  }

  /** adbusI_freeBind of a bind that is in place */
  function Unbind(t: Tree, p: Path, i: string): (r: Tree)
    requires p in t && i in t[p].interfaces
  {
    CheckRemove(t[p := t[p].(interfaces := t[p].interfaces - {i})], p)
  }

  // ---------------------------------------------------------- the invariant

  /** The links of the tree: parents are registered, and the children of a node
      are exactly the registered paths below it, each once. */
  ghost predicate WellLinked(t: Tree) {
    && (forall p :: p in t ==> IsPath(p) && BUILTIN <= t[p].interfaces)
    && (forall p :: p in t && Parent(p).Some? ==> Parent(p).value in t)
    && (forall p :: p in t ==> NoDup(t[p].children))
    && (forall p, c :: p in t ==> (c in t[p].children <==> c in t && Parent(c) == Some(p)))
  }

  /** Somebody bound an interface to the path. */
  predicate UserBound(t: Tree, p: Path) {
    p in t && !(t[p].interfaces <= BUILTIN)
  }

  /** Nothing useless is registered, except possibly `x`. */
  ghost predicate PrunedBut(t: Tree, x: set<Path>) {
    forall p :: p in t && p !in x ==> UserBound(t, p) || t[p].children != []
  }

  ghost predicate Inv(t: Tree) {
    WellLinked(t) && PrunedBut(t, {})
  }

  // ------------------------------------------------------------- registering

  /** The interfaces that users bound stay as they are. */
  ghost predicate SameUsers(t: Tree, r: Tree) {
    && (forall x :: UserBound(t, x) ==> x in r && r[x].interfaces == t[x].interfaces)
    && (forall x :: UserBound(r, x) ==> x in t && r[x].interfaces == t[x].interfaces)
  }

  lemma {:induction false} GetAddsShorter(t: Tree, p: Path, x: Path)
    requires x in GetObject(t, p)
    ensures x in t || |x| <= |p|
    decreases |p|
  {
    if p !in t && Parent(p).Some? && x != p {
      GetAddsShorter(t[p := Node(BUILTIN, [])], Parent(p).value, x);
    }
  }

  /** Registering a shorter path does not look at a longer one. */
  lemma {:induction false} GetCommutes(t: Tree, p: Path, n: Node, q: Path)
    requires |q| < |p|
    ensures GetObject(t[p := n], q) == GetObject(t, q)[p := n]
    decreases |q|
  {
    if q !in t {
      var m := Node(BUILTIN, []);
      assert t[p := n][q := m] == t[q := m][p := n];
      if Parent(q).Some? {
        var o := Parent(q).value;
        GetCommutes(t[q := m], p, n, o);
        var u := GetObject(t[q := m], o);
        var c := u[o].(children := u[o].children + [q]);
        assert u[p := n][o := c] == u[o := c][p := n];
      }
    }
  }

  /** Hanging a new leaf under a registered parent */
  lemma {:induction false} AddLeaf(u: Tree, p: Path, q: Path)
    requires WellLinked(u) && PrunedBut(u, {q}) && IsPath(p) && p !in u && q in u && Parent(p) == Some(q)
    ensures var r := u[p := Node(BUILTIN, [])][q := u[q].(children := u[q].children + [p])];
            WellLinked(r) && PrunedBut(r, {p}) && SameUsers(u, r)
  {
    var r := u[p := Node(BUILTIN, [])][q := u[q].(children := u[q].children + [p])];
    assert p !in u[q].children;
    assert forall x :: x in u && x != q ==> r[x] == u[x];
    forall x, c | x in r
      ensures c in r[x].children <==> c in r && Parent(c) == Some(x)
    {
      if x == p {
        assert forall c' :: c' in u && Parent(c') == Some(p) ==> p in u;
      }
    }
  }

  lemma {:induction false} GetKeeps(t: Tree, p: Path)
    requires Inv(t) && IsPath(p)
    ensures var r := GetObject(t, p);
            WellLinked(r) && PrunedBut(r, {p}) && SameUsers(t, r)
    decreases |p|
  {
    hide WellLinked, PrunedBut, SameUsers, IsPath;
    if p in t {
      AlreadyThere(t, p);
    } else {
      ParentIsPath(p);
      var n := Node(BUILTIN, []);
      match Parent(p)
      case None => AddRoot(t, p);
      case Some(q) =>
        GetKeeps(t, q);
        var u := GetObject(t, q);
        GetCommutes(t, p, n, q);
        if p in u {
          GetAddsShorter(t, q, p);
        }
        AddLeaf(u, p, q);
        var r := u[p := n][q := u[q].(children := u[q].children + [p])];
        assert GetObject(t, p) == r;
        SameUsersTrans(t, u, r);
    }
  }

  lemma {:induction false} AlreadyThere(t: Tree, p: Path)
    requires Inv(t)
    ensures WellLinked(t) && PrunedBut(t, {p}) && SameUsers(t, t)
  {
  }

  lemma {:induction false} SameUsersTrans(t: Tree, u: Tree, r: Tree)
    requires SameUsers(t, u) && SameUsers(u, r)
    ensures SameUsers(t, r)
  {
  }

  lemma {:induction false} AddRoot(t: Tree, p: Path)
    requires Inv(t) && IsPath(p) && p !in t && Parent(p).None?
    ensures var r := t[p := Node(BUILTIN, [])];
            WellLinked(r) && PrunedBut(r, {p}) && SameUsers(t, r)
  {
    var r := t[p := Node(BUILTIN, [])];
    forall x, c | x in r
      ensures c in r[x].children <==> c in r && Parent(c) == Some(x)
    {
      if x == p {
        assert forall c' :: c' in t && Parent(c') == Some(p) ==> p in t;
      }
    }
  }

  // ---------------------------------------------------------------- pruning

  lemma {:induction false} MoreThanBuiltin(s: set<string>)
    requires BUILTIN <= s
    ensures |s| > 2 <==> !(s <= BUILTIN)
  {
    assert INTROSPECTABLE[21] != PROPERTIES[21];
    assert |BUILTIN| == 2;
    if s <= BUILTIN {
      assert s == BUILTIN;
    } else {
      var x :| x in s && x !in BUILTIN;
      SubsetSize(BUILTIN + {x}, s);
    }
  }

  lemma {:induction false} SubsetSize(a: set<string>, b: set<string>)
    requires a <= b
    ensures |a| <= |b|
  {
    assert b == a + (b - a);
  }

  /** Pruning at a shorter path does not look at a longer one. */
  lemma {:induction false} CheckCommutes(t: Tree, p: Path, q: Path)
    requires |q| < |p|
    ensures CheckRemove(t, q) - {p} == CheckRemove(t - {p}, q)
    decreases |q|
  {
    if q in t && |t[q].interfaces| <= 2 && t[q].children == [] {
      match Parent(q)
      case None => assert t - {q} - {p} == t - {p} - {q};
      case Some(o) =>
        if o in t {
          var c := t[o].(children := RemoveFirst(t[o].children, q));
          assert t[o := c] - {p} == (t - {p})[o := c];
          CheckCommutes(t[o := c], p, o);
          var r := CheckRemove(t[o := c], o);
          assert r - {q} - {p} == r - {p} - {q};
        } else {
          assert t - {q} - {p} == t - {p} - {q};
        }
    }
  }

  /** Cutting a useless leaf off its parent */
  lemma {:induction false} CutLeaf(t: Tree, p: Path, q: Path)
    requires WellLinked(t) && PrunedBut(t, {p}) && p in t && t[p].children == [] && t[p].interfaces <= BUILTIN
    requires Parent(p) == Some(q)
    ensures q in t
    ensures var v := t[q := t[q].(children := RemoveFirst(t[q].children, p))] - {p};
            WellLinked(v) && PrunedBut(v, {q}) && q in v && SameUsers(t, v)
  {
    hide IsPath, RemoveFirst, UserBound;
    RemoveFirstFacts(t[q].children, p);
    var cs := RemoveFirst(t[q].children, p);
    var v := t[q := t[q].(children := cs)] - {p};
    assert forall x :: x in v && x != q ==> v[x] == t[x];
    forall c | c in v && Parent(c).Some?
      ensures Parent(c).value in v
    {
      assert c in t && c !in t[p].children;
    }
    CutUsers(t, p, q, cs);
  }

  lemma {:induction false} CutUsers(t: Tree, p: Path, q: Path, cs: seq<Path>)
    requires p in t && q in t && p != q && t[p].interfaces <= BUILTIN
    ensures var v := t[q := t[q].(children := cs)] - {p};
            && SameUsers(t, v)
            && (PrunedBut(t, {p}) ==> PrunedBut(v, {q}))
  {
    var v := t[q := t[q].(children := cs)] - {p};
    assert forall x :: x in v && x != q ==> v[x] == t[x];
  }

  lemma {:induction false} CutRoot(t: Tree, p: Path)
    requires WellLinked(t) && PrunedBut(t, {p}) && p in t && t[p].children == [] && t[p].interfaces <= BUILTIN
    requires Parent(p).None?
    ensures Inv(t - {p}) && SameUsers(t, t - {p})
  {
    var v := t - {p};
    forall c | c in v && Parent(c).Some?
      ensures Parent(c).value in v
    {
      assert c !in t[p].children;
    }
  }

  lemma {:induction false} CheckKeeps(t: Tree, p: Path)
    requires WellLinked(t) && PrunedBut(t, {p}) && p in t
    ensures Inv(CheckRemove(t, p)) && SameUsers(t, CheckRemove(t, p))
    decreases |p|
  {
    MoreThanBuiltin(t[p].interfaces);
    if |t[p].interfaces| <= 2 && t[p].children == [] {
      match Parent(p)
      case None => CutRoot(t, p);
      case Some(q) =>
        CutLeaf(t, p, q);
        var t1 := t[q := t[q].(children := RemoveFirst(t[q].children, p))];
        CheckCommutes(t1, p, q);
        CheckKeeps(t1 - {p}, q);
    }
  }

  // ------------------------------------------------------- binds and unbinds

  /** The user binds: pairs of a path and an interface that is not builtin */
  ghost function Users(t: Tree): set<(Path, string)> {
    set p, i | p in t && i in t[p].interfaces && i !in BUILTIN :: (p, i)
  }

  lemma {:induction false} SameUsersEqual(t: Tree, r: Tree)
    requires SameUsers(t, r)
    ensures Users(t) == Users(r)
  {
    forall p, i
      ensures (p, i) in Users(t) <==> (p, i) in Users(r)
    {
      if (p, i) in Users(t) {
        assert UserBound(t, p);
      }
      if (p, i) in Users(r) {
        assert UserBound(r, p);
      }
    }
  }

  lemma {:induction false} InterfaceAdded(t1: Tree, p: Path, i: string)
    requires WellLinked(t1) && PrunedBut(t1, {p}) && p in t1 && i !in BUILTIN && i !in t1[p].interfaces
    ensures var r := t1[p := t1[p].(interfaces := t1[p].interfaces + {i})];
            Inv(r) && Users(r) == Users(t1) + {(p, i)} && (p, i) !in Users(t1)
  {
    var r := t1[p := t1[p].(interfaces := t1[p].interfaces + {i})];
    assert UserBound(r, p);
    assert forall x :: x in t1 && x != p ==> r[x] == t1[x];
  }

  /** A bind of a user interface adds exactly that bind and keeps the tree. */
  lemma {:induction false} BindKeeps(t: Tree, p: Path, i: string)
    requires Inv(t) && IsPath(p) && i !in BUILTIN
    ensures Inv(Bind(t, p, i).0)
    ensures Users(Bind(t, p, i).0) == Users(t) + {(p, i)}
    ensures Bind(t, p, i).1 <==> (p, i) !in Users(t)
  {
    hide GetObject;
    GetKeeps(t, p);
    var t1 := GetObject(t, p);
    SameUsersEqual(t, t1);
    if i !in t1[p].interfaces {
      InterfaceAdded(t1, p, i);
    } else {
      assert UserBound(t1, p);
      assert (p, i) in Users(t1);
      assert Users(t1) == Users(t1) + {(p, i)};
    }
  }

  /** An unbind removes exactly that bind and keeps the tree. */
  lemma {:induction false} UnbindKeeps(t: Tree, p: Path, i: string)
    requires Inv(t) && (p, i) in Users(t)
    ensures Inv(Unbind(t, p, i)) && Users(Unbind(t, p, i)) == Users(t) - {(p, i)}
  {
    hide CheckRemove;
    var t1 := t[p := t[p].(interfaces := t[p].interfaces - {i})];
    assert forall x :: x in t && x != p ==> t1[x] == t[x];
    assert WellLinked(t1) && PrunedBut(t1, {p});
    assert Users(t1) == Users(t) - {(p, i)};
    CheckKeeps(t1, p);
    SameUsersEqual(t1, CheckRemove(t1, p));
  }

  /** A bind keeps the tree exactly unless it names a builtin interface on a path
      that is not registered: that registers a path nobody will prune. */
  lemma {:induction false} BindKeepsIff(t: Tree, p: Path, i: string)
    requires Inv(t) && IsPath(p)
    ensures Inv(Bind(t, p, i).0) <==> i !in BUILTIN || p in t
  {
    if i !in BUILTIN {
      BindKeeps(t, p, i);
    } else {
      hide WellLinked;
      GetKeeps(t, p);
      assert i in GetObject(t, p)[p].interfaces by { BuiltinBound(GetObject(t, p), p, i); }
      if p !in t {
        FreshPathUseless(t, p);
      }
    }
  }

  /** Such a bind, on an empty tree */
  lemma {:induction false} BuiltinBindStays()
    ensures Inv(map[]) && !Inv(Bind(map[], "/", INTROSPECTABLE).0)
  {
    hide Bind;
    var none: Tree := map[];
    assert Inv(none) && IsPath("/");
    BindKeepsIff(none, "/", INTROSPECTABLE);
  }

  lemma {:induction false} BuiltinBound(t: Tree, p: Path, i: string)
    requires WellLinked(t) && p in t && i in BUILTIN
    ensures i in t[p].interfaces
  {
  }

  lemma {:induction false} FreshPathUseless(t: Tree, p: Path)
    requires p !in t
    ensures GetObject(t, p)[p] == Node(BUILTIN, [])
  {
    if Parent(p).Some? {
      var q := Parent(p).value;
      GetCommutes(t, p, Node(BUILTIN, []), q);
    }
  }

  // ------------------------------------------------------- the exact contents

  /** Every registered path leads to a bind at or below it. */
  lemma {:induction false} BoundBelow(t: Tree, p: Path, n: nat) returns (u: Path)
    requires Inv(t) && p in t && forall x :: x in t ==> |x| <= n
    ensures UserBound(t, u) && AncestorOrSelf(p, u)
    decreases n - |p|
  {
    hide Inv, UserBound, AncestorOrSelf;
    u := p;
    if UserBound(t, p) {
      SelfAncestor(p);
    } else {
      var c := UsefulChild(t, p);
      u := BoundBelow(t, c, n);
      AncestorTrans(p, c, u);
    }
  }

  lemma {:induction false} SelfAncestor(p: Path)
    ensures AncestorOrSelf(p, p)
  {
  }

  /** A path that nobody bound has a child. */
  lemma {:induction false} UsefulChild(t: Tree, p: Path) returns (c: Path)
    requires Inv(t) && p in t && !UserBound(t, p)
    ensures c in t && |c| > |p| && AncestorOrSelf(p, c)
  {
    c := t[p].children[0];
    assert c in t[p].children;
    SelfAncestor(p);
  }

  lemma {:induction false} AncestorTrans(a: Path, b: Path, c: Path)
    requires AncestorOrSelf(a, b) && AncestorOrSelf(b, c)
    ensures AncestorOrSelf(a, c)
    decreases |c|
  {
    if b != c {
      AncestorTrans(a, b, Parent(c).value);
    }
  }

  lemma {:induction false} AncestorsRegistered(t: Tree, a: Path, p: Path)
    requires WellLinked(t) && p in t && AncestorOrSelf(a, p)
    ensures a in t
    decreases |p|
  {
    if a != p {
      AncestorsRegistered(t, a, Parent(p).value);
    }
  }

  lemma {:induction false} LongestPath(t: Tree) returns (n: nat)
    ensures forall x :: x in t ==> |x| <= n
    decreases |t|
  {
    n := 0;
    if x :| x in t {
      n := LongestPath(t - {x});
      assert forall y :: y in t ==> y == x || y in t - {x};
      n := if |x| > n then |x| else n;
    }
  }

  /** The registered paths are exactly the paths that a path with a user bind lies
      at or below. */
  lemma {:induction false} RegisteredExactly(t: Tree, p: Path)
    requires Inv(t)
    ensures p in t <==> IsPath(p) && exists u :: UserBound(t, u) && AtOrBelow(u, p)
  {
    hide AncestorOrSelf, IsPath, UserBound, AtOrBelow, PrunedBut;
    if p in t {
      var n := LongestPath(t);
      var u := BoundBelow(t, p, n);
      BoundIsPath(t, u);
      AncestorIsPrefix(p, u);
      assert UserBound(t, u) && AtOrBelow(u, p);
    }
    forall u | IsPath(p) && UserBound(t, u) && AtOrBelow(u, p)
      ensures p in t
    {
      BoundIsPath(t, u);
      AncestorIsPrefix(p, u);
      AncestorsRegistered(t, p, u);
    }
  }

  lemma {:induction false} BoundIsPath(t: Tree, u: Path)
    requires Inv(t) && UserBound(t, u)
    ensures u in t && IsPath(u)
  {
  }

  datatype Op = DoBind(p: Path, i: string) | DoUnbind(p: Path, i: string)

  /** An operation of a client: a bind of a user interface to a valid path, or an
      unbind, which does something only for a bind that is in place. */
  predicate GoodOp(op: Op) {
    IsPath(op.p) && op.i !in BUILTIN
  }

  function Step(t: Tree, op: Op): (r: Tree)
  {
    match op
    case DoBind(p, i) => Bind(t, p, i).0
    case DoUnbind(p, i) => if p in t && i in t[p].interfaces then Unbind(t, p, i) else t
  }

  function Exec(t: Tree, ops: seq<Op>): (r: Tree)
    decreases ops
  {
    if ops == [] then t else Exec(Step(t, ops[0]), ops[1..])
  }

  /** The binds that a history of operations leaves in place */
  function Held(b: set<(Path, string)>, ops: seq<Op>): (r: set<(Path, string)>)
    decreases ops
  {
    if ops == [] then b
    else
      var op := ops[0];
      Held(if op.DoBind? then b + {(op.p, op.i)} else b - {(op.p, op.i)}, ops[1..])
  }

  lemma {:induction false} StepKeeps(t: Tree, op: Op)
    requires Inv(t) && GoodOp(op)
    ensures Inv(Step(t, op))
    ensures Users(Step(t, op)) == if op.DoBind? then Users(t) + {(op.p, op.i)} else Users(t) - {(op.p, op.i)}
  {
    hide Inv, Users, Bind, Unbind;
    match op
    case DoBind(p, i) => BindKeeps(t, p, i);
    case DoUnbind(p, i) =>
      UserBindIff(t, p, i);
      if p in t && i in t[p].interfaces {
        UnbindKeeps(t, p, i);
      } else {
        assert Users(t) - {(p, i)} == Users(t);
      }
  }

  /** After every history the tree is in order and holds exactly the binds that
      the history leaves. */
  lemma {:induction false} EveryHistory(t: Tree, ops: seq<Op>)
    requires Inv(t) && forall k :: 0 <= k < |ops| ==> GoodOp(ops[k])
    ensures Inv(Exec(t, ops)) && Users(Exec(t, ops)) == Held(Users(t), ops)
    decreases ops
  {
    hide Inv, Users, Step, GoodOp;
    if ops != [] {
      StepKeeps(t, ops[0]);
      EveryHistory(Step(t, ops[0]), ops[1..]);
    }
  }

  lemma {:induction false} UserBindIff(t: Tree, p: Path, i: string)
    requires i !in BUILTIN
    ensures (p, i) in Users(t) <==> p in t && i in t[p].interfaces
  {
  }

  /** From the empty tree: after any history the registered paths are exactly those
      that a path with a bind left in place lies at or below. */
  lemma {:induction false} RegisteredAfter(ops: seq<Op>, p: Path)
    requires forall k :: 0 <= k < |ops| ==> GoodOp(ops[k])
    ensures p in Exec(map[], ops) <==> IsPath(p) && exists u, i :: (u, i) in Held({}, ops) && AtOrBelow(u, p)
  {
    hide AtOrBelow, Exec, Held, IsPath;
    var none: Tree := map[];
    assert Users(none) == {};
    EveryHistory(none, ops);
    var t := Exec(none, ops);
    RegisteredExactly(t, p);
    forall u
      ensures UserBound(t, u) <==> exists i :: (u, i) in Users(t)
    {
      if UserBound(t, u) {
        var i :| i in t[u].interfaces && i !in BUILTIN;
        assert (u, i) in Users(t);
      }
    }
  }
}
