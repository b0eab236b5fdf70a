/** No two live folders of a tenant share a path: exactly which names keep it so in one creation or one
    rename, starting from a table whose index is in order. Whole runs are in FolderAlphabets. */
module FolderClashes {
  import opened Wrappers
  import opened Text
  import opened FolderModel
  import opened FolderLinks
  import opened FolderIndex
  import opened CleanPaths

  /** No two live folders of a tenant share a path. */
  ghost predicate UniquePaths(t: Table) {
    forall x, y :: Live(t, x) && Live(t, y) && t[x].tenant == t[y].tenant && t[x].path == t[y].path ==> x == y
  }

  // ---------- Paths as lists of names ----------

  /** The path of a live folder of an ordered table is made of clean names. */
  lemma {:induction false} LivePathIsClean(t: Table, x: Id)
    requires Coherent(t) && Live(t, x)
    ensures AllClean(Split(t[x].path))
    decreases |t[x].path|
  {
    var n := t[x].name;
    assert CleanName(n) && Placed(t, x);
    assert t[x].parent.Some? ==> Live(t, t[x].parent.value);
    hide Coherent, CleanName, Split, AllClean;
    SlashFree(n);
    AllCleanOne(n);
    if t[x].parent.None? {
      SplitFlat(n);
    } else {
      var p := t[x].parent.value;
      LivePathIsClean(t, p);
      SplitSnoc(t[p].path, n);
      AllCleanConcat(Split(t[p].path), [n]);
    }
  }

  lemma SlashFree(n: string)
    requires CleanName(n)
    ensures '/' !in n
  {
  }

  lemma CleanUnder(t: Table, parent: Option<Id>, path: string)
    requires Coherent(t) && (parent.Some? ==> Live(t, parent.value))
    ensures AllClean(Split(PathUnder(t, parent, path))) <==> AllClean(Split(path))
  {
    if parent.Some? {
      var q := t[parent.value].path;
      LivePathIsClean(t, parent.value);
      hide Coherent, CleanName, Split;
      SplitUnder(q, path);
      AllCleanConcat(Split(q), Split(path));
    }
  }

  // ---------- Chains of folders ----------

  lemma FreshId(t: Table) returns (id: Id)
    ensures Unused(t, id)
  {
    var used := t.Keys + set x | x in t && t[x].parent.Some? :: t[x].parent.value;
    id := Greater(used);
    forall x | x in t ensures t[x].parent != Some(id) {
      if t[x].parent.Some? { assert t[x].parent.value in used; }
    }
  }

  lemma {:induction false} Greater(s: set<nat>) returns (n: nat)
    ensures forall k :: k in s ==> k < n
    decreases |s|
  {
    if s == {} {
      n := 0;
    } else {
      var k :| k in s;
      var m := Greater(s - {k});
      n := if k < m then m else k + 1;
      assert forall j :: j in s ==> j == k || j in s - {k};
    }
  }

  /** u holds all of t, and the live folder z without children at `path` under the given parent. */
  ghost predicate Grown(t: Table, u: Table, tenant: Tenant, parent: Option<Id>, path: string, z: Id)
    requires parent.Some? ==> parent.value in t
  {
    && Coherent(u) && Acyclic(u)
    && (forall x :: x in t ==> x in u && u[x] == t[x])
    && LiveIn(u, tenant, z) && z !in t && u[z].path == PathUnder(t, parent, path)
    && (forall x :: x in u ==> u[x].parent != Some(z))
  }

  lemma InsertGrows(t: Table, tenant: Tenant, name: string, parent: Option<Id>) returns (u: Table, z: Id)
    requires Coherent(t) && Acyclic(t) && CleanName(name) && !Taken(t, tenant, parent, name, None)
    requires parent.Some? ==> LiveIn(t, tenant, parent.value)
    ensures Grown(t, u, tenant, parent, name, z)
    ensures u == Inserted(t, tenant, z, name, parent)
  {
    z := FreshId(t);
    u := Inserted(t, tenant, z, name, parent);
    InsertedCoherent(t, tenant, z, name, parent);
    AddAcyclic(t, z, u[z]);
  }

  /** Under any live folder, a chain of folders can be made for any list of clean names whose first
      is free there. */
  lemma {:induction false} BuildChain(t: Table, tenant: Tenant, parent: Option<Id>, ns: seq<string>)
    returns (u: Table, z: Id)
    requires Coherent(t) && Acyclic(t) && |ns| > 0 && AllClean(ns)
    requires !Taken(t, tenant, parent, ns[0], None) && (parent.Some? ==> LiveIn(t, tenant, parent.value))
    ensures Grown(t, u, tenant, parent, Join(ns), z)
  {
    var k := |ns| - 1;
    hide Coherent, Acyclic, CleanName;
    if k == 0 {
      u, z := InsertGrows(t, tenant, ns[0], parent);
    } else {
      var v, y := BuildChain(t, tenant, parent, ns[..k]);
      u, z := InsertGrows(v, tenant, ns[k], Some(y));
      assert u[z].path == PathUnder(t, parent, Join(ns[..k]) + "/" + ns[k]);
    }
  }

  // ---------- Creation ----------

  /** Where the index is in order this name creates no clash: it has no '/', or one of the pieces between
      slashes is not clean. */
  predicate NoClash(name: string) {
    '/' !in name || exists i :: 0 <= i < |Split(name)| && !CleanName(Split(name)[i])
  }

  /** A place whose duplicate check passes is at a path no other live folder has. */
  lemma FreshPath(t: Table, tenant: Tenant, parent: Option<Id>, name: string, except: Option<Id>)
    requires Coherent(t) && NoClash(name) && (parent.Some? ==> LiveIn(t, tenant, parent.value))
    requires !Taken(t, tenant, parent, name, except)
    ensures !PathInUse(t, tenant, PathUnder(t, parent, name), except)
  {
    if '/' !in name {
      TakenIffPathInUse(t, tenant, parent, name, except);
    } else {
      CleanUnder(t, parent, name);
      forall y | y in t && LiveIn(t, tenant, y) ensures t[y].path != PathUnder(t, parent, name) {
        LivePathIsClean(t, y);
      }
    }
  }

  lemma CreateKeepsUnique(t: Table, tenant: Tenant, id: Id, name: string, parent: Option<Id>)
    requires Coherent(t) && Unused(t, id) && NoClash(name) && Create(t, tenant, id, name, parent).1.Done?
    ensures UniquePaths(Create(t, tenant, id, name, parent).0)
  {
    CreateInserts(t, tenant, id, name, parent);
    FreshPath(t, tenant, parent, name, None);
    var u := Inserted(t, tenant, id, name, parent);
    forall x, y | Live(u, x) && Live(u, y) && u[x].tenant == u[y].tenant && u[x].path == u[y].path
      ensures x == y
    {
      if x != id && y != id { PathsDiffer(t, x, y); }
    }
  }

  lemma EmptyTable(t: Table)
    requires t == map[]
    ensures Coherent(t) && Acyclic(t)
  {
  }

  lemma SlashNotBlank(name: string)
    requires '/' in name
    ensures !Blank(name)
  {
    var i :| 0 <= i < |name| && name[i] == '/';
    assert !IsSpace(name[i]);
  }

  /** A chain of folders named by the pieces of the name, then the name itself at the root. */
  lemma CreateClashes(name: string) returns (t: Table, id: Id)
    requires !NoClash(name)
    ensures Coherent(t) && Unused(t, id) && Create(t, 0, id, name, None).1.Done?
    ensures !UniquePaths(Create(t, 0, id, name, None).0)
  {
    EmptyTable(map[]);
    var z;
    t, z := BuildChain(map[], 0, None, Split(name));
    JoinSplit(name);
    id := FreshId(t);
    SlashNotBlank(name);
    SlashedNameIsFree(t, 0, None, name, None);
    var u := Create(t, 0, id, name, None).0;
    assert Live(u, id) && Live(u, z);
  }

  /** Creating a folder of this name in a table whose index is in order leaves all paths different. */
  ghost predicate CreateIsUnique(t: Table, tenant: Tenant, id: Id, name: string, parent: Option<Id>) {
    Coherent(t) && Unused(t, id) && Create(t, tenant, id, name, parent).1.Done? ==>
      UniquePaths(Create(t, tenant, id, name, parent).0)
  }

  /** Exactly which names can be created, in any table whose index is in order, without putting two live
      folders at one path: those without '/', and those with a '/' of which some piece is not a clean name.
      Names that keep paths apart here may still put the index out of order for a later request. */
  lemma UniqueAfterCreateIff(name: string)
    ensures (forall t: Table, tenant: Tenant, id: Id, parent: Option<Id> :: CreateIsUnique(t, tenant, id, name, parent))
            <==> NoClash(name)
  {
    if NoClash(name) {
      forall t: Table, tenant: Tenant, id: Id, parent: Option<Id>
        ensures CreateIsUnique(t, tenant, id, name, parent)
      {
        if Coherent(t) && Unused(t, id) && Create(t, tenant, id, name, parent).1.Done? {
          CreateKeepsUnique(t, tenant, id, name, parent);
        }
      }
    } else {
      var t, id := CreateClashes(name);
      assert !CreateIsUnique(t, 0, id, name, None);
    }
  }

  // ---------- Renaming ----------

  /** Where the index is in order a renamed folder causes no clash: neither the name itself does, nor, if it
      holds a template, what the template makes of it. Which folder is renamed plays no part, so the path
      "a" with a child "a/b" stands for all of them. */
  predicate NoClashRenaming(name: string) {
    NoClash(name) && (NoTemplate(name) || !AllClean(Split(Expand(name, "a", "", "/b"))))
  }

  /** What the children's update makes of the path old' + tail. */
  function Carried(path: string, old': string, tail: string): string {
    Expand(path, old', "", tail) + tail
  }

  predicate IsCarried(t: Table, x: Id, y: Id)
    requires x in t && y in t
  {
    y != x && t[y].tenant == t[x].tenant && t[x].path + "/" <= t[y].path
  }

  function Tail(t: Table, x: Id, y: Id): (a: string)
    requires x in t && y in t && IsCarried(t, x, y)
    ensures t[y].path == t[x].path + a && a != "" && a[0] == '/'
  {
    t[y].path[|t[x].path|..]
  }

  function RenamedPath(t: Table, x: Id, path: string, y: Id): string
    requires x in t && y in t
  {
    if y == x then path
    else if IsCarried(t, x, y) then Carried(path, t[x].path, Tail(t, x, y))
    else t[y].path
  }

  lemma RenameGives(t: Table, tenant: Tenant, x: Id, name: string, y: Id)
    requires Coherent(t) && name != "" && y in t
    requires Rename(t, tenant, x, Some(name)).1.Done? && name != t[x].name
    ensures var u := Rename(t, tenant, x, Some(name)).0;
            (t[x].parent.Some? ==> LiveIn(t, tenant, t[x].parent.value)) &&
            u.Keys == t.Keys && u[y].tenant == t[y].tenant && u[y].deleted == t[y].deleted &&
            u[y].path == RenamedPath(t, x, PathUnder(t, t[x].parent, name), y)
  {
    assert Live(t, x) && Placed(t, x);
    MatchedIsPrefix(t, x, y);
    hide Coherent, Placed, InSubtree;
    hide Replace, Carried;
    if IsCarried(t, x, y) { ReplaceCarries(t[y].path, t[x].path, PathUnder(t, t[x].parent, name)); }
  }

  lemma ReplaceCarries(s: string, old': string, r: string)
    requires old' + "/" <= s
    ensures Replace(s, old', r) == Carried(r, old', s[|old'|..])
  {
    hide Expand;
    assert old' <= old' + "/" <= s && s[..0] == "";
    var tail := s[|old'|..];
    var e := Expand(r, old', "", tail);
    assert "" + e + tail == e + tail;
  }

  lemma TailClean(t: Table, x: Id, y: Id)
    requires Coherent(t) && Live(t, x) && Live(t, y) && IsCarried(t, x, y)
    ensures NoTemplate(Tail(t, x, y))
  {
    var a := Tail(t, x, y);
    assert NoTemplate(t[y].path);
    assert forall k :: 0 <= k < |a| ==> a[k] == t[y].path[|t[x].path| + k];
  }

  /** A carried path does not meet the path of a folder that stayed. */
  lemma CarriedMeetsNone(t: Table, x: Id, name: string, y: Id, z: Id)
    requires Coherent(t) && Live(t, x) && Live(t, y) && Live(t, z) && NoClashRenaming(name)
    requires (t[x].parent.Some? ==> LiveIn(t, t[x].tenant, t[x].parent.value))
    requires !Taken(t, t[x].tenant, t[x].parent, name, Some(x))
    requires IsCarried(t, x, y) && z != x && !IsCarried(t, x, z) && t[z].tenant == t[x].tenant
    ensures Carried(PathUnder(t, t[x].parent, name), t[x].path, Tail(t, x, y)) != t[z].path
  {
    var parent, a := t[x].parent, Tail(t, x, y);
    hide Expand, Split, AllClean, CleanName;
    if NoTemplate(name) {
      StayingClear(t, x, name, z, a);
    } else if Carried(PathUnder(t, parent, name), t[x].path, a) == t[z].path {
      var e := Expand(name, t[x].path, "", a);
      CarriedUnder(t, parent, name, t[x].path, a);
      LivePathIsClean(t, z);
      CleanUnder(t, parent, e + a);
      hide Coherent, NoTemplate;
      CleanBeforeTail(e, a);
      assert PlainTail("/b") && Plain("a") by { PlainSample(); }
      CleanExpansion(name, t[x].path, a, "a", "/b");
    }
  }

  lemma PlainSample()
    ensures PlainTail("/b") && Plain("a")
  {
    assert "/b"[1..] == "b" && "b"[1..] == "" && "a"[1..] == "";
  }

  lemma CarriedUnder(t: Table, parent: Option<Id>, name: string, old': string, a: string)
    requires Coherent(t) && (parent.Some? ==> Live(t, parent.value))
    ensures Carried(PathUnder(t, parent, name), old', a) == PathUnder(t, parent, Expand(name, old', "", a) + a)
  {
    if parent.Some? {
      var q := t[parent.value].path;
      assert NoTemplate(q);
      hide Expand, Coherent;
      ChildPathClean(q, "");
      assert q + "/" + "" == q + "/" && q + "/" + name == (q + "/") + name;
      ExpandSkips(q + "/", name, old', "", a);
      var e := Expand(name, old', "", a);
      assert q + "/" + e + a == q + "/" + (e + a);
    }
  }

  lemma CleanBeforeTail(e: string, a: string)
    requires a != "" && a[0] == '/' && AllClean(Split(e + a))
    ensures AllClean(Split(e))
  {
    hide Split, AllClean, CleanName;
    assert e + a == e + "/" + a[1..];
    SplitUnder(e, a[1..]);
    AllCleanConcat(Split(e), Split(a[1..]));
  }

  lemma StayingClear(t: Table, x: Id, name: string, z: Id, a: string)
    requires Coherent(t) && Live(t, x) && Live(t, z) && NoClash(name) && NoTemplate(name)
    requires (t[x].parent.Some? ==> LiveIn(t, t[x].tenant, t[x].parent.value))
    requires !Taken(t, t[x].tenant, t[x].parent, name, Some(x))
    requires z != x && !IsCarried(t, x, z) && t[z].tenant == t[x].tenant && a != "" && a[0] == '/'
    ensures Carried(PathUnder(t, t[x].parent, name), t[x].path, a) != t[z].path
  {
    var parent := t[x].parent;
    var path := PathUnder(t, parent, name);
    if Carried(path, t[x].path, a) == t[z].path {
      if parent.Some? { ChildPathClean(t[parent.value].path, name); }
      NoTemplateExpands(path, t[x].path, "", a);
      assert path + "/" <= path + a;
      var o := PrefixHasOwner(t, z, path);
      FreshPath(t, t[x].tenant, parent, name, Some(x));
    }
  }

  lemma PathsStayApart(t: Table, x: Id, name: string, y: Id, z: Id)
    requires Coherent(t) && Live(t, x) && Live(t, y) && Live(t, z) && NoClashRenaming(name)
    requires (t[x].parent.Some? ==> LiveIn(t, t[x].tenant, t[x].parent.value))
    requires !Taken(t, t[x].tenant, t[x].parent, name, Some(x))
    requires t[y].tenant == t[z].tenant && y != z && y != x
    requires IsCarried(t, x, z) ==> IsCarried(t, x, y)
    ensures var path := PathUnder(t, t[x].parent, name);
            RenamedPath(t, x, path, y) != RenamedPath(t, x, path, z)
  {
    var path := PathUnder(t, t[x].parent, name);
    if IsCarried(t, x, y) {
      TailClean(t, x, y);
      if z == x {
        CarriedDiffers(path, t[x].path, Tail(t, x, y));
      } else if IsCarried(t, x, z) {
        hide Coherent, Expand, NoTemplate, NoClash;
        PathsDifferAgain(t, y, z);
        CarriedApart(path, t[x].path, Tail(t, x, y), Tail(t, x, z));
      } else {
        CarriedMeetsNone(t, x, name, y, z);
      }
    } else if z == x {
      FreshPath(t, t[x].tenant, t[x].parent, name, Some(x));
    } else {
      PathsDifferAgain(t, y, z);
    }
  }

  lemma PathsDifferAgain(t: Table, x: Id, y: Id)
    requires Coherent(t) && Live(t, x) && Live(t, y) && t[x].tenant == t[y].tenant && x != y
    ensures t[x].path != t[y].path
  {
    if t[x].path == t[y].path { PathsDiffer(t, x, y); }
  }

  lemma RenameKeepsUnique(t: Table, tenant: Tenant, x: Id, name: string)
    requires Coherent(t) && name != "" && NoClashRenaming(name)
    requires Rename(t, tenant, x, Some(name)).1.Done?
    ensures UniquePaths(Rename(t, tenant, x, Some(name)).0)
  {
    var u := Rename(t, tenant, x, Some(name)).0;
    if name == t[x].name {
      forall y, z | Live(u, y) && Live(u, z) && u[y].tenant == u[z].tenant && u[y].path == u[z].path
        ensures y == z
      {
        PathsDiffer(t, y, z);
      }
    } else {
      assert !Taken(t, tenant, t[x].parent, name, Some(x));
      assert u.Keys == t.Keys;
      forall y | y in t
        ensures (t[x].parent.Some? ==> LiveIn(t, tenant, t[x].parent.value))
        ensures u[y].tenant == t[y].tenant && u[y].deleted == t[y].deleted
        ensures u[y].path == RenamedPath(t, x, PathUnder(t, t[x].parent, name), y)
      {
        RenameGives(t, tenant, x, name, y);
      }
      hide Coherent, Rename, Taken, NoClashRenaming, RenamedPath, IsCarried;
      forall y, z | Live(u, y) && Live(u, z) && u[y].tenant == u[z].tenant && u[y].path == u[z].path
        ensures y == z
      {
        if y != z { RenamedApart(t, x, name, y, z); }
      }
    }
  }

  lemma RenamedApart(t: Table, x: Id, name: string, y: Id, z: Id)
    requires Coherent(t) && Live(t, x) && Live(t, y) && Live(t, z) && NoClashRenaming(name)
    requires (t[x].parent.Some? ==> LiveIn(t, t[x].tenant, t[x].parent.value))
    requires !Taken(t, t[x].tenant, t[x].parent, name, Some(x))
    requires t[y].tenant == t[z].tenant && y != z
    ensures var path := PathUnder(t, t[x].parent, name);
            RenamedPath(t, x, path, y) != RenamedPath(t, x, path, z)
  {
    if y == x || (IsCarried(t, x, z) && !IsCarried(t, x, y)) {
      PathsStayApart(t, x, name, z, y);
    } else {
      PathsStayApart(t, x, name, y, z);
    }
  }

  /** A name longer than the given one. */
  function Longer(name: string): (c: string)
    ensures |c| == |name| + 1 && forall i :: 0 <= i < |c| ==> c[i] == 'c'
    ensures CleanName(c)
  {
    seq(|name| + 1, _ => 'c')
  }

  lemma FirstNameShort(name: string)
    ensures |Split(name)[0]| <= |name|
  {
    JoinSplit(name);
    FirstName(Split(name));
  }

  /** A name with '/' and clean pieces meets a chain of folders. */
  lemma NameMeetsChain(name: string) returns (t: Table, x: Id)
    requires !NoClash(name)
    ensures Coherent(t) && Acyclic(t) && Rename(t, 0, x, Some(name)).1.Done?
    ensures !UniquePaths(Rename(t, 0, x, Some(name)).0)
  {
    var c := Longer(name);
    var t0, z;
    EmptyTable(map[]);
    FirstNameShort(name);
    JoinSplit(name);
    assert '/' in name && AllClean(Split(name));
    hide NoClash, CleanName, AllClean, Split, Join, Coherent, Acyclic, Longer, Rename;
    t0, x := InsertGrows(map[], 0, c, None);
    t, z := BuildChain(t0, 0, None, Split(name));
    assert t[x] == Row(0, None, c, c, false) && t[z].path == name;
    NameMeets(t, x, z, name, c);
  }

  lemma NameMeets(t: Table, x: Id, z: Id, name: string, c: string)
    requires Coherent(t) && '/' in name && |c| > |name| && x in t && t[x] == Row(0, None, c, c, false)
    requires LiveIn(t, 0, z) && z != x && t[z].path == name
    ensures Rename(t, 0, x, Some(name)).1.Done? && !UniquePaths(Rename(t, 0, x, Some(name)).0)
  {
    SlashedNameIsFree(t, 0, None, name, Some(x));
    RenameGives(t, 0, x, name, x);
    RenameGives(t, 0, x, name, z);
    var u := Rename(t, 0, x, Some(name)).0;
    hide Coherent, Rename;
    assert !(c + "/" <= name);
    assert Live(u, x) && Live(u, z) && u[x].path == u[z].path;
  }

  lemma {:induction false} GoodRun(prev: char, c: string)
    requires prev != '$' && forall i :: 0 <= i < |c| ==> c[i] == 'c'
    ensures Good(prev, c)
    decreases |c|
  {
    if c != "" { GoodRun('c', c[1..]); }
  }

  lemma PlainPath(name: string)
    ensures Plain("p/" + Longer(name)) && PlainTail("/b")
  {
    var c := Longer(name);
    var m := "p/" + c;
    GoodRun('/', c);
    GoodConcat('a', "p/", c);
    assert "p/"[1..] == "/" && "/"[1..] == "" && Last('a', "p/") == '/' && Good('a', "p/");
    assert "/b"[1..] == "b" && "b"[1..] == "";
    assert m[|m| - 1] == c[|c| - 1];
  }

  /** The table of a root "p", a folder c below it, and "b" below that. */
  lemma PathWithChild(c: string) returns (t: Table, p: Id, x: Id, b: Id)
    requires CleanName(c)
    ensures Coherent(t) && Acyclic(t) && t.Keys == {p, x, b} && p != x && b != p && b != x
    ensures t[p] == Row(0, None, "p", "p", false)
    ensures t[x] == Row(0, Some(p), c, "p/" + c, false)
    ensures t[b] == Row(0, Some(x), "b", "p/" + c + "/b", false)
  {
    CleanB();
    EmptyTable(map[]);
    hide Coherent, Acyclic, CleanName;
    var t1, t2;
    t1, p := InsertGrows(map[], 0, "p", None);
    t2, x := InsertGrows(t1, 0, c, Some(p));
    t, b := InsertGrows(t2, 0, "b", Some(x));
    assert "p" + "/" + c == "p/" + c;
  }

  lemma ShortPiece(name: string, m: string, e: string, c: string)
    requires |m| > 1 && m[1] == '/' && e == Expand(name, m, "", "/b")
    requires |c| == |name| + 1 && '/' !in c
    ensures !(c <= e) && !(c + "/" <= e + "/b")
  {
    if c <= e {
      assert e[..|c|] == c;
      FirstPieceShort(name, m, "/b", |c|);
    }
    if c + "/" <= e + "/b" { CutEarlier(c, e); }
  }

  lemma CutEarlier(c: string, e: string)
    requires '/' !in c && c + "/" <= e + "/b"
    ensures c <= e
  {
    var s := e + "/b";
    assert s[|e|] == '/' && c == (c + "/")[..|c|] == s[..|c|];
    assert forall i :: 0 <= i < |c| ==> c[i] == s[i];
  }

  lemma CleanB()
    ensures CleanName("p") && CleanName("b") && AllClean(["b"])
  {
  }

  lemma ChainNames(e: string) returns (ns: seq<string>)
    requires AllClean(Split(e))
    ensures |ns| > 0 && AllClean(ns) && Join(ns) == e + "/" + "b" && ns[0] <= e
  {
    hide CleanName, AllClean, Split, Join;
    ns := Split(e) + ["b"];
    CleanB();
    AllCleanConcat(Split(e), ["b"]);
    FirstName(Split(e));
    JoinSplit(e);
    JoinSnoc(Split(e), "b");
  }

  /** A chain of folders below p that spells e/b. */
  lemma ChainBelow(t: Table, p: Id, e: string, c: string) returns (u: Table, z: Id)
    requires Coherent(t) && Acyclic(t) && LiveIn(t, 0, p) && t[p].path == "p"
    requires forall y :: y in t && t[y].parent == Some(p) ==> t[y].name == c
    requires AllClean(Split(e)) && !(c <= e)
    ensures Coherent(u) && Acyclic(u) && (forall y :: y in t ==> y in u && u[y] == t[y])
    ensures LiveIn(u, 0, z) && z !in t && u[z].path == "p/" + e + "/b"
  {
    hide Coherent, Acyclic, CleanName, AllClean, Split, Join;
    var ns := ChainNames(e);
    u, z := BuildChain(t, 0, Some(p), ns);
    assert "p" + "/" + (e + "/" + "b") == "p/" + e + "/b";
  }

  /** A root "p", a folder c below it with a child "b", and a chain below "p" that spells what the
      template makes of the child's path. */
  lemma TemplateMeetsChain(name: string) returns (t: Table, x: Id)
    requires !NoTemplate(name) && AllClean(Split(Expand(name, "a", "", "/b")))
    ensures Coherent(t) && Acyclic(t) && Rename(t, 0, x, Some(name)).1.Done?
    ensures !UniquePaths(Rename(t, 0, x, Some(name)).0)
  {
    var c := Longer(name);
    var old' := "p/" + c;
    var e := Expand(name, old', "", "/b");
    hide Coherent, Acyclic, CleanName, NoTemplate, AllClean, Split, Expand, Longer, Plain, PlainTail, Rename, Taken;
    PlainPath(name);
    CleanExpansion(name, "a", "/b", old', "/b");
    var p, b, z;
    t, p, x, b := PathWithChild(c);
    ShortPiece(name, old', e, c);
    t, z := ChainBelow(t, p, e, c);
    TemplatedIsFree(t, x, name);
    ChildMeetsChain(t, p, x, b, z, name, c, e);
  }

  /** No live folder has a name with a template in it. */
  lemma TemplatedIsFree(t: Table, x: Id, name: string)
    requires Coherent(t) && LiveIn(t, 0, x) && !NoTemplate(name)
    ensures Rename(t, 0, x, Some(name)).1.Done? && name != "" && name != t[x].name
  {
    forall y | Live(t, y) ensures t[y].name != name { assert CleanName(t[y].name); }
  }

  lemma ChildMeetsChain(t: Table, p: Id, x: Id, b: Id, z: Id, name: string, c: string, e: string)
    requires Coherent(t) && name != "" && name != c && Rename(t, 0, x, Some(name)).1.Done?
    requires LiveIn(t, 0, p) && t[p].path == "p" && x in t && t[x] == Row(0, Some(p), c, "p/" + c, false)
    requires b in t && t[b] == Row(0, Some(x), "b", "p/" + c + "/b", false) && b != x && b != z
    requires LiveIn(t, 0, z) && z != x && t[z].path == "p/" + e + "/b" && !(c + "/" <= e + "/b")
    requires e == Expand(name, "p/" + c, "", "/b")
    ensures !UniquePaths(Rename(t, 0, x, Some(name)).0)
  {
    RenameGives(t, 0, x, name, b);
    RenameGives(t, 0, x, name, z);
    var u := Rename(t, 0, x, Some(name)).0;
    assert t[b].path[|t[x].path|..] == "/b";
    ExpandSkips("p/", name, "p/" + c, "", "/b");
    hide Coherent, Rename, Expand;
    assert "p" + "/" + name == "p/" + name;
    assert u[b].path == "p/" + e + "/b";
    if "p/" + c + "/" <= t[z].path { SlicePast(c, e); }
    assert Live(u, b) && Live(u, z) && u[b].path == u[z].path;
  }

  lemma SlicePast(c: string, e: string)
    requires "p/" + c + "/" <= "p/" + e + "/b"
    ensures c + "/" <= e + "/b"
  {
    assert ("p/" + c + "/")[2..] == c + "/" && ("p/" + e + "/b")[2..] == e + "/b";
  }

  /** Renaming a folder to this name in a table whose index is in order leaves all paths different. */
  ghost predicate RenameIsUnique(t: Table, tenant: Tenant, x: Id, name: string) {
    Coherent(t) && Acyclic(t) && Rename(t, tenant, x, Some(name)).1.Done? ==>
      UniquePaths(Rename(t, tenant, x, Some(name)).0)
  }

  /** Exactly which names a folder can be given, in any table whose index is in order, without putting two
      live folders at one path. */
  lemma UniqueAfterRenameIff(name: string)
    requires name != ""
    ensures (forall t: Table, tenant: Tenant, x: Id :: RenameIsUnique(t, tenant, x, name)) <==> NoClashRenaming(name)
  {
    if NoClashRenaming(name) {
      forall t: Table, tenant: Tenant, x: Id ensures RenameIsUnique(t, tenant, x, name) {
        if Coherent(t) && Acyclic(t) && Rename(t, tenant, x, Some(name)).1.Done? {
          RenameKeepsUnique(t, tenant, x, name);
        }
      }
    } else {
      var t, x := RenamingClashes(name);
      assert !RenameIsUnique(t, 0, x, name);
    }
  }

  lemma RenamingClashes(name: string) returns (t: Table, x: Id)
    requires !NoClashRenaming(name)
    ensures Coherent(t) && Acyclic(t) && Rename(t, 0, x, Some(name)).1.Done?
    ensures !UniquePaths(Rename(t, 0, x, Some(name)).0)
  {
    if !NoClash(name) {
      t, x := NameMeetsChain(name);
    } else {
      t, x := TemplateMeetsChain(name);
    }
  }
}
