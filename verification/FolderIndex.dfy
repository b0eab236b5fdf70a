/** The path index agrees with the parent links on live folders, and every operation keeps it so. */
module FolderIndex {
  import opened Wrappers
  import opened Text
  import opened FolderModel
  import opened FolderLinks

  /** What a name must be for the index to work: non-empty, free of the separator and of the
      wildcards of the subtree query, and no replacement template. */
  predicate CleanName(n: string) {
    n != "" && '/' !in n && NoWildcards(n) && NoTemplate(n)
  }

  /** The stored path is the parent's path and the own name; the parent is live. */
  predicate Placed(t: Table, x: Id)
    requires x in t
  {
    match t[x].parent
    case None => t[x].path == t[x].name
    case Some(p) => LiveIn(t, t[x].tenant, p) && t[x].path == ChildPath(t[p].path, t[x].name)
  }

  predicate SiblingNamesDiffer(t: Table, x: Id, y: Id)
    requires x in t && y in t
  {
    x != y && t[x].tenant == t[y].tenant && t[x].parent == t[y].parent ==> t[x].name != t[y].name
  }

  /** The invariant of the table, in its local form. */
  ghost predicate Coherent(t: Table) {
    && (forall x :: x in t ==> NoWildcards(t[x].path))
    && (forall x :: Live(t, x) ==> CleanName(t[x].name) && NoTemplate(t[x].path) && Placed(t, x))
    && (forall x, y :: Live(t, x) && Live(t, y) ==> SiblingNamesDiffer(t, x, y))
  }

  // ---------- What coherence means ----------

  /** Every ancestor of a live folder is live. */
  lemma {:induction false} AncestorsLive(t: Table, x: Id, a: Id)
    requires Coherent(t) && Live(t, x) && Below(t, x, a)
    ensures LiveIn(t, t[x].tenant, a)
    decreases |t[x].path|
  {
    BelowStep(t, x, a);
    var p := Parent(t, x).value;
    if p != a { AncestorsLive(t, p, a); }
  }

  /** No two live folders of a tenant share a path. */
  lemma {:induction false} PathsDiffer(t: Table, x: Id, y: Id)
    requires Coherent(t) && Live(t, x) && Live(t, y) && t[x].tenant == t[y].tenant
    requires t[x].path == t[y].path
    ensures x == y
    decreases |t[x].path|
  {
    assert SiblingNamesDiffer(t, x, y);
    assert t[x].parent.Some? ==> t[x].path[|t[t[x].parent.value].path|] == '/';
    assert t[y].parent.Some? ==> t[y].path[|t[t[y].parent.value].path|] == '/';
    if t[x].parent.Some? && t[y].parent.Some? {
      var p, q := t[x].parent.value, t[y].parent.value;
      LastCut(t[p].path, t[x].name, t[q].path, t[y].name);
      PathsDiffer(t, p, q);
    }
  }

  /** A prefix of a live path that ends before a '/' is itself the path of a live ancestor. */
  lemma {:induction false} PrefixHasOwner(t: Table, x: Id, q: string) returns (a: Id)
    requires Coherent(t) && Live(t, x) && q + "/" <= t[x].path
    ensures Below(t, x, a) && LiveIn(t, t[x].tenant, a) && t[a].path == q
    decreases |t[x].path|
  {
    assert t[x].path[|q|] == '/';
    var p := t[x].parent.value;
    PrefixOfChild(q, t[p].path, t[x].name);
    BelowStep(t, x, p);
    if q == t[p].path {
      a := p;
    } else {
      a := PrefixHasOwner(t, p, q);
      BelowStep(t, x, a);
    }
  }

  lemma {:induction false} BelowHasPrefix(t: Table, x: Id, a: Id)
    requires Coherent(t) && Live(t, x) && Below(t, x, a)
    ensures a in t && t[a].path + "/" <= t[x].path
    decreases |t[x].path|
  {
    BelowStep(t, x, a);
    var p := Parent(t, x).value;
    if p != a { BelowHasPrefix(t, p, a); }
  }

  /** The index answers subtree questions: for live folders, the subtree query of a matches x
      exactly when x is a proper descendant of a by parent links. */
  lemma MatchedIffBelow(t: Table, x: Id, a: Id)
    requires Coherent(t) && Live(t, x) && Live(t, a) && t[x].tenant == t[a].tenant
    ensures Matched(t, t[a].tenant, t[a].path, x) <==> Below(t, x, a)
    ensures t[a].path + "/" <= t[x].path <==> Below(t, x, a)
  {
    LikeIsPrefix(t[a].path, t[x].path);
    if Below(t, x, a) { BelowHasPrefix(t, x, a); }
    if t[a].path + "/" <= t[x].path {
      var b := PrefixHasOwner(t, x, t[a].path);
      PathsDiffer(t, a, b);
    }
  }

  lemma MatchedIsPrefix(t: Table, a: Id, x: Id)
    requires Coherent(t) && a in t && x in t
    ensures Matched(t, t[a].tenant, t[a].path, x) <==>
            t[x].tenant == t[a].tenant && t[a].path + "/" <= t[x].path
  {
    LikeIsPrefix(t[a].path, t[x].path);
  }

  // ---------- Path algebra ----------

  lemma ChildPathClean(p: string, n: string)
    ensures NoWildcards(p) && NoWildcards(n) ==> NoWildcards(ChildPath(p, n))
    ensures NoTemplate(p) && NoTemplate(n) ==> NoTemplate(ChildPath(p, n))
  {
    var s := ChildPath(p, n);
    assert s[|p|] == '/';
    assert forall k :: 0 <= k < |p| ==> s[k] == p[k];
    assert forall k :: |p| < k < |s| ==> s[k] == n[k - |p| - 1];
  }

  /** Swapping the prefix of a path below `old'` keeps it clean. */
  lemma SwapClean(old': string, new': string, s: string)
    requires old' + "/" <= s && NoWildcards(new') && NoWildcards(s)
    ensures NoWildcards(new' + s[|old'|..])
    ensures NoTemplate(new') && NoTemplate(s) ==> NoTemplate(new' + s[|old'|..])
  {
    var r := new' + s[|old'|..];
    assert s[|old'|] == '/';
    assert forall k :: |new'| <= k < |r| ==> r[k] == s[k - |new'| + |old'|];
    assert forall k :: 0 <= k < |new'| ==> r[k] == new'[k];
  }

  lemma SwapChild(old': string, new': string, p: string, n: string)
    requires |old'| <= |p|
    ensures ChildPath(new' + p[|old'|..], n) == new' + ChildPath(p, n)[|old'|..]
  {
    assert ChildPath(p, n)[|old'|..] == p[|old'|..] + "/" + n;
  }

  // ---------- Creation ----------

  /** The path a folder of this name gets under this parent. */
  function PathUnder(t: Table, parent: Option<Id>, name: string): string
    requires parent.Some? ==> parent.value in t
  {
    if parent.Some? then ChildPath(t[parent.value].path, name) else name
  }

  /** A live folder of the tenant other than `except` has this path. */
  predicate PathInUse(t: Table, tenant: Tenant, path: string, except: Option<Id>) {
    exists y :: y in t && LiveIn(t, tenant, y) && t[y].path == path && except != Some(y)
  }

  /** The duplicate check by parent and name refuses exactly when the path is already in use. */
  lemma TakenIffPathInUse(t: Table, tenant: Tenant, parent: Option<Id>, name: string, except: Option<Id>)
    requires Coherent(t) && '/' !in name && (parent.Some? ==> LiveIn(t, tenant, parent.value))
    ensures Taken(t, tenant, parent, name, except) <==> PathInUse(t, tenant, PathUnder(t, parent, name), except)
  {
    forall y | y in t && LiveIn(t, tenant, y)
      ensures t[y].path == PathUnder(t, parent, name) <==> t[y].parent == parent && t[y].name == name
    {
      assert Live(t, y) && Placed(t, y);
      if t[y].path == PathUnder(t, parent, name) { PathGivesPlace(t, tenant, parent, name, y); }
    }
  }

  lemma PathGivesPlace(t: Table, tenant: Tenant, parent: Option<Id>, name: string, y: Id)
    requires Coherent(t) && '/' !in name && LiveIn(t, tenant, y)
    requires (parent.Some? ==> LiveIn(t, tenant, parent.value)) && t[y].path == PathUnder(t, parent, name)
    ensures t[y].parent == parent && t[y].name == name
  {
    assert Live(t, y) && Placed(t, y);
    assert parent.Some? ==> t[y].path[|t[parent.value].path|] == '/';
    if t[y].parent.Some? {
      var q := t[y].parent.value;
      assert t[y].path[|t[q].path|] == '/';
      var p := parent.value;
      LastCut(t[q].path, t[y].name, t[p].path, name);
      PathsDiffer(t, q, p);
    }
  }

  /** No live folder has a name with a '/' in it. */
  lemma SlashedNameIsFree(t: Table, tenant: Tenant, parent: Option<Id>, name: string, except: Option<Id>)
    requires Coherent(t) && '/' in name
    ensures !Taken(t, tenant, parent, name, except)
  {
    forall y | y in t && LiveIn(t, tenant, y) ensures t[y].name != name { assert Live(t, y); }
  }

  /** What `createFolder` answers about any name, read off the index: a blank name is a bad request, a
      missing parent not found, an occupied path a conflict unless the name holds a '/', for which no
      conflict is ever seen; otherwise the folder is live at that path. */
  lemma CreateAnswers(t: Table, tenant: Tenant, id: Id, name: string, parent: Option<Id>)
    requires Coherent(t) && Unused(t, id)
    ensures var (u, r) := Create(t, tenant, id, name, parent);
            && (r == BadRequest <==> Blank(name))
            && (r == NotFound <==> !Blank(name) && parent.Some? && !LiveIn(t, tenant, parent.value))
            && (r == Conflict <==> r != BadRequest && r != NotFound && '/' !in name &&
                                   PathInUse(t, tenant, PathUnder(t, parent, name), None))
            && (r.Done? ==> r == Done(id) && u == t[id := Row(tenant, parent, name, PathUnder(t, parent, name), false)])
            && (!r.Done? ==> u == t)
  {
    if parent.None? || LiveIn(t, tenant, parent.value) {
      if '/' in name {
        SlashedNameIsFree(t, tenant, parent, name, None);
      } else {
        TakenIffPathInUse(t, tenant, parent, name, None);
      }
      if parent.Some? { assert Placed(t, parent.value) && CleanName(t[parent.value].name); }
    }
  }

  /** What `moveFolder` answers about any folder and parent, read off the index: a missing folder or new
      parent is not found, moving into the own subtree is recognised by the path prefix, a clash by the path
      in use; otherwise the folder has its new parent and path. */
  lemma MoveAnswers(t: Table, tenant: Tenant, x: Id, parent: Option<Id>)
    requires Coherent(t)
    ensures var (u, r) := Move(t, tenant, x, parent);
            && (r == NotFound <==>
                  !LiveIn(t, tenant, x) || (parent.Some? && parent.value != x && !LiveIn(t, tenant, parent.value)))
            && (!r.Done? ==> u == t)
            && (r != NotFound ==>
                  (r == BadRequest <==>
                     parent.Some? && (parent.value == x || t[x].path + "/" <= t[parent.value].path)) &&
                  (r != BadRequest ==>
                     var path := PathUnder(t, parent, t[x].name);
                     (r == Conflict <==> PathInUse(t, tenant, path, Some(x))) &&
                     (r != Conflict ==> r == Done(x) && u[x] == t[x].(parent := parent, path := path))))
  {
    if LiveIn(t, tenant, x) && (parent.Some? ==> LiveIn(t, tenant, parent.value)) {
      TakenIffPathInUse(t, tenant, parent, t[x].name, Some(x));
      if parent.Some? { MatchedIffBelow(t, parent.value, x); }
      if Move(t, tenant, x, parent).1.Done? {
        var path := MoveRelocates(t, tenant, x, parent);
        MatchedIffBelow(t, x, x);
      }
    }
  }

  /** The table with one more live folder. */
  function Inserted(t: Table, tenant: Tenant, id: Id, name: string, parent: Option<Id>): Table
    requires parent.Some? ==> parent.value in t
  {
    t[id := Row(tenant, parent, name, PathUnder(t, parent, name), false)]
  }

  /** Whoever a folder may be created for: a new id, a free name, and a live parent if any. */
  predicate MayInsert(t: Table, tenant: Tenant, id: Id, name: string, parent: Option<Id>) {
    Unused(t, id) && !Taken(t, tenant, parent, name, None) && (parent.Some? ==> LiveIn(t, tenant, parent.value))
  }

  lemma CreateInserts(t: Table, tenant: Tenant, id: Id, name: string, parent: Option<Id>)
    requires Coherent(t) && Unused(t, id) && Create(t, tenant, id, name, parent).1.Done?
    ensures MayInsert(t, tenant, id, name, parent)
    ensures Create(t, tenant, id, name, parent).0 == Inserted(t, tenant, id, name, parent)
  {
    if parent.Some? { assert Live(t, parent.value) && Placed(t, parent.value); }
  }

  lemma InsertedRow(t: Table, tenant: Tenant, id: Id, name: string, parent: Option<Id>, x: Id)
    requires Coherent(t) && MayInsert(t, tenant, id, name, parent) && CleanName(name)
    requires x in Inserted(t, tenant, id, name, parent)
    ensures var u := Inserted(t, tenant, id, name, parent);
            NoWildcards(u[x].path) &&
            (Live(u, x) ==> CleanName(u[x].name) && NoTemplate(u[x].path) && Placed(u, x))
  {
    if parent.Some? { ChildPathClean(t[parent.value].path, name); }
    if x != id { assert Live(t, x) ==> Placed(t, x); }
  }

  lemma InsertedSiblings(t: Table, tenant: Tenant, id: Id, name: string, parent: Option<Id>, x: Id, y: Id)
    requires Coherent(t) && MayInsert(t, tenant, id, name, parent)
    requires Live(Inserted(t, tenant, id, name, parent), x) && Live(Inserted(t, tenant, id, name, parent), y)
    ensures SiblingNamesDiffer(Inserted(t, tenant, id, name, parent), x, y)
  {
    assert x != id ==> Live(t, x);
    assert y != id ==> Live(t, y);
    assert x != id && y != id ==> SiblingNamesDiffer(t, x, y);
    hide Coherent, Unused, PathUnder;
  }

  lemma InsertedCoherent(t: Table, tenant: Tenant, id: Id, name: string, parent: Option<Id>)
    requires Coherent(t) && MayInsert(t, tenant, id, name, parent) && CleanName(name)
    ensures Coherent(Inserted(t, tenant, id, name, parent))
  {
    var u := Inserted(t, tenant, id, name, parent);
    hide MayInsert, CleanName, Placed, SiblingNamesDiffer, NoWildcards, NoTemplate;
    forall x | x in u
      ensures NoWildcards(u[x].path)
      ensures Live(u, x) ==> CleanName(u[x].name) && NoTemplate(u[x].path) && Placed(u, x)
    {
      InsertedRow(t, tenant, id, name, parent, x);
    }
    forall x, y | Live(u, x) && Live(u, y) ensures SiblingNamesDiffer(u, x, y) {
      InsertedSiblings(t, tenant, id, name, parent, x, y);
    }
  }

  lemma CreateCoherent(t: Table, tenant: Tenant, id: Id, name: string, parent: Option<Id>)
    requires Coherent(t) && Unused(t, id) && CleanName(name)
    ensures Coherent(Create(t, tenant, id, name, parent).0)
  {
    if Create(t, tenant, id, name, parent).1.Done? {
      CreateInserts(t, tenant, id, name, parent);
      InsertedCoherent(t, tenant, id, name, parent);
    }
  }

  // ---------- Rename and move: one relocation ----------

  /** x gets a new parent, name and path; the live and dead rows under its old path follow. */
  function Relocated(t: Table, x: Id, parent: Option<Id>, name: string, path: string): Table
    requires x in t
  {
    map y | y in t ::
      if y == x then t[x].(parent := parent, name := name, path := path)
      else if t[y].tenant == t[x].tenant && t[x].path + "/" <= t[y].path then
        t[y].(path := path + t[y].path[|t[x].path|..])
      else t[y]
  }

  /** A destination x may go to: the root, or a live folder outside x's own subtree. */
  ghost predicate Destination(t: Table, x: Id, parent: Option<Id>, name: string, path: string)
    requires x in t
  {
    && !Taken(t, t[x].tenant, parent, name, Some(x))
    && match parent
       case None => path == name
       case Some(p) =>
         LiveIn(t, t[x].tenant, p) && p != x && !Below(t, p, x) && path == ChildPath(t[p].path, name)
  }

  lemma DestinationClean(t: Table, x: Id, parent: Option<Id>, name: string, path: string)
    requires Coherent(t) && x in t && Destination(t, x, parent, name, path)
    ensures NoTemplate(name) ==> NoTemplate(path)
    ensures NoWildcards(name) ==> NoWildcards(path)
  {
    if parent.Some? { ChildPathClean(t[parent.value].path, name); }
  }

  /** The just-moved folder is never matched by its own old prefix. */
  lemma DestinationOutside(t: Table, x: Id, parent: Option<Id>, name: string, path: string)
    requires Coherent(t) && Live(t, x) && Destination(t, x, parent, name, path) && '/' !in name
    ensures !(t[x].path + "/" <= path)
  {
    var q := t[x].path;
    if q + "/" <= path {
      assert path[|q|] == '/';
      var p := parent.value;
      PrefixOfChild(q, t[p].path, name);
      if q == t[p].path { PathsDiffer(t, x, p); } else { MatchedIffBelow(t, p, x); }
      assert false;
    }
  }

  /** `updateChildrenPaths` is the prefix swap on the rows below the old path. */
  lemma RepathIsSwap(t: Table, tenant: Tenant, old': string, new': string, y: Id)
    requires y in t && NoWildcards(old') && NoTemplate(new')
    ensures Repath(t, tenant, old', new')[y] ==
            if t[y].tenant == tenant && old' + "/" <= t[y].path
            then t[y].(path := new' + t[y].path[|old'|..]) else t[y]
  {
    LikeIsPrefix(old', t[y].path);
    if old' + "/" <= t[y].path {
      assert old' <= old' + "/" <= t[y].path;
      ReplacePrefix(t[y].path, old', new');
    }
  }

  /** An accepted move is a relocation. */
  lemma MoveRelocates(t: Table, tenant: Tenant, x: Id, parent: Option<Id>) returns (path: string)
    requires Coherent(t) && Move(t, tenant, x, parent).1.Done?
    ensures Destination(t, x, parent, t[x].name, path)
    ensures Move(t, tenant, x, parent).0 == Relocated(t, x, parent, t[x].name, path)
  {
    path := if parent.Some? then ChildPath(t[parent.value].path, t[x].name) else t[x].name;
    assert Live(t, x) && CleanName(t[x].name) && NoWildcards(t[x].path);
    assert Destination(t, x, parent, t[x].name, path);
    hide Coherent, CleanName, NoWildcards, NoTemplate, Destination, Below, Taken;
    DestinationClean(t, x, parent, t[x].name, path);
    CleanHasNoSlash(t[x].name);
    DestinationOutside(t, x, parent, t[x].name, path);
    RepathMoves(t, tenant, x, parent, path);
  }

  lemma CleanHasNoSlash(n: string)
    requires CleanName(n)
    ensures '/' !in n && NoTemplate(n)
  {
  }

  lemma RepathMoves(t: Table, tenant: Tenant, x: Id, parent: Option<Id>, path: string)
    requires InTenant(t, tenant, x) && NoWildcards(t[x].path) && NoTemplate(path) && !(t[x].path + "/" <= path)
    ensures Repath(t[x := t[x].(parent := parent, path := path)], tenant, t[x].path, path) ==
            Relocated(t, x, parent, t[x].name, path)
  {
    hide NoWildcards, NoTemplate;
    var mid := t[x := t[x].(parent := parent, path := path)];
    forall y | y in t
      ensures Repath(mid, tenant, t[x].path, path)[y] == Relocated(t, x, parent, t[x].name, path)[y]
    {
      RepathIsSwap(mid, tenant, t[x].path, path, y);
    }
  }

  lemma ParentNotBelow(t: Table, x: Id)
    requires Acyclic(t) && x in t && Parent(t, x).Some?
    ensures Parent(t, x).value != x && !Below(t, Parent(t, x).value, x)
  {
    BelowStep(t, x, Parent(t, x).value);
    if Below(t, Parent(t, x).value, x) { BelowTransitive(t, x, Parent(t, x).value, x); }
    BelowStep(t, x, x);
  }

  lemma RenameDestination(t: Table, tenant: Tenant, x: Id, name: string)
    requires Coherent(t) && Acyclic(t) && LiveIn(t, tenant, x)
    requires !Taken(t, tenant, t[x].parent, name, Some(x))
    ensures t[x].parent.Some? ==> LiveIn(t, tenant, t[x].parent.value)
    ensures Destination(t, x, t[x].parent, name, PathUnder(t, t[x].parent, name))
  {
    assert Live(t, x) && Placed(t, x);
    if t[x].parent.Some? { ParentNotBelow(t, x); }
  }

  lemma RepathRelocates(t: Table, x: Id, parent: Option<Id>, name: string, path: string)
    requires x in t && NoWildcards(t[x].path) && NoTemplate(path)
    ensures Repath(t, t[x].tenant, t[x].path, path)[x := t[x].(parent := parent, name := name, path := path)]
            == Relocated(t, x, parent, name, path)
  {
    hide NoWildcards, NoTemplate;
    var u := Repath(t, t[x].tenant, t[x].path, path)[x := t[x].(parent := parent, name := name, path := path)];
    forall y | y in t ensures u[y] == Relocated(t, x, parent, name, path)[y] {
      RepathIsSwap(t, t[x].tenant, t[x].path, path, y);
    }
  }

  /** An accepted change of name is a relocation. */
  lemma RenameRelocates(t: Table, tenant: Tenant, x: Id, name: string) returns (path: string)
    requires Coherent(t) && Acyclic(t) && name != "" && NoTemplate(name)
    requires Rename(t, tenant, x, Some(name)).1.Done? && name != t[x].name
    ensures Destination(t, x, t[x].parent, name, path)
    ensures Rename(t, tenant, x, Some(name)).0 == Relocated(t, x, t[x].parent, name, path)
  {
    path := PathUnder(t, t[x].parent, name);
    assert NoWildcards(t[x].path);
    hide Coherent, Acyclic, CleanName, NoWildcards, NoTemplate, Repath, Relocated, Taken;
    RenameDestination(t, tenant, x, name);
    DestinationClean(t, x, t[x].parent, name, path);
    RepathRelocates(t, x, t[x].parent, name, path);
  }

  /** A relocation re-paths exactly the relocated folder and its live subtree, by a prefix swap. */
  lemma RelocatedPath(t: Table, x: Id, parent: Option<Id>, name: string, path: string, y: Id)
    requires Coherent(t) && Live(t, x) && Live(t, y)
    requires Destination(t, x, parent, name, path)
    ensures Below(t, y, x) ==> t[x].path <= t[y].path
    ensures Relocated(t, x, parent, name, path)[y].path ==
            if y == x then path
            else if Below(t, y, x) then path + t[y].path[|t[x].path|..]
            else t[y].path
  {
    if Below(t, y, x) { BelowHasPrefix(t, y, x); }
    if t[y].tenant == t[x].tenant {
      MatchedIffBelow(t, y, x);
    } else if Below(t, y, x) {
      BelowInTenant(t, y, x);
    }
  }

  lemma RelocatedPlaced(t: Table, x: Id, parent: Option<Id>, name: string, path: string, y: Id)
    requires Coherent(t) && Live(t, x) && Live(t, y)
    requires Destination(t, x, parent, name, path)
    ensures Placed(Relocated(t, x, parent, name, path), y)
  {
    var u := Relocated(t, x, parent, name, path);
    RelocatedPath(t, x, parent, name, path, y);
    if y == x {
      if parent.Some? { RelocatedPath(t, x, parent, name, path, parent.value); }
    } else if t[y].parent.Some? {
      var p := t[y].parent.value;
      BelowStep(t, y, x);
      RelocatedPath(t, x, parent, name, path, p);
      if p == x || Below(t, p, x) {
        if p == x {
          assert t[x].path[|t[x].path|..] == "";
          assert path + "" == path;
        } else {
          BelowHasPrefix(t, p, x);
        }
        SwapChild(t[x].path, path, t[p].path, t[y].name);
      }
    } else {
      BelowStep(t, y, x);
    }
  }

  lemma RelocatedClean(t: Table, x: Id, parent: Option<Id>, name: string, path: string, y: Id)
    requires Coherent(t) && Live(t, x) && Destination(t, x, parent, name, path) && CleanName(name) && y in t
    ensures NoWildcards(Relocated(t, x, parent, name, path)[y].path)
    ensures Live(t, y) ==> NoTemplate(Relocated(t, x, parent, name, path)[y].path)
  {
    DestinationClean(t, x, parent, name, path);
    assert Live(t, y) ==> NoTemplate(t[y].path);
    hide Coherent, Destination, NoWildcards, NoTemplate;
    if t[x].path + "/" <= t[y].path { SwapClean(t[x].path, path, t[y].path); }
  }

  lemma RelocatedSiblings(t: Table, x: Id, parent: Option<Id>, name: string, path: string, y: Id, z: Id)
    requires Coherent(t) && Live(t, x) && Destination(t, x, parent, name, path) && Live(t, y) && Live(t, z)
    ensures SiblingNamesDiffer(Relocated(t, x, parent, name, path), y, z)
  {
    assert SiblingNamesDiffer(t, y, z);
    assert !Taken(t, t[x].tenant, parent, name, Some(x));
  }

  lemma RelocatedCoherent(t: Table, x: Id, parent: Option<Id>, name: string, path: string)
    requires Coherent(t) && Live(t, x) && Destination(t, x, parent, name, path) && CleanName(name)
    ensures Coherent(Relocated(t, x, parent, name, path))
  {
    var u := Relocated(t, x, parent, name, path);
    forall y | y in u
      ensures NoWildcards(u[y].path)
      ensures Live(u, y) ==> Live(t, y) && CleanName(u[y].name) && NoTemplate(u[y].path) && Placed(u, y)
    {
      hide NoWildcards, NoTemplate, Placed, CleanName, Below, Taken;
      RelocatedClean(t, x, parent, name, path, y);
      if Live(t, y) { RelocatedPlaced(t, x, parent, name, path, y); }
    }
    forall y, z | Live(u, y) && Live(u, z) ensures SiblingNamesDiffer(u, y, z) {
      RelocatedSiblings(t, x, parent, name, path, y, z);
    }
  }

  lemma MoveCoherent(t: Table, tenant: Tenant, x: Id, parent: Option<Id>)
    requires Coherent(t)
    ensures Coherent(Move(t, tenant, x, parent).0)
  {
    if Move(t, tenant, x, parent).1.Done? {
      var path := MoveRelocates(t, tenant, x, parent);
      RelocatedCoherent(t, x, parent, t[x].name, path);
    }
  }

  lemma RenameCoherent(t: Table, tenant: Tenant, x: Id, name: Option<string>)
    requires Coherent(t) && Acyclic(t)
    requires name.Some? && name.value != "" ==> CleanName(name.value)
    ensures Coherent(Rename(t, tenant, x, name).0)
  {
    if LiveIn(t, tenant, x) && Rename(t, tenant, x, name).1.Done?
       && name.Some? && name.value != "" && name.value != t[x].name
    {
      var path := RenameRelocates(t, tenant, x, name.value);
      RelocatedCoherent(t, x, t[x].parent, name.value, path);
    }
  }

  /** What `updateFolder` answers about any new name: not found, a clash with the path in use unless the
      name holds a '/', or done; the empty name changes nothing. */
  lemma RenameAnswers(t: Table, tenant: Tenant, x: Id, name: string)
    requires Coherent(t)
    ensures var (u, r) := Rename(t, tenant, x, Some(name));
            && (r == NotFound <==> !LiveIn(t, tenant, x))
            && (LiveIn(t, tenant, x) && name == "" ==> r == Done(x) && u == t)
            && (LiveIn(t, tenant, x) && name != "" ==>
                  Placed(t, x) &&
                  (r == Conflict <==> name != t[x].name && '/' !in name &&
                                      PathInUse(t, tenant, PathUnder(t, t[x].parent, name), Some(x))) &&
                  (r != Conflict ==> r == Done(x) && u[x].name == name && u[x].path == PathUnder(t, t[x].parent, name)))
            && (!r.Done? ==> u == t)
  {
    if LiveIn(t, tenant, x) {
      assert Live(t, x) && Placed(t, x);
      if '/' in name {
        SlashedNameIsFree(t, tenant, t[x].parent, name, Some(x));
      } else {
        TakenIffPathInUse(t, tenant, t[x].parent, name, Some(x));
      }
    }
  }

  /** An update that does not change the name - because it brings none, an empty one, or the one there is -
      is done and leaves the table as it was; not found means that the folder is not live, and nothing else. */
  lemma UpdateWithoutRename(t: Table, tenant: Tenant, x: Id, name: Option<string>)
    ensures var (u, r) := Rename(t, tenant, x, name);
            && (r == NotFound <==> !LiveIn(t, tenant, x))
            && (LiveIn(t, tenant, x) && (name.None? || name == Some("") || name == Some(t[x].name)) ==>
                  r == Done(x) && u == t)
  {
    hide InSubtree, Replace;
  }

  // ---------- Deletion ----------

  /** Soft deletion marks the folder and exactly its live descendants, and touches nothing else. */
  lemma SoftDeleteExact(t: Table, tenant: Tenant, x: Id)
    requires Coherent(t) && LiveIn(t, tenant, x)
    ensures var u := SoftDelete(t, tenant, x).0;
            u.Keys == t.Keys &&
            forall y :: y in t ==>
              u[y] == if y == x || (Live(t, y) && Below(t, y, x)) then t[y].(deleted := true) else t[y]
  {
    forall y | Live(t, y)
      ensures Matched(t, tenant, t[x].path, y) <==> Below(t, y, x)
    {
      if t[y].tenant == tenant {
        MatchedIffBelow(t, y, x);
      } else if Below(t, y, x) {
        BelowInTenant(t, y, x);
      }
    }
  }

  lemma SoftDeleteCoherent(t: Table, tenant: Tenant, x: Id)
    requires Coherent(t)
    ensures Coherent(SoftDelete(t, tenant, x).0)
  {
    if LiveIn(t, tenant, x) {
      var u := SoftDelete(t, tenant, x).0;
      SoftDeleteExact(t, tenant, x);
      forall y | Live(u, y) ensures Live(t, y) && Placed(u, y) {
        BelowStep(t, y, x);
      }
      forall y, z | Live(u, y) && Live(u, z) ensures SiblingNamesDiffer(u, y, z) {
        assert SiblingNamesDiffer(t, y, z);
      }
    }
  }

  /** A path below q stays below q when a name is added. */
  lemma PrefixGrows(q: string, p: string, n: string)
    requires q + "/" <= p
    ensures q + "/" <= ChildPath(p, n)
  {
  }

  lemma HardDeleteCoherent(t: Table, tenant: Tenant, x: Id)
    requires Coherent(t)
    ensures Coherent(HardDelete(t, tenant, x).0)
  {
    if InTenant(t, tenant, x) {
      var u := HardDelete(t, tenant, x).0;
      forall y | Live(u, y) ensures Placed(u, y) {
        assert Live(t, y) && Placed(t, y);
        if t[y].parent.Some? {
          var p := t[y].parent.value;
          MatchedIsPrefix(t, x, p);
          MatchedIsPrefix(t, x, y);
          if p == x {
            BelowStep(t, y, x);
            BelowHasPrefix(t, y, x);
          } else if t[x].path + "/" <= t[p].path {
            PrefixGrows(t[x].path, t[p].path, t[y].name);
          }
        }
      }
      forall y, z | Live(u, y) && Live(u, z) ensures SiblingNamesDiffer(u, y, z) {
        assert Live(t, y) && Live(t, z) && SiblingNamesDiffer(t, y, z);
      }
    }
  }

  /** Permanent deletion removes the folder and every row of the tenant stored below its path, live or
      deleted, and leaves all other rows as they are. */
  lemma HardDeleteRows(t: Table, tenant: Tenant, x: Id)
    requires InTenant(t, tenant, x) && NoWildcards(t[x].path)
    ensures var u := HardDelete(t, tenant, x).0;
            && (forall y :: y in u <==>
                  y in t && y != x && !(t[y].tenant == tenant && t[x].path + "/" <= t[y].path))
            && (forall y :: y in u ==> u[y] == t[y])
  {
    forall y | y in t ensures InSubtree(t[y].path, t[x].path) <==> t[x].path + "/" <= t[y].path {
      LikeIsPrefix(t[x].path, t[y].path);
    }
    hide InSubtree;
  }

  /** On a live target, permanent deletion removes the folder and, among live rows, exactly its
      descendants. */
  lemma HardDeleteExact(t: Table, tenant: Tenant, x: Id, y: Id)
    requires Coherent(t) && LiveIn(t, tenant, x) && Live(t, y)
    ensures y in HardDelete(t, tenant, x).0 <==> y != x && !Below(t, y, x)
  {
    if t[y].tenant == tenant {
      MatchedIffBelow(t, y, x);
    } else if Below(t, y, x) {
      BelowInTenant(t, y, x);
    }
  }

  /** u still uses exactly the paths of t that are not below the given one, nor the given one itself
      when `own` is set. */
  ghost predicate PathsFreed(t: Table, u: Table, tenant: Tenant, path: string, own: bool) {
    forall p :: PathInUse(u, tenant, p, None) <==>
      PathInUse(t, tenant, p, None) && !(path + "/" <= p) && !(own && p == path)
  }

  /** What a deletion frees for new folders: the path of a live folder and every path below it. */
  lemma SoftDeleteFrees(t: Table, tenant: Tenant, x: Id)
    requires Coherent(t)
    ensures var (u, r) := SoftDelete(t, tenant, x);
            if LiveIn(t, tenant, x) then r == Done(x) && PathsFreed(t, u, tenant, t[x].path, true)
            else r == NotFound && u == t
  {
    if LiveIn(t, tenant, x) {
      var u := SoftDelete(t, tenant, x).0;
      SoftDeleteExact(t, tenant, x);
      forall y | LiveIn(t, tenant, y)
        ensures LiveIn(u, tenant, y) <==> !(t[x].path + "/" <= t[y].path) && t[y].path != t[x].path
      {
        MatchedIffBelow(t, y, x);
        if t[y].path == t[x].path { PathsDiffer(t, x, y); }
      }
      SameLivePaths(t, u, tenant, t[x].path, true);
    }
  }

  lemma SameLivePaths(t: Table, u: Table, tenant: Tenant, path: string, own: bool)
    requires forall y :: y in u ==> y in t && u[y].path == t[y].path && u[y].tenant == t[y].tenant
    requires forall y :: LiveIn(u, tenant, y) ==> LiveIn(t, tenant, y)
    requires forall y :: LiveIn(t, tenant, y) ==>
               (LiveIn(u, tenant, y) <==> !(path + "/" <= t[y].path) && !(own && t[y].path == path))
    ensures PathsFreed(t, u, tenant, path, own)
  {
    forall p
      ensures PathInUse(u, tenant, p, None) <==>
              PathInUse(t, tenant, p, None) && !(path + "/" <= p) && !(own && p == path)
    {
      if PathInUse(u, tenant, p, None) {
        var y :| y in u && LiveIn(u, tenant, y) && u[y].path == p;
        assert LiveIn(t, tenant, y) && t[y].path == p;
      }
      if PathInUse(t, tenant, p, None) && !(path + "/" <= p) && !(own && p == path) {
        var y :| y in t && LiveIn(t, tenant, y) && t[y].path == p;
        assert LiveIn(u, tenant, y) && u[y].path == p;
      }
    }
  }

  /** Permanent deletion frees the same paths on a live target; on a deleted one it frees the paths
      below the one stored in it, though live folders may use them, and keeps that path itself. */
  lemma HardDeleteFrees(t: Table, tenant: Tenant, x: Id)
    requires Coherent(t)
    ensures var (u, r) := HardDelete(t, tenant, x);
            if InTenant(t, tenant, x) then r == Done(x) && x !in u && PathsFreed(t, u, tenant, t[x].path, !t[x].deleted)
            else r == NotFound && u == t
  {
    if InTenant(t, tenant, x) {
      var u := HardDelete(t, tenant, x).0;
      forall y | LiveIn(t, tenant, y)
        ensures LiveIn(u, tenant, y) <==>
                !(t[x].path + "/" <= t[y].path) && !(!t[x].deleted && t[y].path == t[x].path)
      {
        MatchedIsPrefix(t, x, y);
        if t[y].path == t[x].path && Live(t, x) { PathsDiffer(t, x, y); }
      }
      SameLivePaths(t, u, tenant, t[x].path, !t[x].deleted);
    }
  }

  /** The tenant has a live folder, with a live child, at this path. */
  ghost predicate OccupiedWithChild(t: Table, tenant: Tenant, path: string) {
    exists a, c :: LiveIn(t, tenant, a) && t[a].path == path && LiveIn(t, tenant, c) && t[c].parent == Some(a)
  }

  /** Permanent deletion of a folder that is already soft-deleted goes by its stored path, and so
      spares every live folder if and only if no live folder with children occupies that path. */
  lemma HardDeleteOfDeleted(t: Table, tenant: Tenant, x: Id)
    requires Coherent(t) && InTenant(t, tenant, x) && t[x].deleted
    ensures (forall y :: Live(t, y) ==> y in HardDelete(t, tenant, x).0)
            <==> !OccupiedWithChild(t, tenant, t[x].path)
  {
    var u := HardDelete(t, tenant, x).0;
    if a, c :| LiveIn(t, tenant, a) && t[a].path == t[x].path && LiveIn(t, tenant, c) && t[c].parent == Some(a) {
      BelowStep(t, c, a);
      BelowHasPrefix(t, c, a);
      MatchedIsPrefix(t, x, c);
      assert Live(t, c) && c !in u;
    }
    if y :| Live(t, y) && y !in u {
      MatchedIsPrefix(t, x, y);
      var c := ChildOnPath(t, y, t[x].path);
      assert OccupiedWithChild(t, tenant, t[x].path);
    }
  }

  /** Between a live folder and the owner of a prefix of its path lies a child of that owner. */
  lemma {:induction false} ChildOnPath(t: Table, y: Id, q: string) returns (c: Id)
    requires Coherent(t) && Live(t, y) && q + "/" <= t[y].path
    ensures LiveIn(t, t[y].tenant, c) && t[c].parent.Some?
    ensures LiveIn(t, t[y].tenant, t[c].parent.value) && t[t[c].parent.value].path == q
    decreases |t[y].path|
  {
    var a := PrefixHasOwner(t, y, q);
    BelowStep(t, y, a);
    var p := Parent(t, y).value;
    if p == a {
      c := y;
    } else {
      BelowHasPrefix(t, p, a);
      c := ChildOnPath(t, p, q);
    }
  }
}
