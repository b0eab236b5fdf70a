/** Which names the path index needs: each part of `CleanName` is necessary, in one operation or
    another, for every single name. */
module FolderNames {
  import opened Wrappers
  import opened Text
  import opened FolderModel
  import opened FolderLinks
  import opened FolderIndex
  import opened FolderRuns
  import opened FolderViews

  // ---------- Exactly the names that work ----------

  /** A new folder, at the root or under a folder that is itself reached by walking down its path, is
      reached by walking down its own path if and only if its name has no '/'. */
  lemma WalkFindsIff(t: Table, tenant: Tenant, id: Id, name: string, parent: Option<Id>)
    requires Unused(t, id) && Create(t, tenant, id, name, parent).1.Done?
    requires parent.Some? ==>
               t[parent.value].path != "" && WalksTo(t, tenant, None, Split(t[parent.value].path), parent.value)
    ensures var u := Create(t, tenant, id, name, parent).0;
            LiveIn(u, tenant, id) && u[id].path == PathUnder(t, parent, name) &&
            (WalksTo(u, tenant, None, Split(u[id].path), id) <==> '/' !in name)
  {
    var u := Create(t, tenant, id, name, parent).0;
    hide Split;
    if '/' !in name {
      SplitFlat(name);
      if parent.None? {
        WalkOne(u, tenant, name, id);
      } else {
        var q := t[parent.value].path;
        WalksStay(t, u, tenant, None, Split(q), parent.value);
        SplitSnoc(q, name);
        WalkOn(u, tenant, Split(q), parent.value, name, id);
      }
    } else {
      var ns, n := SplitLast(u[id].path);
      WalkSnoc(u, tenant, None, ns, n, id);
    }
  }

  /** Adding a row does not disturb the walks. */
  lemma {:induction false} WalksStay(t: Table, u: Table, tenant: Tenant, at: Option<Id>, ns: seq<string>, x: Id)
    requires WalksTo(t, tenant, at, ns, x) && forall y :: y in t ==> y in u && u[y] == t[y]
    ensures WalksTo(u, tenant, at, ns, x)
    decreases |ns|
  {
    if ns != [] {
      var c :| ChildNamed(t, tenant, at, ns[0], c) && WalksTo(t, tenant, Some(c), ns[1..], x);
      WalksStay(t, u, tenant, Some(c), ns[1..], x);
      assert ChildNamed(u, tenant, at, ns[0], c);
    }
  }

  lemma SplitLast(p: string) returns (ns: seq<string>, n: string)
    requires '/' in p
    ensures ns != [] && Split(p) == ns + [n] && '/' !in n
  {
    var i := LastSlash(p);
    assert p[0..] == p;
    ns, n := Split(p[..i]), p[i + 1..];
  }

  /** Soft deletion of x takes along exactly the live folders stored below its path. */
  ghost predicate DeletesBelow(t: Table, tenant: Tenant, x: Id)
    requires LiveIn(t, tenant, x)
  {
    forall y :: LiveIn(t, tenant, y) && y != x ==>
      (SoftDelete(t, tenant, x).0[y].deleted <==> t[x].path + "/" <= t[y].path)
  }

  /** Deleting folders at a path takes along exactly what is stored below it, in every table, if and
      only if the path has no wildcard. */
  lemma DeletesBelowIff(path: string)
    ensures (forall t: Table, tenant: Tenant, x: Id ::
               LiveIn(t, tenant, x) && t[x].path == path ==> DeletesBelow(t, tenant, x))
            <==> NoWildcards(path)
  {
    if NoWildcards(path) {
      forall t: Table, tenant: Tenant, x: Id | LiveIn(t, tenant, x) && t[x].path == path
        ensures DeletesBelow(t, tenant, x)
      {
        forall y | LiveIn(t, tenant, y) { LikeIsPrefix(path, t[y].path); }
      }
    } else {
      var s := WildcardMisleads(path);
      var t: Table := map[1 := Row(0, None, path, path, false), 2 := Row(0, None, s, s, false)];
      assert LiveIn(t, 0, 1) && LiveIn(t, 0, 2) && t[1].path == path;
      assert SoftDelete(t, 0, 1).0[2].deleted;
      assert !DeletesBelow(t, 0, 1);
    }
  }

  /** Every live folder's path is its parent's path and its own name. */
  ghost predicate AllPlaced(t: Table) {
    forall y :: Live(t, y) ==> Placed(t, y)
  }

  /** A rename leaves every live folder below its parent's path. */
  ghost predicate RenamePlaces(t: Table, tenant: Tenant, x: Id, name: string) {
    Rename(t, tenant, x, Some(name)).1.Done? ==> AllPlaced(Rename(t, tenant, x, Some(name)).0)
  }

  /** Renaming to a name carries the children along, in every table whose index is in order, if and
      only if the name has no replacement template. */
  lemma RenamePlacesIff(name: string)
    requires name != ""
    ensures (forall t: Table, tenant: Tenant, x: Id :: Coherent(t) && Acyclic(t) ==> RenamePlaces(t, tenant, x, name))
            <==> NoTemplate(name)
  {
    if NoTemplate(name) {
      forall t: Table, tenant: Tenant, x: Id | Coherent(t) && Acyclic(t) ensures RenamePlaces(t, tenant, x, name) {
        CarriesChildren(t, tenant, x, name);
      }
    } else {
      var t := ParentAndChild();
      LeavesChildBehind(t, name);
      assert !RenamePlaces(t, 0, 1, name);
    }
  }

  lemma CarriesChildren(t: Table, tenant: Tenant, x: Id, name: string)
    requires Coherent(t) && Acyclic(t) && name != "" && NoTemplate(name)
    ensures RenamePlaces(t, tenant, x, name)
  {
    if LiveIn(t, tenant, x) && name == t[x].name {
      assert Rename(t, tenant, x, Some(name)).0 == t;
    } else if Rename(t, tenant, x, Some(name)).1.Done? {
      var path := RenameRelocates(t, tenant, x, name);
      var u := Relocated(t, x, t[x].parent, name, path);
      forall y | Live(u, y) ensures Placed(u, y) {
        assert Live(t, y);
        RelocatedPlaced(t, x, t[x].parent, name, path, y);
      }
    }
  }

  /** The table of a root folder "a" with a child "b". */
  predicate HasParentAndChild(t: Table) {
    t == map[1 := Row(0, None, "a", "a", false), 2 := Row(0, Some(1), "b", "a/b", false)]
  }

  lemma ParentAndChild() returns (t: Table)
    ensures HasParentAndChild(t) && Coherent(t) && Acyclic(t)
  {
    t := map[1 := Row(0, None, "a", "a", false), 2 := Row(0, Some(1), "b", "a/b", false)];
    ParentAndChildAcyclic(t);
    ParentAndChildCoherent(t);
  }

  lemma ParentAndChildAcyclic(t: Table)
    requires HasParentAndChild(t)
    ensures Acyclic(t)
  {
    var rank: map<Id, nat> := map[1 := 0, 2 := 1];
    assert Ranked(t, rank);
    AcyclicIffRanked(t);
  }

  lemma ParentAndChildCoherent(t: Table)
    requires HasParentAndChild(t)
    ensures Coherent(t)
  {
    assert ChildPath("a", "b") == "a/b";
    assert Placed(t, 1) && Placed(t, 2);
    assert CleanName("a") && CleanName("b") && NoTemplate("a/b") && NoWildcards("a/b");
  }

  lemma LeavesChildBehind(t: Table, name: string)
    requires HasParentAndChild(t) && !NoTemplate(name)
    ensures var u := Rename(t, 0, 1, Some(name)).0;
            Rename(t, 0, 1, Some(name)).1.Done? && Live(u, 2) && !Placed(u, 2)
  {
    assert NoTemplate("a") && NoTemplate("b");
    assert !Taken(t, 0, None, name, Some(1));
    LikeIsPrefix("a", "a/b");
    assert "a" + "/" == "a/" <= "a/b" && "a" <= "a/b";
    assert "a/b"[..0] == "" && "a/b"[1..] == "/b";
    var e := Expand(name, "a", "", "/b");
    assert Replace("a/b", "a", name) == e + "/b";
    TemplateChanges(name, "a", "", "/b");
    assert ChildPath(name, "b") == name + "/b";
    SuffixCancels(e, name, "/b");
  }

  // ---------- Runs that break the index ----------

  lemma RunStep(ops: seq<Op>, op: Op)
    requires FreshIds(ops) && (op.CreateOp? ==> Unused(Run(ops), op.id))
    ensures Run(ops + [op]) == Apply(Run(ops), op).0 && FreshIds(ops + [op])
  {
    var more := ops + [op];
    assert more[..|ops|] == ops;
    forall i | 0 <= i < |more| && more[i].CreateOp? ensures Unused(Run(more[..i]), more[i].id) {
      if i < |ops| { assert more[..i] == ops[..i]; }
    }
  }

  lemma CreateRoot(t: Table, id: Id, name: string)
    requires name != "" && !IsSpace(name[0]) && !Taken(t, 0, None, name, None)
    ensures Create(t, 0, id, name, None) == (t[id := Row(0, None, name, name, false)], Done(id))
  {
  }

  lemma CreateBelow(t: Table, id: Id, name: string, p: Id)
    requires name != "" && !IsSpace(name[0]) && !Taken(t, 0, Some(p), name, None)
    requires LiveIn(t, 0, p) && t[p].path != ""
    ensures Create(t, 0, id, name, Some(p))
            == (t[id := Row(0, Some(p), name, ChildPath(t[p].path, name), false)], Done(id))
  {
  }

  /** Whether a name begins with something to see. */
  predicate Visible(name: string) {
    name != "" && !IsSpace(name[0])
  }

  /** The run that creates a root folder, another one, and a child of the second. */
  function TwoRoots(a: string, b: string, c: string): seq<Op> {
    [CreateOp(0, 1, a, None), CreateOp(0, 2, b, None), CreateOp(0, 3, c, Some(2))]
  }

  lemma TwoRootsRun(a: string, b: string, c: string)
    requires Visible(a) && Visible(b) && Visible(c) && a != b
    ensures FreshIds(TwoRoots(a, b, c))
    ensures Run(TwoRoots(a, b, c)) == map[1 := Row(0, None, a, a, false), 2 := Row(0, None, b, b, false),
                                          3 := Row(0, Some(2), c, ChildPath(b, c), false)]
  {
    var ops := TwoRoots(a, b, c);
    assert ops == [] + [ops[0]] + [ops[1]] + [ops[2]];
    RunStep([], ops[0]);
    CreateRoot(map[], 1, a);
    var t1 := map[1 := Row(0, None, a, a, false)];
    RunStep([] + [ops[0]], ops[1]);
    CreateRoot(t1, 2, b);
    var t2 := t1[2 := Row(0, None, b, b, false)];
    RunStep([] + [ops[0]] + [ops[1]], ops[2]);
    CreateBelow(t2, 3, c, 2);
  }

  /** A '/' in a name: two live folders of one tenant with the same path. */
  lemma SlashBreaksUniqueness()
    ensures var t := Run([CreateOp(0, 1, "a/b", None), CreateOp(0, 2, "a", None), CreateOp(0, 3, "b", Some(2))]);
            LiveIn(t, 0, 1) && LiveIn(t, 0, 3) && t[1].path == t[3].path
  {
    assert |"a/b"| != |"a"|;
    TwoRootsRun("a/b", "a", "b");
    assert ChildPath("a", "b") == "a/b";
  }

  /** A wildcard in a name: deleting one folder deletes a stranger's child. */
  lemma WildcardBreaksDeletion()
    ensures var t := Run([CreateOp(0, 1, "_", None), CreateOp(0, 2, "x", None), CreateOp(0, 3, "y", Some(2))]);
            var u := SoftDelete(t, 0, 1).0;
            LiveIn(t, 0, 1) && LiveIn(t, 0, 3) && t[3].parent == Some(2) &&
            LiveIn(u, 0, 2) && u[2].parent == None && 3 in u && u[3].deleted
  {
    assert "_"[0] != "x"[0];
    TwoRootsRun("_", "x", "y");
    assert ChildPath("x", "y") == "x/y";
    UnderscoreMatches();
  }

  lemma UnderscoreMatches()
    ensures InSubtree("x/y", "_") && !InSubtree("x", "_")
  {
    var q := "_" + "/%";
    assert q[0] == '_' && q[1..] == "/%";
    assert "x/y"[1..] == "/y" && "x"[1..] == "";
    LikeIsPrefix("", "/y");
    assert "" + "/%" == "/%" && "" + "/" == "/";
    assert !Like("", "/%");
  }

  /** The run that creates a root folder and a child, and then renames the root. */
  function RenamedRoot(a: string, b: string, name: string): seq<Op> {
    [CreateOp(0, 1, a, None), CreateOp(0, 2, b, Some(1)), RenameOp(0, 1, Some(name))]
  }

  lemma RenamedRootRun(a: string, b: string, name: string)
    requires Visible(a) && Visible(b) && name != "" && name != a
    requires InSubtree(ChildPath(a, b), a)
    ensures FreshIds(RenamedRoot(a, b, name))
    ensures var path := Replace(ChildPath(a, b), a, name);
            Run(RenamedRoot(a, b, name)) ==
            map[1 := Row(0, None, name, name, false), 2 := Row(0, Some(1), b, path, false)]
  {
    var ops := RenamedRoot(a, b, name);
    hide Replace, InSubtree;
    assert ops == [] + [ops[0]] + [ops[1]] + [ops[2]];
    RunStep([], ops[0]);
    CreateRoot(map[], 1, a);
    var t1 := map[1 := Row(0, None, a, a, false)];
    RunStep([] + [ops[0]], ops[1]);
    CreateBelow(t1, 2, b, 1);
    RunStep([] + [ops[0]] + [ops[1]], ops[2]);
    var t2 := t1[2 := Row(0, Some(1), b, ChildPath(a, b), false)];
    assert !Taken(t2, 0, None, name, Some(1));
  }

  /** A replacement template in a new name: the child keeps a path that is not below its parent's. */
  lemma TemplateBreaksRename()
    ensures var t := Run([CreateOp(0, 1, "a", None), CreateOp(0, 2, "b", Some(1)), RenameOp(0, 1, Some("$&"))]);
            LiveIn(t, 0, 1) && LiveIn(t, 0, 2) && t[2].parent == Some(1) &&
            t[1].path == "$&" && t[2].path == "a/b"
  {
    assert "$&"[0] != "a"[0];
    assert ChildPath("a", "b") == "a/b";
    TemplateExpands();
    RenamedRootRun("a", "b", "$&");
  }

  lemma TemplateExpands()
    ensures InSubtree("a/b", "a") && Replace("a/b", "a", "$&") == "a/b"
  {
    LikeIsPrefix("a", "a/b");
    assert "a" + "/" == "a/" <= "a/b";
    assert "a" <= "a/b";
    assert "a/b"[..0] == "" && "a/b"[1..] == "/b";
    assert "$&"[2..] == "";
    assert Expand("$&", "a", "", "/b") == "a" + Expand("", "a", "", "/b");
    assert "a" + "/b" == "a/b";
  }

  /** The run that creates "a", deletes it softly, creates "a" again, and "b" below that. */
  function DeletedTwin(): seq<Op> {
    [CreateOp(0, 1, "a", None), SoftDeleteOp(0, 1), CreateOp(0, 2, "a", None), CreateOp(0, 3, "b", Some(2))]
  }

  lemma DeletedRoot(t: Table)
    requires t == map[1 := Row(0, None, "a", "a", false)]
    ensures SoftDelete(t, 0, 1).0 == map[1 := Row(0, None, "a", "a", true)]
  {
    hide InSubtree;
  }

  lemma DeletedTwinRun()
    ensures FreshIds(DeletedTwin())
    ensures Run(DeletedTwin()) == map[1 := Row(0, None, "a", "a", true), 2 := Row(0, None, "a", "a", false),
                                      3 := Row(0, Some(2), "b", ChildPath("a", "b"), false)]
  {
    var ops := DeletedTwin();
    hide InSubtree;
    assert ops == [] + [ops[0]] + [ops[1]] + [ops[2]] + [ops[3]];
    RunStep([], ops[0]);
    CreateRoot(map[], 1, "a");
    RunStep([] + [ops[0]], ops[1]);
    var t2 := map[1 := Row(0, None, "a", "a", true)];
    DeletedRoot(map[1 := Row(0, None, "a", "a", false)]);
    hide SoftDelete;
    RunStep([] + [ops[0]] + [ops[1]], ops[2]);
    CreateRoot(t2, 2, "a");
    var t3 := t2[2 := Row(0, None, "a", "a", false)];
    RunStep([] + [ops[0]] + [ops[1]] + [ops[2]], ops[3]);
    CreateBelow(t3, 3, "b", 2);
  }

  /** Removing a deleted folder for good removes a live one that happens to lie below its old path, and
      not the live folder that took that path over. */
  lemma RemovalBreaksStranger()
    ensures var ops := DeletedTwin();
            FreshIds(ops) && LiveIn(Run(ops), 0, 2) && LiveIn(Run(ops), 0, 3) &&
            var t := Run(ops + [HardDeleteOp(0, 1)]);
            LiveIn(t, 0, 2) && 3 !in t
  {
    DeletedTwinRun();
    RunStep(DeletedTwin(), HardDeleteOp(0, 1));
    LikeIsPrefix("a", "a");
    LikeIsPrefix("a", "a/b");
    assert "a" + "/" == "a/" <= "a/b" == ChildPath("a", "b");
  }
}
