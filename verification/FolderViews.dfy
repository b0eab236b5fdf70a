/** The three ways of reading the tree: by path, upwards and downwards. */
module FolderViews {
  import opened Wrappers
  import opened Text
  import opened FolderModel
  import opened FolderLinks
  import opened FolderIndex
  import opened FolderRuns

  // ---------- Lookup by path ----------

  /** The live folder of this name under `at` (the root when None). */
  ghost predicate ChildNamed(t: Table, tenant: Tenant, at: Option<Id>, name: string, c: Id) {
    LiveIn(t, tenant, c) && t[c].parent == at && t[c].name == name
  }

  /** Walking down from `at`, one name per step, through live folders only. */
  ghost predicate WalksTo(t: Table, tenant: Tenant, at: Option<Id>, ns: seq<string>, x: Id)
    decreases |ns|
  {
    if ns == [] then at == Some(x)
    else exists c :: ChildNamed(t, tenant, at, ns[0], c) && WalksTo(t, tenant, Some(c), ns[1..], x)
  }

  /** The last step of a walk can be peeled off. */
  lemma {:induction false} WalkSnoc(t: Table, tenant: Tenant, at: Option<Id>, ns: seq<string>, n: string, x: Id)
    ensures WalksTo(t, tenant, at, ns + [n], x) <==>
            if ns == [] then ChildNamed(t, tenant, at, n, x)
            else exists p :: WalksTo(t, tenant, at, ns, p) && ChildNamed(t, tenant, Some(p), n, x)
    decreases |ns|
  {
    var ms := ns + [n];
    if ns == [] {
      assert ms[0] == n && ms[1..] == [];
      if ChildNamed(t, tenant, at, n, x) { assert WalksTo(t, tenant, Some(x), [], x); }
    } else {
      assert ms[0] == ns[0] && ms[1..] == ns[1..] + [n];
      forall c
        ensures WalksTo(t, tenant, Some(c), ns[1..] + [n], x) <==>
                if ns[1..] == [] then ChildNamed(t, tenant, Some(c), n, x)
                else exists p :: WalksTo(t, tenant, Some(c), ns[1..], p) && ChildNamed(t, tenant, Some(p), n, x)
      {
        WalkSnoc(t, tenant, Some(c), ns[1..], n, x);
      }
      if WalksTo(t, tenant, at, ms, x) {
        var c :| ChildNamed(t, tenant, at, ns[0], c) && WalksTo(t, tenant, Some(c), ns[1..] + [n], x);
        var p :| ChildNamed(t, tenant, Some(p), n, x) && WalksTo(t, tenant, Some(c), ns[1..], p);
        assert WalksTo(t, tenant, at, ns, p);
      }
      if p :| WalksTo(t, tenant, at, ns, p) && ChildNamed(t, tenant, Some(p), n, x) {
        var c :| ChildNamed(t, tenant, at, ns[0], c) && WalksTo(t, tenant, Some(c), ns[1..], p);
        assert WalksTo(t, tenant, Some(c), ns[1..] + [n], x);
      }
    }
  }

  lemma WalkOne(t: Table, tenant: Tenant, n: string, x: Id)
    requires ChildNamed(t, tenant, None, n, x)
    ensures WalksTo(t, tenant, None, [n], x)
  {
    assert [n][1..] == [];
    assert WalksTo(t, tenant, Some(x), [], x);
  }

  lemma WalkOn(t: Table, tenant: Tenant, ns: seq<string>, p: Id, n: string, x: Id)
    requires ns != [] && WalksTo(t, tenant, None, ns, p) && ChildNamed(t, tenant, Some(p), n, x)
    ensures WalksTo(t, tenant, None, ns + [n], x)
  {
    WalkSnoc(t, tenant, None, ns, n, x);
  }

  /** Walking the names of a path from the root arrives at the live folder stored under it. */
  lemma {:induction false} WalkArrives(t: Table, tenant: Tenant, x: Id)
    requires Coherent(t) && LiveIn(t, tenant, x)
    ensures WalksTo(t, tenant, None, Split(t[x].path), x)
    decreases |t[x].path|
  {
    assert Live(t, x) && Placed(t, x);
    var n := t[x].name;
    match t[x].parent
    case None =>
      SplitFlat(n);
      WalkOne(t, tenant, n, x);
    case Some(p) =>
      WalkArrives(t, tenant, p);
      SplitSnoc(t[p].path, n);
      WalkOn(t, tenant, Split(t[p].path), p, n, x);
  }

  /** Where a walk from the root arrives, the stored path is the walked one. */
  lemma {:induction false} WalkSpells(t: Table, tenant: Tenant, ns: seq<string>, x: Id)
    requires Coherent(t) && ns != [] && WalksTo(t, tenant, None, ns, x)
    ensures LiveIn(t, tenant, x) && t[x].path == Join(ns)
    decreases |ns|
  {
    var k := |ns| - 1;
    assert ns == ns[..k] + [ns[k]];
    WalkSnoc(t, tenant, None, ns[..k], ns[k], x);
    if k > 0 {
      var p :| WalksTo(t, tenant, None, ns[..k], p) && ChildNamed(t, tenant, Some(p), ns[k], x);
      WalkSpells(t, tenant, ns[..k], p);
    }
  }

  /** `findByPath` refines the walk: for any string whatever, the folder stored under that path is
      the folder reached by splitting it on '/' and walking down live children by name; there is at
      most one, and either both find it or neither does. */
  lemma FindByPathIsWalk(t: Table, tenant: Tenant, path: string, x: Id)
    requires Coherent(t)
    ensures LiveIn(t, tenant, x) && t[x].path == path <==> WalksTo(t, tenant, None, Split(path), x)
    ensures forall y ::
              LiveIn(t, tenant, x) && t[x].path == path && LiveIn(t, tenant, y) && t[y].path == path ==> x == y
  {
    if WalksTo(t, tenant, None, Split(path), x) {
      WalkSpells(t, tenant, Split(path), x);
      JoinSplit(path);
    }
    if LiveIn(t, tenant, x) && t[x].path == path {
      WalkArrives(t, tenant, x);
      forall y | LiveIn(t, tenant, y) && t[y].path == path ensures x == y { PathsDiffer(t, x, y); }
    }
  }

  // ---------- The tree listing ----------

  datatype Tree = Node(id: Id, children: seq<Tree>)

  predicate IsChild(t: Table, x: Id, c: Id)
    requires x in t
  {
    LiveIn(t, t[x].tenant, c) && t[c].parent == Some(x)
  }

  /** `find({ parentId, deleted: false }, order: { name: 'ASC' })`. */
  predicate Listing(t: Table, x: Id, ids: seq<Id>)
    requires x in t
  {
    && (forall i :: 0 <= i < |ids| ==> IsChild(t, x, ids[i]))
    && (forall c :: c in t && IsChild(t, x, c) ==> c in ids)
    && (forall i, j :: 0 <= i < j < |ids| ==> ids[i] != ids[j])
    && (forall i, j :: 0 <= i < j < |ids| && ids[i] in t && ids[j] in t ==> Leq(t[ids[i]].name, t[ids[j]].name))
  }

  function Roots(ts: seq<Tree>): (ids: seq<Id>)
    ensures |ids| == |ts|
  {
    seq(|ts|, i requires 0 <= i < |ts| => ts[i].id)
  }

  /** The tree is what `getFolderTree` builds: every node lists exactly its live children by name. */
  predicate Lists(t: Table, tree: Tree) {
    && tree.id in t
    && Listing(t, tree.id, Roots(tree.children))
    && forall c :: c in tree.children ==> Lists(t, c)
  }

  /** A node's children are the live folders under it, each once, in ascending order of name, and so on
      for each of them. */
  lemma NodeLists(t: Table, tree: Tree)
    requires Lists(t, tree)
    ensures var ids := Roots(tree.children);
            && (forall c :: c in ids <==> LiveIn(t, t[tree.id].tenant, c) && t[c].parent == Some(tree.id))
            && (forall i :: 0 <= i < |ids| ==> ids[i] in t && ids[i] == tree.children[i].id)
            && (forall i, j :: 0 <= i < j < |ids| ==> ids[i] != ids[j] && Leq(t[ids[i]].name, t[ids[j]].name))
            && (forall c :: c in tree.children ==> Lists(t, c))
  {
    hide Leq;
    var ids := Roots(tree.children);
    forall i | 0 <= i < |ids| ensures ids[i] in t { assert IsChild(t, tree.id, ids[i]); }
  }

  /** How often y appears in a tree, or in a row of trees. */
  function Count(tree: Tree, y: Id): nat {
    (if tree.id == y then 1 else 0) + CountAll(tree.children, y)
  }

  function CountAll(ts: seq<Tree>, y: Id): nat {
    if ts == [] then 0 else Count(ts[0], y) + CountAll(ts[1..], y)
  }

  ghost predicate AtOrBelow(t: Table, y: Id, x: Id) {
    y in t && (y == x || Below(t, y, x))
  }

  lemma StepsTo(t: Table, y: Id, x: Id) returns (n: nat)
    requires AtOrBelow(t, y, x)
    ensures Up(t, y, n) == Some(x)
  {
    n := 0;
    if y != x { n :| n >= 1 && Up(t, y, n) == Some(x); }
  }

  /** Distinct children of one folder have disjoint subtrees. */
  lemma SiblingSubtreesDisjoint(t: Table, x: Id, c: Id, d: Id, y: Id)
    requires Acyclic(t) && x in t && IsChild(t, x, c) && IsChild(t, x, d) && c != d
    ensures !(AtOrBelow(t, y, c) && AtOrBelow(t, y, d))
  {
    BelowStep(t, c, x);
    BelowStep(t, d, x);
    BelowStep(t, c, d);
    BelowStep(t, d, c);
    assert !Below(t, c, d) by { if Below(t, c, d) { assert Below(t, x, d); BelowTransitive(t, x, d, x); } }
    assert !Below(t, d, c) by { if Below(t, d, c) { assert Below(t, x, c); BelowTransitive(t, x, c, x); } }
    if AtOrBelow(t, y, c) && AtOrBelow(t, y, d) {
      var m := StepsTo(t, y, c);
      var n := StepsTo(t, y, d);
      Chain(t, y, c, m, d, n);
      assert false;
    }
  }

  /** A proper live descendant of x is at or below one of x's listed children. */
  lemma BelowViaChild(t: Table, x: Id, y: Id) returns (c: Id)
    requires Coherent(t) && Live(t, y) && Below(t, y, x)
    ensures x in t && IsChild(t, x, c) && AtOrBelow(t, y, c)
    decreases |t[y].path|
  {
    BelowStep(t, y, x);
    var p := Parent(t, y).value;
    if p == x {
      c := y;
    } else {
      c := BelowViaChild(t, x, p);
      BelowStep(t, y, c);
    }
  }

  /** Every live folder at or below the root of the tree appears in it once, and nothing else does. */
  lemma {:induction false} TreeExact(t: Table, tree: Tree, y: Id)
    requires Acyclic(t) && Coherent(t) && Lists(t, tree) && Live(t, tree.id)
    ensures Count(tree, y) == if Live(t, y) && AtOrBelow(t, y, tree.id) then 1 else 0
    decreases tree, 1
  {
    var x := tree.id;
    forall i, j | 0 <= i < j < |tree.children| ensures tree.children[i].id != tree.children[j].id {
      assert Roots(tree.children)[i] != Roots(tree.children)[j];
    }
    forall c | c in tree.children ensures IsChild(t, x, c.id) {
      var i :| 0 <= i < |tree.children| && tree.children[i] == c;
      assert IsChild(t, x, Roots(tree.children)[i]);
    }
    ForestExact(t, x, tree.children, y);
    if Live(t, y) && Below(t, y, x) {
      var c := BelowViaChild(t, x, y);
      assert c in Roots(tree.children);
    }
    forall c | c in tree.children && AtOrBelow(t, y, c.id) ensures Below(t, y, x) {
      var i :| 0 <= i < |tree.children| && tree.children[i] == c;
      assert IsChild(t, x, Roots(tree.children)[i]);
      BelowStep(t, c.id, x);
      if y != c.id { BelowTransitive(t, y, c.id, x); }
    }
  }

  lemma {:induction false} ForestExact(t: Table, x: Id, ts: seq<Tree>, y: Id)
    requires Acyclic(t) && Coherent(t) && x in t
    requires forall c :: c in ts ==> Lists(t, c) && IsChild(t, x, c.id)
    requires forall i, j :: 0 <= i < j < |ts| ==> ts[i].id != ts[j].id
    ensures CountAll(ts, y) == if Live(t, y) && exists c :: c in ts && AtOrBelow(t, y, c.id) then 1 else 0
    decreases ts, 0
  {
    if ts != [] {
      var c, rest := ts[0], ts[1..];
      assert c in ts;
      TreeExact(t, c, y);
      ForestExact(t, x, rest, y);
      forall d | d in rest ensures !(AtOrBelow(t, y, c.id) && AtOrBelow(t, y, d.id)) {
        SiblingSubtreesDisjoint(t, x, c.id, d.id, y);
      }
    }
  }

  /** `getFolderTree` and `getAncestry` are inverse views: y is listed strictly below x (and then
      exactly once) if and only if x is in the ancestry of y. */
  lemma TreeInvertsAncestry(t: Table, tree: Tree, y: Id)
    requires Acyclic(t) && Coherent(t) && Lists(t, tree) && Live(t, tree.id) && Live(t, y)
    ensures CountAll(tree.children, y) == if tree.id in Ancestry(t, y) then 1 else 0
  {
    TreeExact(t, tree, y);
    AncestryExact(t, y);
  }
}
