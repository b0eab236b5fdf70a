/** Whole runs of the folder service, and operations that undo each other. */
module FolderRuns {
  import opened Wrappers
  import opened Text
  import opened FolderModel
  import opened FolderLinks
  import opened FolderIndex

  datatype Op =
    | CreateOp(tenant: Tenant, id: Id, name: string, parent: Option<Id>)
    | RenameOp(tenant: Tenant, id: Id, newName: Option<string>)
    | MoveOp(tenant: Tenant, id: Id, newParent: Option<Id>)
    | SoftDeleteOp(tenant: Tenant, id: Id)
    | HardDeleteOp(tenant: Tenant, id: Id)

  ghost function Apply(t: Table, op: Op): (Table, Outcome) {
    match op
    case CreateOp(tenant, id, name, parent) => Create(t, tenant, id, name, parent)
    case RenameOp(tenant, id, name) => Rename(t, tenant, id, name)
    case MoveOp(tenant, id, parent) => Move(t, tenant, id, parent)
    case SoftDeleteOp(tenant, id) => SoftDelete(t, tenant, id)
    case HardDeleteOp(tenant, id) => HardDelete(t, tenant, id)
  }

  /** The table after the requests, accepted or refused, have been served one after another. */
  ghost function Run(ops: seq<Op>): Table {
    if ops == [] then map[] else Apply(Run(ops[..|ops| - 1]), ops[|ops| - 1]).0
  }

  /** Every created folder gets a uuid never seen before. */
  ghost predicate FreshIds(ops: seq<Op>) {
    forall i :: 0 <= i < |ops| && ops[i].CreateOp? ==> Unused(Run(ops[..i]), ops[i].id)
  }

  predicate CleanOp(op: Op) {
    && (op.CreateOp? && op.name != "" ==> CleanName(op.name))
    && (op.RenameOp? && op.newName.Some? && op.newName.value != "" ==> CleanName(op.newName.value))
  }

  lemma ApplyAcyclic(t: Table, op: Op)
    requires Acyclic(t) && (op.CreateOp? ==> Unused(t, op.id))
    ensures Acyclic(Apply(t, op).0)
  {
    match op
    case CreateOp(tenant, id, name, parent) => CreateAcyclic(t, tenant, id, name, parent);
    case RenameOp(tenant, id, name) => OthersAcyclic(t, tenant, id, name);
    case MoveOp(tenant, id, parent) => MoveAcyclic(t, tenant, id, parent);
    case SoftDeleteOp(tenant, id) => OthersAcyclic(t, tenant, id, None);
    case HardDeleteOp(tenant, id) => OthersAcyclic(t, tenant, id, None);
  }

  lemma ApplyCoherent(t: Table, op: Op)
    requires Acyclic(t) && Coherent(t) && CleanOp(op) && (op.CreateOp? ==> Unused(t, op.id))
    ensures Coherent(Apply(t, op).0)
  {
    match op
    case CreateOp(tenant, id, name, parent) => if name != "" { CreateCoherent(t, tenant, id, name, parent); }
    case RenameOp(tenant, id, name) => RenameCoherent(t, tenant, id, name);
    case MoveOp(tenant, id, parent) => MoveCoherent(t, tenant, id, parent);
    case SoftDeleteOp(tenant, id) => SoftDeleteCoherent(t, tenant, id);
    case HardDeleteOp(tenant, id) => HardDeleteCoherent(t, tenant, id);
  }

  lemma FreshPrefix(ops: seq<Op>, n: nat)
    requires FreshIds(ops) && n <= |ops|
    ensures FreshIds(ops[..n])
  {
    forall i | 0 <= i < n && ops[i].CreateOp? ensures Unused(Run(ops[..n][..i]), ops[i].id) {
      assert ops[..n][..i] == ops[..i];
    }
  }

  /** Whatever the folders are called, no run ever makes a folder its own ancestor. */
  lemma {:induction false} RunAcyclic(ops: seq<Op>)
    requires FreshIds(ops)
    ensures Acyclic(Run(ops))
  {
    if ops != [] {
      var n := |ops| - 1;
      FreshPrefix(ops, n);
      RunAcyclic(ops[..n]);
      ApplyAcyclic(Run(ops[..n]), ops[n]);
    }
  }

  /** With clean names the path index agrees with the links after every run. */
  lemma {:induction false} RunCoherent(ops: seq<Op>)
    requires FreshIds(ops) && forall i :: 0 <= i < |ops| ==> CleanOp(ops[i])
    ensures Coherent(Run(ops))
  {
    if ops != [] {
      var n := |ops| - 1;
      FreshPrefix(ops, n);
      RunAcyclic(ops[..n]);
      RunCoherent(ops[..n]);
      ApplyCoherent(Run(ops[..n]), ops[n]);
    }
  }

  /** No two live folders of a tenant under one parent, or at the root, have the same name. */
  ghost predicate SiblingsDiffer(t: Table) {
    forall x, y :: Live(t, x) && Live(t, y) ==> SiblingNamesDiffer(t, x, y)
  }

  lemma ApplySiblings(t: Table, op: Op)
    requires SiblingsDiffer(t)
    ensures SiblingsDiffer(Apply(t, op).0)
  {
    hide InSubtree, Replace, Below;
    var u := Apply(t, op).0;
    forall x, y | Live(u, x) && Live(u, y) ensures SiblingNamesDiffer(u, x, y) {
      if Live(t, x) && Live(t, y) { assert SiblingNamesDiffer(t, x, y); }
    }
  }

  /** What the duplicate checks are for: whatever the folders are called, after every run no two live
      siblings have the same name. */
  lemma {:induction false} RunKeepsSiblingsApart(ops: seq<Op>)
    ensures SiblingsDiffer(Run(ops))
  {
    if ops != [] {
      RunKeepsSiblingsApart(ops[..|ops| - 1]);
      ApplySiblings(Run(ops[..|ops| - 1]), ops[|ops| - 1]);
    }
  }

  // ---------- The join of the names along the parent chain ----------

  /** The proper ancestors of x, root first. */
  ghost function Ancestry(t: Table, x: Id): seq<Id>
    requires Acyclic(t) && x in t
    decreases Above(t, x)
  {
    match Parent(t, x)
    case None => []
    case Some(p) => AboveShrinks(t, x); Ancestry(t, p) + [p]
  }

  ghost function Names(t: Table, xs: seq<Id>): (ns: seq<string>)
    requires forall i :: 0 <= i < |xs| ==> xs[i] in t
    ensures |ns| == |xs|
  {
    seq(|xs|, i requires 0 <= i < |xs| => t[xs[i]].name)
  }

  /** `getAncestry` lists exactly the proper ancestors, each once. */
  lemma {:induction false} AncestryExact(t: Table, x: Id)
    requires Acyclic(t) && x in t
    ensures forall a :: a in Ancestry(t, x) <==> Below(t, x, a)
    ensures forall i :: 0 <= i < |Ancestry(t, x)| ==> Ancestry(t, x)[i] in t
    ensures forall i, j :: 0 <= i < j < |Ancestry(t, x)| ==> Below(t, Ancestry(t, x)[j], Ancestry(t, x)[i])
    decreases Above(t, x)
  {
    forall a
      ensures Below(t, x, a) <==>
              Parent(t, x).Some? && (Parent(t, x).value == a || Below(t, Parent(t, x).value, a))
    {
      BelowStep(t, x, a);
    }
    if Parent(t, x).Some? {
      AboveShrinks(t, x);
      AncestryExact(t, Parent(t, x).value);
    }
  }

  /** The stored path spells the ancestry followed by the folder's own name. */
  lemma {:induction false} PathSpellsAncestry(t: Table, x: Id)
    requires Acyclic(t) && Coherent(t) && Live(t, x)
    ensures forall i :: 0 <= i < |Ancestry(t, x)| ==> Ancestry(t, x)[i] in t
    ensures t[x].path == Join(Names(t, Ancestry(t, x) + [x]))
    decreases |t[x].path|
  {
    AncestryExact(t, x);
    if t[x].parent.Some? {
      var p := t[x].parent.value;
      PathSpellsAncestry(t, p);
      assert Names(t, Ancestry(t, x) + [x]) == Names(t, Ancestry(t, p) + [p]) + [t[x].name];
      JoinSnoc(Names(t, Ancestry(t, p) + [p]), t[x].name);
    }
  }

  /** The index is right about x: the ancestors of x are live, its path is the join of the names along
      its parent chain, no other live folder of the tenant has that path, and the subtree query finds
      exactly the live descendants of x. */
  ghost predicate IndexRight(t: Table, x: Id)
    requires x in t
  {
    && Acyclic(t)
    && (forall a :: Below(t, x, a) ==> LiveIn(t, t[x].tenant, a))
    && (forall i :: 0 <= i < |Ancestry(t, x)| ==> Ancestry(t, x)[i] in t)
    && t[x].path == Join(Names(t, Ancestry(t, x) + [x]))
    && (forall y :: LiveIn(t, t[x].tenant, y) ==>
          && (t[y].path == t[x].path ==> y == x)
          && (Matched(t, t[x].tenant, t[x].path, y) <==> Below(t, y, x)))
  }

  /** The main theorem: after every run with clean names, the index is right about every live folder. */
  lemma RunKeepsIndex(ops: seq<Op>, x: Id)
    requires FreshIds(ops) && forall i :: 0 <= i < |ops| ==> CleanOp(ops[i])
    requires Live(Run(ops), x)
    ensures IndexRight(Run(ops), x)
  {
    var t := Run(ops);
    RunAcyclic(ops);
    RunCoherent(ops);
    forall a | Below(t, x, a) ensures LiveIn(t, t[x].tenant, a) { AncestorsLive(t, x, a); }
    PathSpellsAncestry(t, x);
    forall y | LiveIn(t, t[x].tenant, y)
      ensures t[y].path == t[x].path ==> y == x
      ensures Matched(t, t[x].tenant, t[x].path, y) <==> Below(t, y, x)
    {
      if t[y].path == t[x].path { PathsDiffer(t, x, y); }
      MatchedIffBelow(t, y, x);
    }
  }

  // ---------- What a move or a rename does to the live tree ----------

  /** From t to u, x's path became `path` and exactly x's live subtree followed it by a prefix swap. */
  ghost predicate SubtreeFollows(t: Table, u: Table, x: Id, path: string)
    requires x in t
  {
    u.Keys == t.Keys &&
    forall y :: Live(t, y) ==>
      u[y].path == if y == x then path
                   else if Below(t, y, x) && t[x].path <= t[y].path then path + t[y].path[|t[x].path|..]
                   else t[y].path
  }

  lemma MoveTakesSubtree(t: Table, tenant: Tenant, x: Id, parent: Option<Id>)
    requires Coherent(t) && Move(t, tenant, x, parent).1.Done?
    ensures var path := if parent.Some? then ChildPath(t[parent.value].path, t[x].name) else t[x].name;
            SubtreeFollows(t, Move(t, tenant, x, parent).0, x, path)
    ensures forall y :: Live(t, y) && Below(t, y, x) ==> t[x].path + "/" <= t[y].path
  {
    var path := MoveRelocates(t, tenant, x, parent);
    forall y | Live(t, y) ensures Below(t, y, x) ==> t[x].path + "/" <= t[y].path {
      RelocatedPath(t, x, parent, t[x].name, path, y);
      if Below(t, y, x) { BelowHasPrefix(t, y, x); }
    }
    forall y | Live(t, y)
      ensures Relocated(t, x, parent, t[x].name, path)[y].path ==
              if y == x then path
              else if Below(t, y, x) && t[x].path <= t[y].path then path + t[y].path[|t[x].path|..]
              else t[y].path
    {
      RelocatedPath(t, x, parent, t[x].name, path, y);
    }
  }

  lemma RenameTakesSubtree(t: Table, tenant: Tenant, x: Id, name: string)
    requires Acyclic(t) && Coherent(t) && CleanName(name)
    requires Rename(t, tenant, x, Some(name)).1.Done? && name != t[x].name
    ensures var path := if t[x].parent.Some? then ChildPath(t[t[x].parent.value].path, name) else name;
            SubtreeFollows(t, Rename(t, tenant, x, Some(name)).0, x, path)
  {
    var path := RenameRelocates(t, tenant, x, name);
    forall y | Live(t, y)
      ensures Relocated(t, x, t[x].parent, name, path)[y].path ==
              if y == x then path
              else if Below(t, y, x) && t[x].path <= t[y].path then path + t[y].path[|t[x].path|..]
              else t[y].path
    {
      RelocatedPath(t, x, t[x].parent, name, path, y);
    }
  }

  // ---------- There and back again ----------

  /** Names and links determine the paths. */
  lemma {:induction false} TreeDeterminesPath(t: Table, u: Table, x: Id)
    requires Coherent(t) && Coherent(u) && Live(t, x)
    requires forall y :: Live(t, y) ==> Live(u, y) && t[y].name == u[y].name && t[y].parent == u[y].parent
    ensures t[x].path == u[x].path
    decreases |t[x].path|
  {
    if t[x].parent.Some? { TreeDeterminesPath(t, u, t[x].parent.value); }
  }

  /** The live part of the table. */
  function LiveRows(t: Table): Table {
    map x | x in t && !t[x].deleted :: t[x]
  }

  /** The same live folders, up to their paths. */
  predicate SameTree(t: Table, u: Table) {
    && u.Keys == t.Keys
    && forall x :: x in t ==>
         && u[x].deleted == t[x].deleted && u[x].tenant == t[x].tenant
         && u[x].name == t[x].name && u[x].parent == t[x].parent
  }

  lemma SameRow(t: Table, u: Table, x: Id)
    requires Coherent(t) && Coherent(u) && SameTree(t, u) && Live(t, x)
    ensures u[x] == t[x]
  {
    TreeDeterminesPath(t, u, x);
  }

  lemma SameLive(t: Table, u: Table)
    requires Coherent(t) && Coherent(u) && SameTree(t, u)
    ensures LiveRows(u) == LiveRows(t)
  {
    forall x | Live(t, x) ensures u[x] == t[x] { SameRow(t, u, x); }
    EqualLive(t, u);
  }

  lemma EqualLive(t: Table, u: Table)
    requires u.Keys == t.Keys && forall x :: x in t ==> u[x].deleted == t[x].deleted
    requires forall x :: Live(t, x) ==> u[x] == t[x]
    ensures LiveRows(u) == LiveRows(t)
  {
    assert LiveRows(u).Keys == LiveRows(t).Keys;
    forall x | x in LiveRows(t) ensures LiveRows(u)[x] == LiveRows(t)[x] { assert Live(t, x); }
  }

  /** u is t with another parent and name for x, paths aside. */
  predicate Edited(t: Table, u: Table, x: Id, parent: Option<Id>, name: string) {
    && u.Keys == t.Keys && x in t
    && (forall y :: y in t ==> u[y].tenant == t[y].tenant && u[y].deleted == t[y].deleted)
    && (forall y :: y in t && y != x ==> u[y].name == t[y].name && u[y].parent == t[y].parent)
    && u[x].parent == parent && u[x].name == name
  }

  lemma MoveEdits(t: Table, tenant: Tenant, x: Id, parent: Option<Id>)
    requires Move(t, tenant, x, parent).1.Done?
    ensures Edited(t, Move(t, tenant, x, parent).0, x, parent, t[x].name)
  {
  }

  lemma RenameEdits(t: Table, tenant: Tenant, x: Id, name: string)
    requires Rename(t, tenant, x, Some(name)).1.Done? && name != ""
    ensures Edited(t, Rename(t, tenant, x, Some(name)).0, x, t[x].parent, name)
  {
  }

  /** The old place of x is still free after x has left it. */
  lemma OldPlaceIsFree(t: Table, u: Table, x: Id, parent: Option<Id>, name: string)
    requires Coherent(t) && Live(t, x) && Edited(t, u, x, parent, name)
    ensures !Taken(u, t[x].tenant, t[x].parent, t[x].name, Some(x))
  {
    forall y | y in t && LiveIn(t, t[x].tenant, y) && x != y ensures SiblingNamesDiffer(t, x, y) {
      assert Live(t, y);
    }
  }

  /** The old parent of x does not end up below x. */
  lemma OldParentStaysAbove(t: Table, u: Table, x: Id, parent: Option<Id>, name: string)
    requires Acyclic(t) && Coherent(t) && Live(t, x) && Edited(t, u, x, parent, name)
    requires t[x].parent.Some?
    ensures t[x].parent.value != x && !Below(u, t[x].parent.value, x)
  {
    var h := t[x].parent.value;
    BelowStep(t, x, h);
    BelowStep(t, x, x);
    forall n: nat ensures Up(u, h, n) == Up(t, h, n) { RelinkElsewhere(t, u, x, h, n); }
  }

  /** A folder moved away can always be moved back, and that restores every live folder. */
  lemma MoveBackRestores(t: Table, tenant: Tenant, x: Id, parent: Option<Id>)
    requires Acyclic(t) && Coherent(t) && Move(t, tenant, x, parent).1.Done?
    ensures var u := Move(t, tenant, x, parent).0;
            var (w, r) := Move(u, tenant, x, t[x].parent);
            r == Done(x) && LiveRows(w) == LiveRows(t)
  {
    var u := Move(t, tenant, x, parent).0;
    MoveEdits(t, tenant, x, parent);
    MoveCoherent(t, tenant, x, parent);
    OldPlaceIsFree(t, u, x, parent, t[x].name);
    if t[x].parent.Some? { OldParentStaysAbove(t, u, x, parent, t[x].name); }
    var (w, r) := Move(u, tenant, x, t[x].parent);
    assert r == Done(x);
    MoveEdits(u, tenant, x, t[x].parent);
    MoveCoherent(u, tenant, x, t[x].parent);
    assert SameTree(t, w);
    SameLive(t, w);
  }

  /** A renamed folder can always be given its old name again, and that restores every live folder. */
  lemma RenameBackRestores(t: Table, tenant: Tenant, x: Id, name: string)
    requires Acyclic(t) && Coherent(t) && CleanName(name) && Rename(t, tenant, x, Some(name)).1.Done?
    ensures var u := Rename(t, tenant, x, Some(name)).0;
            var (w, r) := Rename(u, tenant, x, Some(t[x].name));
            r == Done(x) && LiveRows(w) == LiveRows(t)
  {
    var u := Rename(t, tenant, x, Some(name)).0;
    RenameEdits(t, tenant, x, name);
    RenameCoherent(t, tenant, x, Some(name));
    OthersAcyclic(t, tenant, x, Some(name));
    OldPlaceIsFree(t, u, x, t[x].parent, name);
    assert CleanName(t[x].name);
    var (w, r) := Rename(u, tenant, x, Some(t[x].name));
    assert r == Done(x);
    RenameEdits(u, tenant, x, t[x].name);
    RenameCoherent(u, tenant, x, Some(t[x].name));
    assert SameTree(t, w);
    SameLive(t, w);
  }
}
