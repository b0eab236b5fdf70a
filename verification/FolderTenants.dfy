/** Tenants do not touch each other: whatever the names, and whether the index is right or not, a tenant's
    folders and answers are what they would be had no other tenant ever made a request. */
module FolderTenants {
  import opened Wrappers
  import opened Text
  import opened FolderModel
  import opened FolderLinks
  import opened FolderRuns

  /** The rows of one tenant. */
  function OwnRows(t: Table, tenant: Tenant): Table {
    map x | x in t && t[x].tenant == tenant :: t[x]
  }

  /** The requests of one tenant. */
  function OwnOps(ops: seq<Op>, tenant: Tenant): seq<Op> {
    if ops == [] then []
    else
      var op := ops[|ops| - 1];
      OwnOps(ops[..|ops| - 1], tenant) + if op.tenant == tenant then [op] else []
  }

  // ---------- One request ----------

  lemma {:induction false} UpInTenant(t: Table, x: Id, n: nat)
    requires x in t
    ensures Up(OwnRows(t, t[x].tenant), x, n) == Up(t, x, n)
    decreases n
  {
    if n > 0 && Parent(t, x).Some? { UpInTenant(t, Parent(t, x).value, n - 1); }
  }

  lemma BelowInTenants(t: Table, tenant: Tenant, x: Id, a: Id)
    requires InTenant(t, tenant, x)
    ensures Below(OwnRows(t, tenant), x, a) <==> Below(t, x, a)
  {
    forall n: nat ensures Up(OwnRows(t, tenant), x, n) == Up(t, x, n) { UpInTenant(t, x, n); }
  }

  lemma TakenInTenant(t: Table, tenant: Tenant, parent: Option<Id>, name: string, except: Option<Id>)
    ensures Taken(OwnRows(t, tenant), tenant, parent, name, except) <==> Taken(t, tenant, parent, name, except)
  {
    forall y ensures LiveIn(OwnRows(t, tenant), tenant, y) <==> LiveIn(t, tenant, y) {}
  }

  lemma RepathInTenant(t: Table, tenant: Tenant, oldPath: string, newPath: string)
    ensures OwnRows(Repath(t, tenant, oldPath, newPath), tenant) == Repath(OwnRows(t, tenant), tenant, oldPath, newPath)
    ensures forall other :: other != tenant ==>
              OwnRows(Repath(t, tenant, oldPath, newPath), other) == OwnRows(t, other)
  {
    hide InSubtree, Replace;
  }

  /** A request works on its tenant's rows alone. */
  lemma OwnRequest(t: Table, op: Op)
    ensures OwnRows(Apply(t, op).0, op.tenant) == Apply(OwnRows(t, op.tenant), op).0
    ensures Apply(t, op).1 == Apply(OwnRows(t, op.tenant), op).1
  {
    hide InSubtree, Replace, Taken, Below, Repath;
    var own := OwnRows(t, op.tenant);
    match op
    case CreateOp(tenant, id, name, parent) =>
      TakenInTenant(t, tenant, parent, name, None);
    case RenameOp(tenant, x, newName) =>
      if LiveIn(t, tenant, x) && newName.Some? { OwnRename(t, tenant, x, newName.value); }
    case MoveOp(tenant, x, parent) =>
      if LiveIn(t, tenant, x) { OwnMove(t, tenant, x, parent); }
    case SoftDeleteOp(_, _) =>
    case HardDeleteOp(_, _) =>
  }

  lemma OwnRename(t: Table, tenant: Tenant, x: Id, name: string)
    requires LiveIn(t, tenant, x)
    ensures OwnRows(Rename(t, tenant, x, Some(name)).0, tenant) == Rename(OwnRows(t, tenant), tenant, x, Some(name)).0
    ensures Rename(t, tenant, x, Some(name)).1 == Rename(OwnRows(t, tenant), tenant, x, Some(name)).1
  {
    hide Taken, Repath;
    TakenInTenant(t, tenant, t[x].parent, name, Some(x));
    forall new' ensures OwnRows(Repath(t, tenant, t[x].path, new'), tenant)
                        == Repath(OwnRows(t, tenant), tenant, t[x].path, new') {
      RepathInTenant(t, tenant, t[x].path, new');
    }
  }

  lemma OwnMove(t: Table, tenant: Tenant, x: Id, parent: Option<Id>)
    requires LiveIn(t, tenant, x)
    ensures OwnRows(Move(t, tenant, x, parent).0, tenant) == Move(OwnRows(t, tenant), tenant, x, parent).0
    ensures Move(t, tenant, x, parent).1 == Move(OwnRows(t, tenant), tenant, x, parent).1
  {
    hide Taken, Below, Repath;
    var own := OwnRows(t, tenant);
    TakenInTenant(t, tenant, parent, t[x].name, Some(x));
    if parent.Some? && LiveIn(t, tenant, parent.value) { BelowInTenants(t, tenant, parent.value, x); }
    if Move(t, tenant, x, parent).1.Done? {
      var path := if parent.Some? then ChildPath(t[parent.value].path, t[x].name) else t[x].name;
      var row := t[x].(parent := parent, path := path);
      assert OwnRows(t[x := row], tenant) == own[x := row];
      RepathInTenant(t[x := row], tenant, t[x].path, path);
    }
  }

  /** A request leaves the rows of every other tenant as they are. */
  lemma ForeignRequest(t: Table, op: Op, tenant: Tenant)
    requires op.tenant != tenant && (op.CreateOp? ==> op.id !in t)
    ensures OwnRows(Apply(t, op).0, tenant) == OwnRows(t, tenant)
  {
    hide InSubtree, Replace, Taken, Below;
  }

  // ---------- Whole runs ----------

  /** After any run, with any names, a tenant's rows are the table its own requests alone would have left,
      and its next request gets the answer and has the effect it would have had there. */
  lemma {:induction false} RunIsolatesTenants(ops: seq<Op>, tenant: Tenant)
    requires FreshIds(ops)
    ensures OwnRows(Run(ops), tenant) == Run(OwnOps(ops, tenant))
    ensures forall op: Op :: op.tenant == tenant ==>
              Apply(Run(ops), op).1 == Apply(Run(OwnOps(ops, tenant)), op).1 &&
              OwnRows(Apply(Run(ops), op).0, tenant) == Apply(Run(OwnOps(ops, tenant)), op).0
  {
    if ops == [] {
      assert OwnRows(map[], tenant) == map[];
    } else {
      var n := |ops| - 1;
      var op, before := ops[n], OwnOps(ops[..n], tenant);
      FreshPrefix(ops, n);
      RunIsolatesTenants(ops[..n], tenant);
      hide Apply, OwnRows;
      assert Run(ops) == Apply(Run(ops[..n]), op).0;
      if op.tenant == tenant {
        OwnRequest(Run(ops[..n]), op);
        var own := OwnOps(ops, tenant);
        assert own == before + [op] && own[..|before|] == before;
        assert Run(own) == Apply(Run(before), op).0;
      } else {
        assert OwnOps(ops, tenant) == before;
        assert op.CreateOp? ==> Unused(Run(ops[..n]), op.id);
        ForeignRequest(Run(ops[..n]), op, tenant);
      }
    }
    forall op: Op | op.tenant == tenant
      ensures Apply(Run(ops), op).1 == Apply(OwnRows(Run(ops), tenant), op).1
      ensures OwnRows(Apply(Run(ops), op).0, tenant) == Apply(OwnRows(Run(ops), tenant), op).0
    {
      OwnRequest(Run(ops), op);
    }
  }
}
