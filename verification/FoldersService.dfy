/** The folder service itself: one table, changed in place by each request. Every mutating method is
    tied to the table function of FolderModel, about which the theorems are proved. */
module FoldersService {
  import opened Wrappers
  import opened Text
  import opened FolderModel
  import opened FolderLinks
  import opened FolderRuns
  import opened FolderViews

  class FoldersService {
    var rows: Table

    /** All that termination of the walks needs; it holds whatever the folders are called. */
    ghost predicate Valid()
      reads this
    {
      Acyclic(rows)
    }

    constructor ()
      ensures Valid() && rows == map[]
    {
      rows := map[];
    }

    method CreateFolder(tenant: Tenant, id: Id, name: string, parentId: Option<Id>) returns (r: Outcome)
      requires Valid() && Unused(rows, id)
      modifies this
      ensures Valid()
      ensures (rows, r) == Create(old(rows), tenant, id, name, parentId)
      ensures r == BadRequest <==> forall i :: 0 <= i < |name| ==> IsSpace(name[i])
      ensures r == NotFound <==>
                r != BadRequest && parentId.Some? && !LiveIn(old(rows), tenant, parentId.value)
      ensures r == Conflict <==>
                r != BadRequest && r != NotFound &&
                exists y :: LiveIn(old(rows), tenant, y) && old(rows)[y].parent == parentId && old(rows)[y].name == name
      ensures !r.Done? ==> rows == old(rows)
      ensures r.Done? ==>
                r == Done(id) && rows.Keys == old(rows).Keys + {id} && rows - {id} == old(rows) &&
                rows[id].(path := "") == Row(tenant, parentId, name, "", false) &&
                rows[id].path == if parentId.None? || old(rows)[parentId.value].path == "" then name
                                 else old(rows)[parentId.value].path + "/" + name
    {
      CreateAcyclic(rows, tenant, id, name, parentId);
      if Blank(name) { return BadRequest; }
      if parentId.Some? && !LiveIn(rows, tenant, parentId.value) { return NotFound; }
      if Taken(rows, tenant, parentId, name, None) { return Conflict; }
      var folderPath := name;
      if parentId.Some? {
        var parentPath := rows[parentId.value].path;
        if parentPath != "" { folderPath := ChildPath(parentPath, name); }
      }
      rows := rows[id := Row(tenant, parentId, name, folderPath, false)];
      r := Done(id);
    }

    /** Rewrites the matched rows one by one, in whatever order the database returned them. */
    method UpdateChildrenPaths(oldPath: string, newPath: string, tenant: Tenant)
      modifies this
      ensures rows == Repath(old(rows), tenant, oldPath, newPath)
    {
      ghost var was := rows;
      var childFolders := set x | x in rows && Matched(rows, tenant, oldPath, x);
      while childFolders != {}
        invariant rows.Keys == was.Keys
        invariant childFolders <= was.Keys
        invariant forall x :: x in childFolders ==> rows[x] == was[x] && Matched(was, tenant, oldPath, x)
        invariant forall x :: x in was && x !in childFolders ==>
                    rows[x] == Repath(was, tenant, oldPath, newPath)[x]
        decreases childFolders
      {
        var child :| child in childFolders;
        var updatedPath := Replace(rows[child].path, oldPath, newPath);
        rows := rows[child := rows[child].(path := updatedPath)];
        childFolders := childFolders - {child};
      }
    }

    method UpdateFolder(tenant: Tenant, id: Id, name: Option<string>) returns (r: Outcome)
      requires Valid()
      modifies this
      ensures Valid()
      ensures (rows, r) == Rename(old(rows), tenant, id, name)
      ensures r == NotFound <==> !LiveIn(old(rows), tenant, id)
      ensures r == Conflict <==>
                r != NotFound && name.Some? && name.value != "" && name.value != old(rows)[id].name &&
                exists y :: y != id && LiveIn(old(rows), tenant, y) &&
                            old(rows)[y].parent == old(rows)[id].parent && old(rows)[y].name == name.value
      ensures r == NotFound || r == Conflict || r == Done(id)
      ensures !r.Done? || name.None? || name.value == "" || name.value == old(rows)[id].name ==> rows == old(rows)
      ensures r.Done? && name.Some? && name.value != "" && name.value != old(rows)[id].name ==>
                rows.Keys == old(rows).Keys && id in rows &&
                rows[id] == old(rows)[id].(name := name.value, path := rows[id].path) &&
                rows[id].path == (match old(rows)[id].parent
                                  case Some(p) => if InTenant(old(rows), tenant, p)
                                                  then old(rows)[p].path + "/" + name.value else name.value
                                  case None => name.value) &&
                forall y :: y in rows && y != id ==>
                  rows[y] == if old(rows)[y].tenant == tenant && InSubtree(old(rows)[y].path, old(rows)[id].path)
                             then old(rows)[y].(path := Replace(old(rows)[y].path, old(rows)[id].path, rows[id].path))
                             else old(rows)[y]
    {
      OthersAcyclic(rows, tenant, id, name);
      if !LiveIn(rows, tenant, id) { return NotFound; }
      var folder := rows[id];
      if name.Some? && name.value != "" && name.value != folder.name {
        if Taken(rows, tenant, folder.parent, name.value, Some(id)) { return Conflict; }
        var oldPath := folder.path;
        var newPath := name.value;
        if folder.parent.Some? && InTenant(rows, tenant, folder.parent.value) {
          newPath := ChildPath(rows[folder.parent.value].path, name.value);
        }
        folder := folder.(path := newPath);
        UpdateChildrenPaths(oldPath, newPath, tenant);
      }
      if name.Some? && name.value != "" { folder := folder.(name := name.value); }
      rows := rows[id := folder];
      assert rows == Rename(old(rows), tenant, id, name).0;
      r := Done(id);
    }

    /** True exactly when the first folder is a proper ancestor of the second. */
    function IsChildFolder(parentId: Id, childId: Id, tenant: Tenant): (r: bool)
      requires Valid() && InTenant(rows, tenant, parentId)
      reads this
      ensures r <==> InTenant(rows, tenant, childId) && Below(rows, childId, parentId)
      decreases Above(rows, childId)
    {
      if !InTenant(rows, tenant, childId) || rows[childId].parent.None? then false
      else
        BelowStep(rows, childId, parentId);
        var up := rows[childId].parent.value;
        if up == parentId then true
        else if !InTenant(rows, tenant, up) then false
        else
          AboveShrinks(rows, childId);
          IsChildFolder(parentId, up, tenant)
    }

    method MoveFolder(tenant: Tenant, id: Id, newParentId: Option<Id>) returns (r: Outcome)
      requires Valid()
      modifies this
      ensures Valid()
      ensures (rows, r) == Move(old(rows), tenant, id, newParentId)
      ensures r == NotFound <==>
                !LiveIn(old(rows), tenant, id) ||
                (newParentId.Some? && newParentId.value != id && !LiveIn(old(rows), tenant, newParentId.value))
      ensures r == BadRequest <==>
                r != NotFound && newParentId.Some? &&
                (newParentId.value == id || Below(old(rows), newParentId.value, id))
      ensures r == Conflict <==>
                r != NotFound && r != BadRequest &&
                exists y :: y != id && LiveIn(old(rows), tenant, y) &&
                            old(rows)[y].parent == newParentId && old(rows)[y].name == old(rows)[id].name
      ensures !r.Done? ==> rows == old(rows)
      ensures r.Done? ==>
                r == Done(id) && rows.Keys == old(rows).Keys &&
                var was := old(rows)[id];
                var path := if newParentId.Some? then old(rows)[newParentId.value].path + "/" + was.name else was.name;
                forall y :: y in rows ==>
                  var row := if y == id then was.(parent := newParentId, path := path) else old(rows)[y];
                  rows[y] == if row.tenant == tenant && InSubtree(row.path, was.path)
                             then row.(path := Replace(row.path, was.path, path)) else row
    {
      MoveAcyclic(rows, tenant, id, newParentId);
      if !LiveIn(rows, tenant, id) { return NotFound; }
      var folder := rows[id];
      if newParentId == Some(id) { return BadRequest; }
      if newParentId.Some? {
        if !LiveIn(rows, tenant, newParentId.value) { return NotFound; }
        if IsChildFolder(id, newParentId.value, tenant) { return BadRequest; }
      }
      if Taken(rows, tenant, newParentId, folder.name, Some(id)) { return Conflict; }
      var oldPath := folder.path;
      var newPath := if newParentId.Some? then ChildPath(rows[newParentId.value].path, folder.name) else folder.name;
      folder := folder.(parent := newParentId, path := newPath);
      rows := rows[id := folder];
      UpdateChildrenPaths(oldPath, newPath, tenant);
      r := Done(id);
    }

    method DeleteFolderSubtree(folderPath: string, tenant: Tenant)
      modifies this
      ensures rows == map y | y in old(rows) ::
                if Matched(old(rows), tenant, folderPath, y) && !old(rows)[y].deleted
                then old(rows)[y].(deleted := true) else old(rows)[y]
    {
      rows := map y | y in rows ::
        if Matched(rows, tenant, folderPath, y) && !rows[y].deleted then rows[y].(deleted := true) else rows[y];
    }

    method DeleteFolder(tenant: Tenant, id: Id) returns (r: Outcome)
      requires Valid()
      modifies this
      ensures Valid()
      ensures (rows, r) == SoftDelete(old(rows), tenant, id)
      ensures r == if LiveIn(old(rows), tenant, id) then Done(id) else NotFound
      ensures !r.Done? ==> rows == old(rows)
      ensures r.Done? ==>
                rows.Keys == old(rows).Keys &&
                forall y :: y in rows ==>
                  rows[y] == old(rows)[y].(deleted := rows[y].deleted) &&
                  (rows[y].deleted <==>
                     old(rows)[y].deleted || y == id ||
                     (old(rows)[y].tenant == tenant && InSubtree(old(rows)[y].path, old(rows)[id].path)))
    {
      OthersAcyclic(rows, tenant, id, None);
      if !LiveIn(rows, tenant, id) { return NotFound; }
      var folder := rows[id];
      rows := rows[id := folder.(deleted := true)];
      DeleteFolderSubtree(folder.path, tenant);
      assert rows == SoftDelete(old(rows), tenant, id).0;
      r := Done(id);
    }

    method PermanentlyDeleteFolder(tenant: Tenant, id: Id) returns (r: Outcome)
      requires Valid()
      modifies this
      ensures Valid()
      ensures (rows, r) == HardDelete(old(rows), tenant, id)
      ensures r == if InTenant(old(rows), tenant, id) then Done(id) else NotFound
      ensures !r.Done? ==> rows == old(rows)
      ensures r.Done? ==>
                (forall y :: y in rows ==> y in old(rows) && rows[y] == old(rows)[y]) &&
                forall y :: y in old(rows) ==>
                  (y in rows <==>
                     y != id && !(old(rows)[y].tenant == tenant && InSubtree(old(rows)[y].path, old(rows)[id].path)))
    {
      OthersAcyclic(rows, tenant, id, None);
      if !InTenant(rows, tenant, id) { return NotFound; }
      var folder := rows[id];
      var childrenFolders := set y | y in rows && Matched(rows, tenant, folder.path, y);
      rows := rows - childrenFolders;
      rows := rows - {id};
      assert rows == HardDelete(old(rows), tenant, id).0;
      r := Done(id);
    }

    /** Some live folder stored under the path, or not found. */
    method FindByPath(tenant: Tenant, path: string) returns (r: Option<Id>)
      ensures r.Some? ==> LiveIn(rows, tenant, r.value) && rows[r.value].path == path
      ensures r.None? ==> forall x :: LiveIn(rows, tenant, x) ==> rows[x].path != path
    {
      if x: Id :| x in rows && LiveIn(rows, tenant, x) && rows[x].path == path {
        return Some(x);
      }
      r := None;
    }

    /** The proper ancestors, root first, collected bottom up. */
    method GetAncestry(tenant: Tenant, id: Id) returns (r: Option<seq<Id>>)
      requires Valid()
      ensures r == if LiveIn(rows, tenant, id) then Some(Ancestry(rows, id)) else None
    {
      if !LiveIn(rows, tenant, id) { return None; }
      var ancestry: seq<Id> := [];
      var current := id;
      while rows[current].parent.Some?
        invariant InTenant(rows, tenant, current)
        invariant Ancestry(rows, id) == Ancestry(rows, current) + ancestry
        decreases Above(rows, current)
      {
        var parent := rows[current].parent.value;
        if !InTenant(rows, tenant, parent) { break; }
        AboveShrinks(rows, current);
        ancestry := [parent] + ancestry;
        current := parent;
      }
      assert Ancestry(rows, id) == [] + ancestry == ancestry;
      r := Some(ancestry);
    }

    /** The folder of least name among some rows. */
    method First(cs: set<Id>) returns (m: Id)
      requires cs != {} && cs <= rows.Keys
      ensures m in cs && forall c :: c in cs ==> Leq(rows[m].name, rows[c].name)
    {
      m :| m in cs;
      LeqTotal(rows[m].name, rows[m].name);
      var rest := cs - {m};
      while rest != {}
        invariant rest <= cs && m in cs && m !in rest
        invariant forall c :: c in cs && c !in rest ==> Leq(rows[m].name, rows[c].name)
        decreases rest
      {
        var c :| c in rest;
        rest := rest - {c};
        LeqTotal(rows[m].name, rows[c].name);
        if !Leq(rows[m].name, rows[c].name) {
          forall d | d in cs && d !in rest ensures Leq(rows[c].name, rows[d].name) {
            LeqTotal(rows[c].name, rows[c].name);
            if d != c { LeqTransitive(rows[c].name, rows[m].name, rows[d].name); }
          }
          m := c;
        }
      }
    }

    /** The live children in ascending order of name. */
    method FindChildren(x: Id) returns (ids: seq<Id>)
      requires x in rows
      ensures Listing(rows, x, ids)
      ensures forall c :: c in ids <==> LiveIn(rows, rows[x].tenant, c) && rows[c].parent == Some(x)
      ensures forall i, j :: 0 <= i < j < |ids| ==>
                ids[i] != ids[j] && Leq(rows[ids[i]].name, rows[ids[j]].name)
    {
      hide Leq;
      var pending := set c | c in rows && IsChild(rows, x, c);
      ids := [];
      while pending != {}
        invariant forall c :: c in pending ==> c in rows && IsChild(rows, x, c)
        invariant forall c :: c in rows && IsChild(rows, x, c) ==> c in pending || c in ids
        invariant forall i :: 0 <= i < |ids| ==> IsChild(rows, x, ids[i]) && ids[i] !in pending
        invariant forall i, j :: 0 <= i < j < |ids| ==> ids[i] != ids[j]
        invariant forall i, j :: 0 <= i < j < |ids| ==> Leq(rows[ids[i]].name, rows[ids[j]].name)
        invariant forall i, c :: 0 <= i < |ids| && c in pending ==> Leq(rows[ids[i]].name, rows[c].name)
        decreases pending
      {
        var c := First(pending);
        pending := pending - {c};
        ids := ids + [c];
      }
    }

    method GetFolderTree(tenant: Tenant, id: Id) returns (r: Option<Tree>)
      requires Valid()
      ensures r.Some? <==> LiveIn(rows, tenant, id)
      ensures r.Some? ==> r.value.id == id && Lists(rows, r.value)
      decreases Under(rows, id), 1
    {
      if !LiveIn(rows, tenant, id) { return None; }
      var ids := FindChildren(id);
      var children: seq<Tree> := [];
      for k := 0 to |ids|
        invariant |children| == k
        invariant forall i :: 0 <= i < k ==> children[i].id == ids[i] && Lists(rows, children[i])
      {
        UnderShrinks(rows, id, ids[k]);
        var childTree := GetFolderTree(tenant, ids[k]);
        children := children + [childTree.value];
      }
      assert Roots(children) == ids;
      r := Some(Node(id, children));
    }
  }
}
