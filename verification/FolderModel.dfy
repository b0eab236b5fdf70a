/** The folders table and what each service operation does to it.

    A folder is stored twice: its parent link places it in the tree, and its `path` string is an
    index over that tree. Names are arbitrary strings here, exactly as the service accepts them;
    what a name must avoid for the index to work is `CleanName`, in FolderIndex. */
module FolderModel {
  import opened Wrappers
  import opened Text

  /** A uuid; only equality is ever used. */
  type Id = nat
  type Tenant = nat

  datatype Row = Row(tenant: Tenant, parent: Option<Id>, name: string, path: string, deleted: bool)

  type Table = map<Id, Row>

  // ---------- Queries ----------

  /** `findOne({ id, tenantId })` finds a row. */
  predicate InTenant(t: Table, tenant: Tenant, x: Id) {
    x in t && t[x].tenant == tenant
  }

  /** `findOne({ id, tenantId, deleted: false })` finds a row. */
  predicate LiveIn(t: Table, tenant: Tenant, x: Id) {
    InTenant(t, tenant, x) && !t[x].deleted
  }

  predicate Live(t: Table, x: Id) {
    x in t && !t[x].deleted
  }

  /** The parent row as the lookups by `{ id: parentId, tenantId }` see it. */
  function Parent(t: Table, x: Id): (p: Option<Id>)
    requires x in t
    ensures p.Some? ==> p.value in t && t[p.value].tenant == t[x].tenant && t[x].parent == p
  {
    match t[x].parent
    case Some(p) => if InTenant(t, t[x].tenant, p) then Some(p) else None
    case None => None
  }

  /** A live folder other than `except` already has this name under this parent. */
  predicate Taken(t: Table, tenant: Tenant, parent: Option<Id>, name: string, except: Option<Id>) {
    exists y :: y in t && LiveIn(t, tenant, y) && t[y].parent == parent && t[y].name == name && except != Some(y)
  }

  /** The rows the subtree query `{ path: Like(path + '/%'), tenantId }` returns. */
  predicate Matched(t: Table, tenant: Tenant, path: string, x: Id) {
    InTenant(t, tenant, x) && InSubtree(t[x].path, path)
  }

  // ---------- Operations ----------

  datatype Outcome = Done(id: Id) | NotFound | BadRequest | Conflict

  /** White space as `String.prototype.trim` removes it. */
  predicate IsSpace(c: char) {
    '\t' <= c <= '\r' || c == ' ' || c == '\U{00A0}' || c == '\U{1680}' || '\U{2000}' <= c <= '\U{200A}'
    || c == '\U{2028}' || c == '\U{2029}' || c == '\U{202F}' || c == '\U{205F}' || c == '\U{3000}' || c == '\U{FEFF}'
  }

  predicate Blank(s: string) {
    forall i :: 0 <= i < |s| ==> IsSpace(s[i])
  }

  /** White space character by character, as ECMA-262 lists it: the tab, line feed, vertical tab, form feed
      and carriage return, the line and paragraph separators, the byte order mark, and every space. */
  lemma SpacesAre(c: char)
    ensures IsSpace(c) <==>
            c in {'\U{0009}', '\U{000A}', '\U{000B}', '\U{000C}', '\U{000D}', '\U{0020}', '\U{00A0}', '\U{1680}',
                  '\U{2000}', '\U{2001}', '\U{2002}', '\U{2003}', '\U{2004}', '\U{2005}', '\U{2006}', '\U{2007}',
                  '\U{2008}', '\U{2009}', '\U{200A}', '\U{2028}', '\U{2029}', '\U{202F}', '\U{205F}', '\U{3000}',
                  '\U{FEFF}'}
  {
  }

  /** A name is blank exactly if trimming leaves nothing of it: no character is left that is not space. */
  lemma {:induction false} BlankIffTrimmedAway(s: string)
    ensures Blank(s) <==> Trimmed(s) == ""
    decreases |s|
  {
    if s != "" {
      if IsSpace(s[0]) {
        BlankIffTrimmedAway(s[1..]);
        assert forall i :: 1 <= i < |s| ==> s[i] == s[1..][i - 1];
        assert forall i :: 0 <= i < |s| - 1 ==> s[1..][i] == s[i + 1];
      } else if IsSpace(s[|s| - 1]) {
        BlankIffTrimmedAway(s[..|s| - 1]);
      }
    }
  }

  /** `trim`: white space cut off at both ends. */
  function Trimmed(s: string): string
    decreases |s|
  {
    if s == "" then ""
    else if IsSpace(s[0]) then Trimmed(s[1..])
    else if IsSpace(s[|s| - 1]) then Trimmed(s[..|s| - 1])
    else s
  }

  function ChildPath(parentPath: string, name: string): string {
    parentPath + "/" + name
  }

  /** `createFolder`; `id` is the uuid the database generates. */
  function Create(t: Table, tenant: Tenant, id: Id, name: string, parent: Option<Id>): (Table, Outcome) {
    if Blank(name) then (t, BadRequest)
    else if parent.Some? && !LiveIn(t, tenant, parent.value) then (t, NotFound)
    else if Taken(t, tenant, parent, name, None) then (t, Conflict)
    else
      var path := if parent.Some? && t[parent.value].path != "" then ChildPath(t[parent.value].path, name) else name;
      (t[id := Row(tenant, parent, name, path, false)], Done(id))
  }

  /** `updateChildrenPaths`: every matched row, deleted or not, gets its path rewritten. */
  function Repath(t: Table, tenant: Tenant, oldPath: string, newPath: string): Table {
    map x | x in t ::
      if Matched(t, tenant, oldPath, x) then t[x].(path := Replace(t[x].path, oldPath, newPath)) else t[x]
  }

  /** `updateFolder`, as far as the name goes; an absent or empty name changes nothing. */
  function Rename(t: Table, tenant: Tenant, x: Id, name: Option<string>): (Table, Outcome) {
    if !LiveIn(t, tenant, x) then (t, NotFound)
    else if name.None? || name.value == "" || name.value == t[x].name then (t, Done(x))
    else if Taken(t, tenant, t[x].parent, name.value, Some(x)) then (t, Conflict)
    else
      var path := match Parent(t, x)
                  case Some(p) => ChildPath(t[p].path, name.value)
                  case None => name.value;
      (Repath(t, tenant, t[x].path, path)[x := t[x].(name := name.value, path := path)], Done(x))
  }

  /** The x-to-root walk, one parent link per step. */
  function Up(t: Table, x: Id, n: nat): Option<Id>
    requires x in t
    decreases n
  {
    if n == 0 then Some(x)
    else match Parent(t, x)
         case Some(p) => Up(t, p, n - 1)
         case None => None
  }

  /** x is a proper descendant of a, by parent links. */
  ghost predicate Below(t: Table, x: Id, a: Id) {
    x in t && exists n: nat :: n >= 1 && Up(t, x, n) == Some(a)
  }

  /** `moveFolder`; a null new parent moves the folder to the root. */
  ghost function Move(t: Table, tenant: Tenant, x: Id, parent: Option<Id>): (Table, Outcome) {
    if !LiveIn(t, tenant, x) then (t, NotFound)
    else if parent == Some(x) then (t, BadRequest)
    else if parent.Some? && !LiveIn(t, tenant, parent.value) then (t, NotFound)
    else if parent.Some? && Below(t, parent.value, x) then (t, BadRequest)
    else if Taken(t, tenant, parent, t[x].name, Some(x)) then (t, Conflict)
    else
      var path := if parent.Some? then ChildPath(t[parent.value].path, t[x].name) else t[x].name;
      (Repath(t[x := t[x].(parent := parent, path := path)], tenant, t[x].path, path), Done(x))
  }

  /** `deleteFolder`: the folder, then every live row its subtree query matches. */
  function SoftDelete(t: Table, tenant: Tenant, x: Id): (Table, Outcome) {
    if !LiveIn(t, tenant, x) then (t, NotFound)
    else
      (map y | y in t ::
         if y == x || (Matched(t, tenant, t[x].path, y) && !t[y].deleted) then t[y].(deleted := true) else t[y],
       Done(x))
  }

  /** `permanentlyDeleteFolder`: the target may be deleted already. */
  function HardDelete(t: Table, tenant: Tenant, x: Id): (Table, Outcome) {
    if !InTenant(t, tenant, x) then (t, NotFound)
    else
      (map y | y in t && !(y == x || Matched(t, tenant, t[x].path, y)) :: t[y], Done(x))
  }
}
