/** The parent links alone: ancestry, and the absence of cycles over all rows, deleted ones
    included, whatever the folders are called. */
module FolderLinks {
  import opened Wrappers
  import opened FolderModel

  /** No folder is its own proper ancestor. */
  ghost predicate Acyclic(t: Table) {
    forall x :: x in t ==> !Below(t, x, x)
  }

  lemma {:induction false} UpAdds(t: Table, x: Id, m: nat, n: nat)
    requires x in t && Up(t, x, m).Some?
    ensures Up(t, x, m).value in t
    ensures Up(t, x, m + n) == Up(t, Up(t, x, m).value, n)
    decreases m
  {
    if m > 0 { UpAdds(t, Parent(t, x).value, m - 1, n); }
  }

  /** One step of ancestry: the parent, or an ancestor of the parent. */
  lemma BelowStep(t: Table, x: Id, a: Id)
    requires x in t
    ensures Below(t, x, a) <==>
            Parent(t, x).Some? && (Parent(t, x).value == a || Below(t, Parent(t, x).value, a))
  {
    if Below(t, x, a) {
      var n: nat :| n >= 1 && Up(t, x, n) == Some(a);
      assert Up(t, Parent(t, x).value, n - 1) == Some(a);
    }
    if Parent(t, x).Some? {
      var p := Parent(t, x).value;
      assert Up(t, x, 1) == Some(p);
      if Below(t, p, a) {
        var n: nat :| n >= 1 && Up(t, p, n) == Some(a);
        assert Up(t, x, n + 1) == Some(a);
      }
    }
  }

  lemma BelowTransitive(t: Table, x: Id, y: Id, z: Id)
    requires Below(t, x, y) && Below(t, y, z)
    ensures Below(t, x, z)
  {
    var m: nat :| m >= 1 && Up(t, x, m) == Some(y);
    var n: nat :| n >= 1 && Up(t, y, n) == Some(z);
    UpAdds(t, x, m, n);
  }

  lemma {:induction false} BelowTenant(t: Table, x: Id, a: Id, n: nat)
    requires x in t && Up(t, x, n) == Some(a)
    ensures InTenant(t, t[x].tenant, a)
    decreases n
  {
    if n > 0 { BelowTenant(t, Parent(t, x).value, a, n - 1); }
  }

  lemma BelowInTenant(t: Table, x: Id, a: Id)
    requires Below(t, x, a)
    ensures InTenant(t, t[x].tenant, a)
  {
    var n: nat :| n >= 1 && Up(t, x, n) == Some(a);
    BelowTenant(t, x, a, n);
  }

  /** The ancestors of a folder form one chain: of two ancestors-or-self, one is above the other. */
  lemma Chain(t: Table, x: Id, a: Id, m: nat, b: Id, n: nat)
    requires x in t && Up(t, x, m) == Some(a) && Up(t, x, n) == Some(b)
    ensures a == b || Below(t, a, b) || Below(t, b, a)
  {
    if m <= n {
      UpAdds(t, x, m, n - m);
    } else {
      UpAdds(t, x, n, m - n);
    }
  }

  // ---------- Ranks: a measure that falls along parent links ----------

  ghost predicate Ranked(t: Table, rank: map<Id, nat>) {
    forall x :: x in t ==>
      && x in rank
      && (Parent(t, x).Some? ==> Parent(t, x).value in rank && rank[Parent(t, x).value] < rank[x])
  }

  /** All proper ancestors of x; what falls as the walks go up. */
  ghost function Above(t: Table, x: Id): set<Id> {
    set a | a in t && Below(t, x, a)
  }

  /** All proper descendants of x; what falls as the listing goes down. */
  ghost function Under(t: Table, x: Id): set<Id> {
    set y | y in t && Below(t, y, x)
  }

  lemma AboveShrinks(t: Table, x: Id)
    requires Acyclic(t) && x in t && Parent(t, x).Some?
    ensures Above(t, Parent(t, x).value) < Above(t, x)
  {
    var p := Parent(t, x).value;
    forall a | a in Above(t, p) ensures a in Above(t, x) { BelowStep(t, x, a); }
    BelowStep(t, x, p);
    assert p in Above(t, x) && p !in Above(t, p);
  }

  lemma UnderShrinks(t: Table, x: Id, c: Id)
    requires Acyclic(t) && c in t && Parent(t, c) == Some(x)
    ensures Under(t, c) < Under(t, x)
  {
    BelowStep(t, c, x);
    forall y | y in Under(t, c) ensures y in Under(t, x) { BelowTransitive(t, y, c, x); }
    assert c in Under(t, x) && c !in Under(t, c);
  }

  lemma SubsetSize(a: set<Id>, b: set<Id>)
    requires a < b
    ensures |a| < |b|
  {
    var r := b - a;
    assert b == a + r && a !! r;
    assert |b| == |a| + |r|;
  }

  lemma {:induction false} RankFalls(t: Table, rank: map<Id, nat>, x: Id, n: nat)
    requires Ranked(t, rank) && x in t && Up(t, x, n).Some?
    ensures Up(t, x, n).value in rank && rank[Up(t, x, n).value] + n <= rank[x]
    decreases n
  {
    if n > 0 { RankFalls(t, rank, Parent(t, x).value, n - 1); }
  }

  /** A table is free of cycles exactly when some measure falls along every parent link. */
  lemma AcyclicIffRanked(t: Table)
    ensures Acyclic(t) <==> exists rank: map<Id, nat> :: Ranked(t, rank)
  {
    if Acyclic(t) {
      var rank: map<Id, nat> := map x | x in t :: |Above(t, x)|;
      forall x | x in t && Parent(t, x).Some?
        ensures rank[Parent(t, x).value] < rank[x]
      {
        AboveShrinks(t, x);
        SubsetSize(Above(t, Parent(t, x).value), Above(t, x));
      }
      assert Ranked(t, rank);
    }
    if rank: map<Id, nat> :| Ranked(t, rank) {
      forall x | x in t ensures !Below(t, x, x) {
        if Below(t, x, x) {
          var n: nat :| n >= 1 && Up(t, x, n) == Some(x);
          RankFalls(t, rank, x, n);
          assert false;
        }
      }
    }
  }

  // ---------- What each operation does to the links ----------

  /** u keeps the tenants and parent links of the rows it shares with t, and adds no row. */
  predicate LinksOf(u: Table, t: Table) {
    forall x :: x in u ==> x in t && u[x].tenant == t[x].tenant && u[x].parent == t[x].parent
  }

  lemma LinksOfAcyclic(u: Table, t: Table)
    requires LinksOf(u, t) && Acyclic(t)
    ensures Acyclic(u)
  {
    AcyclicIffRanked(t);
    var rank: map<Id, nat> :| Ranked(t, rank);
    assert Ranked(u, rank);
    AcyclicIffRanked(u);
  }

  /** A uuid the table has never seen, neither as a row nor as a parent. */
  predicate Unused(t: Table, id: Id) {
    id !in t && forall x :: x in t ==> t[x].parent != Some(id)
  }

  lemma AddAcyclic(t: Table, id: Id, row: Row)
    requires Acyclic(t) && Unused(t, id) && (row.parent.Some? ==> row.parent.value in t)
    ensures Acyclic(t[id := row])
  {
    var u := t[id := row];
    AcyclicIffRanked(t);
    var rank: map<Id, nat> :| Ranked(t, rank);
    var top: nat := if row.parent.Some? then rank[row.parent.value] + 1 else 0;
    assert Ranked(u, rank[id := top]);
    AcyclicIffRanked(u);
  }

  lemma CreateAcyclic(t: Table, tenant: Tenant, id: Id, name: string, parent: Option<Id>)
    requires Acyclic(t) && Unused(t, id)
    ensures Acyclic(Create(t, tenant, id, name, parent).0)
  {
    var u := Create(t, tenant, id, name, parent).0;
    if u != t { AddAcyclic(t, id, u[id]); }
  }

  /** Moving x under a folder that is not x and not below x closes no cycle. */
  lemma RelinkAcyclic(t: Table, u: Table, x: Id, parent: Option<Id>)
    requires Acyclic(t) && x in t && u.Keys == t.Keys
    requires parent.Some? ==> parent.value != x && !Below(t, parent.value, x)
    requires forall y :: y in t ==> u[y].tenant == t[y].tenant
    requires forall y :: y in t && y != x ==> u[y].parent == t[y].parent
    requires u[x].parent == parent
    ensures Acyclic(u)
  {
    AcyclicIffRanked(t);
    var rank: map<Id, nat> :| Ranked(t, rank);
    var lift: nat := if parent.Some? && parent.value in t then rank[parent.value] + 1 else 0;
    var rank': map<Id, nat> :=
      map y | y in t :: if y == x || Below(t, y, x) then rank[y] + lift else rank[y];
    forall y | y in u && Parent(u, y).Some?
      ensures rank'[Parent(u, y).value] < rank'[y]
    {
      if y != x { BelowStep(t, y, x); }
    }
    assert Ranked(u, rank');
    AcyclicIffRanked(u);
  }

  lemma MoveAcyclic(t: Table, tenant: Tenant, x: Id, parent: Option<Id>)
    requires Acyclic(t)
    ensures Acyclic(Move(t, tenant, x, parent).0)
  {
    var (u, r) := Move(t, tenant, x, parent);
    if r.Done? { RelinkAcyclic(t, u, x, parent); }
  }

  lemma OthersAcyclic(t: Table, tenant: Tenant, x: Id, name: Option<string>)
    requires Acyclic(t)
    ensures Acyclic(Rename(t, tenant, x, name).0)
    ensures Acyclic(SoftDelete(t, tenant, x).0)
    ensures Acyclic(HardDelete(t, tenant, x).0)
  {
    LinksOfAcyclic(Rename(t, tenant, x, name).0, t);
    LinksOfAcyclic(SoftDelete(t, tenant, x).0, t);
    LinksOfAcyclic(HardDelete(t, tenant, x).0, t);
  }

  /** A chain that does not pass x is the same before and after x is re-linked. */
  lemma {:induction false} RelinkElsewhere(t: Table, u: Table, x: Id, y: Id, n: nat)
    requires y in t && y != x && !Below(t, y, x) && u.Keys == t.Keys
    requires forall z :: z in t ==> u[z].tenant == t[z].tenant
    requires forall z :: z in t && z != x ==> u[z].parent == t[z].parent
    ensures Up(u, y, n) == Up(t, y, n)
    decreases n
  {
    if n > 0 && Parent(t, y).Some? {
      BelowStep(t, y, x);
      RelinkElsewhere(t, u, x, Parent(t, y).value, n - 1);
    }
  }
}
