/**
 * Roles and the role-permission join (`Role`, `RolePermission`): the join
 * queries and the idempotent assign and remove of one pair.
 */
module Roles {
  import opened Schema
  import Seqs

  /** Linear search of the join table for one pair. */
  function HasLink(links: seq<Link>, l: Link): (b: bool)
    ensures b <==> l in links
  {
    if links == [] then false else links[0] == l || HasLink(links[1..], l)
  }

  /** `Role.get_permissions()`: every permission joined to the role, active or not. */
  function RolePermissions(perms: seq<Permission>, links: seq<Link>, rid: nat): (r: seq<Permission>)
    ensures forall p :: p in r <==> p in perms && Link(rid, p.id) in links
  {
    Seqs.Filter(perms, (p: Permission) => HasLink(links, Link(rid, p.id)))
  }

  /** `Role.has_permission(code)`: some joined permission has that code, whatever its status. */
  function RoleHasPermission(perms: seq<Permission>, links: seq<Link>, rid: nat, code: string): (b: bool)
    ensures b <==> exists p :: p in perms && Link(rid, p.id) in links && p.code == code
  {
    var hits := Seqs.Filter(perms, (p: Permission) => HasLink(links, Link(rid, p.id)) && p.code == code);
    assert hits != [] ==> hits[0] in hits;
    hits != []
  }

  /** The join table after `assign_permission`: the pair is added only when absent. */
  function Assigned(links: seq<Link>, l: Link): (r: seq<Link>)
    ensures l in r
    ensures forall m :: m in r <==> m in links || m == l
  {
    if HasLink(links, l) then links else links + [l]
  }

  /** The join table after `remove_permission`: the first row of the pair is deleted. */
  function Removed(links: seq<Link>, l: Link): (r: seq<Link>)
    ensures |r| == if l in links then |links| - 1 else |links|
    ensures forall m :: m in r ==> m in links
    ensures multiset(r) == multiset(links) - multiset{l}
  {
    if links == [] then []
    else if links[0] == l then
      assert links == [l] + links[1..];
      links[1..]
    else
      assert links == [links[0]] + links[1..];
      [links[0]] + Removed(links[1..], l)
  }

  /** A row appears once in a table whose rows are pairwise distinct. */
  lemma {:induction false} UniqueCount(links: seq<Link>, l: Link)
    requires UniqueLinks(links)
    ensures multiset(links)[l] == if l in links then 1 else 0
  {
    if links != [] {
      assert UniqueLinks(links[1..]) by {
        forall i, j | 0 <= i < |links[1..]| && 0 <= j < |links[1..]| && links[1..][i] == links[1..][j]
          ensures i == j
        {
          assert links[i + 1] == links[j + 1];
        }
      }
      UniqueCount(links[1..], l);
      assert links == [links[0]] + links[1..];
      if links[0] == l {
        forall j | 0 <= j < |links[1..]|
          ensures links[1..][j] != l
        {
          assert links[j + 1] != links[0];
        }
      }
    }
  }

  /** Two equal rows at different positions occur at least twice. */
  lemma TwoOccurrences(links: seq<Link>, lo: nat, hi: nat)
    requires lo < hi < |links| && links[lo] == links[hi]
    ensures multiset(links)[links[lo]] >= 2
  {
    assert links == links[..lo] + [links[lo]] + links[lo + 1..hi] + [links[hi]] + links[hi + 1..];
  }

  /** A table is pairwise distinct exactly when no row occurs twice. */
  lemma UniqueByCount(links: seq<Link>)
    requires forall m :: multiset(links)[m] <= 1
    ensures UniqueLinks(links)
  {
    forall i, j | 0 <= i < |links| && 0 <= j < |links| && links[i] == links[j]
      ensures i == j
    {
      if i < j {
        TwoOccurrences(links, i, j);
      } else if j < i {
        TwoOccurrences(links, j, i);
      }
    }
  }

  /**
   * `assign_permission` is idempotent: afterwards exactly one row of the
   * pair exists, whether or not it existed before, and the uniqueness
   * constraint still holds.
   */
  lemma AssignExactlyOne(links: seq<Link>, l: Link)
    requires UniqueLinks(links)
    ensures UniqueLinks(Assigned(links, l))
    ensures multiset(Assigned(links, l))[l] == 1
    ensures Assigned(Assigned(links, l), l) == Assigned(links, l)
  {
    var r := Assigned(links, l);
    UniqueCount(links, l);
    forall m
      ensures multiset(r)[m] <= 1
    {
      UniqueCount(links, m);
    }
    UniqueByCount(r);
  }

  /**
   * `remove_permission` deletes the pair when present and is a no-op
   * otherwise; every other pair is kept.
   */
  lemma RemoveDeletes(links: seq<Link>, l: Link)
    requires UniqueLinks(links)
    ensures l !in Removed(links, l)
    ensures forall m :: m != l ==> (m in Removed(links, l) <==> m in links)
    ensures l !in links ==> Removed(links, l) == links
    ensures UniqueLinks(Removed(links, l))
  {
    RemovedKeepsOthers(links, l);
    RemovedUnique(links, l);
    UniqueCount(links, l);
    assert multiset(Removed(links, l))[l] == 0;
    if l !in links {
      RemovedAbsent(links, l);
    }
  }

  /** Removing one pair keeps every other pair. */
  lemma RemovedKeepsOthers(links: seq<Link>, l: Link)
    ensures forall m :: m != l ==> (m in Removed(links, l) <==> m in links)
  {
    var r := Removed(links, l);
    forall m | m != l
      ensures m in r <==> m in links
    {
      assert multiset(r)[m] == multiset(links)[m];
    }
  }

  /** Removing a row keeps the table free of duplicates. */
  lemma RemovedUnique(links: seq<Link>, l: Link)
    requires UniqueLinks(links)
    ensures UniqueLinks(Removed(links, l))
  {
    var r := Removed(links, l);
    forall m
      ensures multiset(r)[m] <= 1
    {
      UniqueCount(links, m);
    }
    UniqueByCount(r);
  }

  lemma {:induction false} RemovedAbsent(links: seq<Link>, l: Link)
    requires l !in links
    ensures Removed(links, l) == links
  {
    if links != [] {
      RemovedAbsent(links[1..], l);
    }
  }

  /** `role.assign_permission(pid)`. */
  method AssignPermission(db: Db, role: Role, pid: nat)
    modifies db
    ensures db.links == Assigned(old(db.links), Link(role.id, pid))
    ensures db.users == old(db.users) && db.roles == old(db.roles) && db.permissions == old(db.permissions)
    ensures db.menus == old(db.menus) && db.sessions == old(db.sessions)
  {
    var l := Link(role.id, pid);
    if !HasLink(db.links, l) {
      db.links := db.links + [l];
    }
  }

  /** `role.remove_permission(pid)`. */
  method RemovePermission(db: Db, role: Role, pid: nat)
    modifies db
    ensures db.links == Removed(old(db.links), Link(role.id, pid))
    ensures db.users == old(db.users) && db.roles == old(db.roles) && db.permissions == old(db.permissions)
    ensures db.menus == old(db.menus) && db.sessions == old(db.sessions)
  {
    db.links := Removed(db.links, Link(role.id, pid));
  }
}
