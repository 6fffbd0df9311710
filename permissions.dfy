/**
 * The `Permission` model: grouping by module, the role-assignment test and
 * the resource lookup by path and HTTP method.
 */
module Permissions {
  import opened Wrappers
  import opened Schema
  import Seqs
  import Text
  import Roles

  /** The group a permission lands in: its module, or "其他" when the module is empty. */
  function ModuleKey(p: Permission): (k: string)
    ensures p.moduleName != "" ==> k == p.moduleName
    ensures p.moduleName == "" ==> k == "其他"
  {
    if p.moduleName == "" then "其他" else p.moduleName
  }

  /** The optional `status` filter: no filter when absent. */
  predicate StatusOk(p: Permission, status: Option<bool>)
  {
    status.None? || p.status == status.value
  }

  /** The permissions in group `k`, in query order. */
  function Group(ps: seq<Permission>, k: string): (r: seq<Permission>)
    ensures forall p :: p in r <==> p in ps && ModuleKey(p) == k
  {
    Seqs.Filter(ps, (p: Permission) => ModuleKey(p) == k)
  }

  /** The group keys present in `ps`. */
  function Keys(ps: seq<Permission>): (r: set<string>)
    ensures forall k :: k in r <==> exists p :: p in ps && ModuleKey(p) == k
  {
    set p | p in ps :: ModuleKey(p)
  }

  /** The permissions that pass the optional `status` filter, in query order. */
  function Active(perms: seq<Permission>, status: Option<bool>): (r: seq<Permission>)
    ensures forall p :: p in r <==> p in perms && StatusOk(p, status)
  {
    Seqs.Filter(perms, (p: Permission) => StatusOk(p, status))
  }

  /**
   * `Permission.get_grouped_by_module(status)`: one list per module key,
   * holding exactly the permissions that pass the status filter and carry
   * that key, in query order.
   */
  method GroupedByModule(perms: seq<Permission>, status: Option<bool>) returns (g: map<string, seq<Permission>>)
    ensures g.Keys == Keys(Active(perms, status))
    ensures forall k :: k in g ==> g[k] == Group(Active(perms, status), k)
  {
    var ps := Active(perms, status);
    g := map[];
    var i := 0;
    GroupedEmpty(ps);
    while i < |ps|
      invariant 0 <= i <= |ps|
      invariant Grouped(ps[..i], g)
    {
      GroupStep(ps[..i], ps[i], g);
      Seqs.TakeNext(ps, i);
      g := AddToGroup(g, ps[i]);
      i := i + 1;
    }
    assert ps[..i] == ps;
  }

  /** `g` holds exactly the groups of `s`. */
  ghost predicate Grouped(s: seq<Permission>, g: map<string, seq<Permission>>)
  {
    g.Keys == Keys(s) && forall k :: k in g ==> g[k] == Group(s, k)
  }

  /** No rows, no groups. */
  lemma GroupedEmpty(ps: seq<Permission>)
    ensures Grouped(ps[..0], map[])
  {
    assert ps[..0] == [];
    assert Keys([]) == {};
  }

  /** One loop step: `p` appended to the list of its key, which starts empty. */
  function AddToGroup(g: map<string, seq<Permission>>, p: Permission): map<string, seq<Permission>>
  {
    g[ModuleKey(p) := (if ModuleKey(p) in g then g[ModuleKey(p)] else []) + [p]]
  }

  /** Adding one more permission to its group keeps the grouping in step with the rows seen. */
  lemma GroupStep(s: seq<Permission>, p: Permission, g: map<string, seq<Permission>>)
    requires Grouped(s, g)
    ensures Grouped(s + [p], AddToGroup(g, p))
  {
    var g2 := AddToGroup(g, p);
    KeysAppend(s, p);
    forall k | k in g2
      ensures g2[k] == Group(s + [p], k)
    {
      GroupAt(s, p, g, k);
    }
  }

  /** The keys after one more row: the old keys and the row's. */
  lemma KeysAppend(s: seq<Permission>, p: Permission)
    ensures Keys(s + [p]) == Keys(s) + {ModuleKey(p)}
  {
  }

  /** One group after one more row: grown by the row exactly when it carries the key. */
  lemma GroupAt(s: seq<Permission>, p: Permission, g: map<string, seq<Permission>>, k: string)
    requires Grouped(s, g)
    requires k in AddToGroup(g, p)
    ensures AddToGroup(g, p)[k] == Group(s + [p], k)
  {
    Seqs.FilterAppend(s, p, (q: Permission) => ModuleKey(q) == k);
    if k == ModuleKey(p) && k !in g {
      GroupAbsent(s, k);
    }
  }

  /** A key no permission carries has an empty group. */
  lemma {:induction false} GroupAbsent(s: seq<Permission>, k: string)
    requires forall q :: q in s ==> ModuleKey(q) != k
    ensures Group(s, k) == []
  {
    if s != [] {
      GroupAbsent(s[1..], k);
    }
  }

  /** Every grouped permission sits in exactly one group: the one its key names. */
  lemma ExactlyOneGroup(ps: seq<Permission>, p: Permission, k: string)
    requires p in ps
    ensures p in Group(ps, k) <==> k == ModuleKey(p)
    ensures ModuleKey(p) in Keys(ps)
  {
  }

  /** The groups together hold every permission of `ps`, counted once. */
  lemma {:induction false} GroupsPartition(ps: seq<Permission>, p: Permission)
    ensures multiset(Group(ps, ModuleKey(p)))[p] == multiset(ps)[p]
  {
    Seqs.FilterCount(ps, (q: Permission) => ModuleKey(q) == ModuleKey(p), p);
  }

  /** `permission.is_assigned_to_role(role_id)`. */
  function IsAssignedToRole(links: seq<Link>, p: Permission, rid: nat): (b: bool)
    ensures b <==> Link(rid, p.id) in links
  {
    Roles.HasLink(links, Link(rid, p.id))
  }

  /** Assigning makes the pair assigned, removing (under the uniqueness constraint) unassigns it; other pairs keep their answer. */
  lemma AssignedAfterUpdate(links: seq<Link>, p: Permission, rid: nat, l: Link)
    requires UniqueLinks(links)
    ensures IsAssignedToRole(Roles.Assigned(links, l), p, rid) <==> IsAssignedToRole(links, p, rid) || l == Link(rid, p.id)
    ensures IsAssignedToRole(Roles.Removed(links, l), p, rid) <==> IsAssignedToRole(links, p, rid) && l != Link(rid, p.id)
  {
    Roles.RemoveDeletes(links, l);
  }

  /** The filter of `check_resource_permission`. */
  predicate MatchesResource(p: Permission, path: string, httpMethod: string)
  {
    p.status && p.resourcePath == path && p.httpMethod == Text.Upper(httpMethod)
  }

  /**
   * `Permission.check_resource_permission(path, method)`: the index of the
   * first enabled permission with that path and the upper-cased method.
   */
  function CheckResourcePermission(perms: seq<Permission>, path: string, httpMethod: string): (r: Option<nat>)
    ensures r.Some? ==> r.value < |perms| && MatchesResource(perms[r.value], path, httpMethod)
    ensures r.Some? ==> forall j :: 0 <= j < r.value ==> !MatchesResource(perms[j], path, httpMethod)
    ensures r.None? <==> forall j :: 0 <= j < |perms| ==> !MatchesResource(perms[j], path, httpMethod)
  {
    if perms == [] then None
    else if MatchesResource(perms[0], path, httpMethod) then Some(0)
    else match CheckResourcePermission(perms[1..], path, httpMethod)
      case None => None
      case Some(k) => Some(k + 1)
  }

  /** Two request methods that upper-case alike find the same permission. */
  lemma {:induction false} SameUpperSameCheck(perms: seq<Permission>, path: string, m: string, m2: string)
    requires Text.Upper(m) == Text.Upper(m2)
    ensures CheckResourcePermission(perms, path, m) == CheckResourcePermission(perms, path, m2)
  {
    if perms != [] {
      SameUpperSameCheck(perms[1..], path, m, m2);
    }
  }

  /**
   * The method is compared case-insensitively on the request side: any
   * method finds what its upper-cased and its lower-cased spellings find.
   */
  lemma MethodCaseInsensitive(perms: seq<Permission>, path: string, m: string)
    ensures CheckResourcePermission(perms, path, m) == CheckResourcePermission(perms, path, Text.Upper(m))
    ensures CheckResourcePermission(perms, path, m) == CheckResourcePermission(perms, path, Text.Lower(m))
  {
    Text.UpperIdempotent(m);
    SameUpperSameCheck(perms, path, m, Text.Upper(m));
    SameUpperSameCheck(perms, path, m, Text.Lower(m));
  }
}
