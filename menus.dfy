/**
 * The `Menu` model: a self-referential table walked upwards (level, parent
 * path), downwards (children, all descendants, the route dict), the delete
 * guard, and the per-user filter that builds the visible menu tree.
 */
module Menus {
  import opened Wrappers
  import opened Json
  import opened Schema
  import Forest
  import Seqs

  /** `menu.get_level()`: the row at index `k` counts itself and every ancestor. */
  method GetLevel(ms: seq<Menu>, k: nat) returns (level: nat)
    requires k < |ms| && MenuTree(ms)
    ensures var ns := MenuNodes(ms); level == 1 + |Forest.Ancestors(ns, ns[k].parent)|
  {
    var ns := MenuNodes(ms);
    level := 1;
    var cur := ms[k].parent;
    while cur.Some? && FindMenu(ms, cur.value).Some?
      invariant level + |Forest.Ancestors(ns, cur)| == 1 + |Forest.Ancestors(ns, ms[k].parent)|
      decreases |Forest.Ancestors(ns, cur)|
    {
      var j := FindMenu(ms, cur.value).value;
      FindMenuNode(ms, cur.value);
      Forest.AncestorsStep(ns, cur.value, j);
      level := level + 1;
      cur := ms[j].parent;
    }
    if cur.Some? {
      FindMenuNode(ms, cur.value);
    }
    Forest.AncestorsEnd(ns, cur);
  }

  function Reversed(s: seq<nat>): (r: seq<nat>)
    ensures |r| == |s|
    ensures forall i :: 0 <= i < |s| ==> r[i] == s[|s| - 1 - i]
  {
    if s == [] then [] else Reversed(s[1..]) + [s[0]]
  }

  /**
   * `menu.get_parent_path()` for a row whose parent is `pid`: the ancestor
   * ids, root first, the direct parent last.
   */
  function ParentPath(ns: seq<Forest.Node>, pid: Option<nat>): (r: seq<nat>)
    requires Forest.Acyclic(ns)
    ensures r == Reversed(Forest.Ancestors(ns, pid))
    decreases |Forest.Ancestors(ns, pid)|
  {
    if pid.None? || Forest.IndexOf(ns, pid.value).None? then
      Forest.AncestorsEnd(ns, pid);
      []
    else
      var k := Forest.IndexOf(ns, pid.value).value;
      Forest.AncestorsStep(ns, pid.value, k);
      ParentPath(ns, ns[k].parent) + [pid.value]
  }

  /**
   * The parent path has one entry per level above the row, ends with the
   * direct parent and starts at a root.
   */
  lemma ParentPathShape(ms: seq<Menu>, k: nat)
    requires k < |ms| && MenuTree(ms)
    ensures var path := ParentPath(MenuNodes(ms), ms[k].parent);
      |path| == |Forest.Ancestors(MenuNodes(ms), ms[k].parent)|
      && (ms[k].parent.None? ==> path == [])
      && (path != [] ==> path[|path| - 1] == ms[k].parent.value)
  {
    var ns := MenuNodes(ms);
    var pid := ms[k].parent;
    if pid.Some? && Forest.IndexOf(ns, pid.value).Some? {
      Forest.AncestorsStep(ns, pid.value, Forest.IndexOf(ns, pid.value).value);
    } else {
      Forest.AncestorsEnd(ns, pid);
    }
  }

  /** `menu.get_all_children()` for the menu with id `id`. */
  function AllChildren(ms: seq<Menu>, id: nat): (r: seq<nat>)
    requires MenuTree(ms)
    ensures Forest.NoDup(r)
    ensures FindMenu(ms, id).Some? ==> id !in r
  {
    DescendantFacts(ms, id);
    Forest.Descendants(MenuNodes(ms), id)
  }

  lemma DescendantFacts(ms: seq<Menu>, id: nat)
    requires MenuTree(ms)
    ensures Forest.NoDup(Forest.Descendants(MenuNodes(ms), id))
    ensures FindMenu(ms, id).Some? ==> id !in Forest.Descendants(MenuNodes(ms), id)
  {
    Forest.DescendantsNoDup(MenuNodes(ms), id);
    FindMenuNode(ms, id);
    if FindMenu(ms, id).Some? {
      Forest.NotOwnDescendant(MenuNodes(ms), id);
    }
  }

  /** A row is returned by `get_all_children()` exactly when the menu is on its ancestor chain. */
  lemma AllChildrenExact(ms: seq<Menu>, id: nat, i: nat)
    requires MenuTree(ms) && FindMenu(ms, id).Some? && i < |ms|
    ensures ms[i].id in AllChildren(ms, id) <==> id in Forest.Ancestors(MenuNodes(ms), ms[i].parent)
  {
    var ns := MenuNodes(ms);
    FindMenuNode(ms, id);
    if ms[i].id in AllChildren(ms, id) {
      Forest.DescendantsSound(ns, id, ms[i].id);
      var j :| 0 <= j < |ns| && ns[j].id == ms[i].id && id in Forest.Ancestors(ns, ns[j].parent);
      assert j == i;
    }
    if id in Forest.Ancestors(ns, ms[i].parent) {
      Forest.DescendantsComplete(ns, id, i);
    }
  }

  /** `menu.children`: the rows whose parent is `id`, in table order. */
  function ChildMenus(ms: seq<Menu>, id: nat): (r: seq<Menu>)
    ensures forall m :: m in r <==> m in ms && m.parent == Some(id)
  {
    Seqs.Filter(ms, (m: Menu) => m.parent == Some(id))
  }

  /** `menu.can_delete()`: no row names the menu as its parent. */
  function CanDelete(ms: seq<Menu>, id: nat): (b: bool)
    ensures b <==> forall i :: 0 <= i < |ms| ==> ms[i].parent != Some(id)
  {
    var cs := ChildMenus(ms, id);
    assert cs != [] ==> cs[0] in cs;
    |cs| == 0
  }

  /** A menu can be deleted exactly when it has no descendants at all. */
  lemma CanDeleteIffLeaf(ms: seq<Menu>, id: nat)
    requires MenuTree(ms)
    ensures CanDelete(ms, id) <==> AllChildren(ms, id) == []
  {
    var ns := MenuNodes(ms);
    Forest.ChildrenEmpty(ns, id);
    var cs := Forest.Children(ns, id);
    assert AllChildren(ms, id) == Forest.DescendantsOf(ns, id, cs);
    assert CanDelete(ms, id) <==> cs == [];
  }

  /** The order `get_sorted_children` sorts by: `(sort_order, created_at)` ascending. */
  predicate KeyLe(a: Menu, b: Menu)
  {
    a.sortOrder < b.sortOrder || (a.sortOrder == b.sortOrder && a.createdAt <= b.createdAt)
  }

  predicate SortedByKey(s: seq<Menu>)
  {
    forall i, j :: 0 <= i < j < |s| ==> KeyLe(s[i], s[j])
  }

  /** `x` placed before the first element it does not follow. */
  function Insert(x: Menu, s: seq<Menu>): (r: seq<Menu>)
    requires SortedByKey(s)
    ensures SortedByKey(r)
    ensures multiset(r) == multiset(s) + multiset{x}
    ensures forall k :: 0 <= k < |r| ==> KeyLe(x, r[k]) || exists j :: 0 <= j < |s| && KeyLe(s[j], r[k])
  {
    if s == [] then [x]
    else if KeyLe(x, s[0]) then [x] + s
    else
      assert s == [s[0]] + s[1..];
      var rest := Insert(x, s[1..]);
      HeadBelow(x, s, rest);
      [s[0]] + rest
  }

  /** The head of a sorted `s` that `x` does not precede comes before everything of `x` inserted into the tail. */
  lemma HeadBelow(x: Menu, s: seq<Menu>, rest: seq<Menu>)
    requires SortedByKey(s) && s != [] && !KeyLe(x, s[0])
    requires forall k :: 0 <= k < |rest| ==> KeyLe(x, rest[k]) || exists j :: 0 <= j < |s[1..]| && KeyLe(s[1..][j], rest[k])
    ensures forall k :: 0 <= k < |rest| ==> KeyLe(s[0], rest[k])
  {
    forall k | 0 <= k < |rest|
      ensures KeyLe(s[0], rest[k])
    {
      if !KeyLe(x, rest[k]) {
        var j :| 0 <= j < |s[1..]| && KeyLe(s[1..][j], rest[k]);
        assert KeyLe(s[0], s[j + 1]);
      }
    }
  }

  /** Python's `sorted(..., key=lambda x: (x.sort_order, x.created_at))`. */
  function Sort(s: seq<Menu>): (r: seq<Menu>)
    ensures SortedByKey(r)
    ensures multiset(r) == multiset(s)
  {
    if s == [] then []
    else
      assert s == [s[0]] + s[1..];
      Insert(s[0], Sort(s[1..]))
  }

  /** `menu.get_sorted_children()`: the enabled children, ascending by the sort key. */
  function SortedChildren(ms: seq<Menu>, id: nat): (r: seq<Menu>)
    ensures SortedByKey(r)
    ensures multiset(r) == multiset(Seqs.Filter(ChildMenus(ms, id), (m: Menu) => m.status))
    ensures forall m :: m in r <==> m in ms && m.parent == Some(id) && m.status
  {
    var cs := Seqs.Filter(ChildMenus(ms, id), (m: Menu) => m.status);
    var r := Sort(cs);
    assert forall m :: m in r <==> m in cs by {
      forall m
        ensures m in r <==> m in cs
      {
        assert m in r <==> multiset(r)[m] > 0;
        assert m in cs <==> multiset(cs)[m] > 0;
      }
    }
    r
  }

  /** `Menu.get_root_menus(status)`: the rows without a parent, optionally of one status. */
  function GetRootMenus(ms: seq<Menu>, status: Option<bool>): (r: seq<Menu>)
    ensures forall m :: m in r <==> m in ms && m.parent.None? && (status.None? || m.status == status.value)
  {
    Seqs.Filter(ms, (m: Menu) => m.parent.None? && (status.None? || m.status == status.value))
  }

  /** The `meta` part of a route dict. */
  datatype RouteMeta = RouteMeta(title: string, icon: string, hidden: bool, keepAlive: bool, affix: bool, permission: string)

  /**
   * A route dict: `component` and `redirect` are keys that may be absent.
   * The `children` key is written only with a non-empty list, so the empty
   * list here stands for the absent key.
   */
  datatype Route = Route(
    name: string,
    path: string,
    meta: RouteMeta,
    component: Option<string>,
    redirect: Option<string>,
    children: seq<Route>)

  /** An optional key that is present only when the column is set. */
  function IfSet(v: string): (r: Option<string>)
    ensures r.Some? <==> v != ""
    ensures r.Some? ==> r.value == v
  {
    if v != "" then Some(v) else None
  }

  /** The row of a menu known to be in the table. */
  lemma RowOf(ms: seq<Menu>, m: Menu)
    requires UniqueIdsOf(ms) && m in ms
    ensures FindMenu(ms, m.id).Some? && ms[FindMenu(ms, m.id).value] == m
  {
    var i :| 0 <= i < |ms| && ms[i] == m;
    var j := FindMenu(ms, m.id).value;
    assert ms[j].id == ms[i].id;
  }

  predicate UniqueIdsOf(ms: seq<Menu>)
  {
    forall i, j :: 0 <= i < |ms| && 0 <= j < |ms| && ms[i].id == ms[j].id ==> i == j
  }

  lemma TreeUnique(ms: seq<Menu>)
    requires MenuTree(ms)
    ensures UniqueIdsOf(ms)
  {
    var ns := MenuNodes(ms);
    forall i, j | 0 <= i < |ms| && 0 <= j < |ms| && ms[i].id == ms[j].id
      ensures i == j
    {
      assert ns[i].id == ns[j].id;
    }
  }

  /**
   * `menu.to_route_dict()` for the row at index `k`: name, path and meta
   * always; component and redirect only when set; children only when the
   * menu has enabled children, one route per sorted enabled child.
   */
  function ToRouteDict(ms: seq<Menu>, k: nat): (d: Route)
    requires MenuTree(ms) && k < |ms|
    ensures d.name == ms[k].name && d.path == ms[k].path
    ensures d.meta.title == ms[k].title && d.meta.permission == ms[k].permissionCode
    ensures d.component.Some? <==> ms[k].component != ""
    ensures d.redirect.Some? <==> ms[k].redirect != ""
    ensures |d.children| == |SortedChildren(ms, ms[k].id)|
    ensures forall i :: 0 <= i < |d.children| ==>
      d.children[i].name == SortedChildren(ms, ms[k].id)[i].name
      && d.children[i].meta.permission == SortedChildren(ms, ms[k].id)[i].permissionCode
    decreases |ms| - Forest.Depth(MenuNodes(ms), ms[k].id), 1
  {
    var m := ms[k];
    var cs := SortedChildren(ms, m.id);
    Route(m.name, m.path, RouteMeta(m.title, m.icon, m.isHidden, m.isKeepalive, m.isAffix, m.permissionCode),
          IfSet(m.component), IfSet(m.redirect),
          ChildRoutes(ms, k, cs))
  }

  /** A child row sits one level deeper than its parent. */
  lemma ChildRow(ms: seq<Menu>, k: nat, c: Menu)
    requires MenuTree(ms) && k < |ms|
    requires c in ms && c.parent == Some(ms[k].id)
    ensures FindMenu(ms, c.id).Some? && ms[FindMenu(ms, c.id).value] == c
    ensures Forest.Depth(MenuNodes(ms), c.id) == Forest.Depth(MenuNodes(ms), ms[k].id) + 1
  {
    TreeUnique(ms);
    RowOf(ms, c);
    Forest.ChildDepth(MenuNodes(ms), FindMenu(ms, c.id).value, ms[k].id);
  }

  /** The routes of the children `cs` of the row at index `k`, in order. */
  function ChildRoutes(ms: seq<Menu>, k: nat, cs: seq<Menu>): (r: seq<Route>)
    requires MenuTree(ms) && k < |ms|
    requires forall c :: c in cs ==> c in ms && c.parent == Some(ms[k].id)
    ensures RoutesFor(r, cs)
    decreases |ms| - Forest.Depth(MenuNodes(ms), ms[k].id), 0, |cs|
  {
    if cs == [] then []
    else
      ChildRow(ms, k, cs[0]);
      var j := FindMenu(ms, cs[0].id).value;
      var rest := ChildRoutes(ms, k, cs[1..]);
      RoutesForCons(ToRouteDict(ms, j), rest, cs);
      [ToRouteDict(ms, j)] + rest
  }

  /** Route `i` carries the name, path and permission of menu `i`. */
  predicate RoutesFor(r: seq<Route>, cs: seq<Menu>)
  {
    |r| == |cs|
    && forall i :: 0 <= i < |cs| ==>
      r[i].name == cs[i].name && r[i].path == cs[i].path && r[i].meta.permission == cs[i].permissionCode
  }

  lemma RoutesForCons(h: Route, rest: seq<Route>, cs: seq<Menu>)
    requires cs != [] && RoutesFor(rest, cs[1..])
    requires h.name == cs[0].name && h.path == cs[0].path && h.meta.permission == cs[0].permissionCode
    ensures RoutesFor([h] + rest, cs)
  {
    forall i | 1 <= i < |cs|
      ensures ([h] + rest)[i] == rest[i - 1] && cs[i] == cs[1..][i - 1]
    {
    }
  }

  /** The menu needs no permission or one the user holds. */
  predicate PermOk(m: Menu, perms: seq<string>)
  {
    m.permissionCode == "" || m.permissionCode in perms
  }

  /** The enabled menus the user may see (`accessible_menus`), in table order. */
  function Accessible(ms: seq<Menu>, perms: seq<string>): (r: seq<Menu>)
    ensures forall m :: m in r <==> m in ms && m.status && PermOk(m, perms)
  {
    Seqs.Filter(Seqs.Filter(ms, (m: Menu) => m.status), (m: Menu) => PermOk(m, perms))
  }

  /** The ids of the kept menus (`menu_dict`). */
  function KeptIds(acc: seq<Menu>): (r: set<nat>)
    ensures forall x :: x in r <==> exists m :: m in acc && m.id == x
  {
    set m | m in acc :: m.id
  }

  /** The `_filtered_children` of kept menu `p`: the kept menus whose parent is `p`, in table order. */
  function FilteredChildren(acc: seq<Menu>, p: nat): (r: seq<Menu>)
    ensures forall m :: m in r <==> m in acc && m.parent == Some(p)
  {
    Seqs.Filter(acc, (m: Menu) => m.parent == Some(p))
  }

  /** The kept roots among `seen`. */
  function Roots(seen: seq<Menu>): (r: seq<Menu>)
    ensures forall m :: m in r <==> m in seen && m.parent.None?
  {
    Seqs.Filter(seen, (m: Menu) => m.parent.None?)
  }

  /** The state of `get_user_menus` after the menus `seen` were placed. */
  ghost predicate Placed(ids: set<nat>, seen: seq<Menu>, roots: seq<Menu>, children: map<nat, seq<Menu>>)
  {
    roots == Roots(seen)
    && (forall p :: p in children <==> p in ids && FilteredChildren(seen, p) != [])
    && (forall p :: p in children ==> children[p] == FilteredChildren(seen, p))
  }

  /**
   * `Menu.get_user_menus(user_permissions)`: the enabled rows the user may
   * see, as the list of kept roots and, for each kept menu with kept
   * children, its `_filtered_children` in table order. A kept menu whose
   * parent was not kept is placed nowhere.
   */
  method GetUserMenus(ms: seq<Menu>, perms: seq<string>) returns (roots: seq<Menu>, children: map<nat, seq<Menu>>)
    ensures Placed(KeptIds(Accessible(ms, perms)), Accessible(ms, perms), roots, children)
  {
    var all := Seqs.Filter(ms, (m: Menu) => m.status);
    var acc: seq<Menu> := [];
    var i := 0;
    assert all[..0] == [];
    while i < |all|
      invariant 0 <= i <= |all|
      invariant acc == Seqs.Filter(all[..i], (m: Menu) => PermOk(m, perms))
    {
      KeepStep(all, i, perms);
      if PermOk(all[i], perms) {
        acc := acc + [all[i]];
      }
      i := i + 1;
    }
    assert all[..i] == all;
    var ids := KeptIds(acc);
    roots, children := [], map[];
    i := 0;
    PlacedStart(ids, acc);
    while i < |acc|
      invariant 0 <= i <= |acc|
      invariant Placed(ids, acc[..i], roots, children)
    {
      var m := acc[i];
      if m.parent.None? {
        PlaceRoot(ids, acc, i, roots, children);
        roots := roots + [m];
      } else if m.parent.value in ids {
        var p := m.parent.value;
        var cur := if p in children then children[p] else [];
        PlaceChild(ids, acc, i, roots, children);
        children := children[p := cur + [m]];
      } else {
        PlaceSkip(ids, acc, i, roots, children);
      }
      i := i + 1;
      assert Placed(ids, acc[..i], roots, children);
    }
    assert acc[..i] == acc;
  }

  /** One more row of the enabled menus seen by the permission loop. */
  lemma KeepStep(all: seq<Menu>, i: nat, perms: seq<string>)
    requires i < |all|
    ensures Seqs.Filter(all[..i + 1], (m: Menu) => PermOk(m, perms))
      == Seqs.Filter(all[..i], (m: Menu) => PermOk(m, perms)) + (if PermOk(all[i], perms) then [all[i]] else [])
  {
    assert all[..i + 1] == all[..i] + [all[i]];
    Seqs.FilterAppend(all[..i], all[i], (m: Menu) => PermOk(m, perms));
  }

  /** Nothing is placed before the loop starts. */
  lemma PlacedStart(ids: set<nat>, acc: seq<Menu>)
    ensures Placed(ids, acc[..0], [], map[])
  {
    assert acc[..0] == [];
  }

  /** How the roots and the filtered children grow by one more kept menu. */
  lemma StepFacts(acc: seq<Menu>, i: nat)
    requires i < |acc|
    ensures Roots(acc[..i + 1]) == Roots(acc[..i]) + (if acc[i].parent.None? then [acc[i]] else [])
    ensures forall p: nat ::
      FilteredChildren(acc[..i + 1], p) == FilteredChildren(acc[..i], p) + (if acc[i].parent == Some(p) then [acc[i]] else [])
  {
    var s, m := acc[..i], acc[i];
    assert acc[..i + 1] == s + [m];
    Seqs.FilterAppend(s, m, (x: Menu) => x.parent.None?);
    forall p: nat
      ensures FilteredChildren(s + [m], p) == FilteredChildren(s, p) + (if m.parent == Some(p) then [m] else [])
    {
      Seqs.FilterAppend(s, m, (x: Menu) => x.parent == Some(p));
    }
  }

  /** Placing a kept root. */
  lemma PlaceRoot(ids: set<nat>, acc: seq<Menu>, i: nat, roots: seq<Menu>, children: map<nat, seq<Menu>>)
    requires i < |acc| && Placed(ids, acc[..i], roots, children) && acc[i].parent.None?
    ensures Placed(ids, acc[..i + 1], roots + [acc[i]], children)
  {
    StepFacts(acc, i);
  }

  /** Skipping a kept menu whose parent was not kept. */
  lemma PlaceSkip(ids: set<nat>, acc: seq<Menu>, i: nat, roots: seq<Menu>, children: map<nat, seq<Menu>>)
    requires i < |acc| && Placed(ids, acc[..i], roots, children)
    requires acc[i].parent.Some? && acc[i].parent.value !in ids
    ensures Placed(ids, acc[..i + 1], roots, children)
  {
    StepFacts(acc, i);
  }

  /** Appending a kept menu to its kept parent's filtered children. */
  lemma PlaceChild(ids: set<nat>, acc: seq<Menu>, i: nat, roots: seq<Menu>, children: map<nat, seq<Menu>>)
    requires i < |acc| && Placed(ids, acc[..i], roots, children)
    requires acc[i].parent.Some? && acc[i].parent.value in ids
    ensures var p := acc[i].parent.value;
      Placed(ids, acc[..i + 1], roots, children[p := (if p in children then children[p] else []) + [acc[i]]])
  {
    StepFacts(acc, i);
    var p := acc[i].parent.value;
    var c2 := children[p := (if p in children then children[p] else []) + [acc[i]]];
    forall q: nat
      ensures q in c2 <==> q in ids && FilteredChildren(acc[..i + 1], q) != []
      ensures q in c2 ==> c2[q] == FilteredChildren(acc[..i + 1], q)
    {
      if q == p {
        assert |FilteredChildren(acc[..i + 1], q)| > 0;
        if p !in children {
          assert FilteredChildren(acc[..i], q) == [];
        }
      }
    }
  }

  /**
   * A kept menu whose parent was not kept is dropped: it is neither a root
   * nor among any menu's filtered children.
   */
  lemma OrphansDropped(acc: seq<Menu>, roots: seq<Menu>, children: map<nat, seq<Menu>>, m: Menu)
    requires Placed(KeptIds(acc), acc, roots, children)
    requires m in acc && m.parent.Some? && m.parent.value !in KeptIds(acc)
    ensures m !in roots
    ensures forall p :: p in children ==> m !in children[p]
  {
  }

  /**
   * A kept menu whose parent was kept appears exactly once, in its parent's
   * filtered children, in no other list and not among the roots (menu ids
   * being unique).
   */
  lemma PlacedOnce(acc: seq<Menu>, roots: seq<Menu>, children: map<nat, seq<Menu>>, m: Menu)
    requires Placed(KeptIds(acc), acc, roots, children)
    requires UniqueIdsOf(acc) && m in acc && m.parent.Some? && m.parent.value in KeptIds(acc)
    ensures m.parent.value in children
    ensures multiset(children[m.parent.value])[m] == 1
    ensures forall p :: p in children && p != m.parent.value ==> m !in children[p]
    ensures m !in roots
  {
    assert m in FilteredChildren(acc, m.parent.value);
    CountOnce(acc, m);
    FilterCount(acc, m, m.parent.value);
  }

  /** A row of a table with unique ids occurs once. */
  lemma {:induction false} CountOnce(acc: seq<Menu>, m: Menu)
    requires UniqueIdsOf(acc) && m in acc
    ensures multiset(acc)[m] == 1
  {
    if acc[0] == m {
      forall j | 0 <= j < |acc[1..]|
        ensures acc[1..][j] != m
      {
        assert acc[j + 1].id != acc[0].id;
      }
      assert acc == [acc[0]] + acc[1..];
    } else {
      assert UniqueIdsOf(acc[1..]) by {
        forall i, j | 0 <= i < |acc[1..]| && 0 <= j < |acc[1..]| && acc[1..][i].id == acc[1..][j].id
          ensures i == j
        {
          assert acc[i + 1].id == acc[j + 1].id;
        }
      }
      CountOnce(acc[1..], m);
      assert acc == [acc[0]] + acc[1..];
    }
  }

  /** Filtering keeps the count of a row that passes. */
  lemma {:induction false} FilterCount(acc: seq<Menu>, m: Menu, p: nat)
    requires m.parent == Some(p)
    ensures multiset(FilteredChildren(acc, p))[m] == multiset(acc)[m]
  {
    if acc != [] {
      FilterCount(acc[1..], m, p);
      assert acc == [acc[0]] + acc[1..];
    }
  }
}
