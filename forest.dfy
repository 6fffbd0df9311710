/**
 * A self-referential table (`parent_id` pointing at another row of the same
 * table), seen as the (id, parent) pair of each row in primary-key order.
 * Menus and courseware categories are both such tables. A parent id that
 * names no row behaves like no parent, as the ORM relationship does.
 */
module Forest {
  import opened Wrappers

  datatype Node = Node(id: nat, parent: Option<nat>)

  /** The primary key is unique. */
  predicate UniqueIds(ns: seq<Node>)
  {
    forall i, j :: 0 <= i < |ns| && 0 <= j < |ns| && ns[i].id == ns[j].id ==> i == j
  }

  /** `query.get(id)`: the position of the row with that id. */
  function IndexOf(ns: seq<Node>, id: nat): (r: Option<nat>)
    ensures r.Some? ==> r.value < |ns| && ns[r.value].id == id
    ensures r.None? <==> forall i :: 0 <= i < |ns| ==> ns[i].id != id
  {
    if ns == [] then None
    else if ns[0].id == id then Some(0)
    else match IndexOf(ns[1..], id)
      case None => None
      case Some(k) => Some(k + 1)
  }

  lemma IndexOfUnique(ns: seq<Node>, i: nat)
    requires UniqueIds(ns) && i < |ns|
    ensures IndexOf(ns, ns[i].id) == Some(i)
  {
  }

  /**
   * The ancestor ids reached from `pid` by following parents, nearest
   * first, using at most `fuel` steps; None when the fuel runs out.
   */
  function Up(ns: seq<Node>, pid: Option<nat>, fuel: nat): (r: Option<seq<nat>>)
    ensures r.Some? ==> |r.value| <= fuel
    decreases fuel
  {
    if pid.None? then Some([])
    else match IndexOf(ns, pid.value)
      case None => Some([])
      case Some(k) =>
        if fuel == 0 then None
        else match Up(ns, ns[k].parent, fuel - 1)
          case None => None
          case Some(rest) => Some([pid.value] + rest)
  }

  /** No row is its own ancestor: every upward walk ends within |ns| steps. */
  predicate Acyclic(ns: seq<Node>)
  {
    forall i {:trigger Up(ns, Some(ns[i].id), |ns|)} :: 0 <= i < |ns| ==> Up(ns, Some(ns[i].id), |ns|).Some?
  }

  /** More fuel never changes a walk that already finished. */
  lemma {:induction false} UpMono(ns: seq<Node>, pid: Option<nat>, f: nat, g: nat)
    requires f <= g && Up(ns, pid, f).Some?
    ensures Up(ns, pid, g) == Up(ns, pid, f)
    decreases f
  {
    if pid.Some? {
      match IndexOf(ns, pid.value)
      case None =>
      case Some(k) =>
        UpMono(ns, ns[k].parent, f - 1, g - 1);
    }
  }

  lemma AcyclicAll(ns: seq<Node>, pid: Option<nat>)
    requires Acyclic(ns)
    ensures Up(ns, pid, |ns|).Some?
  {
    if pid.Some? {
      match IndexOf(ns, pid.value)
      case None =>
      case Some(k) =>
        assert Up(ns, Some(ns[k].id), |ns|).Some?;
    }
  }

  /** The ancestor ids of a row with parent `pid`, nearest first. */
  function Ancestors(ns: seq<Node>, pid: Option<nat>): (r: seq<nat>)
    requires Acyclic(ns)
    ensures |r| <= |ns|
  {
    AcyclicAll(ns, pid);
    Up(ns, pid, |ns|).value
  }

  /** A missing or dangling parent has no ancestors. */
  lemma AncestorsEnd(ns: seq<Node>, pid: Option<nat>)
    requires Acyclic(ns)
    requires pid.None? || IndexOf(ns, pid.value).None?
    ensures Ancestors(ns, pid) == []
  {
  }

  /** One step up: the parent, then the parent's ancestors. */
  lemma AncestorsStep(ns: seq<Node>, p: nat, k: nat)
    requires Acyclic(ns)
    requires IndexOf(ns, p) == Some(k)
    ensures Ancestors(ns, Some(p)) == [p] + Ancestors(ns, ns[k].parent)
  {
    AcyclicAll(ns, Some(p));
    var rest := Up(ns, ns[k].parent, |ns| - 1);
    assert rest.Some?;
    UpMono(ns, ns[k].parent, |ns| - 1, |ns|);
  }

  /** The chain above any ancestor is a suffix of the chain. */
  lemma {:induction false} AncestorsSuffix(ns: seq<Node>, pid: Option<nat>, a: nat)
    requires Acyclic(ns)
    requires a in Ancestors(ns, pid)
    ensures exists j :: 0 <= j < |Ancestors(ns, pid)| && Ancestors(ns, pid)[j..] == Ancestors(ns, Some(a))
    decreases |Ancestors(ns, pid)|
  {
    var chain := Ancestors(ns, pid);
    if pid.None? || IndexOf(ns, pid.value).None? {
      AncestorsEnd(ns, pid);
    } else {
      var k := IndexOf(ns, pid.value).value;
      AncestorsStep(ns, pid.value, k);
      if pid.value == a {
        assert chain[0..] == chain;
      } else {
        var up := Ancestors(ns, ns[k].parent);
        assert a in up;
        AncestorsSuffix(ns, ns[k].parent, a);
        var j :| 0 <= j < |up| && up[j..] == Ancestors(ns, Some(a));
        assert chain[j + 1..] == up[j..];
      }
    }
  }

  /** On an acyclic table with a unique key, no row is its own ancestor. */
  lemma NotOwnAncestor(ns: seq<Node>, i: nat)
    requires Acyclic(ns) && UniqueIds(ns) && i < |ns|
    ensures ns[i].id !in Ancestors(ns, ns[i].parent)
  {
    var x := ns[i].id;
    IndexOfUnique(ns, i);
    AncestorsStep(ns, x, i);
    if x in Ancestors(ns, ns[i].parent) {
      AncestorsSuffix(ns, ns[i].parent, x);
    }
  }

  /** Number of rows on the chain from `id` up, `id` included when it exists. */
  function Depth(ns: seq<Node>, id: nat): (d: nat)
    requires Acyclic(ns)
    ensures d <= |ns|
  {
    |Ancestors(ns, Some(id))|
  }

  /** A row sits one level below its parent. */
  lemma ChildDepth(ns: seq<Node>, i: nat, id: nat)
    requires Acyclic(ns) && UniqueIds(ns) && i < |ns|
    requires ns[i].parent == Some(id)
    ensures Depth(ns, ns[i].id) == Depth(ns, id) + 1
  {
    IndexOfUnique(ns, i);
    AncestorsStep(ns, ns[i].id, i);
  }

  /** The row `c` has parent `id`. */
  predicate IsChild(ns: seq<Node>, c: nat, id: nat)
  {
    exists i :: 0 <= i < |ns| && ns[i].id == c && ns[i].parent == Some(id)
  }

  /** `self.children`: ids of the rows whose parent is `id`, in table order. */
  function Children(ns: seq<Node>, id: nat): (r: seq<nat>)
    ensures |r| <= |ns|
    ensures forall c :: c in r <==> IsChild(ns, c, id)
  {
    if ns == [] then []
    else
      var rest := Children(ns[1..], id);
      assert forall c :: IsChild(ns[1..], c, id) ==> IsChild(ns, c, id) by {
        forall c | IsChild(ns[1..], c, id)
          ensures IsChild(ns, c, id)
        {
          var i :| 0 <= i < |ns[1..]| && ns[1..][i].id == c && ns[1..][i].parent == Some(id);
          assert ns[i + 1].id == c;
        }
      }
      assert forall c :: IsChild(ns, c, id) && c != ns[0].id ==> IsChild(ns[1..], c, id) by {
        forall c | IsChild(ns, c, id) && c != ns[0].id
          ensures IsChild(ns[1..], c, id)
        {
          var i :| 0 <= i < |ns| && ns[i].id == c && ns[i].parent == Some(id);
          assert i > 0;
          assert ns[1..][i - 1] == ns[i];
        }
      }
      assert forall c :: (IsChild(ns, c, id) && c == ns[0].id && ns[0].parent != Some(id)
        ==> IsChild(ns[1..], c, id)) by {
        forall c | IsChild(ns, c, id) && c == ns[0].id && ns[0].parent != Some(id)
          ensures IsChild(ns[1..], c, id)
        {
          var i :| 0 <= i < |ns| && ns[i].id == c && ns[i].parent == Some(id);
          assert i > 0;
          assert ns[1..][i - 1] == ns[i];
        }
      }
      (if ns[0].parent == Some(id) then [ns[0].id] else []) + rest
  }

  /** A row has no children exactly when no row names it as parent. */
  lemma {:induction false} ChildrenEmpty(ns: seq<Node>, id: nat)
    ensures Children(ns, id) == [] <==> forall i :: 0 <= i < |ns| ==> ns[i].parent != Some(id)
  {
    if ns != [] {
      ChildrenEmpty(ns[1..], id);
      assert forall i :: 1 <= i < |ns| ==> ns[i] == ns[1..][i - 1];
    }
  }

  /** A node is below `id` when `id` is on its ancestor chain. */
  predicate IsDescendant(ns: seq<Node>, x: nat, id: nat)
    requires Acyclic(ns)
  {
    exists i :: 0 <= i < |ns| && ns[i].id == x && id in Ancestors(ns, ns[i].parent)
  }

  /**
   * `get_all_children()`: each child, followed at once by that child's own
   * descendants, in child order (a pre-order walk that omits the root).
   */
  function Descendants(ns: seq<Node>, id: nat): seq<nat>
    requires Acyclic(ns) && UniqueIds(ns)
    decreases |ns| - Depth(ns, id), |ns| + 1
  {
    DescendantsOf(ns, id, Children(ns, id))
  }

  function DescendantsOf(ns: seq<Node>, id: nat, cs: seq<nat>): seq<nat>
    requires Acyclic(ns) && UniqueIds(ns)
    requires forall c :: c in cs ==> IsChild(ns, c, id)
    decreases |ns| - Depth(ns, id), |cs|
  {
    if cs == [] then []
    else
      assert IsChild(ns, cs[0], id);
      var i :| 0 <= i < |ns| && ns[i].id == cs[0] && ns[i].parent == Some(id);
      ChildDepth(ns, i, id);
      [cs[0]] + Descendants(ns, cs[0]) + DescendantsOf(ns, id, cs[1..])
  }

  /** Membership in a children walk: one of the children or below one. */
  lemma {:induction false} DescendantsOfMember(ns: seq<Node>, id: nat, cs: seq<nat>, x: nat)
    requires Acyclic(ns) && UniqueIds(ns)
    requires forall c :: c in cs ==> IsChild(ns, c, id)
    ensures x in DescendantsOf(ns, id, cs) <==> exists k :: 0 <= k < |cs| && (x == cs[k] || x in Descendants(ns, cs[k]))
    decreases |cs|
  {
    if cs != [] {
      DescendantsOfMember(ns, id, cs[1..], x);
      if x in DescendantsOf(ns, id, cs[1..]) {
        var k :| 0 <= k < |cs[1..]| && (x == cs[1..][k] || x in Descendants(ns, cs[1..][k]));
        assert cs[k + 1] == cs[1..][k];
      }
      forall k | 0 < k < |cs| && (x == cs[k] || x in Descendants(ns, cs[k]))
        ensures x in DescendantsOf(ns, id, cs[1..])
      {
        assert cs[k] == cs[1..][k - 1];
      }
    }
  }

  /** Everything the walk below `id` returns is a descendant of `id`. */
  lemma {:induction false} DescendantsSound(ns: seq<Node>, id: nat, x: nat)
    requires Acyclic(ns) && UniqueIds(ns)
    requires IndexOf(ns, id).Some?
    requires x in Descendants(ns, id)
    ensures IsDescendant(ns, x, id)
    decreases |ns| - Depth(ns, id)
  {
    var cs := Children(ns, id);
    DescendantsOfMember(ns, id, cs, x);
    var k :| 0 <= k < |cs| && (x == cs[k] || x in Descendants(ns, cs[k]));
    var c := cs[k];
    assert IsChild(ns, c, id);
    var i :| 0 <= i < |ns| && ns[i].id == c && ns[i].parent == Some(id);
    ChildDepth(ns, i, id);
    AncestorsStep(ns, id, IndexOf(ns, id).value);
    if x != c {
      IndexOfUnique(ns, i);
      DescendantsSound(ns, c, x);
      var j :| 0 <= j < |ns| && ns[j].id == x && c in Ancestors(ns, ns[j].parent);
      AncestorsSuffix(ns, ns[j].parent, c);
      AncestorsStep(ns, c, i);
      var up := Ancestors(ns, ns[j].parent);
      var s :| 0 <= s < |up| && up[s..] == Ancestors(ns, Some(c));
      assert id in Ancestors(ns, Some(c));
      assert id in up;
    }
  }

  /** A child is never above its parent. */
  lemma ChildNotAbove(ns: seq<Node>, i: nat, id: nat)
    requires Acyclic(ns) && UniqueIds(ns) && i < |ns|
    requires ns[i].parent == Some(id)
    ensures ns[i].id !in Ancestors(ns, Some(id))
  {
    IndexOfUnique(ns, i);
    AncestorsStep(ns, ns[i].id, i);
    if ns[i].id in Ancestors(ns, Some(id)) {
      AncestorsSuffix(ns, Some(id), ns[i].id);
    }
  }

  /** Below a child of `id` is below `id`. */
  lemma BelowChild(ns: seq<Node>, id: nat, k: nat, y: nat)
    requires Acyclic(ns) && UniqueIds(ns)
    requires k < |Children(ns, id)|
    requires y == Children(ns, id)[k] || y in Descendants(ns, Children(ns, id)[k])
    ensures y in Descendants(ns, id)
  {
    DescendantsOfMember(ns, id, Children(ns, id), y);
  }

  /** A child of a descendant of `id` is a descendant of `id`. */
  lemma {:induction false} ChildOfDescendant(ns: seq<Node>, id: nat, p: nat, x: nat)
    requires Acyclic(ns) && UniqueIds(ns)
    requires p in Descendants(ns, id) && IsChild(ns, x, p)
    ensures x in Descendants(ns, id)
    decreases |ns| - Depth(ns, id)
  {
    var cs := Children(ns, id);
    DescendantsOfMember(ns, id, cs, p);
    var k :| 0 <= k < |cs| && (p == cs[k] || p in Descendants(ns, cs[k]));
    var c := cs[k];
    assert IsChild(ns, c, id);
    var i :| 0 <= i < |ns| && ns[i].id == c && ns[i].parent == Some(id);
    ChildDepth(ns, i, id);
    if p == c {
      var cc := Children(ns, c);
      var m :| 0 <= m < |cc| && cc[m] == x;
      BelowChild(ns, c, m, x);
    } else {
      ChildOfDescendant(ns, c, p, x);
    }
    BelowChild(ns, id, k, x);
  }

  /** Every descendant of an existing row `id` is returned by the walk. */
  lemma {:induction false} DescendantsComplete(ns: seq<Node>, id: nat, i: nat)
    requires Acyclic(ns) && UniqueIds(ns) && i < |ns|
    requires id in Ancestors(ns, ns[i].parent)
    ensures ns[i].id in Descendants(ns, id)
    decreases |Ancestors(ns, ns[i].parent)|
  {
    var pid := ns[i].parent;
    if pid.None? || IndexOf(ns, pid.value).None? {
      AncestorsEnd(ns, pid);
    } else {
      var p := pid.value;
      var k := IndexOf(ns, p).value;
      AncestorsStep(ns, p, k);
      assert IsChild(ns, ns[i].id, p);
      if p == id {
        var cs := Children(ns, id);
        var m :| 0 <= m < |cs| && cs[m] == ns[i].id;
        BelowChild(ns, id, m, ns[i].id);
      } else {
        DescendantsComplete(ns, id, k);
        ChildOfDescendant(ns, id, p, ns[i].id);
      }
    }
  }

  predicate NoDup(s: seq<nat>)
  {
    forall i, j :: 0 <= i < j < |s| ==> s[i] != s[j]
  }

  lemma NoDupConcat(a: seq<nat>, b: seq<nat>)
    requires NoDup(a) && NoDup(b)
    requires forall x :: x in a ==> x !in b
    ensures NoDup(a + b)
  {
    var s := a + b;
    forall i, j | 0 <= i < j < |s|
      ensures s[i] != s[j]
    {
      if j < |a| {
        assert s[i] == a[i] && s[j] == a[j];
      } else if i >= |a| {
        assert s[i] == b[i - |a|] && s[j] == b[j - |a|];
      } else {
        assert s[i] == a[i] && s[j] == b[j - |a|];
        assert a[i] in a;
      }
    }
  }

  lemma {:induction false} ChildrenNoDup(ns: seq<Node>, id: nat)
    requires UniqueIds(ns)
    ensures NoDup(Children(ns, id))
  {
    if ns != [] {
      assert UniqueIds(ns[1..]) by {
        forall a, b | 0 <= a < |ns[1..]| && 0 <= b < |ns[1..]| && ns[1..][a].id == ns[1..][b].id
          ensures a == b
        {
          assert ns[a + 1].id == ns[b + 1].id;
        }
      }
      ChildrenNoDup(ns[1..], id);
      var rest := Children(ns[1..], id);
      forall j | 0 <= j < |ns[1..]|
        ensures ns[1..][j].id != ns[0].id
      {
        assert ns[1..][j] == ns[j + 1];
      }
      assert !IsChild(ns[1..], ns[0].id, id);
      NoDupConcat(if ns[0].parent == Some(id) then [ns[0].id] else [], rest);
    }
  }

  /**
   * A row at or below the child `ns[i0]` of `id` has that child on its
   * ancestor chain one place before the chain of `id` begins.
   */
  lemma ChildOnChain(ns: seq<Node>, id: nat, i0: nat, y: nat)
    requires Acyclic(ns) && UniqueIds(ns) && i0 < |ns|
    requires ns[i0].parent == Some(id)
    requires y == ns[i0].id || y in Descendants(ns, ns[i0].id)
    ensures |Ancestors(ns, Some(y))| > |Ancestors(ns, Some(id))|
    ensures Ancestors(ns, Some(y))[|Ancestors(ns, Some(y))| - 1 - |Ancestors(ns, Some(id))|] == ns[i0].id
  {
    var c0 := ns[i0].id;
    IndexOfUnique(ns, i0);
    AncestorsStep(ns, c0, i0);
    if y != c0 {
      DescendantsSound(ns, c0, y);
      var a :| 0 <= a < |ns| && ns[a].id == y && c0 in Ancestors(ns, ns[a].parent);
      IndexOfUnique(ns, a);
      AncestorsStep(ns, y, a);
      AncestorsSuffix(ns, ns[a].parent, c0);
      var chain := Ancestors(ns, ns[a].parent);
      var j :| 0 <= j < |chain| && chain[j..] == Ancestors(ns, Some(c0));
      assert chain[j] == c0;
      assert Ancestors(ns, Some(y))[j + 1] == chain[j];
    }
  }

  /** The subtrees under two distinct children of one row share no row. */
  lemma SiblingsDisjoint(ns: seq<Node>, id: nat, i0: nat, ij: nat, y: nat)
    requires Acyclic(ns) && UniqueIds(ns) && i0 < |ns| && ij < |ns|
    requires ns[i0].parent == Some(id) && ns[ij].parent == Some(id)
    requires ns[i0].id != ns[ij].id
    requires y == ns[i0].id || y in Descendants(ns, ns[i0].id)
    ensures y != ns[ij].id && y !in Descendants(ns, ns[ij].id)
  {
    ChildOnChain(ns, id, i0, y);
    if y == ns[ij].id || y in Descendants(ns, ns[ij].id) {
      ChildOnChain(ns, id, ij, y);
    }
  }

  /** A row is never among its own descendants. */
  lemma NotOwnDescendant(ns: seq<Node>, id: nat)
    requires Acyclic(ns) && UniqueIds(ns)
    requires IndexOf(ns, id).Some?
    ensures id !in Descendants(ns, id)
  {
    if id in Descendants(ns, id) {
      DescendantsSound(ns, id, id);
      var j :| 0 <= j < |ns| && ns[j].id == id && id in Ancestors(ns, ns[j].parent);
      NotOwnAncestor(ns, j);
    }
  }

  lemma NoDupTail(cs: seq<nat>)
    requires NoDup(cs) && cs != []
    ensures NoDup(cs[1..]) && cs[0] !in cs[1..]
  {
    forall a, b | 0 <= a < b < |cs[1..]|
      ensures cs[1..][a] != cs[1..][b]
    {
      assert cs[1..][a] == cs[a + 1] && cs[1..][b] == cs[b + 1];
    }
    forall a | 0 <= a < |cs[1..]|
      ensures cs[1..][a] != cs[0]
    {
      assert cs[1..][a] == cs[a + 1];
    }
  }

  /** The walk over several distinct children of `id` lists no row twice. */
  lemma {:induction false} DescendantsOfNoDup(ns: seq<Node>, id: nat, cs: seq<nat>)
    requires Acyclic(ns) && UniqueIds(ns)
    requires forall c :: c in cs ==> IsChild(ns, c, id)
    requires NoDup(cs)
    ensures NoDup(DescendantsOf(ns, id, cs))
    decreases |ns| - Depth(ns, id), |cs|
  {
    if cs != [] {
      var c0 := cs[0];
      assert IsChild(ns, c0, id);
      var i0 :| 0 <= i0 < |ns| && ns[i0].id == c0 && ns[i0].parent == Some(id);
      ChildDepth(ns, i0, id);
      IndexOfUnique(ns, i0);
      var below := Descendants(ns, c0);
      var rest := DescendantsOf(ns, id, cs[1..]);
      NoDupTail(cs);
      DescendantsNoDup(ns, c0);
      DescendantsOfNoDup(ns, id, cs[1..]);
      NotOwnDescendant(ns, c0);
      NoDupConcat([c0], below);
      forall y | y in [c0] + below
        ensures y !in rest
      {
        forall k | 0 <= k < |cs[1..]|
          ensures y != cs[1..][k] && y !in Descendants(ns, cs[1..][k])
        {
          var cj := cs[1..][k];
          assert cj in cs[1..] && IsChild(ns, cj, id);
          var ij :| 0 <= ij < |ns| && ns[ij].id == cj && ns[ij].parent == Some(id);
          SiblingsDisjoint(ns, id, i0, ij, y);
        }
        DescendantsOfMember(ns, id, cs[1..], y);
      }
      NoDupConcat([c0] + below, rest);
    }
  }

  /** `get_all_children()` lists every descendant exactly once, never the row itself. */
  lemma {:induction false} DescendantsNoDup(ns: seq<Node>, id: nat)
    requires Acyclic(ns) && UniqueIds(ns)
    ensures NoDup(Descendants(ns, id))
    decreases |ns| - Depth(ns, id), |ns| + 1
  {
    ChildrenNoDup(ns, id);
    DescendantsOfNoDup(ns, id, Children(ns, id));
  }

  /** The parent recorded for the row `id`; None when no row has that id. */
  function ParentOf(ns: seq<Node>, id: nat): Option<Option<nat>>
  {
    match IndexOf(ns, id)
    case None => None
    case Some(k) => Some(ns[k].parent)
  }

  /** The ids of the table's rows. */
  function IdSet(ns: seq<Node>): (r: set<nat>)
    ensures |r| <= |ns|
    ensures forall y :: y in r <==> IndexOf(ns, y).Some?
  {
    if ns == [] then {} else {ns[0].id} + IdSet(ns[1..])
  }

  /** A finished walk takes exactly as many steps as it lists ancestors. */
  lemma {:induction false} UpExact(ns: seq<Node>, pid: Option<nat>, f: nat)
    requires Up(ns, pid, f).Some?
    ensures Up(ns, pid, |Up(ns, pid, f).value|) == Up(ns, pid, f)
    decreases f
  {
    if pid.Some? && IndexOf(ns, pid.value).Some? {
      var k := IndexOf(ns, pid.value).value;
      UpExact(ns, ns[k].parent, f - 1);
    }
  }

  /** Every tail of a finished walk is the walk from its first id. */
  lemma {:induction false} UpTail(ns: seq<Node>, pid: Option<nat>, f: nat, j: nat)
    requires Up(ns, pid, f).Some? && j < |Up(ns, pid, f).value|
    ensures Up(ns, Some(Up(ns, pid, f).value[j]), |Up(ns, pid, f).value| - j) == Some(Up(ns, pid, f).value[j..])
    decreases f
  {
    var c := Up(ns, pid, f).value;
    assert pid.Some? && IndexOf(ns, pid.value).Some?;
    var k := IndexOf(ns, pid.value).value;
    if j == 0 {
      UpExact(ns, pid, f);
      assert c[0..] == c;
    } else {
      var rest := Up(ns, ns[k].parent, f - 1).value;
      UpTail(ns, ns[k].parent, f - 1, j - 1);
      assert c[j..] == rest[j - 1..];
    }
  }

  /** A finished walk never repeats an id and visits only existing rows. */
  lemma {:induction false} UpNoDup(ns: seq<Node>, pid: Option<nat>, f: nat)
    requires Up(ns, pid, f).Some?
    ensures NoDup(Up(ns, pid, f).value)
    ensures forall y :: y in Up(ns, pid, f).value ==> IndexOf(ns, y).Some?
    decreases f
  {
    if pid.Some? && IndexOf(ns, pid.value).Some? {
      var k := IndexOf(ns, pid.value).value;
      var c := Up(ns, pid, f).value;
      var rest := Up(ns, ns[k].parent, f - 1).value;
      UpNoDup(ns, ns[k].parent, f - 1);
      if pid.value in rest {
        var j :| 0 <= j < |rest| && rest[j] == pid.value;
        assert c[j + 1] == pid.value;
        UpTail(ns, pid, f, j + 1);
        UpExact(ns, pid, f);
        UpMono(ns, pid, |c| - (j + 1), |c|);
      }
      NoDupConcat([pid.value], rest);
    }
  }

  /** A repetition-free list drawn from `ids` is no longer than `ids`. */
  lemma {:induction false} NoDupWithin(c: seq<nat>, ids: set<nat>)
    requires NoDup(c)
    requires forall y :: y in c ==> y in ids
    ensures |c| <= |ids|
  {
    if c != [] {
      NoDupTail(c);
      NoDupWithin(c[1..], ids - {c[0]});
    }
  }

  /** A walk that finishes at all finishes within |ns| steps. */
  lemma Finish(ns: seq<Node>, pid: Option<nat>, f: nat)
    requires Up(ns, pid, f).Some?
    ensures Up(ns, pid, |ns|) == Up(ns, pid, f)
  {
    var c := Up(ns, pid, f).value;
    UpNoDup(ns, pid, f);
    NoDupWithin(c, IdSet(ns));
    UpExact(ns, pid, f);
    UpMono(ns, pid, |c|, |ns|);
  }

  /** Every id on a chain is the start of the walk or the parent of some row. */
  lemma {:induction false} OnChain(ns: seq<Node>, pid: Option<nat>, y: nat)
    requires Acyclic(ns)
    requires y in Ancestors(ns, pid)
    ensures pid == Some(y) || exists i :: 0 <= i < |ns| && ns[i].parent == Some(y)
    decreases |Ancestors(ns, pid)|
  {
    if pid.None? || IndexOf(ns, pid.value).None? {
      AncestorsEnd(ns, pid);
    } else {
      var k := IndexOf(ns, pid.value).value;
      AncestorsStep(ns, pid.value, k);
      if y != pid.value {
        OnChain(ns, ns[k].parent, y);
      }
    }
  }

  /**
   * Two tables that record the same parent for every id but `x` walk the
   * same way from any start whose chain avoids `x`.
   */
  lemma {:induction false} UpAgree(ns: seq<Node>, ns2: seq<Node>, x: nat, pid: Option<nat>)
    requires Acyclic(ns)
    requires forall y :: y != x ==> ParentOf(ns2, y) == ParentOf(ns, y)
    requires x !in Ancestors(ns, pid)
    requires IndexOf(ns, x).Some? || (pid != Some(x) && forall i :: 0 <= i < |ns| ==> ns[i].parent != Some(x))
    ensures Up(ns2, pid, |Ancestors(ns, pid)|) == Some(Ancestors(ns, pid))
    decreases |Ancestors(ns, pid)|
  {
    if pid.Some? {
      if IndexOf(ns, pid.value).None? {
        AncestorsEnd(ns, pid);
        assert ParentOf(ns2, pid.value) == None;
      } else {
        var k := IndexOf(ns, pid.value).value;
        AncestorsStep(ns, pid.value, k);
        assert ParentOf(ns2, pid.value) == Some(ns[k].parent);
        UpAgree(ns, ns2, x, ns[k].parent);
      }
    }
  }

  /** A walk finishes from a row when it finishes from the row's parent with one step less. */
  lemma UpStep(ns: seq<Node>, y: nat, k: nat, g: nat)
    requires IndexOf(ns, y) == Some(k) && Up(ns, ns[k].parent, g).Some?
    ensures Up(ns, Some(y), g + 1).Some?
  {
  }

  /** One id looked up in tables with the same ids position by position. */
  lemma SameIdsAt(ns: seq<Node>, ns2: seq<Node>, y: nat)
    requires |ns| == |ns2|
    requires forall i :: 0 <= i < |ns| ==> ns2[i].id == ns[i].id
    ensures IndexOf(ns2, y) == IndexOf(ns, y)
  {
    SameIds(ns, ns2);
  }

  /** Tables with the same ids position by position look ids up alike. */
  lemma {:induction false} SameIds(ns: seq<Node>, ns2: seq<Node>)
    requires |ns| == |ns2|
    requires forall i :: 0 <= i < |ns| ==> ns2[i].id == ns[i].id
    ensures forall y :: IndexOf(ns2, y) == IndexOf(ns, y)
    ensures UniqueIds(ns) ==> UniqueIds(ns2)
  {
    if ns != [] {
      SameIds(ns[1..], ns2[1..]);
    }
  }

  /** The table with row `m` moved under `np`. */
  function Reparent(ns: seq<Node>, m: nat, np: Option<nat>): (r: seq<Node>)
    requires m < |ns|
    ensures |r| == |ns| && r[m] == Node(ns[m].id, np)
    ensures forall i :: 0 <= i < |ns| && i != m ==> r[i] == ns[i]
  {
    ns[m := Node(ns[m].id, np)]
  }

  /** The walk from the moved row itself: one step to the new parent, then the new parent's old chain. */
  lemma ReparentAtRow(ns: seq<Node>, m: nat, np: Option<nat>)
    requires Acyclic(ns) && UniqueIds(ns) && m < |ns|
    requires ns[m].id !in Ancestors(ns, np)
    ensures Up(Reparent(ns, m, np), Some(ns[m].id), |Ancestors(ns, np)| + 1).Some?
  {
    var ns2 := Reparent(ns, m, np);
    var x := ns[m].id;
    SameIds(ns, ns2);
    forall y | y != x
      ensures ParentOf(ns2, y) == ParentOf(ns, y)
    {
    }
    UpAgree(ns, ns2, x, np);
    assert IndexOf(ns2, x) == Some(m);
  }

  /** After reparenting, every upward walk still finishes. */
  lemma {:induction false} ReparentWalk(ns: seq<Node>, m: nat, np: Option<nat>, pid: Option<nat>) returns (f: nat)
    requires Acyclic(ns) && UniqueIds(ns) && m < |ns|
    requires ns[m].id !in Ancestors(ns, np)
    ensures Up(Reparent(ns, m, np), pid, f).Some?
    decreases |Ancestors(ns, pid)|, 1
  {
    var ns2 := Reparent(ns, m, np);
    if pid.None? {
      f := 0;
    } else {
      SameIdsAt(ns, ns2, pid.value);
      if IndexOf(ns, pid.value).None? {
        f := 0;
      } else {
        var k := IndexOf(ns, pid.value).value;
        if k == m {
          ReparentAtRow(ns, m, np);
          f := |Ancestors(ns, np)| + 1;
        } else {
          f := ReparentWalkAbove(ns, m, np, pid.value, k);
        }
      }
    }
  }

  /** The walk from a row other than the moved one: one unchanged step, then the walk from its parent. */
  lemma {:induction false} ReparentWalkAbove(ns: seq<Node>, m: nat, np: Option<nat>, y: nat, k: nat) returns (f: nat)
    requires Acyclic(ns) && UniqueIds(ns) && m < |ns|
    requires ns[m].id !in Ancestors(ns, np)
    requires IndexOf(ns, y) == Some(k) && k != m
    ensures Up(Reparent(ns, m, np), Some(y), f).Some?
    decreases |Ancestors(ns, Some(y))|, 0
  {
    AncestorsStep(ns, y, k);
    assert |Ancestors(ns, ns[k].parent)| < |Ancestors(ns, Some(y))|;
    var g := ReparentWalk(ns, m, np, ns[k].parent);
    ReparentStep(ns, m, np, y, k, g);
    f := g + 1;
  }

  /** A row other than the moved one keeps its step up after reparenting. */
  lemma ReparentStep(ns: seq<Node>, m: nat, np: Option<nat>, y: nat, k: nat, g: nat)
    requires m < |ns| && IndexOf(ns, y) == Some(k) && k != m
    requires Up(Reparent(ns, m, np), ns[k].parent, g).Some?
    ensures Up(Reparent(ns, m, np), Some(y), g + 1).Some?
  {
    var ns2 := Reparent(ns, m, np);
    SameIdsAt(ns, ns2, y);
    UpStep(ns2, y, k, g);
  }

  /**
   * Moving a row under a new parent whose chain does not contain the row
   * (or making it a root) keeps the table acyclic.
   */
  lemma ReparentAcyclic(ns: seq<Node>, m: nat, np: Option<nat>)
    requires Acyclic(ns) && UniqueIds(ns) && m < |ns|
    requires ns[m].id !in Ancestors(ns, np)
    ensures Acyclic(Reparent(ns, m, np)) && UniqueIds(Reparent(ns, m, np))
  {
    var ns2 := Reparent(ns, m, np);
    SameIds(ns, ns2);
    forall i | 0 <= i < |ns2|
      ensures Up(ns2, Some(ns2[i].id), |ns2|).Some?
    {
      var f := ReparentWalk(ns, m, np, Some(ns2[i].id));
      Finish(ns2, Some(ns2[i].id), f);
    }
  }

  /** Looking an id up after appending a row. */
  lemma {:induction false} IndexOfAppend(ns: seq<Node>, n: Node, y: nat)
    ensures IndexOf(ns + [n], y) ==
      (if IndexOf(ns, y).Some? then IndexOf(ns, y) else if y == n.id then Some(|ns|) else None)
  {
    if ns != [] {
      assert (ns + [n])[1..] == ns[1..] + [n];
      IndexOfAppend(ns[1..], n, y);
    }
  }

  /** After appending a fresh row, the walk from any start other than it still finishes. */
  lemma AppendWalk(ns: seq<Node>, n: Node, pid: Option<nat>)
    requires Acyclic(ns)
    requires IndexOf(ns, n.id).None?
    requires forall i :: 0 <= i < |ns| ==> ns[i].parent != Some(n.id)
    requires pid != Some(n.id)
    ensures Up(ns + [n], pid, |Ancestors(ns, pid)|) == Some(Ancestors(ns, pid))
  {
    forall y | y != n.id
      ensures ParentOf(ns + [n], y) == ParentOf(ns, y)
    {
      IndexOfAppend(ns, n, y);
    }
    AcyclicAll(ns, pid);
    UpNoDup(ns, pid, |ns|);
    UpAgree(ns, ns + [n], n.id, pid);
  }

  /**
   * Appending a row with a fresh id that no row names as its parent keeps
   * the table acyclic.
   */
  lemma AppendAcyclic(ns: seq<Node>, n: Node)
    requires Acyclic(ns) && UniqueIds(ns)
    requires IndexOf(ns, n.id).None?
    requires forall i :: 0 <= i < |ns| ==> ns[i].parent != Some(n.id)
    requires n.parent != Some(n.id)
    ensures Acyclic(ns + [n]) && UniqueIds(ns + [n])
  {
    var ns2 := ns + [n];
    forall i | 0 <= i < |ns2|
      ensures Up(ns2, Some(ns2[i].id), |ns2|).Some?
    {
      if i < |ns| {
        AppendWalkOld(ns, n, i);
      } else {
        AppendWalkNew(ns, n);
      }
    }
  }

  /** After appending, the walk from an old row is the walk it had. */
  lemma AppendWalkOld(ns: seq<Node>, n: Node, i: nat)
    requires Acyclic(ns) && i < |ns|
    requires IndexOf(ns, n.id).None?
    requires forall i :: 0 <= i < |ns| ==> ns[i].parent != Some(n.id)
    ensures Up(ns + [n], Some(ns[i].id), |ns + [n]|).Some?
  {
    AppendWalk(ns, n, Some(ns[i].id));
    Finish(ns + [n], Some(ns[i].id), |Ancestors(ns, Some(ns[i].id))|);
  }

  /** After appending, the walk from the new row is one step to its parent, then the parent's walk. */
  lemma AppendWalkNew(ns: seq<Node>, n: Node)
    requires Acyclic(ns)
    requires IndexOf(ns, n.id).None?
    requires forall i :: 0 <= i < |ns| ==> ns[i].parent != Some(n.id)
    requires n.parent != Some(n.id)
    ensures Up(ns + [n], Some(n.id), |ns + [n]|).Some?
  {
    var ns2 := ns + [n];
    AppendWalk(ns, n, n.parent);
    IndexOfAppend(ns, n, n.id);
    UpStep(ns2, n.id, |ns|, |Ancestors(ns, n.parent)|);
    Finish(ns2, Some(n.id), |Ancestors(ns, n.parent)| + 1);
  }


  /** The table without row `m`. */
  function Without(ns: seq<Node>, m: nat): (r: seq<Node>)
    requires m < |ns|
    ensures |r| == |ns| - 1
    ensures forall i :: 0 <= i < |r| ==> r[i] == (if i < m then ns[i] else ns[i + 1])
  {
    ns[..m] + ns[m + 1..]
  }

  lemma WithoutLookup(ns: seq<Node>, m: nat, y: nat)
    requires UniqueIds(ns) && m < |ns| && y != ns[m].id
    ensures UniqueIds(Without(ns, m))
    ensures ParentOf(Without(ns, m), y) == ParentOf(ns, y)
  {
    var ns2 := Without(ns, m);
    assert UniqueIds(ns2) by {
      forall a, b | 0 <= a < |ns2| && 0 <= b < |ns2| && ns2[a].id == ns2[b].id
        ensures a == b
      {
        var a', b' := if a < m then a else a + 1, if b < m then b else b + 1;
        assert ns[a'].id == ns[b'].id;
      }
    }
    match IndexOf(ns, y)
    case None =>
      forall i | 0 <= i < |ns2|
        ensures ns2[i].id != y
      {
        assert ns2[i] == ns[if i < m then i else i + 1];
      }
    case Some(j) =>
      var j' := if j < m then j else j - 1;
      assert ns2[j'] == ns[j];
      IndexOfUnique(ns2, j');
  }

  /** Removing a row that is nobody's parent keeps the table acyclic. */
  lemma WithoutLeafAcyclic(ns: seq<Node>, m: nat)
    requires Acyclic(ns) && UniqueIds(ns) && m < |ns|
    requires forall i :: 0 <= i < |ns| ==> ns[i].parent != Some(ns[m].id)
    ensures Acyclic(Without(ns, m)) && UniqueIds(Without(ns, m))
  {
    var ns2 := Without(ns, m);
    var x := ns[m].id;
    forall y | y != x
      ensures ParentOf(ns2, y) == ParentOf(ns, y)
    {
      WithoutLookup(ns, m, y);
    }
    if |ns| > 1 {
      WithoutLookup(ns, m, if m == 0 then ns[1].id else ns[0].id);
    }
    forall i | 0 <= i < |ns2|
      ensures Up(ns2, Some(ns2[i].id), |ns2|).Some?
    {
      var i' := if i < m then i else i + 1;
      assert ns2[i] == ns[i'];
      var pid := Some(ns[i'].id);
      if x in Ancestors(ns, pid) {
        OnChain(ns, pid, x);
      }
      UpAgree(ns, ns2, x, pid);
      Finish(ns2, pid, |Ancestors(ns, pid)|);
    }
  }
}
