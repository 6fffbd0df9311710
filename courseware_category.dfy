/**
 * The `CoursewareCategory` model (backend/app/models/courseware_category.py):
 * a self-referential table of categories walked upwards for the full path
 * text, downwards for all sub-categories, the delete guard (no
 * sub-category and no courseware item) and the active flag.
 */
module Categories {
  import opened Wrappers
  import Forest
  import Text
  import Coursewares

  /** The columns of a category that its methods read. */
  datatype Category = Category(id: nat, name: string, description: Option<string>,
                               parent: Option<nat>, sortOrder: int, isActive: bool)

  /** The parent links of the table, position by position. */
  function CategoryNodes(cs: seq<Category>): (ns: seq<Forest.Node>)
    ensures |ns| == |cs|
    ensures forall i :: 0 <= i < |cs| ==> ns[i] == Forest.Node(cs[i].id, cs[i].parent)
  {
    seq(|cs|, i requires 0 <= i < |cs| => Forest.Node(cs[i].id, cs[i].parent))
  }

  /** Ids are primary keys and no category is its own ancestor. */
  predicate CategoryTree(cs: seq<Category>)
  {
    Forest.UniqueIds(CategoryNodes(cs)) && Forest.Acyclic(CategoryNodes(cs))
  }

  /** The separator of the full path text. */
  const PathSeparator: string := " > "

  /**
   * The names of the categories above a category whose parent is `pid`,
   * the root first and the direct parent last; a missing or dangling parent
   * ends the walk, as `self.parent` is then None.
   */
  function PathNames(cs: seq<Category>, pid: Option<nat>): (r: seq<string>)
    requires CategoryTree(cs)
    ensures |r| == |Forest.Ancestors(CategoryNodes(cs), pid)|
    decreases |Forest.Ancestors(CategoryNodes(cs), pid)|
  {
    var ns := CategoryNodes(cs);
    if pid.None? || Forest.IndexOf(ns, pid.value).None? then
      Forest.AncestorsEnd(ns, pid);
      []
    else
      var k := Forest.IndexOf(ns, pid.value).value;
      Forest.AncestorsStep(ns, pid.value, k);
      PathNames(cs, cs[k].parent) + [cs[k].name]
  }

  /** The names `get_full_path` joins for the category at position `k`: its ancestors', then its own. */
  function FullPathNames(cs: seq<Category>, k: nat): (r: seq<string>)
    requires CategoryTree(cs) && k < |cs|
    ensures |r| == 1 + |Forest.Ancestors(CategoryNodes(cs), cs[k].parent)|
    ensures r[|r| - 1] == cs[k].name
  {
    PathNames(cs, cs[k].parent) + [cs[k].name]
  }

  /**
   * `get_full_path` for the category at position `k`: the list starts as
   * the category's own name, and each parent met on the way up is put in
   * front of it; the names are joined with ' > '.
   */
  method GetFullPath(cs: seq<Category>, k: nat) returns (text: string)
    requires CategoryTree(cs) && k < |cs|
    ensures text == Text.JoinWith(FullPathNames(cs, k), PathSeparator)
  {
    var ns := CategoryNodes(cs);
    var path := [cs[k].name];
    var cur := cs[k].parent;
    while cur.Some? && Forest.IndexOf(ns, cur.value).Some?
      invariant WalkSoFar(cs, k, cur, path)
      decreases |Forest.Ancestors(ns, cur)|
    {
      var j := Forest.IndexOf(ns, cur.value).value;
      WalkStep(cs, k, cur.value, j, path);
      path := [cs[j].name] + path;
      cur := cs[j].parent;
    }
    WalkDone(cs, k, cur, path);
    text := Text.JoinWith(path, PathSeparator);
  }

  /** The walk of `get_full_path` so far: the names still to come, then the list built. */
  ghost predicate WalkSoFar(cs: seq<Category>, k: nat, cur: Option<nat>, path: seq<string>)
  {
    CategoryTree(cs) && k < |cs| && PathNames(cs, cur) + path == FullPathNames(cs, k)
  }

  /** One step of the walk: the parent's name goes in front, and the chain above shrinks. */
  lemma WalkStep(cs: seq<Category>, k: nat, p: nat, j: nat, path: seq<string>)
    requires WalkSoFar(cs, k, Some(p), path) && Forest.IndexOf(CategoryNodes(cs), p) == Some(j)
    ensures WalkSoFar(cs, k, cs[j].parent, [cs[j].name] + path)
    ensures |Forest.Ancestors(CategoryNodes(cs), cs[j].parent)| < |Forest.Ancestors(CategoryNodes(cs), Some(p))|
  {
    var above := PathNames(cs, cs[j].parent);
    assert PathNames(cs, Some(p)) == above + [cs[j].name];
    Regroup(above, [cs[j].name], path);
  }

  lemma Regroup(a: seq<string>, b: seq<string>, c: seq<string>)
    ensures (a + b) + c == a + (b + c)
  {
  }

  /** The walk ends at a missing or dangling parent, with every name collected. */
  lemma WalkDone(cs: seq<Category>, k: nat, cur: Option<nat>, path: seq<string>)
    requires WalkSoFar(cs, k, cur, path)
    requires cur.None? || Forest.IndexOf(CategoryNodes(cs), cur.value).None?
    ensures path == FullPathNames(cs, k)
  {
    assert PathNames(cs, cur) == [];
  }

  /** The full path text of a category, as `get_full_path` returns it. */
  function FullPath(cs: seq<Category>, k: nat): string
    requires CategoryTree(cs) && k < |cs|
  {
    Text.JoinWith(FullPathNames(cs, k), PathSeparator)
  }

  /** A category without a (known) parent is shown by its own name alone. */
  lemma FullPathOfRoot(cs: seq<Category>, k: nat)
    requires CategoryTree(cs) && k < |cs|
    requires cs[k].parent.None? || Forest.IndexOf(CategoryNodes(cs), cs[k].parent.value).None?
    ensures FullPath(cs, k) == cs[k].name
  {
    assert PathNames(cs, cs[k].parent) == [];
  }

  /** A sub-category's full path is its parent's full path, the separator and its own name. */
  lemma FullPathOfChild(cs: seq<Category>, i: nat, j: nat)
    requires CategoryTree(cs) && i < |cs| && j < |cs|
    requires cs[i].parent == Some(cs[j].id)
    ensures FullPath(cs, i) == FullPath(cs, j) + PathSeparator + cs[i].name
  {
    var ns := CategoryNodes(cs);
    Forest.IndexOfUnique(ns, j);
    assert PathNames(cs, cs[i].parent) == FullPathNames(cs, j);
    Text.JoinWithSnoc(FullPathNames(cs, j), cs[i].name, PathSeparator);
  }

  /**
   * `get_all_children` for the category with id `id`: each sub-category
   * followed by its own sub-categories, every descendant once, never the
   * category itself.
   */
  function AllChildren(cs: seq<Category>, id: nat): (r: seq<nat>)
    requires CategoryTree(cs)
    ensures Forest.NoDup(r)
    ensures Forest.IndexOf(CategoryNodes(cs), id).Some? ==> id !in r
  {
    var ns := CategoryNodes(cs);
    Forest.DescendantsNoDup(ns, id);
    if Forest.IndexOf(ns, id).Some? then
      Forest.NotOwnDescendant(ns, id);
      Forest.Descendants(ns, id)
    else Forest.Descendants(ns, id)
  }

  /** A category is among the sub-categories exactly when the other category is on its chain of parents. */
  lemma AllChildrenExact(cs: seq<Category>, id: nat, i: nat)
    requires CategoryTree(cs) && Forest.IndexOf(CategoryNodes(cs), id).Some? && i < |cs|
    ensures cs[i].id in AllChildren(cs, id) <==> id in Forest.Ancestors(CategoryNodes(cs), cs[i].parent)
  {
    var ns := CategoryNodes(cs);
    if cs[i].id in AllChildren(cs, id) {
      Forest.DescendantsSound(ns, id, cs[i].id);
      var j :| 0 <= j < |ns| && ns[j].id == cs[i].id && id in Forest.Ancestors(ns, ns[j].parent);
      assert ns[j].id == ns[i].id;
    }
    if id in Forest.Ancestors(ns, cs[i].parent) {
      Forest.DescendantsComplete(ns, id, i);
    }
  }

  /**
   * `can_delete`: no category has this one as parent and no courseware
   * item belongs to it.
   */
  function CanDelete(cs: seq<Category>, items: map<nat, Coursewares.Item>, id: nat): (b: bool)
    ensures b <==> (forall i :: 0 <= i < |cs| ==> cs[i].parent != Some(id))
                   && (forall k :: k in items ==> items[k].categoryId != Some(id))
  {
    var ns := CategoryNodes(cs);
    var kids := Forest.Children(ns, id);
    assert kids != [] ==> kids[0] in kids;
    assert forall i :: 0 <= i < |cs| && cs[i].parent == Some(id) ==> Forest.IsChild(ns, ns[i].id, id);
    |kids| == 0 && forall k :: k in items ==> items[k].categoryId != Some(id)
  }

  /** A category that may be deleted has no sub-categories at any depth. */
  lemma CanDeleteIsLeaf(cs: seq<Category>, items: map<nat, Coursewares.Item>, id: nat)
    requires CategoryTree(cs) && CanDelete(cs, items, id)
    ensures AllChildren(cs, id) == []
  {
    var ns := CategoryNodes(cs);
    Forest.ChildrenEmpty(ns, id);
    assert AllChildren(cs, id) == Forest.DescendantsOf(ns, id, []);
  }

  /** Removing a category that may be deleted leaves a table whose ids are unique and which has no cycle. */
  lemma DeleteKeepsTree(cs: seq<Category>, items: map<nat, Coursewares.Item>, m: nat)
    requires CategoryTree(cs) && m < |cs| && CanDelete(cs, items, cs[m].id)
    ensures CategoryTree(cs[..m] + cs[m + 1..])
  {
    var ns := CategoryNodes(cs);
    Forest.WithoutLeafAcyclic(ns, m);
    assert CategoryNodes(cs[..m] + cs[m + 1..]) == Forest.Without(ns, m);
  }

  /** A `courseware_categories` row. */
  class CategoryRow {
    const id: nat
    var name: string
    var description: Option<string>
    var parent: Option<nat>
    var sortOrder: int
    var isActive: bool

    /** The row's columns as a value. */
    function Info(): Category
      reads this
    {
      Category(id, name, description, parent, sortOrder, isActive)
    }

    /** A new row with the given columns. */
    constructor (init: Category)
      ensures Info() == init
    {
      id := init.id;
      name := init.name;
      description := init.description;
      parent := init.parent;
      sortOrder := init.sortOrder;
      isActive := init.isActive;
    }

    /** `activate`. */
    method Activate()
      modifies this
      ensures Info() == old(Info()).(isActive := true)
    {
      isActive := true;
    }

    /** `deactivate`. */
    method Deactivate()
      modifies this
      ensures Info() == old(Info()).(isActive := false)
    {
      isActive := false;
    }
  }
}
