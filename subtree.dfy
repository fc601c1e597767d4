/**
 * What the walks of a well-formed hierarchy yield: Descendants yields the
 * source first and then every item below it, each exactly once, where
 * "below" means that the source is among the item's Ancestors; GetPages is
 * that walk filtered to pages; GetAllPages yields the pages below the source
 * exactly once as well, though in another order.
 */
module Subtree {
  import opened Base
  import opened Hierarchy
  import opened Traversal
  import opened WalkFacts
  import opened Axes

  /**
   * The shape of a hierarchy the parsers build: every child is a known item
   * allocated after its container, holds the container as its Parent and is
   * of the kind its list holds; no list names an item twice; and every item
   * with a Parent is among that Parent's Children.
   */
  ghost predicate Tree(a: Arena) {
    ArenaValid(a) && ParentsAcyclic(a) &&
    (forall r | r in a.items :: ChildrenLinked(a, r)) &&
    (forall r | r in a.items :: NoDup(a.items[r].Children())) &&
    (forall x | x in a.items && a.items[x].Parent().Some? :: x in a.items[a.items[x].Parent().value].Children())
  }

  function IsPageIn(a: Arena, x: Ref): bool {
    x in a.items && a.items[x].body.Page?
  }

  /** The `i is Page` test GetPages passes to Traverse. */
  function IsPage(a: Arena): Ref -> bool {
    (x: Ref) => IsPageIn(a, x)
  }

  // ---------------------------------------------------------------------
  // Children and Parent.

  /** A child's Parent is the item whose Children hold it, and its kind matches its list. */
  lemma ChildParent(a: Arena, p: Ref, k: nat)
    requires p in a.items && ChildrenLinked(a, p) && k < |a.items[p].Children()|
    ensures var x := a.items[p].Children()[k];
      x in a.items && a.items[x].Parent() == Some(p) && p < x &&
      (a.items[x].body.Page? <==> a.items[p].body.Section?)
  {
    var l := LinksOf(a.items[p].body);
    var x := a.items[p].Children()[k];
    if k < |l.sections| {
      assert x == l.sections[k] && LinkedTo(a, x, SectionKind, p);
    } else if k < |l.sections| + |l.sectionGroups| {
      assert x == l.sectionGroups[k - |l.sections|] && LinkedTo(a, x, SectionGroupKind, p);
    } else {
      assert x == l.pages[k - |l.sections| - |l.sectionGroups|] && LinkedTo(a, x, PageKind, p);
    }
  }

  /** An item with a Parent sits at some position of that Parent's Children. */
  lemma ParentChild(a: Arena, x: Ref) returns (k: nat)
    requires Tree(a) && x in a.items && a.items[x].Parent().Some?
    ensures var p := a.items[x].Parent().value;
      p in a.items && k < |a.items[p].Children()| && a.items[p].Children()[k] == x
  {
    var p := a.items[x].Parent().value;
    k :| 0 <= k < |a.items[p].Children()| && a.items[p].Children()[k] == x;
  }

  /** Being among an item's Children is the same as having it as Parent. */
  lemma ChildrenAreParented(a: Arena, p: Ref, x: Ref)
    requires Tree(a) && p in a.items
    ensures x in a.items[p].Children() <==> x in a.items && a.items[x].Parent() == Some(p)
  {
    if x in a.items[p].Children() {
      var k :| 0 <= k < |a.items[p].Children()| && a.items[p].Children()[k] == x;
      ChildParent(a, p, k);
    }
  }

  lemma ChildForest(a: Arena)
    requires Tree(a)
    ensures Shape(ChildMapOf(a), None, a.next) && Forest(ChildMapOf(a))
  {
    ArenaShape(a);
    var g := ChildMapOf(a);
    forall r1, r2, i, j | r1 in g && r2 in g && 0 <= i < |g[r1]| && 0 <= j < |g[r2]| && g[r1][i] == g[r2][j]
      ensures r1 == r2 && i == j
    {
      ChildParent(a, r1, i);
      ChildParent(a, r2, j);
      assert NoDup(a.items[r1].Children());
    }
  }

  // ---------------------------------------------------------------------
  // Descendants.

  /** Descendants yields the source first. */
  lemma PreOrderStartsAtSource(a: Arena, r: Ref)
    requires ArenaValid(a) && r in a.items
    ensures PreOrder(a, r) != [] && PreOrder(a, r)[0] == r
  {
    ArenaShape(a);
    NodesStart(ChildMapOf(a), a.next, r);
  }

  /** Descendants yields every item at most once. */
  lemma PreOrderExactlyOnce(a: Arena, r: Ref)
    requires Tree(a) && r in a.items
    ensures NoDup(PreOrder(a, r))
  {
    ChildForest(a);
    NodesNoDup(ChildMapOf(a), a.next, r);
  }

  /** An item Descendants yields, other than the source, has the source among its Ancestors. */
  lemma {:induction false} BelowHasAncestor(a: Arena, r: Ref, x: Ref)
    requires Tree(a) && r in a.items && x in PreOrder(a, r)
    ensures x in a.items && (x != r ==> r in AncestorsOf(a, x))
    decreases x
  {
    ArenaShape(a);
    var g, n := ChildMapOf(a), a.next;
    NodesAbove(g, n, r, x);
    if x != r {
      var p, k := Pusher(g, n, r, x);
      ChildParent(a, p, k);
      assert AncestorsOf(a, x) == [p] + AncestorsOf(a, p);
      if p != r {
        BelowHasAncestor(a, r, p);
      }
    }
  }

  /** Conversely, Descendants of any Ancestor of an item yields the item. */
  lemma {:induction false} AncestorHasBelow(a: Arena, r: Ref, x: Ref)
    requires Tree(a) && r in a.items && x in a.items && r in AncestorsOf(a, x)
    ensures x in PreOrder(a, r)
    decreases x
  {
    ArenaShape(a);
    var g, n := ChildMapOf(a), a.next;
    var k := ParentChild(a, x);
    var p := a.items[x].Parent().value;
    assert AncestorsOf(a, x) == [p] + AncestorsOf(a, p);
    if p != r {
      AncestorHasBelow(a, r, p);
    } else {
      NodesStart(g, n, r);
    }
    NodesDescend(g, n, r, p, k);
  }

  /**
   * Descendants(source) yields exactly the source and the items that have
   * the source among their Ancestors.
   */
  lemma PreOrderMembers(a: Arena, r: Ref, x: Ref)
    requires Tree(a) && r in a.items
    ensures x in PreOrder(a, r) <==> x in a.items && (x == r || r in AncestorsOf(a, x))
  {
    if x in PreOrder(a, r) {
      BelowHasAncestor(a, r, x);
    }
    if x == r {
      PreOrderStartsAtSource(a, r);
    } else if x in a.items && r in AncestorsOf(a, x) {
      AncestorHasBelow(a, r, x);
    }
  }

  /**
   * GetPages(source): the Traverse walk filtered by `i is Page`, so the
   * pages of the subtree, each once, and a page source yields itself.
   */
  method GetPages(a: Arena, source: Ref) returns (out: seq<Ref>)
    requires ArenaValid(a) && source in a.items
    ensures out == Select(PreOrder(a, source), Some(IsPage(a)))
  {
    out := Descendants(a, source, Some(IsPage(a)));
  }

  /** GetPages yields exactly the source, if a page, and the pages that have the source among their Ancestors. */
  lemma GetPagesMembers(a: Arena, r: Ref, x: Ref)
    requires Tree(a) && r in a.items
    ensures x in Select(PreOrder(a, r), Some(IsPage(a))) <==>
      IsPageIn(a, x) && (x == r || r in AncestorsOf(a, x))
  {
    SelectMembers(PreOrder(a, r), Some(IsPage(a)), x);
    PreOrderMembers(a, r, x);
  }

  /** GetPages on a page yields just that page. */
  lemma GetPagesOfPage(a: Arena, r: Ref)
    requires ArenaValid(a) && IsPageIn(a, r)
    ensures Select(PreOrder(a, r), Some(IsPage(a))) == [r]
  {
    ArenaShape(a);
    assert a.items[r].Children() == [];
    assert PreOrder(a, r) == [r] + WalkStack(ChildMapOf(a), None, a.next, [], r);
    SelectOne(r, Some(IsPage(a)));
  }

  // ---------------------------------------------------------------------
  // GetAllPages.

  /** What GetAllPages pushes for an item is its Children, unless it is a section. */
  lemma PagePushAt(a: Arena, r: Ref, i: nat)
    requires r in a.items && i < |PagePush(a)[r]|
    ensures !a.items[r].body.Section? && i < |a.items[r].Children()| && PagePush(a)[r][i] == a.items[r].Children()[i]
  {
  }

  /** What GetAllPages yields for an item is its Children when it is a section, nothing otherwise. */
  lemma PageEmitAt(a: Arena, r: Ref, i: nat)
    requires r in a.items && i < |PageEmit(a)[r]|
    ensures a.items[r].body.Section? && i < |a.items[r].Children()| && PageEmit(a)[r][i] == a.items[r].Children()[i]
  {
  }

  /** A section yields all its Children. */
  lemma SectionEmitsChildren(a: Arena, r: Ref)
    requires r in a.items && a.items[r].body.Section?
    ensures PageEmit(a)[r] == a.items[r].Children()
  {
  }

  lemma PagePushForest(a: Arena)
    requires Tree(a)
    ensures Shape(PagePush(a), None, a.next) && Forest(PagePush(a))
  {
    ArenaShape(a);
    var g := PagePush(a);
    forall r1, r2, i, j | r1 in g && r2 in g && 0 <= i < |g[r1]| && 0 <= j < |g[r2]| && g[r1][i] == g[r2][j]
      ensures r1 == r2 && i == j
    {
      PagePushAt(a, r1, i);
      PagePushAt(a, r2, j);
      ChildParent(a, r1, i);
      ChildParent(a, r2, j);
      assert NoDup(a.items[r1].Children());
    }
  }

  lemma PageEmitForest(a: Arena)
    requires Tree(a)
    ensures Forest(PageEmit(a))
  {
    var e := PageEmit(a);
    forall r1, r2, i, j | r1 in e && r2 in e && 0 <= i < |e[r1]| && 0 <= j < |e[r2]| && e[r1][i] == e[r2][j]
      ensures r1 == r2 && i == j
    {
      PageEmitAt(a, r1, i);
      PageEmitAt(a, r2, j);
      ChildParent(a, r1, i);
      ChildParent(a, r2, j);
      assert NoDup(a.items[r1].Children());
    }
  }

  /** Every strict Ancestor of a section or section group is a notebook or section group. */
  lemma ParentOfNonPage(a: Arena, x: Ref) returns (k: nat)
    requires Tree(a) && x in a.items && !a.items[x].body.Page? && a.items[x].Parent().Some?
    ensures var p := a.items[x].Parent().value;
      p in a.items && a.items[p].IsContainer() && k < |a.items[p].Children()| && a.items[p].Children()[k] == x
  {
    k := ParentChild(a, x);
    var p := a.items[x].Parent().value;
    ChildParent(a, p, k);
    assert !a.items[p].body.Page?;
  }

  /** An item GetAllPages visits is the source or an item below it that is not a page. */
  lemma {:induction false} PagedNodesBelow(a: Arena, r: Ref, x: Ref)
    requires Tree(a) && r in a.items && x in Nodes(PagePush(a), a.next, r)
    ensures x in a.items && (x == r || (x in PreOrder(a, r) && !a.items[x].body.Page?))
    decreases x
  {
    PagePushForest(a);
    var g, n := PagePush(a), a.next;
    NodesAbove(g, n, r, x);
    if x != r {
      var p, k := Pusher(g, n, r, x);
      PagedNodesBelow(a, r, p);
      PagePushAt(a, p, k);
      ChildParent(a, p, k);
      PreOrderMembers(a, r, p);
      PreOrderMembers(a, r, x);
      assert AncestorsOf(a, x) == [p] + AncestorsOf(a, p);
    }
  }

  /** GetAllPages visits every item below the source that is not a page. */
  lemma {:induction false} PagedNodesReach(a: Arena, r: Ref, x: Ref)
    requires Tree(a) && r in a.items && x in a.items && x != r && x in PreOrder(a, r) && !a.items[x].body.Page?
    ensures x in Nodes(PagePush(a), a.next, r)
    decreases x
  {
    PagePushForest(a);
    var g, n := PagePush(a), a.next;
    PreOrderMembers(a, r, x);
    var k := ParentOfNonPage(a, x);
    var p := a.items[x].Parent().value;
    assert AncestorsOf(a, x) == [p] + AncestorsOf(a, p);
    if p == r {
      NodesStart(g, n, r);
    } else {
      PreOrderMembers(a, r, p);
      PagedNodesReach(a, r, p);
    }
    assert g[p] == a.items[p].Children();
    NodesDescend(g, n, r, p, k);
  }

  /**
   * The items GetAllPages visits: the source, and every item below it that
   * is not a page (a section's pages are yielded, never visited).
   */
  lemma PagedNodes(a: Arena, r: Ref, x: Ref)
    requires Tree(a) && r in a.items
    ensures x in Nodes(PagePush(a), a.next, r) <==>
      x in a.items && (x == r || (x in PreOrder(a, r) && !a.items[x].body.Page?))
  {
    PagePushForest(a);
    NodesStart(PagePush(a), a.next, r);
    if x in Nodes(PagePush(a), a.next, r) {
      PagedNodesBelow(a, r, x);
    } else if x in a.items && x != r && x in PreOrder(a, r) && !a.items[x].body.Page? {
      PagedNodesReach(a, r, x);
    }
  }

  /** A page GetAllPages yields lies below the source. */
  lemma SectionPagesBelow(a: Arena, r: Ref, x: Ref)
    requires Tree(a) && r in a.items && x in SectionPages(a, r)
    ensures x in PreOrder(a, r) && x != r && IsPageIn(a, x)
  {
    ArenaShape(a);
    var g, e, n := PagePush(a), PageEmit(a), a.next;
    WalkEmits(g, e, n, r);
    var ys := Nodes(g, n, r);
    var i := EmitAllSome(e, ys, x);
    var y := ys[i];
    PagedNodesBelow(a, r, y);
    NodesAbove(g, n, r, y);
    var k :| 0 <= k < |e[y]| && e[y][k] == x;
    PageEmitAt(a, y, k);
    ChildParent(a, y, k);
    assert AncestorsOf(a, x) == [y] + AncestorsOf(a, y);
    if y != r {
      PreOrderMembers(a, r, y);
    }
    PreOrderMembers(a, r, x);
  }

  /** A page below the source sits in a section GetAllPages visits. */
  lemma PageSectionVisited(a: Arena, r: Ref, x: Ref) returns (p: Ref)
    requires Tree(a) && r in a.items && x in PreOrder(a, r) && x != r && IsPageIn(a, x)
    ensures p in a.items && p in Nodes(PagePush(a), a.next, r) && x in PageEmit(a)[p]
  {
    PreOrderMembers(a, r, x);
    var k := ParentChild(a, x);
    p := a.items[x].Parent().value;
    ChildParent(a, p, k);
    assert AncestorsOf(a, x) == [p] + AncestorsOf(a, p);
    if p != r {
      PreOrderMembers(a, r, p);
    }
    PagedNodes(a, r, p);
    SectionEmitsChildren(a, p);
  }

  /** GetAllPages yields every page below the source. */
  lemma SectionPagesReach(a: Arena, r: Ref, x: Ref)
    requires Tree(a) && r in a.items && x in PreOrder(a, r) && x != r && IsPageIn(a, x)
    ensures x in SectionPages(a, r)
  {
    var g, e, n := PagePush(a), PageEmit(a), a.next;
    var p := PageSectionVisited(a, r, x);
    var ys := Nodes(g, n, r);
    var i :| 0 <= i < |ys| && ys[i] == p;
    EmitAllHas(e, ys, i, x);
    WalkEmits(g, e, n, r);
  }

  /** GetAllPages yields exactly the pages below the source. */
  lemma SectionPagesMembers(a: Arena, r: Ref, x: Ref)
    requires Tree(a) && r in a.items
    ensures x in SectionPages(a, r) <==> x in PreOrder(a, r) && x != r && IsPageIn(a, x)
  {
    if x in SectionPages(a, r) {
      SectionPagesBelow(a, r, x);
    } else if x in PreOrder(a, r) && x != r && IsPageIn(a, x) {
      SectionPagesReach(a, r, x);
    }
  }

  /** GetAllPages yields no page twice. */
  lemma SectionPagesExactlyOnce(a: Arena, r: Ref)
    requires Tree(a) && r in a.items
    ensures NoDup(SectionPages(a, r))
  {
    ArenaShape(a);
    var g, e, n := PagePush(a), PageEmit(a), a.next;
    PagePushForest(a);
    PageEmitForest(a);
    NodesNoDup(g, n, r);
    var ys := Nodes(g, n, r);
    forall i | 0 <= i < |ys|
      ensures ys[i] in e
    {
      NodesAbove(g, n, r, ys[i]);
    }
    EmitAllNoDup(e, ys);
    WalkEmits(g, e, n, r);
  }

  /** GetAllPages on a page yields nothing, where GetPages yields the page itself. */
  lemma SectionPagesOfPage(a: Arena, r: Ref)
    requires ArenaValid(a) && IsPageIn(a, r)
    ensures SectionPages(a, r) == []
  {
    var g, e := PagePush(a), PageEmit(a);
    assert e[r] == [] && g[r] == [];
    assert Walk(g, Some(e), a.next, r) == [] + WalkStack(g, Some(e), a.next, [], r);
  }

  /**
   * From any source but a page, GetAllPages and GetPages yield the same
   * pages, each once: the two lists are permutations of each other.
   */
  lemma SectionPagesPermutesGetPages(a: Arena, r: Ref)
    requires Tree(a) && r in a.items && !IsPageIn(a, r)
    ensures multiset(SectionPages(a, r)) == multiset(Select(PreOrder(a, r), Some(IsPage(a))))
  {
    var all, pages := SectionPages(a, r), Select(PreOrder(a, r), Some(IsPage(a)));
    SectionPagesExactlyOnce(a, r);
    PreOrderExactlyOnce(a, r);
    SelectNoDup(PreOrder(a, r), Some(IsPage(a)));
    forall x
      ensures x in all <==> x in pages
    {
      SectionPagesMembers(a, r, x);
      SelectMembers(PreOrder(a, r), Some(IsPage(a)), x);
    }
    SameMembers(all, pages);
  }
}
