/**
 * Parent links never form a cycle, whatever the hierarchy goes through: a
 * new object has no Parent, the streaming engine only links a newly
 * created item under a container that already exists, and a forced
 * re-link hangs an item under a freshly parsed parent that has no Parent
 * of its own. So Ancestors, TryGetNotebook and GetRelativePath, which
 * climb the Parent chain, end on every hierarchy these operations build.
 */
module ParentChains {
  import opened Base
  import opened Xml
  import opened Hierarchy
  import opened Axes
  import opened XmlReaderSpec

  // ---------------------------------------------------------------------
  // The writes to an arena.

  /** `b` holds the same items as `a`, each with the same Parent. */
  predicate SameParents(a: Arena, b: Arena) {
    a.items.Keys == b.items.Keys &&
    forall r | r in a.items :: b.items[r].Parent() == a.items[r].Parent()
  }

  /** No item has `x` as its Parent. */
  predicate Unreferenced(a: Arena, x: Ref) {
    forall r | r in a.items :: a.items[r].Parent() != Some(x)
  }

  /** Writes that leave every Parent as it was keep the chains finite. */
  lemma SameParentsAcyclic(a: Arena, b: Arena)
    requires ParentsAcyclic(a) && SameParents(a, b)
    ensures ParentsAcyclic(b)
  {
    var rank := Rank(a);
    assert Ranked(b, rank);
  }

  /** A new object without a Parent keeps the chains finite, and nothing points at it yet. */
  lemma AllocAcyclic(a: Arena, it: Item)
    requires ParentsAcyclic(a) && Allocated(a) && it.Parent() == None
    ensures var b := Alloc(a, it).0;
            ParentsAcyclic(b) && Allocated(b) && Unreferenced(b, a.next) && a.items.Keys <= b.items.Keys
  {
    var b := Alloc(a, it).0;
    var rank := Rank(a)[a.next := 0];
    forall r | r in b.items
      ensures r in rank && (b.items[r].Parent().Some? && b.items[r].Parent().value in rank ==>
                            rank[b.items[r].Parent().value] < rank[r])
    {
      if r != a.next && b.items[r].Parent().Some? {
        assert b.items[r] == a.items[r];
        assert a.items[r].Parent().value in a.items;
      }
    }
    assert Ranked(b, rank);
  }

  /**
   * Setting the Parent of an item nothing points at, to an existing other
   * item, keeps the chains finite: the item ranks just above its new Parent.
   */
  lemma AttachAcyclic(a: Arena, x: Ref, c: Ref)
    requires ParentsAcyclic(a) && x in a.items && c in a.items && x != c && Unreferenced(a, x)
    ensures ParentsAcyclic(SetParent(a, x, Some(c)))
  {
    var b := SetParent(a, x, Some(c));
    var old_ := Rank(a);
    var rank := old_[x := old_[c] + 1];
    forall r | r in b.items
      ensures r in rank && (b.items[r].Parent().Some? && b.items[r].Parent().value in rank ==>
                            rank[b.items[r].Parent().value] < rank[r])
    {
      if r != x && b.items[r].Parent().Some? {
        assert b.items[r] == a.items[r];
        assert a.items[r].Parent().value != x;
      }
    }
    assert Ranked(b, rank);
  }

  /**
   * Setting the Parent of any item to an existing other item that has no
   * Parent keeps the chains finite: that item ranks lowest, all others one higher.
   */
  lemma AttachToTopAcyclic(a: Arena, x: Ref, c: Ref)
    requires ParentsAcyclic(a) && x in a.items && c in a.items && x != c && a.items[c].Parent() == None
    ensures ParentsAcyclic(SetParent(a, x, Some(c)))
  {
    var b := SetParent(a, x, Some(c));
    var old_ := Rank(a);
    var rank := map r | r in a.items :: if r == c then 0 else old_[r] + 1;
    forall r | r in b.items
      ensures r in rank && (b.items[r].Parent().Some? && b.items[r].Parent().value in rank ==>
                            rank[b.items[r].Parent().value] < rank[r])
    {
      if r != x && b.items[r].Parent().Some? {
        assert b.items[r] == a.items[r];
      }
    }
    assert Ranked(b, rank);
  }

  /** The Parent write at the start of ParsePage, ParseSection and ParseSectionGroup may be made here. */
  predicate Attachable(a: Arena, x: Ref, parent: Option<Ref>) {
    x in a.items &&
    (a.items[x].Parent() == parent || parent.None? ||
     (parent.value in a.items && parent.value != x && Unreferenced(a, x)))
  }

  /** Such a Parent write keeps the chains finite and the references allocated. */
  lemma SetParentAcyclic(a: Arena, x: Ref, parent: Option<Ref>)
    requires ParentsAcyclic(a) && Allocated(a) && Attachable(a, x, parent)
    ensures var b := SetParent(a, x, parent);
            ParentsAcyclic(b) && Allocated(b) && b.items.Keys == a.items.Keys
  {
    if a.items[x].body.Notebook? || a.items[x].Parent() == parent {
      PutBodyAcyclic(a, x, WithParent(a.items[x].body, parent));
    } else if parent.None? {
      DetachAcyclic(a, x);
    } else {
      AttachAcyclic(a, x, parent.value);
    }
  }

  /** Clearing a Parent keeps the chains finite. */
  lemma DetachAcyclic(a: Arena, x: Ref)
    requires ParentsAcyclic(a) && x in a.items
    ensures ParentsAcyclic(SetParent(a, x, None))
  {
    var b := SetParent(a, x, None);
    var rank := Rank(a);
    forall r | r in b.items
      ensures r in rank && (b.items[r].Parent().Some? && b.items[r].Parent().value in rank ==>
                            rank[b.items[r].Parent().value] < rank[r])
    {
      if r != x {
        assert b.items[r] == a.items[r];
      }
    }
    assert Ranked(b, rank);
  }

  /** Rewriting an item's body without touching its Parent keeps the chains finite. */
  lemma PutBodyAcyclic(a: Arena, r: Ref, body: Body)
    requires ParentsAcyclic(a) && Allocated(a)
    requires r in a.items ==> LinksOf(body).parent == a.items[r].Parent()
    ensures var b := PutBody(a, r, body);
            ParentsAcyclic(b) && Allocated(b) && b.items.Keys == a.items.Keys
  {
    var b := PutBody(a, r, body);
    assert SameParents(a, b);
    SameParentsAcyclic(a, b);
  }

  /** SetAttributes writes fields other than the Parent. */
  lemma SetAttributesAcyclic(a: Arena, r: Ref, ts: seq<Token>)
    requires ParentsAcyclic(a) && Allocated(a) && r in a.items
    ensures var res := SetAttributes(a, r, ts);
            res.Success? ==> ParentsAcyclic(res.value) && Allocated(res.value) && res.value.items.Keys == a.items.Keys
  {
    var res := SetAttributes(a, r, ts);
    if res.Success? {
      assert SameParents(a, res.value);
      SameParentsAcyclic(a, res.value);
    }
  }

  /** `pages.Add`, `sections.Add` and `sectionGroups.Add` leave every Parent as it was. */
  lemma AppendPageAcyclic(a: Arena, c: Ref, x: Ref)
    requires ParentsAcyclic(a) && Allocated(a)
    ensures var b := AppendPage(a, c, x);
            ParentsAcyclic(b) && Allocated(b) && b.items.Keys == a.items.Keys
  {
    if c in a.items && a.items[c].body.Section? {
      PutBodyAcyclic(a, c, WithPages(a.items[c].body, a.items[c].body.pages + [x]));
    }
  }

  lemma AppendSectionAcyclic(a: Arena, c: Ref, x: Ref)
    requires ParentsAcyclic(a) && Allocated(a)
    ensures var b := AppendSection(a, c, x);
            ParentsAcyclic(b) && Allocated(b) && b.items.Keys == a.items.Keys
  {
    if c in a.items && a.items[c].IsContainer() {
      PutBodyAcyclic(a, c, WithSections(a.items[c].body, a.items[c].body.sections + [x]));
    }
  }

  lemma AppendSectionGroupAcyclic(a: Arena, c: Ref, x: Ref)
    requires ParentsAcyclic(a) && Allocated(a)
    ensures var b := AppendSectionGroup(a, c, x);
            ParentsAcyclic(b) && Allocated(b) && b.items.Keys == a.items.Keys
  {
    if c in a.items && a.items[c].IsContainer() {
      PutBodyAcyclic(a, c, WithSectionGroups(a.items[c].body, a.items[c].body.sectionGroups + [x]));
    }
  }

  /** Setting a notebook's root back-reference leaves every Parent as it was. */
  lemma SetRootAcyclic(a: Arena, nb: Ref, root: Option<Ref>)
    requires ParentsAcyclic(a) && Allocated(a)
    ensures var b := SetRoot(a, nb, root);
            ParentsAcyclic(b) && Allocated(b) && b.items.Keys == a.items.Keys
  {
    if nb in a.items {
      PutBodyAcyclic(a, nb, WithRoot(a.items[nb].body, root));
    }
  }

  // ---------------------------------------------------------------------
  // The streaming engine.

  /** What every parse below keeps: finite chains, allocated references, and every old item. */
  ghost predicate Kept(a: Arena, b: Arena) {
    ParentsAcyclic(b) && Allocated(b) && a.items.Keys <= b.items.Keys
  }

  /** A new item of kind `k`, ready to be linked under any existing item. */
  lemma FreshItem(a: Arena, k: Kind, c: Option<Ref>)
    requires ParentsAcyclic(a) && Allocated(a) && (c.Some? ==> c.value in a.items)
    ensures var (b, x) := Alloc(a, NewItem(k));
            Kept(a, b) && Attachable(b, x, c)
  {
    AllocAcyclic(a, NewItem(k));
  }

  lemma ParsePageAcyclic(a: Arena, ts: seq<Token>, pg: Ref, parent: Option<Ref>)
    requires ParentsAcyclic(a) && Allocated(a) && Attachable(a, pg, parent) && ts != [] && ts[0].Start?
    ensures var r := ParsePage(a, ts, pg, parent);
            r.Success? ==> Kept(a, r.value.arena)
  {
    SetParentAcyclic(a, pg, parent);
    SetAttributesAcyclic(SetParent(a, pg, parent), pg, ts);
  }

  lemma {:induction false} ParsePagesAcyclic(p: UnknownElements, a: Arena, ts: seq<Token>, s: Ref)
    requires ParentsAcyclic(a) && Allocated(a) && s in a.items
    ensures var r := ParsePages(p, a, ts, s);
            r.Success? ==> Kept(a, r.value.arena)
    decreases |ts|
  {
    if AtEndOrNone(ts) {
    } else if OnElement(ts, PageName) {
      var (a1, pg) := Alloc(a, NewItem(PageKind));
      FreshItem(a, PageKind, Some(s));
      ParsePageAcyclic(a1, ts, pg, Some(s));
      var page := ParsePage(a1, ts, pg, Some(s));
      if page.Success? {
        var a2 := AppendPage(page.value.arena, s, pg);
        AppendPageAcyclic(page.value.arena, s, pg);
        ParsePagesAcyclic(p, a2, page.value.rest, s);
      }
    } else {
      ParsePagesAcyclic(p, a, PassOther(p, ts), s);
    }
  }

  lemma ParseSectionAcyclic(p: UnknownElements, a: Arena, ts: seq<Token>, s: Ref, parent: Option<Ref>)
    requires ParentsAcyclic(a) && Allocated(a) && Attachable(a, s, parent) && ts != [] && ts[0].Start?
    ensures var r := ParseSection(p, a, ts, s, parent);
            r.Success? ==> Kept(a, r.value.arena)
  {
    var a1 := SetParent(a, s, parent);
    SetParentAcyclic(a, s, parent);
    SetAttributesAcyclic(a1, s, ts);
    var a2 := SetAttributes(a1, s, ts);
    if a2.Success? && !IsEmptyElement(ts) {
      ParsePagesAcyclic(p, a2.value, ts[1..], s);
    }
  }

  lemma {:induction false} ParseChildrenAcyclic(p: UnknownElements, a: Arena, ts: seq<Token>, c: Ref)
    requires ParentsAcyclic(a) && Allocated(a) && c in a.items
    ensures var r := ParseChildren(p, a, ts, c);
            r.Success? ==> Kept(a, r.value.arena)
    decreases |ts|, 1
  {
    if AtEndOrNone(ts) {
    } else if OnElement(ts, SectionName) {
      var (a1, s) := Alloc(a, NewItem(SectionKind));
      FreshItem(a, SectionKind, Some(c));
      ParseSectionAcyclic(p, a1, ts, s, Some(c));
      var sec := ParseSection(p, a1, ts, s, Some(c));
      if sec.Success? {
        AppendSectionAcyclic(sec.value.arena, c, s);
        ParseChildrenAcyclic(p, AppendSection(sec.value.arena, c, s), sec.value.rest, c);
      }
    } else if OnElement(ts, SectionGroupName) {
      var (a1, g) := Alloc(a, NewItem(SectionGroupKind));
      FreshItem(a, SectionGroupKind, Some(c));
      ParseSectionGroupAcyclic(p, a1, ts, g, Some(c));
      var grp := ParseSectionGroup(p, a1, ts, g, Some(c));
      if grp.Success? {
        AppendSectionGroupAcyclic(grp.value.arena, c, g);
        ParseChildrenAcyclic(p, AppendSectionGroup(grp.value.arena, c, g), grp.value.rest, c);
      }
    } else {
      ParseChildrenAcyclic(p, a, PassOther(p, ts), c);
    }
  }

  lemma {:induction false} ParseSectionGroupAcyclic(p: UnknownElements, a: Arena, ts: seq<Token>, g: Ref, parent: Option<Ref>)
    requires ParentsAcyclic(a) && Allocated(a) && Attachable(a, g, parent) && ts != [] && ts[0].Start?
    ensures var r := ParseSectionGroup(p, a, ts, g, parent);
            r.Success? ==> Kept(a, r.value.arena)
    decreases |ts|, 0
  {
    var a1 := SetParent(a, g, parent);
    SetParentAcyclic(a, g, parent);
    SetAttributesAcyclic(a1, g, ts);
    var a2 := SetAttributes(a1, g, ts);
    if a2.Success? && !IsEmptyElement(ts) {
      ParseChildrenAcyclic(p, a2.value, ts[1..], g);
    }
  }

  lemma ParseNotebookAcyclic(p: UnknownElements, a: Arena, ts: seq<Token>, nb: Ref, root: Option<Ref>)
    requires ParentsAcyclic(a) && Allocated(a) && nb in a.items && ts != [] && ts[0].Start?
    ensures var r := ParseNotebook(p, a, ts, nb, root);
            r.Success? ==> Kept(a, r.value.arena)
  {
    var a1 := SetRoot(a, nb, root);
    SetRootAcyclic(a, nb, root);
    SetAttributesAcyclic(a1, nb, ts);
    var a2 := SetAttributes(a1, nb, ts);
    if a2.Success? && !IsEmptyElement(ts) {
      ParseChildrenAcyclic(p, a2.value, ts[1..], nb);
    }
  }

  lemma {:induction false} ParseOpenSectionListAcyclic(p: UnknownElements, a: Arena, ts: seq<Token>, os: OpenSectionsObj)
    requires ParentsAcyclic(a) && Allocated(a)
    ensures var r := ParseOpenSectionList(p, a, ts, os);
            r.Success? ==> Kept(a, r.value.arena)
    decreases |ts|
  {
    if AtEndOrNone(ts) {
    } else if OnElement(ts, SectionName) {
      var (a1, s) := Alloc(a, NewItem(SectionKind));
      FreshItem(a, SectionKind, None);
      ParseSectionAcyclic(p, a1, ts, s, None);
      var sec := ParseSection(p, a1, ts, s, None);
      if sec.Success? {
        ParseOpenSectionListAcyclic(p, sec.value.arena, sec.value.rest, os.(sections := os.sections + [s]));
      }
    } else {
      ParseOpenSectionListAcyclic(p, a, PassOther(p, ts), os);
    }
  }

  lemma ParseOpenSectionsAcyclic(p: UnknownElements, a: Arena, ts: seq<Token>)
    requires ParentsAcyclic(a) && Allocated(a) && ts != [] && ts[0].Start?
    ensures var r := ParseOpenSections(p, a, ts);
            r.Success? ==> Kept(a, r.value.arena)
  {
    var os := NewOpenSections().(id := LastValue(AttrsAt(ts), IdAttr));
    if !IsEmptyElement(ts) {
      ParseOpenSectionListAcyclic(p, a, ts[1..], os);
    }
  }

  lemma {:induction false} ParseRootChildrenAcyclic(p: UnknownElements, a: Arena, ts: seq<Token>, rr: Ref, root: RootObj)
    requires ParentsAcyclic(a) && Allocated(a)
    ensures var r := ParseRootChildren(p, a, ts, rr, root);
            r.Success? ==> Kept(a, r.value.arena)
    decreases |ts|
  {
    if AtEndOrNone(ts) {
    } else if OnElement(ts, NotebookName) {
      var (a1, nb) := Alloc(a, NewItem(NotebookKind));
      FreshItem(a, NotebookKind, None);
      ParseNotebookAcyclic(p, a1, ts, nb, Some(rr));
      var n := ParseNotebook(p, a1, ts, nb, Some(rr));
      if n.Success? {
        ParseRootChildrenAcyclic(p, n.value.arena, n.value.rest, rr, root.(notebooks := root.notebooks + [nb]));
      }
    } else if OnElement(ts, OpenSectionsName) {
      ParseOpenSectionsAcyclic(p, a, ts);
      var o := ParseOpenSections(p, a, ts);
      if o.Success? {
        ParseRootChildrenAcyclic(p, o.value.arena, o.value.rest, rr, root.(openSections := Some(o.value.open)));
      }
    } else {
      ParseRootChildrenAcyclic(p, a, PassOther(p, ts), rr, root);
    }
  }

  /** ParseRoot builds a hierarchy whose Parent chains all end. */
  lemma ParseRootAcyclic(p: UnknownElements, a: Arena, ts: seq<Token>)
    requires ParentsAcyclic(a) && Allocated(a)
    ensures var r := ParseRoot(p, a, ts);
            r.Success? ==> Kept(a, r.value.arena)
  {
    var (a1, rr) := AllocRef(a);
    assert SameParents(a, a1);
    SameParentsAcyclic(a, a1);
    if !IsEmptyElement(ts) && ts != [] && ts[0].Start? {
      ParseRootChildrenAcyclic(p, a1, ts[1..], rr, NewRoot());
    }
  }

  /** Parse(xml, parent), for any existing parent or none, keeps every Parent chain finite. */
  lemma ParseAcyclic(p: UnknownElements, a: Arena, ts: seq<Token>, parent: Option<Ref>)
    requires ParentsAcyclic(a) && Allocated(a) && (parent.Some? ==> parent.value in a.items)
    ensures var r := Parse(p, a, ts, parent);
            r.Success? ==> Kept(a, r.value.arena)
  {
    if ts != [] && ts[0].Start? {
      var local := ts[0].name.local;
      var (a1, x) := Alloc(a, NewItem(KindFor(local)));
      FreshItem(a, KindFor(local), parent);
      if local == NotebookName {
        ParseNotebookAcyclic(p, a1, ts, x, None);
      } else if local == SectionName {
        ParseSectionAcyclic(p, a1, ts, x, parent);
      } else if local == SectionGroupName {
        ParseSectionGroupAcyclic(p, a1, ts, x, parent);
      } else if local == PageName {
        ParsePageAcyclic(a1, ts, x, parent);
      }
    }
  }

  /** The kind Parse allocates for an element name (a page for any other name, which Parse rejects). */
  function KindFor(local: string): Kind {
    if local == NotebookName then NotebookKind
    else if local == SectionName then SectionKind
    else if local == SectionGroupName then SectionGroupKind
    else PageKind
  }

  /** ParseExisting re-writes the item's own Parent, so every Parent chain stays finite. */
  lemma ParseExistingAcyclic(p: UnknownElements, a: Arena, ts: seq<Token>, r: Ref)
    requires ParentsAcyclic(a) && Allocated(a) && r in a.items
    ensures var res := ParseExisting(p, a, ts, r);
            res.Success? ==> Kept(a, res.value)
  {
    if ts != [] && ts[0].Start? {
      match a.items[r].body
      case Notebook(_, _, _, root, _, _) => ParseNotebookAcyclic(p, a, ts, r, root);
      case SectionGroup(_, _, parent, _, _) => ParseSectionGroupAcyclic(p, a, ts, r, parent);
      case Section(_, _, _, _, _, _, parent, _) => ParseSectionAcyclic(p, a, ts, r, parent);
      case Page(_, _, _, parent) => ParsePageAcyclic(a, ts, r, parent);
    }
  }

  // ---------------------------------------------------------------------
  // A forced re-link.

  /**
   * `item.Parent = parent` where the parent was just parsed with no Parent of
   * its own: the chains stay finite and the item's only ancestor is that parent.
   */
  lemma HangUnderTop(a: Arena, r: Ref, x: Ref)
    requires ParentsAcyclic(a) && Allocated(a) && r in a.items && x in a.items && r != x
    requires a.items[x].Parent() == None && !a.items[r].body.Notebook?
    ensures var b := SetParent(a, r, Some(x));
            ParentsAcyclic(b) && Allocated(b) && r in b.items && AncestorsOf(b, r) == [x]
  {
    AttachToTopAcyclic(a, r, x);
    var b := SetParent(a, r, Some(x));
    assert b.items[x] == a.items[x];
    assert b.items[r].Parent() == Some(x);
    assert ChainFrom(b, None) == [];
    assert ChainFrom(b, Some(x)) == [x];
  }
}
