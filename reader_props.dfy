/**
 * What the streaming engine guarantees about the hierarchy it builds: each
 * parse changes only the item it parses and items it allocates, children are
 * appended in document order with their Parent set to the container, and a
 * notebook read by ParseRoot points back at its Root.
 */
module XmlReaderProperties {
  import opened Base
  import opened Xml
  import opened Hierarchy
  import opened XmlReaderSpec

  /** `x` is an item of kind `k` whose Parent is `parent`. */
  predicate ItemIs(a: Arena, x: Ref, k: Kind, parent: Option<Ref>) {
    x in a.items && a.items[x].KindOf() == k && a.items[x].Parent() == parent
  }

  /** Item `x` of `b` has the lists of its version in `a`, perhaps with more appended. */
  predicate ListsGrown(a: Arena, b: Arena, x: Ref)
    requires x in a.items && x in b.items
  {
    var l := LinksOf(a.items[x].body);
    var m := LinksOf(b.items[x].body);
    l.sections <= m.sections && l.sectionGroups <= m.sectionGroups && l.pages <= m.pages
  }

  /**
   * A change to item `c` that keeps its kind and Parent keeps every "x is a
   * child of kind k of y" fact of the items it does not otherwise touch.
   */
  lemma LinkedToKept(a: Arena, b: Arena, c: Ref, x: Ref, k: Kind, y: Ref)
    requires Extends(a, b, c) && c in a.items && c in b.items
    requires a.items[c].KindOf() == b.items[c].KindOf() && a.items[c].Parent() == b.items[c].Parent()
    requires LinkedTo(a, x, k, y)
    ensures LinkedTo(b, x, k, y)
  {
  }

  /** Allocating an item keeps every reference below the counter. */
  lemma AllocAllocated(a: Arena, it: Item)
    requires Allocated(a)
    ensures Allocated(Alloc(a, it).0) && a.next !in a.items
  {
  }

  // ---------------------------------------------------------------------
  // SetAttributes and the field writes before it.

  /** SetAttributes rewrites only the item's fields: its kind, Parent and lists stay. */
  lemma SetAttributesFrame(a: Arena, r: Ref, ts: seq<Token>)
    requires Allocated(a) && r in a.items
    ensures var res := SetAttributes(a, r, ts);
            res.Success? ==> Extends(a, res.value, r) && Allocated(res.value) && r in res.value.items &&
                             SameLinks(a.items[r], res.value.items[r])
  {
  }

  /** Setting the Parent of `x` touches nothing else. */
  lemma SetParentFrame(a: Arena, x: Ref, parent: Option<Ref>)
    requires Allocated(a) && x in a.items && !a.items[x].body.Notebook?
    ensures var b := SetParent(a, x, parent);
            Extends(a, b, x) && Allocated(b) && x in b.items &&
            b.items[x].KindOf() == a.items[x].KindOf() && b.items[x].Parent() == parent &&
            ListsGrown(a, b, x)
  {
  }

  // ---------------------------------------------------------------------
  // Pages and sections.

  /** ParsePage: the page gets the given Parent; nothing but the page changes. */
  lemma ParsePageFacts(a: Arena, ts: seq<Token>, pg: Ref, parent: Option<Ref>)
    requires Allocated(a) && pg in a.items && a.items[pg].body.Page? && ts != [] && ts[0].Start?
    ensures var r := ParsePage(a, ts, pg, parent);
            r.Success? ==> Extends(a, r.value.arena, pg) && Allocated(r.value.arena) &&
                           ItemIs(r.value.arena, pg, PageKind, parent)
  {
    ParentThenAttributes(a, ts, pg, parent);
  }

  /** Two successive appends are one append. */
  lemma ChildrenAppendedTrans(a: Arena, b: Arena, d: Arena, c: Ref)
    requires c in a.items && c in b.items && c in d.items
    requires ChildrenAppended(a, b, c) && ChildrenAppended(b, d, c)
    ensures ChildrenAppended(a, d, c)
  {
    var x, y, z := LinksOf(a.items[c].body), LinksOf(b.items[c].body), LinksOf(d.items[c].body);
    PrefixTrans(x.sections, y.sections, z.sections);
    PrefixTrans(x.sectionGroups, y.sectionGroups, z.sectionGroups);
    PrefixTrans(x.pages, y.pages, z.pages);
  }

  lemma PrefixTrans<T>(x: seq<T>, y: seq<T>, z: seq<T>)
    requires x <= y && y <= z
    ensures x <= z
  {
    assert z[..|x|] == y[..|x|];
  }

  /**
   * `section.pages.Add(pg)` after pg was parsed as a new page of the section:
   * the pages list gains pg at its end and stays linked.
   */
  lemma AppendPageStep(a: Arena, b: Arena, s: Ref, pg: Ref)
    requires Allocated(a) && s in a.items && a.items[s].body.Section?
    requires Grows(a, b) && Allocated(b) && pg !in a.items && ItemIs(b, pg, PageKind, Some(s))
    ensures var a2 := AppendPage(b, s, pg);
            Extends(a, a2, s) && Allocated(a2) && s in a2.items && ChildrenAppended(a, a2, s) &&
            a2.items[s].body.pages == a.items[s].body.pages + [pg] &&
            (ChildrenLinked(a, s) ==> ChildrenLinked(a2, s))
  {
    var a2 := AppendPage(b, s, pg);
    AppendExtends(b, s, pg);
    GrowsThenExtends(a, b, a2, s);
    if ChildrenLinked(a, s) {
      var pages := a.items[s].body.pages;
      forall i | 0 <= i < |a2.items[s].body.pages|
        ensures LinkedTo(a2, a2.items[s].body.pages[i], PageKind, s)
      {
        if i < |pages| {
          assert LinkedTo(a, pages[i], PageKind, s);
        }
      }
    }
  }

  /**
   * The page loop only appends to the section's pages, each a new page whose
   * Parent is the section, and keeps every earlier page linked.
   */
  lemma {:induction false} ParsePagesFacts(p: UnknownElements, a: Arena, ts: seq<Token>, s: Ref)
    requires Allocated(a) && s in a.items && a.items[s].body.Section?
    ensures var r := ParsePages(p, a, ts, s);
            r.Success? ==> Extends(a, r.value.arena, s) && Allocated(r.value.arena) &&
                           s in r.value.arena.items && ChildrenAppended(a, r.value.arena, s) &&
                           (ChildrenLinked(a, s) ==> ChildrenLinked(r.value.arena, s))
    decreases |ts|
  {
    if AtEndOrNone(ts) {
    } else if OnElement(ts, PageName) {
      var (a1, pg) := Alloc(a, NewItem(PageKind));
      AllocAllocated(a, NewItem(PageKind));
      ParsePageFacts(a1, ts, pg, Some(s));
      var page := ParsePage(a1, ts, pg, Some(s));
      if page.Success? {
        var b := page.value.arena;
        AllocThenGrow(a, NewItem(PageKind), b);
        AppendPageStep(a, b, s, pg);
        var a2 := AppendPage(b, s, pg);
        ParsePagesFacts(p, a2, page.value.rest, s);
        var r := ParsePages(p, a2, page.value.rest, s);
        if r.Success? {
          ExtendsTrans(a, a2, r.value.arena, s);
          ChildrenAppendedTrans(a, a2, r.value.arena, s);
        }
      }
    } else {
      ParsePagesFacts(p, a, PassOther(p, ts), s);
    }
  }

  /** Rewriting `c` without touching its lists keeps its children linked. */
  lemma ChildrenLinkedKept(a: Arena, b: Arena, c: Ref)
    requires Extends(a, b, c) && c in a.items && c in b.items
    requires LinksOf(a.items[c].body).sections == LinksOf(b.items[c].body).sections
    requires LinksOf(a.items[c].body).sectionGroups == LinksOf(b.items[c].body).sectionGroups
    requires LinksOf(a.items[c].body).pages == LinksOf(b.items[c].body).pages
    requires ChildrenLinked(a, c)
    ensures ChildrenLinked(b, c)
  {
    var l := LinksOf(a.items[c].body);
    assert forall i | 0 <= i < |l.sections| :: LinkedTo(a, l.sections[i], SectionKind, c);
    assert forall i | 0 <= i < |l.sectionGroups| :: LinkedTo(a, l.sectionGroups[i], SectionGroupKind, c);
    assert forall i | 0 <= i < |l.pages| :: LinkedTo(a, l.pages[i], PageKind, c);
  }

  /**
   * The first two steps of parsing a section group, section or page: its
   * Parent is set, then its attributes; its lists and links are untouched.
   */
  lemma ParentThenAttributes(a: Arena, ts: seq<Token>, x: Ref, parent: Option<Ref>)
    requires Allocated(a) && x in a.items && !a.items[x].body.Notebook?
    ensures var b := SetAttributes(SetParent(a, x, parent), x, ts);
            b.Success? ==> Extends(a, b.value, x) && Allocated(b.value) &&
                           ItemIs(b.value, x, a.items[x].KindOf(), parent) && ListsGrown(a, b.value, x) &&
                           LinksOf(b.value.items[x].body).sections == LinksOf(a.items[x].body).sections &&
                           LinksOf(b.value.items[x].body).sectionGroups == LinksOf(a.items[x].body).sectionGroups &&
                           LinksOf(b.value.items[x].body).pages == LinksOf(a.items[x].body).pages &&
                           (ChildrenLinked(a, x) ==> ChildrenLinked(b.value, x))
  {
    var a1 := SetParent(a, x, parent);
    SetParentFrame(a, x, parent);
    SetAttributesFrame(a1, x, ts);
    var b := SetAttributes(a1, x, ts);
    if b.Success? {
      ExtendsTrans(a, a1, b.value, x);
      if ChildrenLinked(a, x) {
        ChildrenLinkedKept(a, b.value, x);
      }
    }
  }

  /**
   * ParseSection: the section gets the given Parent and its pages list only
   * grows; nothing but the section and the new pages changes.
   */
  lemma ParseSectionFacts(p: UnknownElements, a: Arena, ts: seq<Token>, s: Ref, parent: Option<Ref>)
    requires Allocated(a) && s in a.items && a.items[s].body.Section? && ts != [] && ts[0].Start?
    ensures var r := ParseSection(p, a, ts, s, parent);
            r.Success? ==> Extends(a, r.value.arena, s) && Allocated(r.value.arena) &&
                           ItemIs(r.value.arena, s, SectionKind, parent) && ListsGrown(a, r.value.arena, s) &&
                           (ChildrenLinked(a, s) ==> ChildrenLinked(r.value.arena, s))
  {
    ParentThenAttributes(a, ts, s, parent);
    var a2 := SetAttributes(SetParent(a, s, parent), s, ts);
    var r := ParseSection(p, a, ts, s, parent);
    if r.Success? && !IsEmptyElement(ts) {
      ParsePagesFacts(p, a2.value, ts[1..], s);
      var inner := ParsePages(p, a2.value, ts[1..], s);
      ExtendsTrans(a, a2.value, inner.value.arena, s);
    }
  }

  // ---------------------------------------------------------------------
  // Notebooks and section groups.

  /** `container.sections.Add(s)` after s was parsed as a new section of the container. */
  lemma AppendSectionStep(a: Arena, b: Arena, c: Ref, s: Ref)
    requires Allocated(a) && c in a.items && a.items[c].IsContainer()
    requires Grows(a, b) && Allocated(b) && s !in a.items && LinkedTo(b, s, SectionKind, c)
    ensures var a2 := AppendSection(b, c, s);
            Extends(a, a2, c) && Allocated(a2) && c in a2.items && ChildrenAppended(a, a2, c) &&
            a2.items[c].body.sections == a.items[c].body.sections + [s] &&
            a2.items[c].body.sectionGroups == a.items[c].body.sectionGroups &&
            (ChildrenLinked(a, c) ==> ChildrenLinked(a2, c))
  {
    var a2 := AppendSection(b, c, s);
    AppendExtends(b, c, s);
    GrowsThenExtends(a, b, a2, c);
    if ChildrenLinked(a, c) {
      var l := LinksOf(a.items[c].body);
      forall i | 0 <= i < |a2.items[c].body.sections|
        ensures LinkedTo(a2, a2.items[c].body.sections[i], SectionKind, c)
      {
        if i < |l.sections| {
          assert LinkedTo(a, l.sections[i], SectionKind, c);
        }
      }
      forall i | 0 <= i < |l.sectionGroups|
        ensures LinkedTo(a2, l.sectionGroups[i], SectionGroupKind, c)
      {
        assert LinkedTo(a, l.sectionGroups[i], SectionGroupKind, c);
      }
    }
  }

  /** `container.sectionGroups.Add(g)` after g was parsed as a new section group of the container. */
  lemma AppendSectionGroupStep(a: Arena, b: Arena, c: Ref, g: Ref)
    requires Allocated(a) && c in a.items && a.items[c].IsContainer()
    requires Grows(a, b) && Allocated(b) && g !in a.items && LinkedTo(b, g, SectionGroupKind, c)
    ensures var a2 := AppendSectionGroup(b, c, g);
            Extends(a, a2, c) && Allocated(a2) && c in a2.items && ChildrenAppended(a, a2, c) &&
            a2.items[c].body.sections == a.items[c].body.sections &&
            a2.items[c].body.sectionGroups == a.items[c].body.sectionGroups + [g] &&
            (ChildrenLinked(a, c) ==> ChildrenLinked(a2, c))
  {
    var a2 := AppendSectionGroup(b, c, g);
    AppendExtends(b, c, g);
    GrowsThenExtends(a, b, a2, c);
    if ChildrenLinked(a, c) {
      var l := LinksOf(a.items[c].body);
      forall i | 0 <= i < |l.sections|
        ensures LinkedTo(a2, l.sections[i], SectionKind, c)
      {
        assert LinkedTo(a, l.sections[i], SectionKind, c);
      }
      forall i | 0 <= i < |a2.items[c].body.sectionGroups|
        ensures LinkedTo(a2, a2.items[c].body.sectionGroups[i], SectionGroupKind, c)
      {
        if i < |l.sectionGroups| {
          assert LinkedTo(a, l.sectionGroups[i], SectionGroupKind, c);
        }
      }
    }
  }

  /** One turn of the ParseChildren loop on a Section element: the new section is appended. */
  lemma SectionTurn(p: UnknownElements, a: Arena, ts: seq<Token>, c: Ref)
    requires Allocated(a) && c in a.items && a.items[c].IsContainer() && OnElement(ts, SectionName)
    ensures var sec := ParseSection(p, Alloc(a, NewItem(SectionKind)).0, ts, a.next, Some(c));
            sec.Success? ==>
              var a2 := AppendSection(sec.value.arena, c, a.next);
              Extends(a, a2, c) && Allocated(a2) && c in a2.items && a2.items[c].IsContainer() &&
              ChildrenAppended(a, a2, c) && (ChildrenLinked(a, c) ==> ChildrenLinked(a2, c))
  {
    var (a1, s) := Alloc(a, NewItem(SectionKind));
    AllocAllocated(a, NewItem(SectionKind));
    ParseSectionFacts(p, a1, ts, s, Some(c));
    var sec := ParseSection(p, a1, ts, s, Some(c));
    if sec.Success? {
      AllocThenGrow(a, NewItem(SectionKind), sec.value.arena);
      AppendSectionStep(a, sec.value.arena, c, s);
    }
  }

  /** One turn of the ParseChildren loop on a SectionGroup element: the new group is appended. */
  lemma {:induction false} SectionGroupTurn(p: UnknownElements, a: Arena, ts: seq<Token>, c: Ref)
    requires Allocated(a) && c in a.items && a.items[c].IsContainer() && OnElement(ts, SectionGroupName)
    ensures var grp := ParseSectionGroup(p, Alloc(a, NewItem(SectionGroupKind)).0, ts, a.next, Some(c));
            grp.Success? ==>
              var a2 := AppendSectionGroup(grp.value.arena, c, a.next);
              Extends(a, a2, c) && Allocated(a2) && c in a2.items && a2.items[c].IsContainer() &&
              ChildrenAppended(a, a2, c) && (ChildrenLinked(a, c) ==> ChildrenLinked(a2, c))
    decreases |ts|, 1
  {
    var (a1, g) := Alloc(a, NewItem(SectionGroupKind));
    AllocAllocated(a, NewItem(SectionGroupKind));
    ParseSectionGroupFacts(p, a1, ts, g, Some(c));
    var grp := ParseSectionGroup(p, a1, ts, g, Some(c));
    if grp.Success? {
      AllocThenGrow(a, NewItem(SectionGroupKind), grp.value.arena);
      AppendSectionGroupStep(a, grp.value.arena, c, g);
    }
  }

  /**
   * ParseChildren only appends to the container's two lists: every new
   * section and section group is a new item whose Parent is the container,
   * and the earlier children stay linked.
   */
  lemma {:induction false} ParseChildrenFacts(p: UnknownElements, a: Arena, ts: seq<Token>, c: Ref)
    requires Allocated(a) && c in a.items && a.items[c].IsContainer()
    ensures var r := ParseChildren(p, a, ts, c);
            r.Success? ==> Extends(a, r.value.arena, c) && Allocated(r.value.arena) &&
                           c in r.value.arena.items && ChildrenAppended(a, r.value.arena, c) &&
                           (ChildrenLinked(a, c) ==> ChildrenLinked(r.value.arena, c))
    decreases |ts|, 2
  {
    if AtEndOrNone(ts) {
    } else if OnElement(ts, SectionName) {
      SectionTurn(p, a, ts, c);
      ChildrenOnSection(p, a, ts, c);
      var sec := ParseSection(p, Alloc(a, NewItem(SectionKind)).0, ts, a.next, Some(c));
      if sec.Success? {
        var a2 := AppendSection(sec.value.arena, c, a.next);
        ParseChildrenFacts(p, a2, sec.value.rest, c);
        var r := ParseChildren(p, a2, sec.value.rest, c);
        if r.Success? {
          ExtendsTrans(a, a2, r.value.arena, c);
          ChildrenAppendedTrans(a, a2, r.value.arena, c);
        }
      }
    } else if OnElement(ts, SectionGroupName) {
      SectionGroupTurn(p, a, ts, c);
      ChildrenOnSectionGroup(p, a, ts, c);
      var grp := ParseSectionGroup(p, Alloc(a, NewItem(SectionGroupKind)).0, ts, a.next, Some(c));
      if grp.Success? {
        var a2 := AppendSectionGroup(grp.value.arena, c, a.next);
        ParseChildrenFacts(p, a2, grp.value.rest, c);
        var r := ParseChildren(p, a2, grp.value.rest, c);
        if r.Success? {
          ExtendsTrans(a, a2, r.value.arena, c);
          ChildrenAppendedTrans(a, a2, r.value.arena, c);
        }
      }
    } else {
      ParseChildrenFacts(p, a, PassOther(p, ts), c);
    }
  }

  /**
   * ParseSectionGroup: the group gets the given Parent and its lists only
   * grow; nothing but the group and the new items changes.
   */
  lemma {:induction false} ParseSectionGroupFacts(p: UnknownElements, a: Arena, ts: seq<Token>, g: Ref, parent: Option<Ref>)
    requires Allocated(a) && g in a.items && a.items[g].body.SectionGroup? && ts != [] && ts[0].Start?
    ensures var r := ParseSectionGroup(p, a, ts, g, parent);
            r.Success? ==> Extends(a, r.value.arena, g) && Allocated(r.value.arena) &&
                           ItemIs(r.value.arena, g, SectionGroupKind, parent) && ListsGrown(a, r.value.arena, g) &&
                           (ChildrenLinked(a, g) ==> ChildrenLinked(r.value.arena, g))
    decreases |ts|, 0
  {
    ParentThenAttributes(a, ts, g, parent);
    var a2 := SetAttributes(SetParent(a, g, parent), g, ts);
    var r := ParseSectionGroup(p, a, ts, g, parent);
    if r.Success? && !IsEmptyElement(ts) {
      ParseChildrenFacts(p, a2.value, ts[1..], g);
      var inner := ParseChildren(p, a2.value, ts[1..], g);
      ExtendsTrans(a, a2.value, inner.value.arena, g);
    }
  }

  /** The first two steps of parsing a notebook: its root back-reference, then its attributes. */
  lemma RootThenAttributes(a: Arena, ts: seq<Token>, nb: Ref, root: Option<Ref>)
    requires Allocated(a) && nb in a.items && a.items[nb].body.Notebook?
    ensures var b := SetAttributes(SetRoot(a, nb, root), nb, ts);
            b.Success? ==> Extends(a, b.value, nb) && Allocated(b.value) && nb in b.value.items &&
                           b.value.items[nb].body.Notebook? && b.value.items[nb].RootRef() == root &&
                           b.value.items[nb].body.sections == a.items[nb].body.sections &&
                           b.value.items[nb].body.sectionGroups == a.items[nb].body.sectionGroups &&
                           (ChildrenLinked(a, nb) ==> ChildrenLinked(b.value, nb))
  {
    var a1 := SetRoot(a, nb, root);
    SetAttributesFrame(a1, nb, ts);
    var b := SetAttributes(a1, nb, ts);
    if b.Success? {
      ExtendsTrans(a, a1, b.value, nb);
      if ChildrenLinked(a, nb) {
        ChildrenLinkedKept(a, b.value, nb);
      }
    }
  }

  /**
   * ParseNotebook: the notebook's root back-reference is the given one and its
   * lists only grow; nothing but the notebook and the new items changes.
   */
  lemma ParseNotebookFacts(p: UnknownElements, a: Arena, ts: seq<Token>, nb: Ref, root: Option<Ref>)
    requires Allocated(a) && nb in a.items && a.items[nb].body.Notebook? && ts != [] && ts[0].Start?
    ensures var r := ParseNotebook(p, a, ts, nb, root);
            r.Success? ==> Extends(a, r.value.arena, nb) && Allocated(r.value.arena) && nb in r.value.arena.items &&
                           r.value.arena.items[nb].body.Notebook? && r.value.arena.items[nb].RootRef() == root &&
                           ListsGrown(a, r.value.arena, nb) &&
                           (ChildrenLinked(a, nb) ==> ChildrenLinked(r.value.arena, nb))
  {
    RootThenAttributes(a, ts, nb, root);
    var a2 := SetAttributes(SetRoot(a, nb, root), nb, ts);
    var r := ParseNotebook(p, a, ts, nb, root);
    if r.Success? && !IsEmptyElement(ts) {
      NotebookChildrenFacts(p, a, a2.value, ts, nb, root);
      assert r.value.arena == ParseChildren(p, a2.value, ts[1..], nb).value.arena;
    }
  }

  /** The children of a notebook whose root and attributes are set. */
  lemma NotebookChildrenFacts(p: UnknownElements, a: Arena, b: Arena, ts: seq<Token>, nb: Ref, root: Option<Ref>)
    requires nb in a.items && a.items[nb].body.Notebook? && |ts| > 1
    requires Extends(a, b, nb) && Allocated(b) && nb in b.items &&
             b.items[nb].body.Notebook? && b.items[nb].RootRef() == root &&
             b.items[nb].body.sections == a.items[nb].body.sections &&
             b.items[nb].body.sectionGroups == a.items[nb].body.sectionGroups &&
             (ChildrenLinked(a, nb) ==> ChildrenLinked(b, nb))
    ensures var r := ParseChildren(p, b, ts[1..], nb);
            r.Success? ==> Extends(a, r.value.arena, nb) && Allocated(r.value.arena) && nb in r.value.arena.items &&
                           r.value.arena.items[nb].body.Notebook? && r.value.arena.items[nb].RootRef() == root &&
                           ListsGrown(a, r.value.arena, nb) &&
                           (ChildrenLinked(a, nb) ==> ChildrenLinked(r.value.arena, nb))
  {
    ParseChildrenFacts(p, b, ts[1..], nb);
    var inner := ParseChildren(p, b, ts[1..], nb);
    if inner.Success? {
      ExtendsTrans(a, b, inner.value.arena, nb);
    }
  }

  // ---------------------------------------------------------------------
  // Open sections and the root.

  /** Every open section is a section with no Parent. */
  predicate OpenSectionsLinked(a: Arena, sections: seq<Ref>) {
    forall i | 0 <= i < |sections| :: ItemIs(a, sections[i], SectionKind, None)
  }

  /** Every notebook of a Root is a notebook item pointing back at that Root, with its children linked. */
  predicate NotebooksOf(a: Arena, rr: Ref, notebooks: seq<Ref>) {
    forall i | 0 <= i < |notebooks| ::
      notebooks[i] in a.items && a.items[notebooks[i]].body.Notebook? &&
      a.items[notebooks[i]].RootRef() == Some(rr) && ChildrenLinked(a, notebooks[i])
  }

  /** ChildrenLinked of an untouched item survives growth of the arena. */
  lemma ChildrenLinkedGrows(a: Arena, b: Arena, c: Ref)
    requires Grows(a, b) && c in a.items && ChildrenLinked(a, c)
    ensures c in b.items && ChildrenLinked(b, c)
  {
    var l := LinksOf(a.items[c].body);
    assert forall i | 0 <= i < |l.sections| :: LinkedTo(a, l.sections[i], SectionKind, c);
    assert forall i | 0 <= i < |l.sectionGroups| :: LinkedTo(a, l.sectionGroups[i], SectionGroupKind, c);
    assert forall i | 0 <= i < |l.pages| :: LinkedTo(a, l.pages[i], PageKind, c);
  }

  /** The open-section loop appends new parentless sections and leaves every old item alone. */
  lemma {:induction false} ParseOpenSectionListFacts(p: UnknownElements, a: Arena, ts: seq<Token>, os: OpenSectionsObj)
    requires Allocated(a)
    ensures var r := ParseOpenSectionList(p, a, ts, os);
            r.Success? ==> Grows(a, r.value.arena) && Allocated(r.value.arena) &&
                           os.sections <= r.value.open.sections &&
                           (OpenSectionsLinked(a, os.sections) ==> OpenSectionsLinked(r.value.arena, r.value.open.sections))
    decreases |ts|
  {
    if AtEndOrNone(ts) {
    } else if OnElement(ts, SectionName) {
      var (a1, s) := Alloc(a, NewItem(SectionKind));
      AllocAllocated(a, NewItem(SectionKind));
      ParseSectionFacts(p, a1, ts, s, None);
      var sec := ParseSection(p, a1, ts, s, None);
      if sec.Success? {
        var b := sec.value.arena;
        AllocThenGrow(a, NewItem(SectionKind), b);
        var os2 := os.(sections := os.sections + [s]);
        ParseOpenSectionListFacts(p, b, sec.value.rest, os2);
        var r := ParseOpenSectionList(p, b, sec.value.rest, os2);
        if r.Success? {
          GrowsTrans(a, b, r.value.arena);
          PrefixTrans(os.sections, os2.sections, r.value.open.sections);
          if OpenSectionsLinked(a, os.sections) {
            assert OpenSectionsLinked(b, os2.sections) by {
              forall i | 0 <= i < |os2.sections|
                ensures ItemIs(b, os2.sections[i], SectionKind, None)
              {
                if i < |os.sections| {
                  assert ItemIs(a, os.sections[i], SectionKind, None);
                }
              }
            }
          }
        }
      }
    } else {
      ParseOpenSectionListFacts(p, a, PassOther(p, ts), os);
    }
  }

  /** ParseOpenSections: every open section is a new section with no Parent. */
  lemma ParseOpenSectionsFacts(p: UnknownElements, a: Arena, ts: seq<Token>)
    requires Allocated(a) && ts != [] && ts[0].Start?
    ensures var r := ParseOpenSections(p, a, ts);
            r.Success? ==> Grows(a, r.value.arena) && Allocated(r.value.arena) &&
                           OpenSectionsLinked(r.value.arena, r.value.open.sections)
  {
    if !IsEmptyElement(ts) {
      ParseOpenSectionListFacts(p, a, ts[1..], NewOpenSections().(id := LastValue(AttrsAt(ts), IdAttr)));
    }
  }

  /** What ParseRoot promises about a Root: its notebooks and its open sections are linked. */
  predicate RootLinked(a: Arena, rr: Ref, root: RootObj) {
    NotebooksOf(a, rr, root.notebooks) &&
    (root.openSections.Some? ==> OpenSectionsLinked(a, root.openSections.value.sections))
  }

  /** Growing the arena keeps a Root's links. */
  lemma RootLinkedGrows(a: Arena, b: Arena, rr: Ref, root: RootObj)
    requires Grows(a, b) && RootLinked(a, rr, root)
    ensures RootLinked(b, rr, root)
  {
    forall i | 0 <= i < |root.notebooks|
      ensures root.notebooks[i] in b.items && b.items[root.notebooks[i]] == a.items[root.notebooks[i]] &&
              ChildrenLinked(b, root.notebooks[i])
    {
      ChildrenLinkedGrows(a, b, root.notebooks[i]);
    }
  }

  /** One turn of the ParseRoot loop on a Notebook element: the new notebook is appended and linked. */
  lemma NotebookTurn(p: UnknownElements, a: Arena, ts: seq<Token>, rr: Ref, root: RootObj)
    requires Allocated(a) && OnElement(ts, NotebookName) && RootLinked(a, rr, root)
    ensures var n := ParseNotebook(p, Alloc(a, NewItem(NotebookKind)).0, ts, a.next, Some(rr));
            n.Success? ==> Grows(a, n.value.arena) && Allocated(n.value.arena) &&
                           RootLinked(n.value.arena, rr, root.(notebooks := root.notebooks + [a.next]))
  {
    var (a1, nb) := Alloc(a, NewItem(NotebookKind));
    AllocAllocated(a, NewItem(NotebookKind));
    ParseNotebookFacts(p, a1, ts, nb, Some(rr));
    var n := ParseNotebook(p, a1, ts, nb, Some(rr));
    if n.Success? {
      var b := n.value.arena;
      AllocThenGrow(a, NewItem(NotebookKind), b);
      RootLinkedGrows(a, b, rr, root);
      assert ChildrenLinked(b, nb);
    }
  }

  /**
   * The ParseRoot loop: notebooks are appended in document order, each a new
   * notebook pointing back at the Root; open sections are new parentless
   * sections; no earlier item changes.
   */
  lemma {:induction false} ParseRootChildrenFacts(p: UnknownElements, a: Arena, ts: seq<Token>, rr: Ref, root: RootObj)
    requires Allocated(a) && RootLinked(a, rr, root)
    ensures var r := ParseRootChildren(p, a, ts, rr, root);
            r.Success? ==> Grows(a, r.value.arena) && Allocated(r.value.arena) &&
                           root.notebooks <= r.value.root.notebooks &&
                           (root.openSections.Some? ==> r.value.root.openSections.Some?) &&
                           RootLinked(r.value.arena, rr, r.value.root)
    decreases |ts|
  {
    if AtEndOrNone(ts) {
    } else if OnElement(ts, NotebookName) {
      NotebookTurn(p, a, ts, rr, root);
      var n := ParseNotebook(p, Alloc(a, NewItem(NotebookKind)).0, ts, a.next, Some(rr));
      if n.Success? {
        var root2 := root.(notebooks := root.notebooks + [a.next]);
        ParseRootChildrenFacts(p, n.value.arena, n.value.rest, rr, root2);
        var r := ParseRootChildren(p, n.value.arena, n.value.rest, rr, root2);
        if r.Success? {
          GrowsTrans(a, n.value.arena, r.value.arena);
          PrefixTrans(root.notebooks, root2.notebooks, r.value.root.notebooks);
        }
      }
    } else if OnElement(ts, OpenSectionsName) {
      ParseOpenSectionsFacts(p, a, ts);
      var o := ParseOpenSections(p, a, ts);
      if o.Success? {
        var root2 := root.(openSections := Some(o.value.open));
        RootLinkedGrows(a, o.value.arena, rr, root);
        ParseRootChildrenFacts(p, o.value.arena, o.value.rest, rr, root2);
        var r := ParseRootChildren(p, o.value.arena, o.value.rest, rr, root2);
        if r.Success? {
          GrowsTrans(a, o.value.arena, r.value.arena);
        }
      }
    } else {
      ParseRootChildrenFacts(p, a, PassOther(p, ts), rr, root);
    }
  }

  /**
   * ParseRoot: a Root reference that is not an item; an empty top element
   * gives a Root with no notebooks and no open sections; otherwise the
   * Root's notebooks and open sections are linked as above.
   */
  lemma ParseRootFacts(p: UnknownElements, a: Arena, ts: seq<Token>)
    requires Allocated(a)
    ensures var r := ParseRoot(p, a, ts);
            r.Success? ==> Grows(a, r.value.arena) && Allocated(r.value.arena) &&
                           r.value.rootRef == a.next && r.value.rootRef !in r.value.arena.items &&
                           RootLinked(r.value.arena, r.value.rootRef, r.value.root)
    ensures IsEmptyElement(ts) ==> ParseRoot(p, a, ts).Success? && ParseRoot(p, a, ts).value.root == NewRoot()
  {
    var (a1, rr) := AllocRef(a);
    if !IsEmptyElement(ts) && ts != [] && ts[0].Start? {
      ParseRootChildrenFacts(p, a1, ts[1..], rr, NewRoot());
    }
  }

  // ---------------------------------------------------------------------
  // Parse and ParseExisting.

  /** The kind of item each element name is parsed as. */
  function KindNamed(local: string): (k: Option<Kind>)
    ensures k.Some? <==> local in {NotebookName, SectionGroupName, SectionName, PageName}
  {
    if local == NotebookName then Some(NotebookKind)
    else if local == SectionGroupName then Some(SectionGroupKind)
    else if local == SectionName then Some(SectionKind)
    else if local == PageName then Some(PageKind)
    else None
  }

  /**
   * Parse dispatches on the top element's local name: a non-element is an
   * invalid node type, an unknown name an invalid element, a Section or
   * SectionGroup under anything but a notebook or section group (or a Page
   * under anything but a section) an invalid cast.
   */
  lemma ParseErrors(p: UnknownElements, a: Arena, ts: seq<Token>, parent: Option<Ref>)
    ensures ts == [] || !ts[0].Start? ==> Parse(p, a, ts, parent) == Failure(InvalidXmlNodeType)
    ensures ts != [] && ts[0].Start? && KindNamed(ts[0].name.local).None? ==>
              Parse(p, a, ts, parent) == Failure(InvalidXmlElement)
    ensures ts != [] && ts[0].Start? && ts[0].name.local in {SectionName, SectionGroupName} && !IsNotebookOrSectionGroup(a, parent) ==>
              Parse(p, a, ts, parent) == Failure(InvalidCast)
    ensures ts != [] && ts[0].Start? && ts[0].name.local == PageName && !IsSectionOrNull(a, parent) ==>
              Parse(p, a, ts, parent) == Failure(InvalidCast)
  {
  }

  /**
   * A successful Parse gives a new item of the kind the element names, with
   * the given Parent (a notebook gets no root), whose children are linked to
   * it; no earlier item changes.
   */
  lemma ParseFacts(p: UnknownElements, a: Arena, ts: seq<Token>, parent: Option<Ref>)
    requires Allocated(a)
    ensures var r := Parse(p, a, ts, parent);
            r.Success? ==>
              var b, x := r.value.arena, r.value.item;
              ts != [] && ts[0].Start? && Grows(a, b) && Allocated(b) && x !in a.items && x in b.items &&
              KindNamed(ts[0].name.local) == Some(b.items[x].KindOf()) && ChildrenLinked(b, x) &&
              (if b.items[x].body.Notebook? then b.items[x].RootRef() == None else b.items[x].Parent() == parent)
  {
    var r := Parse(p, a, ts, parent);
    if r.Success? {
      var k := KindNamed(ts[0].name.local).value;
      var (a1, x) := Alloc(a, NewItem(k));
      AllocAllocated(a, NewItem(k));
      assert ChildrenLinked(a1, x);
      if k == NotebookKind {
        ParseNotebookFacts(p, a1, ts, x, None);
      } else if k == SectionKind {
        ParseSectionFacts(p, a1, ts, x, parent);
      } else if k == SectionGroupKind {
        ParseSectionGroupFacts(p, a1, ts, x, parent);
      } else {
        ParsePageFacts(a1, ts, x, parent);
      }
      AllocThenGrow(a, NewItem(k), r.value.arena);
    }
  }

  /**
   * ParseExisting keeps the item's identity and position: its kind, its
   * Parent and its root back-reference are what they were, its lists are only
   * appended to (never cleared), and no other earlier item changes.
   */
  lemma ParseExistingFacts(p: UnknownElements, a: Arena, ts: seq<Token>, r: Ref)
    requires Allocated(a) && r in a.items
    ensures var res := ParseExisting(p, a, ts, r);
            res.Success? ==> Extends(a, res.value, r) && Allocated(res.value) && r in res.value.items &&
                             ChildrenAppended(a, res.value, r) &&
                             (ChildrenLinked(a, r) ==> ChildrenLinked(res.value, r))
    ensures ts == [] || !ts[0].Start? ==> ParseExisting(p, a, ts, r) == Success(a)
  {
    if ts != [] && ts[0].Start? {
      if a.items[r].body.Notebook? {
        ExistingNotebookFacts(p, a, ts, r);
      } else if a.items[r].body.SectionGroup? {
        ExistingGroupFacts(p, a, ts, r);
      } else if a.items[r].body.Section? {
        ExistingSectionFacts(p, a, ts, r);
      } else {
        ExistingPageFacts(p, a, ts, r);
      }
    }
  }

  /** ParseExisting on a section group: its Parent stays. */
  lemma ExistingGroupFacts(p: UnknownElements, a: Arena, ts: seq<Token>, r: Ref)
    requires Allocated(a) && r in a.items && a.items[r].body.SectionGroup? && ts != [] && ts[0].Start?
    ensures var res := ParseExisting(p, a, ts, r);
            res.Success? ==> Extends(a, res.value, r) && Allocated(res.value) && r in res.value.items &&
                             ChildrenAppended(a, res.value, r) &&
                             (ChildrenLinked(a, r) ==> ChildrenLinked(res.value, r))
  {
    var parent := a.items[r].body.parent;
    ParseSectionGroupFacts(p, a, ts, r, parent);
    var n := ParseSectionGroup(p, a, ts, r, parent);
    assert ParseExisting(p, a, ts, r) == if n.Success? then Success(n.value.arena) else Failure(n.error);
  }

  /** ParseExisting on a section: its Parent stays. */
  lemma ExistingSectionFacts(p: UnknownElements, a: Arena, ts: seq<Token>, r: Ref)
    requires Allocated(a) && r in a.items && a.items[r].body.Section? && ts != [] && ts[0].Start?
    ensures var res := ParseExisting(p, a, ts, r);
            res.Success? ==> Extends(a, res.value, r) && Allocated(res.value) && r in res.value.items &&
                             ChildrenAppended(a, res.value, r) &&
                             (ChildrenLinked(a, r) ==> ChildrenLinked(res.value, r))
  {
    var parent := a.items[r].body.parent;
    ParseSectionFacts(p, a, ts, r, parent);
    var n := ParseSection(p, a, ts, r, parent);
    assert ParseExisting(p, a, ts, r) == if n.Success? then Success(n.value.arena) else Failure(n.error);
  }

  /** ParseExisting on a page: its Parent stays. */
  lemma ExistingPageFacts(p: UnknownElements, a: Arena, ts: seq<Token>, r: Ref)
    requires Allocated(a) && r in a.items && a.items[r].body.Page? && ts != [] && ts[0].Start?
    ensures var res := ParseExisting(p, a, ts, r);
            res.Success? ==> Extends(a, res.value, r) && Allocated(res.value) && r in res.value.items &&
                             ChildrenAppended(a, res.value, r) &&
                             (ChildrenLinked(a, r) ==> ChildrenLinked(res.value, r))
  {
    var parent := a.items[r].body.parent;
    ParsePageFacts(a, ts, r, parent);
    var n := ParsePage(a, ts, r, parent);
    assert ParseExisting(p, a, ts, r) == if n.Success? then Success(n.value.arena) else Failure(n.error);
  }

  /** ParseExisting on a notebook: its root stays. */
  lemma ExistingNotebookFacts(p: UnknownElements, a: Arena, ts: seq<Token>, r: Ref)
    requires Allocated(a) && r in a.items && a.items[r].body.Notebook? && ts != [] && ts[0].Start?
    ensures var res := ParseExisting(p, a, ts, r);
            res.Success? ==> Extends(a, res.value, r) && Allocated(res.value) && r in res.value.items &&
                             ChildrenAppended(a, res.value, r) &&
                             (ChildrenLinked(a, r) ==> ChildrenLinked(res.value, r))
  {
    var root := a.items[r].body.root;
    ParseNotebookFacts(p, a, ts, r, root);
    var n := ParseNotebook(p, a, ts, r, root);
    assert ParseExisting(p, a, ts, r) == if n.Success? then Success(n.value.arena) else Failure(n.error);
  }

  // ---------------------------------------------------------------------
  // The attribute table.

  /** Applying one more attribute after a list is applying it to the list's result. */
  lemma {:induction false} ApplyAttributesSnoc(it: Item, attrs: seq<Attr>, at: Attr)
    ensures ApplyAttributes(it, attrs + [at]) ==
            (var v := ApplyAttributes(it, attrs); if v.Failure? then Failure(v.error) else ApplyAttribute(v.value, at))
    decreases |attrs|
  {
    if attrs == [] {
      assert [at][1..] == [];
    } else {
      assert (attrs + [at])[1..] == attrs[1..] + [at];
      var next := ApplyAttribute(it, attrs[0]);
      if next.Success? {
        ApplyAttributesSnoc(next.value, attrs[1..], at);
      }
    }
  }

  /** The isInRecycleBin row: decoded (and able to fail) only on a page or a section. */
  lemma RecycleBinRow(b: Body, at: Attr)
    requires at.name == IsInRecycleBinAttr
    ensures ApplyKindAttribute(b, at).Failure? <==> (b.Page? || b.Section?) && BoolParse(at.value).Failure?
    ensures ApplyKindAttribute(b, at).Failure? ==> ApplyKindAttribute(b, at).error == Format
  {
  }

  /** A bool row decodes its value with bool.Parse and fails exactly when that does. */
  predicate BoolRow(b: Body, at: Attr) {
    ApplyKindAttribute(b, at).Failure? <==> BoolParse(at.value).Failure?
  }

  lemma IsRecycleBinRow(b: Body, at: Attr)
    requires at.name == IsRecycleBinAttr
    ensures BoolRow(b, at) && (ApplyKindAttribute(b, at).Failure? ==> ApplyKindAttribute(b, at).error == Format)
  {
  }

  lemma EncryptedRow(b: Body, at: Attr)
    requires at.name == EncryptedAttr
    ensures BoolRow(b, at) && (ApplyKindAttribute(b, at).Failure? ==> ApplyKindAttribute(b, at).error == Format)
  {
  }

  lemma LockedRow(b: Body, at: Attr)
    requires at.name == LockedAttr
    ensures BoolRow(b, at) && (ApplyKindAttribute(b, at).Failure? ==> ApplyKindAttribute(b, at).error == Format)
  {
  }

  lemma IsDeletedPagesRow(b: Body, at: Attr)
    requires at.name == IsDeletedPagesAttr
    ensures BoolRow(b, at) && (ApplyKindAttribute(b, at).Failure? ==> ApplyKindAttribute(b, at).error == Format)
  {
  }

  /** The other bool rows: decoded whatever the kind, even where the field is then dropped. */
  lemma BoolRows(b: Body, at: Attr)
    requires at.name == IsRecycleBinAttr || at.name == EncryptedAttr || at.name == LockedAttr || at.name == IsDeletedPagesAttr
    ensures ApplyKindAttribute(b, at).Failure? <==> BoolParse(at.value).Failure?
    ensures ApplyKindAttribute(b, at).Failure? ==> ApplyKindAttribute(b, at).error == Format
  {
    if at.name == IsRecycleBinAttr {
      IsRecycleBinRow(b, at);
    } else if at.name == EncryptedAttr {
      EncryptedRow(b, at);
    } else if at.name == LockedAttr {
      LockedRow(b, at);
    } else {
      IsDeletedPagesRow(b, at);
    }
  }

  /** Every other row, and every name the table lacks, cannot fail. */
  lemma TextRows(b: Body, at: Attr)
    requires at.name !in {IsInRecycleBinAttr, IsRecycleBinAttr, EncryptedAttr, LockedAttr, IsDeletedPagesAttr}
    ensures ApplyKindAttribute(b, at).Success?
  {
  }

  /** The kind-specific rows fail exactly on a bool attribute of that kind that bool.Parse rejects. */
  lemma KindAttributeFails(b: Body, at: Attr)
    requires at.name != IsUnreadAttr
    ensures ApplyKindAttribute(b, at).Failure? <==>
            IsBoolAttributeOf(LinksOf(b).kind, at.name) && BoolParse(at.value).Failure?
    ensures ApplyKindAttribute(b, at).Failure? ==> ApplyKindAttribute(b, at).error == Format
  {
    var n := at.name;
    if n == IsInRecycleBinAttr {
      RecycleBinRow(b, at);
    } else {
      assert IsBoolAttributeOf(LinksOf(b).kind, n) <==> n in {IsRecycleBinAttr, EncryptedAttr, LockedAttr, IsDeletedPagesAttr};
      if n in {IsRecycleBinAttr, EncryptedAttr, LockedAttr, IsDeletedPagesAttr} {
        BoolRows(b, at);
      } else {
        TextRows(b, at);
      }
    }
  }

  /** One attribute fails exactly when its kind decodes it with bool.Parse and that rejects it. */
  lemma OneAttributeFails(it: Item, at: Attr)
    ensures ApplyAttribute(it, at).Failure? <==> IsBoolAttributeOf(it.KindOf(), at.name) && BoolParse(at.value).Failure?
    ensures ApplyAttribute(it, at).Failure? ==> ApplyAttribute(it, at).error == Format
    ensures ApplyAttribute(it, at).Success? ==> ApplyAttribute(it, at).value.KindOf() == it.KindOf()
  {
    if at.name !in {IdAttr, NameAttr, LastModifiedTimeAttr, IsUnreadAttr} {
      KindAttributeFails(it.body, at);
    }
  }

  /**
   * SetAttributes fails exactly when an attribute that the item's kind
   * decodes with bool.Parse holds text bool.Parse rejects; the error is then
   * a format error.
   */
  lemma {:induction false} ApplyAttributesFails(it: Item, attrs: seq<Attr>)
    ensures ApplyAttributes(it, attrs).Failure? <==>
            exists i | 0 <= i < |attrs| :: IsBoolAttributeOf(it.KindOf(), attrs[i].name) && BoolParse(attrs[i].value).Failure?
    ensures ApplyAttributes(it, attrs).Failure? ==> ApplyAttributes(it, attrs).error == Format
    decreases |attrs|
  {
    if attrs != [] {
      var next := ApplyAttribute(it, attrs[0]);
      OneAttributeFails(it, attrs[0]);
      if next.Success? {
        ApplyAttributesFails(next.value, attrs[1..]);
        if exists i | 0 <= i < |attrs| :: IsBoolAttributeOf(it.KindOf(), attrs[i].name) && BoolParse(attrs[i].value).Failure? {
          var i :| 0 <= i < |attrs| && IsBoolAttributeOf(it.KindOf(), attrs[i].name) && BoolParse(attrs[i].value).Failure?;
          assert attrs[1..][i - 1] == attrs[i];
        }
        if exists j | 0 <= j < |attrs[1..]| :: IsBoolAttributeOf(it.KindOf(), attrs[1..][j].name) && BoolParse(attrs[1..][j].value).Failure? {
          var j :| 0 <= j < |attrs[1..]| && IsBoolAttributeOf(it.KindOf(), attrs[1..][j].name) && BoolParse(attrs[1..][j].value).Failure?;
          assert attrs[j + 1] == attrs[1..][j];
        }
      }
    }
  }

  /** Which fields one attribute writes, for the fields every kind has and a notebook's display name. */
  lemma OneAttributeWrites(it: Item, at: Attr)
    ensures var r := ApplyAttribute(it, at);
            r.Success? ==>
              r.value.id == (if at.name == IdAttr then Some(at.value) else it.id) &&
              r.value.name == (if at.name == NameAttr then at.value else it.name) &&
              r.value.lastModified == (if at.name == LastModifiedTimeAttr then Some(at.value) else it.lastModified) &&
              (it.body.Notebook? ==>
                 r.value.body.Notebook? &&
                 r.value.body.displayName == (if at.name == NickNameAttr then at.value else it.body.displayName))
  {
    if at.name !in {IdAttr, NameAttr, LastModifiedTimeAttr, IsUnreadAttr} && it.body.Notebook? {
      NotebookRowWrites(it.body, at);
    }
  }

  /** On a notebook, the kind-specific rows write the display name for nickname and keep it otherwise. */
  lemma NotebookRowWrites(b: Body, at: Attr)
    requires b.Notebook?
    ensures var r := ApplyKindAttribute(b, at);
            r.Success? ==> r.value.Notebook? &&
                           r.value.displayName == (if at.name == NickNameAttr then at.value else b.displayName)
  {
    if at.name == NickNameAttr {
    } else if at.name in {IsRecycleBinAttr, EncryptedAttr, LockedAttr, IsDeletedPagesAttr} {
    }
  }

  /** The value an attribute list leaves in a field: the last occurrence's, or what was there. */
  function Final(attrs: seq<Attr>, name: string, old_: string): string {
    var v := LastValue(attrs, name);
    if v.Some? then v.value else old_
  }

  /**
   * Every attribute writes its field, so the last occurrence of a name wins:
   * ID, name and lastModifiedTime of every kind, and nickname (the display
   * name) of a notebook; attributes the table does not name are ignored.
   */
  lemma {:induction false} LastAttributeWins(it: Item, attrs: seq<Attr>)
    ensures var r := ApplyAttributes(it, attrs);
            r.Success? ==>
              r.value.id == (if LastValue(attrs, IdAttr).Some? then LastValue(attrs, IdAttr) else it.id) &&
              r.value.name == Final(attrs, NameAttr, it.name) &&
              r.value.lastModified == (if LastValue(attrs, LastModifiedTimeAttr).Some? then LastValue(attrs, LastModifiedTimeAttr) else it.lastModified) &&
              (it.body.Notebook? ==> r.value.body.Notebook? && r.value.body.displayName == Final(attrs, NickNameAttr, it.body.displayName))
    decreases |attrs|
  {
    if attrs != [] {
      var init, last := attrs[..|attrs| - 1], attrs[|attrs| - 1];
      assert attrs == init + [last];
      ApplyAttributesSnoc(it, init, last);
      LastAttributeWins(it, init);
      var v := ApplyAttributes(it, init);
      if v.Success? {
        OneAttributeWrites(v.value, last);
      }
    }
  }
}
