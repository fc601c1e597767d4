/**
 * What the DOM engine guarantees about the hierarchy it builds: a notebook
 * or section group gains one section per Section child element and one
 * group per SectionGroup child element, in document order; a section's
 * pages are all of its child elements, whatever their names; every new item
 * points at its container; ParseRoot lists exactly the Notebook child
 * elements and OpenSections exactly when that element is present.
 */
module XElementProperties {
  import opened Base
  import opened Xml
  import opened Hierarchy
  import opened XElementSpec
  import P = XmlReaderProperties
  import R = XmlReaderSpec

  /** How many of the nodes are elements with that name. */
  function CountNamed(ns: seq<Node>, local: string): nat {
    if ns == [] then 0 else (if Named(ns[0], local) then 1 else 0) + CountNamed(ns[1..], local)
  }

  /** How many of the nodes are elements. */
  function CountElements(ns: seq<Node>): nat {
    if ns == [] then 0 else (if ns[0].Element? then 1 else 0) + CountElements(ns[1..])
  }

  /**
   * What Parse<T> leaves behind for the item `r` parsed from child nodes
   * `ns`: only `r` and new items changed; `r` keeps its kind; a notebook
   * keeps its root and anything else takes `parent`; a container's lists
   * grow by exactly its Section and SectionGroup elements; a section's pages
   * are replaced by one linked page per child element.
   */
  predicate ParsedInto(a: Arena, b: Arena, r: Ref, parent: Option<Ref>, ns: seq<Node>)
    requires r in a.items
  {
    var x := LinksOf(a.items[r].body);
    Extends(a, b, r) && Allocated(b) && r in b.items &&
    var y := LinksOf(b.items[r].body);
    y.kind == x.kind &&
    (x.kind == NotebookKind ==> y.root == x.root && y.parent == None) &&
    (x.kind != NotebookKind ==> y.parent == parent) &&
    (a.items[r].IsContainer() ==>
       x.sections <= y.sections && x.sectionGroups <= y.sectionGroups &&
       |y.sections| == |x.sections| + CountNamed(ns, SectionName) &&
       |y.sectionGroups| == |x.sectionGroups| + CountNamed(ns, SectionGroupName) &&
       (ChildrenLinked(a, r) ==> ChildrenLinked(b, r))) &&
    (x.kind == SectionKind ==> |y.pages| == CountElements(ns) && ChildrenLinked(b, r))
  }

  /** What SetAttributes leaves behind: only the item's own fields differ. */
  predicate AttributesSet(a: Arena, b: Arena, r: Ref)
    requires r in a.items
  {
    Extends(a, b, r) && Allocated(b) && r in b.items && SameLinks(a.items[r], b.items[r]) &&
    (ChildrenLinked(a, r) ==> ChildrenLinked(b, r))
  }

  /** What the child loop leaves behind for the container `c`. */
  predicate ChildrenParsed(a: Arena, b: Arena, c: Ref, ns: seq<Node>)
    requires c in a.items
  {
    Extends(a, b, c) && Allocated(b) && c in b.items && ChildrenAppended(a, b, c) &&
    |LinksOf(b.items[c].body).sections| == |LinksOf(a.items[c].body).sections| + CountNamed(ns, SectionName) &&
    |LinksOf(b.items[c].body).sectionGroups| == |LinksOf(a.items[c].body).sectionGroups| + CountNamed(ns, SectionGroupName) &&
    (ChildrenLinked(a, c) ==> ChildrenLinked(b, c))
  }

  /** What the page list leaves behind: new pages, each linked to the section `s`. */
  predicate PagesParsed(a: Arena, b: Built, s: Ref, n: nat) {
    Grows(a, b.arena) && Allocated(b.arena) && |b.refs| == n &&
    forall i | 0 <= i < |b.refs| :: LinkedTo(b.arena, b.refs[i], PageKind, s)
  }

  /** SetAttributes rewrites only the item's own fields. */
  lemma SetAttributesFrame(a: Arena, r: Ref, attrs: seq<Attr>)
    requires Allocated(a) && r in a.items
    ensures var b := SetAttributes(a, r, attrs);
            b.Success? ==> AttributesSet(a, b.value, r)
  {
    var b := SetAttributes(a, r, attrs);
    if b.Success? && ChildrenLinked(a, r) {
      P.ChildrenLinkedKept(a, b.value, r);
    }
  }

  // ---------------------------------------------------------------------
  // Parse<T> and the loops it runs.

  lemma {:induction false} ParseIntoFacts(a: Arena, e: Node, r: Ref, parent: Option<Ref>)
    requires Allocated(a) && r in a.items && e.Element?
    ensures var res := ParseInto(a, e, r, parent);
            res.Success? ==> ParsedInto(a, res.value, r, parent, e.children)
    decreases e, 2
  {
    match a.items[r].body
    case Notebook(_, _, _, _, _, _) => ParseIntoNotebook(a, e, r, parent);
    case SectionGroup(_, _, _, _, _) => ParseIntoGroup(a, e, r, parent);
    case Section(_, _, _, _, _, _, _, _) => ParseIntoSection(a, e, r, parent);
    case Page(_, _, _, _) => ParseIntoPage(a, e, r, parent);
  }

  lemma {:induction false} ParseIntoNotebook(a: Arena, e: Node, r: Ref, parent: Option<Ref>)
    requires Allocated(a) && r in a.items && e.Element? && a.items[r].body.Notebook?
    ensures var res := ParseInto(a, e, r, parent);
            res.Success? ==> ParsedInto(a, res.value, r, parent, e.children)
    decreases e, 1
  {
    var a1 := SetAttributes(a, r, e.attrs);
    if a1.Success? {
      SetAttributesFrame(a, r, e.attrs);
      assert a1.value.items[r].body.Notebook?;
      ParseChildrenFacts(a1.value, e.children, r);
      var b := ParseChildren(a1.value, e.children, r);
      if b.Success? {
        NotebookDone(a, a1.value, b.value, r, parent, e.children);
      }
    }
  }

  lemma NotebookDone(a: Arena, a1: Arena, b: Arena, r: Ref, parent: Option<Ref>, ns: seq<Node>)
    requires r in a.items && a.items[r].body.Notebook? && AttributesSet(a, a1, r) && ChildrenParsed(a1, b, r, ns)
    ensures ParsedInto(a, b, r, parent, ns)
  {
    ExtendsTrans(a, a1, b, r);
  }

  lemma {:induction false} ParseIntoGroup(a: Arena, e: Node, r: Ref, parent: Option<Ref>)
    requires Allocated(a) && r in a.items && e.Element? && a.items[r].body.SectionGroup?
    ensures var res := ParseInto(a, e, r, parent);
            res.Success? ==> ParsedInto(a, res.value, r, parent, e.children)
    decreases e, 1
  {
    var a1 := SetAttributes(a, r, e.attrs);
    if a1.Success? {
      SetAttributesFrame(a, r, e.attrs);
      assert a1.value.items[r].body.SectionGroup?;
      ParseChildrenFacts(a1.value, e.children, r);
      var b := ParseChildren(a1.value, e.children, r);
      if b.Success? && AsContainer(b.value, parent).Success? {
        GroupDone(a, a1.value, b.value, r, parent, e.children);
      }
    }
  }

  lemma GroupDone(a: Arena, a1: Arena, b: Arena, r: Ref, parent: Option<Ref>, ns: seq<Node>)
    requires r in a.items && a.items[r].body.SectionGroup? && AttributesSet(a, a1, r) && ChildrenParsed(a1, b, r, ns)
    ensures ParsedInto(a, SetParent(b, r, parent), r, parent, ns)
  {
    var d := SetParent(b, r, parent);
    ExtendsTrans(a, a1, b, r);
    ExtendsTrans(a, b, d, r);
    if ChildrenLinked(a, r) {
      P.ChildrenLinkedKept(b, d, r);
    }
  }

  /** Parse<Section>: the pages list is replaced by the pages built. */
  lemma {:induction false} ParseIntoSection(a: Arena, e: Node, r: Ref, parent: Option<Ref>)
    requires Allocated(a) && r in a.items && e.Element? && a.items[r].body.Section?
    ensures var res := ParseInto(a, e, r, parent);
            res.Success? ==> ParsedInto(a, res.value, r, parent, e.children)
    decreases e, 1
  {
    var a1 := SetAttributes(a, r, e.attrs);
    if a1.Success? {
      SetAttributesFrame(a, r, e.attrs);
      assert a1.value.items[r].body.Section?;
      ParsePagesFacts(a1.value, e.children, r, []);
      var built := ParsePages(a1.value, e.children, r, []);
      if built.Success? && AsContainer(built.value.arena, parent).Success? {
        SectionDone(a, a1.value, built.value, r, parent, e.children);
      }
    }
  }

  lemma SectionDone(a: Arena, a1: Arena, built: Built, r: Ref, parent: Option<Ref>, ns: seq<Node>)
    requires r in a.items && a.items[r].body.Section? && AttributesSet(a, a1, r)
    requires PagesParsed(a1, built, r, CountElements(ns))
    ensures ParsedInto(a, SetParent(AssignPages(built.arena, r, built.refs), r, parent), r, parent, ns)
  {
    var b := built.arena;
    var d0 := AssignPages(b, r, built.refs);
    ExtendsTrans(a, a1, b, r);
    ExtendsTrans(a, b, d0, r);
    ExtendsTrans(a, d0, SetParent(d0, r, parent), r);
    PagesAssigned(b, r, built.refs, parent);
  }

  /** The section whose pages were replaced by pages linked to it has all its children linked. */
  lemma PagesAssigned(b: Arena, r: Ref, pages: seq<Ref>, parent: Option<Ref>)
    requires r in b.items && b.items[r].body.Section? && Allocated(b)
    requires forall i | 0 <= i < |pages| :: LinkedTo(b, pages[i], PageKind, r)
    ensures var d := SetParent(AssignPages(b, r, pages), r, parent);
            Allocated(d) && r in d.items && d.items[r].body.Section? && d.items[r].body.pages == pages &&
            d.items[r].Parent() == parent && ChildrenLinked(d, r)
  {
    var d := SetParent(AssignPages(b, r, pages), r, parent);
    forall i | 0 <= i < |pages|
      ensures LinkedTo(d, pages[i], PageKind, r)
    {
      assert LinkedTo(b, pages[i], PageKind, r);
    }
  }

  lemma ParseIntoPage(a: Arena, e: Node, r: Ref, parent: Option<Ref>)
    requires Allocated(a) && r in a.items && e.Element? && a.items[r].body.Page?
    ensures var res := ParseInto(a, e, r, parent);
            res.Success? ==> ParsedInto(a, res.value, r, parent, e.children)
  {
    var a1 := SetAttributes(a, r, e.attrs);
    if a1.Success? {
      SetAttributesFrame(a, r, e.attrs);
      assert a1.value.items[r].body.Page?;
      PageDone(a, a1.value, r, parent, e.children);
    }
  }

  lemma PageDone(a: Arena, a1: Arena, r: Ref, parent: Option<Ref>, ns: seq<Node>)
    requires r in a.items && a.items[r].body.Page? && AttributesSet(a, a1, r)
    ensures ParsedInto(a, SetParent(a1, r, parent), r, parent, ns)
  {
    ExtendsTrans(a, a1, SetParent(a1, r, parent), r);
  }

  /** A new item parsed under `c` is linked to `c`, and nothing old changed. */
  lemma NewChildParsed(a: Arena, a2: Arena, k: Kind, c: Ref, ns: seq<Node>)
    requires Allocated(a) && c in a.items && k != NotebookKind
    requires var (a1, x) := Alloc(a, NewItem(k)); x in a1.items && ParsedInto(a1, a2, x, Some(c), ns)
    ensures Grows(a, a2) && Allocated(a2) && a.next !in a.items && LinkedTo(a2, a.next, k, c)
  {
    AllocThenGrow(a, NewItem(k), a2);
  }

  /**
   * The page list: every child element becomes one new page whose Parent is
   * the section; nothing that existed before changes.
   */
  lemma {:induction false} ParsePagesFacts(a: Arena, ns: seq<Node>, s: Ref, acc: seq<Ref>)
    requires Allocated(a) && s in a.items && a.items[s].body.Section?
    requires forall i | 0 <= i < |acc| :: LinkedTo(a, acc[i], PageKind, s)
    ensures var res := ParsePages(a, ns, s, acc);
            res.Success? ==> PagesParsed(a, res.value, s, |acc| + CountElements(ns))
    decreases ns, 0
  {
    if ns != [] && ns[0].Element? {
      var (a1, pg) := Alloc(a, NewItem(PageKind));
      ParseIntoFacts(a1, ns[0], pg, Some(s));
      var a2 := ParseInto(a1, ns[0], pg, Some(s));
      if a2.Success? {
        NewChildParsed(a, a2.value, PageKind, s, ns[0].children);
        var acc' := acc + [pg];
        forall i | 0 <= i < |acc'|
          ensures LinkedTo(a2.value, acc'[i], PageKind, s)
        {
          if i < |acc| {
            assert LinkedTo(a, acc[i], PageKind, s);
          }
        }
        ParsePagesFacts(a2.value, ns[1..], s, acc');
        var res := ParsePages(a2.value, ns[1..], s, acc');
        if res.Success? {
          GrowsTrans(a, a2.value, res.value.arena);
        }
      }
    } else if ns != [] {
      ParsePagesFacts(a, ns[1..], s, acc);
    }
  }

  /**
   * The child loop of a notebook or section group: each Section element
   * appends one new section, each SectionGroup element one new group, both
   * with the container as Parent; nothing else changes the container.
   */
  lemma {:induction false} ParseChildrenFacts(a: Arena, ns: seq<Node>, c: Ref)
    requires Allocated(a) && c in a.items && a.items[c].IsContainer()
    ensures var res := ParseChildren(a, ns, c);
            res.Success? ==> ChildrenParsed(a, res.value, c, ns)
    decreases ns, 0
  {
    if ns == [] {
    } else if Named(ns[0], SectionName) {
      var (a1, s) := Alloc(a, NewItem(SectionKind));
      ParseIntoFacts(a1, ns[0], s, Some(c));
      var a2 := ParseInto(a1, ns[0], s, Some(c));
      if a2.Success? {
        NewChildParsed(a, a2.value, SectionKind, c, ns[0].children);
        P.AppendSectionStep(a, a2.value, c, s);
        var a3 := AppendSection(a2.value, c, s);
        ParseChildrenFacts(a3, ns[1..], c);
        var res := ParseChildren(a3, ns[1..], c);
        if res.Success? {
          ChildrenParsedStep(a, a3, res.value, c, ns);
        }
      }
    } else if Named(ns[0], SectionGroupName) {
      var (a1, g) := Alloc(a, NewItem(SectionGroupKind));
      ParseIntoFacts(a1, ns[0], g, Some(c));
      var a2 := ParseInto(a1, ns[0], g, Some(c));
      if a2.Success? {
        NewChildParsed(a, a2.value, SectionGroupKind, c, ns[0].children);
        P.AppendSectionGroupStep(a, a2.value, c, g);
        var a3 := AppendSectionGroup(a2.value, c, g);
        ParseChildrenFacts(a3, ns[1..], c);
        var res := ParseChildren(a3, ns[1..], c);
        if res.Success? {
          ChildrenParsedStep(a, a3, res.value, c, ns);
        }
      }
    } else {
      ParseChildrenFacts(a, ns[1..], c);
    }
  }

  /** One turn of the child loop followed by the rest of it. */
  lemma ChildrenParsedStep(a: Arena, a3: Arena, b: Arena, c: Ref, ns: seq<Node>)
    requires ns != [] && Allocated(a) && c in a.items && a.items[c].IsContainer()
    requires Extends(a, a3, c) && c in a3.items && ChildrenAppended(a, a3, c)
    requires |LinksOf(a3.items[c].body).sections| == |LinksOf(a.items[c].body).sections| + (if Named(ns[0], SectionName) then 1 else 0)
    requires |LinksOf(a3.items[c].body).sectionGroups| == |LinksOf(a.items[c].body).sectionGroups| + (if Named(ns[0], SectionGroupName) then 1 else 0)
    requires ChildrenLinked(a, c) ==> ChildrenLinked(a3, c)
    requires ChildrenParsed(a3, b, c, ns[1..])
    ensures ChildrenParsed(a, b, c, ns)
  {
    ExtendsTrans(a, a3, b, c);
    P.ChildrenAppendedTrans(a, a3, b, c);
  }

  // ---------------------------------------------------------------------
  // ParseRoot

  /** A new notebook, parsed and given its Root, joins the Root's linked notebooks. */
  lemma NotebookStep(a: Arena, a2: Arena, rr: Ref, acc: seq<Ref>, ns: seq<Node>)
    requires Allocated(a) && P.NotebooksOf(a, rr, acc)
    requires var (a1, nb) := Alloc(a, NewItem(NotebookKind)); nb in a1.items && ParsedInto(a1, a2, nb, None, ns)
    ensures var a3 := SetRoot(a2, a.next, Some(rr));
            Grows(a, a3) && Allocated(a3) && P.NotebooksOf(a3, rr, acc + [a.next])
  {
    var (a1, nb) := Alloc(a, NewItem(NotebookKind));
    var a3 := SetRoot(a2, nb, Some(rr));
    assert ChildrenLinked(a1, nb);
    AllocThenGrow(a, NewItem(NotebookKind), a2);
    P.ChildrenLinkedKept(a2, a3, nb);
    forall i | 0 <= i < |acc|
      ensures acc[i] in a3.items && a3.items[acc[i]].body.Notebook? &&
              a3.items[acc[i]].RootRef() == Some(rr) && ChildrenLinked(a3, acc[i])
    {
      P.ChildrenLinkedGrows(a, a3, acc[i]);
    }
  }

  /**
   * The notebook list: one new notebook per Notebook child element, in
   * document order, each with the Root as its root and its children linked.
   */
  lemma {:induction false} ParseNotebooksFacts(a: Arena, ns: seq<Node>, rr: Ref, acc: seq<Ref>)
    requires Allocated(a) && P.NotebooksOf(a, rr, acc)
    ensures var res := ParseNotebooks(a, ns, rr, acc);
            res.Success? ==> Grows(a, res.value.arena) && Allocated(res.value.arena) &&
                             P.NotebooksOf(res.value.arena, rr, res.value.refs) &&
                             acc <= res.value.refs && |res.value.refs| == |acc| + CountNamed(ns, NotebookName)
    decreases ns
  {
    if ns != [] && Named(ns[0], NotebookName) {
      var (a1, nb) := Alloc(a, NewItem(NotebookKind));
      ParseIntoFacts(a1, ns[0], nb, None);
      var a2 := ParseInto(a1, ns[0], nb, None);
      if a2.Success? {
        NotebookStep(a, a2.value, rr, acc, ns[0].children);
        var a3 := SetRoot(a2.value, nb, Some(rr));
        ParseNotebooksFacts(a3, ns[1..], rr, acc + [nb]);
        var res := ParseNotebooks(a3, ns[1..], rr, acc + [nb]);
        if res.Success? {
          GrowsTrans(a, a3, res.value.arena);
          P.PrefixTrans(acc, acc + [nb], res.value.refs);
        }
      }
    } else if ns != [] {
      ParseNotebooksFacts(a, ns[1..], rr, acc);
    }
  }

  /**
   * The open-section list: one new section per child element, whatever its
   * name, each with no Parent.
   */
  lemma {:induction false} ParseOpenSectionListFacts(a: Arena, ns: seq<Node>, acc: seq<Ref>)
    requires Allocated(a) && P.OpenSectionsLinked(a, acc)
    ensures var res := ParseOpenSectionList(a, ns, acc);
            res.Success? ==> Grows(a, res.value.arena) && Allocated(res.value.arena) &&
                             P.OpenSectionsLinked(res.value.arena, res.value.refs) &&
                             acc <= res.value.refs && |res.value.refs| == |acc| + CountElements(ns)
    decreases ns
  {
    if ns != [] && ns[0].Element? {
      var (a1, s) := Alloc(a, NewItem(SectionKind));
      ParseIntoFacts(a1, ns[0], s, None);
      var a2 := ParseInto(a1, ns[0], s, None);
      if a2.Success? {
        AllocThenGrow(a, NewItem(SectionKind), a2.value);
        assert P.OpenSectionsLinked(a2.value, acc + [s]) by {
          forall i | 0 <= i < |acc| + 1
            ensures P.ItemIs(a2.value, (acc + [s])[i], SectionKind, None)
          {
            if i < |acc| {
              assert P.ItemIs(a, acc[i], SectionKind, None);
            }
          }
        }
        ParseOpenSectionListFacts(a2.value, ns[1..], acc + [s]);
        var res := ParseOpenSectionList(a2.value, ns[1..], acc + [s]);
        if res.Success? {
          GrowsTrans(a, a2.value, res.value.arena);
          P.PrefixTrans(acc, acc + [s], res.value.refs);
        }
      }
    } else if ns != [] {
      ParseOpenSectionListFacts(a, ns[1..], acc);
    }
  }

  /**
   * ParseRoot: a document that is not an element is rejected; otherwise the
   * Root lists one linked notebook per Notebook child element, and it has
   * OpenSections exactly when there is an OpenSections child element, with
   * that element's ID and one section per child element.
   */
  lemma ParseRootFacts(a: Arena, e: Node)
    requires Allocated(a)
    ensures !e.Element? ==> ParseRoot(a, e) == Failure(XmlMalformed)
    ensures var res := ParseRoot(a, e);
            res.Success? ==>
              e.Element? && Grows(a, res.value.arena) && Allocated(res.value.arena) &&
              res.value.rootRef == a.next && res.value.rootRef !in res.value.arena.items &&
              P.RootLinked(res.value.arena, res.value.rootRef, res.value.root) &&
              |res.value.root.notebooks| == CountNamed(e.children, NotebookName) &&
              var os := FirstNamed(e.children, OpenSectionsName);
              (res.value.root.openSections.Some? <==> os.Some?) &&
              (os.Some? ==> res.value.root.openSections.value.id == AttributeValue(os.value.attrs, IdAttr) &&
                            res.value.root.openSections.value.id.Some? &&
                            |res.value.root.openSections.value.sections| == CountElements(os.value.children))
  {
    if e.Element? {
      var (a1, rr) := AllocRef(a);
      ParseNotebooksFacts(a1, e.children, rr, []);
      var notebooks := ParseNotebooks(a1, e.children, rr, []);
      var os := FirstNamed(e.children, OpenSectionsName);
      if notebooks.Success? && os.Some? {
        ParseOpenSectionListFacts(notebooks.value.arena, os.value.children, []);
        var sections := ParseOpenSectionList(notebooks.value.arena, os.value.children, []);
        if sections.Success? {
          NotebooksGrow(notebooks.value.arena, sections.value.arena, rr, notebooks.value.refs);
        }
      }
    }
  }

  lemma NotebooksGrow(a: Arena, b: Arena, rr: Ref, notebooks: seq<Ref>)
    requires Grows(a, b) && P.NotebooksOf(a, rr, notebooks)
    ensures P.NotebooksOf(b, rr, notebooks)
  {
    P.RootLinkedGrows(a, b, rr, RootObj(notebooks, None));
  }

  /** An OpenSections element without an ID attribute makes ParseRoot fail. */
  lemma ParseRootNeedsOpenSectionsId(a: Arena, e: Node)
    requires e.Element? && FirstNamed(e.children, OpenSectionsName).Some?
    requires forall i | 0 <= i < |FirstNamed(e.children, OpenSectionsName).value.attrs| ::
               FirstNamed(e.children, OpenSectionsName).value.attrs[i].name != IdAttr
    ensures ParseRoot(a, e).Failure?
    ensures var (a1, rr) := AllocRef(a);
            ParseNotebooks(a1, e.children, rr, []).Success? ==> ParseRoot(a, e) == Failure(NullReference)
  {
  }

  // ---------------------------------------------------------------------
  // Parse and ParseExisting

  /**
   * Parse: a text node is rejected as malformed XML and an element of any
   * other name than Notebook, SectionGroup, Section or Page as an invalid
   * element; otherwise the result is a new item of the kind the name selects,
   * parsed from the element with `parent` as its Parent (a notebook has none).
   */
  lemma ParseFacts(a: Arena, e: Node, parent: Option<Ref>)
    requires Allocated(a)
    ensures !e.Element? ==> Parse(a, e, parent) == Failure(XmlMalformed)
    ensures e.Element? && KindOfName(e.name).None? ==> Parse(a, e, parent) == Failure(InvalidXmlElement)
    ensures var res := Parse(a, e, parent);
            res.Success? ==>
              e.Element? && KindOfName(e.name).Some? && res.value.item == a.next && a.next !in a.items &&
              Grows(a, res.value.arena) &&
              ParsedInto(Alloc(a, NewItem(KindOfName(e.name).value)).0, res.value.arena, a.next, parent, e.children) &&
              res.value.arena.items[a.next].KindOf() == KindOfName(e.name).value &&
              ChildrenLinked(res.value.arena, a.next)
  {
    if e.Element? && KindOfName(e.name).Some? {
      var k := KindOfName(e.name).value;
      var (a1, r) := Alloc(a, NewItem(k));
      ParseIntoFacts(a1, e, r, parent);
      var a2 := ParseInto(a1, e, r, parent);
      if a2.Success? {
        AllocThenGrow(a, NewItem(k), a2.value);
        assert ChildrenLinked(a1, r);
      }
    }
  }

  /** The cast Parse<T> applies to the parent, by kind. */
  predicate ParentFits(a: Arena, k: Kind, parent: Option<Ref>) {
    parent.None? ||
    (parent.value in a.items &&
     (k == PageKind ==> a.items[parent.value].body.Section?) &&
     (k == SectionKind || k == SectionGroupKind ==> a.items[parent.value].IsContainer()))
  }

  /**
   * Parse<T> only succeeds when the parent has the type its cast demands: a
   * section for a page, a notebook or section group for a section or group.
   */
  lemma ParseIntoChecksParent(a: Arena, e: Node, r: Ref, parent: Option<Ref>)
    requires Allocated(a) && r in a.items && e.Element?
    requires parent.Some? ==> parent.value in a.items && parent.value != r
    ensures ParseInto(a, e, r, parent).Success? ==> ParentFits(a, a.items[r].KindOf(), parent)
  {
    var a1 := SetAttributes(a, r, e.attrs);
    if a1.Success? {
      SetAttributesFrame(a, r, e.attrs);
      match a.items[r].body
      case Notebook(_, _, _, _, _, _) =>
      case SectionGroup(_, _, _, _, _) =>
        assert a1.value.items[r].body.SectionGroup?;
        ParseChildrenFacts(a1.value, e.children, r);
        var b := ParseChildren(a1.value, e.children, r);
        if b.Success? && AsContainer(b.value, parent).Success? {
          ExtendsTrans(a, a1.value, b.value, r);
        }
      case Section(_, _, _, _, _, _, _, _) =>
        assert a1.value.items[r].body.Section?;
        ParsePagesFacts(a1.value, e.children, r, []);
        var built := ParsePages(a1.value, e.children, r, []);
        if built.Success? && AsContainer(built.value.arena, parent).Success? {
          GrowsThenExtends(a1.value, built.value.arena, built.value.arena, r);
        }
      case Page(_, _, _, _) =>
        assert a1.value.items[r].body.Page?;
    }
  }

  /** So Parse places a page only under a section, and a section or group only under a container. */
  lemma ParseChecksParent(a: Arena, e: Node, parent: Option<Ref>)
    requires Allocated(a) && (parent.Some? ==> parent.value in a.items)
    ensures var res := Parse(a, e, parent);
            res.Success? ==> ParentFits(a, KindOfName(e.name).value, parent)
  {
    if e.Element? && KindOfName(e.name).Some? {
      var k := KindOfName(e.name).value;
      var (a1, r) := Alloc(a, NewItem(k));
      ParseIntoChecksParent(a1, e, r, parent);
    }
  }

  /**
   * ParseExisting: a text node is malformed XML and an item that does not
   * exist is rejected; otherwise the item keeps its kind, its Parent and (a
   * notebook) its root, a container's lists only gain its Section and
   * SectionGroup elements after the children it already had, and a
   * section's pages become its child elements.
   */
  lemma ParseExistingFacts(a: Arena, e: Node, r: Ref)
    requires Allocated(a)
    ensures !e.Element? ==> ParseExisting(a, e, r) == Failure(XmlMalformed)
    ensures e.Element? && r !in a.items ==> ParseExisting(a, e, r) == Failure(InvalidItem)
    ensures var res := ParseExisting(a, e, r);
            res.Success? ==> e.Element? && r in a.items &&
                             ParsedInto(a, res.value, r, a.items[r].Parent(), e.children) &&
                             res.value.items[r].Parent() == a.items[r].Parent() &&
                             res.value.items[r].RootRef() == a.items[r].RootRef()
  {
    if e.Element? && r in a.items {
      var parent := if a.items[r].body.Notebook? then None else a.items[r].Parent();
      ParseIntoFacts(a, e, r, parent);
    }
  }

  // ---------------------------------------------------------------------
  // The two engines decode isUnread differently.

  /**
   * The DOM engine reads isUnread with the XML cast, the streaming engine
   * with bool.Parse. Only the numerals separate them: "1" and "0" are
   * booleans to the cast and format errors to bool.Parse, while "true" and
   * "false" in any letter case are the same boolean to both.
   */
  lemma IsUnreadDecodersDiffer(it: Item, word: string)
    requires EqualsIgnoreCase(word, "true") || EqualsIgnoreCase(word, "false")
    ensures var dom := ApplyAttribute(it, Attr(IsUnreadAttr, "1"));
            dom.Success? && dom.value.isUnread
    ensures var dom := ApplyAttribute(it, Attr(IsUnreadAttr, "0"));
            dom.Success? && !dom.value.isUnread
    ensures R.ApplyAttribute(it, Attr(IsUnreadAttr, "1")) == Failure(Format)
    ensures R.ApplyAttribute(it, Attr(IsUnreadAttr, "0")) == Failure(Format)
    ensures var dom := ApplyAttribute(it, Attr(IsUnreadAttr, word));
            var reader := R.ApplyAttribute(it, Attr(IsUnreadAttr, word));
            dom.Success? && reader.Success? && dom.value.isUnread == reader.value.isUnread &&
            dom.value.isUnread == EqualsIgnoreCase(word, "true")
  {
    NumeralValues();
    WordValues(word);
  }

  /** Trimming leaves a string that starts and ends with no white space as it is. */
  lemma TrimmedAlready(s: string, ws: char -> bool)
    requires s != [] && !ws(s[0]) && !ws(s[|s| - 1])
    ensures Trim(s, ws) == s
  {
    assert TrimStart(s, ws) == s;
  }

  /** The numerals: booleans to the XML cast, format errors to bool.Parse. */
  lemma NumeralValues()
    ensures XmlBool("1") == Success(true) && XmlBool("0") == Success(false)
    ensures BoolParse("1") == Failure(Format) && BoolParse("0") == Failure(Format)
  {
    NumeralOf("1");
    NumeralOf("0");
  }

  lemma NumeralOf(s: string)
    requires s == "1" || s == "0"
    ensures XmlBool(s) == Success(s == "1") && BoolParse(s) == Failure(Format)
  {
    TrimmedAlready(s, IsXmlWhiteSpaceChar);
    TrimmedAlready(s, IsWhiteSpaceChar);
    assert !EqualsIgnoreCase(s, "true") && !EqualsIgnoreCase(s, "false");
  }

  /** "true" and "false" in any letter case: the same boolean to the XML cast and to bool.Parse. */
  lemma WordValues(word: string)
    requires EqualsIgnoreCase(word, "true") || EqualsIgnoreCase(word, "false")
    ensures XmlBool(word) == BoolParse(word) == Success(EqualsIgnoreCase(word, "true"))
  {
    assert LowerAscii(word[0]) == 't' || LowerAscii(word[0]) == 'f';
    assert LowerAscii(word[|word| - 1]) == 'e';
    TrimmedAlready(word, IsXmlWhiteSpaceChar);
    TrimmedAlready(word, IsWhiteSpaceChar);
    if EqualsIgnoreCase(word, "true") {
      assert LowerAscii(word[0]) != LowerAscii("false"[0]);
    }
  }
}
