/**
 * What the older streaming engine guarantees. For every token input: the
 * dispatch of ParseUnknown and ParseNotebooks, and the shape of every tree
 * it returns (each item's Parent, Notebook and RelativePath come from the
 * item that lists it, and each list holds only the kinds its owner may
 * hold). For the tokens of a document: the items are those of a reference
 * definition over the element tree (children in document order, a
 * section's pages only from its Page elements), provided every element a
 * loop passes with `reader.Read()` has no children of its own.
 */
module LegacyReaderProperties {
  import opened Base
  import opened Xml
  import opened Hierarchy
  import opened LegacyReaderSpec

  // ---------------------------------------------------------------------
  // Dispatch.

  /** The attribute loop never changes the kind of the new item. */
  lemma NewKind(k: Kind, ts: seq<Token>)
    ensures var r := NewWithAttributes(k, ts);
            r.Success? ==> r.value.KindOf() == k
  {
  }

  /** ParseUnknown: null for a non-element or an unknown name; the parent's faults; otherwise the named kind. */
  lemma ParseUnknownDispatch(ts: seq<Token>, parent: Option<ParentView>, sep: string)
    ensures !OnStart(ts) ==> ParseUnknown(ts, parent, sep) == Success(None)
    ensures OnStart(ts) && ts[0].name.local !in {NotebookName, SectionName, SectionGroupName, PageName} ==>
              ParseUnknown(ts, parent, sep) == Success(None)
    ensures OnStart(ts) && ts[0].name.local in {SectionName, SectionGroupName, PageName} && parent.None? ==>
              ParseUnknown(ts, parent, sep) == Failure(NullReference)
    ensures OnElement(ts, PageName) && parent.Some? && parent.value.kind != SectionKind ==>
              ParseUnknown(ts, parent, sep) == Failure(InvalidCast)
    ensures var r := ParseUnknown(ts, parent, sep);
            r.Success? && r.value.Some? ==> OnStart(ts) && r.value.value.item.KindOf() == KindOfLocal(ts[0].name.local)
  {
    if OnStart(ts) {
      var k := KindOfLocal(ts[0].name.local);
      NewKind(k, ts);
    }
  }

  /** The kind each of the four element names stands for. */
  function KindOfLocal(local: string): Kind {
    if local == NotebookName then NotebookKind
    else if local == SectionGroupName then SectionGroupKind
    else if local == SectionName then SectionKind
    else PageKind
  }

  /** ParseNotebooks: empty unless the top element is a non-empty Notebooks element. */
  lemma ParseNotebooksEmpty(ts: seq<Token>, sep: string)
    ensures !OnElement(ts, NotebookList) ==> ParseNotebooks(ts, sep) == Success([])
    ensures IsEmptyElement(ts) ==> ParseNotebooks(ts, sep) == Success([])
  {
  }

  // ---------------------------------------------------------------------
  // The shape of every tree the engine returns.

  /** The kinds the Children of an item of kind `k` may hold. */
  predicate KindFits(k: Kind, c: Kind) {
    ((k == NotebookKind || k == SectionGroupKind) && (c == SectionKind || c == SectionGroupKind)) ||
    (k == SectionKind && c == PageKind)
  }

  /** `c` was built as a child of the item seen as `parent`: Parent, Notebook and RelativePath come from it. */
  predicate ChildOf(c: LItem, parent: ParentView, sep: string) {
    c.parent == Some(parent) && c.notebook == parent.notebook &&
    c.relativePath == ChildPath(parent.relativePath, sep, c.item.name)
  }

  /** Every item below `x` is a child of the item that lists it, of a kind that item may hold. */
  predicate Shaped(x: LItem, sep: string)
    decreases x
  {
    forall i | 0 <= i < |x.children| ::
      ChildOf(x.children[i], ViewOf(x), sep) && KindFits(x.item.KindOf(), x.children[i].item.KindOf()) &&
      Shaped(x.children[i], sep)
  }

  /** A list built by a child loop of an item seen as `owner`. */
  predicate ShapedList(items: seq<LItem>, owner: ParentView, sep: string) {
    forall i | 0 <= i < |items| ::
      ChildOf(items[i], owner, sep) && KindFits(owner.kind, items[i].item.KindOf()) && Shaped(items[i], sep)
  }

  lemma ShapedListAppend(items: seq<LItem>, x: LItem, owner: ParentView, sep: string)
    requires ShapedList(items, owner, sep)
    requires ChildOf(x, owner, sep) && KindFits(owner.kind, x.item.KindOf()) && Shaped(x, sep)
    ensures ShapedList(items + [x], owner, sep)
  {
  }

  /** An item whose list was built with the item itself as owner. */
  lemma ShapedFromList(x: LItem, items: seq<LItem>, sep: string)
    requires ShapedList(items, ViewOf(x), sep)
    ensures Shaped(x.(children := items), sep)
  {
    assert ViewOf(x.(children := items)) == ViewOf(x);
  }

  lemma PageShaped(ts: seq<Token>, parent: ParentView, sep: string)
    requires OnStart(ts)
    ensures var r := ParsePage(ts, parent, sep);
            r.Success? ==> r.value.item.item.KindOf() == PageKind && r.value.item.children == [] &&
                           ChildOf(r.value.item, parent, sep) && Shaped(r.value.item, sep)
  {
    NewKind(PageKind, ts);
  }

  lemma {:induction false} PagesShaped(ts: seq<Token>, section: ParentView, sep: string, acc: seq<LItem>)
    requires section.kind == SectionKind && ShapedList(acc, section, sep)
    ensures var r := ParsePages(ts, section, sep, acc);
            r.Success? ==> ShapedList(r.value.items, section, sep)
    decreases |ts|
  {
    if AtEndOrNone(ts) {
    } else if OnElement(ts, PageName) {
      var pg := ParsePage(ts, section, sep);
      if pg.Success? {
        PageShaped(ts, section, sep);
        ShapedListAppend(acc, pg.value.item, section, sep);
        PagesShaped(pg.value.rest, section, sep, acc + [pg.value.item]);
      }
    } else {
      PagesShaped(Read(ts), section, sep, acc);
    }
  }

  lemma SectionShaped(ts: seq<Token>, parent: ParentView, sep: string)
    requires OnStart(ts)
    ensures var r := ParseSection(ts, parent, sep);
            r.Success? ==> r.value.item.item.KindOf() == SectionKind &&
                           ChildOf(r.value.item, parent, sep) && Shaped(r.value.item, sep)
  {
    NewKind(SectionKind, ts);
    var it := NewWithAttributes(SectionKind, ts);
    if it.Success? && !IsEmptyElement(ts) {
      var self := ChildItem(it.value, parent, sep);
      PagesShaped(ts[1..], ViewOf(self), sep, []);
      var pages := ParsePages(ts[1..], ViewOf(self), sep, []);
      if pages.Success? {
        ShapedFromList(self, pages.value.items, sep);
      }
    }
  }

  lemma {:induction false} ChildrenShaped(ts: seq<Token>, container: ParentView, sep: string, acc: seq<LItem>)
    requires container.kind == NotebookKind || container.kind == SectionGroupKind
    requires ShapedList(acc, container, sep)
    ensures var r := ParseChildren(ts, container, sep, acc);
            r.Success? ==> ShapedList(r.value.items, container, sep)
    decreases |ts|, 1
  {
    if AtEndOrNone(ts) {
    } else if OnElement(ts, SectionName) {
      var sec := ParseSection(ts, container, sep);
      if sec.Success? {
        SectionShaped(ts, container, sep);
        ShapedListAppend(acc, sec.value.item, container, sep);
        ChildrenShaped(sec.value.rest, container, sep, acc + [sec.value.item]);
      }
    } else if OnElement(ts, SectionGroupName) {
      var grp := ParseSectionGroup(ts, container, sep);
      if grp.Success? {
        SectionGroupShaped(ts, container, sep);
        ShapedListAppend(acc, grp.value.item, container, sep);
        ChildrenShaped(grp.value.rest, container, sep, acc + [grp.value.item]);
      }
    } else {
      ChildrenShaped(Read(ts), container, sep, acc);
    }
  }

  lemma {:induction false} SectionGroupShaped(ts: seq<Token>, parent: ParentView, sep: string)
    requires OnStart(ts)
    ensures var r := ParseSectionGroup(ts, parent, sep);
            r.Success? ==> r.value.item.item.KindOf() == SectionGroupKind &&
                           ChildOf(r.value.item, parent, sep) && Shaped(r.value.item, sep)
    decreases |ts|, 0
  {
    NewKind(SectionGroupKind, ts);
    var it := NewWithAttributes(SectionGroupKind, ts);
    if it.Success? && !IsEmptyElement(ts) {
      var self := ChildItem(it.value, parent, sep);
      ChildrenShaped(ts[1..], ViewOf(self), sep, []);
      var kids := ParseChildren(ts[1..], ViewOf(self), sep, []);
      if kids.Success? {
        ShapedFromList(self, kids.value.items, sep);
      }
    }
  }

  /** A notebook as this engine returns it: no Parent, no Notebook, RelativePath its Name. */
  predicate TopNotebook(x: LItem, sep: string) {
    x.item.KindOf() == NotebookKind && x.parent == None && x.notebook == None &&
    x.relativePath == x.item.name && Shaped(x, sep)
  }

  lemma NotebookShaped(ts: seq<Token>, sep: string)
    requires OnStart(ts)
    ensures var r := ParseNotebook(ts, sep);
            r.Success? ==> TopNotebook(r.value.item, sep)
  {
    NewKind(NotebookKind, ts);
    var it := NewWithAttributes(NotebookKind, ts);
    if it.Success? && !IsEmptyElement(ts) {
      var self := NotebookItem(it.value);
      ChildrenShaped(ts[1..], ViewOf(self), sep, []);
      var kids := ParseChildren(ts[1..], ViewOf(self), sep, []);
      if kids.Success? {
        ShapedFromList(self, kids.value.items, sep);
      }
    }
  }

  predicate AllTopNotebooks(items: seq<LItem>, sep: string) {
    forall i | 0 <= i < |items| :: TopNotebook(items[i], sep)
  }

  lemma {:induction false} NotebookListShaped(ts: seq<Token>, sep: string, acc: seq<LItem>)
    requires AllTopNotebooks(acc, sep)
    ensures var r := ParseNotebookList(ts, sep, acc);
            r.Success? ==> AllTopNotebooks(r.value.items, sep)
    decreases |ts|
  {
    if AtEndOrNone(ts) {
    } else if OnElement(ts, NotebookName) {
      var nb := ParseNotebook(ts, sep);
      if nb.Success? {
        NotebookShaped(ts, sep);
        NotebookListShaped(nb.value.rest, sep, acc + [nb.value.item]);
      }
    } else {
      NotebookListShaped(Read(ts), sep, acc);
    }
  }

  /** Every notebook ParseNotebooks returns is a top-level notebook with a well-shaped tree. */
  lemma ParseNotebooksShaped(ts: seq<Token>, sep: string)
    ensures var r := ParseNotebooks(ts, sep);
            r.Success? ==> AllTopNotebooks(r.value, sep)
  {
    if OnElement(ts, NotebookList) && !IsEmptyElement(ts) {
      NotebookListShaped(ts[1..], sep, []);
    }
  }

  /**
   * The item ParseUnknown returns: a notebook is top-level; any other item is
   * a child of the given parent; either way its tree is well shaped.
   */
  lemma ParseUnknownShaped(ts: seq<Token>, parent: Option<ParentView>, sep: string)
    ensures var r := ParseUnknown(ts, parent, sep);
            r.Success? && r.value.Some? ==>
              var x := r.value.value;
              Shaped(x, sep) &&
              (x.item.KindOf() == NotebookKind ==> TopNotebook(x, sep)) &&
              (x.item.KindOf() != NotebookKind ==> parent.Some? && ChildOf(x, parent.value, sep))
  {
    if OnStart(ts) {
      var local := ts[0].name.local;
      if local == NotebookName {
        NotebookShaped(ts, sep);
      } else if local == SectionName && parent.Some? {
        SectionShaped(ts, parent.value, sep);
      } else if local == SectionGroupName && parent.Some? {
        SectionGroupShaped(ts, parent.value, sep);
      } else if local == PageName && parent.Some? {
        PageShaped(ts, parent.value, sep);
      }
    }
  }
}
