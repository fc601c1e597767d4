/**
 * The DOM (XElement) engine of LinqToOneNote over the mutable store: the
 * foreach loops of SetAttributes and Parse<T>, the list comprehensions of
 * ParseRoot and of a section's pages, and the three entry points. Each
 * method ends in the state, and with the outcome, its function in
 * XElementSpec computes.
 */
module XmlParserXElement {
  import opened Base
  import opened Xml
  import opened Hierarchy
  import S = XElementSpec

  /** A method's outcome and final state are the ones its specification function computes. */
  predicate Agrees(res: Result<()>, spec: Result<Arena>, now: Arena) {
    res.Success? == spec.Success? &&
    (spec.Success? ==> now == spec.value) &&
    (spec.Failure? ==> res.error == spec.error)
  }

  /** The same, for a method that builds a list. */
  predicate AgreesBuilt(res: Result<seq<Ref>>, spec: Result<S.Built>, now: Arena) {
    res.Success? == spec.Success? &&
    (spec.Success? ==> now == spec.value.arena && res.value == spec.value.refs) &&
    (spec.Failure? ==> res.error == spec.error)
  }

  /** SetAttributes: each attribute in turn writes its field of the item. */
  method SetAttributes(store: Store, r: Ref, attrs: seq<Attr>) returns (res: Result<()>)
    requires r in store.items
    modifies store
    ensures store.roots == old(store.roots)
    ensures Agrees(res, S.SetAttributes(old(store.State()), r, attrs), store.State())
  {
    ghost var original := store.items[r];
    var i := 0;
    while i < |attrs|
      invariant 0 <= i <= |attrs| && r in store.items && store.roots == old(store.roots)
      invariant S.ApplyAttributes(original, attrs) == S.ApplyAttributes(store.items[r], attrs[i..])
      invariant store.State() == Put(old(store.State()), r, store.items[r])
    {
      var written := S.ApplyAttribute(store.items[r], attrs[i]);
      if written.Failure? {
        return Failure(written.error);
      }
      store.PutItem(r, written.value);
      assert attrs[i..][1..] == attrs[i + 1..];
      i := i + 1;
    }
    return Success(());
  }

  /** Parse<T>(item, element, parent) on the item `r`. */
  method ParseInto(store: Store, e: Node, r: Ref, parent: Option<Ref>) returns (res: Result<()>)
    requires r in store.items && e.Element?
    modifies store
    ensures store.roots == old(store.roots)
    ensures Agrees(res, S.ParseInto(old(store.State()), e, r, parent), store.State())
    decreases e, 1
  {
    res := SetAttributes(store, r, e.attrs);
    if res.Failure? {
      return;
    }
    match store.items[r].body
    case Notebook(_, _, _, _, _, _) =>
      res := ParseChildren(store, e.children, r);
    case SectionGroup(_, _, _, _, _) =>
      res := ParseChildren(store, e.children, r);
      if res.Failure? {
        return;
      }
      var p := S.AsContainer(store.State(), parent);
      if p.Failure? {
        return Failure(p.error);
      }
      store.AssignParent(r, parent);
    case Section(_, _, _, _, _, _, _, _) =>
      var pages := ParsePages(store, e.children, r);
      if pages.Failure? {
        return Failure(pages.error);
      }
      store.ReplacePages(r, pages.value);
      var p := S.AsContainer(store.State(), parent);
      if p.Failure? {
        return Failure(p.error);
      }
      store.AssignParent(r, parent);
    case Page(_, _, _, _) =>
      var p := S.AsSection(store.State(), parent);
      if p.Failure? {
        return Failure(p.error);
      }
      store.AssignParent(r, parent);
  }

  /** The foreach over a notebook's or section group's child elements. */
  method ParseChildren(store: Store, ns: seq<Node>, c: Ref) returns (res: Result<()>)
    modifies store
    ensures store.roots == old(store.roots)
    ensures Agrees(res, S.ParseChildren(old(store.State()), ns, c), store.State())
    decreases ns, 0
  {
    ghost var loop := S.ParseChildren(store.State(), ns, c);
    var i := 0;
    while i < |ns|
      invariant 0 <= i <= |ns| && store.roots == old(store.roots)
      invariant S.ParseChildren(store.State(), ns[i..], c) == loop
    {
      assert ns[i..][1..] == ns[i + 1..];
      var child := ns[i];
      if S.Named(child, SectionName) {
        var s := store.AllocItem(NewItem(SectionKind));
        res := ParseInto(store, child, s, Some(c));
        if res.Failure? {
          return;
        }
        store.AddSection(c, s);
      } else if S.Named(child, SectionGroupName) {
        var g := store.AllocItem(NewItem(SectionGroupKind));
        res := ParseInto(store, child, g, Some(c));
        if res.Failure? {
          return;
        }
        store.AddSectionGroup(c, g);
      }
      i := i + 1;
    }
    return Success(());
  }

  /** `[.. element.Elements().Select(e => Parse(new Page(), e, section))]`. */
  method ParsePages(store: Store, ns: seq<Node>, s: Ref) returns (res: Result<seq<Ref>>)
    modifies store
    ensures store.roots == old(store.roots)
    ensures AgreesBuilt(res, S.ParsePages(old(store.State()), ns, s, []), store.State())
    decreases ns, 0
  {
    ghost var loop := S.ParsePages(store.State(), ns, s, []);
    var pages := [];
    var i := 0;
    while i < |ns|
      invariant 0 <= i <= |ns| && store.roots == old(store.roots)
      invariant S.ParsePages(store.State(), ns[i..], s, pages) == loop
    {
      assert ns[i..][1..] == ns[i + 1..];
      var child := ns[i];
      if child.Element? {
        var pg := store.AllocItem(NewItem(PageKind));
        var parsed := ParseInto(store, child, pg, Some(s));
        if parsed.Failure? {
          return Failure(parsed.error);
        }
        pages := pages + [pg];
      }
      i := i + 1;
    }
    return Success(pages);
  }

  /** `[.. notebookElements.Select(e => { Parse(new Notebook(), e, null); notebook.root = root; })]`. */
  method ParseNotebooks(store: Store, ns: seq<Node>, rr: Ref) returns (res: Result<seq<Ref>>)
    modifies store
    ensures store.roots == old(store.roots)
    ensures AgreesBuilt(res, S.ParseNotebooks(old(store.State()), ns, rr, []), store.State())
  {
    ghost var loop := S.ParseNotebooks(store.State(), ns, rr, []);
    var notebooks := [];
    var i := 0;
    while i < |ns|
      invariant 0 <= i <= |ns| && store.roots == old(store.roots)
      invariant S.ParseNotebooks(store.State(), ns[i..], rr, notebooks) == loop
    {
      assert ns[i..][1..] == ns[i + 1..];
      var child := ns[i];
      if S.Named(child, NotebookName) {
        var nb := store.AllocItem(NewItem(NotebookKind));
        var parsed := ParseInto(store, child, nb, None);
        if parsed.Failure? {
          return Failure(parsed.error);
        }
        store.AssignRoot(nb, Some(rr));
        notebooks := notebooks + [nb];
      }
      i := i + 1;
    }
    return Success(notebooks);
  }

  /** `[.. openSectionsElement.Elements().Select(e => Parse(new Section(), e, null))]`. */
  method ParseOpenSectionList(store: Store, ns: seq<Node>) returns (res: Result<seq<Ref>>)
    modifies store
    ensures store.roots == old(store.roots)
    ensures AgreesBuilt(res, S.ParseOpenSectionList(old(store.State()), ns, []), store.State())
  {
    ghost var loop := S.ParseOpenSectionList(store.State(), ns, []);
    var sections := [];
    var i := 0;
    while i < |ns|
      invariant 0 <= i <= |ns| && store.roots == old(store.roots)
      invariant S.ParseOpenSectionList(store.State(), ns[i..], sections) == loop
    {
      assert ns[i..][1..] == ns[i + 1..];
      var child := ns[i];
      if child.Element? {
        var s := store.AllocItem(NewItem(SectionKind));
        var parsed := ParseInto(store, child, s, None);
        if parsed.Failure? {
          return Failure(parsed.error);
        }
        sections := sections + [s];
      }
      i := i + 1;
    }
    return Success(sections);
  }

  /** ParseRoot(xml): the new Root is recorded in the store under its reference. */
  method ParseRoot(store: Store, e: Node) returns (res: Result<Ref>)
    modifies store
    ensures var spec := S.ParseRoot(old(store.State()), e);
            res.Success? == spec.Success? &&
            (spec.Success? ==> res.value == spec.value.rootRef && store.State() == spec.value.arena &&
                               store.roots == old(store.roots)[res.value := spec.value.root]) &&
            (spec.Failure? ==> res.error == spec.error)
  {
    if !e.Element? {
      return Failure(XmlMalformed);
    }
    ghost var roots0 := store.roots;
    var rr := store.AllocRoot();
    var notebooks := ParseNotebooks(store, e.children, rr);
    if notebooks.Failure? {
      return Failure(notebooks.error);
    }
    var os := S.FirstNamed(e.children, OpenSectionsName);
    var openSections: Option<OpenSectionsObj>;
    if os.None? {
      openSections := None;
    } else {
      var id := S.AttributeValue(os.value.attrs, IdAttr);
      if id.None? {
        return Failure(NullReference);
      }
      var sections := ParseOpenSectionList(store, os.value.children);
      if sections.Failure? {
        return Failure(sections.error);
      }
      openSections := Some(OpenSectionsObj(id, sections.value));
    }
    store.PutRoot(rr, RootObj(notebooks.value, openSections));
    assert store.roots == roots0[rr := RootObj(notebooks.value, openSections)];
    return Success(rr);
  }

  /** Parse(xml, parent): a new item of the kind the element's qualified name selects. */
  method Parse(store: Store, e: Node, parent: Option<Ref>) returns (res: Result<Ref>)
    modifies store
    ensures store.roots == old(store.roots)
    ensures var spec := S.Parse(old(store.State()), e, parent);
            res.Success? == spec.Success? &&
            (spec.Success? ==> res.value == spec.value.item && store.State() == spec.value.arena) &&
            (spec.Failure? ==> res.error == spec.error)
  {
    if !e.Element? {
      return Failure(XmlMalformed);
    }
    var kind: Kind;
    if e.name == OneNote(NotebookName) {
      kind := NotebookKind;
    } else if e.name == OneNote(SectionGroupName) {
      kind := SectionGroupKind;
    } else if e.name == OneNote(SectionName) {
      kind := SectionKind;
    } else if e.name == OneNote(PageName) {
      kind := PageKind;
    } else {
      return Failure(InvalidXmlElement);
    }
    var item := store.AllocItem(NewItem(kind));
    var parsed := ParseInto(store, e, item, parent);
    if parsed.Failure? {
      return Failure(parsed.error);
    }
    return Success(item);
  }

  /** ParseExisting(xml, item): parse into the item, with its own Parent. */
  method ParseExisting(store: Store, e: Node, item: Ref) returns (res: Result<()>)
    modifies store
    ensures store.roots == old(store.roots)
    ensures Agrees(res, S.ParseExisting(old(store.State()), e, item), store.State())
  {
    if !e.Element? {
      return Failure(XmlMalformed);
    }
    if item !in store.items {
      return Failure(InvalidItem);
    }
    match store.items[item].body
    case Notebook(_, _, _, _, _, _) =>
      res := ParseInto(store, e, item, None);
    case SectionGroup(_, _, parent, _, _) =>
      res := ParseInto(store, e, item, parent);
    case Section(_, _, _, _, _, _, parent, _) =>
      res := ParseInto(store, e, item, parent);
    case Page(_, _, _, parent) =>
      res := ParseInto(store, e, item, parent);
  }
}
