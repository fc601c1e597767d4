/**
 * The streaming engine of LinqToOneNote (XmlParserXmlReader): one shared
 * reader cursor, items allocated in the store and filled in place. Each
 * method is proved to leave the store and the cursor exactly where the
 * matching function of XmlReaderSpec says.
 */
module XmlParserXmlReader {
  import opened Base
  import opened Xml
  import opened Hierarchy
  import S = XmlReaderSpec

  /** An XmlReader over a token stream: `rest` is what it has not consumed yet. */
  class Reader {
    var rest: seq<Token>

    constructor(xml: seq<Token>)
      ensures rest == xml
    {
      rest := xml;
    }

    /** NodeType is EndElement or None: the child loops stop. */
    function AtEnd(): bool
      reads this
    {
      AtEndOrNone(rest)
    }

    /** NodeType is Element. */
    function OnStart(): bool
      reads this
    {
      rest != [] && rest[0].Start?
    }

    /** NodeType is Element and LocalName is `local`. */
    function OnElement(local: string): bool
      reads this
    {
      S.OnElement(rest, local)
    }

    function IsEmptyElement(): bool
      reads this
    {
      Xml.IsEmptyElement(rest)
    }

    /** The attributes MoveToNextAttribute walks through, in document order. */
    function Attributes(): seq<Attr>
      reads this
    {
      AttrsAt(rest)
    }

    method Read()
      modifies this
      ensures rest == Xml.Read(old(rest))
    {
      rest := Xml.Read(rest);
    }

    method Skip()
      modifies this
      ensures rest == Xml.Skip(old(rest))
    {
      rest := Xml.Skip(rest);
    }

    method ReadStartElement() returns (r: Result<()>)
      modifies this
      ensures r.Success? <==> Xml.ReadStartElement(old(rest)).Success?
      ensures r.Success? ==> rest == Xml.ReadStartElement(old(rest)).value
      ensures r.Failure? ==> r.error == XmlMalformed && rest == old(rest)
    {
      if rest != [] && rest[0].Start? {
        rest := rest[1..];
        r := Success(());
      } else {
        r := Failure(XmlMalformed);
      }
    }

    method ReadEndElement() returns (r: Result<()>)
      modifies this
      ensures r.Success? <==> Xml.ReadEndElement(old(rest)).Success?
      ensures r.Success? ==> rest == Xml.ReadEndElement(old(rest)).value
      ensures r.Failure? ==> r.error == XmlMalformed && rest == old(rest)
    {
      if rest != [] && rest[0].End? {
        rest := rest[1..];
        r := Success(());
      } else {
        r := Failure(XmlMalformed);
      }
    }

    /** The child loops' `reader.Read()` on a node they do not parse (or Skip, for the corrected engine). */
    method PassOther(p: S.UnknownElements)
      modifies this
      ensures rest == S.PassOther(p, old(rest))
    {
      if p == S.SkipOver {
        Skip();
      } else {
        Read();
      }
    }
  }

  /** A method's outcome and final state are the ones its specification function computes. */
  predicate Agrees(res: Result<()>, spec: Result<S.Parsed>, now: Arena, rest: seq<Token>) {
    res.Success? == spec.Success? &&
    (spec.Success? ==> now == spec.value.arena && rest == spec.value.rest) &&
    (spec.Failure? ==> res.error == spec.error)
  }

  /** SetAttributes: each attribute in turn writes its field of the item. */
  method SetAttributes(store: Store, reader: Reader, r: Ref) returns (res: Result<()>)
    requires r in store.items
    modifies store
    ensures store.roots == old(store.roots)
    ensures var spec := S.SetAttributes(old(store.State()), r, reader.rest);
            res.Success? == spec.Success? &&
            (spec.Success? ==> store.State() == spec.value) &&
            (spec.Failure? ==> res.error == spec.error)
  {
    var attrs := reader.Attributes();
    ghost var original := store.items[r];
    var i := 0;
    while i < |attrs|
      invariant 0 <= i <= |attrs| && r in store.items && store.roots == old(store.roots)
      invariant S.ApplyAttributes(original, attrs) == S.ApplyAttributes(store.items[r], attrs[i..])
      invariant store.State() == Put(old(store.State()), r, store.items[r])
    {
      var written := S.ApplyAttribute(store.items[r], attrs[i]);
      if written.Failure? {
        return Failure(written.error);
      }
      store.PutItem(r, written.value);
      assert attrs[i..][1..] == attrs[i + 1..];
      i := i + 1;
    }
    return Success(());
  }

  /** ParsePage. */
  method ParsePage(store: Store, reader: Reader, pg: Ref, parent: Option<Ref>) returns (res: Result<()>)
    requires pg in store.items && reader.OnStart()
    modifies store, reader
    ensures store.roots == old(store.roots)
    ensures Agrees(res, S.ParsePage(old(store.State()), old(reader.rest), pg, parent), store.State(), reader.rest)
  {
    store.AssignParent(pg, parent);
    res := SetAttributes(store, reader, pg);
    if res.Failure? {
      return;
    }
    reader.Skip();
  }

  /** ParseSection, with its page loop. */
  method ParseSection(p: S.UnknownElements, store: Store, reader: Reader, s: Ref, parent: Option<Ref>)
    returns (res: Result<()>)
    requires s in store.items && reader.OnStart()
    modifies store, reader
    ensures store.roots == old(store.roots)
    ensures Agrees(res, S.ParseSection(p, old(store.State()), old(reader.rest), s, parent), store.State(), reader.rest)
  {
    store.AssignParent(s, parent);
    res := SetAttributes(store, reader, s);
    if res.Failure? {
      return;
    }
    if reader.IsEmptyElement() {
      reader.Skip();
      return;
    }
    res := reader.ReadStartElement();
    ghost var loop := S.ParsePages(p, store.State(), reader.rest, s);
    while !reader.AtEnd()
      invariant store.roots == old(store.roots)
      invariant S.ParsePages(p, store.State(), reader.rest, s) == loop
      decreases |reader.rest|
    {
      if reader.OnElement(PageName) {
        var pg := store.AllocItem(NewItem(PageKind));
        res := ParsePage(store, reader, pg, Some(s));
        if res.Failure? {
          return;
        }
        store.AddPage(s, pg);
      } else {
        reader.PassOther(p);
      }
    }
    res := reader.ReadEndElement();
  }

  /** ParseChildren: the sections and section groups of a notebook or section group. */
  method ParseChildren(p: S.UnknownElements, store: Store, reader: Reader, c: Ref) returns (res: Result<()>)
    modifies store, reader
    ensures store.roots == old(store.roots)
    ensures Agrees(res, S.ParseChildren(p, old(store.State()), old(reader.rest), c), store.State(), reader.rest)
    decreases |reader.rest|, 1
  {
    ghost var loop := S.ParseChildren(p, store.State(), reader.rest, c);
    ghost var size := |reader.rest|;
    while !reader.AtEnd()
      invariant store.roots == old(store.roots)
      invariant |reader.rest| <= size
      invariant S.ParseChildren(p, store.State(), reader.rest, c) == loop
      decreases |reader.rest|
    {
      if reader.OnElement(SectionName) {
        S.ChildrenOnSection(p, store.State(), reader.rest, c);
        var s := store.AllocItem(NewItem(SectionKind));
        res := ParseSection(p, store, reader, s, Some(c));
        if res.Failure? {
          return;
        }
        store.AddSection(c, s);
      } else if reader.OnElement(SectionGroupName) {
        S.ChildrenOnSectionGroup(p, store.State(), reader.rest, c);
        var g := store.AllocItem(NewItem(SectionGroupKind));
        res := ParseSectionGroup(p, store, reader, g, Some(c));
        if res.Failure? {
          return;
        }
        store.AddSectionGroup(c, g);
      } else {
        reader.PassOther(p);
      }
    }
    return Success(());
  }

  /** ParseSectionGroup. */
  method ParseSectionGroup(p: S.UnknownElements, store: Store, reader: Reader, g: Ref, parent: Option<Ref>)
    returns (res: Result<()>)
    requires g in store.items && reader.OnStart()
    modifies store, reader
    ensures store.roots == old(store.roots)
    ensures Agrees(res, S.ParseSectionGroup(p, old(store.State()), old(reader.rest), g, parent), store.State(), reader.rest)
    decreases |reader.rest|, 0
  {
    store.AssignParent(g, parent);
    res := SetAttributes(store, reader, g);
    if res.Failure? {
      return;
    }
    if reader.IsEmptyElement() {
      reader.Skip();
      return;
    }
    res := reader.ReadStartElement();
    res := ParseChildren(p, store, reader, g);
    if res.Failure? {
      return;
    }
    res := reader.ReadEndElement();
  }

  /** ParseNotebook. */
  method ParseNotebook(p: S.UnknownElements, store: Store, reader: Reader, nb: Ref, root: Option<Ref>)
    returns (res: Result<()>)
    requires nb in store.items && reader.OnStart()
    modifies store, reader
    ensures store.roots == old(store.roots)
    ensures Agrees(res, S.ParseNotebook(p, old(store.State()), old(reader.rest), nb, root), store.State(), reader.rest)
  {
    store.AssignRoot(nb, root);
    res := SetAttributes(store, reader, nb);
    if res.Failure? {
      return;
    }
    if reader.IsEmptyElement() {
      reader.Skip();
      return;
    }
    res := reader.ReadStartElement();
    res := ParseChildren(p, store, reader, nb);
    if res.Failure? {
      return;
    }
    res := reader.ReadEndElement();
  }

  /** ParseOpenSections: the Id from the ID attributes, then the Section children. */
  method ParseOpenSections(p: S.UnknownElements, store: Store, reader: Reader) returns (res: Result<OpenSectionsObj>)
    requires reader.OnStart()
    modifies store, reader
    ensures store.roots == old(store.roots)
    ensures var spec := S.ParseOpenSections(p, old(store.State()), old(reader.rest));
            res.Success? == spec.Success? &&
            (spec.Success? ==> res.value == spec.value.open && store.State() == spec.value.arena &&
                               reader.rest == spec.value.rest) &&
            (spec.Failure? ==> res.error == spec.error)
  {
    var openSections := NewOpenSections();
    var attrs := reader.Attributes();
    var i := 0;
    while i < |attrs|
      invariant 0 <= i <= |attrs|
      invariant openSections == NewOpenSections().(id := S.LastValue(attrs[..i], IdAttr))
    {
      if attrs[i].name == IdAttr {
        openSections := openSections.(id := Some(attrs[i].value));
      }
      assert attrs[..i + 1][..i] == attrs[..i];
      i := i + 1;
    }
    assert attrs[..i] == attrs;
    if reader.IsEmptyElement() {
      reader.Skip();
      return Success(openSections);
    }
    var started := reader.ReadStartElement();
    ghost var loop := S.ParseOpenSectionList(p, store.State(), reader.rest, openSections);
    while !reader.AtEnd()
      invariant store.roots == old(store.roots)
      invariant S.ParseOpenSectionList(p, store.State(), reader.rest, openSections) == loop
      decreases |reader.rest|
    {
      if reader.OnElement(SectionName) {
        var s := store.AllocItem(NewItem(SectionKind));
        var parsed := ParseSection(p, store, reader, s, None);
        if parsed.Failure? {
          return Failure(parsed.error);
        }
        openSections := openSections.(sections := openSections.sections + [s]);
      } else {
        reader.PassOther(p);
      }
    }
    var ended := reader.ReadEndElement();
    if ended.Failure? {
      return Failure(ended.error);
    }
    return Success(openSections);
  }

  /** The loop of ParseRoot(XmlReader): notebooks and open sections of the new Root `rr`. */
  method ParseRootChildren(p: S.UnknownElements, store: Store, reader: Reader, rr: Ref) returns (res: Result<RootObj>)
    modifies store, reader
    ensures store.roots == old(store.roots)
    ensures var spec := S.ParseRootChildren(p, old(store.State()), old(reader.rest), rr, NewRoot());
            res.Success? == spec.Success? &&
            (spec.Success? ==> res.value == spec.value.root && store.State() == spec.value.arena &&
                               reader.rest == spec.value.rest) &&
            (spec.Failure? ==> res.error == spec.error)
  {
    // The new Root is only reachable from ParseRoot until it is returned:
    // its lists are built here and stored by the caller.
    var root := NewRoot();
    ghost var loop := S.ParseRootChildren(p, store.State(), reader.rest, rr, root);
    ghost var roots0 := store.roots;
    while !reader.AtEnd()
      invariant store.roots == roots0
      invariant S.ParseRootChildren(p, store.State(), reader.rest, rr, root) == loop
      decreases |reader.rest|
    {
      if reader.OnElement(NotebookName) {
        S.RootOnNotebook(p, store.State(), reader.rest, rr, root);
        var nb := store.AllocItem(NewItem(NotebookKind));
        var parsed := ParseNotebook(p, store, reader, nb, Some(rr));
        if parsed.Failure? {
          return Failure(parsed.error);
        }
        root := root.(notebooks := root.notebooks + [nb]);
      } else if reader.OnElement(OpenSectionsName) {
        S.RootOnOpenSections(p, store.State(), reader.rest, rr, root);
        var openSections := ParseOpenSections(p, store, reader);
        if openSections.Failure? {
          return Failure(openSections.error);
        }
        root := root.(openSections := Some(openSections.value));
      } else {
        reader.PassOther(p);
      }
    }
    return Success(root);
  }

  /** ParseRoot(XmlReader): a new Root in the store, filled from the top element's children. */
  method ParseRoot(p: S.UnknownElements, store: Store, reader: Reader) returns (res: Result<Ref>)
    modifies store, reader
    ensures var spec := S.ParseRoot(p, old(store.State()), old(reader.rest));
            res.Success? == spec.Success? &&
            (spec.Success? ==> res.value == spec.value.rootRef && store.State() == spec.value.arena &&
                               reader.rest == spec.value.rest &&
                               store.roots == old(store.roots)[res.value := spec.value.root]) &&
            (spec.Failure? ==> res.error == spec.error)
  {
    ghost var roots0 := store.roots;
    ghost var spec := S.ParseRoot(p, store.State(), reader.rest);
    var rr := store.AllocRoot();
    if reader.IsEmptyElement() {
      reader.Skip();
      return Success(rr);
    }
    var started := reader.ReadStartElement();
    if started.Failure? {
      return Failure(started.error);
    }
    ghost var inner := S.ParseRootChildren(p, store.State(), reader.rest, rr, NewRoot());
    var root := ParseRootChildren(p, store, reader, rr);
    if root.Failure? {
      assert spec == Failure(inner.error);
      return Failure(root.error);
    }
    var ended := reader.ReadEndElement();
    if ended.Failure? {
      return Failure(ended.error);
    }
    store.PutRoot(rr, root.value);
    assert store.roots == roots0[rr := root.value];
    assert spec == Success(S.ParsedRoot(inner.value.arena, reader.rest, rr, inner.value.root));
    return Success(rr);
  }

  /** ParseRoot(string): read a hierarchy snapshot into a new Root. */
  method ParseRootXml(p: S.UnknownElements, store: Store, xml: seq<Token>) returns (res: Result<Ref>)
    modifies store
    ensures var spec := S.ParseRoot(p, old(store.State()), xml);
            res.Success? == spec.Success? &&
            (spec.Success? ==> res.value == spec.value.rootRef && store.State() == spec.value.arena &&
                               store.roots == old(store.roots)[res.value := spec.value.root]) &&
            (spec.Failure? ==> res.error == spec.error)
  {
    var reader := new Reader(xml);
    res := ParseRoot(p, store, reader);
  }

  /** Parse(string, parent): a new item of the kind the top element names. */
  method Parse(p: S.UnknownElements, store: Store, xml: seq<Token>, parent: Option<Ref>) returns (res: Result<Ref>)
    modifies store
    ensures store.roots == old(store.roots)
    ensures var spec := S.Parse(p, old(store.State()), xml, parent);
            res.Success? == spec.Success? &&
            (spec.Success? ==> res.value == spec.value.item && store.State() == spec.value.arena) &&
            (spec.Failure? ==> res.error == spec.error)
  {
    var reader := new Reader(xml);
    if !reader.OnStart() {
      return Failure(InvalidXmlNodeType);
    }
    var local := reader.rest[0].name.local;
    var parsed: Result<()>;
    var item: Ref;
    if local == NotebookName {
      item := store.AllocItem(NewItem(NotebookKind));
      parsed := ParseNotebook(p, store, reader, item, None);
    } else if local == SectionName {
      if !S.IsNotebookOrSectionGroup(store.State(), parent) {
        return Failure(InvalidCast);
      }
      item := store.AllocItem(NewItem(SectionKind));
      parsed := ParseSection(p, store, reader, item, parent);
    } else if local == SectionGroupName {
      if !S.IsNotebookOrSectionGroup(store.State(), parent) {
        return Failure(InvalidCast);
      }
      item := store.AllocItem(NewItem(SectionGroupKind));
      parsed := ParseSectionGroup(p, store, reader, item, parent);
    } else if local == PageName {
      if !S.IsSectionOrNull(store.State(), parent) {
        return Failure(InvalidCast);
      }
      item := store.AllocItem(NewItem(PageKind));
      parsed := ParsePage(store, reader, item, parent);
    } else {
      return Failure(InvalidXmlElement);
    }
    if parsed.Failure? {
      return Failure(parsed.error);
    }
    return Success(item);
  }

  /** ParseExisting(string, item): parse into `item`, keeping its Parent or root. */
  method ParseExisting(p: S.UnknownElements, store: Store, xml: seq<Token>, item: Ref) returns (res: Result<()>)
    requires item in store.items
    modifies store
    ensures store.roots == old(store.roots)
    ensures var spec := S.ParseExisting(p, old(store.State()), xml, item);
            res.Success? == spec.Success? &&
            (spec.Success? ==> store.State() == spec.value) &&
            (spec.Failure? ==> res.error == spec.error)
  {
    var reader := new Reader(xml);
    if !reader.OnStart() {
      return Success(());
    }
    match store.items[item].body
    case Notebook(_, _, _, root, _, _) =>
      res := ParseNotebook(p, store, reader, item, root);
    case SectionGroup(_, _, parent, _, _) =>
      res := ParseSectionGroup(p, store, reader, item, parent);
    case Section(_, _, _, _, _, _, parent, _) =>
      res := ParseSection(p, store, reader, item, parent);
    case Page(_, _, _, parent) =>
      res := ParsePage(store, reader, item, parent);
  }
}
