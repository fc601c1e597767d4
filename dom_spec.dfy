/**
 * What the DOM (XElement) engine of LinqToOneNote computes, as functions of
 * the arena and of the parsed element tree. Each function mirrors one member
 * of the engine: the same order of field writes, the same casts and the same
 * choice of which child elements become items.
 */
module XElementSpec {
  import opened Base
  import opened Xml
  import opened Hierarchy

  /** `element.Name == XName.Get(local, NamespaceUri)`: the name is compared with its namespace. */
  predicate Named(n: Node, local: string) {
    n.Element? && n.name == OneNote(local)
  }

  // ---------------------------------------------------------------------
  // SetAttributes

  /**
   * One iteration of SetAttributes. The XAttribute-to-bool casts decode with
   * XmlConvert rules; isInRecycleBin alone goes through bool.Parse.
   */
  function ApplyAttribute(it: Item, at: Attr): (r: Result<Item>)
    ensures r.Success? ==> SameLinks(it, r.value)
  {
    var v := at.value;
    if at.name == IdAttr then Success(it.(id := Some(v)))
    else if at.name == NameAttr then Success(it.(name := v))
    else if at.name == IsUnreadAttr then
      var b :- XmlBool(v);
      Success(it.(isUnread := b))
    else if at.name == LastModifiedTimeAttr then Success(it.(lastModified := Some(v)))
    else
      var body :- ApplyKindAttribute(it.body, at);
      Success(it.(body := body))
  }

  /** The kind-specific rows of the attribute table. */
  function ApplyKindAttribute(b: Body, at: Attr): (r: Result<Body>)
    ensures r.Success? ==> LinksOf(r.value) == LinksOf(b)
  {
    var v := at.value;
    if at.name == PathAttr then Success(WithPath(b, v))
    else if at.name == ColorAttr then Success(WithColor(b, Some(v)))
    else if at.name == IsInRecycleBinAttr then
      if b.Page? || b.Section? then
        var x :- BoolParse(v);
        Success(WithIsInRecycleBin(b, x))
      else Success(b)
    else if at.name == NickNameAttr then Success(WithDisplayName(b, v))
    else if at.name == IsRecycleBinAttr then
      var x :- XmlBool(v);
      Success(WithIsRecycleBin(b, x))
    else if at.name == EncryptedAttr then
      var x :- XmlBool(v);
      Success(WithEncrypted(b, x))
    else if at.name == LockedAttr then
      var x :- XmlBool(v);
      Success(WithLocked(b, x))
    else if at.name == IsDeletedPagesAttr then
      var x :- XmlBool(v);
      Success(WithIsDeletedPages(b, x))
    else if at.name == PageLevelAttr then Success(WithLevel(b, Some(v)))
    else if at.name == DateTimeAttr then Success(WithCreated(b, Some(v)))
    else Success(b)
  }

  /** The SetAttributes loop: the attributes in document order, stopping at the first failing cast. */
  function ApplyAttributes(it: Item, attrs: seq<Attr>): (r: Result<Item>)
    ensures r.Success? ==> SameLinks(it, r.value)
    decreases |attrs|
  {
    if attrs == [] then Success(it)
    else
      var next :- ApplyAttribute(it, attrs[0]);
      ApplyAttributes(next, attrs[1..])
  }

  function SetAttributes(a: Arena, r: Ref, attrs: seq<Attr>): (res: Result<Arena>)
    requires r in a.items
    ensures res.Success? ==> res.value.next == a.next && r in res.value.items &&
                             SameLinks(a.items[r], res.value.items[r])
  {
    var it :- ApplyAttributes(a.items[r], attrs);
    Success(Put(a, r, it))
  }

  // ---------------------------------------------------------------------
  // The parent casts.

  /** `(INotebookOrSectionGroup)parent`: null, a notebook or a section group. */
  function AsContainer(a: Arena, parent: Option<Ref>): (r: Result<Option<Ref>>)
    ensures r.Success? <==> parent.None? || (parent.value in a.items && a.items[parent.value].IsContainer())
    ensures r.Success? ==> r.value == parent
  {
    if parent.None? || (parent.value in a.items && a.items[parent.value].IsContainer()) then Success(parent)
    else Failure(InvalidCast)
  }

  /** `(Section)parent`: null or a section. */
  function AsSection(a: Arena, parent: Option<Ref>): (r: Result<Option<Ref>>)
    ensures r.Success? <==> parent.None? || (parent.value in a.items && a.items[parent.value].body.Section?)
    ensures r.Success? ==> r.value == parent
  {
    if parent.None? || (parent.value in a.items && a.items[parent.value].body.Section?) then Success(parent)
    else Failure(InvalidCast)
  }

  // ---------------------------------------------------------------------
  // Parse<T>

  /** The arena after building a list, and the list built so far. */
  datatype Built = Built(arena: Arena, refs: seq<Ref>)

  /**
   * Parse<T>(item, element, parent) on the item `r`, whose kind is T:
   * attributes first; a notebook or section group then adds its Section and
   * SectionGroup child elements; a section's pages become every child
   * element; last, a section group, section or page takes `parent` through
   * its cast. A notebook takes no parent.
   */
  function ParseInto(a: Arena, e: Node, r: Ref, parent: Option<Ref>): (res: Result<Arena>)
    requires r in a.items && e.Element?
    decreases e, 1
  {
    var a1 :- SetAttributes(a, r, e.attrs);
    match a1.items[r].body
    case Notebook(_, _, _, _, _, _) => ParseChildren(a1, e.children, r)
    case SectionGroup(_, _, _, _, _) =>
      var a2 :- ParseChildren(a1, e.children, r);
      var p :- AsContainer(a2, parent);
      Success(SetParent(a2, r, p))
    case Section(_, _, _, _, _, _, _, _) =>
      var built :- ParsePages(a1, e.children, r, []);
      var p :- AsContainer(built.arena, parent);
      Success(SetParent(AssignPages(built.arena, r, built.refs), r, p))
    case Page(_, _, _, _) =>
      var p :- AsSection(a1, parent);
      Success(SetParent(a1, r, p))
  }

  /**
   * The foreach over a notebook's or section group's child elements: a
   * Section element becomes a new section added to `sections`, a SectionGroup
   * element a new group added to `sectionGroups`; anything else is passed by.
   */
  function ParseChildren(a: Arena, ns: seq<Node>, c: Ref): (res: Result<Arena>)
    decreases ns, 0
  {
    if ns == [] then Success(a)
    else if Named(ns[0], SectionName) then
      var (a1, s) := Alloc(a, NewItem(SectionKind));
      var a2 :- ParseInto(a1, ns[0], s, Some(c));
      ParseChildren(AppendSection(a2, c, s), ns[1..], c)
    else if Named(ns[0], SectionGroupName) then
      var (a1, g) := Alloc(a, NewItem(SectionGroupKind));
      var a2 :- ParseInto(a1, ns[0], g, Some(c));
      ParseChildren(AppendSectionGroup(a2, c, g), ns[1..], c)
    else ParseChildren(a, ns[1..], c)
  }

  /**
   * `element.Elements().Select(e => Parse(new Page(), e, section))`: every
   * child element, whatever its name, becomes a page of the section; `acc`
   * holds the pages built so far.
   */
  function ParsePages(a: Arena, ns: seq<Node>, s: Ref, acc: seq<Ref>): (res: Result<Built>)
    decreases ns, 0
  {
    if ns == [] then Success(Built(a, acc))
    else if ns[0].Element? then
      var (a1, pg) := Alloc(a, NewItem(PageKind));
      var a2 :- ParseInto(a1, ns[0], pg, Some(s));
      ParsePages(a2, ns[1..], s, acc + [pg])
    else ParsePages(a, ns[1..], s, acc)
  }

  // ---------------------------------------------------------------------
  // ParseRoot

  /**
   * The notebook list: each Notebook child element is parsed with no parent
   * and then given the Root as its root.
   */
  function ParseNotebooks(a: Arena, ns: seq<Node>, rr: Ref, acc: seq<Ref>): (res: Result<Built>)
    decreases ns
  {
    if ns == [] then Success(Built(a, acc))
    else if Named(ns[0], NotebookName) then
      var (a1, nb) := Alloc(a, NewItem(NotebookKind));
      var a2 :- ParseInto(a1, ns[0], nb, None);
      ParseNotebooks(SetRoot(a2, nb, Some(rr)), ns[1..], rr, acc + [nb])
    else ParseNotebooks(a, ns[1..], rr, acc)
  }

  /** The open-section list: every child element is parsed as a section with no parent. */
  function ParseOpenSectionList(a: Arena, ns: seq<Node>, acc: seq<Ref>): (res: Result<Built>)
    decreases ns
  {
    if ns == [] then Success(Built(a, acc))
    else if ns[0].Element? then
      var (a1, s) := Alloc(a, NewItem(SectionKind));
      var a2 :- ParseInto(a1, ns[0], s, None);
      ParseOpenSectionList(a2, ns[1..], acc + [s])
    else ParseOpenSectionList(a, ns[1..], acc)
  }

  /** `rootElement.Element(name)`: the first child element with that name. */
  function FirstNamed(ns: seq<Node>, local: string): (r: Option<Node>)
    ensures r.Some? ==> r.value in ns && Named(r.value, local)
    ensures r.Some? ==> exists i | 0 <= i < |ns| :: ns[i] == r.value && forall j | 0 <= j < i :: !Named(ns[j], local)
    ensures r.None? <==> forall i | 0 <= i < |ns| :: !Named(ns[i], local)
  {
    if ns == [] then None
    else if Named(ns[0], local) then Some(ns[0])
    else
      var r := FirstNamed(ns[1..], local);
      if r.Some? then
        ghost var i :| 0 <= i < |ns[1..]| && ns[1..][i] == r.value && forall j | 0 <= j < i :: !Named(ns[1..][j], local);
        assert ns[i + 1] == r.value && forall j | 0 <= j < i + 1 :: !Named(ns[j], local);
        r
      else r
  }

  /** `element.Attribute(name)`: the value of the attribute with that name, if there is one. */
  function AttributeValue(attrs: seq<Attr>, name: string): (r: Option<string>)
    ensures r.Some? <==> exists i | 0 <= i < |attrs| :: attrs[i].name == name
    ensures r.Some? ==> exists i | 0 <= i < |attrs| :: attrs[i].name == name && attrs[i].value == r.value &&
                                                     forall j | 0 <= j < i :: attrs[j].name != name
  {
    if attrs == [] then None
    else if attrs[0].name == name then Some(attrs[0].value)
    else
      var r := AttributeValue(attrs[1..], name);
      if r.Some? then
        ghost var i :| 0 <= i < |attrs[1..]| && attrs[1..][i].name == name && attrs[1..][i].value == r.value &&
                       forall j | 0 <= j < i :: attrs[1..][j].name != name;
        assert attrs[i + 1].name == name && attrs[i + 1].value == r.value && forall j | 0 <= j < i + 1 :: attrs[j].name != name;
        r
      else r
  }

  /** The arena after ParseRoot, the new Root's reference, and the Root. */
  datatype ParsedRoot = ParsedRoot(arena: Arena, rootRef: Ref, root: RootObj)

  /**
   * ParseRoot: a new Root; its notebooks are the Notebook child elements; its
   * OpenSections is null without an OpenSections child and otherwise takes
   * that element's ID (a missing ID attribute is dereferenced) and its child
   * elements as sections.
   */
  function ParseRoot(a: Arena, e: Node): (res: Result<ParsedRoot>)
  {
    if !e.Element? then Failure(XmlMalformed)
    else
      var (a1, rr) := AllocRef(a);
      var notebooks :- ParseNotebooks(a1, e.children, rr, []);
      var os := FirstNamed(e.children, OpenSectionsName);
      if os.None? then Success(ParsedRoot(notebooks.arena, rr, RootObj(notebooks.refs, None)))
      else
        var id := AttributeValue(os.value.attrs, IdAttr);
        if id.None? then Failure(NullReference)
        else
          var sections :- ParseOpenSectionList(notebooks.arena, os.value.children, []);
          Success(ParsedRoot(sections.arena, rr, RootObj(notebooks.refs, Some(OpenSectionsObj(id, sections.refs)))))
  }

  // ---------------------------------------------------------------------
  // Parse and ParseExisting

  /** The item kind an element name selects, compared with its namespace. */
  function KindOfName(name: QName): (k: Option<Kind>)
    ensures k == Some(NotebookKind) <==> name == OneNote(NotebookName)
    ensures k == Some(SectionGroupKind) <==> name == OneNote(SectionGroupName)
    ensures k == Some(SectionKind) <==> name == OneNote(SectionName)
    ensures k == Some(PageKind) <==> name == OneNote(PageName)
  {
    if name == OneNote(NotebookName) then Some(NotebookKind)
    else if name == OneNote(SectionGroupName) then Some(SectionGroupKind)
    else if name == OneNote(SectionName) then Some(SectionKind)
    else if name == OneNote(PageName) then Some(PageKind)
    else None
  }

  /** The arena after a parse, and the new item. */
  datatype ParsedItem = ParsedItem(arena: Arena, item: Ref)

  /** Parse(xml, parent): a new item of the kind the element's name selects. */
  function Parse(a: Arena, e: Node, parent: Option<Ref>): (res: Result<ParsedItem>)
  {
    if !e.Element? then Failure(XmlMalformed)
    else match KindOfName(e.name)
      case None => Failure(InvalidXmlElement)
      case Some(k) =>
        var (a1, r) := Alloc(a, NewItem(k));
        var a2 :- ParseInto(a1, e, r, parent);
        Success(ParsedItem(a2, r))
  }

  /**
   * ParseExisting(xml, item): parse into the item itself, whatever the
   * element's name, with the item's own Parent (none for a notebook); an
   * unknown item is rejected.
   */
  function ParseExisting(a: Arena, e: Node, r: Ref): (res: Result<Arena>)
  {
    if !e.Element? then Failure(XmlMalformed)
    else if r !in a.items then Failure(InvalidItem)
    else
      var parent := if a.items[r].body.Notebook? then None else a.items[r].Parent();
      ParseInto(a, e, r, parent)
  }
}
