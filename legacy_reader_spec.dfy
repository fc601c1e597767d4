/**
 * What the older streaming engine (Odotocodot.OneNote.Linq's
 * XmlParserXmlReader) returns, as functions of the tokens its reader has not
 * consumed yet. The items of that library are objects that each hold their
 * own `Children` list (sections and section groups interleaved in one list),
 * their `Parent`, their `RelativePath` and their `Notebook`; none of them is
 * shared once built, so they are modelled as values.
 */
module LegacyReaderSpec {
  import opened Base
  import opened Xml
  import opened Hierarchy

  /** What a new child copies from the item it is given as parent. */
  datatype ParentView = ParentView(kind: Kind, relativePath: string, notebook: Option<Ref>)

  /**
   * An item of the older library. `item` holds the attribute fields (its
   * reference fields stay empty: the tree is `children`); `parent` is what
   * the item's Parent was when it was built; `notebook` is an opaque handle
   * of the Notebook object its `Notebook` property points to.
   */
  datatype LItem = LItem(item: Item, parent: Option<ParentView>, relativePath: string,
                         notebook: Option<Ref>, children: seq<LItem>)

  function ViewOf(x: LItem): ParentView {
    ParentView(x.item.KindOf(), x.relativePath, x.notebook)
  }

  /** `$"{parent.RelativePath}{RelativePathSeparatorString}{item.Name}"`. */
  function ChildPath(parentPath: string, sep: string, name: string): string {
    parentPath + sep + name
  }

  // ---------------------------------------------------------------------
  // The attribute switches.

  /**
   * One turn of a `while (reader.MoveToNextAttribute())` switch. The four
   * attributes every kind has come first; the rest depend on the kind, and an
   * attribute outside the item's own switch is ignored.
   */
  function ApplyAttribute(it: Item, at: Attr): (r: Result<Item>)
    ensures r.Success? ==> SameLinks(it, r.value)
  {
    var v := at.value;
    if at.name == IdAttr then Success(it.(id := Some(v)))
    else if at.name == NameAttr then Success(it.(name := v))
    else if at.name == LastModifiedTimeAttr then Success(it.(lastModified := Some(v)))
    else if at.name == IsUnreadAttr then
      var b :- BoolParse(v);
      Success(it.(isUnread := b))
    else
      var body :- ApplyKindAttribute(it.body, at);
      Success(it.(body := body))
  }

  /** The kind-specific cases of each switch (`nickname` is a notebook's displayName field). */
  function ApplyKindAttribute(b: Body, at: Attr): (r: Result<Body>)
    ensures r.Success? ==> LinksOf(r.value) == LinksOf(b)
  {
    var v := at.value;
    match b
    case Notebook(_, _, _, _, _, _) =>
      if at.name == NickNameAttr then Success(WithDisplayName(b, v))
      else if at.name == PathAttr then Success(WithPath(b, v))
      else if at.name == ColorAttr then Success(WithColor(b, Some(v)))
      else Success(b)
    case SectionGroup(_, _, _, _, _) =>
      if at.name == PathAttr then Success(WithPath(b, v))
      else if at.name == IsRecycleBinAttr then
        var x :- BoolParse(v);
        Success(WithIsRecycleBin(b, x))
      else Success(b)
    case Section(_, _, _, _, _, _, _, _) =>
      if at.name == PathAttr then Success(WithPath(b, v))
      else if at.name == ColorAttr then Success(WithColor(b, Some(v)))
      else if at.name == EncryptedAttr then
        var x :- BoolParse(v);
        Success(WithEncrypted(b, x))
      else if at.name == LockedAttr then
        var x :- BoolParse(v);
        Success(WithLocked(b, x))
      else if at.name == IsInRecycleBinAttr then
        var x :- BoolParse(v);
        Success(WithIsInRecycleBin(b, x))
      else if at.name == IsDeletedPagesAttr then
        var x :- BoolParse(v);
        Success(WithIsDeletedPages(b, x))
      else Success(b)
    case Page(_, _, _, _) =>
      if at.name == DateTimeAttr then Success(WithCreated(b, Some(v)))
      else if at.name == PageLevelAttr then Success(WithLevel(b, Some(v)))
      else if at.name == IsInRecycleBinAttr then
        var x :- BoolParse(v);
        Success(WithIsInRecycleBin(b, x))
      else Success(b)
  }

  /** The attribute loop: the attributes in document order, stopping at the first parse failure. */
  function ApplyAttributes(it: Item, attrs: seq<Attr>): (r: Result<Item>)
    ensures r.Success? ==> SameLinks(it, r.value)
    decreases |attrs|
  {
    if attrs == [] then Success(it)
    else
      var next :- ApplyAttribute(it, attrs[0]);
      ApplyAttributes(next, attrs[1..])
  }

  /** A new item of kind `k` after the attribute loop over the element the reader is on. */
  function NewWithAttributes(k: Kind, ts: seq<Token>): Result<Item> {
    ApplyAttributes(NewItem(k), AttrsAt(ts))
  }

  // ---------------------------------------------------------------------
  // The Parse* methods.

  /** An item, and the tokens left for the reader. */
  datatype LParsed = LParsed(item: LItem, rest: seq<Token>)

  /** A list built by a child loop, and the tokens left for the reader. */
  datatype LParsedList = LParsedList(items: seq<LItem>, rest: seq<Token>)

  predicate OnStart(ts: seq<Token>) {
    ts != [] && ts[0].Start?
  }

  /** The reader is on an element with this local name (the namespace is not looked at). */
  predicate OnElement(ts: seq<Token>, local: string) {
    OnStart(ts) && ts[0].name.local == local
  }

  /** A child of `parent`: Parent, Notebook and RelativePath come from it. */
  function ChildItem(it: Item, parent: ParentView, sep: string): LItem {
    LItem(it, Some(parent), ChildPath(parent.relativePath, sep, it.name), parent.notebook, [])
  }

  /** ParsePage: Parent and Notebook, the attributes, RelativePath, then skip the page's subtree. */
  function ParsePage(ts: seq<Token>, parent: ParentView, sep: string): (r: Result<LParsed>)
    requires OnStart(ts)
    ensures r.Success? ==> |r.value.rest| < |ts|
  {
    var it :- NewWithAttributes(PageKind, ts);
    Success(LParsed(ChildItem(it, parent, sep), Skip(ts)))
  }

  /** The page loop of ParseSection: only elements named Page become pages; `reader.Read()` otherwise. */
  function ParsePages(ts: seq<Token>, section: ParentView, sep: string, acc: seq<LItem>): (r: Result<LParsedList>)
    ensures r.Success? ==> |r.value.rest| <= |ts|
    decreases |ts|
  {
    if AtEndOrNone(ts) then Success(LParsedList(acc, ts))
    else if OnElement(ts, PageName) then
      var pg :- ParsePage(ts, section, sep);
      ParsePages(pg.rest, section, sep, acc + [pg.item])
    else ParsePages(Read(ts), section, sep, acc)
  }

  /** ParseSection: an empty element has no children; otherwise the page loop and the end tag. */
  function ParseSection(ts: seq<Token>, parent: ParentView, sep: string): (r: Result<LParsed>)
    requires OnStart(ts)
    ensures r.Success? ==> |r.value.rest| < |ts|
  {
    var it :- NewWithAttributes(SectionKind, ts);
    var self := ChildItem(it, parent, sep);
    if IsEmptyElement(ts) then Success(LParsed(self, Skip(ts)))
    else
      var pages :- ParsePages(ts[1..], ViewOf(self), sep, []);  // after ReadStartElement
      var ts2 :- ReadEndElement(pages.rest);
      Success(LParsed(self.(children := pages.items), ts2))
  }

  /**
   * The child loop of ParseNotebook and ParseSectionGroup: Section and
   * SectionGroup elements, appended to one list in document order;
   * `reader.Read()` on anything else.
   */
  function ParseChildren(ts: seq<Token>, container: ParentView, sep: string, acc: seq<LItem>): (r: Result<LParsedList>)
    ensures r.Success? ==> |r.value.rest| <= |ts|
    decreases |ts|, 1
  {
    if AtEndOrNone(ts) then Success(LParsedList(acc, ts))
    else if OnElement(ts, SectionName) then
      var sec :- ParseSection(ts, container, sep);
      ParseChildren(sec.rest, container, sep, acc + [sec.item])
    else if OnElement(ts, SectionGroupName) then
      var grp :- ParseSectionGroup(ts, container, sep);
      ParseChildren(grp.rest, container, sep, acc + [grp.item])
    else ParseChildren(Read(ts), container, sep, acc)
  }

  /** ParseSectionGroup: as ParseSection, with the child loop. */
  function ParseSectionGroup(ts: seq<Token>, parent: ParentView, sep: string): (r: Result<LParsed>)
    requires OnStart(ts)
    ensures r.Success? ==> |r.value.rest| < |ts|
    decreases |ts|, 0
  {
    var it :- NewWithAttributes(SectionGroupKind, ts);
    var self := ChildItem(it, parent, sep);
    if IsEmptyElement(ts) then Success(LParsed(self, Skip(ts)))
    else
      var kids :- ParseChildren(ts[1..], ViewOf(self), sep, []);  // after ReadStartElement
      var ts2 :- ReadEndElement(kids.rest);
      Success(LParsed(self.(children := kids.items), ts2))
  }

  /**
   * A notebook as this engine builds it: no Parent (the Notebook class
   * ignores the setter), its RelativePath is its Name (the class's getter),
   * and its Notebook property is never assigned.
   */
  function NotebookItem(it: Item): LItem {
    LItem(it, None, it.name, None, [])
  }

  /** ParseNotebook: the attributes, then the child loop unless the element is empty. */
  function ParseNotebook(ts: seq<Token>, sep: string): (r: Result<LParsed>)
    requires OnStart(ts)
    ensures r.Success? ==> |r.value.rest| < |ts|
  {
    var it :- NewWithAttributes(NotebookKind, ts);
    var self := NotebookItem(it);
    if IsEmptyElement(ts) then Success(LParsed(self, Skip(ts)))
    else
      var kids :- ParseChildren(ts[1..], ViewOf(self), sep, []);  // after ReadStartElement
      var ts2 :- ReadEndElement(kids.rest);
      Success(LParsed(self.(children := kids.items), ts2))
  }

  /** The loop of the private ParseNotebooks: Notebook elements in document order, `reader.Read()` otherwise. */
  function ParseNotebookList(ts: seq<Token>, sep: string, acc: seq<LItem>): (r: Result<LParsedList>)
    ensures r.Success? ==> |r.value.rest| <= |ts|
    decreases |ts|
  {
    if AtEndOrNone(ts) then Success(LParsedList(acc, ts))
    else if OnElement(ts, NotebookName) then
      var nb :- ParseNotebook(ts, sep);
      ParseNotebookList(nb.rest, sep, acc + [nb.item])
    else ParseNotebookList(Read(ts), sep, acc)
  }

  /** The private ParseNotebooks(reader): empty on an empty element, else the loop and the end tag. */
  function ParseNotebookElement(ts: seq<Token>, sep: string): (r: Result<seq<LItem>>)
    requires OnStart(ts)
  {
    if IsEmptyElement(ts) then Success([])
    else
      var nbs :- ParseNotebookList(ts[1..], sep, []);  // after ReadStartElement
      var _ :- ReadEndElement(nbs.rest);
      Success(nbs.items)
  }

  /** ParseNotebooks(xml): the list under a top element named Notebooks, or an empty array. */
  function ParseNotebooks(ts: seq<Token>, sep: string): Result<seq<LItem>> {
    if OnElement(ts, NotebookList) then ParseNotebookElement(ts, sep) else Success([])
  }

  /**
   * ParseUnknown(xml, parent): dispatch on the top element's local name.
   * A non-element or an unknown name gives null (None). A Section or
   * SectionGroup reads `parent.Notebook`, so a null parent fails; a Page
   * casts its parent to Section first.
   */
  function ParseUnknown(ts: seq<Token>, parent: Option<ParentView>, sep: string): Result<Option<LItem>> {
    if !OnStart(ts) then Success(None)
    else
      var local := ts[0].name.local;
      if local == NotebookName then
        var nb :- ParseNotebook(ts, sep);
        Success(Some(nb.item))
      else if local == SectionName then
        if parent.None? then Failure(NullReference)
        else
          var s :- ParseSection(ts, parent.value, sep);
          Success(Some(s.item))
      else if local == SectionGroupName then
        if parent.None? then Failure(NullReference)
        else
          var g :- ParseSectionGroup(ts, parent.value, sep);
          Success(Some(g.item))
      else if local == PageName then
        if parent.Some? && parent.value.kind != SectionKind then Failure(InvalidCast)
        else if parent.None? then Failure(NullReference)
        else
          var pg :- ParsePage(ts, parent.value, sep);
          Success(Some(pg.item))
      else Success(None)
  }
}
