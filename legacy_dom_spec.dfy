/**
 * What the older DOM engine (Odotocodot.OneNote.Linq's XmlParserXElement)
 * computes. An element's qualified name selects one of four constructors
 * from a table; the attributes are written through the interfaces each kind
 * implements; Parent, Notebook and RelativePath come from the parent
 * argument; and `Children` is a lazy `Select` over the element's child
 * elements, so an item keeps its element and each child is parsed only
 * when the enumeration reaches it.
 */
module LegacyXElementSpec {
  import opened Base
  import opened Xml
  import opened Hierarchy
  import L = LegacyReaderSpec

  /**
   * An item of this engine: the attribute fields, its Parent as seen when it
   * was built, RelativePath, an opaque handle of its Notebook, and the
   * element its Children are computed from.
   */
  datatype DItem = DItem(item: Item, parent: Option<L.ParentView>, relativePath: string,
                         notebook: Option<Ref>, element: Node)

  function ViewOf(x: DItem): L.ParentView {
    L.ParentView(x.item.KindOf(), x.relativePath, x.notebook)
  }

  /** The `runtimeParser` table: four names in the OneNote namespace. */
  function TableKind(name: QName): Option<Kind> {
    if name == OneNote(NotebookName) then Some(NotebookKind)
    else if name == OneNote(SectionGroupName) then Some(SectionGroupKind)
    else if name == OneNote(SectionName) then Some(SectionKind)
    else if name == OneNote(PageName) then Some(PageKind)
    else None
  }

  // ---------------------------------------------------------------------
  // SetAttributes.

  /** `((IWritablePath)item)`: the classes that implement the interface. */
  predicate WritablePath(k: Kind) {
    k == NotebookKind || k == SectionGroupKind || k == SectionKind
  }

  /** `((IWritableColor)item)`. */
  predicate WritableColor(k: Kind) {
    k == NotebookKind || k == SectionKind
  }

  /** `((IWritableIsInRecycleBin)item)`. */
  predicate WritableIsInRecycleBin(k: Kind) {
    k == SectionKind || k == PageKind
  }

  /** The rows of the SetAttributes switch; NoRow for a name none of them matches. */
  datatype Row =
    | IdRow | NameRow | IsUnreadRow | LastModifiedTimeRow
    | PathRow | ColorRow | IsInRecycleBinRow | NickNameRow | IsRecycleBinRow
    | EncryptedRow | LockedRow | IsDeletedPagesRow | PageLevelRow | DateTimeRow
    | NoRow

  /** `switch (attribute.Name.LocalName)`. */
  function RowOf(name: string): Row {
    if name == IdAttr then IdRow
    else if name == NameAttr then NameRow
    else if name == IsUnreadAttr then IsUnreadRow
    else if name == LastModifiedTimeAttr then LastModifiedTimeRow
    else if name == PathAttr then PathRow
    else if name == ColorAttr then ColorRow
    else if name == IsInRecycleBinAttr then IsInRecycleBinRow
    else if name == NickNameAttr then NickNameRow
    else if name == IsRecycleBinAttr then IsRecycleBinRow
    else if name == EncryptedAttr then EncryptedRow
    else if name == LockedAttr then LockedRow
    else if name == IsDeletedPagesAttr then IsDeletedPagesRow
    else if name == PageLevelAttr then PageLevelRow
    else if name == DateTimeAttr then DateTimeRow
    else NoRow
  }

  /**
   * The cast a row makes before it writes: to an interface for path, color
   * and isInRecycleBin, to the one class that has the field for the other
   * kind-specific rows. The four fields every item has need no cast.
   */
  predicate CastSucceeds(k: Kind, row: Row) {
    match row
    case PathRow => WritablePath(k)
    case ColorRow => WritableColor(k)
    case IsInRecycleBinRow => WritableIsInRecycleBin(k)
    case NickNameRow => k == NotebookKind
    case IsRecycleBinRow => k == SectionGroupKind
    case EncryptedRow | LockedRow | IsDeletedPagesRow => k == SectionKind
    case PageLevelRow | DateTimeRow => k == PageKind
    case _ => true
  }

  /** One turn of the SetAttributes foreach: the cast, then the write; booleans go through the `(bool)` conversion. */
  function ApplyAttribute(it: Item, at: Attr): (r: Result<Item>)
    ensures r.Success? ==> SameLinks(it, r.value)
  {
    var v := at.value;
    var b := it.body;
    var row := RowOf(at.name);
    if !CastSucceeds(it.KindOf(), row) then Failure(InvalidCast)
    else
      match row
      case IdRow => Success(it.(id := Some(v)))
      case NameRow => Success(it.(name := v))
      case IsUnreadRow => var x :- XmlBool(v); Success(it.(isUnread := x))
      case LastModifiedTimeRow => Success(it.(lastModified := Some(v)))
      case PathRow => Success(it.(body := WithPath(b, v)))
      case ColorRow => Success(it.(body := WithColor(b, Some(v))))
      case IsInRecycleBinRow => var x :- XmlBool(v); Success(it.(body := WithIsInRecycleBin(b, x)))
      case NickNameRow => Success(it.(body := WithDisplayName(b, v)))
      case IsRecycleBinRow => var x :- XmlBool(v); Success(it.(body := WithIsRecycleBin(b, x)))
      case EncryptedRow => var x :- XmlBool(v); Success(it.(body := WithEncrypted(b, x)))
      case LockedRow => var x :- XmlBool(v); Success(it.(body := WithLocked(b, x)))
      case IsDeletedPagesRow => var x :- XmlBool(v); Success(it.(body := WithIsDeletedPages(b, x)))
      case PageLevelRow => Success(it.(body := WithLevel(b, Some(v))))
      case DateTimeRow => Success(it.(body := WithCreated(b, Some(v))))
      case NoRow => Success(it)
  }

  /** The foreach over the element's attributes, stopping at the first exception. */
  function ApplyAttributes(it: Item, attrs: seq<Attr>): (r: Result<Item>)
    ensures r.Success? ==> SameLinks(it, r.value)
    decreases |attrs|
  {
    if attrs == [] then Success(it)
    else
      var next :- ApplyAttribute(it, attrs[0]);
      ApplyAttributes(next, attrs[1..])
  }

  // ---------------------------------------------------------------------
  // Parse<T>, the table, and the two entry points.

  /** `parent?.RelativePath`: null (an empty string in the interpolation) without a parent. */
  function ParentPath(parent: Option<L.ParentView>): string {
    if parent.Some? then parent.value.relativePath else ""
  }

  /**
   * Parse<T>(new T(), element, parent). A Notebook ignores the Parent and
   * RelativePath setters: its Parent is null and its RelativePath is its Name.
   */
  function Parse(k: Kind, e: Node, parent: Option<L.ParentView>, sep: string): Result<DItem>
    requires e.Element?
  {
    var it :- ApplyAttributes(NewItem(k), e.attrs);
    var notebook := if parent.Some? then parent.value.notebook else None;
    if k == NotebookKind then Success(DItem(it, None, it.name, notebook, e))
    else Success(DItem(it, parent, L.ChildPath(ParentPath(parent), sep, it.name), notebook, e))
  }

  /** `runtimeParser[element.Name](element, parent)`: a name outside the table is a failed lookup. */
  function Dispatch(e: Node, parent: Option<L.ParentView>, sep: string): Result<DItem>
    requires e.Element?
  {
    var k := TableKind(e.name);
    if k.None? then Failure(KeyNotFound) else Parse(k.value, e, parent, sep)
  }

  /** `Elements()`: the child elements, in document order. */
  function Elements(ns: seq<Node>): (r: seq<Node>)
    ensures |r| <= |ns| && forall i | 0 <= i < |r| :: r[i].Element?
  {
    if ns == [] then []
    else if ns[0].Element? then [ns[0]] + Elements(ns[1..])
    else Elements(ns[1..])
  }

  /**
   * Children, as its enumeration meets them: one outcome per child element,
   * each parsed through the table with this item as parent.
   */
  function Children(x: DItem, sep: string): (r: seq<Result<DItem>>)
  {
    var es := if x.element.Element? then Elements(x.element.children) else [];
    seq(|es|, i requires 0 <= i < |es| => Dispatch(es[i], Some(ViewOf(x)), sep))
  }

  /** ParseNotebooks(xml): every child element of the top element becomes a Notebook with no parent. */
  function ParseNotebooks(root: Node, sep: string): Result<seq<Result<DItem>>> {
    if !root.Element? then Failure(XmlMalformed)
    else
      var es := Elements(root.children);
      Success(seq(|es|, i requires 0 <= i < |es| => Parse(NotebookKind, es[i], None, sep)))
  }

  /** ParseUnknown(xml, parent): the table entry for the top element's name. */
  function ParseUnknown(root: Node, parent: Option<L.ParentView>, sep: string): Result<DItem> {
    if !root.Element? then Failure(XmlMalformed) else Dispatch(root, parent, sep)
  }
}
