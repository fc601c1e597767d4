/**
 * What the older DOM engine guarantees: the table decides the kind and
 * only a name outside it fails the lookup; Parent, Notebook and
 * RelativePath follow the parent argument; every child element becomes a
 * child (or a notebook, at the top) in document order; and a kind-specific
 * attribute on an item without that field is a cast failure, where the
 * older streaming engine ignores it.
 */
module LegacyXElementProperties {
  import opened Base
  import opened Xml
  import opened Hierarchy
  import opened LegacyXElementSpec
  import L = LegacyReaderSpec

  // ---------------------------------------------------------------------
  // The attribute casts.

  /** The rows that write through a kind-specific interface or class. */
  predicate KindSpecific(row: Row) {
    !(row == IdRow || row == NameRow || row == IsUnreadRow || row == LastModifiedTimeRow || row == NoRow)
  }

  /** The kind-specific rows whose field the item's own class has. */
  predicate HasField(b: Body, row: Row) {
    match b
    case Notebook(_, _, _, _, _, _) => row == NickNameRow || row == PathRow || row == ColorRow
    case SectionGroup(_, _, _, _, _) => row == PathRow || row == IsRecycleBinRow
    case Section(_, _, _, _, _, _, _, _) =>
      row == PathRow || row == ColorRow || row == EncryptedRow || row == LockedRow ||
      row == IsInRecycleBinRow || row == IsDeletedPagesRow
    case Page(_, _, _, _) => row == DateTimeRow || row == PageLevelRow || row == IsInRecycleBinRow
  }

  /** A cast fails exactly on a kind-specific attribute whose field the item's class does not have. */
  lemma CastFailsIffNoField(it: Item, at: Attr)
    ensures var row := RowOf(at.name);
            ApplyAttribute(it, at) == Failure(InvalidCast) <==> KindSpecific(row) && !HasField(it.body, row)
  {
    AttributeErrors(it, at);
    CastIffField(it, RowOf(at.name));
  }

  /** The cast table and the class fields agree, kind by kind. */
  lemma CastIffField(it: Item, row: Row)
    ensures !CastSucceeds(it.KindOf(), row) <==> KindSpecific(row) && !HasField(it.body, row)
  {
    match it.body
    case Notebook(_, _, _, _, _, _) =>
    case SectionGroup(_, _, _, _, _) =>
    case Section(_, _, _, _, _, _, _, _) =>
    case Page(_, _, _, _) =>
  }

  /** One attribute fails by its cast or by its boolean conversion and by nothing else. */
  lemma AttributeErrors(it: Item, at: Attr)
    ensures var r := ApplyAttribute(it, at);
            (r.Failure? ==> r.error == InvalidCast || r.error == Format) &&
            (r == Failure(InvalidCast) <==> !CastSucceeds(it.KindOf(), RowOf(at.name)))
  {
    var x := XmlBool(at.value);
    assert x.Failure? ==> x.error == Format;
    match RowOf(at.name)
    case IsUnreadRow =>
    case IsInRecycleBinRow =>
    case IsRecycleBinRow =>
    case EncryptedRow =>
    case LockedRow =>
    case IsDeletedPagesRow =>
    case _ =>
  }

  /** The attribute loop fails only by a cast or a conversion; the lookup never fails here. */
  lemma {:induction false} AttributesErrors(it: Item, attrs: seq<Attr>)
    ensures var r := ApplyAttributes(it, attrs);
            r.Failure? ==> r.error == InvalidCast || r.error == Format
    decreases |attrs|
  {
    if attrs != [] {
      AttributeErrors(it, attrs[0]);
      var next := ApplyAttribute(it, attrs[0]);
      if next.Success? {
        AttributesErrors(next.value, attrs[1..]);
      }
    }
  }

  /** `path` on a Page: the streaming engine ignores it, the DOM engine fails the cast. */
  lemma EnginesDifferOnForeignAttribute(v: string)
    ensures var page := NewItem(PageKind);
            L.ApplyAttribute(page, Attr(PathAttr, v)) == Success(page) &&
            ApplyAttribute(page, Attr(PathAttr, v)) == Failure(InvalidCast)
  {
  }

  // ---------------------------------------------------------------------
  // Dispatch and the parent-derived properties.

  /** The lookup fails exactly for a name outside the four-entry table; otherwise the kind is the table's. */
  lemma DispatchByTable(e: Node, parent: Option<L.ParentView>, sep: string)
    requires e.Element?
    ensures Dispatch(e, parent, sep) == Failure(KeyNotFound) <==> TableKind(e.name).None?
    ensures var r := Dispatch(e, parent, sep);
            r.Success? ==> TableKind(e.name) == Some(r.value.item.KindOf()) && r.value.element == e
  {
    var k := TableKind(e.name);
    if k.Some? {
      AttributesErrors(NewItem(k.value), e.attrs);
    }
  }

  /**
   * Parse<T>: a notebook has no Parent and its Name as RelativePath; any
   * other item has the parent argument as Parent and `parent?.RelativePath`
   * + separator + Name as RelativePath. Either way Notebook is `parent?.Notebook`.
   */
  lemma ParseLinks(k: Kind, e: Node, parent: Option<L.ParentView>, sep: string)
    requires e.Element?
    ensures var r := Parse(k, e, parent, sep);
            r.Success? ==>
              var x := r.value;
              x.item.KindOf() == k && x.element == e &&
              x.notebook == (if parent.Some? then parent.value.notebook else None) &&
              (k == NotebookKind ==> x.parent == None && x.relativePath == x.item.name) &&
              (k != NotebookKind ==> x.parent == parent &&
                                     x.relativePath == ParentPath(parent) + sep + x.item.name)
  {
  }

  /** Without a parent, a section's path starts with the separator. */
  lemma NullParentPath(e: Node, sep: string)
    requires e.Element? && TableKind(e.name) == Some(SectionKind)
    ensures var r := ParseUnknown(e, None, sep);
            r.Success? ==> r.value.parent == None && r.value.notebook == None &&
                           r.value.relativePath == sep + r.value.item.name
  {
    ParseLinks(SectionKind, e, None, sep);
  }

  /** ParseUnknown: malformed input, the table's lookup failure, or the item of the table's kind. */
  lemma ParseUnknownByTable(root: Node, parent: Option<L.ParentView>, sep: string)
    ensures !root.Element? ==> ParseUnknown(root, parent, sep) == Failure(XmlMalformed)
    ensures root.Element? ==> (ParseUnknown(root, parent, sep) == Failure(KeyNotFound) <==> TableKind(root.name).None?)
    ensures var r := ParseUnknown(root, parent, sep);
            r.Success? ==> root.Element? && TableKind(root.name) == Some(r.value.item.KindOf())
  {
    if root.Element? {
      DispatchByTable(root, parent, sep);
    }
  }

  // ---------------------------------------------------------------------
  // The two comprehensions.

  /** How many of `ns` are elements. */
  function CountElements(ns: seq<Node>): nat {
    if ns == [] then 0 else (if ns[0].Element? then 1 else 0) + CountElements(ns[1..])
  }

  /** Elements() keeps every element, in document order, and nothing else. */
  lemma {:induction false} ElementsCount(ns: seq<Node>)
    ensures |Elements(ns)| == CountElements(ns)
    ensures forall i | 0 <= i < |Elements(ns)| :: Elements(ns)[i] in ns
  {
    if ns != [] {
      ElementsCount(ns[1..]);
    }
  }

  /**
   * ParseNotebooks: one outcome per child element, whatever its name, each
   * a Notebook with no parent and no Notebook, built from that element.
   */
  lemma ParseNotebooksEveryElement(root: Node, sep: string)
    requires root.Element?
    ensures var r := ParseNotebooks(root, sep);
            r.Success? && |r.value| == CountElements(root.children) &&
            forall i | 0 <= i < |r.value| :: r.value[i].Success? ==>
              var nb := r.value[i].value;
              nb.item.KindOf() == NotebookKind && nb.parent == None && nb.notebook == None &&
              nb.relativePath == nb.item.name && nb.element == Elements(root.children)[i]
  {
    ElementsCount(root.children);
    var es := Elements(root.children);
    forall i | 0 <= i < |es| {
      ParseLinks(NotebookKind, es[i], None, sep);
    }
  }

  /** What Children holds for the child element `e`, with `x` as the parent. */
  predicate ChildOutcome(x: DItem, e: Node, c: Result<DItem>, sep: string)
    requires e.Element?
  {
    (c == Failure(KeyNotFound) <==> TableKind(e.name).None?) &&
    (c.Success? ==>
      TableKind(e.name) == Some(c.value.item.KindOf()) && c.value.element == e &&
      c.value.notebook == x.notebook &&
      (c.value.item.KindOf() != NotebookKind ==>
        c.value.parent == Some(ViewOf(x)) && c.value.relativePath == x.relativePath + sep + c.value.item.name))
  }

  lemma DispatchChild(x: DItem, e: Node, sep: string)
    requires e.Element?
    ensures ChildOutcome(x, e, Dispatch(e, Some(ViewOf(x)), sep), sep)
  {
    DispatchByTable(e, Some(ViewOf(x)), sep);
    var k := TableKind(e.name);
    if k.Some? {
      ParseLinks(k.value, e, Some(ViewOf(x)), sep);
    }
  }

  /**
   * Children: one outcome per child element, in document order. A child of
   * a name outside the table fails the lookup; any other is of the table's
   * kind, with this item as Parent, its Notebook, and its RelativePath
   * extended by the child's Name.
   */
  lemma ChildrenEveryElement(x: DItem, sep: string)
    requires x.element.Element?
    ensures var cs := Children(x, sep);
            var es := Elements(x.element.children);
            |cs| == |es| == CountElements(x.element.children) &&
            forall i | 0 <= i < |cs| :: ChildOutcome(x, es[i], cs[i], sep)
  {
    ElementsCount(x.element.children);
    var es := Elements(x.element.children);
    forall i | 0 <= i < |es|
      ensures ChildOutcome(x, es[i], Children(x, sep)[i], sep)
    {
      DispatchChild(x, es[i], sep);
    }
  }

  /**
   * The two older engines read names differently: the streaming one looks at
   * the local name only, the DOM one at the qualified name. A Section element
   * outside the OneNote namespace is a section to the first and a failed
   * lookup to the second.
   */
  lemma NamespaceMatters(parent: L.ParentView, sep: string)
    ensures var e := Element(QName("urn:other", SectionName), [], []);
            ParseUnknown(e, Some(parent), sep) == Failure(KeyNotFound) &&
            L.ParseUnknown(Tokens(e), Some(parent), sep).Success? &&
            L.ParseUnknown(Tokens(e), Some(parent), sep).value.Some?
  {
    var e := Element(QName("urn:other", SectionName), [], []);
    assert Tokens(e) == [Start(e.name, [], true)];
  }
}
