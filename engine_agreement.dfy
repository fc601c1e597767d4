/**
 * The two engines of LinqToOneNote agree on a well-formed hierarchy
 * document: every element is in the OneNote namespace, notebooks and section
 * groups hold only Section and SectionGroup elements, sections hold only
 * Page elements, the root holds notebooks followed by at most one
 * OpenSections element carrying one ID, and every boolean attribute reads
 * true or false. On such a document the streaming ParseRoot and Parse build
 * the same arena, the same Root and the same item as the DOM ones, whichever
 * way the reader passes unknown elements.
 *
 * The engines write an item's fields in different orders: the reader sets
 * Parent (or a notebook's root) before the attributes and the DOM after the
 * children; the reader appends each page to its section and the DOM assigns
 * the list at the end. So the proof first shows that a pending write to one
 * link field commutes with the DOM parse of any other item.
 */
module EngineAgreement {
  import opened Base
  import opened Xml
  import opened Hierarchy
  import R = XmlReaderSpec
  import D = XElementSpec
  import DP = XElementProperties

  // ---------------------------------------------------------------------
  // The documents.

  /** The attributes one of the engines decodes as a boolean. */
  predicate IsBoolAttribute(name: string) {
    name == IsUnreadAttr || name == IsRecycleBinAttr || name == EncryptedAttr ||
    name == LockedAttr || name == IsDeletedPagesAttr || name == IsInRecycleBinAttr
  }

  /** A value bool.Parse and the XAttribute cast both accept, with the same meaning. */
  predicate IsBoolWord(v: string) {
    EqualsIgnoreCase(v, "true") || EqualsIgnoreCase(v, "false")
  }

  predicate WordsOnly(attrs: seq<Attr>) {
    forall i | 0 <= i < |attrs| :: IsBoolAttribute(attrs[i].name) ==> IsBoolWord(attrs[i].value)
  }

  /** No two attributes share a name, as XML requires of a well-formed element. */
  predicate DistinctNames(attrs: seq<Attr>) {
    forall i, j | 0 <= i < j < |attrs| :: attrs[i].name != attrs[j].name
  }

  /** An element with that name in the OneNote namespace, whose boolean attributes are words. */
  predicate Tagged(n: Node, local: string) {
    n.Element? && n.name == OneNote(local) && WordsOnly(n.attrs)
  }

  predicate SectionElement(n: Node) {
    Tagged(n, SectionName) && forall i | 0 <= i < |n.children| :: Tagged(n.children[i], PageName)
  }

  /** A Section element, or a SectionGroup element whose children are all of this class. */
  predicate ContainerChild(n: Node)
    decreases n, 1
  {
    SectionElement(n) || (Tagged(n, SectionGroupName) && ContainerChildren(n.children))
  }

  predicate ContainerChildren(ns: seq<Node>)
    decreases ns, 0
  {
    forall i | 0 <= i < |ns| :: ContainerChild(ns[i])
  }

  predicate NotebookElement(n: Node) {
    Tagged(n, NotebookName) && ContainerChildren(n.children)
  }

  predicate OpenSectionsElement(n: Node) {
    Tagged(n, OpenSectionsName) && DistinctNames(n.attrs) && D.AttributeValue(n.attrs, IdAttr).Some? &&
    forall i | 0 <= i < |n.children| :: SectionElement(n.children[i])
  }

  /** The root element (of any name): notebooks, then at most one OpenSections element. */
  predicate RootDocument(e: Node) {
    e.Element? &&
    forall i | 0 <= i < |e.children| ::
      NotebookElement(e.children[i]) || (i == |e.children| - 1 && OpenSectionsElement(e.children[i]))
  }

  /** An element Parse turns into an item. */
  predicate ItemElement(e: Node) {
    NotebookElement(e) || ContainerChild(e) || Tagged(e, PageName)
  }

  // ---------------------------------------------------------------------
  // Attributes: the decoders agree on words.

  lemma KindAttributeAgrees(b: Body, at: Attr)
    requires IsBoolAttribute(at.name) ==> IsBoolWord(at.value)
    ensures D.ApplyKindAttribute(b, at).Success? && R.ApplyKindAttribute(b, at) == D.ApplyKindAttribute(b, at)
  {
    if at.name in {IsRecycleBinAttr, EncryptedAttr, LockedAttr, IsDeletedPagesAttr} ||
       (at.name == IsInRecycleBinAttr && (b.Page? || b.Section?)) {
      DP.WordValues(at.value);
    }
  }

  lemma AttributeAgrees(it: Item, at: Attr)
    requires IsBoolAttribute(at.name) ==> IsBoolWord(at.value)
    ensures D.ApplyAttribute(it, at).Success? && R.ApplyAttribute(it, at) == D.ApplyAttribute(it, at)
  {
    if at.name == IsUnreadAttr {
      DP.WordValues(at.value);
    } else if at.name !in {IdAttr, NameAttr, LastModifiedTimeAttr} {
      KindAttributeAgrees(it.body, at);
    }
  }

  lemma {:induction false} AttributesAgree(it: Item, attrs: seq<Attr>)
    requires WordsOnly(attrs)
    ensures D.ApplyAttributes(it, attrs).Success? && R.ApplyAttributes(it, attrs) == D.ApplyAttributes(it, attrs)
    decreases |attrs|
  {
    if attrs != [] {
      AttributeAgrees(it, attrs[0]);
      AttributesAgree(D.ApplyAttribute(it, attrs[0]).value, attrs[1..]);
    }
  }

  // ---------------------------------------------------------------------
  // A pending write to one link field.

  /** Parent, a notebook's root, or a section's page list, set to a value. */
  datatype LinkWrite = ToParent(parent: Option<Ref>) | ToRoot(root: Option<Ref>) | ToPages(pages: seq<Ref>)

  function WriteBody(b: Body, w: LinkWrite): (r: Body)
    ensures LinksOf(r).kind == LinksOf(b).kind
    ensures LinksOf(r).sections == LinksOf(b).sections && LinksOf(r).sectionGroups == LinksOf(b).sectionGroups
  {
    match w
    case ToParent(v) => WithParent(b, v)
    case ToRoot(v) => WithRoot(b, v)
    case ToPages(v) => WithPages(b, v)
  }

  function WriteItem(it: Item, w: LinkWrite): Item {
    it.(body := WriteBody(it.body, w))
  }

  /** The write on item `q` of the arena (none if `q` is not an item). */
  function Write(a: Arena, q: Ref, w: LinkWrite): (r: Arena)
    ensures r.items.Keys == a.items.Keys && r.next == a.next
  {
    if q in a.items then a.(items := a.items[q := WriteItem(a.items[q], w)]) else a
  }

  /** The arena setters the engines call are writes. */
  lemma SettersWrite(a: Arena, q: Ref, v: Option<Ref>, pages: seq<Ref>)
    ensures SetParent(a, q, v) == Write(a, q, ToParent(v))
    ensures SetRoot(a, q, v) == Write(a, q, ToRoot(v))
    ensures q in a.items && a.items[q].body.Section? ==> AssignPages(a, q, pages) == Write(a, q, ToPages(pages))
  {
  }

  /** A write changes no kind and no other item. */
  lemma WriteKeeps(a: Arena, q: Ref, w: LinkWrite)
    ensures var b := Write(a, q, w);
            (Allocated(a) ==> Allocated(b)) &&
            forall x | x in a.items :: b.items[x].KindOf() == a.items[x].KindOf() &&
                                       b.items[x].IsContainer() == a.items[x].IsContainer() &&
                                       b.items[x].body.Section? == a.items[x].body.Section? &&
                                       (x != q ==> b.items[x] == a.items[x])
  {
  }

  /** The casts of the parent only look at kinds. */
  lemma CastsIgnoreWrite(a: Arena, q: Ref, w: LinkWrite, parent: Option<Ref>)
    ensures D.AsContainer(Write(a, q, w), parent) == D.AsContainer(a, parent)
    ensures D.AsSection(Write(a, q, w), parent) == D.AsSection(a, parent)
    ensures R.IsNotebookOrSectionGroup(Write(a, q, w), parent) == R.IsNotebookOrSectionGroup(a, parent)
    ensures R.IsSectionOrNull(Write(a, q, w), parent) == R.IsSectionOrNull(a, parent)
  {
    WriteKeeps(a, q, w);
  }

  /** Writes to two different items commute. */
  lemma WritesCommute(a: Arena, q: Ref, w: LinkWrite, r: Ref, v: LinkWrite)
    requires q != r
    ensures Write(Write(a, q, w), r, v) == Write(Write(a, r, v), q, w)
  {
  }

  /** A write commutes with overwriting another item. */
  lemma PutCommutes(a: Arena, q: Ref, w: LinkWrite, r: Ref, it: Item)
    requires q != r
    ensures Put(Write(a, q, w), r, it) == Write(Put(a, r, it), q, w)
  {
  }

  /** A write to an allocated item commutes with allocating a new one. */
  lemma AllocCommutes(a: Arena, q: Ref, w: LinkWrite, it: Item)
    requires q < a.next
    ensures Alloc(Write(a, q, w), it) == (Write(Alloc(a, it).0, q, w), a.next)
  {
    if q in a.items {
      var x := WriteItem(a.items[q], w);
      assert a.items[a.next := it][q] == a.items[q];
      assert a.items[q := x][a.next := it] == a.items[a.next := it][q := x];
    }
  }

  /** On a container's body, a link write and a write to one of its lists commute. */
  lemma ListWritesCommute(b: Body, w: LinkWrite, v: seq<Ref>)
    requires b.Notebook? || b.SectionGroup?
    ensures WriteBody(b, w).sections == b.sections && WriteBody(b, w).sectionGroups == b.sectionGroups
    ensures WithSections(WriteBody(b, w), v) == WriteBody(WithSections(b, v), w)
    ensures WithSectionGroups(WriteBody(b, w), v) == WriteBody(WithSectionGroups(b, v), w)
  {
    match w
    case ToParent(_) =>
    case ToRoot(_) =>
    case ToPages(_) =>
  }

  /** A link write commutes with appending to a container's section list. */
  lemma AppendSectionCommutes(a: Arena, q: Ref, w: LinkWrite, c: Ref, x: Ref)
    ensures AppendSection(Write(a, q, w), c, x) == Write(AppendSection(a, c, x), q, w)
  {
    WriteKeeps(a, q, w);
    if c in a.items && a.items[c].IsContainer() {
      var b := a.items[c].body;
      ListWritesCommute(b, w, b.sections + [x]);
      if c != q {
        PutCommutes(a, q, w, c, a.items[c].(body := WithSections(b, b.sections + [x])));
      }
    }
  }

  /** A link write commutes with appending to a container's section-group list. */
  lemma AppendSectionGroupCommutes(a: Arena, q: Ref, w: LinkWrite, c: Ref, x: Ref)
    ensures AppendSectionGroup(Write(a, q, w), c, x) == Write(AppendSectionGroup(a, c, x), q, w)
  {
    WriteKeeps(a, q, w);
    if c in a.items && a.items[c].IsContainer() {
      var b := a.items[c].body;
      ListWritesCommute(b, w, b.sectionGroups + [x]);
      if c != q {
        PutCommutes(a, q, w, c, a.items[c].(body := WithSectionGroups(b, b.sectionGroups + [x])));
      }
    }
  }

  /** A write commutes with setting the attributes of another item. */
  lemma SetAttributesCommutes(a: Arena, q: Ref, w: LinkWrite, r: Ref, attrs: seq<Attr>)
    requires q != r && r in a.items
    ensures var x := D.SetAttributes(a, r, attrs);
            D.SetAttributes(Write(a, q, w), r, attrs) == if x.Success? then Success(Write(x.value, q, w)) else x
  {
    var it := D.ApplyAttributes(a.items[r], attrs);
    if it.Success? {
      PutCommutes(a, q, w, r, it.value);
    }
  }

  /** A link write commutes with every write to an attribute field. */
  lemma FieldWritesCommute(b: Body, w: LinkWrite, v: string, x: bool)
    ensures WriteBody(b, w).Page? == b.Page? && WriteBody(b, w).Section? == b.Section?
    ensures WithPath(WriteBody(b, w), v) == WriteBody(WithPath(b, v), w)
    ensures WithColor(WriteBody(b, w), Some(v)) == WriteBody(WithColor(b, Some(v)), w)
    ensures WithIsInRecycleBin(WriteBody(b, w), x) == WriteBody(WithIsInRecycleBin(b, x), w)
    ensures WithDisplayName(WriteBody(b, w), v) == WriteBody(WithDisplayName(b, v), w)
    ensures WithIsRecycleBin(WriteBody(b, w), x) == WriteBody(WithIsRecycleBin(b, x), w)
    ensures WithEncrypted(WriteBody(b, w), x) == WriteBody(WithEncrypted(b, x), w)
    ensures WithLocked(WriteBody(b, w), x) == WriteBody(WithLocked(b, x), w)
    ensures WithIsDeletedPages(WriteBody(b, w), x) == WriteBody(WithIsDeletedPages(b, x), w)
    ensures WithLevel(WriteBody(b, w), Some(v)) == WriteBody(WithLevel(b, Some(v)), w)
    ensures WithCreated(WriteBody(b, w), Some(v)) == WriteBody(WithCreated(b, Some(v)), w)
  {
    match w
    case ToParent(_) =>
    case ToRoot(_) =>
    case ToPages(_) =>
  }

  /** A link write commutes with the kind-specific attribute rows. */
  lemma KindAttributeCommutes(b: Body, at: Attr, w: LinkWrite)
    ensures var x := D.ApplyKindAttribute(b, at);
            D.ApplyKindAttribute(WriteBody(b, w), at) == if x.Success? then Success(WriteBody(x.value, w)) else x
  {
    if at.name == IsInRecycleBinAttr {
      RecycleBinCommutes(b, at, w);
    } else if at.name in {IsRecycleBinAttr, EncryptedAttr, LockedAttr, IsDeletedPagesAttr} {
      BoolAttributeCommutes(b, at, w);
    } else {
      FieldWritesCommute(b, w, at.value, false);
    }
  }

  lemma RecycleBinCommutes(b: Body, at: Attr, w: LinkWrite)
    requires at.name == IsInRecycleBinAttr
    ensures var x := D.ApplyKindAttribute(b, at);
            D.ApplyKindAttribute(WriteBody(b, w), at) == if x.Success? then Success(WriteBody(x.value, w)) else x
  {
    var x := BoolParse(at.value);
    RecycleBinWriteCommutes(b, w);
    if x.Success? {
      assert D.ApplyKindAttribute(b, at) == if b.Page? || b.Section? then Success(WithIsInRecycleBin(b, x.value)) else Success(b);
    } else {
      assert D.ApplyKindAttribute(b, at) == if b.Page? || b.Section? then Failure(x.error) else Success(b);
    }
  }

  /** The two facts RecycleBinCommutes needs of a link write. */
  lemma RecycleBinWriteCommutes(b: Body, w: LinkWrite)
    ensures WriteBody(b, w).Page? == b.Page? && WriteBody(b, w).Section? == b.Section?
    ensures forall x: bool :: WithIsInRecycleBin(WriteBody(b, w), x) == WriteBody(WithIsInRecycleBin(b, x), w)
  {
    forall x: bool ensures WithIsInRecycleBin(WriteBody(b, w), x) == WriteBody(WithIsInRecycleBin(b, x), w) {
      FieldWritesCommute(b, w, "", x);
    }
  }

  lemma BoolAttributeCommutes(b: Body, at: Attr, w: LinkWrite)
    requires at.name in {IsRecycleBinAttr, EncryptedAttr, LockedAttr, IsDeletedPagesAttr}
    ensures var x := D.ApplyKindAttribute(b, at);
            D.ApplyKindAttribute(WriteBody(b, w), at) == if x.Success? then Success(WriteBody(x.value, w)) else x
  {
    var x := XmlBool(at.value);
    if x.Success? {
      FieldWritesCommute(b, w, at.value, x.value);
    }
  }

  lemma AttributeCommutes(it: Item, at: Attr, w: LinkWrite)
    ensures var x := D.ApplyAttribute(it, at);
            D.ApplyAttribute(WriteItem(it, w), at) == if x.Success? then Success(WriteItem(x.value, w)) else x
  {
    KindAttributeCommutes(it.body, at, w);
  }

  /** Setting the attributes of an item commutes with a write to its own links. */
  lemma {:induction false} AttributesCommute(it: Item, attrs: seq<Attr>, w: LinkWrite)
    ensures var x := D.ApplyAttributes(it, attrs);
            D.ApplyAttributes(WriteItem(it, w), attrs) == if x.Success? then Success(WriteItem(x.value, w)) else x
    decreases |attrs|
  {
    if attrs != [] {
      AttributeCommutes(it, attrs[0], w);
      var x := D.ApplyAttribute(it, attrs[0]);
      if x.Success? {
        AttributesCommute(x.value, attrs[1..], w);
      }
    }
  }

  /**
   * The reader sets an item's attributes after writing its link; on words
   * that is the DOM's SetAttributes followed by the write.
   */
  lemma SetAttributesAgree(a: Arena, r: Ref, e: Node, rest: seq<Token>, w: LinkWrite)
    requires r in a.items && e.Element? && WordsOnly(e.attrs)
    ensures D.SetAttributes(a, r, e.attrs).Success?
    ensures R.SetAttributes(Write(a, r, w), r, Tokens(e) + rest) == Success(Write(D.SetAttributes(a, r, e.attrs).value, r, w))
  {
    ElementStart(e, rest);
    var it := a.items[r];
    AttributesAgree(WriteItem(it, w), e.attrs);
    AttributesAgree(it, e.attrs);
    AttributesCommute(it, e.attrs, w);
    var x := D.ApplyAttributes(it, e.attrs).value;
    assert a.items[r := WriteItem(it, w)][r := WriteItem(x, w)] == a.items[r := x][r := WriteItem(x, w)];
  }

  // ---------------------------------------------------------------------
  // The DOM parse of one item commutes with a write to another.

  /** A parse result with the write applied (a failure stays as it is). */
  function Written(res: Result<Arena>, q: Ref, w: LinkWrite): (r: Result<Arena>)
    ensures r.Success? == res.Success?
  {
    if res.Success? then Success(Write(res.value, q, w)) else res
  }

  function WrittenBuilt(res: Result<D.Built>, q: Ref, w: LinkWrite): (r: Result<D.Built>)
    ensures r.Success? == res.Success?
  {
    if res.Success? then Success(D.Built(Write(res.value.arena, q, w), res.value.refs)) else res
  }

  lemma {:induction false} IntoCommutes(a: Arena, e: Node, r: Ref, parent: Option<Ref>, q: Ref, w: LinkWrite)
    requires Allocated(a) && r in a.items && e.Element? && q < a.next && q != r
    ensures D.ParseInto(Write(a, q, w), e, r, parent) == Written(D.ParseInto(a, e, r, parent), q, w)
    decreases e, 2
  {
    SetAttributesCommutes(a, q, w, r, e.attrs);
    var a1 := D.SetAttributes(a, r, e.attrs);
    if a1.Success? {
      DP.SetAttributesFrame(a, r, e.attrs);
      assert Write(a1.value, q, w).items[r] == a1.value.items[r];
      match a1.value.items[r].body
      case Notebook(_, _, _, _, _, _) => ChildrenCommute(a1.value, e.children, r, q, w);
      case SectionGroup(_, _, _, _, _) => GroupCommutes(a, a1.value, e, r, parent, q, w);
      case Section(_, _, _, _, _, _, _, _) => SectionCommutes(a, a1.value, e, r, parent, q, w);
      case Page(_, _, _, _) => PageCommutes(a, a1.value, e, r, parent, q, w);
    }
  }

  lemma {:induction false} GroupCommutes(a: Arena, y: Arena, e: Node, r: Ref, parent: Option<Ref>, q: Ref, w: LinkWrite)
    requires r in a.items && e.Element? && q != r && D.SetAttributes(a, r, e.attrs) == Success(y)
    requires Allocated(y) && q < y.next && r in y.items && y.items[r].body.SectionGroup?
    requires D.SetAttributes(Write(a, q, w), r, e.attrs) == Success(Write(y, q, w))
    ensures D.ParseInto(Write(a, q, w), e, r, parent) == Written(D.ParseInto(a, e, r, parent), q, w)
    decreases e, 1
  {
    assert Write(y, q, w).items[r] == y.items[r];
    ChildrenCommute(y, e.children, r, q, w);
    var a2 := D.ParseChildren(y, e.children, r);
    if a2.Success? {
      CastsIgnoreWrite(a2.value, q, w, parent);
      SettersWrite(a2.value, r, parent, []);
      SettersWrite(Write(a2.value, q, w), r, parent, []);
      WritesCommute(a2.value, q, w, r, ToParent(parent));
    }
  }

  lemma {:induction false} SectionCommutes(a: Arena, y: Arena, e: Node, r: Ref, parent: Option<Ref>, q: Ref, w: LinkWrite)
    requires r in a.items && e.Element? && q != r && D.SetAttributes(a, r, e.attrs) == Success(y)
    requires Allocated(y) && q < y.next && r in y.items && y.items[r].body.Section?
    requires D.SetAttributes(Write(a, q, w), r, e.attrs) == Success(Write(y, q, w))
    ensures D.ParseInto(Write(a, q, w), e, r, parent) == Written(D.ParseInto(a, e, r, parent), q, w)
    decreases e, 1
  {
    assert Write(y, q, w).items[r] == y.items[r];
    PagesCommute(y, e.children, r, [], q, w);
    var built := D.ParsePages(y, e.children, r, []);
    if built.Success? {
      DP.ParsePagesFacts(y, e.children, r, []);
      SectionFinishCommutes(built.value, r, parent, q, w);
    }
  }

  /** The end of a section's Parse<T>: the cast, the page list and the Parent commute with the write. */
  lemma SectionFinishCommutes(b: D.Built, r: Ref, parent: Option<Ref>, q: Ref, w: LinkWrite)
    requires Allocated(b.arena) && q < b.arena.next && q != r && r in b.arena.items && b.arena.items[r].body.Section?
    ensures D.AsContainer(Write(b.arena, q, w), parent) == D.AsContainer(b.arena, parent)
    ensures SetParent(AssignPages(Write(b.arena, q, w), r, b.refs), r, parent) ==
            Write(SetParent(AssignPages(b.arena, r, b.refs), r, parent), q, w)
  {
    CastsIgnoreWrite(b.arena, q, w, parent);
    WriteKeeps(b.arena, q, w);
    SettersWrite(b.arena, r, parent, b.refs);
    SettersWrite(Write(b.arena, q, w), r, parent, b.refs);
    WritesCommute(b.arena, q, w, r, ToPages(b.refs));
    var b2 := AssignPages(b.arena, r, b.refs);
    SettersWrite(b2, r, parent, []);
    SettersWrite(Write(b2, q, w), r, parent, []);
    WritesCommute(b2, q, w, r, ToParent(parent));
  }

  lemma PageCommutes(a: Arena, y: Arena, e: Node, r: Ref, parent: Option<Ref>, q: Ref, w: LinkWrite)
    requires r in a.items && e.Element? && q != r && D.SetAttributes(a, r, e.attrs) == Success(y)
    requires r in y.items && y.items[r].body.Page?
    requires D.SetAttributes(Write(a, q, w), r, e.attrs) == Success(Write(y, q, w))
    ensures D.ParseInto(Write(a, q, w), e, r, parent) == Written(D.ParseInto(a, e, r, parent), q, w)
  {
    assert Write(y, q, w).items[r] == y.items[r];
    CastsIgnoreWrite(y, q, w, parent);
    SettersWrite(y, r, parent, []);
    SettersWrite(Write(y, q, w), r, parent, []);
    WritesCommute(y, q, w, r, ToParent(parent));
  }

  lemma {:induction false} ChildrenCommute(a: Arena, ns: seq<Node>, c: Ref, q: Ref, w: LinkWrite)
    requires Allocated(a) && q < a.next
    ensures D.ParseChildren(Write(a, q, w), ns, c) == Written(D.ParseChildren(a, ns, c), q, w)
    decreases ns, 1
  {
    if ns == [] {
    } else if D.Named(ns[0], SectionName) {
      SectionChildCommutes(a, ns, c, q, w);
    } else if D.Named(ns[0], SectionGroupName) {
      GroupChildCommutes(a, ns, c, q, w);
    } else {
      ChildrenCommute(a, ns[1..], c, q, w);
    }
  }

  lemma {:induction false} SectionChildCommutes(a: Arena, ns: seq<Node>, c: Ref, q: Ref, w: LinkWrite)
    requires Allocated(a) && q < a.next && ns != [] && D.Named(ns[0], SectionName)
    ensures D.ParseChildren(Write(a, q, w), ns, c) == Written(D.ParseChildren(a, ns, c), q, w)
    decreases ns, 0
  {
    AllocCommutes(a, q, w, NewItem(SectionKind));
    var (a1, s) := Alloc(a, NewItem(SectionKind));
    DomSectionTurn(a, ns, c);
    DomSectionTurn(Write(a, q, w), ns, c);
    IntoCommutes(a1, ns[0], s, Some(c), q, w);
    var a2 := D.ParseInto(a1, ns[0], s, Some(c));
    if a2.Success? {
      DP.ParseIntoFacts(a1, ns[0], s, Some(c));
      AppendSectionCommutes(a2.value, q, w, c, s);
      ChildrenCommute(AppendSection(a2.value, c, s), ns[1..], c, q, w);
    }
  }

  lemma {:induction false} GroupChildCommutes(a: Arena, ns: seq<Node>, c: Ref, q: Ref, w: LinkWrite)
    requires Allocated(a) && q < a.next && ns != [] && D.Named(ns[0], SectionGroupName)
    ensures D.ParseChildren(Write(a, q, w), ns, c) == Written(D.ParseChildren(a, ns, c), q, w)
    decreases ns, 0
  {
    AllocCommutes(a, q, w, NewItem(SectionGroupKind));
    var (a1, g) := Alloc(a, NewItem(SectionGroupKind));
    DomGroupTurn(a, ns, c);
    DomGroupTurn(Write(a, q, w), ns, c);
    IntoCommutes(a1, ns[0], g, Some(c), q, w);
    var a2 := D.ParseInto(a1, ns[0], g, Some(c));
    if a2.Success? {
      DP.ParseIntoFacts(a1, ns[0], g, Some(c));
      AppendSectionGroupCommutes(a2.value, q, w, c, g);
      ChildrenCommute(AppendSectionGroup(a2.value, c, g), ns[1..], c, q, w);
    }
  }

  lemma {:induction false} PagesCommute(a: Arena, ns: seq<Node>, s: Ref, acc: seq<Ref>, q: Ref, w: LinkWrite)
    requires Allocated(a) && q < a.next
    ensures D.ParsePages(Write(a, q, w), ns, s, acc) == WrittenBuilt(D.ParsePages(a, ns, s, acc), q, w)
    decreases ns, 0
  {
    if ns == [] {
    } else if ns[0].Element? {
      AllocCommutes(a, q, w, NewItem(PageKind));
      var (a1, pg) := Alloc(a, NewItem(PageKind));
      IntoCommutes(a1, ns[0], pg, Some(s), q, w);
      var a2 := D.ParseInto(a1, ns[0], pg, Some(s));
      if a2.Success? {
        DP.ParseIntoFacts(a1, ns[0], pg, Some(s));
        PagesCommute(a2.value, ns[1..], s, acc + [pg], q, w);
      }
    } else {
      PagesCommute(a, ns[1..], s, acc, q, w);
    }
  }

  // ---------------------------------------------------------------------
  // The engines agree element by element.

  /** A page element: both engines give the page its attributes and its Parent. */
  lemma AgreePage(a: Arena, e: Node, rest: seq<Token>, pg: Ref, parent: Option<Ref>)
    requires Tagged(e, PageName) && pg in a.items && a.items[pg].body.Page? && R.IsSectionOrNull(a, parent)
    ensures D.ParseInto(a, e, pg, parent).Success?
    ensures R.ParsePage(a, Tokens(e) + rest, pg, parent) == Success(R.Parsed(D.ParseInto(a, e, pg, parent).value, rest))
  {
    ElementStart(e, rest);
    SkipElement(e, rest);
    SettersWrite(a, pg, parent, []);
    SetAttributesAgree(a, pg, e, rest, ToParent(parent));
    var y := D.SetAttributes(a, pg, e.attrs).value;
    SettersWrite(y, pg, parent, []);
    assert parent.Some? ==> y.items[parent.value] == a.items[parent.value];
  }

  /**
   * The reader's section while its pages are read: the DOM's version with
   * the pages so far and the Parent written in.
   */
  function Pending(y: Arena, s: Ref, pages: seq<Ref>, parent: Option<Ref>): Arena {
    Write(Write(y, s, ToPages(pages)), s, ToParent(parent))
  }

  lemma PageAppended(y: Arena, s: Ref, pages: seq<Ref>, pg: Ref, parent: Option<Ref>)
    requires s in y.items && y.items[s].body.Section?
    ensures AppendPage(Pending(y, s, pages, parent), s, pg) == Pending(y, s, pages + [pg], parent)
  {
  }

  /** One turn of the reader's page loop on a Page element. */
  lemma ReaderPageTurn(p: R.UnknownElements, a: Arena, ts: seq<Token>, s: Ref)
    requires R.OnElement(ts, PageName)
    ensures var page := R.ParsePage(Alloc(a, NewItem(PageKind)).0, ts, a.next, Some(s));
            R.ParsePages(p, a, ts, s) ==
              if page.Failure? then Failure(page.error)
              else R.ParsePages(p, AppendPage(page.value.arena, s, a.next), page.value.rest, s)
  {
  }

  /** One turn of the DOM's page loop on an element. */
  lemma DomPageTurn(y: Arena, ns: seq<Node>, s: Ref, acc: seq<Ref>)
    requires ns != [] && ns[0].Element?
    ensures var a2 := D.ParseInto(Alloc(y, NewItem(PageKind)).0, ns[0], y.next, Some(s));
            D.ParsePages(y, ns, s, acc) ==
              if a2.Failure? then Failure(a2.error) else D.ParsePages(a2.value, ns[1..], s, acc + [y.next])
  {
  }

  /** Allocating commutes with the pending section writes. */
  lemma AllocPending(y: Arena, s: Ref, acc: seq<Ref>, parent: Option<Ref>, it: Item)
    requires Allocated(y) && s in y.items
    ensures Alloc(Pending(y, s, acc, parent), it).0 == Pending(Alloc(y, it).0, s, acc, parent)
  {
    AllocCommutes(y, s, ToPages(acc), it);
    AllocCommutes(Write(y, s, ToPages(acc)), s, ToParent(parent), it);
  }

  /** The DOM's page parse under the pending section writes. */
  lemma PendingInto(y1: Arena, n: Node, pg: Ref, s: Ref, acc: seq<Ref>, parent: Option<Ref>)
    requires n.Element? && Allocated(y1) && pg in y1.items && s in y1.items && s != pg
    requires D.ParseInto(y1, n, pg, Some(s)).Success?
    ensures D.ParseInto(Pending(y1, s, acc, parent), n, pg, Some(s)) ==
            Success(Pending(D.ParseInto(y1, n, pg, Some(s)).value, s, acc, parent))
  {
    var y1p := Write(y1, s, ToPages(acc));
    WriteKeeps(y1, s, ToPages(acc));
    IntoCommutes(y1, n, pg, Some(s), s, ToPages(acc));
    IntoCommutes(y1p, n, pg, Some(s), s, ToParent(parent));
  }

  /** One page: the reader's pending section fields do not disturb it. */
  lemma AgreePageStep(y: Arena, n: Node, rest: seq<Token>, s: Ref, acc: seq<Ref>, parent: Option<Ref>)
    requires Tagged(n, PageName) && Allocated(y) && s in y.items && y.items[s].body.Section?
    ensures var (y1, pg) := Alloc(y, NewItem(PageKind));
            var y2 := D.ParseInto(y1, n, pg, Some(s));
            y2.Success? && Allocated(y2.value) && s in y2.value.items && y2.value.items[s].body.Section? &&
            R.ParsePage(Alloc(Pending(y, s, acc, parent), NewItem(PageKind)).0, Tokens(n) + rest, y.next, Some(s)) ==
              Success(R.Parsed(Pending(y2.value, s, acc, parent), rest))
  {
    var (y1, pg) := Alloc(y, NewItem(PageKind));
    AllocPending(y, s, acc, parent, NewItem(PageKind));
    var x1 := Pending(y1, s, acc, parent);
    WriteKeeps(y1, s, ToPages(acc));
    WriteKeeps(Write(y1, s, ToPages(acc)), s, ToParent(parent));
    AgreePage(x1, n, rest, pg, Some(s));
    AgreePageDom(y1, n, pg, s);
    PendingInto(y1, n, pg, s, acc, parent);
  }

  /** The DOM side of one page: it succeeds and leaves the section a section. */
  lemma AgreePageDom(y1: Arena, n: Node, pg: Ref, s: Ref)
    requires Tagged(n, PageName) && Allocated(y1) && pg in y1.items && y1.items[pg].body.Page?
    requires s in y1.items && s != pg && y1.items[s].body.Section?
    ensures var y2 := D.ParseInto(y1, n, pg, Some(s));
            y2.Success? && Allocated(y2.value) && s in y2.value.items && y2.value.items[s].body.Section?
  {
    AgreePage(y1, n, [], pg, Some(s));
    DP.ParseIntoFacts(y1, n, pg, Some(s));
  }

  /** The page loop: the reader appends page by page what the DOM assigns at the end. */
  lemma {:induction false} AgreePages(p: R.UnknownElements, y: Arena, ns: seq<Node>, tail: seq<Token>, s: Ref,
                                      acc: seq<Ref>, parent: Option<Ref>)
    requires AtEndOrNone(tail) && forall i | 0 <= i < |ns| :: Tagged(ns[i], PageName)
    requires Allocated(y) && s in y.items && y.items[s].body.Section?
    ensures D.ParsePages(y, ns, s, acc).Success?
    ensures var b := D.ParsePages(y, ns, s, acc).value;
            R.ParsePages(p, Pending(y, s, acc, parent), TokensSeq(ns) + tail, s) ==
              Success(R.Parsed(Pending(b.arena, s, b.refs, parent), tail))
    decreases ns
  {
    if ns == [] {
      assert TokensSeq(ns) + tail == tail;
    } else {
      var n := ns[0];
      var rest := TokensSeq(ns[1..]) + tail;
      NodesFirst(ns, tail);
      ElementStart(n, rest);
      ReaderPageTurn(p, Pending(y, s, acc, parent), TokensSeq(ns) + tail, s);
      DomPageTurn(y, ns, s, acc);
      AgreePageStep(y, n, rest, s, acc, parent);
      var y2 := D.ParseInto(Alloc(y, NewItem(PageKind)).0, n, y.next, Some(s)).value;
      PageAppended(y2, s, acc, y.next, parent);
      AgreePages(p, y2, ns[1..], tail, s, acc + [y.next], parent);
    }
  }

  /** The DOM's Parse<Section> when every step succeeds. */
  lemma DomSection(a: Arena, e: Node, s: Ref, parent: Option<Ref>, y: Arena, b: D.Built)
    requires s in a.items && e.Element? && a.items[s].body.Section?
    requires D.SetAttributes(a, s, e.attrs) == Success(y) && s in y.items && y.items[s].body.Section?
    requires D.ParsePages(y, e.children, s, []) == Success(b) && D.AsContainer(b.arena, parent).Success?
    ensures D.ParseInto(a, e, s, parent) == Success(SetParent(AssignPages(b.arena, s, b.refs), s, parent))
  {
  }

  /** The reader's ParseSection on an element with children, when every step succeeds. */
  lemma ReaderSection(p: R.UnknownElements, a: Arena, ts: seq<Token>, s: Ref, parent: Option<Ref>,
                      x: Arena, z: Arena, rest: seq<Token>)
    requires s in a.items && ts != [] && ts[0].Start? && !ts[0].empty
    requires R.SetAttributes(SetParent(a, s, parent), s, ts) == Success(x)
    requires R.ParsePages(p, x, ts[1..], s) == Success(R.Parsed(z, [End] + rest))
    ensures R.ParseSection(p, a, ts, s, parent) == Success(R.Parsed(z, rest))
  {
    assert ([End] + rest)[1..] == rest;
  }

  /** A section's attributes: the reader's state is the DOM's with the Parent pending. */
  lemma SectionAttributes(a: Arena, e: Node, rest: seq<Token>, s: Ref, parent: Option<Ref>) returns (y: Arena)
    requires SectionElement(e) && Allocated(a) && s in a.items && a.items[s].body.Section? && a.items[s].body.pages == []
    requires R.IsNotebookOrSectionGroup(a, parent)
    ensures D.SetAttributes(a, s, e.attrs) == Success(y)
    ensures Allocated(y) && s in y.items && y.items[s].body.Section? && R.IsNotebookOrSectionGroup(y, parent)
    ensures R.SetAttributes(SetParent(a, s, parent), s, Tokens(e) + rest) == Success(Pending(y, s, [], parent))
  {
    SettersWrite(a, s, parent, []);
    SetAttributesAgree(a, s, e, rest, ToParent(parent));
    y := D.SetAttributes(a, s, e.attrs).value;
    DP.SetAttributesFrame(a, s, e.attrs);
    assert Write(y, s, ToPages([])) == y;
  }

  /** After the pages, the DOM's cast succeeds and its last two writes are the pending ones. */
  lemma SectionPagesDone(y: Arena, ns: seq<Node>, s: Ref, parent: Option<Ref>, b: D.Built)
    requires Allocated(y) && s in y.items && y.items[s].body.Section? && R.IsNotebookOrSectionGroup(y, parent)
    requires D.ParsePages(y, ns, s, []) == Success(b)
    ensures D.AsContainer(b.arena, parent).Success?
    ensures Pending(b.arena, s, b.refs, parent) == SetParent(AssignPages(b.arena, s, b.refs), s, parent)
  {
    DP.ParsePagesFacts(y, ns, s, []);
    SettersWrite(b.arena, s, parent, b.refs);
    SettersWrite(AssignPages(b.arena, s, b.refs), s, parent, []);
  }

  /** A section element: the same section, its pages and its Parent. */
  lemma AgreeSection(p: R.UnknownElements, a: Arena, e: Node, rest: seq<Token>, s: Ref, parent: Option<Ref>)
    requires SectionElement(e) && Allocated(a) && s in a.items && a.items[s].body.Section? && a.items[s].body.pages == []
    requires R.IsNotebookOrSectionGroup(a, parent)
    ensures D.ParseInto(a, e, s, parent).Success?
    ensures R.ParseSection(p, a, Tokens(e) + rest, s, parent) == Success(R.Parsed(D.ParseInto(a, e, s, parent).value, rest))
  {
    ElementStart(e, rest);
    SkipElement(e, rest);
    var y := SectionAttributes(a, e, rest, s, parent);
    var ns := e.children;
    AgreePages(p, y, ns, [End] + rest, s, [], parent);
    var b := D.ParsePages(y, ns, s, []).value;
    SectionPagesDone(y, ns, s, parent, b);
    DomSection(a, e, s, parent, y, b);
    if ns != [] {
      ReaderSection(p, a, Tokens(e) + rest, s, parent, Pending(y, s, [], parent),
                    Pending(b.arena, s, b.refs, parent), rest);
    }
  }

  /** One turn of the DOM's child loop on a Section element. */
  lemma DomSectionTurn(y: Arena, ns: seq<Node>, c: Ref)
    requires ns != [] && D.Named(ns[0], SectionName)
    ensures var a2 := D.ParseInto(Alloc(y, NewItem(SectionKind)).0, ns[0], y.next, Some(c));
            D.ParseChildren(y, ns, c) ==
              if a2.Failure? then Failure(a2.error) else D.ParseChildren(AppendSection(a2.value, c, y.next), ns[1..], c)
  {
  }

  /** One turn of the DOM's child loop on a SectionGroup element. */
  lemma DomGroupTurn(y: Arena, ns: seq<Node>, c: Ref)
    requires ns != [] && D.Named(ns[0], SectionGroupName)
    ensures var a2 := D.ParseInto(Alloc(y, NewItem(SectionGroupKind)).0, ns[0], y.next, Some(c));
            D.ParseChildren(y, ns, c) ==
              if a2.Failure? then Failure(a2.error) else D.ParseChildren(AppendSectionGroup(a2.value, c, y.next), ns[1..], c)
  {
  }

  /** A section child: the container's pending link does not disturb it. */
  lemma AgreeSectionChild(p: R.UnknownElements, y: Arena, n: Node, rest: seq<Token>, c: Ref, w: LinkWrite)
    requires SectionElement(n) && Allocated(y) && c in y.items && y.items[c].IsContainer()
    ensures var (y1, s) := Alloc(y, NewItem(SectionKind));
            var y2 := D.ParseInto(y1, n, s, Some(c));
            y2.Success? && Allocated(y2.value) && c in y2.value.items && y2.value.items[c] == y.items[c] &&
            R.ParseSection(p, Alloc(Write(y, c, w), NewItem(SectionKind)).0, Tokens(n) + rest, y.next, Some(c)) ==
              Success(R.Parsed(Write(y2.value, c, w), rest))
  {
    var (y1, s) := Alloc(y, NewItem(SectionKind));
    AllocCommutes(y, c, w, NewItem(SectionKind));
    WriteKeeps(y1, c, w);
    AgreeSection(p, Write(y1, c, w), n, rest, s, Some(c));
    IntoCommutes(y1, n, s, Some(c), c, w);
    DP.ParseIntoFacts(y1, n, s, Some(c));
  }

  /** A section-group child: the container's pending link does not disturb it. */
  lemma AgreeGroupChild(p: R.UnknownElements, y: Arena, n: Node, rest: seq<Token>, c: Ref, w: LinkWrite)
    requires Tagged(n, SectionGroupName) && ContainerChildren(n.children)
    requires Allocated(y) && c in y.items && y.items[c].IsContainer()
    ensures var (y1, g) := Alloc(y, NewItem(SectionGroupKind));
            var y2 := D.ParseInto(y1, n, g, Some(c));
            y2.Success? && Allocated(y2.value) && c in y2.value.items && y2.value.items[c] == y.items[c] &&
            R.ParseSectionGroup(p, Alloc(Write(y, c, w), NewItem(SectionGroupKind)).0, Tokens(n) + rest, y.next, Some(c)) ==
              Success(R.Parsed(Write(y2.value, c, w), rest))
    decreases n, 2
  {
    var (y1, g) := Alloc(y, NewItem(SectionGroupKind));
    AllocCommutes(y, c, w, NewItem(SectionGroupKind));
    WriteKeeps(y1, c, w);
    AgreeGroup(p, Write(y1, c, w), n, rest, g, Some(c));
    IntoCommutes(y1, n, g, Some(c), c, w);
    DP.ParseIntoFacts(y1, n, g, Some(c));
  }

  /**
   * The child loop of a notebook or section group, with the container's
   * own link written in already on the reader's side.
   */
  lemma {:induction false} AgreeChildren(p: R.UnknownElements, y: Arena, ns: seq<Node>, tail: seq<Token>, c: Ref, w: LinkWrite)
    requires AtEndOrNone(tail) && ContainerChildren(ns)
    requires Allocated(y) && c in y.items && y.items[c].IsContainer()
    ensures D.ParseChildren(y, ns, c).Success?
    ensures R.ParseChildren(p, Write(y, c, w), TokensSeq(ns) + tail, c) ==
              Success(R.Parsed(Write(D.ParseChildren(y, ns, c).value, c, w), tail))
    decreases ns, 1
  {
    if ns == [] {
      assert TokensSeq(ns) + tail == tail;
    } else {
      assert ContainerChild(ns[0]);
      if SectionElement(ns[0]) {
        AgreeChildrenOnSection(p, y, ns, tail, c, w);
      } else {
        AgreeChildrenOnGroup(p, y, ns, tail, c, w);
      }
    }
  }

  lemma {:induction false} AgreeChildrenOnSection(p: R.UnknownElements, y: Arena, ns: seq<Node>, tail: seq<Token>, c: Ref, w: LinkWrite)
    requires AtEndOrNone(tail) && ns != [] && SectionElement(ns[0]) && ContainerChildren(ns[1..])
    requires Allocated(y) && c in y.items && y.items[c].IsContainer()
    ensures D.ParseChildren(y, ns, c).Success?
    ensures R.ParseChildren(p, Write(y, c, w), TokensSeq(ns) + tail, c) ==
              Success(R.Parsed(Write(D.ParseChildren(y, ns, c).value, c, w), tail))
    decreases ns, 0
  {
    var n := ns[0];
    var rest := TokensSeq(ns[1..]) + tail;
    var ts := TokensSeq(ns) + tail;
    NodesFirst(ns, tail);
    ElementStart(n, rest);
    R.ChildrenOnSection(p, Write(y, c, w), ts, c);
    DomSectionTurn(y, ns, c);
    AgreeSectionChild(p, y, n, rest, c, w);
    var y2 := D.ParseInto(Alloc(y, NewItem(SectionKind)).0, n, y.next, Some(c)).value;
    AppendSectionCommutes(y2, c, w, c, y.next);
    AgreeChildren(p, AppendSection(y2, c, y.next), ns[1..], tail, c, w);
  }

  lemma {:induction false} AgreeChildrenOnGroup(p: R.UnknownElements, y: Arena, ns: seq<Node>, tail: seq<Token>, c: Ref, w: LinkWrite)
    requires AtEndOrNone(tail) && ns != [] && Tagged(ns[0], SectionGroupName) && ContainerChildren(ns[0].children)
    requires ContainerChildren(ns[1..])
    requires Allocated(y) && c in y.items && y.items[c].IsContainer()
    ensures D.ParseChildren(y, ns, c).Success?
    ensures R.ParseChildren(p, Write(y, c, w), TokensSeq(ns) + tail, c) ==
              Success(R.Parsed(Write(D.ParseChildren(y, ns, c).value, c, w), tail))
    decreases ns, 0
  {
    var n := ns[0];
    var rest := TokensSeq(ns[1..]) + tail;
    var ts := TokensSeq(ns) + tail;
    NodesFirst(ns, tail);
    ElementStart(n, rest);
    R.ChildrenOnSectionGroup(p, Write(y, c, w), ts, c);
    DomGroupTurn(y, ns, c);
    AgreeGroupChild(p, y, n, rest, c, w);
    var y2 := D.ParseInto(Alloc(y, NewItem(SectionGroupKind)).0, n, y.next, Some(c)).value;
    AppendSectionGroupCommutes(y2, c, w, c, y.next);
    AgreeChildren(p, AppendSectionGroup(y2, c, y.next), ns[1..], tail, c, w);
  }

  /** The DOM's Parse<SectionGroup> when every step succeeds. */
  lemma DomGroup(a: Arena, e: Node, g: Ref, parent: Option<Ref>, y: Arena, b: Arena)
    requires g in a.items && e.Element? && a.items[g].body.SectionGroup?
    requires D.SetAttributes(a, g, e.attrs) == Success(y) && g in y.items && y.items[g].body.SectionGroup?
    requires D.ParseChildren(y, e.children, g) == Success(b) && D.AsContainer(b, parent).Success?
    ensures D.ParseInto(a, e, g, parent) == Success(SetParent(b, g, parent))
  {
  }

  /** The reader's ParseSectionGroup on an element with children, when every step succeeds. */
  lemma ReaderGroup(p: R.UnknownElements, a: Arena, ts: seq<Token>, g: Ref, parent: Option<Ref>,
                    x: Arena, z: Arena, rest: seq<Token>)
    requires g in a.items && ts != [] && ts[0].Start? && !ts[0].empty
    requires R.SetAttributes(SetParent(a, g, parent), g, ts) == Success(x)
    requires R.ParseChildren(p, x, ts[1..], g) == Success(R.Parsed(z, [End] + rest))
    ensures R.ParseSectionGroup(p, a, ts, g, parent) == Success(R.Parsed(z, rest))
  {
    assert ([End] + rest)[1..] == rest;
  }

  /** A section-group element: the same group, its subtree and its Parent. */
  lemma AgreeGroup(p: R.UnknownElements, a: Arena, e: Node, rest: seq<Token>, g: Ref, parent: Option<Ref>)
    requires Tagged(e, SectionGroupName) && ContainerChildren(e.children)
    requires Allocated(a) && g in a.items && a.items[g].body.SectionGroup?
    requires R.IsNotebookOrSectionGroup(a, parent) && (parent.Some? ==> parent.value != g)
    ensures D.ParseInto(a, e, g, parent).Success?
    ensures R.ParseSectionGroup(p, a, Tokens(e) + rest, g, parent) == Success(R.Parsed(D.ParseInto(a, e, g, parent).value, rest))
    decreases e, 1
  {
    ElementStart(e, rest);
    SkipElement(e, rest);
    SettersWrite(a, g, parent, []);
    SetAttributesAgree(a, g, e, rest, ToParent(parent));
    var y := D.SetAttributes(a, g, e.attrs).value;
    DP.SetAttributesFrame(a, g, e.attrs);
    AgreeChildren(p, y, e.children, [End] + rest, g, ToParent(parent));
    var b := D.ParseChildren(y, e.children, g).value;
    DP.ParseChildrenFacts(y, e.children, g);
    assert D.AsContainer(b, parent).Success?;
    DomGroup(a, e, g, parent, y, b);
    SettersWrite(b, g, parent, []);
    if e.children != [] {
      ReaderGroup(p, a, Tokens(e) + rest, g, parent, Write(y, g, ToParent(parent)), Write(b, g, ToParent(parent)), rest);
    }
  }

  /** The reader's ParseNotebook on an element with children, when every step succeeds. */
  lemma ReaderNotebook(p: R.UnknownElements, a: Arena, ts: seq<Token>, nb: Ref, root: Option<Ref>,
                       x: Arena, z: Arena, rest: seq<Token>)
    requires nb in a.items && ts != [] && ts[0].Start? && !ts[0].empty
    requires R.SetAttributes(SetRoot(a, nb, root), nb, ts) == Success(x)
    requires R.ParseChildren(p, x, ts[1..], nb) == Success(R.Parsed(z, [End] + rest))
    ensures R.ParseNotebook(p, a, ts, nb, root) == Success(R.Parsed(z, rest))
  {
    assert ([End] + rest)[1..] == rest;
  }

  /**
   * A notebook element: the same notebook and subtree; the reader sets the
   * root first, the DOM's caller sets it afterwards.
   */
  lemma AgreeNotebook(p: R.UnknownElements, a: Arena, e: Node, rest: seq<Token>, nb: Ref, root: Option<Ref>)
    requires NotebookElement(e) && Allocated(a) && nb in a.items && a.items[nb].body.Notebook?
    ensures D.ParseInto(a, e, nb, None).Success?
    ensures R.ParseNotebook(p, a, Tokens(e) + rest, nb, root) ==
              Success(R.Parsed(SetRoot(D.ParseInto(a, e, nb, None).value, nb, root), rest))
  {
    ElementStart(e, rest);
    SkipElement(e, rest);
    SettersWrite(a, nb, root, []);
    SetAttributesAgree(a, nb, e, rest, ToRoot(root));
    var y := D.SetAttributes(a, nb, e.attrs).value;
    DP.SetAttributesFrame(a, nb, e.attrs);
    AgreeChildren(p, y, e.children, [End] + rest, nb, ToRoot(root));
    var b := D.ParseChildren(y, e.children, nb).value;
    assert D.ParseInto(a, e, nb, None) == Success(b);
    SettersWrite(b, nb, root, []);
    if e.children != [] {
      ReaderNotebook(p, a, Tokens(e) + rest, nb, root, Write(y, nb, ToRoot(root)), Write(b, nb, ToRoot(root)), rest);
    }
  }

  // ---------------------------------------------------------------------
  // The root.

  /** One turn of the DOM's notebook loop on a Notebook element. */
  lemma DomNotebookTurn(y: Arena, ns: seq<Node>, rr: Ref, acc: seq<Ref>)
    requires ns != [] && D.Named(ns[0], NotebookName)
    ensures var a2 := D.ParseInto(Alloc(y, NewItem(NotebookKind)).0, ns[0], y.next, None);
            D.ParseNotebooks(y, ns, rr, acc) ==
              if a2.Failure? then Failure(a2.error)
              else D.ParseNotebooks(SetRoot(a2.value, y.next, Some(rr)), ns[1..], rr, acc + [y.next])
  {
  }

  /** The root's notebooks: the reader's loop carries on after them where the DOM's list ends. */
  lemma {:induction false} AgreeNotebooks(p: R.UnknownElements, y: Arena, ns: seq<Node>, tail: seq<Token>, rr: Ref, root: RootObj)
    requires Allocated(y) && forall i | 0 <= i < |ns| :: NotebookElement(ns[i])
    ensures D.ParseNotebooks(y, ns, rr, root.notebooks).Success?
    ensures var b := D.ParseNotebooks(y, ns, rr, root.notebooks).value;
            Allocated(b.arena) &&
            R.ParseRootChildren(p, y, TokensSeq(ns) + tail, rr, root) ==
              R.ParseRootChildren(p, b.arena, tail, rr, root.(notebooks := b.refs))
    decreases ns
  {
    if ns == [] {
      assert TokensSeq(ns) + tail == tail;
    } else {
      var y3 := AgreeNotebookTurn(p, y, ns, tail, rr, root);
      AgreeNotebooks(p, y3, ns[1..], tail, rr, root.(notebooks := root.notebooks + [y.next]));
    }
  }

  /** One notebook of the root: both engines take the same turn. */
  lemma AgreeNotebookTurn(p: R.UnknownElements, y: Arena, ns: seq<Node>, tail: seq<Token>, rr: Ref, root: RootObj)
    returns (y3: Arena)
    requires Allocated(y) && ns != [] && NotebookElement(ns[0])
    ensures Allocated(y3)
    ensures D.ParseNotebooks(y, ns, rr, root.notebooks) == D.ParseNotebooks(y3, ns[1..], rr, root.notebooks + [y.next])
    ensures R.ParseRootChildren(p, y, TokensSeq(ns) + tail, rr, root) ==
              R.ParseRootChildren(p, y3, TokensSeq(ns[1..]) + tail, rr, root.(notebooks := root.notebooks + [y.next]))
  {
    var n := ns[0];
    var rest := TokensSeq(ns[1..]) + tail;
    var ts := TokensSeq(ns) + tail;
    NodesFirst(ns, tail);
    ElementStart(n, rest);
    R.RootOnNotebook(p, y, ts, rr, root);
    DomNotebookTurn(y, ns, rr, root.notebooks);
    var (y1, nb) := Alloc(y, NewItem(NotebookKind));
    AgreeNotebook(p, y1, n, rest, nb, Some(rr));
    DP.ParseIntoFacts(y1, n, nb, None);
    y3 := SetRoot(D.ParseInto(y1, n, nb, None).value, nb, Some(rr));
  }

  /** One turn of the reader's open-section loop on a Section element. */
  lemma ReaderOpenTurn(p: R.UnknownElements, a: Arena, ts: seq<Token>, os: OpenSectionsObj)
    requires R.OnElement(ts, SectionName)
    ensures var sec := R.ParseSection(p, Alloc(a, NewItem(SectionKind)).0, ts, a.next, None);
            R.ParseOpenSectionList(p, a, ts, os) ==
              if sec.Failure? then Failure(sec.error)
              else R.ParseOpenSectionList(p, sec.value.arena, sec.value.rest, os.(sections := os.sections + [a.next]))
  {
  }

  /** One turn of the DOM's open-section loop on an element. */
  lemma DomOpenTurn(y: Arena, ns: seq<Node>, acc: seq<Ref>)
    requires ns != [] && ns[0].Element?
    ensures var a2 := D.ParseInto(Alloc(y, NewItem(SectionKind)).0, ns[0], y.next, None);
            D.ParseOpenSectionList(y, ns, acc) ==
              if a2.Failure? then Failure(a2.error) else D.ParseOpenSectionList(a2.value, ns[1..], acc + [y.next])
  {
  }

  /** The open sections: the same sections, in the same order, with no Parent. */
  lemma {:induction false} AgreeOpenList(p: R.UnknownElements, y: Arena, ns: seq<Node>, tail: seq<Token>, os: OpenSectionsObj)
    requires AtEndOrNone(tail) && Allocated(y) && forall i | 0 <= i < |ns| :: SectionElement(ns[i])
    ensures D.ParseOpenSectionList(y, ns, os.sections).Success?
    ensures var b := D.ParseOpenSectionList(y, ns, os.sections).value;
            R.ParseOpenSectionList(p, y, TokensSeq(ns) + tail, os) == Success(R.ParsedOpen(b.arena, tail, os.(sections := b.refs)))
    decreases ns
  {
    if ns == [] {
      assert TokensSeq(ns) + tail == tail;
    } else {
      var n := ns[0];
      var rest := TokensSeq(ns[1..]) + tail;
      var ts := TokensSeq(ns) + tail;
      NodesFirst(ns, tail);
      ElementStart(n, rest);
      ReaderOpenTurn(p, y, ts, os);
      DomOpenTurn(y, ns, os.sections);
      var (y1, sr) := Alloc(y, NewItem(SectionKind));
      AgreeSection(p, y1, n, rest, sr, None);
      DP.ParseIntoFacts(y1, n, sr, None);
      var y2 := D.ParseInto(y1, n, sr, None).value;
      AgreeOpenList(p, y2, ns[1..], tail, os.(sections := os.sections + [sr]));
    }
  }

  /** With distinct attribute names, the first ID attribute is also the last. */
  lemma FirstIsLast(attrs: seq<Attr>, name: string)
    requires DistinctNames(attrs)
    ensures R.LastValue(attrs, name) == D.AttributeValue(attrs, name)
  {
    var f := D.AttributeValue(attrs, name);
    var l := R.LastValue(attrs, name);
    if f.Some? {
      var i :| 0 <= i < |attrs| && attrs[i].name == name && attrs[i].value == f.value;
      var j :| 0 <= j < |attrs| && attrs[j] == Attr(name, l.value);
    }
  }

  /** The OpenSections element: its ID and its sections. */
  lemma AgreeOpenSections(p: R.UnknownElements, a: Arena, e: Node, rest: seq<Token>)
    requires OpenSectionsElement(e) && Allocated(a)
    ensures D.ParseOpenSectionList(a, e.children, []).Success?
    ensures var b := D.ParseOpenSectionList(a, e.children, []).value;
            R.ParseOpenSections(p, a, Tokens(e) + rest) ==
              Success(R.ParsedOpen(b.arena, rest, OpenSectionsObj(D.AttributeValue(e.attrs, IdAttr), b.refs)))
  {
    ElementStart(e, rest);
    FirstIsLast(e.attrs, IdAttr);
    var os := NewOpenSections().(id := D.AttributeValue(e.attrs, IdAttr));
    if e.children == [] {
      SkipElement(e, rest);
      assert D.ParseOpenSectionList(a, e.children, []) == Success(D.Built(a, []));
    } else {
      OpenSectionsFull(p, a, e, rest, os);
    }
  }

  /** An OpenSections element with children: the list, then its end tag. */
  lemma OpenSectionsFull(p: R.UnknownElements, a: Arena, e: Node, rest: seq<Token>, os: OpenSectionsObj)
    requires OpenSectionsElement(e) && Allocated(a) && e.children != []
    requires os == NewOpenSections().(id := R.LastValue(e.attrs, IdAttr))
    ensures D.ParseOpenSectionList(a, e.children, []).Success?
    ensures var b := D.ParseOpenSectionList(a, e.children, []).value;
            R.ParseOpenSections(p, a, Tokens(e) + rest) == Success(R.ParsedOpen(b.arena, rest, os.(sections := b.refs)))
  {
    var ts := Tokens(e) + rest;
    ElementStart(e, rest);
    AgreeOpenList(p, a, e.children, [End] + rest, os);
    assert ([End] + rest)[1..] == rest;
    var inner := R.ParseOpenSectionList(p, a, ts[1..], os);
    assert inner.Success? && ReadEndElement(inner.value.rest) == Success(rest);
  }

  /** The reader's view of two node lists one after the other. */
  lemma {:induction false} TokensSeqConcat(xs: seq<Node>, ys: seq<Node>)
    ensures TokensSeq(xs + ys) == TokensSeq(xs) + TokensSeq(ys)
    decreases xs
  {
    if xs == [] {
      assert xs + ys == ys;
    } else {
      assert (xs + ys)[0] == xs[0] && (xs + ys)[1..] == xs[1..] + ys;
      TokensSeqConcat(xs[1..], ys);
    }
  }

  /** Children after the notebooks that are not Notebook elements add nothing to the DOM's list. */
  lemma {:induction false} NotebooksIgnoreTail(y: Arena, xs: seq<Node>, ys: seq<Node>, rr: Ref, acc: seq<Ref>)
    requires forall i | 0 <= i < |ys| :: !D.Named(ys[i], NotebookName)
    ensures D.ParseNotebooks(y, xs + ys, rr, acc) == D.ParseNotebooks(y, xs, rr, acc)
    decreases xs, ys
  {
    if xs == [] {
      assert xs + ys == ys;
      if ys != [] {
        assert [] + ys[1..] == ys[1..];
        NotebooksIgnoreTail(y, [], ys[1..], rr, acc);
      }
    } else {
      assert (xs + ys)[0] == xs[0] && (xs + ys)[1..] == xs[1..] + ys;
      if D.Named(xs[0], NotebookName) {
        var (a1, nb) := Alloc(y, NewItem(NotebookKind));
        var a2 := D.ParseInto(a1, xs[0], nb, None);
        if a2.Success? {
          NotebooksIgnoreTail(SetRoot(a2.value, nb, Some(rr)), xs[1..], ys, rr, acc + [nb]);
        }
      } else {
        NotebooksIgnoreTail(y, xs[1..], ys, rr, acc);
      }
    }
  }

  /** Where the OpenSections element of a root document is, if it has one. */
  lemma RootSplit(e: Node) returns (k: nat)
    requires RootDocument(e)
    ensures k <= |e.children| && e.children == e.children[..k] + e.children[k..]
    ensures forall i | 0 <= i < k :: NotebookElement(e.children[i])
    ensures k == |e.children| ==> D.FirstNamed(e.children, OpenSectionsName).None?
    ensures k < |e.children| ==> k == |e.children| - 1 && OpenSectionsElement(e.children[k]) &&
                                 D.FirstNamed(e.children, OpenSectionsName) == Some(e.children[k])
  {
    var ch := e.children;
    k := if ch != [] && OpenSectionsElement(ch[|ch| - 1]) then |ch| - 1 else |ch|;
    assert ch == ch[..k] + ch[k..];
    assert forall i | 0 <= i < k :: !D.Named(ch[i], OpenSectionsName);
    if k < |ch| {
      assert D.Named(ch[k], OpenSectionsName);
    }
  }

  /** The reader on a root element with children, once its children are read. */
  lemma ReaderRoot(p: R.UnknownElements, a: Arena, e: Node, rest: seq<Token>, x: Arena, root: RootObj)
    requires e.Element? && e.children != []
    requires R.ParseRootChildren(p, a.(next := a.next + 1), TokensSeq(e.children) + ([End] + rest), a.next, NewRoot()) ==
             Success(R.ParsedRoot(x, [End] + rest, a.next, root))
    ensures R.ParseRoot(p, a, Tokens(e) + rest) == Success(R.ParsedRoot(x, rest, a.next, root))
  {
    ElementStart(e, rest);
    assert ([End] + rest)[1..] == rest;
  }

  /** The reader's root loop over notebooks alone. */
  lemma RootChildrenPlain(p: R.UnknownElements, a1: Arena, nbs: seq<Node>, rest: seq<Token>, rr: Ref)
    requires Allocated(a1) && forall i | 0 <= i < |nbs| :: NotebookElement(nbs[i])
    ensures D.ParseNotebooks(a1, nbs, rr, []).Success?
    ensures var b := D.ParseNotebooks(a1, nbs, rr, []).value;
            R.ParseRootChildren(p, a1, TokensSeq(nbs) + ([End] + rest), rr, NewRoot()) ==
              Success(R.ParsedRoot(b.arena, [End] + rest, rr, RootObj(b.refs, None)))
  {
    AgreeNotebooks(p, a1, nbs, [End] + rest, rr, NewRoot());
  }

  /** The reader's root loop over notebooks and then an OpenSections element. */
  lemma RootChildrenOpen(p: R.UnknownElements, a1: Arena, nbs: seq<Node>, os: Node, rest: seq<Token>, rr: Ref)
    requires Allocated(a1) && forall i | 0 <= i < |nbs| :: NotebookElement(nbs[i])
    requires OpenSectionsElement(os)
    ensures D.ParseNotebooks(a1, nbs, rr, []).Success?
    ensures var b := D.ParseNotebooks(a1, nbs, rr, []).value;
            D.ParseOpenSectionList(b.arena, os.children, []).Success? &&
            var c := D.ParseOpenSectionList(b.arena, os.children, []).value;
            R.ParseRootChildren(p, a1, TokensSeq(nbs + [os]) + ([End] + rest), rr, NewRoot()) ==
              Success(R.ParsedRoot(c.arena, [End] + rest, rr, RootObj(b.refs, Some(OpenSectionsObj(D.AttributeValue(os.attrs, IdAttr), c.refs)))))
  {
    TokensSeqConcat(nbs, [os]);
    assert [os][1..] == [];
    assert TokensSeq([os]) == Tokens(os);
    var tail := Tokens(os) + ([End] + rest);
    assert TokensSeq(nbs + [os]) + ([End] + rest) == TokensSeq(nbs) + tail;
    AgreeNotebooks(p, a1, nbs, tail, rr, NewRoot());
    var b := D.ParseNotebooks(a1, nbs, rr, []).value;
    ElementStart(os, [End] + rest);
    R.RootOnOpenSections(p, b.arena, tail, rr, NewRoot().(notebooks := b.refs));
    AgreeOpenSections(p, b.arena, os, [End] + rest);
  }

  /** The DOM's root with no OpenSections child. */
  lemma DomRootPlain(a: Arena, e: Node)
    requires e.Element? && D.FirstNamed(e.children, OpenSectionsName).None?
    requires D.ParseNotebooks(a.(next := a.next + 1), e.children, a.next, []).Success?
    ensures var b := D.ParseNotebooks(a.(next := a.next + 1), e.children, a.next, []).value;
            D.ParseRoot(a, e) == Success(D.ParsedRoot(b.arena, a.next, RootObj(b.refs, None)))
  {
  }

  /** The DOM's root with an OpenSections child that has an ID. */
  lemma DomRootOpen(a: Arena, e: Node, os: Node)
    requires e.Element? && D.FirstNamed(e.children, OpenSectionsName) == Some(os)
    requires D.AttributeValue(os.attrs, IdAttr).Some?
    requires D.ParseNotebooks(a.(next := a.next + 1), e.children, a.next, []).Success?
    requires D.ParseOpenSectionList(D.ParseNotebooks(a.(next := a.next + 1), e.children, a.next, []).value.arena, os.children, []).Success?
    ensures var b := D.ParseNotebooks(a.(next := a.next + 1), e.children, a.next, []).value;
            var c := D.ParseOpenSectionList(b.arena, os.children, []).value;
            D.ParseRoot(a, e) ==
              Success(D.ParsedRoot(c.arena, a.next, RootObj(b.refs, Some(OpenSectionsObj(D.AttributeValue(os.attrs, IdAttr), c.refs)))))
  {
  }

  /** An empty root element: a Root with nothing in it, on both sides. */
  lemma AgreeEmptyRoot(p: R.UnknownElements, a: Arena, e: Node, rest: seq<Token>)
    requires e.Element? && e.children == []
    ensures D.ParseRoot(a, e) == Success(D.ParsedRoot(a.(next := a.next + 1), a.next, NewRoot()))
    ensures R.ParseRoot(p, a, Tokens(e) + rest) == Success(R.ParsedRoot(a.(next := a.next + 1), rest, a.next, NewRoot()))
  {
    SkipElement(e, rest);
    ElementStart(e, rest);
    assert D.FirstNamed(e.children, OpenSectionsName).None?;
  }

  /** A root whose notebooks are followed by an OpenSections element. */
  lemma AgreeRootOpen(p: R.UnknownElements, a: Arena, e: Node, rest: seq<Token>, nbs: seq<Node>, os: Node)
    requires e.Element? && e.children == nbs + [os] && Allocated(a)
    requires forall i | 0 <= i < |nbs| :: NotebookElement(nbs[i])
    requires OpenSectionsElement(os) && D.FirstNamed(e.children, OpenSectionsName) == Some(os)
    requires D.ParseNotebooks(a.(next := a.next + 1), e.children, a.next, []) == D.ParseNotebooks(a.(next := a.next + 1), nbs, a.next, [])
    ensures D.ParseRoot(a, e).Success?
    ensures var d := D.ParseRoot(a, e).value;
            R.ParseRoot(p, a, Tokens(e) + rest) == Success(R.ParsedRoot(d.arena, rest, d.rootRef, d.root))
  {
    var a1 := a.(next := a.next + 1);
    RootChildrenOpen(p, a1, nbs, os, rest, a.next);
    var b := D.ParseNotebooks(a1, nbs, a.next, []).value;
    var c := D.ParseOpenSectionList(b.arena, os.children, []).value;
    DomRootOpen(a, e, os);
    ReaderRoot(p, a, e, rest, c.arena, RootObj(b.refs, Some(OpenSectionsObj(D.AttributeValue(os.attrs, IdAttr), c.refs))));
  }

  /** A non-empty root with notebooks only. */
  lemma AgreeRootPlain(p: R.UnknownElements, a: Arena, e: Node, rest: seq<Token>)
    requires e.Element? && e.children != [] && Allocated(a)
    requires forall i | 0 <= i < |e.children| :: NotebookElement(e.children[i])
    requires D.FirstNamed(e.children, OpenSectionsName).None?
    ensures D.ParseRoot(a, e).Success?
    ensures var d := D.ParseRoot(a, e).value;
            R.ParseRoot(p, a, Tokens(e) + rest) == Success(R.ParsedRoot(d.arena, rest, d.rootRef, d.root))
  {
    var a1 := a.(next := a.next + 1);
    RootChildrenPlain(p, a1, e.children, rest, a.next);
    var b := D.ParseNotebooks(a1, e.children, a.next, []).value;
    DomRootPlain(a, e);
    ReaderRoot(p, a, e, rest, b.arena, RootObj(b.refs, None));
  }

  /** The root: both engines build the same Root, with the same notebooks and open sections. */
  lemma AgreeRoot(p: R.UnknownElements, a: Arena, e: Node, rest: seq<Token>)
    requires RootDocument(e) && Allocated(a)
    ensures D.ParseRoot(a, e).Success?
    ensures var d := D.ParseRoot(a, e).value;
            R.ParseRoot(p, a, Tokens(e) + rest) == Success(R.ParsedRoot(d.arena, rest, d.rootRef, d.root))
  {
    var ch := e.children;
    var k := RootSplit(e);
    if ch == [] {
      AgreeEmptyRoot(p, a, e, rest);
    } else if k < |ch| {
      var nbs := ch[..k];
      assert ch[k..] == [ch[k]];
      NotebooksIgnoreTail(a.(next := a.next + 1), nbs, [ch[k]], a.next, []);
      AgreeRootOpen(p, a, e, rest, nbs, ch[k]);
    } else {
      AgreeRootPlain(p, a, e, rest);
    }
  }

  // ---------------------------------------------------------------------
  // Parse(xml, parent).

  /** A notebook's Parse ignores the parent, and leaves its Root unset. */
  lemma DomNotebookParse(a: Arena, e: Node, parent: Option<Ref>)
    requires NotebookElement(e) && Allocated(a)
    ensures var a1 := Alloc(a, NewItem(NotebookKind)).0;
            D.ParseInto(a1, e, a.next, None).Success? &&
            D.Parse(a, e, parent) == Success(D.ParsedItem(D.ParseInto(a1, e, a.next, None).value, a.next))
  {
    var (a1, nb) := Alloc(a, NewItem(NotebookKind));
    AgreeNotebook(R.SkipOver, a1, e, [], nb, None);
    assert D.KindOfName(e.name) == Some(NotebookKind);
    var y := D.SetAttributes(a1, nb, e.attrs).value;
    DP.SetAttributesFrame(a1, nb, e.attrs);
    assert y.items[nb].body.Notebook?;
    assert D.ParseInto(a1, e, nb, parent) == D.ParseInto(a1, e, nb, None);
  }

  /** Writing a notebook's unset Root again changes nothing. */
  lemma RootUnsetKept(b: Arena, nb: Ref)
    requires nb in b.items && b.items[nb].body.Notebook? && b.items[nb].body.root == None
    ensures SetRoot(b, nb, None) == b
  {
    assert WithRoot(b.items[nb].body, None) == b.items[nb].body;
    assert b.items[nb := b.items[nb]] == b.items;
  }

  lemma AgreeParseNotebook(p: R.UnknownElements, a: Arena, e: Node, rest: seq<Token>, parent: Option<Ref>)
    requires NotebookElement(e) && Allocated(a)
    ensures D.Parse(a, e, parent).Success?
    ensures R.Parse(p, a, Tokens(e) + rest, parent) == Success(R.ParsedItem(D.Parse(a, e, parent).value.arena, rest, a.next))
  {
    var (a1, nb) := Alloc(a, NewItem(NotebookKind));
    DomNotebookParse(a, e, parent);
    AgreeNotebook(p, a1, e, rest, nb, None);
    DP.ParseIntoFacts(a1, e, nb, None);
    RootUnsetKept(D.ParseInto(a1, e, nb, None).value, nb);
    ElementStart(e, rest);
  }

  /** The DOM's cast fails after the pages when the reader's fails before them. */
  lemma DomSectionMisfit(a: Arena, e: Node, s: Ref, parent: Option<Ref>)
    requires SectionElement(e) && Allocated(a) && s in a.items && a.items[s].body.Section?
    requires parent.Some? && parent.value in a.items && parent.value != s && !a.items[parent.value].IsContainer()
    ensures D.ParseInto(a, e, s, parent) == Failure(InvalidCast)
  {
    SetAttributesAgree(a, s, e, [], ToParent(None));
    DP.SetAttributesFrame(a, s, e.attrs);
    var y := D.SetAttributes(a, s, e.attrs).value;
    assert y.items[s].body.Section?;
    DomPagesSucceed(y, e.children, s);
    DP.ParsePagesFacts(y, e.children, s, []);
    var b := D.ParsePages(y, e.children, s, []).value;
    assert b.arena.items[parent.value] == a.items[parent.value];
  }

  /** The DOM's page list over Page elements of the class succeeds. */
  lemma DomPagesSucceed(y: Arena, ns: seq<Node>, s: Ref)
    requires Allocated(y) && s in y.items && y.items[s].body.Section?
    requires forall i | 0 <= i < |ns| :: Tagged(ns[i], PageName)
    ensures D.ParsePages(y, ns, s, []).Success?
  {
    AgreePages(R.SkipOver, y, ns, [], s, [], None);
  }

  /** The DOM's cast fails after the children when the reader's fails before them. */
  lemma DomGroupMisfit(a: Arena, e: Node, g: Ref, parent: Option<Ref>)
    requires Tagged(e, SectionGroupName) && ContainerChildren(e.children)
    requires Allocated(a) && g in a.items && a.items[g].body.SectionGroup?
    requires parent.Some? && parent.value in a.items && parent.value != g && !a.items[parent.value].IsContainer()
    ensures D.ParseInto(a, e, g, parent) == Failure(InvalidCast)
  {
    SetAttributesAgree(a, g, e, [], ToParent(None));
    DP.SetAttributesFrame(a, g, e.attrs);
    var y := D.SetAttributes(a, g, e.attrs).value;
    assert y.items[g].IsContainer();
    AgreeChildren(R.SkipOver, y, e.children, [], g, ToParent(None));
    DP.ParseChildrenFacts(y, e.children, g);
    var b := D.ParseChildren(y, e.children, g).value;
    assert b.items[parent.value] == a.items[parent.value];
  }

  /** The DOM's cast on a page's parent fails when the reader's does. */
  lemma DomPageMisfit(a: Arena, e: Node, pg: Ref, parent: Option<Ref>)
    requires Tagged(e, PageName) && Allocated(a) && pg in a.items && a.items[pg].body.Page?
    requires parent.Some? && parent.value in a.items && parent.value != pg && !a.items[parent.value].body.Section?
    ensures D.ParseInto(a, e, pg, parent) == Failure(InvalidCast)
  {
    SetAttributesAgree(a, pg, e, [], ToParent(None));
    DP.SetAttributesFrame(a, pg, e.attrs);
    var y := D.SetAttributes(a, pg, e.attrs).value;
    assert y.items[pg].body.Page?;
    assert y.items[parent.value] == a.items[parent.value];
  }

  lemma AgreeParseSection(p: R.UnknownElements, a: Arena, e: Node, rest: seq<Token>, parent: Option<Ref>)
    requires SectionElement(e) && Allocated(a) && (parent.Some? ==> parent.value in a.items)
    ensures var d := D.Parse(a, e, parent);
            R.Parse(p, a, Tokens(e) + rest, parent) ==
              if d.Success? then Success(R.ParsedItem(d.value.arena, rest, d.value.item)) else Failure(d.error)
  {
    var (a1, s) := Alloc(a, NewItem(SectionKind));
    assert D.KindOfName(e.name) == Some(SectionKind);
    ElementStart(e, rest);
    if R.IsNotebookOrSectionGroup(a, parent) {
      AgreeSection(p, a1, e, rest, s, parent);
    } else {
      DomSectionMisfit(a1, e, s, parent);
    }
  }

  lemma AgreeParseGroup(p: R.UnknownElements, a: Arena, e: Node, rest: seq<Token>, parent: Option<Ref>)
    requires Tagged(e, SectionGroupName) && ContainerChildren(e.children)
    requires Allocated(a) && (parent.Some? ==> parent.value in a.items)
    ensures var d := D.Parse(a, e, parent);
            R.Parse(p, a, Tokens(e) + rest, parent) ==
              if d.Success? then Success(R.ParsedItem(d.value.arena, rest, d.value.item)) else Failure(d.error)
  {
    var (a1, g) := Alloc(a, NewItem(SectionGroupKind));
    assert D.KindOfName(e.name) == Some(SectionGroupKind);
    ElementStart(e, rest);
    if R.IsNotebookOrSectionGroup(a, parent) {
      AgreeGroup(p, a1, e, rest, g, parent);
    } else {
      DomGroupMisfit(a1, e, g, parent);
    }
  }

  lemma AgreeParsePage(p: R.UnknownElements, a: Arena, e: Node, rest: seq<Token>, parent: Option<Ref>)
    requires Tagged(e, PageName) && Allocated(a) && (parent.Some? ==> parent.value in a.items)
    ensures var d := D.Parse(a, e, parent);
            R.Parse(p, a, Tokens(e) + rest, parent) ==
              if d.Success? then Success(R.ParsedItem(d.value.arena, rest, d.value.item)) else Failure(d.error)
  {
    var (a1, pg) := Alloc(a, NewItem(PageKind));
    assert D.KindOfName(e.name) == Some(PageKind);
    ElementStart(e, rest);
    if R.IsSectionOrNull(a, parent) {
      AgreePage(a1, e, rest, pg, parent);
    } else {
      DomPageMisfit(a1, e, pg, parent);
    }
  }

  /**
   * Parse(xml, parent): the same new item and arena, or the same error; a
   * parent of the wrong kind is an InvalidCast on both sides (the reader
   * casts before reading the element, the DOM after).
   */
  lemma AgreeParse(p: R.UnknownElements, a: Arena, e: Node, rest: seq<Token>, parent: Option<Ref>)
    requires ItemElement(e) && Allocated(a) && (parent.Some? ==> parent.value in a.items)
    ensures var d := D.Parse(a, e, parent);
            R.Parse(p, a, Tokens(e) + rest, parent) ==
              if d.Success? then Success(R.ParsedItem(d.value.arena, rest, d.value.item)) else Failure(d.error)
  {
    if NotebookElement(e) {
      AgreeParseNotebook(p, a, e, rest, parent);
    } else if SectionElement(e) {
      AgreeParseSection(p, a, e, rest, parent);
    } else if Tagged(e, SectionGroupName) {
      AgreeParseGroup(p, a, e, rest, parent);
    } else {
      AgreeParsePage(p, a, e, rest, parent);
    }
  }
}
