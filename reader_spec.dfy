/**
 * What the streaming (XmlReader) engine of LinqToOneNote computes, as
 * functions of the arena and of the tokens the reader has not yet consumed.
 * Each function mirrors one private Parse* method: the same order of field
 * writes, the same loop exits and the same reader moves.
 */
module XmlReaderSpec {
  import opened Base
  import opened Xml
  import opened Hierarchy

  /**
   * What a child loop does with a node it does not parse. The engine calls
   * `reader.Read()`, which steps INTO an unknown element, so that element's
   * own children are seen by the loop as if they were siblings; `SkipOver`
   * is `reader.Skip()`, which passes the whole element.
   */
  datatype UnknownElements = StepInto | SkipOver

  function PassOther(p: UnknownElements, ts: seq<Token>): (r: seq<Token>)
    ensures |r| <= |ts| && (ts != [] ==> |r| < |ts|)
  {
    if p == SkipOver then Skip(ts) else Read(ts)
  }

  /** The reader is on an element whose local name is `local` (the namespace is not looked at). */
  predicate OnElement(ts: seq<Token>, local: string) {
    ts != [] && ts[0].Start? && ts[0].name.local == local
  }

  // ---------------------------------------------------------------------
  // SetAttributes

  /** The attributes decoded with bool.Parse for an item of kind `k`. */
  predicate IsBoolAttributeOf(k: Kind, name: string) {
    name == IsUnreadAttr || name == IsRecycleBinAttr || name == EncryptedAttr ||
    name == LockedAttr || name == IsDeletedPagesAttr ||
    (name == IsInRecycleBinAttr && (k == PageKind || k == SectionKind))
  }

  /** One iteration of SetAttributes: write the field the attribute names, if the kind has it. */
  function ApplyAttribute(it: Item, at: Attr): (r: Result<Item>)
    ensures r.Success? ==> SameLinks(it, r.value)
  {
    var v := at.value;
    if at.name == IdAttr then Success(it.(id := Some(v)))
    else if at.name == NameAttr then Success(it.(name := v))
    else if at.name == LastModifiedTimeAttr then Success(it.(lastModified := Some(v)))
    else if at.name == IsUnreadAttr then
      var b :- BoolParse(v);
      Success(it.(isUnread := b))
    else
      var body :- ApplyKindAttribute(it.body, at);
      Success(it.(body := body))
  }

  /** The kind-specific rows of the attribute table. */
  function ApplyKindAttribute(b: Body, at: Attr): (r: Result<Body>)
    ensures r.Success? ==> LinksOf(r.value) == LinksOf(b)
  {
    var v := at.value;
    if at.name == PathAttr then Success(WithPath(b, v))
    else if at.name == ColorAttr then Success(WithColor(b, Some(v)))
    else if at.name == IsInRecycleBinAttr then
      if b.Page? || b.Section? then
        var x :- BoolParse(v);
        Success(WithIsInRecycleBin(b, x))
      else Success(b)
    else if at.name == NickNameAttr then Success(WithDisplayName(b, v))
    else if at.name == IsRecycleBinAttr then
      var x :- BoolParse(v);
      Success(WithIsRecycleBin(b, x))
    else if at.name == EncryptedAttr then
      var x :- BoolParse(v);
      Success(WithEncrypted(b, x))
    else if at.name == LockedAttr then
      var x :- BoolParse(v);
      Success(WithLocked(b, x))
    else if at.name == IsDeletedPagesAttr then
      var x :- BoolParse(v);
      Success(WithIsDeletedPages(b, x))
    else if at.name == PageLevelAttr then Success(WithLevel(b, Some(v)))
    else if at.name == DateTimeAttr then Success(WithCreated(b, Some(v)))
    else Success(b)
  }

  /** The SetAttributes loop: the attributes in document order, stopping at the first parse failure. */
  function ApplyAttributes(it: Item, attrs: seq<Attr>): (r: Result<Item>)
    ensures r.Success? ==> SameLinks(it, r.value)
    decreases |attrs|
  {
    if attrs == [] then Success(it)
    else
      var next :- ApplyAttribute(it, attrs[0]);
      ApplyAttributes(next, attrs[1..])
  }

  /** SetAttributes on the item `r`, from the attributes of the element the reader is on. */
  function SetAttributes(a: Arena, r: Ref, ts: seq<Token>): (res: Result<Arena>)
    requires r in a.items
    ensures res.Success? ==> res.value.next == a.next && r in res.value.items &&
                             SameLinks(a.items[r], res.value.items[r])
  {
    var it :- ApplyAttributes(a.items[r], AttrsAt(ts));
    Success(Put(a, r, it))
  }

  // ---------------------------------------------------------------------
  // The Parse* methods.

  /** The arena after a parse, and the tokens left for the reader. */
  datatype Parsed = Parsed(arena: Arena, rest: seq<Token>)

  /** ParsePage: set Parent, then the attributes, then skip the page's own subtree. */
  function ParsePage(a: Arena, ts: seq<Token>, pg: Ref, parent: Option<Ref>): (r: Result<Parsed>)
    requires pg in a.items && ts != [] && ts[0].Start?
    ensures r.Success? ==> |r.value.rest| < |ts|
  {
    var a1 := SetParent(a, pg, parent);
    var a2 :- SetAttributes(a1, pg, ts);
    Success(Parsed(a2, Skip(ts)))
  }

  /** The page loop of ParseSection: only elements named Page become pages. */
  function ParsePages(p: UnknownElements, a: Arena, ts: seq<Token>, s: Ref): (r: Result<Parsed>)
    ensures r.Success? ==> |r.value.rest| <= |ts|
    decreases |ts|
  {
    if AtEndOrNone(ts) then Success(Parsed(a, ts))
    else if OnElement(ts, PageName) then
      var (a1, pg) := Alloc(a, NewItem(PageKind));
      var page :- ParsePage(a1, ts, pg, Some(s));
      ParsePages(p, AppendPage(page.arena, s, pg), page.rest, s)
    else ParsePages(p, a, PassOther(p, ts), s)
  }

  /** ParseSection: set Parent, then the attributes, then the pages unless the element is empty. */
  function ParseSection(p: UnknownElements, a: Arena, ts: seq<Token>, s: Ref, parent: Option<Ref>): (r: Result<Parsed>)
    requires s in a.items && ts != [] && ts[0].Start?
    ensures r.Success? ==> |r.value.rest| < |ts|
  {
    var a1 := SetParent(a, s, parent);
    var a2 :- SetAttributes(a1, s, ts);
    if IsEmptyElement(ts) then Success(Parsed(a2, Skip(ts)))
    else
      var inner :- ParsePages(p, a2, ts[1..], s);  // after ReadStartElement
      var ts2 :- ReadEndElement(inner.rest);
      Success(Parsed(inner.arena, ts2))
  }

  /** ParseChildren: Section and SectionGroup elements, appended to the container's two lists. */
  function ParseChildren(p: UnknownElements, a: Arena, ts: seq<Token>, c: Ref): (r: Result<Parsed>)
    ensures r.Success? ==> |r.value.rest| <= |ts|
    decreases |ts|, 1
  {
    if AtEndOrNone(ts) then Success(Parsed(a, ts))
    else if OnElement(ts, SectionName) then
      var (a1, s) := Alloc(a, NewItem(SectionKind));
      var sec :- ParseSection(p, a1, ts, s, Some(c));
      ParseChildren(p, AppendSection(sec.arena, c, s), sec.rest, c)
    else if OnElement(ts, SectionGroupName) then
      var (a1, g) := Alloc(a, NewItem(SectionGroupKind));
      var grp :- ParseSectionGroup(p, a1, ts, g, Some(c));
      ParseChildren(p, AppendSectionGroup(grp.arena, c, g), grp.rest, c)
    else ParseChildren(p, a, PassOther(p, ts), c)
  }

  /** One turn of the ParseChildren loop on a Section element. */
  lemma ChildrenOnSection(p: UnknownElements, a: Arena, ts: seq<Token>, c: Ref)
    requires OnElement(ts, SectionName)
    ensures var sec := ParseSection(p, Alloc(a, NewItem(SectionKind)).0, ts, a.next, Some(c));
            ParseChildren(p, a, ts, c) ==
              if sec.Failure? then Failure(sec.error)
              else ParseChildren(p, AppendSection(sec.value.arena, c, a.next), sec.value.rest, c)
  {
  }

  /** One turn of the ParseChildren loop on a SectionGroup element. */
  lemma ChildrenOnSectionGroup(p: UnknownElements, a: Arena, ts: seq<Token>, c: Ref)
    requires OnElement(ts, SectionGroupName)
    ensures var grp := ParseSectionGroup(p, Alloc(a, NewItem(SectionGroupKind)).0, ts, a.next, Some(c));
            ParseChildren(p, a, ts, c) ==
              if grp.Failure? then Failure(grp.error)
              else ParseChildren(p, AppendSectionGroup(grp.value.arena, c, a.next), grp.value.rest, c)
  {
  }

  /** ParseSectionGroup: set Parent, then the attributes, then the children unless the element is empty. */
  function ParseSectionGroup(p: UnknownElements, a: Arena, ts: seq<Token>, g: Ref, parent: Option<Ref>): (r: Result<Parsed>)
    requires g in a.items && ts != [] && ts[0].Start?
    ensures r.Success? ==> |r.value.rest| < |ts|
    decreases |ts|, 0
  {
    var a1 := SetParent(a, g, parent);
    var a2 :- SetAttributes(a1, g, ts);
    if IsEmptyElement(ts) then Success(Parsed(a2, Skip(ts)))
    else
      var inner :- ParseChildren(p, a2, ts[1..], g);  // after ReadStartElement
      var ts2 :- ReadEndElement(inner.rest);
      Success(Parsed(inner.arena, ts2))
  }

  /** ParseNotebook: set the root back-reference, then the attributes, then the children. */
  function ParseNotebook(p: UnknownElements, a: Arena, ts: seq<Token>, nb: Ref, root: Option<Ref>): (r: Result<Parsed>)
    requires nb in a.items && ts != [] && ts[0].Start?
    ensures r.Success? ==> |r.value.rest| < |ts|
  {
    var a1 := SetRoot(a, nb, root);
    var a2 :- SetAttributes(a1, nb, ts);
    if IsEmptyElement(ts) then Success(Parsed(a2, Skip(ts)))
    else
      var inner :- ParseChildren(p, a2, ts[1..], nb);  // after ReadStartElement
      var ts2 :- ReadEndElement(inner.rest);
      Success(Parsed(inner.arena, ts2))
  }

  /** The value of the last attribute called `name`: later occurrences overwrite earlier ones. */
  function LastValue(attrs: seq<Attr>, name: string): (r: Option<string>)
    ensures r.None? <==> forall i | 0 <= i < |attrs| :: attrs[i].name != name
    ensures r.Some? ==> exists i | 0 <= i < |attrs| :: attrs[i] == Attr(name, r.value) &&
                          forall j | i < j < |attrs| :: attrs[j].name != name
  {
    if attrs == [] then None
    else if attrs[|attrs| - 1].name == name then Some(attrs[|attrs| - 1].value)
    else LastValue(attrs[..|attrs| - 1], name)
  }

  /** An OpenSections object being filled, with the parse state. */
  datatype ParsedOpen = ParsedOpen(arena: Arena, rest: seq<Token>, open: OpenSectionsObj)

  /** The loop of ParseOpenSections: Section elements become open sections with no parent. */
  function ParseOpenSectionList(p: UnknownElements, a: Arena, ts: seq<Token>, os: OpenSectionsObj): (r: Result<ParsedOpen>)
    ensures r.Success? ==> |r.value.rest| <= |ts| && r.value.open.id == os.id
    decreases |ts|
  {
    if AtEndOrNone(ts) then Success(ParsedOpen(a, ts, os))
    else if OnElement(ts, SectionName) then
      var (a1, s) := Alloc(a, NewItem(SectionKind));
      var sec :- ParseSection(p, a1, ts, s, None);
      ParseOpenSectionList(p, sec.arena, sec.rest, os.(sections := os.sections + [s]))
    else ParseOpenSectionList(p, a, PassOther(p, ts), os)
  }

  /** ParseOpenSections: the Id from the (last) ID attribute, then the sections. */
  function ParseOpenSections(p: UnknownElements, a: Arena, ts: seq<Token>): (r: Result<ParsedOpen>)
    requires ts != [] && ts[0].Start?
    ensures r.Success? ==> |r.value.rest| < |ts| && r.value.open.id == LastValue(AttrsAt(ts), IdAttr)
  {
    var os := NewOpenSections().(id := LastValue(AttrsAt(ts), IdAttr));
    if IsEmptyElement(ts) then Success(ParsedOpen(a, Skip(ts), os))
    else
      var inner :- ParseOpenSectionList(p, a, ts[1..], os);  // after ReadStartElement
      var ts2 :- ReadEndElement(inner.rest);
      Success(ParsedOpen(inner.arena, ts2, inner.open))
  }

  /** A Root being filled, with the parse state. */
  datatype ParsedRoot = ParsedRoot(arena: Arena, rest: seq<Token>, rootRef: Ref, root: RootObj)

  /** The loop of ParseRoot: notebooks are appended; each OpenSections element replaces the last. */
  function ParseRootChildren(p: UnknownElements, a: Arena, ts: seq<Token>, rr: Ref, root: RootObj): (r: Result<ParsedRoot>)
    ensures r.Success? ==> |r.value.rest| <= |ts| && r.value.rootRef == rr
    decreases |ts|
  {
    if AtEndOrNone(ts) then Success(ParsedRoot(a, ts, rr, root))
    else if OnElement(ts, NotebookName) then
      var (a1, nb) := Alloc(a, NewItem(NotebookKind));
      var n :- ParseNotebook(p, a1, ts, nb, Some(rr));
      ParseRootChildren(p, n.arena, n.rest, rr, root.(notebooks := root.notebooks + [nb]))
    else if OnElement(ts, OpenSectionsName) then
      var o :- ParseOpenSections(p, a, ts);
      ParseRootChildren(p, o.arena, o.rest, rr, root.(openSections := Some(o.open)))
    else ParseRootChildren(p, a, PassOther(p, ts), rr, root)
  }

  /** One turn of the ParseRoot loop on a Notebook element. */
  lemma RootOnNotebook(p: UnknownElements, a: Arena, ts: seq<Token>, rr: Ref, root: RootObj)
    requires OnElement(ts, NotebookName)
    ensures var n := ParseNotebook(p, Alloc(a, NewItem(NotebookKind)).0, ts, a.next, Some(rr));
            ParseRootChildren(p, a, ts, rr, root) ==
              if n.Failure? then Failure(n.error)
              else ParseRootChildren(p, n.value.arena, n.value.rest, rr, root.(notebooks := root.notebooks + [a.next]))
  {
  }

  /** One turn of the ParseRoot loop on an OpenSections element. */
  lemma RootOnOpenSections(p: UnknownElements, a: Arena, ts: seq<Token>, rr: Ref, root: RootObj)
    requires OnElement(ts, OpenSectionsName)
    ensures var o := ParseOpenSections(p, a, ts);
            ParseRootChildren(p, a, ts, rr, root) ==
              if o.Failure? then Failure(o.error)
              else ParseRootChildren(p, o.value.arena, o.value.rest, rr, root.(openSections := Some(o.value.open)))
  {
  }

  /**
   * ParseRoot: a new Root, then (unless the top element is empty) its
   * children. The top element's name is not checked.
   */
  function ParseRoot(p: UnknownElements, a: Arena, ts: seq<Token>): (r: Result<ParsedRoot>)
    ensures r.Success? ==> r.value.rootRef == a.next
  {
    var (a1, rr) := AllocRef(a);
    if IsEmptyElement(ts) then Success(ParsedRoot(a1, Skip(ts), rr, NewRoot()))
    else
      var ts1 :- ReadStartElement(ts);
      var inner :- ParseRootChildren(p, a1, ts1, rr, NewRoot());
      var ts2 :- ReadEndElement(inner.rest);
      Success(ParsedRoot(inner.arena, ts2, rr, inner.root))
  }

  /** The cast `(INotebookOrSectionGroup)parent`: null, a notebook or a section group. */
  predicate IsNotebookOrSectionGroup(a: Arena, parent: Option<Ref>) {
    parent.None? || (parent.value in a.items && a.items[parent.value].IsContainer())
  }

  /** The cast `(Section)parent`: null or a section. */
  predicate IsSectionOrNull(a: Arena, parent: Option<Ref>) {
    parent.None? || (parent.value in a.items && a.items[parent.value].body.Section?)
  }

  /** A new item from Parse, with the parse state. */
  datatype ParsedItem = ParsedItem(arena: Arena, rest: seq<Token>, item: Ref)

  /**
   * Parse: dispatch on the top element's local name to a new item of that
   * kind under `parent` (a notebook gets no root).
   */
  function Parse(p: UnknownElements, a: Arena, ts: seq<Token>, parent: Option<Ref>): (r: Result<ParsedItem>)
    ensures r.Success? ==> r.value.item == a.next
  {
    if ts != [] && ts[0].Start? then
      var local := ts[0].name.local;
      if local == NotebookName then
        var (a1, nb) := Alloc(a, NewItem(NotebookKind));
        var n :- ParseNotebook(p, a1, ts, nb, None);
        Success(ParsedItem(n.arena, n.rest, nb))
      else if local == SectionName then
        if !IsNotebookOrSectionGroup(a, parent) then Failure(InvalidCast)
        else
          var (a1, s) := Alloc(a, NewItem(SectionKind));
          var sec :- ParseSection(p, a1, ts, s, parent);
          Success(ParsedItem(sec.arena, sec.rest, s))
      else if local == SectionGroupName then
        if !IsNotebookOrSectionGroup(a, parent) then Failure(InvalidCast)
        else
          var (a1, g) := Alloc(a, NewItem(SectionGroupKind));
          var grp :- ParseSectionGroup(p, a1, ts, g, parent);
          Success(ParsedItem(grp.arena, grp.rest, g))
      else if local == PageName then
        if !IsSectionOrNull(a, parent) then Failure(InvalidCast)
        else
          var (a1, pg) := Alloc(a, NewItem(PageKind));
          var page :- ParsePage(a1, ts, pg, parent);
          Success(ParsedItem(page.arena, page.rest, pg))
      else Failure(InvalidXmlElement)
    else Failure(InvalidXmlNodeType)
  }

  /**
   * ParseExisting: parse into an existing item, keeping its own Parent (or,
   * for a notebook, its root); nothing happens unless the top node is an element.
   */
  function ParseExisting(p: UnknownElements, a: Arena, ts: seq<Token>, r: Ref): (res: Result<Arena>)
    requires r in a.items
  {
    if ts != [] && ts[0].Start? then
      var it := a.items[r];
      var parsed :- match it.body
        case Notebook(_, _, _, root, _, _) => ParseNotebook(p, a, ts, r, root)
        case SectionGroup(_, _, parent, _, _) => ParseSectionGroup(p, a, ts, r, parent)
        case Section(_, _, _, _, _, _, parent, _) => ParseSection(p, a, ts, r, parent)
        case Page(_, _, _, parent) => ParsePage(a, ts, r, parent);
      Success(parsed.arena)
    else Success(a)
  }
}
