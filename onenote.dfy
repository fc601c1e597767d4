/**
 * The operations of the OneNote facade that touch the in-memory hierarchy:
 * DeleteItem, RenameItem and the Partial methods that fetch part of the
 * hierarchy and parse it into existing items. Every store call goes through
 * ComSession.Run. What the store answers is a parameter: `fetched` is the
 * XML a GetHierarchy call returns (or the store error it raises), read by
 * the streaming engine, whose treatment of unknown elements is `p`.
 */
module OneNoteFacade {
  import opened Base
  import opened Xml
  import opened Hierarchy
  import opened ComLifecycle
  import S = XmlReaderSpec
  import P = XmlParserXmlReader
  import R = XmlReaderProperties
  import V = Validation
  import E = ItemExtensions
  import Collections
  import Axes
  import PC = ParentChains
  import D = XElementSpec

  /** How much of the hierarchy a GetHierarchy call returns. */
  datatype HierarchyScope = Self | Children | Notebooks | Sections | Pages

  /**
   * What an operation leaves behind: its result or exception, the handle,
   * and the arena (None when a parse failed part-way: the items it had
   * written by then are not modelled).
   */
  datatype Outcome<T> = Outcome(res: Result<T>, handle: Handle, arena: Option<Arena>)

  /** The method's result and new state are the ones `o` describes. */
  predicate Leaves<T(==)>(o: Outcome<T>, res: Result<T>, h: Handle, a: Arena) {
    res == o.res && h == o.handle && (o.arena.Some? ==> a == o.arena.value)
  }

  // ---------------------------------------------------------------------
  // Clearing and refilling an item's lists.

  /** The `Clear()` calls: a notebook's or section group's two lists, a section's pages. */
  function ClearedBody(b: Body): Body {
    match b
    case Notebook(d, path, c, root, _, _) => Notebook(d, path, c, root, [], [])
    case SectionGroup(path, rb, par, _, _) => SectionGroup(path, rb, par, [], [])
    case Section(path, c, e, l, ib, dp, par, _) => Section(path, c, e, l, ib, dp, par, [])
    case Page(_, _, _, _) => b
  }

  function Cleared(a: Arena, r: Ref): (c: Arena)
    requires r in a.items
    ensures r in c.items && c.next == a.next
  {
    Put(a, r, a.items[r].(body := ClearedBody(a.items[r].body)))
  }

  /**
   * The refresh step of UpdateDescendants and GetAndUpdateChildren: clear the
   * item's lists (when `clearFirst`), fetch through Run, then ParseExisting
   * into the same item. A failed fetch leaves the lists cleared.
   */
  function RefreshOutcome(p: S.UnknownElements, mode: ComObjectMode, h: Handle, a: Arena, r: Ref,
                          clearFirst: bool, fetched: Result<seq<Token>>): Outcome<()>
    requires r in a.items
  {
    var c := if clearFirst then Cleared(a, r) else a;
    var run := RunCall(mode, h, fetched);
    match run.answer
    case Failure(e) => Outcome(Failure(e), run.handle, Some(c))
    case Success(xml) =>
      match S.ParseExisting(p, c, xml, r)
      case Failure(e) => Outcome(Failure(e), run.handle, None)
      case Success(b) => Outcome(Success(()), run.handle, Some(b))
  }

  /** UpdateDescendants fetches for a non-page item, a deeper scope than Self and Notebooks, and a forced or childless item. */
  predicate FetchesDescendants(a: Arena, r: Ref, depth: HierarchyScope, force: bool)
    requires r in a.items
  {
    depth != Notebooks && depth != Self && !a.items[r].body.Page? && (force || a.items[r].Children() == [])
  }

  /** Partial.UpdateDescendants(item, depth, force): the item itself is returned. */
  function UpdateDescendantsOutcome(p: S.UnknownElements, mode: ComObjectMode, h: Handle, a: Arena, item: Option<Ref>,
                                    depth: HierarchyScope, force: bool, fetched: Result<seq<Token>>): Outcome<Ref>
    requires item.Some? ==> item.value in a.items
  {
    if item.None? then Outcome(Failure(ArgumentNull), h, Some(a))
    else if !FetchesDescendants(a, item.value, depth, force) then Outcome(Success(item.value), h, Some(a))
    else
      var o := RefreshOutcome(p, mode, h, a, item.value, true, fetched);
      Outcome(if o.res.Success? then Success(item.value) else Failure(o.res.error), o.handle, o.arena)
  }

  /** GetAndUpdateChildren fetches for a non-page item that is forced or childless. */
  predicate FetchesChildren(a: Arena, r: Ref, force: bool)
    requires r in a.items
  {
    !a.items[r].body.Page? && (force || a.items[r].Children() == [])
  }

  /**
   * Partial.GetAndUpdateChildren(item, force) (with `clearFirst`) and
   * OneNoteApplication's GetChildrenAndUpdate (without): the result, when
   * there is one, is the item's Children in the arena left behind.
   */
  function ChildrenOutcome(p: S.UnknownElements, mode: ComObjectMode, h: Handle, a: Arena, item: Option<Ref>,
                           force: bool, clearFirst: bool, fetched: Result<seq<Token>>): Outcome<()>
    requires item.Some? ==> item.value in a.items
  {
    if item.None? then Outcome(Failure(ArgumentNull), h, Some(a))
    else if !FetchesChildren(a, item.value, force) then Outcome(Success(()), h, Some(a))
    else RefreshOutcome(p, mode, h, a, item.value, clearFirst, fetched)
  }

  // ---------------------------------------------------------------------
  // Re-linking the Parent.

  /** The cast of the parsed parent: `(Section)parent` for a page, `(INotebookOrSectionGroup)parent` otherwise. */
  predicate Fits(a: Arena, k: Kind, x: Ref) {
    x in a.items && (if k == PageKind then a.items[x].body.Section? else a.items[x].IsContainer())
  }

  /** GetAndUpdateParent asks the store for a non-notebook item when forced or when its Parent is null. */
  predicate FetchesParent(a: Arena, r: Ref, force: bool)
    requires r in a.items
  {
    !a.items[r].body.Notebook? && (force || a.items[r].Parent().None?)
  }

  /** Parse(xml, null), the cast by kind, then `item.Parent = parent`; the arena is None after a failed parse. */
  function Relinked(p: S.UnknownElements, a: Arena, r: Ref, xml: seq<Token>): (Result<Option<Ref>>, Option<Arena>)
    requires r in a.items
  {
    match S.Parse(p, a, xml, None)
    case Failure(e) => (Failure(e), None)
    case Success(parsed) =>
      if Fits(parsed.arena, a.items[r].KindOf(), parsed.item) then
        (Success(Some(parsed.item)), Some(SetParent(parsed.arena, r, Some(parsed.item))))
      else (Failure(InvalidCast), Some(parsed.arena))
  }

  /**
   * Partial.GetAndUpdateParent(item, force): no parent for a notebook, the
   * cached Parent unless forced or null, otherwise a re-link to a parent
   * read from the store.
   */
  function ParentOutcome(p: S.UnknownElements, mode: ComObjectMode, h: Handle, a: Arena, item: Option<Ref>,
                         force: bool, fetched: Result<seq<Token>>): Outcome<Option<Ref>>
    requires item.Some? ==> item.value in a.items
  {
    if item.None? then Outcome(Failure(ArgumentNull), h, Some(a))
    else if a.items[item.value].body.Notebook? then Outcome(Success(None), h, Some(a))
    else if !force && a.items[item.value].Parent().Some? then Outcome(Success(a.items[item.value].Parent()), h, Some(a))
    else
      var run := RunCall(mode, h, fetched);
      match run.answer
      case Failure(e) => Outcome(Failure(e), run.handle, Some(a))
      case Success(xml) =>
        var (res, b) := Relinked(p, a, item.value, xml);
        Outcome(res, run.handle, b)
  }

  /**
   * Parse(xml, parent).Children: the children of a new item read from the
   * store; the arena keeps the new items (None after a failed parse).
   */
  function ParsedChildren(p: S.UnknownElements, a: Arena, xml: seq<Token>, parent: Option<Ref>): (Result<seq<Ref>>, Option<Arena>)
    requires Allocated(a)
  {
    match S.Parse(p, a, xml, parent)
    case Failure(e) => (Failure(e), None)
    case Success(parsed) =>
      R.ParseFacts(p, a, xml, parent);
      (Success(parsed.arena.items[parsed.item].Children()), Some(parsed.arena))
  }

  /** Partial.GetChildren(item): a page has none; otherwise the children of a fresh copy of the item. */
  function GetChildrenOutcome(p: S.UnknownElements, mode: ComObjectMode, h: Handle, a: Arena, item: Option<Ref>,
                              fetched: Result<seq<Token>>): Outcome<seq<Ref>>
    requires Allocated(a) && (item.Some? ==> item.value in a.items)
  {
    if item.None? then Outcome(Failure(ArgumentNull), h, Some(a))
    else if a.items[item.value].body.Page? then Outcome(Success([]), h, Some(a))
    else
      var run := RunCall(mode, h, fetched);
      match run.answer
      case Failure(e) => Outcome(Failure(e), run.handle, Some(a))
      case Success(xml) =>
        var (res, b) := ParsedChildren(p, a, xml, None);
        Outcome(res, run.handle, b)
  }

  /** Partial.GetParent(item): a notebook has none; otherwise a new item parsed from the parent's XML. */
  function GetParentOutcome(p: S.UnknownElements, mode: ComObjectMode, h: Handle, a: Arena, item: Option<Ref>,
                            fetched: Result<seq<Token>>): Outcome<Option<Ref>>
    requires item.Some? ==> item.value in a.items
  {
    if item.None? then Outcome(Failure(ArgumentNull), h, Some(a))
    else if a.items[item.value].body.Notebook? then Outcome(Success(None), h, Some(a))
    else
      var run := RunCall(mode, h, fetched);
      match run.answer
      case Failure(e) => Outcome(Failure(e), run.handle, Some(a))
      case Success(xml) =>
        match S.Parse(p, a, xml, None)
        case Failure(e) => Outcome(Failure(e), run.handle, None)
        case Success(parsed) => Outcome(Success(Some(parsed.item)), run.handle, Some(parsed.arena))
  }

  // ---------------------------------------------------------------------
  // DeleteItem and RenameItem.

  /** The list of the parent that holds a child of kind `k`. */
  function ListOf(b: Body, k: Kind): seq<Ref> {
    match k
    case SectionKind => LinksOf(b).sections
    case SectionGroupKind => LinksOf(b).sectionGroups
    case PageKind => LinksOf(b).pages
    case NotebookKind => []
  }

  /** `Parent.Children.Remove(item)`, on the list that holds items of the item's kind. */
  function RemoveChild(b: Body, k: Kind, x: Ref): Body {
    match k
    case SectionKind => WithSections(b, Collections.RemoveFirst(LinksOf(b).sections, x))
    case SectionGroupKind => WithSectionGroups(b, Collections.RemoveFirst(LinksOf(b).sectionGroups, x))
    case PageKind => WithPages(b, Collections.RemoveFirst(LinksOf(b).pages, x))
    case NotebookKind => b
  }

  /** A non-null Parent refers to another item. */
  predicate ParentKnown(a: Arena, r: Ref)
    requires r in a.items
  {
    a.items[r].Parent().Some? ==> a.items[r].Parent().value in a.items && a.items[r].Parent().value != r
  }

  /**
   * DeleteItem(item): nothing for an item in the recycle bin; otherwise the
   * store deletes it (`deleted`), then the item leaves its parent's list.
   * A null Parent raises NullReference after the store has deleted.
   */
  function DeleteOutcome(mode: ComObjectMode, h: Handle, a: Arena, item: Option<Ref>, deleted: Result<()>): Outcome<()>
    requires item.Some? ==> item.value in a.items && ParentKnown(a, item.value)
  {
    if item.None? then Outcome(Failure(ArgumentNull), h, Some(a))
    else if E.IsInRecycleBin(a.items[item.value]) then Outcome(Success(()), h, Some(a))
    else
      var run := RunCall(mode, h, deleted);
      var it := a.items[item.value];
      if run.answer.Failure? then Outcome(run.answer, run.handle, Some(a))
      else if it.Parent().None? then Outcome(Failure(NullReference), run.handle, Some(a))
      else
        var par := it.Parent().value;
        Outcome(Success(()), run.handle, Some(PutBody(a, par, RemoveChild(a.items[par].body, it.KindOf(), item.value))))
  }

  /** RenameItem's argument checks, before any store call. */
  function RenameGuard(a: Arena, item: Option<Ref>, newName: Option<string>): Result<()>
    requires item.Some? ==> item.value in a.items
  {
    var _ :- V.IfNull(item);
    var _ :- V.IfNullOrWhiteSpace(newName);
    if E.IsInRecycleBin(a.items[item.value]) then Failure(ArgumentInvalid)
    else
      var k := a.items[item.value].KindOf();
      if k == SectionGroupKind || k == SectionKind then V.IfInvalidName(k, newName) else Success(())
  }

  /** The store calls of the rename action: GetHierarchy, UpdateHierarchy, and for a page GetPageContent and UpdatePageContent between them. */
  function RenameCalls(k: Kind): nat {
    if k == PageKind then 4 else 2
  }

  /** How many of those calls come before the item's own field is written. */
  function CallsBeforeWrite(k: Kind): nat {
    if k == PageKind then 2 else 1
  }

  /** The attribute the action sets on the fetched element: a notebook's nickname, another kind's name; a page's title is edited in its content instead. */
  function RenamedAttr(k: Kind): Option<string> {
    if k == NotebookKind then Some(NickNameAttr) else if k == PageKind then None else Some(NameAttr)
  }

  /**
   * The edit before the field write can be made: the fetched hierarchy
   * parses to an element (`element` holds its attributes, or the
   * XmlException), that element has the attribute the action sets (the `!`
   * dereference), and for a page the page content parses and has a title
   * (`title`, or the exception of the parse or of `First()`).
   */
  predicate Editable(k: Kind, element: Result<seq<Attr>>, title: Result<()>) {
    element.Success? &&
    (RenamedAttr(k).Some? ==> D.AttributeValue(element.value, RenamedAttr(k).value).Some?) &&
    (k == PageKind ==> title.Success?)
  }

  /**
   * What the rename action returns. The steps, in order: GetHierarchy (call
   * 0), parsing it, for a page GetPageContent (call 1) and the title lookup,
   * the attribute dereference otherwise, the field write, and the remaining
   * store calls. `failing` numbers the first store call that throws, if any.
   */
  function RenameAnswer(k: Kind, failing: Option<nat>, element: Result<seq<Attr>>, title: Result<()>): Result<()> {
    if failing == Some(0) then Failure(StoreFailure)
    else if element.Failure? then Failure(element.error)
    else if k == PageKind && failing == Some(1) then Failure(StoreFailure)
    else if k == PageKind && title.Failure? then title
    else if !Editable(k, element, title) then Failure(NullReference)
    else if failing.Some? && failing.value < RenameCalls(k) then Failure(StoreFailure)
    else Success(())
  }

  /** The action reaches the field write. */
  predicate WritesName(k: Kind, failing: Option<nat>, element: Result<seq<Attr>>, title: Result<()>) {
    (failing.None? || failing.value >= CallsBeforeWrite(k)) && Editable(k, element, title)
  }

  /** A notebook's DisplayName is renamed; every other kind's Name. */
  function Renamed(it: Item, newName: string): Item {
    if it.body.Notebook? then it.(body := WithDisplayName(it.body, newName)) else it.(name := newName)
  }

  /** RenameItem(item, newName), with the store's answers as RenameAnswer reads them. */
  function RenameOutcome(mode: ComObjectMode, h: Handle, a: Arena, item: Option<Ref>, newName: Option<string>,
                         failing: Option<nat>, element: Result<seq<Attr>>, title: Result<()>): Outcome<()>
    requires item.Some? ==> item.value in a.items
  {
    match RenameGuard(a, item, newName)
    case Failure(e) => Outcome(Failure(e), h, Some(a))
    case Success(_) =>
      var r := item.value;
      var k := a.items[r].KindOf();
      var run := RunCall(mode, h, RenameAnswer(k, failing, element, title));
      var b := if run.invoked && WritesName(k, failing, element, title) then Put(a, r, Renamed(a.items[r], newName.value)) else a;
      Outcome(run.answer, run.handle, Some(b))
  }

  // ---------------------------------------------------------------------
  // The operations.

  /** The refresh step on the store: clear, fetch through Run, ParseExisting. */
  method RefreshChildren(p: S.UnknownElements, session: ComSession, store: Store, r: Ref, fetched: Result<seq<Token>>)
    returns (res: Result<()>)
    requires r in store.items
    modifies session, store
    ensures Leaves(RefreshOutcome(p, old(session.mode), old(session.State()), old(store.State()), r, true, fetched),
                   res, session.State(), store.State())
    ensures session.mode == old(session.mode) && store.roots == old(store.roots)
  {
    var it := store.items[r];
    store.PutItem(r, it.(body := ClearedBody(it.body)));
    assert store.State() == Cleared(old(store.State()), r);
    var xml, _ := session.Run(fetched);
    if xml.Failure? {
      return Failure(xml.error);
    }
    var parsed := P.ParseExisting(p, store, xml.value, r);
    if parsed.Failure? {
      return Failure(parsed.error);
    }
    return Success(());
  }

  method UpdateDescendants(p: S.UnknownElements, session: ComSession, store: Store, item: Option<Ref>,
                           depth: HierarchyScope, force: bool, fetched: Result<seq<Token>>) returns (res: Result<Ref>)
    requires item.Some? ==> item.value in store.items
    modifies session, store
    ensures Leaves(UpdateDescendantsOutcome(p, old(session.mode), old(session.State()), old(store.State()), item, depth, force, fetched),
                   res, session.State(), store.State())
    ensures session.mode == old(session.mode) && store.roots == old(store.roots)
  {
    if item.None? {
      return Failure(ArgumentNull);
    }
    var r := item.value;
    if depth == Notebooks || depth == Self || store.items[r].body.Page? {
      return Success(r);
    }
    if force || |store.items[r].Children()| == 0 {
      var refreshed := RefreshChildren(p, session, store, r, fetched);
      if refreshed.Failure? {
        return Failure(refreshed.error);
      }
    }
    return Success(r);
  }

  method GetAndUpdateChildren(p: S.UnknownElements, session: ComSession, store: Store, item: Option<Ref>,
                              force: bool, fetched: Result<seq<Token>>) returns (res: Result<seq<Ref>>)
    requires Allocated(store.State()) && (item.Some? ==> item.value in store.items)
    modifies session, store
    ensures var o := ChildrenOutcome(p, old(session.mode), old(session.State()), old(store.State()), item, force, true, fetched);
            session.State() == o.handle && (o.arena.Some? ==> store.State() == o.arena.value) &&
            (o.res.Failure? ==> res == Failure(o.res.error)) &&
            (o.res.Success? ==> item.value in store.items && res == Success(store.items[item.value].Children()))
    ensures session.mode == old(session.mode) && store.roots == old(store.roots)
  {
    if item.None? {
      return Failure(ArgumentNull);
    }
    var r := item.value;
    if store.items[r].body.Page? {
      assert store.items[r].Children() == [];
      return Success([]);
    }
    if force || |store.items[r].Children()| == 0 {
      ghost var a := store.State();
      RefreshFacts(p, session.mode, session.State(), a, r, true, fetched);
      var refreshed := RefreshChildren(p, session, store, r, fetched);
      if refreshed.Failure? {
        return Failure(refreshed.error);
      }
    }
    return Success(store.items[r].Children());
  }

  /** Parse(xml, null), the cast, and the new Parent; shared with OneNoteApplication. */
  method RelinkParent(p: S.UnknownElements, store: Store, r: Ref, xml: seq<Token>) returns (res: Result<Option<Ref>>)
    requires r in store.items
    modifies store
    ensures var (spec, b) := Relinked(p, old(store.State()), r, xml);
            res == spec && (b.Some? ==> store.State() == b.value)
    ensures store.roots == old(store.roots)
  {
    var k := store.items[r].KindOf();
    var parsed := P.Parse(p, store, xml, None);
    if parsed.Failure? {
      return Failure(parsed.error);
    }
    if !Fits(store.State(), k, parsed.value) {
      return Failure(InvalidCast);
    }
    store.AssignParent(r, Some(parsed.value));
    return Success(Some(parsed.value));
  }

  method GetAndUpdateParent(p: S.UnknownElements, session: ComSession, store: Store, item: Option<Ref>,
                            force: bool, fetched: Result<seq<Token>>) returns (res: Result<Option<Ref>>)
    requires item.Some? ==> item.value in store.items
    modifies session, store
    ensures Leaves(ParentOutcome(p, old(session.mode), old(session.State()), old(store.State()), item, force, fetched),
                   res, session.State(), store.State())
    ensures session.mode == old(session.mode) && store.roots == old(store.roots)
  {
    if item.None? {
      return Failure(ArgumentNull);
    }
    var r := item.value;
    if store.items[r].body.Notebook? {
      return Success(None);
    }
    if !force && store.items[r].Parent().Some? {
      return Success(store.items[r].Parent());
    }
    var xml, _ := session.Run(fetched);
    if xml.Failure? {
      return Failure(xml.error);
    }
    res := RelinkParent(p, store, r, xml.value);
  }

  method DeleteItem(session: ComSession, store: Store, item: Option<Ref>, deleted: Result<()>) returns (res: Result<()>)
    requires item.Some? ==> item.value in store.items && ParentKnown(store.State(), item.value)
    requires item.Some? ==> E.IsDeletable(store.items[item.value].KindOf())
    modifies session, store
    ensures Leaves(DeleteOutcome(old(session.mode), old(session.State()), old(store.State()), item, deleted),
                   res, session.State(), store.State())
    ensures session.mode == old(session.mode) && store.roots == old(store.roots)
  {
    if item.None? {
      return Failure(ArgumentNull);
    }
    var r := item.value;
    if E.IsInRecycleBin(store.items[r]) {
      return Success(());
    }
    var answer, _ := session.Run(deleted);
    if answer.Failure? {
      return answer;
    }
    var it := store.items[r];
    if it.Parent().None? {
      return Failure(NullReference);
    }
    var par := it.Parent().value;
    var parent := store.items[par];
    store.PutItem(par, parent.(body := RemoveChild(parent.body, it.KindOf(), r)));
    return Success(());
  }

  method RenameItem(session: ComSession, store: Store, item: Option<Ref>, newName: Option<string>, failing: Option<nat>,
                    element: Result<seq<Attr>>, title: Result<()>)
    returns (res: Result<()>)
    requires item.Some? ==> item.value in store.items
    modifies session, store
    ensures Leaves(RenameOutcome(old(session.mode), old(session.State()), old(store.State()), item, newName, failing, element, title),
                   res, session.State(), store.State())
    ensures session.mode == old(session.mode) && store.roots == old(store.roots)
  {
    var guard := V.IfNull(item);
    if guard.Failure? {
      return guard;
    }
    guard := V.IfNullOrWhiteSpace(newName);
    if guard.Failure? {
      return guard;
    }
    var r := item.value;
    if E.IsInRecycleBin(store.items[r]) {
      return Failure(ArgumentInvalid);
    }
    var k := store.items[r].KindOf();
    if k == SectionGroupKind || k == SectionKind {
      guard := V.IfInvalidName(k, newName);
      if guard.Failure? {
        return guard;
      }
    }
    var answer, invoked := session.Run(RenameAnswer(k, failing, element, title));
    if invoked && WritesName(k, failing, element, title) {
      store.PutItem(r, Renamed(store.items[r], newName.value));
    }
    res := answer;
  }

  /** Partial.GetHierarchy(depth): fetch through Run, then ParseRoot. */
  method GetHierarchy(p: S.UnknownElements, session: ComSession, store: Store, fetched: Result<seq<Token>>)
    returns (res: Result<Ref>)
    modifies session, store
    ensures var run := RunCall(old(session.mode), old(session.State()), fetched);
            session.State() == run.handle &&
            (run.answer.Failure? ==> res == Failure(run.answer.error) && store.State() == old(store.State()) &&
                                     store.roots == old(store.roots)) &&
            (run.answer.Success? ==>
               var spec := S.ParseRoot(p, old(store.State()), run.answer.value);
               res.Success? == spec.Success? &&
               (spec.Success? ==> res.value == spec.value.rootRef && store.State() == spec.value.arena &&
                                  store.roots == old(store.roots)[res.value := spec.value.root]) &&
               (spec.Failure? ==> res.error == spec.error))
  {
    var xml, _ := session.Run(fetched);
    if xml.Failure? {
      return Failure(xml.error);
    }
    res := P.ParseRootXml(p, store, xml.value);
  }

  method GetChildren(p: S.UnknownElements, session: ComSession, store: Store, item: Option<Ref>,
                     fetched: Result<seq<Token>>) returns (res: Result<seq<Ref>>)
    requires Allocated(store.State()) && (item.Some? ==> item.value in store.items)
    modifies session, store
    ensures Leaves(GetChildrenOutcome(p, old(session.mode), old(session.State()), old(store.State()), item, fetched),
                   res, session.State(), store.State())
    ensures store.roots == old(store.roots)
  {
    if item.None? {
      return Failure(ArgumentNull);
    }
    if store.items[item.value].body.Page? {
      return Success([]);
    }
    ghost var a := store.State();
    var xml, _ := session.Run(fetched);
    if xml.Failure? {
      return Failure(xml.error);
    }
    R.ParseFacts(p, a, xml.value, None);
    var parsed := P.Parse(p, store, xml.value, None);
    if parsed.Failure? {
      return Failure(parsed.error);
    }
    return Success(store.items[parsed.value].Children());
  }

  method GetParent(p: S.UnknownElements, session: ComSession, store: Store, item: Option<Ref>,
                   fetched: Result<seq<Token>>) returns (res: Result<Option<Ref>>)
    requires item.Some? ==> item.value in store.items
    modifies session, store
    ensures Leaves(GetParentOutcome(p, old(session.mode), old(session.State()), old(store.State()), item, fetched),
                   res, session.State(), store.State())
    ensures store.roots == old(store.roots)
  {
    if item.None? {
      return Failure(ArgumentNull);
    }
    if store.items[item.value].body.Notebook? {
      return Success(None);
    }
    var xml, _ := session.Run(fetched);
    if xml.Failure? {
      return Failure(xml.error);
    }
    var parsed := P.Parse(p, store, xml.value, None);
    if parsed.Failure? {
      return Failure(parsed.error);
    }
    return Success(Some(parsed.value));
  }

  // ---------------------------------------------------------------------
  // Properties.

  /** Clearing empties the item's lists and keeps its kind, Parent, root and every other item. */
  lemma ClearedFacts(a: Arena, r: Ref)
    requires r in a.items
    ensures var c := Cleared(a, r);
            Extends(a, c, r) && c.items[r].Children() == [] && ChildrenLinked(c, r) &&
            c.items[r].KindOf() == a.items[r].KindOf() && c.items[r].Parent() == a.items[r].Parent() &&
            c.items[r].RootRef() == a.items[r].RootRef() && (Allocated(a) ==> Allocated(c))
  {
  }

  /**
   * A refresh that succeeds changes only the item and new items; the item
   * keeps its kind, Parent and root. After clearing, every child in the
   * item's lists is linked to it; without clearing, the old lists are a
   * prefix of the new ones (children read again are added a second time).
   * A fetch that fails leaves the lists cleared (or untouched).
   */
  lemma RefreshFacts(p: S.UnknownElements, mode: ComObjectMode, h: Handle, a: Arena, r: Ref,
                     clearFirst: bool, fetched: Result<seq<Token>>)
    requires Allocated(a) && r in a.items
    ensures var o := RefreshOutcome(p, mode, h, a, r, clearFirst, fetched);
            (o.res.Success? ==>
               o.arena.Some? && var b := o.arena.value;
               Extends(a, b, r) && Allocated(b) && r in b.items &&
               b.items[r].KindOf() == a.items[r].KindOf() && b.items[r].Parent() == a.items[r].Parent() &&
               b.items[r].RootRef() == a.items[r].RootRef() &&
               (clearFirst ==> ChildrenLinked(b, r)) &&
               (!clearFirst ==> ChildrenAppended(a, b, r) && (ChildrenLinked(a, r) ==> ChildrenLinked(b, r)))) &&
            (RunCall(mode, h, fetched).answer.Failure? ==>
               o.res.Failure? && o.arena == Some(if clearFirst then Cleared(a, r) else a)) &&
            o.handle == RunCall(mode, h, fetched).handle
  {
    var c := if clearFirst then Cleared(a, r) else a;
    ClearedFacts(a, r);
    var run := RunCall(mode, h, fetched);
    if run.answer.Success? {
      R.ParseExistingFacts(p, c, run.answer.value, r);
      var res := S.ParseExisting(p, c, run.answer.value, r);
      if res.Success? && clearFirst {
        ExtendsTrans(a, c, res.value, r);
      }
    }
  }

  /**
   * UpdateDescendants: a null item is an ArgumentNull error; without a fetch
   * nothing changes and no store call is made; with one the item is cleared
   * and refilled, and on success the same item comes back with its lists
   * linked to it.
   */
  lemma UpdateDescendantsPolicy(p: S.UnknownElements, mode: ComObjectMode, h: Handle, a: Arena, item: Option<Ref>,
                                depth: HierarchyScope, force: bool, fetched: Result<seq<Token>>)
    requires Allocated(a) && (item.Some? ==> item.value in a.items)
    ensures var o := UpdateDescendantsOutcome(p, mode, h, a, item, depth, force, fetched);
            (item.None? ==> o == Outcome(Failure(ArgumentNull), h, Some(a))) &&
            (item.Some? && !FetchesDescendants(a, item.value, depth, force) ==> o == Outcome(Success(item.value), h, Some(a))) &&
            (o.res.Success? ==> o.res.value == item.value) &&
            (item.Some? && FetchesDescendants(a, item.value, depth, force) && o.res.Success? ==>
               var b := o.arena.value;
               Extends(a, b, item.value) && ChildrenLinked(b, item.value) &&
               b.items[item.value].Parent() == a.items[item.value].Parent())
  {
    if item.Some? && FetchesDescendants(a, item.value, depth, force) {
      RefreshFacts(p, mode, h, a, item.value, true, fetched);
    }
  }

  /**
   * GetAndUpdateChildren against OneNoteApplication's GetChildrenAndUpdate:
   * both skip pages and items with cached children; on a fetch the first
   * starts from empty lists, the second appends to the cached ones.
   */
  lemma ChildrenPolicy(p: S.UnknownElements, mode: ComObjectMode, h: Handle, a: Arena, r: Ref, force: bool,
                       fetched: Result<seq<Token>>)
    requires Allocated(a) && r in a.items
    ensures var cleared := ChildrenOutcome(p, mode, h, a, Some(r), force, true, fetched);
            var kept := ChildrenOutcome(p, mode, h, a, Some(r), force, false, fetched);
            (!FetchesChildren(a, r, force) ==> cleared == kept == Outcome(Success(()), h, Some(a))) &&
            (FetchesChildren(a, r, force) && cleared.res.Success? ==>
               cleared.arena.Some? && r in cleared.arena.value.items && ChildrenLinked(cleared.arena.value, r)) &&
            (FetchesChildren(a, r, force) && kept.res.Success? ==>
               kept.arena.Some? && r in kept.arena.value.items && ChildrenAppended(a, kept.arena.value, r))
  {
    if FetchesChildren(a, r, force) {
      RefreshFacts(p, mode, h, a, r, true, fetched);
      RefreshFacts(p, mode, h, a, r, false, fetched);
    }
  }

  /**
   * A re-link that succeeds gives the item a new parent of the kind its
   * cast demands, and keeps its kind and lists; nothing else changes but
   * new items.
   */
  lemma RelinkedFacts(p: S.UnknownElements, a: Arena, r: Ref, xml: seq<Token>)
    requires Allocated(a) && r in a.items && !a.items[r].body.Notebook?
    ensures var (res, b) := Relinked(p, a, r, xml);
            res.Success? ==>
              res.value.Some? && b.Some? && r in b.value.items &&
              var x := res.value.value;
              x !in a.items && Extends(a, b.value, r) && b.value.items[r].Parent() == Some(x) &&
              Fits(b.value, a.items[r].KindOf(), x) && b.value.items[r].KindOf() == a.items[r].KindOf() &&
              b.value.items[r].Children() == a.items[r].Children()
  {
    match S.Parse(p, a, xml, None)
    case Failure(_) =>
    case Success(parsed) =>
      R.ParseFacts(p, a, xml, None);
      var b0, x := parsed.arena, parsed.item;
      if Fits(b0, a.items[r].KindOf(), x) {
        assert r in b0.items && b0.items[r] == a.items[r];
        SetParentKeeps(b0, r, Some(x));
        GrowsThenExtends(a, b0, SetParent(b0, r, Some(x)), r);
      }
  }

  /** `item.Parent = parent` on a non-notebook changes only that item's Parent. */
  lemma SetParentKeeps(a: Arena, r: Ref, parent: Option<Ref>)
    requires r in a.items && !a.items[r].body.Notebook?
    ensures var b := SetParent(a, r, parent);
            Extends(a, b, r) && r in b.items && b.items[r].Parent() == parent &&
            b.items[r].KindOf() == a.items[r].KindOf() && b.items[r].Children() == a.items[r].Children() &&
            (forall x | x in a.items && x != r && Fits(a, PageKind, x) :: Fits(b, PageKind, x)) &&
            (forall x | x in a.items && x != r && Fits(a, SectionKind, x) :: Fits(b, SectionKind, x))
  {
  }

  /**
   * GetAndUpdateParent: a notebook has no parent and a cached parent is
   * returned unless forced, both without a store call. A re-link gives the
   * item a new parent of the kind its cast demands, and keeps its kind and
   * lists; nothing else changes but new items.
   */
  lemma ParentPolicy(p: S.UnknownElements, mode: ComObjectMode, h: Handle, a: Arena, r: Ref, force: bool,
                     fetched: Result<seq<Token>>)
    requires Allocated(a) && r in a.items
    ensures var o := ParentOutcome(p, mode, h, a, Some(r), force, fetched);
            (a.items[r].body.Notebook? ==> o == Outcome(Success(None), h, Some(a))) &&
            (!a.items[r].body.Notebook? && !force && a.items[r].Parent().Some? ==>
               o == Outcome(Success(a.items[r].Parent()), h, Some(a))) &&
            (FetchesParent(a, r, force) && o.res.Success? ==>
               o.res.value.Some? && o.arena.Some? &&
               var b, x := o.arena.value, o.res.value.value;
               x !in a.items && Extends(a, b, r) && r in b.items && b.items[r].Parent() == Some(x) &&
               Fits(b, a.items[r].KindOf(), x) &&
               b.items[r].KindOf() == a.items[r].KindOf() && b.items[r].Children() == a.items[r].Children())
  {
    var run := RunCall(mode, h, fetched);
    if run.answer.Success? && !a.items[r].body.Notebook? {
      RelinkedFacts(p, a, r, run.answer.value);
    }
  }

  /**
   * A re-link keeps every Parent chain finite, even though the new parent is
   * allocated after the item: it is parsed with no Parent of its own, so the
   * item's Ancestors are then that parent alone.
   */
  lemma RelinkedAcyclic(p: S.UnknownElements, a: Arena, r: Ref, xml: seq<Token>)
    requires Axes.ParentsAcyclic(a) && Allocated(a) && r in a.items && !a.items[r].body.Notebook?
    ensures var (res, b) := Relinked(p, a, r, xml);
            b.Some? ==> Axes.ParentsAcyclic(b.value) && Allocated(b.value) && r in b.value.items
    ensures var (res, b) := Relinked(p, a, r, xml);
            res.Success? ==> b.Some? && res.value.Some? && r in b.value.items &&
                             Axes.ParentsAcyclic(b.value) && Axes.AncestorsOf(b.value, r) == [res.value.value]
  {
    match S.Parse(p, a, xml, None)
    case Failure(_) =>
    case Success(parsed) =>
      PC.ParseAcyclic(p, a, xml, None);
      R.ParseFacts(p, a, xml, None);
      var b0, x := parsed.arena, parsed.item;
      assert b0.items[x].Parent() == None && r in b0.items && x != r;
      if Fits(b0, a.items[r].KindOf(), x) {
        PC.HangUnderTop(b0, r, x);
      }
  }

  /** After GetAndUpdateParent every Parent chain is still finite, whichever branch was taken. */
  lemma ParentOutcomeAcyclic(p: S.UnknownElements, mode: ComObjectMode, h: Handle, a: Arena, item: Option<Ref>,
                             force: bool, fetched: Result<seq<Token>>)
    requires Axes.ParentsAcyclic(a) && Allocated(a) && (item.Some? ==> item.value in a.items)
    ensures var o := ParentOutcome(p, mode, h, a, item, force, fetched);
            o.arena.Some? ==> Axes.ParentsAcyclic(o.arena.value) && Allocated(o.arena.value)
  {
    if item.Some? && !a.items[item.value].body.Notebook? {
      var run := RunCall(mode, h, fetched);
      if run.answer.Success? {
        RelinkedAcyclic(p, a, item.value, run.answer.value);
      }
    }
  }

  /** Clearing an item's lists and parsing into it again keeps every Parent chain finite. */
  lemma RefreshAcyclic(p: S.UnknownElements, mode: ComObjectMode, h: Handle, a: Arena, r: Ref,
                       clearFirst: bool, fetched: Result<seq<Token>>)
    requires Axes.ParentsAcyclic(a) && Allocated(a) && r in a.items
    ensures var o := RefreshOutcome(p, mode, h, a, r, clearFirst, fetched);
            o.arena.Some? ==> Axes.ParentsAcyclic(o.arena.value) && Allocated(o.arena.value)
  {
    var c := if clearFirst then Cleared(a, r) else a;
    if clearFirst {
      assert PC.SameParents(a, c) by {
        assert LinksOf(ClearedBody(a.items[r].body)).parent == a.items[r].Parent();
      }
      PC.SameParentsAcyclic(a, c);
    }
    var run := RunCall(mode, h, fetched);
    if run.answer.Success? {
      PC.ParseExistingAcyclic(p, c, run.answer.value, r);
    }
  }

  /** UpdateDescendants and GetAndUpdateChildren refresh the item, so they keep every Parent chain finite. */
  lemma UpdatesAcyclic(p: S.UnknownElements, mode: ComObjectMode, h: Handle, a: Arena, item: Option<Ref>,
                       depth: HierarchyScope, force: bool, clearFirst: bool, fetched: Result<seq<Token>>)
    requires Axes.ParentsAcyclic(a) && Allocated(a) && (item.Some? ==> item.value in a.items)
    ensures var o := UpdateDescendantsOutcome(p, mode, h, a, item, depth, force, fetched);
            o.arena.Some? ==> Axes.ParentsAcyclic(o.arena.value) && Allocated(o.arena.value)
    ensures var o := ChildrenOutcome(p, mode, h, a, item, force, clearFirst, fetched);
            o.arena.Some? ==> Axes.ParentsAcyclic(o.arena.value) && Allocated(o.arena.value)
  {
    if item.Some? {
      RefreshAcyclic(p, mode, h, a, item.value, true, fetched);
      RefreshAcyclic(p, mode, h, a, item.value, clearFirst, fetched);
    }
  }

  /**
   * GetChildren and GetParent only add a freshly parsed item with no Parent
   * of its own, so they keep every Parent chain finite.
   */
  lemma CopiesAcyclic(p: S.UnknownElements, mode: ComObjectMode, h: Handle, a: Arena, item: Option<Ref>,
                      fetched: Result<seq<Token>>)
    requires Axes.ParentsAcyclic(a) && Allocated(a) && (item.Some? ==> item.value in a.items)
    ensures var o := GetChildrenOutcome(p, mode, h, a, item, fetched);
            o.arena.Some? ==> Axes.ParentsAcyclic(o.arena.value) && Allocated(o.arena.value)
    ensures var o := GetParentOutcome(p, mode, h, a, item, fetched);
            o.arena.Some? ==> Axes.ParentsAcyclic(o.arena.value) && Allocated(o.arena.value)
  {
    var run := RunCall(mode, h, fetched);
    if item.Some? && run.answer.Success? {
      PC.ParseAcyclic(p, a, run.answer.value, None);
    }
  }

  /**
   * RenameItem's checks, in order, before any store call: a null item or name
   * is ArgumentNull; a blank name, an item in the recycle bin and, for a
   * section group or section only, a name with a forbidden character are
   * ArgumentInvalid. A notebook or page passes with any non-blank name.
   */
  lemma RenameGuardRules(a: Arena, item: Option<Ref>, newName: Option<string>)
    requires item.Some? ==> item.value in a.items
    ensures item.None? ==> RenameGuard(a, item, newName) == Failure(ArgumentNull)
    ensures item.Some? && newName.None? ==> RenameGuard(a, item, newName) == Failure(ArgumentNull)
    ensures item.Some? && newName.Some? && V.IsNullOrWhiteSpace(newName) ==> RenameGuard(a, item, newName) == Failure(ArgumentInvalid)
    ensures item.Some? && !V.IsNullOrWhiteSpace(newName) && E.IsInRecycleBin(a.items[item.value]) ==>
              RenameGuard(a, item, newName) == Failure(ArgumentInvalid)
    ensures item.Some? && !E.IsInRecycleBin(a.items[item.value]) ==>
              var k := a.items[item.value].KindOf();
              (k == SectionGroupKind || k == SectionKind ==>
                 (RenameGuard(a, item, newName).Success? <==> V.IsValidName(k, newName))) &&
              (k == NotebookKind || k == PageKind ==>
                 (RenameGuard(a, item, newName).Success? <==> !V.IsNullOrWhiteSpace(newName)))
  {
  }

  /**
   * A rejected rename changes nothing and makes no store call. Otherwise the
   * item's own field is written once the action gets that far, even when a
   * later store call throws; a notebook's DisplayName changes, not its Name,
   * and every other kind's Name; the item's links and every other item stay.
   * A fetched hierarchy that does not parse, a fetched element without the
   * attribute the action sets (NullReferenceException) and a page without a
   * readable title stop the action before the write, and nothing changes.
   */
  lemma RenameEffect(mode: ComObjectMode, h: Handle, a: Arena, r: Ref, newName: Option<string>, failing: Option<nat>,
                     element: Result<seq<Attr>>, title: Result<()>)
    requires r in a.items
    ensures var o := RenameOutcome(mode, h, a, Some(r), newName, failing, element, title);
            (RenameGuard(a, Some(r), newName).Failure? ==> o.handle == h && o.arena == Some(a) && o.res.Failure?) &&
            (o.res.Success? ==>
               newName.Some? && o.arena.Some? && r in o.arena.value.items &&
               var it, it' := a.items[r], o.arena.value.items[r];
               Extends(a, o.arena.value, r) && o.arena.value.next == a.next && SameLinks(it, it') &&
               (it.body.Notebook? ==> it'.body.displayName == newName.value && it'.name == it.name) &&
               (!it.body.Notebook? ==> it'.name == newName.value))
    ensures RenameGuard(a, Some(r), newName).Success? && Enter(mode, h).Success? ==>
              var o := RenameOutcome(mode, h, a, Some(r), newName, failing, element, title);
              var k := a.items[r].KindOf();
              (failing == Some(CallsBeforeWrite(k)) && Editable(k, element, title) ==>
                 o.res == Failure(StoreFailure) && o.arena == Some(Put(a, r, Renamed(a.items[r], newName.value)))) &&
              (failing != Some(0) && element.Failure? ==> o.res == Failure(element.error) && o.arena == Some(a)) &&
              (failing != Some(0) && element.Success? && RenamedAttr(k).Some? &&
               D.AttributeValue(element.value, RenamedAttr(k).value).None? ==>
                 o.res == Failure(NullReference) && o.arena == Some(a)) &&
              (k == PageKind && failing != Some(0) && failing != Some(1) && element.Success? && title.Failure? ==>
                 o.res == title && o.arena == Some(a))
  {
  }

  /** The parent's list that can hold a child of kind `k`. */
  predicate HasList(b: Body, k: Kind) {
    if k == PageKind then b.Section? else (k == SectionKind || k == SectionGroupKind) && (b.Notebook? || b.SectionGroup?)
  }

  /**
   * DeleteItem: an item in the recycle bin is left alone without a store
   * call. A deletion that succeeds takes the first occurrence of the item
   * out of its parent's list for its kind and nothing else: the item itself
   * keeps its Parent, and the parent's other lists stay.
   */
  lemma DeleteEffect(mode: ComObjectMode, h: Handle, a: Arena, r: Ref, deleted: Result<()>)
    requires r in a.items && ParentKnown(a, r) && E.IsDeletable(a.items[r].KindOf())
    ensures var o := DeleteOutcome(mode, h, a, Some(r), deleted);
            (E.IsInRecycleBin(a.items[r]) ==> o == Outcome(Success(()), h, Some(a))) &&
            (!E.IsInRecycleBin(a.items[r]) && RunCall(mode, h, deleted).answer.Success? && a.items[r].Parent().None? ==>
               o.res == Failure(NullReference) && o.arena == Some(a)) &&
            (o.res.Success? && !E.IsInRecycleBin(a.items[r]) ==>
               a.items[r].Parent().Some? && o.arena.Some? &&
               var par, k, b := a.items[r].Parent().value, a.items[r].KindOf(), o.arena.value;
               par in b.items && Extends(a, b, par) && b.items[r] == a.items[r] &&
               (HasList(a.items[par].body, k) ==>
                  ListOf(b.items[par].body, k) == Collections.RemoveFirst(ListOf(a.items[par].body, k), r)) &&
               (forall k2 | k2 != k :: ListOf(b.items[par].body, k2) == ListOf(a.items[par].body, k2)))
  {
    if !E.IsInRecycleBin(a.items[r]) && a.items[r].Parent().Some? {
      var par := a.items[r].Parent().value;
      RemoveChildLists(a.items[par].body, a.items[r].KindOf(), r);
    }
  }

  /** RemoveChild rewrites the list for `k` alone. */
  lemma RemoveChildLists(b: Body, k: Kind, x: Ref)
    ensures HasList(b, k) ==> ListOf(RemoveChild(b, k, x), k) == Collections.RemoveFirst(ListOf(b, k), x)
    ensures forall k2 | k2 != k :: ListOf(RemoveChild(b, k, x), k2) == ListOf(b, k2)
  {
  }
}
