/**
 * The operations of the OneNoteApplication facade that touch the in-memory
 * hierarchy: RenameItem, the CreateItem guard and the Partial methods. Every
 * store call reads the OneNote property, so the handle is created by the
 * first call and never released here; a call is a Lazy Run. What the store
 * answers is a parameter, as for the OneNote facade.
 */
module ApplicationFacade {
  import opened Base
  import opened Xml
  import opened Hierarchy
  import opened ComLifecycle
  import S = XmlReaderSpec
  import P = XmlParserXmlReader
  import R = XmlReaderProperties
  import V = Validation
  import E = ItemExtensions
  import D = XElementSpec
  import F = OneNoteFacade

  // ---------------------------------------------------------------------
  // The Partial methods.

  method GetChildrenAndUpdate(p: S.UnknownElements, app: LazyApplication, store: Store, item: Option<Ref>,
                              force: bool, fetched: Result<seq<Token>>) returns (res: Result<seq<Ref>>)
    requires Allocated(store.State()) && (item.Some? ==> item.value in store.items)
    modifies app, store
    ensures var o := F.ChildrenOutcome(p, Lazy, old(app.State()), old(store.State()), item, force, false, fetched);
            app.State() == o.handle && (o.arena.Some? ==> store.State() == o.arena.value) &&
            (o.res.Failure? ==> res == Failure(o.res.error)) &&
            (o.res.Success? ==> item.value in store.items && res == Success(store.items[item.value].Children()))
    ensures store.roots == old(store.roots)
  {
    if item.None? {
      return Failure(ArgumentNull);
    }
    var r := item.value;
    if store.items[r].body.Page? {
      assert store.items[r].Children() == [];
      return Success([]);
    }
    if !force && |store.items[r].Children()| != 0 {
      return Success(store.items[r].Children());
    }
    F.RefreshFacts(p, Lazy, app.State(), store.State(), r, false, fetched);
    var read := app.OneNote();
    if read.Failure? {
      return Failure(read.error);
    }
    if fetched.Failure? {
      return Failure(fetched.error);
    }
    var parsed := P.ParseExisting(p, store, fetched.value, r);
    if parsed.Failure? {
      return Failure(parsed.error);
    }
    return Success(store.items[r].Children());
  }

  method GetParentAndUpdate(p: S.UnknownElements, app: LazyApplication, store: Store, item: Option<Ref>,
                            force: bool, fetched: Result<seq<Token>>) returns (res: Result<Option<Ref>>)
    requires item.Some? ==> item.value in store.items
    modifies app, store
    ensures F.Leaves(F.ParentOutcome(p, Lazy, old(app.State()), old(store.State()), item, force, fetched),
                     res, app.State(), store.State())
    ensures store.roots == old(store.roots)
  {
    if item.None? {
      return Failure(ArgumentNull);
    }
    var r := item.value;
    if store.items[r].body.Notebook? {
      return Success(None);
    }
    if !force && store.items[r].Parent().Some? {
      return Success(store.items[r].Parent());
    }
    var read := app.OneNote();
    if read.Failure? {
      return Failure(read.error);
    }
    if fetched.Failure? {
      return Failure(fetched.error);
    }
    res := F.RelinkParent(p, store, r, fetched.value);
  }

  method GetParent(p: S.UnknownElements, app: LazyApplication, store: Store, item: Option<Ref>,
                   fetched: Result<seq<Token>>) returns (res: Result<Option<Ref>>)
    requires item.Some? ==> item.value in store.items
    modifies app, store
    ensures F.Leaves(F.GetParentOutcome(p, Lazy, old(app.State()), old(store.State()), item, fetched),
                     res, app.State(), store.State())
    ensures store.roots == old(store.roots)
  {
    if item.None? {
      return Failure(ArgumentNull);
    }
    if store.items[item.value].body.Notebook? {
      return Success(None);
    }
    var read := app.OneNote();
    if read.Failure? {
      return Failure(read.error);
    }
    if fetched.Failure? {
      return Failure(fetched.error);
    }
    var parsed := P.Parse(p, store, fetched.value, None);
    if parsed.Failure? {
      return Failure(parsed.error);
    }
    return Success(Some(parsed.value));
  }

  /** Partial.GetHierarchy(scope): fetch, then ParseRoot. */
  method GetHierarchy(p: S.UnknownElements, app: LazyApplication, store: Store, fetched: Result<seq<Token>>)
    returns (res: Result<Ref>)
    modifies app, store
    ensures app.State() == Acquire(old(app.State()))
    ensures !Available(old(app.State())) ==>
              res == Failure(NoApplication) && store.State() == old(store.State()) && store.roots == old(store.roots)
    ensures Available(old(app.State())) && fetched.Failure? ==>
              res == Failure(fetched.error) && store.State() == old(store.State()) && store.roots == old(store.roots)
    ensures Available(old(app.State())) && fetched.Success? ==>
              var spec := S.ParseRoot(p, old(store.State()), fetched.value);
              res.Success? == spec.Success? &&
              (spec.Success? ==> res.value == spec.value.rootRef && store.State() == spec.value.arena &&
                                 store.roots == old(store.roots)[res.value := spec.value.root]) &&
              (spec.Failure? ==> res.error == spec.error)
  {
    var read := app.OneNote();
    if read.Failure? {
      return Failure(read.error);
    }
    if fetched.Failure? {
      return Failure(fetched.error);
    }
    res := P.ParseRootXml(p, store, fetched.value);
  }

  /**
   * Partial.GetChildren(item) as written: the fetched element is parsed with
   * the item itself as its parent.
   */
  function GetChildrenAsWritten(p: S.UnknownElements, h: Handle, a: Arena, item: Option<Ref>,
                                fetched: Result<seq<Token>>): F.Outcome<seq<Ref>>
    requires Allocated(a) && (item.Some? ==> item.value in a.items)
  {
    if item.None? then F.Outcome(Failure(ArgumentNull), h, Some(a))
    else if a.items[item.value].body.Page? then F.Outcome(Success([]), h, Some(a))
    else if !Available(h) then F.Outcome(Failure(NoApplication), Acquire(h), Some(a))
    else
      match fetched
      case Failure(e) => F.Outcome(Failure(e), Acquire(h), Some(a))
      case Success(xml) =>
        var (res, b) := F.ParsedChildren(p, a, xml, item);
        F.Outcome(res, Acquire(h), b)
  }

  /**
   * Partial.GetChildren(item), corrected: the fetched element is parsed
   * without a parent, as the OneNote facade does.
   */
  method GetChildren(p: S.UnknownElements, app: LazyApplication, store: Store, item: Option<Ref>,
                     fetched: Result<seq<Token>>) returns (res: Result<seq<Ref>>)
    requires Allocated(store.State()) && (item.Some? ==> item.value in store.items)
    modifies app, store
    ensures F.Leaves(F.GetChildrenOutcome(p, Lazy, old(app.State()), old(store.State()), item, fetched),
                     res, app.State(), store.State())
    ensures store.roots == old(store.roots)
  {
    if item.None? {
      return Failure(ArgumentNull);
    }
    if store.items[item.value].body.Page? {
      return Success([]);
    }
    ghost var a := store.State();
    var read := app.OneNote();
    if read.Failure? {
      return Failure(read.error);
    }
    if fetched.Failure? {
      return Failure(fetched.error);
    }
    R.ParseFacts(p, a, fetched.value, None);
    var parsed := P.Parse(p, store, fetched.value, None);
    if parsed.Failure? {
      return Failure(parsed.error);
    }
    return Success(store.items[parsed.value].Children());
  }

  // ---------------------------------------------------------------------
  // RenameItem.

  /** `doc.Descendants()` from an element: the element and every element below it, in document order. */
  function Descendants(n: Node): (r: seq<Node>)
    ensures n.Element? ==> r != [] && r[0] == n
    ensures n.Text? ==> r == []
    decreases n, 1
  {
    match n
    case Text => []
    case Element(_, _, children) => [n] + DescendantsSeq(children)
  }

  function DescendantsSeq(ns: seq<Node>): seq<Node>
    decreases ns, 0
  {
    if ns == [] then [] else Descendants(ns[0]) + DescendantsSeq(ns[1..])
  }

  /**
   * `(string)e.Attribute("ID") == id`. A missing attribute reads as null, and
   * null equals null, so an item whose Id was never set (`None`) matches
   * every element without an ID, the document's root first of all.
   */
  predicate HasId(n: Node, id: Option<string>) {
    n.Element? && D.AttributeValue(n.attrs, IdAttr) == id
  }

  /** FirstOrDefault on the ID test: the position of the first node with that ID, if any. */
  function FirstWithId(ns: seq<Node>, id: Option<string>): (r: Option<nat>)
    ensures r.Some? ==> r.value < |ns| && HasId(ns[r.value], id) &&
                        forall j | 0 <= j < r.value :: !HasId(ns[j], id)
    ensures r.None? <==> forall j | 0 <= j < |ns| :: !HasId(ns[j], id)
  {
    if ns == [] then None
    else if HasId(ns[0], id) then Some(0)
    else
      match FirstWithId(ns[1..], id)
      case None => None
      case Some(i) => Some(i + 1)
  }

  /**
   * OneNoteApplication.RenameItem(item, newName): `doc` is the store's
   * answer to GetHierarchy read as a document (or the store or XML error),
   * `updated` the answer to UpdateHierarchy. There is no name check; the
   * item's Name is set for every kind, a notebook's included.
   */
  function RenameOutcome(h: Handle, a: Arena, item: Option<Ref>, newName: Option<string>,
                         doc: Result<Node>, updated: Result<()>): F.Outcome<()>
    requires item.Some? ==> item.value in a.items
  {
    if item.Some? && E.IsInRecycleBin(a.items[item.value]) then F.Outcome(Failure(ArgumentInvalid), h, Some(a))
    else if !Available(h) then F.Outcome(Failure(NoApplication), Acquire(h), Some(a))
    else
      var h1 := Acquire(h);
      match doc
      case Failure(e) => F.Outcome(Failure(e), h1, Some(a))
      case Success(d) =>
        var elements := Descendants(d);
        if item.None? then F.Outcome(if elements == [] then Success(()) else Failure(NullReference), h1, Some(a))
        else
          var r := item.value;
          match FirstWithId(elements, a.items[r].id)
          case None => F.Outcome(Success(()), h1, Some(a))
          case Some(i) =>
            if D.AttributeValue(elements[i].attrs, NameAttr).None? then F.Outcome(Failure(NullReference), h1, Some(a))
            else if newName.None? then F.Outcome(Failure(ArgumentNull), h1, Some(a))
            else if updated.Failure? then F.Outcome(updated, h1, Some(a))
            else F.Outcome(Success(()), h1, Some(Put(a, r, a.items[r].(name := newName.value))))
  }

  method RenameItem(app: LazyApplication, store: Store, item: Option<Ref>, newName: Option<string>,
                    doc: Result<Node>, updated: Result<()>) returns (res: Result<()>)
    requires item.Some? ==> item.value in store.items
    modifies app, store
    ensures F.Leaves(RenameOutcome(old(app.State()), old(store.State()), item, newName, doc, updated),
                     res, app.State(), store.State())
    ensures store.roots == old(store.roots)
  {
    if item.Some? && E.IsInRecycleBin(store.items[item.value]) {
      return Failure(ArgumentInvalid);
    }
    var read := app.OneNote();
    if read.Failure? {
      return Failure(read.error);
    }
    if doc.Failure? {
      return Failure(doc.error);
    }
    var elements := Descendants(doc.value);
    if item.None? {
      if elements == [] {
        return Success(());
      }
      return Failure(NullReference);
    }
    var r := item.value;
    var found := FirstWithId(elements, store.items[r].id);
    if found.None? {
      return Success(());
    }
    if D.AttributeValue(elements[found.value].attrs, NameAttr).None? {
      return Failure(NullReference);
    }
    if newName.None? {
      return Failure(ArgumentNull);
    }
    if updated.Failure? {
      return updated;
    }
    store.PutItem(r, store.items[r].(name := newName.value));
    return Success(());
  }

  // ---------------------------------------------------------------------
  // CreateItem.

  /**
   * CreateItem<T>(parent, name, open, ...): the name is checked before any
   * store call; `created` is what OpenHierarchy answers (the new item's ID),
   * `navigated` what NavigateTo answers when the item is to be opened.
   */
  function CreateOutcome(h: Handle, k: Kind, name: Option<string>, open: bool,
                         created: Result<string>, navigated: Result<()>): (Result<string>, Handle)
    requires k != PageKind
  {
    if !V.IsValidName(k, name) then (Failure(ArgumentInvalid), h)
    else if !Available(h) then (Failure(NoApplication), Acquire(h))
    else
      match created
      case Failure(e) => (Failure(e), Acquire(h))
      case Success(id) =>
        if open && navigated.Failure? then (Failure(navigated.error), Acquire(h)) else (Success(id), Acquire(h))
  }

  method CreateItem(app: LazyApplication, k: Kind, name: Option<string>, open: bool,
                    created: Result<string>, navigated: Result<()>) returns (res: Result<string>)
    requires k != PageKind
    modifies app
    ensures (res, app.State()) == CreateOutcome(old(app.State()), k, name, open, created, navigated)
  {
    if !V.IsValidName(k, name) {
      return Failure(ArgumentInvalid);
    }
    var read := app.OneNote();
    if read.Failure? {
      return Failure(read.error);
    }
    if created.Failure? {
      return Failure(created.error);
    }
    if open {
      read := app.OneNote();
      if navigated.Failure? {
        return Failure(navigated.error);
      }
    }
    return created;
  }

  // ---------------------------------------------------------------------
  // Properties.

  /**
   * GetChildren as written fails on every section: the section element the
   * store returns is cast to a notebook or section group parent, and the
   * item passed as that parent is a section.
   */
  lemma SectionChildrenAsWrittenFail(p: S.UnknownElements, h: Handle, a: Arena, r: Ref, xml: seq<Token>)
    requires Allocated(a) && r in a.items && a.items[r].body.Section?
    requires xml != [] && xml[0].Start? && xml[0].name.local == SectionName
    ensures Available(h) ==> GetChildrenAsWritten(p, h, a, Some(r), Success(xml)) == F.Outcome(Failure(InvalidCast), Acquire(h), None)
  {
    R.ParseErrors(p, a, xml, Some(r));
  }

  /** An arena holding one section, as reference 0. */
  function OneSection(): Arena {
    Arena(map[0 := NewItem(SectionKind)], 1)
  }

  /** `<Section/>`, what the store returns for a section without pages. */
  const EmptySection: Token := Start(OneNote(SectionName), [], true)

  /**
   * On an empty section, the call as written throws InvalidCast; the
   * corrected call answers that the section has no children.
   */
  lemma EmptySectionChildren(p: S.UnknownElements, h: Handle)
    ensures Available(h) ==> GetChildrenAsWritten(p, h, OneSection(), Some(0), Success([EmptySection])).res == Failure(InvalidCast)
    ensures Available(h) ==> F.GetChildrenOutcome(p, Lazy, h, OneSection(), Some(0), Success([EmptySection])).res == Success([])
  {
    var a := OneSection();
    SectionChildrenAsWrittenFail(p, h, a, 0, [EmptySection]);
    var (a1, s) := Alloc(a, NewItem(SectionKind));
    var a2 := SetParent(a1, s, None);
    assert AttrsAt([EmptySection]) == [];
    assert S.SetAttributes(a2, s, [EmptySection]) == Success(Put(a2, s, a2.items[s]));
    R.ParseFacts(p, a, [EmptySection], None);
  }

  /**
   * Corrected, GetChildren agrees with the OneNote facade's in Lazy mode, and
   * what it returns are the children of a new item of the element's kind,
   * linked to that item, with no earlier item changed.
   */
  lemma GetChildrenFacts(p: S.UnknownElements, h: Handle, a: Arena, r: Ref, fetched: Result<seq<Token>>)
    requires Allocated(a) && r in a.items && !a.items[r].body.Page?
    ensures var o := F.GetChildrenOutcome(p, Lazy, h, a, Some(r), fetched);
            o.handle == Acquire(h) &&
            (!Available(h) ==> o == F.Outcome(Failure(NoApplication), Acquire(h), Some(a))) &&
            (Available(h) && fetched.Failure? ==> o == F.Outcome(Failure(fetched.error), Acquire(h), Some(a))) &&
            (o.res.Success? ==>
               fetched.Success? && o.arena.Some? &&
               var b := o.arena.value;
               Grows(a, b) && Allocated(b) &&
               exists x | x in b.items && x !in a.items :: o.res.value == b.items[x].Children() && ChildrenLinked(b, x))
  {
    if fetched.Success? {
      R.ParseFacts(p, a, fetched.value, None);
    }
  }

  /** The elements a document yields all are elements, the root first. */
  lemma {:induction false} DescendantsAreElements(n: Node)
    ensures forall i | 0 <= i < |Descendants(n)| :: Descendants(n)[i].Element?
    decreases n, 1
  {
    match n
    case Text =>
    case Element(_, _, children) =>
      DescendantsSeqAreElements(children);
  }

  lemma {:induction false} DescendantsSeqAreElements(ns: seq<Node>)
    ensures forall i | 0 <= i < |DescendantsSeq(ns)| :: DescendantsSeq(ns)[i].Element?
    decreases ns, 0
  {
    if ns != [] {
      DescendantsAreElements(ns[0]);
      DescendantsSeqAreElements(ns[1..]);
    }
  }

  /**
   * What RenameItem does: an item in the recycle bin is rejected before any
   * store call; otherwise the handle is acquired. When no element carries the
   * item's ID nothing changes. When the root element carries it, the item's
   * Name becomes the new name whatever characters it holds, and nothing else
   * changes. When the root element matches but has no name attribute, as the
   * hierarchy's root has none and matches an item whose Id was never set,
   * the call throws NullReferenceException and nothing changes.
   */
  lemma RenameEffect(h: Handle, a: Arena, r: Ref, newName: Option<string>, doc: Result<Node>, updated: Result<()>)
    requires r in a.items
    ensures var o := RenameOutcome(h, a, Some(r), newName, doc, updated);
            (E.IsInRecycleBin(a.items[r]) ==> o == F.Outcome(Failure(ArgumentInvalid), h, Some(a))) &&
            (!E.IsInRecycleBin(a.items[r]) ==> o.handle == Acquire(h)) &&
            (!E.IsInRecycleBin(a.items[r]) && !Available(h) ==> o == F.Outcome(Failure(NoApplication), Acquire(h), Some(a))) &&
            (Available(h) && doc.Success? && FirstWithId(Descendants(doc.value), a.items[r].id).None? && !E.IsInRecycleBin(a.items[r]) ==>
               o == F.Outcome(Success(()), Acquire(h), Some(a))) &&
            (o.arena.Some? && o.arena.value != a ==>
               o.res.Success? && newName.Some? && r in o.arena.value.items &&
               var it, it' := a.items[r], o.arena.value.items[r];
               Extends(a, o.arena.value, r) && it' == it.(name := newName.value)) &&
            (!E.IsInRecycleBin(a.items[r]) && Available(h) && doc.Success? && HasId(doc.value, a.items[r].id) &&
             D.AttributeValue(doc.value.attrs, NameAttr).Some? && newName.Some? && updated.Success? ==>
               o == F.Outcome(Success(()), Acquire(h), Some(Put(a, r, a.items[r].(name := newName.value))))) &&
            (!E.IsInRecycleBin(a.items[r]) && Available(h) && doc.Success? && HasId(doc.value, a.items[r].id) &&
             D.AttributeValue(doc.value.attrs, NameAttr).None? ==>
               o == F.Outcome(Failure(NullReference), Acquire(h), Some(a)))
  {
  }

  /**
   * An item whose Id was never set matches the first element without an ID,
   * which is the root of any document whose root carries no ID: renaming it
   * against the hierarchy's root (no ID, no name) throws NullReferenceException.
   */
  lemma RenameUnsetId(h: Handle, a: Arena, r: Ref, newName: Option<string>, d: Node, updated: Result<()>)
    requires r in a.items && a.items[r].id.None? && !E.IsInRecycleBin(a.items[r])
    requires d.Element? && D.AttributeValue(d.attrs, IdAttr).None? && D.AttributeValue(d.attrs, NameAttr).None?
    ensures var o := RenameOutcome(h, a, Some(r), newName, Success(d), updated);
            Available(h) ==> o == F.Outcome(Failure(NullReference), Acquire(h), Some(a))
  {
    assert FirstWithId(Descendants(d), None) == Some(0);
  }

  /**
   * The two facades rename a notebook differently: OneNoteApplication sets
   * its Name and leaves its DisplayName, OneNote sets its DisplayName and
   * leaves its Name.
   */
  lemma NotebookRenameDiffers(mode: ComObjectMode, h: Handle, a: Arena, r: Ref, newName: string, d: Node)
    requires r in a.items && a.items[r].body.Notebook?
    requires HasId(d, a.items[r].id) && D.AttributeValue(d.attrs, NameAttr).Some? && D.AttributeValue(d.attrs, NickNameAttr).Some?
    requires F.RenameGuard(a, Some(r), Some(newName)).Success? && Enter(mode, h).Success? && Available(h)
    ensures var app := RenameOutcome(h, a, Some(r), Some(newName), Success(d), Success(()));
            var one := F.RenameOutcome(mode, h, a, Some(r), Some(newName), None, Success(d.attrs), Success(()));
            app.res.Success? && one.res.Success? && app.arena.Some? && one.arena.Some? &&
            r in app.arena.value.items && r in one.arena.value.items &&
            app.arena.value.items[r].name == newName &&
            app.arena.value.items[r].body.displayName == a.items[r].body.displayName &&
            one.arena.value.items[r].body.displayName == newName &&
            one.arena.value.items[r].name == a.items[r].name
  {
  }

  /**
   * CreateItem makes no store call for an invalid name and throws
   * ArgumentException; with a valid name it returns the new ID unless a store
   * call throws, and it succeeds only with a valid name.
   */
  lemma CreateGuard(h: Handle, k: Kind, name: Option<string>, open: bool, created: Result<string>, navigated: Result<()>)
    requires k != PageKind
    ensures var (res, h') := CreateOutcome(h, k, name, open, created, navigated);
            (!V.IsValidName(k, name) ==> res == Failure(ArgumentInvalid) && h' == h) &&
            (V.IsValidName(k, name) ==> h' == Acquire(h)) &&
            (V.IsValidName(k, name) && !Available(h) ==> res == Failure(NoApplication)) &&
            (res.Success? <==> V.IsValidName(k, name) && Available(h) && created.Success? && (open ==> navigated.Success?)) &&
            (res.Success? ==> res == created)
  {
  }
}
