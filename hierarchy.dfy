/**
 * The in-memory hierarchy: notebooks, section groups, sections and pages,
 * kept in an arena indexed by reference, plus the roots that hold the
 * notebook list and the open sections.
 */
module Hierarchy {
  import opened Base
  import Collections

  /** An object reference; reference equality of items is equality of refs. */
  type Ref = nat

  datatype Kind = NotebookKind | SectionGroupKind | SectionKind | PageKind

  /** The fields every kind of item has. */
  datatype Item = Item(id: Option<string>, name: string, lastModified: Option<string>, isUnread: bool, body: Body)
  {
    function KindOf(): Kind {
      LinksOf(body).kind
    }

    predicate IsContainer() {
      body.Notebook? || body.SectionGroup?
    }

    /** The Children view: sections then section groups, a section's pages, nothing under a page. */
    function Children(): seq<Ref> {
      var l := LinksOf(body);
      l.sections + l.sectionGroups + l.pages
    }

    /** The untyped Parent: a notebook has none (its root is not an item). */
    function Parent(): Option<Ref> {
      LinksOf(body).parent
    }

    /** A notebook's back-reference to the Root that lists it. */
    function RootRef(): Option<Ref> {
      LinksOf(body).root
    }
  }

  /** The structural part of an item: its kind and every reference it holds. */
  datatype Links = Links(kind: Kind, sections: seq<Ref>, sectionGroups: seq<Ref>, pages: seq<Ref>,
                         parent: Option<Ref>, root: Option<Ref>)

  function LinksOf(b: Body): Links {
    match b
    case Notebook(_, _, _, r, s, g) => Links(NotebookKind, s, g, [], None, r)
    case SectionGroup(_, _, par, s, g) => Links(SectionGroupKind, s, g, [], par, None)
    case Section(_, _, _, _, _, _, par, pg) => Links(SectionKind, [], [], pg, par, None)
    case Page(_, _, _, par) => Links(PageKind, [], [], [], par, None)
  }

  /** Two versions of an item that differ at most in their attribute fields. */
  predicate SameLinks(x: Item, y: Item) {
    LinksOf(x.body) == LinksOf(y.body)
  }


  /**
   * The kind-specific fields. Dates, page levels and colours are kept as the
   * attribute text they were decoded from (None: the field's default value).
   */
  datatype Body =
    | Notebook(displayName: string, path: string, color: Option<string>, root: Option<Ref>,
               sections: seq<Ref>, sectionGroups: seq<Ref>)
    | SectionGroup(path: string, isRecycleBin: bool, parent: Option<Ref>,
                   sections: seq<Ref>, sectionGroups: seq<Ref>)
    | Section(path: string, color: Option<string>, encrypted: bool, locked: bool,
              isInRecycleBin: bool, isDeletedPages: bool, parent: Option<Ref>, pages: seq<Ref>)
    | Page(level: Option<string>, created: Option<string>, isInRecycleBin: bool, parent: Option<Ref>)

  // Field writes on the kind-specific part; a write to a field the kind does
  // not have leaves the body as it is.

  function WithSections(b: Body, v: seq<Ref>): Body {
    match b
    case Notebook(d, p, c, r, _, g) => Notebook(d, p, c, r, v, g)
    case SectionGroup(p, rb, par, _, g) => SectionGroup(p, rb, par, v, g)
    case _ => b
  }

  function WithSectionGroups(b: Body, v: seq<Ref>): Body {
    match b
    case Notebook(d, p, c, r, s, _) => Notebook(d, p, c, r, s, v)
    case SectionGroup(p, rb, par, s, _) => SectionGroup(p, rb, par, s, v)
    case _ => b
  }

  function WithPages(b: Body, v: seq<Ref>): Body {
    match b
    case Section(p, c, e, l, ib, dp, par, _) => Section(p, c, e, l, ib, dp, par, v)
    case _ => b
  }

  function WithParent(b: Body, v: Option<Ref>): Body {
    match b
    case Notebook(_, _, _, _, _, _) => b
    case SectionGroup(p, rb, _, s, g) => SectionGroup(p, rb, v, s, g)
    case Section(p, c, e, l, ib, dp, _, pg) => Section(p, c, e, l, ib, dp, v, pg)
    case Page(lv, cr, ib, _) => Page(lv, cr, ib, v)
  }

  function WithRoot(b: Body, v: Option<Ref>): Body {
    match b
    case Notebook(d, p, c, _, s, g) => Notebook(d, p, c, v, s, g)
    case _ => b
  }

  function WithPath(b: Body, v: string): (res: Body)
    ensures LinksOf(res) == LinksOf(b)
  {
    match b
    case Notebook(d, _, c, r, s, g) => Notebook(d, v, c, r, s, g)
    case SectionGroup(_, rb, par, s, g) => SectionGroup(v, rb, par, s, g)
    case Section(_, c, e, l, ib, dp, par, pg) => Section(v, c, e, l, ib, dp, par, pg)
    case Page(_, _, _, _) => b
  }

  function WithColor(b: Body, v: Option<string>): (res: Body)
    ensures LinksOf(res) == LinksOf(b)
  {
    match b
    case Notebook(d, p, _, r, s, g) => Notebook(d, p, v, r, s, g)
    case Section(p, _, e, l, ib, dp, par, pg) => Section(p, v, e, l, ib, dp, par, pg)
    case _ => b
  }

  function WithIsInRecycleBin(b: Body, v: bool): (res: Body)
    ensures LinksOf(res) == LinksOf(b)
  {
    match b
    case Section(p, c, e, l, _, dp, par, pg) => Section(p, c, e, l, v, dp, par, pg)
    case Page(lv, cr, _, par) => Page(lv, cr, v, par)
    case _ => b
  }

  function WithDisplayName(b: Body, v: string): (res: Body)
    ensures LinksOf(res) == LinksOf(b)
  {
    match b
    case Notebook(_, p, c, r, s, g) => Notebook(v, p, c, r, s, g)
    case _ => b
  }

  function WithIsRecycleBin(b: Body, v: bool): (res: Body)
    ensures LinksOf(res) == LinksOf(b)
  {
    match b
    case SectionGroup(p, _, par, s, g) => SectionGroup(p, v, par, s, g)
    case _ => b
  }

  function WithEncrypted(b: Body, v: bool): (res: Body)
    ensures LinksOf(res) == LinksOf(b)
  {
    match b
    case Section(p, c, _, l, ib, dp, par, pg) => Section(p, c, v, l, ib, dp, par, pg)
    case _ => b
  }

  function WithLocked(b: Body, v: bool): (res: Body)
    ensures LinksOf(res) == LinksOf(b)
  {
    match b
    case Section(p, c, e, _, ib, dp, par, pg) => Section(p, c, e, v, ib, dp, par, pg)
    case _ => b
  }

  function WithIsDeletedPages(b: Body, v: bool): (res: Body)
    ensures LinksOf(res) == LinksOf(b)
  {
    match b
    case Section(p, c, e, l, ib, _, par, pg) => Section(p, c, e, l, ib, v, par, pg)
    case _ => b
  }

  function WithLevel(b: Body, v: Option<string>): (res: Body)
    ensures LinksOf(res) == LinksOf(b)
  {
    match b
    case Page(_, cr, ib, par) => Page(v, cr, ib, par)
    case _ => b
  }

  function WithCreated(b: Body, v: Option<string>): (res: Body)
    ensures LinksOf(res) == LinksOf(b)
  {
    match b
    case Page(lv, _, ib, par) => Page(lv, v, ib, par)
    case _ => b
  }

  /** A freshly constructed item of each kind: empty collections, no parent, default fields. */
  function NewItem(k: Kind): (it: Item)
    ensures it.KindOf() == k && it.Children() == [] && it.Parent() == None
    ensures it.id == None && it.name == "" && !it.isUnread && it.lastModified == None
    ensures it.body.Notebook? ==> it.body.root == None
  {
    var body := match k
      case NotebookKind => Notebook("", "", None, None, [], [])
      case SectionGroupKind => SectionGroup("", false, None, [], [])
      case SectionKind => Section("", None, false, false, false, false, None, [])
      case PageKind => Page(None, None, false, None);
    Item(None, "", None, false, body)
  }

  /** A container's Children view is the ChildrenCollection over its two lists. */
  lemma ContainerChildren(it: Item)
    requires it.IsContainer()
    ensures |it.Children()| == Collections.ChildrenCount(it.body.sections, it.body.sectionGroups)
    ensures forall i :: 0 <= i < |it.Children()| ==>
      it.Children()[i] == Collections.ChildAt(it.body.sections, it.body.sectionGroups, i)
  {
    Collections.ChildAtIsConcatenation(it.body.sections, it.body.sectionGroups);
  }

  // -----------------------------------------------------------------------
  // The arena.

  datatype Arena = Arena(items: map<Ref, Item>, next: Ref)

  /** `new T()`: the next reference, holding `it`. */
  function Alloc(a: Arena, it: Item): (r: (Arena, Ref))
    ensures r.1 == a.next && r.0.next == a.next + 1
    ensures r.0.items == a.items[a.next := it]
  {
    (Arena(a.items[a.next := it], a.next + 1), a.next)
  }

  /** Overwrite an existing item (no effect on an unknown reference). */
  function Put(a: Arena, r: Ref, it: Item): Arena {
    if r in a.items then a.(items := a.items[r := it]) else a
  }

  function KindAt(a: Arena, r: Ref): Option<Kind> {
    if r in a.items then Some(a.items[r].KindOf()) else None
  }

  /** Rewrite the kind-specific part of an existing item. */
  function PutBody(a: Arena, r: Ref, b: Body): Arena {
    if r in a.items then a.(items := a.items[r := a.items[r].(body := b)]) else a
  }

  /** `container.sections.Add(s)`. */
  function AppendSection(a: Arena, container: Ref, s: Ref): Arena {
    if container in a.items && a.items[container].IsContainer() then
      PutBody(a, container, WithSections(a.items[container].body, a.items[container].body.sections + [s]))
    else a
  }

  /** `container.sectionGroups.Add(g)`. */
  function AppendSectionGroup(a: Arena, container: Ref, g: Ref): Arena {
    if container in a.items && a.items[container].IsContainer() then
      PutBody(a, container, WithSectionGroups(a.items[container].body, a.items[container].body.sectionGroups + [g]))
    else a
  }

  /** `section.pages.Add(p)`. */
  function AppendPage(a: Arena, section: Ref, p: Ref): Arena {
    if section in a.items && a.items[section].body.Section? then
      PutBody(a, section, WithPages(a.items[section].body, a.items[section].body.pages + [p]))
    else a
  }

  /** `section.pages = pages`: the list is replaced, not appended to. */
  function AssignPages(a: Arena, section: Ref, pages: seq<Ref>): Arena {
    if section in a.items && a.items[section].body.Section? then
      PutBody(a, section, WithPages(a.items[section].body, pages))
    else a
  }

  /** `item.Parent = parent` on a section group, section or page. */
  function SetParent(a: Arena, r: Ref, parent: Option<Ref>): Arena {
    if r in a.items then PutBody(a, r, WithParent(a.items[r].body, parent)) else a
  }

  /** `notebook.root = root`. */
  function SetRoot(a: Arena, r: Ref, root: Option<Ref>): Arena {
    if r in a.items then PutBody(a, r, WithRoot(a.items[r].body, root)) else a
  }

  /**
   * `b` is `a` after allocating some new items and rewriting at most `changed`:
   * every old item is still there and, except `changed`, untouched; every new
   * reference was unallocated in `a`.
   */
  predicate Extends(a: Arena, b: Arena, changed: Ref) {
    a.next <= b.next &&
    (forall r | r in a.items :: r in b.items && (r != changed ==> b.items[r] == a.items[r])) &&
    (forall r | r in b.items && r !in a.items :: a.next <= r < b.next)
  }

  /** `b` is `a` after allocating new objects only: every old item is untouched. */
  predicate Grows(a: Arena, b: Arena) {
    a.next <= b.next &&
    (forall r | r in a.items :: r in b.items && b.items[r] == a.items[r]) &&
    (forall r | r in b.items && r !in a.items :: a.next <= r < b.next)
  }

  /** Allocate a reference for an object that is not an item (a Root). */
  function AllocRef(a: Arena): (r: (Arena, Ref))
    ensures r.1 == a.next && r.0 == a.(next := a.next + 1)
  {
    (a.(next := a.next + 1), a.next)
  }

  /** Every item's reference is below the allocation counter. */
  predicate Allocated(a: Arena) {
    forall r | r in a.items :: r < a.next
  }

  /** Allocating an item and then working only on it leaves every old item as it was. */
  lemma AllocThenGrow(a: Arena, it: Item, d: Arena)
    requires Allocated(a) && Extends(Alloc(a, it).0, d, a.next)
    ensures Grows(a, d)
  {
  }

  lemma GrowsThenExtends(a: Arena, b: Arena, d: Arena, c: Ref)
    requires Grows(a, b) && Extends(b, d, c)
    ensures Extends(a, d, c)
  {
  }

  lemma ExtendsTrans(a: Arena, b: Arena, d: Arena, c: Ref)
    requires Extends(a, b, c) && Extends(b, d, c)
    ensures Extends(a, d, c)
  {
  }

  lemma GrowsTrans(a: Arena, b: Arena, d: Arena)
    requires Grows(a, b) && Grows(b, d)
    ensures Grows(a, d)
  {
  }

  /** Appending to a container's list changes nothing but the container. */
  lemma AppendExtends(a: Arena, c: Ref, r: Ref)
    ensures Extends(a, AppendSection(a, c, r), c)
    ensures Extends(a, AppendSectionGroup(a, c, r), c)
    ensures Extends(a, AppendPage(a, c, r), c)
  {
  }

  /** `x` is an item of kind `k`, created after `c`, whose Parent is `c`. */
  predicate LinkedTo(a: Arena, x: Ref, k: Kind, c: Ref) {
    c < x && x in a.items && a.items[x].KindOf() == k && a.items[x].Parent() == Some(c)
  }

  /** Every child of `c` is an item of the kind its list holds, and its Parent is `c`. */
  predicate ChildrenLinked(a: Arena, c: Ref)
    requires c in a.items
  {
    var l := LinksOf(a.items[c].body);
    (forall i | 0 <= i < |l.sections| :: LinkedTo(a, l.sections[i], SectionKind, c)) &&
    (forall i | 0 <= i < |l.sectionGroups| :: LinkedTo(a, l.sectionGroups[i], SectionGroupKind, c)) &&
    (forall i | 0 <= i < |l.pages| :: LinkedTo(a, l.pages[i], PageKind, c))
  }

  /** `b`'s version of `c` only has more children than `a`'s, at the end of its lists. */
  predicate ChildrenAppended(a: Arena, b: Arena, c: Ref)
    requires c in a.items && c in b.items
  {
    var x := LinksOf(a.items[c].body);
    var y := LinksOf(b.items[c].body);
    y.kind == x.kind && y.parent == x.parent && y.root == x.root &&
    x.sections <= y.sections && x.sectionGroups <= y.sectionGroups && x.pages <= y.pages
  }

  /**
   * The shape every reachable state keeps: references are below the allocation
   * counter, and every child is a known item allocated after its container
   * (children are only ever created while or after their container is parsed).
   */
  ghost predicate ArenaValid(a: Arena) {
    (forall r | r in a.items :: r < a.next) &&
    (forall r, i | r in a.items && 0 <= i < |a.items[r].Children()| ::
       a.items[r].Children()[i] in a.items && r < a.items[r].Children()[i])
  }

  // -----------------------------------------------------------------------
  // Root and open sections.

  /** OpenSections: the sections open outside any notebook, and the id of that list. */
  datatype OpenSectionsObj = OpenSectionsObj(id: Option<string>, sections: seq<Ref>)
  {
    /** OpenSections.Count. */
    function Count(): (n: nat)
      ensures n == |sections|
    {
      |sections|
    }

    /** OpenSections[index]. */
    function Get(index: nat): (s: Ref)
      requires index < Count()
      ensures s in sections && s == sections[index]
    {
      sections[index]
    }
  }

  /** A new OpenSections holds no sections. */
  function NewOpenSections(): (o: OpenSectionsObj)
    ensures o.Count() == 0 && o.id == None
  {
    OpenSectionsObj(None, [])
  }

  datatype RootObj = RootObj(notebooks: seq<Ref>, openSections: Option<OpenSectionsObj>)

  /** A new Root has no notebooks and no open sections. */
  function NewRoot(): (r: RootObj)
    ensures r.notebooks == [] && r.openSections == None
  {
    RootObj([], None)
  }

  /** What enumerating a root yields: its notebooks, then its open sections if it has them. */
  function RootItems(root: RootObj): seq<Ref> {
    root.notebooks + (if root.openSections.Some? then root.openSections.value.sections else [])
  }

  /**
   * Root.Enumerator: captures the notebook list and, if the root had open
   * sections when the enumerator was made, the open-section list.
   */
  class RootEnumerator {
    const notebooks: seq<Ref>
    const openSections: seq<Ref>
    const hasOpenSections: bool
    var notebookIndex: nat
    var openSectionIndex: nat
    var current: Option<Ref>
    ghost var yielded: seq<Ref>

    ghost predicate Valid()
      reads this
    {
      notebookIndex <= |notebooks| && openSectionIndex <= |openSections| &&
      (openSectionIndex > 0 ==> notebookIndex == |notebooks| && hasOpenSections) &&
      yielded == notebooks[..notebookIndex] + openSections[..openSectionIndex]
    }

    /** The whole sequence this enumerator will yield. */
    ghost function Planned(): seq<Ref>
      reads this
    {
      notebooks + (if hasOpenSections then openSections else [])
    }

    constructor(root: RootObj)
      ensures Valid() && yielded == []
      ensures Planned() == RootItems(root)
    {
      notebooks := root.notebooks;
      if root.openSections.Some? {
        openSections := root.openSections.value.sections;
        hasOpenSections := true;
      } else {
        openSections := [];
        hasOpenSections := false;
      }
      notebookIndex := 0;
      openSectionIndex := 0;
      current := None;
      yielded := [];
    }

    method MoveNext() returns (more: bool)
      requires Valid()
      modifies this
      ensures Valid() && Planned() == old(Planned())
      ensures more <==> |old(yielded)| < |Planned()|
      ensures more ==> yielded == old(yielded) + [Planned()[|old(yielded)|]]
      ensures more ==> current == Some(Planned()[|old(yielded)|])
      ensures !more ==> (yielded == old(yielded) && notebookIndex == old(notebookIndex) &&
                         openSectionIndex == old(openSectionIndex))
    {
      if notebookIndex < |notebooks| {
        current := Some(notebooks[notebookIndex]);
        assert notebooks[..notebookIndex + 1] == notebooks[..notebookIndex] + [notebooks[notebookIndex]];
        notebookIndex := notebookIndex + 1;
        yielded := yielded + [current.value];
        return true;
      }
      if !hasOpenSections {
        assert notebooks[..notebookIndex] == notebooks;
        return false;
      }
      if openSectionIndex < |openSections| {
        current := Some(openSections[openSectionIndex]);
        assert openSections[..openSectionIndex + 1] == openSections[..openSectionIndex] + [openSections[openSectionIndex]];
        openSectionIndex := openSectionIndex + 1;
        yielded := yielded + [current.value];
        return true;
      }
      assert notebooks[..notebookIndex] == notebooks && openSections[..openSectionIndex] == openSections;
      return false;
    }

    /** Reset does nothing: an enumerator cannot be restarted. */
    method Reset()
      ensures yielded == old(yielded) && current == old(current)
    {
    }
  }

  /**
   * Enumerating a root to the end yields its notebooks in order, then its open
   * sections in order; one more MoveNext after that still reports false.
   */
  method EnumerateRoot(root: RootObj) returns (seen: seq<Ref>, moreAfterEnd: bool)
    ensures seen == RootItems(root)
    ensures |seen| == |root.notebooks| + (if root.openSections.Some? then root.openSections.value.Count() else 0)
    ensures !moreAfterEnd
  {
    var e := new RootEnumerator(root);
    seen := [];
    var more := e.MoveNext();
    while more
      invariant e.Valid() && e.Planned() == RootItems(root)
      invariant more ==> e.current.Some?
      invariant seen + (if more then [e.current.value] else []) == e.yielded
      invariant !more ==> |e.yielded| == |e.Planned()|
      decreases |e.Planned()| - |e.yielded|, more
    {
      seen := seen + [e.current.value];
      more := e.MoveNext();
    }
    assert e.yielded == e.Planned() by {
      assert e.notebooks[..e.notebookIndex] + e.openSections[..e.openSectionIndex] == e.yielded;
    }
    e.Reset();
    moreAfterEnd := e.MoveNext();
  }

  // -----------------------------------------------------------------------
  // The store: the arena plus the roots, updated in place.

  class Store {
    var items: map<Ref, Item>
    var roots: map<Ref, RootObj>
    var next: Ref

    function State(): Arena
      reads this
    {
      Arena(items, next)
    }

    ghost predicate Valid()
      reads this
    {
      ArenaValid(State()) &&
      (forall r | r in roots :: r < next && r !in items) &&
      (forall r, i | r in roots && 0 <= i < |roots[r].notebooks| ::
         roots[r].notebooks[i] in items && items[roots[r].notebooks[i]].body.Notebook?)
    }

    constructor()
      ensures Valid() && items == map[] && roots == map[] && next == 0
    {
      items := map[];
      roots := map[];
      next := 0;
    }

    /** `new T()`: allocate the next reference for `it`. */
    method AllocItem(it: Item) returns (r: Ref)
      modifies this
      ensures (State(), r) == Alloc(old(State()), it)
      ensures roots == old(roots)
    {
      r := next;
      items := items[next := it];
      next := next + 1;
    }

    /** `new Root()`: allocate the next reference for an empty root. */
    method AllocRoot() returns (r: Ref)
      modifies this
      ensures r == old(next) && next == old(next) + 1 && items == old(items)
      ensures roots == old(roots)[r := NewRoot()]
    {
      r := next;
      roots := roots[r := NewRoot()];
      next := next + 1;
    }

    /** Write back an item's fields. */
    method PutItem(r: Ref, it: Item)
      modifies this
      ensures State() == Put(old(State()), r, it) && roots == old(roots)
    {
      if r in items {
        items := items[r := it];
      }
    }

    /** `container.sections.Add(s)`. */
    method AddSection(container: Ref, s: Ref)
      modifies this
      ensures State() == AppendSection(old(State()), container, s) && roots == old(roots)
    {
      if container in items && items[container].IsContainer() {
        var b := items[container].body;
        items := items[container := items[container].(body := WithSections(b, b.sections + [s]))];
      }
    }

    /** `container.sectionGroups.Add(g)`. */
    method AddSectionGroup(container: Ref, g: Ref)
      modifies this
      ensures State() == AppendSectionGroup(old(State()), container, g) && roots == old(roots)
    {
      if container in items && items[container].IsContainer() {
        var b := items[container].body;
        items := items[container := items[container].(body := WithSectionGroups(b, b.sectionGroups + [g]))];
      }
    }

    /** `section.pages.Add(p)`. */
    method AddPage(section: Ref, p: Ref)
      modifies this
      ensures State() == AppendPage(old(State()), section, p) && roots == old(roots)
    {
      if section in items && items[section].body.Section? {
        var b := items[section].body;
        items := items[section := items[section].(body := WithPages(b, b.pages + [p]))];
      }
    }

    /** `section.pages = pages`. */
    method ReplacePages(section: Ref, pages: seq<Ref>)
      modifies this
      ensures State() == AssignPages(old(State()), section, pages) && roots == old(roots)
    {
      if section in items && items[section].body.Section? {
        items := items[section := items[section].(body := WithPages(items[section].body, pages))];
      }
    }

    /** `item.Parent = parent`. */
    method AssignParent(r: Ref, parent: Option<Ref>)
      modifies this
      ensures State() == SetParent(old(State()), r, parent) && roots == old(roots)
    {
      if r in items {
        items := items[r := items[r].(body := WithParent(items[r].body, parent))];
      }
    }

    /** `notebook.root = root`. */
    method AssignRoot(r: Ref, root: Option<Ref>)
      modifies this
      ensures State() == SetRoot(old(State()), r, root) && roots == old(roots)
    {
      if r in items {
        items := items[r := items[r].(body := WithRoot(items[r].body, root))];
      }
    }

    /** Replace the value held for a root object. */
    method PutRoot(r: Ref, root: RootObj)
      modifies this
      ensures roots == old(roots)[r := root] && State() == old(State())
    {
      roots := roots[r := root];
    }

    /** `IWritableColor.Color = value` on a section: only its colour changes. */
    method SetSectionColor(s: Ref, color: Option<string>)
      requires s in items && items[s].body.Section?
      modifies this
      ensures s in items && items[s].body.Section? && items[s].body.color == color
      ensures items == old(items)[s := old(items)[s].(body := WithColor(old(items)[s].body, color))]
      ensures roots == old(roots) && next == old(next)
    {
      items := items[s := items[s].(body := WithColor(items[s].body, color))];
    }

    /** `IWritablePath.Path = value` on a section: only its path changes. */
    method SetSectionPath(s: Ref, path: string)
      requires s in items && items[s].body.Section?
      modifies this
      ensures s in items && items[s].body.Section? && items[s].body.path == path
      ensures items == old(items)[s := old(items)[s].(body := WithPath(old(items)[s].body, path))]
      ensures roots == old(roots) && next == old(next)
    {
      items := items[s := items[s].(body := WithPath(items[s].body, path))];
    }

    /** `IWritableIsInRecycleBin.IsInRecycleBin = value` on a section: only that flag changes. */
    method SetSectionIsInRecycleBin(s: Ref, value: bool)
      requires s in items && items[s].body.Section?
      modifies this
      ensures s in items && items[s].body.Section? && items[s].body.isInRecycleBin == value
      ensures items == old(items)[s := old(items)[s].(body := WithIsInRecycleBin(old(items)[s].body, value))]
      ensures roots == old(roots) && next == old(next)
    {
      items := items[s := items[s].(body := WithIsInRecycleBin(items[s].body, value))];
    }
  }

  /** The section setters keep the store's shape: they touch no reference. */
  lemma SectionSetterKeepsValid(a: Arena, s: Ref, it: Item)
    requires ArenaValid(a) && s in a.items && a.items[s].body.Section?
    requires it.body.Section? && it.body.pages == a.items[s].body.pages
    ensures ArenaValid(a.(items := a.items[s := it]))
  {
    var b := a.(items := a.items[s := it]);
    forall r, i | r in b.items && 0 <= i < |b.items[r].Children()|
      ensures b.items[r].Children()[i] in b.items && r < b.items[r].Children()[i]
    {
      assert b.items[r].Children() == a.items[r].Children();
    }
  }
}
