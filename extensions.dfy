/**
 * The item extension methods: the recycle-bin test, the recycle bin of a
 * notebook, the notebook an item lies in, the relative path of an item,
 * adding a created notebook to a root, and the delete-or-close dispatch.
 * Items are references into the arena; a null item is `None`.
 */
module ItemExtensions {
  import opened Base
  import opened Hierarchy
  import Axes

  // ---------------------------------------------------------------------
  // IsInRecycleBin and GetRecycleBin.

  /**
   * IsInRecycleBin: a section group that is a recycle bin, a section that is
   * in one or is its deleted-pages section, or a page that is in one.
   */
  predicate IsInRecycleBin(it: Item) {
    match it.body
    case Notebook(_, _, _, _, _, _) => false
    case SectionGroup(_, isRecycleBin, _, _, _) => isRecycleBin
    case Section(_, _, _, _, isInRecycleBin, isDeletedPages, _, _) => isInRecycleBin || isDeletedPages
    case Page(_, _, isInRecycleBin, _) => isInRecycleBin
  }

  /**
   * A notebook is never in the recycle bin, a new item of any kind is not,
   * and setting a section's or a page's isInRecycleBin flag puts it there.
   */
  lemma RecycleBinFlags(it: Item, k: Kind)
    ensures it.body.Notebook? ==> !IsInRecycleBin(it)
    ensures !IsInRecycleBin(NewItem(k))
    ensures (it.body.Section? || it.body.Page?) ==> IsInRecycleBin(it.(body := WithIsInRecycleBin(it.body, true)))
    ensures it.body.Section? && it.body.isDeletedPages ==> IsInRecycleBin(it)
    ensures it.body.SectionGroup? ==> (IsInRecycleBin(it) <==> it.body.isRecycleBin)
  {
  }

  /** The section group `g` is a recycle bin. */
  predicate IsRecycleBinGroup(a: Arena, g: Ref)
    requires g in a.items
  {
    a.items[g].body.SectionGroup? && a.items[g].body.isRecycleBin
  }

  predicate AllKnown(a: Arena, gs: seq<Ref>) {
    forall i | 0 <= i < |gs| :: gs[i] in a.items
  }

  /** `gs.FirstOrDefault(sg => sg.IsRecycleBin)`. */
  function FirstRecycleBin(a: Arena, gs: seq<Ref>): Option<Ref>
    requires AllKnown(a, gs)
  {
    if gs == [] then None
    else if IsRecycleBinGroup(a, gs[0]) then Some(gs[0])
    else FirstRecycleBin(a, gs[1..])
  }

  /**
   * FirstOrDefault finds the first recycle bin of the list: the result is an
   * element that is one, and none before it is; nothing is found exactly
   * when no element is one.
   */
  lemma {:induction false} FirstRecycleBinSpec(a: Arena, gs: seq<Ref>)
    requires AllKnown(a, gs)
    ensures var r := FirstRecycleBin(a, gs);
            (r.None? <==> forall i | 0 <= i < |gs| :: !IsRecycleBinGroup(a, gs[i])) &&
            (r.Some? ==> exists i | 0 <= i < |gs| :: gs[i] == r.value && IsRecycleBinGroup(a, gs[i]) &&
                                                  forall j | 0 <= j < i :: !IsRecycleBinGroup(a, gs[j]))
  {
    if gs != [] {
      assert AllKnown(a, gs[1..]);
      FirstRecycleBinSpec(a, gs[1..]);
      if !IsRecycleBinGroup(a, gs[0]) {
        var r := FirstRecycleBin(a, gs[1..]);
        if r.Some? {
          var i :| 0 <= i < |gs[1..]| && gs[1..][i] == r.value && IsRecycleBinGroup(a, gs[1..][i]) &&
                   forall j | 0 <= j < i :: !IsRecycleBinGroup(a, gs[1..][j]);
          assert gs[i + 1] == r.value;
          forall j | 0 <= j < i + 1
            ensures !IsRecycleBinGroup(a, gs[j])
          {
            if j > 0 {
              assert gs[j] == gs[1..][j - 1];
            }
          }
        } else {
          forall i | 0 <= i < |gs|
            ensures !IsRecycleBinGroup(a, gs[i])
          {
            if i > 0 {
              assert gs[i] == gs[1..][i - 1];
            }
          }
        }
      }
    }
  }

  /** The section groups of a notebook are known items. */
  predicate GroupsKnown(a: Arena, nb: Ref) {
    nb in a.items && a.items[nb].body.Notebook? && AllKnown(a, a.items[nb].body.sectionGroups)
  }

  /**
   * GetRecycleBin(notebook, out sectionGroup): the first recycle bin among
   * the notebook's direct section groups; it returns true exactly when one
   * was found. A null notebook is dereferenced and throws NullReferenceException.
   */
  function GetRecycleBin(a: Arena, nb: Option<Ref>): (r: Result<Option<Ref>>)
    requires nb.Some? ==> GroupsKnown(a, nb.value)
    ensures r.Failure? <==> nb.None?
    ensures r.Failure? ==> r.error == NullReference
    ensures r.Success? && r.value.Some? ==>
              r.value.value in a.items[nb.value].body.sectionGroups && IsRecycleBinGroup(a, r.value.value)
    ensures r.Success? && r.value.None? ==>
              forall g | g in a.items[nb.value].body.sectionGroups :: !IsRecycleBinGroup(a, g)
  {
    if nb.None? then Failure(NullReference)
    else
      FirstRecycleBinSpec(a, a.items[nb.value].body.sectionGroups);
      Success(FirstRecycleBin(a, a.items[nb.value].body.sectionGroups))
  }

  // ---------------------------------------------------------------------
  // TryGetNotebook.

  /** The item the Parent links end at, starting from `r`. */
  function Topmost(a: Arena, r: Ref): (t: Ref)
    requires Axes.ParentsAcyclic(a) && r in a.items
    ensures t in a.items && a.items[t].Parent().None?
    decreases Axes.Height(a, Some(r))
  {
    Axes.HeightDrops(a, r);
    if a.items[r].Parent().None? then r else Topmost(a, a.items[r].Parent().value)
  }

  /**
   * What TryGetNotebook gives: `item.Parent` is dereferenced, so a null item
   * or one without a Parent (a notebook, an open section) raises
   * NullReference; otherwise the notebook is found exactly when the topmost
   * ancestor is one.
   */
  function NotebookOf(a: Arena, item: Option<Ref>): Result<Option<Ref>>
    requires Axes.ParentsAcyclic(a) && (item.Some? ==> item.value in a.items)
  {
    if item.None? || a.items[item.value].Parent().None? then Failure(NullReference)
    else
      var top := Topmost(a, a.items[item.value].Parent().value);
      if a.items[top].body.Notebook? then Success(Some(top)) else Success(None)
  }

  /** TryGetNotebook(item, out notebook): climb from `item.Parent` while there is a further Parent. */
  method TryGetNotebook(a: Arena, item: Option<Ref>) returns (res: Result<Option<Ref>>)
    requires Axes.ParentsAcyclic(a) && (item.Some? ==> item.value in a.items)
    ensures res == NotebookOf(a, item)
  {
    if item.None? || a.items[item.value].Parent().None? {
      return Failure(NullReference);
    }
    var start := a.items[item.value].Parent().value;
    var current := start;
    while a.items[current].Parent().Some?
      invariant current in a.items && Topmost(a, current) == Topmost(a, start)
      decreases Axes.Height(a, Some(current))
    {
      Axes.HeightDrops(a, current);
      current := a.items[current].Parent().value;
    }
    if a.items[current].body.Notebook? {
      return Success(Some(current));
    }
    return Success(None);
  }

  /** The topmost item is the last of the Parent chain from `r`, and it has no Parent. */
  lemma {:induction false} TopmostEndsChain(a: Arena, r: Ref)
    requires Axes.ParentsAcyclic(a) && r in a.items
    ensures var ch := Axes.ChainFrom(a, Some(r));
            |ch| > 0 && Topmost(a, r) == ch[|ch| - 1] && Topmost(a, r) in a.items &&
            a.items[Topmost(a, r)].Parent().None?
    decreases Axes.Height(a, Some(r))
  {
    var up := a.items[r].Parent();
    Axes.HeightDrops(a, r);
    if up.Some? {
      TopmostEndsChain(a, up.value);
    }
  }

  /**
   * TryGetNotebook in terms of Ancestors: it fails exactly when the item is
   * null or has no ancestors, and otherwise finds a notebook exactly when the
   * farthest ancestor is one, which it then returns.
   */
  lemma NotebookOfAncestors(a: Arena, item: Ref)
    requires Axes.ParentsAcyclic(a) && item in a.items
    ensures var anc := Axes.AncestorsOf(a, item);
            var r := NotebookOf(a, Some(item));
            (r == Failure(NullReference) <==> anc == []) &&
            (anc != [] ==> anc[|anc| - 1] in a.items && r == (if a.items[anc[|anc| - 1]].body.Notebook? then Success(Some(anc[|anc| - 1])) else Success(None)))
  {
    var up := a.items[item].Parent();
    Axes.ChainLinked(a, up);
    if up.Some? {
      TopmostEndsChain(a, up.value);
    }
  }

  /** A notebook has no Parent, so TryGetNotebook on a notebook dereferences null. */
  lemma NotebookHasNoNotebook(a: Arena, nb: Ref)
    requires Axes.ParentsAcyclic(a) && nb in a.items && a.items[nb].body.Notebook?
    ensures NotebookOf(a, Some(nb)) == Failure(NullReference)
  {
  }

  // ---------------------------------------------------------------------
  // GetRelativePath.

  /** Extensions.DefaultRelativePathSeparator. */
  const DefaultRelativePathSeparator: string := "\\"

  /** The part a notebook contributes: its DisplayName, or its Name when the flag is false. */
  function Label(it: Item, useNotebookDisplayName: bool): string
    requires it.body.Notebook?
  {
    if useNotebookDisplayName then it.body.displayName else it.name
  }

  /**
   * The relative path of `c`: nothing for null, the label for a notebook,
   * otherwise the path of its Parent, the separator and its Name.
   */
  function RelativePath(a: Arena, c: Option<Ref>, useNotebookDisplayName: bool, separator: string): string
    requires Axes.ParentsAcyclic(a) && (c.Some? ==> c.value in a.items)
    decreases Axes.Height(a, c)
  {
    if c.None? then ""
    else
      var it := a.items[c.value];
      Axes.HeightDrops(a, c.value);
      if it.body.Notebook? then Label(it, useNotebookDisplayName)
      else RelativePath(a, it.Parent(), useNotebookDisplayName, separator) + separator + it.name
  }

  /**
   * GetRelativePath(item, useNotebookDisplayName, separator): walk up from
   * the item, inserting the Name and then the separator at the front, until
   * a notebook (whose label is inserted) or a null Parent ends the walk.
   */
  method GetRelativePath(a: Arena, item: Option<Ref>, useNotebookDisplayName: bool, separator: string)
    returns (res: Result<string>)
    requires Axes.ParentsAcyclic(a) && (item.Some? ==> item.value in a.items)
    ensures item.None? ==> res == Failure(ArgumentNull)
    ensures item.Some? ==> res == Success(RelativePath(a, item, useNotebookDisplayName, separator))
  {
    if item.None? {
      return Failure(ArgumentNull);
    }
    var sb := "";
    var current := item;
    while true
      invariant current.Some? ==> current.value in a.items
      invariant RelativePath(a, item, useNotebookDisplayName, separator) ==
                RelativePath(a, current, useNotebookDisplayName, separator) + sb
      decreases if current.Some? then Axes.Height(a, current) else 0
    {
      if current.Some? && a.items[current.value].body.Notebook? {
        sb := Label(a.items[current.value], useNotebookDisplayName) + sb;
        break;
      }
      if current.None? {
        assert "" + sb == sb;
        break;
      }
      var it := a.items[current.value];
      Axes.HeightDrops(a, current.value);
      PathTurn(a, current.value, sb, useNotebookDisplayName, separator);
      sb := it.name + sb;
      sb := separator + sb;
      current := it.Parent();
    }
    return Success(sb);
  }

  /** One turn of GetRelativePath's walk: the Name and then the separator go to the front. */
  lemma PathTurn(a: Arena, c: Ref, sb: string, useNotebookDisplayName: bool, separator: string)
    requires Axes.ParentsAcyclic(a) && c in a.items && !a.items[c].body.Notebook?
    ensures RelativePath(a, Some(c), useNotebookDisplayName, separator) + sb ==
            RelativePath(a, a.items[c].Parent(), useNotebookDisplayName, separator) + (separator + (a.items[c].name + sb))
  {
    var up := RelativePath(a, a.items[c].Parent(), useNotebookDisplayName, separator);
    assert up + separator + a.items[c].name + sb == up + (separator + (a.items[c].name + sb));
  }

  /** The separator-and-Name segments of a chain given nearest first, written farthest first. */
  function Segments(a: Arena, chain: seq<Ref>, separator: string): string
    requires AllKnown(a, chain)
  {
    if chain == [] then "" else Segments(a, chain[1..], separator) + separator + a.items[chain[0]].name
  }

  /**
   * The shape of a relative path along the Parent chain from the item: when
   * the chain ends at a notebook, that notebook's label followed by one
   * separator-and-Name segment per item below it, from the notebook down;
   * otherwise one segment per item of the chain.
   */
  lemma {:induction false} PathAlongChain(a: Arena, x: Ref, useNotebookDisplayName: bool, separator: string)
    requires Axes.ParentsAcyclic(a) && x in a.items
    ensures ChainShape(a, x, useNotebookDisplayName, separator)
    decreases Axes.Height(a, Some(x))
  {
    var up := a.items[x].Parent();
    Axes.HeightDrops(a, x);
    if up.None? {
      PathAtTop(a, x, useNotebookDisplayName, separator);
    } else {
      PathAlongChain(a, up.value, useNotebookDisplayName, separator);
      PathBelow(a, x, useNotebookDisplayName, separator);
    }
  }

  /** The relative path of `x` has the shape PathAlongChain states. */
  predicate ChainShape(a: Arena, x: Ref, useNotebookDisplayName: bool, separator: string)
    requires Axes.ParentsAcyclic(a) && x in a.items
  {
    var ch := Axes.ChainFrom(a, Some(x));
    var top := ch[|ch| - 1];
    AllKnown(a, ch) && top in a.items &&
    RelativePath(a, Some(x), useNotebookDisplayName, separator) ==
      if a.items[top].body.Notebook? then
        Label(a.items[top], useNotebookDisplayName) + Segments(a, ch[..|ch| - 1], separator)
      else Segments(a, ch, separator)
  }

  /** An item without a Parent is its own chain. */
  lemma PathAtTop(a: Arena, x: Ref, useNotebookDisplayName: bool, separator: string)
    requires Axes.ParentsAcyclic(a) && x in a.items && a.items[x].Parent().None?
    ensures ChainShape(a, x, useNotebookDisplayName, separator)
  {
    var ch := Axes.ChainFrom(a, Some(x));
    assert Axes.ChainFrom(a, None) == [];
    assert ch == [x];
    SegmentsCons(a, x, [], separator);
    assert [x] + [] == [x];
    assert ch[..0] == [];
  }

  /** The shape carries over from the Parent of `x` to `x`. */
  lemma PathBelow(a: Arena, x: Ref, useNotebookDisplayName: bool, separator: string)
    requires Axes.ParentsAcyclic(a) && x in a.items && a.items[x].Parent().Some?
    requires ChainShape(a, a.items[x].Parent().value, useNotebookDisplayName, separator)
    ensures ChainShape(a, x, useNotebookDisplayName, separator)
  {
    var ch := Axes.ChainFrom(a, Some(x));
    var rest := Axes.ChainFrom(a, a.items[x].Parent());
    assert ch == [x] + rest;
    SegmentsCons(a, x, rest, separator);
    if a.items[rest[|rest| - 1]].body.Notebook? {
      PathBelowNotebook(a, x, ch, rest, useNotebookDisplayName, separator);
    } else {
      assert ch[|ch| - 1] == rest[|rest| - 1];
      assert !a.items[x].body.Notebook?;
      var above := RelativePath(a, a.items[x].Parent(), useNotebookDisplayName, separator);
      assert RelativePath(a, Some(x), useNotebookDisplayName, separator) == above + separator + a.items[x].name;
    }
  }

  lemma PathBelowNotebook(a: Arena, x: Ref, ch: seq<Ref>, rest: seq<Ref>, useNotebookDisplayName: bool, separator: string)
    requires Axes.ParentsAcyclic(a) && x in a.items && a.items[x].Parent().Some?
    requires ch == Axes.ChainFrom(a, Some(x)) && rest == Axes.ChainFrom(a, a.items[x].Parent()) && ch == [x] + rest
    requires ChainShape(a, a.items[x].Parent().value, useNotebookDisplayName, separator)
    requires a.items[rest[|rest| - 1]].body.Notebook?
    ensures ChainShape(a, x, useNotebookDisplayName, separator)
  {
    var top := rest[|rest| - 1];
    assert ch[|ch| - 1] == top;
    assert !a.items[x].body.Notebook?;
    var above := RelativePath(a, a.items[x].Parent(), useNotebookDisplayName, separator);
    NotebookSegmentsStep(a, x, rest, Label(a.items[top], useNotebookDisplayName), above, separator);
    assert RelativePath(a, Some(x), useNotebookDisplayName, separator) == above + separator + a.items[x].name;
  }

  /** The notebook case of PathBelow on the sequences alone: one more segment at the end. */
  lemma NotebookSegmentsStep(a: Arena, x: Ref, rest: seq<Ref>, lead: string, above: string, separator: string)
    requires x in a.items && AllKnown(a, rest) && rest != []
    requires above == lead + Segments(a, rest[..|rest| - 1], separator)
    ensures AllKnown(a, [x] + rest)
    ensures above + separator + a.items[x].name == lead + Segments(a, ([x] + rest)[..|rest|], separator)
  {
    var ch := [x] + rest;
    assert ch[..|rest|] == [x] + rest[..|rest| - 1];
    SegmentsCons(a, x, rest[..|rest| - 1], separator);
    var segs := Segments(a, rest[..|rest| - 1], separator);
    Assoc3(lead, segs, separator + a.items[x].name);
  }

  /** Segments of a chain with one more item at the near end. */
  lemma SegmentsCons(a: Arena, x: Ref, s: seq<Ref>, separator: string)
    requires x in a.items && AllKnown(a, s)
    ensures AllKnown(a, [x] + s)
    ensures Segments(a, [x] + s, separator) == Segments(a, s, separator) + separator + a.items[x].name
  {
    assert ([x] + s)[1..] == s;
  }

  lemma Assoc3(x: string, y: string, z: string)
    ensures x + y + z == x + (y + z)
  {
  }

  /** Segments start with the separator whenever there is at least one. */
  lemma {:induction false} SegmentsStartWithSeparator(a: Arena, chain: seq<Ref>, separator: string)
    requires AllKnown(a, chain) && chain != []
    ensures separator <= Segments(a, chain, separator)
  {
    if chain[1..] != [] {
      SegmentsStartWithSeparator(a, chain[1..], separator);
    }
  }

  /**
   * When the chain ends at a null Parent without a notebook, the path starts
   * with the separator; a notebook's own path is just its label.
   */
  lemma PathWithoutNotebook(a: Arena, x: Ref, useNotebookDisplayName: bool, separator: string)
    requires Axes.ParentsAcyclic(a) && x in a.items
    ensures var ch := Axes.ChainFrom(a, Some(x));
            ch != [] && ch[|ch| - 1] in a.items &&
            !a.items[ch[|ch| - 1]].body.Notebook? ==>
              separator <= RelativePath(a, Some(x), useNotebookDisplayName, separator)
    ensures a.items[x].body.Notebook? ==>
              RelativePath(a, Some(x), useNotebookDisplayName, separator) == Label(a.items[x], useNotebookDisplayName)
  {
    PathAlongChain(a, x, useNotebookDisplayName, separator);
    var ch := Axes.ChainFrom(a, Some(x));
    if !a.items[ch[|ch| - 1]].body.Notebook? {
      SegmentsStartWithSeparator(a, ch, separator);
    }
  }

  /** When TryGetNotebook finds a notebook, the item's relative path starts with that notebook's label. */
  lemma PathStartsAtNotebook(a: Arena, x: Ref, useNotebookDisplayName: bool, separator: string)
    requires Axes.ParentsAcyclic(a) && x in a.items
    ensures var r := NotebookOf(a, Some(x));
            r.Success? && r.value.Some? ==>
              r.value.value in a.items && a.items[r.value.value].body.Notebook? &&
              Label(a.items[r.value.value], useNotebookDisplayName) <= RelativePath(a, Some(x), useNotebookDisplayName, separator)
  {
    var r := NotebookOf(a, Some(x));
    if r.Success? && r.value.Some? {
      var up := a.items[x].Parent().value;
      TopmostEndsChain(a, up);
      PathAlongChain(a, x, useNotebookDisplayName, separator);
      Axes.ChainLinked(a, Some(x));
      var ch := Axes.ChainFrom(a, Some(x));
      assert ch == [x] + Axes.ChainFrom(a, Some(up));
    }
  }

  // ---------------------------------------------------------------------
  // CreateNotebook(root, ...) and DeleteOrClose.

  /**
   * CreateNotebook(root, name, ...): `created` is what OneNote.CreateNotebook
   * gave back (a new notebook, or the error it raised). The notebook's root
   * becomes `root` and it is appended to the root's notebooks. On a null root
   * the notebook is created in OneNote and its root set to null before
   * `root.notebooks` throws NullReferenceException, so it stays unattached.
   */
  method CreateNotebook(store: Store, root: Option<Ref>, created: Result<Ref>) returns (res: Result<Ref>)
    requires store.Valid() && (root.Some? ==> root.value in store.roots)
    requires created.Success? ==> created.value in store.items && store.items[created.value].body.Notebook?
    modifies store
    ensures store.Valid()
    ensures created.Failure? ==> res == created && store.State() == old(store.State()) && store.roots == old(store.roots)
    ensures created.Success? && root.None? ==>
              res == Failure(NullReference) &&
              store.State() == SetRoot(old(store.State()), created.value, None) && store.roots == old(store.roots)
    ensures created.Success? && root.Some? ==>
              res == created &&
              store.State() == SetRoot(old(store.State()), created.value, root) &&
              store.roots == old(store.roots)[root.value := old(store.roots)[root.value].(notebooks := old(store.roots)[root.value].notebooks + [created.value])]
  {
    if created.Failure? {
      return created;
    }
    var nb := created.value;
    SetRootKeepsShape(store.State(), nb, root);
    store.AssignRoot(nb, root);
    if root.None? {
      return Failure(NullReference);
    }
    var r := store.roots[root.value];
    store.PutRoot(root.value, r.(notebooks := r.notebooks + [nb]));
    return created;
  }

  /** Setting a notebook's root changes no list, so the arena keeps its shape, and the notebook stays one. */
  lemma SetRootKeepsShape(a: Arena, nb: Ref, root: Option<Ref>)
    requires ArenaValid(a) && nb in a.items && a.items[nb].body.Notebook?
    ensures var b := SetRoot(a, nb, root);
            ArenaValid(b) && b.items.Keys == a.items.Keys &&
            b.items[nb].body.Notebook? && b.items[nb].RootRef() == root &&
            forall r | r in a.items && r != nb :: b.items[r] == a.items[r]
  {
    var b := SetRoot(a, nb, root);
    forall r, i | r in b.items && 0 <= i < |b.items[r].Children()|
      ensures b.items[r].Children()[i] in b.items && r < b.items[r].Children()[i]
    {
      assert b.items[r].Children() == a.items[r].Children();
    }
  }

  /** What DeleteOrClose does with an item. */
  datatype Disposal = Delete(item: Ref) | Close(notebook: Ref)

  /** The IDeletable kinds: section groups, sections and pages. */
  predicate IsDeletable(k: Kind) {
    k == SectionGroupKind || k == SectionKind || k == PageKind
  }

  /** DeleteOrClose: delete an IDeletable item, close a notebook, raise InvalidItem otherwise (null). */
  function DeleteOrClose(a: Arena, item: Option<Ref>): Result<Disposal>
    requires item.Some? ==> item.value in a.items
  {
    if item.Some? && IsDeletable(a.items[item.value].KindOf()) then Success(Delete(item.value))
    else if item.Some? && a.items[item.value].body.Notebook? then Success(Close(item.value))
    else Failure(InvalidItem)
  }

  /**
   * Every item of the hierarchy is either deleted or closed, never both, and
   * the operation is applied to the item itself: closed exactly when it is a
   * notebook. Only a null item is rejected.
   */
  lemma DeleteOrCloseDispatch(a: Arena, item: Option<Ref>)
    requires item.Some? ==> item.value in a.items
    ensures DeleteOrClose(a, item).Failure? <==> item.None?
    ensures DeleteOrClose(a, item).Failure? ==> DeleteOrClose(a, item).error == InvalidItem
    ensures item.Some? ==>
              (DeleteOrClose(a, item) == Success(Close(item.value)) <==> a.items[item.value].body.Notebook?) &&
              (DeleteOrClose(a, item) == Success(Delete(item.value)) <==> !a.items[item.value].body.Notebook?)
  {
  }
}
