# LinqToOneNote, modelled in Dafny

LinqToOneNote is a C# library over the OneNote note store. It keeps an in-memory, parent-linked tree of the store's hierarchy: Notebook → SectionGroup → Section → Page, plus a Root and a list of open sections. It builds that tree from the XML hierarchy snapshots the store returns. It then offers LINQ-style walks over the tree (Descendants, Traverse, GetAllPages, Ancestors, BeforeSelf, AfterSelf). It also wraps the store handle and the "refresh from the store" operations. The repository holds two generations of the code: `LinqToOneNote/` and the older `Odotocodot.OneNote.Linq/`. Where they differ, both are modelled, and each module says which one it follows.

What the model covers:

- **The hierarchy** (`hierarchy.dfy`, module `Hierarchy`).
  - Items live in an arena, `map<Ref, Item>`, with a counter that allocates references. A reference is an object's identity, and `None` stands for null.
  - `Item` carries the fields every kind has. `Body` is a tagged union Notebook | SectionGroup | Section | Page with each kind's own fields and child lists.
  - The class `Store` holds the arena and the Root objects. Its methods are the field writes the parsers make.
  - `ArenaValid` says every child has a larger reference than its container, which is what makes the walks terminate.
  - The module also holds OpenSections and the Root enumerator.
- **Collections** (`collections.dfy`, `containers.dfy`):
  - `ReadOnlyList` and the `ChildrenCollection` view;
  - the cached `Children` of a notebook and a section group's children view;
  - the `ChildrenCollection` enumerator as written and as corrected.
- **The four XML engines.** The input is a `Node` tree for the DOM engines and the reader's token sequence (`Tokens(node)`) for the streaming ones (`xml.dfy`).
  - The streaming `XmlReader` engine of `LinqToOneNote` (`reader_spec.dfy`, `reader_parser.dfy`, `reader_props.dfy`, `reader_findings.dfy`). It is a class `Reader` over the tokens, with one method per `Parse*`. Each method is proved to agree with a specification function, and the properties are proved about those functions.
  - The `XElement` engine of `LinqToOneNote` (`dom_spec.dfy`, `dom_parser.dfy`, `dom_props.dfy`), in the same three layers.
  - The two `LinqToOneNote` engines agree (`engine_agreement.dfy`). On a class of documents, `ParseRoot` and `Parse` give the same arena, Root and item, or the same error. In that class every element is in the OneNote namespace, a notebook or section group holds only sections and section groups, a section holds only pages, the one OpenSections element comes last and has an ID, and every boolean attribute is a true/false word. The streaming engine writes an item's Parent (or root) before its attributes and children, and the XElement engine writes it after them. The proof shows that the two orders give the same store.
  - The two older engines of `Odotocodot.OneNote.Linq` (`legacy_*.dfy`). They build value trees with `Parent`, `Notebook` and `RelativePath`, because they hold no arena and keep one mixed children list.
- **The walks** (`traversal.dfy`, `subtree.dfy`, `walk_facts.dfy`, `axes.dfy`, `entry_points.dfy`).
  - One stack loop `WalkLoop` serves every pre-order walk. It is proved against the recursive `PreOrder` and `SectionPages`, and those are proved to visit each item of the subtree exactly once.
  - `axes.dfy` holds the ancestor chain and the sibling split.
  - `entry_points.dfy` holds the argument checks of the public overloads.
- **Finite Parent chains** (`parent_chains.dfy`, `dom_chains.dfy`).
  - `Axes.ParentsAcyclic` says every Parent is a known item and some rank strictly grows from Parent to child. Ancestors, TryGetNotebook and GetRelativePath climb the chain under that assumption only.
  - Both `LinqToOneNote` engines, the forced re-link of GetAndUpdateParent and every other facade outcome are proved to keep it. A re-link may hang an item under a parent allocated after it, so the order of references alone would not do.
  - The older engines build value trees, whose Parent views cannot form a cycle.
- **Helpers.**
  - The item extension methods (`extensions.dfy`).
  - The two equality comparers (`comparers.dfy`).
  - The guards of `Throw` and name and search validation (`validation.dfy`).
  - `SimplePool` (`pool.dfy`).
- **The facades** (`lifecycle.dfy`, `onenote.dfy`, `application.dfy`).
  - The store handle of `OneNote` (ComObjectMode Lazy / Manual / Wrap and `Run`) and the `Lazy` handle of `OneNoteApplication`, including a `new Application()` that throws: `Run` then skips the action, and the `Lazy` keeps the exception for good.
  - RenameItem, DeleteItem and CreateItem, with their guards.
  - The cache-or-fetch refresh methods of both facades. What the store answers is a parameter.

The walks return a section's pages in a different order depending on the walk. `GetAllPages` yields a section's pages in page order. `Descendants` filtered to pages yields them in reverse, because children are pushed in order and then popped. The model follows the code. It proves that the two walks yield the same pages, each once, as a permutation (`Subtree.SectionPagesPermutesGetPages`), not that they yield the same order.

## Model

| member | source | states |
|---|---|---|
| Hierarchy.NewItem | src/LinqToOneNote/Classes/SectionGroup.cs:12-16 | a freshly constructed item of any kind has the requested kind, empty child lists, no parent (and, for a notebook, no root back-reference), a null Id (`None`), and default name, unread flag and timestamp |
| Hierarchy.ContainerChildren | src/LinqToOneNote/Classes/SectionGroup.cs:42-51 | a notebook's or section group's Children has Count = number of sections + number of section groups and, at every index, the element the ChildrenCollection indexer returns over its Sections and SectionGroups lists |
| Hierarchy.OpenSectionsObj.Count | src/LinqToOneNote/HierarchyItems/OpenSections.cs:32 | OpenSections.Count is the number of sections in its list |
| Hierarchy.OpenSectionsObj.Get | src/LinqToOneNote/HierarchyItems/OpenSections.cs:35 | OpenSections[i] is the i-th section of its list |
| Hierarchy.NewOpenSections | src/LinqToOneNote/HierarchyItems/OpenSections.cs:13 | a new OpenSections holds no section and has no id yet |
| Hierarchy.NewRoot | src/LinqToOneNote/HierarchyItems/Root.cs:13-27 | a new Root has no notebooks and a null OpenSections |
| Hierarchy.RootEnumerator.constructor | src/LinqToOneNote/HierarchyItems/Root.cs:47-54 | the enumerator will yield the root's notebooks followed by its open sections only when OpenSections was non-null at construction, and has yielded nothing yet |
| Hierarchy.RootEnumerator.MoveNext | src/LinqToOneNote/HierarchyItems/Root.cs:59-76 | MoveNext returns true exactly while planned items remain, and then sets Current to the next one (all notebooks in order, then the open sections in order); once exhausted it returns false and changes no cursor |
| Hierarchy.RootEnumerator.Reset | src/LinqToOneNote/HierarchyItems/Root.cs:78 | Reset changes neither what was yielded nor Current, so an enumerator cannot be restarted |
| Hierarchy.EnumerateRoot | src/LinqToOneNote/HierarchyItems/Root.cs:34-78 | enumerating a root to the end yields exactly its notebooks then its open sections (count = notebooks + open sections), and one more MoveNext after Reset still returns false; the older Root enumerator (Odotocodot.OneNote.Linq Classes/Root.cs) yields the same sequence |
| Hierarchy.Store.AddSection | src/LinqToOneNote/Parsers/XmlParserXmlReader.cs:174 | `sections.Add` on a container appends the section at the end of its sections list and changes nothing else in the store |
| Hierarchy.Store.AddSectionGroup | src/LinqToOneNote/Parsers/XmlParserXmlReader.cs:177 | `sectionGroups.Add` appends the group at the end of the container's sectionGroups list and changes nothing else |
| Hierarchy.Store.AddPage | src/LinqToOneNote/Parsers/XmlParserXmlReader.cs:229 | `section.pages.Add` appends the page at the end of the section's pages and changes nothing else |
| Hierarchy.Store.SetSectionColor | src/Odotocodot.OneNote.Linq/Section.cs:67 | the writable Color setter changes that section's colour and nothing else |
| Hierarchy.Store.SetSectionPath | src/Odotocodot.OneNote.Linq/Section.cs:68 | the writable Path setter changes that section's path and nothing else |
| Hierarchy.Store.SetSectionIsInRecycleBin | src/Odotocodot.OneNote.Linq/Section.cs:69 | the writable IsInRecycleBin setter changes that flag and nothing else |
| Hierarchy.SectionSetterKeepsValid | src/Odotocodot.OneNote.Linq/Section.cs:63-69 | rewriting a section's attribute fields while keeping its pages (its Children) preserves the store's parent/child shape |
| Collections.IndexOf | src/Odotocodot.OneNote.Linq/Internal/ReadOnlyList.cs:24 | the search List.Remove performs: -1 exactly when the item is absent, otherwise the index of its first occurrence |
| Collections.RemoveFirstSpec | src/Odotocodot.OneNote.Linq/Internal/ReadOnlyList.cs:24 | List.Remove leaves an absent item's list unchanged; for a present item it removes exactly one copy (the first), keeping the order of the rest |
| Collections.ReadOnlyList.constructor | src/Odotocodot.OneNote.Linq/Internal/ReadOnlyList.cs:20 | a new ReadOnlyList is empty |
| Collections.ReadOnlyList.Count | src/Odotocodot.OneNote.Linq/Internal/ReadOnlyList.cs:25 | Count is the backing list's length |
| Collections.ReadOnlyList.Get | src/Odotocodot.OneNote.Linq/Internal/ReadOnlyList.cs:22 | the indexer returns the backing list's element at that index |
| Collections.ReadOnlyList.Add | src/Odotocodot.OneNote.Linq/Internal/ReadOnlyList.cs:23 | Add appends: Count grows by one, the last element is the item and every earlier index keeps its element |
| Collections.ReadOnlyList.Remove | src/Odotocodot.OneNote.Linq/Internal/ReadOnlyList.cs:24 | Remove returns true iff the item was present, deletes its first occurrence, and leaves the list unchanged when it returns false |
| Collections.ChildAtIsConcatenation | src/Odotocodot.OneNote.Linq/Internal/ReadOnlyList.cs:31-32 | ChildrenCollection's Count (sections + section groups) and indexer (sections[i] below the section count, else sectionGroups[i - count]) describe exactly the concatenation sections ++ sectionGroups |
| Collections.ChildrenCollection.constructor | src/Odotocodot.OneNote.Linq/Internal/ReadOnlyList.cs:29 | the view holds the two given lists themselves, not copies |
| Collections.ChildrenCollection.Count | src/Odotocodot.OneNote.Linq/Internal/ReadOnlyList.cs:32 | the view's Count is the current number of sections plus section groups |
| Collections.ChildrenCollection.Get | src/Odotocodot.OneNote.Linq/Internal/ReadOnlyList.cs:31 | view[i] is sections[i] for i below the section count and sectionGroups[i - section count] otherwise |
| Collections.ChildrenEnumeratorAsWritten.MoveNext | src/Odotocodot.OneNote.Linq/Internal/ReadOnlyList.cs:41-56 | as written, every MoveNext reports true and the first section (or, with no sections, the first section group) whenever either list is non-empty |
| Collections.EnumerateAsWritten | src/Odotocodot.OneNote.Linq/Internal/ReadOnlyList.cs:41-56 | as written, n MoveNext calls report the same first element n times |
| Collections.AsWrittenNeverAdvances | src/Odotocodot.OneNote.Linq/Internal/ReadOnlyList.cs:41-56 | over sections [1, 2] the as-written enumerator reports [1, 1], the indexer order [1, 2] |
| Collections.ChildrenEnumerator.MoveNext | src/Odotocodot.OneNote.Linq/Internal/ReadOnlyList.cs:41-56 | corrected enumerator: returns true exactly while elements remain and sets Current to the next element of sections ++ sectionGroups |
| Collections.EnumerateChildren | src/Odotocodot.OneNote.Linq/Internal/ReadOnlyList.cs:31-34 | enumerating the corrected view to the end yields Count elements, the i-th being view[i] |
| Containers.SectionGroup.constructor | src/LinqToOneNote/Classes/SectionGroup.cs:12-16 | a new section group has two distinct empty lists and a Children view built over exactly those two lists |
| Containers.Notebook.constructor | src/Odotocodot.OneNote.Linq/Classes/Notebook.cs:14-16 | a new notebook has two distinct empty lists and no Children view yet |
| Containers.Notebook.Children | src/Odotocodot.OneNote.Linq/Classes/Notebook.cs:52-59 | the first read creates the view over the notebook's own two lists; later reads return that same instance |
| Containers.NotebookChildrenCached | src/Odotocodot.OneNote.Linq/Classes/Notebook.cs:52-59 | two reads of Children return the same view, and sections added after the first read show through it, ahead of the section group added before them |
| Containers.SectionGroupChildren | src/LinqToOneNote/Classes/SectionGroup.cs:42-51 | a section group's Children.Count is Sections.Count + SectionGroups.Count and its contents are the sections followed by the section groups |
| Validation.IfNull | src/Odotocodot.OneNote.Linq/Internal/Throw.cs:11-14 | IfNull fails exactly when the argument is null, and then with ArgumentNull |
| Validation.IfInvalidName | src/Odotocodot.OneNote.Linq/Internal/Throw.cs:31-37 | IfInvalidName<T> throws (ArgumentInvalid) exactly when IsValidName<T> is false |
| Validation.SearchRules | src/Odotocodot.OneNote.Linq/Internal/Throw.cs:16-24 | IfInvalidSearch passes exactly for a non-null, non-empty string whose first character is a letter or digit; null raises ArgumentNull, every other rejection (empty, white space, bad first character) ArgumentInvalid; the older ValidateSearch in OneNoteApplication.cs applies the same three rules in the same order |
| Validation.ValidNameByCharacters | src/Odotocodot.OneNote.Linq/OneNote.cs:519-520 | IsValidName<T>(name) holds exactly when some character is not white space and no character is one of T's invalid characters |
| Validation.NameRulesByKind | src/LinqToOneNote/Classes/SectionGroup.cs:23 | a section group accepts exactly the names a section accepts; a notebook agrees with them on names without '.' or '&', rejects a section-valid name containing '.', and a notebook-valid name containing '&' is section-invalid |
| Validation.BlankNamesInvalid | src/Odotocodot.OneNote.Linq/OneNote.cs:519-520 | null, empty and all-blank names are invalid for every kind |
| Validation.NullSectionGuard | src/Odotocodot.OneNote.Linq/Internal/Throw.cs:26-29 | IfNullSection throws ArgumentNull whatever it is given, even a present section that IfNull would pass |
| Comparers.ItemEqualsMeaning | src/LinqToOneNote/OneNoteItemEqualityComparer.cs:18-25 | the same reference (null included) is equal, exactly one null is unequal, and two items are otherwise equal iff their ids are, whatever their kinds |
| Comparers.IdEqualsRefinesItemEquals | src/Odotocodot.OneNote.Linq/Internal/OneNoteItem.cs:42-53 | IdComparer.Equals holds iff the id-only comparer holds and two non-null items are also of the same runtime kind |
| Comparers.ItemEqualsEquivalence | src/LinqToOneNote/OneNoteItemEqualityComparer.cs:18-25 | the id-only comparer is reflexive, symmetric and transitive |
| Comparers.IdEqualsEquivalence | src/Odotocodot.OneNote.Linq/Internal/OneNoteItem.cs:42-53 | IdComparer is reflexive (so ItemEquals(x, x) always holds), symmetric and transitive; ItemEquals in OneNoteItemExtensions.cs delegates to IdComparer and inherits these laws |
| Comparers.HashAgrees | src/Odotocodot.OneNote.Linq/Internal/OneNoteItem.cs:55-58 | items either comparer finds equal have the same GetHashCode outcome: the same hash of one id, or, when both Ids are null, a NullReferenceException from both (HashCode's own contract: it throws exactly for a null Id, and otherwise hashes the id) |
| Comparers.ComparersDisagree | src/LinqToOneNote/OneNoteItemEqualityComparer.cs:24 | a section and a page sharing an id are equal to the id-only comparer and unequal to IdComparer |
| Pooling.StepBounded | src/Odotocodot.OneNote.Linq/Internal/SimplePool.cs:21-31 | one Rent or Return keeps the pool within max; a Return below max keeps the object at the end, a Return at max discards it |
| Pooling.ReplayBounded | src/Odotocodot.OneNote.Linq/Internal/SimplePool.cs:6-32 | whatever the sequence of Rent and Return calls, the pool never holds more than max objects |
| Pooling.ReturnThenRent | src/Odotocodot.OneNote.Linq/Internal/SimplePool.cs:11-31 | a kept Return followed by a Rent hands back the returned object and restores the pool |
| Pooling.SimplePool.constructor | src/Odotocodot.OneNote.Linq/Internal/SimplePool.cs:6-9 | a new pool is empty with count 0 |
| Pooling.SimplePool.Rent | src/Odotocodot.OneNote.Linq/Internal/SimplePool.cs:11-19 | Rent takes a pooled object and decrements the count when there is one, otherwise returns a fresh object and changes nothing; count = pool size <= max is kept |
| Pooling.SimplePool.Return | src/Odotocodot.OneNote.Linq/Internal/SimplePool.cs:21-31 | Return keeps the object iff the incremented count is within max, otherwise restores the count; count = pool size <= max is kept |
| Traversal.SelectMembers | src/Odotocodot.OneNote.Linq/Linq/Descendants.cs:55-60 | the predicate filter keeps exactly the elements of the walk the predicate accepts (all of them for the overload without a predicate) |
| Traversal.Filter | src/Odotocodot.OneNote.Linq/Linq/Traverse.cs:41-55 | the foreach over a walk yields, in order, exactly the items the predicate accepts |
| Traversal.WalkLoop | src/Odotocodot.OneNote.Linq/Linq/Descendants.cs:27-37 | the stack loop (pop, yield if accepted, push the pushed items in order) yields the filtered depth-first walk, the last pushed item's subtree first |
| Traversal.Descendants | src/Odotocodot.OneNote.Linq/Linq/Descendants.cs:19-63 | Descendants(source[, predicate]) yields the accepted items of the pre-order walk from the source over Children, visiting the last child first; the older Traverse overloads (Linq/Traverse.cs and Extensions/LinqExtensions.cs in Odotocodot.OneNote.Linq) are this same walk with the same filtering |
| Traversal.DescendantsOfAll | src/Odotocodot.OneNote.Linq/Linq/Descendants.cs:65-115 | over a sequence of sources, each source's walk in source order, filtered by the predicate; the older sequence Traverse overloads (Traverse.cs, and SelectMany in LinqExtensions.cs) are this same concatenation |
| Traversal.GetAllPages | src/LinqToOneNote/Linq/GetAllPages.cs:39-62 | GetAllPages yields, for every section the walk reaches, that section's accepted pages in page order, and never descends below a section; the older GetAllPages (Odotocodot.OneNote.Linq Linq/GetAllPages.cs) is the same section-pruned walk without a predicate |
| Traversal.GetAllPagesOfAll | src/LinqToOneNote/Linq/GetAllPages.cs:80-106 | over a sequence of sources, each source's pages walk in source order, filtered by the predicate; the older sequence GetAllPages walks each source in turn with one shared stack, giving the same sequence |
| Subtree.PreOrderStartsAtSource | src/Odotocodot.OneNote.Linq/Linq/Descendants.cs:27-31 | Descendants yields the source itself first |
| Subtree.PreOrderExactlyOnce | src/Odotocodot.OneNote.Linq/Linq/Descendants.cs:27-37 | in a well-formed hierarchy Descendants yields no item twice |
| Subtree.PreOrderMembers | src/Odotocodot.OneNote.Linq/Linq/Descendants.cs:27-37 | Descendants(source) yields exactly the source and the items having the source among their Ancestors |
| Subtree.ChildrenAreParented | src/LinqToOneNote/Parsers/XmlParserXmlReader.cs:165-190 | in a well-formed hierarchy, being among an item's Children is the same as having it as Parent |
| Subtree.GetPages | src/Odotocodot.OneNote.Linq/Extensions/LinqExtensions.cs:71-76 | GetPages is the Traverse walk filtered by `is Page`; the older GetPages in Linq/GetAllPages.cs is the same filter |
| Subtree.GetPagesMembers | src/Odotocodot.OneNote.Linq/Extensions/LinqExtensions.cs:71-76 | GetPages yields exactly the pages that are the source or have the source among their Ancestors |
| Subtree.GetPagesOfPage | src/Odotocodot.OneNote.Linq/Extensions/LinqExtensions.cs:71-76 | GetPages on a page yields just that page |
| Subtree.PagedNodes | src/LinqToOneNote/Linq/GetAllPages.cs:44-60 | the items GetAllPages pops are exactly the source and the non-page items below it |
| Subtree.SectionPagesMembers | src/LinqToOneNote/Linq/GetAllPages.cs:39-62 | GetAllPages yields exactly the pages strictly below the source |
| Subtree.SectionPagesExactlyOnce | src/LinqToOneNote/Linq/GetAllPages.cs:39-62 | GetAllPages yields no page twice |
| Subtree.SectionPagesOfPage | src/LinqToOneNote/Linq/GetAllPages.cs:44-60 | GetAllPages on a page yields nothing (a page is neither a section nor has Children) |
| Subtree.SectionPagesPermutesGetPages | src/LinqToOneNote/Linq/GetAllPages.cs:39-62 | from any source but a page, GetAllPages and the Descendants-filtered pages are permutations of each other (same pages, each once, possibly in another order) |
| Axes.Ancestors | src/LinqToOneNote/Linq/Ancestors.cs:32-41 | the climb yields the accepted items of the Parent chain from origin's Parent to the topmost item (a null predicate accepts all) |
| Axes.ChainLinked | src/LinqToOneNote/Linq/Ancestors.cs:34-40 | the chain is empty iff its start is null; it starts there, each element's Parent is the next, the last has no Parent |
| Axes.BelowIsAcyclic | src/LinqToOneNote/Linq/Ancestors.cs:34-40 | a hierarchy in which every Parent has a smaller reference than its child has finite Parent chains |
| Axes.ChainUnique | src/LinqToOneNote/Linq/Ancestors.cs:34-40 | any Parent-linked sequence from the same start is that chain |
| Axes.AncestorsDistinct | src/LinqToOneNote/Linq/Ancestors.cs:32-41 | Ancestors never yields the origin and never yields an item twice |
| Axes.SplitAround | src/Odotocodot.OneNote.Linq/Linq/BeforeSelf.cs:56-65 | BeforeSelf's and AfterSelf's lists split the sibling list around origin's first occurrence (whole list before and nothing after when absent) |
| Axes.AfterExcludesSelf | src/Odotocodot.OneNote.Linq/Linq/AfterSelf.cs:55-71 | in a list without repeats AfterSelf never yields origin |
| Axes.InternalBeforeSelf | src/Odotocodot.OneNote.Linq/Linq/BeforeSelf.cs:56-65 | the loop yields the accepted elements before origin's first occurrence, stopping there |
| Axes.InternalAfterSelf | src/Odotocodot.OneNote.Linq/Linq/AfterSelf.cs:55-71 | the canYield loop yields the accepted elements after origin's first occurrence, nothing when origin is absent |
| Axes.BeforeSelf | src/Odotocodot.OneNote.Linq/Linq/BeforeSelf.cs:15-54 | siblings before origin from its Parent's Children, or its root's notebooks for a parentless notebook, nothing otherwise |
| Axes.AfterSelf | src/Odotocodot.OneNote.Linq/Linq/AfterSelf.cs:14-53 | siblings after origin, from the same list as BeforeSelf |
| EntryPoints.CheckArgs | src/Odotocodot.OneNote.Linq/Internal/Throw.cs:11-14 | the argument checks fail, with ArgumentNull, exactly when the item or a given predicate is null |
| EntryPoints.DescendantsChecked | src/Odotocodot.OneNote.Linq/Linq/Descendants.cs:19-63 | a null source or null predicate is rejected with ArgumentNull before the walk; otherwise the result is the filtered pre-order walk |
| EntryPoints.GetAllPagesChecked | src/LinqToOneNote/Linq/GetAllPages.cs:15-37 | a null source or null predicate is rejected with ArgumentNull; otherwise the result is the filtered pages walk |
| EntryPoints.AncestorsChecked | src/LinqToOneNote/Linq/Ancestors.cs:14-30 | only a null origin is rejected; a null predicate is let through and then accepts every ancestor |
| EntryPoints.BeforeSelfChecked | src/Odotocodot.OneNote.Linq/Linq/BeforeSelf.cs:15-54 | a null origin or predicate is rejected with ArgumentNull; otherwise the filtered siblings before origin |
| EntryPoints.AfterSelfChecked | src/Odotocodot.OneNote.Linq/Linq/AfterSelf.cs:14-53 | a null origin or predicate is rejected with ArgumentNull; otherwise the filtered siblings after origin |
| EntryPoints.TraverseEnumerated | src/Odotocodot.OneNote.Linq/Linq/Traverse.cs:16-55 | Traverse checks nothing: on an item it yields the Descendants walk; a null source is yielded (if accepted) and then NullReference is raised; a null predicate raises NullReference before anything is yielded |
| ItemExtensions.RecycleBinFlags | src/LinqToOneNote/Classes/Extensions.cs:71-80 | IsInRecycleBin: never for a notebook or a new item; a section group iff it is the recycle bin; a section with IsDeletedPages is; a section or page with its flag set is; the older IsInRecycleBin (OneNoteItemExtensions.cs) makes the same case analysis |
| ItemExtensions.FirstRecycleBinSpec | src/LinqToOneNote/Classes/Extensions.cs:92 | FirstOrDefault(sg => sg.IsRecycleBin) finds nothing iff no section group is a recycle bin, otherwise the first one that is |
| ItemExtensions.GetRecycleBin | src/LinqToOneNote/Classes/Extensions.cs:90-94 | a null notebook throws NullReferenceException; otherwise a found recycle bin is one of the notebook's direct section groups and is a recycle bin, and none is found only when no direct section group is one (true is returned exactly when one is found); the older GetRecycleBin (OneNoteItemExtensions.cs) finds the same first recycle-bin group |
| ItemExtensions.Topmost | src/LinqToOneNote/Classes/Extensions.cs:107-111 | the climb ends at a known item without a Parent |
| ItemExtensions.TryGetNotebook | src/LinqToOneNote/Classes/Extensions.cs:105-119 | TryGetNotebook's loop computes NotebookOf: NullReference for a null item or one without a Parent, otherwise the topmost ancestor if it is a notebook, else false/null |
| ItemExtensions.TopmostEndsChain | src/LinqToOneNote/Classes/Extensions.cs:107-111 | the topmost item is the last element of the Parent chain from the item |
| ItemExtensions.NotebookOfAncestors | src/LinqToOneNote/Classes/Extensions.cs:105-119 | TryGetNotebook throws exactly when the item has no ancestors, and otherwise returns the farthest ancestor exactly when that is a notebook |
| ItemExtensions.NotebookHasNoNotebook | src/LinqToOneNote/Classes/Extensions.cs:107 | TryGetNotebook on a notebook dereferences a null Parent |
| ItemExtensions.GetRelativePath | src/LinqToOneNote/Classes/Extensions.cs:134-160 | a null item raises ArgumentNull; otherwise the loop of front insertions yields RelativePath (label for a notebook, Parent's path + separator + Name otherwise, nothing for null) |
| ItemExtensions.PathAlongChain | src/LinqToOneNote/Classes/Extensions.cs:134-160 | the path is the notebook label and one separator-plus-Name segment per item below it, from the notebook down, or just the segments when the chain has no notebook |
| ItemExtensions.PathWithoutNotebook | src/LinqToOneNote/Classes/Extensions.cs:141-153 | without a notebook at the top the path starts with the separator; a notebook's own path is its label (DisplayName or Name by the flag) |
| ItemExtensions.PathStartsAtNotebook | src/LinqToOneNote/Classes/Extensions.cs:105-160 | when TryGetNotebook finds a notebook, the relative path starts with that notebook's label |
| ItemExtensions.CreateNotebook | src/LinqToOneNote/Classes/Extensions.cs:35-41 | the created notebook gets the root as its root and is appended to root.notebooks; a failing OneNote.CreateNotebook changes nothing; on a null root the notebook is still created, its root set to null, and NullReferenceException is thrown with no list changed |
| ItemExtensions.SetRootKeepsShape | src/LinqToOneNote/Classes/Extensions.cs:38 | setting a notebook's root changes only that notebook's root reference |
| ItemExtensions.DeleteOrCloseDispatch | src/LinqToOneNote/Classes/Extensions.cs:174-189 | a notebook is closed, every other item deleted, never both; only a null item raises InvalidItem |
| ComLifecycle.AcquireRelease | src/Odotocodot.OneNote.Linq/OneNote.cs:66-95 | ReleaseComObject is idempotent and leaves no object; InitComObject keeps an existing object and otherwise makes one unless `new Application()` throws COMException; a failed attempt leaves no object, faults OneNoteApplication's Lazy for good and leaves OneNote's field free to try again; after a successful Init a second one changes nothing; an object acquired after a release is a new one |
| ComLifecycle.RunContract | src/Odotocodot.OneNote.Linq/OneNote.cs:524-577 | Run invokes the action exactly when Manual mode has an object or Lazy/Wrap mode has or can make one; Manual without an object throws NoComObject and changes nothing; a failed InitComObject inside the `try` throws without running the action; Wrap ends with no object on every path; Lazy ends with what acquiring left, an object whenever the action ran; Manual never acquires or releases |
| ComLifecycle.WrapCallsDoNotShare | src/Odotocodot.OneNote.Linq/OneNote.cs:528-547 | in Wrap mode two calls in a row both end without an object, the second makes a fresh creation attempt, and when both get an object they are different ones |
| ComLifecycle.ComSession.constructor | src/Odotocodot.OneNote.Linq/OneNote.cs:38-40 | the mode starts Lazy with no object and no creation attempt |
| ComLifecycle.ComSession.SetComObjectMode | src/Odotocodot.OneNote.Linq/OneNote.cs:61 | only the mode changes |
| ComLifecycle.ComSession.InitComObject | src/Odotocodot.OneNote.Linq/OneNote.cs:66-76 | `application ??= new Application()`: succeeds exactly when an object is held afterwards, and a failed creation throws COMException and leaves the field null |
| ComLifecycle.ComSession.ReleaseComObject | src/Odotocodot.OneNote.Linq/OneNote.cs:83-95 | a held object is released and the field nulled |
| ComLifecycle.ComSession.Run | src/Odotocodot.OneNote.Linq/OneNote.cs:524-577 | the method's answer, new state and whether the action ran are RunCall's, a failed InitComObject included |
| ComLifecycle.LazyApplication.constructor | src/Odotocodot.OneNote.Linq/OneNoteApplication.cs:25 | a Lazy with no value yet and no fault |
| ComLifecycle.LazyApplication.OneNote | src/Odotocodot.OneNote.Linq/OneNoteApplication.cs:25-60 | reading the property creates the value on first read and returns it; a failed creation throws and is cached, so every later read throws again |
| ComLifecycle.LazyApplication.InitComObject | src/Odotocodot.OneNote.Linq/OneNoteApplication.cs:65-75 | reads the value unless created already; succeeds exactly when a value is created afterwards, and otherwise throws the creation's COMException |
| ComLifecycle.LazyApplication.ReleaseComObject | src/Odotocodot.OneNote.Linq/OneNoteApplication.cs:84-94 | a created value is released and the Lazy replaced by a fresh one; a faulted Lazy, which has no created value, stays faulted |
| ComLifecycle.ApplicationCallIsLazyRun | src/Odotocodot.OneNote.Linq/OneNoteApplication.cs:25-60 | every OneNoteApplication call behaves as a Lazy-mode Run on its Lazy: it acquires when needed, never releases and never raises NoComObject; it runs exactly when a value is or can be created; a failed creation faults the Lazy, and from then on every call throws without running and releasing does not help |
| OneNoteFacade.Cleared | src/Odotocodot.OneNote.Linq/OneNote.cs:618-626 | the `Clear()` calls leave the item with no children and keep every other item and the allocation counter |
| OneNoteFacade.ClearedFacts | src/Odotocodot.OneNote.Linq/OneNote.cs:618-626 | clearing empties the item's lists and keeps its kind, Parent, root and every other item |
| OneNoteFacade.RefreshFacts | src/Odotocodot.OneNote.Linq/OneNote.cs:618-634 | a successful refresh changes only the item and new items and links every child to it (after clearing) or appends to the old lists (without); a failed fetch leaves the lists cleared or untouched |
| OneNoteFacade.RefreshChildren | src/Odotocodot.OneNote.Linq/OneNote.cs:618-634 | the clear / Run / ParseExisting step leaves exactly RefreshOutcome's result, handle and hierarchy |
| OneNoteFacade.RefreshAcyclic | src/Odotocodot.OneNote.Linq/OneNote.cs:618-634 | clearing an item's lists and parsing into it again keeps every Parent chain finite |
| OneNoteFacade.UpdatesAcyclic | src/Odotocodot.OneNote.Linq/OneNote.cs:610-669 | UpdateDescendants and GetAndUpdateChildren leave hierarchies with finite Parent chains |
| OneNoteFacade.CopiesAcyclic | src/Odotocodot.OneNote.Linq/OneNote.cs:593-608 | GetChildren and GetParent leave hierarchies with finite Parent chains |
| OneNoteFacade.UpdateDescendants | src/Odotocodot.OneNote.Linq/OneNote.cs:610-638 | Partial.UpdateDescendants leaves exactly UpdateDescendantsOutcome's result, handle and hierarchy |
| OneNoteFacade.UpdateDescendantsPolicy | src/Odotocodot.OneNote.Linq/OneNote.cs:610-638 | null is ArgumentNull; a Notebooks or Self scope, a page or a non-forced item with children is returned unchanged without a store call; otherwise the item comes back refilled with its lists linked to it |
| OneNoteFacade.GetAndUpdateChildren | src/Odotocodot.OneNote.Linq/OneNote.cs:640-669 | the result is the item's Children in the hierarchy left behind (an error when the fetch or parse fails) |
| OneNoteFacade.ChildrenPolicy | src/Odotocodot.OneNote.Linq/OneNote.cs:640-669 | pages and non-forced items with children are answered from the cache; a fetch clears then links the new children to the item, where OneNoteApplication's variant appends to the cached lists |
| OneNoteFacade.RelinkParent | src/Odotocodot.OneNote.Linq/OneNote.cs:696-710 | Parse(xml, null), the cast by kind and `item.Parent = parent` leave exactly Relinked's result and hierarchy |
| OneNoteFacade.RelinkedFacts | src/Odotocodot.OneNote.Linq/OneNote.cs:696-710 | a successful re-link gives the item a new parent of the kind its cast demands (a section for a page, a notebook or section group otherwise) and keeps its kind and lists |
| OneNoteFacade.SetParentKeeps | src/Odotocodot.OneNote.Linq/OneNote.cs:698-708 | `item.Parent = parent` changes only that item's Parent |
| OneNoteFacade.RelinkedAcyclic | src/Odotocodot.OneNote.Linq/OneNote.cs:696-710 | a re-link keeps every Parent chain finite, and after a successful one the item's Ancestors are exactly the new parent |
| OneNoteFacade.ParentOutcomeAcyclic | src/Odotocodot.OneNote.Linq/OneNote.cs:686-711 | every hierarchy GetAndUpdateParent leaves behind has finite Parent chains |
| ParentChains.HangUnderTop | src/Odotocodot.OneNote.Linq/OneNote.cs:698-708 | `item.Parent = parent` to an existing other item with no Parent keeps the chains finite and makes that item the only ancestor |
| OneNoteFacade.GetAndUpdateParent | src/Odotocodot.OneNote.Linq/OneNote.cs:686-711 | Partial.GetAndUpdateParent leaves exactly ParentOutcome's result, handle and hierarchy |
| OneNoteFacade.ParentPolicy | src/Odotocodot.OneNote.Linq/OneNote.cs:686-711 | a notebook gets null and a cached Parent is returned unless forced, without a store call; a fetch re-links the item to a new parent of the right kind |
| OneNoteFacade.DeleteItem | src/Odotocodot.OneNote.Linq/OneNote.cs:203-212 | DeleteItem leaves exactly DeleteOutcome's result, handle and hierarchy |
| OneNoteFacade.DeleteEffect | src/Odotocodot.OneNote.Linq/OneNote.cs:203-212 | an item in the recycle bin is left alone without a store call; a null Parent raises NullReference after the store deleted; otherwise the first occurrence leaves its parent's list for its kind and nothing else changes |
| OneNoteFacade.RemoveChildLists | src/Odotocodot.OneNote.Linq/OneNote.cs:211 | `Parent.Children.Remove(item)` rewrites only the list for the item's kind, removing its first occurrence |
| OneNoteFacade.RenameItem | src/Odotocodot.OneNote.Linq/OneNote.cs:232-269 | RenameItem leaves exactly RenameOutcome's result, handle and hierarchy |
| OneNoteFacade.RenameGuardRules | src/Odotocodot.OneNote.Linq/OneNote.cs:234-245 | null item or name: ArgumentNull; a blank name or an item in the recycle bin: ArgumentInvalid; section groups and sections must also have a valid name; notebooks and pages accept any non-blank name |
| OneNoteFacade.RenameEffect | src/Odotocodot.OneNote.Linq/OneNote.cs:232-269 | a rejected rename changes nothing; a successful one writes a notebook's DisplayName (not its Name) or another kind's Name and nothing else; a store failure after the write keeps the written field; a fetched hierarchy that does not parse, a fetched element without the nickname (notebook) or name attribute (NullReferenceException), and a page whose title cannot be read fail before the write and change nothing |
| OneNoteFacade.GetHierarchy | src/Odotocodot.OneNote.Linq/OneNote.cs:583-591 | Partial.GetHierarchy fetches through Run and returns ParseRoot's root (its error when it fails), registering the new root |
| OneNoteFacade.GetChildren | src/Odotocodot.OneNote.Linq/OneNote.cs:593-608 | Partial.GetChildren leaves exactly GetChildrenOutcome's result: none for a page, otherwise the Children of a freshly parsed copy |
| OneNoteFacade.GetParent | src/Odotocodot.OneNote.Linq/OneNote.cs:671-684 | Partial.GetParent leaves exactly GetParentOutcome's result: null for a notebook, otherwise a new item parsed from the parent's XML |
| ApplicationFacade.GetChildrenAndUpdate | src/Odotocodot.OneNote.Linq/OneNoteApplication.cs:449-465 | answered from the cache for a page or a non-forced item with children; otherwise ParseExisting appends to the item's lists without clearing them, and the result is the item's Children afterwards |
| ApplicationFacade.GetParentAndUpdate | src/Odotocodot.OneNote.Linq/OneNoteApplication.cs:481-510 | the same policy and re-link as the OneNote facade's GetAndUpdateParent, in Lazy mode |
| ApplicationFacade.GetParent | src/Odotocodot.OneNote.Linq/OneNoteApplication.cs:467-479 | the same result as the OneNote facade's GetParent, in Lazy mode |
| ApplicationFacade.GetHierarchy | src/Odotocodot.OneNote.Linq/OneNoteApplication.cs:430-434 | acquires the object; a failed creation or a failed fetch changes nothing, otherwise the result is ParseRoot's root (or its error) |
| ApplicationFacade.SectionChildrenAsWrittenFail | src/Odotocodot.OneNote.Linq/OneNoteApplication.cs:445 | as written, GetChildren on any section fails with InvalidCast, because the section is passed as the parent of the section element read back |
| ApplicationFacade.EmptySectionChildren | src/Odotocodot.OneNote.Linq/OneNoteApplication.cs:436-446 | on an empty section the as-written call throws InvalidCast while the corrected one answers no children |
| ApplicationFacade.GetChildren | src/Odotocodot.OneNote.Linq/OneNoteApplication.cs:436-446 | corrected GetChildren: parses with a null parent, as the OneNote facade does, and leaves exactly that facade's Lazy-mode result |
| ApplicationFacade.GetChildrenFacts | src/Odotocodot.OneNote.Linq/OneNoteApplication.cs:436-446 | the corrected call acquires the object, passes a creation or fetch error through unchanged, and otherwise returns the children of a new item, linked to it, with no earlier item changed |
| ApplicationFacade.Descendants | src/Odotocodot.OneNote.Linq/OneNoteApplication.cs:219-220 | `doc.Descendants()` yields an element first, nothing for text |
| ApplicationFacade.DescendantsAreElements | src/Odotocodot.OneNote.Linq/OneNoteApplication.cs:219-220 | everything `doc.Descendants()` yields is an element |
| ApplicationFacade.FirstWithId | src/Odotocodot.OneNote.Linq/OneNoteApplication.cs:219-220 | FirstOrDefault finds the first element whose ID attribute equals the item's id, and nothing exactly when none does |
| ApplicationFacade.RenameItem | src/Odotocodot.OneNote.Linq/OneNoteApplication.cs:212-242 | OneNoteApplication.RenameItem leaves exactly RenameOutcome's result, handle and hierarchy |
| ApplicationFacade.RenameEffect | src/Odotocodot.OneNote.Linq/OneNoteApplication.cs:212-242 | an item in the recycle bin is rejected before any store call; a failed creation of the object changes nothing; without a matching element nothing changes; a matching element without a name attribute throws NullReferenceException and changes nothing; otherwise the item's Name becomes the new name, with no name check, and nothing else changes |
| ApplicationFacade.RenameUnsetId | src/Odotocodot.OneNote.Linq/OneNoteApplication.cs:218-226 | an item whose Id was never set matches the document's root when that root has no ID (null equals null), and the root's missing name attribute throws NullReferenceException; nothing changes |
| ApplicationFacade.NotebookRenameDiffers | src/Odotocodot.OneNote.Linq/OneNoteApplication.cs:228-231 | OneNoteApplication renames a notebook's Name and keeps its DisplayName; the OneNote facade does the opposite |
| ApplicationFacade.CreateItem | src/Odotocodot.OneNote.Linq/OneNoteApplication.cs:315-328 | CreateItem's result and handle are CreateOutcome's |
| ApplicationFacade.CreateGuard | src/Odotocodot.OneNote.Linq/OneNoteApplication.cs:315-328 | an invalid name throws ArgumentInvalid before any store call; otherwise the new ID is returned unless the object cannot be created, OpenHierarchy fails or (when opening) NavigateTo fails |
| Xml.Read | src/LinqToOneNote/Parsers/XmlParserXmlReader.cs:94 | XmlReader.Read advances by one node whenever input remains |
| Xml.Skip | src/LinqToOneNote/Parsers/XmlParserXmlReader.cs:245 | XmlReader.Skip advances whenever input remains and never moves backwards |
| Xml.SkipElement | src/LinqToOneNote/Parsers/XmlParserXmlReader.cs:245 | Skip on an element passes exactly that element's tokens, children and end tag included |
| Xml.ReadStartElement | src/LinqToOneNote/Parsers/XmlParserXmlReader.cs:79 | ReadStartElement succeeds exactly on an element start and then moves past it |
| Xml.ReadEndElement | src/LinqToOneNote/Parsers/XmlParserXmlReader.cs:104 | ReadEndElement succeeds exactly on an end tag and then moves past it |
| XmlParserXmlReader.Reader.constructor | src/LinqToOneNote/Parsers/XmlParserXmlReader.cs:17-19 | a new reader is positioned on the first token of the document |
| XmlParserXmlReader.Reader.Read | src/LinqToOneNote/Parsers/XmlParserXmlReader.cs:94 | the reader's position moves as Xml.Read says |
| XmlParserXmlReader.Reader.Skip | src/LinqToOneNote/Parsers/XmlParserXmlReader.cs:245 | the reader's position moves as Xml.Skip says |
| XmlParserXmlReader.Reader.ReadStartElement | src/LinqToOneNote/Parsers/XmlParserXmlReader.cs:79 | succeeds exactly when Xml.ReadStartElement does; otherwise XmlMalformed and the reader stays put |
| XmlParserXmlReader.Reader.ReadEndElement | src/LinqToOneNote/Parsers/XmlParserXmlReader.cs:104 | succeeds exactly when Xml.ReadEndElement does; otherwise XmlMalformed and the reader stays put |
| XmlParserXmlReader.Reader.PassOther | src/LinqToOneNote/Parsers/XmlParserXmlReader.cs:180-187 | the child loops' `reader.Read()` on a node they do not parse moves as XmlReaderSpec.PassOther says |
| XmlReaderSpec.PassOther | src/LinqToOneNote/Parsers/XmlParserXmlReader.cs:180-187 | the default branch always makes progress, so every child loop ends |
| XmlReaderSpec.ApplyAttribute | src/LinqToOneNote/Parsers/XmlParserXmlReader.cs:253-308 | one attribute never changes an item's kind, Parent, root or lists |
| XmlReaderSpec.ApplyAttributes | src/LinqToOneNote/Parsers/XmlParserXmlReader.cs:251-309 | the SetAttributes loop never changes an item's kind, Parent, root or lists |
| XmlReaderSpec.SetAttributes | src/LinqToOneNote/Parsers/XmlParserXmlReader.cs:249-310 | SetAttributes allocates nothing and keeps the item's links |
| XmlReaderSpec.LastValue | src/LinqToOneNote/Parsers/XmlParserXmlReader.cs:111-117 | the value left by a loop overwriting on each match: none iff no attribute has the name, otherwise the value of the last one that does |
| XmlReaderSpec.ParsePage | src/LinqToOneNote/Parsers/XmlParserXmlReader.cs:241-247 | ParsePage always consumes at least the page's start token |
| XmlReaderSpec.ParseSection | src/LinqToOneNote/Parsers/XmlParserXmlReader.cs:211-239 | ParseSection always consumes at least the section's start token |
| XmlReaderSpec.ParseSectionGroup | src/LinqToOneNote/Parsers/XmlParserXmlReader.cs:192-209 | ParseSectionGroup always consumes at least the group's start token |
| XmlReaderSpec.ParseNotebook | src/LinqToOneNote/Parsers/XmlParserXmlReader.cs:145-163 | ParseNotebook always consumes at least the notebook's start token |
| XmlReaderSpec.ParseOpenSections | src/LinqToOneNote/Parsers/XmlParserXmlReader.cs:108-143 | the OpenSections Id is the value of the last ID attribute (none without one), and at least the start token is consumed |
| XmlReaderSpec.ParseRoot | src/LinqToOneNote/Parsers/XmlParserXmlReader.cs:69-106 | the new Root is the next reference allocated |
| XmlReaderSpec.Parse | src/LinqToOneNote/Parsers/XmlParserXmlReader.cs:23-40 | the parsed item is the next reference allocated |
| XmlParserXmlReader.SetAttributes | src/LinqToOneNote/Parsers/XmlParserXmlReader.cs:249-310 | the MoveToNextAttribute loop leaves the store as XmlReaderSpec.SetAttributes says, or fails with its error |
| XmlParserXmlReader.ParsePage | src/LinqToOneNote/Parsers/XmlParserXmlReader.cs:241-247 | result, store and reader position are XmlReaderSpec.ParsePage's |
| XmlParserXmlReader.ParseSection | src/LinqToOneNote/Parsers/XmlParserXmlReader.cs:211-239 | result, store and reader position are XmlReaderSpec.ParseSection's, the page loop included |
| XmlParserXmlReader.ParseChildren | src/LinqToOneNote/Parsers/XmlParserXmlReader.cs:165-190 | result, store and reader position are XmlReaderSpec.ParseChildren's |
| XmlParserXmlReader.ParseSectionGroup | src/LinqToOneNote/Parsers/XmlParserXmlReader.cs:192-209 | result, store and reader position are XmlReaderSpec.ParseSectionGroup's |
| XmlParserXmlReader.ParseNotebook | src/LinqToOneNote/Parsers/XmlParserXmlReader.cs:145-163 | result, store and reader position are XmlReaderSpec.ParseNotebook's |
| XmlParserXmlReader.ParseOpenSections | src/LinqToOneNote/Parsers/XmlParserXmlReader.cs:108-143 | the OpenSections object, store and reader position are XmlReaderSpec.ParseOpenSections's |
| XmlParserXmlReader.ParseRootChildren | src/LinqToOneNote/Parsers/XmlParserXmlReader.cs:81-102 | the loop of ParseRoot leaves the Root, store and reader position XmlReaderSpec.ParseRootChildren computes |
| XmlParserXmlReader.ParseRoot | src/LinqToOneNote/Parsers/XmlParserXmlReader.cs:69-106 | the new Root is registered under the reference XmlReaderSpec.ParseRoot gives, with its store and reader position |
| XmlParserXmlReader.ParseRootXml | src/LinqToOneNote/Parsers/XmlParserXmlReader.cs:15-21 | ParseRoot(string) registers the Root XmlReaderSpec.ParseRoot computes, or fails with its error |
| XmlParserXmlReader.Parse | src/LinqToOneNote/Parsers/XmlParserXmlReader.cs:23-40 | Parse(string, parent) returns the item and store XmlReaderSpec.Parse computes, or its error |
| XmlParserXmlReader.ParseExisting | src/LinqToOneNote/Parsers/XmlParserXmlReader.cs:42-67 | ParseExisting leaves the store XmlReaderSpec.ParseExisting computes, or its error |
| XmlReaderProperties.SetAttributesFrame | src/LinqToOneNote/Parsers/XmlParserXmlReader.cs:249-310 | SetAttributes rewrites only the item's own fields; its kind, Parent and lists stay |
| XmlReaderProperties.ParsePageFacts | src/LinqToOneNote/Parsers/XmlParserXmlReader.cs:241-247 | ParsePage gives the page the given Parent and changes nothing else but the page |
| XmlReaderProperties.ParsePagesFacts | src/LinqToOneNote/Parsers/XmlParserXmlReader.cs:225-236 | the page loop only appends new pages, each with the section as Parent, and keeps the earlier pages linked |
| XmlReaderProperties.ParseSectionFacts | src/LinqToOneNote/Parsers/XmlParserXmlReader.cs:211-239 | ParseSection gives the section the given Parent, only grows its pages, and changes nothing but the section and new pages |
| XmlReaderProperties.ParseChildrenFacts | src/LinqToOneNote/Parsers/XmlParserXmlReader.cs:165-190 | ParseChildren only appends to the container's two lists, each new child a new item whose Parent is the container |
| XmlReaderProperties.ParseSectionGroupFacts | src/LinqToOneNote/Parsers/XmlParserXmlReader.cs:192-209 | ParseSectionGroup gives the group the given Parent and only grows its lists |
| XmlReaderProperties.ParseNotebookFacts | src/LinqToOneNote/Parsers/XmlParserXmlReader.cs:145-163 | ParseNotebook sets the given root back-reference and only grows the notebook's lists |
| XmlReaderProperties.ParseOpenSectionListFacts | src/LinqToOneNote/Parsers/XmlParserXmlReader.cs:128-139 | the open-section loop appends new parentless sections and leaves every old item alone |
| XmlReaderProperties.ParseOpenSectionsFacts | src/LinqToOneNote/Parsers/XmlParserXmlReader.cs:108-143 | every open section is a new section without a Parent |
| XmlReaderProperties.ParseRootChildrenFacts | src/LinqToOneNote/Parsers/XmlParserXmlReader.cs:81-102 | notebooks are appended in document order, each a new notebook pointing back at the Root; open sections are new parentless sections; no earlier item changes |
| XmlReaderProperties.ParseRootFacts | src/LinqToOneNote/Parsers/XmlParserXmlReader.cs:69-106 | the Root reference is no item; an empty top element gives an empty Root; otherwise the Root's notebooks and open sections are linked |
| XmlReaderProperties.ParseErrors | src/LinqToOneNote/Parsers/XmlParserXmlReader.cs:28-39 | a non-element top node is InvalidXmlNodeType, an unknown name InvalidXmlElement, a parent of the wrong kind InvalidCast |
| ParentChains.ParseRootAcyclic | src/LinqToOneNote/Parsers/XmlParserXmlReader.cs:69-106 | ParseRoot keeps every Parent chain finite and every reference allocated |
| ParentChains.ParseAcyclic | src/LinqToOneNote/Parsers/XmlParserXmlReader.cs:23-40 | Parse under an existing parent, or none, keeps every Parent chain finite |
| ParentChains.ParseExistingAcyclic | src/LinqToOneNote/Parsers/XmlParserXmlReader.cs:42-67 | ParseExisting keeps every Parent chain finite |
| XmlReaderProperties.ParseFacts | src/LinqToOneNote/Parsers/XmlParserXmlReader.cs:23-40 | a successful Parse gives a new item of the named kind with the given Parent (a notebook gets no root) and its children linked to it; no earlier item changes |
| XmlReaderProperties.ParseExistingFacts | src/LinqToOneNote/Parsers/XmlParserXmlReader.cs:42-67 | ParseExisting keeps the item's kind, Parent and root, only appends to its lists (never clears) and changes no other earlier item |
| XmlReaderProperties.KindAttributeFails | src/LinqToOneNote/Parsers/XmlParserXmlReader.cs:267-307 | a kind-specific row fails exactly on a bool attribute of that kind whose value bool.Parse rejects, with a format error |
| XmlReaderProperties.OneAttributeFails | src/LinqToOneNote/Parsers/XmlParserXmlReader.cs:253-308 | one attribute fails exactly when the item's kind decodes it with bool.Parse and that rejects it, and keeps the kind otherwise |
| XmlReaderProperties.ApplyAttributesFails | src/LinqToOneNote/Parsers/XmlParserXmlReader.cs:249-310 | SetAttributes fails exactly when some attribute the kind decodes with bool.Parse holds text it rejects, and then with a format error |
| XmlReaderProperties.OneAttributeWrites | src/LinqToOneNote/Parsers/XmlParserXmlReader.cs:255-289 | ID, name and lastModifiedTime write their field on every kind, nickname a notebook's display name; other attributes leave those fields alone |
| XmlReaderProperties.LastAttributeWins | src/LinqToOneNote/Parsers/XmlParserXmlReader.cs:249-310 | when an attribute name repeats, its last occurrence decides the field |
| XmlReaderFindings.StepIntoMisreadsSection | src/LinqToOneNote/Parsers/XmlParserXmlReader.cs:231-234 | as written, on `<Section><Other><Page ID="nested"/></Other><Page ID="own"/></Section>` the section gets the nested page and returns with its own page and end tag unread |
| XmlReaderFindings.SkipOverReadsSection | src/LinqToOneNote/Parsers/XmlParserXmlReader.cs:231-234 | with Skip in the default branch the same section gets its own page and consumes all its tokens |
| XmlReaderFindings.ParseSectionExact | src/LinqToOneNote/Parsers/XmlParserXmlReader.cs:211-239 | with Skip, ParseSection on an element consumes exactly that element |
| XmlReaderFindings.ParseSectionGroupExact | src/LinqToOneNote/Parsers/XmlParserXmlReader.cs:192-209 | with Skip, ParseSectionGroup on an element consumes exactly that element |
| XmlReaderFindings.ParseNotebookExact | src/LinqToOneNote/Parsers/XmlParserXmlReader.cs:145-163 | with Skip, ParseNotebook on an element consumes exactly that element |
| XmlReaderFindings.ParseOpenSectionsExact | src/LinqToOneNote/Parsers/XmlParserXmlReader.cs:108-143 | with Skip, ParseOpenSections on an element consumes exactly that element |
| XmlReaderFindings.ParseRootExact | src/LinqToOneNote/Parsers/XmlParserXmlReader.cs:69-106 | with Skip, ParseRoot on an element consumes exactly that element |
| XmlReaderFindings.ParseExact | src/LinqToOneNote/Parsers/XmlParserXmlReader.cs:23-40 | with Skip, Parse on an element consumes exactly that element |
| XElementSpec.ApplyAttribute | src/LinqToOneNote/Parsers/XmlParserXElement.cs:127-181 | one attribute never changes an item's kind, Parent, root or lists |
| XElementSpec.ApplyKindAttribute | src/LinqToOneNote/Parsers/XmlParserXElement.cs:141-180 | the kind-specific rows never change the item's links |
| XElementSpec.ApplyAttributes | src/LinqToOneNote/Parsers/XmlParserXElement.cs:125-183 | the attribute loop never changes an item's kind, Parent, root or lists |
| XElementSpec.SetAttributes | src/LinqToOneNote/Parsers/XmlParserXElement.cs:123-184 | SetAttributes allocates nothing and keeps the item's links |
| XElementSpec.AsContainer | src/LinqToOneNote/Parsers/XmlParserXElement.cs:107 | the `(INotebookOrSectionGroup)` cast succeeds exactly on null, a notebook or a section group, and keeps the reference |
| XElementSpec.AsSection | src/LinqToOneNote/Parsers/XmlParserXElement.cs:118 | the `(Section)` cast succeeds exactly on null or a section, and keeps the reference |
| XElementSpec.FirstNamed | src/LinqToOneNote/Parsers/XmlParserXElement.cs:33 | `Element(name)` finds the first child element of that name in document order, and none only when no child has the name |
| XElementSpec.AttributeValue | src/LinqToOneNote/Parsers/XmlParserXElement.cs:38 | `Attribute(name)` is present exactly when some attribute has the name, and its value is that of the first attribute with the name |
| XElementSpec.KindOfName | src/LinqToOneNote/Parsers/XmlParserXElement.cs:16-19 | each of the four qualified names selects its own kind, namespace included |
| XmlParserXElement.SetAttributes | src/LinqToOneNote/Parsers/XmlParserXElement.cs:123-184 | the attribute loop leaves the store XElementSpec.SetAttributes computes, or fails with its error |
| XmlParserXElement.ParseInto | src/LinqToOneNote/Parsers/XmlParserXElement.cs:83-121 | Parse<T> leaves the store XElementSpec.ParseInto computes, or fails with its error |
| XmlParserXElement.ParseChildren | src/LinqToOneNote/Parsers/XmlParserXElement.cs:89-95 | the child foreach leaves the store XElementSpec.ParseChildren computes |
| XmlParserXElement.ParsePages | src/LinqToOneNote/Parsers/XmlParserXElement.cs:112 | the page list and store are those of XElementSpec.ParsePages |
| XmlParserXElement.ParseNotebooks | src/LinqToOneNote/Parsers/XmlParserXElement.cs:25-32 | the notebook list and store are those of XElementSpec.ParseNotebooks |
| XmlParserXElement.ParseOpenSectionList | src/LinqToOneNote/Parsers/XmlParserXElement.cs:39-43 | the open-section list and store are those of XElementSpec.ParseOpenSectionList |
| XmlParserXElement.ParseRoot | src/LinqToOneNote/Parsers/XmlParserXElement.cs:22-46 | the new Root is registered under the reference XElementSpec.ParseRoot gives, or its error is returned |
| XmlParserXElement.Parse | src/LinqToOneNote/Parsers/XmlParserXElement.cs:48-59 | the item and store are those of XElementSpec.Parse, or its error |
| XmlParserXElement.ParseExisting | src/LinqToOneNote/Parsers/XmlParserXElement.cs:61-81 | the store is that of XElementSpec.ParseExisting, or its error |
| XElementProperties.SetAttributesFrame | src/LinqToOneNote/Parsers/XmlParserXElement.cs:123-184 | SetAttributes rewrites only the item's own fields |
| XElementProperties.ParseIntoFacts | src/LinqToOneNote/Parsers/XmlParserXElement.cs:83-121 | Parse<T> changes only the item and new items, keeps its kind, gives it `parent` (a notebook keeps its root), grows a container's lists by exactly its Section and SectionGroup elements, replaces a section's pages by one linked page per child element |
| XElementProperties.ParseIntoNotebook | src/LinqToOneNote/Parsers/XmlParserXElement.cs:86-96 | the notebook branch of Parse<T> satisfies the same summary |
| XElementProperties.ParseIntoGroup | src/LinqToOneNote/Parsers/XmlParserXElement.cs:97-108 | the section-group branch satisfies the same summary |
| XElementProperties.ParseIntoSection | src/LinqToOneNote/Parsers/XmlParserXElement.cs:109-114 | the section branch satisfies the same summary: its pages are replaced, not appended |
| XElementProperties.ParseIntoPage | src/LinqToOneNote/Parsers/XmlParserXElement.cs:115-119 | the page branch satisfies the same summary |
| XElementProperties.PagesAssigned | src/LinqToOneNote/Parsers/XmlParserXElement.cs:112-113 | a section given pages linked to it has exactly those pages, the new Parent, and all its children linked |
| XElementProperties.ParsePagesFacts | src/LinqToOneNote/Parsers/XmlParserXElement.cs:112 | every child element, whatever its name, becomes one new page whose Parent is the section |
| XElementProperties.ParseChildrenFacts | src/LinqToOneNote/Parsers/XmlParserXElement.cs:89-95 | each Section element appends one new section and each SectionGroup element one new group, both with the container as Parent; other elements are passed by |
| XElementProperties.ParseNotebooksFacts | src/LinqToOneNote/Parsers/XmlParserXElement.cs:25-32 | one new notebook per Notebook child element, in document order, each with the Root as its root |
| XElementProperties.ParseOpenSectionListFacts | src/LinqToOneNote/Parsers/XmlParserXElement.cs:39-43 | one new parentless section per child element, whatever its name |
| XElementProperties.ParseRootFacts | src/LinqToOneNote/Parsers/XmlParserXElement.cs:22-46 | a text node is malformed; the Root lists one linked notebook per Notebook element; OpenSections exists exactly when an OpenSections element does, with its ID and one section per child element |
| XElementProperties.ParseRootNeedsOpenSectionsId | src/LinqToOneNote/Parsers/XmlParserXElement.cs:38 | an OpenSections element without an ID makes ParseRoot fail, with NullReference once the notebooks parsed |
| XElementChains.OrderedAcyclic | src/LinqToOneNote/Parsers/XmlParserXElement.cs:83-121 | a growth in which every new item points at an old item or an older new one, and every old item keeps its Parent, keeps the chains finite |
| XElementChains.ParseRootAcyclic | src/LinqToOneNote/Parsers/XmlParserXElement.cs:22-46 | the DOM ParseRoot keeps every Parent chain finite |
| XElementChains.ParseAcyclic | src/LinqToOneNote/Parsers/XmlParserXElement.cs:48-59 | the DOM Parse under an existing parent, or none, keeps every Parent chain finite, although an item takes its Parent only after its children point at it |
| XElementChains.ParseExistingAcyclic | src/LinqToOneNote/Parsers/XmlParserXElement.cs:61-81 | the DOM ParseExisting keeps every Parent chain finite |
| XElementProperties.ParseFacts | src/LinqToOneNote/Parsers/XmlParserXElement.cs:48-59 | a text node is malformed, an unknown name InvalidXmlElement; otherwise a new item of the selected kind parsed with `parent`, its children linked |
| XElementProperties.ParseIntoChecksParent | src/LinqToOneNote/Parsers/XmlParserXElement.cs:107-118 | Parse<T> succeeds only when the parent has the type its cast demands |
| XElementProperties.ParseChecksParent | src/LinqToOneNote/Parsers/XmlParserXElement.cs:48-59 | Parse places a page only under a section and a section or group only under a notebook or section group |
| XElementProperties.ParseExistingFacts | src/LinqToOneNote/Parsers/XmlParserXElement.cs:61-81 | text is malformed, an unknown item InvalidItem; otherwise the item keeps kind, Parent and root, its lists only gain the new children after the old ones, a section's pages become its child elements |
| XElementProperties.IsUnreadDecodersDiffer | src/LinqToOneNote/Parsers/XmlParserXElement.cs:136 | the XML cast reads isUnread "1" and "0" as true and false, where the streaming engine's bool.Parse rejects them with a format error; "true" and "false" in any letter case set isUnread to the same value in both engines |
| XElementProperties.WordValues | src/LinqToOneNote/Parsers/XmlParserXmlReader.cs:265 | "true" and "false" in any letter case decode to the same boolean under bool.Parse and the XML cast |
| XElementProperties.NumeralValues | src/LinqToOneNote/Parsers/XmlParserXElement.cs:136 | "1" and "0" are true and false to the XML cast and format errors to bool.Parse |
| LegacyXElementSpec.ApplyAttribute | src/Odotocodot.OneNote.Linq/Parsers/XmlParserXElement.cs:51-95 | one attribute never changes the item's kind or links |
| LegacyXElementSpec.ApplyAttributes | src/Odotocodot.OneNote.Linq/Parsers/XmlParserXElement.cs:47-97 | the attribute foreach never changes the item's kind or links |
| LegacyXElementSpec.Elements | src/Odotocodot.OneNote.Linq/Parsers/XmlParserXElement.cs:43 | `Elements()` yields only elements, no more than there are nodes |
| LegacyXmlParserXElement.SetAttributes | src/Odotocodot.OneNote.Linq/Parsers/XmlParserXElement.cs:47-97 | the foreach returns what LegacyXElementSpec.ApplyAttributes computes |
| LegacyXmlParserXElement.Parse | src/Odotocodot.OneNote.Linq/Parsers/XmlParserXElement.cs:37-45 | Parse<T> returns what LegacyXElementSpec.Parse computes |
| LegacyXmlParserXElement.ParseUnknown | src/Odotocodot.OneNote.Linq/Parsers/XmlParserXElement.cs:31-35 | ParseUnknown returns what LegacyXElementSpec.ParseUnknown computes |
| LegacyXElementProperties.CastFailsIffNoField | src/Odotocodot.OneNote.Linq/Parsers/XmlParserXElement.cs:65-94 | an attribute fails with InvalidCast exactly when it is kind-specific and the item's class has no such field |
| LegacyXElementProperties.AttributeErrors | src/Odotocodot.OneNote.Linq/Parsers/XmlParserXElement.cs:51-95 | one attribute fails only by its cast or its boolean conversion, and by the cast exactly when the kind does not implement the cast's type |
| LegacyXElementProperties.AttributesErrors | src/Odotocodot.OneNote.Linq/Parsers/XmlParserXElement.cs:47-97 | the attribute loop fails only by a cast or a conversion |
| LegacyXElementProperties.DispatchByTable | src/Odotocodot.OneNote.Linq/Parsers/XmlParserXElement.cs:19-26 | the `runtimeParser` lookup fails with KeyNotFound exactly for a name outside its four entries, and otherwise builds the entry's kind from that element |
| LegacyXElementProperties.ParseLinks | src/Odotocodot.OneNote.Linq/Parsers/XmlParserXElement.cs:37-45 | Parse<T> keeps the kind; Notebook is `parent?.Notebook`; a notebook has no Parent and its Name as RelativePath, anything else has `parent` and `parent?.RelativePath` + separator + Name |
| LegacyXElementProperties.NullParentPath | src/Odotocodot.OneNote.Linq/Parsers/XmlParserXElement.cs:42 | a section parsed with no parent has a RelativePath that starts with the separator |
| LegacyXElementProperties.ParseUnknownByTable | src/Odotocodot.OneNote.Linq/Parsers/XmlParserXElement.cs:31-35 | text is malformed; a name outside the table fails the lookup; otherwise the item has the table's kind |
| LegacyXElementProperties.ElementsCount | src/Odotocodot.OneNote.Linq/Parsers/XmlParserXElement.cs:43 | `Elements()` keeps every element of the children and nothing else |
| LegacyXElementProperties.ParseNotebooksEveryElement | src/Odotocodot.OneNote.Linq/Parsers/XmlParserXElement.cs:28-29 | one notebook per child element, whatever its name, with no parent, no Notebook and its Name as RelativePath |
| LegacyXElementProperties.ChildrenEveryElement | src/Odotocodot.OneNote.Linq/Parsers/XmlParserXElement.cs:43 | Children has one outcome per child element, in order: a failed lookup for a name outside the table, otherwise an item of the table's kind under this item, with its Notebook and its RelativePath extended by the child's Name |
| LegacyReaderSpec.ApplyAttribute | src/Odotocodot.OneNote.Linq/Parsers/XmlParserXmlReader.cs:93-119 | one attribute of a switch never changes the item's kind or links |
| LegacyReaderSpec.ApplyKindAttribute | src/Odotocodot.OneNote.Linq/Parsers/XmlParserXmlReader.cs:95-117 | the kind-specific cases never change the item's links |
| LegacyReaderSpec.ApplyAttributes | src/Odotocodot.OneNote.Linq/Parsers/XmlParserXmlReader.cs:93-119 | the MoveToNextAttribute loop never changes the item's kind or links |
| LegacyReaderSpec.ParsePage | src/Odotocodot.OneNote.Linq/Parsers/XmlParserXmlReader.cs:313-351 | ParsePage always consumes at least the page's start token |
| LegacyReaderSpec.ParsePages | src/Odotocodot.OneNote.Linq/Parsers/XmlParserXmlReader.cs:289-307 | the page loop never moves the reader backwards |
| LegacyReaderSpec.ParseSection | src/Odotocodot.OneNote.Linq/Parsers/XmlParserXmlReader.cs:234-311 | ParseSection always consumes at least the section's start token |
| LegacyReaderSpec.ParseChildren | src/Odotocodot.OneNote.Linq/Parsers/XmlParserXmlReader.cs:132-154 | the child loop never moves the reader backwards |
| LegacyReaderSpec.ParseSectionGroup | src/Odotocodot.OneNote.Linq/Parsers/XmlParserXmlReader.cs:161-231 | ParseSectionGroup always consumes at least the group's start token |
| LegacyReaderSpec.ParseNotebook | src/Odotocodot.OneNote.Linq/Parsers/XmlParserXmlReader.cs:89-159 | ParseNotebook always consumes at least the notebook's start token |
| LegacyReaderSpec.ParseNotebookList | src/Odotocodot.OneNote.Linq/Parsers/XmlParserXmlReader.cs:74-84 | the notebook loop never moves the reader backwards |
| LegacyXmlParserXmlReader.SetAttributes | src/Odotocodot.OneNote.Linq/Parsers/XmlParserXmlReader.cs:93-119 | the attribute loop on a new item gives what LegacyReaderSpec.NewWithAttributes computes |
| LegacyXmlParserXmlReader.ParsePage | src/Odotocodot.OneNote.Linq/Parsers/XmlParserXmlReader.cs:313-351 | result and reader position are LegacyReaderSpec.ParsePage's |
| LegacyXmlParserXmlReader.ParseSection | src/Odotocodot.OneNote.Linq/Parsers/XmlParserXmlReader.cs:234-311 | result and reader position are LegacyReaderSpec.ParseSection's, the page loop included |
| LegacyXmlParserXmlReader.ParseChildren | src/Odotocodot.OneNote.Linq/Parsers/XmlParserXmlReader.cs:129-156 | the child list and reader position are LegacyReaderSpec.ParseChildren's |
| LegacyXmlParserXmlReader.ParseSectionGroup | src/Odotocodot.OneNote.Linq/Parsers/XmlParserXmlReader.cs:161-231 | result and reader position are LegacyReaderSpec.ParseSectionGroup's |
| LegacyXmlParserXmlReader.ParseNotebook | src/Odotocodot.OneNote.Linq/Parsers/XmlParserXmlReader.cs:89-159 | result and reader position are LegacyReaderSpec.ParseNotebook's |
| LegacyXmlParserXmlReader.ParseNotebookElement | src/Odotocodot.OneNote.Linq/Parsers/XmlParserXmlReader.cs:61-88 | the private ParseNotebooks returns what LegacyReaderSpec.ParseNotebookElement computes |
| LegacyXmlParserXmlReader.ParseNotebooks | src/Odotocodot.OneNote.Linq/Parsers/XmlParserXmlReader.cs:44-59 | ParseNotebooks(xml) returns what LegacyReaderSpec.ParseNotebooks computes |
| LegacyXmlParserXmlReader.ParseUnknown | src/Odotocodot.OneNote.Linq/Parsers/XmlParserXmlReader.cs:16-42 | ParseUnknown returns what LegacyReaderSpec.ParseUnknown computes |
| LegacyReaderProperties.NewKind | src/Odotocodot.OneNote.Linq/Parsers/XmlParserXmlReader.cs:91-119 | the attribute loop never changes the new item's kind |
| LegacyReaderProperties.ParseUnknownDispatch | src/Odotocodot.OneNote.Linq/Parsers/XmlParserXmlReader.cs:16-42 | null for a non-element or an unknown local name; NullReference for a section, group or page without a parent; InvalidCast for a page under a non-section; otherwise an item of the named kind |
| LegacyReaderProperties.ParseNotebooksEmpty | src/Odotocodot.OneNote.Linq/Parsers/XmlParserXmlReader.cs:44-70 | an empty list unless the top element is a non-empty Notebooks element |
| LegacyReaderProperties.ShapedListAppend | src/Odotocodot.OneNote.Linq/Parsers/XmlParserXmlReader.cs:138-142 | appending a well-placed child to a well-shaped child list keeps it well shaped |
| LegacyReaderProperties.ShapedFromList | src/Odotocodot.OneNote.Linq/Parsers/XmlParserXmlReader.cs:156 | an item given a child list built under itself is well shaped |
| LegacyReaderProperties.PageShaped | src/Odotocodot.OneNote.Linq/Parsers/XmlParserXmlReader.cs:313-351 | a page has no children, the given Parent and Notebook, and the parent's RelativePath + separator + Name |
| LegacyReaderProperties.PagesShaped | src/Odotocodot.OneNote.Linq/Parsers/XmlParserXmlReader.cs:289-307 | every item of the page loop is a page under the section |
| LegacyReaderProperties.SectionShaped | src/Odotocodot.OneNote.Linq/Parsers/XmlParserXmlReader.cs:234-311 | a section is a child of the given parent and its Children are pages under it |
| LegacyReaderProperties.ChildrenShaped | src/Odotocodot.OneNote.Linq/Parsers/XmlParserXmlReader.cs:132-154 | every item of the child loop is a section or section group under the container, with a well-shaped tree |
| LegacyReaderProperties.SectionGroupShaped | src/Odotocodot.OneNote.Linq/Parsers/XmlParserXmlReader.cs:161-231 | a section group is a child of the given parent and its tree is well shaped |
| LegacyReaderProperties.NotebookShaped | src/Odotocodot.OneNote.Linq/Parsers/XmlParserXmlReader.cs:89-159 | a notebook has no Parent and no Notebook, its Name as RelativePath, and a well-shaped tree |
| LegacyReaderProperties.NotebookListShaped | src/Odotocodot.OneNote.Linq/Parsers/XmlParserXmlReader.cs:74-84 | every item of the notebook loop is such a top-level notebook |
| LegacyReaderProperties.ParseNotebooksShaped | src/Odotocodot.OneNote.Linq/Parsers/XmlParserXmlReader.cs:44-59 | every notebook ParseNotebooks returns is top-level with a well-shaped tree |
| LegacyReaderProperties.ParseUnknownShaped | src/Odotocodot.OneNote.Linq/Parsers/XmlParserXmlReader.cs:16-42 | the item ParseUnknown returns is well shaped; a notebook is top-level, anything else a child of the given parent |
| LegacyReaderDocument.FlatNode | src/Odotocodot.OneNote.Linq/Parsers/XmlParserXmlReader.cs:82 | on text or an element without children, Read passes exactly that node |
| LegacyReaderDocument.PageExact | src/Odotocodot.OneNote.Linq/Parsers/XmlParserXmlReader.cs:313-351 | ParsePage on a page element gives the page the element describes and consumes exactly that element |
| LegacyReaderDocument.PagesExact | src/Odotocodot.OneNote.Linq/Parsers/XmlParserXmlReader.cs:289-307 | on children that are pages or flat nodes, the page loop gives the Page elements in document order and stops at the end tag |
| LegacyReaderDocument.SectionExact | src/Odotocodot.OneNote.Linq/Parsers/XmlParserXmlReader.cs:234-311 | ParseSection on such a section gives the section the element describes and consumes exactly that element |
| LegacyReaderDocument.ChildrenExact | src/Odotocodot.OneNote.Linq/Parsers/XmlParserXmlReader.cs:132-154 | on clean children the child loop gives the Section and SectionGroup elements in document order |
| LegacyReaderDocument.SectionGroupExact | src/Odotocodot.OneNote.Linq/Parsers/XmlParserXmlReader.cs:161-231 | ParseSectionGroup on a clean group gives the group the element describes and consumes exactly it |
| LegacyReaderDocument.NotebookExact | src/Odotocodot.OneNote.Linq/Parsers/XmlParserXmlReader.cs:89-159 | ParseNotebook on a clean notebook gives the notebook the element describes and consumes exactly it |
| LegacyReaderDocument.NotebookListExact | src/Odotocodot.OneNote.Linq/Parsers/XmlParserXmlReader.cs:74-84 | the notebook loop gives the Notebook elements in document order |
| LegacyReaderDocument.ParseNotebooksExact | src/Odotocodot.OneNote.Linq/Parsers/XmlParserXmlReader.cs:44-59 | ParseNotebooks on a clean Notebooks document gives its notebooks in document order |
| LegacyReaderDocument.ParseUnknownExact | src/Odotocodot.OneNote.Linq/Parsers/XmlParserXmlReader.cs:16-42 | ParseUnknown on a clean element of one of the four kinds gives the item the element describes |
| LegacyReaderDocument.ChildrenOfOrder | src/Odotocodot.OneNote.Linq/Parsers/XmlParserXmlReader.cs:136-143 | sections and section groups come out interleaved, one per element, in document order |
| LegacyReaderDocument.PagesOfCount | src/Odotocodot.OneNote.Linq/Parsers/XmlParserXmlReader.cs:293-296 | a section's Children are its Page elements, one each, all pages |
| LegacyReaderDocument.NotebooksOfCount | src/Odotocodot.OneNote.Linq/Parsers/XmlParserXmlReader.cs:76-79 | the notebook list has one notebook per Notebook element |
| Xml.SkipTo | src/LinqToOneNote/Parsers/XmlParserXmlReader.cs:245 | the depth-counting scan under XmlReader.Skip never moves backwards |
| Xml.SkipToOverNode | src/LinqToOneNote/Parsers/XmlParserXmlReader.cs:245 | scanning over one whole node leaves the depth count where it was |
| Xml.SkipToOverNodes | src/LinqToOneNote/Parsers/XmlParserXmlReader.cs:245 | scanning over a run of whole nodes leaves the depth count where it was |
| XmlReaderSpec.ParsePages | src/LinqToOneNote/Parsers/XmlParserXmlReader.cs:225-236 | the page loop never moves the reader backwards |
| XmlReaderSpec.ParseChildren | src/LinqToOneNote/Parsers/XmlParserXmlReader.cs:165-190 | the child loop never moves the reader backwards |
| XmlReaderSpec.ParseOpenSectionList | src/LinqToOneNote/Parsers/XmlParserXmlReader.cs:128-139 | the open-section loop never moves the reader backwards and keeps the Id already read |
| XmlReaderSpec.ParseRootChildren | src/LinqToOneNote/Parsers/XmlParserXmlReader.cs:81-102 | the loop of ParseRoot never moves the reader backwards and fills the Root it was given |
| EngineAgreement.AttributesAgree | src/LinqToOneNote/Parsers/XmlParserXmlReader.cs:251-309 | on attributes whose boolean ones are true/false words, the streaming attribute loop succeeds and writes exactly the fields the XElement loop writes (XmlParserXElement.cs:125-183) |
| EngineAgreement.SetAttributesAgree | src/LinqToOneNote/Parsers/XmlParserXmlReader.cs:249-310 | reading an element's attributes after the item's Parent, root or pages are written ends in the XElement result with those links written afterwards: the two engines' orders of writes give the same item |
| EngineAgreement.IntoCommutes | src/LinqToOneNote/Parsers/XmlParserXElement.cs:83-121 | the XElement Parse<T> of one element commutes with a pending link write on any other existing item |
| EngineAgreement.AgreePage | src/LinqToOneNote/Parsers/XmlParserXmlReader.cs:241-247 | under null or a section, ParsePage consumes exactly a Page element and leaves the store that the XElement Parse<Page> leaves (XmlParserXElement.cs:115-119) |
| EngineAgreement.AgreePages | src/LinqToOneNote/Parsers/XmlParserXmlReader.cs:225-236 | the streaming page loop over Page elements builds the XElement page list and store (XmlParserXElement.cs:112), with the section's Parent and pages written, and stops at the end tag |
| EngineAgreement.AgreeSection | src/LinqToOneNote/Parsers/XmlParserXmlReader.cs:211-239 | under null, a notebook or a section group, ParseSection consumes exactly a Section element of pages and leaves the store that the XElement Parse<Section> leaves (XmlParserXElement.cs:109-114) |
| EngineAgreement.AgreeChildren | src/LinqToOneNote/Parsers/XmlParserXmlReader.cs:165-190 | the streaming child loop over Section and SectionGroup elements leaves the store that the XElement foreach leaves (XmlParserXElement.cs:89-95), with the container's own link written, and stops at the end tag |
| EngineAgreement.AgreeGroup | src/LinqToOneNote/Parsers/XmlParserXmlReader.cs:192-209 | under null, a notebook or another section group, ParseSectionGroup consumes exactly a SectionGroup element and leaves the store that the XElement Parse<SectionGroup> leaves (XmlParserXElement.cs:97-108) |
| EngineAgreement.AgreeNotebook | src/LinqToOneNote/Parsers/XmlParserXmlReader.cs:145-163 | ParseNotebook consumes exactly a Notebook element and leaves the XElement Parse<Notebook> store with the notebook's root set |
| EngineAgreement.AgreeNotebooks | src/LinqToOneNote/Parsers/XmlParserXmlReader.cs:87-89 | the Notebook branch of the root loop, run over a list of Notebook elements, builds the XElement notebook list and store (XmlParserXElement.cs:25-32) and carries on after them |
| EngineAgreement.FirstIsLast | src/LinqToOneNote/Parsers/XmlParserXmlReader.cs:111-117 | when no two attributes share a name, the last ID that the reader keeps is the first one that `Attribute(ID)` finds |
| EngineAgreement.AgreeOpenList | src/LinqToOneNote/Parsers/XmlParserXmlReader.cs:128-139 | the streaming open-section loop over Section elements builds the XElement open-section list and store (XmlParserXElement.cs:39-43) |
| EngineAgreement.AgreeOpenSections | src/LinqToOneNote/Parsers/XmlParserXmlReader.cs:108-143 | ParseOpenSections consumes exactly an OpenSections element and gives the Id and sections the XElement engine reads from it (XmlParserXElement.cs:33-43) |
| EngineAgreement.AgreeRoot | src/LinqToOneNote/Parsers/XmlParserXmlReader.cs:69-106 | on a document in the class the module defines (its children are Notebook elements, then at most one OpenSections element with an ID), the streaming ParseRoot builds the same arena, Root reference and Root as the XElement ParseRoot (XmlParserXElement.cs:22-46), in either unknown-element mode, and consumes exactly the document |
| EngineAgreement.AgreeParse | src/LinqToOneNote/Parsers/XmlParserXmlReader.cs:23-40 | on a Notebook, SectionGroup, Section or Page element of that class and a null or existing parent, the streaming Parse gives the XElement Parse's new item and arena (XmlParserXElement.cs:48-59) or its error: a parent of the wrong kind is an InvalidCast in both |
| XmlReaderProperties.KindNamed | src/LinqToOneNote/Parsers/XmlParserXmlReader.cs:30-37 | exactly the four element names Notebook, SectionGroup, Section and Page select a kind |
| XmlReaderProperties.RecycleBinRow | src/LinqToOneNote/Parsers/XmlParserXmlReader.cs:281-286 | isInRecycleBin is decoded (and can fail, with a format error) only on a page or a section |
| XmlReaderProperties.BoolRows | src/LinqToOneNote/Parsers/XmlParserXmlReader.cs:290-300 | isRecycleBin, encrypted, locked and isDeletedPages are decoded with bool.Parse whatever the kind, and fail exactly when it rejects the value |
| XmlReaderProperties.TextRows | src/LinqToOneNote/Parsers/XmlParserXmlReader.cs:253-308 | every other row, and every name the switch lacks, cannot fail |
| XmlReaderFindings.PassNode | src/LinqToOneNote/Parsers/XmlParserXmlReader.cs:233 | with Skip, the loops pass an unknown node by exactly its tokens |
| XmlReaderFindings.ParsePagesExact | src/LinqToOneNote/Parsers/XmlParserXmlReader.cs:225-236 | with Skip, the page loop over whole child nodes stops exactly at the end tag that follows them |
| XmlReaderFindings.ParseChildrenExact | src/LinqToOneNote/Parsers/XmlParserXmlReader.cs:165-190 | with Skip, the child loop over whole child nodes stops exactly at the end tag that follows them |
| XmlReaderFindings.ParseOpenSectionListExact | src/LinqToOneNote/Parsers/XmlParserXmlReader.cs:128-139 | with Skip, the open-section loop over whole child nodes stops exactly at the end tag |
| XmlReaderFindings.ParseRootChildrenExact | src/LinqToOneNote/Parsers/XmlParserXmlReader.cs:81-102 | with Skip, the loop of ParseRoot over whole child nodes stops exactly at the end tag |
| LegacyXElementProperties.EnginesDifferOnForeignAttribute | src/Odotocodot.OneNote.Linq/Parsers/XmlParserXElement.cs:65-67 | a path attribute on a Page is ignored by the older streaming engine and fails the IWritablePath cast in the older DOM engine |
| LegacyXElementProperties.NamespaceMatters | src/Odotocodot.OneNote.Linq/Parsers/XmlParserXElement.cs:19-26 | a Section element outside the OneNote namespace is a failed lookup for the DOM engine and a section for the streaming engine, which reads only the local name |

## Left out

- Store calls: GetHierarchy, OpenHierarchy, UpdateHierarchy, DeleteHierarchy, NavigateTo, SyncHierarchy, CreateNewPage, GetSpecialLocation and FindPages are calls into the OneNote application. Their answers (the fetched XML, an exception) are parameters of the facade operations. The handle is an opaque number.
- `Marshal.ReleaseComObject`, `lock (comLock)`, the thread-safe `Lazy`, and `ConcurrentBag`/`Interlocked` in `SimplePool` are concurrency and interop machinery. Everything is modelled sequentially.
- ComLifecycle.ComSession.Run: a `COMException` from the action, or from `new Application()` inside the `try`, is passed through as the same failure. Its rewrapping into a friendlier exception type is not modelled. Whether `new Application()` succeeds is the environment's answer, given as the set of creation attempts that throw.
- XML text: `XElement.Parse`, `XmlReader.Create` and `MoveToContent` are not modelled. The input is already a `Node` tree or its token sequence, and the text-level errors collapse into `XmlMalformed`.
- Attribute values: `DateTime.Parse`, `int.Parse`, `ColorTranslator.FromHtml` and `GetColor` are library code. Their values are kept as the raw attribute strings, so a malformed date, level or colour does not fail in the model. `bool.Parse` and the XML boolean cast are modelled. `bool.Parse` trims Latin-1 white space only (not the other Unicode spaces `char.IsWhiteSpace` knows) and compares ignoring ASCII letter case. The cast lower-cases the value (`ToLowerInvariant`) and then trims XML white space. Modelling that with ASCII folding is exact, because no other character lower-cases to a letter of "true" or "false".
- Writes through `Unsafe.As` onto an item of the wrong kind (e.g. `nickname` on a section in the `LinqToOneNote` engines) have no defined C# meaning. The model drops them, after decoding the value just as the source does.
- EngineAgreement.AgreeRoot and EngineAgreement.AgreeParse cover only the class of documents that module defines. Outside it the engines differ:
  - an element outside the OneNote namespace (LegacyXElementProperties.NamespaceMatters shows the same split for the older pair);
  - "1"/"0" booleans (XElementProperties.IsUnreadDecodersDiffer);
  - unknown elements, which the streaming engine steps into (the Findings row on XmlParserXmlReader.cs);
  - several OpenSections elements or ID attributes (the last one against the first).
  A parent reference that names no item has no C# counterpart and is excluded.
- XmlParserXmlReader.ParseRootChildren is the `while` loop of `ParseRoot`, written as its own method so that its invariant has a home.
- The older engines, LegacyXmlParserXmlReader and LegacyXmlParserXElement, are modelled on values, not on the arena: a child holds a copy of its parent's Parent/Notebook/RelativePath view rather than a reference. The older DOM engine's lazy `Children` is modelled as one outcome per child element (each possibly a lookup failure), computed on demand.
- LegacyReaderDocument: the exact match between the older streaming engine and the element tree is proved only for documents whose unknown nodes the loops' `Read()` passes whole ("clean" documents). On other documents that engine steps into unknown elements, just like the newer one (see Findings).
- The facades parse with the streaming `LinqToOneNote` engine API (`Parse`, `ParseExisting`, `ParseRoot`), because only that API offers `ParseExisting`. The deletable kinds are taken to be section group, section and page.
- Page content: title rewriting in CreatePage, CreateQuickNote and RenameItem (edits of page XML; RenameItem's failure to read a title is modelled as a parameter), `Directory.Exists` and `Path.Combine` in CreateNotebook are file-system and XML-editing code, not hierarchy logic.
- Fixtures: the per-kind counts of the test fixture (4 notebooks, 7 section groups, 22 sections, 31 pages) need its XML file, which is not part of this model. The walks are proved exact for every tree instead.
- Laziness and disposal: the C# iterators are modelled as methods that return the whole sequence. What an iterator yields before an exception is modelled only for Traverse (EntryPoints.TraverseEnumerated).
- The walks do not model the pooled stack they rent; `SimplePool` is modelled on its own (Pooling).
- The overloads over a null `IEnumerable` of sources are not modelled. The sources are a sequence.
- Validation.SearchRules: `char.IsLetterOrDigit` is modelled for ASCII letters and digits only, and white space as the common Unicode space characters.
- Comparers.HashAgrees: `string.GetHashCode` is a parameter (any function of the id).
- Hierarchy.NewItem: a never-set Name (and a notebook's DisplayName, a path, a colour) is `""`, not null. Every use of these strings in the core treats null as empty: string interpolation into RelativePath, `StringBuilder.Insert` in GetRelativePath, and the overwrite in the renames. A never-set Id is modelled as null (`None`), because the comparers, GetHashCode and RenameItem's ID match tell null apart from `""`.
- Traversal.Descendants, Traversal.DescendantsOfAll, Traversal.WalkLoop, Traversal.SelectMembers, Traversal.Filter, Subtree.GetPages, Axes.BeforeSelf, Axes.AfterSelf and the other members citing `src/Odotocodot.OneNote.Linq/Linq/`: those walks run `foreach` over `Children`. On a notebook or section group that is a ChildrenCollection, whose enumerator never advances as written (first row of Findings), so as written the walks never end there and BeforeSelf/AfterSelf never get past the first sibling. The model gives those walks the corrected enumerator (Collections.EnumerateChildren), i.e. the evident intent. The `LinqToOneNote` walks they share their rows with run over that library's own ChildrenCollection, which is not part of this model; it is assumed to yield the sections and then the section groups, as the model's lists do.
- `IOneNoteItem.Children` and `IOneNoteItem.Parent` are commented out in src/Odotocodot.OneNote.Linq/IOneNoteItem.cs:31-40, yet the walks call them on an `IOneNoteItem`; the model uses the concrete classes' Children and Parent, which is what the code evidently means.
- OneNoteFacade.Cleared: OneNote.cs:622-627 and 652-657 call `.Clear()` on `ReadOnlyList<T>`, which declares no such method (Internal/ReadOnlyList.cs:17-27), so that code does not compile as written. The model empties the lists, the evident intent.
- OneNoteFacade.RemoveChildLists: OneNote.cs:211 casts `Parent.Children` to a non-generic `ReadOnlyList`, which does not exist, so that line does not compile as written either. The model removes the item from the list of its kind, the evident intent.
- Interfaces, the enums other than ComObjectMode and HierarchyScope, and the stale root-level Odotocodot classes carry no behaviour of their own.
- `Throw.InvalidXmlElement`, `InvalidXmlNodeType` and `InvalidIOneNoteItem` only build exceptions. They are modelled as the `Error` values the parsers fail with.
- OneNoteFacade.Outcome: when a parse fails part-way, the items already written are not described. The outcome then states only the error and the handle.

## Findings

| source | as written | input that shows it | evidently intended | confidence | as-written member | corrected member |
|---|---|---|---|---|---|---|
| src/Odotocodot.OneNote.Linq/Internal/ReadOnlyList.cs:41-56 | `ChildrenCollection.Enumerator.MoveNext` asks for a fresh list enumerator on every call, so it always reports the first element again | a notebook with sections [s1, s2]: enumerating its Children yields s1, s1 | yield the sections, then the section groups, in indexer order (s1, s2) | not executed | Collections.AsWrittenNeverAdvances | Collections.EnumerateChildren |
| src/LinqToOneNote/Parsers/XmlParserXmlReader.cs:94, 180, 233 | the default branch of each child loop calls `reader.Read()`, which steps into an unknown element, so that element's children are parsed as if they were siblings | `<Section><Other><Page ID="nested"/></Other><Page ID="own"/></Section>`: the section gets page "nested" and returns with "own" and its end tag unread | `reader.Skip()`: the unknown element is passed whole, the section gets page "own" and consumes exactly its own tokens | not executed | XmlReaderFindings.StepIntoMisreadsSection | XmlReaderFindings.SkipOverReadsSection |
| src/Odotocodot.OneNote.Linq/OneNoteApplication.cs:445 | `GetChildren` parses the fetched XML with the item itself as the new item's parent, so a fetched Section element is cast to the parent type of a section | GetChildren on any section: the fetched Section element is given the section as its parent, and the `(INotebookOrSectionGroup)` cast fails with InvalidCast | parse the fetched element with no parent, as the OneNote facade does, and return the children of the item it builds | not executed | ApplicationFacade.SectionChildrenAsWrittenFail | ApplicationFacade.GetChildren |
