/**
 * The items the older streaming engine should build from a document, as a
 * reference definition over the element tree: a container's Children are
 * its Section and SectionGroup elements in document order, a section's
 * Children its Page elements, and the notebook list its Notebook elements.
 * On the tokens of a document the engine returns exactly these items and
 * consumes exactly the document, provided every element a loop passes with
 * `reader.Read()` has no children of its own (Read steps into an element,
 * so the children of a passed element would be met as if they were
 * siblings).
 */
module LegacyReaderDocument {
  import opened Base
  import opened Xml
  import opened Hierarchy
  import opened LegacyReaderSpec

  predicate Named(n: Node, local: string) {
    n.Element? && n.name.local == local
  }

  /** A node that `reader.Read()` passes in one step: text, or an element without children. */
  predicate Flat(n: Node) {
    n.Text? || n.children == []
  }

  // ---------------------------------------------------------------------
  // The documents on which the loops' `reader.Read()` passes whole nodes.

  predicate PagesClean(ns: seq<Node>) {
    forall i | 0 <= i < |ns| :: Named(ns[i], PageName) || Flat(ns[i])
  }

  predicate ChildClean(n: Node)
    decreases n, 1
  {
    if Named(n, SectionName) then PagesClean(n.children)
    else if Named(n, SectionGroupName) then ChildrenClean(n.children)
    else Flat(n)
  }

  predicate ChildrenClean(ns: seq<Node>)
    decreases ns, 0
  {
    forall i | 0 <= i < |ns| :: ChildClean(ns[i])
  }

  predicate NotebooksClean(ns: seq<Node>) {
    forall i | 0 <= i < |ns| :: if Named(ns[i], NotebookName) then ChildrenClean(ns[i].children) else Flat(ns[i])
  }

  // ---------------------------------------------------------------------
  // The reference definition.

  function PageOf(e: Node, parent: ParentView, sep: string): Result<LItem>
    requires e.Element?
  {
    var it :- ApplyAttributes(NewItem(PageKind), e.attrs);
    Success(ChildItem(it, parent, sep))
  }

  /** The Page elements among `ns`, in document order. */
  function PagesOf(ns: seq<Node>, section: ParentView, sep: string): Result<seq<LItem>>
    decreases ns
  {
    if ns == [] then Success([])
    else if Named(ns[0], PageName) then
      var pg :- PageOf(ns[0], section, sep);
      var tail :- PagesOf(ns[1..], section, sep);
      Success([pg] + tail)
    else PagesOf(ns[1..], section, sep)
  }

  function SectionOf(e: Node, parent: ParentView, sep: string): Result<LItem>
    requires e.Element?
  {
    var it :- ApplyAttributes(NewItem(SectionKind), e.attrs);
    var self := ChildItem(it, parent, sep);
    var pages :- PagesOf(e.children, ViewOf(self), sep);
    Success(self.(children := pages))
  }

  /** The Section and SectionGroup elements among `ns`, in document order. */
  function ChildrenOf(ns: seq<Node>, container: ParentView, sep: string): Result<seq<LItem>>
    decreases ns, 0
  {
    if ns == [] then Success([])
    else if Named(ns[0], SectionName) then
      var s :- SectionOf(ns[0], container, sep);
      var tail :- ChildrenOf(ns[1..], container, sep);
      Success([s] + tail)
    else if Named(ns[0], SectionGroupName) then
      var g :- SectionGroupOf(ns[0], container, sep);
      var tail :- ChildrenOf(ns[1..], container, sep);
      Success([g] + tail)
    else ChildrenOf(ns[1..], container, sep)
  }

  function SectionGroupOf(e: Node, parent: ParentView, sep: string): Result<LItem>
    requires e.Element?
    decreases e, 1
  {
    var it :- ApplyAttributes(NewItem(SectionGroupKind), e.attrs);
    var self := ChildItem(it, parent, sep);
    var kids :- ChildrenOf(e.children, ViewOf(self), sep);
    Success(self.(children := kids))
  }

  function NotebookOf(e: Node, sep: string): Result<LItem>
    requires e.Element?
  {
    var it :- ApplyAttributes(NewItem(NotebookKind), e.attrs);
    var self := NotebookItem(it);
    var kids :- ChildrenOf(e.children, ViewOf(self), sep);
    Success(self.(children := kids))
  }

  /** The Notebook elements among `ns`, in document order. */
  function NotebooksOf(ns: seq<Node>, sep: string): Result<seq<LItem>>
    decreases ns
  {
    if ns == [] then Success([])
    else if Named(ns[0], NotebookName) then
      var nb :- NotebookOf(ns[0], sep);
      var tail :- NotebooksOf(ns[1..], sep);
      Success([nb] + tail)
    else NotebooksOf(ns[1..], sep)
  }

  // ---------------------------------------------------------------------
  // The engine on the tokens of a document.

  /** An item, with the reader left on `rest`. */
  function Consumed(d: Result<LItem>, rest: seq<Token>): Result<LParsed> {
    if d.Failure? then Failure(d.error) else Success(LParsed(d.value, rest))
  }

  /** A list appended to `acc`, with the reader left on `rest`. */
  function ConsumedList(d: Result<seq<LItem>>, acc: seq<LItem>, rest: seq<Token>): Result<LParsedList> {
    if d.Failure? then Failure(d.error) else Success(LParsedList(acc + d.value, rest))
  }

  /** A node `reader.Read()` passes in one step is one token, not an end tag. */
  lemma FlatNode(n: Node, rest: seq<Token>)
    requires Flat(n)
    ensures var ts := Tokens(n) + rest;
            ts != [] && !ts[0].End? && (ts[0].Start? ==> n.Element? && ts[0].name == n.name) && Read(ts) == rest
  {
    assert (Tokens(n) + rest)[1..] == rest;
  }

  /** One more item in front of a list's tail. */
  lemma ConsumedCons(acc: seq<LItem>, x: LItem, tail: Result<seq<LItem>>, rest: seq<Token>)
    ensures ConsumedList(tail, acc + [x], rest) ==
            ConsumedList(if tail.Failure? then Failure(tail.error) else Success([x] + tail.value), acc, rest)
  {
    if tail.Success? {
      assert acc + [x] + tail.value == acc + ([x] + tail.value);
    }
  }

  lemma PageExact(e: Node, rest: seq<Token>, parent: ParentView, sep: string)
    requires e.Element?
    ensures ParsePage(Tokens(e) + rest, parent, sep) == Consumed(PageOf(e, parent, sep), rest)
  {
    ElementStart(e, rest);
    SkipElement(e, rest);
  }

  lemma {:induction false} PagesExact(ns: seq<Node>, tail: seq<Token>, section: ParentView, sep: string, acc: seq<LItem>)
    requires PagesClean(ns) && AtEndOrNone(tail)
    ensures ParsePages(TokensSeq(ns) + tail, section, sep, acc) == ConsumedList(PagesOf(ns, section, sep), acc, tail)
    decreases ns
  {
    if ns == [] {
      assert TokensSeq(ns) + tail == tail;
      assert acc + [] == acc;
    } else {
      var rest := TokensSeq(ns[1..]) + tail;
      NodesFirst(ns, tail);
      var n := ns[0];
      assert PagesClean(ns[1..]) by {
        forall i | 0 <= i < |ns[1..]| ensures Named(ns[1..][i], PageName) || Flat(ns[1..][i]) {
          assert ns[1..][i] == ns[i + 1];
        }
      }
      if Named(n, PageName) {
        ElementStart(n, rest);
        PageExact(n, rest, section, sep);
        var pg := PageOf(n, section, sep);
        if pg.Success? {
          PagesExact(ns[1..], tail, section, sep, acc + [pg.value]);
          ConsumedCons(acc, pg.value, PagesOf(ns[1..], section, sep), tail);
        }
      } else {
        assert Flat(ns[0]);
        FlatNode(n, rest);
        PagesExact(ns[1..], tail, section, sep, acc);
      }
    }
  }

  lemma SectionExact(e: Node, rest: seq<Token>, parent: ParentView, sep: string)
    requires e.Element? && PagesClean(e.children)
    ensures ParseSection(Tokens(e) + rest, parent, sep) == Consumed(SectionOf(e, parent, sep), rest)
  {
    var ts := Tokens(e) + rest;
    ElementStart(e, rest);
    SkipElement(e, rest);
    var it := ApplyAttributes(NewItem(SectionKind), e.attrs);
    if it.Success? && e.children != [] {
      var self := ChildItem(it.value, parent, sep);
      PagesExact(e.children, [End] + rest, ViewOf(self), sep, []);
      assert ([End] + rest)[1..] == rest;
      var pages := PagesOf(e.children, ViewOf(self), sep);
      if pages.Success? {
        assert [] + pages.value == pages.value;
      }
    }
  }

  lemma {:induction false} ChildrenExact(ns: seq<Node>, tail: seq<Token>, container: ParentView, sep: string, acc: seq<LItem>)
    requires ChildrenClean(ns) && AtEndOrNone(tail)
    ensures ParseChildren(TokensSeq(ns) + tail, container, sep, acc) == ConsumedList(ChildrenOf(ns, container, sep), acc, tail)
    decreases ns, 0
  {
    if ns == [] {
      assert TokensSeq(ns) + tail == tail;
      assert acc + [] == acc;
    } else {
      var rest := TokensSeq(ns[1..]) + tail;
      NodesFirst(ns, tail);
      var n := ns[0];
      assert ChildClean(ns[0]);
      assert ChildrenClean(ns[1..]) by {
        forall i | 0 <= i < |ns[1..]| ensures ChildClean(ns[1..][i]) {
          assert ns[1..][i] == ns[i + 1];
        }
      }
      if Named(n, SectionName) {
        ElementStart(n, rest);
        SectionExact(n, rest, container, sep);
        var s := SectionOf(n, container, sep);
        if s.Success? {
          ChildrenExact(ns[1..], tail, container, sep, acc + [s.value]);
          ConsumedCons(acc, s.value, ChildrenOf(ns[1..], container, sep), tail);
        }
      } else if Named(n, SectionGroupName) {
        ElementStart(n, rest);
        SectionGroupExact(n, rest, container, sep);
        var g := SectionGroupOf(n, container, sep);
        if g.Success? {
          ChildrenExact(ns[1..], tail, container, sep, acc + [g.value]);
          ConsumedCons(acc, g.value, ChildrenOf(ns[1..], container, sep), tail);
        }
      } else {
        FlatNode(n, rest);
        ChildrenExact(ns[1..], tail, container, sep, acc);
      }
    }
  }

  lemma {:induction false} SectionGroupExact(e: Node, rest: seq<Token>, parent: ParentView, sep: string)
    requires e.Element? && ChildrenClean(e.children)
    ensures ParseSectionGroup(Tokens(e) + rest, parent, sep) == Consumed(SectionGroupOf(e, parent, sep), rest)
    decreases e, 1
  {
    ElementStart(e, rest);
    SkipElement(e, rest);
    var it := ApplyAttributes(NewItem(SectionGroupKind), e.attrs);
    if it.Success? && e.children != [] {
      var self := ChildItem(it.value, parent, sep);
      ChildrenExact(e.children, [End] + rest, ViewOf(self), sep, []);
      assert ([End] + rest)[1..] == rest;
      var kids := ChildrenOf(e.children, ViewOf(self), sep);
      if kids.Success? {
        assert [] + kids.value == kids.value;
      }
    }
  }

  lemma NotebookExact(e: Node, rest: seq<Token>, sep: string)
    requires e.Element? && ChildrenClean(e.children)
    ensures ParseNotebook(Tokens(e) + rest, sep) == Consumed(NotebookOf(e, sep), rest)
  {
    ElementStart(e, rest);
    SkipElement(e, rest);
    var it := ApplyAttributes(NewItem(NotebookKind), e.attrs);
    if it.Success? && e.children != [] {
      var self := NotebookItem(it.value);
      ChildrenExact(e.children, [End] + rest, ViewOf(self), sep, []);
      assert ([End] + rest)[1..] == rest;
      var kids := ChildrenOf(e.children, ViewOf(self), sep);
      if kids.Success? {
        assert [] + kids.value == kids.value;
      }
    }
  }

  lemma {:induction false} NotebookListExact(ns: seq<Node>, tail: seq<Token>, sep: string, acc: seq<LItem>)
    requires NotebooksClean(ns) && AtEndOrNone(tail)
    ensures ParseNotebookList(TokensSeq(ns) + tail, sep, acc) == ConsumedList(NotebooksOf(ns, sep), acc, tail)
    decreases ns
  {
    if ns == [] {
      assert TokensSeq(ns) + tail == tail;
      assert acc + [] == acc;
    } else {
      var rest := TokensSeq(ns[1..]) + tail;
      NodesFirst(ns, tail);
      var n := ns[0];
      assert NotebooksClean(ns[1..]) by {
        forall i | 0 <= i < |ns[1..]|
          ensures if Named(ns[1..][i], NotebookName) then ChildrenClean(ns[1..][i].children) else Flat(ns[1..][i])
        {
          assert ns[1..][i] == ns[i + 1];
        }
      }
      if Named(n, NotebookName) {
        assert ChildrenClean(n.children);
        ElementStart(n, rest);
        NotebookExact(n, rest, sep);
        var nb := NotebookOf(n, sep);
        if nb.Success? {
          NotebookListExact(ns[1..], tail, sep, acc + [nb.value]);
          ConsumedCons(acc, nb.value, NotebooksOf(ns[1..], sep), tail);
        }
      } else {
        assert Flat(ns[0]);
        FlatNode(n, rest);
        NotebookListExact(ns[1..], tail, sep, acc);
      }
    }
  }

  /** ParseNotebooks on a document: the notebooks of the Notebooks element, in document order. */
  lemma ParseNotebooksExact(e: Node, rest: seq<Token>, sep: string)
    requires e.Element? && NotebooksClean(e.children)
    ensures ParseNotebooks(Tokens(e) + rest, sep) ==
            if Named(e, NotebookList) then NotebooksOf(e.children, sep) else Success([])
  {
    ElementStart(e, rest);
    if Named(e, NotebookList) && e.children != [] {
      NotebookListExact(e.children, [End] + rest, sep, []);
      assert ([End] + rest)[1..] == rest;
      var nbs := NotebooksOf(e.children, sep);
      if nbs.Success? {
        assert [] + nbs.value == nbs.value;
      }
    }
  }

  /** ParseUnknown on a document whose top element is one of the four kinds. */
  lemma ParseUnknownExact(e: Node, rest: seq<Token>, parent: ParentView, sep: string)
    requires e.Element? && ChildClean(e) && (Named(e, NotebookName) ==> ChildrenClean(e.children))
    ensures var r := ParseUnknown(Tokens(e) + rest, Some(parent), sep);
            Named(e, NotebookName) ==> r == Lift(NotebookOf(e, sep))
    ensures var r := ParseUnknown(Tokens(e) + rest, Some(parent), sep);
            Named(e, SectionName) ==> r == Lift(SectionOf(e, parent, sep))
    ensures var r := ParseUnknown(Tokens(e) + rest, Some(parent), sep);
            Named(e, SectionGroupName) ==> r == Lift(SectionGroupOf(e, parent, sep))
    ensures var r := ParseUnknown(Tokens(e) + rest, Some(parent), sep);
            Named(e, PageName) && parent.kind == SectionKind ==> r == Lift(PageOf(e, parent, sep))
  {
    ElementStart(e, rest);
    if Named(e, NotebookName) {
      NotebookExact(e, rest, sep);
    } else if Named(e, SectionName) {
      SectionExact(e, rest, parent, sep);
    } else if Named(e, SectionGroupName) {
      SectionGroupExact(e, rest, parent, sep);
    } else if Named(e, PageName) {
      PageExact(e, rest, parent, sep);
    }
  }

  /** A found item, as ParseUnknown returns it. */
  function Lift(d: Result<LItem>): Result<Option<LItem>> {
    if d.Failure? then Failure(d.error) else Success(Some(d.value))
  }

  // ---------------------------------------------------------------------
  // What the reference definition says about order and kinds.

  function Kinds(items: seq<LItem>): (r: seq<Kind>)
    ensures |r| == |items| && forall i | 0 <= i < |items| :: r[i] == items[i].item.KindOf()
  {
    if items == [] then [] else [items[0].item.KindOf()] + Kinds(items[1..])
  }

  /** The kinds of the Section and SectionGroup elements among `ns`, in document order. */
  function ChildKinds(ns: seq<Node>): seq<Kind> {
    if ns == [] then []
    else if Named(ns[0], SectionName) then [SectionKind] + ChildKinds(ns[1..])
    else if Named(ns[0], SectionGroupName) then [SectionGroupKind] + ChildKinds(ns[1..])
    else ChildKinds(ns[1..])
  }

  /** How many of `ns` are elements named `local`. */
  function CountNamed(ns: seq<Node>, local: string): nat {
    if ns == [] then 0 else (if Named(ns[0], local) then 1 else 0) + CountNamed(ns[1..], local)
  }

  /** Sections and section groups come out interleaved, one item per element, in document order. */
  lemma {:induction false} ChildrenOfOrder(ns: seq<Node>, container: ParentView, sep: string)
    ensures var r := ChildrenOf(ns, container, sep);
            r.Success? ==> Kinds(r.value) == ChildKinds(ns)
  {
    if ns != [] {
      ChildrenOfOrder(ns[1..], container, sep);
      if Named(ns[0], SectionName) {
        var s := SectionOf(ns[0], container, sep);
        var tail := ChildrenOf(ns[1..], container, sep);
        if s.Success? && tail.Success? {
          assert Kinds([s.value] + tail.value) == [s.value.item.KindOf()] + Kinds(tail.value);
        }
      } else if Named(ns[0], SectionGroupName) {
        var g := SectionGroupOf(ns[0], container, sep);
        var tail := ChildrenOf(ns[1..], container, sep);
        if g.Success? && tail.Success? {
          assert Kinds([g.value] + tail.value) == [g.value.item.KindOf()] + Kinds(tail.value);
        }
      }
    }
  }

  /** A section's Children are its Page elements, one each, all pages. */
  lemma {:induction false} PagesOfCount(ns: seq<Node>, section: ParentView, sep: string)
    ensures var r := PagesOf(ns, section, sep);
            r.Success? ==> |r.value| == CountNamed(ns, PageName) &&
                           forall i | 0 <= i < |r.value| :: r.value[i].item.KindOf() == PageKind
  {
    if ns != [] {
      PagesOfCount(ns[1..], section, sep);
    }
  }

  /** The notebook list has one notebook per Notebook element. */
  lemma {:induction false} NotebooksOfCount(ns: seq<Node>, sep: string)
    ensures var r := NotebooksOf(ns, sep);
            r.Success? ==> |r.value| == CountNamed(ns, NotebookName) &&
                           forall i | 0 <= i < |r.value| :: r.value[i].item.KindOf() == NotebookKind
  {
    if ns != [] {
      NotebooksOfCount(ns[1..], sep);
    }
  }
}
