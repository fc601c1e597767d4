/**
 * The child loops of the streaming engine call `reader.Read()` on an element
 * they do not parse. Read steps into that element, so the loop then sees its
 * children as if they were siblings, and the end tag of the unknown element
 * ends the loop early. This module exhibits that on one section element
 * (as written, `StepInto`) and proves that with `reader.Skip()` instead
 * (`SkipOver`) every Parse* function consumes exactly the tokens of the
 * element it is on.
 */
module XmlReaderFindings {
  import opened Base
  import opened Xml
  import opened Hierarchy
  import opened XmlReaderSpec

  // ---------------------------------------------------------------------
  // As written: a section holding an unknown element that holds a page.

  /** `<Section><Other><Page ID="nested"/></Other><Page ID="own"/></Section>`. */
  function NestedPageSection(): Node {
    Element(OneNote(SectionName), [], [
      Element(OneNote("Other"), [], [Element(OneNote(PageName), [Attr(IdAttr, "nested")], [])]),
      Element(OneNote(PageName), [Attr(IdAttr, "own")], [])])
  }

  const OtherStart: Token := Start(OneNote("Other"), [], false)
  const NestedPage: Token := Start(OneNote(PageName), [Attr(IdAttr, "nested")], true)
  const OwnPage: Token := Start(OneNote(PageName), [Attr(IdAttr, "own")], true)

  /** What a reader reports for NestedPageSection. */
  lemma NestedPageSectionTokens()
    ensures Tokens(NestedPageSection()) == [Start(OneNote(SectionName), [], false), OtherStart, NestedPage, End, OwnPage, End]
  {
    var other := NestedPageSection().children[0];
    var own := NestedPageSection().children[1];
    assert Tokens(other.children[0]) == [NestedPage];
    assert TokensSeq(other.children) == [NestedPage];
    assert Tokens(other) == [OtherStart, NestedPage, End];
    assert Tokens(own) == [OwnPage];
    assert TokensSeq(NestedPageSection().children[1..]) == [OwnPage];
    assert TokensSeq(NestedPageSection().children) == [OtherStart, NestedPage, End, OwnPage];
  }

  /** An arena holding just the section being parsed, as reference 0. */
  function SectionOnly(): Arena {
    Arena(map[0 := NewItem(SectionKind)], 1)
  }

  /** The section after ParseSection set its Parent and (empty) attributes. */
  function SectionSet(): Arena {
    SetParent(SectionOnly(), 0, None)
  }

  lemma SectionSetAttributes(ts: seq<Token>)
    requires ts != [] && ts[0] == Start(OneNote(SectionName), [], false)
    ensures SetAttributes(SectionSet(), 0, ts) == Success(SectionSet())
  {
    assert AttrsAt(ts) == [];
    var a := SectionSet();
    assert Put(a, 0, a.items[0]).items == a.items;
  }

  /** The page allocated as reference 1 with the section as Parent, attributes applied from `t`. */
  lemma PageStep(p: UnknownElements, t: Token, rest: seq<Token>, id: string)
    requires t == Start(OneNote(PageName), [Attr(IdAttr, id)], true)
    ensures var a1 := Alloc(SectionSet(), NewItem(PageKind)).0;
            var r := ParsePage(a1, [t] + rest, 1, Some(0));
            r.Success? && r.value.rest == rest && r.value.arena.next == 2 &&
            r.value.arena.items.Keys == {0, 1} && r.value.arena.items[0] == SectionSet().items[0] &&
            r.value.arena.items[1].id == Some(id)
  {
    var ts := [t] + rest;
    assert ts[1..] == rest;
    assert AttrsAt(ts) == [Attr(IdAttr, id)];
    var a2 := SetParent(Alloc(SectionSet(), NewItem(PageKind)).0, 1, Some(0));
    var it := a2.items[1];
    assert ApplyAttribute(it, Attr(IdAttr, id)) == Success(it.(id := Some(id)));
    assert [Attr(IdAttr, id)][1..] == [];
    assert ApplyAttributes(it, [Attr(IdAttr, id)]) == Success(it.(id := Some(id)));
    assert SetAttributes(a2, 1, ts) == Success(Put(a2, 1, it.(id := Some(id))));
  }

  /** The page loop of the section on a last page element `t`. */
  lemma LastPage(p: UnknownElements, t: Token, rest: seq<Token>, id: string)
    requires t == Start(OneNote(PageName), [Attr(IdAttr, id)], true)
    requires rest != [] && rest[0] == End
    ensures var r := ParsePages(p, SectionSet(), [t] + rest, 0);
            r.Success? && r.value.rest == rest &&
            0 in r.value.arena.items && r.value.arena.items[0].body.Section? &&
            r.value.arena.items[0].body.pages == [1] &&
            1 in r.value.arena.items && r.value.arena.items[1].id == Some(id)
  {
    PageStep(p, t, rest, id);
  }

  /**
   * With `Read()`, the section gets the page nested in the unknown element
   * as its only page, and returns with its own page and its end tag unread.
   */
  lemma StepIntoMisreadsSection()
    ensures var r := ParseSection(StepInto, SectionOnly(), Tokens(NestedPageSection()), 0, None);
            r.Success? && r.value.rest == [OwnPage, End] &&
            0 in r.value.arena.items && r.value.arena.items[0].body.Section? &&
            r.value.arena.items[0].body.pages == [1] &&
            1 in r.value.arena.items && r.value.arena.items[1].id == Some("nested")
  {
    var ts := Tokens(NestedPageSection());
    NestedPageSectionTokens();
    SectionSetAttributes(ts);
    assert ts[1..] == [OtherStart] + ([NestedPage] + [End, OwnPage, End]);
    assert Read(ts[1..]) == [NestedPage] + [End, OwnPage, End];
    LastPage(StepInto, NestedPage, [End, OwnPage, End], "nested");
  }

  /** With `Skip()`, the same section gets its own page and consumes all of its tokens. */
  lemma SkipOverReadsSection()
    ensures var r := ParseSection(SkipOver, SectionOnly(), Tokens(NestedPageSection()), 0, None);
            r.Success? && r.value.rest == [] &&
            0 in r.value.arena.items && r.value.arena.items[0].body.Section? &&
            r.value.arena.items[0].body.pages == [1] &&
            1 in r.value.arena.items && r.value.arena.items[1].id == Some("own")
  {
    var ts := Tokens(NestedPageSection());
    NestedPageSectionTokens();
    SectionSetAttributes(ts);
    assert ts[1..] == [OtherStart, NestedPage, End] + ([OwnPage] + [End]);
    assert SkipTo([NestedPage, End, OwnPage, End], 0) == SkipTo([End, OwnPage, End], 0);
    assert Skip(ts[1..]) == [OwnPage] + [End];
    LastPage(SkipOver, OwnPage, [End], "own");
  }

  // ---------------------------------------------------------------------
  // Corrected: with Skip(), every element parser consumes exactly its element.

  /** A node the loops pass by with Skip(): exactly its tokens. */
  lemma PassNode(n: Node, rest: seq<Token>)
    ensures PassOther(SkipOver, Tokens(n) + rest) == rest
  {
    if n.Element? {
      SkipElement(n, rest);
    } else {
      assert (Tokens(n) + rest)[1..] == rest;
    }
  }

  /** The page loop stops at the end tag after the section's children. */
  lemma {:induction false} ParsePagesExact(a: Arena, ns: seq<Node>, tail: seq<Token>, s: Ref)
    requires AtEndOrNone(tail)
    ensures var r := ParsePages(SkipOver, a, TokensSeq(ns) + tail, s);
            r.Success? ==> r.value.rest == tail
    decreases ns
  {
    if ns == [] {
      assert TokensSeq(ns) + tail == tail;
    } else {
      var rest := TokensSeq(ns[1..]) + tail;
      var ts := TokensSeq(ns) + tail;
      NodesFirst(ns, tail);
      var n := ns[0];
      if n.Element? && n.name.local == PageName {
        ElementStart(n, rest);
        SkipElement(n, rest);
        var (a1, pg) := Alloc(a, NewItem(PageKind));
        var page := ParsePage(a1, ts, pg, Some(s));
        if page.Success? {
          ParsePagesExact(AppendPage(page.value.arena, s, pg), ns[1..], tail, s);
        }
      } else {
        if n.Element? {
          ElementStart(n, rest);
        }
        PassNode(n, rest);
        ParsePagesExact(a, ns[1..], tail, s);
      }
    }
  }

  lemma ParseSectionExact(a: Arena, e: Node, rest: seq<Token>, s: Ref, parent: Option<Ref>)
    requires e.Element? && s in a.items
    ensures var r := ParseSection(SkipOver, a, Tokens(e) + rest, s, parent);
            r.Success? ==> r.value.rest == rest
  {
    ElementStart(e, rest);
    SkipElement(e, rest);
    if e.children != [] {
      var a2 := SetAttributes(SetParent(a, s, parent), s, Tokens(e) + rest);
      if a2.Success? {
        ParsePagesExact(a2.value, e.children, [End] + rest, s);
        assert ([End] + rest)[1..] == rest;
      }
    }
  }

  /** The ParseChildren loop stops at the end tag after the container's children. */
  lemma {:induction false} ParseChildrenExact(a: Arena, ns: seq<Node>, tail: seq<Token>, c: Ref)
    requires AtEndOrNone(tail)
    ensures var r := ParseChildren(SkipOver, a, TokensSeq(ns) + tail, c);
            r.Success? ==> r.value.rest == tail
    decreases ns, 0
  {
    if ns == [] {
      assert TokensSeq(ns) + tail == tail;
    } else {
      var rest := TokensSeq(ns[1..]) + tail;
      var ts := TokensSeq(ns) + tail;
      NodesFirst(ns, tail);
      var n := ns[0];
      if n.Element? && n.name.local == SectionName {
        ElementStart(n, rest);
        ChildrenOnSection(SkipOver, a, ts, c);
        var a1 := Alloc(a, NewItem(SectionKind)).0;
        ParseSectionExact(a1, n, rest, a.next, Some(c));
        var sec := ParseSection(SkipOver, a1, ts, a.next, Some(c));
        if sec.Success? {
          ParseChildrenExact(AppendSection(sec.value.arena, c, a.next), ns[1..], tail, c);
        }
      } else if n.Element? && n.name.local == SectionGroupName {
        ElementStart(n, rest);
        ChildrenOnSectionGroup(SkipOver, a, ts, c);
        var a1 := Alloc(a, NewItem(SectionGroupKind)).0;
        ParseSectionGroupExact(a1, n, rest, a.next, Some(c));
        var grp := ParseSectionGroup(SkipOver, a1, ts, a.next, Some(c));
        if grp.Success? {
          ParseChildrenExact(AppendSectionGroup(grp.value.arena, c, a.next), ns[1..], tail, c);
        }
      } else {
        if n.Element? {
          ElementStart(n, rest);
        }
        PassNode(n, rest);
        ParseChildrenExact(a, ns[1..], tail, c);
      }
    }
  }

  lemma {:induction false} ParseSectionGroupExact(a: Arena, e: Node, rest: seq<Token>, g: Ref, parent: Option<Ref>)
    requires e.Element? && g in a.items
    ensures var r := ParseSectionGroup(SkipOver, a, Tokens(e) + rest, g, parent);
            r.Success? ==> r.value.rest == rest
    decreases e, 1
  {
    ElementStart(e, rest);
    SkipElement(e, rest);
    if e.children != [] {
      var a2 := SetAttributes(SetParent(a, g, parent), g, Tokens(e) + rest);
      if a2.Success? {
        ParseChildrenExact(a2.value, e.children, [End] + rest, g);
        assert ([End] + rest)[1..] == rest;
      }
    }
  }

  lemma ParseNotebookExact(a: Arena, e: Node, rest: seq<Token>, nb: Ref, root: Option<Ref>)
    requires e.Element? && nb in a.items
    ensures var r := ParseNotebook(SkipOver, a, Tokens(e) + rest, nb, root);
            r.Success? ==> r.value.rest == rest
  {
    ElementStart(e, rest);
    SkipElement(e, rest);
    if e.children != [] {
      var a2 := SetAttributes(SetRoot(a, nb, root), nb, Tokens(e) + rest);
      if a2.Success? {
        ParseChildrenExact(a2.value, e.children, [End] + rest, nb);
        assert ([End] + rest)[1..] == rest;
      }
    }
  }

  /** The OpenSections loop stops at the end tag after its children. */
  lemma {:induction false} ParseOpenSectionListExact(a: Arena, ns: seq<Node>, tail: seq<Token>, os: OpenSectionsObj)
    requires AtEndOrNone(tail)
    ensures var r := ParseOpenSectionList(SkipOver, a, TokensSeq(ns) + tail, os);
            r.Success? ==> r.value.rest == tail
    decreases ns
  {
    if ns == [] {
      assert TokensSeq(ns) + tail == tail;
    } else {
      var rest := TokensSeq(ns[1..]) + tail;
      var ts := TokensSeq(ns) + tail;
      NodesFirst(ns, tail);
      var n := ns[0];
      if n.Element? && n.name.local == SectionName {
        ElementStart(n, rest);
        var (a1, sr) := Alloc(a, NewItem(SectionKind));
        ParseSectionExact(a1, n, rest, sr, None);
        var sec := ParseSection(SkipOver, a1, ts, sr, None);
        if sec.Success? {
          ParseOpenSectionListExact(sec.value.arena, ns[1..], tail, os.(sections := os.sections + [sr]));
        }
      } else {
        if n.Element? {
          ElementStart(n, rest);
        }
        PassNode(n, rest);
        ParseOpenSectionListExact(a, ns[1..], tail, os);
      }
    }
  }

  lemma ParseOpenSectionsExact(a: Arena, e: Node, rest: seq<Token>)
    requires e.Element?
    ensures var r := ParseOpenSections(SkipOver, a, Tokens(e) + rest);
            r.Success? ==> r.value.rest == rest
  {
    ElementStart(e, rest);
    SkipElement(e, rest);
    if e.children != [] {
      var os := NewOpenSections().(id := LastValue(AttrsAt(Tokens(e) + rest), IdAttr));
      ParseOpenSectionListExact(a, e.children, [End] + rest, os);
      assert ([End] + rest)[1..] == rest;
    }
  }

  /** The ParseRoot loop stops at the end tag after the root's children. */
  lemma {:induction false} ParseRootChildrenExact(a: Arena, ns: seq<Node>, tail: seq<Token>, rr: Ref, root: RootObj)
    requires AtEndOrNone(tail)
    ensures var r := ParseRootChildren(SkipOver, a, TokensSeq(ns) + tail, rr, root);
            r.Success? ==> r.value.rest == tail
    decreases ns
  {
    if ns == [] {
      assert TokensSeq(ns) + tail == tail;
    } else {
      var rest := TokensSeq(ns[1..]) + tail;
      var ts := TokensSeq(ns) + tail;
      NodesFirst(ns, tail);
      var n := ns[0];
      if n.Element? && n.name.local == NotebookName {
        ElementStart(n, rest);
        RootOnNotebook(SkipOver, a, ts, rr, root);
        var a1 := Alloc(a, NewItem(NotebookKind)).0;
        ParseNotebookExact(a1, n, rest, a.next, Some(rr));
        var nb := ParseNotebook(SkipOver, a1, ts, a.next, Some(rr));
        if nb.Success? {
          ParseRootChildrenExact(nb.value.arena, ns[1..], tail, rr, root.(notebooks := root.notebooks + [a.next]));
        }
      } else if n.Element? && n.name.local == OpenSectionsName {
        ElementStart(n, rest);
        RootOnOpenSections(SkipOver, a, ts, rr, root);
        ParseOpenSectionsExact(a, n, rest);
        var o := ParseOpenSections(SkipOver, a, ts);
        if o.Success? {
          ParseRootChildrenExact(o.value.arena, ns[1..], tail, rr, root.(openSections := Some(o.value.open)));
        }
      } else {
        if n.Element? {
          ElementStart(n, rest);
        }
        PassNode(n, rest);
        ParseRootChildrenExact(a, ns[1..], tail, rr, root);
      }
    }
  }

  lemma ParseRootExact(a: Arena, e: Node, rest: seq<Token>)
    requires e.Element?
    ensures var r := ParseRoot(SkipOver, a, Tokens(e) + rest);
            r.Success? ==> r.value.rest == rest
  {
    ElementStart(e, rest);
    SkipElement(e, rest);
    if e.children != [] {
      var a1 := AllocRef(a).0;
      ParseRootChildrenExact(a1, e.children, [End] + rest, a.next, NewRoot());
      assert ([End] + rest)[1..] == rest;
    }
  }

  /** Parse on an element consumes exactly that element. */
  lemma ParseExact(a: Arena, e: Node, rest: seq<Token>, parent: Option<Ref>)
    requires e.Element?
    ensures var r := Parse(SkipOver, a, Tokens(e) + rest, parent);
            r.Success? ==> r.value.rest == rest
  {
    ElementStart(e, rest);
    var local := e.name.local;
    if local == NotebookName {
      ParseNotebookExact(Alloc(a, NewItem(NotebookKind)).0, e, rest, a.next, None);
    } else if local == SectionName {
      ParseSectionExact(Alloc(a, NewItem(SectionKind)).0, e, rest, a.next, parent);
    } else if local == SectionGroupName {
      ParseSectionGroupExact(Alloc(a, NewItem(SectionGroupKind)).0, e, rest, a.next, parent);
    } else if local == PageName {
      SkipElement(e, rest);
    }
  }
}
