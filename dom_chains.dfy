/**
 * The DOM (XElement) engine keeps Parent links acyclic too. It links an item
 * under its container only after the item's own children point at it, so
 * its steps are not the streaming engine's; what it keeps instead is an
 * order: every item it creates points at an item that existed before the
 * parse or at one created before itself, and every item that existed keeps
 * its Parent. Such a growth ranks every new item above every old one.
 */
module XElementChains {
  import opened Base
  import opened Xml
  import opened Hierarchy
  import opened Axes
  import opened XElementSpec
  import DP = XElementProperties

  // ---------------------------------------------------------------------
  // Ordered growth.

  /** Every item of `a` is still in `b`, and each outside `except` keeps its Parent. */
  predicate KeepsParents(a: Arena, b: Arena, except: set<Ref>) {
    a.items.Keys <= b.items.Keys &&
    forall x | x in a.items && x !in except :: b.items[x].Parent() == a.items[x].Parent()
  }

  /** Every item `b` adds is newer than `a` and points at an item of `a` or at an older one of `b`. */
  predicate PointsBack(a: Arena, b: Arena) {
    forall x | x in b.items && x !in a.items ::
      a.next <= x &&
      (b.items[x].Parent().Some? ==>
         b.items[x].Parent().value in b.items &&
         (b.items[x].Parent().value in a.items || b.items[x].Parent().value < x))
  }

  /** `b` grows from `a` in order, every Parent outside `except` kept. */
  predicate Ordered(a: Arena, b: Arena, except: set<Ref>) {
    Allocated(b) && a.next <= b.next && KeepsParents(a, b, except) && PointsBack(a, b)
  }

  /** Two ordered growths in a row are one, when the second changes no Parent the first added. */
  lemma OrderedTrans(a: Arena, b: Arena, c: Arena, e1: set<Ref>, e2: set<Ref>)
    requires Ordered(a, b, e1) && Ordered(b, c, e2) && e2 <= a.items.Keys
    ensures Ordered(a, c, e1 + e2)
  {
    forall x | x in c.items && x !in a.items
      ensures a.next <= x &&
              (c.items[x].Parent().Some? ==>
                 c.items[x].Parent().value in c.items &&
                 (c.items[x].Parent().value in a.items || c.items[x].Parent().value < x))
    {
      if x in b.items {
        assert c.items[x].Parent() == b.items[x].Parent();
      } else if c.items[x].Parent().Some? {
        var p := c.items[x].Parent().value;
        if p in b.items && p !in a.items {
          assert p < b.next;
        }
      }
    }
  }

  /** Every rank of the finitely many items lies below some bound. */
  lemma RankBound(s: set<Ref>, rank: map<Ref, nat>) returns (m: nat)
    requires s <= rank.Keys
    ensures forall x | x in s :: rank[x] < m
    decreases s
  {
    if s == {} {
      m := 0;
    } else {
      var y :| y in s;
      var m' := RankBound(s - {y}, rank);
      m := if m' <= rank[y] then rank[y] + 1 else m';
    }
  }

  /** An ordered growth that keeps every Parent keeps the chains finite: new items rank above old ones, in order. */
  lemma OrderedAcyclic(a: Arena, b: Arena)
    requires ParentsAcyclic(a) && Ordered(a, b, {})
    ensures ParentsAcyclic(b) && Allocated(b)
  {
    var old_ := Rank(a);
    var m := RankBound(a.items.Keys, old_);
    var rank := map x | x in b.items :: if x in a.items then old_[x] else m + x;
    forall x | x in b.items
      ensures b.items[x].Parent().Some? ==> b.items[x].Parent().value in b.items
      ensures x in rank && (b.items[x].Parent().Some? && b.items[x].Parent().value in rank ==>
                            rank[b.items[x].Parent().value] < rank[x])
    {
      if x in a.items && b.items[x].Parent().Some? {
        assert b.items[x].Parent() == a.items[x].Parent();
      }
    }
    assert Ranked(b, rank);
  }

  // ---------------------------------------------------------------------
  // The writes.

  /** Rewriting one item's body keeps the order, and every Parent but that item's. */
  lemma PutBodyOrdered(a: Arena, r: Ref, body: Body)
    requires Allocated(a)
    ensures Ordered(a, PutBody(a, r, body), {r})
    ensures r in a.items && LinksOf(body).parent == a.items[r].Parent() ==> Ordered(a, PutBody(a, r, body), {})
  {
  }

  /** A new item without a Parent is an ordered growth. */
  lemma AllocOrdered(a: Arena, k: Kind)
    requires Allocated(a)
    ensures Ordered(a, Alloc(a, NewItem(k)).0, {})
  {
  }

  /**
   * A new item that, after its own parse, points at an existing item or at
   * none: the allocation and the parse make one ordered growth with every old
   * Parent kept.
   */
  lemma LinkedChildOrdered(a: Arena, a2: Arena, k: Kind, parent: Option<Ref>)
    requires Allocated(a) && (parent.Some? ==> parent.value in a.items)
    requires Ordered(Alloc(a, NewItem(k)).0, a2, {a.next})
    requires a.next in a2.items && (a2.items[a.next].Parent() == None || a2.items[a.next].Parent() == parent)
    ensures Ordered(a, a2, {})
  {
    var a1 := Alloc(a, NewItem(k)).0;
    forall x | x in a2.items && x !in a.items
      ensures a.next <= x &&
              (a2.items[x].Parent().Some? ==>
                 a2.items[x].Parent().value in a2.items &&
                 (a2.items[x].Parent().value in a.items || a2.items[x].Parent().value < x))
    {
      if x != a.next && a2.items[x].Parent().Some? && a2.items[x].Parent().value == a.next {
        assert a1.next <= x;
      }
    }
  }

  // ---------------------------------------------------------------------
  // Parse<T> and its loops.

  /**
   * Parse<T> on `r` grows the arena in order and changes no Parent but
   * `r`'s; which Parent `r` takes is XElementProperties.ParseIntoFacts'.
   */
  lemma {:induction false} ParseIntoOrdered(a: Arena, e: Node, r: Ref, parent: Option<Ref>)
    requires Allocated(a) && r in a.items && e.Element?
    ensures var res := ParseInto(a, e, r, parent);
            res.Success? ==> Ordered(a, res.value, {r})
    decreases e, 1
  {
    var a1 := SetAttributes(a, r, e.attrs);
    if a1.Success? {
      var it := ApplyAttributes(a.items[r], e.attrs).value;
      PutBodyOrdered(a, r, it.body);
      assert a1.value == Put(a, r, it);
      assert Ordered(a, a1.value, {});
      var b := a1.value;
      match b.items[r].body
      case Notebook(_, _, _, _, _, _) =>
        ParseChildrenOrdered(b, e.children, r);
        var c := ParseChildren(b, e.children, r);
        if c.Success? {
          OrderedTrans(a, b, c.value, {}, {});
        }
      case SectionGroup(_, _, _, _, _) =>
        GroupIntoOrdered(a, b, e, r, parent);
      case Section(_, _, _, _, _, _, _, _) =>
        SectionIntoOrdered(a, b, e, r, parent);
      case Page(_, _, _, _) =>
        if AsSection(b, parent).Success? {
          PutBodyOrdered(b, r, WithParent(b.items[r].body, parent));
          OrderedTrans(a, b, SetParent(b, r, parent), {}, {r});
        }
    }
  }

  /** The section-group branch of Parse<T>, once the attributes are set. */
  lemma {:induction false} GroupIntoOrdered(a: Arena, b: Arena, e: Node, r: Ref, parent: Option<Ref>)
    requires Allocated(a) && r in a.items && e.Element?
    requires SetAttributes(a, r, e.attrs) == Success(b) && Ordered(a, b, {}) && r in b.items && b.items[r].body.SectionGroup?
    ensures var res := ParseInto(a, e, r, parent);
            res.Success? ==> Ordered(a, res.value, {r})
    decreases e, 0
  {
    ParseChildrenOrdered(b, e.children, r);
    var c := ParseChildren(b, e.children, r);
    if c.Success? && AsContainer(c.value, parent).Success? {
      OrderedTrans(a, b, c.value, {}, {});
      assert r in c.value.items;
      PutBodyOrdered(c.value, r, WithParent(c.value.items[r].body, parent));
      OrderedTrans(a, c.value, SetParent(c.value, r, parent), {}, {r});
    }
  }

  /** The section branch of Parse<T>, once the attributes are set. */
  lemma {:induction false} SectionIntoOrdered(a: Arena, b: Arena, e: Node, r: Ref, parent: Option<Ref>)
    requires Allocated(a) && r in a.items && e.Element?
    requires SetAttributes(a, r, e.attrs) == Success(b) && Ordered(a, b, {}) && r in b.items && b.items[r].body.Section?
    ensures var res := ParseInto(a, e, r, parent);
            res.Success? ==> Ordered(a, res.value, {r})
    decreases e, 0
  {
    ParsePagesOrdered(b, e.children, r, []);
    var built := ParsePages(b, e.children, r, []);
    if built.Success? && AsContainer(built.value.arena, parent).Success? {
      var c := built.value.arena;
      OrderedTrans(a, b, c, {}, {});
      assert r in c.items;
      SectionFinishOrdered(c, r, built.value.refs, parent);
      OrderedTrans(a, c, SetParent(AssignPages(c, r, built.value.refs), r, parent), {}, {r});
    }
  }

  /** The last two writes of a section's Parse<T>: its pages, then its Parent. */
  lemma SectionFinishOrdered(c: Arena, r: Ref, pages: seq<Ref>, parent: Option<Ref>)
    requires Allocated(c) && r in c.items
    ensures Ordered(c, SetParent(AssignPages(c, r, pages), r, parent), {r})
  {
    AssignPagesOrdered(c, r, pages);
    var d := AssignPages(c, r, pages);
    PutBodyOrdered(d, r, WithParent(d.items[r].body, parent));
    OrderedTrans(c, d, SetParent(d, r, parent), {}, {r});
  }

  /** Replacing a section's page list keeps every Parent. */
  lemma AssignPagesOrdered(a: Arena, s: Ref, pages: seq<Ref>)
    requires Allocated(a)
    ensures Ordered(a, AssignPages(a, s, pages), {})
  {
    if s in a.items && a.items[s].body.Section? {
      PutBodyOrdered(a, s, WithPages(a.items[s].body, pages));
    }
  }

  /** Adding a child to a container's list keeps every Parent. */
  lemma AppendOrdered(a: Arena, c: Ref, x: Ref, group: bool)
    requires Allocated(a)
    ensures Ordered(a, if group then AppendSectionGroup(a, c, x) else AppendSection(a, c, x), {})
  {
    if c in a.items && a.items[c].IsContainer() {
      if group {
        PutBodyOrdered(a, c, WithSectionGroups(a.items[c].body, a.items[c].body.sectionGroups + [x]));
      } else {
        PutBodyOrdered(a, c, WithSections(a.items[c].body, a.items[c].body.sections + [x]));
      }
    }
  }

  /** One child element parsed and linked under the container `c`. */
  lemma ChildOrdered(a: Arena, n: Node, c: Ref, k: Kind)
    requires Allocated(a) && c in a.items && Named(n, if k == SectionKind then SectionName else SectionGroupName)
    requires k == SectionKind || k == SectionGroupKind
    ensures var (a1, x) := Alloc(a, NewItem(k));
            var a2 := ParseInto(a1, n, x, Some(c));
            a2.Success? ==> Ordered(a, a2.value, {})
    decreases n, 2
  {
    var (a1, x) := Alloc(a, NewItem(k));
    AllocOrdered(a, k);
    ParseIntoOrdered(a1, n, x, Some(c));
    DP.ParseIntoFacts(a1, n, x, Some(c));
    var a2 := ParseInto(a1, n, x, Some(c));
    if a2.Success? {
      LinkedChildOrdered(a, a2.value, k, Some(c));
    }
  }

  lemma {:induction false} ParseChildrenOrdered(a: Arena, ns: seq<Node>, c: Ref)
    requires Allocated(a) && c in a.items
    ensures var res := ParseChildren(a, ns, c);
            res.Success? ==> Ordered(a, res.value, {})
    decreases ns, 0
  {
    if ns != [] {
      if Named(ns[0], SectionName) || Named(ns[0], SectionGroupName) {
        var k := if Named(ns[0], SectionName) then SectionKind else SectionGroupKind;
        var (a1, x) := Alloc(a, NewItem(k));
        ChildOrdered(a, ns[0], c, k);
        var a2 := ParseInto(a1, ns[0], x, Some(c));
        if a2.Success? {
          AppendOrdered(a2.value, c, x, k == SectionGroupKind);
          var a3 := if k == SectionGroupKind then AppendSectionGroup(a2.value, c, x) else AppendSection(a2.value, c, x);
          OrderedTrans(a, a2.value, a3, {}, {});
          ParseChildrenOrdered(a3, ns[1..], c);
          var b := ParseChildren(a3, ns[1..], c);
          if b.Success? {
            OrderedTrans(a, a3, b.value, {}, {});
          }
        }
      } else {
        ParseChildrenOrdered(a, ns[1..], c);
      }
    }
  }

  lemma {:induction false} ParsePagesOrdered(a: Arena, ns: seq<Node>, s: Ref, acc: seq<Ref>)
    requires Allocated(a) && s in a.items
    ensures var res := ParsePages(a, ns, s, acc);
            res.Success? ==> Ordered(a, res.value.arena, {})
    decreases ns, 0
  {
    if ns != [] {
      if ns[0].Element? {
        var (a1, pg) := Alloc(a, NewItem(PageKind));
        AllocOrdered(a, PageKind);
        ParseIntoOrdered(a1, ns[0], pg, Some(s));
        DP.ParseIntoFacts(a1, ns[0], pg, Some(s));
        var a2 := ParseInto(a1, ns[0], pg, Some(s));
        if a2.Success? {
          LinkedChildOrdered(a, a2.value, PageKind, Some(s));
          ParsePagesOrdered(a2.value, ns[1..], s, acc + [pg]);
          var b := ParsePages(a2.value, ns[1..], s, acc + [pg]);
          if b.Success? {
            OrderedTrans(a, a2.value, b.value.arena, {}, {});
          }
        }
      } else {
        ParsePagesOrdered(a, ns[1..], s, acc);
      }
    }
  }

  /** A new item parsed with no Parent: a notebook, or an open section. */
  lemma TopItemOrdered(a: Arena, n: Node, k: Kind)
    requires Allocated(a) && n.Element?
    ensures var (a1, x) := Alloc(a, NewItem(k));
            var a2 := ParseInto(a1, n, x, None);
            a2.Success? ==> Ordered(a, a2.value, {})
  {
    var (a1, x) := Alloc(a, NewItem(k));
    AllocOrdered(a, k);
    ParseIntoOrdered(a1, n, x, None);
    DP.ParseIntoFacts(a1, n, x, None);
    var a2 := ParseInto(a1, n, x, None);
    if a2.Success? {
      LinkedChildOrdered(a, a2.value, k, None);
    }
  }

  lemma {:induction false} ParseNotebooksOrdered(a: Arena, ns: seq<Node>, rr: Ref, acc: seq<Ref>)
    requires Allocated(a)
    ensures var res := ParseNotebooks(a, ns, rr, acc);
            res.Success? ==> Ordered(a, res.value.arena, {})
    decreases ns
  {
    if ns != [] {
      if Named(ns[0], NotebookName) {
        var (a1, nb) := Alloc(a, NewItem(NotebookKind));
        TopItemOrdered(a, ns[0], NotebookKind);
        var a2 := ParseInto(a1, ns[0], nb, None);
        if a2.Success? {
          var a3 := SetRoot(a2.value, nb, Some(rr));
          if nb in a2.value.items {
            PutBodyOrdered(a2.value, nb, WithRoot(a2.value.items[nb].body, Some(rr)));
          }
          OrderedTrans(a, a2.value, a3, {}, {});
          ParseNotebooksOrdered(a3, ns[1..], rr, acc + [nb]);
          var b := ParseNotebooks(a3, ns[1..], rr, acc + [nb]);
          if b.Success? {
            OrderedTrans(a, a3, b.value.arena, {}, {});
          }
        }
      } else {
        ParseNotebooksOrdered(a, ns[1..], rr, acc);
      }
    }
  }

  lemma {:induction false} ParseOpenSectionListOrdered(a: Arena, ns: seq<Node>, acc: seq<Ref>)
    requires Allocated(a)
    ensures var res := ParseOpenSectionList(a, ns, acc);
            res.Success? ==> Ordered(a, res.value.arena, {})
    decreases ns
  {
    if ns != [] {
      if ns[0].Element? {
        var (a1, s) := Alloc(a, NewItem(SectionKind));
        TopItemOrdered(a, ns[0], SectionKind);
        var a2 := ParseInto(a1, ns[0], s, None);
        if a2.Success? {
          ParseOpenSectionListOrdered(a2.value, ns[1..], acc + [s]);
          var b := ParseOpenSectionList(a2.value, ns[1..], acc + [s]);
          if b.Success? {
            OrderedTrans(a, a2.value, b.value.arena, {}, {});
          }
        }
      } else {
        ParseOpenSectionListOrdered(a, ns[1..], acc);
      }
    }
  }

  // ---------------------------------------------------------------------
  // The entry points.

  /** ParseRoot keeps the chains finite. */
  lemma ParseRootAcyclic(a: Arena, e: Node)
    requires ParentsAcyclic(a) && Allocated(a)
    ensures var res := ParseRoot(a, e);
            res.Success? ==> ParentsAcyclic(res.value.arena) && Allocated(res.value.arena)
  {
    if e.Element? {
      var (a1, rr) := AllocRef(a);
      ParseNotebooksOrdered(a1, e.children, rr, []);
      var notebooks := ParseNotebooks(a1, e.children, rr, []);
      if notebooks.Success? {
        assert Ordered(a, a1, {});
        OrderedTrans(a, a1, notebooks.value.arena, {}, {});
        var os := FirstNamed(e.children, OpenSectionsName);
        if os.Some? {
          OpenSectionsAcyclic(a, notebooks.value.arena, os.value.children);
        } else {
          OrderedAcyclic(a, notebooks.value.arena);
        }
      }
    }
  }

  /** The open sections of ParseRoot, after its notebooks, keep the chains finite. */
  lemma OpenSectionsAcyclic(a: Arena, b: Arena, ns: seq<Node>)
    requires ParentsAcyclic(a) && Allocated(a) && Ordered(a, b, {})
    ensures var res := ParseOpenSectionList(b, ns, []);
            res.Success? ==> ParentsAcyclic(res.value.arena) && Allocated(res.value.arena)
  {
    ParseOpenSectionListOrdered(b, ns, []);
    var sections := ParseOpenSectionList(b, ns, []);
    if sections.Success? {
      OrderedTrans(a, b, sections.value.arena, {}, {});
      OrderedAcyclic(a, sections.value.arena);
    }
  }

  /** Parse(xml, parent) under an existing parent, or none, keeps the chains finite. */
  lemma ParseAcyclic(a: Arena, e: Node, parent: Option<Ref>)
    requires ParentsAcyclic(a) && Allocated(a) && (parent.Some? ==> parent.value in a.items)
    ensures var res := Parse(a, e, parent);
            res.Success? ==> ParentsAcyclic(res.value.arena) && Allocated(res.value.arena)
  {
    if e.Element? && KindOfName(e.name).Some? {
      var k := KindOfName(e.name).value;
      var (a1, r) := Alloc(a, NewItem(k));
      AllocOrdered(a, k);
      ParseIntoOrdered(a1, e, r, parent);
      DP.ParseIntoFacts(a1, e, r, parent);
      var a2 := ParseInto(a1, e, r, parent);
      if a2.Success? {
        LinkedChildOrdered(a, a2.value, k, parent);
        OrderedAcyclic(a, a2.value);
      }
    }
  }

  /** ParseExisting keeps the item's own Parent, so it keeps the chains finite. */
  lemma ParseExistingAcyclic(a: Arena, e: Node, r: Ref)
    requires ParentsAcyclic(a) && Allocated(a)
    ensures var res := ParseExisting(a, e, r);
            res.Success? ==> ParentsAcyclic(res.value) && Allocated(res.value)
  {
    if e.Element? && r in a.items {
      var parent := if a.items[r].body.Notebook? then None else a.items[r].Parent();
      ParseIntoOrdered(a, e, r, parent);
      DP.ParseIntoFacts(a, e, r, parent);
      var b := ParseInto(a, e, r, parent);
      if b.Success? {
        assert b.value.items[r].Parent() == a.items[r].Parent();
        OrderedAcyclic(a, b.value);
      }
    }
  }
}
