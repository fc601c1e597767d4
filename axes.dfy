/**
 * The axes around one item: Ancestors (the Parent chain, nearest first) and
 * BeforeSelf / AfterSelf (the siblings on either side of an item).
 */
module Axes {
  import opened Base
  import opened Hierarchy
  import opened Traversal
  import Collections

  // ---------------------------------------------------------------------
  // Ancestors.

  /**
   * Every Parent link names an item allocated before the child. This is how
   * the parsers link a hierarchy; a forced re-link of a Parent does not keep it.
   */
  ghost predicate ParentsBelow(a: Arena) {
    forall r | r in a.items && a.items[r].Parent().Some? ::
      a.items[r].Parent().value in a.items && a.items[r].Parent().value < r
  }

  /** `rank` puts every Parent strictly below its child. */
  ghost predicate Ranked(a: Arena, rank: map<Ref, nat>) {
    forall r | r in a.items :: r in rank &&
      (a.items[r].Parent().Some? && a.items[r].Parent().value in rank ==> rank[a.items[r].Parent().value] < rank[r])
  }

  /**
   * Parent links name known items and never lead back round: some ranking
   * puts every Parent below its child, so the chain of parents from any item
   * ends at a null Parent.
   */
  ghost predicate ParentsAcyclic(a: Arena) {
    (forall r | r in a.items && a.items[r].Parent().Some? :: a.items[r].Parent().value in a.items) &&
    exists rank :: Ranked(a, rank)
  }

  ghost function Rank(a: Arena): (rank: map<Ref, nat>)
    requires ParentsAcyclic(a)
    ensures Ranked(a, rank)
  {
    var rank :| Ranked(a, rank); rank
  }

  /** How far the chain of parents from `c` can still climb: the termination measure of every climb. */
  ghost function Height(a: Arena, c: Option<Ref>): nat
    requires ParentsAcyclic(a) && (c.Some? ==> c.value in a.items)
  {
    if c.None? then 0 else Rank(a)[c.value] + 1
  }

  /** Each step up the chain lowers the height. */
  lemma HeightDrops(a: Arena, r: Ref)
    requires ParentsAcyclic(a) && r in a.items
    ensures a.items[r].Parent().Some? ==> a.items[r].Parent().value in a.items
    ensures Height(a, a.items[r].Parent()) < Height(a, Some(r))
  {
  }

  /** Parents allocated before their children cannot form a cycle: the reference itself ranks the items. */
  lemma BelowIsAcyclic(a: Arena)
    requires ParentsBelow(a)
    ensures ParentsAcyclic(a)
  {
    var rank := map r | r in a.items :: r as nat;
    forall r | r in a.items
      ensures r in rank && (a.items[r].Parent().Some? && a.items[r].Parent().value in rank ==>
                            rank[a.items[r].Parent().value] < rank[r])
    {
      if a.items[r].Parent().Some? {
        var p := a.items[r].Parent().value;
        assert rank[p] == p && rank[r] == r;
      }
    }
    assert Ranked(a, rank);
  }

  /** The chain that starts at `c` and follows Parent links up to an item that has none. */
  function ChainFrom(a: Arena, c: Option<Ref>): seq<Ref>
    requires ParentsAcyclic(a) && (c.Some? ==> c.value in a.items)
    decreases Height(a, c)
  {
    if c.None? then [] else HeightDrops(a, c.value); [c.value] + ChainFrom(a, a.items[c.value].Parent())
  }

  /** Ancestors(origin) without a predicate: parent, grandparent, and so on. */
  function AncestorsOf(a: Arena, origin: Ref): seq<Ref>
    requires ParentsAcyclic(a) && origin in a.items
  {
    ChainFrom(a, a.items[origin].Parent())
  }

  /**
   * Ancestors(origin[, predicate]): start at origin's Parent and climb until
   * the Parent is null, yielding each item the predicate accepts (a null
   * predicate accepts everything).
   */
  method Ancestors(a: Arena, origin: Ref, pred: Option<Ref -> bool>) returns (out: seq<Ref>)
    requires ParentsAcyclic(a) && origin in a.items
    ensures out == Select(AncestorsOf(a, origin), pred)
  {
    ghost var total := Select(AncestorsOf(a, origin), pred);
    var current := a.items[origin].Parent();
    out := [];
    while current.Some?
      invariant current.Some? ==> current.value in a.items
      invariant out + Select(ChainFrom(a, current), pred) == total
      decreases Height(a, current)
    {
      var c := current.value;
      ghost var out0 := out;
      if pred.None? || pred.value(c) {
        out := out + [c];
      }
      AncestorsTurn(a, c, pred, total, out0, out);
      current := a.items[c].Parent();
    }
  }

  /** One turn of the climb: `c` is filtered, then the chain goes on from its Parent. */
  lemma AncestorsTurn(a: Arena, c: Ref, pred: Option<Ref -> bool>, total: seq<Ref>, out0: seq<Ref>, out1: seq<Ref>)
    requires ParentsAcyclic(a) && c in a.items
    requires out0 + Select(ChainFrom(a, Some(c)), pred) == total
    requires out1 == out0 + (if pred.None? || pred.value(c) then [c] else [])
    ensures var up := a.items[c].Parent();
      (up.Some? ==> up.value in a.items) && Height(a, up) < Height(a, Some(c)) &&
      out1 + Select(ChainFrom(a, up), pred) == total
  {
    var up := a.items[c].Parent();
    var head := if pred.None? || pred.value(c) then [c] else [];
    HeightDrops(a, c);
    SelectAppend([c], ChainFrom(a, up), pred);
    SelectOne(c, pred);
    Assoc(out0, head, Select(ChainFrom(a, up), pred));
  }

  /** `s` is linked by Parent: each element's Parent is the next one and the last has none. */
  predicate ParentLinked(a: Arena, s: seq<Ref>) {
    (forall i | 0 <= i < |s| :: s[i] in a.items) &&
    (forall i | 0 <= i < |s| - 1 :: a.items[s[i]].Parent() == Some(s[i + 1])) &&
    (s != [] ==> a.items[s[|s| - 1]].Parent() == None)
  }

  /**
   * The chain from `c` is the Parent links themselves: empty exactly when
   * `c` is null, otherwise it starts at `c`, each element's Parent is the
   * next, the last has none, and the height strictly decreases along it.
   */
  lemma {:induction false} ChainLinked(a: Arena, c: Option<Ref>)
    requires ParentsAcyclic(a) && (c.Some? ==> c.value in a.items)
    ensures (ChainFrom(a, c) == []) <==> c.None?
    ensures c.Some? ==> ChainFrom(a, c)[0] == c.value
    ensures ParentLinked(a, ChainFrom(a, c))
    ensures forall i, j | 0 <= i < j < |ChainFrom(a, c)| ::
      ChainFrom(a, c)[j] in a.items && ChainFrom(a, c)[i] in a.items &&
      Height(a, Some(ChainFrom(a, c)[j])) < Height(a, Some(ChainFrom(a, c)[i]))
    decreases Height(a, c)
  {
    if c.Some? {
      var up := a.items[c.value].Parent();
      HeightDrops(a, c.value);
      ChainLinked(a, up);
      var tail := ChainFrom(a, up);
      assert ChainFrom(a, c) == [c.value] + tail;
      if up.Some? {
        assert tail[0] == up.value;
      }
    }
  }

  /** Conversely, a Parent-linked sequence starting at `c` is the chain from `c`: the chain is the only one. */
  lemma {:induction false} ChainUnique(a: Arena, c: Option<Ref>, s: seq<Ref>)
    requires ParentsAcyclic(a) && (c.Some? ==> c.value in a.items)
    requires ParentLinked(a, s) && (s == [] <==> c.None?) && (c.Some? ==> s[0] == c.value)
    ensures s == ChainFrom(a, c)
    decreases |s|
  {
    if c.Some? {
      var up := a.items[c.value].Parent();
      assert ParentLinked(a, s[1..]);
      if |s| > 1 {
        assert s[1..][0] == s[1];
      }
      ChainUnique(a, up, s[1..]);
      assert s == [s[0]] + s[1..];
    }
  }

  /** An item's ancestors are all different, and none of them is the item itself. */
  lemma AncestorsDistinct(a: Arena, origin: Ref)
    requires ParentsAcyclic(a) && origin in a.items
    ensures origin !in AncestorsOf(a, origin)
    ensures forall i, j | 0 <= i < j < |AncestorsOf(a, origin)| :: AncestorsOf(a, origin)[i] != AncestorsOf(a, origin)[j]
  {
    var up := a.items[origin].Parent();
    ChainLinked(a, up);
    var s := AncestorsOf(a, origin);
    HeightDrops(a, origin);
    forall k | 0 <= k < |s|
      ensures s[k] in a.items && Height(a, Some(s[k])) < Height(a, Some(origin))
    {
      if k > 0 {
        assert Height(a, Some(s[k])) < Height(a, Some(s[0]));
      }
    }
  }

  // ---------------------------------------------------------------------
  // BeforeSelf and AfterSelf.

  /** Parent links name known items, and a notebook's root back-reference names a known root. */
  ghost predicate LinksKnown(a: Arena, roots: map<Ref, RootObj>) {
    (forall r | r in a.items && a.items[r].Parent().Some? :: a.items[r].Parent().value in a.items) &&
    (forall r | r in a.items && a.items[r].RootRef().Some? :: a.items[r].RootRef().value in roots)
  }

  /**
   * The list an item's siblings are taken from: its parent's Children; for a
   * notebook without a parent but with a root, that root's notebooks; nothing otherwise.
   */
  function Siblings(a: Arena, roots: map<Ref, RootObj>, origin: Ref): seq<Ref>
    requires LinksKnown(a, roots) && origin in a.items
  {
    var it := a.items[origin];
    if it.Parent().Some? then a.items[it.Parent().value].Children()
    else if it.body.Notebook? && it.RootRef().Some? then roots[it.RootRef().value].notebooks
    else []
  }

  /** The elements before the first occurrence of `x`; all of `s` when `x` is absent. */
  function Before(s: seq<Ref>, x: Ref): seq<Ref> {
    var i := Collections.IndexOf(s, x);
    if i < 0 then s else s[..i]
  }

  /** The elements after the first occurrence of `x`; nothing when `x` is absent. */
  function After(s: seq<Ref>, x: Ref): seq<Ref> {
    var i := Collections.IndexOf(s, x);
    if i < 0 then [] else s[i + 1..]
  }

  /**
   * Before and After split the list around the first occurrence of `x`:
   * when `x` is present the list is Before, `x`, After, and Before has as
   * many elements as the index of `x`; when it is absent Before is the
   * whole list and After is empty.
   */
  lemma SplitAround(s: seq<Ref>, x: Ref)
    ensures x in s ==> Before(s, x) + [x] + After(s, x) == s
    ensures x in s ==> |Before(s, x)| == Collections.IndexOf(s, x) && x !in Before(s, x)
    ensures x !in s ==> Before(s, x) == s && After(s, x) == []
  {
    if x in s {
      var i := Collections.IndexOf(s, x);
      assert s == s[..i] + [s[i]] + s[i + 1..];
    }
  }

  /** In a list without repeats, After never holds `x` itself. */
  lemma AfterExcludesSelf(s: seq<Ref>, x: Ref)
    requires forall i, j | 0 <= i < j < |s| :: s[i] != s[j]
    ensures x !in After(s, x)
  {
    var i := Collections.IndexOf(s, x);
    if 0 <= i {
      forall k | i + 1 <= k < |s|
        ensures s[k] != x
      {
        assert s[i] != s[k];
      }
    }
  }

  lemma IndexOfPrefix(s: seq<Ref>, x: Ref, i: nat)
    requires i < |s| && s[i] == x && x !in s[..i]
    ensures Collections.IndexOf(s, x) == i
  {
    var j := Collections.IndexOf(s, x);
    forall k | 0 <= k < i
      ensures s[k] != x
    {
      assert s[..i][k] == s[k];
    }
    assert s[i] == x;
    forall k | 0 <= k < j
      ensures s[k] != x
    {
      assert s[..j][k] == s[k];
    }
  }

  /** Growing the list read so far by one element, before `x` has been met. */
  lemma BeforeSnoc(s: seq<Ref>, x: Ref, y: Ref)
    requires x !in s && y != x
    ensures x !in s + [y]
    ensures Before(s + [y], x) == s + [y]
  {
  }

  /** One element of InternalBeforeSelf's loop: stop at `x`, otherwise filter and go on. */
  lemma BeforeTurn(s: seq<Ref>, i: nat, x: Ref, pred: Option<Ref -> bool>)
    requires i < |s| && x !in s[..i]
    ensures s[i] == x ==> Before(s, x) == s[..i]
    ensures s[i] != x ==> (x !in s[..i + 1] &&
      Select(s[..i + 1], pred) == Select(s[..i], pred) + (if pred.None? || pred.value(s[i]) then [s[i]] else []))
  {
    PrefixSnoc(s, i);
    if s[i] == x {
      IndexOfPrefix(s, x, i);
    } else {
      SelectAppend(s[..i], [s[i]], pred);
      SelectOne(s[i], pred);
    }
  }

  /**
   * InternalAfterSelf's loop invariant survives one element: with `k` the
   * index of `x`, the flag is up once `k` has been passed, and the output is
   * the accepted elements between `k` and the current one.
   */
  lemma AfterStep(s: seq<Ref>, i: nat, x: Ref, pred: Option<Ref -> bool>,
                  canYield0: bool, canYield1: bool, out0: seq<Ref>, out1: seq<Ref>)
    requires i < |s|
    requires var k := Collections.IndexOf(s, x);
      (canYield0 <==> 0 <= k < i) && (!canYield0 ==> out0 == []) && (canYield0 ==> out0 == Select(s[k + 1..i], pred))
    requires out1 == if canYield0 && (pred.None? || pred.value(s[i])) then out0 + [s[i]] else out0
    requires canYield1 == (canYield0 || x == s[i])
    ensures var k := Collections.IndexOf(s, x);
      (canYield1 <==> 0 <= k < i + 1) && (!canYield1 ==> out1 == []) && (canYield1 ==> out1 == Select(s[k + 1..i + 1], pred))
  {
    var k := Collections.IndexOf(s, x);
    if canYield0 {
      assert s[k + 1..i + 1] == s[k + 1..i] + [s[i]];
      SelectAppend(s[k + 1..i], [s[i]], pred);
      SelectOne(s[i], pred);
    } else if x == s[i] {
      assert s[..k + 1][i] == s[i];
      assert s[k + 1..i + 1] == [];
    }
  }

  /** At the end of InternalAfterSelf's loop the output is everything after `x`. */
  lemma AfterDone(s: seq<Ref>, x: Ref, pred: Option<Ref -> bool>, canYield: bool, out: seq<Ref>)
    requires var k := Collections.IndexOf(s, x);
      (canYield <==> 0 <= k < |s|) && (!canYield ==> out == []) && (canYield ==> out == Select(s[k + 1..|s|], pred))
    ensures out == Select(After(s, x), pred)
  {
    if canYield {
      var k := Collections.IndexOf(s, x);
      assert s[k + 1..|s|] == s[k + 1..];
    }
  }

  lemma WholePrefix(s: seq<Ref>)
    ensures s[..|s|] == s
  {
  }

  /** InternalBeforeSelf: yield the accepted elements until the first one that is `origin`. */
  method InternalBeforeSelf(origin: Ref, collection: seq<Ref>, pred: Option<Ref -> bool>) returns (out: seq<Ref>)
    ensures out == Select(Before(collection, origin), pred)
  {
    out := [];
    for i := 0 to |collection|
      invariant origin !in collection[..i]
      invariant out == Select(collection[..i], pred)
    {
      var current := collection[i];
      BeforeTurn(collection, i, origin, pred);
      if current == origin {
        return;
      }
      if pred.None? || pred.value(current) {
        out := out + [current];
      }
    }
    WholePrefix(collection);
    SplitAround(collection, origin);
  }

  /** InternalAfterSelf: yield the accepted elements once `origin` has been passed. */
  method InternalAfterSelf(origin: Ref, collection: seq<Ref>, pred: Option<Ref -> bool>) returns (out: seq<Ref>)
    ensures out == Select(After(collection, origin), pred)
  {
    var canYield := false;
    out := [];
    ghost var k := Collections.IndexOf(collection, origin);
    for i := 0 to |collection|
      invariant canYield <==> 0 <= k < i
      invariant !canYield ==> out == []
      invariant canYield ==> out == Select(collection[k + 1..i], pred)
    {
      var current := collection[i];
      ghost var out0, canYield0 := out, canYield;
      if canYield {
        if pred.None? || pred.value(current) {
          out := out + [current];
        }
      } else if origin == current {
        canYield := true;
      }
      AfterStep(collection, i, origin, pred, canYield0, canYield, out0, out);
    }
    AfterDone(collection, origin, pred, canYield, out);
  }

  /**
   * BeforeSelf(origin[, predicate]): the siblings before origin in its
   * parent's Children, or in its root's notebooks for a notebook; nothing
   * for any other parentless item.
   */
  method BeforeSelf(a: Arena, roots: map<Ref, RootObj>, origin: Ref, pred: Option<Ref -> bool>) returns (out: seq<Ref>)
    requires LinksKnown(a, roots) && origin in a.items
    ensures out == Select(Before(Siblings(a, roots, origin), origin), pred)
  {
    var it := a.items[origin];
    var parent := it.Parent();
    if parent.Some? {
      out := InternalBeforeSelf(origin, a.items[parent.value].Children(), pred);
      return;
    }
    if it.body.Notebook? && it.RootRef().Some? {
      out := InternalBeforeSelf(origin, roots[it.RootRef().value].notebooks, pred);
      return;
    }
    out := [];
  }

  /** AfterSelf(origin[, predicate]): the siblings after origin, from the same list as BeforeSelf. */
  method AfterSelf(a: Arena, roots: map<Ref, RootObj>, origin: Ref, pred: Option<Ref -> bool>) returns (out: seq<Ref>)
    requires LinksKnown(a, roots) && origin in a.items
    ensures out == Select(After(Siblings(a, roots, origin), origin), pred)
  {
    var it := a.items[origin];
    var parent := it.Parent();
    if parent.Some? {
      out := InternalAfterSelf(origin, a.items[parent.value].Children(), pred);
      return;
    }
    if it.body.Notebook? && it.RootRef().Some? {
      out := InternalAfterSelf(origin, roots[it.RootRef().value].notebooks, pred);
      return;
    }
    out := [];
  }
}
