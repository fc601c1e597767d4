/**
 * The stack walks over the hierarchy: Descendants / Traverse (every item,
 * the source first), GetAllPages (a section yields its pages and is not
 * descended into), GetPages (the walk filtered to pages) and their
 * overloads over a sequence of sources. Every walk reads an item's children
 * through the Children view.
 */
module Traversal {
  import opened Base
  import opened Hierarchy

  // ---------------------------------------------------------------------
  // Filtering.

  /** What a predicate lets through; None is the overload without a predicate. */
  function Select<T>(s: seq<T>, pred: Option<T -> bool>): (r: seq<T>)
    ensures |r| <= |s|
    ensures forall x | x in r :: x in s && (pred.None? || pred.value(x))
  {
    if s == [] then []
    else (if pred.None? || pred.value(s[0]) then [s[0]] else []) + Select(s[1..], pred)
  }

  lemma {:induction false} SelectAppend<T>(xs: seq<T>, ys: seq<T>, pred: Option<T -> bool>)
    ensures Select(xs + ys, pred) == Select(xs, pred) + Select(ys, pred)
  {
    if xs == [] {
      assert xs + ys == ys;
    } else {
      assert (xs + ys)[1..] == xs[1..] + ys;
      SelectAppend(xs[1..], ys, pred);
    }
  }

  lemma SelectOne<T>(x: T, pred: Option<T -> bool>)
    ensures Select([x], pred) == if pred.None? || pred.value(x) then [x] else []
  {
    assert [x][1..] == [];
  }

  /** Filtering keeps exactly the elements the predicate accepts. */
  lemma {:induction false} SelectMembers<T>(s: seq<T>, pred: Option<T -> bool>, x: T)
    ensures x in Select(s, pred) <==> x in s && (pred.None? || pred.value(x))
  {
    if s != [] {
      SelectMembers(s[1..], pred, x);
      assert s == [s[0]] + s[1..];
    }
  }

  lemma {:induction false} SelectNone<T>(s: seq<T>)
    ensures Select(s, None) == s
  {
    if s != [] {
      SelectNone(s[1..]);
    }
  }

  /** The foreach that yields those of `s` the predicate accepts, in order. */
  method Filter(s: seq<Ref>, pred: Option<Ref -> bool>) returns (out: seq<Ref>)
    ensures out == Select(s, pred)
  {
    out := [];
    for j := 0 to |s|
      invariant out == Select(s[..j], pred)
    {
      PrefixSnoc(s, j);
      SelectAppend(s[..j], [s[j]], pred);
      SelectOne(s[j], pred);
      if pred.None? || pred.value(s[j]) {
        out := out + [s[j]];
      }
    }
    assert s[..|s|] == s;
  }

  lemma Assoc<T>(x: seq<T>, y: seq<T>, z: seq<T>)
    ensures x + (y + z) == (x + y) + z
  {
  }

  lemma SplitLast<T>(s: seq<T>)
    requires s != []
    ensures s == s[..|s| - 1] + [s[|s| - 1]]
  {
  }

  lemma PrefixSnoc<T>(s: seq<T>, i: nat)
    requires i < |s|
    ensures s[..i + 1] == s[..i] + [s[i]]
  {
  }

  /** Push `xs` onto the stack in order. */
  method PushAll(stack: seq<Ref>, xs: seq<Ref>) returns (s: seq<Ref>)
    ensures s == stack + xs
  {
    s := stack;
    for i := 0 to |xs|
      invariant s == stack + xs[..i]
    {
      assert xs[..i + 1] == xs[..i] + [xs[i]];
      s := s + [xs[i]];
    }
    assert xs[..|xs|] == xs;
  }

  // ---------------------------------------------------------------------
  // The stack walk, for any rule saying what a popped item yields and what
  // it pushes.

  type RefMap = map<Ref, seq<Ref>>

  /**
   * `push` says what each item pushes and `emit` what it yields: every
   * reference is below `n`, every pushed reference is a known item allocated
   * after the item that pushes it, and every item has an `emit` entry.
   */
  ghost predicate Shape(push: RefMap, emit: Option<RefMap>, n: nat) {
    (forall r | r in push :: r < n && (emit.Some? ==> r in emit.value)) &&
    (forall r, i | r in push && 0 <= i < |push[r]| :: push[r][i] in push && r < push[r][i])
  }

  /** What a popped item yields: itself when there is no `emit` rule. */
  function Emitted(emit: Option<RefMap>, r: Ref): seq<Ref> {
    if emit.None? then [r] else if r in emit.value then emit.value[r] else []
  }

  /** Every reference of `xs` is an item allocated after `lo`. */
  predicate Above(push: RefMap, xs: seq<Ref>, lo: int) {
    forall i | 0 <= i < |xs| :: xs[i] in push && lo < xs[i]
  }

  lemma AboveAppend(push: RefMap, xs: seq<Ref>, ys: seq<Ref>, lo: int)
    requires Above(push, xs, lo) && Above(push, ys, lo)
    ensures Above(push, xs + ys, lo)
  {
  }

  /**
   * What the walk yields from a stack holding just `r`: what `r` yields,
   * then the walk of what it pushes, the last pushed item's part first.
   * (A reference outside `push`, or not below `n`, is skipped; under Shape
   * there is none.)
   */
  function Walk(push: RefMap, emit: Option<RefMap>, n: nat, r: Ref): seq<Ref>
    decreases n - r, 1, 0
  {
    if r in push && r < n then Emitted(emit, r) + WalkStack(push, emit, n, push[r], r) else []
  }

  /** What the walk yields from the stack `xs`, whose top is its last element. */
  function WalkStack(push: RefMap, emit: Option<RefMap>, n: nat, xs: seq<Ref>, lo: int): seq<Ref>
    decreases n - lo, 0, |xs|
  {
    if xs == [] then []
    else (if lo < xs[|xs| - 1] < n then Walk(push, emit, n, xs[|xs| - 1]) else []) + WalkStack(push, emit, n, xs[..|xs| - 1], lo)
  }

  /** Pushing `ys` on top of `xs`: the walk of `ys` comes first. */
  lemma {:induction false} WalkStackAppend(push: RefMap, emit: Option<RefMap>, n: nat, xs: seq<Ref>, ys: seq<Ref>, lo: int)
    ensures WalkStack(push, emit, n, xs + ys, lo) == WalkStack(push, emit, n, ys, lo) + WalkStack(push, emit, n, xs, lo)
    decreases |ys|
  {
    if ys == [] {
      assert xs + ys == xs;
    } else {
      var init, top := ys[..|ys| - 1], ys[|ys| - 1];
      var part := if lo < top < n then Walk(push, emit, n, top) else [];
      assert (xs + ys)[..|xs + ys| - 1] == xs + init && (xs + ys)[|xs + ys| - 1] == top;
      assert WalkStack(push, emit, n, xs + ys, lo) == part + WalkStack(push, emit, n, xs + init, lo);
      WalkStackAppend(push, emit, n, xs, init, lo);
      assert WalkStack(push, emit, n, ys, lo) == part + WalkStack(push, emit, n, init, lo);
      Assoc(part, WalkStack(push, emit, n, init, lo), WalkStack(push, emit, n, xs, lo));
    }
  }

  /** The bound is only there for termination: it does not change the walk. */
  lemma {:induction false} WalkStackBound(push: RefMap, emit: Option<RefMap>, n: nat, xs: seq<Ref>, lo: int, lo': int)
    requires forall i | 0 <= i < |xs| :: lo < xs[i] && lo' < xs[i]
    ensures WalkStack(push, emit, n, xs, lo) == WalkStack(push, emit, n, xs, lo')
    decreases |xs|
  {
    if xs != [] {
      WalkStackBound(push, emit, n, xs[..|xs| - 1], lo, lo');
    }
  }

  /** One turn of the stack loop: pop the top, yield what it yields, push what it pushes. */
  lemma WalkTurn(push: RefMap, emit: Option<RefMap>, n: nat, rest: seq<Ref>, top: Ref, lo: int)
    requires Shape(push, emit, n) && Above(push, rest, lo) && top in push && lo < top
    ensures Above(push, rest + [top], lo) && Above(push, rest + push[top], lo)
    ensures WalkStack(push, emit, n, rest + [top], lo) == Emitted(emit, top) + WalkStack(push, emit, n, rest + push[top], lo)
  {
    assert Above(push, push[top], lo) && Above(push, [top], lo);
    AboveAppend(push, rest, [top], lo);
    AboveAppend(push, rest, push[top], lo);
    assert (rest + [top])[..|rest|] == rest && (rest + [top])[|rest|] == top;
    assert WalkStack(push, emit, n, rest + [top], lo) == Walk(push, emit, n, top) + WalkStack(push, emit, n, rest, lo);
    WalkStackBound(push, emit, n, push[top], top, lo);
    WalkStackAppend(push, emit, n, rest, push[top], lo);
    Assoc(Emitted(emit, top), WalkStack(push, emit, n, push[top], lo), WalkStack(push, emit, n, rest, lo));
  }

  /** A stack holding just `r` walks exactly as `r` does. */
  lemma WalkOne(push: RefMap, emit: Option<RefMap>, n: nat, r: Ref, lo: int)
    requires Shape(push, emit, n) && r in push && lo < r
    ensures Above(push, [r], lo)
    ensures WalkStack(push, emit, n, [r], lo) == Walk(push, emit, n, r)
  {
    assert [r][..0] == [];
  }

  /** Popping `top` off `rest + [top]` keeps the loop's invariant, and fewer items are left to visit. */
  lemma PopTurn(push: RefMap, emit: Option<RefMap>, n: nat, lo: int, pred: Option<Ref -> bool>, total: seq<Ref>,
                rest: seq<Ref>, top: Ref, out: seq<Ref>)
    requires Shape(push, emit, n) && Above(push, rest, lo) && top in push && lo < top
    requires Above(push, rest + [top], lo)
    requires out + Select(WalkStack(push, emit, n, rest + [top], lo), pred) == total
    ensures Above(push, rest + push[top], lo)
    ensures out + Select(Emitted(emit, top), pred) + Select(WalkStack(push, emit, n, rest + push[top], lo), pred) == total
  {
    WalkTurn(push, emit, n, rest, top, lo);
    var later := WalkStack(push, emit, n, rest + push[top], lo);
    SelectAppend(Emitted(emit, top), later, pred);
    assert Select(WalkStack(push, emit, n, rest + [top], lo), pred) == Select(Emitted(emit, top), pred) + Select(later, pred);
    assert out + Select(Emitted(emit, top), pred) + Select(later, pred) == out + (Select(Emitted(emit, top), pred) + Select(later, pred));
  }

  lemma ShapeVisits(push: RefMap, emit: Option<RefMap>, n: nat)
    requires Shape(push, emit, n)
    ensures Shape(push, None, n)
  {
  }

  /** The number of items a stack walk still has to visit. */
  ghost function Visits(push: RefMap, n: nat, xs: seq<Ref>, lo: int): nat
  {
    |WalkStack(push, None, n, xs, lo)|
  }

  lemma VisitsTurn(push: RefMap, emit: Option<RefMap>, n: nat, lo: int, rest: seq<Ref>, top: Ref)
    requires Shape(push, emit, n) && Above(push, rest, lo) && top in push && lo < top
    ensures Shape(push, None, n)
    ensures Above(push, rest + [top], lo) && Above(push, rest + push[top], lo)
    ensures Visits(push, n, rest + push[top], lo) < Visits(push, n, rest + [top], lo)
  {
    WalkTurn(push, None, n, rest, top, lo);
  }

  /** The loop's invariant survives one turn, and fewer items are left to visit. */
  lemma LoopTurn(push: RefMap, emit: Option<RefMap>, n: nat, lo: int, pred: Option<Ref -> bool>, total: seq<Ref>,
                 rest: seq<Ref>, top: Ref, out: seq<Ref>, stack': seq<Ref>, out': seq<Ref>)
    requires Shape(push, emit, n) && Above(push, rest + [top], lo)
    requires out + Select(WalkStack(push, emit, n, rest + [top], lo), pred) == total
    requires stack' == rest + push[top]
    requires out' == out + Select(Emitted(emit, top), pred)
    ensures Shape(push, None, n) && Above(push, stack', lo)
    ensures out' + Select(WalkStack(push, emit, n, stack', lo), pred) == total
    ensures Visits(push, n, stack', lo) < Visits(push, n, rest + [top], lo)
  {
    assert Above(push, rest, lo) && top in push && lo < top by {
      assert top == (rest + [top])[|rest|];
      assert forall i | 0 <= i < |rest| :: rest[i] == (rest + [top])[i];
    }
    PopTurn(push, emit, n, lo, pred, total, rest, top, out);
    VisitsTurn(push, emit, n, lo, rest, top);
  }

  /** Every reference of `xs` is a known item. */
  predicate Known(push: RefMap, xs: seq<Ref>) {
    forall i | 0 <= i < |xs| :: xs[i] in push
  }

  /** The overloads over a sequence of sources: each source's whole walk, in source order. */
  function WalkAll(push: RefMap, emit: Option<RefMap>, n: nat, xs: seq<Ref>): seq<Ref>
  {
    if xs == [] then [] else Walk(push, emit, n, xs[0]) + WalkAll(push, emit, n, xs[1..])
  }

  lemma {:induction false} WalkAllSnoc(push: RefMap, emit: Option<RefMap>, n: nat, xs: seq<Ref>, x: Ref)
    requires Shape(push, emit, n) && Known(push, xs) && x in push
    ensures Known(push, xs + [x])
    ensures WalkAll(push, emit, n, xs + [x]) == WalkAll(push, emit, n, xs) + Walk(push, emit, n, x)
  {
    if xs == [] {
      assert [x][1..] == [];
    } else {
      assert (xs + [x])[1..] == xs[1..] + [x];
      WalkAllSnoc(push, emit, n, xs[1..], x);
    }
  }

  // ---------------------------------------------------------------------
  // The two walks of the hierarchy.

  /** Each item's Children. */
  function ChildMapOf(a: Arena): (g: RefMap)
    ensures g.Keys == a.items.Keys
  {
    map r | r in a.items :: a.items[r].Children()
  }

  /** What GetAllPages pushes for an item: nothing for a section, its Children otherwise. */
  function PagePushOf(it: Item): seq<Ref> {
    if it.body.Section? then [] else it.Children()
  }

  /** What GetAllPages yields for an item: a section's pages, nothing otherwise. */
  function PageEmitOf(it: Item): seq<Ref> {
    if it.body.Section? then it.body.pages else []
  }

  function PagePush(a: Arena): (g: RefMap)
    ensures g.Keys == a.items.Keys
  {
    map r | r in a.items :: PagePushOf(a.items[r])
  }

  function PageEmit(a: Arena): (g: RefMap)
    ensures g.Keys == a.items.Keys
  {
    map r | r in a.items :: PageEmitOf(a.items[r])
  }

  lemma ArenaShape(a: Arena)
    requires ArenaValid(a)
    ensures Shape(ChildMapOf(a), None, a.next)
    ensures Shape(PagePush(a), Some(PageEmit(a)), a.next)
  {
  }

  lemma ChildMapAt(a: Arena, r: Ref)
    requires r in a.items
    ensures r in ChildMapOf(a) && ChildMapOf(a)[r] == a.items[r].Children()
  {
  }

  /** Descendants(source) without a predicate: the source first, then the walk of its Children. */
  ghost function PreOrder(a: Arena, r: Ref): seq<Ref>
    requires ArenaValid(a) && r in a.items
  {
    ArenaShape(a);
    Walk(ChildMapOf(a), None, a.next, r)
  }

  /** The walks of every source, one after the other. */
  ghost function PreOrderAll(a: Arena, xs: seq<Ref>): seq<Ref>
    requires ArenaValid(a) && forall i | 0 <= i < |xs| :: xs[i] in a.items
  {
    ArenaShape(a);
    WalkAll(ChildMapOf(a), None, a.next, xs)
  }

  /** GetAllPages(source) without a predicate. */
  ghost function SectionPages(a: Arena, r: Ref): seq<Ref>
    requires ArenaValid(a) && r in a.items
  {
    ArenaShape(a);
    Walk(PagePush(a), Some(PageEmit(a)), a.next, r)
  }

  /**
   * The stack loop both walks run: pop an item, yield those of the items
   * it yields that the predicate accepts, in order, and push what it pushes,
   * in order.
   */
  method WalkLoop(push: RefMap, emit: Option<RefMap>, n: nat, source: Ref, pred: Option<Ref -> bool>) returns (out: seq<Ref>)
    requires Shape(push, emit, n) && source in push
    ensures out == Select(Walk(push, emit, n, source), pred)
  {
    ghost var total := Select(Walk(push, emit, n, source), pred);
    var stack := [source];
    out := [];
    WalkOne(push, emit, n, source, source - 1);
    ShapeVisits(push, emit, n);
    while stack != []
      invariant Above(push, stack, source - 1)
      invariant out + Select(WalkStack(push, emit, n, stack, source - 1), pred) == total
      decreases Visits(push, n, stack, source - 1)
    {
      var current := stack[|stack| - 1];
      var rest := stack[..|stack| - 1];
      SplitLast(stack);
      ghost var out0 := out;
      var yielded := Filter(Emitted(emit, current), pred);
      out := out + yielded;
      stack := PushAll(rest, push[current]);
      LoopTurn(push, emit, n, source - 1, pred, total, rest, current, out0, stack, out);
    }
  }

  /**
   * Descendants(source[, predicate]) and Traverse(source[, predicate]): pop
   * an item, yield it if the predicate accepts it, push its Children in order.
   */
  method Descendants(a: Arena, source: Ref, pred: Option<Ref -> bool>) returns (out: seq<Ref>)
    requires ArenaValid(a) && source in a.items
    ensures out == Select(PreOrder(a, source), pred)
  {
    ArenaShape(a);
    out := WalkLoop(ChildMapOf(a), None, a.next, source, pred);
  }

  /**
   * Descendants over a sequence of sources, and Traverse's SelectMany over
   * them: each source's walk in turn (the shared stack is empty between sources).
   */
  method DescendantsOfAll(a: Arena, sources: seq<Ref>, pred: Option<Ref -> bool>) returns (out: seq<Ref>)
    requires ArenaValid(a) && forall i | 0 <= i < |sources| :: sources[i] in a.items
    ensures out == Select(PreOrderAll(a, sources), pred)
  {
    ghost var g, n := ChildMapOf(a), a.next;
    ghost var e: Option<RefMap> := None;
    ArenaShape(a);
    out := [];
    for i := 0 to |sources|
      invariant Known(g, sources[..i])
      invariant out == Select(WalkAll(g, e, n, sources[..i]), pred)
    {
      PrefixSnoc(sources, i);
      WalkAllSnoc(g, e, n, sources[..i], sources[i]);
      var one := Descendants(a, sources[i], pred);
      SelectAppend(WalkAll(g, e, n, sources[..i]), Walk(g, e, n, sources[i]), pred);
      out := out + one;
    }
    assert sources[..|sources|] == sources;
  }

  /** The walks of every source for GetAllPages, one after the other. */
  ghost function SectionPagesAll(a: Arena, xs: seq<Ref>): seq<Ref>
    requires ArenaValid(a) && forall i | 0 <= i < |xs| :: xs[i] in a.items
  {
    ArenaShape(a);
    WalkAll(PagePush(a), Some(PageEmit(a)), a.next, xs)
  }

  /**
   * GetAllPages(source[, predicate]): pop an item; a section yields those of
   * its pages the predicate accepts, in page order, and pushes nothing; any
   * other item pushes its Children in order.
   */
  method GetAllPages(a: Arena, source: Ref, pred: Option<Ref -> bool>) returns (out: seq<Ref>)
    requires ArenaValid(a) && source in a.items
    ensures out == Select(SectionPages(a, source), pred)
  {
    ArenaShape(a);
    out := WalkLoop(PagePush(a), Some(PageEmit(a)), a.next, source, pred);
  }

  /**
   * GetAllPages over a sequence of sources: each source's walk in turn
   * (the shared stack is empty between sources).
   */
  method GetAllPagesOfAll(a: Arena, sources: seq<Ref>, pred: Option<Ref -> bool>) returns (out: seq<Ref>)
    requires ArenaValid(a) && forall i | 0 <= i < |sources| :: sources[i] in a.items
    ensures out == Select(SectionPagesAll(a, sources), pred)
  {
    ghost var push, emit, n := PagePush(a), Some(PageEmit(a)), a.next;
    ArenaShape(a);
    out := [];
    for i := 0 to |sources|
      invariant Known(push, sources[..i])
      invariant out == Select(WalkAll(push, emit, n, sources[..i]), pred)
    {
      PrefixSnoc(sources, i);
      WalkAllSnoc(push, emit, n, sources[..i], sources[i]);
      var one := GetAllPages(a, sources[i], pred);
      SelectAppend(WalkAll(push, emit, n, sources[..i]), Walk(push, emit, n, sources[i]), pred);
      out := out + one;
    }
    assert sources[..|sources|] == sources;
  }
}
