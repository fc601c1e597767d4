/**
 * What the stack walk of Traversal yields, item by item, for any push rule:
 * the walk from an item reaches exactly the item and what is pushed below
 * it; when every item is pushed by at most one item and at most once, it
 * yields each of them exactly once; and a walk that yields what an `emit`
 * rule says is the plain walk with every visited item replaced by what it
 * emits.
 */
module WalkFacts {
  import opened Base
  import opened Hierarchy
  import opened Traversal

  /** No element occurs twice. */
  predicate NoDup<T(==)>(s: seq<T>) {
    forall i, j | 0 <= i < j < |s| :: s[i] != s[j]
  }

  /** Every item is pushed by at most one item, and by that item at most once. */
  ghost predicate Forest(push: RefMap) {
    forall r1, r2, i, j | r1 in push && r2 in push && 0 <= i < |push[r1]| && 0 <= j < |push[r2]| &&
      push[r1][i] == push[r2][j] :: r1 == r2 && i == j
  }

  /** The plain walk from `r`: every item it visits, in visiting order. */
  function Nodes(push: RefMap, n: nat, r: Ref): seq<Ref> {
    Walk(push, None, n, r)
  }

  // ---------------------------------------------------------------------
  // Membership.

  /** Whatever a stack walk yields comes from the walk of one stack entry. */
  lemma {:induction false} WalkStackSome(push: RefMap, emit: Option<RefMap>, n: nat, xs: seq<Ref>, lo: int, x: Ref)
    returns (i: nat)
    requires x in WalkStack(push, emit, n, xs, lo)
    ensures i < |xs| && lo < xs[i] < n && x in Walk(push, emit, n, xs[i])
    decreases |xs|
  {
    var init, top := xs[..|xs| - 1], xs[|xs| - 1];
    var part := if lo < top < n then Walk(push, emit, n, top) else [];
    assert WalkStack(push, emit, n, xs, lo) == part + WalkStack(push, emit, n, init, lo);
    if x in part {
      i := |xs| - 1;
    } else {
      i := WalkStackSome(push, emit, n, init, lo, x);
      assert xs[i] == init[i];
    }
  }

  /** Conversely, the walk of every stack entry is part of the stack walk. */
  lemma {:induction false} WalkStackHas(push: RefMap, emit: Option<RefMap>, n: nat, xs: seq<Ref>, lo: int, i: nat, x: Ref)
    requires i < |xs| && lo < xs[i] < n && x in Walk(push, emit, n, xs[i])
    ensures x in WalkStack(push, emit, n, xs, lo)
    decreases |xs|
  {
    var init, top := xs[..|xs| - 1], xs[|xs| - 1];
    var part := if lo < top < n then Walk(push, emit, n, top) else [];
    assert WalkStack(push, emit, n, xs, lo) == part + WalkStack(push, emit, n, init, lo);
    if i < |xs| - 1 {
      assert xs[i] == init[i];
      WalkStackHas(push, emit, n, init, lo, i, x);
    }
  }

  /** The walk of a pushed item is part of the walk of the item that pushes it. */
  lemma WalkHasChild(push: RefMap, emit: Option<RefMap>, n: nat, r: Ref, i: nat, x: Ref)
    requires Shape(push, emit, n) && r in push && i < |push[r]|
    requires x in Walk(push, emit, n, push[r][i])
    ensures x in Walk(push, emit, n, r)
  {
    WalkStackHas(push, emit, n, push[r], r, i, x);
  }

  /** The walk from `r` starts with `r`. */
  lemma NodesStart(push: RefMap, n: nat, r: Ref)
    requires Shape(push, None, n) && r in push
    ensures Nodes(push, n, r) != [] && Nodes(push, n, r)[0] == r
  {
  }

  /** Everything the walk from `r` visits is `r` or an item allocated after it. */
  lemma {:induction false} NodesAbove(push: RefMap, n: nat, r: Ref, x: Ref)
    requires Shape(push, None, n) && x in Nodes(push, n, r)
    ensures r <= x && x in push
    decreases n - r
  {
    if x != r {
      var i := WalkStackSome(push, None, n, push[r], r, x);
      NodesAbove(push, n, push[r][i], x);
    }
  }

  /**
   * Every visited item other than the start was pushed by a visited item:
   * `p`, at position `k` of what `p` pushes.
   */
  lemma {:induction false} Pusher(push: RefMap, n: nat, c: Ref, x: Ref) returns (p: Ref, k: nat)
    requires Shape(push, None, n) && x in Nodes(push, n, c) && x != c
    ensures p in Nodes(push, n, c) && p in push && k < |push[p]| && push[p][k] == x && p < x
    decreases n - c
  {
    var i := WalkStackSome(push, None, n, push[c], c, x);
    var d := push[c][i];
    if x == d {
      p, k := c, i;
    } else {
      p, k := Pusher(push, n, d, x);
      WalkHasChild(push, None, n, c, i, p);
    }
  }

  /**
   * The walk from `r` is closed: it holds `r`, and it holds `x` exactly when
   * `x` is `r` or is pushed by an item it holds.
   */
  lemma NodesClosed(push: RefMap, n: nat, r: Ref, x: Ref)
    requires Shape(push, None, n) && r in push
    ensures r in Nodes(push, n, r)
    ensures x in Nodes(push, n, r) <==>
      x == r || exists p, k | p in push && 0 <= k < |push[p]| && push[p][k] == x :: p in Nodes(push, n, r)
  {
    if x in Nodes(push, n, r) && x != r {
      var p, k := Pusher(push, n, r, x);
    }
    if x != r && exists p, k | p in push && 0 <= k < |push[p]| && push[p][k] == x :: p in Nodes(push, n, r) {
      var p, k :| p in push && 0 <= k < |push[p]| && push[p][k] == x && p in Nodes(push, n, r);
      NodesDescend(push, n, r, p, k);
    }
  }

  /** Whatever an item the walk visits pushes is visited too. */
  lemma {:induction false} NodesDescend(push: RefMap, n: nat, r: Ref, p: Ref, k: nat)
    requires Shape(push, None, n) && p in Nodes(push, n, r) && p in push && k < |push[p]|
    ensures push[p][k] in Nodes(push, n, r)
    decreases n - r
  {
    var x := push[p][k];
    assert x in Nodes(push, n, x);
    if p == r {
      WalkHasChild(push, None, n, r, k, x);
    } else {
      var i := WalkStackSome(push, None, n, push[r], r, p);
      NodesDescend(push, n, push[r][i], p, k);
      WalkHasChild(push, None, n, r, i, x);
    }
  }

  // ---------------------------------------------------------------------
  // Exactly once.

  /** In a forest, the walks of two different items pushed by the same item share nothing. */
  lemma {:induction false} SiblingWalksDisjoint(push: RefMap, n: nat, r: Ref, i: nat, j: nat, x: Ref)
    requires Shape(push, None, n) && Forest(push) && r in push && i < |push[r]| && j < |push[r]| && i != j
    ensures x in Nodes(push, n, push[r][i]) ==> x !in Nodes(push, n, push[r][j])
    decreases x
  {
    var c1, c2 := push[r][i], push[r][j];
    if x in Nodes(push, n, c1) && x in Nodes(push, n, c2) {
      if x == c1 {
        var p, k := Pusher(push, n, c2, x);
        NodesAbove(push, n, c2, p);
      } else if x == c2 {
        var p, k := Pusher(push, n, c1, x);
        NodesAbove(push, n, c1, p);
      } else {
        var p1, k1 := Pusher(push, n, c1, x);
        var p2, k2 := Pusher(push, n, c2, x);
        SiblingWalksDisjoint(push, n, r, i, j, p1);
      }
    }
  }

  lemma NoDupAppend<T>(xs: seq<T>, ys: seq<T>)
    requires NoDup(xs) && NoDup(ys) && forall x | x in xs :: x !in ys
    ensures NoDup(xs + ys)
  {
    var s := xs + ys;
    forall i, j | 0 <= i < j < |s|
      ensures s[i] != s[j]
    {
      if j >= |xs| && i < |xs| {
        assert s[i] in xs && s[j] == ys[j - |xs|];
      } else if i >= |xs| {
        assert s[i] == ys[i - |xs|] && s[j] == ys[j - |xs|];
      }
    }
  }

  /** In a forest the walk from `r` visits every item at most once. */
  lemma {:induction false} NodesNoDup(push: RefMap, n: nat, r: Ref)
    requires Shape(push, None, n) && Forest(push) && r in push
    ensures NoDup(Nodes(push, n, r))
    decreases n - r, 1, 0
  {
    var cs := push[r];
    var below := WalkStack(push, None, n, cs, r);
    assert Nodes(push, n, r) == [r] + below;
    assert cs[..|cs|] == cs;
    StackNoDup(push, n, r, |cs|);
    forall x | x in below
      ensures x != r
    {
      var i := WalkStackSome(push, None, n, cs, r, x);
      NodesAbove(push, n, cs[i], x);
    }
    NoDupAppend([r], below);
  }

  /** The walks of the first `m` items `r` pushes, together, visit every item at most once. */
  lemma {:induction false} StackNoDup(push: RefMap, n: nat, r: Ref, m: nat)
    requires Shape(push, None, n) && Forest(push) && r in push && m <= |push[r]|
    ensures NoDup(WalkStack(push, None, n, push[r][..m], r))
    decreases n - r, 0, m
  {
    if m > 0 {
      var xs := push[r][..m];
      var init, top := xs[..m - 1], xs[m - 1];
      assert init == push[r][..m - 1] && top == push[r][m - 1];
      var earlier := WalkStack(push, None, n, init, r);
      assert WalkStack(push, None, n, xs, r) == Nodes(push, n, top) + earlier;
      NodesNoDup(push, n, top);
      StackNoDup(push, n, r, m - 1);
      forall x | x in Nodes(push, n, top)
        ensures x !in earlier
      {
        if x in earlier {
          var i := WalkStackSome(push, None, n, init, r, x);
          assert init[i] == push[r][i];
          SiblingWalksDisjoint(push, n, r, m - 1, i, x);
        }
      }
      NoDupAppend(Nodes(push, n, top), earlier);
    }
  }

  // ---------------------------------------------------------------------
  // Walks that emit.

  /** Each visited item replaced by what it emits, in visiting order. */
  function EmitAll(emit: RefMap, ys: seq<Ref>): seq<Ref> {
    if ys == [] then [] else Emitted(Some(emit), ys[0]) + EmitAll(emit, ys[1..])
  }

  lemma {:induction false} EmitAllAppend(emit: RefMap, xs: seq<Ref>, ys: seq<Ref>)
    ensures EmitAll(emit, xs + ys) == EmitAll(emit, xs) + EmitAll(emit, ys)
  {
    if xs == [] {
      assert xs + ys == ys;
    } else {
      assert (xs + ys)[1..] == xs[1..] + ys;
      EmitAllAppend(emit, xs[1..], ys);
      Assoc(Emitted(Some(emit), xs[0]), EmitAll(emit, xs[1..]), EmitAll(emit, ys));
    }
  }

  /**
   * A walk that emits yields what the plain walk visits, each visited item
   * replaced by what it emits.
   */
  lemma {:induction false} WalkEmits(push: RefMap, emit: RefMap, n: nat, r: Ref)
    ensures Walk(push, Some(emit), n, r) == EmitAll(emit, Nodes(push, n, r))
    decreases n - r, 1, 0
  {
    if r in push && r < n {
      StackEmits(push, emit, n, push[r], r);
      assert ([r] + WalkStack(push, None, n, push[r], r))[1..] == WalkStack(push, None, n, push[r], r);
    }
  }

  lemma {:induction false} StackEmits(push: RefMap, emit: RefMap, n: nat, xs: seq<Ref>, lo: int)
    ensures WalkStack(push, Some(emit), n, xs, lo) == EmitAll(emit, WalkStack(push, None, n, xs, lo))
    decreases n - lo, 0, |xs|
  {
    if xs != [] {
      var init, top := xs[..|xs| - 1], xs[|xs| - 1];
      StackEmits(push, emit, n, init, lo);
      if lo < top < n {
        WalkEmits(push, emit, n, top);
        EmitAllAppend(emit, Nodes(push, n, top), WalkStack(push, None, n, init, lo));
      } else {
        assert WalkStack(push, None, n, xs, lo) == WalkStack(push, None, n, init, lo);
      }
    }
  }

  /** What EmitAll yields comes from one of the items. */
  lemma {:induction false} EmitAllSome(emit: RefMap, ys: seq<Ref>, x: Ref) returns (i: nat)
    requires x in EmitAll(emit, ys)
    ensures i < |ys| && x in Emitted(Some(emit), ys[i])
  {
    if x in Emitted(Some(emit), ys[0]) {
      i := 0;
    } else {
      i := EmitAllSome(emit, ys[1..], x);
      i := i + 1;
    }
  }

  /** And everything an item emits is in EmitAll. */
  lemma {:induction false} EmitAllHas(emit: RefMap, ys: seq<Ref>, i: nat, x: Ref)
    requires i < |ys| && x in Emitted(Some(emit), ys[i])
    ensures x in EmitAll(emit, ys)
  {
    if i > 0 {
      assert ys[1..][i - 1] == ys[i];
      EmitAllHas(emit, ys[1..], i - 1, x);
    }
  }

  /** What `r` emits is emitted by no other item. */
  lemma {:induction false} EmitAllMissing(emit: RefMap, ys: seq<Ref>, r: Ref, x: Ref)
    requires Forest(emit) && r in emit && x in emit[r]
    requires forall i | 0 <= i < |ys| :: ys[i] in emit && ys[i] != r
    ensures x !in EmitAll(emit, ys)
  {
    if ys != [] {
      forall k | 0 <= k < |emit[ys[0]]|
        ensures emit[ys[0]][k] != x
      {
      }
      EmitAllMissing(emit, ys[1..], r, x);
    }
  }

  /** Over distinct items of a forest of emit lists, EmitAll repeats nothing. */
  lemma {:induction false} EmitAllNoDup(emit: RefMap, ys: seq<Ref>)
    requires Forest(emit) && NoDup(ys) && forall i | 0 <= i < |ys| :: ys[i] in emit
    ensures NoDup(EmitAll(emit, ys))
  {
    if ys != [] {
      var head, tail := Emitted(Some(emit), ys[0]), EmitAll(emit, ys[1..]);
      EmitAllNoDup(emit, ys[1..]);
      forall x | x in head
        ensures x !in tail
      {
        forall i | 0 <= i < |ys[1..]|
          ensures ys[1..][i] in emit && ys[1..][i] != ys[0]
        {
          assert ys[1..][i] == ys[i + 1];
        }
        EmitAllMissing(emit, ys[1..], ys[0], x);
      }
      assert NoDup(head) by {
        forall p, q | 0 <= p < q < |head|
          ensures head[p] != head[q]
        {
          assert emit[ys[0]][p] == head[p] && emit[ys[0]][q] == head[q];
        }
      }
      NoDupAppend(head, tail);
    }
  }

  // ---------------------------------------------------------------------
  // Lists without repeats.

  /** Filtering a list without repeats leaves one without repeats. */
  lemma {:induction false} SelectNoDup(s: seq<Ref>, pred: Option<Ref -> bool>)
    requires NoDup(s)
    ensures NoDup(Select(s, pred))
  {
    if s != [] {
      var tail := Select(s[1..], pred);
      SelectNoDup(s[1..], pred);
      if pred.None? || pred.value(s[0]) {
        forall x | x in tail
          ensures x != s[0]
        {
          SelectMembers(s[1..], pred, x);
        }
        NoDupAppend([s[0]], tail);
      }
    }
  }

  /** In a list without repeats every element occurs once. */
  lemma {:induction false} NoDupCount(s: seq<Ref>, x: Ref)
    requires NoDup(s)
    ensures multiset(s)[x] == if x in s then 1 else 0
  {
    if s != [] {
      assert s == [s[0]] + s[1..];
      NoDupCount(s[1..], x);
    }
  }

  /** Two lists without repeats that hold the same elements are permutations of each other. */
  lemma SameMembers(xs: seq<Ref>, ys: seq<Ref>)
    requires NoDup(xs) && NoDup(ys)
    requires forall x :: x in xs <==> x in ys
    ensures multiset(xs) == multiset(ys)
  {
    forall x
      ensures multiset(xs)[x] == multiset(ys)[x]
    {
      NoDupCount(xs, x);
      NoDupCount(ys, x);
    }
  }
}
