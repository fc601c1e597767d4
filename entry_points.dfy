/**
 * The public overloads around the walks and axes: Descendants, GetAllPages,
 * Ancestors, BeforeSelf and AfterSelf check their arguments before the
 * first item is produced (a null argument raises ArgumentNull at the call),
 * while Traverse checks nothing and fails only while it is being enumerated.
 * A null item is `None`.
 */
module EntryPoints {
  import opened Base
  import opened Hierarchy
  import opened Traversal
  import opened Axes

  /** The predicate argument: the overload without one, a null delegate, or a function. */
  datatype PredArg = NoPredicate | NullPredicate | Predicate(f: Ref -> bool)

  /** The filter the walk applies once the arguments are accepted. */
  function FilterOf(p: PredArg): Option<Ref -> bool> {
    if p.Predicate? then Some(p.f) else None
  }

  /** Throw.IfNull(source), then Throw.IfNull(predicate) in the predicate overloads. */
  function CheckArgs(source: Option<Ref>, p: PredArg): (r: Result<()>)
    ensures r.Failure? <==> source.None? || p.NullPredicate?
    ensures r.Failure? ==> r.error == ArgumentNull
  {
    if source.None? || p.NullPredicate? then Failure(ArgumentNull) else Success(())
  }

  /** Descendants(source[, predicate]): the arguments are checked before the walk starts. */
  method DescendantsChecked(a: Arena, source: Option<Ref>, p: PredArg) returns (res: Result<seq<Ref>>)
    requires ArenaValid(a) && (source.Some? ==> source.value in a.items)
    ensures res.Failure? <==> source.None? || p.NullPredicate?
    ensures res.Failure? ==> res.error == ArgumentNull
    ensures res.Success? ==> res.value == Select(PreOrder(a, source.value), FilterOf(p))
  {
    var ok := CheckArgs(source, p);
    if ok.Failure? {
      return Failure(ok.error);
    }
    var out := Descendants(a, source.value, FilterOf(p));
    return Success(out);
  }

  /** GetAllPages(source[, predicate]): the same checks, then the section-pruned walk. */
  method GetAllPagesChecked(a: Arena, source: Option<Ref>, p: PredArg) returns (res: Result<seq<Ref>>)
    requires ArenaValid(a) && (source.Some? ==> source.value in a.items)
    ensures res.Failure? <==> source.None? || p.NullPredicate?
    ensures res.Failure? ==> res.error == ArgumentNull
    ensures res.Success? ==> res.value == Select(SectionPages(a, source.value), FilterOf(p))
  {
    var ok := CheckArgs(source, p);
    if ok.Failure? {
      return Failure(ok.error);
    }
    var out := GetAllPages(a, source.value, FilterOf(p));
    return Success(out);
  }

  /**
   * Ancestors(origin[, predicate]): only the origin is checked; a null
   * predicate reaches the loop, whose `predicate == null ||` test then
   * accepts every ancestor.
   */
  method AncestorsChecked(a: Arena, origin: Option<Ref>, p: PredArg) returns (res: Result<seq<Ref>>)
    requires ParentsAcyclic(a) && (origin.Some? ==> origin.value in a.items)
    ensures res.Failure? <==> origin.None?
    ensures res.Failure? ==> res.error == ArgumentNull
    ensures res.Success? && p.NullPredicate? ==> res.value == AncestorsOf(a, origin.value)
    ensures res.Success? ==> res.value == Select(AncestorsOf(a, origin.value), FilterOf(p))
  {
    if origin.None? {
      return Failure(ArgumentNull);
    }
    var out := Ancestors(a, origin.value, FilterOf(p));
    SelectNone(AncestorsOf(a, origin.value));
    return Success(out);
  }

  /** BeforeSelf(origin[, predicate]): origin and predicate are checked before the sibling list is read. */
  method BeforeSelfChecked(a: Arena, roots: map<Ref, RootObj>, origin: Option<Ref>, p: PredArg) returns (res: Result<seq<Ref>>)
    requires LinksKnown(a, roots) && (origin.Some? ==> origin.value in a.items)
    ensures res.Failure? <==> origin.None? || p.NullPredicate?
    ensures res.Failure? ==> res.error == ArgumentNull
    ensures res.Success? ==> res.value == Select(Before(Siblings(a, roots, origin.value), origin.value), FilterOf(p))
  {
    var ok := CheckArgs(origin, p);
    if ok.Failure? {
      return Failure(ok.error);
    }
    var out := BeforeSelf(a, roots, origin.value, FilterOf(p));
    return Success(out);
  }

  /** AfterSelf(origin[, predicate]): the same checks as BeforeSelf. */
  method AfterSelfChecked(a: Arena, roots: map<Ref, RootObj>, origin: Option<Ref>, p: PredArg) returns (res: Result<seq<Ref>>)
    requires LinksKnown(a, roots) && (origin.Some? ==> origin.value in a.items)
    ensures res.Failure? <==> origin.None? || p.NullPredicate?
    ensures res.Failure? ==> res.error == ArgumentNull
    ensures res.Success? ==> res.value == Select(After(Siblings(a, roots, origin.value), origin.value), FilterOf(p))
  {
    var ok := CheckArgs(origin, p);
    if ok.Failure? {
      return Failure(ok.error);
    }
    var out := AfterSelf(a, roots, origin.value, FilterOf(p));
    return Success(out);
  }

  /** What a lazily produced sequence gave before it stopped: the items, and the exception that stopped it, if any. */
  datatype Enumerated = Enumerated(yielded: seq<Option<Ref>>, thrown: Option<Error>)

  /**
   * Traverse(source[, predicate]) checks nothing. On an item it is the same
   * walk as Descendants. A null source is pushed and popped like an item:
   * the overload without a predicate yields it, the predicate overload
   * yields it when the predicate (`acceptsNull`, its verdict on null)
   * accepts it, and reading its Children then raises NullReference. A null
   * predicate raises NullReference on the first item, before yielding it.
   */
  method TraverseEnumerated(a: Arena, source: Option<Ref>, p: PredArg, acceptsNull: bool) returns (e: Enumerated)
    requires ArenaValid(a) && (source.Some? ==> source.value in a.items)
    ensures p.NullPredicate? ==> e == Enumerated([], Some(NullReference))
    ensures !p.NullPredicate? && source.None? ==>
      e.thrown == Some(NullReference) &&
      e.yielded == (if p.NoPredicate? || acceptsNull then [None] else [])
    ensures !p.NullPredicate? && source.Some? ==>
      e.thrown == None && |e.yielded| == |Select(PreOrder(a, source.value), FilterOf(p))| &&
      forall i | 0 <= i < |e.yielded| :: e.yielded[i] == Some(Select(PreOrder(a, source.value), FilterOf(p))[i])
  {
    if p.NullPredicate? {
      return Enumerated([], Some(NullReference));
    }
    if source.None? {
      var first: seq<Option<Ref>> := if p.NoPredicate? || acceptsNull then [None] else [];
      return Enumerated(first, Some(NullReference));
    }
    var out := Descendants(a, source.value, FilterOf(p));
    var wrapped := seq(|out|, i requires 0 <= i < |out| => Some(out[i]));
    return Enumerated(wrapped, None);
  }
}
