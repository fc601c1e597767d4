/**
 * The two item equality comparers. LinqToOneNote's OneNoteItemEqualityComparer
 * (behind `Extensions.ItemEquals`) compares references and then ids only;
 * Odotocodot's IdComparer (behind `OneNoteItemExtensions.ItemEquals`) also
 * requires the two items to be of the same runtime type. A null item is
 * `None`; an item is a reference into the arena, and its runtime type is its kind.
 */
module Comparers {
  import opened Base
  import opened Hierarchy

  /** Every non-null argument refers to an item of the arena. */
  predicate Known(a: Arena, x: Option<Ref>) {
    x.Some? ==> x.value in a.items
  }

  /** OneNoteItemEqualityComparer.Equals. */
  function ItemEquals(a: Arena, x: Option<Ref>, y: Option<Ref>): bool
    requires Known(a, x) && Known(a, y)
  {
    if x == y then true
    else if x.None? || y.None? then false
    else a.items[x.value].id == a.items[y.value].id
  }

  /** IdComparer.Equals. */
  function IdEquals(a: Arena, x: Option<Ref>, y: Option<Ref>): bool
    requires Known(a, x) && Known(a, y)
  {
    if x == y then true
    else if x.None? then false
    else if y.None? then false
    else if a.items[x.value].KindOf() != a.items[y.value].KindOf() then false
    else a.items[x.value].id == a.items[y.value].id
  }

  /**
   * GetHashCode of both comparers: the string hash `hash` of the item's id.
   * An item whose ID was never set has a null Id, and hashing it throws.
   */
  function HashCode(hash: string -> int, a: Arena, x: Ref): (r: Result<int>)
    requires x in a.items
    ensures r.Failure? <==> a.items[x].id.None?
    ensures r.Failure? ==> r.error == NullReference
    ensures r.Success? ==> r.value == hash(a.items[x].id.value)
  {
    match a.items[x].id
    case None => Failure(NullReference)
    case Some(id) => Success(hash(id))
  }

  /**
   * The id-only comparer: the same reference (null included) is equal; exactly
   * one null is unequal; otherwise equal exactly when the ids are, whatever the kinds.
   */
  lemma ItemEqualsMeaning(a: Arena, x: Option<Ref>, y: Option<Ref>)
    requires Known(a, x) && Known(a, y)
    ensures x == y ==> ItemEquals(a, x, y)
    ensures x.None? != y.None? ==> !ItemEquals(a, x, y)
    ensures x.Some? && y.Some? ==> (ItemEquals(a, x, y) <==> a.items[x.value].id == a.items[y.value].id)
  {
  }

  /** IdComparer is the id-only comparer restricted to items of one runtime type. */
  lemma IdEqualsRefinesItemEquals(a: Arena, x: Option<Ref>, y: Option<Ref>)
    requires Known(a, x) && Known(a, y)
    ensures IdEquals(a, x, y) <==>
              ItemEquals(a, x, y) && (x.Some? && y.Some? ==> a.items[x.value].KindOf() == a.items[y.value].KindOf())
  {
  }

  /** Both comparers are equivalence relations on the arena's items. */
  lemma ItemEqualsEquivalence(a: Arena, x: Option<Ref>, y: Option<Ref>, z: Option<Ref>)
    requires Known(a, x) && Known(a, y) && Known(a, z)
    ensures ItemEquals(a, x, x)
    ensures ItemEquals(a, x, y) == ItemEquals(a, y, x)
    ensures ItemEquals(a, x, y) && ItemEquals(a, y, z) ==> ItemEquals(a, x, z)
  {
  }

  lemma IdEqualsEquivalence(a: Arena, x: Option<Ref>, y: Option<Ref>, z: Option<Ref>)
    requires Known(a, x) && Known(a, y) && Known(a, z)
    ensures IdEquals(a, x, x)
    ensures IdEquals(a, x, y) == IdEquals(a, y, x)
    ensures IdEquals(a, x, y) && IdEquals(a, y, z) ==> IdEquals(a, x, z)
  {
  }

  /**
   * Items either comparer finds equal have equal hash codes, for any string
   * hash: both hash to the same value, or both are without an ID and both throw.
   */
  lemma HashAgrees(hash: string -> int, a: Arena, x: Ref, y: Ref)
    requires x in a.items && y in a.items
    ensures ItemEquals(a, Some(x), Some(y)) ==> HashCode(hash, a, x) == HashCode(hash, a, y)
    ensures IdEquals(a, Some(x), Some(y)) ==> HashCode(hash, a, x) == HashCode(hash, a, y)
  {
  }

  /** A section and a page with one id: equal to the id-only comparer, unequal to IdComparer. */
  lemma ComparersDisagree(id: Option<string>)
    ensures var s := NewItem(SectionKind).(id := id);
            var p := NewItem(PageKind).(id := id);
            var a := Arena(map[0 := s, 1 := p], 2);
            ItemEquals(a, Some(0), Some(1)) && !IdEquals(a, Some(0), Some(1))
  {
  }
}
