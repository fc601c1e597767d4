/**
 * The ordered collections items are kept in: the append/remove list every
 * container owns, and the "sections first, then section groups" view a
 * notebook or section group exposes as its children.
 */
module Collections {
  import opened Base

  /** The index of the first occurrence of `x` in `s`, or -1 when there is none. */
  function IndexOf<T(==)>(s: seq<T>, x: T): (i: int)
    ensures -1 <= i && (i == -1 <==> x !in s)
    ensures 0 <= i ==> i < |s| && s[i] == x && x !in s[..i]
  {
    if s == [] then -1
    else if s[0] == x then 0
    else
      var j := IndexOf(s[1..], x);
      if j == -1 then -1
      else
        assert s[..j + 1] == [s[0]] + s[1..][..j];
        j + 1
  }

  /** List.Remove: drop the first occurrence of `x`, keeping the order of the rest. */
  function RemoveFirst<T(==)>(s: seq<T>, x: T): seq<T> {
    var i := IndexOf(s, x);
    if i < 0 then s else s[..i] + s[i + 1..]
  }

  /** Removing takes out exactly one copy of a present item and touches nothing when it is absent. */
  lemma RemoveFirstSpec<T>(s: seq<T>, x: T)
    ensures x !in s ==> RemoveFirst(s, x) == s
    ensures x in s ==> |RemoveFirst(s, x)| == |s| - 1
    ensures x in s ==> multiset(RemoveFirst(s, x)) + multiset{x} == multiset(s)
    ensures x in s ==> exists i :: 0 <= i < |s| && x !in s[..i] && RemoveFirst(s, x) == s[..i] + s[i + 1..]
  {
    if x in s {
      var i := IndexOf(s, x);
      assert s == s[..i] + [s[i]] + s[i + 1..];
      calc {
        multiset(s);
        multiset(s[..i]) + multiset{x} + multiset(s[i + 1..]);
        multiset(RemoveFirst(s, x)) + multiset{x};
      }
    }
  }

  /** ReadOnlyList: a list callers can only read; the library appends to and removes from it. */
  class ReadOnlyList<T(==)> {
    var list: seq<T>

    /** A new list is empty. */
    constructor()
      ensures list == []
    {
      list := [];
    }

    function Count(): (n: nat)
      reads this
      ensures n == |list|
    {
      |list|
    }

    function Get(index: nat): (x: T)
      reads this
      requires index < |list|
      ensures x in list && x == list[index]
    {
      list[index]
    }

    /** Add appends at the end: the old elements keep their indices. */
    method Add(item: T)
      modifies this
      ensures list == old(list) + [item]
      ensures Count() == old(Count()) + 1 && list[|list| - 1] == item
      ensures forall i :: 0 <= i < old(|list|) ==> list[i] == old(list)[i]
    {
      list := list + [item];
    }

    /** Remove deletes the first occurrence and reports whether there was one. */
    method Remove(item: T) returns (removed: bool)
      modifies this
      ensures removed <==> item in old(list)
      ensures list == RemoveFirst(old(list), item)
      ensures !removed ==> list == old(list)
    {
      removed := item in list;
      list := RemoveFirst(list, item);
    }
  }

  /** The number of children of a container with these two lists. */
  function ChildrenCount<T>(sections: seq<T>, sectionGroups: seq<T>): nat {
    |sections| + |sectionGroups|
  }

  /** The ChildrenCollection indexer: sections first, then section groups. */
  function ChildAt<T>(sections: seq<T>, sectionGroups: seq<T>, index: nat): T
    requires index < ChildrenCount(sections, sectionGroups)
  {
    if index < |sections| then sections[index] else sectionGroups[index - |sections|]
  }

  /** The indexer and Count describe exactly the concatenation of the two lists. */
  lemma ChildAtIsConcatenation<T>(sections: seq<T>, sectionGroups: seq<T>)
    ensures ChildrenCount(sections, sectionGroups) == |sections + sectionGroups|
    ensures forall i :: 0 <= i < |sections + sectionGroups| ==>
      ChildAt(sections, sectionGroups, i) == (sections + sectionGroups)[i]
  {
  }

  /**
   * ChildrenCollection: a live view over a container's two lists. It holds the
   * lists themselves, so later additions to either list show through the view.
   */
  class ChildrenCollection<T(==)> {
    const sections: ReadOnlyList<T>
    const sectionGroups: ReadOnlyList<T>

    constructor(sections: ReadOnlyList<T>, sectionGroups: ReadOnlyList<T>)
      ensures this.sections == sections && this.sectionGroups == sectionGroups
    {
      this.sections := sections;
      this.sectionGroups := sectionGroups;
    }

    /** What the view currently shows. */
    function Contents(): seq<T>
      reads sections, sectionGroups
    {
      sections.list + sectionGroups.list
    }

    function Count(): (n: nat)
      reads sections, sectionGroups
      ensures n == |Contents()|
    {
      ChildrenCount(sections.list, sectionGroups.list)
    }

    function Get(index: nat): (x: T)
      reads sections, sectionGroups
      requires index < Count()
      ensures x == Contents()[index]
      ensures index < |sections.list| ==> x == sections.list[index]
      ensures index >= |sections.list| ==> x == sectionGroups.list[index - |sections.list|]
    {
      ChildAtIsConcatenation(sections.list, sectionGroups.list);
      ChildAt(sections.list, sectionGroups.list, index)
    }
  }

  /**
   * ChildrenCollection.Enumerator as written: every MoveNext starts fresh
   * enumerators over the two lists, so it reports the first element again and again.
   */
  class ChildrenEnumeratorAsWritten<T> {
    const sections: seq<T>
    const sectionGroups: seq<T>
    var current: Option<T>

    constructor(sections: seq<T>, sectionGroups: seq<T>)
      ensures this.sections == sections && this.sectionGroups == sectionGroups && current == None
    {
      this.sections := sections;
      this.sectionGroups := sectionGroups;
      current := None;
    }

    method MoveNext() returns (more: bool)
      modifies this
      ensures more <==> sections != [] || sectionGroups != []
      ensures more ==> current == Some(if sections != [] then sections[0] else sectionGroups[0])
      ensures !more ==> current == old(current)
    {
      if |sections| > 0 {
        current := Some(sections[0]);
        return true;
      }
      if |sectionGroups| > 0 {
        current := Some(sectionGroups[0]);
        return true;
      }
      return false;
    }
  }

  /** Runs the as-written enumerator for `steps` MoveNext calls and collects what it reports. */
  method EnumerateAsWritten<T>(sections: seq<T>, sectionGroups: seq<T>, steps: nat) returns (seen: seq<T>)
    ensures sections == [] && sectionGroups == [] ==> seen == []
    ensures sections != [] ==> seen == seq(steps, _ => sections[0])
    ensures sections == [] && sectionGroups != [] ==> seen == seq(steps, _ => sectionGroups[0])
  {
    var e := new ChildrenEnumeratorAsWritten(sections, sectionGroups);
    seen := [];
    var k := 0;
    while k < steps
      invariant 0 <= k <= steps
      invariant e.sections == sections && e.sectionGroups == sectionGroups
      invariant sections == [] && sectionGroups == [] ==> seen == []
      invariant sections != [] ==> seen == seq(k, _ => sections[0])
      invariant sections == [] && sectionGroups != [] ==> seen == seq(k, _ => sectionGroups[0])
    {
      var more := e.MoveNext();
      if !more {
        break;
      }
      seen := seen + [e.current.value];
      k := k + 1;
    }
  }

  /**
   * A view over two sections and no section groups: as written, two MoveNext
   * calls report the first section twice; the indexer order reports both.
   */
  method AsWrittenNeverAdvances() returns (asWritten: seq<int>, indexerOrder: seq<int>)
    ensures asWritten == [1, 1]
    ensures indexerOrder == [1, 2]
  {
    asWritten := EnumerateAsWritten([1, 2], [], 2);
    indexerOrder := EnumerateChildren([1, 2], []);
  }

  /**
   * The enumerator the indexer describes: two cursors, sections first, then
   * section groups.
   */
  class ChildrenEnumerator<T> {
    const sections: seq<T>
    const sectionGroups: seq<T>
    var sectionIndex: nat
    var sectionGroupIndex: nat
    var current: Option<T>
    /** The elements reported so far. */
    ghost var yielded: seq<T>

    ghost predicate Valid()
      reads this
    {
      sectionIndex <= |sections| && sectionGroupIndex <= |sectionGroups| &&
      (sectionGroupIndex > 0 ==> sectionIndex == |sections|) &&
      yielded == sections[..sectionIndex] + sectionGroups[..sectionGroupIndex]
    }

    constructor(sections: seq<T>, sectionGroups: seq<T>)
      ensures Valid() && yielded == []
      ensures this.sections == sections && this.sectionGroups == sectionGroups
    {
      this.sections := sections;
      this.sectionGroups := sectionGroups;
      sectionIndex := 0;
      sectionGroupIndex := 0;
      current := None;
      yielded := [];
    }

    method MoveNext() returns (more: bool)
      requires Valid()
      modifies this
      ensures Valid()
      ensures more <==> |old(yielded)| < |sections + sectionGroups|
      ensures more ==> yielded == old(yielded) + [(sections + sectionGroups)[|old(yielded)|]]
      ensures more ==> current == Some((sections + sectionGroups)[|old(yielded)|])
      ensures !more ==> yielded == old(yielded)
    {
      if sectionIndex < |sections| {
        current := Some(sections[sectionIndex]);
        assert sections[..sectionIndex + 1] == sections[..sectionIndex] + [sections[sectionIndex]];
        sectionIndex := sectionIndex + 1;
        yielded := yielded + [current.value];
        return true;
      }
      if sectionGroupIndex < |sectionGroups| {
        current := Some(sectionGroups[sectionGroupIndex]);
        assert sectionGroups[..sectionGroupIndex + 1] == sectionGroups[..sectionGroupIndex] + [sectionGroups[sectionGroupIndex]];
        sectionGroupIndex := sectionGroupIndex + 1;
        yielded := yielded + [current.value];
        return true;
      }
      assert sections[..sectionIndex] == sections && sectionGroups[..sectionGroupIndex] == sectionGroups;
      return false;
    }
  }

  /** Enumerating to the end reports exactly what the indexer shows, in index order. */
  method EnumerateChildren<T>(sections: seq<T>, sectionGroups: seq<T>) returns (seen: seq<T>)
    ensures |seen| == ChildrenCount(sections, sectionGroups)
    ensures forall i :: 0 <= i < |seen| ==> seen[i] == ChildAt(sections, sectionGroups, i)
  {
    var e := new ChildrenEnumerator(sections, sectionGroups);
    seen := [];
    var more := e.MoveNext();
    while more
      invariant e.Valid() && e.sections == sections && e.sectionGroups == sectionGroups
      invariant more ==> e.current.Some?
      invariant seen + (if more then [e.current.value] else []) == e.yielded
      invariant !more ==> |e.yielded| == |sections + sectionGroups|
      decreases |sections + sectionGroups| - |e.yielded|, more
    {
      seen := seen + [e.current.value];
      more := e.MoveNext();
    }
    assert e.yielded == sections + sectionGroups;
    ChildAtIsConcatenation(sections, sectionGroups);
  }
}
