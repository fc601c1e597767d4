/**
 * The containers that own two child lists, sections and section groups, and
 * expose them as one Children view: a section group makes its view when it is
 * made, a notebook on the first read of Children and keeps it from then on.
 * The view holds the lists themselves, so what is added later shows through.
 */
module Containers {
  import opened Base
  import opened Collections

  /** SectionGroup's lists and the view it makes in its constructor. */
  class SectionGroup<T(==)> {
    const sections: ReadOnlyList<T>
    const sectionGroups: ReadOnlyList<T>
    const children: ChildrenCollection<T>

    constructor()
      ensures fresh(sections) && fresh(sectionGroups) && fresh(children) && sections != sectionGroups
      ensures sections.list == [] && sectionGroups.list == []
      ensures children.sections == sections && children.sectionGroups == sectionGroups
    {
      var s := new ReadOnlyList();
      var g := new ReadOnlyList();
      sections, sectionGroups := s, g;
      children := new ChildrenCollection(s, g);
    }
  }

  /** Notebook's lists and its Children view, made on the first read. */
  class Notebook<T(==)> {
    const sections: ReadOnlyList<T>
    const sectionGroups: ReadOnlyList<T>
    var children: Option<ChildrenCollection<T>>

    /** A cached view is over this notebook's own two lists. */
    predicate Valid()
      reads this
    {
      sections != sectionGroups &&
      (children.Some? ==> children.value.sections == sections && children.value.sectionGroups == sectionGroups)
    }

    constructor()
      ensures Valid() && fresh(sections) && fresh(sectionGroups)
      ensures sections.list == [] && sectionGroups.list == [] && children.None?
    {
      sections := new ReadOnlyList();
      sectionGroups := new ReadOnlyList();
      children := None;
    }

    /** The Children getter: `field ??= new ChildrenCollection(sections, sectionGroups)`. */
    method Children() returns (c: ChildrenCollection<T>)
      requires Valid()
      modifies this
      ensures Valid() && children == Some(c)
      ensures old(children).Some? ==> c == old(children).value
      ensures old(children).None? ==> fresh(c)
      ensures c.sections == sections && c.sectionGroups == sectionGroups
    {
      if children.None? {
        var view := new ChildrenCollection(sections, sectionGroups);
        children := Some(view);
      }
      c := children.value;
    }
  }

  /**
   * A new notebook's Children is the same object on every read, and it shows
   * the sections and section groups added after the first read: sections
   * first, then section groups, whatever order they were added in.
   */
  method NotebookChildrenCached<T(==)>(sections: seq<T>, group: T) returns (first: ChildrenCollection<T>, second: ChildrenCollection<T>)
    ensures first == second
    ensures second.Contents() == sections + [group] && second.Count() == |sections| + 1
  {
    var nb := new Notebook<T>();
    first := nb.Children();
    nb.sectionGroups.Add(group);
    var i := 0;
    while i < |sections|
      invariant 0 <= i <= |sections|
      invariant nb.sections.list == sections[..i] && nb.sectionGroups.list == [group]
      invariant nb.Valid() && nb.children == Some(first)
    {
      nb.sections.Add(sections[i]);
      i := i + 1;
    }
    assert sections[..i] == sections;
    second := nb.Children();
  }

  /** A section group's Children counts its sections and section groups, sections first. */
  method SectionGroupChildren<T(==)>(sections: seq<T>, groups: seq<T>) returns (count: nat, contents: seq<T>)
    ensures count == |sections| + |groups| && contents == sections + groups
  {
    var sg := new SectionGroup<T>();
    var i := 0;
    while i < |sections|
      invariant 0 <= i <= |sections| && sg.sections.list == sections[..i] && sg.sectionGroups.list == []
    {
      sg.sections.Add(sections[i]);
      i := i + 1;
    }
    var j := 0;
    while j < |groups|
      invariant 0 <= j <= |groups| && sg.sections.list == sections && sg.sectionGroups.list == groups[..j]
    {
      sg.sectionGroups.Add(groups[j]);
      j := j + 1;
    }
    assert sections[..i] == sections && groups[..j] == groups;
    count := sg.children.Count();
    contents := sg.children.Contents();
  }
}
