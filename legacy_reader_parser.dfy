/**
 * The older streaming engine (Odotocodot.OneNote.Linq's XmlParserXmlReader)
 * as it runs: one shared reader cursor, the attribute loops, and the child
 * loops that append to a list. Each method returns the item, and leaves the
 * reader where, the matching function of LegacyReaderSpec says.
 */
module LegacyXmlParserXmlReader {
  import opened Base
  import opened Xml
  import opened Hierarchy
  import S = LegacyReaderSpec
  import X = XmlParserXmlReader

  /** A method's outcome and the reader's position are the ones its specification function computes. */
  predicate Agrees(res: Result<S.LItem>, spec: Result<S.LParsed>, rest: seq<Token>) {
    res.Success? == spec.Success? &&
    (spec.Success? ==> res.value == spec.value.item && rest == spec.value.rest) &&
    (spec.Failure? ==> res.error == spec.error)
  }

  /** The same, for a list. */
  predicate AgreesList(res: Result<seq<S.LItem>>, spec: Result<S.LParsedList>, rest: seq<Token>) {
    res.Success? == spec.Success? &&
    (spec.Success? ==> res.value == spec.value.items && rest == spec.value.rest) &&
    (spec.Failure? ==> res.error == spec.error)
  }

  /** `while (reader.MoveToNextAttribute()) switch (...)` on a new item of kind `k`. */
  method SetAttributes(reader: X.Reader, k: Kind) returns (res: Result<Item>)
    ensures res == S.NewWithAttributes(k, reader.rest)
  {
    var attrs := reader.Attributes();
    var it := NewItem(k);
    var i := 0;
    while i < |attrs|
      invariant 0 <= i <= |attrs|
      invariant S.ApplyAttributes(NewItem(k), attrs) == S.ApplyAttributes(it, attrs[i..])
    {
      var written := S.ApplyAttribute(it, attrs[i]);
      if written.Failure? {
        return Failure(written.error);
      }
      it := written.value;
      assert attrs[i..][1..] == attrs[i + 1..];
      i := i + 1;
    }
    assert attrs[i..] == [];
    return Success(it);
  }

  /** ParsePage. */
  method ParsePage(reader: X.Reader, parent: S.ParentView, sep: string) returns (res: Result<S.LItem>)
    requires reader.OnStart()
    modifies reader
    ensures Agrees(res, S.ParsePage(old(reader.rest), parent, sep), reader.rest)
  {
    var it := SetAttributes(reader, PageKind);
    if it.Failure? {
      return Failure(it.error);
    }
    var page := S.ChildItem(it.value, parent, sep);
    reader.Skip();
    return Success(page);
  }

  /** ParseSection, with its page loop. */
  method ParseSection(reader: X.Reader, parent: S.ParentView, sep: string) returns (res: Result<S.LItem>)
    requires reader.OnStart()
    modifies reader
    ensures Agrees(res, S.ParseSection(old(reader.rest), parent, sep), reader.rest)
  {
    var it := SetAttributes(reader, SectionKind);
    if it.Failure? {
      return Failure(it.error);
    }
    var section := S.ChildItem(it.value, parent, sep);
    if reader.IsEmptyElement() {
      reader.Skip();
      return Success(section);
    }
    var started := reader.ReadStartElement();
    var pages: seq<S.LItem> := [];
    ghost var loop := S.ParsePages(reader.rest, S.ViewOf(section), sep, []);
    while !reader.AtEnd()
      invariant S.ParsePages(reader.rest, S.ViewOf(section), sep, pages) == loop
      decreases |reader.rest|
    {
      if reader.OnElement(PageName) {
        var page := ParsePage(reader, S.ViewOf(section), sep);
        if page.Failure? {
          return Failure(page.error);
        }
        pages := pages + [page.value];
      } else {
        reader.Read();
      }
    }
    var ended := reader.ReadEndElement();
    if ended.Failure? {
      return Failure(ended.error);
    }
    return Success(section.(children := pages));
  }

  /** The child loop ParseNotebook and ParseSectionGroup share. */
  method ParseChildren(reader: X.Reader, container: S.ParentView, sep: string) returns (res: Result<seq<S.LItem>>)
    modifies reader
    ensures AgreesList(res, S.ParseChildren(old(reader.rest), container, sep, []), reader.rest)
    decreases |reader.rest|, 1
  {
    var children: seq<S.LItem> := [];
    ghost var loop := S.ParseChildren(reader.rest, container, sep, []);
    ghost var size := |reader.rest|;
    while !reader.AtEnd()
      invariant |reader.rest| <= size
      invariant S.ParseChildren(reader.rest, container, sep, children) == loop
      decreases |reader.rest|
    {
      if reader.OnElement(SectionName) {
        var section := ParseSection(reader, container, sep);
        if section.Failure? {
          return Failure(section.error);
        }
        children := children + [section.value];
      } else if reader.OnElement(SectionGroupName) {
        var group := ParseSectionGroup(reader, container, sep);
        if group.Failure? {
          return Failure(group.error);
        }
        children := children + [group.value];
      } else {
        reader.Read();
      }
    }
    return Success(children);
  }

  /** ParseSectionGroup. */
  method ParseSectionGroup(reader: X.Reader, parent: S.ParentView, sep: string) returns (res: Result<S.LItem>)
    requires reader.OnStart()
    modifies reader
    ensures Agrees(res, S.ParseSectionGroup(old(reader.rest), parent, sep), reader.rest)
    decreases |reader.rest|, 0
  {
    var it := SetAttributes(reader, SectionGroupKind);
    if it.Failure? {
      return Failure(it.error);
    }
    var group := S.ChildItem(it.value, parent, sep);
    if reader.IsEmptyElement() {
      reader.Skip();
      return Success(group);
    }
    var started := reader.ReadStartElement();
    var children := ParseChildren(reader, S.ViewOf(group), sep);
    if children.Failure? {
      return Failure(children.error);
    }
    var ended := reader.ReadEndElement();
    if ended.Failure? {
      return Failure(ended.error);
    }
    return Success(group.(children := children.value));
  }

  /** ParseNotebook. */
  method ParseNotebook(reader: X.Reader, sep: string) returns (res: Result<S.LItem>)
    requires reader.OnStart()
    modifies reader
    ensures Agrees(res, S.ParseNotebook(old(reader.rest), sep), reader.rest)
  {
    var it := SetAttributes(reader, NotebookKind);
    if it.Failure? {
      return Failure(it.error);
    }
    var notebook := S.NotebookItem(it.value);
    if reader.IsEmptyElement() {
      reader.Skip();
      return Success(notebook);
    }
    var started := reader.ReadStartElement();
    var children := ParseChildren(reader, S.ViewOf(notebook), sep);
    if children.Failure? {
      return Failure(children.error);
    }
    var ended := reader.ReadEndElement();
    if ended.Failure? {
      return Failure(ended.error);
    }
    return Success(notebook.(children := children.value));
  }

  /** The private ParseNotebooks(reader), with its loop over the notebook list. */
  method ParseNotebookElement(reader: X.Reader, sep: string) returns (res: Result<seq<S.LItem>>)
    requires reader.OnStart()
    modifies reader
    ensures res == S.ParseNotebookElement(old(reader.rest), sep)
  {
    if reader.IsEmptyElement() {
      reader.Skip();
      return Success([]);
    }
    var started := reader.ReadStartElement();
    var notebooks: seq<S.LItem> := [];
    ghost var loop := S.ParseNotebookList(reader.rest, sep, []);
    while !reader.AtEnd()
      invariant S.ParseNotebookList(reader.rest, sep, notebooks) == loop
      decreases |reader.rest|
    {
      if reader.OnElement(NotebookName) {
        var notebook := ParseNotebook(reader, sep);
        if notebook.Failure? {
          return Failure(notebook.error);
        }
        notebooks := notebooks + [notebook.value];
      } else {
        reader.Read();
      }
    }
    var ended := reader.ReadEndElement();
    if ended.Failure? {
      return Failure(ended.error);
    }
    return Success(notebooks);
  }

  /** ParseNotebooks(xml). */
  method ParseNotebooks(xml: seq<Token>, sep: string) returns (res: Result<seq<S.LItem>>)
    ensures res == S.ParseNotebooks(xml, sep)
  {
    var reader := new X.Reader(xml);
    if reader.OnElement(NotebookList) {
      res := ParseNotebookElement(reader, sep);
    } else {
      res := Success([]);
    }
  }

  /** ParseUnknown(xml, parent). */
  method ParseUnknown(xml: seq<Token>, parent: Option<S.ParentView>, sep: string) returns (res: Result<Option<S.LItem>>)
    ensures res == S.ParseUnknown(xml, parent, sep)
  {
    var reader := new X.Reader(xml);
    if !reader.OnStart() {
      return Success(None);
    }
    var local := xml[0].name.local;
    var item: Result<S.LItem>;
    if local == NotebookName {
      item := ParseNotebook(reader, sep);
    } else if local == SectionName {
      if parent.None? {
        return Failure(NullReference);
      }
      item := ParseSection(reader, parent.value, sep);
    } else if local == SectionGroupName {
      if parent.None? {
        return Failure(NullReference);
      }
      item := ParseSectionGroup(reader, parent.value, sep);
    } else if local == PageName {
      if parent.Some? && parent.value.kind != SectionKind {
        return Failure(InvalidCast);
      }
      if parent.None? {
        return Failure(NullReference);
      }
      item := ParsePage(reader, parent.value, sep);
    } else {
      return Success(None);
    }
    if item.Failure? {
      return Failure(item.error);
    }
    return Success(Some(item.value));
  }
}
