/**
 * The statement parts of the older DOM engine: the SetAttributes foreach
 * that writes one field per attribute, and Parse<T>, which then assigns
 * Parent, Notebook, RelativePath and the lazy Children. Each method returns
 * what its function in LegacyXElementSpec computes.
 */
module LegacyXmlParserXElement {
  import opened Base
  import opened Xml
  import opened Hierarchy
  import S = LegacyXElementSpec
  import L = LegacyReaderSpec

  /** SetAttributes(item, element.Attributes()). */
  method SetAttributes(item: Item, attributes: seq<Attr>) returns (res: Result<Item>)
    ensures res == S.ApplyAttributes(item, attributes)
  {
    var it := item;
    var i := 0;
    while i < |attributes|
      invariant 0 <= i <= |attributes|
      invariant S.ApplyAttributes(item, attributes) == S.ApplyAttributes(it, attributes[i..])
    {
      var written := S.ApplyAttribute(it, attributes[i]);
      if written.Failure? {
        return Failure(written.error);
      }
      it := written.value;
      assert attributes[i..][1..] == attributes[i + 1..];
      i := i + 1;
    }
    assert attributes[i..] == [];
    return Success(it);
  }

  /** Parse<T>(new T(), element, parent). */
  method Parse(k: Kind, element: Node, parent: Option<L.ParentView>, sep: string) returns (res: Result<S.DItem>)
    requires element.Element?
    ensures res == S.Parse(k, element, parent, sep)
  {
    var it := SetAttributes(NewItem(k), element.attrs);
    if it.Failure? {
      return Failure(it.error);
    }
    var notebook := if parent.Some? then parent.value.notebook else None;
    if k == NotebookKind {
      // Notebook's Parent and RelativePath setters do nothing.
      res := Success(S.DItem(it.value, None, it.value.name, notebook, element));
    } else {
      var path := L.ChildPath(S.ParentPath(parent), sep, it.value.name);
      res := Success(S.DItem(it.value, parent, path, notebook, element));
    }
  }

  /** ParseUnknown(xml, parent): the table lookup, then Parse<T>. */
  method ParseUnknown(root: Node, parent: Option<L.ParentView>, sep: string) returns (res: Result<S.DItem>)
    ensures res == S.ParseUnknown(root, parent, sep)
  {
    if !root.Element? {
      return Failure(XmlMalformed);
    }
    var k := S.TableKind(root.name);
    if k.None? {
      return Failure(KeyNotFound);
    }
    res := Parse(k.value, root, parent, sep);
  }
}
