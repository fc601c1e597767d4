/**
 * The XML hierarchy snapshots the parsers read: a document tree for the DOM
 * engines and the token stream an XmlReader walks for the streaming engines,
 * plus the primitive value decoders the parsers call on attribute text.
 */
module Xml {
  import opened Base

  /** The OneNote hierarchy namespace (the schema's target namespace). */
  const OneNoteNamespace: string := "http://schemas.microsoft.com/office/onenote/2013/onenote"

  // Element local names of the hierarchy schema.
  const NotebookList: string := "Notebooks"
  const NotebookName: string := "Notebook"
  const SectionGroupName: string := "SectionGroup"
  const SectionName: string := "Section"
  const PageName: string := "Page"
  const OpenSectionsName: string := "OpenSections"

  // Attribute local names of the hierarchy schema.
  const IdAttr: string := "ID"
  const NameAttr: string := "name"
  const LastModifiedTimeAttr: string := "lastModifiedTime"
  const IsUnreadAttr: string := "isUnread"
  const PathAttr: string := "path"
  const ColorAttr: string := "color"
  const IsInRecycleBinAttr: string := "isInRecycleBin"
  const NickNameAttr: string := "nickname"
  const IsRecycleBinAttr: string := "isRecycleBin"
  const EncryptedAttr: string := "encrypted"
  const LockedAttr: string := "locked"
  const IsDeletedPagesAttr: string := "isDeletedPages"
  const PageLevelAttr: string := "pageLevel"
  const DateTimeAttr: string := "dateTime"

  datatype QName = QName(ns: string, local: string)

  /** An attribute, by local name (hierarchy attributes carry no namespace). */
  datatype Attr = Attr(name: string, value: string)

  datatype Node =
    | Element(name: QName, attrs: seq<Attr>, children: seq<Node>)
    | Text

  /** The name an element has in the OneNote namespace. */
  function OneNote(local: string): QName {
    QName(OneNoteNamespace, local)
  }

  /** What an XmlReader positioned on a node reports. */
  datatype Token =
    | Start(name: QName, attrs: seq<Attr>, empty: bool)   // an element start (or empty element)
    | End                                                 // an end tag
    | Content                                             // text or CDATA

  /** The reader's view of a node: an element without children reads as one empty element. */
  function Tokens(n: Node): seq<Token>
    decreases n, 1
  {
    match n
    case Text => [Content]
    case Element(name, attrs, children) =>
      if children == [] then [Start(name, attrs, true)]
      else [Start(name, attrs, false)] + TokensSeq(children) + [End]
  }

  function TokensSeq(ns: seq<Node>): seq<Token>
    decreases ns, 0
  {
    if ns == [] then [] else Tokens(ns[0]) + TokensSeq(ns[1..])
  }

  // ---------------------------------------------------------------------
  // Reader cursor moves, on the tokens not yet read.

  /** XmlReader.Read: advance one node (staying at the end of input). */
  function Read(ts: seq<Token>): (r: seq<Token>)
    ensures |r| <= |ts| && (ts != [] ==> |r| < |ts|)
  {
    if ts == [] then [] else ts[1..]
  }

  /** Consume up to and including the end tag that closes `depth` more open elements than now. */
  function SkipTo(ts: seq<Token>, depth: nat): (r: seq<Token>)
    ensures |r| <= |ts|
    decreases |ts|
  {
    if ts == [] then []
    else match ts[0]
      case Start(_, _, empty) => if empty then SkipTo(ts[1..], depth) else SkipTo(ts[1..], depth + 1)
      case End => if depth == 0 then ts[1..] else SkipTo(ts[1..], depth - 1)
      case Content => SkipTo(ts[1..], depth)
  }

  /** XmlReader.Skip: on an element start, pass the whole element; otherwise read one node. */
  function Skip(ts: seq<Token>): (r: seq<Token>)
    ensures |r| <= |ts| && (ts != [] ==> |r| < |ts|)
  {
    if ts != [] && ts[0].Start? && !ts[0].empty then SkipTo(ts[1..], 0) else Read(ts)
  }

  /** The reader is at an end tag or at the end of input: the child loops stop here. */
  predicate AtEndOrNone(ts: seq<Token>) {
    ts == [] || ts[0].End?
  }

  /** XmlReader.IsEmptyElement. */
  predicate IsEmptyElement(ts: seq<Token>) {
    ts != [] && ts[0].Start? && ts[0].empty
  }

  /** The attributes of the element the reader is on (none on any other node). */
  function AttrsAt(ts: seq<Token>): seq<Attr> {
    if ts != [] && ts[0].Start? then ts[0].attrs else []
  }

  /** XmlReader.ReadStartElement: fails unless the reader is on an element. */
  function ReadStartElement(ts: seq<Token>): (r: Result<seq<Token>>)
    ensures r.Success? <==> ts != [] && ts[0].Start?
    ensures r.Success? ==> r.value == ts[1..]
  {
    if ts != [] && ts[0].Start? then Success(ts[1..]) else Failure(XmlMalformed)
  }

  /** XmlReader.ReadEndElement: fails unless the reader is on an end tag. */
  function ReadEndElement(ts: seq<Token>): (r: Result<seq<Token>>)
    ensures r.Success? <==> ts != [] && ts[0].End?
    ensures r.Success? ==> r.value == ts[1..]
  {
    if ts != [] && ts[0].End? then Success(ts[1..]) else Failure(XmlMalformed)
  }

  /** Skipping over a whole node leaves the depth count where it was. */
  lemma {:induction false} SkipToOverNode(n: Node, rest: seq<Token>, depth: nat)
    ensures SkipTo(Tokens(n) + rest, depth) == SkipTo(rest, depth)
    decreases n, 1
  {
    match n
    case Text =>
      assert (Tokens(n) + rest)[1..] == rest;
    case Element(name, attrs, children) =>
      if children == [] {
        assert (Tokens(n) + rest)[1..] == rest;
      } else {
        var ts := Tokens(n) + rest;
        assert ts[0] == Start(name, attrs, false);
        assert ts[1..] == TokensSeq(children) + ([End] + rest);
        SkipToOverNodes(children, [End] + rest, depth + 1);
        assert ([End] + rest)[1..] == rest;
      }
  }

  lemma {:induction false} SkipToOverNodes(ns: seq<Node>, rest: seq<Token>, depth: nat)
    ensures SkipTo(TokensSeq(ns) + rest, depth) == SkipTo(rest, depth)
    decreases ns, 0
  {
    if ns == [] {
      assert TokensSeq(ns) + rest == rest;
    } else {
      assert TokensSeq(ns) + rest == Tokens(ns[0]) + (TokensSeq(ns[1..]) + rest);
      SkipToOverNode(ns[0], TokensSeq(ns[1..]) + rest, depth);
      SkipToOverNodes(ns[1..], rest, depth);
    }
  }

  /** Skip on an element passes exactly that element's tokens. */
  lemma SkipElement(e: Node, rest: seq<Token>)
    requires e.Element?
    ensures Skip(Tokens(e) + rest) == rest
  {
    var ts := Tokens(e) + rest;
    ElementStart(e, rest);
    if e.children == [] {
      EmptyElementRead(e, rest);
    } else {
      assert Skip(ts) == SkipTo(ts[1..], 0);
      SkipToOverNodes(e.children, [End] + rest, 0);
      SkipToClosingEnd(rest);
    }
  }

  lemma EmptyElementRead(e: Node, rest: seq<Token>)
    requires e.Element? && e.children == []
    ensures Read(Tokens(e) + rest) == rest
  {
    assert Tokens(e) == [Start(e.name, e.attrs, true)];
    assert (Tokens(e) + rest)[1..] == rest;
  }

  lemma SkipToClosingEnd(rest: seq<Token>)
    ensures SkipTo([End] + rest, 0) == rest
  {
    assert ([End] + rest)[1..] == rest;
  }

  /** The first token of an element is its start token. */
  lemma ElementStart(e: Node, rest: seq<Token>)
    requires e.Element?
    ensures var ts := Tokens(e) + rest;
            ts != [] && ts[0] == Start(e.name, e.attrs, e.children == []) &&
            (e.children != [] ==> ts[1..] == TokensSeq(e.children) + ([End] + rest))
  {
  }

  /** The first node of a non-empty node list, with what follows it. */
  lemma NodesFirst(ns: seq<Node>, tail: seq<Token>)
    requires ns != []
    ensures TokensSeq(ns) + tail == Tokens(ns[0]) + (TokensSeq(ns[1..]) + tail)
    ensures Tokens(ns[0]) != [] && (ns[0].Text? ==> (TokensSeq(ns) + tail)[0] == Content)
  {
  }

  // ---------------------------------------------------------------------
  // Primitive decoders used on attribute text.

  predicate IsWhiteSpaceChar(c: char) {
    c == ' ' || c == '\t' || c == '\n' || c == '\r' || c == '\U{000B}' || c == '\U{000C}' || c == '\U{0085}' || c == '\U{00A0}'
  }

  predicate IsXmlWhiteSpaceChar(c: char) {
    c == ' ' || c == '\t' || c == '\n' || c == '\r'
  }

  function TrimStart(s: string, ws: char -> bool): (r: string)
    ensures |r| <= |s| && r == s[|s| - |r|..]
    ensures r != [] ==> !ws(r[0])
  {
    if s != [] && ws(s[0]) then TrimStart(s[1..], ws) else s
  }

  function TrimEnd(s: string, ws: char -> bool): (r: string)
    ensures |r| <= |s| && r == s[..|r|]
    ensures r != [] ==> !ws(r[|r| - 1])
  {
    if s != [] && ws(s[|s| - 1]) then TrimEnd(s[..|s| - 1], ws) else s
  }

  function Trim(s: string, ws: char -> bool): string {
    TrimEnd(TrimStart(s, ws), ws)
  }

  function LowerAscii(c: char): char {
    if 'A' <= c <= 'Z' then (c as int + 32) as char else c
  }

  predicate EqualsIgnoreCase(s: string, t: string) {
    |s| == |t| && forall i :: 0 <= i < |s| ==> LowerAscii(s[i]) == LowerAscii(t[i])
  }

  /** bool.Parse: "true"/"false" in any letter case, surrounding white space allowed. */
  function BoolParse(s: string): Result<bool> {
    var t := Trim(s, IsWhiteSpaceChar);
    if EqualsIgnoreCase(t, "true") then Success(true)
    else if EqualsIgnoreCase(t, "false") then Success(false)
    else Failure(Format)
  }

  /**
   * The XAttribute-to-bool cast: the value is lower-cased (ToLowerInvariant)
   * and read by XmlConvert.ToBoolean, which trims XML white space and takes
   * "true"/"1" and "false"/"0". Lower-casing before the comparison is
   * comparing without regard to case; ASCII folding is exact here, since no
   * other character lower-cases to a letter of "true" or "false".
   */
  function XmlBool(s: string): Result<bool> {
    var t := Trim(s, IsXmlWhiteSpaceChar);
    if EqualsIgnoreCase(t, "true") || t == "1" then Success(true)
    else if EqualsIgnoreCase(t, "false") || t == "0" then Success(false)
    else Failure(Format)
  }
}
