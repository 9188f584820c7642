/**
 * LogbackSupport: merges a local and a common logback configuration document
 * into one XML text by serialising selected DOM nodes into a shared
 * StringBuffer. The DOM is a tree datatype and XPath "//name" is a
 * document-order search for elements of that name; writing the text to a
 * temporary file and handing it to Joran are not part of this model.
 */
module Logback {
  import opened JavaLang

  /** A DOM attribute. */
  datatype Attr = Attr(name: string, value: string)

  /** A DOM node: an element, a text node (its content may be null), or any other kind, with its node name. */
  datatype Node =
    | Element(name: string, attrs: seq<Attr>, children: seq<Node>)
    | Text(content: Option<string>)
    | Other(nodeName: string)

  /** The XML declaration mergeLogConfig starts with. */
  const Declaration: string := "<?xml version=\"1.0\" encoding=\"UTF-8\"?>"

  /** Node.getNodeName. */
  function NodeName(n: Node): string
  {
    match n
    case Element(name, _, _) => name
    case Text(_) => "#text"
    case Other(name) => name
  }

  /** Node.getAttributes: only an element has any. */
  function Attrs(n: Node): seq<Attr>
  {
    if n.Element? then n.attrs else []
  }

  /** What printNodeHeader writes per attribute, unescaped: name="value" and a space. */
  function AttrsText(attrs: seq<Attr>): string
  {
    if attrs == [] then ""
    else AttrsText(attrs[..|attrs| - 1]) + attrs[|attrs| - 1].name + "=\"" + attrs[|attrs| - 1].value + "\" "
  }

  lemma AttrsTextStep(attrs: seq<Attr>, k: nat)
    requires k < |attrs|
    ensures AttrsText(attrs[..k + 1]) == AttrsText(attrs[..k]) + (attrs[k].name + "=\"" + attrs[k].value + "\" ")
  {
    assert attrs[..k + 1][..k] == attrs[..k];
  }

  /** Appending four pieces one by one appends their concatenation. */
  lemma AppendFour(p: string, a: string, b: string, c: string, d: string)
    ensures p + a + b + c + d == p + (a + b + c + d)
  {
  }

  /** Appending six pieces one by one appends their concatenation. */
  lemma AppendSix(p: string, a: string, b: string, c: string, d: string, e: string, f: string)
    ensures p + a + b + c + d + e + f == p + (a + b + c + d + e + f)
  {
  }

  /** printNodeHeader's text. */
  function HeaderText(n: Node, sep: string): string
  {
    "<" + NodeName(n) + " " + AttrsText(Attrs(n)) + ">" + sep
  }

  /** printNodeEnd's text. */
  function EndText(n: Node, sep: string): string
  {
    "</" + NodeName(n) + ">" + sep
  }

  /** printNode's text: an element with its children in order, a text node verbatim, nothing for other kinds. */
  function NodeText(n: Node, sep: string): string
    decreases n, 1
  {
    match n
    case Element(_, _, children) => HeaderText(n, sep) + NodesText(children, sep) + EndText(n, sep)
    case Text(content) => if content.Some? then content.value else ""
    case Other(_) => ""
  }

  /** printNodeList's text: the nodes one after the other. */
  function NodesText(ns: seq<Node>, sep: string): string
    decreases ns, 0
  {
    if ns == [] then ""
    else NodesText(ns[..|ns| - 1], sep) + NodeText(ns[|ns| - 1], sep)
  }

  /** XPath "//name": the elements of that name in the tree, in document order. */
  function Find(n: Node, name: string): seq<Node>
    decreases n, 1
  {
    match n
    case Element(elementName, _, children) => (if elementName == name then [n] else []) + FindAll(children, name)
    case Text(_) => []
    case Other(_) => []
  }

  function FindAll(ns: seq<Node>, name: string): seq<Node>
    decreases ns, 0
  {
    if ns == [] then [] else FindAll(ns[..|ns| - 1], name) + Find(ns[|ns| - 1], name)
  }

  /** For each supported node name, the local elements of that name, then the common ones. */
  function SupportText(common: Node, local: Node, names: seq<string>, sep: string): string
  {
    if names == [] then ""
    else
      var name := names[|names| - 1];
      SupportText(common, local, names[..|names| - 1], sep) +
      NodesText(Find(local, name), sep) + NodesText(Find(common, name), sep)
  }

  /** The root element printed: the local one, or the common one when the local document has none. */
  function RootText(common: Node, local: Node, sep: string): string
  {
    var roots := if Find(local, "root") == [] then Find(common, "root") else Find(local, "root");
    if roots == [] then "" else NodeText(roots[0], sep)
  }

  /** The text mergeLogConfig builds, or the exception it throws without a local configuration element. */
  function Merged(common: Node, local: Node, supportNode: seq<string>, sep: string): Result<string>
  {
    var configuration := Find(local, "configuration");
    if configuration == [] then Throws(IllegalStateException)
    else
      Ok(Declaration + HeaderText(configuration[0], sep) +
         NodesText(Find(local, "property"), sep) + NodesText(Find(common, "property"), sep) +
         SupportText(common, local, supportNode, sep) +
         RootText(common, local, sep) +
         EndText(configuration[0], sep))
  }

  // ---------------------------------------------------------------------------
  // Properties of the serialiser and the merge
  // ---------------------------------------------------------------------------

  /** A char that no attribute name or value holds, and that the quoting does not write, does not occur in the attribute text. */
  lemma {:induction false} AttrsTextCount(attrs: seq<Attr>, c: char)
    requires forall i :: 0 <= i < |attrs| ==> Lacks(attrs[i].name, c) && Lacks(attrs[i].value, c)
    requires c != '=' && c != '"' && c != ' '
    ensures Count(AttrsText(attrs), c) == 0
  {
    if attrs != [] {
      var a := attrs[|attrs| - 1];
      AttrsTextCount(attrs[..|attrs| - 1], c);
      var init := AttrsText(attrs[..|attrs| - 1]);
      CountAbsent(a.name, c);
      CountAbsent(a.value, c);
      CountAbsent("=\"", c);
      CountAbsent("\" ", c);
      CountAppend(init, a.name, c);
      CountAppend(init + a.name, "=\"", c);
      CountAppend(init + a.name + "=\"", a.value, c);
      CountAppend(init + a.name + "=\"" + a.value, "\" ", c);
    }
  }

  /** Whether no name, attribute or text in the tree holds c. */
  predicate Clean(n: Node, c: char)
    decreases n, 1
  {
    match n
    case Element(name, attrs, children) =>
      Lacks(name, c) && (forall i :: 0 <= i < |attrs| ==> Lacks(attrs[i].name, c) && Lacks(attrs[i].value, c)) &&
      AllClean(children, c)
    case Text(content) => content.None? || Lacks(content.value, c)
    case Other(_) => true
  }

  predicate AllClean(ns: seq<Node>, c: char)
    decreases ns, 0
  {
    forall i :: 0 <= i < |ns| ==> Clean(ns[i], c)
  }

  /** The number of elements in the tree. */
  function ElementCount(n: Node): nat
    decreases n, 1
  {
    match n
    case Element(_, _, children) => 1 + ElementsCount(children)
    case Text(_) => 0
    case Other(_) => 0
  }

  function ElementsCount(ns: seq<Node>): nat
    decreases ns, 0
  {
    if ns == [] then 0 else ElementsCount(ns[..|ns| - 1]) + ElementCount(ns[|ns| - 1])
  }

  /**
   * With no '<' in names, attributes or text (and none in the separator), the
   * serialised text holds exactly two '<' per element: one in its start tag
   * and one in its end tag. Nothing is escaped, so this is all the tree
   * itself guarantees.
   */
  lemma {:induction false} NodeTextTags(n: Node, sep: string)
    requires Clean(n, '<') && Lacks(sep, '<')
    ensures Count(NodeText(n, sep), '<') == 2 * ElementCount(n)
    decreases n, 1
  {
    match n
    case Element(name, attrs, children) =>
      NodesTextTags(children, sep);
      HeaderTags(n, sep);
      EndTags(n, sep);
      CountAppend(HeaderText(n, sep), NodesText(children, sep), '<');
      CountAppend(HeaderText(n, sep) + NodesText(children, sep), EndText(n, sep), '<');
    case Text(content) =>
      if content.Some? {
        CountAbsent(content.value, '<');
      }
    case Other(_) =>
  }

  lemma {:induction false} NodesTextTags(ns: seq<Node>, sep: string)
    requires AllClean(ns, '<') && Lacks(sep, '<')
    ensures Count(NodesText(ns, sep), '<') == 2 * ElementsCount(ns)
    decreases ns, 0
  {
    if ns != [] {
      NodesTextTags(ns[..|ns| - 1], sep);
      NodeTextTags(ns[|ns| - 1], sep);
      CountAppend(NodesText(ns[..|ns| - 1], sep), NodeText(ns[|ns| - 1], sep), '<');
    }
  }

  lemma HeaderTags(n: Node, sep: string)
    requires n.Element? && Clean(n, '<') && Lacks(sep, '<')
    ensures Count(HeaderText(n, sep), '<') == 1
  {
    AttrsTextCount(n.attrs, '<');
    CountAbsent(n.name, '<');
    CountAbsent(sep, '<');
    CountAppend("<", n.name, '<');
    CountAppend("<" + n.name, " ", '<');
    CountAppend("<" + n.name + " ", AttrsText(n.attrs), '<');
    CountAppend("<" + n.name + " " + AttrsText(n.attrs), ">", '<');
    CountAppend("<" + n.name + " " + AttrsText(n.attrs) + ">", sep, '<');
  }

  lemma EndTags(n: Node, sep: string)
    requires n.Element? && Clean(n, '<') && Lacks(sep, '<')
    ensures Count(EndText(n, sep), '<') == 1
  {
    CountAbsent(n.name, '<');
    CountAbsent(sep, '<');
    CountAppend("</", n.name, '<');
    CountAppend("</" + n.name, ">", '<');
    CountAppend("</" + n.name + ">", sep, '<');
  }

  /** An element without attributes still gets a space after its name; nothing is escaped. */
  lemma HeaderExamples()
    ensures HeaderText(Element("root", [], []), "") == "<root >"
    ensures HeaderText(Element("property", [Attr("value", "a\"b")], []), "") == "<property value=\"a\"b\" >"
    ensures NodeText(Element("a", [], [Text(Some("x<y")), Text(None), Other("#comment")]), "") == "<a >x<y</a>"
  {
    assert [Attr("value", "a\"b")][..0] == [];
    var kids := [Text(Some("x<y")), Text(None), Other("#comment")];
    assert kids[..2][..1] == [Text(Some("x<y"))];
    assert kids[..2] == [Text(Some("x<y")), Text(None)];
    assert [Text(Some("x<y"))][..0] == [];
    assert NodesText([Text(Some("x<y"))], "") == "x<y";
    assert NodesText(kids[..2], "") == "x<y";
    assert NodesText(kids, "") == "x<y";
  }

  /** The merged text opens with the declaration and the local configuration's start tag and closes with its end tag. */
  lemma MergedFraming(common: Node, local: Node, supportNode: seq<string>, sep: string)
    ensures Merged(common, local, supportNode, sep).Throws? <==> Find(local, "configuration") == []
    ensures Merged(common, local, supportNode, sep).Ok? ==>
      var s := Merged(common, local, supportNode, sep).value;
      var conf := Find(local, "configuration")[0];
      var open := Declaration + HeaderText(conf, sep);
      && |open| + |EndText(conf, sep)| <= |s|
      && s[..|open|] == open
      && s[|s| - |EndText(conf, sep)|..] == EndText(conf, sep)
  {
    if Find(local, "configuration") != [] {
      var conf := Find(local, "configuration")[0];
      var open := Declaration + HeaderText(conf, sep);
      var p1, p2 := NodesText(Find(local, "property"), sep), NodesText(Find(common, "property"), sep);
      var st, rt := SupportText(common, local, supportNode, sep), RootText(common, local, sep);
      Assoc(open, p1, p2);
      Assoc(open, p1 + p2, st);
      Assoc(open, p1 + p2 + st, rt);
      Framed(open, p1 + p2 + st + rt, EndText(conf, sep));
    }
  }

  lemma SupportSnoc(common: Node, local: Node, names: seq<string>, i: int, sep: string)
    requires 0 <= i < |names|
    ensures SupportText(common, local, names[..i + 1], sep) ==
      SupportText(common, local, names[..i], sep) + NodesText(Find(local, names[i]), sep) + NodesText(Find(common, names[i]), sep)
  {
    assert names[..i + 1][..i] == names[..i];
  }

  lemma Assoc(a: string, b: string, c: string)
    ensures a + b + c == a + (b + c)
  {
  }

  lemma Framed(a: string, b: string, c: string)
    ensures |a| + |c| <= |a + b + c|
    ensures (a + b + c)[..|a|] == a && (a + b + c)[|a + b + c| - |c|..] == c
  {
    assert a + b + c == a + (b + c);
  }

  /** The local root wins: a common root is printed only when the local document has none. */
  lemma RootPreference(common: Node, local: Node, sep: string)
    ensures Find(local, "root") != [] ==> RootText(common, local, sep) == NodeText(Find(local, "root")[0], sep)
    ensures Find(local, "root") == [] && Find(common, "root") != [] ==>
      RootText(common, local, sep) == NodeText(Find(common, "root")[0], sep)
    ensures Find(local, "root") == [] && Find(common, "root") == [] ==> RootText(common, local, sep) == ""
  {
  }

  /** An appender present in both documents is written twice, local copy first: nothing is deduplicated. */
  lemma AppendersNotDeduplicated(a: Node, sep: string)
    requires a.Element? && a.name == "appender" && FindAll(a.children, "appender") == []
    ensures var local := Element("configuration", [], [a]);
      var common := Element("configuration", [], [a]);
      SupportText(common, local, ["appender"], sep) == NodeText(a, sep) + NodeText(a, sep)
  {
    var doc := Element("configuration", [], [a]);
    assert [a][..0] == [];
    assert Find(a, "appender") == [a] + FindAll(a.children, "appender");
    assert FindAll([a], "appender") == [a];
    assert Find(doc, "appender") == [a];
    assert NodesText([a], sep) == NodeText(a, sep);
    assert ["appender"][..0] == [];
  }

  // ---------------------------------------------------------------------------
  // The imperative serialiser
  // ---------------------------------------------------------------------------

  /** java.lang.StringBuffer: text appended in place. */
  class StringBuffer {
    var contents: string

    constructor (s: string)
      ensures contents == s
    {
      contents := s;
    }

    method Append(s: string)
      modifies this
      ensures contents == old(contents) + s
    {
      contents := contents + s;
    }
  }

  /** LogbackSupport. */
  class LogbackSupport {
    const lineSep: string
    var supportNode: seq<string>
    var printLogConfig: bool

    constructor ()
      ensures lineSep == "" && supportNode == ["appender", "logger"] && printLogConfig
    {
      lineSep := "";
      supportNode := ["appender", "logger"];
      printLogConfig := true;
    }

    /** printNodeHeader: the start tag, attribute by attribute. */
    method PrintNodeHeader(n: Node, sb: StringBuffer, sep: string)
      modifies sb
      ensures sb.contents == old(sb.contents) + HeaderText(n, sep)
    {
      sb.Append("<");
      sb.Append(NodeName(n));
      sb.Append(" ");
      ghost var start := sb.contents;
      var attrs := Attrs(n);
      var k := 0;
      while k < |attrs|
        invariant 0 <= k <= |attrs|
        invariant sb.contents == start + AttrsText(attrs[..k])
      {
        ghost var prefix := sb.contents;
        AttrsTextStep(attrs, k);
        sb.Append(attrs[k].name);
        sb.Append("=\"");
        sb.Append(attrs[k].value);
        sb.Append("\" ");
        AppendFour(prefix, attrs[k].name, "=\"", attrs[k].value, "\" ");
        k := k + 1;
      }
      assert attrs[..k] == attrs;
      sb.Append(">");
      sb.Append(sep);
      AppendSix(old(sb.contents), "<", NodeName(n), " ", AttrsText(attrs), ">", sep);
    }

    /** printNodeEnd: the end tag. */
    method PrintNodeEnd(n: Node, sb: StringBuffer, sep: string)
      modifies sb
      ensures sb.contents == old(sb.contents) + EndText(n, sep)
    {
      sb.Append("</");
      sb.Append(NodeName(n));
      sb.Append(">");
      sb.Append(sep);
    }

    /** printNode: an element with its children in order, a text node verbatim, other kinds dropped. */
    method PrintNode(n: Node, sb: StringBuffer, sep: string)
      modifies sb
      ensures sb.contents == old(sb.contents) + NodeText(n, sep)
      decreases n, 1
    {
      match n
      case Element(_, _, children) =>
        PrintNodeHeader(n, sb, sep);
        PrintNodeList(children, sb, sep);
        PrintNodeEnd(n, sb, sep);
      case Text(content) =>
        sb.Append(if content.Some? then content.value else "");
      case Other(_) =>
    }

    /** printNodeList: each node in order. */
    method PrintNodeList(list: seq<Node>, sb: StringBuffer, sep: string)
      modifies sb
      ensures sb.contents == old(sb.contents) + NodesText(list, sep)
      decreases list, 0
    {
      var k := 0;
      while k < |list|
        invariant 0 <= k <= |list|
        invariant sb.contents == old(sb.contents) + NodesText(list[..k], sep)
      {
        assert list[..k + 1][..k] == list[..k];
        PrintNode(list[k], sb, sep);
        k := k + 1;
      }
      assert list[..k] == list;
    }

    /**
     * mergeLogConfig up to the text it writes: the declaration, the local
     * configuration's start tag, the local then the common properties, for
     * each supported node name the local then the common elements, one root
     * and the end tag; IllegalStateException without a local configuration.
     */
    method MergeLogConfig(commonDoc: Node, localDoc: Node) returns (r: Result<string>)
      ensures r == Merged(commonDoc, localDoc, supportNode, lineSep)
    {
      var configuration := Find(localDoc, "configuration");
      if |configuration| == 0 {
        return Throws(IllegalStateException);
      }
      var sb := new StringBuffer(Declaration);
      PrintNodeHeader(configuration[0], sb, lineSep);
      PrintNodeList(Find(localDoc, "property"), sb, lineSep);
      PrintNodeList(Find(commonDoc, "property"), sb, lineSep);
      PrintSupported(commonDoc, localDoc, supportNode, sb);
      PrintRoot(commonDoc, localDoc, sb);
      PrintNodeEnd(configuration[0], sb, lineSep);
      r := Ok(sb.contents);
    }

    /** The loop of mergeLogConfig over the supported node names. */
    method PrintSupported(commonDoc: Node, localDoc: Node, names: seq<string>, sb: StringBuffer)
      modifies sb
      ensures sb.contents == old(sb.contents) + SupportText(commonDoc, localDoc, names, lineSep)
    {
      var i := 0;
      while i < |names|
        invariant 0 <= i <= |names|
        invariant sb.contents == old(sb.contents) + SupportText(commonDoc, localDoc, names[..i], lineSep)
      {
        var searchNodeName := names[i];
        ghost var done := SupportText(commonDoc, localDoc, names[..i], lineSep);
        ghost var fromLocal := NodesText(Find(localDoc, searchNodeName), lineSep);
        ghost var fromCommon := NodesText(Find(commonDoc, searchNodeName), lineSep);
        SupportSnoc(commonDoc, localDoc, names, i, lineSep);
        PrintNodeList(Find(localDoc, searchNodeName), sb, lineSep);
        PrintNodeList(Find(commonDoc, searchNodeName), sb, lineSep);
        assert sb.contents == old(sb.contents) + done + fromLocal + fromCommon;
        Assoc(old(sb.contents) + done, fromLocal, fromCommon);
        Assoc(old(sb.contents), done, fromLocal + fromCommon);
        Assoc(done, fromLocal, fromCommon);
        i := i + 1;
      }
      assert names[..i] == names;
    }

    /** mergeLogConfig's choice of root: the local one, else the common one. */
    method PrintRoot(commonDoc: Node, localDoc: Node, sb: StringBuffer)
      modifies sb
      ensures sb.contents == old(sb.contents) + RootText(commonDoc, localDoc, lineSep)
    {
      var rootNode := Find(localDoc, "root");
      rootNode := if |rootNode| == 0 then Find(commonDoc, "root") else rootNode;
      if |rootNode| > 0 {
        PrintNode(rootNode[0], sb, lineSep);
      }
    }
  }
}
