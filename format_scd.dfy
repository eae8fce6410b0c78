/** The canonical XML formatter of mbg-format-scd.js: `formatAttributes`,
    `formatNode` and `formatNewSCD`, over an already parsed DOM tree. */
module ScdFormatter {
  import opened Wrappers
  import opened JsString
  import opened XmlEscape
  import opened CdataText

  /** An attribute of an element, in document order. */
  datatype Attribute = Attribute(name: string, value: string)

  /** The DOM nodes the formatter distinguishes by `nodeType`. `Other` stands for
      every other node type (comments, processing instructions), which the
      formatter drops but which still count among an element's `childNodes`. */
  datatype Node =
    | Text(data: string)
    | CData(data: string)
    | Element(tagName: string, attributes: seq<Attribute>, childNodes: seq<Node>)
    | Other

  const INDENT: string := "  "

  /** `INDENT.repeat(indentLevel)`: two spaces per level. */
  function Indent(level: nat): (r: string)
    ensures |r| == 2 * level
    ensures forall c :: c in r ==> c == ' '
  {
    Repeat(INDENT, level)
  }

  /** One attribute as `name="escaped value"`. */
  function FormatAttribute(a: Attribute): string {
    a.name + "=\"" + EscapeXML(a.value) + "\""
  }

  function RenderedAttributes(attrs: seq<Attribute>): (r: seq<string>)
    ensures |r| == |attrs|
    ensures forall i :: 0 <= i < |attrs| ==> r[i] == FormatAttribute(attrs[i])
  {
    if attrs == [] then [] else [FormatAttribute(attrs[0])] + RenderedAttributes(attrs[1..])
  }

  /** `formatAttributes`: the rendered attributes in document order, separated by one space. */
  function FormatAttributes(attrs: seq<Attribute>): string {
    Join(RenderedAttributes(attrs), " ")
  }

  /** `<tag attrs>`, with no space when the attribute text is empty. */
  function OpenTag(indent: string, tag: string, attributes: string): string {
    if attributes != [] then indent + "<" + tag + " " + attributes + ">"
    else indent + "<" + tag + ">"
  }

  /** `<tag attrs/>`, with no space when the attribute text is empty. */
  function SelfClosingTag(indent: string, tag: string, attributes: string): string {
    if attributes != [] then indent + "<" + tag + " " + attributes + "/>"
    else indent + "<" + tag + "/>"
  }

  function CloseTag(indent: string, tag: string): string {
    indent + "</" + tag + ">"
  }

  /** Some child is a CDATA section. */
  predicate HasCData(cs: seq<Node>) {
    exists i :: 0 <= i < |cs| && cs[i].CData?
  }

  /** The position of the first CDATA child, the one the `Private` case writes out. */
  function FirstCData(cs: seq<Node>): (k: nat)
    requires HasCData(cs)
    ensures k < |cs| && cs[k].CData?
    ensures forall j :: 0 <= j < k ==> !cs[j].CData?
  {
    if cs[0].CData? then 0
    else
      assert HasCData(cs[1..]) by {
        var i :| 0 <= i < |cs| && cs[i].CData?;
        assert cs[1..][i - 1] == cs[i];
      }
      1 + FirstCData(cs[1..])
  }

  /** A child that produces output: an element, a CDATA section or non-blank text. */
  predicate Significant(n: Node) {
    n.Element? || n.CData? || (n.Text? && !IsBlank(n.data))
  }

  /** The children that produce output, in document order. */
  function SignificantChildren(cs: seq<Node>): (r: seq<Node>)
    ensures forall i :: 0 <= i < |r| ==> Significant(r[i]) && r[i] in cs
    ensures |r| <= |cs|
  {
    if cs == [] then []
    else (if Significant(cs[0]) then [cs[0]] else []) + SignificantChildren(cs[1..])
  }

  /** `formatNode(node, indentLevel)`, `None` standing for its `null` result. */
  function FormatNode(n: Node, level: nat): (r: Option<string>)
    ensures r.Some? <==> Significant(n)
    decreases n, 2
  {
    match n
    case Text(data) => FormatText(data)
    case CData(data) => Some(FormatCData(data, level))
    case Element(tagName, attrs, children) => Some(FormatElement(tagName, attrs, children, level))
    case Other => None
  }

  /** A text node: its trimmed, escaped content, or `null` when that is empty. */
  function FormatText(data: string): (r: Option<string>)
    ensures r.Some? <==> !IsBlank(data)
  {
    var textContent := Trim(data);
    if textContent != [] then Some(EscapeXML(textContent)) else None
  }

  /** A CDATA section: indented, with normalised line endings and no escaping. */
  function FormatCData(data: string, level: nat): string {
    var content := NormalizeCDATA(data);
    Indent(level) + "<![CDATA[" + content + "]]>"
  }

  /** The four element cases, tried in the source's order. */
  function FormatElement(tagName: string, attrs: seq<Attribute>, children: seq<Node>, level: nat): string
    decreases children, 1
  {
    var indent := Indent(level);
    var attributes := FormatAttributes(attrs);
    if tagName == "Private" && HasCData(children) then
      // the Private element with CDATA content
      var openingTag := OpenTag(indent, tagName, attributes);
      var cdataNode := children[FirstCData(children)];
      var cdataContent := FormatNode(cdataNode, level + 1).value;
      openingTag + "\n" + cdataContent + "\n" + CloseTag(indent, tagName)
    else if |children| == 0 then
      // self-closing
      SelfClosingTag(indent, tagName, attributes)
    else if |children| == 1 && children[0].Text? && Trim(children[0].data) != [] then
      // a single text child with a value
      var textContent := EscapeXML(Trim(children[0].data));
      OpenTag(indent, tagName, attributes) + textContent + "</" + tagName + ">"
    else
      var openingTag := OpenTag(indent, tagName, attributes);
      var closingTag := CloseTag(indent, tagName);
      var formattedChildren := Join(FormatChildren(children, level + 1), "\n");
      openingTag + "\n" + formattedChildren + "\n" + closingTag
  }

  /** The outputs of the children one level deeper, with the `null` results
      dropped: one line per significant child. */
  function FormatChildren(cs: seq<Node>, level: nat): (r: seq<string>)
    ensures |r| == |SignificantChildren(cs)|
    decreases cs, 0
  {
    if cs == [] then []
    else
      var head := match FormatNode(cs[0], level) case Some(s) => [s] case None => [];
      head + FormatChildren(cs[1..], level)
  }

  const XmlDeclaration: string := "<?xml version=\"1.0\" encoding=\"utf-8\"?>\n"

  /** `formatNewSCD` applied to a document whose root element is `root`: the
      formatted root and a newline, with the XML declaration prepended when the
      text does not already start with it. The result always starts with the
      declaration and ends with a newline. */
  function FormatNewSCD(root: Node): (r: string)
    requires root.Element?
    ensures StartsWith(r, XmlDeclaration)
    ensures |r| > 0 && r[|r| - 1] == '\n'
  {
    var formatted := FormatNode(root, 0).value + "\n";
    if !StartsWith(formatted, XmlDeclaration) then
      var r := XmlDeclaration + formatted;
      assert r[..|XmlDeclaration|] == XmlDeclaration;
      r
    else formatted
  }
}
