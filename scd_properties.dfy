/** What the canonical formatter promises, stated over all inputs. */
module ScdProperties {
  import opened Wrappers
  import opened JsString
  import opened XmlEscape
  import opened CdataText
  import opened ScdFormatter

  // ---------------------------------------------------------------- attributes

  /** The text between the tag name and `>`: nothing without attributes, otherwise
      one space and the attributes. */
  function AttributeSuffix(attrs: seq<Attribute>): string {
    if attrs == [] then [] else " " + FormatAttributes(attrs)
  }

  /** The attribute text is empty exactly when the element has no attributes, so a
      tag without attributes has no trailing space. */
  lemma FormatAttributesEmptyIff(attrs: seq<Attribute>)
    ensures FormatAttributes(attrs) == [] <==> attrs == []
  {
    var parts := RenderedAttributes(attrs);
    if attrs != [] {
      assert |FormatAttribute(attrs[0])| >= 3;
      assert |Join(parts, " ")| >= |parts[0]|;
    }
  }

  /** Appending an attribute appends its rendering, after one space: the attributes
      appear in document order. */
  lemma FormatAttributesAppend(attrs: seq<Attribute>, a: Attribute)
    ensures FormatAttributes(attrs + [a]) ==
      FormatAttributes(attrs) + (if attrs == [] then [] else " ") + FormatAttribute(a)
  {
    assert RenderedAttributes(attrs + [a]) == RenderedAttributes(attrs) + [FormatAttribute(a)];
    JoinConcat(RenderedAttributes(attrs), [FormatAttribute(a)], " ");
  }

  /** An attribute value is written between double quotes that cannot occur inside
      it, and unescaping what is between them gives the value back. */
  lemma AttributeValueDelimited(a: Attribute)
    ensures '"' !in EscapeXML(a.value)
    ensures UnescapeXML(EscapeXML(a.value)) == a.value
  {
    EscapeXMLIsSafe(a.value);
    UnescapeEscape(a.value);
  }

  /** The line that opens an element: indentation, `<`, the tag name, the attributes, `>`. */
  function OpeningLine(tag: string, attrs: seq<Attribute>, level: nat): string {
    Indent(level) + "<" + tag + AttributeSuffix(attrs) + ">"
  }

  /** The line that closes an element, at the same indentation as its opening line. */
  function ClosingLine(tag: string, level: nat): string {
    Indent(level) + "</" + tag + ">"
  }

  lemma OpenTagShape(tag: string, attrs: seq<Attribute>, level: nat)
    ensures OpenTag(Indent(level), tag, FormatAttributes(attrs)) == OpeningLine(tag, attrs, level)
    ensures SelfClosingTag(Indent(level), tag, FormatAttributes(attrs)) == Indent(level) + "<" + tag + AttributeSuffix(attrs) + "/>"
  {
    var indent, attributes := Indent(level), FormatAttributes(attrs);
    var head := indent + "<" + tag;
    FormatAttributesEmptyIff(attrs);
    if attrs == [] {
      assert AttributeSuffix(attrs) == [] && attributes == [];
      assert head + [] == head;
    } else {
      assert AttributeSuffix(attrs) == " " + attributes && attributes != [];
      assert head + " " + attributes == head + (" " + attributes);
    }
  }

  // ---------------------------------------------------------- text, CDATA, other

  /** A blank text node yields nothing; any other yields its trimmed, escaped text,
      which starts with no whitespace (no indentation is added). */
  lemma TextNodeFormat(s: string, level: nat)
    ensures FormatNode(Text(s), level) == if IsBlank(s) then None else Some(EscapeXML(Trim(s)))
    ensures !IsBlank(s) ==> |EscapeXML(Trim(s))| > 0 && !IsWhitespace(EscapeXML(Trim(s))[0])
  {
    var t := Trim(s);
    if t != [] {
      EscapeKeepsFirstNonWhitespace(t);
    }
  }

  /** Comments and processing instructions yield nothing. */
  lemma OtherNodeFormat(level: nat)
    ensures FormatNode(Other, level) == None
  {
  }

  /** A CDATA section is one indented `<![CDATA[...]]>` whose content is the original
      with its line endings normalised and nothing escaped. */
  lemma CDataNodeFormat(d: string, level: nat)
    ensures FormatNode(CData(d), level) == Some(Indent(level) + "<![CDATA[" + NormalizedLineEnds(d) + "]]>")
    ensures '\r' !in NormalizedLineEnds(d)
  {
    NormalizeCDATAIsNormalizedLineEnds(d);
  }

  // ------------------------------------------------------------------ elements

  /** An element without child nodes is one self-closing tag at its indentation. */
  lemma SelfClosingFormat(tag: string, attrs: seq<Attribute>, level: nat)
    ensures FormatNode(Element(tag, attrs, []), level) ==
      Some(Indent(level) + "<" + tag + AttributeSuffix(attrs) + "/>")
  {
    OpenTagShape(tag, attrs, level);
  }

  /** The attribute text holds no line break when no attribute name or value does. */
  lemma AttributesKeepNewlineOut(attrs: seq<Attribute>)
    requires forall i :: 0 <= i < |attrs| ==> '\n' !in attrs[i].name && '\n' !in attrs[i].value
    ensures '\n' !in AttributeSuffix(attrs)
  {
    var parts := RenderedAttributes(attrs);
    forall i | 0 <= i < |parts| ensures '\n' !in parts[i] {
      EscapeKeepsNewlineOut(attrs[i].value);
    }
    JoinAvoids(parts, " ", '\n');
  }

  /** ... and it is a single line when neither the tag nor any attribute holds a line break. */
  lemma SelfClosingIsOneLine(tag: string, attrs: seq<Attribute>, level: nat)
    requires '\n' !in tag
    requires forall i :: 0 <= i < |attrs| ==> '\n' !in attrs[i].name && '\n' !in attrs[i].value
    ensures '\n' !in FormatNode(Element(tag, attrs, []), level).value
  {
    SelfClosingFormat(tag, attrs, level);
    AttributesKeepNewlineOut(attrs);
  }

  /** An element whose only child is non-blank text is one line holding the trimmed,
      escaped text between the opening and closing tags. */
  lemma SingleTextChildFormat(tag: string, attrs: seq<Attribute>, s: string, level: nat)
    requires !IsBlank(s)
    ensures FormatNode(Element(tag, attrs, [Text(s)]), level) ==
      Some(OpeningLine(tag, attrs, level) + EscapeXML(Trim(s)) + "</" + tag + ">")
  {
    OpenTagShape(tag, attrs, level);
  }

  /** ... which is a single line when neither the tag, nor any attribute, nor the
      trimmed text holds a line break. */
  lemma SingleTextIsOneLine(tag: string, attrs: seq<Attribute>, s: string, level: nat)
    requires !IsBlank(s)
    requires '\n' !in tag && '\n' !in Trim(s)
    requires forall i :: 0 <= i < |attrs| ==> '\n' !in attrs[i].name && '\n' !in attrs[i].value
    ensures '\n' !in FormatNode(Element(tag, attrs, [Text(s)]), level).value
  {
    var open, text := OpeningLine(tag, attrs, level), EscapeXML(Trim(s));
    SingleTextChildFormat(tag, attrs, s, level);
    assert '\n' !in open by {
      AttributesKeepNewlineOut(attrs);
      assert '\n' !in Indent(level);
    }
    assert '\n' !in text by {
      EscapeKeepsNewlineOut(Trim(s));
    }
    var close := "</" + tag + ">";
    assert '\n' !in close;
    assert '\n' !in open + text;
    assert '\n' !in open + text + close;
  }

  /** A `Private` element with a CDATA child is its opening tag, the first CDATA child
      one level deeper with normalised and unescaped content, and its closing tag,
      each on its own line; this takes precedence over the other element cases. */
  lemma PrivateCDataFormat(attrs: seq<Attribute>, cs: seq<Node>, k: nat, level: nat)
    requires k < |cs| && cs[k].CData?
    requires forall j :: 0 <= j < k ==> !cs[j].CData?
    ensures FormatNode(Element("Private", attrs, cs), level) ==
      Some(OpeningLine("Private", attrs, level) + "\n"
           + (Indent(level + 1) + "<![CDATA[" + NormalizedLineEnds(cs[k].data) + "]]>")
           + "\n" + ClosingLine("Private", level))
  {
    var indent, attributes := Indent(level), FormatAttributes(attrs);
    var cdata := FormatNode(cs[k], level + 1).value;
    assert FormatElement("Private", attrs, cs, level) ==
      OpenTag(indent, "Private", attributes) + "\n" + cdata + "\n" + CloseTag(indent, "Private") by {
      assert HasCData(cs);
      assert FirstCData(cs) == k;
    }
    assert cdata == Indent(level + 1) + "<![CDATA[" + NormalizedLineEnds(cs[k].data) + "]]>" by {
      CDataNodeFormat(cs[k].data, level + 1);
    }
    OpenTagShape("Private", attrs, level);
  }

  /** Every child of such a `Private` element other than its first CDATA section is ignored. */
  lemma PrivateIgnoresOtherChildren(attrs: seq<Attribute>, cs: seq<Node>, k: nat, level: nat)
    requires k < |cs| && cs[k].CData?
    requires forall j :: 0 <= j < k ==> !cs[j].CData?
    ensures FormatNode(Element("Private", attrs, cs), level) ==
      FormatNode(Element("Private", attrs, [cs[k]]), level)
  {
    PrivateCDataFormat(attrs, cs, k, level);
    PrivateCDataFormat(attrs, [cs[k]], 0, level);
  }

  /** Every other element: the opening tag, the outputs of the children one level
      deeper joined by line breaks, and the closing tag at the opening tag's indentation. */
  lemma GeneralElementFormat(tag: string, attrs: seq<Attribute>, cs: seq<Node>, level: nat)
    requires !(tag == "Private" && HasCData(cs))
    requires cs != []
    requires !(|cs| == 1 && cs[0].Text? && !IsBlank(cs[0].data))
    ensures FormatNode(Element(tag, attrs, cs), level) ==
      Some(OpeningLine(tag, attrs, level) + "\n" + Join(FormatChildren(cs, level + 1), "\n")
           + "\n" + ClosingLine(tag, level))
  {
    var indent, attributes := Indent(level), FormatAttributes(attrs);
    var joined := Join(FormatChildren(cs, level + 1), "\n");
    assert FormatElement(tag, attrs, cs, level) ==
      OpenTag(indent, tag, attributes) + "\n" + joined + "\n" + CloseTag(indent, tag) by {
      if |cs| == 1 && cs[0].Text? {
      }
    }
    OpenTagShape(tag, attrs, level);
  }

  /** An element whose single child is blank text (or a comment) is not self-closed:
      it becomes an opening tag, an empty line and a closing tag. */
  lemma BlankOnlyChildFormat(tag: string, attrs: seq<Attribute>, c: Node, level: nat)
    requires c.Other? || (c.Text? && IsBlank(c.data))
    ensures FormatNode(Element(tag, attrs, [c]), level) ==
      Some(OpeningLine(tag, attrs, level) + "\n" + "\n" + ClosingLine(tag, level))
  {
    assert !HasCData([c]);
    assert FormatChildren([c], level + 1) == [] by {
      assert FormatNode(c, level + 1) == None;
      assert [c][1..] == [];
    }
    GeneralElementFormat(tag, attrs, [c], level);
    var open := OpeningLine(tag, attrs, level);
    assert open + "\n" + [] == open + "\n";
  }

  /** The child lines are exactly the outputs of the significant children, in order:
      blank text, comments and processing instructions are dropped. */
  lemma {:induction false} FormatChildrenSignificant(cs: seq<Node>, level: nat)
    ensures forall i :: 0 <= i < |FormatChildren(cs, level)| ==>
      FormatNode(SignificantChildren(cs)[i], level) == Some(FormatChildren(cs, level)[i])
    ensures FormatChildren(SignificantChildren(cs), level) == FormatChildren(cs, level)
    decreases cs
  {
    if cs != [] {
      FormatChildrenSignificant(cs[1..], level);
      var sig := SignificantChildren(cs[1..]);
      if Significant(cs[0]) {
        assert SignificantChildren(cs) == [cs[0]] + sig;
        assert ([cs[0]] + sig)[1..] == sig;
        assert ([cs[0]] + sig)[0] == cs[0];
      } else {
        assert SignificantChildren(cs) == sig;
        assert FormatChildren(cs, level) == FormatChildren(cs[1..], level);
      }
    }
  }

  lemma StartsWithExtend(s: string, p: string, x: string)
    requires StartsWith(s, p)
    ensures StartsWith(s + x, p)
  {
    assert (s + x)[..|p|] == s[..|p|];
  }

  lemma StartsWithAt(s: string, p: string, i: nat)
    requires StartsWith(s, p) && i < |p|
    ensures s[i] == p[i]
  {
    assert s[..|p|][i] == s[i];
  }

  /** A formatted element starts with its indentation and its opening tag's name. */
  lemma ElementStartsWithTag(n: Node, level: nat)
    requires n.Element?
    ensures StartsWith(FormatNode(n, level).value, Indent(level) + "<" + n.tagName)
  {
    var tag, attrs, cs := n.tagName, n.attributes, n.childNodes;
    if tag == "Private" && HasCData(cs) {
      PrivateStartsWithTag(attrs, cs, level);
    } else if cs == [] {
      SelfClosingStartsWithTag(tag, attrs, level);
    } else if |cs| == 1 && cs[0].Text? && !IsBlank(cs[0].data) {
      assert cs == [Text(cs[0].data)];
      SingleTextStartsWithTag(tag, attrs, cs[0].data, level);
    } else {
      GeneralStartsWithTag(tag, attrs, cs, level);
    }
  }

  lemma OpeningLineStartsWithTag(tag: string, attrs: seq<Attribute>, level: nat)
    ensures StartsWith(OpeningLine(tag, attrs, level), Indent(level) + "<" + tag)
    ensures StartsWith(Indent(level) + "<" + tag + AttributeSuffix(attrs), Indent(level) + "<" + tag)
  {
    var head := Indent(level) + "<" + tag;
    assert StartsWith(head, head);
    StartsWithExtend(head, head, AttributeSuffix(attrs));
    StartsWithExtend(head + AttributeSuffix(attrs), head, ">");
  }

  /** Appending lines after a line keeps its prefix. */
  lemma StartsWithLines(open: string, head: string, middle: string, close: string)
    requires StartsWith(open, head)
    ensures StartsWith(open + "\n" + middle + "\n" + close, head)
  {
    StartsWithExtend(open, head, "\n");
    StartsWithExtend(open + "\n", head, middle);
    StartsWithExtend(open + "\n" + middle, head, "\n");
    StartsWithExtend(open + "\n" + middle + "\n", head, close);
  }

  lemma PrivateStartsWithTag(attrs: seq<Attribute>, cs: seq<Node>, level: nat)
    requires HasCData(cs)
    ensures StartsWith(FormatNode(Element("Private", attrs, cs), level).value, Indent(level) + "<Private")
  {
    var k := FirstCData(cs);
    PrivateCDataFormat(attrs, cs, k, level);
    OpeningLineStartsWithTag("Private", attrs, level);
    StartsWithLines(OpeningLine("Private", attrs, level), Indent(level) + "<Private",
      Indent(level + 1) + "<![CDATA[" + NormalizedLineEnds(cs[k].data) + "]]>", ClosingLine("Private", level));
  }

  lemma SelfClosingStartsWithTag(tag: string, attrs: seq<Attribute>, level: nat)
    ensures StartsWith(FormatNode(Element(tag, attrs, []), level).value, Indent(level) + "<" + tag)
  {
    var head := Indent(level) + "<" + tag;
    SelfClosingFormat(tag, attrs, level);
    OpeningLineStartsWithTag(tag, attrs, level);
    StartsWithExtend(head + AttributeSuffix(attrs), head, "/>");
  }

  lemma SingleTextStartsWithTag(tag: string, attrs: seq<Attribute>, s: string, level: nat)
    requires !IsBlank(s)
    ensures StartsWith(FormatNode(Element(tag, attrs, [Text(s)]), level).value, Indent(level) + "<" + tag)
  {
    var head := Indent(level) + "<" + tag;
    var open := OpeningLine(tag, attrs, level);
    SingleTextChildFormat(tag, attrs, s, level);
    OpeningLineStartsWithTag(tag, attrs, level);
    var text := EscapeXML(Trim(s));
    StartsWithExtend(open, head, text);
    StartsWithExtend(open + text, head, "</" + tag + ">");
  }

  lemma GeneralStartsWithTag(tag: string, attrs: seq<Attribute>, cs: seq<Node>, level: nat)
    requires !(tag == "Private" && HasCData(cs))
    requires cs != []
    requires !(|cs| == 1 && cs[0].Text? && !IsBlank(cs[0].data))
    ensures StartsWith(FormatNode(Element(tag, attrs, cs), level).value, Indent(level) + "<" + tag)
  {
    GeneralElementFormat(tag, attrs, cs, level);
    OpeningLineStartsWithTag(tag, attrs, level);
    StartsWithLines(OpeningLine(tag, attrs, level), Indent(level) + "<" + tag,
      Join(FormatChildren(cs, level + 1), "\n"), ClosingLine(tag, level));
  }

  // ------------------------------------------- independence from source formatting

  /** Some child is markup: an element or a CDATA section. */
  predicate HasMarkup(cs: seq<Node>) {
    exists i :: 0 <= i < |cs| && (cs[i].Element? || cs[i].CData?)
  }

  /** Trees that differ only in layout: in whitespace around text, in the line
      endings of CDATA sections and, among children that include markup, in blank
      text and comments between the significant children (which is what
      re-indenting the source text changes). */
  predicate SameContent(a: Node, b: Node)
    decreases a
  {
    match a
    case Text(x) => b.Text? && Trim(x) == Trim(b.data)
    case CData(x) => b.CData? && NormalizedLineEnds(x) == NormalizedLineEnds(b.data)
    case Other => b.Other?
    case Element(tag, attrs, cs) =>
      b.Element? && b.tagName == tag && b.attributes == attrs
      && ((|cs| == |b.childNodes| && forall i :: 0 <= i < |cs| ==> SameContent(cs[i], b.childNodes[i]))
          || (var sc, sd := SignificantChildren(cs), SignificantChildren(b.childNodes);
              HasMarkup(cs) && |sc| == |sd| && forall i :: 0 <= i < |sc| ==> SameContent(sc[i], sd[i])))
  }

  /** The output does not depend on how the source text was laid out: such trees
      are formatted identically. */
  lemma {:induction false} SameContentFormatsAlike(a: Node, b: Node, level: nat)
    requires SameContent(a, b)
    ensures FormatNode(a, level) == FormatNode(b, level)
    decreases a, 2
  {
    match a
    case Text(x) =>
    case CData(x) =>
      CDataNodeFormat(x, level);
      CDataNodeFormat(b.data, level);
    case Other =>
    case Element(tag, attrs, cs) =>
      var ds := b.childNodes;
      assert b == Element(tag, attrs, ds);
      if |cs| == |ds| && forall i :: 0 <= i < |cs| ==> SameContent(cs[i], ds[i]) {
        SameElementFormatsAlike(tag, attrs, cs, ds, level);
      } else {
        SameMarkupFormatsAlike(tag, attrs, cs, ds, level);
      }
  }

  lemma {:induction false} SameElementFormatsAlike(tag: string, attrs: seq<Attribute>, cs: seq<Node>, ds: seq<Node>, level: nat)
    requires |cs| == |ds| && forall i :: 0 <= i < |cs| ==> SameContent(cs[i], ds[i])
    ensures FormatElement(tag, attrs, cs, level) == FormatElement(tag, attrs, ds, level)
    decreases cs, 1
  {
    SameCDataPositions(cs, ds);
    if tag == "Private" && HasCData(cs) {
      var k := FirstCData(cs);
      SameContentFormatsAlike(cs[k], ds[k], level + 1);
      SamePrivateFormatsAlike(attrs, cs, ds, level);
    } else if |cs| == 0 {
    } else if |cs| == 1 && cs[0].Text? {
      assert SameContent(cs[0], ds[0]);
      SameSingleChildFormatsAlike(tag, attrs, cs, ds, level);
    } else {
      SameChildrenFormatAlike(cs, ds, level + 1);
      assert |cs| == 1 ==> SameContent(cs[0], ds[0]);
      SameGeneralFormatsAlike(tag, attrs, cs, ds, level);
    }
  }

  /** Corresponding children are CDATA sections, and markup, at the same positions. */
  lemma SameCDataPositions(cs: seq<Node>, ds: seq<Node>)
    requires |cs| == |ds| && forall i :: 0 <= i < |cs| ==> SameContent(cs[i], ds[i])
    ensures HasCData(cs) <==> HasCData(ds)
    ensures HasCData(cs) ==> FirstCData(cs) == FirstCData(ds)
    ensures HasMarkup(cs) <==> HasMarkup(ds)
  {
    assert forall i :: 0 <= i < |cs| ==>
      (cs[i].CData? <==> ds[i].CData?) && (cs[i].Element? <==> ds[i].Element?) by {
      forall i | 0 <= i < |cs| ensures (cs[i].CData? <==> ds[i].CData?) && (cs[i].Element? <==> ds[i].Element?) {
        assert SameContent(cs[i], ds[i]);
      }
    }
    if HasCData(cs) {
      var i :| 0 <= i < |cs| && cs[i].CData?;
      assert ds[i].CData?;
    }
    if HasCData(ds) {
      var i :| 0 <= i < |ds| && ds[i].CData?;
      assert cs[i].CData?;
    }
    if HasMarkup(cs) {
      var i :| 0 <= i < |cs| && (cs[i].Element? || cs[i].CData?);
      assert ds[i].Element? || ds[i].CData?;
    }
    if HasMarkup(ds) {
      var i :| 0 <= i < |ds| && (ds[i].Element? || ds[i].CData?);
      assert cs[i].Element? || cs[i].CData?;
    }
  }

  /** A child list seen from its first child. */
  lemma ConsChildren(c: Node, x: seq<Node>)
    ensures HasCData([c] + x) <==> c.CData? || HasCData(x)
    ensures HasMarkup([c] + x) <==> c.Element? || c.CData? || HasMarkup(x)
    ensures c.CData? ==> FirstCData([c] + x) == 0
    ensures !c.CData? && HasCData(x) ==>
      FirstCData([c] + x) == 1 + FirstCData(x) && ([c] + x)[FirstCData([c] + x)] == x[FirstCData(x)]
    ensures SignificantChildren([c] + x) == (if Significant(c) then [c] else []) + SignificantChildren(x)
  {
    var s := [c] + x;
    assert s[0] == c && s[1..] == x;
    if !c.CData? && HasCData(x) {
      assert s[1 + FirstCData(x)] == x[FirstCData(x)];
    }
    if HasCData(x) {
      var i :| 0 <= i < |x| && x[i].CData?;
      assert s[i + 1] == x[i];
    }
    if HasCData(s) && !c.CData? {
      var i :| 0 <= i < |s| && s[i].CData?;
      assert x[i - 1] == s[i];
    }
    if HasMarkup(x) {
      var i :| 0 <= i < |x| && (x[i].Element? || x[i].CData?);
      assert s[i + 1] == x[i];
    }
    if HasMarkup(s) && !c.Element? && !c.CData? {
      var i :| 0 <= i < |s| && (s[i].Element? || s[i].CData?);
      assert x[i - 1] == s[i];
    }
  }

  /** Dropping the blank text and comments keeps the markup, and the first CDATA
      section, of a child list. */
  lemma {:induction false} SignificantKeepsMarkup(cs: seq<Node>)
    ensures HasCData(SignificantChildren(cs)) <==> HasCData(cs)
    ensures HasMarkup(SignificantChildren(cs)) <==> HasMarkup(cs)
    ensures HasCData(cs) ==> SignificantChildren(cs)[FirstCData(SignificantChildren(cs))] == cs[FirstCData(cs)]
    decreases cs
  {
    if cs != [] {
      var c, rest := cs[0], cs[1..];
      var sig := SignificantChildren(rest);
      assert cs == [c] + rest;
      ConsChildren(c, rest);
      SignificantKeepsMarkup(rest);
      if Significant(c) {
        ConsChildren(c, sig);
        assert SignificantChildren(cs) == [c] + sig;
      } else {
        assert SignificantChildren(cs) == sig;
      }
    }
  }

  lemma SamePrivateFormatsAlike(attrs: seq<Attribute>, cs: seq<Node>, ds: seq<Node>, level: nat)
    requires HasCData(cs) && HasCData(ds)
    requires FormatNode(cs[FirstCData(cs)], level + 1) == FormatNode(ds[FirstCData(ds)], level + 1)
    ensures FormatElement("Private", attrs, cs, level) == FormatElement("Private", attrs, ds, level)
  {
  }

  lemma SameSingleChildFormatsAlike(tag: string, attrs: seq<Attribute>, cs: seq<Node>, ds: seq<Node>, level: nat)
    requires !(tag == "Private" && HasCData(cs)) && !(tag == "Private" && HasCData(ds))
    requires |cs| == 1 && |ds| == 1 && cs[0].Text? && ds[0].Text? && Trim(cs[0].data) == Trim(ds[0].data)
    requires Trim(cs[0].data) == [] ==> FormatChildren(cs, level + 1) == FormatChildren(ds, level + 1)
    ensures FormatElement(tag, attrs, cs, level) == FormatElement(tag, attrs, ds, level)
  {
  }

  lemma SameGeneralFormatsAlike(tag: string, attrs: seq<Attribute>, cs: seq<Node>, ds: seq<Node>, level: nat)
    requires !(tag == "Private" && HasCData(cs)) && !(tag == "Private" && HasCData(ds))
    requires cs != [] && |cs| == |ds| && (|cs| == 1 ==> (cs[0].Text? <==> ds[0].Text?))
    requires !(|cs| == 1 && cs[0].Text?)
    requires FormatChildren(cs, level + 1) == FormatChildren(ds, level + 1)
    ensures FormatElement(tag, attrs, cs, level) == FormatElement(tag, attrs, ds, level)
  {
  }

  /** Elements whose children hold markup and whose significant children correspond
      are formatted alike, whatever blank text and comments lie between them. */
  lemma {:induction false} SameMarkupFormatsAlike(tag: string, attrs: seq<Attribute>, cs: seq<Node>, ds: seq<Node>, level: nat)
    requires HasMarkup(cs)
    requires |SignificantChildren(cs)| == |SignificantChildren(ds)|
    requires forall i :: 0 <= i < |SignificantChildren(cs)| ==>
      SameContent(SignificantChildren(cs)[i], SignificantChildren(ds)[i])
    ensures FormatElement(tag, attrs, cs, level) == FormatElement(tag, attrs, ds, level)
    decreases cs, 1
  {
    var sc, sd := SignificantChildren(cs), SignificantChildren(ds);
    forall i | 0 <= i < |sc| ensures FormatNode(sc[i], level + 1) == FormatNode(sd[i], level + 1) {
      assert sc[i] in cs;
      SameContentFormatsAlike(sc[i], sd[i], level + 1);
    }
    SignificantFormatsAlike(tag, attrs, cs, ds, level);
  }

  /** ... which holds once their significant children are formatted pairwise alike. */
  lemma SignificantFormatsAlike(tag: string, attrs: seq<Attribute>, cs: seq<Node>, ds: seq<Node>, level: nat)
    requires HasMarkup(cs)
    requires |SignificantChildren(cs)| == |SignificantChildren(ds)|
    requires forall i :: 0 <= i < |SignificantChildren(cs)| ==>
      SameContent(SignificantChildren(cs)[i], SignificantChildren(ds)[i])
    requires forall i :: 0 <= i < |SignificantChildren(cs)| ==>
      FormatNode(SignificantChildren(cs)[i], level + 1) == FormatNode(SignificantChildren(ds)[i], level + 1)
    ensures FormatElement(tag, attrs, cs, level) == FormatElement(tag, attrs, ds, level)
  {
    var sc, sd := SignificantChildren(cs), SignificantChildren(ds);
    SignificantKeepsMarkup(cs);
    SignificantKeepsMarkup(ds);
    SameCDataPositions(sc, sd);
    if tag == "Private" && HasCData(cs) {
      var k := FirstCData(sc);
      assert FormatNode(cs[FirstCData(cs)], level + 1) == FormatNode(ds[FirstCData(ds)], level + 1) by {
        assert cs[FirstCData(cs)] == sc[k] && ds[FirstCData(ds)] == sd[k];
        assert FormatNode(sc[k], level + 1) == FormatNode(sd[k], level + 1);
      }
      SamePrivateFormatsAlike(attrs, cs, ds, level);
    } else {
      ChildrenFormatAlike(sc, sd, level + 1);
      FormatChildrenSignificant(cs, level + 1);
      FormatChildrenSignificant(ds, level + 1);
      MarkupGeneralFormatsAlike(tag, attrs, cs, ds, level);
    }
  }

  lemma MarkupGeneralFormatsAlike(tag: string, attrs: seq<Attribute>, cs: seq<Node>, ds: seq<Node>, level: nat)
    requires !(tag == "Private" && HasCData(cs)) && !(tag == "Private" && HasCData(ds))
    requires HasMarkup(cs) && HasMarkup(ds)
    requires FormatChildren(cs, level + 1) == FormatChildren(ds, level + 1)
    ensures FormatElement(tag, attrs, cs, level) == FormatElement(tag, attrs, ds, level)
  {
    var i :| 0 <= i < |cs| && (cs[i].Element? || cs[i].CData?);
    var j :| 0 <= j < |ds| && (ds[j].Element? || ds[j].CData?);
    assert |cs| == 1 ==> !cs[0].Text? by {
      if |cs| == 1 { assert i == 0; }
    }
    assert |ds| == 1 ==> !ds[0].Text? by {
      if |ds| == 1 { assert j == 0; }
    }
  }

  /** Child lists whose children are formatted pairwise alike are formatted alike. */
  lemma {:induction false} ChildrenFormatAlike(cs: seq<Node>, ds: seq<Node>, level: nat)
    requires |cs| == |ds| && forall i :: 0 <= i < |cs| ==> FormatNode(cs[i], level) == FormatNode(ds[i], level)
    ensures FormatChildren(cs, level) == FormatChildren(ds, level)
    decreases cs
  {
    if cs != [] {
      assert FormatNode(cs[0], level) == FormatNode(ds[0], level);
      assert forall i :: 0 <= i < |cs[1..]| ==> FormatNode(cs[1..][i], level) == FormatNode(ds[1..][i], level) by {
        forall i | 0 <= i < |cs[1..]| ensures FormatNode(cs[1..][i], level) == FormatNode(ds[1..][i], level) {
          assert FormatNode(cs[i + 1], level) == FormatNode(ds[i + 1], level);
        }
      }
      ChildrenFormatAlike(cs[1..], ds[1..], level);
    }
  }

  /** A layout difference the output keeps: an element without child nodes is
      self-closed, while one whose only child is blank text is not. */
  lemma EmptyAndBlankElementsDiffer(tag: string, attrs: seq<Attribute>, s: string, level: nat)
    requires IsBlank(s)
    ensures FormatNode(Element(tag, attrs, []), level) != FormatNode(Element(tag, attrs, [Text(s)]), level)
  {
    SelfClosingFormat(tag, attrs, level);
    BlankOnlyChildFormat(tag, attrs, Text(s), level);
    var selfClosed := Indent(level) + "<" + tag + AttributeSuffix(attrs) + "/>";
    var blankLines := OpeningLine(tag, attrs, level) + "\n" + "\n" + ClosingLine(tag, level);
    assert |blankLines| > |selfClosed|;
  }

  /** Every tree has the same content as itself. */
  lemma {:induction false} SameContentReflexive(a: Node)
    ensures SameContent(a, a)
    decreases a
  {
    if a.Element? {
      forall i | 0 <= i < |a.childNodes| ensures SameContent(a.childNodes[i], a.childNodes[i]) {
        SameContentReflexive(a.childNodes[i]);
      }
    }
  }

  /** Blank text and comments among children that include markup are ignored:
      only the significant children decide the output. */
  lemma InsignificantChildrenIgnored(tag: string, attrs: seq<Attribute>, cs: seq<Node>, ds: seq<Node>, level: nat)
    requires HasMarkup(cs) && SignificantChildren(cs) == SignificantChildren(ds)
    ensures FormatNode(Element(tag, attrs, cs), level) == FormatNode(Element(tag, attrs, ds), level)
  {
    var sc := SignificantChildren(cs);
    forall i | 0 <= i < |sc| ensures SameContent(sc[i], sc[i]) {
      SameContentReflexive(sc[i]);
    }
    SameContentFormatsAlike(Element(tag, attrs, cs), Element(tag, attrs, ds), level);
  }

  /** Re-indenting: a compact element and the same element with a line break and
      indentation around its child element. */
  lemma ReindentedElementsFormatAlike(level: nat)
    ensures FormatNode(Element("A", [], [Element("B", [], [])]), level) ==
            FormatNode(Element("A", [], [Text("\n  "), Element("B", [], []), Text("\n")]), level)
  {
    var b := Element("B", [], []);
    var cs, ds := [b], [Text("\n  "), b, Text("\n")];
    assert !Significant(Text("\n  ")) by {
      assert IsWhitespace('\n') && IsWhitespace(' ');
      assert "\n  "[0] == '\n' && "\n  "[1] == ' ' && "\n  "[2] == ' ';
    }
    assert !Significant(Text("\n")) by {
      assert IsWhitespace('\n');
      assert "\n"[0] == '\n';
    }
    assert SignificantChildren(cs) == [b] by {
      assert cs[1..] == [];
    }
    assert SignificantChildren(ds) == [b] by {
      var t := [Text("\n")];
      assert t[1..] == [];
      assert SignificantChildren(t) == [];
      assert ds[1..] == [b] + t;
      assert ([b] + t)[1..] == t;
      assert SignificantChildren([b] + t) == [b];
    }
    assert HasMarkup(cs) by { assert cs[0].Element?; }
    InsignificantChildrenIgnored("A", [], cs, ds, level);
  }

  lemma {:induction false} SameChildrenFormatAlike(cs: seq<Node>, ds: seq<Node>, level: nat)
    requires |cs| == |ds| && forall i :: 0 <= i < |cs| ==> SameContent(cs[i], ds[i])
    ensures FormatChildren(cs, level) == FormatChildren(ds, level)
    decreases cs, 0
  {
    if cs != [] {
      SameContentFormatsAlike(cs[0], ds[0], level);
      assert forall i :: 0 <= i < |cs[1..]| ==> SameContent(cs[1..][i], ds[1..][i]) by {
        forall i | 0 <= i < |cs[1..]| ensures SameContent(cs[1..][i], ds[1..][i]) {
          assert SameContent(cs[i + 1], ds[i + 1]);
        }
      }
      SameChildrenFormatAlike(cs[1..], ds[1..], level);
    }
  }

  // -------------------------------------------------------------- the document

  /** A root element has a name starting with neither `?` nor nothing, so its
      formatting never already begins with the declaration: the declaration is
      prepended exactly once, followed by the formatted root and a newline. */
  lemma DeclarationPrependedOnce(root: Node)
    requires root.Element? && root.tagName != [] && root.tagName[0] != '?'
    ensures FormatNewSCD(root) == XmlDeclaration + FormatNode(root, 0).value + "\n"
    ensures !StartsWith(FormatNewSCD(root)[|XmlDeclaration|..], XmlDeclaration)
  {
    var f := FormatNode(root, 0).value;
    var formatted := f + "\n";
    ElementStartsWithTag(root, 0);
    assert Indent(0) == [];
    assert formatted[1] == f[1] == root.tagName[0];
    if StartsWith(formatted, XmlDeclaration) {
      StartsWithAt(formatted, XmlDeclaration, 1);
      assert false;
    }
    assert FormatNewSCD(root)[|XmlDeclaration|..] == formatted;
  }
}
