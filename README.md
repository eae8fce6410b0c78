# Canonical SCD formatter of mbg-ied-extractor, modelled in Dafny

The IED extractor writes the configuration of a single device out as a new SCL
document (`.cid`). Its formatter, `formatNewSCD` in `mbg-format-scd.js`, turns a
parsed DOM tree into text that is deterministic and indented. This project models
that formatter on an already parsed tree and proves what it does:

- `escapeXML`: five global replacements, `&` first. The model writes them as the
  same chain of literal replacements. It proves that the chain equals a
  character-by-character substitution. It also proves that the output holds no
  raw `<`, `>`, `"` or `'`, that every `&` in the output begins an entity, and that
  the reverse chain of replacements gives the input back exactly.
- `normalizeCDATA`: CRLF to LF, then CR to LF. The model proves that this equals a
  one-pass line-ending normalisation, that the result has no CR, and that the
  rewrite is the identity on text without CR and so is idempotent.
- `formatAttributes`: `name="escaped value"` in document order, separated by one
  space. The result is empty exactly when there are no attributes.
- `formatNode`: text, CDATA and other nodes, and the four element cases in the
  source's order: `Private` with CDATA, no children (self-closing), a single
  non-blank text child (one line), and the general multi-line case.
- `formatNewSCD`: the formatted root element and a newline. The XML declaration
  is prepended whenever the text does not already start with it.

Files (one module each):

- `wrappers.dfy` (`Wrappers`): `Option`, standing in for the source's `null` results.
- `jsstring.dfy` (`JsString`): the JavaScript string operations the source uses.
  These are `replace` with a global literal pattern, `trim` with the exact
  ECMAScript whitespace set, `join`, `repeat` and `startsWith`.
- `escape.dfy` (`XmlEscape`): `escapeXML` and its properties.
- `cdata.dfy` (`CdataText`): `normalizeCDATA` and its properties.
- `format_scd.dfy` (`ScdFormatter`): the DOM datatype, `formatAttributes`,
  `formatNode` and `formatNewSCD`.
- `scd_properties.dfy` (`ScdProperties`): lemmas about the formatter, one group per case.

The DOM is a datatype. It has `Text(data)`, `CData(data)`,
`Element(tagName, attributes, childNodes)` and `Other`. `Other` stands for
comments and processing instructions. The formatter drops them, but they still
count in `childNodes.length`.

An element is self-closed only when it has no child nodes at all:
`children.length === 0` (mbg-format-scd.js:60) is the only self-closing case.
An element whose only child is blank text or a comment is therefore written as
opening tag, empty line, closing tag; `ScdProperties.BlankOnlyChildFormat` states
this. Likewise, the one-line form needs exactly one child node, a non-blank text
(mbg-format-scd.js:68): a text child next to a comment gives the multi-line form.

## Model

| member | source | states |
|---|---|---|
| `XmlEscape.EscapeXMLIsEscaped` | mbg-format-scd.js:2-9 | the chain of five global replacements, `&` first, equals replacing each reserved character by its entity and keeping every other character |
| `XmlEscape.EscapeXMLIsSafe` | mbg-format-scd.js:2-9 | escaped text contains no raw `<`, `>`, `"` or `'`, and every `&` in it begins one of `&amp;` `&lt;` `&gt;` `&quot;` `&apos;` |
| `XmlEscape.UnescapeEscape` | mbg-format-scd.js:2-9 | replacing the five entities in reverse order (`&amp;` last) gives back exactly the original text, so an `&` is never escaped twice |
| `XmlEscape.EscapeIdentity` | mbg-format-scd.js:2-9 | text with none of the five reserved characters is unchanged by escaping |
| `XmlEscape.EscapeKeepsNewlineOut` | mbg-format-scd.js:2-9 | escaping adds no line break |
| `CdataText.NormalizeCDATA` | mbg-format-scd.js:12-15 | the normalised content contains no CR |
| `CdataText.NormalizeCDATAIsNormalizedLineEnds` | mbg-format-scd.js:12-15 | the two replacements equal a one-pass rewrite in which each CRLF and each lone CR becomes one LF and every other character is kept |
| `CdataText.NormalizeKeepsOtherChars` | mbg-format-scd.js:12-15 | normalisation leaves every character other than CR and LF in place and in order |
| `CdataText.NormalizeCDATAIdentity` | mbg-format-scd.js:12-15 | content without CR is unchanged |
| `CdataText.NormalizeCDATAIdempotent` | mbg-format-scd.js:12-15 | normalising twice gives the same as normalising once |
| `JsString.Trim` | mbg-format-scd.js:30 | the trimmed text is empty exactly when the text is all whitespace, and otherwise neither starts nor ends with whitespace |
| `JsString.TrimSurroundings` | mbg-format-scd.js:30 | the text is leading whitespace, then the trimmed text, then trailing whitespace |
| `ScdProperties.FormatAttributesEmptyIff` | mbg-format-scd.js:18-22 | the attribute text is empty exactly when the element has no attributes |
| `ScdProperties.FormatAttributesAppend` | mbg-format-scd.js:18-22 | adding an attribute at the end adds its `name="value"` at the end, after one space: document order is kept |
| `ScdProperties.AttributeValueDelimited` | mbg-format-scd.js:20 | the escaped value contains no `"`, so the quotes delimit it, and unescaping it gives the value back |
| `ScdProperties.OpenTagShape` | mbg-format-scd.js:49-51 | the opening and self-closing tags have no space before `>` or `/>` when there are no attributes, and one space before the attributes otherwise |
| `ScdFormatter.FormatNode` | mbg-format-scd.js:25-91 | a node yields output (not `null`) exactly when it is an element, a CDATA section or non-blank text |
| `ScdFormatter.FormatText` | mbg-format-scd.js:29-32 | a text node yields `null` exactly when its content is blank |
| `ScdProperties.TextNodeFormat` | mbg-format-scd.js:29-32 | a non-blank text node yields its trimmed, escaped content, which starts with no whitespace: no indentation is added |
| `ScdProperties.CDataNodeFormat` | mbg-format-scd.js:34-37 | a CDATA section is the indentation, `<![CDATA[`, the content with normalised line endings and no escaping, then `]]>` |
| `ScdFormatter.FirstCData` | mbg-format-scd.js:52-54 | the chosen child is a CDATA section and no earlier child is one |
| `ScdProperties.PrivateCDataFormat` | mbg-format-scd.js:44-57 | a `Private` element with a CDATA child is written as its opening line, the first CDATA child one level deeper, and its closing line, whatever its other children are |
| `ScdProperties.PrivateIgnoresOtherChildren` | mbg-format-scd.js:52-56 | all children of such a `Private` element except the first CDATA section are ignored |
| `ScdProperties.SelfClosingFormat` | mbg-format-scd.js:60-64 | an element with no child nodes is `<tag attrs/>` at `2 * level` spaces of indentation |
| `ScdProperties.SelfClosingIsOneLine` | mbg-format-scd.js:60-64 | that self-closing tag is a single line when the tag name and attributes hold no line break |
| `ScdProperties.SingleTextChildFormat` | mbg-format-scd.js:66-76 | an element whose only child is non-blank text is written as opening tag, trimmed escaped text and closing tag, with no line break added between them |
| `ScdProperties.SingleTextIsOneLine` | mbg-format-scd.js:66-76 | that output is a single line when the tag name, the attributes and the trimmed text hold no line break |
| `ScdProperties.GeneralElementFormat` | mbg-format-scd.js:78-87 | every other element is its opening line, the child outputs one level deeper joined by line breaks, and a closing line at the same indentation |
| `ScdFormatter.FormatChildren` | mbg-format-scd.js:83-86 | there is one child line per significant child |
| `ScdProperties.FormatChildrenSignificant` | mbg-format-scd.js:83-86 | the child lines are the outputs of the significant children in document order; dropping blank text and comments first changes nothing |
| `ScdProperties.BlankOnlyChildFormat` | mbg-format-scd.js:78-87 | an element whose only child is blank text or a comment is not self-closed; it becomes opening tag, empty line, closing tag |
| `ScdProperties.ElementStartsWithTag` | mbg-format-scd.js:39-88 | a formatted element always starts with its indentation, `<` and its tag name |
| `ScdProperties.SameContentFormatsAlike` | mbg-format-scd.js:25-91 | trees that differ only in layout are formatted identically: whitespace around text, CDATA line endings, and blank text and comments added or removed among children that include an element or a CDATA section |
| `ScdProperties.InsignificantChildrenIgnored` | mbg-format-scd.js:83-86 | when some child is an element or a CDATA section, two child lists with the same significant children give the same output, whatever blank text and comments lie between them |
| `ScdProperties.ReindentedElementsFormatAlike` | mbg-format-scd.js:83-86 | `<A><B/></A>` and the same element re-indented over three lines give the same output |
| `ScdProperties.EmptyAndBlankElementsDiffer` | mbg-format-scd.js:60-87 | an element with no child nodes and the same element holding only blank text give different output: a layout difference the formatter keeps |
| `ScdFormatter.FormatNewSCD` | mbg-format-scd.js:117-130 | the document text always starts with the XML declaration and ends with a newline |
| `ScdProperties.DeclarationPrependedOnce` | mbg-format-scd.js:121-129 | for a root whose name is non-empty and does not start with `?`, the text is the declaration once, then the formatted root, then a newline, and the declaration is not repeated |

## Left out

- `getDocument` (mbg-format-scd.js:94-111): parsing a string with the browser's `DOMParser`, the `instanceof Document` test and the two errors it throws. These are foreign calls. The model starts from the root element of a parsed tree, so `FormatNewSCD` requires an `Element`.
- Round-trip stability (parse the output, format again, get the same text) needs a model of an XML parser, which is not part of this model. Determinism comes with the model for free: every operation is a function.
- `mbg-icd-extractor.js` is a dialog component with placeholder radio buttons. It contains no extraction logic.
- The device extraction pipeline: choosing the device, the type-reference closure, and filtering the communication section and data type templates. Its source is not part of this model, so there is nothing to model it against.
- Attribute and tag names are taken as given. The well-formedness rules a DOM imposes on names (no spaces, no `?`, not empty) appear only as the hypothesis of `DeclarationPrependedOnce`.
- `ScdProperties.SameContentFormatsAlike`: adding or removing blank text and comments is covered only among children that include markup. Where the children are only text, blank text or comments, the source's own cases depend on the number of child nodes: `<A/>` against `<A> </A>` (`EmptyAndBlankElementsDiffer`), and one text child against a text child next to a comment. There the output does change.
- Strings are sequences of Dafny `char`, which are Unicode scalar values, whereas JavaScript strings are UTF-16 code units. Every pattern and every trimmed character lies in the Basic Multilingual Plane, so the operations agree. The one loss is a lone surrogate, which a `Document` built by a program can hold but a Dafny string cannot.
