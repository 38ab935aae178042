# xsd2xml generator core, modelled in Dafny

xsd2xml turns an XML Schema into a sample XML document. This project models
the part of `XmlGenerator` that runs after the schema is compiled. The pass
goes through the global elements of the main schema. It starts each named one
with the target namespace, walks it and closes it. The walk descends into every
element:

- A complex type whose particle is a sequence gets one child element per named
  element item, in declaration order. Children get no namespace argument.
- Any other complex type gets an empty body.
- An element of simple type gets a synthesised text value.
- An element of unknown type gets `Sample_<name>`.

The value of a simple type is chosen by the first facet rule that fires:

1. The first enumeration value (`""` when that value is null).
2. The first pattern, passed to a regex-to-string generator. When the
   generator throws, the pattern text itself is used.
3. The first length facet: that many `A`s.
4. The first minLength facet: that many `A`s.

When no rule fires, the type code decides: `"123"`, `"123.45"`, `"true"`, the
clock, or `Sample_<name>`.

In the model, three kinds of exception abort the whole pass:

- The literal of a length or minLength facet goes through `int.Parse` and
  `new string('A', n)`. It can throw a format error, an overflow, a negative
  count, or an out-of-memory error for a count above the largest .NET string
  length (`0x3FFFFFDF`).
- The writer checks characters. It refuses text holding a character that XML
  does not allow; a regex generator may produce one.
- The writer keeps the default document conformance level. It refuses to
  start a second top-level element, so the pass as written succeeds only when
  at most one global element has a name (see "## Findings").

The files:

- `schema.dfy`: the compiled schema, as a finite tree of descriptors.
- `int_parse.dfy`: `int.Parse` on 32-bit integers.
- `simple_values.dfy`: value synthesis.
- `events.dfy`: the writer calls as an event stream, and the document tree they
  spell out.
- `writer.dfy`: the XML writer, as a class that records the calls it accepts
  and throws on the two checks above.
- `generator.dfy`: the walk.

The walk is written twice:

- `Generator.ElementContent`, `Generator.Fragment` and `Generator.Document` state, as
  a tree, what it writes. `Fragment` is for a writer that accepts any number of
  top-level elements. `Document` is for the writer the source creates.
- `Generator.GenerateElement`, `Generator.GenerateSequence`,
  `Generator.Generate` and `Generator.GenerateFragment` do the writing, with the
  source's loops, into an `EventWriter`. They are proved to write exactly the
  events of that tree.

In the model, the following hold:

- The writer calls of a pass that succeeds form a balanced stream.
- Without length and minLength facets, only the writer's two checks can make a
  pass throw.

Two things come from outside the repository and are parameters
(`SimpleValues.Environment`): the Xeger generator (a function that returns
`None` where Xeger throws) and the clock.

`SimpleValues.TypeDefaultsAgainstDatatypes` records how the type-code defaults
compare with the lexical spaces of W3C XML Schema 1.0 Part 2. `"123"` is not a
valid negativeInteger or nonPositiveInteger. Long and short are not in the
integer family, so they get `Sample_<name>`, which is not a valid literal of
either. The model keeps the code's behaviour in both cases.

## Model

| member | source | states |
|---|---|---|
| Generator.Generate | XsdToXmlGenerator.Lib/XmlGenerator.cs:60-80 | with a writer of document conformance: succeeds exactly when `Document` does; the calls written are the events of `Document`'s top-level elements and form a balanced stream; a failure carries `Document`'s error |
| Generator.GenerateFragment | XsdToXmlGenerator.Lib/XmlGenerator.cs:67-77 | the same loop with a writer of fragment conformance: succeeds exactly when `Fragment` does, writes its events as a balanced stream, or fails with its error |
| Generator.Document | XsdToXmlGenerator.Lib/XmlGenerator.cs:67-78 | the pass succeeds only when at most one global element has a name, and then it writes what a fragment writer would |
| Generator.DocumentHasOneRoot | XsdToXmlGenerator.Lib/XmlGenerator.cs:67-78 | a document the pass writes has exactly as many top-level elements as there are named global elements, at most one, and it is that element's node |
| Generator.TwoRootsScenario | XsdToXmlGenerator.Lib/XmlGenerator.cs:69-77 | two named global elements `a` and `b`: a fragment writer takes both, while the pass as written throws when it starts `b` |
| Generator.WriteElement | XsdToXmlGenerator.Lib/XmlGenerator.cs:69-77 | one foreach step: a second top-level element under document conformance is refused; otherwise an unnamed element writes nothing, and a named one writes start tag, body and end tag of its node `ElementNode(e, ns)` and leaves the open elements as they were; a failure is that node's error |
| Generator.GenerateElement | XsdToXmlGenerator.Lib/XmlGenerator.cs:83-108 | succeeds exactly when `ElementContent(e)` does; on success it appends exactly `ContentEvents(ElementContent(e))` and keeps the open elements; on failure it throws `ElementContent(e)`'s error |
| Generator.ElementContent | XsdToXmlGenerator.Lib/XmlGenerator.cs:83-108 | the body of an element is text exactly for simple types and named elements of unknown type, and any text in it is text XML allows |
| Generator.GenerateSequence | XsdToXmlGenerator.Lib/XmlGenerator.cs:87-98 | the loop over sequence items appends the events of the collected child nodes in item order, or stops with the first child's error |
| Generator.CollectNodes | XsdToXmlGenerator.Lib/XmlGenerator.cs:89-97 | siblings collect without failing exactly when none of them fails; otherwise the error is that of the first sibling that fails; at most one node per sibling |
| Generator.ChildrenFollowDeclaration | XsdToXmlGenerator.Lib/XmlGenerator.cs:89-96 | a sequence gets exactly one child per named element item, in declaration order, each that item's own node |
| Generator.RootsFollowDeclaration | XsdToXmlGenerator.Lib/XmlGenerator.cs:69-77 | a fragment holds exactly one top-level element per named global element, in schema order |
| Generator.OnlyRootsQualified | XsdToXmlGenerator.Lib/XmlGenerator.cs:73 | in a fragment (and so in a document, which is one), top-level elements carry the target namespace; nothing below them carries a namespace argument |
| Generator.NestedElementsUnqualified | XsdToXmlGenerator.Lib/XmlGenerator.cs:93 | every element below a walked element is written without a namespace argument |
| Generator.ContentByKind | XsdToXmlGenerator.Lib/XmlGenerator.cs:85-107 | non-sequence complex types give an empty body, simple types their synthesised value or its error, unknown types `Sample_<name>`; text XML does not allow is refused |
| Generator.WalkFailsOnlyOnCountFacets | XsdToXmlGenerator.Lib/XmlGenerator.cs:83-108 | without length and minLength facets below it, the walk of an element can fail only by the writer refusing a character |
| Generator.DocumentWithoutCountFacets | XsdToXmlGenerator.Lib/XmlGenerator.cs:60-80 | without length and minLength facets, the pass can fail only by the writer refusing a character or a second top-level element |
| Generator.StringChildScenario | XsdToXmlGenerator.Tests/XmlGeneratorTests.cs:10-38 | a root with one string child gives `<root><child>Sample_child</child></root>` as exact writer calls |
| Generator.StringChildContent | XsdToXmlGenerator.Tests/XmlGeneratorTests.cs:15-24 | the body of that root is the one child `child` with text `Sample_child` |
| Generator.StringChildEvents | XsdToXmlGenerator.Tests/XmlGeneratorTests.cs:33-34 | the exact writer calls for `<root><child>Sample_child</child></root>` |
| Generator.EnumerationScenario | XsdToXmlGenerator.Tests/XmlGeneratorTests.cs:40-75 | an enumeration red, green, blue gives `red` |
| Generator.ControlCharacterScenario | XsdToXmlGenerator.Lib/XmlGenerator.cs:100-103 | a pattern whose generated value is a control character makes the writer refuse it, and the walk throws |
| Writer.EventWriter.constructor | XsdToXmlGenerator.Lib/XmlGenerator.cs:67 | a new writer has accepted nothing and keeps the given conformance level |
| Writer.EventWriter.WriteStartElement | XsdToXmlGenerator.Lib/XmlGenerator.cs:73 | throws exactly when, under document conformance, it would start a second top-level element, changing nothing; otherwise appends a start tag with the namespace argument and opens that element |
| Writer.EventWriter.WriteString | XsdToXmlGenerator.Lib/XmlGenerator.cs:102 | throws exactly when the text holds a character XML does not allow, changing nothing; otherwise appends a text node inside the open element |
| Writer.EventWriter.WriteEndElement | XsdToXmlGenerator.Lib/XmlGenerator.cs:75 | closes the innermost open element with its own name |
| Events.NodesBalanced | XsdToXmlGenerator.Lib/XmlGenerator.cs:67-78 | the calls for any list of complete elements form a balanced stream |
| Events.NodeKeepsOpen | XsdToXmlGenerator.Lib/XmlGenerator.cs:93-95 | writing a whole element leaves the open elements as they were |
| Events.RunAppend | XsdToXmlGenerator.Lib/XmlGenerator.cs:67-78 | replaying two call streams in turn is replaying their concatenation |
| SimpleValues.GenerateSimpleTypeValue | XsdToXmlGenerator.Lib/XmlGenerator.cs:123-177 | the only failure is a length or minLength facet whose literal does not give a count, with that literal's error |
| SimpleValues.EnumerationComesFirst | XsdToXmlGenerator.Lib/XmlGenerator.cs:127-131 | the first enumeration decides, whatever else the restriction holds; a null value gives `""` |
| SimpleValues.PatternComesSecond | XsdToXmlGenerator.Lib/XmlGenerator.cs:133-137 | without enumerations, the first pattern with a value decides via the regex generator |
| SimpleValues.PatternValueMatchesOrIsPattern | XsdToXmlGenerator.Tests/XmlGeneratorTests.cs:77-114 | with a sound regex generator, the value matches the pattern, or is the pattern when the generator throws |
| SimpleValues.LengthComesThird | XsdToXmlGenerator.Lib/XmlGenerator.cs:139-143 | without enumerations and pattern values, the first length facet with a value decides: its filler or error |
| SimpleValues.MinLengthComesFourth | XsdToXmlGenerator.Lib/XmlGenerator.cs:145-149 | failing the first three rules, the first minLength facet with a value decides the same way |
| SimpleValues.FacetValue | XsdToXmlGenerator.Lib/XmlGenerator.cs:125-150 | no facet rule fires exactly when there is no enumeration and the first pattern, length and minLength facets are absent or null; a failure comes from a length or minLength facet's literal |
| SimpleValues.TypeCodeDecides | XsdToXmlGenerator.Lib/XmlGenerator.cs:152-176 | when no facet rule fires, the value is the type code's default: it depends only on the type code and never fails |
| SimpleValues.TypeDefault | XsdToXmlGenerator.Lib/XmlGenerator.cs:152-176 | the table: 123 for the integer family, 123.45, true, the three clock formats, `Sample_<name>` otherwise |
| SimpleValues.SamplePlaceholder | XsdToXmlGenerator.Lib/XmlGenerator.cs:155 | `Sample_` followed by the name, or by nothing when the name is null |
| SimpleValues.TypeDefaultsAgainstDatatypes | XsdToXmlGenerator.Lib/XmlGenerator.cs:152-176 | which defaults are valid literals of their datatype and which (negativeInteger, nonPositiveInteger, long, short) are not |
| SimpleValues.GenerateStringFromRegex | XsdToXmlGenerator.Lib/XmlGenerator.cs:110-121 | the generator's output, or the pattern itself when it throws |
| SimpleValues.First | XsdToXmlGenerator.Lib/XmlGenerator.cs:133 | the first facet of a kind: none exactly when there is no such facet, else the one with none of its kind before it |
| SimpleValues.FirstValue | XsdToXmlGenerator.Lib/XmlGenerator.cs:133-134 | a value is the value of the first facet of that kind; null exactly when there is no such facet or that facet's value is null |
| SimpleValues.Repeat | XsdToXmlGenerator.Lib/XmlGenerator.cs:142 | `n` copies of the character |
| SimpleValues.Filler | XsdToXmlGenerator.Lib/XmlGenerator.cs:142 | as many `A`s as the literal parses to, at most the largest string length; or the parse error, the negative-count error, or the too-long error for a count above `0x3FFFFFDF` |
| SimpleValues.FillerOfDecimal | XsdToXmlGenerator.Lib/XmlGenerator.cs:142 | a count written in decimal, up to the largest string length, gives exactly that many `A`s |
| SimpleValues.FillerRejectsTooLong | XsdToXmlGenerator.Lib/XmlGenerator.cs:142 | a count within the 32-bit range but above `0x3FFFFFDF` is the out-of-memory error of `new string` |
| SimpleValues.FillerAcceptsWhiteSpace | XsdToXmlGenerator.Lib/XmlGenerator.cs:142 | `" 3 "` gives `AAA` |
| SimpleValues.FillerRejectsNonNumber | XsdToXmlGenerator.Lib/XmlGenerator.cs:142 | `"3x"` and `""` are format errors |
| SimpleValues.FillerRejectsOverflow | XsdToXmlGenerator.Lib/XmlGenerator.cs:142 | a count above 2147483647 is an overflow error |
| SimpleValues.FillerRejectsNegative | XsdToXmlGenerator.Lib/XmlGenerator.cs:142 | a negative count is a negative-count error |
| IntParse.ParseInt32 | XsdToXmlGenerator.Lib/XmlGenerator.cs:142 | a result is within the 32-bit range; a failure is a format or overflow error on that literal |
| IntParse.ParseDecimalString | XsdToXmlGenerator.Lib/XmlGenerator.cs:142 | parsing the decimal rendering of an in-range count gives it back |
| IntParse.ParseNegatedDigits | XsdToXmlGenerator.Lib/XmlGenerator.cs:142 | a minus sign before digits negates their value |
| IntParse.DigitsValueOfDecimal | XsdToXmlGenerator.Lib/XmlGenerator.cs:142 | the digit value of a decimal rendering is the number rendered |

## Left out

- Schema loading and compilation (`XmlGenerator.cs:12-57`): reading the file, the schema set, its validation callback, the "no main schema" exception. The model starts from the compiled main schema.
- The order in which `mainSchema.Elements.Values` enumerates the global elements is taken to be the order of `MainSchema.elements`.
- Xeger's internals and randomness: the generator is one fixed function from pattern to result, so two equal patterns get the same value within a pass.
- The clock: the source reads `DateTime.Now` at each date, time or dateTime leaf. The model takes one reading for the whole pass, already formatted in the three formats.
- The text the XmlWriter produces: indentation, escaping, the XML declaration, namespace prefixes.
- The writer's checks of element names and namespaces: names come from a compiled schema, so they are taken as valid.
- Writer.EventWriter.WriteString: when it refuses a character, the text before that character may already be in the writer's buffer. The model leaves the calls unchanged, since the pass throws and the buffer is discarded.
- Whether disposing a writer of document conformance with no top-level element throws is not modelled: a schema without named global elements gives an empty stream.
- SimpleValues.Filler: only the fixed string-length limit of `new string` is modelled; running out of memory for a shorter string depends on the machine and is not.
- Culture-specific signs in `int.Parse`: the model accepts only `+` and `-`.
- Schemas whose types contain themselves: descriptors here are finite trees. The source has no guard and recurses until the stack overflows.
- Elements, particles and facets other than the ones the code inspects are opaque (`OtherItem`, `NotSequence`, `OtherFacet`, `TypeCode.Other`).
- The command-line front end (`XsdToXmlGenerator/Program.cs`) is not part of this model.
- Generator.WriteElement: the two foreach loops in the source inline the same start, walk and end calls. The model shares them in one method.
- Generator.GenerateElement: after an exception the contract says only that the calls already written extend the earlier ones. The caller discards the writer then, so which partial calls were made is not modelled.

## Findings

| source | as written | input that shows it | evidently intended | confidence | as-written member | corrected member |
|---|---|---|---|---|---|---|
| XsdToXmlGenerator.Lib/XmlGenerator.cs:61-77 | the writer keeps the default document conformance level, while the loop starts every named global element as a top-level element | a schema with two named global elements `a` and `b`: starting `b` throws and the pass yields no XML | every named global element written, with a writer of fragment conformance | medium, not executed | Generator.TwoRootsScenario | Generator.GenerateFragment |
