/** The XML writer the generator writes into, kept as the stream of calls it
    has received. Indentation, escaping and the text it finally produces are not
    part of this model; the two checks by which it throws are. */
module Writer {
  import opened Wrappers
  import opened Events

  /** The exceptions the writer throws: `ArgumentException` for text holding a
      character XML does not allow (character checking is on unless the
      settings turn it off), and `InvalidOperationException` for a second
      top-level element under the document conformance level. */
  datatype WriteError = InvalidCharacter(text: string) | SecondRootElement(name: string)

  /** The Char production of XML 1.0 (section 2.2 of the W3C Recommendation). */
  predicate IsXmlChar(c: char)
  {
    c == '\t' || c == '\n' || c == '\r' ||
    ('\U{20}' <= c <= '\U{D7FF}') || ('\U{E000}' <= c <= '\U{FFFD}') || ('\U{1_0000}' <= c <= '\U{10_FFFF}')
  }

  /** Text the writer accepts: every character is an XML character. */
  predicate IsXmlText(s: string)
  {
    forall i :: 0 <= i < |s| ==> IsXmlChar(s[i])
  }

  class EventWriter {
    /** The conformance level: `ConformanceLevel.Fragment` when true,
        `ConformanceLevel.Document` (the default) when false. */
    const fragment: bool
    /** Every call accepted so far, in order. */
    var events: seq<Event>
    /** The names of the elements started and not yet ended, innermost last. */
    var open: seq<string>

    /** The open elements are exactly those the accepted calls leave open. */
    ghost predicate Valid()
      reads this
    {
      Run([], events) == Some(open)
    }

    constructor (fragment: bool)
      ensures Valid() && events == [] && open == [] && this.fragment == fragment
    {
      this.fragment := fragment;
      events := [];
      open := [];
    }

    /** Opens an element. At the document level a top-level element may only
        be started while nothing has been written. */
    method WriteStartElement(name: string, ns: Option<string>) returns (r: Result<(), WriteError>)
      requires Valid()
      modifies this
      ensures Valid()
      ensures r.Failure? <==> !fragment && old(open) == [] && old(events) != []
      ensures r.Failure? ==> r.error == SecondRootElement(name) && events == old(events) && open == old(open)
      ensures r.Success? ==> events == old(events) + [StartTag(name, ns)] && open == old(open) + [name]
    {
      if !fragment && open == [] && events != [] {
        return Failure(SecondRootElement(name));
      }
      events := events + [StartTag(name, ns)];
      open := open + [name];
      assert events[..|events| - 1] == old(events);
      r := Success(());
    }

    /** Writes text inside the innermost open element; text with a character
        XML does not allow is refused. */
    method WriteString(text: string) returns (r: Result<(), WriteError>)
      requires Valid() && open != []
      modifies this
      ensures Valid()
      ensures r.Failure? <==> !IsXmlText(text)
      ensures r.Failure? ==> r.error == InvalidCharacter(text) && events == old(events) && open == old(open)
      ensures r.Success? ==> events == old(events) + [TextNode(text)] && open == old(open)
    {
      if !IsXmlText(text) {
        return Failure(InvalidCharacter(text));
      }
      events := events + [TextNode(text)];
      assert events[..|events| - 1] == old(events);
      r := Success(());
    }

    /** Closes the innermost open element; there must be one. */
    method WriteEndElement()
      requires Valid() && open != []
      modifies this
      ensures Valid()
      ensures events == old(events) + [EndTag(old(open)[|old(open)| - 1])]
      ensures open == old(open)[..|old(open)| - 1]
    {
      events := events + [EndTag(open[|open| - 1])];
      open := open[..|open| - 1];
      assert events[..|events| - 1] == old(events);
    }
  }
}
