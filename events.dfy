/** What the generator asks its XML writer to write, as a stream of events, and
    the document tree that a balanced stream spells out. */
module Events {
  import opened Wrappers

  /** One writer call: `WriteStartElement(name, ns)` (`ns` is `None` when the
      call passes no namespace, or a null one), `WriteString(text)`, or
      `WriteEndElement()`, which closes the innermost open element `name`. */
  datatype Event = StartTag(name: string, ns: Option<string>) | TextNode(text: string) | EndTag(name: string)

  /** The generated document: an element with a namespace argument and either
      child elements in order or one text value. An empty body is `Elements([])`. */
  datatype Node = Node(name: string, ns: Option<string>, content: Content)
  datatype Content = Elements(children: seq<Node>) | Value(text: string)

  /** The effect of one event on the names of the open elements, innermost last:
      a start opens, an end must close the innermost open element, and text must
      stand inside some element. `None` when the event is out of place. */
  function Step(open: seq<string>, ev: Event): Option<seq<string>>
  {
    match ev
    case StartTag(name, _) => Some(open + [name])
    case TextNode(_) => if open == [] then None else Some(open)
    case EndTag(name) => if open != [] && open[|open| - 1] == name then Some(open[..|open| - 1]) else None
  }

  /** The open elements after `evs`, starting from `open`. */
  function Run(open: seq<string>, evs: seq<Event>): Option<seq<string>>
  {
    if evs == [] then Some(open)
    else
      match Run(open, evs[..|evs| - 1])
      case None => None
      case Some(before) => Step(before, evs[|evs| - 1])
  }

  /** Every start tag is closed by an end tag of the same name, in nested order,
      and every text node sits inside an element. */
  predicate Balanced(evs: seq<Event>)
  {
    Run([], evs) == Some([])
  }

  function Concat(parts: seq<seq<Event>>): seq<Event>
  {
    if parts == [] then [] else Concat(parts[..|parts| - 1]) + parts[|parts| - 1]
  }

  /** The writer calls that write `n`. */
  function NodeEvents(n: Node): seq<Event>
  {
    [StartTag(n.name, n.ns)] + ContentEvents(n.content) + [EndTag(n.name)]
  }

  /** The writer calls that write the body of an element. */
  function ContentEvents(c: Content): seq<Event>
  {
    match c
    case Value(text) => [TextNode(text)]
    case Elements(children) => Concat(seq(|children|, i requires 0 <= i < |children| => NodeEvents(children[i])))
  }

  /** The writer calls that write a sequence of sibling elements. */
  function NodesEvents(nodes: seq<Node>): seq<Event>
  {
    ContentEvents(Elements(nodes))
  }

  /** Running two streams one after the other is running their concatenation. */
  lemma {:induction false} RunAppend(open: seq<string>, a: seq<Event>, b: seq<Event>)
    ensures Run(open, a + b) == match Run(open, a) { case None => None case Some(mid) => Run(mid, b) }
  {
    if b == [] {
      assert a + b == a;
    } else {
      var b' := b[..|b| - 1];
      assert (a + b)[..|a + b| - 1] == a + b';
      RunAppend(open, a, b');
    }
  }

  lemma NodesEventsAppend(nodes: seq<Node>, n: Node)
    ensures NodesEvents(nodes + [n]) == NodesEvents(nodes) + NodeEvents(n)
  {
    var all := seq(|nodes + [n]|, i requires 0 <= i < |nodes + [n]| => NodeEvents((nodes + [n])[i]));
    assert all[..|nodes|] == seq(|nodes|, i requires 0 <= i < |nodes| => NodeEvents(nodes[i]));
  }

  /** Streams that each leave the open elements as they were do so together. */
  lemma {:induction false} ConcatKeepsOpen(open: seq<string>, parts: seq<seq<Event>>)
    requires forall i :: 0 <= i < |parts| ==> Run(open, parts[i]) == Some(open)
    ensures Run(open, Concat(parts)) == Some(open)
  {
    if parts != [] {
      var init := parts[..|parts| - 1];
      ConcatKeepsOpen(open, init);
      RunAppend(open, Concat(init), parts[|parts| - 1]);
    }
  }

  /** Writing a whole element leaves the open elements as they were. */
  lemma {:induction false} NodeKeepsOpen(n: Node, open: seq<string>)
    ensures Run(open, NodeEvents(n)) == Some(open)
    decreases n, 1
  {
    var inner := open + [n.name];
    ContentKeepsOpen(n.content, inner);
    RunAppend(open, [StartTag(n.name, n.ns)], ContentEvents(n.content));
    assert Run(open, [StartTag(n.name, n.ns)]) == Some(inner) by {
      assert [StartTag(n.name, n.ns)][..0] == [];
    }
    RunAppend(open, [StartTag(n.name, n.ns)] + ContentEvents(n.content), [EndTag(n.name)]);
    assert Run(inner, [EndTag(n.name)]) == Some(open) by {
      assert [EndTag(n.name)][..0] == [];
      assert inner[..|inner| - 1] == open;
    }
  }

  /** Writing the body of an element inside it leaves the open elements as they were. */
  lemma {:induction false} ContentKeepsOpen(c: Content, open: seq<string>)
    requires open != []
    ensures Run(open, ContentEvents(c)) == Some(open)
    decreases c, 0
  {
    match c
    case Value(text) =>
      assert [TextNode(text)][..0] == [];
    case Elements(children) =>
      var parts := seq(|children|, i requires 0 <= i < |children| => NodeEvents(children[i]));
      forall i | 0 <= i < |parts|
        ensures Run(open, parts[i]) == Some(open)
      {
        NodeKeepsOpen(children[i], open);
      }
      ConcatKeepsOpen(open, parts);
  }

  /** Sibling elements written one after another form a balanced stream. */
  lemma NodesBalanced(nodes: seq<Node>)
    ensures Balanced(NodesEvents(nodes))
  {
    var parts := seq(|nodes|, i requires 0 <= i < |nodes| => NodeEvents(nodes[i]));
    forall i | 0 <= i < |parts|
      ensures Run([], parts[i]) == Some([])
    {
      NodeKeepsOpen(nodes[i], []);
    }
    ConcatKeepsOpen([], parts);
  }
}
