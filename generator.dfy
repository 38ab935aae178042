/** The recursive walk from element descriptors to writer calls. `ElementContent` and
    `Document` say, as a tree, what the walk writes; `GenerateElement` and
    `Generate` are the walk itself, writing into an `EventWriter`, and are proved
    to write exactly the events of that tree. */
module Generator {
  import opened Wrappers
  import opened Schema
  import opened IntParse
  import opened SimpleValues
  import opened Events
  import opened Writer

  /** What stops a generation pass: an exception of value synthesis or one of
      the writer. */
  datatype GenerateError = FacetFailure(facet: FacetError) | WriterFailure(write: WriteError)

  /** What one element or item contributes to a list of siblings: nothing
      (`None`), a node, or the error that stops the walk. */
  type Contribution = Option<Result<Node, GenerateError>>

  predicate Fails(c: Contribution)
  {
    c.Some? && c.value.Failure?
  }

  /** The node written for element `e` under namespace argument `ns`; nothing
      for an element without a name. */
  function ElementNode(e: Element, ns: Option<string>, env: Environment): Contribution
    decreases e, 1
  {
    match e.name
    case None => None
    case Some(name) =>
      Some(match ElementContent(e, env) {
             case Success(c) => Success(Node(name, ns, c))
             case Failure(err) => Failure(err)
           })
  }

  /** The node written for one item of a sequence: only element items count,
      and they are written without a namespace argument. */
  function ItemNode(item: Item, env: Environment): Contribution
    decreases item
  {
    match item
    case ElementItem(child) => ElementNode(child, None, env)
    case OtherItem => None
  }

  /** Sibling contributions in order, as a foreach loop that an exception
      leaves: the nodes when no sibling fails, otherwise the error of the first
      sibling that fails. */
  function CollectNodes(parts: seq<Contribution>): (r: Result<seq<Node>, GenerateError>)
    ensures r.Success? <==> forall i :: 0 <= i < |parts| ==> !Fails(parts[i])
    ensures r.Failure? ==>
              exists i :: 0 <= i < |parts| && parts[i] == Some(Failure(r.error)) &&
                          forall j :: 0 <= j < i ==> !Fails(parts[j])
    ensures r.Success? ==> |r.value| <= |parts|
  {
    if parts == [] then Success([])
    else
      var init := parts[..|parts| - 1];
      assert forall i :: 0 <= i < |init| ==> init[i] == parts[i];
      match CollectNodes(init)
      case Failure(err) => Failure(err)
      case Success(nodes) =>
        match parts[|parts| - 1]
        case None => Success(nodes)
        case Some(Failure(err)) => Failure(err)
        case Some(Success(n)) => Success(nodes + [n])
  }

  /** Text content as the writer takes it: refused when it holds a character
      XML does not allow. */
  function TextContent(text: string): Result<Content, GenerateError>
  {
    if IsXmlText(text) then Success(Value(text)) else Failure(WriterFailure(InvalidCharacter(text)))
  }

  /** The body `GenerateElement` writes for `e`. The descriptor tree is finite,
      so this recursion ends; on a compiled schema whose types contain
      themselves the generator has no guard and recurses without bound. */
  function ElementContent(e: Element, env: Environment): (r: Result<Content, GenerateError>)
    decreases e, 0
    ensures r.Success? ==> (r.value.Value? <==> e.elementType.Simple? || (e.elementType.Unknown? && e.name.Some?))
    ensures r.Success? && r.value.Value? ==> IsXmlText(r.value.text)
  {
    match e.elementType
    case Complex(Sequence(items)) =>
      (match CollectNodes(seq(|items|, i requires 0 <= i < |items| => ItemNode(items[i], env)))
       case Success(nodes) => Success(Elements(nodes))
       case Failure(err) => Failure(err))
    case Complex(NotSequence) => Success(Elements([]))
    case Simple(st) =>
      (match GenerateSimpleTypeValue(e.name, st, env)
       case Success(v) => TextContent(v)
       case Failure(err) => Failure(FacetFailure(err)))
    case Unknown => if e.name.Some? then TextContent(SamplePlaceholder(e.name)) else Success(Elements([]))
  }

  /** The contributions of the items of a sequence, in order. */
  function ItemNodes(items: seq<Item>, env: Environment): seq<Contribution>
  {
    seq(|items|, i requires 0 <= i < |items| => ItemNode(items[i], env))
  }

  /** The contributions of a list of elements, each written with namespace
      argument `ns`. */
  function ElementNodes(elements: seq<Element>, ns: Option<string>, env: Environment): seq<Contribution>
  {
    seq(|elements|, i requires 0 <= i < |elements| => ElementNode(elements[i], ns, env))
  }

  /** The contributions of the main schema's global elements, each written with
      the target namespace. */
  function RootNodes(schema: MainSchema, env: Environment): seq<Contribution>
  {
    ElementNodes(schema.elements, schema.targetNamespace, env)
  }

  /** What the pass writes into a writer of fragment conformance, which takes
      any number of top-level elements: one per named global element. */
  function Fragment(schema: MainSchema, env: Environment): Result<seq<Node>, GenerateError>
  {
    CollectNodes(RootNodes(schema, env))
  }

  /** At most one global element has a name. */
  predicate AtMostOneNamed(elements: seq<Element>)
  {
    forall i, j :: 0 <= j < i < |elements| ==> elements[j].name.None? || elements[i].name.None?
  }

  /** Some element before position `i` has a name. */
  predicate NamedBefore(elements: seq<Element>, i: int)
    requires 0 <= i <= |elements|
  {
    exists j :: 0 <= j < i && elements[j].name.Some?
  }

  lemma NamedBeforeStep(elements: seq<Element>, i: int)
    requires 0 <= i < |elements|
    ensures NamedBefore(elements, i + 1) <==> NamedBefore(elements, i) || elements[i].name.Some?
  {
    if NamedBefore(elements, i + 1) && elements[i].name.None? {
      var j :| 0 <= j < i + 1 && elements[j].name.Some?;
      assert j < i;
    }
  }

  /** The contributions of the global elements under the document conformance
      level: once a top-level element has been written, the next named global
      element is refused when it is started. */
  function DocumentParts(elements: seq<Element>, ns: Option<string>, env: Environment): seq<Contribution>
  {
    seq(|elements|, i requires 0 <= i < |elements| =>
          if elements[i].name.Some? && NamedBefore(elements, i)
          then Some(Failure(WriterFailure(SecondRootElement(elements[i].name.value))))
          else ElementNode(elements[i], ns, env))
  }

  lemma DocumentPartsCases(elements: seq<Element>, ns: Option<string>, env: Environment)
    ensures AtMostOneNamed(elements) ==> DocumentParts(elements, ns, env) == ElementNodes(elements, ns, env)
    ensures (forall i :: 0 <= i < |elements| ==> !Fails(DocumentParts(elements, ns, env)[i])) ==> AtMostOneNamed(elements)
  {
    var parts := DocumentParts(elements, ns, env);
    if forall i :: 0 <= i < |elements| ==> !Fails(parts[i]) {
      forall i, j | 0 <= j < i < |elements| && elements[j].name.Some?
        ensures elements[i].name.None?
      {
        assert NamedBefore(elements, i);
        assert !Fails(parts[i]);
      }
    }
  }

  /** The top-level elements `Generate` writes, or the exception it throws. The
      writer keeps the document conformance level, so the pass succeeds only
      when at most one global element has a name, and then it writes what a
      fragment writer would. */
  function Document(schema: MainSchema, env: Environment): (r: Result<seq<Node>, GenerateError>)
    ensures r.Success? ==> AtMostOneNamed(schema.elements)
    ensures AtMostOneNamed(schema.elements) ==> r == Fragment(schema, env)
  {
    DocumentPartsCases(schema.elements, schema.targetNamespace, env);
    CollectNodes(DocumentParts(schema.elements, schema.targetNamespace, env))
  }

  /** One more sibling that contributes nothing leaves the collected nodes as they were. */
  lemma SkipStep(parts: seq<Contribution>, i: nat, done: seq<Node>)
    requires i < |parts| && CollectNodes(parts[..i]) == Success(done) && parts[i].None?
    ensures CollectNodes(parts[..i + 1]) == Success(done)
  {
    assert parts[..i + 1][..i] == parts[..i];
  }

  /** One more sibling node is appended to the collected nodes and to their events. */
  lemma NodeStep(parts: seq<Contribution>, i: nat, done: seq<Node>, node: Node)
    requires i < |parts| && CollectNodes(parts[..i]) == Success(done) && parts[i] == Some(Success(node))
    ensures CollectNodes(parts[..i + 1]) == Success(done + [node])
    ensures NodesEvents(done + [node]) == NodesEvents(done) + NodeEvents(node)
  {
    assert parts[..i + 1][..i] == parts[..i];
    NodesEventsAppend(done, node);
  }

  /** A sibling that fails makes the whole list fail with its error. */
  lemma FailStep(parts: seq<Contribution>, i: nat, done: seq<Node>, err: GenerateError)
    requires i < |parts| && CollectNodes(parts[..i]) == Success(done) && parts[i] == Some(Failure(err))
    ensures CollectNodes(parts) == Failure(err)
  {
    assert Fails(parts[i]);
    var e := CollectNodes(parts).error;
    var k :| 0 <= k < |parts| && parts[k] == Some(Failure(e)) && forall j :: 0 <= j < k ==> !Fails(parts[j]);
    if k < i {
      assert Fails(parts[..i][k]);
    }
    assert k == i;
  }

  /** The events of a node written call by call after `before`. */
  lemma NodeWritten(before: seq<Event>, node: Node)
    ensures ((before + [StartTag(node.name, node.ns)]) + ContentEvents(node.content)) + [EndTag(node.name)] ==
            before + NodeEvents(node)
  {
  }

  /** The contribution of an element with a name: its node, or its error. */
  lemma NamedElementNode(e: Element, ns: Option<string>, env: Environment)
    requires e.name.Some?
    ensures ElementContent(e, env).Success? ==> ElementNode(e, ns, env) == Some(Success(Node(e.name.value, ns, ElementContent(e, env).value)))
    ensures ElementContent(e, env).Failure? ==> ElementNode(e, ns, env) == Some(Failure(ElementContent(e, env).error))
  {
  }

  /** The contribution of an item: a node for a named element item, else nothing. */
  lemma ItemNodeCases(item: Item, env: Environment)
    ensures !(item.ElementItem? && item.element.name.Some?) ==> ItemNode(item, env) == None
    ensures item.ElementItem? && item.element.name.Some? ==>
              ItemNode(item, env) == Some(match ElementContent(item.element, env) {
                                            case Success(c) => Success(Node(item.element.name.value, None, c))
                                            case Failure(err) => Failure(err)
                                          })
  {
  }

  /** The body of a complex type with a sequence particle. */
  lemma SequenceContent(e: Element, items: seq<Item>, env: Environment)
    requires e.elementType == Complex(Sequence(items))
    ensures CollectNodes(ItemNodes(items, env)).Success? ==>
              ElementContent(e, env) == Success(Elements(CollectNodes(ItemNodes(items, env)).value))
    ensures CollectNodes(ItemNodes(items, env)).Failure? ==>
              ElementContent(e, env) == Failure(CollectNodes(ItemNodes(items, env)).error)
  {
    assert ItemNodes(items, env) == seq(|items|, i requires 0 <= i < |items| => ItemNode(items[i], env));
  }

  /** Writes the body of `e` into `writer`, inside the element already opened
      for it. On success it has written exactly `ContentEvents` of `ElementContent(e)`;
      on failure it has thrown `ElementContent(e)`'s error after writing a prefix that
      the caller discards. */
  method GenerateElement(writer: EventWriter, e: Element, env: Environment) returns (r: Result<(), GenerateError>)
    requires writer.Valid() && writer.open != []
    modifies writer
    decreases e, 1
    ensures writer.Valid()
    ensures r.Success? <==> ElementContent(e, env).Success?
    ensures r.Success? ==>
              writer.events == old(writer.events) + ContentEvents(ElementContent(e, env).value) &&
              writer.open == old(writer.open)
    ensures r.Failure? ==> r.error == ElementContent(e, env).error && old(writer.events) <= writer.events
  {
    match e.elementType
    case Complex(particle) =>
      if particle.Sequence? {
        r := GenerateSequence(writer, e, env);
        SequenceContent(e, particle.items, env);
      } else {
        r := Success(());
      }
    case Simple(st) =>
      var value := GenerateSimpleTypeValue(e.name, st, env);
      if value.Failure? {
        return Failure(FacetFailure(value.error));
      }
      var written := writer.WriteString(value.value);
      if written.Failure? {
        return Failure(WriterFailure(written.error));
      }
      r := Success(());
    case Unknown =>
      if e.name.Some? {
        var written := writer.WriteString(SamplePlaceholder(e.name));
        if written.Failure? {
          return Failure(WriterFailure(written.error));
        }
      }
      r := Success(());
  }

  /** The writer refuses to start `e`: it has a name, the writer is at the
      document level, outside every element, and has already written one. */
  predicate StartRefused(fragment: bool, open: seq<string>, events: seq<Event>, e: Element)
  {
    e.name.Some? && !fragment && open == [] && events != []
  }

  /** One element of a foreach loop: an element with a name is opened with
      namespace argument `ns`, walked and closed; one without a name is
      skipped. Writes the events of its contribution `ElementNode(e, ns)`,
      unless the writer refuses to start it. */
  method WriteElement(writer: EventWriter, e: Element, ns: Option<string>, env: Environment) returns (r: Result<(), GenerateError>)
    requires writer.Valid()
    modifies writer
    decreases e, 2
    ensures writer.Valid()
    ensures StartRefused(writer.fragment, old(writer.open), old(writer.events), e) ==>
              r == Failure(WriterFailure(SecondRootElement(e.name.value))) && writer.events == old(writer.events)
    ensures !StartRefused(writer.fragment, old(writer.open), old(writer.events), e) ==>
              (r.Success? <==> !Fails(ElementNode(e, ns, env))) &&
              (ElementNode(e, ns, env).None? ==> writer.events == old(writer.events) && writer.open == old(writer.open)) &&
              (ElementNode(e, ns, env).Some? && ElementNode(e, ns, env).value.Success? ==>
                 writer.events == old(writer.events) + NodeEvents(ElementNode(e, ns, env).value.value) &&
                 writer.open == old(writer.open)) &&
              (r.Failure? ==> ElementNode(e, ns, env) == Some(Failure(r.error)) && old(writer.events) <= writer.events)
  {
    if e.name.None? {
      return Success(());
    }
    NamedElementNode(e, ns, env);
    ghost var before := writer.events;
    var started := writer.WriteStartElement(e.name.value, ns);
    if started.Failure? {
      return Failure(WriterFailure(started.error));
    }
    var bodyResult := GenerateElement(writer, e, env);
    if bodyResult.Failure? {
      return bodyResult;
    }
    writer.WriteEndElement();
    NodeWritten(before, Node(e.name.value, ns, ElementContent(e, env).value));
    r := Success(());
  }

  /** The loop of `GenerateElement` over the items of a sequence particle: each
      element item is written without a namespace argument; every other item
      is skipped. */
  method GenerateSequence(writer: EventWriter, e: Element, env: Environment) returns (r: Result<(), GenerateError>)
    requires e.elementType.Complex? && e.elementType.particle.Sequence?
    requires writer.Valid() && writer.open != []
    modifies writer
    decreases e, 0
    ensures writer.Valid()
    ensures var all := CollectNodes(ItemNodes(e.elementType.particle.items, env));
            (r.Success? <==> all.Success?) &&
            (r.Success? ==> writer.events == old(writer.events) + NodesEvents(all.value) && writer.open == old(writer.open)) &&
            (r.Failure? ==> r.error == all.error && old(writer.events) <= writer.events)
  {
    var items := e.elementType.particle.items;
    ghost var parts := ItemNodes(items, env);
    ghost var done: seq<Node> := [];
    var i := 0;
    while i < |items|
      invariant 0 <= i <= |items|
      invariant writer.Valid() && writer.open == old(writer.open)
      invariant CollectNodes(parts[..i]) == Success(done)
      invariant writer.events == old(writer.events) + NodesEvents(done)
    {
      var item := items[i];
      assert parts[i] == ItemNode(item, env);
      if item.ElementItem? {
        var itemResult := WriteElement(writer, item.element, None, env);
        if itemResult.Failure? {
          FailStep(parts, i, done, itemResult.error);
          return itemResult;
        }
        done := Extend(parts, i, done, old(writer.events));
      } else {
        SkipStep(parts, i, done);
      }
      i := i + 1;
    }
    assert parts[..|items|] == parts;
    r := Success(());
  }

  /** The loop bookkeeping after a sibling was written without error: the
      collected nodes, extended by the sibling's node if it has one. */
  ghost function Extend(parts: seq<Contribution>, i: nat, done: seq<Node>, prefix: seq<Event>): (next: seq<Node>)
    requires i < |parts| && CollectNodes(parts[..i]) == Success(done)
    requires !Fails(parts[i])
    ensures CollectNodes(parts[..i + 1]) == Success(next)
    ensures parts[i].None? ==> next == done
    ensures parts[i].Some? ==> prefix + NodesEvents(next) == prefix + NodesEvents(done) + NodeEvents(parts[i].value.value)
  {
    if parts[i].None? then
      SkipStep(parts, i, done);
      done
    else
      var node := parts[i].value.value;
      NodeStep(parts, i, done, node);
      assert (prefix + NodesEvents(done)) + NodeEvents(node) == prefix + (NodesEvents(done) + NodeEvents(node));
      done + [node]
  }

  /** The whole generation pass over an already compiled main schema, as
      written: the writer keeps the document conformance level, and each named
      global element is started with the target namespace, walked and closed,
      in the order the schema lists them. Returns the writer calls, which form
      a balanced stream, or the exception thrown. */
  method Generate(schema: MainSchema, env: Environment) returns (r: Result<seq<Event>, GenerateError>)
    ensures r.Success? <==> Document(schema, env).Success?
    ensures r.Success? ==> r.value == NodesEvents(Document(schema, env).value) && Balanced(r.value)
    ensures r.Failure? ==> r.error == Document(schema, env).error
  {
    var writer := new EventWriter(false);
    var roots := schema.elements;
    ghost var parts := DocumentParts(roots, schema.targetNamespace, env);
    ghost var done: seq<Node> := [];
    var i := 0;
    while i < |roots|
      invariant 0 <= i <= |roots|
      invariant writer.Valid() && writer.open == [] && !writer.fragment
      invariant CollectNodes(parts[..i]) == Success(done)
      invariant writer.events == NodesEvents(done)
      invariant writer.events != [] <==> NamedBefore(roots, i)
    {
      NamedBeforeStep(roots, i);
      var rootResult := WriteElement(writer, roots[i], schema.targetNamespace, env);
      if rootResult.Failure? {
        FailStep(parts, i, done, rootResult.error);
        return Failure(rootResult.error);
      }
      assert parts[i] == ElementNode(roots[i], schema.targetNamespace, env);
      ghost var before := done;
      done := Extend(parts, i, done, []);
      assert [] + NodesEvents(before) == NodesEvents(before) && [] + NodesEvents(done) == NodesEvents(done);
      i := i + 1;
    }
    assert parts[..|roots|] == parts;
    r := Success(writer.events);
  }

  /** The same pass with a writer of fragment conformance, which takes every
      named global element as a top-level element. */
  method GenerateFragment(schema: MainSchema, env: Environment) returns (r: Result<seq<Event>, GenerateError>)
    ensures r.Success? <==> Fragment(schema, env).Success?
    ensures r.Success? ==> r.value == NodesEvents(Fragment(schema, env).value) && Balanced(r.value)
    ensures r.Failure? ==> r.error == Fragment(schema, env).error
  {
    var writer := new EventWriter(true);
    var roots := schema.elements;
    ghost var parts := RootNodes(schema, env);
    ghost var done: seq<Node> := [];
    var i := 0;
    while i < |roots|
      invariant 0 <= i <= |roots|
      invariant writer.Valid() && writer.open == [] && writer.fragment
      invariant CollectNodes(parts[..i]) == Success(done)
      invariant writer.events == NodesEvents(done)
    {
      assert parts[i] == ElementNode(roots[i], schema.targetNamespace, env);
      var rootResult := WriteElement(writer, roots[i], schema.targetNamespace, env);
      if rootResult.Failure? {
        FailStep(parts, i, done, rootResult.error);
        return Failure(rootResult.error);
      }
      ghost var before := done;
      done := Extend(parts, i, done, []);
      assert [] + NodesEvents(before) == NodesEvents(before) && [] + NodesEvents(done) == NodesEvents(done);
      i := i + 1;
    }
    assert parts[..|roots|] == parts;
    r := Success(writer.events);
  }

  /** The element items of a sequence that have a name, in order. */
  function NamedChildren(items: seq<Item>): (named: seq<Element>)
    ensures forall k :: 0 <= k < |named| ==> named[k].name.Some? && ElementItem(named[k]) in items
  {
    if items == [] then []
    else
      var last := items[|items| - 1];
      NamedChildren(items[..|items| - 1]) + (if last.ElementItem? && last.element.name.Some? then [last.element] else [])
  }

  /** The elements of a list that have a name, in order. */
  function Named(elements: seq<Element>): (named: seq<Element>)
    ensures forall k :: 0 <= k < |named| ==> named[k].name.Some? && named[k] in elements
  {
    if elements == [] then []
    else
      var last := elements[|elements| - 1];
      Named(elements[..|elements| - 1]) + (if last.name.Some? then [last] else [])
  }

  /** A complex type with a sequence particle gets one child per named element
      item, in declaration order, each that item's own node; every other item
      is skipped. */
  lemma {:induction false} ChildrenFollowDeclaration(items: seq<Item>, env: Environment)
    requires CollectNodes(ItemNodes(items, env)).Success?
    ensures var nodes := CollectNodes(ItemNodes(items, env)).value;
            var named := NamedChildren(items);
            |nodes| == |named| &&
            forall k :: 0 <= k < |nodes| ==> ElementNode(named[k], None, env) == Some(Success(nodes[k]))
  {
    if items != [] {
      var n := |items|;
      var init := items[..n - 1];
      var parts := ItemNodes(items, env);
      assert parts[..n - 1] == ItemNodes(init, env);
      assert parts[n - 1] == ItemNode(items[n - 1], env);
      CollectStep(parts);
      ItemNodeCases(items[n - 1], env);
      ChildrenFollowDeclaration(init, env);
    }
  }

  /** The document holds one top-level element per named global element, in
      the order the schema lists them, each that element's own node. */
  lemma {:induction false} RootsFollowDeclaration(elements: seq<Element>, ns: Option<string>, env: Environment)
    requires CollectNodes(ElementNodes(elements, ns, env)).Success?
    ensures var nodes := CollectNodes(ElementNodes(elements, ns, env)).value;
            var named := Named(elements);
            |nodes| == |named| &&
            forall k :: 0 <= k < |nodes| ==> ElementNode(named[k], ns, env) == Some(Success(nodes[k]))
  {
    if elements != [] {
      var n := |elements|;
      var init := elements[..n - 1];
      var last := elements[n - 1];
      var parts := ElementNodes(elements, ns, env);
      assert parts[..n - 1] == ElementNodes(init, ns, env);
      assert parts[n - 1] == ElementNode(last, ns, env);
      CollectStep(parts);
      RootsFollowDeclaration(init, ns, env);
      FollowStep(CollectNodes(ElementNodes(init, ns, env)).value, Named(init), last, ns, env);
    }
  }

  /** One more global element extends the nodes and the named elements alike. */
  lemma FollowStep(prev: seq<Node>, namedInit: seq<Element>, last: Element, ns: Option<string>, env: Environment)
    requires |prev| == |namedInit|
    requires forall k :: 0 <= k < |prev| ==> ElementNode(namedInit[k], ns, env) == Some(Success(prev[k]))
    requires !Fails(ElementNode(last, ns, env))
    ensures var c := ElementNode(last, ns, env);
            var nodes := prev + (if c.Some? then [c.value.value] else []);
            var named := namedInit + (if last.name.Some? then [last] else []);
            |nodes| == |named| &&
            forall k :: 0 <= k < |nodes| ==> ElementNode(named[k], ns, env) == Some(Success(nodes[k]))
  {
    var c := ElementNode(last, ns, env);
    assert c.Some? <==> last.name.Some?;
  }

  /** One step of `CollectNodes` on a list of siblings that does not fail. */
  lemma CollectStep(parts: seq<Contribution>)
    requires parts != [] && CollectNodes(parts).Success?
    ensures CollectNodes(parts[..|parts| - 1]).Success?
    ensures CollectNodes(parts).value ==
              CollectNodes(parts[..|parts| - 1]).value +
              (if parts[|parts| - 1].Some? then [parts[|parts| - 1].value.value] else [])
  {
  }

  /** No element below the top carries a namespace argument. */
  predicate Unqualified(c: Content)
  {
    match c
    case Value(_) => true
    case Elements(children) =>
      forall i :: 0 <= i < |children| ==> children[i].ns == None && Unqualified(children[i].content)
  }

  /** Whatever the walk writes below an element is written without namespace
      arguments. */
  lemma {:induction false} NestedElementsUnqualified(e: Element, env: Environment)
    requires ElementContent(e, env).Success?
    ensures Unqualified(ElementContent(e, env).value)
    decreases e
  {
    match e.elementType
    case Complex(Sequence(items)) =>
      SequenceContent(e, items, env);
      ChildrenFollowDeclaration(items, env);
      var nodes := ElementContent(e, env).value.children;
      var named := NamedChildren(items);
      forall k | 0 <= k < |nodes|
        ensures nodes[k].ns == None && Unqualified(nodes[k].content)
      {
        assert ElementItem(named[k]) in items;
        NestedElementsUnqualified(named[k], env);
      }
    case Complex(NotSequence) =>
    case Simple(_) =>
    case Unknown =>
  }

  /** Only the top-level elements carry the target namespace; everything below
      them is written without a namespace argument. */
  lemma OnlyRootsQualified(schema: MainSchema, env: Environment)
    requires Fragment(schema, env).Success?
    ensures forall k :: 0 <= k < |Fragment(schema, env).value| ==>
              Fragment(schema, env).value[k].ns == schema.targetNamespace &&
              Unqualified(Fragment(schema, env).value[k].content)
  {
    RootsFollowDeclaration(schema.elements, schema.targetNamespace, env);
    var nodes := Fragment(schema, env).value;
    var named := Named(schema.elements);
    forall k | 0 <= k < |nodes|
      ensures nodes[k].ns == schema.targetNamespace && Unqualified(nodes[k].content)
    {
      NestedElementsUnqualified(named[k], env);
    }
  }

  lemma {:induction false} NamedOfUnnamed(elements: seq<Element>)
    requires forall i :: 0 <= i < |elements| ==> elements[i].name.None?
    ensures Named(elements) == []
  {
    if elements != [] {
      NamedOfUnnamed(elements[..|elements| - 1]);
    }
  }

  lemma {:induction false} NamedOfAtMostOne(elements: seq<Element>)
    requires AtMostOneNamed(elements)
    ensures |Named(elements)| <= 1
  {
    if elements != [] {
      var n := |elements|;
      var init := elements[..n - 1];
      if elements[n - 1].name.Some? {
        assert forall i :: 0 <= i < |init| ==> init[i].name.None? by {
          forall i | 0 <= i < |init|
            ensures init[i].name.None?
          {
            assert init[i] == elements[i];
          }
        }
        NamedOfUnnamed(init);
      } else {
        NamedOfAtMostOne(init);
      }
    }
  }

  /** A document the pass writes has at most one top-level element, and it is
      the element of the only named global element. */
  lemma DocumentHasOneRoot(schema: MainSchema, env: Environment)
    requires Document(schema, env).Success?
    ensures |Document(schema, env).value| == |Named(schema.elements)| <= 1
    ensures forall k :: 0 <= k < |Document(schema, env).value| ==>
              ElementNode(Named(schema.elements)[k], schema.targetNamespace, env) == Some(Success(Document(schema, env).value[k]))
  {
    NamedOfAtMostOne(schema.elements);
    RootsFollowDeclaration(schema.elements, schema.targetNamespace, env);
  }

  /** Two named global elements `a` and `b` of unknown type: a fragment writer
      takes both, while the pass as written throws when it starts `b`. */
  lemma TwoRootsScenario(env: Environment)
    ensures var schema := MainSchema(None, [Element(Some("a"), Unknown), Element(Some("b"), Unknown)]);
            Fragment(schema, env) == Success([Node("a", None, Value("Sample_a")), Node("b", None, Value("Sample_b"))]) &&
            Document(schema, env) == Failure(WriterFailure(SecondRootElement("b")))
  {
    var a := Element(Some("a"), Unknown);
    var b := Element(Some("b"), Unknown);
    var schema := MainSchema(None, [a, b]);
    assert SamplePlaceholder(Some("a")) == "Sample_a" && SamplePlaceholder(Some("b")) == "Sample_b";
    assert ElementContent(a, env) == Success(Value("Sample_a"));
    assert ElementContent(b, env) == Success(Value("Sample_b"));
    var nodeA := Node("a", None, Value("Sample_a"));
    var nodeB := Node("b", None, Value("Sample_b"));
    var roots: seq<Contribution> := [Some(Success(nodeA)), Some(Success(nodeB))];
    assert RootNodes(schema, env) == roots;
    assert CollectNodes(roots) == Success([nodeA, nodeB]) by {
      assert roots[..1] == [Some(Success(nodeA))] && roots[..1][..0] == [];
      assert CollectNodes(roots[..1][..0]) == Success([]);
      assert [] + [nodeA] == [nodeA] && [nodeA] + [nodeB] == [nodeA, nodeB];
      assert CollectNodes(roots[..1]) == Success([nodeA]);
    }
    var refused := WriterFailure(SecondRootElement("b"));
    assert NamedBefore(schema.elements, 1);
    var parts: seq<Contribution> := [Some(Success(nodeA)), Some(Failure(refused))];
    assert DocumentParts(schema.elements, None, env) == parts;
    assert CollectNodes(parts) == Failure(refused) by {
      assert parts[..1] == [Some(Success(nodeA))] && parts[..1][..0] == [];
    }
  }

  /** No length or minLength facet anywhere below `e`. */
  predicate FreeOfCountFacets(e: Element)
  {
    match e.elementType
    case Complex(Sequence(items)) =>
      forall i :: 0 <= i < |items| ==> items[i].ElementItem? ==> FreeOfCountFacets(items[i].element)
    case Complex(NotSequence) => true
    case Simple(st) =>
      st.content.Restriction? ==>
        forall i :: 0 <= i < |st.content.facets| ==> !IsCountKind(st.content.facets[i].kind)
    case Unknown => true
  }

  /** The walk cannot fail by itself: without a length or minLength facet below
      an element, only the writer's refusal of a character can make it throw. */
  lemma {:induction false} WalkFailsOnlyOnCountFacets(e: Element, env: Environment)
    requires FreeOfCountFacets(e)
    ensures ElementContent(e, env).Failure? ==> ElementContent(e, env).error.WriterFailure? && ElementContent(e, env).error.write.InvalidCharacter?
    decreases e
  {
    match e.elementType
    case Complex(Sequence(items)) =>
      var parts := ItemNodes(items, env);
      SequenceContent(e, items, env);
      if CollectNodes(parts).Failure? {
        var err := CollectNodes(parts).error;
        var i :| 0 <= i < |parts| && parts[i] == Some(Failure(err));
        ItemNodeCases(items[i], env);
        WalkFailsOnlyOnCountFacets(items[i].element, env);
      }
    case Complex(NotSequence) =>
    case Simple(st) =>
    case Unknown =>
  }

  /** Without length and minLength facets, the pass throws only because the
      writer refuses a character or a second top-level element. */
  lemma DocumentWithoutCountFacets(schema: MainSchema, env: Environment)
    requires forall i :: 0 <= i < |schema.elements| ==> FreeOfCountFacets(schema.elements[i])
    ensures Document(schema, env).Failure? ==>
              Document(schema, env).error.WriterFailure? &&
              (Document(schema, env).error.write.InvalidCharacter? || Document(schema, env).error.write.SecondRootElement?)
  {
    var parts := DocumentParts(schema.elements, schema.targetNamespace, env);
    if CollectNodes(parts).Failure? {
      var err := CollectNodes(parts).error;
      var i :| 0 <= i < |parts| && parts[i] == Some(Failure(err));
      WalkFailsOnlyOnCountFacets(schema.elements[i], env);
    }
  }

  /** What the walk writes in each case: the named element items of a sequence
      (see `ChildrenFollowDeclaration`), nothing for any other particle, the
      synthesised value for a simple type, and `Sample_<name>` for an element
      whose type is neither; a value with a character XML does not allow is
      refused by the writer. */
  lemma ContentByKind(e: Element, env: Environment)
    ensures e.elementType.Complex? && !e.elementType.particle.Sequence? ==> ElementContent(e, env) == Success(Elements([]))
    ensures e.elementType.Simple? ==>
              match GenerateSimpleTypeValue(e.name, e.elementType.simpleType, env)
              case Success(v) =>
                ElementContent(e, env) == if IsXmlText(v) then Success(Value(v)) else Failure(WriterFailure(InvalidCharacter(v)))
              case Failure(err) => ElementContent(e, env) == Failure(FacetFailure(err))
    ensures e.elementType.Unknown? && e.name.Some? ==>
              var v := "Sample_" + e.name.value;
              ElementContent(e, env) == if IsXmlText(v) then Success(Value(v)) else Failure(WriterFailure(InvalidCharacter(v)))
    ensures e.elementType.Unknown? && e.name.None? ==> ElementContent(e, env) == Success(Elements([]))
  {
  }

  /** The body of the root of the string-child schema below. */
  lemma StringChildContent(env: Environment)
    ensures var child := Element(Some("child"), Simple(SimpleType(NoRestriction, String)));
            ElementContent(Element(Some("root"), Complex(Sequence([ElementItem(child)]))), env) ==
              Success(Elements([Node("child", None, Value("Sample_child"))]))
  {
    var child := Element(Some("child"), Simple(SimpleType(NoRestriction, String)));
    var root := Element(Some("root"), Complex(Sequence([ElementItem(child)])));
    assert SamplePlaceholder(Some("child")) == "Sample_child";
    assert GenerateSimpleTypeValue(Some("child"), SimpleType(NoRestriction, String), env) == Success("Sample_child");
    assert ElementContent(child, env) == Success(Value("Sample_child"));
    var childNode := Node("child", None, Value("Sample_child"));
    var childParts: seq<Contribution> := [Some(Success(childNode))];
    assert ItemNodes([ElementItem(child)], env) == childParts;
    assert CollectNodes(childParts) == Success([childNode]) by {
      assert childParts[..0] == [];
      assert CollectNodes(childParts[..0]) == Success([]);
      assert [] + [childNode] == [childNode];
    }
    SequenceContent(root, [ElementItem(child)], env);
  }

  /** The writer calls for `<root><child>Sample_child</child></root>`. */
  lemma StringChildEvents()
    ensures NodesEvents([Node("root", None, Elements([Node("child", None, Value("Sample_child"))]))]) ==
              [StartTag("root", None), StartTag("child", None), TextNode("Sample_child"), EndTag("child"), EndTag("root")]
  {
    var childNode := Node("child", None, Value("Sample_child"));
    var rootNode := Node("root", None, Elements([childNode]));
    var childEvents := [StartTag("child", None), TextNode("Sample_child"), EndTag("child")];
    assert NodeEvents(childNode) == childEvents;
    assert ContentEvents(Elements([childNode])) == childEvents by {
      var parts := seq(1, i requires 0 <= i < 1 => NodeEvents([childNode][i]));
      assert parts == [childEvents];
      assert parts[..0] == [];
      assert Concat(parts) == Concat([]) + childEvents;
    }
    assert NodesEvents([rootNode]) == [StartTag("root", None)] + childEvents + [EndTag("root")] by {
      var parts := seq(1, i requires 0 <= i < 1 => NodeEvents([rootNode][i]));
      assert parts == [NodeEvents(rootNode)];
      assert parts[..0] == [];
      assert Concat(parts) == Concat([]) + NodeEvents(rootNode);
    }
  }

  /** A root with one string-typed child and no facets gives
      `<root><child>Sample_child</child></root>`. */
  lemma StringChildScenario(env: Environment)
    ensures var child := Element(Some("child"), Simple(SimpleType(NoRestriction, String)));
            var schema := MainSchema(None, [Element(Some("root"), Complex(Sequence([ElementItem(child)])))]);
            Document(schema, env) == Success([Node("root", None, Elements([Node("child", None, Value("Sample_child"))]))]) &&
            NodesEvents(Document(schema, env).value) ==
              [StartTag("root", None), StartTag("child", None), TextNode("Sample_child"), EndTag("child"), EndTag("root")]
  {
    var child := Element(Some("child"), Simple(SimpleType(NoRestriction, String)));
    var root := Element(Some("root"), Complex(Sequence([ElementItem(child)])));
    var schema := MainSchema(None, [root]);
    assert AtMostOneNamed(schema.elements);
    StringChildContent(env);
    StringChildEvents();
    var rootNode := Node("root", None, Elements([Node("child", None, Value("Sample_child"))]));
    var rootParts: seq<Contribution> := [Some(Success(rootNode))];
    assert RootNodes(schema, env) == rootParts;
    assert CollectNodes(rootParts) == Success([rootNode]) by {
      assert rootParts[..0] == [];
      assert CollectNodes(rootParts[..0]) == Success([]);
      assert [] + [rootNode] == [rootNode];
    }
  }

  /** A leaf restricted to the enumeration red, green, blue gets `red`. */
  lemma EnumerationScenario(env: Environment)
    ensures var facets := [Facet(Enumeration, Some("red")), Facet(Enumeration, Some("green")), Facet(Enumeration, Some("blue"))];
            ElementContent(Element(Some("color"), Simple(SimpleType(Restriction(facets), String))), env) == Success(Value("red"))
  {
  }

  /** A pattern for which the regex generator produces a control character:
      the writer refuses the text and the pass throws. */
  lemma ControlCharacterScenario(env: Environment)
    requires env.xeger(".") == Some("\U{1}")
    ensures var word := Element(Some("word"), Simple(SimpleType(Restriction([Facet(Pattern, Some("."))]), String)));
            ElementContent(word, env) == Failure(WriterFailure(InvalidCharacter("\U{1}")))
  {
    assert !IsXmlChar("\U{1}"[0]);
  }
}
