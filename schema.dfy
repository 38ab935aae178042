/** The compiled schema graph as the generator sees it: read-only descriptors of
    elements, their simple or complex types and the facets of simple types.
    Descriptors form a finite tree here, so every walk over them terminates
    structurally. The compiled graph the generator walks can be cyclic (a complex
    type may contain an element of its own type), and the generator has no cycle
    guard: on such a schema it recurses without bound. That case is not
    expressible in this model. */
module Schema {
  import opened Wrappers

  /** The constraining facets of a simple-type restriction (W3C XML Schema 1.0
      Part 2, section 4.3). Only four kinds influence the generator; every other
      kind (maxLength, minInclusive, whiteSpace, ...) is `OtherFacet`. */
  datatype FacetKind = Enumeration | Pattern | Length | MinLength | OtherFacet

  /** One facet; its literal value as written in the schema, which may be null. */
  datatype Facet = Facet(kind: FacetKind, value: Option<string>)

  /** The XmlTypeCode of a simple type. The generator distinguishes the codes
      below; `Other` stands for every remaining code (float, double, anyURI, ...). */
  datatype TypeCode =
    | String
    | Int | Integer | NegativeInteger | NonNegativeInteger | NonPositiveInteger
    | PositiveInteger | UnsignedInt
    | Decimal | Boolean | Date | Time | DateTime
    | Long | Short
    | Other

  /** The content of a simple type: a restriction carries the facets declared in
      that restriction step; any other content (a list, a union, none at all)
      carries no facet the generator reads. */
  datatype SimpleContent = Restriction(facets: seq<Facet>) | NoRestriction

  datatype SimpleType = SimpleType(content: SimpleContent, typeCode: TypeCode)

  /** One item of a sequence particle: an element declaration, or something else
      (a nested sequence or choice, a group reference, a wildcard). */
  datatype Item = ElementItem(element: Element) | OtherItem

  /** The particle of a complex type: a sequence, or anything else (choice, all,
      no particle at all as in simple or complex content derivations). */
  datatype Particle = Sequence(items: seq<Item>) | NotSequence

  /** The compiled type of an element: complex, simple, or neither (no type was
      resolved, or it is of another kind). */
  datatype ElementType = Complex(particle: Particle) | Simple(simpleType: SimpleType) | Unknown

  /** An element declaration. Its name is null for a reference (`ref="..."`). */
  datatype Element = Element(name: Option<string>, elementType: ElementType)

  /** The main schema: its target namespace (possibly null) and its global
      element declarations in declaration order. */
  datatype MainSchema = MainSchema(targetNamespace: Option<string>, elements: seq<Element>)
}
