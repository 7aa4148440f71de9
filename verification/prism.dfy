/** The part of the Prism schema engine the validator and the converter call.
    The engine itself is outside this model: each operation is a field of
    `Engine`, so every statement proved here holds for every engine. */
module Prism {
  import opened Wrappers
  import opened Exceptions
  import opened Diagnostics

  /** A `javax.xml.namespace.QName`; the one-argument constructor leaves the
      namespace empty. */
  datatype QName = QName(namespaceUri: string, localPart: string)

  function UnqualifiedName(localPart: string): QName {
    QName("", localPart)
  }

  /** A parsed tree, before any schema is applied; identified, not inspected. */
  datatype RootXNode = RootXNode(id: nat)

  datatype ComplexTypeDefinition = ComplexTypeDefinition(typeName: QName)

  datatype ItemPath = ItemPath(segments: seq<QName>)

  /** An item definition: a container built around a complex type, or one
      the schema registry hands out. */
  datatype ItemDefinition =
    | ContainerDefinition(itemName: QName, complexType: ComplexTypeDefinition)
    | RegisteredDefinition(id: nat)

  /** The parsing context's mode: compatibility, and compatibility with
      validation switched on, in which problems are recorded as logs. */
  datatype ParsingMode = Compatibility | Validation

  /** One call that uses the parsing context: the logs it recorded, then its
      value or the exception it threw. */
  datatype Step<T> = Step(logs: seq<ValidationLog>, outcome: Result<T, Exception>)

  /** The engine operations. `qualifyTypeName` is declared to throw a
      `SchemaException`; the other lookups of the schema registry return
      `null` rather than throw. */
  datatype Engine = Engine(
    parseToXNode: (string, string, ParsingMode) -> Step<RootXNode>,
    qualifyTypeName: QName -> Result<QName, Exception>,
    findComplexTypeDefinitionByType: QName -> Option<ComplexTypeDefinition>,
    asItemPath: string -> Result<ItemPath, Exception>,
    findItemDefinition: (ItemDefinition, ItemPath) -> Option<ItemDefinition>,
    parseItem: (RootXNode, Option<ItemDefinition>, ParsingMode) -> Step<()>,
    parse: (RootXNode, ParsingMode) -> Step<()>,
    serialize: (Option<string>, RootXNode) -> Result<string, Exception>)

  /** `definitionFactory().newContainerDefinition(new QName("value"), type)`. */
  function NewValueContainer(complexType: ComplexTypeDefinition): ItemDefinition {
    ContainerDefinition(UnqualifiedName("value"), complexType)
  }
}
