/** Schema validation of one snippet through the Prism engine: build the
    tree, choose what to parse it as, parse it in validation mode and return
    the logs the parsing context recorded. */
module CodeValidatorImpl {
  import opened Wrappers
  import opened Exceptions
  import opened Diagnostics
  import opened SupportedLanguages
  import opened Prism
  import opened CodeValidators

  /** `ValidationParams`; `None` stands for a `null` component. */
  datatype ValidationParams = ValidationParams(objectType: Option<string>, itemPath: Option<string>)

  /** What the tree is parsed as. */
  datatype Scope =
    | WholeObject                                       // a self-describing object
    | AsDefinition(definition: Option<ItemDefinition>)  // an item of the given, possibly absent, definition
    | UnknownType                                       // the object type names no complex type
    | ScopeError(error: Exception)                      // qualifying the type name or parsing the item path threw

  const NullComplexType := PlainException("Complex type definition is null.")

  /** The message for an unsupported language names the enum constant. */
  function UnsupportedLanguage(l: SupportedLanguage): Exception {
    PlainException(Name(l) + " language is not supported.")
  }

  /** The complex type an object type names, through the schema registry, or
      the exception qualifying the name threw. */
  function ComplexTypeOf(engine: Engine, objectType: string): Result<Option<ComplexTypeDefinition>, Exception> {
    match engine.qualifyTypeName(UnqualifiedName(objectType))
    case Failure(e) => Failure(e)
    case Success(typeName) => Success(engine.findComplexTypeDefinitionByType(typeName))
  }

  /** The definition the tree is parsed against. It depends on the parameters
      and the schema only, never on the snippet. */
  function ResolveScope(engine: Engine, params: ValidationParams): (s: Scope)
    ensures s.WholeObject? <==> params.objectType.None?
    ensures s.UnknownType? <==> params.objectType.Some? && ComplexTypeOf(engine, params.objectType.value) == Success(None)
    ensures s.ScopeError? <==>
      params.objectType.Some? &&
      (ComplexTypeOf(engine, params.objectType.value).Failure? ||
       (ComplexTypeOf(engine, params.objectType.value).value.Some? &&
        params.itemPath.Some? && engine.asItemPath(params.itemPath.value).Failure?))
    ensures params.objectType.Some? && ComplexTypeOf(engine, params.objectType.value).Failure? ==>
      s == ScopeError(ComplexTypeOf(engine, params.objectType.value).error)
    ensures params.objectType.Some? && params.itemPath.None? && ComplexTypeOf(engine, params.objectType.value).Success? &&
            ComplexTypeOf(engine, params.objectType.value).value.Some? ==>
      s == AsDefinition(Some(NewValueContainer(ComplexTypeOf(engine, params.objectType.value).value.value)))
    ensures params.objectType.Some? && params.itemPath.Some? && ComplexTypeOf(engine, params.objectType.value).Success? &&
            ComplexTypeOf(engine, params.objectType.value).value.Some? ==>
      var container := NewValueContainer(ComplexTypeOf(engine, params.objectType.value).value.value);
      var path := engine.asItemPath(params.itemPath.value);
      s == if path.Success? then AsDefinition(engine.findItemDefinition(container, path.value)) else ScopeError(path.error)
  {
    match params.objectType
    case None => WholeObject
    case Some(objectType) =>
      match ComplexTypeOf(engine, objectType)
      case Failure(e) => ScopeError(e)
      case Success(None) => UnknownType
      case Success(Some(complexType)) =>
        var container := NewValueContainer(complexType);
        match params.itemPath
        case None => AsDefinition(Some(container))
        case Some(path) =>
          match engine.asItemPath(path)
          case Failure(e) => ScopeError(e)
          case Success(itemPath) => AsDefinition(engine.findItemDefinition(container, itemPath))
  }

  /** Parsing the tree in the chosen scope: a resolved scope is parsed with the
      validating context; an unresolved one fails before anything is parsed. */
  function ParseInScope(engine: Engine, scope: Scope, root: RootXNode): Step<()> {
    match scope
    case WholeObject => engine.parse(root, Validation)
    case AsDefinition(definition) => engine.parseItem(root, definition, Validation)
    case UnknownType => Step([], Failure(NullComplexType))
    case ScopeError(e) => Step([], Failure(e))
  }

  /** The `try` block: every log the parsing context recorded, and how the
      block ended. */
  function TryBlock(engine: Engine, params: ValidationParams, text: string, language: SupportedLanguage): (s: Step<()>)
    ensures var tree := engine.parseToXNode(text, Value(language), Validation);
      tree.logs <= s.logs && (tree.outcome.Failure? ==> s == Step(tree.logs, Failure(tree.outcome.error)))
    // a built tree: the logs of building it, then those of the one parse call the parameters select
    ensures var tree := engine.parseToXNode(text, Value(language), Validation);
      tree.outcome.Success? && params.objectType.None? ==>
        var p := engine.parse(tree.outcome.value, Validation);
        s == Step(tree.logs + p.logs, p.outcome)
    ensures var tree := engine.parseToXNode(text, Value(language), Validation);
      tree.outcome.Success? && params.objectType.Some? ==>
        match ResolveScope(engine, params)
        case AsDefinition(d) =>
          var p := engine.parseItem(tree.outcome.value, d, Validation);
          s == Step(tree.logs + p.logs, p.outcome)
        case UnknownType => s == Step(tree.logs, Failure(NullComplexType))
        case ScopeError(e) => s == Step(tree.logs, Failure(e))
        case WholeObject => false
  {
    var tree := engine.parseToXNode(text, Value(language), Validation);
    match tree.outcome
    case Failure(e) => Step(tree.logs, Failure(e))
    case Success(root) =>
      var parsed := ParseInScope(engine, ResolveScope(engine, params), root);
      Step(tree.logs + parsed.logs, parsed.outcome)
  }

  /** The `catch (SchemaException)`: a schema exception ends the block but not
      the validation; any other exception propagates. */
  function CatchSchema(s: Step<()>): (r: Outcome)
    ensures r.Success? <==> s.outcome.Success? || s.outcome.error.SchemaException?
    ensures r.Success? ==> r.value == s.logs
    ensures r.Failure? ==> r.error == s.outcome.error && !r.error.SchemaException?
  {
    match s.outcome
    case Success(_) => Success(s.logs)
    case Failure(e) => if e.SchemaException? then Success(s.logs) else Failure(e)
  }

  /** `validate(rawObject, language)`. */
  function Validate(engine: Engine, params: ValidationParams, raw: Option<string>, language: Option<SupportedLanguage>): (r: Outcome)
    ensures raw.None? ==> r == Failure(EmptyBody)
    ensures raw.Some? && language.None? ==> r == Failure(NullPointerException)
    ensures r.Failure? ==> !r.error.SchemaException?
    ensures raw.Some? && language.Some? && r.Success? ==>
      engine.parseToXNode(raw.value, Value(language.value), Validation).logs <= r.value
  {
    if raw.None? then Failure(EmptyBody)
    else if language.None? then Failure(NullPointerException)
    else if !IsSupported(Some(Value(language.value))) then Failure(UnsupportedLanguage(language.value))
    else CatchSchema(TryBlock(engine, params, raw.value, language.value))
  }

  /** The validator `ValidatorProviderImpl` hands out for `params`, seen
      through the `CodeValidator` interface: it never lets a schema exception
      escape, so composing it with other validators cannot either. */
  function AsValidator(engine: Engine, params: ValidationParams): (v: Validator)
    ensures forall raw, language :: v(raw, language).Failure? ==> !v(raw, language).error.SchemaException?
    ensures forall language :: v(None, language) == Failure(EmptyBody)
  {
    (raw, language) => Validate(engine, params, raw, language)
  }

  // ---------------------------------------------------------------------
  // Properties
  // ---------------------------------------------------------------------

  /** What validation returns once the tree is built and one parse call has
      run: the logs of both, unless the parse threw something other than a
      schema exception. */
  function Swallow(tree: Step<RootXNode>, parsed: Step<()>): Outcome {
    if parsed.outcome.Success? || parsed.outcome.error.SchemaException? then Success(tree.logs + parsed.logs)
    else Failure(parsed.outcome.error)
  }

  /** Without an object type, a built tree is parsed as a whole object. */
  lemma ValidateWholeObject(engine: Engine, params: ValidationParams, text: string, language: SupportedLanguage)
    requires params.objectType.None?
    requires engine.parseToXNode(text, Value(language), Validation).outcome.Success?
    ensures var tree := engine.parseToXNode(text, Value(language), Validation);
      Validate(engine, params, Some(text), Some(language)) == Swallow(tree, engine.parse(tree.outcome.value, Validation))
  {
    EveryValueSupported(language);
  }

  /** With a known object type and no item path, a built tree is parsed as
      the `value` container of that type. */
  lemma ValidateValueContainer(engine: Engine, params: ValidationParams, text: string, language: SupportedLanguage,
                               complexType: ComplexTypeDefinition)
    requires params.objectType.Some? && params.itemPath.None?
    requires ComplexTypeOf(engine, params.objectType.value) == Success(Some(complexType))
    requires engine.parseToXNode(text, Value(language), Validation).outcome.Success?
    ensures var tree := engine.parseToXNode(text, Value(language), Validation);
      Validate(engine, params, Some(text), Some(language)) ==
        Swallow(tree, engine.parseItem(tree.outcome.value, Some(NewValueContainer(complexType)), Validation))
  {
    EveryValueSupported(language);
  }

  /** With a known object type and an item path that parses, a built tree is
      parsed as the item the path selects in the `value` container. */
  lemma ValidateSelectedItem(engine: Engine, params: ValidationParams, text: string, language: SupportedLanguage,
                             complexType: ComplexTypeDefinition, path: ItemPath)
    requires params.objectType.Some? && params.itemPath.Some?
    requires ComplexTypeOf(engine, params.objectType.value) == Success(Some(complexType))
    requires engine.asItemPath(params.itemPath.value) == Success(path)
    requires engine.parseToXNode(text, Value(language), Validation).outcome.Success?
    ensures var tree := engine.parseToXNode(text, Value(language), Validation);
      var item := engine.findItemDefinition(NewValueContainer(complexType), path);
      Validate(engine, params, Some(text), Some(language)) ==
        Swallow(tree, engine.parseItem(tree.outcome.value, item, Validation))
  {
    EveryValueSupported(language);
  }

  /** The language check never rejects a language the enum defines. */
  lemma LanguageCheckNeverFails(language: SupportedLanguage)
    ensures IsSupported(Some(Value(language)))
    ensures forall engine, params, text ::
      Validate(engine, params, Some(text), Some(language)) == CatchSchema(TryBlock(engine, params, text, language))
  {
    EveryValueSupported(language);
  }

  /** A tree that cannot be built: a schema exception leaves exactly the logs
      recorded so far; any other exception is the result. */
  lemma TreeFailure(engine: Engine, params: ValidationParams, text: string, language: SupportedLanguage)
    requires engine.parseToXNode(text, Value(language), Validation).outcome.Failure?
    ensures var tree := engine.parseToXNode(text, Value(language), Validation);
      Validate(engine, params, Some(text), Some(language)) ==
        if tree.outcome.error.SchemaException? then Success(tree.logs) else Failure(tree.outcome.error)
  {
    EveryValueSupported(language);
  }

  /** An object type that names no complex type ends validation with an
      exception, which is not a schema exception and so is not swallowed. */
  lemma UnknownObjectTypeFails(engine: Engine, params: ValidationParams, text: string, language: SupportedLanguage)
    requires engine.parseToXNode(text, Value(language), Validation).outcome.Success?
    requires params.objectType.Some? && ComplexTypeOf(engine, params.objectType.value) == Success(None)
    ensures Validate(engine, params, Some(text), Some(language)) == Failure(NullComplexType)
  {
    EveryValueSupported(language);
  }

  /** Qualifying the object type's name runs inside the `try`: a schema
      exception it throws ends validation with the logs recorded so far, and
      any other exception escapes. */
  lemma QualifyFailure(engine: Engine, params: ValidationParams, text: string, language: SupportedLanguage)
    requires engine.parseToXNode(text, Value(language), Validation).outcome.Success?
    requires params.objectType.Some? && engine.qualifyTypeName(UnqualifiedName(params.objectType.value)).Failure?
    ensures var tree := engine.parseToXNode(text, Value(language), Validation);
      var e := engine.qualifyTypeName(UnqualifiedName(params.objectType.value)).error;
      Validate(engine, params, Some(text), Some(language)) ==
        if e.SchemaException? then Success(tree.logs) else Failure(e)
  {
    EveryValueSupported(language);
    var tree := engine.parseToXNode(text, Value(language), Validation);
    assert tree.logs + [] == tree.logs;
  }

  /** Without an object type the item path is ignored. */
  lemma ItemPathIgnoredWithoutObjectType(engine: Engine, path1: Option<string>, path2: Option<string>,
                                         raw: Option<string>, language: Option<SupportedLanguage>)
    ensures Validate(engine, ValidationParams(None, path1), raw, language) ==
            Validate(engine, ValidationParams(None, path2), raw, language)
  {
  }

  /** Without an object type the schema registry is never consulted: engines
      that build and parse trees alike validate alike. */
  lemma WholeObjectIgnoresRegistry(e1: Engine, e2: Engine, params: ValidationParams,
                                   raw: Option<string>, language: Option<SupportedLanguage>)
    requires params.objectType.None?
    requires e1.parseToXNode == e2.parseToXNode && e1.parse == e2.parse
    ensures Validate(e1, params, raw, language) == Validate(e2, params, raw, language)
  {
  }

  /** With an object type but no item path the tree is parsed as the `value`
      container of that type: `parse` and the item-path parser play no part. */
  lemma ContainerIgnoresItemPathParser(e1: Engine, e2: Engine, params: ValidationParams,
                                       raw: Option<string>, language: Option<SupportedLanguage>)
    requires params.objectType.Some? && params.itemPath.None?
    requires e1.parseToXNode == e2.parseToXNode && e1.qualifyTypeName == e2.qualifyTypeName
    requires e1.findComplexTypeDefinitionByType == e2.findComplexTypeDefinitionByType
    requires e1.parseItem == e2.parseItem
    ensures Validate(e1, params, raw, language) == Validate(e2, params, raw, language)
  {
  }

  /** With an object type and an item path the tree is parsed as the item the
      path selects inside the `value` container; `parse` plays no part. */
  lemma ItemPathIgnoresWholeObjectParser(e1: Engine, e2: Engine, params: ValidationParams,
                                         raw: Option<string>, language: Option<SupportedLanguage>)
    requires params.objectType.Some? && params.itemPath.Some?
    requires e1.parseToXNode == e2.parseToXNode && e1.qualifyTypeName == e2.qualifyTypeName
    requires e1.findComplexTypeDefinitionByType == e2.findComplexTypeDefinitionByType
    requires e1.asItemPath == e2.asItemPath && e1.findItemDefinition == e2.findItemDefinition
    requires e1.parseItem == e2.parseItem
    ensures Validate(e1, params, raw, language) == Validate(e2, params, raw, language)
  {
  }

  /** Validation passes exactly when the tree is built and parsed, or a schema
      exception is thrown, without any log being recorded. */
  lemma PassesIff(engine: Engine, params: ValidationParams, text: string, language: SupportedLanguage)
    ensures var s := TryBlock(engine, params, text, language);
      Passes(Validate(engine, params, Some(text), Some(language))) <==>
        s.logs == [] && (s.outcome.Success? || s.outcome.error.SchemaException?)
  {
    EveryValueSupported(language);
  }
}
