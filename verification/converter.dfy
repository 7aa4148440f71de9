/** Conversion of a snippet from one supported language to another through
    the Prism engine, without schema validation. */
module Converter {
  import opened Wrappers
  import opened Exceptions
  import opened SupportedLanguages
  import opened Prism

  /** The message for an unsupported language names the language's value. */
  function UnsupportedLanguage(l: SupportedLanguage): Exception {
    PlainException(Value(l) + " language is not supported.")
  }

  /** The `try` block of `convert`: the `null` checks, then the tree built in
      compatibility mode, serialized in the target language. */
  function TryConvert(engine: Engine, targetLanguage: Option<string>, snippet: Option<string>,
                      language: Option<SupportedLanguage>): (r: Result<string, Exception>)
    ensures snippet.None? ==> r == Failure(EmptyBody)
    ensures snippet.Some? && language.None? ==> r == Failure(NullPointerException)
    ensures snippet.Some? && language.Some? ==>
      var tree := engine.parseToXNode(snippet.value, Value(language.value), Compatibility);
      r == if tree.outcome.Failure? then Failure(tree.outcome.error) else engine.serialize(targetLanguage, tree.outcome.value)
  {
    match (snippet, language)
    case (None, _) => Failure(EmptyBody)
    case (Some(_), None) => Failure(NullPointerException)
    case (Some(text), Some(l)) =>
      EveryValueSupported(l);
      if !IsSupported(Some(Value(l))) then Failure(UnsupportedLanguage(l))
      else
        var tree := engine.parseToXNode(text, Value(l), Compatibility);
        match tree.outcome
        case Failure(e) => Failure(e)
        case Success(root) => engine.serialize(targetLanguage, root)
  }

  /** `new Converter(targetLanguage).convert(snippet, language)`: every
      exception leaves wrapped in a `RuntimeException`. */
  function Convert(engine: Engine, targetLanguage: Option<string>, snippet: Option<string>,
                   language: Option<SupportedLanguage>): (r: Result<string, Exception>)
    ensures r.Failure? ==> r.error.RuntimeException?
    ensures snippet.None? ==> r == Failure(RuntimeException(EmptyBody))
    ensures snippet.Some? && language.None? ==> r == Failure(RuntimeException(NullPointerException))
  {
    match TryConvert(engine, targetLanguage, snippet, language)
    case Success(text) => Success(text)
    case Failure(e) => Failure(RuntimeException(e))
  }

  /** For a snippet and a language, conversion yields exactly what the engine
      serializes from the tree it builds in compatibility mode, and fails
      exactly when building or serializing fails, with that cause. */
  lemma ConvertSerializesTree(engine: Engine, targetLanguage: Option<string>, snippet: string, language: SupportedLanguage)
    ensures var tree := engine.parseToXNode(snippet, Value(language), Compatibility);
      var r := Convert(engine, targetLanguage, Some(snippet), Some(language));
      && (r.Success? <==> tree.outcome.Success? && engine.serialize(targetLanguage, tree.outcome.value).Success?)
      && (r.Success? ==> r.value == engine.serialize(targetLanguage, tree.outcome.value).value)
      && (tree.outcome.Failure? ==> r == Failure(RuntimeException(tree.outcome.error)))
      && (tree.outcome.Success? && r.Failure? ==>
            r == Failure(RuntimeException(engine.serialize(targetLanguage, tree.outcome.value).error)))
  {
    EveryValueSupported(language);
  }

  /** The logs the compatibility-mode parse may record play no part in the result. */
  lemma ConvertIgnoresLogs(e1: Engine, e2: Engine, targetLanguage: Option<string>, snippet: Option<string>,
                           language: Option<SupportedLanguage>)
    requires forall t, v :: e1.parseToXNode(t, v, Compatibility).outcome == e2.parseToXNode(t, v, Compatibility).outcome
    requires e1.serialize == e2.serialize
    ensures Convert(e1, targetLanguage, snippet, language) == Convert(e2, targetLanguage, snippet, language)
  {
  }
}
