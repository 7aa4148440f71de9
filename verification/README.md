# midpilot-validator, modelled in Dafny

This project models the core of midpilot-validator, a service that checks
midPoint configuration objects written as XML, JSON or YAML. It covers
five parts:

- **Sniffer**: finds out which of the three languages a snippet is in, after
  skipping leading whitespace and comments.
- **Validator**: hands the snippet to the Prism schema engine in validation
  mode and returns the validation logs the parsing context recorded. It parses
  the snippet as a self-describing object, as the `value` container of a named
  object type, or as the item an item path selects inside that container.
- **Converter**: parses a snippet and serializes the tree in another language.
- **Log serializers**: render validation logs as JSON in two shapes. One is
  structured, with nested technical-message arguments. The other is flat,
  with every field a string.
- **Command line**: reads the command-line arguments, finds a file's language
  from its name, and prints the logs.

The Prism engine itself is not part of this model. It is the datatype
`Prism.Engine`, whose fields are the engine operations the code calls. Every
property below is proved for every engine.

Conventions:

- Java `null` is `Option.None`.
- A thrown exception is `Result.Failure` carrying an `Exceptions.Exception`.
- JSON output is the sequence of calls made on Jackson's `JsonGenerator` (a
  `JsonEvents.Event` trace). Each serializer is proved either to throw, in
  exactly the cases the code throws, or to write exactly the encoding of a
  `JsonEvents.Json` document. That document reads back
  unchanged, and its start and end events nest properly.

Three behaviours of the code that the model keeps:

- `validate` does not turn every failure into a log. It throws in four cases:
  - a `null` body;
  - a `null` language (a `NullPointerException`);
  - an object type that names no complex type;
  - any exception from the engine other than a `SchemaException`.
  Only schema exceptions are swallowed.
- The converter passes the target language to the engine unchecked.
- The sniffer recognises the YAML document marker `---` only at the start of
  the text after the leading noise, not on a later line.

What `stripLeadingNoise` removes is stated in module `LeadingNoise`, one
comment kind at a time. For each kind, leading whitespace and one complete
comment in front of significant text are removed, and the text after them is
kept whole.

## Model

| member | source | states |
|---|---|---|
| SupportedLanguages.FindFirst | src/main/java/com/evolveum/validation/common/SupportedLanguage.java:36-38 | a constant that is found is in the list and matches the value ignoring case; when none is found, no constant in the list matches |
| SupportedLanguages.FromValue | src/main/java/com/evolveum/validation/common/SupportedLanguage.java:35-39 | the constant found matches the value ignoring case; no constant is found exactly when none matches, which includes a `null` value |
| SupportedLanguages.IsSupported | src/main/java/com/evolveum/validation/common/SupportedLanguage.java:41-43 | a value is supported exactly when some constant's value matches it ignoring case |
| SupportedLanguages.AllLanguagesListed | src/main/java/com/evolveum/validation/common/SupportedLanguage.java:21-23 | the list searched by `fromValue` holds every constant |
| SupportedLanguages.ValuesDistinct | src/main/java/com/evolveum/validation/common/SupportedLanguage.java:21-23 | no two constants' values are equal ignoring case, so `findFirst` is never ambiguous |
| SupportedLanguages.FromValueIgnoresCase | src/main/java/com/evolveum/validation/common/SupportedLanguage.java:35-39 | every case variant of a constant's value selects exactly that constant |
| SupportedLanguages.FromValueRoundTrip | src/main/java/com/evolveum/validation/common/SupportedLanguage.java:31-39 | `fromValue(l.getValue())` is `l` for every constant |
| SupportedLanguages.FromValueExamples | src/main/java/com/evolveum/validation/common/SupportedLanguage.java:35-39 | "XML", "Xml" and "xml" select XML; "yml" and `null` select nothing |
| SupportedLanguages.EveryValueSupported | src/main/java/com/evolveum/validation/common/SupportedLanguage.java:41-43 | every constant's own value is supported |
| LanguageUtils.IndexOfFindsFirst | src/main/java/com/evolveum/validation/util/LanguageUtils.java:47 | `indexOf` returns the first occurrence at or after the start position, and -1 exactly when there is none |
| LanguageUtils.IndexOf | src/main/java/com/evolveum/validation/util/LanguageUtils.java:47 | `indexOf` returns -1, or a position at or after the start where the whole pattern fits inside the text |
| LanguageUtils.SkipWhitespace | src/main/java/com/evolveum/validation/util/LanguageUtils.java:36-38 | the whitespace skip stops at the first non-whitespace character, or at the end, and passes over whitespace only |
| LanguageUtils.LineEnd | src/main/java/com/evolveum/validation/util/LanguageUtils.java:42 | a line comment runs to the first line feed, or to the end, and contains no line feed |
| LanguageUtils.ScanStep | src/main/java/com/evolveum/validation/util/LanguageUtils.java:34-65 | one pass of the loop body either moves strictly forward, or stops where the remaining text starts with something that is neither whitespace nor a comment opener |
| LanguageUtils.CommentAt | src/main/java/com/evolveum/validation/util/LanguageUtils.java:41-65 | each comment branch moves strictly forward; when no branch applies, the loop stops at that position |
| LanguageUtils.NoiseEnd | src/main/java/com/evolveum/validation/util/LanguageUtils.java:34-66 | when the scan ends at a position, that position is at or after the start and within the text, and the text from there on is empty or starts with something that is neither whitespace nor a comment |
| LanguageUtils.StripLeadingNoise | src/main/java/com/evolveum/validation/util/LanguageUtils.java:30-69 | the result is a suffix of the input; it is empty or starts with something that is neither whitespace nor a comment |
| LanguageUtils.SkipWhitespaceLoop | src/main/java/com/evolveum/validation/util/LanguageUtils.java:36-38 | the index loop computes the whitespace skip |
| LanguageUtils.SkipLineLoop | src/main/java/com/evolveum/validation/util/LanguageUtils.java:42 | the index loop computes the end of a line comment |
| LanguageUtils.ScanStepLoop | src/main/java/com/evolveum/validation/util/LanguageUtils.java:36-63 | the loop body, with its early returns, does what one scan step specifies |
| LanguageUtils.StripLeadingNoiseLoop | src/main/java/com/evolveum/validation/util/LanguageUtils.java:30-69 | the source's index loop returns the same string as the recursive definition |
| LanguageUtils.StripIdempotent | src/main/java/com/evolveum/validation/util/LanguageUtils.java:30-69 | stripping already stripped text changes nothing |
| LanguageUtils.SkipsWhitespacePrefix | src/main/java/com/evolveum/validation/util/LanguageUtils.java:36-38 | a whitespace prefix is skipped exactly up to its end |
| LanguageUtils.AdvanceContinues | src/main/java/com/evolveum/validation/util/LanguageUtils.java:41-63 | after a skipped comment, scanning resumes from the position the comment ended at |
| LanguageUtils.HashCommentStep | src/main/java/com/evolveum/validation/util/LanguageUtils.java:41-44 | a `#` comment is skipped up to, and not past, the next line feed |
| LanguageUtils.HashCommentWithoutLineFeed | src/main/java/com/evolveum/validation/util/LanguageUtils.java:41-44 | a `#` comment with no line feed after it leaves nothing |
| LanguageUtils.SlashCommentStep | src/main/java/com/evolveum/validation/util/LanguageUtils.java:53-56 | a `//` comment is skipped up to, and not past, the next line feed |
| LanguageUtils.SlashCommentWithoutLineFeed | src/main/java/com/evolveum/validation/util/LanguageUtils.java:53-56 | a `//` comment with no line feed after it leaves nothing |
| LanguageUtils.NoOccurrenceAfterOpener | src/main/java/com/evolveum/validation/util/LanguageUtils.java:47 | a terminator absent from the text after an opener is not found by the search that starts after the opener |
| LanguageUtils.UnterminatedMarkupComment | src/main/java/com/evolveum/validation/util/LanguageUtils.java:46-51 | `<!--` with no `-->` after it makes the result empty |
| LanguageUtils.UnterminatedBlockComment | src/main/java/com/evolveum/validation/util/LanguageUtils.java:58-63 | `/*` with no `*/` after it makes the result empty |
| LeadingNoise.IndexOfShift | src/main/java/com/evolveum/validation/util/LanguageUtils.java:47 | searching a text for a pattern from inside its suffix finds what searching the suffix finds, moved by the prefix's length |
| LeadingNoise.IndexOfExtend | src/main/java/com/evolveum/validation/util/LanguageUtils.java:59 | text appended after an occurrence does not change the first occurrence found |
| LeadingNoise.CloseFound | src/main/java/com/evolveum/validation/util/LanguageUtils.java:47 | the terminator search started after the opener stops at the terminator that closes the comment |
| LeadingNoise.WhitespaceContinues | src/main/java/com/evolveum/validation/util/LanguageUtils.java:36-38 | a whitespace character hands the scan on to the next position |
| LeadingNoise.SignificantStops | src/main/java/com/evolveum/validation/util/LanguageUtils.java:65 | the scan stops at the first position where significant text starts |
| LeadingNoise.MarkupCommentStep | src/main/java/com/evolveum/validation/util/LanguageUtils.java:46-51 | the first pass over whitespace and a closed `<!--` comment moves to just after its `-->` |
| LeadingNoise.BlockCommentStep | src/main/java/com/evolveum/validation/util/LanguageUtils.java:58-63 | the first pass over whitespace and a closed block comment moves to just after its `*/` |
| LeadingNoise.StripWhitespaceThenSignificant | src/main/java/com/evolveum/validation/util/LanguageUtils.java:30-68 | leading whitespace in front of significant text is removed, and the significant text is kept whole |
| LeadingNoise.StripHashCommentThenSignificant | src/main/java/com/evolveum/validation/util/LanguageUtils.java:41-44 | whitespace, one `#` comment line and its line feed in front of significant text are removed, and the significant text is kept whole |
| LeadingNoise.StripSlashCommentThenSignificant | src/main/java/com/evolveum/validation/util/LanguageUtils.java:53-56 | whitespace, one `//` comment line and its line feed in front of significant text are removed, and the significant text is kept whole |
| LeadingNoise.StripMarkupCommentThenSignificant | src/main/java/com/evolveum/validation/util/LanguageUtils.java:46-51 | whitespace and one closed `<!--` comment in front of significant text are removed, and the significant text is kept whole |
| LeadingNoise.StripBlockCommentThenSignificant | src/main/java/com/evolveum/validation/util/LanguageUtils.java:58-63 | whitespace and one closed block comment in front of significant text are removed, and the significant text is kept whole |
| LanguageUtils.MatchesYamlKeyIff | src/main/java/com/evolveum/validation/util/LanguageUtils.java:23 | the scanner accepts exactly the strings in the language of `[A-Za-z_][\w-]*\s*:.*`, under Java's default regex flags |
| LanguageUtils.MultiLineIsNotYamlKey | src/main/java/com/evolveum/validation/util/LanguageUtils.java:23 | a string with a line terminator after the key's colon is not matched, because `.` does not cross lines |
| LanguageUtils.MatchesYamlKey | src/main/java/com/evolveum/validation/util/LanguageUtils.java:23 | a match has at least two characters, starts with a letter or `_`, contains `:`, and does not end with a line terminator; a string without `:` never matches |
| LanguageUtils.DetectLanguage | src/main/java/com/evolveum/validation/util/LanguageUtils.java:7-28 | on the stripped text: nothing when it is empty; XML exactly for a leading `<`; JSON exactly for a leading `{` or `[`; YAML exactly for a leading `---` or a match of the key pattern |
| LanguageUtils.DetectIgnoresLeadingNoise | src/main/java/com/evolveum/validation/util/LanguageUtils.java:7-8 | the result is the same for the text and for the text with its leading noise stripped |
| LanguageUtils.MultiLineMappingUndetected | src/main/java/com/evolveum/validation/util/LanguageUtils.java:18-27 | a multi-line YAML mapping that does not start with `---` is not recognised |
| CodeValidators.Combine | src/main/java/com/evolveum/validation/validator/CodeValidator.java:36-40 | success exactly when both parts succeed, with the first part's logs followed by the second's; the first part's exception wins, then the second's |
| CodeValidators.Compose | src/main/java/com/evolveum/validation/validator/CodeValidator.java:35-41 | a composed validator succeeds on an input exactly when both parts succeed on it, and then returns the first part's logs followed by the second's |
| CodeValidators.ComposeAssociative | src/main/java/com/evolveum/validation/validator/CodeValidator.java:35-41 | composition groups either way, for every input |
| CodeValidators.AcceptIsIdentity | src/main/java/com/evolveum/validation/validator/CodeValidator.java:35-41 | composing with a validator that accepts everything, on either side, changes nothing |
| CodeValidators.ComposePassesIff | src/main/java/com/evolveum/validation/validator/CodeValidator.java:18-19 | a composed validator returns an empty list exactly when both parts do |
| CodeValidators.ComposeKeepsEveryLog | src/main/java/com/evolveum/validation/validator/CodeValidator.java:35-41 | the composition reports every log of either part and no other log |
| CodeValidatorImpl.ResolveScope | src/main/java/com/evolveum/validation/validator/CodeValidatorImpl.java:53-71 | the whole object is parsed exactly when no object type is given; the scope cannot be formed exactly when qualifying the type name fails, or the type is known and the item path cannot be parsed, and then with that exception; the type is unknown exactly when the registry finds no complex type for the qualified name; a known type without an item path gives the `value` container of that type, and with one the item the path selects in it |
| CodeValidatorImpl.TryBlock | src/main/java/com/evolveum/validation/validator/CodeValidatorImpl.java:47-72 | the logs recorded while building the tree come first; if the tree cannot be built, the block ends with exactly those logs and that exception; on a built tree it adds the logs and ends with the outcome of `parse` when no object type is given, and otherwise of `parseItem` against the resolved definition, or ends with the scope's exception |
| CodeValidatorImpl.CatchSchema | src/main/java/com/evolveum/validation/validator/CodeValidatorImpl.java:73-77 | the recorded logs are returned exactly when the block ends normally or with a schema exception; any other exception escapes, and a schema exception never does |
| CodeValidatorImpl.Validate | src/main/java/com/evolveum/validation/validator/CodeValidatorImpl.java:35-78 | a `null` body throws "Body input is empty."; a `null` language throws a `NullPointerException`; no schema exception escapes; on success the logs from building the tree come first |
| CodeValidatorImpl.LanguageCheckNeverFails | src/main/java/com/evolveum/validation/validator/CodeValidatorImpl.java:43-45 | the language check passes for every constant, so validation always reaches the `try` block |
| CodeValidatorImpl.TreeFailure | src/main/java/com/evolveum/validation/validator/CodeValidatorImpl.java:48-51 | if the tree cannot be built, a schema exception gives exactly the logs recorded so far, and any other exception is thrown |
| CodeValidatorImpl.UnknownObjectTypeFails | src/main/java/com/evolveum/validation/validator/CodeValidatorImpl.java:54-58 | an object type whose qualified name the registry does not know ends validation with "Complex type definition is null.", which is not swallowed |
| CodeValidatorImpl.QualifyFailure | src/main/java/com/evolveum/validation/validator/CodeValidatorImpl.java:53-77 | qualifying the object type's name runs inside the `try`: when it throws, a schema exception ends validation with the logs recorded while building the tree, and any other exception escapes |
| CodeValidatorImpl.ValidateWholeObject | src/main/java/com/evolveum/validation/validator/CodeValidatorImpl.java:67-77 | without an object type, validation of a built tree returns the logs of building and of `parse` when `parse` ends normally or with a schema exception, and otherwise throws what `parse` threw |
| CodeValidatorImpl.ValidateValueContainer | src/main/java/com/evolveum/validation/validator/CodeValidatorImpl.java:53-77 | with a known object type and no item path, validation of a built tree returns the logs of building and of `parseItem` against the `value` container of that type, unless that call throws something other than a schema exception, which escapes |
| CodeValidatorImpl.ValidateSelectedItem | src/main/java/com/evolveum/validation/validator/CodeValidatorImpl.java:53-77 | with a known object type and an item path that parses, validation of a built tree does the same with `parseItem` against the item the path selects in the `value` container |
| CodeValidatorImpl.AsValidator | src/main/java/com/evolveum/validation/validator/ValidatorProviderImpl.java:21-24 | the validator the provider hands out never lets a schema exception escape, and rejects a `null` body with "Body input is empty." whatever the language |
| CodeValidatorImpl.ItemPathIgnoredWithoutObjectType | src/main/java/com/evolveum/validation/validator/CodeValidatorImpl.java:53-71 | without an object type, the item path makes no difference |
| CodeValidatorImpl.WholeObjectIgnoresRegistry | src/main/java/com/evolveum/validation/validator/CodeValidatorImpl.java:70-71 | without an object type, the result depends only on how the engine builds and parses trees |
| CodeValidatorImpl.ContainerIgnoresItemPathParser | src/main/java/com/evolveum/validation/validator/CodeValidatorImpl.java:53-67 | with an object type and no item path, neither `parse` nor the item-path parser plays any part |
| CodeValidatorImpl.ItemPathIgnoresWholeObjectParser | src/main/java/com/evolveum/validation/validator/CodeValidatorImpl.java:53-65 | with an object type and an item path, `parse` plays no part |
| CodeValidatorImpl.PassesIff | src/main/java/com/evolveum/validation/validator/CodeValidatorImpl.java:47-77 | validation returns an empty list exactly when no log was recorded and the block ended normally or with a schema exception |
| Converter.Convert | src/main/java/com/evolveum/validation/converter/Converter.java:28-50 | every failure is a `RuntimeException`; a `null` snippet and a `null` language give the wrapped empty-body exception and the wrapped `NullPointerException` |
| Converter.TryConvert | src/main/java/com/evolveum/validation/converter/Converter.java:29-46 | a `null` snippet throws "Body input is empty."; a `null` language throws a `NullPointerException`; otherwise a tree that cannot be built gives its exception, and a built tree gives whatever serializing it in the target language gives |
| Converter.ConvertSerializesTree | src/main/java/com/evolveum/validation/converter/Converter.java:41-49 | conversion succeeds exactly when building the tree in compatibility mode and serializing it succeed, with the serializer's text; otherwise the cause is the failing step's exception |
| Converter.ConvertIgnoresLogs | src/main/java/com/evolveum/validation/converter/Converter.java:29-46 | logs recorded during a compatibility-mode parse have no effect on the result |
| ValidationLogSerializer.DefinitionEvents | src/main/java/com/evolveum/validation/validator/ValidationLogSerializer.java:43-45 | writing the definitions fails exactly when one of them is `null`, and then with a `NullPointerException` |
| ValidationLogSerializer.DefinitionListWrite | src/main/java/com/evolveum/validation/validator/ValidationLogSerializer.java:40-47 | a DEFINITION_LIST argument writes a `definitions` array of the definitions' texts when its value is an `ArrayList`, and an empty array otherwise, followed by its type |
| ValidationLogSerializer.DefinitionWrite | src/main/java/com/evolveum/validation/validator/ValidationLogSerializer.java:48-49 | a DEFINITION argument writes its value's text as a string, followed by its type |
| ValidationLogSerializer.PlainWrite | src/main/java/com/evolveum/validation/validator/ValidationLogSerializer.java:50-52 | any other argument writes its value as an object, or as null, followed by its type |
| Diagnostics.ValueOf | src/main/java/com/evolveum/validation/validator/ValidationLogSerializer.java:49 | a DEFINITION value's text: a text value is its own text; a list is its elements' texts, each `null` as "null", joined by ", " in brackets, so `[]` when empty, `[e]` for one element and `[a, b]` for two |
| ValidationLogSerializer.ArgumentEventsWrite | src/main/java/com/evolveum/validation/validator/ValidationLogSerializer.java:38-55 | an argument fails exactly when it cannot be written, and then with a `NullPointerException`; otherwise it writes its document |
| ValidationLogSerializer.ArgumentEvents | src/main/java/com/evolveum/validation/validator/ValidationLogSerializer.java:38-55 | an argument fails exactly when it cannot be written, only with a `NullPointerException`; otherwise its events open and close one object |
| ValidationLogSerializer.ArgumentsEventsWrite | src/main/java/com/evolveum/validation/validator/ValidationLogSerializer.java:37-56 | the arguments loop fails exactly when some argument cannot be written; otherwise it writes the arguments' documents in order |
| ValidationLogSerializer.LogDocumentFrame | src/main/java/com/evolveum/validation/validator/ValidationLogSerializer.java:28-61 | a log object holds type, specification, location (null when absent) and message, then a technical-message object with its message and arguments array |
| ValidationLogSerializer.LogEventsWrite | src/main/java/com/evolveum/validation/validator/ValidationLogSerializer.java:26-62 | one log fails exactly when one of its arguments cannot be written; otherwise it writes its document |
| ValidationLogSerializer.LogEvents | src/main/java/com/evolveum/validation/validator/ValidationLogSerializer.java:28-61 | a log fails exactly when one of its arguments cannot be written, only with a `NullPointerException`; otherwise its events open and close one object |
| ValidationLogSerializer.LogsEventsWrite | src/main/java/com/evolveum/validation/validator/ValidationLogSerializer.java:26-62 | the loop over the logs fails exactly when some log cannot be written; otherwise it writes the logs' documents in order |
| ValidationLogSerializer.SerializeWritesDocument | src/main/java/com/evolveum/validation/validator/ValidationLogSerializer.java:23-65 | serialization fails exactly when some argument cannot be written, and then with a `NullPointerException`; otherwise it writes the structured document, which reads back unchanged and nests properly |
| ValidationLogSerializer.Serialize | src/main/java/com/evolveum/validation/validator/ValidationLogSerializer.java:23-65 | serialization fails exactly when some log holds an argument that cannot be written, only with a `NullPointerException`; otherwise the events open and close one array |
| ValidationLogListSerializer.ArgumentTexts | src/main/java/com/evolveum/validation/validator/ValidationLogListSerializer.java:31 | `Arrays.toString` renders each argument, in order |
| ValidationLogListSerializer.LogEventsWrite | src/main/java/com/evolveum/validation/validator/ValidationLogListSerializer.java:26-34 | a log fails exactly when its technical message cannot be formatted with its arguments; otherwise its object holds validationLogType, location (null when absent), the formatted technicalMessage, technicalArguments and message, in that order, all plain values |
| ValidationLogListSerializer.LogsEventsWrite | src/main/java/com/evolveum/validation/validator/ValidationLogListSerializer.java:25-35 | the loop fails exactly when some log's technical message cannot be formatted; otherwise it writes the logs' documents in order |
| ValidationLogListSerializer.SerializeWritesDocument | src/main/java/com/evolveum/validation/validator/ValidationLogListSerializer.java:22-38 | serialization fails exactly when some log's technical message cannot be formatted, and then with an `IllegalFormatException`; otherwise it writes the flat document, which reads back unchanged and nests properly |
| ValidationLogListSerializer.Serialize | src/main/java/com/evolveum/validation/validator/ValidationLogListSerializer.java:22-38 | serialization fails only with an `IllegalFormatException`, exactly when some template does not fit its arguments; otherwise the events open and close one array, and no logs give exactly an empty array |
| ValidationLogListSerializer.LogEventsHaveNoArrays | src/main/java/com/evolveum/validation/validator/ValidationLogListSerializer.java:26-34 | a flat log object that is written opens no array |
| ValidationLogListSerializer.OnlyArrayIsOuter | src/main/java/com/evolveum/validation/validator/ValidationLogListSerializer.java:22-38 | when serialization succeeds, the outer list is the only array written, so the technical arguments are one string |
| ValidationLogListSerializer.FormatFailureStopsList | src/main/java/com/evolveum/validation/validator/ValidationLogListSerializer.java:25-30 | one log whose template does not fit its arguments makes the whole serialization throw `IllegalFormatException`, whatever the other logs are |
| AppCommand.LastIndexOf | src/main/java/com/evolveum/validation/command/AppCommand.java:141 | `lastIndexOf` finds the last occurrence, and returns -1 exactly when there is none |
| AppCommand.FileName | src/main/java/com/evolveum/validation/command/AppCommand.java:140 | a file name contains no slash; taking it throws exactly for a non-empty path made of slashes only |
| AppCommand.FileNameIsLastSegment | src/main/java/com/evolveum/validation/command/AppCommand.java:140 | the file name of `dir/name` is `name`, and a name without slashes is its own file name |
| AppCommand.LangByFileName | src/main/java/com/evolveum/validation/command/AppCommand.java:141-147 | a language is found only for a name with a dot after its first character and no dot after that one, whose extension matches the language's value ignoring case; a name with no dot after its first character has none |
| AppCommand.LangByPath | src/main/java/com/evolveum/validation/command/AppCommand.java:139-148 | looking up a path fails exactly for a path with a NUL character, with an `InvalidPathException`, or a non-empty path of slashes only, with a `NullPointerException` |
| AppCommand.LangByExtension | src/main/java/com/evolveum/validation/command/AppCommand.java:139-148 | `stem.ext` with a non-empty stem and no dot in `ext` is looked up by `ext` |
| AppCommand.NoExtensionNoLanguage | src/main/java/com/evolveum/validation/command/AppCommand.java:141-147 | a name with no dot after its first character has no language |
| AppCommand.HiddenFileHasNoLanguage | src/main/java/com/evolveum/validation/command/AppCommand.java:142 | a name whose only dot is its first character has no language |
| AppCommand.LangByPathFindsLanguage | src/main/java/com/evolveum/validation/command/AppCommand.java:139-148 | a file `dir/stem.ext` whose extension matches a language's value ignoring case is read as that language |
| AppCommand.Run | src/main/java/com/evolveum/validation/command/AppCommand.java:42-81 | no arguments do nothing; an unknown command only prints the commands; a wrong argument count for a known command prints the usage and throws "Bad argument input"; `validate` with the samples flag validates the samples, and with any other single argument validates it as a snippet in the sniffed language; `validate` with a second argument other than `-f` does nothing; `validate x -f` validates the file in the language its name gives, and rejects it when the name gives none or the path is invalid; `convert` converts the snippet from its sniffed language to the target |
| AppCommand.RunExamples | src/main/java/com/evolveum/validation/command/AppCommand.java:42-81 | concrete runs: no arguments, an unknown command, missing arguments, the samples flag, and a third argument other than `-f`, which does nothing |
| AppCommand.ValidateSnippetOutcome | src/main/java/com/evolveum/validation/command/AppCommand.java:50-52 | a snippet whose language is not detected fails validation with a `NullPointerException` |
| AppCommand.ConvertSnippetOutcome | src/main/java/com/evolveum/validation/command/AppCommand.java:70-72 | a snippet whose language is not detected fails conversion with a wrapped `NullPointerException` |
| AppCommand.UndetectedSnippetFails | src/main/java/com/evolveum/validation/command/AppCommand.java:45-76 | a multi-line YAML mapping given on the command line reaches the validator and the converter with no language, and both fail with a null dereference |
| AppCommand.LogLinesIff | src/main/java/com/evolveum/validation/command/AppCommand.java:90-92 | printing fails exactly when some log has no location; otherwise there is one line per log, in order |
| AppCommand.LogLine | src/main/java/com/evolveum/validation/command/AppCommand.java:91 | a log's error line fails exactly when the log has no location, with a `NullPointerException`; otherwise it ends with the log's message and a line feed |
| AppCommand.LogLines | src/main/java/com/evolveum/validation/command/AppCommand.java:90-92 | the loop fails only with a `NullPointerException`, and otherwise gives one line per log |
| AppCommand.PrintLogsIff | src/main/java/com/evolveum/validation/command/AppCommand.java:87-94 | "Object is correct" is printed exactly when there are no logs; otherwise each log gets an error line that ends with its message |
| AppCommand.PrintLogs | src/main/java/com/evolveum/validation/command/AppCommand.java:87-94 | no logs print no error line and never fail; a successful print ends standard output with the blank-line separator and writes one error line per log |

## Left out

- The Prism engine is not modelled. This covers its parsers, its schema registry, its item-path parser and its serializers. It is a parameter, so no property depends on what it does.
- A narrower item path reporting no more logs than a wider one is a property of the engine's parser. It is not modelled.
- Creating the engine context (`PrismContextService`) is not modelled. It is assumed to succeed. In the validator it runs before the `null` checks and is not caught; in the converter its failure would be wrapped like any other.
- Logging through SLF4J is not modelled, and neither is writing to standard output or standard error. Printing is modelled as the sequence of lines written.
- Reading files is not modelled (`Files.readString`), and neither is walking `midpoint-samples`. `ValidateSamples` stands for that action. Each sample's language comes from the same file-name lookup, `LangByPath`.
- Only Unix path syntax is modelled. `Path.of` is modelled as rejecting only a NUL character. Windows paths are not modelled.
- SupportedLanguages.FromValue: case folding covers ASCII letters only. Java's `equalsIgnoreCase` also folds some non-ASCII letters, for example U+017F (long s) matches `s`, so `fromValue("jſon")` finds nothing here but JSON in Java.
- Several texts come from the diagnostic library and are left as parameters:
  - a log type's label and `toString()`;
  - a location's and an argument's `toString()`;
  - `String.formatted`, which yields no text where the template does not fit its arguments; the serializer then throws `IllegalFormatException`. Which templates fit is not modelled.
  A value is likewise given by its `toString()` text (`JavaValue.Text`).
- How Jackson renders objects passed to `writeObject` is not modelled; they stay `Pojo` values in the trace.
- A serializer that throws part-way has already written some events. The model records only the exception.
- AppCommand.PrintLogs: a log without a location throws after the error lines of the logs before it have been printed. The model records only the exception, not those lines.
- A `null` log type, a `null` technical message, a `null` argument type, `null` technical arguments, a `null` message and a `null` specification are not modelled. A `null` log type would throw in the flat serializer's `getLabel()` and in the command line's `toString()`; a `null` technical message would throw in both serializers. Their types in the model do not allow them.
- CodeValidators.Combine: the Java lambda appends to the list the first validator returned. Aliasing that list, and the failure of `addAll` on an immutable list, are not modelled.
- The `CodeValidator` interface method declares no checked exception, while the implementation declares `throws Exception`. The model treats every exception the same way.
- LanguageUtils.DetectLanguage: a `null` text, which throws in `stripLeadingNoise`, is not modelled. Command-line arguments are never `null`.
- The engine's `findComplexTypeDefinitionByType` and `findItemDefinition` are modelled as returning a definition or `null` without throwing, and `newContainerDefinition` as always succeeding. `qualifyTypeName`, `asItemPath`, the parsers and the serializer may throw.
- LanguageUtils.StripLeadingNoise: what is removed is proved for whitespace alone and for whitespace followed by one comment of each kind (module `LeadingNoise`). A prefix made of several comments is covered only by the general facts that the result is a suffix and starts with significant text.
