/** The command-line entry point: how the arguments select an action, how a
    file's language follows from its name, and how validation logs are printed. */
module AppCommand {
  import opened Wrappers
  import opened Exceptions
  import opened Diagnostics
  import opened SupportedLanguages
  import opened LanguageUtils
  import opened Prism
  import CodeValidatorImpl
  import Converter
  import CodeValidators

  /** What a run goes on to do once its arguments are read. */
  datatype Action =
    | NoAction                                    // returns without output
    | UnknownCommand                              // prints "Unknown command" and the command list
    | ValidateSamples                             // validates every file under `midpoint-samples`
    | ValidateSnippet(code: string, language: Option<SupportedLanguage>)
    | ValidateFile(path: string, fileLanguage: SupportedLanguage)
    | ConvertSnippet(code: string, targetLanguage: string, language: Option<SupportedLanguage>)

  /** `run` either goes on to an action or throws, possibly after printing
      the command list. */
  datatype Dispatch = Perform(action: Action) | Rejected(usageShown: bool, error: Exception)

  const BadArguments := IllegalArgumentException("Bad argument input")
  const UnsupportedFileLanguage := IllegalArgumentException("Unsupported language")

  // ---------------------------------------------------------------------
  // File names
  // ---------------------------------------------------------------------

  /** The last position before `n` at which `s` holds `c`, or -1. */
  function LastIndexBefore(s: string, c: char, n: nat): (r: int)
    requires n <= |s|
    ensures -1 <= r < n
    ensures r == -1 <==> forall k :: 0 <= k < n ==> s[k] != c
    ensures r >= 0 ==> s[r] == c && forall k :: r < k < n ==> s[k] != c
  {
    if n == 0 then -1
    else if s[n - 1] == c then n - 1
    else LastIndexBefore(s, c, n - 1)
  }

  /** `s.lastIndexOf(c)`. */
  function LastIndexOf(s: string, c: char): (r: int)
    ensures -1 <= r < |s|
    ensures r == -1 <==> forall k :: 0 <= k < |s| ==> s[k] != c
    ensures r >= 0 ==> s[r] == c && forall k :: r < k < |s| ==> s[k] != c
  {
    LastIndexBefore(s, c, |s|)
  }

  /** `path` without its trailing slashes. */
  function TrimTrailingSlashes(path: string): (t: string)
    ensures t <= path && (t == [] || t[|t| - 1] != '/')
    ensures forall k :: |t| <= k < |path| ==> path[k] == '/'
  {
    if |path| > 0 && path[|path| - 1] == '/' then TrimTrailingSlashes(path[..|path| - 1]) else path
  }

  /** `Path.of(path).getFileName().toString()` on a Unix file system: the
      last name in the path; the empty path is its own file name and a path of
      slashes only has none, so `toString()` throws. */
  function FileName(path: string): (r: Result<string, Exception>)
    ensures r.Success? ==> forall k :: 0 <= k < |r.value| ==> r.value[k] != '/'
    ensures r.Failure? <==> path != [] && forall k :: 0 <= k < |path| ==> path[k] == '/'
  {
    var t := TrimTrailingSlashes(path);
    if path == [] then Success([])
    else if t == [] then Failure(NullPointerException)
    else Success(t[LastIndexOf(t, '/') + 1..])
  }

  /** `getLangByPath` for a file name: the extension after the last dot,
      matched ignoring case, provided the dot is not the first character. */
  function LangByFileName(name: string): (r: Option<SupportedLanguage>)
    ensures r.Some? ==>
      exists dot :: 0 < dot < |name| && name[dot] == '.' && '.' !in name[dot + 1..] && SameIgnoringCase(Value(r.value), name[dot + 1..])
    ensures (forall k :: 0 < k < |name| ==> name[k] != '.') ==> r.None?
  {
    var dot := LastIndexOf(name, '.');
    if dot > 0 then
      var ext := name[dot + 1..];
      assert '.' !in ext by {
        forall k | 0 <= k < |ext| ensures ext[k] != '.' {
          assert ext[k] == name[dot + 1 + k];
        }
      }
      FromValue(Some(ext))
    else None
  }

  /** `getLangByPath(Path.of(path))`. */
  function LangByPath(path: string): (r: Result<Option<SupportedLanguage>, Exception>)
    ensures r.Failure? <==> '\0' in path || (path != [] && forall k :: 0 <= k < |path| ==> path[k] == '/')
    ensures r.Failure? && '\0' in path ==> r.error == InvalidPathException(path)
    ensures r.Failure? && '\0' !in path ==> r.error == NullPointerException
  {
    if '\0' in path then Failure(InvalidPathException(path))
    else
      match FileName(path)
      case Failure(e) => Failure(e)
      case Success(name) => Success(LangByFileName(name))
  }

  // ---------------------------------------------------------------------
  // Dispatch
  // ---------------------------------------------------------------------

  /** `run(args)` up to the action it performs. */
  function Run(args: seq<string>): (d: Dispatch)
    ensures |args| == 0 ==> d == Perform(NoAction)
    ensures d == Perform(UnknownCommand) <==> |args| > 0 && args[0] != "validate" && args[0] != "convert"
    ensures (d.Rejected? && d.usageShown) <==>
      |args| > 0 && ((args[0] == "validate" && |args| != 2 && |args| != 3) || (args[0] == "convert" && |args| != 3))
    ensures d.Rejected? && d.usageShown ==> d.error == BadArguments
    ensures d.Perform? && d.action.ValidateFile? ==>
      |args| == 3 && args[2] == "-f" && d.action.path == args[1] && LangByPath(args[1]) == Success(Some(d.action.fileLanguage))
    ensures d.Perform? && (d.action.ValidateSnippet? || d.action.ConvertSnippet?) ==>
      d.action.code == args[1] && d.action.language == DetectLanguage(args[1])
    // `validate` with one argument: the samples flag, or a snippet
    ensures |args| == 2 && args[0] == "validate" && (args[1] == "-ms" || args[1] == "-midpoint-samples") ==>
      d == Perform(ValidateSamples)
    ensures |args| == 2 && args[0] == "validate" && args[1] != "-ms" && args[1] != "-midpoint-samples" ==>
      d == Perform(ValidateSnippet(args[1], DetectLanguage(args[1])))
    // `validate` with two arguments: a file when the second is `-f`, otherwise nothing
    ensures |args| == 3 && args[0] == "validate" && args[2] != "-f" ==> d == Perform(NoAction)
    ensures |args| == 3 && args[0] == "validate" && args[2] == "-f" ==>
      match LangByPath(args[1])
      case Failure(e) => d == Rejected(false, e)
      case Success(None) => d == Rejected(false, UnsupportedFileLanguage)
      case Success(Some(l)) => d == Perform(ValidateFile(args[1], l))
    // `convert` with two arguments: the snippet, the target, the sniffed language
    ensures |args| == 3 && args[0] == "convert" ==> d == Perform(ConvertSnippet(args[1], args[2], DetectLanguage(args[1])))
  {
    if |args| == 0 then Perform(NoAction)
    else if args[0] == "validate" then
      if |args| == 2 then
        if args[1] == "-ms" || args[1] == "-midpoint-samples" then Perform(ValidateSamples)
        else Perform(ValidateSnippet(args[1], DetectLanguage(args[1])))
      else if |args| == 3 then
        if args[2] == "-f" then
          match LangByPath(args[1])
          case Failure(e) => Rejected(false, e)
          case Success(None) => Rejected(false, UnsupportedFileLanguage)
          case Success(Some(l)) => Perform(ValidateFile(args[1], l))
        else Perform(NoAction)
      else Rejected(true, BadArguments)
    else if args[0] == "convert" then
      if |args| == 3 then Perform(ConvertSnippet(args[1], args[2], DetectLanguage(args[1])))
      else Rejected(true, BadArguments)
    else Perform(UnknownCommand)
  }

  /** The validation a snippet on the command line gets: no object type, no
      item path, and the language the sniffer finds. */
  function ValidateSnippetOutcome(engine: Engine, code: string): (r: CodeValidators.Outcome)
    ensures DetectLanguage(code) == None ==> r == Failure(NullPointerException)
  {
    CodeValidatorImpl.Validate(engine, CodeValidatorImpl.ValidationParams(None, None), Some(code), DetectLanguage(code))
  }

  /** The conversion a snippet on the command line gets. */
  function ConvertSnippetOutcome(engine: Engine, code: string, targetLanguage: string): (r: Result<string, Exception>)
    ensures DetectLanguage(code) == None ==> r == Failure(RuntimeException(NullPointerException))
  {
    Converter.Convert(engine, Some(targetLanguage), Some(code), DetectLanguage(code))
  }

  // ---------------------------------------------------------------------
  // Printing the logs
  // ---------------------------------------------------------------------

  /** The `toString()` of a log type and of a location, which the diagnostic
      library defines. */
  datatype LogText = LogText(typeText: ValidationLogType -> string, locationText: SourceLocation -> string)

  /** What `validate` prints: lines to standard output and to standard error. */
  datatype Printed = Printed(out: seq<string>, err: seq<string>)

  /** The error line of one log: `log.location().toString()` throws when
      the log has no location. */
  function LogLine(text: LogText, log: ValidationLog): (r: Result<string, Exception>)
    ensures r.Failure? <==> log.location.None?
    ensures r.Failure? ==> r.error == NullPointerException
    ensures r.Success? ==> EndsWith(r.value, log.message + "\n")
  {
    match log.location
    case None => Failure(NullPointerException)
    case Some(l) => Success(text.typeText(log.validationLogType) + " " + text.locationText(l) + " " + log.message + "\n")
  }

  /** The error lines of the logs, in order; the first log without a
      location ends the loop. */
  function LogLines(text: LogText, logs: seq<ValidationLog>): (r: Result<seq<string>, Exception>)
    ensures r.Failure? ==> r.error == NullPointerException
    ensures r.Success? ==> |r.value| == |logs|
  {
    if |logs| == 0 then Success([])
    else
      match LogLine(text, logs[0])
      case Failure(e) => Failure(e)
      case Success(line) =>
        match LogLines(text, logs[1..])
        case Failure(e) => Failure(e)
        case Success(lines) => Success([line] + lines)
  }

  /** Printing the logs of one validation. */
  function PrintLogs(text: LogText, logs: seq<ValidationLog>): (r: Result<Printed, Exception>)
    ensures |logs| == 0 ==> r.Success? && r.value.err == []
    ensures r.Success? ==>
      |r.value.out| > 0 && r.value.out[|r.value.out| - 1] == "\n\n\n" && |r.value.err| == |logs|
  {
    if |logs| == 0 then Success(Printed(["Object is correct", "\n\n\n"], []))
    else
      match LogLines(text, logs)
      case Failure(e) => Failure(e)
      case Success(lines) => Success(Printed(["\n\n\n"], lines))
  }

  // ---------------------------------------------------------------------
  // Properties
  // ---------------------------------------------------------------------

  /** Printing fails exactly when some log carries no location; otherwise
      each log gets one error line ending in its message, in order. */
  lemma {:induction false} LogLinesIff(text: LogText, logs: seq<ValidationLog>)
    ensures LogLines(text, logs).Failure? <==> exists k :: 0 <= k < |logs| && logs[k].location.None?
    ensures LogLines(text, logs).Failure? ==> LogLines(text, logs).error == NullPointerException
    ensures LogLines(text, logs).Success? ==>
      |LogLines(text, logs).value| == |logs| &&
      forall k :: 0 <= k < |logs| ==> LogLines(text, logs).value[k] == LogLine(text, logs[k]).value
  {
    if |logs| > 0 {
      LogLinesIff(text, logs[1..]);
      if LogLines(text, logs).Failure? && logs[0].location.Some? {
        var k :| 0 <= k < |logs[1..]| && logs[1..][k].location.None?;
        assert logs[k + 1].location.None?;
      }
      if LogLines(text, logs).Success? {
        forall k | 0 < k < |logs| ensures logs[k].location.Some? {
          assert logs[k] == logs[1..][k - 1];
        }
      }
    }
  }

  predicate EndsWith(s: string, suffix: string) {
    |suffix| <= |s| && s[|s| - |suffix|..] == suffix
  }

  /** `validate` prints "Object is correct" exactly when there are no logs,
      and otherwise one error line per log ending in that log's message; it
      throws exactly when some log carries no location. */
  lemma PrintLogsIff(text: LogText, logs: seq<ValidationLog>)
    ensures PrintLogs(text, logs).Failure? <==> exists k :: 0 <= k < |logs| && logs[k].location.None?
    ensures PrintLogs(text, logs).Success? ==>
      var printed := PrintLogs(text, logs).value;
      && (|logs| == 0 <==> "Object is correct" in printed.out)
      && |printed.err| == |logs|
      && forall k :: 0 <= k < |logs| ==> EndsWith(printed.err[k], logs[k].message + "\n")
  {
    LogLinesIff(text, logs);
    if PrintLogs(text, logs).Success? && |logs| > 0 {
      var printed := PrintLogs(text, logs).value;
      assert printed.out == ["\n\n\n"];
      forall k | 0 <= k < |logs| ensures EndsWith(printed.err[k], logs[k].message + "\n") {
        var l := logs[k].location.value;
        var head := text.typeText(logs[k].validationLogType) + " " + text.locationText(l) + " ";
        assert printed.err[k] == head + (logs[k].message + "\n");
      }
    }
  }

  /** The file name is the last segment of a path, and a path without
      slashes is its own file name. */
  lemma FileNameIsLastSegment(dir: string, name: string)
    requires name != [] && '/' !in name
    ensures FileName(name) == Success(name)
    ensures FileName(dir + "/" + name) == Success(name)
  {
    var path := dir + "/" + name;
    assert path[|path| - 1] == name[|name| - 1];
    assert TrimTrailingSlashes(path) == path;
    assert TrimTrailingSlashes(name) == name;
    assert path[|dir|] == '/';
    assert path[|dir| + 1..] == name;
    assert forall k :: |dir| < k < |path| ==> path[k] == name[k - |dir| - 1];
    assert LastIndexOf(path, '/') == |dir|;
  }

  /** The language of a file name is looked up from the text after its last
      dot, provided something precedes that dot. */
  lemma LangByExtension(stem: string, ext: string)
    requires |stem| > 0 && '.' !in ext
    ensures LangByFileName(stem + "." + ext) == FromValue(Some(ext))
  {
    var name := stem + "." + ext;
    assert name[|stem|] == '.';
    assert name[|stem| + 1..] == ext;
    assert forall k :: |stem| < k < |name| ==> name[k] == ext[k - |stem| - 1];
    assert LastIndexOf(name, '.') == |stem|;
  }

  /** A file name with no dot after its first character has no language. */
  lemma NoExtensionNoLanguage(name: string)
    requires forall k :: 0 < k < |name| ==> name[k] != '.'
    ensures LangByFileName(name) == None
  {
  }

  /** A file `<stem>.<value>` in any directory is read as that language,
      whatever the case of the extension. */
  lemma LangByPathFindsLanguage(dir: string, stem: string, ext: string, l: SupportedLanguage)
    requires stem != [] && '/' !in stem && '.' !in ext && '/' !in ext
    requires '\0' !in dir && '\0' !in stem && '\0' !in ext
    requires SameIgnoringCase(Value(l), ext)
    ensures LangByPath(dir + "/" + stem + "." + ext) == Success(Some(l))
  {
    var name := stem + "." + ext;
    var path := dir + "/" + name;
    assert dir + "/" + stem + "." + ext == path;
    assert '/' !in name by {
      assert forall k :: 0 <= k < |name| ==> name[k] == (if k < |stem| then stem[k] else if k == |stem| then '.' else ext[k - |stem| - 1]);
    }
    assert '\0' !in path by {
      assert forall k :: 0 <= k < |path| ==> path[k] == (if k < |dir| then dir[k] else if k == |dir| then '/' else name[k - |dir| - 1]);
    }
    FileNameIsLastSegment(dir, name);
    LangByExtension(stem, ext);
    FromValueIgnoresCase(l, ext);
  }

  /** A hidden file `.<ext>` has no language, whatever `ext` is. */
  lemma HiddenFileHasNoLanguage(ext: string)
    requires '.' !in ext
    ensures LangByFileName("." + ext) == None
  {
    var name := "." + ext;
    assert forall k :: 0 < k < |name| ==> name[k] == ext[k - 1];
  }

  lemma RunExamples()
    ensures Run([]) == Perform(NoAction)
    ensures Run(["help"]) == Perform(UnknownCommand)
    ensures Run(["validate"]) == Rejected(true, BadArguments)
    ensures Run(["validate", "-ms"]) == Perform(ValidateSamples)
    ensures Run(["validate", "user.xml", "--file"]) == Perform(NoAction)
    ensures Run(["convert", "<user/>"]) == Rejected(true, BadArguments)
  {
  }

  /** A multi-line mapping without a leading `---` reaches the validator and
      the converter with no language, and both end in a null dereference. */
  lemma UndetectedSnippetFails(engine: Engine, code: string, targetLanguage: string, q: nat, p: nat)
    requires var s := StripLeadingNoise(code);
      q < p < |s| && s[q] == ':' && IsLineTerminator(s[p])
      && s[0] != '<' && s[0] != '{' && s[0] != '[' && !("---" <= s)
    ensures Run(["validate", code]) == Perform(ValidateSnippet(code, None))
    ensures ValidateSnippetOutcome(engine, code) == Failure(NullPointerException)
    ensures Run(["convert", code, targetLanguage]) == Perform(ConvertSnippet(code, targetLanguage, None))
    ensures ConvertSnippetOutcome(engine, code, targetLanguage) == Failure(RuntimeException(NullPointerException))
  {
    MultiLineMappingUndetected(code, q, p);
    var s := StripLeadingNoise(code);
    assert code[|code| - |s| + q] == ':';
    NotASamplesFlag(code, |code| - |s| + q);
  }

  lemma NotASamplesFlag(code: string, i: nat)
    requires i < |code| && code[i] == ':'
    ensures code != "-ms" && code != "-midpoint-samples"
  {
    assert ':' in code;
    assert ':' !in "-ms";
    assert ':' !in "-midpoint-samples";
  }
}
