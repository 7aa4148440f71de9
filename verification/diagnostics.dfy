/** The diagnostic data model reported by validation: a log entry with a
    severity, a specification tag, a source location, a human message and a
    parameterised technical message. */
module Diagnostics {
  import opened Wrappers

  datatype ValidationLogType = Warning | Error

  datatype Specification = UnknownSpecification | Specification(name: string)

  datatype SourceLocation = SourceLocation(source: string, line: int, column: int)

  datatype ArgumentType = Plain | Definition | DefinitionList

  /** The untyped `Object` an argument carries. `Text` is any object that is
      not a list, given by its `toString()`; list elements are given by their
      `toString()`, or `None` for a `null` element. */
  datatype JavaValue =
    | Null
    | Text(text: string)
    | ArrayList(items: seq<Option<string>>)       // a `java.util.ArrayList`
    | OtherList(items: seq<Option<string>>)       // any other `List`, e.g. `List.of(...)`

  datatype Argument = Argument(argumentType: ArgumentType, value: JavaValue)

  datatype TechnicalMessage = TechnicalMessage(message: string, arguments: seq<Argument>)

  /** `location` is `None` when the engine attached no location. */
  datatype ValidationLog = ValidationLog(
    validationLogType: ValidationLogType,
    specification: Specification,
    location: Option<SourceLocation>,
    message: string,
    technicalMessage: TechnicalMessage)

  /** `parts` joined with `sep` between consecutive parts. */
  function Join(sep: string, parts: seq<string>): string {
    if |parts| == 0 then ""
    else if |parts| == 1 then parts[0]
    else parts[0] + sep + Join(sep, parts[1..])
  }

  /** `String.valueOf` of a list element. */
  function ElementText(e: Option<string>): string {
    match e
    case None => "null"
    case Some(t) => t
  }

  function ElementTexts(items: seq<Option<string>>): (r: seq<string>)
    ensures |r| == |items|
    ensures forall k :: 0 <= k < |items| ==> r[k] == ElementText(items[k])
  {
    if |items| == 0 then [] else [ElementText(items[0])] + ElementTexts(items[1..])
  }

  /** `String.valueOf(value)`; for lists, `AbstractCollection.toString()`:
      the elements' texts, comma separated, in brackets. */
  function ValueOf(v: JavaValue): (r: string)
    ensures v.Null? ==> r == "null"
    ensures v.Text? ==> r == v.text
    ensures (v.ArrayList? || v.OtherList?) ==> |r| >= 2 && r[0] == '[' && r[|r| - 1] == ']'
    ensures (v.ArrayList? || v.OtherList?) && |v.items| == 0 ==> r == "[]"
    ensures (v.ArrayList? || v.OtherList?) && |v.items| == 1 ==> r == "[" + ElementText(v.items[0]) + "]"
    ensures (v.ArrayList? || v.OtherList?) ==> r == "[" + Join(", ", ElementTexts(v.items)) + "]"
    ensures (v.ArrayList? || v.OtherList?) && |v.items| == 2 ==>
      r == "[" + ElementText(v.items[0]) + ", " + ElementText(v.items[1]) + "]"
  {
    match v
    case Null => "null"
    case Text(t) => t
    case ArrayList(items) => "[" + Join(", ", ElementTexts(items)) + "]"
    case OtherList(items) => "[" + Join(", ", ElementTexts(items)) + "]"
  }
}
