/** The flattened JSON rendering of a list of validation logs: one object per
    log whose fields are all plain strings (or null). */
module ValidationLogListSerializer {
  import opened Wrappers
  import opened Exceptions
  import opened Diagnostics
  import opened JsonEvents

  /** The texts this rendering takes from the diagnostic library, which is not
      part of this model: a log type's label, a location's and an argument's
      `toString()`, and `String.formatted` of a message with its arguments,
      which is `None` where the template does not fit the arguments and Java
      throws an `IllegalFormatException`. */
  datatype Rendering = Rendering(
    logTypeLabel: ValidationLogType -> string,
    locationText: SourceLocation -> string,
    argumentText: Argument -> string,
    format: (string, seq<Argument>) -> Option<string>)

  /** The log's technical message cannot be formatted with its arguments. */
  predicate FormatFails(r: Rendering, log: ValidationLog) {
    r.format(log.technicalMessage.message, log.technicalMessage.arguments).None?
  }

  function ArgumentTexts(r: Rendering, args: seq<Argument>): (texts: seq<string>)
    ensures |texts| == |args|
    ensures forall k :: 0 <= k < |args| ==> texts[k] == r.argumentText(args[k])
  {
    if |args| == 0 then [] else [r.argumentText(args[0])] + ArgumentTexts(r, args[1..])
  }

  /** `Arrays.toString` of the arguments. */
  function ArgumentsText(r: Rendering, args: seq<Argument>): string {
    "[" + Join(", ", ArgumentTexts(r, args)) + "]"
  }

  function LocationText(r: Rendering, log: ValidationLog): Option<string> {
    match log.location
    case None => None
    case Some(l) => Some(r.locationText(l))
  }

  /** The calls that write one log object, one group per field the source
      writes, or the exception formatting its technical message threw. */
  function LogEvents(r: Rendering, log: ValidationLog): (res: Result<seq<Event>, Exception>)
    ensures res.Failure? <==> FormatFails(r, log)
    ensures res.Failure? ==> res.error == IllegalFormatException
  {
    var tm := log.technicalMessage;
    match r.format(tm.message, tm.arguments)
    case None => Failure(IllegalFormatException)
    case Some(technicalMessage) =>
      Success(
        [StartObject] +
        ([Field("validationLogType")] + [Str(r.logTypeLabel(log.validationLogType))] +
         ([Field("location")] + WriteString(LocationText(r, log)) +
          ([Field("technicalMessage")] + [Str(technicalMessage)] +
           ([Field("technicalArguments")] + [Str(ArgumentsText(r, tm.arguments))] +
            ([Field("message")] + [Obj(StringObject(log.message))]))))) +
        [EndObject])
  }

  function LogsEvents(r: Rendering, logs: seq<ValidationLog>): (res: Result<seq<Event>, Exception>)
    ensures res.Failure? <==> exists k :: 0 <= k < |logs| && FormatFails(r, logs[k])
    ensures res.Failure? ==> res.error == IllegalFormatException
  {
    if |logs| == 0 then Success([])
    else
      match LogEvents(r, logs[0])
      case Failure(e) => Failure(e)
      case Success(first) =>
        match LogsEvents(r, logs[1..])
        case Failure(e) => Failure(e)
        case Success(rest) => Success(first + rest)
  }

  /** `serialize`: the whole list as one JSON array, or the exception that
      interrupted it. */
  function Serialize(r: Rendering, logs: seq<ValidationLog>): (res: Result<seq<Event>, Exception>)
    ensures res.Failure? <==> exists k :: 0 <= k < |logs| && FormatFails(r, logs[k])
    ensures res.Failure? ==> res.error == IllegalFormatException
    ensures res.Success? ==> |res.value| >= 2 && res.value[0] == StartArray && res.value[|res.value| - 1] == EndArray
    ensures |logs| == 0 ==> res == Success([StartArray, EndArray])
  {
    match LogsEvents(r, logs)
    case Failure(e) => Failure(e)
    case Success(body) =>
      assert |logs| == 0 ==> [StartArray] + body + [EndArray] == [StartArray, EndArray];
      Success([StartArray] + body + [EndArray])
  }

  // ---------------------------------------------------------------------
  // The document the serializer is meant to write
  // ---------------------------------------------------------------------

  function LogDocument(r: Rendering, log: ValidationLog): Json
    requires !FormatFails(r, log)
  {
    var tm := log.technicalMessage;
    JObject([
      Member("validationLogType", JString(r.logTypeLabel(log.validationLogType))),
      Member("location", match LocationText(r, log) case None => JNull case Some(t) => JString(t)),
      Member("technicalMessage", JString(r.format(tm.message, tm.arguments).value)),
      Member("technicalArguments", JString(ArgumentsText(r, tm.arguments))),
      Member("message", JPojo(StringObject(log.message)))])
  }

  function LogDocuments(r: Rendering, logs: seq<ValidationLog>): (docs: seq<Json>)
    requires forall k :: 0 <= k < |logs| ==> !FormatFails(r, logs[k])
    ensures |docs| == |logs|
    ensures forall k :: 0 <= k < |logs| ==> docs[k] == LogDocument(r, logs[k])
  {
    if |logs| == 0 then [] else [LogDocument(r, logs[0])] + LogDocuments(r, logs[1..])
  }

  function FlatDocument(r: Rendering, logs: seq<ValidationLog>): Json
    requires forall k :: 0 <= k < |logs| ==> !FormatFails(r, logs[k])
  {
    JArray(LogDocuments(r, logs))
  }

  // ---------------------------------------------------------------------
  // Properties
  // ---------------------------------------------------------------------

  lemma LogEventsWrite(r: Rendering, log: ValidationLog)
    ensures LogEvents(r, log).Failure? <==> FormatFails(r, log)
    ensures LogEvents(r, log).Success? ==> LogEvents(r, log).value == Encode(LogDocument(r, log))
  {
    if !FormatFails(r, log) {
      var ms := LogDocument(r, log).members;
      assert LogDocument(r, log) == JObject([ms[0], ms[1], ms[2], ms[3], ms[4]]);
      EncodeFive(ms[0], ms[1], ms[2], ms[3], ms[4]);
      assert Encode(ms[1].value) == WriteString(LocationText(r, log));
    }
  }

  lemma {:induction false} LogsEventsWrite(r: Rendering, logs: seq<ValidationLog>)
    ensures LogsEvents(r, logs).Failure? <==> exists k :: 0 <= k < |logs| && FormatFails(r, logs[k])
    ensures LogsEvents(r, logs).Success? ==> LogsEvents(r, logs).value == EncodeItems(LogDocuments(r, logs))
  {
    if |logs| > 0 {
      LogEventsWrite(r, logs[0]);
      LogsEventsWrite(r, logs[1..]);
      if LogsEvents(r, logs).Failure? {
        if !FormatFails(r, logs[0]) {
          var k :| 0 <= k < |logs[1..]| && FormatFails(r, logs[1..][k]);
          assert FormatFails(r, logs[k + 1]);
        }
      } else {
        forall k | 0 <= k < |logs| ensures !FormatFails(r, logs[k]) {
          if k > 0 { assert logs[k] == logs[1..][k - 1]; }
        }
      }
    }
  }

  /** The serializer fails exactly when some log's technical message cannot be
      formatted, and then with an `IllegalFormatException`; otherwise it writes
      the flat document, which reads back unchanged and is properly nested. */
  lemma SerializeWritesDocument(r: Rendering, logs: seq<ValidationLog>)
    ensures Serialize(r, logs).Failure? <==> exists k :: 0 <= k < |logs| && FormatFails(r, logs[k])
    ensures Serialize(r, logs).Failure? ==> Serialize(r, logs).error == IllegalFormatException
    ensures Serialize(r, logs).Success? ==>
      Serialize(r, logs).value == Encode(FlatDocument(r, logs)) &&
      Decode(Serialize(r, logs).value) == Some(FlatDocument(r, logs)) &&
      Balanced(Serialize(r, logs).value)
  {
    LogsEventsWrite(r, logs);
    if Serialize(r, logs).Success? {
      DecodeEncode(FlatDocument(r, logs));
      EncodeBalanced(FlatDocument(r, logs));
    }
  }

  predicate NoArrays(ev: seq<Event>) {
    forall k :: 0 <= k < |ev| ==> !ev[k].StartArray? && !ev[k].EndArray?
  }

  lemma NoArraysConcat(a: seq<Event>, b: seq<Event>)
    requires NoArrays(a) && NoArrays(b)
    ensures NoArrays(a + b)
  {
    forall k | 0 <= k < |a + b| ensures !(a + b)[k].StartArray? && !(a + b)[k].EndArray? {
      if k >= |a| { assert (a + b)[k] == b[k - |a|]; }
    }
  }

  /** One log object opens no array. */
  lemma LogEventsHaveNoArrays(r: Rendering, log: ValidationLog)
    ensures LogEvents(r, log).Success? ==> NoArrays(LogEvents(r, log).value)
  {
    var tm := log.technicalMessage;
    if !FormatFails(r, log) {
      var e5 := [Field("message")] + [Obj(StringObject(log.message))];
      var e4 := [Field("technicalArguments")] + [Str(ArgumentsText(r, tm.arguments))];
      var e3 := [Field("technicalMessage")] + [Str(r.format(tm.message, tm.arguments).value)];
      var e2 := [Field("location")] + WriteString(LocationText(r, log));
      var e1 := [Field("validationLogType")] + [Str(r.logTypeLabel(log.validationLogType))];
      NoArraysConcat(e4, e5);
      NoArraysConcat(e3, e4 + e5);
      NoArraysConcat(e2, e3 + (e4 + e5));
      NoArraysConcat(e1, e2 + (e3 + (e4 + e5)));
      NoArraysConcat([StartObject], e1 + (e2 + (e3 + (e4 + e5))));
      NoArraysConcat([StartObject] + (e1 + (e2 + (e3 + (e4 + e5)))), [EndObject]);
    }
  }

  lemma {:induction false} LogsEventsHaveNoArrays(r: Rendering, logs: seq<ValidationLog>)
    ensures LogsEvents(r, logs).Success? ==> NoArrays(LogsEvents(r, logs).value)
  {
    if |logs| > 0 && LogsEvents(r, logs).Success? {
      LogsEventsHaveNoArrays(r, logs[1..]);
      LogEventsHaveNoArrays(r, logs[0]);
      NoArraysConcat(LogEvents(r, logs[0]).value, LogsEvents(r, logs[1..]).value);
    }
  }

  /** Flattening: the outer list is the only array written; in particular the
      technical arguments are one string, not a nested array. */
  lemma OnlyArrayIsOuter(r: Rendering, logs: seq<ValidationLog>)
    ensures Serialize(r, logs).Success? ==>
      var ev := Serialize(r, logs).value;
      ev[0] == StartArray && ev[|ev| - 1] == EndArray &&
      forall k :: 0 < k < |ev| - 1 ==> !ev[k].StartArray? && !ev[k].EndArray?
  {
    LogsEventsHaveNoArrays(r, logs);
    if Serialize(r, logs).Success? {
      var ev := Serialize(r, logs).value;
      var body := LogsEvents(r, logs).value;
      forall k | 0 < k < |ev| - 1 ensures !ev[k].StartArray? && !ev[k].EndArray? {
        assert ev[k] == body[k - 1];
      }
    }
  }

  /** One log whose template does not fit its arguments interrupts the whole
      list, however well formed the other logs are. */
  lemma FormatFailureStopsList(r: Rendering, logs: seq<ValidationLog>, k: nat)
    requires k < |logs| && FormatFails(r, logs[k])
    ensures Serialize(r, logs) == Failure(IllegalFormatException)
  {
  }
}
