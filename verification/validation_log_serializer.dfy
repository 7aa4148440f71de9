/** The structured JSON rendering of a list of validation logs: one object per
    log, with the technical message's arguments as nested objects. */
module ValidationLogSerializer {
  import opened Wrappers
  import opened Exceptions
  import opened Diagnostics
  import opened JsonEvents

  /** An argument the serializer cannot write: a DEFINITION whose value is
      `null`, or a DEFINITION_LIST whose `ArrayList` holds a `null` element
      (calling `toString()` on it throws). */
  predicate ArgumentThrows(a: Argument) {
    match a.argumentType
    case Definition => a.value.Null?
    case DefinitionList => a.value.ArrayList? && exists k :: 0 <= k < |a.value.items| && a.value.items[k].None?
    case Plain => false
  }

  predicate LogThrows(log: ValidationLog) {
    exists k :: 0 <= k < |log.technicalMessage.arguments| && ArgumentThrows(log.technicalMessage.arguments[k])
  }

  /** The loop over an `ArrayList` of definitions, one `writeString` each. */
  function DefinitionEvents(defs: seq<Option<string>>): (r: Result<seq<Event>, Exception>)
    ensures r.Failure? <==> exists k :: 0 <= k < |defs| && defs[k].None?
    ensures r.Failure? ==> r.error == NullPointerException
  {
    if |defs| == 0 then Success([])
    else
      match defs[0]
      case None => Failure(NullPointerException)
      case Some(t) =>
        match DefinitionEvents(defs[1..])
        case Failure(e) => Failure(e)
        case Success(rest) => Success([Str(t)] + rest)
  }

  /** The generator calls for one argument object. */
  function ArgumentEvents(a: Argument): (r: Result<seq<Event>, Exception>)
    ensures r.Failure? <==> ArgumentThrows(a)
    ensures r.Failure? ==> r.error == NullPointerException
    ensures r.Success? ==> |r.value| >= 2 && r.value[0] == StartObject && r.value[|r.value| - 1] == EndObject
  {
    var typeField := [Field("type"), Obj(ArgumentTypeObject(a.argumentType)), EndObject];
    match a.argumentType
    case DefinitionList =>
      var defs := if a.value.ArrayList? then a.value.items else [];
      (match DefinitionEvents(defs)
       case Failure(e) => Failure(e)
       case Success(strs) => Success([StartObject, Field("definitions"), StartArray] + strs + [EndArray] + typeField))
    case Definition =>
      if a.value.Null? then Failure(NullPointerException)
      else Success([StartObject, Field("value"), Str(ValueOf(a.value))] + typeField)
    case Plain =>
      var value := if a.value.Null? then None else Some(ValueObject(a.value));
      Success([StartObject, Field("value")] + WriteObject(value) + typeField)
  }

  /** The inner loop over the arguments; the first exception ends it. */
  function ArgumentsEvents(args: seq<Argument>): (r: Result<seq<Event>, Exception>)
    ensures r.Failure? <==> exists k :: 0 <= k < |args| && ArgumentThrows(args[k])
    ensures r.Failure? ==> r.error == NullPointerException
  {
    if |args| == 0 then Success([])
    else
      match ArgumentEvents(args[0])
      case Failure(e) => Failure(e)
      case Success(first) =>
        match ArgumentsEvents(args[1..])
        case Failure(e) => Failure(e)
        case Success(rest) => Success(first + rest)
  }

  /** The generator calls for one log object; an exception from the
      arguments loop ends it. */
  function LogEvents(log: ValidationLog): (r: Result<seq<Event>, Exception>)
    ensures r.Failure? <==> LogThrows(log)
    ensures r.Failure? ==> r.error == NullPointerException
    ensures r.Success? ==> |r.value| >= 2 && r.value[0] == StartObject && r.value[|r.value| - 1] == EndObject
  {
    match ArgumentsEvents(log.technicalMessage.arguments)
    case Failure(e) => Failure(e)
    case Success(args) => Success(LogFrame(log, args))
  }

  function LocationObjectOf(log: ValidationLog): Option<Pojo> {
    match log.location
    case None => None
    case Some(l) => Some(LocationObject(l))
  }

  /** The calls that write one log object, one group per field the source
      writes, around the events its arguments loop wrote. */
  function LogFrame(log: ValidationLog, args: seq<Event>): seq<Event> {
    var technicalMessage :=
      [StartObject, Field("message"), Str(log.technicalMessage.message), Field("arguments"), StartArray] + args + [EndArray, EndObject];
    [StartObject] +
    ([Field("type")] + [Obj(LogTypeObject(log.validationLogType))] +
     ([Field("specification")] + [Obj(SpecificationObject(log.specification))] +
      ([Field("location")] + WriteObject(LocationObjectOf(log)) +
       ([Field("message")] + [Str(log.message)] +
        ([Field("technicalMessage")] + technicalMessage))))) +
    [EndObject]
  }

  function LogsEvents(logs: seq<ValidationLog>): (r: Result<seq<Event>, Exception>)
    ensures r.Failure? <==> exists k :: 0 <= k < |logs| && LogThrows(logs[k])
    ensures r.Failure? ==> r.error == NullPointerException
  {
    if |logs| == 0 then Success([])
    else
      match LogEvents(logs[0])
      case Failure(e) => Failure(e)
      case Success(first) =>
        match LogsEvents(logs[1..])
        case Failure(e) => Failure(e)
        case Success(rest) => Success(first + rest)
  }

  /** `serialize`: the whole list as one JSON array, or the exception that
      interrupted it. */
  function Serialize(logs: seq<ValidationLog>): (r: Result<seq<Event>, Exception>)
    ensures r.Failure? <==> exists k :: 0 <= k < |logs| && LogThrows(logs[k])
    ensures r.Failure? ==> r.error == NullPointerException
    ensures r.Success? ==> |r.value| >= 2 && r.value[0] == StartArray && r.value[|r.value| - 1] == EndArray
  {
    match LogsEvents(logs)
    case Failure(e) => Failure(e)
    case Success(body) => Success([StartArray] + body + [EndArray])
  }

  // ---------------------------------------------------------------------
  // The document the serializer is meant to write
  // ---------------------------------------------------------------------

  function DefinitionStrings(defs: seq<Option<string>>): seq<Json> {
    if |defs| == 0 then [] else [JString(ElementText(defs[0]))] + DefinitionStrings(defs[1..])
  }

  /** An argument object: a DEFINITION_LIST keeps its definitions only when
      they arrive as an `ArrayList`, a DEFINITION its value's text and any
      other argument its value as an object. */
  function ArgumentDocument(a: Argument): Json {
    var value :=
      match a.argumentType
      case DefinitionList =>
        Member("definitions", JArray(if a.value.ArrayList? then DefinitionStrings(a.value.items) else []))
      case Definition => Member("value", JString(ValueOf(a.value)))
      case Plain => Member("value", if a.value.Null? then JNull else JPojo(ValueObject(a.value)));
    JObject([value, Member("type", JPojo(ArgumentTypeObject(a.argumentType)))])
  }

  function ArgumentDocuments(args: seq<Argument>): (r: seq<Json>)
    ensures |r| == |args|
    ensures forall k :: 0 <= k < |args| ==> r[k] == ArgumentDocument(args[k])
  {
    if |args| == 0 then [] else [ArgumentDocument(args[0])] + ArgumentDocuments(args[1..])
  }

  function LogDocument(log: ValidationLog): Json {
    JObject([
      Member("type", JPojo(LogTypeObject(log.validationLogType))),
      Member("specification", JPojo(SpecificationObject(log.specification))),
      Member("location", match log.location case None => JNull case Some(l) => JPojo(LocationObject(l))),
      Member("message", JString(log.message)),
      Member("technicalMessage", JObject([
        Member("message", JString(log.technicalMessage.message)),
        Member("arguments", JArray(ArgumentDocuments(log.technicalMessage.arguments)))]))])
  }

  function LogDocuments(logs: seq<ValidationLog>): (r: seq<Json>)
    ensures |r| == |logs|
    ensures forall k :: 0 <= k < |logs| ==> r[k] == LogDocument(logs[k])
  {
    if |logs| == 0 then [] else [LogDocument(logs[0])] + LogDocuments(logs[1..])
  }

  function StructuredDocument(logs: seq<ValidationLog>): Json {
    JArray(LogDocuments(logs))
  }

  // ---------------------------------------------------------------------
  // Properties
  // ---------------------------------------------------------------------

  lemma {:induction false} DefinitionEventsWrite(defs: seq<Option<string>>)
    requires forall k :: 0 <= k < |defs| ==> defs[k].Some?
    ensures DefinitionEvents(defs) == Success(EncodeItems(DefinitionStrings(defs)))
  {
    if |defs| > 0 {
      DefinitionEventsWrite(defs[1..]);
    }
  }

  /** The calls a DEFINITION_LIST argument makes, with its definitions'
      strings as the document writes them. */
  lemma DefinitionListEvents(a: Argument)
    requires a.argumentType == DefinitionList && !ArgumentThrows(a)
    ensures var defs := if a.value.ArrayList? then a.value.items else [];
      ArgumentEvents(a) == Success([StartObject, Field("definitions"), StartArray] + EncodeItems(DefinitionStrings(defs)) +
        [EndArray] + [Field("type"), Obj(ArgumentTypeObject(DefinitionList)), EndObject])
  {
    var defs := if a.value.ArrayList? then a.value.items else [];
    DefinitionEventsWrite(defs);
  }

  /** The events of a two-member object whose first member is an array. */
  lemma ArrayPairShape(first: string, items: seq<Event>, second: string, last: Event)
    ensures [StartObject, Field(first)] + ([StartArray] + items + [EndArray]) + [Field(second)] + [last] + [EndObject] ==
      [StartObject, Field(first), StartArray] + items + [EndArray] + [Field(second), last, EndObject]
  {
  }

  lemma DefinitionListWrite(a: Argument)
    requires a.argumentType == DefinitionList && !ArgumentThrows(a)
    ensures ArgumentEvents(a) == Success(Encode(ArgumentDocument(a)))
  {
    var defs := if a.value.ArrayList? then a.value.items else [];
    var m := Member("definitions", JArray(DefinitionStrings(defs)));
    var t := Member("type", JPojo(ArgumentTypeObject(DefinitionList)));
    assert ArgumentDocument(a) == JObject([m, t]);
    EncodePair(m, t);
    var strs := EncodeItems(DefinitionStrings(defs));
    assert Encode(m.value) == [StartArray] + strs + [EndArray];
    ArrayPairShape("definitions", strs, "type", Obj(ArgumentTypeObject(DefinitionList)));
    DefinitionListEvents(a);
  }

  lemma DefinitionWrite(a: Argument)
    requires a.argumentType == Definition && !ArgumentThrows(a)
    ensures ArgumentEvents(a) == Success(Encode(ArgumentDocument(a)))
  {
    var m := Member("value", JString(ValueOf(a.value)));
    var t := Member("type", JPojo(ArgumentTypeObject(Definition)));
    assert ArgumentDocument(a) == JObject([m, t]);
    EncodePair(m, t);
    var head := [StartObject, Field("value"), Str(ValueOf(a.value))];
    var tail := [Field("type"), Obj(ArgumentTypeObject(Definition)), EndObject];
    assert Encode(JObject([m, t])) == head + tail;
    assert ArgumentEvents(a) == Success(head + tail);
  }

  lemma PlainWrite(a: Argument)
    requires a.argumentType == Plain
    ensures ArgumentEvents(a) == Success(Encode(ArgumentDocument(a)))
  {
    var value := if a.value.Null? then None else Some(ValueObject(a.value));
    var m := Member("value", if a.value.Null? then JNull else JPojo(ValueObject(a.value)));
    var t := Member("type", JPojo(ArgumentTypeObject(Plain)));
    assert ArgumentDocument(a) == JObject([m, t]);
    EncodePair(m, t);
    assert Encode(m.value) == WriteObject(value);
    var head := [StartObject, Field("value")] + WriteObject(value);
    var tail := [Field("type"), Obj(ArgumentTypeObject(Plain)), EndObject];
    assert Encode(JObject([m, t])) == head + tail;
    assert ArgumentEvents(a) == Success(head + tail);
  }

  /** An argument the serializer can write becomes exactly its document. */
  lemma ArgumentEventsWrite(a: Argument)
    ensures ArgumentEvents(a).Failure? <==> ArgumentThrows(a)
    ensures ArgumentEvents(a).Failure? ==> ArgumentEvents(a).error == NullPointerException
    ensures !ArgumentThrows(a) ==> ArgumentEvents(a) == Success(Encode(ArgumentDocument(a)))
  {
    if !ArgumentThrows(a) {
      match a.argumentType
      case DefinitionList => DefinitionListWrite(a);
      case Definition => DefinitionWrite(a);
      case Plain => PlainWrite(a);
    }
  }

  lemma {:induction false} ArgumentsEventsWrite(args: seq<Argument>)
    ensures ArgumentsEvents(args).Failure? <==> exists k :: 0 <= k < |args| && ArgumentThrows(args[k])
    ensures ArgumentsEvents(args).Failure? ==> ArgumentsEvents(args).error == NullPointerException
    ensures ArgumentsEvents(args).Success? ==> ArgumentsEvents(args).value == EncodeItems(ArgumentDocuments(args))
  {
    if |args| > 0 {
      ArgumentEventsWrite(args[0]);
      ArgumentsEventsWrite(args[1..]);
      if ArgumentsEvents(args).Failure? {
        if !ArgumentThrows(args[0]) {
          var k :| 0 <= k < |args[1..]| && ArgumentThrows(args[1..][k]);
          assert ArgumentThrows(args[k + 1]);
        }
      } else {
        forall k | 0 <= k < |args| ensures !ArgumentThrows(args[k]) {
          if k > 0 { assert args[k] == args[1..][k - 1]; }
        }
      }
    }
  }

  /** The technical-message object: its message, then its arguments array. */
  lemma TechnicalMessageWrite(tm: TechnicalMessage, args: seq<Event>)
    requires args == EncodeItems(ArgumentDocuments(tm.arguments))
    ensures Encode(JObject([Member("message", JString(tm.message)), Member("arguments", JArray(ArgumentDocuments(tm.arguments)))])) ==
      [StartObject, Field("message"), Str(tm.message), Field("arguments"), StartArray] + args + [EndArray, EndObject]
  {
    var argsArray := JArray(ArgumentDocuments(tm.arguments));
    EncodePair(Member("message", JString(tm.message)), Member("arguments", argsArray));
    assert Encode(argsArray) == [StartArray] + args + [EndArray];
  }

  lemma LogDocumentFrame(log: ValidationLog, args: seq<Event>)
    requires args == EncodeItems(ArgumentDocuments(log.technicalMessage.arguments))
    ensures Encode(LogDocument(log)) == LogFrame(log, args)
  {
    var ms := LogDocument(log).members;
    assert LogDocument(log) == JObject([ms[0], ms[1], ms[2], ms[3], ms[4]]);
    EncodeFive(ms[0], ms[1], ms[2], ms[3], ms[4]);
    TechnicalMessageWrite(log.technicalMessage, args);
    assert Encode(ms[2].value) == WriteObject(LocationObjectOf(log));
  }

  lemma LogEventsWrite(log: ValidationLog)
    ensures LogEvents(log).Failure? <==> LogThrows(log)
    ensures LogEvents(log).Failure? ==> LogEvents(log).error == NullPointerException
    ensures LogEvents(log).Success? ==> LogEvents(log).value == Encode(LogDocument(log))
  {
    ArgumentsEventsWrite(log.technicalMessage.arguments);
    if ArgumentsEvents(log.technicalMessage.arguments).Success? {
      var args := ArgumentsEvents(log.technicalMessage.arguments).value;
      LogDocumentFrame(log, args);
    }
  }

  lemma {:induction false} LogsEventsWrite(logs: seq<ValidationLog>)
    ensures LogsEvents(logs).Failure? <==> exists k :: 0 <= k < |logs| && LogThrows(logs[k])
    ensures LogsEvents(logs).Failure? ==> LogsEvents(logs).error == NullPointerException
    ensures LogsEvents(logs).Success? ==> LogsEvents(logs).value == EncodeItems(LogDocuments(logs))
  {
    if |logs| > 0 {
      LogEventsWrite(logs[0]);
      LogsEventsWrite(logs[1..]);
      if LogsEvents(logs).Failure? {
        if !LogThrows(logs[0]) {
          var k :| 0 <= k < |logs[1..]| && LogThrows(logs[1..][k]);
          assert LogThrows(logs[k + 1]);
        }
      } else {
        forall k | 0 <= k < |logs| ensures !LogThrows(logs[k]) {
          if k > 0 { assert logs[k] == logs[1..][k - 1]; }
        }
      }
    }
  }

  /** The serializer fails exactly when some argument cannot be written, and
      then with a `NullPointerException`; otherwise it writes the structured
      document, which reads back unchanged and is properly nested. */
  lemma SerializeWritesDocument(logs: seq<ValidationLog>)
    ensures Serialize(logs).Failure? <==> exists k :: 0 <= k < |logs| && LogThrows(logs[k])
    ensures Serialize(logs).Failure? ==> Serialize(logs).error == NullPointerException
    ensures Serialize(logs).Success? ==>
      Serialize(logs).value == Encode(StructuredDocument(logs)) &&
      Decode(Serialize(logs).value) == Some(StructuredDocument(logs)) &&
      Balanced(Serialize(logs).value)
  {
    LogsEventsWrite(logs);
    DecodeEncode(StructuredDocument(logs));
    EncodeBalanced(StructuredDocument(logs));
  }
}
